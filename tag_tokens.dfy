/** Search-token composition of the tag browser (TagsModel.tokens in
    src/calibre/gui2/tag_browser/model.py): the marked category and value
    nodes become search clauses, one string each.

    A clause is first built as a `Clause` value and then rendered to the
    exact string the source appends; the value clauses remember which Tag
    they came from, so that the de-duplication can be stated. */
module TagTokens {
  import opened Common
  import opened TagData

  /** The characters of `rating_to_stars(3, True)`: a full star and a half star. */
  const Star: char := '\U{2605}'
  const HalfStar: char := '\U{2BE8}'

  /** `tag.name[0] in stars`: the value is a rating shown as stars. */
  predicate IsRating(name: string) {
    |name| > 0 && (name[0] == Star || name[0] == HalfStar)
  }

  /** `node_searches`: the operator of a marked category. */
  function Operator(s: TagState): string {
    match s
    case MarkPlus => "true"
    case MarkPlusPlus => ".true"
    case MarkMinus => "false"
    case MarkMinusMinus => ".false"
    case Clear => ""
  }

  /** The number a star string stands for: its length, or one less and a
      half when it ends in a half star. */
  function RatingNumber(name: string): string {
    if |name| > 0 && name[|name| - 1] == HalfStar then Decimal(|name| - 1) + ".5" else Decimal(|name|)
  }

  // -----------------------------------------------------------------------
  // Quoting of value names

  /** `name.replace('"', '\\"')`. */
  function QuoteMarks(s: string): (r: string)
    ensures |r| > 0 ==> r[0] != '"'
    ensures |r| > 0 <==> |s| > 0
    ensures |r| > 0 ==> (r[0] == '.' <==> s[0] == '.')
  {
    if |s| == 0 then ""
    else if s[0] == '"' then "\\\"" + QuoteMarks(s[1..])
    else [s[0]] + QuoteMarks(s[1..])
  }

  /** The name as it goes between `="` and `"`: quote marks escaped, a
      leading '.' doubled so that it is not read as the strict marker. */
  function EscapeName(name: string): string {
    var n := QuoteMarks(name);
    if |name| > 0 && name[0] == '.' then "." + n else n
  }

  /** Reading an escaped name back: `\"` is a quote mark, anything else itself. */
  function UnquoteMarks(s: string): string {
    if |s| == 0 then ""
    else if |s| >= 2 && s[0] == '\\' && s[1] == '"' then "\"" + UnquoteMarks(s[2..])
    else [s[0]] + UnquoteMarks(s[1..])
  }

  function UnescapeName(s: string): string {
    if |s| > 0 && s[0] == '.' then UnquoteMarks(s[1..]) else UnquoteMarks(s)
  }

  lemma {:induction false} QuoteMarksRoundTrip(s: string)
    ensures UnquoteMarks(QuoteMarks(s)) == s
    decreases |s|
  {
    if |s| > 0 {
      QuoteMarksRoundTrip(s[1..]);
      var q := QuoteMarks(s[1..]);
      if s[0] == '"' {
        assert QuoteMarks(s) == "\\\"" + q;
        assert ("\\\"" + q)[2..] == q;
      } else {
        assert QuoteMarks(s) == [s[0]] + q;
        assert ([s[0]] + q)[1..] == q;
        assert |q| > 0 ==> q[0] != '"';
      }
    }
  }

  /** Escaping loses nothing: two names escape alike only if they are equal. */
  lemma EscapeNameRoundTrip(name: string)
    ensures UnescapeName(EscapeName(name)) == name
  {
    QuoteMarksRoundTrip(name);
    var n := QuoteMarks(name);
    if |name| > 0 && name[0] == '.' {
      assert ("." + n)[1..] == n;
    }
  }

  // -----------------------------------------------------------------------
  // Clauses

  datatype Clause =
    | CategoryClause(key: string, op: string)
    | NewsClause(positive: bool)
    | LetterClause(expr: string, positive: bool)
    | RatingClause(negated: bool, category: string, rnum: string)
    | ValueClause(negated: bool, category: string, strict: bool, name: string, addColon: bool, tag: nat)

  function Render(cl: Clause): string {
    match cl
    case CategoryClause(key, op) => key + ":" + op
    case NewsClause(positive) => if positive then "tags:\"=News\"" else "( not tags:\"=News\")"
    case LetterClause(expr, positive) => if positive then expr else "(not " + expr + ")"
    case RatingClause(negated, category, rnum) => (if negated then "not " else "") + category + ":" + rnum
    case ValueClause(negated, category, strict, name, addColon, _) =>
      (if negated then "not " else "") + category + ":\"=" + (if strict then "." else "")
        + EscapeName(name) + (if addColon then ":" else "") + "\""
  }

  function RenderAll(cls: seq<Clause>): (r: seq<string>)
    ensures |r| == |cls| && forall k :: 0 <= k < |cls| ==> r[k] == Render(cls[k])
  {
    if |cls| == 0 then [] else RenderAll(cls[..|cls| - 1]) + [Render(cls[|cls| - 1])]
  }

  // -----------------------------------------------------------------------
  // First-letter buckets

  /** A sort key's first character as a regular-expression class member. */
  function LetterOf(c: char): string {
    if c in "\\.^$[]|()" then ['\\', c] else [c]
  }

  /** `letters_seen`: the first letters of the children's sort keys, each
      once, in the order first seen. */
  function Letters(a: Arena, subs: seq<nat>): (r: seq<string>)
    requires WellFormed(a) && forall k :: 0 <= k < |subs| ==> 0 < subs[k] < |a.nodes|
  {
    if |subs| == 0 then []
    else
      var seen := Letters(a, subs[..|subs| - 1]);
      var t := TagOf(a, subs[|subs| - 1]);
      if t.sort.Some? && t.sort.value != "" && LetterOf(t.sort.value[0]) !in seen
      then seen + [LetterOf(t.sort.value[0])] else seen
  }

  function Concat(parts: seq<string>): string {
    if |parts| == 0 then "" else Concat(parts[..|parts| - 1]) + parts[|parts| - 1]
  }

  /** The expression matching the values whose sort key starts with one of `charclass`. */
  function LetterExpr(k: string, charclass: string): string {
    if charclass == "" then k + ":false"
    else if k == "author_sort" then k + ":\"\"\"~(^[" + charclass + "])|(&\\s*[" + charclass + "])\"\"\""
    else if k == "series" then "series_sort:\"\"\"~^[" + charclass + "]\"\"\""
    else k + ":\"\"\"~^[" + charclass + "]\"\"\""
  }

  // -----------------------------------------------------------------------
  // The walk

  /** `ans`, `tags_seen` and `nodes_seen`; `nodes_seen` holds Tags by index. */
  datatype Seen = Seen(clauses: seq<Clause>, tagsSeen: set<string>, nodesSeen: set<nat>)

  ghost predicate CategoryList(a: Arena, cats: seq<nat>) {
    WellFormed(a) && forall k :: 0 <= k < |cats| ==> 0 < cats[k] < |a.nodes| && a.nodes[cats[k]].kind.Category?
  }

  /** The clause of a marked category node. */
  function CategoryStep(a: Arena, c: nat, st: Seen): Seen
    requires WellFormed(a) && 0 < c < |a.nodes| && a.nodes[c].kind.Category?
  {
    var s := TagOf(a, c).state;
    var key := a.nodes[c].kind.key;
    if s == Clear then st
    else if key == "news" then st.(clauses := st.clauses + [NewsClause(s == MarkPlus)])
    else st.(clauses := st.clauses + [CategoryClause(key, Operator(s))])
  }

  /** The search category a value under category node `c` is searched in. */
  function SearchCategory(a: Arena, c: nat, x: nat): string
    requires WellFormed(a) && 0 < c < |a.nodes| && a.nodes[c].kind.Category? && 0 < x < |a.nodes|
  {
    var key := a.nodes[c].kind.key;
    if a.nodes[c].kind.isGst then key else if key != "news" then TagOf(a, x).category else "tag"
  }

  /** What one node `x` of `c.all_children()` adds. */
  function ItemStep(a: Arena, c: nat, x: nat, firstLetter: bool, csp: set<string>, st: Seen): Seen
    requires WellFormed(a) && 0 < c < |a.nodes| && a.nodes[c].kind.Category? && 0 < x < |a.nodes|
  {
    var key := a.nodes[c].kind.key;
    var t := TagOf(a, x);
    if a.nodes[x].kind.Category? then
      if firstLetter && a.nodes[x].kind.temporary && !StartsWith(key, "@") && t.state != Clear then
        ChildrenBelow(a, x);
        var k := if key == "authors" then "author_sort" else key;
        var expr := LetterExpr(k, Concat(Letters(a, a.nodes[x].children)));
        st.(clauses := st.clauses + [LetterClause(expr, t.state == MarkPlus)])
      else st
    else if t.state == Clear then st
    else
      var negated := t.state == MarkMinus || t.state == MarkMinusMinus;
      var category := SearchCategory(a, c, x);
      if IsRating(t.name) then st.(clauses := st.clauses + [RatingClause(negated, category, RatingNumber(t.name))])
      else
        var name := t.originalName;
        if category == "tags" && name in st.tagsSeen then st
        else
          var tagsSeen := if category == "tags" then st.tagsSeen + {name} else st.tagsSeen;
          var ti := a.nodes[x].tag;
          if ti in st.nodesSeen then st.(tagsSeen := tagsSeen)
          else
            var strict := t.state == MarkPlusPlus || t.state == MarkMinusMinus;
            Seen(st.clauses + [ValueClause(negated, category, strict, name, t.category in csp, ti)],
                 tagsSeen, st.nodesSeen + {ti})
  }

  function Items(a: Arena, c: nat, xs: seq<nat>, firstLetter: bool, csp: set<string>, st: Seen): Seen
    requires WellFormed(a) && 0 < c < |a.nodes| && a.nodes[c].kind.Category?
    requires forall k :: 0 <= k < |xs| ==> 0 < xs[k] < |a.nodes|
  {
    if |xs| == 0 then st
    else ItemStep(a, c, xs[|xs| - 1], firstLetter, csp, Items(a, c, xs[..|xs| - 1], firstLetter, csp, st))
  }

  /** The clauses of the category nodes `cats`, each followed by its descendants. */
  function Run(a: Arena, cats: seq<nat>, firstLetter: bool, csp: set<string>): Seen
    requires CategoryList(a, cats)
  {
    if |cats| == 0 then Seen([], {}, {})
    else
      var c := cats[|cats| - 1];
      var st := CategoryStep(a, c, Run(a, cats[..|cats| - 1], firstLetter, csp));
      Items(a, c, AllChildren(a, c), firstLetter, csp, st)
  }

  // -----------------------------------------------------------------------
  // tokens() itself

  /** The `letters_seen` loop over a first-letter bucket's children. */
  method LettersSeen(a: Arena, subs: seq<nat>) returns (charclass: string)
    requires WellFormed(a) && forall k :: 0 <= k < |subs| ==> 0 < subs[k] < |a.nodes|
    ensures charclass == Concat(Letters(a, subs))
  {
    var seen: seq<string> := [];
    for j := 0 to |subs|
      invariant seen == Letters(a, subs[..j])
    {
      var sort := a.tags[a.nodes[subs[j]].tag].sort;
      if sort.Some? && sort.value != "" {
        var c := LetterOf(sort.value[0]);
        if c !in seen {
          seen := seen + [c];
        }
      }
      assert subs[..j + 1][..j] == subs[..j];
    }
    assert subs[..|subs|] == subs;
    charclass := Concat(seen);
  }

  /** One turn of the inner loop of tokens(), for node `x` below category node `node`. */
  method Visit(a: Arena, node: nat, x: nat, firstLetter: bool, csp: set<string>,
               ans: seq<string>, tagsSeen: set<string>, nodesSeen: set<nat>, ghost st: Seen)
    returns (ans': seq<string>, tagsSeen': set<string>, nodesSeen': set<nat>)
    requires WellFormed(a) && 0 < node < |a.nodes| && a.nodes[node].kind.Category? && 0 < x < |a.nodes|
    requires ans == RenderAll(st.clauses) && tagsSeen == st.tagsSeen && nodesSeen == st.nodesSeen
    ensures var st' := ItemStep(a, node, x, firstLetter, csp, st);
      ans' == RenderAll(st'.clauses) && tagsSeen' == st'.tagsSeen && nodesSeen' == st'.nodesSeen
  {
    ans', tagsSeen', nodesSeen' := ans, tagsSeen, nodesSeen;
    var key := a.nodes[node].kind.key;
    var tag := a.tags[a.nodes[x].tag];
    if a.nodes[x].kind.Category? {
      if firstLetter && a.nodes[x].kind.temporary && !StartsWith(key, "@") && tag.state != Clear {
        var k := if key == "authors" then "author_sort" else key;
        ChildrenBelow(a, x);
        var charclass := LettersSeen(a, a.nodes[x].children);
        ans' := ans + [Render(LetterClause(LetterExpr(k, charclass), tag.state == MarkPlus))];
      }
      return;
    }
    if tag.state == Clear {
      return;
    }
    var negated := tag.state == MarkMinus || tag.state == MarkMinusMinus;
    var category := if a.nodes[node].kind.isGst then key else if key != "news" then tag.category else "tag";
    var addColon := tag.category in csp;
    if IsRating(tag.name) {
      ans' := ans + [Render(RatingClause(negated, category, RatingNumber(tag.name)))];
      return;
    }
    var name := tag.originalName;
    var strict := tag.state == MarkPlusPlus || tag.state == MarkMinusMinus;
    if category == "tags" {
      if name in tagsSeen {
        return;
      }
      tagsSeen' := tagsSeen + {name};
    }
    if a.nodes[x].tag in nodesSeen {
      return;
    }
    nodesSeen' := nodesSeen + {a.nodes[x].tag};
    ans' := ans + [Render(ValueClause(negated, category, strict, name, addColon, a.nodes[x].tag))];
  }

  lemma RunSnoc(a: Arena, cats: seq<nat>, i: nat, firstLetter: bool, csp: set<string>)
    requires CategoryList(a, cats) && i < |cats|
    ensures CategoryList(a, cats[..i]) && CategoryList(a, cats[..i + 1])
    ensures Run(a, cats[..i + 1], firstLetter, csp) ==
      Items(a, cats[i], AllChildren(a, cats[i]), firstLetter, csp, CategoryStep(a, cats[i], Run(a, cats[..i], firstLetter, csp)))
  {
    assert cats[..i + 1][..i] == cats[..i];
  }

  /** The clause tokens() adds for a marked category node. */
  method MarkCategory(a: Arena, node: nat, ans: seq<string>, ghost st: Seen) returns (ans': seq<string>)
    requires WellFormed(a) && 0 < node < |a.nodes| && a.nodes[node].kind.Category?
    requires ans == RenderAll(st.clauses)
    ensures var st' := CategoryStep(a, node, st);
      ans' == RenderAll(st'.clauses) && st'.tagsSeen == st.tagsSeen && st'.nodesSeen == st.nodesSeen
  {
    ans' := ans;
    var state := a.tags[a.nodes[node].tag].state;
    var key := a.nodes[node].kind.key;
    if state != Clear {
      if key == "news" {
        ans' := ans + [Render(NewsClause(state == MarkPlus))];
      } else {
        ans' := ans + [Render(CategoryClause(key, Operator(state)))];
      }
    }
  }

  /** The inner loop of tokens(): the nodes `children` of `node.all_children()`. */
  method VisitAll(a: Arena, node: nat, children: seq<nat>, firstLetter: bool, csp: set<string>,
                  ans: seq<string>, tagsSeen: set<string>, nodesSeen: set<nat>, ghost st: Seen)
    returns (ans': seq<string>, tagsSeen': set<string>, nodesSeen': set<nat>)
    requires WellFormed(a) && 0 < node < |a.nodes| && a.nodes[node].kind.Category?
    requires forall k :: 0 <= k < |children| ==> 0 < children[k] < |a.nodes|
    requires ans == RenderAll(st.clauses) && tagsSeen == st.tagsSeen && nodesSeen == st.nodesSeen
    ensures var st' := Items(a, node, children, firstLetter, csp, st);
      ans' == RenderAll(st'.clauses) && tagsSeen' == st'.tagsSeen && nodesSeen' == st'.nodesSeen
  {
    ans', tagsSeen', nodesSeen' := ans, tagsSeen, nodesSeen;
    ghost var cur := st;
    for j := 0 to |children|
      invariant cur == Items(a, node, children[..j], firstLetter, csp, st)
      invariant ans' == RenderAll(cur.clauses) && tagsSeen' == cur.tagsSeen && nodesSeen' == cur.nodesSeen
    {
      assert children[..j + 1][..j] == children[..j];
      ans', tagsSeen', nodesSeen' := Visit(a, node, children[j], firstLetter, csp, ans', tagsSeen', nodesSeen', cur);
      cur := ItemStep(a, node, children[j], firstLetter, csp, cur);
    }
    assert children[..|children|] == children;
  }

  /** TagsModel.tokens over the category nodes `cats`; `firstLetter` says
      whether the collapse model is 'first letter' and `csp` lists the fields
      whose metadata has `is_csp`. */
  method Tokens(a: Arena, cats: seq<nat>, firstLetter: bool, csp: set<string>) returns (ans: seq<string>)
    requires CategoryList(a, cats)
    ensures ans == RenderAll(Run(a, cats, firstLetter, csp).clauses)
  {
    ghost var st := Seen([], {}, {});
    ans := [];
    var tagsSeen: set<string> := {};
    var nodesSeen: set<nat> := {};
    for i := 0 to |cats|
      invariant CategoryList(a, cats[..i]) && st == Run(a, cats[..i], firstLetter, csp)
      invariant ans == RenderAll(st.clauses) && tagsSeen == st.tagsSeen && nodesSeen == st.nodesSeen
    {
      var node := cats[i];
      RunSnoc(a, cats, i, firstLetter, csp);
      ans := MarkCategory(a, node, ans, st);
      st := CategoryStep(a, node, st);
      ans, tagsSeen, nodesSeen := VisitAll(a, node, AllChildren(a, node), firstLetter, csp, ans, tagsSeen, nodesSeen, st);
      st := Items(a, node, AllChildren(a, node), firstLetter, csp, st);
    }
    assert cats[..|cats|] == cats;
  }

  // -----------------------------------------------------------------------
  // De-duplication and completeness

  /** The Tags the value clauses search for. */
  function ValueTags(cls: seq<Clause>): set<nat> {
    set k | 0 <= k < |cls| && cls[k].ValueClause? :: cls[k].tag
  }

  /** No Tag is searched for twice, and no name of the 'tags' field twice. */
  predicate NoRepeats(cls: seq<Clause>) {
    forall k, l :: 0 <= k < l < |cls| && cls[k].ValueClause? && cls[l].ValueClause? ==>
      && cls[k].tag != cls[l].tag
      && (cls[k].category == "tags" && cls[l].category == "tags" ==> cls[k].name != cls[l].name)
  }

  /** What the walk keeps true: `nodes_seen` holds exactly the Tags searched
      for, every value clause searches its Tag's original name, a 'tags'
      clause's name is in `tags_seen`, and every name in `tags_seen` is
      searched for by some value clause. */
  ghost predicate SeenOk(a: Arena, st: Seen) {
    && st.nodesSeen == ValueTags(st.clauses)
    && (forall k :: 0 <= k < |st.clauses| && st.clauses[k].ValueClause? ==>
          && st.clauses[k].tag < |a.tags|
          && st.clauses[k].name == a.tags[st.clauses[k].tag].originalName
          && (st.clauses[k].category == "tags" ==> st.clauses[k].name in st.tagsSeen))
    && (forall n :: n in st.tagsSeen ==>
          exists k :: 0 <= k < |st.clauses| && st.clauses[k].ValueClause? && st.clauses[k].name == n)
    && NoRepeats(st.clauses)
  }

  lemma ValueTagsSnoc(cls: seq<Clause>, c: Clause)
    ensures ValueTags(cls + [c]) == ValueTags(cls) + (if c.ValueClause? then {c.tag} else {})
  {
    var r := cls + [c];
    forall t | t in ValueTags(r) ensures t in ValueTags(cls) + (if c.ValueClause? then {c.tag} else {}) {
      var k :| 0 <= k < |r| && r[k].ValueClause? && r[k].tag == t;
      if k < |cls| {
        assert cls[k] == r[k];
      }
    }
    forall t | t in ValueTags(cls) ensures t in ValueTags(r) {
      var k :| 0 <= k < |cls| && cls[k].ValueClause? && cls[k].tag == t;
      assert r[k] == cls[k];
    }
    if c.ValueClause? {
      assert r[|cls|] == c;
    }
  }

  /** Appending a clause that is not a value clause keeps the walk's facts. */
  lemma OtherClauseOk(a: Arena, st: Seen, c: Clause)
    requires SeenOk(a, st) && !c.ValueClause?
    ensures SeenOk(a, st.(clauses := st.clauses + [c]))
  {
    var r := st.clauses + [c];
    ValueTagsSnoc(st.clauses, c);
    forall n | n in st.tagsSeen
      ensures exists k :: 0 <= k < |r| && r[k].ValueClause? && r[k].name == n
    {
      var k :| 0 <= k < |st.clauses| && st.clauses[k].ValueClause? && st.clauses[k].name == n;
      assert r[k] == st.clauses[k];
    }
  }

  /** Appending a value clause for a Tag not searched yet keeps the walk's facts. */
  lemma ValueClauseOk(a: Arena, st: Seen, c: Clause, tagsSeen: set<string>)
    requires SeenOk(a, st) && c.ValueClause? && c.tag !in st.nodesSeen
    requires c.tag < |a.tags| && c.name == a.tags[c.tag].originalName
    requires tagsSeen == if c.category == "tags" then st.tagsSeen + {c.name} else st.tagsSeen
    requires c.category == "tags" ==> c.name !in st.tagsSeen
    ensures SeenOk(a, Seen(st.clauses + [c], tagsSeen, st.nodesSeen + {c.tag}))
  {
    var r := st.clauses + [c];
    ValueTagsSnoc(st.clauses, c);
    forall n | n in tagsSeen
      ensures exists k :: 0 <= k < |r| && r[k].ValueClause? && r[k].name == n
    {
      if n in st.tagsSeen {
        var k :| 0 <= k < |st.clauses| && st.clauses[k].ValueClause? && st.clauses[k].name == n;
        assert r[k] == st.clauses[k];
      } else {
        assert r[|st.clauses|] == c;
      }
    }
    forall k | 0 <= k < |st.clauses| && r[k].ValueClause?
      ensures r[k].tag != c.tag && (r[k].category == "tags" && c.category == "tags" ==> r[k].name != c.name)
    {
      assert r[k] == st.clauses[k];
      assert r[k].tag in ValueTags(st.clauses);
    }
  }

  lemma ItemStepOk(a: Arena, c: nat, x: nat, firstLetter: bool, csp: set<string>, st: Seen)
    requires WellFormed(a) && 0 < c < |a.nodes| && a.nodes[c].kind.Category? && 0 < x < |a.nodes|
    requires SeenOk(a, st)
    ensures SeenOk(a, ItemStep(a, c, x, firstLetter, csp, st))
  {
    var st' := ItemStep(a, c, x, firstLetter, csp, st);
    var t := TagOf(a, x);
    var ti := a.nodes[x].tag;
    if st'.clauses != st.clauses {
      var cl := st'.clauses[|st'.clauses| - 1];
      assert st'.clauses == st.clauses + [cl];
      if cl.ValueClause? {
        ValueClauseOk(a, st, cl, st'.tagsSeen);
      } else {
        OtherClauseOk(a, st, cl);
      }
    } else if st'.tagsSeen != st.tagsSeen {
      // The Tag was searched for already, under another category.
      assert ti in ValueTags(st.clauses);
      var k :| 0 <= k < |st.clauses| && st.clauses[k].ValueClause? && st.clauses[k].tag == ti;
      assert st'.tagsSeen == st.tagsSeen + {t.originalName};
    }
  }

  lemma {:induction false} ItemsOk(a: Arena, c: nat, xs: seq<nat>, firstLetter: bool, csp: set<string>, st: Seen)
    requires WellFormed(a) && 0 < c < |a.nodes| && a.nodes[c].kind.Category?
    requires forall k :: 0 <= k < |xs| ==> 0 < xs[k] < |a.nodes|
    requires SeenOk(a, st)
    ensures SeenOk(a, Items(a, c, xs, firstLetter, csp, st))
    decreases |xs|
  {
    if |xs| > 0 {
      ItemsOk(a, c, xs[..|xs| - 1], firstLetter, csp, st);
      ItemStepOk(a, c, xs[|xs| - 1], firstLetter, csp, Items(a, c, xs[..|xs| - 1], firstLetter, csp, st));
    }
  }

  lemma {:induction false} RunOk(a: Arena, cats: seq<nat>, firstLetter: bool, csp: set<string>)
    requires CategoryList(a, cats)
    ensures SeenOk(a, Run(a, cats, firstLetter, csp))
    decreases |cats|
  {
    if |cats| > 0 {
      var c := cats[|cats| - 1];
      RunOk(a, cats[..|cats| - 1], firstLetter, csp);
      var st := Run(a, cats[..|cats| - 1], firstLetter, csp);
      var st1 := CategoryStep(a, c, st);
      if st1 != st {
        OtherClauseOk(a, st, st1.clauses[|st1.clauses| - 1]);
        assert st1 == st.(clauses := st.clauses + [st1.clauses[|st1.clauses| - 1]]);
      }
      ItemsOk(a, c, AllChildren(a, c), firstLetter, csp, st1);
    }
  }

  /** tokens() searches for each Tag at most once, and for each name of the
      'tags' field at most once, however many nodes show it. */
  lemma TokensNoRepeats(a: Arena, cats: seq<nat>, firstLetter: bool, csp: set<string>)
    requires CategoryList(a, cats)
    ensures NoRepeats(Run(a, cats, firstLetter, csp).clauses)
  {
    RunOk(a, cats, firstLetter, csp);
  }

  /** A marked value node that is not a rating: tokens() must search for it. */
  ghost predicate Searched(a: Arena, x: nat)
    requires WellFormed(a) && 0 < x < |a.nodes|
  {
    a.nodes[x].kind == Value && TagOf(a, x).state != Clear && !IsRating(TagOf(a, x).name)
  }

  /** The node's Tag is in `nodes_seen`, or its name in `tags_seen`. */
  ghost predicate Covered(a: Arena, st: Seen, c: nat, x: nat)
    requires WellFormed(a) && 0 < c < |a.nodes| && a.nodes[c].kind.Category? && 0 < x < |a.nodes|
  {
    a.nodes[x].tag in st.nodesSeen || (SearchCategory(a, c, x) == "tags" && TagOf(a, x).originalName in st.tagsSeen)
  }

  /** The walk only adds. */
  ghost predicate Grows(st: Seen, st': Seen) {
    st.nodesSeen <= st'.nodesSeen && st.tagsSeen <= st'.tagsSeen
  }

  lemma {:induction false} ItemsGrow(a: Arena, c: nat, xs: seq<nat>, firstLetter: bool, csp: set<string>, st: Seen)
    requires WellFormed(a) && 0 < c < |a.nodes| && a.nodes[c].kind.Category?
    requires forall k :: 0 <= k < |xs| ==> 0 < xs[k] < |a.nodes|
    ensures Grows(st, Items(a, c, xs, firstLetter, csp, st))
    decreases |xs|
  {
    if |xs| > 0 {
      ItemsGrow(a, c, xs[..|xs| - 1], firstLetter, csp, st);
    }
  }

  lemma {:induction false} ItemsCover(a: Arena, c: nat, xs: seq<nat>, j: nat, firstLetter: bool, csp: set<string>, st: Seen)
    requires WellFormed(a) && 0 < c < |a.nodes| && a.nodes[c].kind.Category?
    requires forall k :: 0 <= k < |xs| ==> 0 < xs[k] < |a.nodes|
    requires j < |xs| && Searched(a, xs[j])
    ensures Covered(a, Items(a, c, xs, firstLetter, csp, st), c, xs[j])
    decreases |xs|
  {
    var pre := Items(a, c, xs[..|xs| - 1], firstLetter, csp, st);
    if j < |xs| - 1 {
      ItemsCover(a, c, xs[..|xs| - 1], j, firstLetter, csp, st);
      assert xs[..|xs| - 1][j] == xs[j];
    }
  }

  lemma {:induction false} RunCovers(a: Arena, cats: seq<nat>, i: nat, j: nat, firstLetter: bool, csp: set<string>)
    requires CategoryList(a, cats) && i < |cats|
    requires j < |AllChildren(a, cats[i])| && Searched(a, AllChildren(a, cats[i])[j])
    ensures Covered(a, Run(a, cats, firstLetter, csp), cats[i], AllChildren(a, cats[i])[j])
    decreases |cats|
  {
    var c := cats[|cats| - 1];
    var pre := cats[..|cats| - 1];
    var st1 := CategoryStep(a, c, Run(a, pre, firstLetter, csp));
    if i == |cats| - 1 {
      ItemsCover(a, c, AllChildren(a, c), j, firstLetter, csp, st1);
    } else {
      assert pre[i] == cats[i];
      RunCovers(a, pre, i, j, firstLetter, csp);
      ItemsGrow(a, c, AllChildren(a, c), firstLetter, csp, st1);
    }
  }

  /** Some value clause searches for `name`, as the clause of Tag `tag` unless `byName`. */
  predicate SearchesFor(cls: seq<Clause>, name: string, tag: nat, byName: bool) {
    exists k :: 0 <= k < |cls| && cls[k].ValueClause? && cls[k].name == name && (cls[k].tag == tag || byName)
  }

  /** Every marked value node below a category node of the list is searched
      for: a value clause carries its original name, and it is the clause of
      its own Tag unless another 'tags' value of the same name was searched
      for already. */
  lemma TokensComplete(a: Arena, cats: seq<nat>, i: nat, x: nat, firstLetter: bool, csp: set<string>)
    requires CategoryList(a, cats) && i < |cats|
    requires x in AllChildren(a, cats[i]) && Searched(a, x)
    ensures SearchesFor(Run(a, cats, firstLetter, csp).clauses, TagOf(a, x).originalName, a.nodes[x].tag,
                        SearchCategory(a, cats[i], x) == "tags")
  {
    var j :| 0 <= j < |AllChildren(a, cats[i])| && AllChildren(a, cats[i])[j] == x;
    RunCovers(a, cats, i, j, firstLetter, csp);
    RunOk(a, cats, firstLetter, csp);
    var st := Run(a, cats, firstLetter, csp);
    if a.nodes[x].tag in st.nodesSeen {
      var k :| 0 <= k < |st.clauses| && st.clauses[k].ValueClause? && st.clauses[k].tag == a.nodes[x].tag;
      assert st.clauses[k].name == a.tags[a.nodes[x].tag].originalName;
    } else {
      var k :| 0 <= k < |st.clauses| && st.clauses[k].ValueClause? && st.clauses[k].name == TagOf(a, x).originalName;
    }
  }

  // -----------------------------------------------------------------------
  // One marked author

  /** A tree with the category 'authors' holding the one value `name`, marked `s`. */
  function OneAuthor(name: string, s: TagState): Arena {
    Arena([Node(Root, 0, None, [1], None, None, false),
           Node(Category("authors", false, false), 0, Some(0), [2], None, None, false),
           Node(Value, 1, Some(1), [], None, None, true)],
          [CategoryTag("Authors", "authors"),
           Tag(name, name, "authors", None, 1, {1}, None, NotHierarchical, true, true, s, None)])
  }

  lemma OneAuthorShape(name: string, s: TagState)
    ensures WellFormed(OneAuthor(name, s)) && AllChildren(OneAuthor(name, s), 1) == [2]
  {
    var a := OneAuthor(name, s);
    assert ChildrenOk(a, 0) && ChildrenOk(a, 1) && ChildrenOk(a, 2);
    assert WellFormed(a);
    assert [2][1..] == [];
    assert Walk(a, 2, [2]) == [2] + Walk(a, 3, []) + Walk(a, 2, []);
  }

  /** A name with no quote mark and no leading dot goes into the clause as it is. */
  lemma {:induction false} QuoteMarksPlain(n: string)
    requires '"' !in n
    ensures QuoteMarks(n) == n
  {
    if |n| > 0 {
      assert n == [n[0]] + n[1..];
      QuoteMarksPlain(n[1..]);
    }
  }

  /** A plain author name: no quote mark, no leading dot, not a star rating. */
  predicate PlainName(name: string) {
    '"' !in name && !(|name| > 0 && name[0] == '.') && !IsRating(name)
  }

  lemma OneAuthorRun(name: string, s: TagState)
    requires PlainName(name) && (s == MarkPlus || s == MarkMinus)
    ensures WellFormed(OneAuthor(name, s)) && CategoryList(OneAuthor(name, s), [1])
    ensures Run(OneAuthor(name, s), [1], false, {}).clauses ==
      [ValueClause(s == MarkMinus, "authors", false, name, false, 1)]
  {
    var a := OneAuthor(name, s);
    OneAuthorShape(name, s);
    assert CategoryList(a, [1]);
    var st0 := Run(a, [], false, {});
    var cl := ValueClause(s == MarkMinus, "authors", false, name, false, 1);
    assert ItemStep(a, 1, 2, false, {}, st0) == Seen([cl], {}, {1});
    assert [2][..0] == [];
    assert Items(a, 1, [2], false, {}, st0) == Seen([cl], {}, {1});
    assert [1][..0] == [];
  }

  /** Marking one author with + gives `authors:"=<name>"`, with - gives
      `not authors:"=<name>"`, and nothing else. */
  lemma OneAuthorTokens(name: string, s: TagState)
    requires PlainName(name) && (s == MarkPlus || s == MarkMinus)
    ensures WellFormed(OneAuthor(name, s))
    ensures RenderAll(Run(OneAuthor(name, s), [1], false, {}).clauses) ==
      [(if s == MarkMinus then "not " else "") + "authors:\"=" + name + "\""]
  {
    OneAuthorRun(name, s);
    var cl := ValueClause(s == MarkMinus, "authors", false, name, false, 1);
    QuoteMarksPlain(name);
    assert EscapeName(name) == name;
    assert RenderAll([cl]) == [Render(cl)];
    var pre := if s == MarkMinus then "not " else "";
    assert Render(cl) == pre + "authors" + ":\"=" + "" + name + "" + "\"";
    assert "authors" + ":\"=" == "authors:\"=";
    assert pre + "authors" + ":\"=" + "" == pre + "authors:\"=";
    assert pre + "authors:\"=" + name + "" == pre + "authors:\"=" + name;
  }
}
