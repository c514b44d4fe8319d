/** The user-category preference edited by the tag browser
    (src/calibre/gui2/tag_browser/model.py): a map from the name of a user
    category to the items it holds. Each item is a value name, the field
    (lookup key) it comes from, and a third slot that is always written as 0. */
module UserCategories {
  import opened Common
  import TagData

  datatype Entry = Entry(name: string, category: string, flag: int)

  type Cats = map<string, seq<Entry>>

  predicate Is(e: Entry, name: string, category: string) {
    e.name == name && e.category == category
  }

  /** Some item of `items` is `name` from field `category`. */
  predicate Holds(items: seq<Entry>, name: string, category: string) {
    exists k :: 0 <= k < |items| && Is(items[k], name, category)
  }

  // -----------------------------------------------------------------------
  // delete_item_from_user_category

  /** The items that are not `name` from `category`, in their order. */
  function Without(items: seq<Entry>, name: string, category: string): (r: seq<Entry>)
    ensures |r| <= |items|
    ensures forall e :: e in r <==> e in items && !Is(e, name, category)
  {
    if |items| == 0 then []
    else (if Is(items[0], name, category) then [] else [items[0]]) + Without(items[1..], name, category)
  }

  /** Filtering splits over concatenation, so the kept items keep their order. */
  lemma {:induction false} WithoutConcat(a: seq<Entry>, b: seq<Entry>, name: string, category: string)
    ensures Without(a + b, name, category) == Without(a, name, category) + Without(b, name, category)
    decreases |a|
  {
    if |a| == 0 {
      assert a + b == b;
    } else {
      assert (a + b)[1..] == a[1..] + b;
      WithoutConcat(a[1..], b, name, category);
    }
  }

  /** Every non-matching item is kept as many times as it occurs, and no
      matching item is left. */
  lemma {:induction false} WithoutCounts(items: seq<Entry>, name: string, category: string)
    ensures forall e :: multiset(Without(items, name, category))[e] ==
                        if Is(e, name, category) then 0 else multiset(items)[e]
  {
    if |items| > 0 {
      WithoutCounts(items[1..], name, category);
      assert items == [items[0]] + items[1..];
    }
  }

  /** A list with no matching item is left as it is. */
  lemma {:induction false} WithoutNothing(items: seq<Entry>, name: string, category: string)
    requires !Holds(items, name, category)
    ensures Without(items, name, category) == items
  {
    if |items| > 0 {
      assert !Holds(items[1..], name, category) by {
        forall k | 0 <= k < |items[1..]| ensures !Is(items[1..][k], name, category) {
          assert items[1..][k] == items[k + 1];
        }
      }
      WithoutNothing(items[1..], name, category);
    }
  }

  /** The loop of delete_item_from_user_category (and of the move branch of
      process_source_node): copy every item that is not the one named. */
  method Filter(items: seq<Entry>, name: string, category: string) returns (r: seq<Entry>)
    ensures r == Without(items, name, category)
  {
    r := [];
    var i := 0;
    while i < |items|
      invariant 0 <= i <= |items|
      invariant r == Without(items[..i], name, category)
    {
      assert items[..i + 1] == items[..i] + [items[i]];
      WithoutConcat(items[..i], [items[i]], name, category);
      assert [items[i]][1..] == [];
      if items[i].name != name || items[i].category != category {
        r := r + [items[i]];
      }
      i := i + 1;
    }
    assert items[..i] == items;
  }

  // -----------------------------------------------------------------------
  // add_renamed_item_to_user_categories

  /** A category's list after add_renamed_item_to_user_categories: `newName`
      is appended once, and only when `originalName` is there and `newName`
      is not. */
  function WithRenamed(items: seq<Entry>, key: string, originalName: string, newName: string): (r: seq<Entry>)
    ensures Holds(items, originalName, key) ==> Holds(r, newName, key)
    ensures |items| <= |r| <= |items| + 1 && r[..|items|] == items
    ensures Holds(r, newName, key) <==> Holds(items, newName, key) || Holds(items, originalName, key)
  {
    if Holds(items, originalName, key) && !Holds(items, newName, key) then
      assert (items + [Entry(newName, key, 0)])[|items|] == Entry(newName, key, 0);
      items + [Entry(newName, key, 0)]
    else items
  }

  /** Adding a renamed item a second time changes nothing. */
  lemma WithRenamedIdempotent(items: seq<Entry>, key: string, originalName: string, newName: string)
    ensures WithRenamed(WithRenamed(items, key, originalName, newName), key, originalName, newName)
         == WithRenamed(items, key, originalName, newName)
  {
  }

  /** The inner loop of add_renamed_item_to_user_categories: whether the
      items of field `key` include the original and the new name. */
  method Scan(items: seq<Entry>, key: string, originalName: string, newName: string)
    returns (foundOriginal: bool, foundNew: bool)
    ensures foundOriginal == Holds(items, originalName, key)
    ensures foundNew == Holds(items, newName, key)
  {
    foundOriginal, foundNew := false, false;
    var i := 0;
    while i < |items|
      invariant 0 <= i <= |items|
      invariant foundOriginal == Holds(items[..i], originalName, key)
      invariant foundNew == Holds(items[..i], newName, key)
    {
      assert forall k :: 0 <= k < i ==> items[..i + 1][k] == items[..i][k];
      assert items[..i + 1][i] == items[i];
      if items[i].category == key {
        if items[i].name == originalName {
          foundOriginal := true;
        }
        if items[i].name == newName {
          foundNew := true;
        }
      }
      i := i + 1;
    }
    assert items[..i] == items;
  }

  /** The loop of process_source_node that decides whether the item is
      already in the destination category. */
  method FindItem(items: seq<Entry>, name: string, category: string) returns (found: bool)
    ensures found == Holds(items, name, category)
  {
    found := false;
    var i := 0;
    while i < |items|
      invariant 0 <= i <= |items|
      invariant found == Holds(items[..i], name, category)
    {
      assert forall k :: 0 <= k < i ==> items[..i + 1][k] == items[..i][k];
      assert items[..i + 1][i] == items[i];
      if name == items[i].name && category == items[i].category {
        found := true;
      }
      i := i + 1;
    }
    assert items[..i] == items;
  }

  // -----------------------------------------------------------------------
  // rename_item_in_all_user_categories

  /** A Python dict from value name to field, as its items in insertion order. */
  type Dict = seq<(string, string)>

  function Lookup(d: Dict, n: string): Option<string> {
    if |d| == 0 then None
    else if d[0].0 == n then Some(d[0].1)
    else Lookup(d[1..], n)
  }

  /** `d[n] = c`: an existing key keeps its place, a new key goes last. */
  function Put(d: Dict, n: string, c: string): Dict {
    if |d| == 0 then [(n, c)]
    else if d[0].0 == n then [(n, c)] + d[1..]
    else [d[0]] + Put(d[1..], n, c)
  }

  /** `del d[n]` / `d.pop(n)`. */
  function Drop(d: Dict, n: string): Dict {
    if |d| == 0 then []
    else if d[0].0 == n then d[1..]
    else [d[0]] + Drop(d[1..], n)
  }

  /** `{n: c for n, c, _ in items}`: a later item with a name already seen
      overwrites the field stored for it. */
  function DictOf(items: seq<Entry>): Dict {
    if |items| == 0 then []
    else
      var last := items[|items| - 1];
      Put(DictOf(items[..|items| - 1]), last.name, last.category)
  }

  /** `[(n, c, 0) for n, c in d.items()]`. */
  function ListOf(d: Dict): seq<Entry> {
    if |d| == 0 then [] else [Entry(d[0].0, d[0].1, 0)] + ListOf(d[1..])
  }

  /** One user category's list after rename_item_in_all_user_categories as
      written: the list goes through a dict keyed by name alone. */
  function RenameAsWritten(items: seq<Entry>, itemName: string, itemCategory: string, newName: string): seq<Entry> {
    var d := DictOf(items);
    if Lookup(d, newName) == Some(itemCategory) then
      if Lookup(d, itemName).Some? then ListOf(Drop(d, itemName)) else items
    else if Lookup(d, itemName) == Some(itemCategory) then
      ListOf(Put(Drop(d, itemName), newName, itemCategory))
    else items
  }

  /** Two items of different fields that share a name: renaming the tag X to
      Y when the list already holds the author Y replaces the author. */
  lemma RenameAsWrittenLosesAuthor()
    ensures var items := [Entry("Y", "authors", 0), Entry("X", "tags", 0)];
      && RenameAsWritten(items, "X", "tags", "Y") == [Entry("Y", "tags", 0)]
      && Holds(items, "Y", "authors") && !Holds(RenameAsWritten(items, "X", "tags", "Y"), "Y", "authors")
  {
    var items := [Entry("Y", "authors", 0), Entry("X", "tags", 0)];
    assert items[..1] == [Entry("Y", "authors", 0)];
    assert DictOf(items[..1]) == [("Y", "authors")];
    assert items[..|items| - 1] == items[..1];
    assert Put([("Y", "authors")], "X", "tags") == [("Y", "authors"), ("X", "tags")];
    assert DictOf(items) == [("Y", "authors"), ("X", "tags")];
    var r := RenameAsWritten(items, "X", "tags", "Y");
    assert r == [Entry("Y", "tags", 0)];
    assert Is(items[0], "Y", "authors");
  }

  /** The popped name is not checked against the field: renaming the tag X
      to Y when the list holds the tag Y and the author X removes the
      author X. */
  lemma RenameAsWrittenDropsOtherField()
    ensures var items := [Entry("X", "authors", 0), Entry("Y", "tags", 0)];
      && RenameAsWritten(items, "X", "tags", "Y") == [Entry("Y", "tags", 0)]
      && Holds(items, "X", "authors") && !Holds(RenameAsWritten(items, "X", "tags", "Y"), "X", "authors")
  {
    var items := [Entry("X", "authors", 0), Entry("Y", "tags", 0)];
    assert items[..1] == [Entry("X", "authors", 0)];
    assert DictOf(items[..1]) == [("X", "authors")];
    assert items[..|items| - 1] == items[..1];
    assert Put([("X", "authors")], "Y", "tags") == [("X", "authors"), ("Y", "tags")];
    assert DictOf(items) == [("X", "authors"), ("Y", "tags")];
    assert Is(items[0], "X", "authors");
  }

  /** One user category's list after renaming `itemName` of `itemCategory`
      to `newName`: the old item goes; the new one is added last unless it
      is already there. Items of other fields and other names are kept. */
  function Renamed(items: seq<Entry>, itemName: string, itemCategory: string, newName: string): (r: seq<Entry>)
  {
    if itemName == newName then items
    else if Holds(items, newName, itemCategory) then Without(items, itemName, itemCategory)
    else if Holds(items, itemName, itemCategory) then Without(items, itemName, itemCategory) + [Entry(newName, itemCategory, 0)]
    else items
  }

  /** What renaming does to one list: the old item is gone, the new one is
      there exactly when either was, and every other item keeps its count. */
  lemma RenamedSpec(items: seq<Entry>, itemName: string, itemCategory: string, newName: string)
    requires itemName != newName
    ensures var r := Renamed(items, itemName, itemCategory, newName);
      && !Holds(r, itemName, itemCategory)
      && (Holds(r, newName, itemCategory) <==> Holds(items, newName, itemCategory) || Holds(items, itemName, itemCategory))
      && (forall e :: !Is(e, itemName, itemCategory) && !Is(e, newName, itemCategory) ==>
            multiset(r)[e] == multiset(items)[e])
  {
    var r := Renamed(items, itemName, itemCategory, newName);
    var w := Without(items, itemName, itemCategory);
    WithoutCounts(items, itemName, itemCategory);
    if Holds(items, newName, itemCategory) {
      var k :| 0 <= k < |items| && Is(items[k], newName, itemCategory);
      assert items[k] in w;
    } else if Holds(items, itemName, itemCategory) {
      assert r == w + [Entry(newName, itemCategory, 0)];
      assert r[|w|] == Entry(newName, itemCategory, 0);
      assert multiset(r) == multiset(w) + multiset{Entry(newName, itemCategory, 0)};
    } else {
      WithoutNothing(items, itemName, itemCategory);
    }
  }

  // -----------------------------------------------------------------------
  // Where the dict-based rename and Renamed agree

  predicate DistinctNames(items: seq<Entry>) {
    forall i, j :: 0 <= i < j < |items| ==> items[i].name != items[j].name
  }

  function Pairs(items: seq<Entry>): (d: Dict)
    ensures |d| == |items| && forall k :: 0 <= k < |items| ==> d[k] == (items[k].name, items[k].category)
  {
    if |items| == 0 then [] else [(items[0].name, items[0].category)] + Pairs(items[1..])
  }

  lemma {:induction false} PutNew(d: Dict, n: string, c: string)
    requires forall k :: 0 <= k < |d| ==> d[k].0 != n
    ensures Put(d, n, c) == d + [(n, c)]
  {
    if |d| > 0 {
      PutNew(d[1..], n, c);
    }
  }

  lemma {:induction false} DictOfDistinct(items: seq<Entry>)
    requires DistinctNames(items)
    ensures DictOf(items) == Pairs(items)
  {
    if |items| > 0 {
      var init := items[..|items| - 1];
      var last := items[|items| - 1];
      assert DistinctNames(init);
      DictOfDistinct(init);
      PutNew(Pairs(init), last.name, last.category);
      assert Pairs(init) + [(last.name, last.category)] == Pairs(items);
    }
  }

  lemma {:induction false} LookupPairs(items: seq<Entry>, n: string)
    requires DistinctNames(items)
    ensures forall k :: 0 <= k < |items| && items[k].name == n ==> Lookup(Pairs(items), n) == Some(items[k].category)
    ensures (forall k :: 0 <= k < |items| ==> items[k].name != n) ==> Lookup(Pairs(items), n) == None
  {
    if |items| > 0 {
      assert DistinctNames(items[1..]) by {
        forall i, j | 0 <= i < j < |items[1..]| ensures items[1..][i].name != items[1..][j].name {
          assert items[1..][i] == items[i + 1] && items[1..][j] == items[j + 1];
        }
      }
      LookupPairs(items[1..], n);
      assert Pairs(items)[1..] == Pairs(items[1..]);
      forall k | 0 < k < |items| ensures items[k] == items[1..][k - 1] {
      }
    }
  }

  /** Dropping a name whose item is in field `c` from a dict of distinct
      names is filtering that item out. */
  lemma {:induction false} DropPairs(items: seq<Entry>, n: string, c: string)
    requires DistinctNames(items)
    requires forall k :: 0 <= k < |items| && items[k].name == n ==> items[k].category == c
    ensures Drop(Pairs(items), n) == Pairs(Without(items, n, c))
  {
    if |items| > 0 {
      assert DistinctNames(items[1..]) by {
        forall i, j | 0 <= i < j < |items[1..]| ensures items[1..][i].name != items[1..][j].name {
          assert items[1..][i] == items[i + 1] && items[1..][j] == items[j + 1];
        }
      }
      assert Pairs(items)[1..] == Pairs(items[1..]);
      if items[0].name == n {
        assert !Holds(items[1..], n, c) by {
          forall k | 0 <= k < |items[1..]| ensures items[1..][k].name != n {
            assert items[1..][k] == items[k + 1];
          }
        }
        WithoutNothing(items[1..], n, c);
      } else {
        DropPairs(items[1..], n, c);
        assert Pairs([items[0]] + Without(items[1..], n, c)) == [Pairs(items)[0]] + Pairs(Without(items[1..], n, c));
      }
    }
  }

  lemma {:induction false} ListOfPairs(items: seq<Entry>)
    requires forall k :: 0 <= k < |items| ==> items[k].flag == 0
    ensures ListOf(Pairs(items)) == items
  {
    if |items| > 0 {
      ListOfPairs(items[1..]);
      assert Pairs(items)[1..] == Pairs(items[1..]);
    }
  }

  lemma {:induction false} WithoutFlags(items: seq<Entry>, n: string, c: string)
    requires forall k :: 0 <= k < |items| ==> items[k].flag == 0
    ensures forall k :: 0 <= k < |Without(items, n, c)| ==> Without(items, n, c)[k].flag == 0
  {
    var w := Without(items, n, c);
    forall k | 0 <= k < |w| ensures w[k].flag == 0 {
      assert w[k] in items;
    }
  }

  /** The hypotheses under which the dict-based rename and Renamed agree:
      every name occurs once, every flag is 0, and the two names only occur
      in the renamed field. */
  predicate Plain(items: seq<Entry>, itemName: string, itemCategory: string, newName: string) {
    && itemName != newName && DistinctNames(items)
    && (forall k :: 0 <= k < |items| ==> items[k].flag == 0)
    && (forall k :: 0 <= k < |items| && (items[k].name == itemName || items[k].name == newName) ==>
          items[k].category == itemCategory)
  }

  lemma AgreesWhenNewPresent(items: seq<Entry>, itemName: string, itemCategory: string, newName: string)
    requires Plain(items, itemName, itemCategory, newName) && Holds(items, newName, itemCategory)
    ensures RenameAsWritten(items, itemName, itemCategory, newName) == Renamed(items, itemName, itemCategory, newName)
  {
    DictOfDistinct(items);
    LookupPairs(items, newName);
    LookupPairs(items, itemName);
    var k :| 0 <= k < |items| && Is(items[k], newName, itemCategory);
    assert Lookup(DictOf(items), newName) == Some(itemCategory);
    if Holds(items, itemName, itemCategory) {
      var w := Without(items, itemName, itemCategory);
      DropPairs(items, itemName, itemCategory);
      WithoutFlags(items, itemName, itemCategory);
      ListOfPairs(w);
    } else {
      WithoutNothing(items, itemName, itemCategory);
      assert forall j :: 0 <= j < |items| ==> items[j].name != itemName;
    }
  }

  /** The list rebuilt from the dict once `itemName` is deleted and
      `newName` set. */
  lemma RebuiltAfterRename(items: seq<Entry>, itemName: string, itemCategory: string, newName: string)
    requires Plain(items, itemName, itemCategory, newName)
    requires forall j :: 0 <= j < |items| ==> items[j].name != newName
    ensures ListOf(Put(Drop(Pairs(items), itemName), newName, itemCategory))
         == Without(items, itemName, itemCategory) + [Entry(newName, itemCategory, 0)]
  {
    var w := Without(items, itemName, itemCategory);
    DropPairs(items, itemName, itemCategory);
    assert forall j :: 0 <= j < |w| ==> w[j].name != newName by {
      forall j | 0 <= j < |w| ensures w[j].name != newName {
        assert w[j] in items;
      }
    }
    PutNew(Pairs(w), newName, itemCategory);
    WithoutFlags(items, itemName, itemCategory);
    var e := Entry(newName, itemCategory, 0);
    assert Pairs(w) + [(newName, itemCategory)] == Pairs(w + [e]);
    ListOfPairs(w + [e]);
  }

  lemma AgreesWhenRenaming(items: seq<Entry>, itemName: string, itemCategory: string, newName: string)
    requires Plain(items, itemName, itemCategory, newName)
    requires !Holds(items, newName, itemCategory) && Holds(items, itemName, itemCategory)
    ensures RenameAsWritten(items, itemName, itemCategory, newName) == Renamed(items, itemName, itemCategory, newName)
  {
    DictOfDistinct(items);
    assert forall j :: 0 <= j < |items| ==> items[j].name != newName;
    LookupPairs(items, newName);
    LookupPairs(items, itemName);
    var k :| 0 <= k < |items| && Is(items[k], itemName, itemCategory);
    assert Lookup(DictOf(items), itemName) == Some(itemCategory);
    assert Lookup(DictOf(items), newName) == None;
    RebuiltAfterRename(items, itemName, itemCategory, newName);
  }

  /** Where every name occurs once, every flag is 0 and the two names only
      occur in the renamed field, the dict-based rename gives Renamed. */
  lemma RenameAsWrittenAgrees(items: seq<Entry>, itemName: string, itemCategory: string, newName: string)
    requires Plain(items, itemName, itemCategory, newName)
    ensures RenameAsWritten(items, itemName, itemCategory, newName) == Renamed(items, itemName, itemCategory, newName)
  {
    if Holds(items, newName, itemCategory) {
      AgreesWhenNewPresent(items, itemName, itemCategory, newName);
    } else if Holds(items, itemName, itemCategory) {
      AgreesWhenRenaming(items, itemName, itemCategory, newName);
    } else {
      DictOfDistinct(items);
      assert forall j :: 0 <= j < |items| ==> items[j].name != newName && items[j].name != itemName;
      LookupPairs(items, newName);
      LookupPairs(items, itemName);
    }
  }

  // -----------------------------------------------------------------------
  // process_source_node: dropping a node and its subtree on a user category

  /** The arguments handle_drop passes down: the user category the items
      come from, whether it is a grouped search term, whether the source is
      a user category at all, whether the drop is a move, and the user
      category dropped on. */
  datatype Drag = Drag(srcParent: string, srcParentIsGst: bool, isUc: bool, move: bool, dest: string)

  /** The drop removes the items from their source user category. */
  predicate Moves(d: Drag, cats: Cats) {
    d.isUc && !d.srcParentIsGst && d.srcParent in cats && d.move
  }

  /** The field recorded in the destination: news items become tags unless
      they come from a user category. */
  function DestField(d: Drag, category: string): (f: string)
    ensures d.isUc ==> f == category
  {
    if !d.isUc && category == "news" then "tags" else category
  }

  /** process_source_node for one node, before its children. */
  function DropOne(cats: Cats, d: Drag, name: string, category: string): (r: Cats)
    requires d.dest in cats
    ensures r.Keys == cats.Keys
  {
    var removed := if Moves(d, cats) then cats[d.srcParent := Without(cats[d.srcParent], name, category)] else cats;
    var field := DestField(d, category);
    if Holds(removed[d.dest], name, field) then removed
    else removed[d.dest := removed[d.dest] + [Entry(name, field, 0)]]
  }

  /** process_source_node over a list of sibling nodes, each followed by
      its own children. */
  function DropForest(a: TagData.Arena, cats: Cats, d: Drag, lo: nat, cs: seq<nat>): (r: Cats)
    requires TagData.WellFormed(a) && TagData.AllBelow(a, lo, cs) && lo > 0 && d.dest in cats
    ensures r.Keys == cats.Keys
    decreases |a.nodes| - lo, |cs|
  {
    if |cs| == 0 then cats
    else
      TagData.ChildrenBelow(a, cs[0]);
      var t := TagData.TagOf(a, cs[0]);
      var afterTree := DropForest(a, DropOne(cats, d, t.originalName, t.category), d, cs[0] + 1, TagData.Children(a, cs[0]));
      DropForest(a, afterTree, d, lo, cs[1..])
  }

  /** process_source_node on node `i` and its subtree. */
  function DropTree(a: TagData.Arena, cats: Cats, d: Drag, i: nat): (r: Cats)
    requires TagData.WellFormed(a) && 0 < i < |a.nodes| && d.dest in cats
    ensures r.Keys == cats.Keys
  {
    TagData.ChildrenBelow(a, i);
    var t := TagData.TagOf(a, i);
    DropForest(a, DropOne(cats, d, t.originalName, t.category), d, i + 1, TagData.Children(a, i))
  }

  lemma ForestUnfold(a: TagData.Arena, cats: Cats, d: Drag, lo: nat, cs: seq<nat>)
    requires TagData.WellFormed(a) && TagData.AllBelow(a, lo, cs) && lo > 0 && d.dest in cats && |cs| > 0
    ensures TagData.AllBelow(a, lo, cs[1..]) && 0 < cs[0] < |a.nodes|
    ensures DropForest(a, cats, d, lo, cs) == DropForest(a, DropTree(a, cats, d, cs[0]), d, lo, cs[1..])
  {
  }

  ghost predicate Nodes(a: TagData.Arena, xs: seq<nat>) {
    TagData.WellFormed(a) && forall k :: 0 <= k < |xs| ==> 0 < xs[k] < |a.nodes|
  }

  /** DropOne applied to the nodes `xs` in turn. */
  function Steps(a: TagData.Arena, cats: Cats, d: Drag, xs: seq<nat>): (r: Cats)
    requires Nodes(a, xs) && d.dest in cats
    ensures r.Keys == cats.Keys
  {
    if |xs| == 0 then cats
    else
      var t := TagData.TagOf(a, xs[0]);
      Steps(a, DropOne(cats, d, t.originalName, t.category), d, xs[1..])
  }

  lemma {:induction false} StepsConcat(a: TagData.Arena, cats: Cats, d: Drag, xs: seq<nat>, ys: seq<nat>)
    requires Nodes(a, xs) && Nodes(a, ys) && d.dest in cats
    ensures Nodes(a, xs + ys)
    ensures Steps(a, cats, d, xs + ys) == Steps(a, Steps(a, cats, d, xs), d, ys)
    decreases |xs|
  {
    assert Nodes(a, xs + ys);
    if |xs| == 0 {
      assert xs + ys == ys;
    } else {
      var t := TagData.TagOf(a, xs[0]);
      assert (xs + ys)[1..] == xs[1..] + ys;
      StepsConcat(a, DropOne(cats, d, t.originalName, t.category), d, xs[1..], ys);
    }
  }

  /** The recursion of process_source_node visits the nodes in the order of
      the pre-order walk. */
  lemma {:induction false} ForestIsSteps(a: TagData.Arena, cats: Cats, d: Drag, lo: nat, cs: seq<nat>)
    requires TagData.WellFormed(a) && TagData.AllBelow(a, lo, cs) && lo > 0 && d.dest in cats
    ensures Nodes(a, TagData.Walk(a, lo, cs))
    ensures DropForest(a, cats, d, lo, cs) == Steps(a, cats, d, TagData.Walk(a, lo, cs))
    decreases |a.nodes| - lo, |cs|
  {
    if |cs| > 0 {
      TagData.ChildrenBelow(a, cs[0]);
      var t := TagData.TagOf(a, cs[0]);
      var first := DropOne(cats, d, t.originalName, t.category);
      var sub := TagData.Walk(a, cs[0] + 1, TagData.Children(a, cs[0]));
      var rest := TagData.Walk(a, lo, cs[1..]);
      ForestIsSteps(a, first, d, cs[0] + 1, TagData.Children(a, cs[0]));
      var afterTree := DropForest(a, first, d, cs[0] + 1, TagData.Children(a, cs[0]));
      ForestIsSteps(a, afterTree, d, lo, cs[1..]);
      assert TagData.Walk(a, lo, cs) == [cs[0]] + sub + rest;
      assert Nodes(a, [cs[0]]);
      StepsConcat(a, cats, d, [cs[0]], sub);
      StepsConcat(a, cats, d, [cs[0]] + sub, rest);
      assert Steps(a, cats, d, [cs[0]]) == first;
    }
  }

  /** The nodes process_source_node visits from `i`. */
  function Visited(a: TagData.Arena, i: nat): (r: seq<nat>)
    requires TagData.WellFormed(a) && 0 < i < |a.nodes|
    ensures Nodes(a, r) && |r| >= 1 && r[0] == i
  {
    [i] + TagData.AllChildren(a, i)
  }

  lemma TreeIsSteps(a: TagData.Arena, cats: Cats, d: Drag, i: nat)
    requires TagData.WellFormed(a) && 0 < i < |a.nodes| && d.dest in cats
    ensures DropTree(a, cats, d, i) == Steps(a, cats, d, Visited(a, i))
  {
    TagData.ChildrenBelow(a, i);
    var t := TagData.TagOf(a, i);
    ForestIsSteps(a, DropOne(cats, d, t.originalName, t.category), d, i + 1, TagData.Children(a, i));
    assert Visited(a, i)[1..] == TagData.AllChildren(a, i);
  }

  /** A step keeps every item already in the destination: one the move
      takes out of it is put back, as the field is then unchanged. */
  lemma InHolds(items: seq<Entry>, e: Entry)
    requires e in items
    ensures Holds(items, e.name, e.category)
  {
    var k :| 0 <= k < |items| && items[k] == e;
  }

  lemma DropOneKeeps(cats: Cats, d: Drag, name: string, category: string, n: string, c: string)
    requires d.dest in cats && Holds(cats[d.dest], n, c)
    ensures Holds(DropOne(cats, d, name, category)[d.dest], n, c)
  {
    var k :| 0 <= k < |cats[d.dest]| && Is(cats[d.dest][k], n, c);
    var removed := if Moves(d, cats) then cats[d.srcParent := Without(cats[d.srcParent], name, category)] else cats;
    var r := DropOne(cats, d, name, category);
    assert removed[d.dest] <= r[d.dest];
    if Moves(d, cats) && d.srcParent == d.dest && n == name && c == category {
      if !Holds(removed[d.dest], name, category) {
        assert r[d.dest][|removed[d.dest]|] == Entry(name, category, 0);
      }
    } else {
      assert cats[d.dest][k] in removed[d.dest];
      InHolds(removed[d.dest], cats[d.dest][k]);
      var m :| 0 <= m < |removed[d.dest]| && Is(removed[d.dest][m], n, c);
      assert r[d.dest][m] == removed[d.dest][m];
    }
  }

  lemma DropOneAdds(cats: Cats, d: Drag, name: string, category: string)
    requires d.dest in cats
    ensures Holds(DropOne(cats, d, name, category)[d.dest], name, DestField(d, category))
  {
    var removed := if Moves(d, cats) then cats[d.srcParent := Without(cats[d.srcParent], name, category)] else cats;
    var r := DropOne(cats, d, name, category);
    if !Holds(removed[d.dest], name, DestField(d, category)) {
      assert r[d.dest][|removed[d.dest]|] == Entry(name, DestField(d, category), 0);
    }
  }

  lemma {:induction false} StepsKeep(a: TagData.Arena, cats: Cats, d: Drag, xs: seq<nat>, n: string, c: string)
    requires Nodes(a, xs) && d.dest in cats && Holds(cats[d.dest], n, c)
    ensures Holds(Steps(a, cats, d, xs)[d.dest], n, c)
  {
    if |xs| > 0 {
      var t := TagData.TagOf(a, xs[0]);
      DropOneKeeps(cats, d, t.originalName, t.category, n, c);
      StepsKeep(a, DropOne(cats, d, t.originalName, t.category), d, xs[1..], n, c);
    }
  }

  /** After the drop, the destination holds every visited node's item. */
  lemma {:induction false} StepsAdd(a: TagData.Arena, cats: Cats, d: Drag, xs: seq<nat>)
    requires Nodes(a, xs) && d.dest in cats
    ensures forall k :: 0 <= k < |xs| ==>
      Holds(Steps(a, cats, d, xs)[d.dest], TagData.TagOf(a, xs[k]).originalName, DestField(d, TagData.TagOf(a, xs[k]).category))
  {
    if |xs| > 0 {
      var t := TagData.TagOf(a, xs[0]);
      var first := DropOne(cats, d, t.originalName, t.category);
      DropOneAdds(cats, d, t.originalName, t.category);
      StepsKeep(a, first, d, xs[1..], t.originalName, DestField(d, t.category));
      StepsAdd(a, first, d, xs[1..]);
      forall k | 0 < k < |xs| ensures xs[k] == xs[1..][k - 1] {
      }
    }
  }

  /** A move out of a user category other than the destination leaves none
      of the visited items in it. */
  lemma {:induction false} StepsRemove(a: TagData.Arena, cats: Cats, d: Drag, xs: seq<nat>)
    requires Nodes(a, xs) && d.dest in cats && Moves(d, cats) && d.srcParent != d.dest
    ensures forall k :: 0 <= k < |xs| ==>
      !Holds(Steps(a, cats, d, xs)[d.srcParent], TagData.TagOf(a, xs[k]).originalName, TagData.TagOf(a, xs[k]).category)
  {
    if |xs| > 0 {
      var t := TagData.TagOf(a, xs[0]);
      var first := DropOne(cats, d, t.originalName, t.category);
      assert !Holds(first[d.srcParent], t.originalName, t.category);
      StepsKeepOut(a, first, d, xs[1..], t.originalName, t.category);
      StepsRemove(a, first, d, xs[1..]);
      forall k | 0 < k < |xs| ensures xs[k] == xs[1..][k - 1] {
      }
    }
  }

  lemma {:induction false} StepsKeepOut(a: TagData.Arena, cats: Cats, d: Drag, xs: seq<nat>, n: string, c: string)
    requires Nodes(a, xs) && d.dest in cats && Moves(d, cats) && d.srcParent != d.dest
    requires !Holds(cats[d.srcParent], n, c)
    ensures !Holds(Steps(a, cats, d, xs)[d.srcParent], n, c)
  {
    if |xs| > 0 {
      var t := TagData.TagOf(a, xs[0]);
      var first := DropOne(cats, d, t.originalName, t.category);
      assert !Holds(first[d.srcParent], n, c) by {
        var w := Without(cats[d.srcParent], t.originalName, t.category);
        assert first[d.srcParent] == w;
        forall k | 0 <= k < |w| ensures !Is(w[k], n, c) {
          assert w[k] in cats[d.srcParent];
        }
      }
      StepsKeepOut(a, first, d, xs[1..], n, c);
    }
  }

  /** Only the destination and, for a move, the source category change. */
  lemma {:induction false} StepsOthers(a: TagData.Arena, cats: Cats, d: Drag, xs: seq<nat>)
    requires Nodes(a, xs) && d.dest in cats
    ensures forall k :: k in cats && k != d.dest && (k != d.srcParent || !Moves(d, cats)) ==>
      Steps(a, cats, d, xs)[k] == cats[k]
  {
    if |xs| > 0 {
      var t := TagData.TagOf(a, xs[0]);
      StepsOthers(a, DropOne(cats, d, t.originalName, t.category), d, xs[1..]);
    }
  }

  /** No two items of the list are the same name from the same field. */
  predicate NoDuplicates(items: seq<Entry>) {
    forall i, j :: 0 <= i < j < |items| ==> !Is(items[j], items[i].name, items[i].category)
  }

  lemma TailNoDuplicates(items: seq<Entry>)
    requires NoDuplicates(items) && |items| > 0
    ensures NoDuplicates(items[1..])
  {
    var tail := items[1..];
    forall i, j | 0 <= i < j < |tail| ensures !Is(tail[j], tail[i].name, tail[i].category) {
      assert tail[i] == items[i + 1] && tail[j] == items[j + 1];
    }
  }

  lemma ConsNoDuplicates(e: Entry, w: seq<Entry>)
    requires NoDuplicates(w) && forall x :: x in w ==> !Is(x, e.name, e.category)
    ensures NoDuplicates([e] + w)
  {
    var l := [e] + w;
    forall i, j | 0 <= i < j < |l| ensures !Is(l[j], l[i].name, l[i].category) {
      assert l[j] == w[j - 1];
      if i > 0 {
        assert l[i] == w[i - 1];
      }
    }
  }

  lemma {:induction false} WithoutNoDuplicates(items: seq<Entry>, name: string, category: string)
    requires NoDuplicates(items)
    ensures NoDuplicates(Without(items, name, category))
  {
    if |items| > 0 {
      var tail := items[1..];
      TailNoDuplicates(items);
      WithoutNoDuplicates(tail, name, category);
      var w := Without(tail, name, category);
      if !Is(items[0], name, category) {
        forall x | x in w ensures !Is(x, items[0].name, items[0].category) {
          var m :| 0 <= m < |tail| && tail[m] == x;
          assert tail[m] == items[m + 1];
        }
        ConsNoDuplicates(items[0], w);
      } else {
        assert [] + w == w;
      }
    }
  }

  lemma DropOneNoDuplicates(cats: Cats, d: Drag, name: string, category: string)
    requires d.dest in cats && NoDuplicates(cats[d.dest])
    ensures NoDuplicates(DropOne(cats, d, name, category)[d.dest])
  {
    var removed := if Moves(d, cats) then cats[d.srcParent := Without(cats[d.srcParent], name, category)] else cats;
    if Moves(d, cats) && d.srcParent == d.dest {
      WithoutNoDuplicates(cats[d.dest], name, category);
    }
    assert NoDuplicates(removed[d.dest]);
  }

  /** A drop adds no item the destination already holds. */
  lemma {:induction false} StepsNoDuplicates(a: TagData.Arena, cats: Cats, d: Drag, xs: seq<nat>)
    requires Nodes(a, xs) && d.dest in cats && NoDuplicates(cats[d.dest])
    ensures NoDuplicates(Steps(a, cats, d, xs)[d.dest])
  {
    if |xs| > 0 {
      var t := TagData.TagOf(a, xs[0]);
      DropOneNoDuplicates(cats, d, t.originalName, t.category);
      StepsNoDuplicates(a, DropOne(cats, d, t.originalName, t.category), d, xs[1..]);
    }
  }

  /** What a drop of node `i` does to the user categories: every visited
      item is in the destination, a move out of another category leaves
      none of them there, no other category changes, and the destination
      gains no duplicate. */
  lemma DropTreeSpec(a: TagData.Arena, cats: Cats, d: Drag, i: nat)
    requires TagData.WellFormed(a) && 0 < i < |a.nodes| && d.dest in cats
    ensures var r := DropTree(a, cats, d, i); var xs := Visited(a, i);
      && (forall k :: 0 <= k < |xs| ==>
            Holds(r[d.dest], TagData.TagOf(a, xs[k]).originalName, DestField(d, TagData.TagOf(a, xs[k]).category)))
      && (Moves(d, cats) && d.srcParent != d.dest ==> forall k :: 0 <= k < |xs| ==>
            !Holds(r[d.srcParent], TagData.TagOf(a, xs[k]).originalName, TagData.TagOf(a, xs[k]).category))
      && (forall k :: k in cats && k != d.dest && (k != d.srcParent || !Moves(d, cats)) ==> r[k] == cats[k])
      && (NoDuplicates(cats[d.dest]) ==> NoDuplicates(r[d.dest]))
  {
    TreeIsSteps(a, cats, d, i);
    var xs := Visited(a, i);
    StepsAdd(a, cats, d, xs);
    if Moves(d, cats) && d.srcParent != d.dest {
      StepsRemove(a, cats, d, xs);
    }
    StepsOthers(a, cats, d, xs);
    if NoDuplicates(cats[d.dest]) {
      StepsNoDuplicates(a, cats, d, xs);
    }
  }

  // -----------------------------------------------------------------------
  // The preference object

  /** The `user_categories` preference the tag browser reads, edits and
      writes back. */
  class UserCategoryPrefs {
    var cats: Cats

    constructor (cats: Cats)
      ensures this.cats == cats
    {
      this.cats := cats;
    }

    /** delete_item_from_user_category: the category keeps exactly the items
        that are not `itemName` from `itemCategory`, in their order. */
    method DeleteItemFromUserCategory(category: string, itemName: string, itemCategory: string)
      requires category in cats
      modifies this`cats
      ensures cats == old(cats)[category := Without(old(cats)[category], itemName, itemCategory)]
    {
      var newContents := Filter(cats[category], itemName, itemCategory);
      cats := cats[category := newContents];
    }

    /** delete_item_from_all_user_categories. */
    method DeleteItemFromAllUserCategories(itemName: string, itemCategory: string)
      modifies this`cats
      ensures cats == map k | k in old(cats) :: Without(old(cats)[k], itemName, itemCategory)
    {
      var todo := cats.Keys;
      while todo != {}
        invariant todo <= old(cats).Keys && cats.Keys == old(cats).Keys
        invariant forall k :: k in cats ==>
          cats[k] == if k in todo then old(cats)[k] else Without(old(cats)[k], itemName, itemCategory)
        decreases |todo|
      {
        var k :| k in todo;
        DeleteItemFromUserCategory(k, itemName, itemCategory);
        todo := todo - {k};
      }
    }

    /** add_renamed_item_to_user_categories: every category holding
        `originalName` of field `lookupKey` also holds `newName` afterwards;
        nothing is removed. */
    method AddRenamedItemToUserCategories(lookupKey: string, originalName: string, newName: string)
      modifies this`cats
      ensures cats == map k | k in old(cats) :: WithRenamed(old(cats)[k], lookupKey, originalName, newName)
    {
      var todo := cats.Keys;
      while todo != {}
        invariant todo <= old(cats).Keys && cats.Keys == old(cats).Keys
        invariant forall k :: k in cats ==>
          cats[k] == if k in todo then old(cats)[k] else WithRenamed(old(cats)[k], lookupKey, originalName, newName)
        decreases |todo|
      {
        var k :| k in todo;
        var foundOriginal, foundNew := Scan(cats[k], lookupKey, originalName, newName);
        if foundOriginal && !foundNew {
          cats := cats[k := cats[k] + [Entry(newName, lookupKey, 0)]];
        }
        todo := todo - {k};
      }
    }

    /** rename_item_in_all_user_categories, with each list renamed by
        Renamed rather than through a dict keyed by name alone. */
    method RenameItemInAllUserCategories(itemName: string, itemCategory: string, newName: string)
      modifies this`cats
      ensures cats == map k | k in old(cats) :: Renamed(old(cats)[k], itemName, itemCategory, newName)
    {
      var todo := cats.Keys;
      while todo != {}
        invariant todo <= old(cats).Keys && cats.Keys == old(cats).Keys
        invariant forall k :: k in cats ==>
          cats[k] == if k in todo then old(cats)[k] else Renamed(old(cats)[k], itemName, itemCategory, newName)
        decreases |todo|
      {
        var k :| k in todo;
        cats := cats[k := Renamed(cats[k], itemName, itemCategory, newName)];
        todo := todo - {k};
      }
    }

    /** The part of process_source_node before the recursion: take the item
        out of its source category on a move, then add it to the destination
        unless it is there. */
    method ProcessOne(d: Drag, srcName: string, category: string) returns (copied: bool)
      requires d.dest in cats
      modifies this`cats
      ensures cats == DropOne(old(cats), d, srcName, category)
      ensures copied == !Moves(d, old(cats))
    {
      copied := false;
      var srcCat := category;
      if d.isUc && !d.srcParentIsGst && d.srcParent in cats && d.move {
        var newCat := Filter(cats[d.srcParent], srcName, srcCat);
        cats := cats[d.srcParent := newCat];
      } else {
        copied := true;
      }
      if !d.isUc && srcCat == "news" {
        srcCat := "tags";
      }
      var found := FindItem(cats[d.dest], srcName, srcCat);
      if !found {
        cats := cats[d.dest := cats[d.dest] + [Entry(srcName, srcCat, 0)]];
      }
    }

    /** process_source_node: copy or move node `i` and its subtree into the
        user category `d.dest`. The result says whether the items were
        copied (not taken out of their source category). */
    method ProcessSourceNode(a: TagData.Arena, d: Drag, i: nat) returns (copied: bool)
      requires TagData.WellFormed(a) && 0 < i < |a.nodes| && d.dest in cats
      modifies this`cats
      ensures cats == DropTree(a, old(cats), d, i)
      ensures copied == !Moves(d, old(cats))
      decreases |a.nodes| - i, 1
    {
      var t := a.tags[a.nodes[i].tag];
      copied := ProcessOne(d, t.originalName, t.category);
      TagData.ChildrenBelow(a, i);
      copied := ProcessChildren(a, d, i, copied);
    }

    /** The loop of process_source_node over the children of node `i`; the
        result is the last child's, or `copied` when there is none. */
    method ProcessChildren(a: TagData.Arena, d: Drag, i: nat, copied0: bool) returns (copied: bool)
      requires TagData.WellFormed(a) && 0 < i < |a.nodes| && d.dest in cats
      requires TagData.AllBelow(a, i + 1, a.nodes[i].children)
      requires copied0 == !Moves(d, cats)
      modifies this`cats
      ensures cats == DropForest(a, old(cats), d, i + 1, a.nodes[i].children)
      ensures copied == copied0
      decreases |a.nodes| - i, 0
    {
      copied := copied0;
      var rest := a.nodes[i].children;
      while rest != []
        invariant cats.Keys == old(cats).Keys && d.dest in cats && TagData.AllBelow(a, i + 1, rest)
        invariant DropForest(a, cats, d, i + 1, rest) == DropForest(a, old(cats), d, i + 1, a.nodes[i].children)
        invariant copied == copied0
        decreases |rest|
      {
        ForestUnfold(a, cats, d, i + 1, rest);
        copied := ProcessSourceNode(a, d, rest[0]);
        rest := rest[1..];
      }
    }
  }
}
