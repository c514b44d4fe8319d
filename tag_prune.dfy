/** The last stage of the tag browser's build (TagsModel._create_node_tree
    in src/calibre/gui2/tag_browser/model.py): user categories left empty
    are taken out of the tree, then the top level keeps the categories that
    are shown, in the order of the category list. Both stages only reassign
    children lists; no node is created or changed otherwise. */
module TagPrune {
  import opened Common
  import opened TagData
  import Sorting

  /** A user category node: a category whose key starts with '@'. */
  predicate IsUserCategory(n: Node) {
    n.kind.Category? && StartsWith(n.kind.key, "@")
  }

  /** The nodes process_uc_children leaves out: user categories with no children. */
  predicate EmptyUserCategory(n: Node) {
    IsUserCategory(n) && |n.children| == 0
  }

  // -----------------------------------------------------------------------
  // process_uc_children as written: a child's emptiness is judged before
  // the child's own children are pruned

  function UcChildrenAsWritten(ns: seq<Node>, i: nat): (r: seq<Node>)
    requires i < |ns|
    ensures |r| == |ns|
    decreases |ns| - i, 1
  {
    UcEachAsWritten(ns, i, ns[i].children, [])
  }

  /** The loop over `parent.children`; `acc` is `new_children` so far. */
  function UcEachAsWritten(ns: seq<Node>, i: nat, cs: seq<nat>, acc: seq<nat>): (r: seq<Node>)
    requires i < |ns|
    ensures |r| == |ns|
    decreases |ns| - i, 0, |cs|
  {
    if |cs| == 0 then ns[i := ns[i].(children := acc)]
    else
      var c := cs[0];
      if c < |ns| && ns[c].kind.Category? then
        if EmptyUserCategory(ns[c]) then UcEachAsWritten(ns, i, cs[1..], acc)
        else UcEachAsWritten(if i < c then UcChildrenAsWritten(ns, c) else ns, i, cs[1..], acc + [c])
      else UcEachAsWritten(ns, i, cs[1..], acc + [c])
  }

  function UserCategoryNode(key: string, parent: nat, children: seq<nat>): Node {
    Node(Category(key, false, false), 0, Some(parent), children, None, None, true)
  }

  /** '@A' holding only '@A.B', which holds only the empty '@A.B.C'. */
  function NestedEmpty(): seq<Node> {
    [Node(Root, 0, None, [1], None, None, false),
     UserCategoryNode("@A", 0, [2]),
     UserCategoryNode("@A.B", 1, [3]),
     UserCategoryNode("@A.B.C", 2, [])]
  }

  /** As written, '@A.B' stays under '@A' although it ends up empty. */
  lemma AsWrittenKeepsEmptyUserCategory()
    ensures var r := UcChildrenAsWritten(NestedEmpty(), 1);
      r[1].children == [2] && EmptyUserCategory(r[2])
  {
    var ns := NestedEmpty();
    var inner := UcChildrenAsWritten(ns, 2);
    assert inner == ns[2 := ns[2].(children := [])] by {
      assert EmptyUserCategory(ns[3]);
      assert [3][1..] == [];
    }
    assert [2][1..] == [] && [] + [2] == [2];
    assert !EmptyUserCategory(ns[2]) && ns[2].kind.Category?;
    assert UcChildrenAsWritten(ns, 1) == UcEachAsWritten(ns, 1, [2], []);
    assert UcEachAsWritten(ns, 1, [2], []) == UcEachAsWritten(inner, 1, [], [2]);
  }

  // -----------------------------------------------------------------------
  // process_uc_children with the child pruned before its emptiness is
  // judged, so that a user category emptied by the pruning goes too

  function UcChildren(ns: seq<Node>, i: nat): (r: seq<Node>)
    requires i < |ns|
    ensures |r| == |ns|
    decreases |ns| - i, 1
  {
    UcEach(ns, i, ns[i].children, [])
  }

  function UcEach(ns: seq<Node>, i: nat, cs: seq<nat>, acc: seq<nat>): (r: seq<Node>)
    requires i < |ns|
    ensures |r| == |ns|
    decreases |ns| - i, 0, |cs|
  {
    if |cs| == 0 then ns[i := ns[i].(children := acc)]
    else
      var c := cs[0];
      if c < |ns| && ns[c].kind.Category? then
        var ns' := if i < c then UcChildren(ns, c) else ns;
        if EmptyUserCategory(ns'[c]) then UcEach(ns', i, cs[1..], acc)
        else UcEach(ns', i, cs[1..], acc + [c])
      else UcEach(ns, i, cs[1..], acc + [c])
  }

  // -----------------------------------------------------------------------
  // The tree shape the pruning relies on and keeps

  /** Node `j` lists its children once each, created after it, each pointing back at it. */
  ghost predicate ChildrenIn(ns: seq<Node>, j: nat)
    requires j < |ns|
  {
    var cs := ns[j].children;
    (forall k :: 0 <= k < |cs| ==> j < cs[k] < |ns| && ns[cs[k]].parent == Some(j)) && Distinct(cs)
  }

  ghost predicate Tree(ns: seq<Node>) {
    forall j :: 0 <= j < |ns| ==> ChildrenIn(ns, j)
  }

  /** `r` differs from `ns` only in children lists, which lost entries at most. */
  ghost predicate Trimmed(ns: seq<Node>, r: seq<Node>) {
    && |r| == |ns|
    && forall j :: 0 <= j < |ns| ==>
         r[j] == ns[j].(children := r[j].children) && (forall x :: x in r[j].children ==> x in ns[j].children)
  }

  /** Node `j` lies in the subtree of node `c`, following parent links. */
  ghost predicate Below(ns: seq<Node>, c: nat, j: nat)
    decreases j
  {
    j == c || (j < |ns| && ns[j].parent.Some? && ns[j].parent.value < j && Below(ns, c, ns[j].parent.value))
  }

  lemma ChildOf(ns: seq<Node>, i: nat, c: nat)
    requires Tree(ns) && i < |ns| && c in ns[i].children
    ensures i < c < |ns| && ns[c].parent == Some(i)
  {
    assert ChildrenIn(ns, i);
  }

  lemma {:induction false} BelowAtLeast(ns: seq<Node>, c: nat, j: nat)
    requires Below(ns, c, j)
    ensures c <= j
    decreases j
  {
    if j != c {
      BelowAtLeast(ns, c, ns[j].parent.value);
    }
  }

  lemma {:induction false} BelowParent(ns: seq<Node>, i: nat, c: nat, j: nat)
    requires c < |ns| && ns[c].parent == Some(i) && i < c && Below(ns, c, j)
    ensures Below(ns, i, j)
    decreases j
  {
    if j != c {
      BelowParent(ns, i, c, ns[j].parent.value);
    }
  }

  lemma {:induction false} BelowTrimmed(ns: seq<Node>, r: seq<Node>, c: nat, j: nat)
    requires Trimmed(ns, r)
    ensures Below(ns, c, j) == Below(r, c, j)
    decreases j
  {
    if j != c && j < |ns| {
      assert r[j].parent == ns[j].parent;
      if ns[j].parent.Some? && ns[j].parent.value < j {
        BelowTrimmed(ns, r, c, ns[j].parent.value);
      }
    }
  }

  /** Two children of one node have disjoint subtrees. */
  lemma SiblingsApart(ns: seq<Node>, i: nat, c: nat, d: nat)
    requires Tree(ns) && i < |ns| && c in ns[i].children && d in ns[i].children && c != d
    ensures !Below(ns, d, c)
  {
    ChildOf(ns, i, c);
    ChildOf(ns, i, d);
    if Below(ns, d, c) {
      BelowAtLeast(ns, d, i);
    }
  }

  lemma TrimmedTrans(a: seq<Node>, b: seq<Node>, c: seq<Node>)
    requires Trimmed(a, b) && Trimmed(b, c)
    ensures Trimmed(a, c)
  {
  }

  /** The loop's state: `cs` is what is left of node `i`'s children and
      `acc` what has been kept so far. */
  ghost predicate EachOk(ns: seq<Node>, i: nat, cs: seq<nat>, acc: seq<nat>) {
    && i < |ns| && Tree(ns)
    && (forall k :: 0 <= k < |cs| ==> cs[k] in ns[i].children)
    && (forall x :: x in acc ==> x in ns[i].children)
    && Distinct(acc + cs)
  }

  lemma DistinctDropFirst(acc: seq<nat>, cs: seq<nat>)
    requires |cs| > 0 && Distinct(acc + cs)
    ensures Distinct(acc + cs[1..]) && Distinct((acc + [cs[0]]) + cs[1..])
    ensures cs[0] !in acc && forall k :: 1 <= k < |cs| ==> cs[k] != cs[0]
  {
    assert (acc + [cs[0]]) + cs[1..] == acc + cs;
    var s := acc + cs[1..];
    forall k, l | 0 <= k < l < |s| ensures s[k] != s[l] {
      var k' := if k < |acc| then k else k + 1;
      var l' := if l < |acc| then l else l + 1;
      assert s[k] == (acc + cs)[k'] && s[l] == (acc + cs)[l'];
    }
    forall k | 1 <= k < |cs| ensures cs[k] != cs[0] {
      assert (acc + cs)[|acc|] == cs[0] && (acc + cs)[|acc| + k] == cs[k];
    }
    forall k | 0 <= k < |acc| ensures acc[k] != cs[0] {
      assert (acc + cs)[k] == acc[k] && (acc + cs)[|acc|] == cs[0];
    }
  }

  /** The corrected pass keeps the tree well formed, changes children lists
      only, and only inside the subtree it prunes. */
  lemma {:induction false} UcChildrenFrame(ns: seq<Node>, i: nat)
    requires Tree(ns) && i < |ns|
    ensures var r := UcChildren(ns, i);
      Tree(r) && Trimmed(ns, r) && forall j :: 0 <= j < |ns| && !Below(ns, i, j) ==> r[j] == ns[j]
    decreases |ns| - i, 1
  {
    var cs := ns[i].children;
    assert ChildrenIn(ns, i);
    assert [] + cs == cs;
    UcEachFrame(ns, i, cs, []);
    var r := UcChildren(ns, i);
    forall j | 0 <= j < |ns| && !Below(ns, i, j) ensures r[j] == ns[j] {
      forall k | 0 <= k < |cs| ensures !Below(ns, cs[k], j) {
        ChildOf(ns, i, cs[k]);
        if Below(ns, cs[k], j) {
          BelowParent(ns, i, cs[k], j);
        }
      }
    }
  }

  lemma {:induction false} UcEachFrame(ns: seq<Node>, i: nat, cs: seq<nat>, acc: seq<nat>)
    requires EachOk(ns, i, cs, acc)
    ensures var r := UcEach(ns, i, cs, acc);
      && Tree(r) && Trimmed(ns, r)
      && forall j :: 0 <= j < |ns| && j != i && (forall k :: 0 <= k < |cs| ==> !Below(ns, cs[k], j)) ==> r[j] == ns[j]
    decreases |ns| - i, 0, |cs|
  {
    if |cs| == 0 {
      var r := ns[i := ns[i].(children := acc)];
      assert acc + cs == acc;
      forall j | 0 <= j < |r| ensures ChildrenIn(r, j) {
        assert ChildrenIn(ns, j);
        if j == i {
          forall k | 0 <= k < |acc| ensures i < acc[k] < |r| && r[acc[k]].parent == Some(i) {
            assert acc[k] in acc;
            ChildOf(ns, i, acc[k]);
          }
        }
      }
    } else {
      var c := cs[0];
      assert c in ns[i].children;
      ChildOf(ns, i, c);
      DistinctDropFirst(acc, cs);
      if ns[c].kind.Category? {
        UcChildrenFrame(ns, c);
        var ns' := UcChildren(ns, c);
        if Below(ns, c, i) {
          BelowAtLeast(ns, c, i);
        }
        assert ns'[i] == ns[i];
        var acc' := if EmptyUserCategory(ns'[c]) then acc else acc + [c];
        assert EachOk(ns', i, cs[1..], acc');
        UcEachFrame(ns', i, cs[1..], acc');
        var r := UcEach(ns', i, cs[1..], acc');
        assert r == UcEach(ns, i, cs, acc);
        TrimmedTrans(ns, ns', r);
        forall j | 0 <= j < |ns| && j != i && (forall k :: 0 <= k < |cs| ==> !Below(ns, cs[k], j))
          ensures r[j] == ns[j]
        {
          assert !Below(ns, cs[0], j);
          forall k | 0 <= k < |cs[1..]| ensures !Below(ns', cs[1..][k], j) {
            assert cs[1..][k] == cs[k + 1];
            BelowTrimmed(ns, ns', cs[k + 1], j);
          }
        }
      } else {
        var acc' := acc + [c];
        assert EachOk(ns, i, cs[1..], acc');
        UcEachFrame(ns, i, cs[1..], acc');
        forall j | 0 <= j < |ns| && j != i && (forall k :: 0 <= k < |cs| ==> !Below(ns, cs[k], j))
          ensures UcEach(ns, i, cs, acc)[j] == ns[j]
        {
          forall k | 0 <= k < |cs[1..]| ensures !Below(ns, cs[1..][k], j) {
            assert cs[1..][k] == cs[k + 1];
          }
        }
      }
    }
  }

  // -----------------------------------------------------------------------
  // What the corrected pass achieves: no user category left empty below

  /** Below node `i`, following children lists, every category that is
      reached is not an empty user category. */
  ghost predicate Pruned(ns: seq<Node>, i: nat)
    requires i < |ns|
    decreases |ns| - i
  {
    forall c :: c in ns[i].children && i < c < |ns| && ns[c].kind.Category? ==>
      !EmptyUserCategory(ns[c]) && Pruned(ns, c)
  }

  /** Two subtrees that share a node are nested. */
  lemma {:induction false} BelowBoth(ns: seq<Node>, x: nat, c: nat, j: nat)
    requires Below(ns, x, j) && Below(ns, c, j)
    ensures Below(ns, x, c) || Below(ns, c, x)
    decreases j
  {
    if j != x && j != c {
      BelowBoth(ns, x, c, ns[j].parent.value);
    }
  }

  /** Subtrees of two different children of one node share no node. */
  lemma SiblingSubtreesApart(ns: seq<Node>, i: nat, x: nat, c: nat, j: nat)
    requires Tree(ns) && i < |ns| && x in ns[i].children && c in ns[i].children && x != c
    ensures !(Below(ns, x, j) && Below(ns, c, j))
  {
    if Below(ns, x, j) && Below(ns, c, j) {
      BelowBoth(ns, x, c, j);
      SiblingsApart(ns, i, x, c);
      SiblingsApart(ns, i, c, x);
    }
  }

  /** Whether a subtree is pruned depends on that subtree alone. */
  lemma {:induction false} PrunedFrame(ns: seq<Node>, r: seq<Node>, c: nat)
    requires Tree(ns) && c < |ns| == |r| && Pruned(ns, c)
    requires forall j :: 0 <= j < |ns| && Below(ns, c, j) ==> r[j] == ns[j]
    ensures Pruned(r, c)
    decreases |ns| - c
  {
    assert r[c] == ns[c];
    forall d | d in r[c].children && c < d < |r| && r[d].kind.Category?
      ensures !EmptyUserCategory(r[d]) && Pruned(r, d)
    {
      ChildOf(ns, c, d);
      assert Below(ns, c, d);
      forall j | 0 <= j < |ns| && Below(ns, d, j) ensures r[j] == ns[j] {
        BelowParent(ns, c, d, j);
      }
      PrunedFrame(ns, r, d);
    }
  }

  /** The children kept so far are pruned. */
  ghost predicate AccPruned(ns: seq<Node>, acc: seq<nat>) {
    forall x :: x in acc && x < |ns| && ns[x].kind.Category? ==> !EmptyUserCategory(ns[x]) && Pruned(ns, x)
  }

  /** The corrected process_uc_children leaves no empty user category below the node. */
  lemma {:induction false} UcChildrenPruned(ns: seq<Node>, i: nat)
    requires Tree(ns) && i < |ns|
    ensures Pruned(UcChildren(ns, i), i)
    decreases |ns| - i, 1
  {
    var cs := ns[i].children;
    assert ChildrenIn(ns, i);
    assert [] + cs == cs;
    UcEachPruned(ns, i, cs, []);
  }

  lemma {:induction false} UcEachPruned(ns: seq<Node>, i: nat, cs: seq<nat>, acc: seq<nat>)
    requires EachOk(ns, i, cs, acc) && AccPruned(ns, acc)
    ensures Pruned(UcEach(ns, i, cs, acc), i)
    decreases |ns| - i, 0, |cs|
  {
    if |cs| == 0 {
      var r := ns[i := ns[i].(children := acc)];
      forall c | c in r[i].children && i < c < |r| && r[c].kind.Category?
        ensures !EmptyUserCategory(r[c]) && Pruned(r, c)
      {
        forall j | 0 <= j < |ns| && Below(ns, c, j) ensures r[j] == ns[j] {
          BelowAtLeast(ns, c, j);
        }
        PrunedFrame(ns, r, c);
      }
    } else {
      var c := cs[0];
      assert c in ns[i].children;
      ChildOf(ns, i, c);
      DistinctDropFirst(acc, cs);
      if ns[c].kind.Category? {
        UcChildrenFrame(ns, c);
        UcChildrenPruned(ns, c);
        var ns' := UcChildren(ns, c);
        if Below(ns, c, i) {
          BelowAtLeast(ns, c, i);
        }
        var acc' := if EmptyUserCategory(ns'[c]) then acc else acc + [c];
        assert EachOk(ns', i, cs[1..], acc');
        forall x | x in acc' && x < |ns'| && ns'[x].kind.Category?
          ensures !EmptyUserCategory(ns'[x]) && Pruned(ns', x)
        {
          if x != c {
            assert x in acc && x in ns[i].children;
            SiblingsApart(ns, i, x, c);
            forall j | 0 <= j < |ns| && Below(ns, x, j) ensures ns'[j] == ns[j] {
              SiblingSubtreesApart(ns, i, x, c, j);
            }
            PrunedFrame(ns, ns', x);
          }
        }
        UcEachPruned(ns', i, cs[1..], acc');
      } else {
        var acc' := acc + [c];
        assert EachOk(ns, i, cs[1..], acc');
        UcEachPruned(ns, i, cs[1..], acc');
      }
    }
  }

  // -----------------------------------------------------------------------
  // The top level: the user categories under the root are pruned one by one

  /** One turn of the loop over the root's children: a user category is pruned. */
  function PruneStep(ns: seq<Node>, c: nat): (r: seq<Node>)
    ensures |r| == |ns|
  {
    if c < |ns| && IsUserCategory(ns[c]) then UcChildren(ns, c) else ns
  }

  /** The loop over the root's children `cs`, in order. */
  function PruneRoots(ns: seq<Node>, cs: seq<nat>): (r: seq<Node>)
    ensures |r| == |ns|
  {
    if |cs| == 0 then ns else PruneStep(PruneRoots(ns, cs[..|cs| - 1]), cs[|cs| - 1])
  }

  /** Every top-level user category ends up pruned; the root and the tree
      shape are kept. */
  lemma {:induction false} PruneRootsOk(ns: seq<Node>, cs: seq<nat>)
    requires Tree(ns) && |ns| > 0 && Distinct(cs) && forall k :: 0 <= k < |cs| ==> cs[k] in ns[0].children
    ensures var r := PruneRoots(ns, cs);
      && Tree(r) && Trimmed(ns, r) && r[0] == ns[0]
      && forall x :: x in cs && x < |ns| && IsUserCategory(ns[x]) ==> Pruned(r, x)
  {
    if |cs| == 0 {
      assert Trimmed(ns, ns);
    } else {
      var init := cs[..|cs| - 1];
      var c := cs[|cs| - 1];
      assert Distinct(init) && forall k :: 0 <= k < |init| ==> init[k] in ns[0].children by {
        forall k | 0 <= k < |init| ensures init[k] == cs[k] { }
      }
      PruneRootsOk(ns, init);
      var prev := PruneRoots(ns, init);
      assert c in prev[0].children;
      ChildOf(prev, 0, c);
      assert prev[c].kind == ns[c].kind;
      if IsUserCategory(prev[c]) {
        var next := UcChildren(prev, c);
        UcChildrenFrame(prev, c);
        UcChildrenPruned(prev, c);
        if Below(prev, c, 0) {
          BelowAtLeast(prev, c, 0);
        }
        TrimmedTrans(ns, prev, next);
        forall x | x in cs && x < |ns| && IsUserCategory(ns[x]) ensures Pruned(next, x) {
          if x != c {
            var k :| 0 <= k < |cs| && cs[k] == x;
            assert x in init by { assert init[k] == x; }
            assert x in prev[0].children;
            forall j | 0 <= j < |prev| && Below(prev, x, j) ensures next[j] == prev[j] {
              SiblingSubtreesApart(prev, 0, x, c, j);
            }
            PrunedFrame(prev, next, x);
          }
        }
      } else {
        forall x | x in cs && x < |ns| && IsUserCategory(ns[x]) ensures Pruned(prev, x) {
          if x != c {
            var k :| 0 <= k < |cs| && cs[k] == x;
            assert init[k] == x;
          }
        }
      }
    }
  }

  /** A well-formed arena is a tree in the sense the pruning lemmas use. */
  lemma TreeOf(a: Arena)
    requires WellFormed(a)
    ensures Tree(a.nodes)
  {
    forall j | 0 <= j < |a.nodes| ensures ChildrenIn(a.nodes, j) {
      assert ChildrenOk(a, j);
    }
  }

  /** Trimming children lists of a well-formed arena into a tree keeps it well formed. */
  lemma TrimmedWellFormed(a: Arena, r: seq<Node>)
    requires WellFormed(a) && Tree(r) && Trimmed(a.nodes, r)
    ensures WellFormed(Arena(r, a.tags))
  {
    var b := Arena(r, a.tags);
    forall j | 0 <= j < |r| ensures ChildrenOk(b, j) {
      assert ChildrenIn(r, j);
    }
    forall i | 0 < i < |r| ensures r[i].kind != Root && r[i].tag < |a.tags| && r[i].parent.Some? && r[i].parent.value < i {
      assert r[i].kind == a.nodes[i].kind;
    }
  }

  /** The tree after process_uc_children has run over the top-level user
      categories (when empty categories are hidden). */
  function Pruning(a: Arena, hideEmpty: bool): (r: Arena)
    requires WellFormed(a)
    ensures WellFormed(r) && r.tags == a.tags && Trimmed(a.nodes, r.nodes) && r.nodes[0] == a.nodes[0]
    ensures hideEmpty ==> forall x :: x in a.nodes[0].children && x < |a.nodes| && IsUserCategory(a.nodes[x]) ==> Pruned(r.nodes, x)
  {
    if hideEmpty then
      TreeOf(a);
      assert ChildrenOk(a, 0);
      PruneRootsOk(a.nodes, a.nodes[0].children);
      var ns := PruneRoots(a.nodes, a.nodes[0].children);
      TrimmedWellFormed(a, ns);
      Arena(ns, a.tags)
    else
      assert Trimmed(a.nodes, a.nodes);
      a
  }

  // -----------------------------------------------------------------------
  // The top level: hidden and empty categories are dropped

  /** `category_key` of a node; value nodes have none. */
  function CategoryKey(n: Node): Option<string> {
    if n.kind.Category? then Some(n.kind.key) else None
  }

  /** A hidden user category hides the user categories nested in it. */
  predicate HiddenByUserCategory(key: string, hidden: set<string>) {
    exists cat :: cat in hidden && StartsWith(cat, "@") && StartsWith(key, cat + ".")
  }

  /** Whether the final loop keeps top-level node `c`. */
  predicate Shown(a: Arena, c: nat, hideEmpty: bool, rowMap: seq<string>, hidden: set<string>)
    requires WellFormed(a) && c < |a.nodes|
  {
    && !(hideEmpty && |ChildTags(a, c)| == 0)
    && CategoryKey(a.nodes[c]).Some?
    && var key := CategoryKey(a.nodes[c]).value;
       key in rowMap && !(|hidden| > 0 && (key in hidden || HiddenByUserCategory(key, hidden)))
  }

  /** The nodes of `cs` the final loop keeps, in their order. */
  function ShownAmong(a: Arena, cs: seq<nat>, hideEmpty: bool, rowMap: seq<string>, hidden: set<string>): (r: seq<nat>)
    requires WellFormed(a) && forall k :: 0 <= k < |cs| ==> cs[k] < |a.nodes|
  {
    if |cs| == 0 then []
    else
      var r := ShownAmong(a, cs[..|cs| - 1], hideEmpty, rowMap, hidden);
      if Shown(a, cs[|cs| - 1], hideEmpty, rowMap, hidden) then r + [cs[|cs| - 1]] else r
  }

  /** The loop over `hidden_categories`: is `key` inside a hidden user category? */
  method UnderHiddenUserCategory(key: string, hidden: set<string>) returns (found: bool)
    ensures found == HiddenByUserCategory(key, hidden)
  {
    found := false;
    var rest := hidden;
    while rest != {}
      invariant rest <= hidden
      invariant found <==> exists cat :: cat in hidden - rest && StartsWith(cat, "@") && StartsWith(key, cat + ".")
      invariant !found ==> forall cat :: cat in hidden - rest ==> !(StartsWith(cat, "@") && StartsWith(key, cat + "."))
      decreases |rest|
    {
      var cat :| cat in rest;
      if StartsWith(cat, "@") && StartsWith(key, cat + ".") {
        found := true;
      }
      rest := rest - {cat};
    }
  }

  /** The loop building `new_children` from the root's children `cs`. */
  method KeepShown(a: Arena, cs: seq<nat>, hideEmpty: bool, rowMap: seq<string>, hidden: set<string>)
    returns (kept: seq<nat>)
    requires WellFormed(a) && forall k :: 0 <= k < |cs| ==> cs[k] < |a.nodes|
    ensures kept == ShownAmong(a, cs, hideEmpty, rowMap, hidden)
  {
    kept := [];
    for k := 0 to |cs|
      invariant kept == ShownAmong(a, cs[..k], hideEmpty, rowMap, hidden)
    {
      assert cs[..k + 1][..k] == cs[..k];
      var c := cs[k];
      if hideEmpty && |ChildTags(a, c)| == 0 {
        continue;
      }
      var key := CategoryKey(a.nodes[c]);
      if key.Some? && key.value in rowMap {
        if |hidden| > 0 {
          if key.value in hidden {
            continue;
          }
          var found := UnderHiddenUserCategory(key.value, hidden);
          if found {
            continue;
          }
        }
        kept := kept + [c];
      }
    }
    assert cs[..|cs|] == cs;
  }

  /** What the final loop keeps: the nodes of `cs` that are shown, and no other. */
  lemma {:induction false} ShownAmongMembers(a: Arena, cs: seq<nat>, hideEmpty: bool, rowMap: seq<string>, hidden: set<string>)
    requires WellFormed(a) && forall k :: 0 <= k < |cs| ==> cs[k] < |a.nodes|
    ensures var r := ShownAmong(a, cs, hideEmpty, rowMap, hidden);
      forall x :: x in r <==> x in cs && Shown(a, x, hideEmpty, rowMap, hidden)
    ensures Distinct(cs) ==> Distinct(ShownAmong(a, cs, hideEmpty, rowMap, hidden))
  {
    if |cs| > 0 {
      var init := cs[..|cs| - 1];
      ShownAmongMembers(a, init, hideEmpty, rowMap, hidden);
      assert cs == init + [cs[|cs| - 1]];
      if Distinct(cs) {
        assert Distinct(init) by {
          forall k, l | 0 <= k < l < |init| ensures init[k] != init[l] {
            assert init[k] == cs[k] && init[l] == cs[l];
          }
        }
        assert cs[|cs| - 1] !in init by {
          forall k | 0 <= k < |init| ensures init[k] != cs[|cs| - 1] {
            assert init[k] == cs[k];
          }
        }
      }
    }
  }

  // -----------------------------------------------------------------------
  // The top level: ordered as the category list orders the keys

  /** `row_map.index(key)`, or the list's length when the key is absent. */
  function RowPosition(rowMap: seq<string>, key: string): (r: nat)
    ensures r <= |rowMap| && (r < |rowMap| <==> key in rowMap)
    ensures r < |rowMap| ==> rowMap[r] == key && key !in rowMap[..r]
  {
    if |rowMap| == 0 then 0
    else if rowMap[0] == key then 0
    else
      var r := RowPosition(rowMap[1..], key);
      assert rowMap == [rowMap[0]] + rowMap[1..];
      assert r < |rowMap| - 1 ==> rowMap[..r + 1] == [rowMap[0]] + rowMap[1..][..r];
      r + 1
  }

  /** The sort key of a top-level node. */
  function Rank(a: Arena, rowMap: seq<string>): nat -> int {
    (c: nat) => if c < |a.nodes| && a.nodes[c].kind.Category? then RowPosition(rowMap, a.nodes[c].kind.key) else |rowMap|
  }

  /** `children.sort(key=lambda x: row_map.index(x.category_key))`. */
  function OrderByRowMap(a: Arena, kept: seq<nat>, rowMap: seq<string>): (r: seq<nat>)
    ensures multiset(r) == multiset(kept)
    ensures Sorting.Sorted(r, Sorting.ByKey(Rank(a, rowMap)))
  {
    Sorting.ByKeyTotal(Rank(a, rowMap));
    Sorting.Sort(kept, Sorting.ByKey(Rank(a, rowMap)))
  }

  // -----------------------------------------------------------------------
  // The whole fix-up

  /** The root may be given any of its children, each once, in any order. */
  lemma NewRootChildren(b: Arena, order: seq<nat>)
    requires WellFormed(b) && Distinct(order) && forall x :: x in order ==> x in b.nodes[0].children
    ensures WellFormed(Arena(b.nodes[0 := b.nodes[0].(children := order)], b.tags))
  {
    var r := Arena(b.nodes[0 := b.nodes[0].(children := order)], b.tags);
    assert ChildrenOk(b, 0);
    assert ChildrenOk(r, 0) by {
      forall k | 0 <= k < |order| ensures 0 < order[k] < |r.nodes| && r.nodes[order[k]].parent == Some(0) {
        assert order[k] in b.nodes[0].children;
      }
    }
    forall j | 0 < j < |r.nodes| ensures ChildrenOk(r, j) {
      assert ChildrenOk(b, j);
    }
  }

  /** The root's new children: those shown, in the order of `rowMap`. */
  function NewOrder(b: Arena, hideEmpty: bool, rowMap: seq<string>, hidden: set<string>): (order: seq<nat>)
    requires WellFormed(b)
    ensures Distinct(order)
    ensures forall x :: x in order <==> x in b.nodes[0].children && x < |b.nodes| && Shown(b, x, hideEmpty, rowMap, hidden)
    ensures Sorting.Sorted(order, Sorting.ByKey(Rank(b, rowMap)))
  {
    var cs := b.nodes[0].children;
    assert ChildrenOk(b, 0);
    var kept := ShownAmong(b, cs, hideEmpty, rowMap, hidden);
    ShownAmongMembers(b, cs, hideEmpty, rowMap, hidden);
    var order := OrderByRowMap(b, kept, rowMap);
    DistinctPermutation(kept, order);
    assert forall x :: x in order <==> x in multiset(kept);
    order
  }

  /** The tree after the fix-up of _create_node_tree: pruned, then the
      root's children filtered and ordered. */
  function FixUp(a: Arena, hideEmpty: bool, rowMap: seq<string>, hidden: set<string>): (r: Arena)
    requires WellFormed(a)
    ensures WellFormed(r)
  {
    var b := Pruning(a, hideEmpty);
    var order := NewOrder(b, hideEmpty, rowMap, hidden);
    NewRootChildren(b, order);
    Arena(b.nodes[0 := b.nodes[0].(children := order)], b.tags)
  }

  /** The fix-up keeps exactly the shown categories under the root, ordered
      by their position in the category list, and changes no other node
      than the pruning did. */
  lemma FixUpTop(a: Arena, hideEmpty: bool, rowMap: seq<string>, hidden: set<string>)
    requires WellFormed(a)
    ensures var b := Pruning(a, hideEmpty);
      var r := FixUp(a, hideEmpty, rowMap, hidden);
      && (forall x :: x in r.nodes[0].children <==> x in a.nodes[0].children && x < |b.nodes| && Shown(b, x, hideEmpty, rowMap, hidden))
      && Sorting.Sorted(r.nodes[0].children, Sorting.ByKey(Rank(b, rowMap)))
      && (forall j :: 0 < j < |r.nodes| ==> r.nodes[j] == b.nodes[j])
      && Trimmed(a.nodes, r.nodes)
  {
    var b := Pruning(a, hideEmpty);
    var order := NewOrder(b, hideEmpty, rowMap, hidden);
    var r := FixUp(a, hideEmpty, rowMap, hidden);
    assert r.nodes == b.nodes[0 := b.nodes[0].(children := order)];
    forall j | 0 <= j < |a.nodes|
      ensures r.nodes[j] == a.nodes[j].(children := r.nodes[j].children)
      ensures forall x :: x in r.nodes[j].children ==> x in a.nodes[j].children
    {
      assert b.nodes[j] == a.nodes[j].(children := b.nodes[j].children);
    }
  }

  /** With empty categories hidden, no top-level user category is empty and
      none has an empty user category anywhere below it. */
  lemma FixUpPruned(a: Arena, rowMap: seq<string>, hidden: set<string>)
    requires WellFormed(a)
    ensures var r := FixUp(a, true, rowMap, hidden);
      forall x :: x in r.nodes[0].children && x < |r.nodes| && IsUserCategory(r.nodes[x]) ==>
        !EmptyUserCategory(r.nodes[x]) && Pruned(r.nodes, x)
  {
    var b := Pruning(a, true);
    var r := FixUp(a, true, rowMap, hidden);
    FixUpTop(a, true, rowMap, hidden);
    TreeOf(b);
    forall x | x in r.nodes[0].children && x < |r.nodes| && IsUserCategory(r.nodes[x])
      ensures !EmptyUserCategory(r.nodes[x]) && Pruned(r.nodes, x)
    {
      assert ChildrenOk(r, 0);
      assert Shown(b, x, true, rowMap, hidden);
      assert r.nodes[x] == b.nodes[x] && b.nodes[x].kind == a.nodes[x].kind;
      assert |Children(b, x)| > 0;
      forall j | 0 <= j < |b.nodes| && Below(b.nodes, x, j) ensures r.nodes[j] == b.nodes[j] {
        BelowAtLeast(b.nodes, x, j);
      }
      PrunedFrame(b.nodes, r.nodes, x);
    }
  }
}
