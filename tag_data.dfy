/** The tag browser's tree (src/calibre/gui2/tag_browser/model.py): its
    values and the read-only functions over it.

    The tree is an arena. `nodes[0]` is the root; every node names its
    children by index, and a child always has a larger index than its
    parent because a node is only ever created under an existing one.
    The `Tag` records a node shows live in a second arena, `tags`, because
    the source shares one Tag object between several nodes (an intermediate
    hierarchy level reached from two categories); a node refers to its tag
    by index, and two nodes with the same tag index show the same object. */
module TagData {
  import opened Common

  /** TAG_SEARCH_STATES: 0 clear, 1 mark_plus, 2 mark_plusplus, 3 mark_minus, 4 mark_minusminus. */
  datatype TagState = Clear | MarkPlus | MarkPlusPlus | MarkMinus | MarkMinusMinus

  /** `tag.is_hierarchical`: False, '3state' or '5state'. */
  datatype Hier = NotHierarchical | ThreeState | FiveState

  /** The attributes of calibre's Tag object that the tree engine reads or writes. */
  datatype Tag = Tag(
    name: string,
    originalName: string,
    category: string,
    sort: Option<string>,
    count: nat,
    idSet: set<nat>,
    avgRating: Option<real>,
    isHierarchical: Hier,
    isEditable: bool,
    isSearchable: bool,
    state: TagState,
    searchExpression: Option<string>)

  /** TagTreeItem.type: ROOT, CATEGORY (with its key and flags) or TAG. */
  datatype Kind =
    | Root
    | Category(key: string, temporary: bool, isGst: bool)
    | Value

  datatype Node = Node(
    kind: Kind,
    tag: nat,
    parent: Option<nat>,
    children: seq<nat>,
    cachedCount: Option<nat>,
    cachedRating: Option<real>,
    canBeEdited: bool)

  datatype Arena = Arena(nodes: seq<Node>, tags: seq<Tag>)

  /** The Tag a Category node is created with (TagTreeItem.__init__). */
  function CategoryTag(name: string, key: string): (t: Tag)
    ensures t.isSearchable <==> key != "search"
    ensures t.isEditable <==> key !in ["news", "search", "identifiers", "languages"]
    ensures t.state == Clear && t.category == key
  {
    Tag(name, name, key, None, 0, {}, None, NotHierarchical,
        key !in ["news", "search", "identifiers", "languages"], key != "search", Clear, None)
  }

  /** Node `i`'s children are real nodes created after it, listed once each,
      and each of them points back at `i`. */
  ghost predicate ChildrenOk(a: Arena, i: nat)
    requires i < |a.nodes|
  {
    var cs := a.nodes[i].children;
    && (forall k :: 0 <= k < |cs| ==> i < cs[k] < |a.nodes| && a.nodes[cs[k]].parent == Some(i))
    && (forall k, l :: 0 <= k < l < |cs| ==> cs[k] != cs[l])
  }

  ghost predicate WellFormed(a: Arena) {
    && |a.nodes| > 0
    && a.nodes[0].kind == Root
    && a.nodes[0].parent == None
    && (forall i :: 0 < i < |a.nodes| ==> a.nodes[i].kind != Root)
    && (forall i :: 0 < i < |a.nodes| ==> a.nodes[i].tag < |a.tags|)
    && (forall i :: 0 < i < |a.nodes| ==> a.nodes[i].parent.Some? && a.nodes[i].parent.value < i)
    && (forall i :: 0 <= i < |a.nodes| ==> ChildrenOk(a, i))
  }

  function Children(a: Arena, i: nat): seq<nat>
    requires i < |a.nodes|
  {
    a.nodes[i].children
  }

  ghost predicate AllBelow(a: Arena, lo: nat, cs: seq<nat>) {
    forall k :: 0 <= k < |cs| ==> lo <= cs[k] < |a.nodes|
  }

  lemma ChildrenBelow(a: Arena, i: nat)
    requires WellFormed(a) && i < |a.nodes|
    ensures AllBelow(a, i + 1, Children(a, i))
  {
    assert ChildrenOk(a, i);
  }

  // -----------------------------------------------------------------------
  // all_children(): the descendants of a node in pre-order

  /** The pre-order walk of `recurse(nodes, res)` over a list of sibling nodes. */
  function Walk(a: Arena, lo: nat, cs: seq<nat>): (r: seq<nat>)
    requires WellFormed(a) && AllBelow(a, lo, cs)
    ensures forall k :: 0 <= k < |r| ==> lo <= r[k] < |a.nodes|
    decreases |a.nodes| - lo, |cs|
  {
    if |cs| == 0 then []
    else
      ChildrenBelow(a, cs[0]);
      [cs[0]] + Walk(a, cs[0] + 1, Children(a, cs[0])) + Walk(a, lo, cs[1..])
  }

  /** TagTreeItem.all_children. */
  function AllChildren(a: Arena, i: nat): (r: seq<nat>)
    requires WellFormed(a) && i < |a.nodes|
    ensures forall k :: 0 <= k < |r| ==> i < r[k] < |a.nodes|
  {
    ChildrenBelow(a, i);
    Walk(a, i + 1, Children(a, i))
  }

  /** Node `x` lies below node `i`: following parent links up from `x`
      reaches `i`. */
  ghost predicate Descends(a: Arena, x: nat, i: nat)
    requires WellFormed(a) && x < |a.nodes|
    decreases x
  {
    0 < x && var p := a.nodes[x].parent.value; p == i || Descends(a, p, i)
  }

  /** The walk lists every node it starts from, lists the children of every
      node it lists, and, when its starting nodes lie below `i`, lists only
      nodes below `i`. */
  lemma {:induction false} WalkSubtree(a: Arena, lo: nat, cs: seq<nat>, i: nat)
    requires WellFormed(a) && AllBelow(a, lo, cs)
    ensures forall k :: 0 <= k < |cs| ==> cs[k] in Walk(a, lo, cs)
    ensures forall y, c :: y in Walk(a, lo, cs) && c in Children(a, y) ==> c in Walk(a, lo, cs)
    ensures (forall k :: 0 <= k < |cs| ==> Descends(a, cs[k], i)) ==> forall x :: x in Walk(a, lo, cs) ==> Descends(a, x, i)
    decreases |a.nodes| - lo, |cs|
  {
    if |cs| > 0 {
      ChildrenBelow(a, cs[0]);
      var sub := Children(a, cs[0]);
      WalkSubtree(a, cs[0] + 1, sub, i);
      WalkSubtree(a, lo, cs[1..], i);
      var w := Walk(a, lo, cs);
      assert w == [cs[0]] + Walk(a, cs[0] + 1, sub) + Walk(a, lo, cs[1..]);
      forall k | 0 < k < |cs| ensures cs[k] in w {
        assert cs[k] == cs[1..][k - 1];
      }
      if forall k :: 0 <= k < |cs| ==> Descends(a, cs[k], i) {
        assert ChildrenOk(a, cs[0]);
        forall k | 0 <= k < |sub| ensures Descends(a, sub[k], i) {
          assert a.nodes[sub[k]].parent == Some(cs[0]);
        }
        forall k | 0 <= k < |cs[1..]| ensures Descends(a, cs[1..][k], i) {
          assert cs[1..][k] == cs[k + 1];
        }
      }
    }
  }

  /** all_children lists exactly a subtree: the node's children, the
      children of every node it lists, and nothing that is not below the
      node. */
  lemma AllChildrenSubtree(a: Arena, i: nat)
    requires WellFormed(a) && i < |a.nodes|
    ensures forall c :: c in Children(a, i) ==> c in AllChildren(a, i)
    ensures forall y, c :: y in AllChildren(a, i) && c in Children(a, y) ==> c in AllChildren(a, i)
    ensures forall x :: x in AllChildren(a, i) ==> Descends(a, x, i)
  {
    ChildrenBelow(a, i);
    assert ChildrenOk(a, i);
    WalkSubtree(a, i + 1, Children(a, i), i);
  }

  /** TagTreeItem.child_tags: the non-category descendants, walking no deeper
      than 100 levels below the node. */
  function ChildTagsWalk(a: Arena, lo: nat, cs: seq<nat>, depth: nat): (r: seq<nat>)
    requires WellFormed(a) && AllBelow(a, lo, cs)
    ensures forall k :: 0 <= k < |r| ==> lo <= r[k] < |a.nodes| && !a.nodes[r[k]].kind.Category?
    decreases |a.nodes| - lo, |cs|
  {
    if depth > 100 || |cs| == 0 then []
    else
      ChildrenBelow(a, cs[0]);
      var here := if a.nodes[cs[0]].kind.Category? then [] else [cs[0]];
      here + ChildTagsWalk(a, cs[0] + 1, Children(a, cs[0]), depth + 1)
        + ChildTagsWalk(a, lo, cs[1..], depth)
  }

  function ChildTags(a: Arena, i: nat): (r: seq<nat>)
    requires WellFormed(a) && i < |a.nodes|
    ensures forall k :: 0 <= k < |r| ==> i < r[k] < |a.nodes| && !a.nodes[r[k]].kind.Category?
  {
    ChildrenBelow(a, i);
    ChildTagsWalk(a, i + 1, Children(a, i), 1)
  }

  // -----------------------------------------------------------------------
  // item_count: the union of the id sets over a subtree

  function TagOf(a: Arena, i: nat): Tag
    requires WellFormed(a) && 0 < i < |a.nodes|
  {
    a.tags[a.nodes[i].tag]
  }

  /** `child_item_set` applied to each node of a sibling list, unioned. */
  function ForestIds(a: Arena, lo: nat, cs: seq<nat>): set<nat>
    requires WellFormed(a) && AllBelow(a, lo, cs) && lo > 0
    decreases |a.nodes| - lo, |cs|
  {
    if |cs| == 0 then {}
    else
      ChildrenBelow(a, cs[0]);
      TagOf(a, cs[0]).idSet + ForestIds(a, cs[0] + 1, Children(a, cs[0])) + ForestIds(a, lo, cs[1..])
  }

  /** `child_item_set(node)`: the node's own ids and those of every descendant. */
  function SubtreeIds(a: Arena, i: nat): set<nat>
    requires WellFormed(a) && 0 < i < |a.nodes|
  {
    ChildrenBelow(a, i);
    TagOf(a, i).idSet + ForestIds(a, i + 1, Children(a, i))
  }

  /** The union of the id sets of a list of nodes. */
  function UnionOver(a: Arena, ns: seq<nat>): set<nat>
    requires WellFormed(a)
    requires forall k :: 0 <= k < |ns| ==> 0 < ns[k] < |a.nodes|
  {
    if |ns| == 0 then {} else TagOf(a, ns[0]).idSet + UnionOver(a, ns[1..])
  }

  lemma {:induction false} UnionOverConcat(a: Arena, x: seq<nat>, y: seq<nat>)
    requires WellFormed(a)
    requires forall k :: 0 <= k < |x| ==> 0 < x[k] < |a.nodes|
    requires forall k :: 0 <= k < |y| ==> 0 < y[k] < |a.nodes|
    ensures UnionOver(a, x + y) == UnionOver(a, x) + UnionOver(a, y)
  {
    if |x| > 0 {
      assert (x + y)[1..] == x[1..] + y;
      UnionOverConcat(a, x[1..], y);
    } else {
      assert x + y == y;
    }
  }

  /** UnionOver of a node followed by two lists. */
  lemma UnionOverCons3(a: Arena, c: nat, sub: seq<nat>, rest: seq<nat>)
    requires WellFormed(a) && 0 < c < |a.nodes|
    requires forall k :: 0 <= k < |sub| ==> 0 < sub[k] < |a.nodes|
    requires forall k :: 0 <= k < |rest| ==> 0 < rest[k] < |a.nodes|
    ensures UnionOver(a, [c] + sub + rest) == TagOf(a, c).idSet + UnionOver(a, sub) + UnionOver(a, rest)
  {
    UnionOverConcat(a, [c] + sub, rest);
    UnionOverConcat(a, [c], sub);
    assert UnionOver(a, [c]) == TagOf(a, c).idSet by {
      assert [c][1..] == [];
    }
  }

  lemma WalkUnfold(a: Arena, lo: nat, cs: seq<nat>)
    requires WellFormed(a) && AllBelow(a, lo, cs) && |cs| > 0
    ensures AllBelow(a, cs[0] + 1, Children(a, cs[0]))
    ensures Walk(a, lo, cs) == [cs[0]] + Walk(a, cs[0] + 1, Children(a, cs[0])) + Walk(a, lo, cs[1..])
  {
    ChildrenBelow(a, cs[0]);
  }

  lemma {:induction false} ForestIdsIsUnionOverWalk(a: Arena, lo: nat, cs: seq<nat>)
    requires WellFormed(a) && AllBelow(a, lo, cs) && lo > 0
    ensures ForestIds(a, lo, cs) == UnionOver(a, Walk(a, lo, cs))
    decreases |a.nodes| - lo, |cs|
  {
    if |cs| > 0 {
      ChildrenBelow(a, cs[0]);
      ForestIdsIsUnionOverWalk(a, cs[0] + 1, Children(a, cs[0]));
      ForestIdsIsUnionOverWalk(a, lo, cs[1..]);
      WalkUnion(a, lo, cs);
    }
  }

  /** The union over a walk: the first node, its subtree, then the rest. */
  lemma WalkUnion(a: Arena, lo: nat, cs: seq<nat>)
    requires WellFormed(a) && AllBelow(a, lo, cs) && lo > 0 && |cs| > 0
    ensures AllBelow(a, cs[0] + 1, Children(a, cs[0]))
    ensures UnionOver(a, Walk(a, lo, cs))
         == TagOf(a, cs[0]).idSet + UnionOver(a, Walk(a, cs[0] + 1, Children(a, cs[0]))) + UnionOver(a, Walk(a, lo, cs[1..]))
  {
    WalkUnfold(a, lo, cs);
    UnionOverCons3(a, cs[0], Walk(a, cs[0] + 1, Children(a, cs[0])), Walk(a, lo, cs[1..]));
  }

  /** item_count's set is the union of the id sets of the node and of every
      node all_children() lists. */
  lemma SubtreeIdsIsUnionOverAllChildren(a: Arena, i: nat)
    requires WellFormed(a) && 0 < i < |a.nodes|
    ensures SubtreeIds(a, i) == TagOf(a, i).idSet + UnionOver(a, AllChildren(a, i))
  {
    ChildrenBelow(a, i);
    ForestIdsIsUnionOverWalk(a, i + 1, Children(a, i));
  }

  /** The count item_count reports, once its cache is filled. */
  function ItemCountSpec(a: Arena, i: nat): (r: nat)
    requires WellFormed(a) && 0 < i < |a.nodes|
    ensures TagOf(a, i).isHierarchical != NotHierarchical && Children(a, i) != [] ==>
              r == |TagOf(a, i).idSet + UnionOver(a, AllChildren(a, i))|
    ensures TagOf(a, i).isHierarchical == NotHierarchical || Children(a, i) == [] ==>
              r == TagOf(a, i).count
  {
    if TagOf(a, i).isHierarchical == NotHierarchical || Children(a, i) == [] then TagOf(a, i).count
    else
      SubtreeIdsIsUnionOverAllChildren(a, i);
      |SubtreeIds(a, i)|
  }

  // -----------------------------------------------------------------------
  // average_rating

  /** The property's outcome: a (possibly missing) rating, or the ValueError
      raised when a hierarchical rating is read before it was computed. */
  datatype RatingRead = Rating(value: Option<real>) | NotComputed

  function AverageRating(a: Arena, i: nat): (r: RatingRead)
    requires WellFormed(a) && i < |a.nodes|
    ensures r == NotComputed <==>
      && a.nodes[i].kind == Value
      && a.tags[a.nodes[i].tag].category != "search"
      && a.tags[a.nodes[i].tag].isHierarchical != NotHierarchical
      && Children(a, i) != []
      && a.nodes[i].cachedRating == None
    ensures a.nodes[i].kind != Value ==> r == Rating(Some(0.0))
    ensures a.nodes[i].kind == Value && a.tags[a.nodes[i].tag].category == "search" ==> r == Rating(None)
  {
    var n := a.nodes[i];
    if n.kind != Value then Rating(Some(0.0))
    else
      var t := a.tags[n.tag];
      if t.category == "search" then Rating(None)
      else if t.isHierarchical == NotHierarchical then Rating(t.avgRating)
      else if n.children == [] then Rating(t.avgRating)
      else if n.cachedRating == None then NotComputed
      else Rating(n.cachedRating)
  }

  /** Every value node that has children has had its rating computed. */
  ghost predicate RatingsReady(a: Arena) {
    forall i :: 0 <= i < |a.nodes| && a.nodes[i].kind == Value && a.nodes[i].children != [] ==>
      a.nodes[i].cachedRating.Some?
  }

  lemma RatingsReadyNeverRaises(a: Arena, i: nat)
    requires WellFormed(a) && i < |a.nodes| && RatingsReady(a)
    ensures AverageRating(a, i) != NotComputed
  {
  }

  // -----------------------------------------------------------------------
  // toggle(): the state-advance loop

  /** States a node may stop on while advancing (TagTreeItem.toggle). */
  predicate MayHold(s: TagState, searchable: bool, hasChildren: bool, hier: Hier) {
    match s
    case MarkPlus | MarkMinus => searchable
    case MarkPlusPlus | MarkMinusMinus => searchable && hasChildren && hier == FiveState
    case Clear => true
  }

  /** `tb_search_order`: every state has a successor. */
  predicate TotalGraph(graph: map<TagState, TagState>) {
    forall s: TagState :: s in graph
  }

  /** The state the loop stops on within `fuel` steps from `s`, if any. */
  function Advance(graph: map<TagState, TagState>, s: TagState, searchable: bool, hasChildren: bool,
                   hier: Hier, fuel: nat): (r: Option<TagState>)
    requires TotalGraph(graph)
    ensures r.Some? ==> MayHold(r.value, searchable, hasChildren, hier)
    decreases fuel
  {
    if fuel == 0 then None
    else
      var n := graph[s];
      if MayHold(n, searchable, hasChildren, hier) then Some(n)
      else Advance(graph, n, searchable, hasChildren, hier, fuel - 1)
  }

  /** The order calibre ships: clear, +, ++, -, --, clear. */
  function DefaultGraph(): (g: map<TagState, TagState>)
    ensures TotalGraph(g)
  {
    var g := map[Clear := MarkPlus, MarkPlus := MarkPlusPlus, MarkPlusPlus := MarkMinus,
                 MarkMinus := MarkMinusMinus, MarkMinusMinus := Clear];
    assert forall s: TagState :: s in g by {
      forall s: TagState ensures s in g {
        assert s == Clear || s == MarkPlus || s == MarkPlusPlus || s == MarkMinus || s == MarkMinusMinus;
      }
    }
    g
  }

  /** Under the shipped order the loop always stops within five steps; a node
      that may not be searched goes straight back to clear, and a node that
      may not hold ++/-- never lands on them. */
  lemma DefaultGraphBehaviour(s: TagState, searchable: bool, hasChildren: bool, hier: Hier)
    ensures Advance(DefaultGraph(), s, searchable, hasChildren, hier, 5).Some?
    ensures !searchable ==> Advance(DefaultGraph(), s, searchable, hasChildren, hier, 5) == Some(Clear)
    ensures !(hasChildren && hier == FiveState) ==>
      Advance(DefaultGraph(), s, searchable, hasChildren, hier, 5).value !in {MarkPlusPlus, MarkMinusMinus}
  {
  }

  /** Fuel beyond the first stop does not change where the loop stops. */
  lemma {:induction false} AdvanceMoreFuel(graph: map<TagState, TagState>, s: TagState, searchable: bool,
                                          hasChildren: bool, hier: Hier, fuel: nat, more: nat)
    requires TotalGraph(graph)
    requires Advance(graph, s, searchable, hasChildren, hier, fuel).Some?
    requires more >= fuel
    ensures Advance(graph, s, searchable, hasChildren, hier, more) ==
            Advance(graph, s, searchable, hasChildren, hier, fuel)
    decreases fuel
  {
    var n := graph[s];
    if !MayHold(n, searchable, hasChildren, hier) {
      AdvanceMoreFuel(graph, n, searchable, hasChildren, hier, fuel - 1, more - 1);
    }
  }
}
