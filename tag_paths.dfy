/** Path addressing of the tag browser (TagsModel.path_for_index and
    index_for_path in src/calibre/gui2/tag_browser/model.py).

    A Qt index is modelled by the node it points at; the invalid index is
    the root, node 0, as `get_node` maps it. A path is the sequence of
    sibling ordinals from a top-level node down to the node. */
module TagPaths {
  import opened Common
  import opened TagData

  /** The node is listed among its parent's children, and so is each of its
      ancestors: the nodes `row()` can be asked about without a ValueError. */
  ghost predicate Attached(a: Arena, i: nat)
    requires WellFormed(a) && i < |a.nodes|
    decreases i
  {
    i == 0 || (var p := a.nodes[i].parent.value; i in a.nodes[p].children && Attached(a, p))
  }

  /** TagTreeItem.row(): the node's position among its parent's children. */
  function Row(a: Arena, i: nat): (r: nat)
    requires WellFormed(a) && 0 < i < |a.nodes| && Attached(a, i)
    ensures var p := a.nodes[i].parent.value; r < |a.nodes[p].children| && a.nodes[p].children[r] == i
  {
    IndexOf(a.nodes[a.nodes[i].parent.value].children, i)
  }

  /** The path of a node: its ancestors' rows from the top level down, then its own. */
  function PathOf(a: Arena, i: nat): (r: seq<nat>)
    requires WellFormed(a) && i < |a.nodes| && Attached(a, i)
    decreases i
  {
    if i == 0 then [] else PathOf(a, a.nodes[i].parent.value) + [Row(a, i)]
  }

  /** `self.index(v, 0, parent)`: the child at row `v`, or nothing (an invalid index). */
  function Index(a: Arena, parent: nat, v: int): (r: Option<nat>)
    requires WellFormed(a) && parent < |a.nodes|
    ensures r.Some? <==> 0 <= v < |a.nodes[parent].children|
    ensures r.Some? ==> r.value == a.nodes[parent].children[v] && parent < r.value < |a.nodes|
    ensures r.Some? ==> a.nodes[r.value].parent == Some(parent)
  {
    assert ChildrenOk(a, parent);
    if 0 <= v < |a.nodes[parent].children| then Some(a.nodes[parent].children[v]) else None
  }

  /** Strict addressing: the node a path names when every step exists. */
  function Exact(a: Arena, cur: nat, path: seq<int>): (r: Option<nat>)
    requires WellFormed(a) && cur < |a.nodes|
    ensures r.Some? ==> cur <= r.value < |a.nodes|
    decreases |path|
  {
    if path == [] then Some(cur)
    else
      match Index(a, cur, path[0])
      case None => None
      case Some(c) => Exact(a, c, path[1..])
  }

  /** What index_for_path resolves `path` to, starting below `cur`: each
      step descends into the child with that row; a missing row on the last
      step falls back to the row before it; any other missing row stops at
      the node reached so far. */
  function Resolve(a: Arena, cur: nat, path: seq<int>): (r: nat)
    requires WellFormed(a) && cur < |a.nodes|
    ensures cur <= r < |a.nodes|
    ensures Attached(a, cur) ==> Attached(a, r)
    decreases |path|
  {
    if path == [] then cur
    else
      var v := path[0];
      match Index(a, cur, v)
      case Some(c) => Resolve(a, c, path[1..])
      case None =>
        if v > 0 && |path| == 1 && Index(a, cur, v - 1).Some? then Index(a, cur, v - 1).value
        else cur
  }

  /** path_for_index: climbs from the node to the top level, collecting rows. */
  method PathForIndex(a: Arena, i: nat) returns (ans: seq<nat>)
    requires WellFormed(a) && i < |a.nodes| && Attached(a, i)
    ensures ans == PathOf(a, i)
  {
    ans := [];
    var cur: nat := i;
    while cur != 0
      invariant cur < |a.nodes| && Attached(a, cur)
      invariant PathOf(a, i) == PathOf(a, cur) + ans
      decreases cur
    {
      var p := a.nodes[cur].parent.value;
      ans := [Row(a, cur)] + ans;
      assert PathOf(a, cur) == PathOf(a, p) + [Row(a, cur)];
      cur := p;
    }
  }

  /** index_for_path: follows the path row by row from the root. */
  method IndexForPath(a: Arena, path: seq<int>) returns (parent: nat)
    requires WellFormed(a)
    ensures parent == Resolve(a, 0, path)
    ensures parent < |a.nodes| && Attached(a, parent)
  {
    parent := 0;
    var idx := 0;
    while idx < |path|
      invariant idx <= |path| && parent < |a.nodes|
      invariant Resolve(a, parent, path[idx..]) == Resolve(a, 0, path)
    {
      var v := path[idx];
      var tparent := Index(a, parent, v);
      if tparent.None? {
        if v > 0 && idx == |path| - 1 {
          // Probably the last item went away: use the one before it.
          tparent := Index(a, parent, v - 1);
          if tparent.None? {
            break;
          }
        } else {
          break;
        }
      }
      parent := tparent.value;
      idx := idx + 1;
    }
    assert Attached(a, 0);
  }

  // -----------------------------------------------------------------------
  // Properties

  lemma {:induction false} ExactAppend(a: Arena, cur: nat, x: seq<int>, y: seq<int>)
    requires WellFormed(a) && cur < |a.nodes|
    ensures Exact(a, cur, x + y) == match Exact(a, cur, x) case None => None case Some(n) => Exact(a, n, y)
    decreases |x|
  {
    if x != [] {
      assert (x + y)[0] == x[0] && (x + y)[1..] == x[1..] + y;
      match Index(a, cur, x[0])
      case None =>
      case Some(c) => ExactAppend(a, c, x[1..], y);
    } else {
      assert x + y == y;
    }
  }

  /** Where the strict walk succeeds, the tolerant one goes on from its node. */
  lemma {:induction false} ResolveAppend(a: Arena, cur: nat, x: seq<int>, y: seq<int>)
    requires WellFormed(a) && cur < |a.nodes| && Exact(a, cur, x).Some?
    ensures Resolve(a, cur, x + y) == Resolve(a, Exact(a, cur, x).value, y)
    decreases |x|
  {
    if x != [] {
      assert (x + y)[0] == x[0] && (x + y)[1..] == x[1..] + y;
      ResolveAppend(a, Index(a, cur, x[0]).value, x[1..], y);
    } else {
      assert x + y == y;
    }
  }

  /** A node's path leads back to it under strict addressing. */
  lemma {:induction false} PathIsExact(a: Arena, i: nat)
    requires WellFormed(a) && i < |a.nodes| && Attached(a, i)
    ensures Exact(a, 0, PathOf(a, i)) == Some(i)
    decreases i
  {
    if i != 0 {
      var p := a.nodes[i].parent.value;
      PathIsExact(a, p);
      ExactAppend(a, 0, PathOf(a, p), [Row(a, i)]);
      assert [Row(a, i)][1..] == [];
    }
  }

  /** index_for_path(path_for_index(n)) is n for every node of the tree. */
  lemma PathRoundTrip(a: Arena, i: nat)
    requires WellFormed(a) && i < |a.nodes| && Attached(a, i)
    ensures Resolve(a, 0, PathOf(a, i)) == i
  {
    PathIsExact(a, i);
    ResolveAppend(a, 0, PathOf(a, i), []);
    assert PathOf(a, i) + [] == PathOf(a, i);
  }

  /** A path whose last row no longer exists, but the row before it does,
      resolves to that earlier sibling. */
  lemma LastRowFallsBack(a: Arena, path: seq<int>, n: nat)
    requires WellFormed(a) && |path| > 0
    requires Exact(a, 0, path[..|path| - 1]) == Some(n)
    requires var v := path[|path| - 1]; v > 0 && v == |a.nodes[n].children|
    ensures Resolve(a, 0, path) == a.nodes[n].children[path[|path| - 1] - 1]
  {
    var k := |path| - 1;
    assert path == path[..k] + path[k..];
    ResolveAppend(a, 0, path[..k], path[k..]);
    assert path[k..] == [path[k]];
  }

  /** A step that cannot be taken, other than a last row with a row before
      it, stops the walk at the deepest node reached. */
  lemma StopsAtDeepestValid(a: Arena, path: seq<int>, k: nat, n: nat)
    requires WellFormed(a) && k < |path|
    requires Exact(a, 0, path[..k]) == Some(n)
    requires Index(a, n, path[k]).None?
    requires !(k == |path| - 1 && path[k] > 0 && Index(a, n, path[k] - 1).Some?)
    ensures Resolve(a, 0, path) == n
  {
    assert path == path[..k] + path[k..];
    ResolveAppend(a, 0, path[..k], path[k..]);
    assert path[k..][0] == path[k];
  }
}
