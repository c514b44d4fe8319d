/** The tag browser's mutable tree (TagsModel and TagTreeItem in
    src/calibre/gui2/tag_browser/model.py): node creation, the toggle state
    machine, the cached item count, and the build of the tree from the
    per-category value lists. */
module TagBrowser {
  import opened Common
  import opened TagData
  import NameComponents
  import FirstLetter
  import Partition
  import TagPrune
  import UserCategories

  /** Nodes keep their kind, tag and parent, and only new nodes are added. */
  ghost predicate Extends(before: seq<Node>, after: seq<Node>) {
    && |before| <= |after|
    && forall j :: 0 <= j < |before| ==>
         after[j].kind == before[j].kind && after[j].tag == before[j].tag && after[j].parent == before[j].parent
  }

  /** Only new tags are added, and the names of all but `except` are kept. */
  ghost predicate NamesKept(before: seq<Tag>, after: seq<Tag>, except: set<nat>) {
    && |before| <= |after|
    && forall j :: 0 <= j < |before| && j !in except ==> after[j].originalName == before[j].originalName
  }

  /** Only new tags are added, and no tag loses a book from its id set. */
  ghost predicate IdsGrow(before: seq<Tag>, after: seq<Tag>) {
    && |before| <= |after|
    && forall j :: 0 <= j < |before| ==> before[j].idSet <= after[j].idSet
  }

  lemma IdsGrowTrans(a: seq<Tag>, b: seq<Tag>, c: seq<Tag>)
    requires IdsGrow(a, b) && IdsGrow(b, c)
    ensures IdsGrow(a, c)
  {
  }

  /** Trimming children keeps the kinds, the cached counts, and the
      cached ratings every value node with children needs. */
  lemma TrimmedKeepsCaches(a: Arena, r: Arena)
    requires TagPrune.Trimmed(a.nodes, r.nodes)
    ensures forall i :: 0 <= i < |r.nodes| ==> r.nodes[i].kind == a.nodes[i].kind && r.nodes[i].cachedCount == a.nodes[i].cachedCount
    ensures RatingsReady(a) ==> RatingsReady(r)
    ensures Extends(a.nodes, r.nodes)
  {
    forall i | 0 <= i < |r.nodes| && r.nodes[i].children != [] ensures a.nodes[i].children != [] {
      assert r.nodes[i].children[0] in a.nodes[i].children;
    }
  }

  /** The entries of `category_child_map` name value nodes. */
  ghost predicate ValueMap(ns: seq<Node>, m: map<(string, string), nat>) {
    forall x :: x in m ==> 0 < m[x] < |ns| && ns[m[x]].kind == Value
  }

  lemma ValueMapExtends(before: seq<Node>, after: seq<Node>, m: map<(string, string), nat>)
    requires ValueMap(before, m) && Extends(before, after)
    ensures ValueMap(after, m)
  {
  }

  lemma ExtendsTrans(a: seq<Node>, b: seq<Node>, c: seq<Node>)
    requires Extends(a, b) && Extends(b, c)
    ensures Extends(a, c)
  {
  }

  /** A node the values of category node `c` may be placed under: `c`
      itself or a temporary collapse bucket made under it. */
  ghost predicate BucketIn(ns: seq<Node>, p: nat, c: nat, key: string, isGst: bool) {
    p == c || (c < p < |ns| && ns[p].kind == Category(key, true, isGst) && ns[p].parent == Some(c))
  }

  lemma BucketsExtend(before: seq<Node>, after: seq<Node>, ps: seq<nat>, p: nat, c: nat, key: string, isGst: bool)
    requires Extends(before, after)
    requires forall k :: 0 <= k < |ps| ==> BucketIn(before, ps[k], c, key, isGst)
    requires BucketIn(after, p, c, key, isGst)
    ensures forall k :: 0 <= k < |ps| + 1 ==> BucketIn(after, (ps + [p])[k], c, key, isGst)
  {
  }

  /** A path of value nodes, each the parent of the next. */
  ghost predicate Chain(ns: seq<Node>, chain: seq<nat>) {
    && |chain| > 0
    && (forall i :: 0 <= i < |chain| ==> 0 < chain[i] < |ns| && ns[chain[i]].kind == Value)
    && (forall i :: 0 < i < |chain| ==> ns[chain[i]].parent == Some(chain[i - 1]))
  }

  /** Along a chain the node indices grow, so its last node has the
      largest. */
  lemma {:induction false} ChainIncreasing(a: Arena, chain: seq<nat>)
    requires WellFormed(a) && Chain(a.nodes, chain)
    ensures forall j :: 0 <= j < |chain| ==> chain[j] <= chain[|chain| - 1]
  {
    if |chain| > 1 {
      var init := chain[..|chain| - 1];
      ChainIncreasing(a, init);
      assert a.nodes[chain[|chain| - 1]].parent == Some(init[|init| - 1]);
    }
  }

  /** The walk of a hierarchical value's name components so far: `chain`
      holds the nodes of the levels walked, `names` the name of each
      level's tag once placed. The top level is the `category_child_map`
      entry `m` has for the first component, or a new node under
      `nodeParent`, and `m'` records it; the nodes made since the walk
      began (at `from`) are all on the chain. */
  ghost predicate Walked(ns: seq<Node>, m: map<(string, string), nat>, m': map<(string, string), nat>, nodeParent: nat,
                         from: nat, comps: seq<string>, ck: string, chain: seq<nat>, names: seq<string>) {
    && |chain| == |names| <= |comps| && from <= |ns|
    && (|chain| == 0 ==> m' == m)
    && (|chain| > 0 ==>
          && Chain(ns, chain) && m' == m[(comps[0], ck) := chain[0]]
          && ((comps[0], ck) in m ==> chain[0] == m[(comps[0], ck)])
          && ((comps[0], ck) !in m ==> chain[0] == from && ns[chain[0]].parent == Some(nodeParent)))
    && (forall j :: 0 <= j < |chain| && (j > 0 || (comps[0], ck) !in m) ==> names[j] == comps[j])
    && (forall n :: from <= n < |ns| ==> n in chain)
  }

  /** One more level of the walk; a level placed on a node made before the
      walk is not a node the walk made. */
  lemma WalkStep(a0: Arena, ns1: seq<Node>, m: map<(string, string), nat>, m0: map<(string, string), nat>,
                 m1: map<(string, string), nat>, nodeParent: nat, from: nat, comps: seq<string>, ck: string,
                 chain: seq<nat>, names: seq<string>, np: nat, name: string)
    requires WellFormed(a0) && Walked(a0.nodes, m, m0, nodeParent, from, comps, ck, chain, names) && |chain| < |comps|
    requires Extends(a0.nodes, ns1) && 0 < np < |ns1| && ns1[np].kind == Value
    requires |ns1| == (if np >= |a0.nodes| then |a0.nodes| + 1 else |a0.nodes|)
    requires np >= |a0.nodes| ==> np == |a0.nodes|
    requires |chain| == 0 ==>
      && m1 == m[(comps[0], ck) := np]
      && ((comps[0], ck) in m ==> np == m[(comps[0], ck)])
      && ((comps[0], ck) !in m ==> np == |a0.nodes| && ns1[np].parent == Some(nodeParent))
    requires |chain| > 0 ==> m1 == m0 && ns1[np].parent == Some(chain[|chain| - 1])
    requires |chain| > 0 || (comps[0], ck) !in m ==> name == comps[|chain|]
    ensures Walked(ns1, m, m1, nodeParent, from, comps, ck, chain + [np], names + [name])
    ensures np >= from ==> np == |a0.nodes|
  {
    assert from < |a0.nodes| ==> from in chain;
    assert from <= np < |a0.nodes| ==> np in chain;
    if |chain| > 0 {
      ChainIncreasing(a0, chain);
      assert np < |a0.nodes| ==> a0.nodes[np].parent == Some(chain[|chain| - 1]);
    }
    var chain', names' := chain + [np], names + [name];
    forall j | 0 <= j < |chain'| && (j > 0 || (comps[0], ck) !in m) ensures names'[j] == comps[j] {
      if j < |chain| {
        assert names'[j] == names[j];
      }
    }
    forall n | from <= n < |ns1| ensures n in chain' {
      if n < |a0.nodes| {
        assert n in chain;
      }
    }
  }

  /** The nodes of `category_child_map` hang under buckets of `c`. */
  ghost predicate CatMapIn(ns: seq<Node>, m: map<(string, string), nat>, c: nat, key: string, isGst: bool) {
    forall x :: x in m ==> m[x] < |ns| && ns[m[x]].parent.Some? && BucketIn(ns, ns[m[x]].parent.value, c, key, isGst)
  }

  /** How value `v` of category node `c` is shown: `chain` is its node,
      or for a hierarchical value one node per name component from the top
      level down. A flat value's node holds its Tag and hangs under `p`;
      the top of a hierarchical value's chain hangs under a bucket of `c`
      and its last node's tag holds every book of `ids`. */
  ghost predicate Shown(ns: seq<Node>, ts: seq<Tag>, chain: seq<nat>, c: nat, key: string, isGst: bool,
                        v: nat, hier: bool, orig: string, ids: set<nat>, p: nat) {
    && Chain(ns, chain)
    && ns[chain[0]].parent.Some? && BucketIn(ns, ns[chain[0]].parent.value, c, key, isGst)
    && (!hier ==> |chain| == 1 && ns[chain[0]].tag == v && ns[chain[0]].parent == Some(p))
    && (hier ==>
          && |chain| == |NameComponents.GetNameComponents(orig)|
          && ns[chain[|chain| - 1]].tag < |ts| && ids <= ts[ns[chain[|chain| - 1]].tag].idSet)
  }

  lemma ShownGrows(ns: seq<Node>, ns': seq<Node>, ts: seq<Tag>, ts': seq<Tag>, chain: seq<nat>, c: nat, key: string,
                   isGst: bool, v: nat, hier: bool, orig: string, ids: set<nat>, ids0: set<nat>, p: nat)
    requires Shown(ns, ts, chain, c, key, isGst, v, hier, orig, ids, p)
    requires Extends(ns, ns') && IdsGrow(ts, ts') && ids0 <= ids
    ensures Shown(ns', ts', chain, c, key, isGst, v, hier, orig, ids0, p)
  {
  }

  /** Every value placed so far is shown as Shown says, its hierarchy
      decision and name taken from what the loop read (`views`). */
  ghost predicate AllShown(ns: seq<Node>, ts: seq<Tag>, chains: seq<seq<nat>>, c: nat, key: string, isGst: bool,
                           vals: seq<nat>, views: seq<Partition.View>, ids: seq<set<nat>>, parents: seq<nat>) {
    && |chains| <= |vals| && |chains| <= |views| && |chains| <= |ids| && |chains| <= |parents|
    && forall k :: 0 <= k < |chains| ==>
         Shown(ns, ts, chains[k], c, key, isGst, vals[k], views[k].hierBranch, views[k].originalName, ids[k], parents[k])
  }

  lemma AllShownGrows(ns: seq<Node>, ns': seq<Node>, ts: seq<Tag>, ts': seq<Tag>, chains: seq<seq<nat>>, c: nat,
                      key: string, isGst: bool, vals: seq<nat>, views: seq<Partition.View>,
                      ids: seq<set<nat>>, ids0: seq<set<nat>>, parents: seq<nat>)
    requires AllShown(ns, ts, chains, c, key, isGst, vals, views, ids, parents)
    requires Extends(ns, ns') && IdsGrow(ts, ts')
    requires |ids0| == |ids| && forall k :: 0 <= k < |ids| ==> ids0[k] <= ids[k]
    ensures AllShown(ns', ts', chains, c, key, isGst, vals, views, ids0, parents)
  {
    forall k | 0 <= k < |chains|
      ensures Shown(ns', ts', chains[k], c, key, isGst, vals[k], views[k].hierBranch, views[k].originalName, ids0[k], parents[k])
    {
      ShownGrows(ns, ns', ts, ts', chains[k], c, key, isGst, vals[k], views[k].hierBranch, views[k].originalName,
                 ids[k], ids0[k], parents[k]);
    }
  }

  /** One more value shown, after the arena and the tags grew. */
  lemma AllShownAppend(ns: seq<Node>, ns': seq<Node>, ts: seq<Tag>, ts': seq<Tag>, chains: seq<seq<nat>>, c: nat,
                       key: string, isGst: bool, vals: seq<nat>, views: seq<Partition.View>, ids: seq<set<nat>>,
                       parents: seq<nat>, chain: seq<nat>, view: Partition.View, p: nat)
    requires AllShown(ns, ts, chains, c, key, isGst, vals, views, ids, parents)
    requires |chains| == |views| == |parents| < |vals| && |chains| < |ids|
    requires Extends(ns, ns') && IdsGrow(ts, ts')
    requires Shown(ns', ts', chain, c, key, isGst, vals[|chains|], view.hierBranch, view.originalName, ids[|chains|], p)
    ensures AllShown(ns', ts', chains + [chain], c, key, isGst, vals, views + [view], ids, parents + [p])
  {
    AllShownGrows(ns, ns', ts, ts', chains, c, key, isGst, vals, views, ids, ids, parents);
    var chains', views', parents' := chains + [chain], views + [view], parents + [p];
    forall k | 0 <= k < |chains'|
      ensures Shown(ns', ts', chains'[k], c, key, isGst, vals[k], views'[k].hierBranch, views'[k].originalName, ids[k], parents'[k])
    {
      if k < |chains| {
        assert chains'[k] == chains[k] && views'[k] == views[k] && parents'[k] == parents[k];
      }
    }
  }

  /** The state process_one_node's value loop keeps over the values placed
      so far (`views`): the child map names value nodes under buckets of
      `c`, every placed value is shown, the values still to come keep their
      names, and the current and every chosen bucket belong to `c`. */
  ghost predicate Placing(ns: seq<Node>, ts: seq<Tag>, catMap: map<(string, string), nat>, c: nat, key: string,
                          isGst: bool, vals: seq<nat>, views: seq<Partition.View>, ids: seq<set<nat>>,
                          parents: seq<nat>, chains: seq<seq<nat>>, origs: seq<string>, subCat: nat) {
    && ValueMap(ns, catMap) && CatMapIn(ns, catMap, c, key, isGst)
    && |ids| == |vals| && |chains| == |views|
    && AllShown(ns, ts, chains, c, key, isGst, vals, views, ids, parents)
    && RestNamed(ts, vals, |views|, origs)
    && BucketIn(ns, subCat, c, key, isGst) && AllBuckets(ns, parents, c, key, isGst)
  }

  /** What the turn of one category node recorded: the loop's view of each
      value, the parent it chose and the nodes that show the value. */
  datatype ShownCategory = ShownCategory(views: seq<Partition.View>, parents: seq<nat>, chains: seq<seq<nat>>)

  /** Every value of category node `c` (none when its key has no data) is
      shown under `c`, with at least the books `ts0` gave it. */
  ghost predicate CategoryShown(ns: seq<Node>, ts: seq<Tag>, c: nat, data: map<string, seq<nat>>, ts0: seq<Tag>,
                                r: ShownCategory) {
    && 0 < c < |ns| && ns[c].kind.Category?
    && var vals := if ns[c].kind.key in data then data[ns[c].kind.key] else [];
    && (forall k :: 0 <= k < |vals| ==> vals[k] < |ts0|)
    && |r.chains| == |vals|
    && AllShown(ns, ts, r.chains, c, ns[c].kind.key, ns[c].kind.isGst, vals, r.views, IdsOf(ts0, vals), r.parents)
  }

  lemma CategoryShownGrows(ns: seq<Node>, ns': seq<Node>, ts: seq<Tag>, ts': seq<Tag>, c: nat,
                           data: map<string, seq<nat>>, ts0: seq<Tag>, r: ShownCategory)
    requires CategoryShown(ns, ts, c, data, ts0, r) && Extends(ns, ns') && IdsGrow(ts, ts')
    ensures CategoryShown(ns', ts', c, data, ts0, r)
  {
    var vals := if ns[c].kind.key in data then data[ns[c].kind.key] else [];
    AllShownGrows(ns, ns', ts, ts', r.chains, c, ns[c].kind.key, ns[c].kind.isGst, vals, r.views,
                  IdsOf(ts0, vals), IdsOf(ts0, vals), r.parents);
  }

  /** The turn of category node `c` shows its values with the books they
      had when the turn began, hence with those `ts0` gave them. */
  lemma CategoryShownNew(ns: seq<Node>, ts: seq<Tag>, c: nat, data: map<string, seq<nat>>, ts0: seq<Tag>,
                         tb: seq<Tag>, r: ShownCategory)
    requires 0 < c < |ns| && ns[c].kind.Category? && IdsGrow(ts0, tb)
    requires var vals := if ns[c].kind.key in data then data[ns[c].kind.key] else [];
      && (forall k :: 0 <= k < |vals| ==> vals[k] < |ts0|) && |r.chains| == |vals|
      && AllShown(ns, ts, r.chains, c, ns[c].kind.key, ns[c].kind.isGst, vals, r.views, IdsOf(tb, vals), r.parents)
    ensures CategoryShown(ns, ts, c, data, ts0, r)
  {
    var vals := if ns[c].kind.key in data then data[ns[c].kind.key] else [];
    AllShownGrows(ns, ns, ts, ts, r.chains, c, ns[c].kind.key, ns[c].kind.isGst, vals, r.views,
                  IdsOf(tb, vals), IdsOf(ts0, vals), r.parents);
  }

  /** Categories already shown stay shown as the arena and tags grow. */
  lemma CategoriesShownGrow(ns: seq<Node>, ns': seq<Node>, ts: seq<Tag>, ts': seq<Tag>, cs: seq<nat>,
                            data: map<string, seq<nat>>, ts0: seq<Tag>, shown: seq<ShownCategory>)
    requires |shown| <= |cs| && Extends(ns, ns') && IdsGrow(ts, ts')
    requires forall j :: 0 <= j < |shown| ==> CategoryShown(ns, ts, cs[j], data, ts0, shown[j])
    ensures forall j :: 0 <= j < |shown| ==> CategoryShown(ns', ts', cs[j], data, ts0, shown[j])
  {
    forall j | 0 <= j < |shown| ensures CategoryShown(ns', ts', cs[j], data, ts0, shown[j]) {
      CategoryShownGrows(ns, ns', ts, ts', cs[j], data, ts0, shown[j]);
    }
  }

  /** Shown with the books of `ts1` is shown with those of any `ts0` that
      `ts1` grew from. */
  lemma CategoriesShownFrom(ns: seq<Node>, ts: seq<Tag>, cs: seq<nat>, data: map<string, seq<nat>>,
                            ts0: seq<Tag>, ts1: seq<Tag>, shown: seq<ShownCategory>)
    requires |shown| <= |cs| && IdsGrow(ts0, ts1)
    requires forall key :: key in data ==> forall k :: 0 <= k < |data[key]| ==> data[key][k] < |ts0|
    requires forall j :: 0 <= j < |shown| ==> CategoryShown(ns, ts, cs[j], data, ts1, shown[j])
    ensures forall j :: 0 <= j < |shown| ==> CategoryShown(ns, ts, cs[j], data, ts0, shown[j])
  {
    forall j | 0 <= j < |shown| ensures CategoryShown(ns, ts, cs[j], data, ts0, shown[j]) {
      var c, r := cs[j], shown[j];
      var vals := if ns[c].kind.key in data then data[ns[c].kind.key] else [];
      AllShownGrows(ns, ns, ts, ts, r.chains, c, ns[c].kind.key, ns[c].kind.isGst, vals, r.views,
                    IdsOf(ts1, vals), IdsOf(ts0, vals), r.parents);
    }
  }

  /** The books of each value as the category's turn found them. */
  function IdsOf(ts: seq<Tag>, vals: seq<nat>): (r: seq<set<nat>>)
    requires forall k :: 0 <= k < |vals| ==> vals[k] < |ts|
    ensures |r| == |vals| && forall k :: 0 <= k < |vals| ==> r[k] == ts[vals[k]].idSet
  {
    seq(|vals|, k requires 0 <= k < |vals| => ts[vals[k]].idSet)
  }

  lemma CatMapExtends(ns: seq<Node>, ns': seq<Node>, m: map<(string, string), nat>, c: nat, key: string, isGst: bool)
    requires CatMapIn(ns, m, c, key, isGst) && Extends(ns, ns')
    ensures CatMapIn(ns', m, c, key, isGst)
  {
  }

  /** A new entry of `category_child_map` whose node hangs under a bucket of `c`. */
  lemma CatMapAdd(ns: seq<Node>, m: map<(string, string), nat>, k: (string, string), v: nat, c: nat, key: string, isGst: bool)
    requires CatMapIn(ns, m, c, key, isGst)
    requires v < |ns| && ns[v].parent.Some? && BucketIn(ns, ns[v].parent.value, c, key, isGst)
    ensures CatMapIn(ns, m[k := v], c, key, isGst)
  {
  }

  /** The values of a category: distinct tags of the model. */
  ghost predicate DistinctValues(vals: seq<nat>, n: nat) {
    && (forall k :: 0 <= k < |vals| ==> vals[k] < n)
    && (forall i, j :: 0 <= i < j < |vals| ==> vals[i] != vals[j])
  }

  lemma DistinctValuesGrow(vals: seq<nat>, n: nat, m: nat)
    requires DistinctValues(vals, n) && n <= m
    ensures DistinctValues(vals, m)
  {
  }

  /** The original names of the values `vals`. */
  function NamesOf(ts: seq<Tag>, vals: seq<nat>): (r: seq<string>)
    requires forall k :: 0 <= k < |vals| ==> vals[k] < |ts|
    ensures |r| == |vals| && forall k :: 0 <= k < |vals| ==> r[k] == ts[vals[k]].originalName
  {
    if |vals| == 0 then [] else [ts[vals[0]].originalName] + NamesOf(ts, vals[1..])
  }

  /** The values from position `from` on still carry the names `origs`. */
  ghost predicate RestNamed(ts: seq<Tag>, vals: seq<nat>, from: nat, origs: seq<string>) {
    && |origs| == |vals|
    && forall k :: from <= k < |vals| ==> vals[k] < |ts| && ts[vals[k]].originalName == origs[k]
  }

  lemma RestKept(before: seq<Tag>, after: seq<Tag>, vals: seq<nat>, from: nat, except: set<nat>, origs: seq<string>)
    requires NamesKept(before, after, except) && RestNamed(before, vals, from, origs)
    requires forall k :: from <= k < |vals| ==> vals[k] !in except
    ensures RestNamed(after, vals, from, origs)
  {
  }

  /** What the partition decision read from each value processed so far. */
  ghost predicate ViewsOk(views: seq<Partition.View>, origs: seq<string>, firsts: seq<string>) {
    && |views| <= |origs| == |firsts|
    && forall k :: 0 <= k < |views| ==>
         views[k].originalName == origs[k] && views[k].firstComponent == firsts[k]
  }

  lemma ViewsOkStep(views: seq<Partition.View>, origs: seq<string>, firsts: seq<string>, v: Partition.View)
    requires ViewsOk(views, origs, firsts) && |views| < |origs|
    requires v.originalName == origs[|views|] && v.firstComponent == firsts[|views|]
    ensures ViewsOk(views + [v], origs, firsts)
  {
  }

  /** Every value processed so far sits under a bucket of `c`. */
  ghost predicate AllBuckets(ns: seq<Node>, ps: seq<nat>, c: nat, key: string, isGst: bool) {
    forall k :: 0 <= k < |ps| ==> BucketIn(ns, ps[k], c, key, isGst)
  }

  /** Every value processed so far sits directly under `c`. */
  ghost predicate AllUnder(ps: seq<nat>, c: nat) {
    forall k :: 0 <= k < |ps| ==> ps[k] == c
  }

  /** In partition mode, a value not at a start shares its predecessor's
      bucket. */
  ghost predicate PartitionTrace(starts: seq<nat>, ps: seq<nat>) {
    forall k :: 0 < k < |ps| && k !in starts ==> ps[k] == ps[k - 1]
  }

  lemma PartitionTraceStep(starts: seq<nat>, ps: seq<nat>, brk: bool, p: nat)
    requires PartitionTrace(starts, ps)
    requires |ps| > 0 && !brk ==> p == ps[|ps| - 1]
    ensures PartitionTrace(starts + (if brk then [|ps|] else []), ps + [p])
  {
    var starts' := starts + (if brk then [|ps|] else []);
    var ps' := ps + [p];
    forall k | 0 < k < |ps'| && k !in starts' ensures ps'[k] == ps'[k - 1] {
      if k < |ps| {
        assert k !in starts;
      }
    }
  }

  /** The partition state of process_one_node after the values `views`:
      `top_level_component` follows the cursor of Partition.CursorAt, the
      starts are Partition.Breaks and, while partitioning, `last_idx` is the
      cursor's and values not at a start share their predecessor's bucket. */
  ghost predicate PartitionOk(top0: string, collapse: nat, views: seq<Partition.View>, top: string, lastIdx: int,
                              starts: seq<nat>, parents: seq<nat>, tracking: bool) {
    && top == Partition.CursorAt(top0, collapse, views).top
    && starts == Partition.Breaks(top0, collapse, views)
    && (tracking ==> lastIdx == Partition.CursorAt(top0, collapse, views).lastIdx && PartitionTrace(starts, parents))
  }

  lemma PartitionOkStep(top0: string, collapse: nat, views: seq<Partition.View>, top: string, lastIdx: int,
                        starts: seq<nat>, parents: seq<nat>, tracking: bool,
                        v: Partition.View, top': string, lastIdx': int, p: nat, subCat: nat)
    requires PartitionOk(top0, collapse, views, top, lastIdx, starts, parents, tracking) && |parents| == |views|
    requires top' == if v.hierBranch then v.firstComponent else top
    requires tracking && |parents| > 0 ==> subCat == parents[|parents| - 1]
    requires tracking ==>
      var brk := |views| >= lastIdx + collapse && !StartsWith(v.originalName, top + ".");
      && (brk ==> lastIdx' == |views|)
      && (!brk ==> lastIdx' == lastIdx && p == subCat)
    ensures var cur := Partition.CursorAt(top0, collapse, views);
      PartitionOk(top0, collapse, views + [v], top', lastIdx',
                  starts + (if Partition.BreaksAt(cur, v, |views|, collapse) then [|views|] else []),
                  parents + [p], tracking)
  {
    var cur := Partition.CursorAt(top0, collapse, views);
    Partition.BreaksSnoc(top0, collapse, views, v);
    if tracking {
      PartitionTraceStep(starts, parents, Partition.BreaksAt(cur, v, |views|, collapse), p);
    }
  }

  /** In first-letter mode, every value sits in a bucket below `bound`, and
      consecutive values share a bucket exactly when they share a letter. */
  ghost predicate LetterTrace(cl: seq<string>, ps: seq<nat>, c: nat, bound: nat) {
    && |ps| <= |cl|
    && (forall k :: 0 <= k < |ps| ==> ps[k] != c && ps[k] < bound)
    && (forall k :: 0 < k < |ps| ==> (cl[k] == cl[k - 1] <==> ps[k] == ps[k - 1]))
  }

  lemma LetterTraceStep(cl: seq<string>, ps: seq<nat>, c: nat, bound: nat, bound': nat, p: nat)
    requires LetterTrace(cl, ps, c, bound) && |ps| < |cl| && bound <= bound'
    requires p != c && p < bound'
    requires |ps| > 0 && cl[|ps|] == cl[|ps| - 1] ==> p == ps[|ps| - 1]
    requires |ps| > 0 && cl[|ps|] != cl[|ps| - 1] ==> p >= bound
    ensures LetterTrace(cl, ps + [p], c, bound')
  {
    var ps' := ps + [p];
    forall k | 0 < k < |ps'| ensures (cl[k] == cl[k - 1] <==> ps'[k] == ps'[k - 1]) {
      if k == |ps| {
        assert ps'[k - 1] == ps[|ps| - 1] < bound;
      }
    }
  }

  lemma NamesKeptTrans(a: seq<Tag>, b: seq<Tag>, c: seq<Tag>, e: set<nat>)
    requires NamesKept(a, b, e) && NamesKept(b, c, e)
    ensures NamesKept(a, c, e)
  {
  }

  /** The tree with a new node of `kind` showing `tag` appended to the
      children of `parent` (TagTreeItem.__init__ followed by append). */
  function WithChild(a: Arena, parent: nat, kind: Kind, tag: nat): (b: Arena)
    requires parent < |a.nodes|
    ensures |b.nodes| == |a.nodes| + 1 && b.tags == a.tags
  {
    var n := |a.nodes|;
    var p := a.nodes[parent];
    Arena(a.nodes[parent := p.(children := p.children + [n])] + [Node(kind, tag, Some(parent), [], None, None, false)],
          a.tags)
  }

  /** Appending a child keeps the tree well formed, keeps every existing
      node's kind, tag and parent, adds no cached count, and leaves every
      hierarchical value with children rated as long as the parent was. */
  lemma WithChildProps(a: Arena, parent: nat, kind: Kind, tag: nat)
    requires WellFormed(a) && parent < |a.nodes| && kind != Root && tag < |a.tags|
    ensures WellFormed(WithChild(a, parent, kind, tag))
    ensures Extends(a.nodes, WithChild(a, parent, kind, tag).nodes)
    ensures (forall i :: 0 <= i < |a.nodes| ==> a.nodes[i].cachedCount == None) ==>
              forall i :: 0 <= i < |a.nodes| + 1 ==> WithChild(a, parent, kind, tag).nodes[i].cachedCount == None
    ensures RatingsReady(a) && (a.nodes[parent].kind == Value ==> a.nodes[parent].cachedRating.Some?) ==>
              RatingsReady(WithChild(a, parent, kind, tag))
  {
    WithChildWellFormed(a, parent, kind, tag);
  }

  lemma WithChildWellFormed(a: Arena, parent: nat, kind: Kind, tag: nat)
    requires WellFormed(a) && parent < |a.nodes| && kind != Root && tag < |a.tags|
    ensures WellFormed(WithChild(a, parent, kind, tag))
  {
    var b := WithChild(a, parent, kind, tag);
    var n := |a.nodes|;
    assert ChildrenOk(b, n) by {
      assert b.nodes[n].children == [];
    }
    forall i | 0 <= i < n ensures ChildrenOk(b, i) {
      assert ChildrenOk(a, i);
    }
  }

  /** The same tree with possibly different caches. */
  ghost predicate SameShape(a: Arena, b: Arena) {
    && |a.nodes| == |b.nodes| && a.tags == b.tags
    && forall j :: 0 <= j < |a.nodes| ==>
         a.nodes[j].kind == b.nodes[j].kind && a.nodes[j].tag == b.nodes[j].tag
         && a.nodes[j].parent == b.nodes[j].parent && a.nodes[j].children == b.nodes[j].children
  }

  lemma SameShapeWellFormed(a: Arena, b: Arena)
    requires WellFormed(a) && SameShape(a, b)
    ensures WellFormed(b)
  {
    forall i | 0 <= i < |b.nodes| ensures ChildrenOk(b, i) {
      assert ChildrenOk(a, i);
    }
  }

  /** Well-formedness reads the tags only for their number. */
  lemma MoreTagsWellFormed(a: Arena, tags: seq<Tag>)
    requires WellFormed(a) && |a.tags| <= |tags|
    ensures WellFormed(Arena(a.nodes, tags))
  {
    var b := Arena(a.nodes, tags);
    forall i | 0 <= i < |b.nodes| ensures ChildrenOk(b, i) {
      assert ChildrenOk(a, i);
    }
  }

  lemma {:induction false} SameShapeForestIds(a: Arena, b: Arena, lo: nat, cs: seq<nat>)
    requires WellFormed(a) && WellFormed(b) && SameShape(a, b) && AllBelow(a, lo, cs) && lo > 0
    ensures ForestIds(a, lo, cs) == ForestIds(b, lo, cs)
    decreases |a.nodes| - lo, |cs|
  {
    if |cs| > 0 {
      ChildrenBelow(a, cs[0]);
      SameShapeForestIds(a, b, cs[0] + 1, Children(a, cs[0]));
      SameShapeForestIds(a, b, lo, cs[1..]);
    }
  }

  /** Every cached item count is the count the subtree gives. */
  ghost predicate CountsFreshIn(a: Arena)
    requires WellFormed(a)
  {
    forall i :: 0 < i < |a.nodes| && a.nodes[i].cachedCount.Some? ==> a.nodes[i].cachedCount.value == |SubtreeIds(a, i)|
  }

  /** Caching the count of node `i` changes no subtree, so every cached
      count stays fresh. */
  lemma CacheKeepsFresh(a: Arena, i: nat)
    requires WellFormed(a) && CountsFreshIn(a) && 0 < i < |a.nodes|
    ensures var b := Arena(a.nodes[i := a.nodes[i].(cachedCount := Some(|SubtreeIds(a, i)|))], a.tags);
      SameShape(a, b) && WellFormed(b) && CountsFreshIn(b)
  {
    var b := Arena(a.nodes[i := a.nodes[i].(cachedCount := Some(|SubtreeIds(a, i)|))], a.tags);
    assert SameShape(a, b);
    SameShapeWellFormed(a, b);
    forall j | 0 < j < |b.nodes| && b.nodes[j].cachedCount.Some?
      ensures b.nodes[j].cachedCount.value == |SubtreeIds(b, j)|
    {
      ChildrenBelow(a, j);
      SameShapeForestIds(a, b, j + 1, Children(a, j));
    }
  }

  /** `field_metadata[key]` as far as the tree build reads it. */
  datatype FieldInfo = FieldInfo(isCustom: bool, isUser: bool, isNames: bool, hierarchical: bool)

  datatype CollapseModel = Disable | PartitionMode | FirstLetterMode

  /** Preferences and collaborators of a build: the collapse thresholds,
      ICU's partitioning collation, the collapse-label template evaluator
      and the average rating of a set of books. */
  datatype BuildConfig = BuildConfig(
    collapse: nat,
    flCollapseWhen: int,
    dontCollapse: set<string>,
    categoriesWithRatings: set<string>,
    collate: string -> (int, nat),
    fmt: (Tag, Tag) -> string,
    ratingOf: set<nat> -> real)

  /** What `safe_format` returns in place of a label when the template fails. */
  const FormatterFailure := "##TAG_VIEW##"

  /** `key.partition('.')[0]`. */
  function KeyHead(key: string): (r: string)
    ensures '.' !in r && StartsWith(key, r)
    ensures '.' !in key ==> r == key
    decreases |key|
  {
    if |key| == 0 || key[0] == '.' then ""
    else [key[0]] + KeyHead(key[1..])
  }

  /** The collapse model _create_node_tree uses: none when the threshold is
      0; otherwise the configured one, except that a tree sorted by rating
      or popularity is always partitioned. */
  function SelectCollapseModel(collapse: nat, model: CollapseModel, sortBy: string): (m: CollapseModel)
    ensures m == Disable <==> collapse == 0 || model == Disable
    ensures m == FirstLetterMode <==> collapse > 0 && model == FirstLetterMode && sortBy == "name"
  {
    if collapse == 0 then Disable
    else if model != Disable then
      if sortBy == "name" then model
      else PartitionMode
    else model
  }

  /** Whether a value takes the hierarchical path of process_one_node. */
  function HierBranch(t: Tag, inUc: bool, isNames: bool, catHier: bool): (b: bool)
    ensures t.isHierarchical != NotHierarchical ==> b
    ensures !catHier ==> b == (t.isHierarchical != NotHierarchical)
  {
    var components := if catHier || t.isHierarchical != NotHierarchical
      then NameComponents.GetNameComponents(t.originalName) else [t.originalName];
    !(t.isHierarchical == NotHierarchical && (inUc || isNames || !catHier || |components| == 1))
  }

  /** `{(t.tag.name, key if is_gst else t.tag.category): t for t in children if t.type != CATEGORY}`. */
  function ChildMapOf(a: Arena, cs: seq<nat>, key: string, isGst: bool): (m: map<(string, string), nat>)
    requires WellFormed(a) && AllBelow(a, 1, cs)
    ensures forall x :: x in m ==> m[x] in cs && a.nodes[m[x]].kind == Value
    ensures forall x :: x in m ==> a.tags[a.nodes[m[x]].tag].name == x.0
  {
    if |cs| == 0 then map[]
    else
      var m := ChildMapOf(a, cs[..|cs| - 1], key, isGst);
      var c := cs[|cs| - 1];
      if a.nodes[c].kind.Category? then m
      else
        var t := a.tags[a.nodes[c].tag];
        m[(t.name, if isGst then key else t.category) := c]
  }

  /** A level's tag as a hierarchical level shows it: marked hierarchical
      (three states in the search category) and named by the level's
      component. */
  function MarkLevel(t: Tag, comp: string): (r: Tag)
    ensures r.name == comp && r.isHierarchical != NotHierarchical
    ensures r.(name := t.name, isHierarchical := t.isHierarchical) == t
    ensures r.isHierarchical == ThreeState <==> t.category == "search"
  {
    t.(isHierarchical := if t.category != "search" then FiveState else ThreeState, name := comp)
  }

  /** The tag manufactured for an upper level no value names: a copy of the
      value's tag with the level's dotted prefix as original name and no
      count, which cannot be edited and, in the search category, cannot be
      searched either. */
  function IntermediateCopy(t: Tag, prefix: string, key: string): (r: Tag)
    ensures r.originalName == prefix && r.count == 0 && !r.isEditable
    ensures r.idSet == t.idSet && r.category == t.category && r.name == t.name
    ensures key == "search" ==> !r.isSearchable && r.searchExpression == None
    ensures key != "search" ==> r.isSearchable == t.isSearchable && r.searchExpression == t.searchExpression
  {
    var copy := t.(originalName := prefix, count := 0);
    if key != "search" then copy.(isEditable := false)
    else copy.(isSearchable := false, isEditable := false, searchExpression := None)
  }

  /** `t = tag.sort if tag.sort else tag.name`. */
  function SortOrName(t: Tag): string {
    if t.sort.Some? && t.sort.value != "" then t.sort.value else t.name
  }

  function FirstLetterKeys(ts: seq<Tag>, vals: seq<nat>): (r: seq<string>)
    requires forall k :: 0 <= k < |vals| ==> vals[k] < |ts|
    ensures |r| == |vals| && forall k :: 0 <= k < |vals| ==> r[k] == SortOrName(ts[vals[k]])
  {
    if |vals| == 0 then [] else [SortOrName(ts[vals[0]])] + FirstLetterKeys(ts, vals[1..])
  }

  /** The collapse mode process_one_node uses for a category: none when the
      category's prefix is in `tag_browser_dont_collapse`. */
  function EffectiveModel(model: CollapseModel, key: string, cfg: BuildConfig): CollapseModel {
    if KeyHead(key) in cfg.dontCollapse then Disable else model
  }

  /** The bookkeeping of process_one_node's loop after the values `views`
      (those of `origs` processed so far), with `bound` the number of nodes. */
  ghost predicate GhostTrace(top0: string, collapse: nat, origs: seq<string>, firsts: seq<string>, clList: seq<string>, c: nat,
                             mode: CollapseModel, collapsing: bool,
                             views: seq<Partition.View>, starts: seq<nat>, parents: seq<nat>,
                             top: string, lastIdx: int, subCat: nat, collapseLetter: Option<string>, bound: nat) {
    && |views| == |parents| <= |origs|
    && ViewsOk(views, origs, firsts)
    && PartitionOk(top0, collapse, views, top, lastIdx, starts, parents, mode == PartitionMode && collapsing)
    && (|parents| > 0 && collapsing ==> subCat == parents[|parents| - 1])
    && (!collapsing ==> AllUnder(parents, c))
    && (mode == FirstLetterMode ==> |clList| == |origs|)
    && (mode == FirstLetterMode && collapsing ==>
          && (|parents| > 0 ==> collapseLetter == Some(clList[|parents| - 1]))
          && (|parents| == 0 ==> collapseLetter == None)
          && LetterTrace(clList, parents, c, bound))
  }

  /** What placing value `idx` did to the loop state of process_one_node:
      `p` is its parent, `bound` the number of nodes before it was placed. */
  ghost predicate Placed(collapse: nat, origs: seq<string>, firsts: seq<string>, clList: seq<string>, c: nat,
                         mode: CollapseModel, collapsing: bool, idx: nat,
                         top: string, lastIdx: int, subCat: nat, collapseLetter: Option<string>, bound: nat,
                         hb: bool, p: nat, top': string, lastIdx': int, collapseLetter': Option<string>)
    requires idx < |origs| && idx < |firsts|
    requires mode == FirstLetterMode ==> |clList| == |origs|
  {
    && (top' == if hb then firsts[idx] else top)
    && (!collapsing ==> p == c && lastIdx' == lastIdx && collapseLetter' == collapseLetter)
    && (collapsing && mode == PartitionMode ==>
          var brk := idx >= lastIdx + collapse && !StartsWith(origs[idx], top + ".");
          && (brk ==> lastIdx' == idx && (p == c || p == bound))
          && (!brk ==> lastIdx' == lastIdx && p == subCat))
    && (collapsing && mode == FirstLetterMode ==>
          && collapseLetter' == Some(clList[idx]) && p != c
          && (collapseLetter == Some(clList[idx]) ==> p == subCat)
          && (collapseLetter != Some(clList[idx]) ==> p == bound))
  }

  lemma TraceStep(top0: string, collapse: nat, origs: seq<string>, firsts: seq<string>, clList: seq<string>, c: nat,
                  mode: CollapseModel, collapsing: bool,
                  views: seq<Partition.View>, starts: seq<nat>, parents: seq<nat>,
                  top: string, lastIdx: int, subCat: nat, collapseLetter: Option<string>, bound: nat,
                  hb: bool, p: nat, top': string, lastIdx': int, collapseLetter': Option<string>, bound': nat)
    returns (views': seq<Partition.View>, starts': seq<nat>, parents': seq<nat>)
    requires GhostTrace(top0, collapse, origs, firsts, clList, c, mode, collapsing, views, starts, parents,
                        top, lastIdx, subCat, collapseLetter, bound)
    requires |views| < |origs| && bound <= bound' && p < bound'
    requires Placed(collapse, origs, firsts, clList, c, mode, collapsing, |views|, top, lastIdx, subCat, collapseLetter, bound,
                    hb, p, top', lastIdx', collapseLetter')
    ensures |views'| == |views| + 1 && parents' == parents + [p]
    ensures views' == views + [Partition.View(origs[|views|], hb, firsts[|views|])]
    ensures GhostTrace(top0, collapse, origs, firsts, clList, c, mode, collapsing, views', starts', parents',
                       top', lastIdx', if collapsing then p else subCat, collapseLetter', bound')
  {
    var idx := |views|;
    var v := Partition.View(origs[idx], hb, firsts[idx]);
    views' := views + [v];
    var brk := Partition.BreaksAt(Partition.CursorAt(top0, collapse, views), v, idx, collapse);
    starts' := if brk then starts + [idx] else starts;
    parents' := parents + [p];
    ViewsOkStep(views, origs, firsts, v);
    PartitionOkStep(top0, collapse, views, top, lastIdx, starts, parents, mode == PartitionMode && collapsing,
                    v, top', lastIdx', p, subCat);
    if !collapsing {
      assert AllUnder(parents', c);
    } else if mode == FirstLetterMode {
      LetterTraceStep(clList, parents, c, bound, bound', p);
    }
  }

  // -----------------------------------------------------------------------
  // rename_item

  /** One `do_one_item` call: the Tag object `tag`, named `originalName`,
      gets `newName`. */
  datatype Rename = Rename(tag: nat, originalName: string, newName: string)

  /** The child loop of rename_item: every editable node among `cs` whose
      original name starts with `searchName` gets `toWhat` followed by the
      rest of its name. */
  function ChildRenames(a: Arena, cs: seq<nat>, searchName: string, toWhat: string): (r: seq<Rename>)
    requires WellFormed(a) && forall k :: 0 <= k < |cs| ==> 0 < cs[k] < |a.nodes|
    ensures forall k :: 0 <= k < |r| ==> r[k].tag < |a.tags|
  {
    if |cs| == 0 then [] else ChildRenames(a, cs[..|cs| - 1], searchName, toWhat) + ChildRename(a, cs[|cs| - 1], searchName, toWhat)
  }

  /** One turn of that loop. */
  function ChildRename(a: Arena, c: nat, searchName: string, toWhat: string): (r: seq<Rename>)
    requires WellFormed(a) && 0 < c < |a.nodes|
    ensures |r| <= 1 && forall k :: 0 <= k < |r| ==> r[k].tag < |a.tags|
  {
    var t := TagOf(a, c);
    if t.isEditable && StartsWith(t.originalName, searchName)
    then [Rename(a.nodes[c].tag, t.originalName, toWhat + t.originalName[|searchName|..])]
    else []
  }

  /** The renames rename_item performs for node `item`, in order: a leaf is
      renamed itself; a middle node is renamed when editable, then its
      matching descendants. */
  function RenamePlan(a: Arena, item: nat, toWhat: string): (r: seq<Rename>)
    requires WellFormed(a) && 0 < item < |a.nodes|
    ensures forall k :: 0 <= k < |r| ==> r[k].tag < |a.tags|
  {
    var t := TagOf(a, item);
    var own := Rename(a.nodes[item].tag, t.originalName, toWhat);
    var children := AllChildren(a, item);
    if t.isEditable && |children| == 0 then [own]
    else (if t.isEditable then [own] else []) + ChildRenames(a, children, t.originalName, toWhat)
  }

  /** The Tag objects after the renames of `plan`, one after the other: each
      gets its new name and loses its search state. */
  function ApplyRenames(ts: seq<Tag>, plan: seq<Rename>): (r: seq<Tag>)
    requires forall k :: 0 <= k < |plan| ==> plan[k].tag < |ts|
    ensures |r| == |ts|
  {
    if |plan| == 0 then ts
    else
      var r := ApplyRenames(ts, plan[..|plan| - 1]);
      var x := plan[|plan| - 1];
      r[x.tag := r[x.tag].(name := x.newName, state := Clear)]
  }

  /** The user categories after add_renamed_item_to_user_categories for each rename of `plan`. */
  function CatsAfter(cats: UserCategories.Cats, key: string, plan: seq<Rename>): (r: UserCategories.Cats)
    ensures r.Keys == cats.Keys
  {
    if |plan| == 0 then cats
    else
      var c := CatsAfter(cats, key, plan[..|plan| - 1]);
      var x := plan[|plan| - 1];
      RenamedEverywhere(c, key, x.originalName, x.newName)
  }

  /** The tags keep their original names and edit flags. */
  ghost predicate SameIdentity(ts: seq<Tag>, ref: seq<Tag>) {
    |ts| == |ref| && forall j :: 0 <= j < |ts| ==> ts[j].originalName == ref[j].originalName && ts[j].isEditable == ref[j].isEditable
  }

  lemma RenameKeepsIdentity(ts: seq<Tag>, ref: seq<Tag>, x: Rename)
    requires SameIdentity(ts, ref) && x.tag < |ts|
    ensures SameIdentity(ts[x.tag := ts[x.tag].(name := x.newName, state := Clear)], ref)
  {
  }

  /** One more rename at the end of a plan. */
  lemma RenameSnoc(ts: seq<Tag>, cats: UserCategories.Cats, key: string, plan: seq<Rename>, x: Rename)
    requires x.tag < |ts| && forall k :: 0 <= k < |plan| ==> plan[k].tag < |ts|
    ensures forall k :: 0 <= k < |plan + [x]| ==> (plan + [x])[k].tag < |ts|
    ensures var r := ApplyRenames(ts, plan);
      ApplyRenames(ts, plan + [x]) == r[x.tag := r[x.tag].(name := x.newName, state := Clear)]
    ensures CatsAfter(cats, key, plan + [x]) == RenamedEverywhere(CatsAfter(cats, key, plan), key, x.originalName, x.newName)
  {
    var q := plan + [x];
    forall k | 0 <= k < |q| ensures q[k].tag < |ts| {
      if k < |plan| { assert q[k] == plan[k]; }
    }
    assert q[..|q| - 1] == plan && q[|q| - 1] == x;
  }

  /** add_renamed_item_to_user_categories applied to every user category. */
  function RenamedEverywhere(cats: UserCategories.Cats, key: string, originalName: string, newName: string): (r: UserCategories.Cats)
    ensures r.Keys == cats.Keys
    ensures forall k :: k in r ==> r[k] == UserCategories.WithRenamed(cats[k], key, originalName, newName)
  {
    map k | k in cats :: UserCategories.WithRenamed(cats[k], key, originalName, newName)
  }

  /** The tags before the renames: a middle node's Value parent loses its search state. */
  function ClearParent(a: Arena, item: nat): (r: seq<Tag>)
    requires WellFormed(a) && 0 < item < |a.nodes|
    ensures |r| == |a.tags|
  {
    var p := a.nodes[item].parent.value;
    var t := TagOf(a, item);
    if !(t.isEditable && |AllChildren(a, item)| == 0) && a.nodes[p].kind == Value
    then a.tags[a.nodes[p].tag := a.tags[a.nodes[p].tag].(state := Clear)]
    else a.tags
  }

  lemma PlanSnoc(a: Arena, children: seq<nat>, k: nat, searchName: string, toWhat: string, head: seq<Rename>)
    requires WellFormed(a) && k < |children| && forall j :: 0 <= j < |children| ==> 0 < children[j] < |a.nodes|
    ensures (head + ChildRenames(a, children[..k], searchName, toWhat)) + ChildRename(a, children[k], searchName, toWhat)
         == head + ChildRenames(a, children[..k + 1], searchName, toWhat)
  {
    assert children[..k + 1][..k] == children[..k];
  }

  /** Renames change names and search states only: every Tag keeps its
      original name, category and editability. */
  lemma {:induction false} ApplyRenamesKeeps(ts: seq<Tag>, plan: seq<Rename>, j: nat)
    requires (forall k :: 0 <= k < |plan| ==> plan[k].tag < |ts|) && j < |ts|
    ensures var r := ApplyRenames(ts, plan);
      r[j] == ts[j].(name := r[j].name, state := r[j].state)
  {
    if |plan| > 0 {
      ApplyRenamesKeeps(ts, plan[..|plan| - 1], j);
    }
  }

  /** No Tag object is renamed twice. */
  ghost predicate DistinctTags(plan: seq<Rename>) {
    forall k, l :: 0 <= k < l < |plan| ==> plan[k].tag != plan[l].tag
  }

  /** When no Tag is renamed twice, each renamed Tag ends with its new name
      and a clear state, and every other Tag is as it was. */
  lemma {:induction false} ApplyRenamesResult(ts: seq<Tag>, plan: seq<Rename>)
    requires (forall k :: 0 <= k < |plan| ==> plan[k].tag < |ts|) && DistinctTags(plan)
    ensures var r := ApplyRenames(ts, plan);
      && (forall k :: 0 <= k < |plan| ==> r[plan[k].tag].name == plan[k].newName && r[plan[k].tag].state == Clear)
      && (forall j :: 0 <= j < |ts| && (forall k :: 0 <= k < |plan| ==> plan[k].tag != j) ==> r[j] == ts[j])
  {
    if |plan| > 0 {
      var init := plan[..|plan| - 1];
      assert DistinctTags(init) by {
        forall k, l | 0 <= k < l < |init| ensures init[k].tag != init[l].tag {
          assert init[k] == plan[k] && init[l] == plan[l];
        }
      }
      ApplyRenamesResult(ts, init);
      forall k | 0 <= k < |init| ensures init[k].tag != plan[|plan| - 1].tag {
        assert init[k] == plan[k];
      }
    }
  }

  /** An editable descendant whose original name starts with the searched
      name is in the child renames, with the rest of its name after `toWhat`. */
  lemma {:induction false} ChildRenamesHas(a: Arena, cs: seq<nat>, searchName: string, toWhat: string, i: nat)
    requires WellFormed(a) && (forall k :: 0 <= k < |cs| ==> 0 < cs[k] < |a.nodes|) && i < |cs|
    requires TagOf(a, cs[i]).isEditable && StartsWith(TagOf(a, cs[i]).originalName, searchName)
    ensures var t := TagOf(a, cs[i]);
      Rename(a.nodes[cs[i]].tag, t.originalName, toWhat + t.originalName[|searchName|..]) in ChildRenames(a, cs, searchName, toWhat)
  {
    if i < |cs| - 1 {
      ChildRenamesHas(a, cs[..|cs| - 1], searchName, toWhat, i);
    }
  }

  /** `x` is the rename of the editable node `c`, whose original name starts with `searchName`. */
  ghost predicate RenamesNode(a: Arena, c: nat, searchName: string, toWhat: string, x: Rename)
    requires WellFormed(a) && 0 < c < |a.nodes|
  {
    var t := TagOf(a, c);
    && a.nodes[c].tag == x.tag && t.isEditable && StartsWith(t.originalName, searchName)
    && x.originalName == t.originalName && x.newName == toWhat + t.originalName[|searchName|..]
  }

  /** The child renames rename nothing but editable descendants whose
      original name starts with the searched name. */
  lemma {:induction false} ChildRenamesOnly(a: Arena, cs: seq<nat>, searchName: string, toWhat: string, x: Rename)
    requires WellFormed(a) && (forall k :: 0 <= k < |cs| ==> 0 < cs[k] < |a.nodes|)
    requires x in ChildRenames(a, cs, searchName, toWhat)
    ensures exists i :: 0 <= i < |cs| && RenamesNode(a, cs[i], searchName, toWhat, x)
  {
    var init := cs[..|cs| - 1];
    if x in ChildRenames(a, init, searchName, toWhat) {
      ChildRenamesOnly(a, init, searchName, toWhat, x);
      var i :| 0 <= i < |init| && RenamesNode(a, init[i], searchName, toWhat, x);
      assert init[i] == cs[i];
    } else {
      assert RenamesNode(a, cs[|cs| - 1], searchName, toWhat, x);
    }
  }

  /** rename_item's outcome: an editable node gets `toWhat`; below a middle
      node every editable descendant whose original name starts with the
      node's original name gets `toWhat` followed by the rest of its name;
      so long as no Tag object is renamed twice. */
  lemma RenameItemNames(a: Arena, item: nat, toWhat: string)
    requires WellFormed(a) && 0 < item < |a.nodes|
    requires DistinctTags(RenamePlan(a, item, toWhat))
    ensures var r := ApplyRenames(ClearParent(a, item), RenamePlan(a, item, toWhat));
      var t := TagOf(a, item);
      && (t.isEditable ==> r[a.nodes[item].tag].name == toWhat)
      && forall x :: x in AllChildren(a, item) && TagOf(a, x).isEditable && StartsWith(TagOf(a, x).originalName, t.originalName) ==>
           r[a.nodes[x].tag].name == toWhat + TagOf(a, x).originalName[|t.originalName|..]
  {
    var plan := RenamePlan(a, item, toWhat);
    var t := TagOf(a, item);
    ApplyRenamesResult(ClearParent(a, item), plan);
    if t.isEditable {
      assert plan[0] == Rename(a.nodes[item].tag, t.originalName, toWhat);
    }
    forall x | x in AllChildren(a, item) && TagOf(a, x).isEditable && StartsWith(TagOf(a, x).originalName, t.originalName)
      ensures ApplyRenames(ClearParent(a, item), plan)[a.nodes[x].tag].name == toWhat + TagOf(a, x).originalName[|t.originalName|..]
    {
      var k := RenamePlanHas(a, item, toWhat, x);
    }
  }

  /** Where in the plan a matching descendant is renamed. */
  lemma RenamePlanHas(a: Arena, item: nat, toWhat: string, x: nat) returns (k: nat)
    requires WellFormed(a) && 0 < item < |a.nodes|
    requires x in AllChildren(a, item) && TagOf(a, x).isEditable && StartsWith(TagOf(a, x).originalName, TagOf(a, item).originalName)
    ensures var plan := RenamePlan(a, item, toWhat); var search := TagOf(a, item).originalName;
      k < |plan| && plan[k] == Rename(a.nodes[x].tag, TagOf(a, x).originalName, toWhat + TagOf(a, x).originalName[|search|..])
  {
    var t := TagOf(a, item);
    var children := AllChildren(a, item);
    var i :| 0 <= i < |children| && children[i] == x;
    ChildRenamesHas(a, children, t.originalName, toWhat, i);
    var rx := Rename(a.nodes[x].tag, TagOf(a, x).originalName, toWhat + TagOf(a, x).originalName[|t.originalName|..]);
    var cr := ChildRenames(a, children, t.originalName, toWhat);
    var j :| 0 <= j < |cr| && cr[j] == rx;
    var own: seq<Rename> := if t.isEditable then [Rename(a.nodes[item].tag, t.originalName, toWhat)] else [];
    assert RenamePlan(a, item, toWhat) == own + cr;
    k := |own| + j;
  }

  /** add_renamed_item_to_user_categories only ever appends, so a user
      category that held a renamed item's original name also holds its new
      name once rename_item is done. */
  lemma CatsAfterHolds(cats: UserCategories.Cats, key: string, plan: seq<Rename>, k: nat, c: string)
    requires c in cats && k < |plan| && UserCategories.Holds(cats[c], plan[k].originalName, key)
    ensures UserCategories.Holds(CatsAfter(cats, key, plan)[c], plan[k].newName, key)
  {
    var x := plan[k];
    var p1 := plan[..k + 1];
    assert p1[..k] == plan[..k] && p1[k] == x;
    CatsAfterPrefix(cats, key, plan[..k], 0, c);
    assert plan[..k][..0] == [];
    var m := CatsAfter(cats, key, plan[..k]);
    var j :| 0 <= j < |cats[c]| && UserCategories.Is(cats[c][j], x.originalName, key);
    assert m[c][j] == cats[c][j];
    assert UserCategories.Holds(m[c], x.originalName, key);
    var m1 := CatsAfter(cats, key, p1);
    assert m1[c] == UserCategories.WithRenamed(m[c], key, x.originalName, x.newName);
    var i :| 0 <= i < |m1[c]| && UserCategories.Is(m1[c][i], x.newName, key);
    CatsAfterPrefix(cats, key, plan, k + 1, c);
    var r := CatsAfter(cats, key, plan);
    assert r[c][i] == r[c][..|m1[c]|][i];
  }

  /** The user categories after a prefix of the renames are a prefix, list by list, of those after all of them. */
  lemma {:induction false} CatsAfterPrefix(cats: UserCategories.Cats, key: string, plan: seq<Rename>, n: nat, c: string)
    requires c in cats && n <= |plan|
    ensures var m := CatsAfter(cats, key, plan[..n]); var r := CatsAfter(cats, key, plan);
      |m[c]| <= |r[c]| && r[c][..|m[c]|] == m[c]
  {
    if n == |plan| {
      assert plan[..n] == plan;
    } else {
      var init := plan[..|plan| - 1];
      assert plan[..n] == init[..n];
      CatsAfterPrefix(cats, key, init, n, c);
      var m := CatsAfter(cats, key, plan[..n]);
      var mid := CatsAfter(cats, key, init);
      var r := CatsAfter(cats, key, plan);
      assert r[c] == UserCategories.WithRenamed(mid[c], key, plan[|plan| - 1].originalName, plan[|plan| - 1].newName);
      assert r[c][..|m[c]|] == r[c][..|mid[c]|][..|m[c]|];
    }
  }

  // -----------------------------------------------------------------------
  // The category pass of _rebuild_node_tree

  /** The path of user-category segment `i`: the segments up to it joined by '.'. */
  function PathAt(parts: seq<string>, i: nat): string
    requires i < |parts|
  {
    if i == 0 then parts[0] else PathAt(parts, i - 1) + "." + parts[i]
  }

  /** The position of the last '.' of `s`. */
  function LastDot(s: string): (r: Option<nat>)
    ensures r.Some? ==> r.value < |s| && s[r.value] == '.' && '.' !in s[r.value + 1..]
    ensures r.None? <==> '.' !in s
  {
    if |s| == 0 then None
    else if s[|s| - 1] == '.' then Some(|s| - 1)
    else
      var r := LastDot(s[..|s| - 1]);
      assert s == s[..|s| - 1] + [s[|s| - 1]];
      if r.Some? then assert s[r.value + 1..] == s[..|s| - 1][r.value + 1..] + [s[|s| - 1]]; r else r
  }

  /** The user category a dotted user-category path sits in, if any. */
  function Up(path: string): (r: Option<string>)
    ensures r.Some? ==> StartsWith(r.value, "@") && |r.value| < |path|
  {
    if StartsWith(path, "@") && LastDot(path).Some? then Some(path[..LastDot(path).value]) else None
  }

  lemma {:induction false} LastDotAppend(t: string, u: string)
    requires '.' !in u
    ensures LastDot(t + "." + u) == Some(|t|)
    decreases |u|
  {
    var s := t + "." + u;
    if |u| == 0 {
      assert s[|s| - 1] == '.';
    } else {
      assert s[|s| - 1] == u[|u| - 1];
      assert '.' !in u[..|u| - 1] by {
        forall c | c in u[..|u| - 1] ensures c in u { }
      }
      LastDotAppend(t, u[..|u| - 1]);
      assert s[..|s| - 1] == t + "." + u[..|u| - 1];
    }
  }

  /** The segments of a user-category key: the first starts with '@' and none contains '.'. */
  ghost predicate UserParts(parts: seq<string>) {
    && |parts| >= 1 && StartsWith(parts[0], "@")
    && forall k :: 0 <= k < |parts| ==> '.' !in parts[k]
  }

  lemma UserKeyParts(key: string)
    requires StartsWith(key, "@")
    ensures UserParts(Split(key, '.'))
  {
    var parts := Split(key, '.');
    JoinSplit(key, '.');
    if |parts| > 1 {
      assert Join(parts, '.') == parts[0] + ['.'] + Join(parts[1..], '.');
    }
    assert key[..|parts[0]|] == parts[0];
  }

  /** Each segment's path sits in the path of the segment before it. */
  lemma PathAtUp(parts: seq<string>, i: nat)
    requires UserParts(parts) && i < |parts|
    ensures StartsWith(PathAt(parts, i), "@") && |PathAt(parts, i)| >= |parts[0]|
    ensures Up(PathAt(parts, i)) == if i == 0 then None else Some(PathAt(parts, i - 1))
  {
    if i == 0 {
    } else {
      PathAtUp(parts, i - 1);
      LastDotAppend(PathAt(parts, i - 1), parts[i]);
      var s := PathAt(parts, i);
      assert s[..|PathAt(parts, i - 1)|] == PathAt(parts, i - 1);
      assert s[..1] == PathAt(parts, i - 1)[..1];
    }
  }

  /** category_node_map: every path names a category node with that key,
      placed under the root when it has no enclosing user category and
      under the enclosing user category's node otherwise. */
  ghost predicate MapOk(ns: seq<Node>, cmap: map<string, nat>) {
    forall path {:trigger EntryOk(ns, cmap, path)} :: path in cmap ==> EntryOk(ns, cmap, path)
  }

  /** The entry of category_node_map for `path`. */
  ghost predicate EntryOk(ns: seq<Node>, cmap: map<string, nat>, path: string)
    requires path in cmap
  {
    && 0 < cmap[path] < |ns| && ns[cmap[path]].kind.Category? && ns[cmap[path]].kind.key == path
    && match Up(path)
       case None => ns[cmap[path]].parent == Some(0)
       case Some(q) => q in cmap && ns[cmap[path]].parent == Some(cmap[q])
  }

  /** Every user-category node made since `from` is the one node of its path. */
  ghost predicate Fresh(ns: seq<Node>, from: nat, cmap: map<string, nat>) {
    forall j :: from <= j < |ns| && ns[j].kind.Category? && StartsWith(ns[j].kind.key, "@") ==>
      ns[j].kind.key in cmap && cmap[ns[j].kind.key] == j
  }

  function Range(lo: nat, hi: nat): (r: seq<nat>)
    ensures |r| == if lo <= hi then hi - lo else 0
    ensures forall k :: 0 <= k < |r| ==> r[k] == lo + k
    decreases hi - lo
  {
    if lo >= hi then [] else Range(lo, hi - 1) + [hi - 1]
  }

  /** The text `path` holds before segment `i` is added. */
  function PathBefore(parts: seq<string>, i: nat): string
    requires i <= |parts|
  {
    if i == 0 then "" else PathAt(parts, i - 1) + "."
  }

  lemma PathBeforeNext(parts: seq<string>, i: nat)
    requires i < |parts|
    ensures PathBefore(parts, i) + parts[i] == PathAt(parts, i)
    ensures PathAt(parts, i) + "." == PathBefore(parts, i + 1)
  {
  }

  /** The path of the last segment of a key is the key. */
  lemma KeyPath(key: string)
    requires StartsWith(key, "@")
    ensures UserParts(Split(key, '.')) && PathAt(Split(key, '.'), |Split(key, '.')| - 1) == key
  {
    var parts := Split(key, '.');
    UserKeyParts(key);
    JoinPathAt(parts, |parts| - 1);
    JoinSplit(key, '.');
    assert parts[..|parts|] == parts;
  }

  /** The last segment's path is the whole key. */
  lemma {:induction false} JoinPathAt(parts: seq<string>, i: nat)
    requires i < |parts|
    ensures PathAt(parts, i) == Join(parts[..i + 1], '.')
  {
    if i > 0 {
      JoinPathAt(parts, i - 1);
      JoinSnoc(parts[..i], parts[i]);
      assert parts[..i + 1] == parts[..i] + [parts[i]];
    }
  }

  lemma {:induction false} JoinSnoc(xs: seq<string>, y: string)
    requires |xs| >= 1
    ensures Join(xs + [y], '.') == Join(xs, '.') + "." + y
    decreases |xs|
  {
    if |xs| > 1 {
      JoinSnoc(xs[1..], y);
      assert (xs + [y])[1..] == xs[1..] + [y];
    }
  }

  lemma MapOkExtends(before: seq<Node>, after: seq<Node>, cmap: map<string, nat>)
    requires MapOk(before, cmap) && Extends(before, after)
    ensures MapOk(after, cmap)
  {
    forall path | path in cmap ensures EntryOk(after, cmap, path) {
      assert EntryOk(before, cmap, path);
    }
  }

  /** Recording a new category node under `key` keeps category_node_map
      right, when the key is new or is not a user category (whose entry
      no other path leans on). */
  lemma MapOkStep(before: seq<Node>, after: seq<Node>, cmap: map<string, nat>, key: string, parent: nat)
    requires MapOk(before, cmap) && 0 < |before| && (key !in cmap || !StartsWith(key, "@"))
    requires Extends(before, after) && |after| == |before| + 1
    requires after[|before|].kind.Category? && after[|before|].kind.key == key && after[|before|].parent == Some(parent)
    requires match Up(key) case None => parent == 0 case Some(q) => q in cmap && cmap[q] == parent
    ensures MapOk(after, cmap[key := |before|])
  {
    var m := cmap[key := |before|];
    forall x | x in m ensures EntryOk(after, m, x) {
      if x != key {
        assert x in cmap && m[x] == cmap[x] && EntryOk(before, cmap, x);
        match Up(x)
        case None =>
        case Some(q) => assert q in cmap && q != key;
      }
    }
  }

  /** The same step keeps every user-category node made since `from` recorded. */
  lemma FreshStep(before: seq<Node>, after: seq<Node>, cmap: map<string, nat>, from: nat, key: string)
    requires Fresh(before, from, cmap) && from <= |before| && (key !in cmap || !StartsWith(key, "@"))
    requires Extends(before, after) && |after| == |before| + 1
    requires after[|before|].kind.Category? && after[|before|].kind.key == key
    ensures Fresh(after, from, cmap[key := |before|])
  {
    var m := cmap[key := |before|];
    forall j | from <= j < |after| && after[j].kind.Category? && StartsWith(after[j].kind.key, "@")
      ensures after[j].kind.key in m && m[after[j].kind.key] == j
    {
      if j < |before| {
        assert before[j].kind == after[j].kind;
        assert after[j].kind.key in cmap && cmap[after[j].kind.key] == j;
      }
    }
  }

  /** The state the category pass keeps: category_node_map is right,
      and category_nodes lists, after `c0`, every node made since `from`. */
  ghost predicate PassOk(ns: seq<Node>, cns: seq<nat>, from: nat, c0: seq<nat>, cmap: map<string, nat>) {
    MapOk(ns, cmap) && from <= |ns| && Fresh(ns, from, cmap) && cns == c0 + Range(from, |ns|)
  }

  /** A new node recorded in category_node_map under `key`, and listed in category_nodes. */
  lemma PassStep(before: seq<Node>, after: seq<Node>, cns: seq<nat>, from: nat, c0: seq<nat>, cmap: map<string, nat>, key: string, parent: nat)
    requires PassOk(before, cns, from, c0, cmap) && 0 < |before|
    requires Extends(before, after) && |after| == |before| + 1
    requires after[|before|].kind.Category? && after[|before|].kind.key == key && after[|before|].parent == Some(parent)
    requires StartsWith(key, "@") ==> key !in cmap && match Up(key) case None => parent == 0 case Some(q) => q in cmap && cmap[q] == parent
    requires !StartsWith(key, "@") ==> parent == 0
    ensures PassOk(after, cns + [|before|], from, c0, cmap[key := |before|])
  {
    MapOkStep(before, after, cmap, key, parent);
    FreshStep(before, after, cmap, from, key);
    RangeSnoc(c0, from, |before|);
  }

  /** category_nodes after one more node. */
  lemma RangeSnoc(c0: seq<nat>, lo: nat, hi: nat)
    requires lo <= hi
    ensures (c0 + Range(lo, hi)) + [hi] == c0 + Range(lo, hi + 1)
  {
    assert Range(lo, hi) + [hi] == Range(lo, hi + 1);
  }

  class TagsModel {
    var nodes: seq<Node>
    var tags: seq<Tag>
    /** category_nodes: every category node made by the category pass. */
    var categoryNodes: seq<nat>
    /** intermediate_nodes of one build: (original name, category) to tag. */
    var intermediate: map<(string, string), nat>
    var buildInProgress: bool

    function Snapshot(): Arena
      reads this`nodes, this`tags
    {
      Arena(nodes, tags)
    }

    ghost predicate Valid()
      reads this`nodes, this`tags, this`categoryNodes, this`intermediate
    {
      && WellFormed(Snapshot())
      && (forall k :: 0 <= k < |categoryNodes| ==> 0 < categoryNodes[k] < |nodes| && nodes[categoryNodes[k]].kind.Category?)
      && (forall x :: x in intermediate ==> intermediate[x] < |tags|)
    }

    /** No item count has been cached yet (the state while building). */
    ghost predicate NoCounts()
      reads this`nodes
    {
      forall i :: 0 <= i < |nodes| ==> nodes[i].cachedCount == None
    }

    /** Every cached item count is the count the subtree gives now. */
    ghost predicate CountsFresh()
      reads this`nodes, this`tags
      requires WellFormed(Snapshot())
    {
      CountsFreshIn(Snapshot())
    }

    ghost predicate Ready()
      reads this`nodes, this`tags, this`categoryNodes, this`intermediate
    {
      Valid() && NoCounts() && RatingsReady(Snapshot())
    }

    /** A model with only the root node (`_run_rebuild`'s fresh root). */
    constructor ()
      ensures Ready() && |nodes| == 1 && tags == [] && categoryNodes == [] && intermediate == map[]
      ensures !buildInProgress
    {
      nodes := [Node(Root, 0, None, [], None, None, false)];
      tags := [];
      categoryNodes := [];
      intermediate := map[];
      buildInProgress := false;
    }

    /** A new Tag object. */
    method NewTag(t: Tag) returns (ti: nat)
      requires Ready()
      modifies this`tags
      ensures Ready() && ti == old(|tags|) && tags == old(tags) + [t]
    {
      MoreTagsWellFormed(Snapshot(), tags + [t]);
      tags := tags + [t];
      ti := |tags| - 1;
    }

    /** `create_node(parent=...)`: a new node appended to its parent's
        children (TagTreeItem.__init__ and append). */
    method CreateNode(parent: nat, kind: Kind, tag: nat) returns (n: nat)
      requires Valid() && parent < |nodes| && kind != Root && tag < |tags|
      modifies this`nodes
      ensures Valid() && n == old(|nodes|) && n > parent
      ensures nodes == old(nodes)[parent := old(nodes)[parent].(children := old(nodes)[parent].children + [n])]
                       + [Node(kind, tag, Some(parent), [], None, None, false)]
      ensures Extends(old(nodes), nodes)
      ensures old(NoCounts()) ==> NoCounts()
      ensures old(RatingsReady(Snapshot())) && (old(nodes)[parent].kind == Value ==> old(nodes)[parent].cachedRating.Some?)
              ==> RatingsReady(Snapshot())
    {
      n := |nodes|;
      WithChildProps(Snapshot(), parent, kind, tag);
      nodes := WithChild(Snapshot(), parent, kind, tag).nodes;
    }

    /** TagTreeItem.toggle: `set_to` is stored as it is; with no `set_to`
        the state advances along `graph` until it reaches one the node may
        hold. The loop must stop, which five steps from any state decide. */
    method Toggle(i: nat, setTo: Option<TagState>, graph: map<TagState, TagState>)
      requires Valid() && 0 < i < |nodes|
      requires setTo == None ==>
        var t := tags[nodes[i].tag];
        TotalGraph(graph) && Advance(graph, t.state, t.isSearchable, nodes[i].children != [], t.isHierarchical, 5).Some?
      modifies this`tags
      ensures Valid()
      ensures var ti := nodes[i].tag; var t := old(tags[ti]);
        tags == old(tags)[ti := t.(state := if setTo.Some? then setTo.value
          else Advance(graph, t.state, t.isSearchable, nodes[i].children != [], t.isHierarchical, 5).value)]
    {
      var ti := nodes[i].tag;
      if setTo.Some? {
        MoreTagsWellFormed(Snapshot(), tags[ti := tags[ti].(state := setTo.value)]);
        tags := tags[ti := tags[ti].(state := setTo.value)];
        return;
      }
      ghost var t0 := tags[ti];
      var hasChildren := nodes[i].children != [];
      ghost var result := Advance(graph, t0.state, t0.isSearchable, hasChildren, t0.isHierarchical, 5);
      ghost var fuel: nat := 5;
      var stop := false;
      while !stop
        invariant ti < |tags| == |old(tags)| && tags == old(tags)[ti := tags[ti]] && Valid()
        invariant tags[ti] == t0.(state := tags[ti].state)
        invariant !stop ==> Advance(graph, tags[ti].state, t0.isSearchable, hasChildren, t0.isHierarchical, fuel) == result
        invariant stop ==> Some(tags[ti].state) == result
        decreases if stop then 0 else 1, fuel
      {
        var t := tags[ti];
        var next := graph[t.state];
        MoreTagsWellFormed(Snapshot(), tags[ti := t.(state := next)]);
        tags := tags[ti := t.(state := next)];
        if MayHold(next, t.isSearchable, hasChildren, t.isHierarchical) {
          stop := true;
        } else {
          fuel := fuel - 1;
        }
      }
    }

    /** TagTreeItem.item_count: `tag.count` for a flat or childless node,
        otherwise the size of the union of id sets over the subtree, cached
        on the node after the first read. */
    method ItemCount(i: nat) returns (r: nat)
      requires Valid() && CountsFresh() && 0 < i < |nodes| && nodes[i].kind == Value
      modifies this`nodes
      ensures Valid() && CountsFresh()
      ensures r == old(ItemCountSpec(Snapshot(), i))
      ensures SameShape(old(Snapshot()), Snapshot())
      ensures nodes == old(nodes) || nodes == old(nodes)[i := old(nodes)[i].(cachedCount := Some(r))]
    {
      var t := tags[nodes[i].tag];
      if t.isHierarchical == NotHierarchical || nodes[i].children == [] {
        return t.count;
      }
      if nodes[i].cachedCount.Some? {
        return nodes[i].cachedCount.value;
      }
      r := |SubtreeIds(Snapshot(), i)|;
      CacheKeepsFresh(Snapshot(), i);
      nodes := nodes[i := nodes[i].(cachedCount := Some(r))];
    }

    /** Writes one Tag object's attributes. */
    method SetTag(j: nat, t: Tag)
      requires Ready() && j < |tags|
      modifies this`tags
      ensures Ready() && tags == old(tags)[j := t]
    {
      MoreTagsWellFormed(Snapshot(), tags[j := t]);
      tags := tags[j := t];
    }

    /** `node.cached_average_rating = ...`. */
    method SetRating(i: nat, rating: real)
      requires Ready() && i < |nodes|
      modifies this`nodes
      ensures Ready() && Extends(old(nodes), nodes) && |nodes| == |old(nodes)|
      ensures nodes == old(nodes)[i := old(nodes)[i].(cachedRating := Some(rating))]
      ensures forall j :: 0 <= j < |nodes| ==> nodes[j].children == old(nodes[j].children)
    {
      ghost var a := Snapshot();
      nodes := nodes[i := nodes[i].(cachedRating := Some(rating))];
      SameShapeWellFormed(a, Snapshot());
    }

    /** `intermediate_nodes[k] = t`. */
    method Remember(k: (string, string), t: nat)
      requires Ready() && t < |tags|
      modifies this`intermediate
      ensures Ready() && intermediate == old(intermediate)[k := t]
    {
      intermediate := intermediate[k := t];
    }

    /** A level of a hierarchical value that already has a node: the node's
        tag becomes hierarchical, gains the value's books and is recorded as
        the intermediate tag of its name. */
    method ReuseLevel(ti: nat, np: nat, childKey: string)
      requires Ready() && ti < |tags| && 0 < np < |nodes| && nodes[np].kind == Value
      modifies this`tags, this`intermediate
      ensures Ready() && NamesKept(old(tags), tags, {}) && IdsGrow(old(tags), tags)
      ensures var t := nodes[np].tag; var tt := old(tags[t]);
        && tags == old(tags)[t := tt.(isHierarchical := if old(tags[ti]).category != "search" then FiveState else ThreeState,
                                      idSet := tt.idSet + old(tags[ti].idSet))]
        && intermediate == old(intermediate)[(tt.originalName, childKey) := t]
    {
      var t := nodes[np].tag;
      var cur := tags[ti];
      var tt := tags[t];
      SetTag(t, tt.(isHierarchical := if cur.category != "search" then FiveState else ThreeState,
                    idSet := tt.idSet + cur.idSet));
      Remember((tt.originalName, childKey), t);
    }

    /** The tag of a level of a hierarchical value that has no node yet:
        the last level uses the value's own tag; an upper level reuses the
        intermediate tag of its dotted prefix or a fresh copy of the value's
        tag with no count that cannot be edited. The tag is renamed to the
        level's component and marked hierarchical. */
    method LevelTag(ti: nat, comp: string, childKey: string, key: string, inUc: bool,
                    isLast: bool, originalName: string) returns (t: nat)
      requires Ready() && ti < |tags|
      modifies this`tags, this`intermediate
      ensures Ready() && NamesKept(old(tags), tags, {ti}) && IdsGrow(old(tags), tags) && t < |tags|
      ensures tags[t].name == comp && tags[t].isHierarchical != NotHierarchical
      ensures isLast ==>
        var o := old(tags[ti]); var named := if inUc then o else o.(originalName := o.name);
        && t == ti && tags == old(tags)[ti := MarkLevel(named, comp)]
        && intermediate == old(intermediate)[(named.originalName, childKey) := ti]
      ensures !isLast && (originalName, childKey) in old(intermediate) ==>
        && t == old(intermediate)[(originalName, childKey)]
        && tags == old(tags)[t := MarkLevel(old(tags)[t], comp)] && intermediate == old(intermediate)
      ensures !isLast && (originalName, childKey) !in old(intermediate) ==>
        && t == old(|tags|) && tags == old(tags) + [MarkLevel(IntermediateCopy(old(tags[ti]), originalName, key), comp)]
        && intermediate == old(intermediate)[(originalName, childKey) := t]
    {
      var tt: Tag;
      if !isLast {
        if (originalName, childKey) in intermediate {
          t := intermediate[(originalName, childKey)];
          tt := tags[t];
        } else {
          tt := IntermediateCopy(tags[ti], originalName, key);
          t := NewTag(tt);
          Remember((originalName, childKey), t);
        }
      } else {
        t := ti;
        tt := tags[ti];
        if !inUc {
          tt := tt.(originalName := tt.name);
        }
        Remember((tt.originalName, childKey), t);
      }
      SetTag(t, MarkLevel(tt, comp));
    }

    /** The node of one level of a hierarchical value below node `np`: the
        entry of `childMap` with the level's name is reused, or a new child
        of `np` is made. */
    method LevelChild(ti: nat, np: nat, comp: string, isLast: bool, prefixName: string,
                      childKey: string, key: string, inUc: bool, childMap: map<(string, string), nat>)
      returns (np': nat)
      requires Ready() && ti < |tags| && 0 < np < |nodes| && (nodes[np].kind == Value ==> nodes[np].cachedRating.Some?)
      requires forall x :: x in childMap ==> 0 < childMap[x] < |nodes| && nodes[childMap[x]].kind == Value
      modifies this`nodes, this`tags, this`intermediate
      ensures Ready() && Extends(old(nodes), nodes) && NamesKept(old(tags), tags, {ti}) && IdsGrow(old(tags), tags)
      ensures 0 < np' < |nodes| && nodes[np'].kind == Value
      ensures (comp, childKey) in childMap ==>
        && np' == childMap[(comp, childKey)] && nodes == old(nodes)
        && tags[nodes[np'].tag].name == old(tags[nodes[np'].tag].name)
        && old(tags[ti].idSet) <= tags[nodes[np'].tag].idSet
      ensures (comp, childKey) !in childMap ==>
        && np' == old(|nodes|) && nodes[np'].parent == Some(np) && np' in nodes[np].children
        && tags[nodes[np'].tag].name == comp
        && (isLast ==> nodes[np'].tag == ti && tags[ti].idSet == old(tags[ti].idSet))
        && |nodes| == old(|nodes|) + 1
    {
      if (comp, childKey) in childMap {
        np' := childMap[(comp, childKey)];
        ReuseLevel(ti, np', childKey);
      } else {
        var t := LevelTag(ti, comp, childKey, key, inUc, isLast, prefixName);
        np' := CreateNode(np, Value, t);
      }
    }

    /** A level below the top: the child of `np` with the level's name is
        reused, or a new child of `np` is made. */
    method LowerLevel(ti: nat, np: nat, comp: string, isLast: bool, prefixName: string,
                      childKey: string, key: string, isGst: bool, inUc: bool)
      returns (np': nat)
      requires Ready() && ti < |tags| && 0 < np < |nodes| && (nodes[np].kind == Value ==> nodes[np].cachedRating.Some?)
      modifies this`nodes, this`tags, this`intermediate
      ensures Ready() && Extends(old(nodes), nodes) && NamesKept(old(tags), tags, {ti}) && IdsGrow(old(tags), tags)
      ensures 0 < np' < |nodes| && nodes[np'].kind == Value
      ensures nodes[np'].parent == Some(np) && np' in nodes[np].children && tags[nodes[np'].tag].name == comp
      ensures isLast ==> old(tags[ti].idSet) <= tags[nodes[np'].tag].idSet
      ensures np' >= old(|nodes|) ==> np' == old(|nodes|) && (isLast ==> nodes[np'].tag == ti)
      ensures |nodes| == if np' >= old(|nodes|) then old(|nodes|) + 1 else old(|nodes|)
    {
      ChildrenBelow(Snapshot(), np);
      var childMap := ChildMapOf(Snapshot(), nodes[np].children, key, isGst);
      np' := LevelChild(ti, np, comp, isLast, prefixName, childKey, key, inUc, childMap);
      if (comp, childKey) in childMap {
        assert ChildrenOk(Snapshot(), np);
        ghost var k :| 0 <= k < |nodes[np].children| && nodes[np].children[k] == np';
      }
    }

    /** One level of a hierarchical value below node `np`: the child with
        the level's name (looked up in `category_child_map` at the top level)
        is reused, or a new one is made; either way its average rating is
        computed. */
    method HierLevel(ti: nat, np: nat, comp: string, isFirst: bool, isLast: bool, prefixName: string,
                     childKey: string, key: string, isGst: bool, inUc: bool,
                     catMap: map<(string, string), nat>, ratingOf: set<nat> -> real)
      returns (np': nat, catMap': map<(string, string), nat>)
      requires Ready() && ti < |tags| && ValueMap(nodes, catMap)
      requires 0 < np < |nodes| && (nodes[np].kind == Value ==> nodes[np].cachedRating.Some?)
      modifies this`nodes, this`tags, this`intermediate
      ensures Ready() && ValueMap(nodes, catMap')
      ensures Extends(old(nodes), nodes) && NamesKept(old(tags), tags, {ti}) && IdsGrow(old(tags), tags)
      ensures 0 < np' < |nodes| && nodes[np'].kind == Value && nodes[np'].cachedRating.Some?
      ensures catMap' == if isFirst then catMap[(comp, childKey) := np'] else catMap
      ensures isFirst && (comp, childKey) in catMap ==> np' == catMap[(comp, childKey)]
      ensures isFirst && (comp, childKey) !in catMap ==> np' == old(|nodes|) && nodes[np'].parent == Some(np)
      ensures !isFirst ==> nodes[np'].parent == Some(np) && np' in nodes[np].children
      ensures !isFirst || (comp, childKey) !in catMap ==> tags[nodes[np'].tag].name == comp
      ensures isLast ==> old(tags[ti].idSet) <= tags[nodes[np'].tag].idSet
      ensures np' >= old(|nodes|) ==> np' == old(|nodes|) && (isLast ==> nodes[np'].tag == ti)
      ensures |nodes| == if np' >= old(|nodes|) then old(|nodes|) + 1 else old(|nodes|)
    {
      ghost var nodes0 := nodes;
      if isFirst {
        np' := LevelChild(ti, np, comp, isLast, prefixName, childKey, key, inUc, catMap);
        catMap' := catMap[(comp, childKey) := np'];
      } else {
        np' := LowerLevel(ti, np, comp, isLast, prefixName, childKey, key, isGst, inUc);
        catMap' := catMap;
      }
      ValueMapExtends(nodes0, nodes, catMap);
      ghost var nodes1 := nodes;
      ghost var before := np' in nodes[np].children && nodes[np'].parent == Some(np);
      SetRating(np', ratingOf(tags[nodes[np'].tag].idSet));
      assert before ==> np' in nodes[np].children && nodes[np'].parent == Some(np);
      ValueMapExtends(nodes1, nodes, catMap');
    }

    /** The per-value preparation of process_one_node: the rating is
        cleared for categories that show none, and the state is restored
        from `state_map` (clear when absent). */
    method PrepareValue(ti: nat, clearRating: bool, stateMap: map<(string, string), TagState>)
      requires Ready() && ti < |tags|
      modifies this`tags
      ensures Ready() && nodes == old(nodes) && NamesKept(old(tags), tags, {}) && IdsGrow(old(tags), tags) && |tags| == old(|tags|)
      ensures var t := old(tags[ti]);
        && tags[ti].state == (if (t.name, t.category) in stateMap then stateMap[(t.name, t.category)] else Clear)
        && tags[ti].avgRating == (if clearRating then None else t.avgRating)
    {
      var t := tags[ti];
      if clearRating {
        t := t.(avgRating := None);
      }
      t := t.(state := if (t.name, t.category) in stateMap then stateMap[(t.name, t.category)] else Clear);
      SetTag(ti, t);
    }

    /** The first and last values handed to the collapse template: in a
        hierarchical category, copies named by their first name component;
        otherwise the values themselves, whose missing sort is set to their
        name. */
    method FormatterInputs(a: nat, b: nat, catHier: bool) returns (f: Tag, l: Tag)
      requires Ready() && a < |tags| && b < |tags|
      modifies this`tags
      ensures Ready() && nodes == old(nodes) && NamesKept(old(tags), tags, {}) && IdsGrow(old(tags), tags) && |tags| == old(|tags|)
      ensures f.originalName == old(tags[a].originalName) && l.originalName == old(tags[b].originalName)
      ensures f.sort.Some? && l.sort.Some?
      ensures catHier ==> f.name == NameComponents.GetNameComponents(f.originalName)[0] && f.sort == Some(f.name)
      ensures catHier ==> l.name == NameComponents.GetNameComponents(l.originalName)[0] && l.sort == Some(l.name)
      ensures !catHier ==> f == tags[a] && l == tags[b]
    {
      if catHier {
        var ct := tags[b];
        var h := NameComponents.GetNameComponents(ct.originalName)[0];
        l := ct.(sort := Some(h), name := h);
        var ct2 := tags[a];
        var h2 := NameComponents.GetNameComponents(ct2.originalName)[0];
        f := ct2.(sort := Some(h2), name := h2);
      } else {
        if tags[a].sort == None {
          SetTag(a, tags[a].(sort := Some(tags[a].name)));
        }
        if tags[b].sort == None {
          SetTag(b, tags[b].(sort := Some(tags[b].name)));
        }
        f := tags[a];
        l := tags[b];
      }
    }

    /** The bucket a partition break opens at value `idx`: a temporary,
        non-searchable category under `c` named by the collapse template
        applied to the first and last values of the bucket (the bucket
        holds at most `collapse` values), or `c` itself when the template
        fails. */
    method PartitionBucket(c: nat, vals: seq<nat>, idx: nat, key: string, isGst: bool, catHier: bool, cfg: BuildConfig)
      returns (np: nat, ghost first: Tag, ghost last: Tag, ghost lastIdx: nat)
      requires Ready() && 0 < c < |nodes| && nodes[c].kind.Category?
      requires idx < |vals| && cfg.collapse >= 1 && forall k :: 0 <= k < |vals| ==> vals[k] < |tags|
      modifies this`nodes, this`tags
      ensures Ready() && Extends(old(nodes), nodes) && NamesKept(old(tags), tags, {}) && IdsGrow(old(tags), tags) && |tags| >= old(|tags|)
      ensures idx <= lastIdx < |vals| && lastIdx < idx + cfg.collapse && (lastIdx == |vals| - 1 || lastIdx == idx + cfg.collapse - 1)
      ensures first.originalName == old(tags[vals[idx]].originalName) && last.originalName == old(tags[vals[lastIdx]].originalName)
      ensures first.sort.Some? && last.sort.Some?
      ensures BucketIn(nodes, np, c, key, isGst)
      ensures np == c <==> StartsWith(cfg.fmt(first, last), FormatterFailure)
      ensures np != c ==> np == old(|nodes|) && tags[nodes[np].tag] == CategoryTag(cfg.fmt(first, last), key).(isSearchable := false)
    {
      var catLen := |vals|;
      var li := if catLen > idx + cfg.collapse then idx + cfg.collapse - 1 else catLen - 1;
      lastIdx := li;
      var f, l := FormatterInputs(vals[idx], vals[li], catHier);
      first, last := f, l;
      var name := cfg.fmt(f, l);
      if StartsWith(name, FormatterFailure) {
        np := c;
      } else {
        var bt := NewTag(CategoryTag(name, key).(isSearchable := false));
        np := CreateNode(c, Category(key, true, isGst), bt);
      }
    }

    /** The bucket for a new first letter: a temporary category under `c`
        named by the letter. */
    method LetterBucket(c: nat, key: string, isGst: bool, letter: string) returns (np: nat)
      requires Ready() && 0 < c < |nodes| && nodes[c].kind.Category?
      modifies this`nodes, this`tags
      ensures Ready() && Extends(old(nodes), nodes) && NamesKept(old(tags), tags, {}) && IdsGrow(old(tags), tags)
      ensures np == old(|nodes|) && BucketIn(nodes, np, c, key, isGst) && np != c
      ensures tags[nodes[np].tag] == CategoryTag(letter, key)
    {
      var bt := NewTag(CategoryTag(letter, key));
      np := CreateNode(c, Category(key, true, isGst), bt);
    }

    /** The value-placing part of process_one_node: a flat value becomes one
        node under `nodeParent`; a hierarchical one walks its name
        components, reusing a node with the same name at each level (and
        merging the value's books into its tag) or creating one with an
        intermediate tag shared through `intermediate_nodes`, and computes
        each level's average rating. Returns the new top-level component,
        the value's nodes from the top level down (`chain`) and the name
        each level's tag had once the level was placed (`names`). */
    method AttachValue(ti: nat, nodeParent: nat, key: string, isGst: bool, inUc: bool, isNames: bool,
                       catHier: bool, catMap: map<(string, string), nat>, top: string, ratingOf: set<nat> -> real,
                       ghost c: nat)
      returns (catMap': map<(string, string), nat>, top': string, ghost hierBranch: bool,
               ghost chain: seq<nat>, ghost names: seq<string>)
      requires Ready() && ti < |tags| && 0 < nodeParent < |nodes| && nodes[nodeParent].kind.Category?
      requires ValueMap(nodes, catMap) && CatMapIn(nodes, catMap, c, key, isGst) && BucketIn(nodes, nodeParent, c, key, isGst)
      modifies this`nodes, this`tags, this`intermediate
      ensures Ready() && ValueMap(nodes, catMap') && CatMapIn(nodes, catMap', c, key, isGst)
      ensures Extends(old(nodes), nodes) && NamesKept(old(tags), tags, {ti}) && IdsGrow(old(tags), tags)
      ensures hierBranch == HierBranch(old(tags[ti]), inUc, isNames, catHier)
      ensures top' == if hierBranch then NameComponents.GetNameComponents(old(tags[ti]).originalName)[0] else top
      ensures Chain(nodes, chain) && nodes[chain[0]].parent.Some? && BucketIn(nodes, nodes[chain[0]].parent.value, c, key, isGst)
      ensures !hierBranch ==>
        var o := old(tags[ti]);
        && chain == [old(|nodes|)] && nodes[chain[0]].tag == ti && nodes[chain[0]].parent == Some(nodeParent)
        && catMap' == catMap[(o.name, o.category) := chain[0]] && tags == old(tags)
      ensures hierBranch ==>
        var o := old(tags[ti]);
        var comps := NameComponents.GetNameComponents(o.originalName);
        var ck := if isGst then key else o.category;
        var last := |chain| - 1;
        && |chain| == |comps| == |names|
        && ((comps[0], ck) in catMap ==> chain[0] == catMap[(comps[0], ck)])
        && ((comps[0], ck) !in catMap ==> chain[0] == old(|nodes|) && nodes[chain[0]].parent == Some(nodeParent))
        && catMap' == catMap[(comps[0], ck) := chain[0]]
        && (forall i :: 0 <= i < |comps| && (i > 0 || (comps[0], ck) !in catMap) ==> names[i] == comps[i])
        && o.idSet <= tags[nodes[chain[last]].tag].idSet
        && (chain[last] >= old(|nodes|) ==> nodes[chain[last]].tag == ti && tags[ti].name == comps[last])
    {
      var tag := tags[ti];
      var components := if catHier || tag.isHierarchical != NotHierarchical
        then NameComponents.GetNameComponents(tag.originalName) else [tag.originalName];
      var hier := HierBranch(tag, inUc, isNames, catHier);
      hierBranch := hier;
      catMap' := catMap;
      top' := top;
      chain, names := [], [];
      if !hier {
        catMap', chain := AttachFlat(ti, nodeParent, key, isGst, catMap, c);
        return;
      }
      var childKey := if isGst then key else tag.category;
      top' := components[0];
      catMap', chain, names := WalkLevels(ti, nodeParent, components, childKey, key, isGst, inUc, catMap, ratingOf, c);
    }

    /** A value shown flat: one node of its own under `nodeParent`,
        recorded in `category_child_map` under its name and category. */
    method AttachFlat(ti: nat, nodeParent: nat, key: string, isGst: bool, catMap: map<(string, string), nat>, ghost c: nat)
      returns (catMap': map<(string, string), nat>, ghost chain: seq<nat>)
      requires Ready() && ti < |tags| && 0 < nodeParent < |nodes| && nodes[nodeParent].kind.Category?
      requires ValueMap(nodes, catMap) && CatMapIn(nodes, catMap, c, key, isGst) && BucketIn(nodes, nodeParent, c, key, isGst)
      modifies this`nodes
      ensures Ready() && ValueMap(nodes, catMap') && CatMapIn(nodes, catMap', c, key, isGst) && Extends(old(nodes), nodes)
      ensures Chain(nodes, chain) && chain == [old(|nodes|)] && nodes[chain[0]].tag == ti
      ensures nodes[chain[0]].parent == Some(nodeParent) && BucketIn(nodes, nodeParent, c, key, isGst)
      ensures catMap' == catMap[(tags[ti].name, tags[ti].category) := chain[0]]
    {
      var n := CreateNode(nodeParent, Value, ti);
      ValueMapExtends(old(nodes), nodes, catMap);
      CatMapExtends(old(nodes), nodes, catMap, c, key, isGst);
      catMap' := catMap[(tags[ti].name, tags[ti].category) := n];
      CatMapAdd(nodes, catMap, (tags[ti].name, tags[ti].category), n, c, key, isGst);
      chain := [n];
    }

    /** The loop over a hierarchical value's name components. */
    method WalkLevels(ti: nat, nodeParent: nat, components: seq<string>, childKey: string, key: string, isGst: bool,
                      inUc: bool, catMap: map<(string, string), nat>, ratingOf: set<nat> -> real, ghost c: nat)
      returns (catMap': map<(string, string), nat>, ghost chain: seq<nat>, ghost names: seq<string>)
      requires Ready() && ti < |tags| && 0 < nodeParent < |nodes| && nodes[nodeParent].kind.Category? && |components| > 0
      requires ValueMap(nodes, catMap) && CatMapIn(nodes, catMap, c, key, isGst) && BucketIn(nodes, nodeParent, c, key, isGst)
      modifies this`nodes, this`tags, this`intermediate
      ensures Ready() && ValueMap(nodes, catMap') && CatMapIn(nodes, catMap', c, key, isGst)
      ensures Extends(old(nodes), nodes) && NamesKept(old(tags), tags, {ti}) && IdsGrow(old(tags), tags)
      ensures |chain| == |components| && Walked(nodes, catMap, catMap', nodeParent, old(|nodes|), components, childKey, chain, names)
      ensures old(tags[ti].idSet) <= tags[nodes[chain[|chain| - 1]].tag].idSet
      ensures chain[|chain| - 1] >= old(|nodes|) ==>
        nodes[chain[|chain| - 1]].tag == ti && tags[ti].name == components[|components| - 1]
    {
      var np := nodeParent;
      var i := 0;
      catMap', chain, names := catMap, [], [];
      while i < |components|
        invariant 0 <= i <= |components| && |chain| == i
        invariant Ready() && ValueMap(nodes, catMap') && CatMapIn(nodes, catMap', c, key, isGst) && ti < |tags|
        invariant Extends(old(nodes), nodes) && NamesKept(old(tags), tags, {ti}) && IdsGrow(old(tags), tags)
        invariant 0 < np < |nodes| && (nodes[np].kind == Value ==> nodes[np].cachedRating.Some?)
        invariant i == 0 ==> np == nodeParent
        invariant i > 0 ==> np == chain[i - 1]
        invariant BucketIn(nodes, nodeParent, c, key, isGst)
        invariant Walked(nodes, catMap, catMap', nodeParent, old(|nodes|), components, childKey, chain, names)
        invariant i == |components| ==>
          && old(tags[ti].idSet) <= tags[nodes[chain[i - 1]].tag].idSet
          && (chain[i - 1] >= old(|nodes|) ==> nodes[chain[i - 1]].tag == ti && tags[ti].name == components[i - 1])
      {
        ghost var tags0 := tags;
        np, catMap', chain, names := WalkOne(ti, np, i, components, childKey, key, isGst, inUc, catMap, catMap', ratingOf,
                                             c, nodeParent, old(|nodes|), chain, names);
        NamesKeptTrans(old(tags), tags0, tags, {ti});
        IdsGrowTrans(old(tags), tags0, tags);
        i := i + 1;
      }
    }

    /** One turn of that loop: level `i` is placed below `np`. */
    method WalkOne(ti: nat, np: nat, i: nat, components: seq<string>, childKey: string, key: string, isGst: bool,
                   inUc: bool, catMap: map<(string, string), nat>, m: map<(string, string), nat>, ratingOf: set<nat> -> real,
                   ghost c: nat, ghost nodeParent: nat, ghost from: nat, ghost chain: seq<nat>, ghost names: seq<string>)
      returns (np': nat, m': map<(string, string), nat>, ghost chain': seq<nat>, ghost names': seq<string>)
      requires i == |chain| < |components|
      requires Ready() && ValueMap(nodes, m) && CatMapIn(nodes, m, c, key, isGst) && ti < |tags|
      requires 0 < np < |nodes| && (nodes[np].kind == Value ==> nodes[np].cachedRating.Some?)
      requires i == 0 ==> np == nodeParent
      requires i > 0 ==> np == chain[i - 1]
      requires BucketIn(nodes, nodeParent, c, key, isGst)
      requires Walked(nodes, catMap, m, nodeParent, from, components, childKey, chain, names)
      modifies this`nodes, this`tags, this`intermediate
      ensures Ready() && ValueMap(nodes, m') && CatMapIn(nodes, m', c, key, isGst)
      ensures Extends(old(nodes), nodes) && NamesKept(old(tags), tags, {ti}) && IdsGrow(old(tags), tags)
      ensures 0 < np' < |nodes| && nodes[np'].kind == Value && nodes[np'].cachedRating.Some?
      ensures chain' == chain + [np'] && BucketIn(nodes, nodeParent, c, key, isGst)
      ensures Walked(nodes, catMap, m', nodeParent, from, components, childKey, chain', names')
      ensures i == |components| - 1 ==>
        && old(tags[ti].idSet) <= tags[nodes[np'].tag].idSet
        && (np' >= from ==> nodes[np'].tag == ti && tags[ti].name == components[i])
    {
      var prefixName := if i < |components| - 1 then Join(components[..i + 1], '.') else "";
      ghost var a0 := Snapshot();
      np', m' := HierLevel(ti, np, components[i], i == 0, i == |components| - 1, prefixName,
                           childKey, key, isGst, inUc, m, ratingOf);
      WalkStep(a0, nodes, catMap, m, m', nodeParent, from, components, childKey, chain, names,
               np', tags[nodes[np'].tag].name);
      CatMapExtends(a0.nodes, nodes, m, c, key, isGst);
      if i == 0 {
        CatMapAdd(nodes, m, (components[0], childKey), np', c, key, isGst);
      }
      chain', names' := chain + [np'], names + [tags[nodes[np'].tag].name];
    }

    /** The node a value of category node `c` goes under. Without collapsing
        it is `c`. In partition mode a value at least `collapse` values after
        the last start whose name does not continue the current top-level
        component opens a bucket, and any other value joins the current
        one. In first-letter mode a letter different from the previous one
        opens a bucket. */
    method ChooseParent(c: nat, vals: seq<nat>, idx: nat, key: string, isGst: bool, catHier: bool, cfg: BuildConfig,
                        mode: CollapseModel, collapsing: bool, clList: seq<string>,
                        top: string, lastIdx: int, subCat: nat, collapseLetter: Option<string>)
      returns (nodeParent: nat, lastIdx': int, collapseLetter': Option<string>)
      requires Ready() && 0 < c < |nodes| && nodes[c].kind.Category?
      requires idx < |vals| && forall k :: 0 <= k < |vals| ==> vals[k] < |tags|
      requires mode != Disable ==> cfg.collapse >= 1
      requires collapsing ==> mode != Disable
      requires mode == FirstLetterMode ==> |clList| == |vals|
      requires BucketIn(nodes, subCat, c, key, isGst)
      requires collapsing && mode == FirstLetterMode && collapseLetter.Some? ==> subCat != c
      modifies this`nodes, this`tags
      ensures Ready() && Extends(old(nodes), nodes) && NamesKept(old(tags), tags, {}) && IdsGrow(old(tags), tags)
      ensures BucketIn(nodes, nodeParent, c, key, isGst)
      ensures !collapsing ==> nodeParent == c && lastIdx' == lastIdx && collapseLetter' == collapseLetter
      ensures collapsing && mode == PartitionMode ==>
        var brk := idx >= lastIdx + cfg.collapse && !StartsWith(old(tags[vals[idx]].originalName), top + ".");
        && (brk ==> lastIdx' == idx && (nodeParent == c || nodeParent == old(|nodes|)))
        && (!brk ==> lastIdx' == lastIdx && nodeParent == subCat)
      ensures collapsing && mode == FirstLetterMode ==>
        && collapseLetter' == Some(clList[idx]) && nodeParent != c
        && (collapseLetter == Some(clList[idx]) ==> nodeParent == subCat)
        && (collapseLetter != Some(clList[idx]) ==> nodeParent == old(|nodes|))
    {
      nodeParent, lastIdx', collapseLetter' := c, lastIdx, collapseLetter;
      if collapsing {
        if mode == PartitionMode {
          nodeParent := subCat;
          if idx >= lastIdx + cfg.collapse && !StartsWith(tags[vals[idx]].originalName, top + ".") {
            ghost var f, l, li;
            nodeParent, f, l, li := PartitionBucket(c, vals, idx, key, isGst, catHier, cfg);
            lastIdx' := idx;
          }
        } else {
          var cl := clList[idx];
          nodeParent := subCat;
          if collapseLetter != Some(cl) {
            collapseLetter' := Some(cl);
            nodeParent := LetterBucket(c, key, isGst, cl);
          }
        }
      }
    }

    /** The handling of one value `vals[idx]` in process_one_node: its
        rating and state are prepared, its parent is chosen and it is
        attached there. */
    method PlaceValue(c: nat, vals: seq<nat>, idx: nat, key: string, isGst: bool, fi: FieldInfo, cfg: BuildConfig,
                      stateMap: map<(string, string), TagState>, clearRating: bool, inUc: bool,
                      mode: CollapseModel, collapsing: bool, clList: seq<string>,
                      catMap: map<(string, string), nat>, top: string, lastIdx: int, subCat: nat,
                      collapseLetter: Option<string>, ghost origs: seq<string>, ghost firsts: seq<string>)
      returns (nodeParent: nat, catMap': map<(string, string), nat>, top': string, lastIdx': int,
               collapseLetter': Option<string>, ghost hb: bool, ghost chain: seq<nat>)
      requires Ready() && 0 < c < |nodes| && nodes[c].kind.Category? && ValueMap(nodes, catMap)
      requires CatMapIn(nodes, catMap, c, key, isGst)
      requires idx < |vals| && DistinctValues(vals, |tags|) && RestNamed(tags, vals, idx, origs)
      requires NameComponents.FirstsOk(firsts, origs)
      requires mode != Disable ==> cfg.collapse >= 1
      requires collapsing ==> mode != Disable
      requires mode == FirstLetterMode ==> |clList| == |vals|
      requires BucketIn(nodes, subCat, c, key, isGst)
      requires collapsing && mode == FirstLetterMode && collapseLetter.Some? ==> subCat != c
      modifies this`nodes, this`tags, this`intermediate
      ensures Ready() && ValueMap(nodes, catMap') && Extends(old(nodes), nodes) && IdsGrow(old(tags), tags)
      ensures CatMapIn(nodes, catMap', c, key, isGst)
      ensures RestNamed(tags, vals, idx + 1, origs)
      ensures BucketIn(nodes, nodeParent, c, key, isGst)
      ensures Shown(nodes, tags, chain, c, key, isGst, vals[idx], hb, origs[idx], old(tags[vals[idx]].idSet), nodeParent)
      ensures mode == FirstLetterMode ==> |clList| == |origs|
      ensures Placed(cfg.collapse, origs, firsts, clList, c, mode, collapsing, idx, top, lastIdx, subCat, collapseLetter, old(|nodes|),
                     hb, nodeParent, top', lastIdx', collapseLetter')
    {
      NameComponents.FirstsAt(firsts, origs, idx);
      var ti := vals[idx];
      ghost var tags0 := tags;
      PrepareValue(ti, clearRating, stateMap);
      ghost var nodes1, tags1 := nodes, tags;
      nodeParent, lastIdx', collapseLetter' := ChooseParent(c, vals, idx, key, isGst, fi.hierarchical, cfg, mode,
                                                            collapsing, clList, top, lastIdx, subCat, collapseLetter);
      ghost var nodes2, tags2 := nodes, tags;
      catMap' := catMap;
      ValueMapExtends(nodes1, nodes2, catMap');
      CatMapExtends(nodes1, nodes2, catMap', c, key, isGst);
      ghost var names;
      catMap', top', hb, chain, names := AttachValue(ti, nodeParent, key, isGst, inUc, fi.isCustom && fi.isNames, fi.hierarchical,
                                                     catMap', top, cfg.ratingOf, c);
      ExtendsTrans(nodes1, nodes2, nodes);
      IdsGrowTrans(tags0, tags1, tags2);
      IdsGrowTrans(tags0, tags2, tags);
      RestKept(tags0, tags1, vals, idx, {}, origs);
      RestKept(tags1, tags2, vals, idx, {}, origs);
      forall k | idx + 1 <= k < |vals| ensures vals[k] !in {ti} {
        assert vals[k] != vals[idx];
      }
      RestKept(tags2, tags, vals, idx + 1, {ti}, origs);
    }

    /** process_one_node: the values of category node `c` (`data[key]`, in
        display order) become value nodes, placed directly under `c`, or,
        when the category has more than `collapse` values, under buckets:
        in partition mode a new bucket starts where Partition.Breaks says;
        in first-letter mode a new bucket starts whenever a value's letter
        differs from the previous value's. */
    method ProcessOneNode(c: nat, model: CollapseModel, data: map<string, seq<nat>>, fields: map<string, FieldInfo>,
                          stateMap: map<(string, string), TagState>, cfg: BuildConfig)
      returns (ghost views: seq<Partition.View>, ghost starts: seq<nat>, ghost parents: seq<nat>, ghost letters: seq<string>,
               ghost chains: seq<seq<nat>>)
      requires Ready() && 0 < c < |nodes| && nodes[c].kind.Category?
      requires model != Disable ==> cfg.collapse >= 1
      requires nodes[c].kind.key in data ==> nodes[c].kind.key in fields && DistinctValues(data[nodes[c].kind.key], |tags|)
      modifies this`nodes, this`tags, this`intermediate
      ensures Ready() && Extends(old(nodes), nodes) && IdsGrow(old(tags), tags)
      ensures var key := old(nodes[c].kind.key);
        var vals := if key in data then data[key] else [];
        var mode := EffectiveModel(model, key, cfg);
        && |views| == |vals| && |parents| == |vals| && |chains| == |vals|
        && AllShown(nodes, tags, chains, c, key, old(nodes[c].kind.isGst), vals, views, IdsOf(old(tags), vals), parents)
        && ViewsOk(views, NamesOf(old(tags), vals), NameComponents.FirstComponents(NamesOf(old(tags), vals)))
        && AllBuckets(nodes, parents, c, key, old(nodes[c].kind.isGst))
        && (mode == Disable || |vals| <= cfg.collapse ==> AllUnder(parents, c))
        && (mode == PartitionMode && |vals| > cfg.collapse ==>
              && starts == Partition.Breaks("z" + old(tags[vals[0]].originalName), cfg.collapse, views)
              && PartitionTrace(starts, parents))
        && (mode == FirstLetterMode && |vals| > cfg.collapse ==>
              |letters| == |vals| && LetterTrace(letters, parents, c, |nodes|))
    {
      views, starts, parents, letters, chains := [], [], [], [], [];
      var key := nodes[c].kind.key;
      var isGst := nodes[c].kind.isGst;
      if key !in data {
        return;
      }
      var mode := EffectiveModel(model, key, cfg);
      var vals := data[key];
      var catLen := |vals|;
      if catLen == 0 {
        return;
      }
      views, starts, parents, letters, chains := ProcessValues(c, key, isGst, vals, fields[key], mode, stateMap, cfg);
    }

    /** process_one_node for a category with at least one value. */
    method ProcessValues(c: nat, key: string, isGst: bool, vals: seq<nat>, fi: FieldInfo, mode: CollapseModel,
                         stateMap: map<(string, string), TagState>, cfg: BuildConfig)
      returns (ghost views: seq<Partition.View>, ghost starts: seq<nat>, ghost parents: seq<nat>, ghost letters: seq<string>,
               ghost chains: seq<seq<nat>>)
      requires Ready() && 0 < c < |nodes| && nodes[c].kind.Category?
      requires |vals| > 0 && DistinctValues(vals, |tags|)
      requires mode != Disable ==> cfg.collapse >= 1
      modifies this`nodes, this`tags, this`intermediate
      ensures Ready() && Extends(old(nodes), nodes) && IdsGrow(old(tags), tags)
      ensures |views| == |vals| && |parents| == |vals| && |chains| == |vals|
      ensures AllShown(nodes, tags, chains, c, key, isGst, vals, views, IdsOf(old(tags), vals), parents)
      ensures ViewsOk(views, NamesOf(old(tags), vals), NameComponents.FirstComponents(NamesOf(old(tags), vals)))
      ensures AllBuckets(nodes, parents, c, key, isGst)
      ensures mode == Disable || |vals| <= cfg.collapse ==> AllUnder(parents, c)
      ensures mode == PartitionMode && |vals| > cfg.collapse ==>
        && starts == Partition.Breaks("z" + old(tags[vals[0]].originalName), cfg.collapse, views)
        && PartitionTrace(starts, parents)
      ensures mode == FirstLetterMode && |vals| > cfg.collapse ==>
        |letters| == |vals| && LetterTrace(letters, parents, c, |nodes|)
    {
      var clearRating := key !in cfg.categoriesWithRatings && !fi.isCustom && !fi.isUser;
      var inUc := fi.isUser && !isGst;
      var collapsing := mode != Disable && |vals| > cfg.collapse;
      var clList: seq<string> := [];
      if mode == FirstLetterMode {
        ghost var iv;
        clList, iv := FirstLetter.CollapseLetters(FirstLetterKeys(tags, vals), cfg.collate, cfg.flCollapseWhen);
      }
      letters := clList;
      ghost var origs := NamesOf(tags, vals);
      var top0 := "z" + tags[vals[0]].originalName;
      NameComponents.FirstComponentsOk(origs);
      views, starts, parents, chains := PlaceAll(c, vals, key, isGst, fi, cfg, stateMap, clearRating, inUc, mode, collapsing,
                                         clList, top0, origs, NameComponents.FirstComponents(origs));
    }

    /** One turn of process_one_node's loop: value `vals[|views|]` is
        placed and the bookkeeping of the loop advances by one value. */
    method PlaceNext(c: nat, vals: seq<nat>, key: string, isGst: bool, fi: FieldInfo, cfg: BuildConfig,
                     stateMap: map<(string, string), TagState>, clearRating: bool, inUc: bool,
                     mode: CollapseModel, collapsing: bool, clList: seq<string>, top0: string,
                     idx: nat, catMap: map<(string, string), nat>, top: string, lastIdx: int, subCat: nat,
                     collapseLetter: Option<string>, ghost origs: seq<string>, ghost firsts: seq<string>,
                     ghost views: seq<Partition.View>, ghost starts: seq<nat>, ghost parents: seq<nat>,
                     ghost ids: seq<set<nat>>, ghost chains: seq<seq<nat>>)
      returns (catMap': map<(string, string), nat>, top': string, lastIdx': int, subCat': nat,
               collapseLetter': Option<string>,
               ghost views': seq<Partition.View>, ghost starts': seq<nat>, ghost parents': seq<nat>,
               ghost chains': seq<seq<nat>>)
      requires Ready() && 0 < c < |nodes| && nodes[c].kind.Category?
      requires idx == |views| < |vals| && DistinctValues(vals, |tags|)
      requires Placing(nodes, tags, catMap, c, key, isGst, vals, views, ids, parents, chains, origs, subCat)
      requires ids[idx] <= tags[vals[idx]].idSet
      requires NameComponents.FirstsOk(firsts, origs)
      requires mode != Disable ==> cfg.collapse >= 1
      requires collapsing ==> mode != Disable
      requires mode == FirstLetterMode ==> |clList| == |vals|
      requires GhostTrace(top0, cfg.collapse, origs, firsts, clList, c, mode, collapsing, views, starts, parents,
                          top, lastIdx, subCat, collapseLetter, |nodes|)
      modifies this`nodes, this`tags, this`intermediate
      ensures Ready() && Extends(old(nodes), nodes) && IdsGrow(old(tags), tags)
      ensures |views'| == |views| + 1 && |chains'| == |chains| + 1 && chains'[..|chains|] == chains
      ensures Placing(nodes, tags, catMap', c, key, isGst, vals, views', ids, parents', chains', origs, subCat')
      ensures GhostTrace(top0, cfg.collapse, origs, firsts, clList, c, mode, collapsing, views', starts', parents',
                         top', lastIdx', subCat', collapseLetter', |nodes|)
    {
      ghost var nodes0, tags0 := nodes, tags;
      var nodeParent;
      ghost var hb, chain;
      nodeParent, catMap', top', lastIdx', collapseLetter', hb, chain :=
        PlaceValue(c, vals, idx, key, isGst, fi, cfg, stateMap, clearRating, inUc, mode, collapsing, clList,
                   catMap, top, lastIdx, subCat, collapseLetter, origs, firsts);
      chains' := chains + [chain];
      subCat' := if collapsing then nodeParent else subCat;
      BucketsExtend(nodes0, nodes, parents, nodeParent, c, key, isGst);
      views', starts', parents' :=
        TraceStep(top0, cfg.collapse, origs, firsts, clList, c, mode, collapsing, views, starts, parents,
                  top, lastIdx, subCat, collapseLetter, |nodes0|, hb, nodeParent, top', lastIdx', collapseLetter', |nodes|);
      AllShownAppend(nodes0, nodes, tags0, tags, chains, c, key, isGst, vals, views, ids, parents, chain,
                     Partition.View(origs[idx], hb, firsts[idx]), nodeParent);
    }

    /** The loop of process_one_node over the values `vals` of category
        node `c`. */
    method PlaceAll(c: nat, vals: seq<nat>, key: string, isGst: bool, fi: FieldInfo, cfg: BuildConfig,
                    stateMap: map<(string, string), TagState>, clearRating: bool, inUc: bool,
                    mode: CollapseModel, collapsing: bool, clList: seq<string>, top0: string,
                    ghost origs: seq<string>, ghost firsts: seq<string>)
      returns (ghost views: seq<Partition.View>, ghost starts: seq<nat>, ghost parents: seq<nat>,
               ghost chains: seq<seq<nat>>)
      requires Ready() && 0 < c < |nodes| && nodes[c].kind.Category?
      requires DistinctValues(vals, |tags|) && RestNamed(tags, vals, 0, origs)
      requires NameComponents.FirstsOk(firsts, origs)
      requires mode != Disable ==> cfg.collapse >= 1
      requires collapsing ==> mode != Disable
      requires mode == FirstLetterMode ==> |clList| == |vals|
      modifies this`nodes, this`tags, this`intermediate
      ensures Ready() && Extends(old(nodes), nodes) && IdsGrow(old(tags), tags)
      ensures |views| == |vals| && |parents| == |vals| && |chains| == |vals|
      ensures ViewsOk(views, origs, firsts)
      ensures AllShown(nodes, tags, chains, c, key, isGst, vals, views, IdsOf(old(tags), vals), parents)
      ensures AllBuckets(nodes, parents, c, key, isGst)
      ensures !collapsing ==> AllUnder(parents, c)
      ensures PartitionOk(top0, cfg.collapse, views, Partition.CursorAt(top0, cfg.collapse, views).top,
                          Partition.CursorAt(top0, cfg.collapse, views).lastIdx, starts, parents, mode == PartitionMode && collapsing)
      ensures mode == FirstLetterMode && collapsing ==> LetterTrace(clList, parents, c, |nodes|)
    {
      views, starts, parents, chains := [], [], [], [];
      ghost var ids := IdsOf(tags, vals);
      var top := top0;
      var lastIdx: int := -(cfg.collapse as int);
      var catMap: map<(string, string), nat> := map[];
      var subCat := c;
      var collapseLetter: Option<string> := None;
      var idx := 0;
      while idx < |vals|
        invariant idx == |views| <= |vals|
        invariant Ready() && Extends(old(nodes), nodes) && IdsGrow(old(tags), tags)
        invariant Placing(nodes, tags, catMap, c, key, isGst, vals, views, ids, parents, chains, origs, subCat)
        invariant GhostTrace(top0, cfg.collapse, origs, firsts, clList, c, mode, collapsing, views, starts, parents,
                             top, lastIdx, subCat, collapseLetter, |nodes|)
      {
        ghost var nodes0, tags0 := nodes, tags;
        catMap, top, lastIdx, subCat, collapseLetter, views, starts, parents, chains :=
          PlaceNext(c, vals, key, isGst, fi, cfg, stateMap, clearRating, inUc, mode, collapsing, clList, top0,
                    idx, catMap, top, lastIdx, subCat, collapseLetter, origs, firsts, views, starts, parents, ids, chains);
        ExtendsTrans(old(nodes), nodes0, nodes);
        IdsGrowTrans(old(tags), tags0, tags);
        idx := idx + 1;
      }
      assert PartitionOk(top0, cfg.collapse, views, top, lastIdx, starts, parents, mode == PartitionMode && collapsing);
    }

    /** The fix-up at the end of _create_node_tree: with empty categories
        hidden, process_uc_children runs over each top-level user category;
        then the root keeps the categories that are shown, ordered as
        `rowMap` lists their keys. */
    method FixUpTree(hideEmpty: bool, rowMap: seq<string>, hidden: set<string>)
      requires Ready()
      modifies this`nodes
      ensures Ready() && Snapshot() == TagPrune.FixUp(old(Snapshot()), hideEmpty, rowMap, hidden)
    {
      ghost var a := Snapshot();
      if hideEmpty {
        var roots := nodes[0].children;
        for k := 0 to |roots|
          invariant nodes == TagPrune.PruneRoots(a.nodes, roots[..k])
        {
          assert roots[..k + 1][..k] == roots[..k];
          nodes := TagPrune.PruneStep(nodes, roots[k]);
        }
        assert roots[..|roots|] == roots;
      }
      var b := Snapshot();
      assert b == TagPrune.Pruning(a, hideEmpty);
      assert ChildrenOk(b, 0);
      var kept := TagPrune.KeepShown(b, nodes[0].children, hideEmpty, rowMap, hidden);
      nodes := nodes[0 := nodes[0].(children := TagPrune.OrderByRowMap(b, kept, rowMap))];
      TagPrune.FixUpTop(a, hideEmpty, rowMap, hidden);
      TrimmedKeepsCaches(a, Snapshot());
    }

    /** `do_one_item`: the Tag gets its new name and a clear state, and the
        user categories holding the old name also hold the new one. */
    method DoOneItem(x: Rename, lookupKey: string, p: UserCategories.UserCategoryPrefs)
      requires Ready() && x.tag < |tags|
      modifies this`tags, p`cats
      ensures Ready() && tags == old(tags)[x.tag := old(tags)[x.tag].(name := x.newName, state := Clear)]
      ensures p.cats == RenamedEverywhere(old(p.cats), lookupKey, x.originalName, x.newName)
    {
      SetTag(x.tag, tags[x.tag].(name := x.newName, state := Clear));
      p.AddRenamedItemToUserCategories(lookupKey, x.originalName, x.newName);
    }

    /** rename_item: renames node `item` (a leaf), or the editable part of
        the hierarchy below it (a middle node), through `do_one_item`. */
    method RenameItem(item: nat, lookupKey: string, toWhat: string, p: UserCategories.UserCategoryPrefs)
      requires Ready() && 0 < item < |nodes|
      modifies this`tags, p`cats
      ensures Ready()
      ensures var plan := RenamePlan(old(Snapshot()), item, toWhat);
        && tags == ApplyRenames(ClearParent(old(Snapshot()), item), plan)
        && p.cats == CatsAfter(old(p.cats), lookupKey, plan)
    {
      ghost var a := Snapshot();
      ghost var cats0 := p.cats;
      var t := tags[nodes[item].tag];
      var own := Rename(nodes[item].tag, t.originalName, toWhat);
      var children := AllChildren(Snapshot(), item);
      if t.isEditable && |children| == 0 {
        // A leaf: just do it.
        DoOneItem(own, lookupKey, p);
        assert [own][..0] == [];
      } else {
        var searchName := t.originalName;
        var parent := nodes[item].parent.value;
        if nodes[parent].kind == Value {
          SetTag(nodes[parent].tag, tags[nodes[parent].tag].(state := Clear));
        }
        ghost var plan: seq<Rename> := [];
        if t.isEditable {
          DoOneItem(own, lookupKey, p);
          plan := [own];
          assert [own][..0] == [];
        }
        RenameChildren(children, searchName, toWhat, lookupKey, p, a, ClearParent(a, item), cats0, plan);
      }
    }

    /** The child loop of rename_item, after the renames `head`. */
    method RenameChildren(children: seq<nat>, searchName: string, toWhat: string, lookupKey: string,
                          p: UserCategories.UserCategoryPrefs, ghost a: Arena, ghost ts0: seq<Tag>,
                          ghost cats0: UserCategories.Cats, ghost head: seq<Rename>)
      requires Ready() && WellFormed(a) && nodes == a.nodes && |ts0| == |a.tags|
      requires forall k :: 0 <= k < |children| ==> 0 < children[k] < |a.nodes|
      requires forall k :: 0 <= k < |head| ==> head[k].tag < |ts0|
      requires tags == ApplyRenames(ts0, head) && p.cats == CatsAfter(cats0, lookupKey, head)
      requires SameIdentity(tags, a.tags)
      modifies this`tags, p`cats
      ensures Ready()
      ensures var plan := head + ChildRenames(a, children, searchName, toWhat);
        tags == ApplyRenames(ts0, plan) && p.cats == CatsAfter(cats0, lookupKey, plan)
    {
      ghost var plan := head;
      for k := 0 to |children|
        invariant plan == head + ChildRenames(a, children[..k], searchName, toWhat)
        invariant forall k :: 0 <= k < |plan| ==> plan[k].tag < |ts0|
        invariant tags == ApplyRenames(ts0, plan) && p.cats == CatsAfter(cats0, lookupKey, plan)
        invariant Ready() && nodes == a.nodes
        invariant SameIdentity(tags, a.tags)
      {
        plan := RenameChild(children[k], searchName, toWhat, lookupKey, p, a, ts0, cats0, plan);
        PlanSnoc(a, children, k, searchName, toWhat, head);
      }
      assert children[..|children|] == children;
    }

    /** One turn of the child loop of rename_item. */
    method RenameChild(c: nat, searchName: string, toWhat: string, lookupKey: string,
                       p: UserCategories.UserCategoryPrefs, ghost a: Arena, ghost ts0: seq<Tag>,
                       ghost cats0: UserCategories.Cats, ghost plan: seq<Rename>)
      returns (ghost plan': seq<Rename>)
      requires Ready() && WellFormed(a) && nodes == a.nodes && |ts0| == |a.tags| && 0 < c < |a.nodes|
      requires forall k :: 0 <= k < |plan| ==> plan[k].tag < |ts0|
      requires tags == ApplyRenames(ts0, plan) && p.cats == CatsAfter(cats0, lookupKey, plan)
      requires SameIdentity(tags, a.tags)
      modifies this`tags, p`cats
      ensures Ready() && nodes == a.nodes
      ensures plan' == plan + ChildRename(a, c, searchName, toWhat)
      ensures forall k :: 0 <= k < |plan'| ==> plan'[k].tag < |ts0|
      ensures tags == ApplyRenames(ts0, plan') && p.cats == CatsAfter(cats0, lookupKey, plan')
      ensures SameIdentity(tags, a.tags)
    {
      var ct := tags[nodes[c].tag];
      if ct.isEditable && StartsWith(ct.originalName, searchName) {
        var x := Rename(nodes[c].tag, ct.originalName, toWhat + ct.originalName[|searchName|..]);
        assert TagOf(a, c).isEditable == ct.isEditable && TagOf(a, c).originalName == ct.originalName;
        assert ChildRename(a, c, searchName, toWhat) == [x];
        plan' := plan + [x];
        RenameSnoc(ts0, cats0, lookupKey, plan, x);
        RenameKeepsIdentity(tags, a.tags, x);
        DoOneItem(x, lookupKey, p);
      } else {
        assert TagOf(a, c).isEditable == ct.isEditable && TagOf(a, c).originalName == ct.originalName;
        assert ChildRename(a, c, searchName, toWhat) == [];
        plan' := plan;
        assert plan + [] == plan;
      }
    }

    /** A category node made by the category pass: a new Tag named `name`
        for key `key`, and a node for it under `parent`, listed in
        category_nodes. */
    method CategoryNode(parent: nat, name: string, key: string, isGst: bool) returns (n: nat)
      requires Ready() && parent < |nodes| && nodes[parent].kind != Value
      modifies this`nodes, this`tags, this`categoryNodes
      ensures Ready() && n == old(|nodes|) && |nodes| == n + 1 && Extends(old(nodes), nodes)
      ensures nodes[n].kind == Category(key, false, isGst) && nodes[n].parent == Some(parent)
      ensures nodes[n].tag == old(|tags|) && tags == old(tags) + [CategoryTag(name, key)]
      ensures categoryNodes == old(categoryNodes) + [n]
    {
      var ti := NewTag(CategoryTag(name, key));
      n := CreateNode(parent, Category(key, false, isGst), ti);
      categoryNodes := categoryNodes + [n];
    }

    /** `node.can_be_edited = ...`. */
    method SetEditable(n: nat, b: bool)
      requires Ready() && n < |nodes|
      modifies this`nodes
      ensures Ready() && nodes == old(nodes)[n := old(nodes)[n].(canBeEdited := b)] && Extends(old(nodes), nodes)
    {
      ghost var a := Snapshot();
      nodes := nodes[n := nodes[n].(canBeEdited := b)];
      SameShapeWellFormed(a, Snapshot());
    }

    /** One new user-category level: its node, its edit flag (the last
        level of a key that is not a grouped search term), and its Tag
        marked '5state' unless it is a grouped search term. */
    method UserCategoryLevel(last: nat, name: string, path: string, isGst: bool, isLast: bool) returns (node: nat)
      requires Ready() && last < |nodes| && nodes[last].kind != Value
      modifies this`nodes, this`tags, this`categoryNodes
      ensures Ready() && node == old(|nodes|) && |nodes| == node + 1 && Extends(old(nodes), nodes)
      ensures nodes[node].kind == Category(path, false, isGst) && nodes[node].parent == Some(last)
      ensures nodes[node].canBeEdited == (!isGst && isLast)
      ensures tags[nodes[node].tag].name == name
      ensures tags[nodes[node].tag].isHierarchical == if isGst then NotHierarchical else FiveState
      ensures categoryNodes == old(categoryNodes) + [node] && |tags| == old(|tags|) + 1 && IdsGrow(old(tags), tags)
    {
      node := CategoryNode(last, name, path, isGst);
      SetEditable(node, !isGst && isLast);
      if !isGst {
        var ti := nodes[node].tag;
        SetTag(ti, tags[ti].(isHierarchical := FiveState));
      }
    }

    /** The category pass for a user-category key: each dotted prefix of the
        key gets a node under the previous one, unless category_node_map
        already has one. */
    method UserCategoryPath(key: string, isGst: bool, cmap: map<string, nat>, ghost from: nat, ghost c0: seq<nat>)
      returns (cmap': map<string, nat>)
      requires StartsWith(key, "@")
      requires Ready() && PassOk(nodes, categoryNodes, from, c0, cmap)
      modifies this`nodes, this`tags, this`categoryNodes
      ensures Ready() && PassOk(nodes, categoryNodes, from, c0, cmap') && Extends(old(nodes), nodes) && IdsGrow(old(tags), tags)
      ensures key in cmap' && forall q :: q in cmap ==> q in cmap' && cmap'[q] == cmap[q]
    {
      ghost var n0 := nodes;
      var parts := Split(key, '.');
      KeyPath(key);
      assert PathAt(parts, |parts| - 1) == key;
      var path := "";
      var last := 0;
      cmap' := cmap;
      for i := 0 to |parts|
        invariant path == PathBefore(parts, i)
        invariant i == 0 ==> last == 0
        invariant i > 0 ==> PathAt(parts, i - 1) in cmap' && last == cmap'[PathAt(parts, i - 1)]
        invariant Ready() && PassOk(nodes, categoryNodes, from, c0, cmap') && Extends(n0, nodes) && IdsGrow(old(tags), tags)
        invariant forall q :: q in cmap ==> q in cmap' && cmap'[q] == cmap[q]
      {
        PathBeforeNext(parts, i);
        path := path + parts[i];
        ghost var before := nodes;
        last, cmap' := UserCategoryStep(parts, i, path, isGst, last, cmap', from, c0);
        ExtendsTrans(n0, before, nodes);
        path := path + ".";
      }
      assert PathAt(parts, |parts| - 1) in cmap';
    }

    method CategoryPass(categories: seq<(string, string)>, gst: set<string>) returns (cmap: map<string, nat>)
      requires Ready()
      modifies this`nodes, this`tags, this`categoryNodes
      ensures Ready() && PassOk(nodes, categoryNodes, old(|nodes|), old(categoryNodes), cmap) && Extends(old(nodes), nodes) && IdsGrow(old(tags), tags)
      ensures forall k :: 0 <= k < |categories| ==> categories[k].0 in cmap
    {
      ghost var n0 := nodes;
      ghost var from := |nodes|;
      ghost var c0 := categoryNodes;
      cmap := map[];
      for k := 0 to |categories|
        invariant Ready() && PassOk(nodes, categoryNodes, from, c0, cmap) && Extends(n0, nodes) && IdsGrow(old(tags), tags)
        invariant forall j :: 0 <= j < k ==> categories[j].0 in cmap
      {
        var key := categories[k].0;
        var isGst := StartsWith(key, "@") && key[1..] in gst;
        ghost var before := nodes;
        if StartsWith(key, "@") {
          cmap := UserCategoryPath(key, isGst, cmap, from, c0);
        } else {
          var node := AddPlainCategory(categories[k].1, key, cmap, from, c0);
          cmap := cmap[key := node];
        }
        ExtendsTrans(n0, before, nodes);
      }
    }

    /** A category that is not a user category: its node goes under the
        root and replaces any earlier entry for its key. */
    method AddPlainCategory(name: string, key: string, cmap: map<string, nat>, ghost from: nat, ghost c0: seq<nat>)
      returns (node: nat)
      requires !StartsWith(key, "@") && Ready() && PassOk(nodes, categoryNodes, from, c0, cmap)
      modifies this`nodes, this`tags, this`categoryNodes
      ensures Ready() && PassOk(nodes, categoryNodes, from, c0, cmap[key := node]) && Extends(old(nodes), nodes) && IdsGrow(old(tags), tags)
    {
      ghost var before := nodes;
      node := CategoryNode(0, name, key, false);
      PassStep(before, nodes, old(categoryNodes), from, c0, cmap, key, 0);
    }

    /** One level of UserCategoryPath: the node for `path` (the key's
        segments up to `i`) is found in category_node_map or made. */
    method UserCategoryStep(parts: seq<string>, i: nat, path: string, isGst: bool, last: nat,
                            cmap: map<string, nat>, ghost from: nat, ghost c0: seq<nat>)
      returns (last': nat, cmap': map<string, nat>)
      requires UserParts(parts) && i < |parts| && path == PathAt(parts, i)
      requires i == 0 ==> last == 0
      requires i > 0 ==> PathAt(parts, i - 1) in cmap && last == cmap[PathAt(parts, i - 1)]
      requires Ready() && PassOk(nodes, categoryNodes, from, c0, cmap)
      modifies this`nodes, this`tags, this`categoryNodes
      ensures path in cmap' && last' == cmap'[path]
      ensures Ready() && PassOk(nodes, categoryNodes, from, c0, cmap') && Extends(old(nodes), nodes) && IdsGrow(old(tags), tags)
      ensures forall q :: q in cmap ==> q in cmap' && cmap'[q] == cmap[q]
    {
      PathAtUp(parts, i);
      if path !in cmap {
        var p := parts[i];
        last' := AddUserLevel(last, if i == 0 then p[1..] else p, path, isGst, i == |parts| - 1, cmap, from, c0);
        cmap' := cmap[path := last'];
      } else {
        last' := cmap[path];
        cmap' := cmap;
      }
    }

    /** A user-category level that category_node_map does not have yet. */
    method AddUserLevel(last: nat, name: string, path: string, isGst: bool, isLast: bool,
                        cmap: map<string, nat>, ghost from: nat, ghost c0: seq<nat>) returns (node: nat)
      requires path !in cmap && match Up(path) case None => last == 0 case Some(q) => q in cmap && cmap[q] == last
      requires Ready() && PassOk(nodes, categoryNodes, from, c0, cmap)
      modifies this`nodes, this`tags, this`categoryNodes
      ensures Ready() && PassOk(nodes, categoryNodes, from, c0, cmap[path := node]) && Extends(old(nodes), nodes) && IdsGrow(old(tags), tags)
    {
      ghost var before := nodes;
      if Up(path).Some? {
        assert EntryOk(nodes, cmap, Up(path).value);
      }
      node := UserCategoryLevel(last, name, path, isGst, isLast);
      PassStep(before, nodes, old(categoryNodes), from, c0, cmap, path, last);
    }

    /** The process_one_node loop of _create_node_tree: each category node
        in turn gets its values, with the tag states `stateMap` holds for
        its key. */
    method FillCategories(model: CollapseModel, data: map<string, seq<nat>>, fields: map<string, FieldInfo>,
                          stateMap: map<string, map<(string, string), TagState>>, cfg: BuildConfig)
      returns (ghost shown: seq<ShownCategory>)
      requires Ready() && (model != Disable ==> cfg.collapse >= 1)
      requires forall key :: key in data ==> key in fields && DistinctValues(data[key], |tags|)
      modifies this`nodes, this`tags, this`intermediate
      ensures Ready() && Extends(old(nodes), nodes) && IdsGrow(old(tags), tags)
      ensures |shown| == |categoryNodes|
      ensures forall k :: 0 <= k < |categoryNodes| ==> CategoryShown(nodes, tags, categoryNodes[k], data, old(tags), shown[k])
    {
      ghost var n0 := nodes;
      ghost var ts0 := tags;
      shown := [];
      for k := 0 to |categoryNodes|
        invariant Ready() && Extends(n0, nodes) && IdsGrow(ts0, tags) && |shown| == k
        invariant forall j :: 0 <= j < k ==> CategoryShown(nodes, tags, categoryNodes[j], data, ts0, shown[j])
      {
        ghost var before, tb := nodes, tags;
        ghost var r := FillOne(k, model, data, fields, stateMap, cfg, ts0);
        ExtendsTrans(n0, before, nodes);
        IdsGrowTrans(ts0, tb, tags);
        CategoriesShownGrow(before, nodes, tb, tags, categoryNodes, data, ts0, shown);
        shown := shown + [r];
      }
    }

    /** The turn of the `k`th category node in that loop. */
    method FillOne(k: nat, model: CollapseModel, data: map<string, seq<nat>>, fields: map<string, FieldInfo>,
                   stateMap: map<string, map<(string, string), TagState>>, cfg: BuildConfig, ghost ts0: seq<Tag>)
      returns (ghost r: ShownCategory)
      requires Ready() && k < |categoryNodes| && (model != Disable ==> cfg.collapse >= 1) && IdsGrow(ts0, tags)
      requires forall key :: key in data ==> key in fields && DistinctValues(data[key], |ts0|)
      modifies this`nodes, this`tags, this`intermediate
      ensures Ready() && Extends(old(nodes), nodes) && IdsGrow(old(tags), tags)
      ensures CategoryShown(nodes, tags, categoryNodes[k], data, ts0, r)
    {
      var c := categoryNodes[k];
      var key := nodes[c].kind.key;
      if key in data {
        DistinctValuesGrow(data[key], |ts0|, |tags|);
      }
      ghost var views, starts, parents, letters, chains :=
        ProcessOneNode(c, model, data, fields, if key in stateMap then stateMap[key] else map[], cfg);
      r := ShownCategory(views, parents, chains);
      CategoryShownNew(nodes, tags, c, data, ts0, old(tags), r);
    }

    /** _create_node_tree: with no data the build stops; otherwise the
        category nodes are filled in under a fresh intermediate_nodes, with
        the collapse model the preferences select, and the tree is fixed
        up. `filled` is the tree before the fix-up. */
    method CreateNodeTree(data: Option<map<string, seq<nat>>>, fields: map<string, FieldInfo>,
                          stateMap: map<string, map<(string, string), TagState>>, cfg: BuildConfig,
                          collapseModel: CollapseModel, sortBy: string,
                          hideEmpty: bool, rowMap: seq<string>, hidden: set<string>)
      returns (ghost filled: Arena, ghost shown: seq<ShownCategory>)
      requires Ready()
      requires data.Some? ==> forall key :: key in data.value ==> key in fields && DistinctValues(data.value[key], |tags|)
      modifies this`nodes, this`tags, this`intermediate
      ensures Ready()
      ensures data.None? ==> nodes == old(nodes) && tags == old(tags)
      ensures data.Some? ==> Extends(old(nodes), filled.nodes) && WellFormed(filled) && Snapshot() == TagPrune.FixUp(filled, hideEmpty, rowMap, hidden)
      ensures data.Some? ==> IdsGrow(old(tags), filled.tags) && |shown| == |categoryNodes|
      ensures data.Some? ==> forall k :: 0 <= k < |categoryNodes| ==>
        CategoryShown(filled.nodes, filled.tags, categoryNodes[k], data.value, old(tags), shown[k])
    {
      filled, shown := Snapshot(), [];
      if data.None? {
        return;
      }
      intermediate := map[];
      var model := SelectCollapseModel(cfg.collapse, collapseModel, sortBy);
      shown := FillCategories(model, data.value, fields, stateMap, cfg);
      filled := Snapshot();
      FixUpTree(hideEmpty, rowMap, hidden);
    }

    /** _run_rebuild's reset: a fresh root, the book data's tags, and no
        category nodes or intermediate tags. */
    method ResetTree(dataTags: seq<Tag>)
      requires RatingsReady(Arena([Node(Root, 0, None, [], None, None, false)], dataTags))
      modifies this`nodes, this`tags, this`categoryNodes, this`intermediate
      ensures Ready() && |nodes| == 1 && tags == dataTags && categoryNodes == [] && intermediate == map[]
    {
      nodes := [Node(Root, 0, None, [], None, None, false)];
      tags := dataTags;
      categoryNodes := [];
      intermediate := map[];
    }

    /** rebuild_node_tree: refused while a build is in progress; otherwise
        the model restarts from a fresh root with the book data's tags
        (_run_rebuild), makes a node per category (the category pass of
        _rebuild_node_tree) and builds the tree under them
        (_create_node_tree). Every category keeps its node, with its key,
        under the node of its enclosing user category; `filled` is the tree
        before the fix-up. */
    method RebuildNodeTree(categories: seq<(string, string)>, gst: set<string>, dataTags: seq<Tag>,
                           data: Option<map<string, seq<nat>>>, fields: map<string, FieldInfo>,
                           stateMap: map<string, map<(string, string), TagState>>, cfg: BuildConfig,
                           collapseModel: CollapseModel, sortBy: string,
                           hideEmpty: bool, rowMap: seq<string>, hidden: set<string>)
      returns (ghost cmap: map<string, nat>, ghost filled: Arena, ghost shown: seq<ShownCategory>)
      requires !buildInProgress ==> RatingsReady(Arena([Node(Root, 0, None, [], None, None, false)], dataTags))
      requires data.Some? ==> forall key :: key in data.value ==> key in fields && DistinctValues(data.value[key], |dataTags|)
      modifies this`nodes, this`tags, this`categoryNodes, this`intermediate, this`buildInProgress
      ensures old(buildInProgress) ==> buildInProgress && nodes == old(nodes) && tags == old(tags) && categoryNodes == old(categoryNodes)
      ensures !old(buildInProgress) ==>
        && !buildInProgress && Ready()
        && (forall k :: 0 <= k < |categories| ==> categories[k].0 in cmap)
        && MapOk(nodes, cmap)
        && (data.Some? ==> WellFormed(filled) && Snapshot() == TagPrune.FixUp(filled, hideEmpty, rowMap, hidden))
        && (data.Some? ==> |shown| == |categoryNodes| && forall k :: 0 <= k < |categoryNodes| ==>
              CategoryShown(filled.nodes, filled.tags, categoryNodes[k], data.value, dataTags, shown[k]))
    {
      cmap, filled, shown := map[], Snapshot(), [];
      if buildInProgress {
        return;
      }
      buildInProgress := true;
      ResetTree(dataTags);
      cmap := CategoryPass(categories, gst);
      ghost var passed := nodes;
      if data.Some? {
        forall key | key in data.value ensures DistinctValues(data.value[key], |tags|) {
          DistinctValuesGrow(data.value[key], |dataTags|, |tags|);
        }
      }
      ghost var passedTags := tags;
      filled, shown := CreateNodeTree(data, fields, stateMap, cfg, collapseModel, sortBy, hideEmpty, rowMap, hidden);
      if data.Some? {
        TagPrune.FixUpTop(filled, hideEmpty, rowMap, hidden);
        TrimmedKeepsCaches(filled, Snapshot());
        ExtendsTrans(passed, filled.nodes, nodes);
        CategoriesShownFrom(filled.nodes, filled.tags, categoryNodes, data.value, dataTags, passedTags, shown);
      }
      MapOkExtends(passed, nodes, cmap);
      buildInProgress := false;
    }
  }
}