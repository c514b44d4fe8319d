/** The list of covers shown while covers are downloaded for one book
    (src/calibre/gui2/metadata/single_download.py): `CoversModel`, which
    keeps the covers found so far and, for each cover source, the rows its
    covers occupy; and the dots of the "Please wait" message of `Comments`.

    Pixmaps are values here: a pixmap's identity is its `key`, and loading
    the downloaded bytes is done by the caller, who passes the pixmap in. */
module SingleDownload {
  import opened Common
  import opened Sorting

  // -----------------------------------------------------------------------
  // Comments.update_wait

  /** The number of dots after one more tick of the wait timer:
      `dots_count += 1; dots_count %= 10; dots_count = dots_count or 1`. */
  function NextDots(dots: int): int {
    var d := (dots + 1) % 10;
    if d == 0 then 1 else d
  }

  /** The dots after `n` ticks from `dots`. */
  function DotsAfter(dots: int, n: nat): int {
    if n == 0 then dots else NextDots(DotsAfter(dots, n - 1))
  }

  class Comments {
    var dotsCount: int

    constructor()
      ensures dotsCount == 0
    {
      dotsCount := 0;
    }

    /** `update_wait`. */
    method UpdateWait()
      modifies this`dotsCount
      ensures dotsCount == NextDots(old(dotsCount))
      ensures 1 <= dotsCount <= 9
    {
      dotsCount := dotsCount + 1;
      dotsCount := dotsCount % 10;
      if dotsCount == 0 {
        dotsCount := 1;
      }
    }

    /** `show_wait`: restart the count and tick once. */
    method ShowWait()
      modifies this`dotsCount
      ensures dotsCount == 1
    {
      dotsCount := 0;
      UpdateWait();
    }
  }

  /** Whatever the count was, one tick leaves between one and nine dots. */
  lemma NextDotsRange(dots: int)
    ensures 1 <= NextDots(dots) <= 9
  {
  }

  /** From `show_wait` on, the dots count 1, 2, ..., 9 and start again. */
  lemma {:induction false} DotsCycle(n: nat)
    ensures DotsAfter(0, n + 1) == n % 9 + 1
  {
    if n > 0 {
      DotsCycle(n - 1);
      NinthStep(n);
    }
  }

  /** Counting modulo nine one step further. */
  lemma NinthStep(n: nat)
    requires n > 0
    ensures NextDots((n - 1) % 9 + 1) == n % 9 + 1
  {
    var q, m := (n - 1) / 9, (n - 1) % 9;
    assert n == 9 * q + m + 1;
    if m == 8 {
      assert n == 9 * (q + 1);
    } else {
      assert n % 9 == m + 1;
    }
  }

  // -----------------------------------------------------------------------
  // Covers and the rows of each source

  /** A loaded pixmap: `key` stands for the object's identity. */
  datatype Pixmap = Pixmap(key: nat, width: int, height: int, isNull: bool)

  /** An entry of the list: its caption (the source's name; the size the
      caption also shows is left out), the full-size pixmap (None for an
      entry still waiting) and whether it is still waiting. */
  datatype Cover = Cover(caption: string, pixmap: Option<Pixmap>, waiting: bool)

  const CurrentCaption := "Current cover"
  const SearchingSuffix := "\nSearching..."

  function Waiting(plugin: string): Cover {
    Cover(plugin + SearchingSuffix, None, true)
  }

  /** The sort key of `clear_failed`: the pixmap's area, 1 without one. */
  function Area(c: Cover): int {
    match c.pixmap
    case None => 1
    case Some(p) => p.width * p.height
  }

  predicate Increasing(s: seq<int>) {
    forall i, j :: 0 <= i < j < |s| ==> s[i] < s[j]
  }

  predicate DistinctNames(s: seq<string>) {
    forall i, j :: 0 <= i < j < |s| ==> s[i] != s[j]
  }

  /** Entry 0 is a finished cover (the current one) and there is one. */
  ghost predicate HeadOk(covers: seq<Cover>) {
    |covers| >= 1 && !covers[0].waiting
  }

  /** `plugin_map`'s keys, in the order the dictionary iterates them. */
  ghost predicate KeysOk(order: seq<string>, rows: map<string, seq<int>>) {
    && DistinctNames(order)
    && (forall p :: p in rows <==> p in order)
  }

  /** Each source has at least one row, in increasing order, and rows are
      entries other than the first. */
  ghost predicate ListsOk(rows: map<string, seq<int>>, n: int) {
    forall p :: p in rows ==>
      && |rows[p]| >= 1
      && Increasing(rows[p])
      && (forall k :: 0 <= k < |rows[p]| ==> 1 <= rows[p][k] < n)
  }

  /** No row belongs to two sources. */
  ghost predicate Disjoint(rows: map<string, seq<int>>) {
    forall p, q, k, l :: p in rows && q in rows && p != q && 0 <= k < |rows[p]| && 0 <= l < |rows[q]| ==>
      rows[p][k] != rows[q][l]
  }

  ghost predicate RowsValid(covers: seq<Cover>, order: seq<string>, rows: map<string, seq<int>>) {
    && HeadOk(covers)
    && KeysOk(order, rows)
    && ListsOk(rows, |covers|)
    && Disjoint(rows)
  }

  /** `plugin_for_index`: the first source, in dictionary order, whose rows
      hold `row`. */
  function FirstOwner(order: seq<string>, rows: map<string, seq<int>>, row: int): (r: Option<string>)
    ensures r.Some? ==> r.value in order && r.value in rows && row in rows[r.value]
    ensures r.None? ==> forall i :: 0 <= i < |order| && order[i] in rows ==> row !in rows[order[i]]
  {
    if |order| == 0 then None
    else if order[0] in rows && row in rows[order[0]] then Some(order[0])
    else FirstOwner(order[1..], rows, row)
  }

  /** With disjoint rows, the source `plugin_for_index` finds is the one
      source whose rows hold the row. */
  lemma {:induction false} FirstOwnerUnique(order: seq<string>, rows: map<string, seq<int>>, row: int, p: string)
    requires KeysOk(order, rows) && Disjoint(rows)
    ensures FirstOwner(order, rows, row) == Some(p) <==> p in rows && row in rows[p]
  {
    if p in rows && row in rows[p] {
      assert p in order;
    }
  }

  /** `list.insert(-1, x)` on a non-empty list: `x` goes before the last. */
  function InsertBeforeLast(s: seq<int>, x: int): (r: seq<int>)
    requires |s| >= 1
    ensures |r| == |s| + 1 && r[|s| - 1] == x && r[|s|] == s[|s| - 1]
    ensures forall k :: 0 <= k < |s| - 1 ==> r[k] == s[k]
  {
    s[..|s| - 1] + [x, s[|s| - 1]]
  }

  /** A row after an entry was inserted at `at`. */
  function Bump(row: int, at: int): int {
    if row >= at then row + 1 else row
  }

  function Shifted(s: seq<int>, at: int): (r: seq<int>)
    ensures |r| == |s|
    ensures forall k :: 0 <= k < |s| ==> r[k] == Bump(s[k], at)
  {
    seq(|s|, k requires 0 <= k < |s| => Bump(s[k], at))
  }

  function ShiftAll(rows: map<string, seq<int>>, at: int): (r: map<string, seq<int>>)
    ensures r.Keys == rows.Keys
    ensures forall p :: p in rows ==> r[p] == Shifted(rows[p], at)
  {
    map p | p in rows :: Shifted(rows[p], at)
  }

  /** The inner loop of `update_result` that bumps one source's rows. */
  method ShiftList(list: seq<int>, at: int) returns (r: seq<int>)
    ensures r == Shifted(list, at)
  {
    r := list;
    for k := 0 to |r|
      invariant |r| == |list|
      invariant forall m :: 0 <= m < k ==> r[m] == Bump(list[m], at)
      invariant forall m :: k <= m < |r| ==> r[m] == list[m]
    {
      if r[k] >= at {
        r := r[k := r[k] + 1];
      }
    }
  }

  /** The outer loop of that bump, over `plugin_map` in iteration order. */
  method ShiftEach(keys: seq<string>, start: map<string, seq<int>>, at: int) returns (rs: map<string, seq<int>>)
    requires KeysOk(keys, start)
    ensures rs == ShiftAll(start, at)
  {
    rs := start;
    for i := 0 to |keys|
      invariant rs.Keys == start.Keys
      invariant forall j :: 0 <= j < i ==> rs[keys[j]] == Shifted(start[keys[j]], at)
      invariant forall p :: p in rs && p !in keys[..i] ==> rs[p] == start[p]
    {
      var p := keys[i];
      assert p in keys && p !in keys[..i];
      var list := ShiftList(rs[p], at);
      rs := rs[p := list];
      assert keys[..i + 1] == keys[..i] + [p];
    }
    ShiftEachDone(keys, start, rs, at);
  }

  lemma ShiftEachDone(keys: seq<string>, start: map<string, seq<int>>, rs: map<string, seq<int>>, at: int)
    requires KeysOk(keys, start) && rs.Keys == start.Keys
    requires forall j :: 0 <= j < |keys| ==> rs[keys[j]] == Shifted(start[keys[j]], at)
    ensures rs == ShiftAll(start, at)
  {
    forall p | p in rs ensures rs[p] == ShiftAll(start, at)[p] {
      assert p in keys;
      var j :| 0 <= j < |keys| && keys[j] == p;
    }
  }

  /** `list.insert(at, item)` with `at` inside the list. */
  function InsertAt(covers: seq<Cover>, at: int, item: Cover): (r: seq<Cover>)
    requires 0 <= at <= |covers|
    ensures |r| == |covers| + 1 && r[at] == item
  {
    covers[..at] + [item] + covers[at..]
  }

  /** Inserting at `at` and bumping the rows keeps every row on its entry. */
  lemma InsertKeepsEntries(covers: seq<Cover>, at: int, item: Cover, row: int)
    requires 0 <= at <= |covers| && 0 <= row < |covers|
    ensures InsertAt(covers, at, item)[Bump(row, at)] == covers[row]
  {
    if row >= at {
      assert InsertAt(covers, at, item)[row + 1] == covers[at..][row - at];
    }
  }

  /** `max(list)`. */
  function MaxOf(s: seq<int>): (r: int)
    requires |s| >= 1
    ensures r in s
    ensures forall k :: 0 <= k < |s| ==> s[k] <= r
  {
    if |s| == 1 then s[0]
    else
      var m := MaxOf(s[1..]);
      assert forall k :: 1 <= k < |s| ==> s[k] == s[1..][k - 1];
      if s[0] >= m then s[0] else m
  }

  lemma MaxOfIncreasing(s: seq<int>)
    requires |s| >= 1 && Increasing(s)
    ensures MaxOf(s) == s[|s| - 1]
  {
    var k :| 0 <= k < |s| && s[k] == MaxOf(s);
    assert s[|s| - 1] <= MaxOf(s);
    if k < |s| - 1 {
      assert s[k] < s[|s| - 1];
    }
  }

  /** The rows after a multi-cover source's new cover was inserted at `at`,
      just before its last row. */
  function RowsAfterInsert(rows: map<string, seq<int>>, p: string, at: int): map<string, seq<int>>
    requires p in rows && |rows[p]| >= 1
  {
    ShiftAll(rows, at)[p := InsertBeforeLast(Shifted(rows[p], at), at)]
  }

  lemma ShiftedIncreasing(s: seq<int>, at: int)
    requires Increasing(s)
    ensures Increasing(Shifted(s, at))
  {
  }

  lemma InsertedList(s: seq<int>, at: int, n: int)
    requires |s| >= 1 && Increasing(s) && at == s[|s| - 1]
    requires forall k :: 0 <= k < |s| ==> 1 <= s[k] < n
    ensures var r := InsertBeforeLast(Shifted(s, at), at);
            && Increasing(r)
            && (forall k :: 0 <= k < |r| ==> 1 <= r[k] < n + 1)
            && r[|s|] == Bump(s[|s| - 1], at)
            && (forall k :: 0 <= k < |s| - 1 ==> r[k] == Bump(s[k], at))
  {
    var t := Shifted(s, at);
    var r := InsertBeforeLast(t, at);
    forall k | 0 <= k < |s| - 1 ensures r[k] == s[k] && s[k] < at {
      assert s[k] < s[|s| - 1];
    }
  }

  /** The insertion of a multi-cover result keeps the row tables valid. */
  lemma MultiInsertValid(covers: seq<Cover>, order: seq<string>, rows: map<string, seq<int>>,
                         p: string, item: Cover)
    requires RowsValid(covers, order, rows) && p in rows && !item.waiting
    ensures |rows[p]| >= 1 && 0 <= MaxOf(rows[p]) <= |covers|
    ensures RowsValid(InsertAt(covers, MaxOf(rows[p]), item), order,
                      RowsAfterInsert(rows, p, MaxOf(rows[p])))
  {
    ListOf(rows, |covers|, p);
    var at := MaxOf(rows[p]);
    var covers', rows' := InsertAt(covers, at, item), RowsAfterInsert(rows, p, at);
    assert HeadOk(covers') by {
      assert covers'[0] == covers[0];
    }
    assert KeysOk(order, rows') by {
      InsertKeepsKeys(order, rows, p, at);
    }
    assert ListsOk(rows', |covers'|) by {
      MultiInsertLists(rows, p, |covers|);
    }
    assert Disjoint(rows') by {
      MultiInsertDisjoint(rows, p, |covers|);
    }
  }

  /** The new cover sits at the row the source's rows now hold, and every
      row of every source still points at the entry it pointed at before. */
  lemma MultiInsertEntries(covers: seq<Cover>, rows: map<string, seq<int>>, p: string, item: Cover)
    requires ListsOk(rows, |covers|) && p in rows
    ensures |rows[p]| >= 1 && 0 <= MaxOf(rows[p]) <= |covers|
    ensures MaxOf(rows[p]) in RowsAfterInsert(rows, p, MaxOf(rows[p]))[p]
    ensures forall q, k :: q in rows && 0 <= k < |rows[q]| ==>
              InsertAt(covers, MaxOf(rows[p]), item)[Bump(rows[q][k], MaxOf(rows[p]))] == covers[rows[q][k]]
  {
    var s := rows[p];
    ListOf(rows, |covers|, p);
    var at := MaxOf(s);
    MaxOfIncreasing(s);
    assert at in RowsAfterInsert(rows, p, at)[p] by {
      InsertedList(s, at, |covers|);
    }
    forall q, k | q in rows && 0 <= k < |rows[q]|
      ensures InsertAt(covers, at, item)[Bump(rows[q][k], at)] == covers[rows[q][k]]
    {
      assert 0 <= rows[q][k] < |covers|;
      InsertKeepsEntries(covers, at, item, rows[q][k]);
    }
  }

  lemma ListOf(rows: map<string, seq<int>>, n: int, p: string)
    requires ListsOk(rows, n) && p in rows
    ensures |rows[p]| >= 1 && Increasing(rows[p])
    ensures forall k :: 0 <= k < |rows[p]| ==> 1 <= rows[p][k] < n
  {
  }

  lemma InsertKeepsKeys(order: seq<string>, rows: map<string, seq<int>>, p: string, at: int)
    requires KeysOk(order, rows) && p in rows && |rows[p]| >= 1
    ensures KeysOk(order, RowsAfterInsert(rows, p, at))
  {
  }

  lemma MultiInsertLists(rows: map<string, seq<int>>, p: string, n: int)
    requires ListsOk(rows, n) && p in rows
    ensures ListsOk(RowsAfterInsert(rows, p, MaxOf(rows[p])), n + 1)
  {
    ListOf(rows, n, p);
    MaxOfIncreasing(rows[p]);
    InsertKeepsLists(rows, p, MaxOf(rows[p]), n);
  }

  lemma MultiInsertDisjoint(rows: map<string, seq<int>>, p: string, n: int)
    requires ListsOk(rows, n) && Disjoint(rows) && p in rows
    ensures Disjoint(RowsAfterInsert(rows, p, MaxOf(rows[p])))
  {
    ListOf(rows, n, p);
    InsertKeepsDisjoint(rows, p, MaxOf(rows[p]));
  }

  lemma InsertKeepsLists(rows: map<string, seq<int>>, p: string, at: int, n: int)
    requires ListsOk(rows, n) && p in rows && at == rows[p][|rows[p]| - 1]
    ensures ListsOk(RowsAfterInsert(rows, p, at), n + 1)
  {
    var rows' := RowsAfterInsert(rows, p, at);
    InsertedList(rows[p], at, n);
    forall q | q in rows' && q != p
      ensures Increasing(rows'[q]) && forall k :: 0 <= k < |rows'[q]| ==> 1 <= rows'[q][k] < n + 1
    {
      ShiftedIncreasing(rows[q], at);
    }
  }

  lemma InsertKeepsDisjoint(rows: map<string, seq<int>>, p: string, at: int)
    requires Disjoint(rows) && p in rows && |rows[p]| >= 1 && Increasing(rows[p])
    requires at == rows[p][|rows[p]| - 1]
    ensures Disjoint(RowsAfterInsert(rows, p, at))
  {
    var rows' := RowsAfterInsert(rows, p, at);
    forall q1, q2, k, l | q1 in rows' && q2 in rows' && q1 != q2 && 0 <= k < |rows'[q1]| && 0 <= l < |rows'[q2]|
      ensures rows'[q1][k] != rows'[q2][l]
    {
      DisjointAfterInsert(rows, p, at, q1, q2, k, l);
    }
  }

  lemma DisjointAfterInsert(rows: map<string, seq<int>>, p: string, at: int,
                            q1: string, q2: string, k: int, l: int)
    requires Disjoint(rows) && p in rows && |rows[p]| >= 1 && Increasing(rows[p])
    requires at == rows[p][|rows[p]| - 1]
    requires q1 in rows && q2 in rows && q1 != q2
    requires 0 <= k < |RowsAfterInsert(rows, p, at)[q1]| && 0 <= l < |RowsAfterInsert(rows, p, at)[q2]|
    ensures RowsAfterInsert(rows, p, at)[q1][k] != RowsAfterInsert(rows, p, at)[q2][l]
  {
    var rows' := RowsAfterInsert(rows, p, at);
    var n := |rows[p]|;
    // the row each entry of rows' came from, or `at` for the inserted one
    assert forall q, m :: q in rows && q != p && 0 <= m < |rows'[q]| ==> rows'[q][m] == Bump(rows[q][m], at);
    assert forall q, m :: q in rows && q != p && 0 <= m < |rows'[q]| ==> rows[q][m] != at;
    forall m | 0 <= m < |rows'[p]| && m != n - 1
      ensures exists j :: 0 <= j < n && rows'[p][m] == Bump(rows[p][j], at)
    {
      if m < n - 1 {
        assert rows'[p][m] == Bump(rows[p][m], at);
      } else {
        assert rows'[p][m] == Bump(rows[p][n - 1], at);
      }
    }
    assert rows'[p][n - 1] == at;
  }

  /** The placeholder entries `reset_covers` appends, one per source. */
  function WaitingList(plugins: seq<string>): (r: seq<Cover>)
    ensures |r| == |plugins|
    ensures forall i :: 0 <= i < |plugins| ==> r[i] == Waiting(plugins[i]) && r[i].waiting
  {
    seq(|plugins|, i requires 0 <= i < |plugins| => Waiting(plugins[i]))
  }

  lemma WaitingListStep(plugins: seq<string>, i: nat)
    requires i < |plugins|
    ensures WaitingList(plugins[..i + 1]) == WaitingList(plugins[..i]) + [Waiting(plugins[i])]
  {
    assert WaitingList(plugins[..i + 1])[i] == Waiting(plugins[i]);
  }

  /** Every source seen so far has exactly one row, and no two share it. */
  ghost predicate SingleRows(rows: map<string, seq<int>>, i: int) {
    && (forall p :: p in rows ==> |rows[p]| == 1 && 1 <= rows[p][0] <= i)
    && (forall p, q :: p in rows && q in rows && p != q ==> rows[p][0] != rows[q][0])
  }

  /** With distinct source names, source `j` owns row `j + 1`. */
  ghost predicate InListOrder(plugins: seq<string>, i: int, order: seq<string>, rows: map<string, seq<int>>)
    requires 0 <= i <= |plugins|
  {
    DistinctNames(plugins) ==>
      && order == plugins[..i]
      && forall j :: 0 <= j < i ==> plugins[j] in rows && rows[plugins[j]] == [j + 1]
  }

  /** The row tables after `reset_covers` has handled the first `i` sources. */
  ghost predicate ResetRows(plugins: seq<string>, i: int, order: seq<string>, rows: map<string, seq<int>>)
    requires 0 <= i <= |plugins|
  {
    && KeysOk(order, rows)
    && (forall p :: p in rows <==> p in plugins[..i])
    && SingleRows(rows, i)
    && InListOrder(plugins, i, order, rows)
  }

  lemma ResetStep(plugins: seq<string>, i: nat, order: seq<string>, rows: map<string, seq<int>>)
    requires i < |plugins| && ResetRows(plugins, i, order, rows)
    ensures ResetRows(plugins, i + 1, if plugins[i] in rows then order else order + [plugins[i]],
                      rows[plugins[i] := [i + 1]])
  {
    var order' := if plugins[i] in rows then order else order + [plugins[i]];
    var rows' := rows[plugins[i] := [i + 1]];
    assert plugins[..i + 1] == plugins[..i] + [plugins[i]];
    assert KeysOk(order', rows') by {
      ResetKeysStep(plugins[i], order, rows, [i + 1]);
    }
    assert SingleRows(rows', i + 1) by {
      ResetSingleStep(plugins[i], rows, i);
    }
    assert InListOrder(plugins, i + 1, order', rows') by {
      ResetOrderStep(plugins, i, order, rows);
    }
  }

  lemma ResetKeysStep(p: string, order: seq<string>, rows: map<string, seq<int>>, row: seq<int>)
    requires KeysOk(order, rows)
    ensures KeysOk(if p in rows then order else order + [p], rows[p := row])
  {
  }

  lemma ResetSingleStep(p: string, rows: map<string, seq<int>>, i: nat)
    requires SingleRows(rows, i)
    ensures SingleRows(rows[p := [i + 1]], i + 1)
  {
  }

  lemma ResetOrderStep(plugins: seq<string>, i: nat, order: seq<string>, rows: map<string, seq<int>>)
    requires i < |plugins| && InListOrder(plugins, i, order, rows)
    requires forall p :: p in rows <==> p in plugins[..i]
    ensures InListOrder(plugins, i + 1, if plugins[i] in rows then order else order + [plugins[i]],
                        rows[plugins[i] := [i + 1]])
  {
    assert plugins[..i + 1] == plugins[..i] + [plugins[i]];
    if DistinctNames(plugins) {
      assert plugins[i] !in plugins[..i];
    }
  }

  lemma ResetDone(covers: seq<Cover>, plugins: seq<string>, order: seq<string>, rows: map<string, seq<int>>)
    requires HeadOk(covers) && |covers| == |plugins| + 1
    requires ResetRows(plugins, |plugins|, order, rows)
    ensures RowsValid(covers, order, rows)
    ensures forall p :: p in rows <==> p in plugins
    ensures DistinctNames(plugins) ==> order == plugins
    ensures DistinctNames(plugins) ==> forall i :: 0 <= i < |plugins| ==> rows[plugins[i]] == [i + 1]
  {
    assert plugins[..|plugins|] == plugins;
  }

  // -----------------------------------------------------------------------
  // clear_failed

  /** Every entry with the row it had before `clear_failed`. */
  function TaggedAll(covers: seq<Cover>): (r: seq<(Cover, int)>)
    ensures |r| == |covers|
    ensures forall i :: 0 <= i < |r| ==> r[i] == (covers[i], i)
  {
    seq(|covers|, i requires 0 <= i < |covers| => (covers[i], i))
  }

  /** The sort key of `clear_failed` under `reverse=True`. */
  function AreaKey(t: (Cover, int)): int {
    -Area(t.0)
  }

  /** Every tag is a row of `covers` and the entry is the one at that row. */
  ghost predicate TagsTrue(s: seq<(Cover, int)>, covers: seq<Cover>) {
    forall i :: 0 <= i < |s| ==> 0 <= s[i].1 < |covers| && s[i].0 == covers[s[i].1]
  }

  lemma TagsTrueOfPermutation(s: seq<(Cover, int)>, t: seq<(Cover, int)>, covers: seq<Cover>)
    requires TagsTrue(s, covers) && multiset(t) == multiset(s)
    ensures TagsTrue(t, covers)
  {
    forall i | 0 <= i < |t| ensures 0 <= t[i].1 < |covers| && t[i].0 == covers[t[i].1] {
      assert t[i] in multiset(s);
      var j :| 0 <= j < |s| && s[j] == t[i];
    }
  }

  /** `self.covers[0:1] + sorted(self.covers[1:], key=keygen, reverse=True)`,
      each entry tagged with its row before. */
  function Arranged(covers: seq<Cover>): (r: seq<(Cover, int)>)
    requires |covers| >= 1
    ensures |r| == |covers| && r[0] == (covers[0], 0)
  {
    ByKeyTotal(AreaKey);
    [(covers[0], 0)] + Sort(TaggedAll(covers)[1..], ByKey(AreaKey))
  }

  /** Every arranged entry is the entry at the row it is tagged with. */
  lemma ArrangedTags(covers: seq<Cover>)
    requires |covers| >= 1
    ensures TagsTrue(Arranged(covers), covers)
  {
    ByKeyTotal(AreaKey);
    var tail := TaggedAll(covers)[1..];
    var sorted := Sort(tail, ByKey(AreaKey));
    assert TagsTrue(tail, covers);
    TagsTrueOfPermutation(tail, sorted, covers);
    assert Arranged(covers) == [(covers[0], 0)] + sorted;
  }

  /** The same entries tagged with their position in the arranged list
      instead of their row before. */
  function Positioned(s: seq<(Cover, int)>): (r: seq<(Cover, int)>)
    ensures |r| == |s|
    ensures forall i :: 0 <= i < |r| ==> r[i] == (s[i].0, i)
  {
    seq(|s|, i requires 0 <= i < |s| => (s[i].0, i))
  }

  /** `cmap`: the source of every row, before the list is rearranged. */
  function Owners(order: seq<string>, rows: map<string, seq<int>>, n: nat): (r: seq<Option<string>>)
    ensures |r| == n
    ensures forall i :: 0 <= i < n ==> r[i] == FirstOwner(order, rows, i)
  {
    seq(n, i requires 0 <= i < n => FirstOwner(order, rows, i))
  }

  ghost predicate TagsBelow(s: seq<(Cover, int)>, n: int) {
    forall i :: 0 <= i < |s| ==> 0 <= s[i].1 < n
  }

  /** The new `covers`, `plugin_map` keys in insertion order and rows. */
  datatype Table = Table(good: seq<Cover>, order: seq<string>, rows: map<string, seq<int>>)

  /** One turn of the loop of `clear_failed`: a finished entry is appended
      to `good` and its row to the rows of `owner`. */
  function CompactStep(t: Table, c: Cover, owner: Option<string>): Table {
    if c.waiting then t
    else
      var row := |t.good|;
      var good := t.good + [c];
      match owner
      case None => Table(good, t.order, t.rows)
      case Some(p) =>
        if p in t.rows then Table(good, t.order, t.rows[p := t.rows[p] + [row]])
        else Table(good, t.order + [p], t.rows[p := [row]])
  }

  /** The loop of `clear_failed` over `entries`, the owner of each entry
      being `cmap` at its tag. */
  function Compact(entries: seq<(Cover, int)>, cmap: seq<Option<string>>): Table
    requires TagsBelow(entries, |cmap|)
    decreases |entries|
  {
    if |entries| == 0 then Table([], [], map[])
    else
      var n := |entries| - 1;
      CompactStep(Compact(entries[..n], cmap), entries[n].0, cmap[entries[n].1])
  }

  /** The entries that are no longer waiting, in order. */
  function Survivors(entries: seq<(Cover, int)>): seq<(Cover, int)>
    decreases |entries|
  {
    if |entries| == 0 then []
    else
      var n := |entries| - 1;
      Survivors(entries[..n]) + (if entries[n].0.waiting then [] else [entries[n]])
  }

  /** `clear_failed`, each entry going to the source that owned its row
      before the list was rearranged. */
  function Cleared(covers: seq<Cover>, order: seq<string>, rows: map<string, seq<int>>): Table
    requires |covers| >= 1
  {
    ArrangedTags(covers);
    Compact(Arranged(covers), Owners(order, rows, |covers|))
  }

  /** `clear_failed` as written: `cmap[i]` is looked up with the entry's
      position in the rearranged list. */
  function ClearedAsWritten(covers: seq<Cover>, order: seq<string>, rows: map<string, seq<int>>): Table
    requires |covers| >= 1
  {
    Compact(Positioned(Arranged(covers)), Owners(order, rows, |covers|))
  }

  // What the compaction computes, for any owners.

  ghost predicate TableLists(rows: map<string, seq<int>>, s: seq<(Cover, int)>, cmap: seq<Option<string>>)
    requires TagsBelow(s, |cmap|)
  {
    forall p :: p in rows ==>
      && |rows[p]| >= 1
      && Increasing(rows[p])
      && (forall k :: 0 <= k < |rows[p]| ==> 0 <= rows[p][k] < |s| && cmap[s[rows[p][k]].1] == Some(p))
  }

  ghost predicate TableComplete(rows: map<string, seq<int>>, s: seq<(Cover, int)>, cmap: seq<Option<string>>)
    requires TagsBelow(s, |cmap|)
  {
    forall j :: 0 <= j < |s| && cmap[s[j].1].Some? ==> cmap[s[j].1].value in rows && j in rows[cmap[s[j].1].value]
  }

  ghost predicate GoodIs(good: seq<Cover>, s: seq<(Cover, int)>) {
    |good| == |s| && forall j :: 0 <= j < |s| ==> good[j] == s[j].0
  }

  lemma SurvivorsTags(entries: seq<(Cover, int)>, n: int)
    requires TagsBelow(entries, n)
    ensures TagsBelow(Survivors(entries), n)
  {
    if |entries| > 0 {
      SurvivorsTags(entries[..|entries| - 1], n);
    }
  }

  /** The compaction keeps the finished entries in order and lists every
      one of them, and only those, under its owner. */
  lemma {:induction false} CompactTable(entries: seq<(Cover, int)>, cmap: seq<Option<string>>)
    requires TagsBelow(entries, |cmap|)
    ensures TagsBelow(Survivors(entries), |cmap|)
    ensures var t := Compact(entries, cmap);
            && GoodIs(t.good, Survivors(entries))
            && KeysOk(t.order, t.rows)
            && TableLists(t.rows, Survivors(entries), cmap)
            && TableComplete(t.rows, Survivors(entries), cmap)
  {
    SurvivorsTags(entries, |cmap|);
    if |entries| > 0 {
      var n := |entries| - 1;
      var pre := entries[..n];
      CompactTable(pre, cmap);
      var t := Compact(pre, cmap);
      var s := Survivors(pre);
      var c := entries[n];
      if !c.0.waiting {
        var s' := s + [c];
        assert Survivors(entries) == s';
        var owner := cmap[c.1];
        var t' := CompactStep(t, c.0, owner);
        assert GoodIs(t'.good, s');
        match owner
        case None =>
          TableNoOwner(t.rows, s, c, cmap);
        case Some(p) =>
          if p in t.rows {
            TableOldOwner(t.rows, s, c, cmap, p);
          } else {
            TableNewOwner(t.order, t.rows, s, c, cmap, p);
          }
      }
    }
  }

  lemma TableNoOwner(rows: map<string, seq<int>>, s: seq<(Cover, int)>, c: (Cover, int),
                     cmap: seq<Option<string>>)
    requires TagsBelow(s, |cmap|) && 0 <= c.1 < |cmap| && cmap[c.1].None?
    ensures TagsBelow(s + [c], |cmap|)
    requires TableLists(rows, s, cmap) && TableComplete(rows, s, cmap)
    ensures TableLists(rows, s + [c], cmap) && TableComplete(rows, s + [c], cmap)
  {
    var s' := s + [c];
    assert forall j :: 0 <= j < |s| ==> s'[j] == s[j];
  }

  lemma TableOldOwner(rows: map<string, seq<int>>, s: seq<(Cover, int)>, c: (Cover, int),
                      cmap: seq<Option<string>>, p: string)
    requires TagsBelow(s, |cmap|) && 0 <= c.1 < |cmap| && cmap[c.1] == Some(p) && p in rows
    ensures TagsBelow(s + [c], |cmap|)
    requires TableLists(rows, s, cmap) && TableComplete(rows, s, cmap)
    ensures TableLists(rows[p := rows[p] + [|s|]], s + [c], cmap)
    ensures TableComplete(rows[p := rows[p] + [|s|]], s + [c], cmap)
  {
    var s' := s + [c];
    var rows' := rows[p := rows[p] + [|s|]];
    assert forall j :: 0 <= j < |s| ==> s'[j] == s[j];
    assert Increasing(rows'[p]) by {
      forall i, j | 0 <= i < j < |rows'[p]| ensures rows'[p][i] < rows'[p][j] {
        if j == |rows[p]| {
          assert rows[p][i] < |s|;
        }
      }
    }
    assert forall k :: 0 <= k < |rows[p]| ==> rows'[p][k] == rows[p][k];
    assert |s| in rows'[p] by {
      assert rows'[p][|rows[p]|] == |s|;
    }
  }

  lemma TableNewOwner(order: seq<string>, rows: map<string, seq<int>>, s: seq<(Cover, int)>,
                      c: (Cover, int), cmap: seq<Option<string>>, p: string)
    requires TagsBelow(s, |cmap|) && 0 <= c.1 < |cmap| && cmap[c.1] == Some(p) && p !in rows
    ensures TagsBelow(s + [c], |cmap|)
    requires KeysOk(order, rows) && TableLists(rows, s, cmap) && TableComplete(rows, s, cmap)
    ensures KeysOk(order + [p], rows[p := [|s|]])
    ensures TableLists(rows[p := [|s|]], s + [c], cmap)
    ensures TableComplete(rows[p := [|s|]], s + [c], cmap)
  {
    var s' := s + [c];
    assert forall j :: 0 <= j < |s| ==> s'[j] == s[j];
    assert p !in order;
  }


  // Properties of the surviving entries.

  lemma {:induction false} SurvivorsConcat(a: seq<(Cover, int)>, b: seq<(Cover, int)>)
    ensures Survivors(a + b) == Survivors(a) + Survivors(b)
    decreases |b|
  {
    if |b| == 0 {
      assert a + b == a;
    } else {
      var n := |b| - 1;
      SurvivorsConcat(a, b[..n]);
      assert (a + b)[..|a| + n] == a + b[..n];
      assert (a + b)[|a| + n] == b[n];
    }
  }

  lemma {:induction false} SurvivorsMember(e: seq<(Cover, int)>, x: (Cover, int))
    ensures x in Survivors(e) <==> x in e && !x.0.waiting
    decreases |e|
  {
    if |e| > 0 {
      var n := |e| - 1;
      SurvivorsMember(e[..n], x);
      assert e == e[..n] + [e[n]];
    }
  }

  lemma {:induction false} SurvivorsCount(e: seq<(Cover, int)>, x: (Cover, int))
    ensures multiset(Survivors(e))[x] == if x.0.waiting then 0 else multiset(e)[x]
    decreases |e|
  {
    if |e| > 0 {
      var n := |e| - 1;
      SurvivorsCount(e[..n], x);
      assert e == e[..n] + [e[n]];
    }
  }

  /** Dropping the waiting entries of two permutations of each other leaves
      permutations of each other. */
  lemma SurvivorsPermutation(a: seq<(Cover, int)>, b: seq<(Cover, int)>)
    requires multiset(a) == multiset(b)
    ensures multiset(Survivors(a)) == multiset(Survivors(b))
  {
    forall x ensures multiset(Survivors(a))[x] == multiset(Survivors(b))[x] {
      SurvivorsCount(a, x);
      SurvivorsCount(b, x);
    }
  }

  lemma {:induction false} SurvivorsSorted(e: seq<(Cover, int)>, le: ((Cover, int), (Cover, int)) -> bool)
    requires Sorted(e, le)
    ensures Sorted(Survivors(e), le)
    decreases |e|
  {
    if |e| > 0 {
      var n := |e| - 1;
      var pre := e[..n];
      assert Sorted(pre, le);
      SurvivorsSorted(pre, le);
      if !e[n].0.waiting {
        var s := Survivors(pre);
        forall i | 0 <= i < |s| ensures le(s[i], e[n]) {
          SurvivorsMember(pre, s[i]);
          var k :| 0 <= k < n && pre[k] == s[i];
        }
      }
    }
  }

  /** No source owns row 0, the book's current cover. */
  lemma HeadUnowned(covers: seq<Cover>, order: seq<string>, rows: map<string, seq<int>>)
    requires RowsValid(covers, order, rows)
    ensures FirstOwner(order, rows, 0).None?
  {
  }

  lemma TableValid(rows: map<string, seq<int>>, s: seq<(Cover, int)>, cmap: seq<Option<string>>)
    requires TagsBelow(s, |cmap|) && |s| >= 1 && cmap[s[0].1].None?
    requires TableLists(rows, s, cmap)
    ensures ListsOk(rows, |s|) && Disjoint(rows)
  {
  }

  lemma TableOwners(rows: map<string, seq<int>>, s: seq<(Cover, int)>, cmap: seq<Option<string>>,
                    j: int, p: string)
    requires TagsBelow(s, |cmap|) && TableLists(rows, s, cmap) && TableComplete(rows, s, cmap)
    requires 0 <= j < |s|
    ensures p in rows && j in rows[p] <==> cmap[s[j].1] == Some(p)
  {
    if p in rows && j in rows[p] {
      var k :| 0 <= k < |rows[p]| && rows[p][k] == j;
    }
  }

  /** The arranged list starts with the current cover, and so do its survivors. */
  lemma SurvivorsOfArranged(covers: seq<Cover>)
    requires HeadOk(covers)
    ensures var a := Arranged(covers);
            Survivors(a) == [a[0]] + Survivors(a[1..])
  {
    var a := Arranged(covers);
    SurvivorsConcat([a[0]], a[1..]);
    assert [a[0]] + a[1..] == a;
    assert [a[0]][..0] == [];
  }

  /** `clear_failed` leaves a valid list: the current cover first, every
      source with increasing rows of its own. */
  lemma ClearFailedValid(covers: seq<Cover>, order: seq<string>, rows: map<string, seq<int>>)
    requires RowsValid(covers, order, rows)
    ensures var t := Cleared(covers, order, rows);
            RowsValid(t.good, t.order, t.rows)
  {
    var a := Arranged(covers);
    var cmap := Owners(order, rows, |covers|);
    ArrangedTags(covers);
    CompactTable(a, cmap);
    var t := Compact(a, cmap);
    var s := Survivors(a);
    SurvivorsOfArranged(covers);
    HeadUnowned(covers, order, rows);
    assert s[0] == (covers[0], 0);
    TableValid(t.rows, s, cmap);
  }

  /** Every entry left by `clear_failed` is an entry of the list before, at
      the row it is tagged with, and it is listed under exactly the source
      that owned that row. */
  lemma ClearFailedOwners(covers: seq<Cover>, order: seq<string>, rows: map<string, seq<int>>)
    requires RowsValid(covers, order, rows)
    ensures var t, s := Cleared(covers, order, rows), Survivors(Arranged(covers));
            && |t.good| == |s|
            && (forall j :: 0 <= j < |s| ==> 0 <= s[j].1 < |covers| && t.good[j] == covers[s[j].1])
            && (forall j, p :: 0 <= j < |s| ==> (p in t.rows && j in t.rows[p] <==> p in rows && s[j].1 in rows[p]))
  {
    var a := Arranged(covers);
    var cmap := Owners(order, rows, |covers|);
    ArrangedTags(covers);
    CompactTable(a, cmap);
    var t := Compact(a, cmap);
    var s := Survivors(a);
    forall j | 0 <= j < |s| ensures 0 <= s[j].1 < |covers| && t.good[j] == covers[s[j].1] {
      SurvivorsMember(a, s[j]);
    }
    forall j, p | 0 <= j < |s| ensures p in t.rows && j in t.rows[p] <==> p in rows && s[j].1 in rows[p] {
      TableOwners(t.rows, s, cmap, j, p);
      FirstOwnerUnique(order, rows, s[j].1, p);
    }
  }

  lemma CompactGood(entries: seq<(Cover, int)>, cmap: seq<Option<string>>)
    requires TagsBelow(entries, |cmap|)
    ensures GoodIs(Compact(entries, cmap).good, Survivors(entries))
  {
    CompactTable(entries, cmap);
  }

  /** The finished entries after the first, in the arranged list, come by
      decreasing area. */
  lemma ArrangedRestSorted(covers: seq<Cover>)
    requires |covers| >= 1
    ensures var rest := Survivors(Arranged(covers)[1..]);
            forall i, j :: 0 <= i < j < |rest| ==> Area(rest[i].0) >= Area(rest[j].0)
  {
    var a := Arranged(covers);
    ByKeyTotal(AreaKey);
    assert a[1..] == Sort(TaggedAll(covers)[1..], ByKey(AreaKey));
    SurvivorsSorted(a[1..], ByKey(AreaKey));
    var rest := Survivors(a[1..]);
    forall i, j | 0 <= i < j < |rest| ensures Area(rest[i].0) >= Area(rest[j].0) {
      assert ByKey(AreaKey)(rest[i], rest[j]);
    }
  }

  /** After `clear_failed` the current cover comes first and the others
      follow by decreasing area. */
  lemma ClearFailedSorted(covers: seq<Cover>, order: seq<string>, rows: map<string, seq<int>>)
    requires HeadOk(covers)
    ensures var t := Cleared(covers, order, rows);
            && |t.good| >= 1 && t.good[0] == covers[0]
            && (forall i, j :: 1 <= i < j < |t.good| ==> Area(t.good[i]) >= Area(t.good[j]))
  {
    var a := Arranged(covers);
    var cmap := Owners(order, rows, |covers|);
    ArrangedTags(covers);
    CompactGood(a, cmap);
    var good := Compact(a, cmap).good;
    SurvivorsOfArranged(covers);
    ArrangedRestSorted(covers);
    var rest := Survivors(a[1..]);
    assert forall i :: 1 <= i < |good| ==> good[i] == rest[i - 1].0;
  }

  /** `clear_failed` keeps exactly the finished entries, each once. */
  lemma ClearFailedKeeps(covers: seq<Cover>)
    requires HeadOk(covers)
    ensures var s := Survivors(Arranged(covers));
            && multiset(s) == multiset(Survivors(TaggedAll(covers)))
            && (forall r :: 0 <= r < |covers| ==> ((covers[r], r) in s <==> !covers[r].waiting))
  {
    var a := Arranged(covers);
    var tagged := TaggedAll(covers);
    assert multiset(a) == multiset(tagged) by {
      ByKeyTotal(AreaKey);
      assert a[1..] == Sort(tagged[1..], ByKey(AreaKey));
      assert tagged == [a[0]] + tagged[1..];
      assert a == [a[0]] + a[1..];
    }
    SurvivorsPermutation(a, tagged);
    forall r | 0 <= r < |covers| ensures (covers[r], r) in Survivors(a) <==> !covers[r].waiting {
      SurvivorsMember(a, (covers[r], r));
      assert tagged[r] == (covers[r], r);
      assert (covers[r], r) in multiset(a);
    }
  }

  /** The loop of `clear_failed` that fills `good` and the new `plugin_map`. */
  method CompactLoop(arranged: seq<(Cover, int)>, cmap: seq<Option<string>>) returns (t: Table)
    requires TagsBelow(arranged, |cmap|)
    ensures t == Compact(arranged, cmap)
  {
    var good: seq<Cover> := [];
    var order: seq<string> := [];
    var rows: map<string, seq<int>> := map[];
    for i := 0 to |arranged|
      invariant Table(good, order, rows) == Compact(arranged[..i], cmap)
    {
      assert arranged[..i + 1][..i] == arranged[..i];
      var x := arranged[i];
      if !x.0.waiting {
        good := good + [x.0];
        var plugin := cmap[x.1];
        if plugin.Some? {
          if plugin.value in rows {
            rows := rows[plugin.value := rows[plugin.value] + [|good| - 1]];
          } else {
            order := order + [plugin.value];
            rows := rows[plugin.value := [|good| - 1]];
          }
        }
      }
    }
    assert arranged[..|arranged|] == arranged;
    t := Table(good, order, rows);
  }

  // Two sources with one cover each, the second's larger.
  const ExCurrent := Cover(CurrentCaption, Some(Pixmap(0, 1, 1, false)), false)
  const ExSmall := Cover("P", Some(Pixmap(1, 2, 5, false)), false)
  const ExLarge := Cover("Q", Some(Pixmap(2, 10, 10, false)), false)
  const ExCovers := [ExCurrent, ExSmall, ExLarge]
  const ExOrder := ["P", "Q"]
  const ExRows := map["P" := [1], "Q" := [2]]

  lemma ExampleSorted()
    ensures Sort([(ExSmall, 1), (ExLarge, 2)], ByKey(AreaKey)) == [(ExLarge, 2), (ExSmall, 1)]
  {
    var le := ByKey(AreaKey);
    ByKeyTotal(AreaKey);
    var tail := [(ExSmall, 1), (ExLarge, 2)];
    assert tail[1..] == [(ExLarge, 2)] && [(ExLarge, 2)][1..] == [];
    var sortedTail := Sort([(ExLarge, 2)], le);
    assert sortedTail == [(ExLarge, 2)];
    assert !le((ExSmall, 1), (ExLarge, 2));
    assert Insert((ExSmall, 1), sortedTail, le) == [(ExLarge, 2), (ExSmall, 1)];
  }

  lemma ExampleArranged()
    ensures Arranged(ExCovers) == [(ExCurrent, 0), (ExLarge, 2), (ExSmall, 1)]
  {
    assert TaggedAll(ExCovers)[1..] == [(ExSmall, 1), (ExLarge, 2)];
    ExampleSorted();
  }

  lemma ExampleOwners()
    ensures Owners(ExOrder, ExRows, 3) == ExCmap
  {
    assert "P" != "Q";
  }

  const ExCmap: seq<Option<string>> := [None, Some("P"), Some("Q")]

  lemma ExampleHead(e: seq<(Cover, int)>)
    requires |e| >= 1 && e[0] == (ExCurrent, 0)
    ensures Compact(e[..1], ExCmap) == Table([ExCurrent], [], map[])
  {
    assert e[..1][..0] == [];
  }

  lemma ExampleWritten()
    ensures Compact([(ExCurrent, 0), (ExLarge, 1), (ExSmall, 2)], ExCmap)
              == Table([ExCurrent, ExLarge, ExSmall], ["P", "Q"], map["P" := [1], "Q" := [2]])
  {
    var p := [(ExCurrent, 0), (ExLarge, 1), (ExSmall, 2)];
    ExampleHead(p);
    assert Compact(p[..2], ExCmap) == Table([ExCurrent, ExLarge], ["P"], map["P" := [1]]) by {
      assert p[..2][..1] == p[..1];
    }
    assert p[..2] == p[..|p| - 1];
  }

  lemma ExampleIntended()
    ensures Compact([(ExCurrent, 0), (ExLarge, 2), (ExSmall, 1)], ExCmap)
              == Table([ExCurrent, ExLarge, ExSmall], ["Q", "P"], map["Q" := [1], "P" := [2]])
  {
    var a := [(ExCurrent, 0), (ExLarge, 2), (ExSmall, 1)];
    ExampleHead(a);
    assert Compact(a[..2], ExCmap) == Table([ExCurrent, ExLarge], ["Q"], map["Q" := [1]]) by {
      assert a[..2][..1] == a[..1];
    }
    assert a[..2] == a[..|a| - 1];
  }

  /** The example is a list of covers `update_result` can leave. */
  lemma ExampleValid()
    ensures RowsValid(ExCovers, ExOrder, ExRows)
  {
    assert "P" != "Q";
    assert ExRows.Keys == {"P", "Q"};
    assert KeysOk(ExOrder, ExRows);
    assert ListsOk(ExRows, 3) by {
      assert ExRows["P"] == [1] && ExRows["Q"] == [2];
    }
    forall p, q, k, l | p in ExRows && q in ExRows && p != q && 0 <= k < |ExRows[p]| && 0 <= l < |ExRows[q]|
      ensures ExRows[p][k] != ExRows[q][l]
    {
      assert k == 0 && l == 0;
      assert ExRows[p][0] == if p == "P" then 1 else 2;
      assert ExRows[q][0] == if q == "P" then 1 else 2;
    }
  }

  /** On the example, a valid list (`ExampleValid`), `clear_failed` as
      written files the larger cover, now at row 1, under "P", which found
      the smaller one; the intended rebuild files it under "Q". */
  lemma ClearFailedAsWrittenMisfiles()
    ensures ClearedAsWritten(ExCovers, ExOrder, ExRows)
              == Table([ExCurrent, ExLarge, ExSmall], ["P", "Q"], map["P" := [1], "Q" := [2]])
    ensures Cleared(ExCovers, ExOrder, ExRows)
              == Table([ExCurrent, ExLarge, ExSmall], ["Q", "P"], map["Q" := [1], "P" := [2]])
  {
    ExampleArranged();
    ExampleOwners();
    assert Positioned([(ExCurrent, 0), (ExLarge, 2), (ExSmall, 1)]) == [(ExCurrent, 0), (ExLarge, 1), (ExSmall, 2)];
    ExampleWritten();
    ExampleIntended();
  }

  /** The cover list of the dialog. */
  class CoversModel {
    var covers: seq<Cover>
    /** `plugin_map`: its keys in iteration order, and the rows of each. */
    var order: seq<string>
    var rows: map<string, seq<int>>
    /** The book's current cover. */
    const current: Pixmap

    ghost predicate Valid()
      reads this`covers, this`order, this`rows
    {
      RowsValid(covers, order, rows)
    }

    constructor(current: Pixmap, plugins: seq<string>)
      ensures this.current == current
      ensures Valid()
      ensures covers == [Cover(CurrentCaption, Some(current), false)] + WaitingList(plugins)
    {
      this.current := current;
      new;
      ResetCovers(plugins);
    }

    /** `reset_covers` with the cover sources `metadata_plugins(['cover'])`
        in the order they are listed. */
    method ResetCovers(plugins: seq<string>)
      modifies this`covers, this`order, this`rows
      ensures Valid()
      ensures covers == [Cover(CurrentCaption, Some(current), false)] + WaitingList(plugins)
      ensures forall p :: p in rows <==> p in plugins
      ensures DistinctNames(plugins) ==> order == plugins
      ensures DistinctNames(plugins) ==> forall i :: 0 <= i < |plugins| ==> rows[plugins[i]] == [i + 1]
    {
      var cs := [Cover(CurrentCaption, Some(current), false)];
      var ord: seq<string> := [];
      var rs: map<string, seq<int>> := map[];
      for i := 0 to |plugins|
        invariant cs == [Cover(CurrentCaption, Some(current), false)] + WaitingList(plugins[..i])
        invariant ResetRows(plugins, i, ord, rs)
      {
        ResetStep(plugins, i, ord, rs);
        WaitingListStep(plugins, i);
        cs := cs + [Waiting(plugins[i])];
        ord := if plugins[i] in rs then ord else ord + [plugins[i]];
        rs := rs[plugins[i] := [i + 1]];
      }
      assert plugins[..|plugins|] == plugins;
      ResetDone(cs, plugins, ord, rs);
      covers, order, rows := cs, ord, rs;
    }

    /** `plugin_for_index`. */
    method PluginForIndex(row: int) returns (r: Option<string>)
      ensures r == FirstOwner(order, rows, row)
    {
      for i := 0 to |order|
        invariant FirstOwner(order, rows, row) == FirstOwner(order[i..], rows, row)
      {
        assert order[i..][1..] == order[i + 1..];
        if order[i] in rows && row in rows[order[i]] {
          return Some(order[i]);
        }
      }
      return None;
    }

    /** `pointer_from_index`: the full-size pixmap of a row, None when the
        row is out of range (a negative row counts from the end). */
    function PointerFromIndex(row: int): (r: Option<Pixmap>)
      reads this`covers
      ensures 0 <= row < |covers| ==> r == covers[row].pixmap
      ensures (row < -|covers| || row >= |covers|) ==> r.None?
    {
      match PyAt(covers, row)
      case None => None
      case Some(c) => c.pixmap
    }

    /** `index_from_pointer`: the first row showing `pointer`, else row 0. */
    method IndexFromPointer(pointer: Option<Pixmap>) returns (r: nat)
      ensures (exists k :: 0 <= k < |covers| && covers[k].pixmap == pointer) ==>
                && r < |covers|
                && covers[r].pixmap == pointer
                && forall k :: 0 <= k < r ==> covers[k].pixmap != pointer
      ensures (forall k :: 0 <= k < |covers| ==> covers[k].pixmap != pointer) ==> r == 0
    {
      for k := 0 to |covers|
        invariant forall m :: 0 <= m < k ==> covers[m].pixmap != pointer
      {
        if covers[k].pixmap == pointer {
          return k;
        }
      }
      return 0;
    }

    /** `cover_pixmap`: a downloaded cover that loaded, never row 0. */
    function CoverPixmap(row: int): (r: Option<Pixmap>)
      reads this`covers
      ensures r.Some? <==> 0 < row < |covers| && covers[row].pixmap.Some? && !covers[row].pixmap.value.isNull
      ensures r.Some? ==> r == covers[row].pixmap
    {
      if 0 < row < |covers| then
        match covers[row].pixmap
        case Some(p) => if p.isNull then None else Some(p)
        case None => None
      else None
    }

    /** The loop of `update_result` that moves every row at or after `at`
        down by one. */
    method ShiftRows(at: int)
      requires KeysOk(order, rows)
      modifies this`rows
      ensures rows == ShiftAll(old(rows), at)
    {
      rows := ShiftEach(order, rows, at);
    }

    /** `update_result`: a cover from the source named in `pluginName`
        loaded as `pmap`. A name ending in '}' comes from a source that
        finds several covers. */
    method UpdateResult(pluginName: string, pmap: Pixmap)
      requires Valid()
      modifies this`covers, this`rows
      ensures Valid()
      ensures EndsWith(pluginName, "}") ==>
                var name := Split(pluginName, '{')[0];
                if name !in old(rows) || pmap.isNull then covers == old(covers) && rows == old(rows)
                else
                  var at := MaxOf(old(rows)[name]);
                  && covers == InsertAt(old(covers), at, Cover(name, Some(pmap), false))
                  && rows == RowsAfterInsert(old(rows), name, at)
      ensures !EndsWith(pluginName, "}") ==>
                if pluginName !in old(rows) || pmap.isNull then covers == old(covers) && rows == old(rows)
                else
                  && covers == old(covers)[old(rows)[pluginName][0] := Cover(pluginName, Some(pmap), false)]
                  && rows == old(rows)
    {
      if EndsWith(pluginName, "}") {
        var name := Split(pluginName, '{')[0];
        if name !in rows {
          return;
        }
        var lastRow := MaxOf(rows[name]);
        if pmap.isNull {
          return;
        }
        MultiInsertValid(covers, order, rows, name, Cover(name, Some(pmap), false));
        ghost var before := rows;
        ShiftRows(lastRow);
        rows := rows[name := InsertBeforeLast(rows[name], lastRow)];
        covers := InsertAt(covers, lastRow, Cover(name, Some(pmap), false));
      } else {
        var idx: Option<int> := None;
        for i := 0 to |order|
          invariant idx.None? ==> forall j :: 0 <= j < i ==> order[j] != pluginName
          invariant idx.Some? ==> pluginName in rows && idx.value == rows[pluginName][0]
        {
          if order[i] == pluginName {
            idx := Some(rows[order[i]][0]);
            break;
          }
        }
        if idx.None? {
          return;
        }
        if pmap.isNull {
          return;
        }
        covers := covers[idx.value := Cover(pluginName, Some(pmap), false)];
      }
    }

    /** `cmap` of `clear_failed`: `plugin_for_index` of every row. */
    method OwnerMap() returns (cmap: seq<Option<string>>)
      ensures cmap == Owners(order, rows, |covers|)
    {
      cmap := [];
      for i := 0 to |covers|
        invariant |cmap| == i
        invariant forall j :: 0 <= j < i ==> cmap[j] == FirstOwner(order, rows, j)
      {
        var p := PluginForIndex(i);
        cmap := cmap + [p];
      }
    }

    /** `clear_failed`: drop the entries still waiting, order the rest by
        decreasing area after the current cover, and rebuild `plugin_map`
        with each entry under the source that owned it before. */
    method ClearFailed()
      requires Valid()
      modifies this`covers, this`order, this`rows
      ensures Valid()
      ensures var t := Cleared(old(covers), old(order), old(rows));
              covers == t.good && order == t.order && rows == t.rows
    {
      var cmap := OwnerMap();
      ghost var cleared := Cleared(covers, order, rows);
      assert RowsValid(cleared.good, cleared.order, cleared.rows) by {
        ClearFailedValid(covers, order, rows);
      }
      ArrangedTags(covers);
      var t := CompactLoop(Arranged(covers), cmap);
      covers, order, rows := t.good, t.order, t.rows;
    }
  }

}
