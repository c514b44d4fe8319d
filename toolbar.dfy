/** Editing the action lists of the toolbars and menus
    (src/calibre/gui2/preferences/toolbar.py): the list of actions still
    available for a location (AllModel), the list shown at that location
    (CurrentModel) and the checks made before the layouts are saved.

    `gui.iactions`, `gprefs` and `primary_sort_key` live outside this file:
    resolving a name to its action, the stored and default layouts and the
    collation rank of an action are parameters here. */
module Toolbar {
  import opened Common
  import opened Sorting

  /** An action as the lists hold it: its identity, its internal name, the
      locations it may not be added to and the locations it may not be
      removed from. The lists hold objects and `list.index` finds an object
      by identity, so `id` stands for that identity: every separator
      `name_to_action` makes is a fresh object with an id of its own, while
      the actions of `gui.iactions` are one object, and one id, per name. */
  datatype Action = Action(id: nat, name: string, dontAddTo: set<string>, dontRemoveFrom: set<string>)

  /** Separator actions are named "--- Separator ---". */
  predicate IsSeparator(a: Action) {
    StartsWith(a.name, "---")
  }

  /** The name stored in a layout: None for a separator. */
  function PrefName(a: Action): (r: Option<string>)
    ensures r.None? <==> IsSeparator(a)
    ensures r.Some? ==> r.value == a.name
  {
    if IsSeparator(a) then None else Some(a.name)
  }

  /** A layout as `gprefs` stores it. */
  type Layout = seq<Option<string>>

  function LayoutOf(s: seq<Action>): Layout {
    seq(|s|, k requires 0 <= k < |s| => PrefName(s[k]))
  }

  predicate HasName(s: seq<Action>, name: string) {
    exists k :: 0 <= k < |s| && s[k].name == name
  }

  // -----------------------------------------------------------------------
  // BaseModel

  /** BaseModel.names: the stored name of each selected row. */
  method Names(data: seq<Action>, rows: seq<nat>) returns (r: Layout)
    requires forall k :: 0 <= k < |rows| ==> rows[k] < |data|
    ensures |r| == |rows|
    ensures forall k :: 0 <= k < |rows| ==> r[k] == PrefName(data[rows[k]])
  {
    r := [];
    for i := 0 to |rows|
      invariant |r| == i
      invariant forall k :: 0 <= k < i ==> r[k] == PrefName(data[rows[k]])
    {
      r := r + [PrefName(data[rows[i]])];
    }
  }

  /** BaseModel.has_action. */
  method HasAction(data: seq<Action>, name: string) returns (r: bool)
    ensures r <==> HasName(data, name)
  {
    for i := 0 to |data|
      invariant forall k :: 0 <= k < i ==> data[k].name != name
    {
      if data[i].name == name {
        return true;
      }
    }
    return false;
  }

  // -----------------------------------------------------------------------
  // Removing rows

  /** The actions of the rows not in `remove`, in their order. */
  function KeepRows(s: seq<Action>, remove: set<int>): seq<Action> {
    if |s| == 0 then []
    else KeepRows(s[..|s| - 1], remove) + (if |s| - 1 in remove then [] else [s[|s| - 1]])
  }

  /** A row that is not removed keeps its action in the list. */
  lemma {:induction false} KeepHas(s: seq<Action>, remove: set<int>, i: nat)
    requires i < |s| && i !in remove
    ensures s[i] in KeepRows(s, remove)
  {
    var init := s[..|s| - 1];
    if i < |s| - 1 {
      KeepHas(init, remove, i);
      assert init[i] == s[i];
    }
  }

  /** Everything kept is the action of a row that is not removed. */
  lemma {:induction false} KeptFrom(s: seq<Action>, remove: set<int>, x: Action)
    requires x in KeepRows(s, remove)
    ensures exists i :: 0 <= i < |s| && i !in remove && s[i] == x
  {
    var init := s[..|s| - 1];
    if x in KeepRows(init, remove) {
      KeptFrom(init, remove, x);
      var i :| 0 <= i < |init| && i !in remove && init[i] == x;
      assert s[i] == x;
    } else {
      assert |s| - 1 !in remove && s[|s| - 1] == x;
    }
  }

  /** The loop of AllModel.remove and CurrentModel.remove that rebuilds
      `_data` without the removed rows. */
  method Without(data: seq<Action>, remove: set<int>) returns (r: seq<Action>)
    ensures r == KeepRows(data, remove)
  {
    r := [];
    for i := 0 to |data|
      invariant r == KeepRows(data[..i], remove)
    {
      assert data[..i + 1][..i] == data[..i];
      if i !in remove {
        r := r + [data[i]];
      }
    }
    assert data[..|data|] == data;
  }

  // -----------------------------------------------------------------------
  // AllModel

  /** The actions AllModel.add resolves: the names that are neither None
      nor a separator, in order. */
  function Resolved(names: Layout, resolve: string -> Action): seq<Action> {
    if |names| == 0 then []
    else
      var last := names[|names| - 1];
      Resolved(names[..|names| - 1], resolve)
        + (if last.None? || StartsWith(last.value, "---") then [] else [resolve(last.value)])
  }

  /** `list.sort(key=sort_key_for_action)`: a stable sort by rank. */
  function SortByRank(s: seq<Action>, rank: Action -> int): (r: seq<Action>)
    ensures Sorted(r, ByKey(rank)) && multiset(r) == multiset(s)
  {
    ByKeyTotal(rank);
    Sort(s, ByKey(rank))
  }

  /** The actions not in use at a location, kept in collation order;
      `rank` is the collation rank of an action's display name. */
  class AllModel {
    var data: seq<Action>
    const rank: Action -> int

    constructor (data: seq<Action>, rank: Action -> int)
      ensures this.data == data && this.rank == rank
    {
      this.data := data;
      this.rank := rank;
    }

    /** add: resolve every real name, append and sort stably. */
    method Add(names: Layout, resolve: string -> Action)
      modifies this`data
      ensures data == SortByRank(old(data) + Resolved(names, resolve), rank)
      ensures Sorted(data, ByKey(rank))
      ensures multiset(data) == multiset(old(data)) + multiset(Resolved(names, resolve))
    {
      var actions: seq<Action> := [];
      for i := 0 to |names|
        invariant actions == Resolved(names[..i], resolve)
      {
        assert names[..i + 1][..i] == names[..i];
        var name := names[i];
        if name.None? || StartsWith(name.value, "---") {
          continue;
        }
        actions := actions + [resolve(name.value)];
      }
      assert names[..|names|] == names;
      data := SortByRank(data + actions, rank);
    }

    /** remove: drop the selected rows whose action is named in `allowed`,
        never a separator. */
    method Remove(rows: seq<nat>, allowed: set<string>)
      requires forall k :: 0 <= k < |rows| ==> rows[k] < |data|
      modifies this`data
      ensures data == KeepRows(old(data), set r | r in rows && r < |old(data)| && !IsSeparator(old(data)[r]) && old(data)[r].name in allowed)
      ensures forall i :: 0 <= i < |old(data)| && (i !in rows || IsSeparator(old(data)[i]) || old(data)[i].name !in allowed) ==>
                old(data)[i] in data
      ensures forall x :: x in data ==> x in old(data)
    {
      var remove: set<int> := {};
      for i := 0 to |rows|
        invariant remove == set r | r in rows[..i] && r < |data| && !IsSeparator(data[r]) && data[r].name in allowed
      {
        assert rows[..i + 1] == rows[..i] + [rows[i]];
        var ac := data[rows[i]];
        if IsSeparator(ac) {
          continue;
        }
        if ac.name in allowed {
          remove := remove + {rows[i]};
        }
      }
      assert rows[..|rows|] == rows;
      var old_data := data;
      data := Without(data, remove);
      forall i | 0 <= i < |old_data| && (i !in rows || IsSeparator(old_data[i]) || old_data[i].name !in allowed)
        ensures old_data[i] in data
      {
        KeepHas(old_data, remove, i);
      }
      forall x | x in data ensures x in old_data {
        KeptFrom(old_data, remove, x);
      }
    }
  }

  // -----------------------------------------------------------------------
  // CurrentModel

  /** The actions that may be added at `key`, in order. */
  function Accepted(actions: seq<Action>, key: string): (r: seq<Action>) {
    if |actions| == 0 then []
    else
      var last := actions[|actions| - 1];
      Accepted(actions[..|actions| - 1], key) + (if key in last.dontAddTo then [] else [last])
  }

  /** Accepted keeps exactly the actions not barred from `key`. */
  lemma {:induction false} AcceptedMeans(actions: seq<Action>, key: string)
    ensures forall x :: x in Accepted(actions, key) <==> x in actions && key !in x.dontAddTo
  {
    if |actions| > 0 {
      var init := actions[..|actions| - 1];
      AcceptedMeans(init, key);
      assert actions == init + [actions[|actions| - 1]];
    }
  }

  /** move_single: past the top the action goes to the bottom, past the
      bottom to the top, otherwise it trades places with its neighbour. */
  function MovedSingle(s: seq<Action>, row: nat, delta: int): (r: seq<Action>)
    requires row < |s|
    ensures |r| == |s| && forall x :: x in r <==> x in s
  {
    var x, before, after := s[row], s[..row], s[row + 1..];
    assert s == before + [x] + after;
    if row + delta < 0 then before + after + [x]
    else if row + delta >= |s| then [x] + before + after
    else
      SwapMembers(s, row, row + delta);
      s[row := s[row + delta]][row + delta := x]
  }

  /** Swapping two positions keeps the same actions. */
  lemma SwapMembers(t: seq<Action>, i: nat, j: nat)
    requires i < |t| && j < |t|
    ensures forall y :: y in t[i := t[j]][j := t[i]] <==> y in t
  {
    var u := t[i := t[j]][j := t[i]];
    forall y | y in u ensures y in t {
      var a :| 0 <= a < |u| && u[a] == y;
      var a' := if a == i then j else if a == j then i else a;
      assert t[a'] == y;
    }
    forall y | y in t ensures y in u {
      var a :| 0 <= a < |t| && t[a] == y;
      var a' := if a == i then j else if a == j then i else a;
      assert u[a'] == y;
    }
  }

  /** move_single keeps every action, as often as it was there. */
  lemma MovedSinglePermutes(s: seq<Action>, row: nat, delta: int)
    requires row < |s|
    ensures multiset(MovedSingle(s, row, delta)) == multiset(s)
  {
    var x, before, after := s[row], s[..row], s[row + 1..];
    assert s == before + [x] + after;
    assert multiset(s) == multiset(before) + multiset{x} + multiset(after);
  }

  /** Python's `(m + n) % n` is `m` for a row `m` of a list of length `n`. */
  lemma WrapInRange(m: nat, n: nat)
    requires m < n
    ensures (m + n) % n == m
  {
    assert m + n == m + 1 * n;
  }

  /** The row a step of one lands on: `(row + delta + len) % len`. */
  function NewRow(row: nat, delta: int, n: nat): (r: nat)
    requires row < n && (delta == 1 || delta == -1)
    ensures r < n && r == (row + delta + n) % n
  {
    if row + delta < 0 then
      assert row + delta + n == n - 1;
      n - 1
    else if row + delta >= n then
      assert row + delta + n == n + 0 + n;
      0
    else
      assert row + delta + n == (row + delta) + 1 * n;
      row + delta
  }

  /** A step of one puts the action on NewRow. */
  lemma MovedSingleLands(s: seq<Action>, row: nat, delta: int)
    requires row < |s| && (delta == 1 || delta == -1)
    ensures MovedSingle(s, row, delta)[NewRow(row, delta, |s|)] == s[row]
  {
  }

  /** A step back from where a step of one landed restores the list. */
  lemma MoveBack(s: seq<Action>, row: nat, delta: int)
    requires row < |s| && (delta == 1 || delta == -1)
    ensures MovedSingle(MovedSingle(s, row, delta), NewRow(row, delta, |s|), -delta) == s
  {
    if row + delta < 0 {
      BackFromBottom(s);
    } else if row + delta >= |s| {
      BackFromTop(s);
    } else {
      var t := MovedSingle(s, row, delta);
      assert t == s[row := s[row + delta]][row + delta := s[row]];
    }
  }

  /** The top action moved up past the top comes back down. */
  lemma BackFromBottom(s: seq<Action>)
    requires |s| > 0
    ensures MovedSingle(MovedSingle(s, 0, -1), |s| - 1, 1) == s
  {
    var t := MovedSingle(s, 0, -1);
    assert t == s[1..] + [s[0]];
    assert t[..|s| - 1] == s[1..] && t[|s|..] == [];
    assert MovedSingle(t, |s| - 1, 1) == [s[0]] + s[1..] + [];
  }

  /** The bottom action moved down past the bottom comes back up. */
  lemma BackFromTop(s: seq<Action>)
    requires |s| > 0
    ensures MovedSingle(MovedSingle(s, |s| - 1, 1), 0, -1) == s
  {
    var last := |s| - 1;
    var t := MovedSingle(s, last, 1);
    assert t == [s[last]] + s[..last];
    assert t[..0] == [] && t[1..] == s[..last];
    assert MovedSingle(t, 0, -1) == [] + s[..last] + [s[last]];
  }

  /** move_many as written: move_single on each item in turn, wherever
      the earlier moves left it. */
  function MovedMany(s: seq<Action>, items: seq<Action>, delta: int): (r: seq<Action>)
    requires forall k :: 0 <= k < |items| ==> items[k] in s
    ensures |r| == |s| && forall x :: x in r <==> x in s
    decreases |items|
  {
    if |items| == 0 then s
    else MovedMany(MovedSingle(s, IndexOf(s, items[0]), delta), items[1..], delta)
  }

  /** move_many keeps every action, as often as it was there. */
  lemma {:induction false} MovedManyPermutes(s: seq<Action>, items: seq<Action>, delta: int)
    requires forall k :: 0 <= k < |items| ==> items[k] in s
    ensures multiset(MovedMany(s, items, delta)) == multiset(s)
    decreases |items|
  {
    if |items| > 0 {
      var t := MovedSingle(s, IndexOf(s, items[0]), delta);
      MovedSinglePermutes(s, IndexOf(s, items[0]), delta);
      MovedManyPermutes(t, items[1..], delta);
    }
  }

  /** The actions of the given rows. */
  function RowItems(s: seq<Action>, rows: seq<nat>): (r: seq<Action>)
    requires forall k :: 0 <= k < |rows| ==> rows[k] < |s|
    ensures |r| == |rows| && forall k :: 0 <= k < |rows| ==> r[k] == s[rows[k]] && r[k] in s
  {
    seq(|rows|, k requires 0 <= k < |rows| => s[rows[k]])
  }

  /** The order in which the selected rows are moved: from the bottom up
      when moving down, from the top down when moving up. */
  function MoveOrder(rows: seq<nat>, delta: int): (r: seq<nat>)
    ensures multiset(r) == multiset(rows)
    ensures |r| == |rows| && forall x :: x in r <==> x in rows
    ensures forall k :: 0 <= k < |r| ==> r[k] in rows
    ensures delta > 0 ==> forall i, j :: 0 <= i < j < |r| ==> r[i] >= r[j]
    ensures delta <= 0 ==> forall i, j :: 0 <= i < j < |r| ==> r[i] <= r[j]
  {
    var key: nat -> int := x => if delta > 0 then -x else x;
    ByKeyTotal(key);
    var r := Sort(rows, ByKey(key));
    assert forall x :: x in r <==> x in multiset(rows);
    r
  }

  /** The second loop of move_many: where each selected row's action is
      after the moves. */
  method Positions(rows: seq<nat>, before: seq<Action>, after: seq<Action>) returns (ans: map<nat, nat>)
    requires forall k :: 0 <= k < |rows| ==> rows[k] < |before|
    requires forall x :: x in before ==> x in after
    ensures forall r :: r in ans <==> r in rows
    ensures forall r :: r in ans ==> r < |before| && ans[r] < |after| && after[ans[r]] == before[r]
  {
    ans := map[];
    for i := 0 to |rows|
      invariant forall r :: r in ans <==> r in rows[..i]
      invariant forall r :: r in ans ==> r < |before| && ans[r] < |after| && after[ans[r]] == before[r]
    {
      assert rows[..i + 1] == rows[..i] + [rows[i]];
      ans := ans[rows[i] := IndexOf(after, before[rows[i]])];
    }
    assert rows[..|rows|] == rows;
  }

  /** What a layout write leaves in `gprefs`. */
  datatype PrefWrite = NoWrite | Delete | Store(value: Layout)

  function StoredAfter(stored: Option<Layout>, w: PrefWrite): Option<Layout> {
    match w
    case NoWrite => stored
    case Delete => None
    case Store(v) => Some(v)
  }

  /** The actions shown at the location `key`. */
  class CurrentModel {
    var data: seq<Action>
    const key: string

    constructor (data: seq<Action>, key: string)
      ensures this.data == data && this.key == key
    {
      this.data := data;
      this.key := key;
    }

    method MoveSingle(row: nat, delta: int)
      requires row < |data|
      modifies this`data
      ensures data == MovedSingle(old(data), row, delta)
    {
      var s, x := data, data[row];
      if row + delta < 0 {
        data := s[..row] + s[row + 1..];
        data := data + [x];
        assert data == s[..row] + s[row + 1..] + [x];
      } else if row + delta >= |s| {
        data := s[..row] + s[row + 1..];
        data := [x] + data;
        assert data == [x] + s[..row] + s[row + 1..];
      } else {
        WrapInRange(row + delta, |s|);
        var nrow := (row + delta + |s|) % |s|;
        data := s[row := s[nrow]][nrow := x];
      }
    }

    /** move_many: move the selected actions one after the other, ordered
        by MoveOrder, and report where each selected row's action went. */
    method MoveMany(rows: seq<nat>, delta: int) returns (ans: map<nat, nat>)
      requires forall k :: 0 <= k < |rows| ==> rows[k] < |data|
      modifies this`data
      ensures data == MovedMany(old(data), RowItems(old(data), MoveOrder(rows, delta)), delta)
      ensures forall r :: r in ans <==> r in rows
      ensures forall r :: r in ans ==> r < |old(data)| && ans[r] < |data| && data[ans[r]] == old(data)[r]
    {
      var items := RowItems(data, MoveOrder(rows, delta));
      var start := data;
      MoveItems(items, delta);
      ans := Positions(rows, start, data);
    }

    /** The first loop of move_many. */
    method MoveItems(items: seq<Action>, delta: int)
      requires forall k :: 0 <= k < |items| ==> items[k] in data
      modifies this`data
      ensures data == MovedMany(old(data), items, delta)
    {
      ghost var start := data;
      for i := 0 to |items|
        invariant forall k :: 0 <= k < |items| ==> items[k] in data
        invariant MovedMany(data, items[i..], delta) == MovedMany(start, items, delta)
      {
        assert items[i..][1..] == items[i + 1..];
        MoveSingle(IndexOf(data, items[i]), delta);
      }
    }

    /** add: append, in order, the actions allowed at this location and
        return the others. */
    method Add(actions: seq<Action>) returns (reject: set<Action>)
      modifies this`data
      ensures data == old(data) + Accepted(actions, key)
      ensures forall x :: x in reject <==> x in actions && key in x.dontAddTo
    {
      var accepted: seq<Action> := [];
      reject := {};
      for i := 0 to |actions|
        invariant accepted == Accepted(actions[..i], key)
        invariant forall x :: x in reject <==> x in actions[..i] && key in x.dontAddTo
      {
        assert actions[..i + 1] == actions[..i] + [actions[i]];
        assert actions[..i + 1][..i] == actions[..i];
        var ac := actions[i];
        if key in ac.dontAddTo {
          reject := reject + {ac};
        } else {
          accepted := accepted + [ac];
        }
      }
      assert actions[..|actions|] == actions;
      data := data + accepted;
    }

    /** remove: drop the selected rows except those whose action may not
        leave this location, which are returned. */
    method Remove(rows: seq<nat>) returns (rejected: set<Action>)
      requires forall k :: 0 <= k < |rows| ==> rows[k] < |data|
      modifies this`data
      ensures data == KeepRows(old(data), set r | r in rows && r < |old(data)| && key !in old(data)[r].dontRemoveFrom)
      ensures forall x :: x in rejected <==> exists k :: 0 <= k < |rows| && old(data)[rows[k]] == x && key in x.dontRemoveFrom
      ensures forall i :: 0 <= i < |old(data)| && (i !in rows || key in old(data)[i].dontRemoveFrom) ==> old(data)[i] in data
      ensures forall x :: x in data ==> x in old(data)
    {
      var remove: set<int> := {};
      rejected := {};
      for i := 0 to |rows|
        invariant remove == set r | r in rows[..i] && r < |data| && key !in data[r].dontRemoveFrom
        invariant forall x :: x in rejected <==> exists k :: 0 <= k < i && data[rows[k]] == x && key in x.dontRemoveFrom
      {
        assert rows[..i + 1] == rows[..i] + [rows[i]];
        var ac := data[rows[i]];
        if key in ac.dontRemoveFrom {
          rejected := rejected + {ac};
          continue;
        }
        remove := remove + {rows[i]};
      }
      assert rows[..|rows|] == rows;
      var old_data := data;
      data := Without(data, remove);
      forall i | 0 <= i < |old_data| && (i !in rows || key in old_data[i].dontRemoveFrom)
        ensures old_data[i] in data
      {
        KeepHas(old_data, remove, i);
      }
      forall x | x in data ensures x in old_data {
        KeptFrom(old_data, remove, x);
      }
    }

    /** commit: write the layout unless it is what `gprefs` already gives;
        a layout equal to the default is written by deleting the entry. */
    method Commit(stored: Option<Layout>, defaults: Layout) returns (w: PrefWrite)
      ensures StoredAfter(stored, w).GetOr(defaults) == LayoutOf(data)
      ensures w == NoWrite <==> LayoutOf(data) == stored.GetOr(defaults)
      ensures w == Delete <==> LayoutOf(data) != stored.GetOr(defaults) && LayoutOf(data) == defaults
    {
      var current := stored.GetOr(defaults);
      var layout: Layout := [];
      for i := 0 to |data|
        invariant layout == LayoutOf(data[..i])
      {
        layout := layout + [PrefName(data[i])];
      }
      assert data[..|data|] == data;
      if layout == current {
        w := NoWrite;
      } else if layout == defaults {
        w := Delete;
      } else {
        w := Store(layout);
      }
    }
  }

  // -----------------------------------------------------------------------
  // The order of move_many

  /** Swapping two positions keeps the actions distinct. */
  lemma DistinctSwap(t: seq<Action>, i: nat, j: nat)
    requires Distinct(t) && i < |t| && j < |t|
    ensures Distinct(t[i := t[j]][j := t[i]])
  {
    var u := t[i := t[j]][j := t[i]];
    forall a, b | 0 <= a < b < |u| ensures u[a] != u[b] {
      var a' := if a == i then j else if a == j then i else a;
      var b' := if b == i then j else if b == j then i else b;
      assert u[a] == t[a'] && u[b] == t[b'] && a' != b';
    }
  }

  /** Moving down, bottom row first: every selected action ends one row
      lower and nothing below the lowest selected row changes. */
  lemma {:induction false} ShiftDown(t: seq<Action>, rows: seq<nat>, items: seq<Action>)
    requires Distinct(t) && |rows| == |items|
    requires forall k :: 0 <= k < |rows| ==> rows[k] + 1 < |t| && t[rows[k]] == items[k]
    requires forall k, l :: 0 <= k < l < |rows| ==> rows[k] > rows[l]
    ensures forall k :: 0 <= k < |items| ==> items[k] in t
    ensures forall k :: 0 <= k < |rows| ==> MovedMany(t, items, 1)[rows[k] + 1] == items[k]
    ensures forall p :: 0 <= p < |t| && (|rows| == 0 || p > rows[0] + 1) ==> MovedMany(t, items, 1)[p] == t[p]
    decreases |rows|
  {
    if |rows| > 0 {
      var r0, i0, rest, ri := rows[0], items[0], rows[1..], items[1..];
      assert IndexOf(t, i0) == r0;
      var t' := MovedSingle(t, r0, 1);
      assert t' == t[r0 := t[r0 + 1]][r0 + 1 := t[r0]];
      DistinctSwap(t, r0, r0 + 1);
      SwapKeepsRest(t, t', rows, items, r0 + 1);
      ShiftDown(t', rest, ri);
      var r := MovedMany(t', ri, 1);
      assert MovedMany(t, items, 1) == r;
      assert |rest| == 0 || rest[0] < r0;
      ReindexDown(r, rows, items);
    }
  }

  /** A swap of the first selected row with its neighbour leaves the
      other selected rows in place. */
  lemma SwapKeepsRest(t: seq<Action>, t': seq<Action>, rows: seq<nat>, items: seq<Action>, other: nat)
    requires |rows| > 0 && |rows| == |items| && other < |t|
    requires forall k :: 0 <= k < |rows| ==> rows[k] < |t| && t[rows[k]] == items[k]
    requires forall k :: 1 <= k < |rows| ==> rows[k] != rows[0] && rows[k] != other
    requires t' == t[rows[0] := t[other]][other := t[rows[0]]]
    ensures forall k :: 0 <= k < |rows| - 1 ==> rows[1..][k] < |t'| && t'[rows[1..][k]] == items[1..][k]
  {
    forall k | 0 <= k < |rows| - 1 ensures rows[1..][k] < |t'| && t'[rows[1..][k]] == items[1..][k] {
      assert rows[1..][k] == rows[k + 1] && items[1..][k] == items[k + 1];
    }
  }

  /** What holds for the first row and for the rest holds for all rows. */
  lemma ReindexDown(r: seq<Action>, rows: seq<nat>, items: seq<Action>)
    requires |rows| > 0 && |rows| == |items|
    requires forall k :: 0 <= k < |rows| ==> 0 <= rows[k] + 1 < |r|
    requires r[rows[0] + 1] == items[0]
    requires forall k :: 0 <= k < |rows[1..]| ==> r[rows[1..][k] + 1] == items[1..][k]
    ensures forall k :: 0 <= k < |rows| ==> r[rows[k] + 1] == items[k]
  {
    forall k | 1 <= k < |rows| ensures r[rows[k] + 1] == items[k] {
      assert rows[1..][k - 1] == rows[k] && items[1..][k - 1] == items[k];
    }
  }

  /** What holds for the first row and for the rest holds for all rows. */
  lemma ReindexUp(r: seq<Action>, rows: seq<nat>, items: seq<Action>)
    requires |rows| > 0 && |rows| == |items|
    requires forall k :: 0 <= k < |rows| ==> 0 <= rows[k] - 1 < |r|
    requires r[rows[0] - 1] == items[0]
    requires forall k :: 0 <= k < |rows[1..]| ==> r[rows[1..][k] - 1] == items[1..][k]
    ensures forall k :: 0 <= k < |rows| ==> r[rows[k] - 1] == items[k]
  {
    forall k | 1 <= k < |rows| ensures r[rows[k] - 1] == items[k] {
      assert rows[1..][k - 1] == rows[k] && items[1..][k - 1] == items[k];
    }
  }

  /** Moving up, top row first: every selected action ends one row
      higher and nothing above the highest selected row changes. */
  lemma {:induction false} ShiftUp(t: seq<Action>, rows: seq<nat>, items: seq<Action>)
    requires Distinct(t) && |rows| == |items|
    requires forall k :: 0 <= k < |rows| ==> 1 <= rows[k] < |t| && t[rows[k]] == items[k]
    requires forall k, l :: 0 <= k < l < |rows| ==> rows[k] < rows[l]
    ensures forall k :: 0 <= k < |items| ==> items[k] in t
    ensures forall k :: 0 <= k < |rows| ==> MovedMany(t, items, -1)[rows[k] - 1] == items[k]
    ensures forall p :: 0 <= p < |t| && (|rows| == 0 || p < rows[0] - 1) ==> MovedMany(t, items, -1)[p] == t[p]
    decreases |rows|
  {
    if |rows| > 0 {
      var r0, i0, rest, ri := rows[0], items[0], rows[1..], items[1..];
      assert IndexOf(t, i0) == r0;
      var t' := MovedSingle(t, r0, -1);
      assert t' == t[r0 := t[r0 - 1]][r0 - 1 := t[r0]];
      DistinctSwap(t, r0, r0 - 1);
      SwapKeepsRest(t, t', rows, items, r0 - 1);
      assert forall k :: 0 <= k < |rest| ==> 1 <= rest[k];
      ShiftUp(t', rest, ri);
      var r := MovedMany(t', ri, -1);
      assert MovedMany(t, items, -1) == r;
      assert |rest| == 0 || rest[0] > r0;
      ReindexUp(r, rows, items);
    }
  }

  /** What holds for the rows in the order they were moved holds for the
      rows in the order they were selected. */
  lemma RelocateDown(r: seq<Action>, s: seq<Action>, rows: seq<nat>, o: seq<nat>, items: seq<Action>)
    requires |r| == |s| && |o| == |items|
    requires forall k :: 0 <= k < |rows| ==> 0 <= rows[k] + 1 < |s| && rows[k] < |s| && rows[k] in o
    requires forall k :: 0 <= k < |o| ==> 0 <= o[k] + 1 < |s| && o[k] < |s|
    requires forall k :: 0 <= k < |o| ==> r[o[k] + 1] == items[k] && items[k] == s[o[k]]
    ensures forall k :: 0 <= k < |rows| ==> r[rows[k] + 1] == s[rows[k]]
  {
    forall k | 0 <= k < |rows| ensures r[rows[k] + 1] == s[rows[k]] {
      var k' :| 0 <= k' < |o| && o[k'] == rows[k];
    }
  }

  /** What holds for the rows in the order they were moved holds for the
      rows in the order they were selected. */
  lemma RelocateUp(r: seq<Action>, s: seq<Action>, rows: seq<nat>, o: seq<nat>, items: seq<Action>)
    requires |r| == |s| && |o| == |items|
    requires forall k :: 0 <= k < |rows| ==> 0 <= rows[k] - 1 < |s| && rows[k] < |s| && rows[k] in o
    requires forall k :: 0 <= k < |o| ==> 0 <= o[k] - 1 < |s| && o[k] < |s|
    requires forall k :: 0 <= k < |o| ==> r[o[k] - 1] == items[k] && items[k] == s[o[k]]
    ensures forall k :: 0 <= k < |rows| ==> r[rows[k] - 1] == s[rows[k]]
  {
    forall k | 0 <= k < |rows| ensures r[rows[k] - 1] == s[rows[k]] {
      var k' :| 0 <= k' < |o| && o[k'] == rows[k];
    }
  }

  /** With distinct actions and distinct selected rows above the bottom,
      move_many down puts every selected action one row lower. */
  lemma MoveManyShiftsDown(s: seq<Action>, rows: seq<nat>)
    requires Distinct(s) && Distinct(rows)
    requires forall k :: 0 <= k < |rows| ==> rows[k] + 1 < |s|
    ensures forall k :: 0 <= k < |rows| ==>
      MovedMany(s, RowItems(s, MoveOrder(rows, 1)), 1)[rows[k] + 1] == s[rows[k]]
  {
    var o := MoveOrder(rows, 1);
    DistinctPermutation(rows, MoveOrder(rows, 1));
    var items := RowItems(s, o);
    forall k | 0 <= k < |o| ensures o[k] + 1 < |s| && s[o[k]] == items[k] {
      var j :| 0 <= j < |rows| && rows[j] == o[k];
    }
    forall k, l | 0 <= k < l < |o| ensures o[k] > o[l] {
      assert o[k] != o[l];
    }
    ShiftDown(s, o, items);
    var r := MovedMany(s, items, 1);
    RelocateDown(r, s, rows, o, items);
  }

  /** With distinct actions and distinct selected rows below the top,
      move_many up puts every selected action one row higher. */
  lemma MoveManyShiftsUp(s: seq<Action>, rows: seq<nat>)
    requires Distinct(s) && Distinct(rows)
    requires forall k :: 0 <= k < |rows| ==> 1 <= rows[k] < |s|
    ensures forall k :: 0 <= k < |rows| ==>
      MovedMany(s, RowItems(s, MoveOrder(rows, -1)), -1)[rows[k] - 1] == s[rows[k]]
  {
    var o := MoveOrder(rows, -1);
    DistinctPermutation(rows, MoveOrder(rows, -1));
    var items := RowItems(s, o);
    forall k | 0 <= k < |o| ensures 1 <= o[k] < |s| && s[o[k]] == items[k] {
      var j :| 0 <= j < |rows| && rows[j] == o[k];
    }
    forall k, l | 0 <= k < l < |o| ensures o[k] < o[l] {
      assert o[k] != o[l];
    }
    ShiftUp(s, o, items);
    var r := MovedMany(s, items, -1);
    RelocateUp(r, s, rows, o, items);
  }

  /** In the selection's own order (as the loop is written), moving the
      two top rows down moves nothing: the first swap is undone by the
      second. */
  lemma SelectionOrderUndoes(a: Action, b: Action, c: Action)
    requires a != b && a != c && b != c
    ensures MovedMany([a, b, c], RowItems([a, b, c], [0, 1]), 1) == [a, b, c]
  {
    var s := [a, b, c];
    var items := RowItems(s, [0, 1]);
    assert items == [a, b];
    assert IndexOf(s, a) == 0;
    var t := MovedSingle(s, 0, 1);
    assert t == s[0 := b][1 := a] == [b, a, c];
    assert IndexOf(t, b) == 0;
    var u := MovedSingle(t, 0, 1);
    assert u == t[0 := a][1 := b] == s;
    assert MovedMany(s, items, 1) == MovedMany(t, items[1..], 1);
    assert items[1..] == [b];
    assert MovedMany(t, [b], 1) == MovedMany(u, [b][1..], 1);
    assert [b][1..] == [];
  }

  /** Two separators look alike but are two objects: moving the lower one
      up past an action moves that separator, not the first one. */
  lemma SeparatorsKeepIdentity(a: Action, x: Action, b: Action)
    requires IsSeparator(a) && IsSeparator(b) && a.name == b.name
    requires a.id != b.id && x.id != a.id && x.id != b.id
    ensures MovedMany([a, x, b], RowItems([a, x, b], MoveOrder([2], -1)), -1) == [a, b, x]
  {
    var s := [a, x, b];
    var o := MoveOrder([2], -1);
    assert o[0] in [2];
    var items := RowItems(s, o);
    assert items == [b];
    assert IndexOf(s, b) == 2;
    var t := MovedSingle(s, 2, -1);
    assert t == s[2 := x][1 := b] == [a, b, x];
    assert MovedMany(s, items, -1) == MovedMany(t, items[1..], -1);
    assert items[1..] == [];
  }

  // -----------------------------------------------------------------------
  // ConfigWidget.commit

  datatype CommitOutcome = Saved | PreferencesMissing | LocationManagerMissing

  /** The checks before saving: Preferences must be in the main toolbar
      or the menubar, and the Location Manager in the device toolbar or
      the device menubar. */
  method CheckLayouts(toolbar: seq<Action>, menubar: seq<Action>,
                      toolbarDevice: seq<Action>, menubarDevice: seq<Action>)
    returns (r: CommitOutcome)
    ensures r == PreferencesMissing <==> !HasName(toolbar, "Preferences") && !HasName(menubar, "Preferences")
    ensures r == LocationManagerMissing <==>
      (HasName(toolbar, "Preferences") || HasName(menubar, "Preferences"))
      && !HasName(toolbarDevice, "Location Manager") && !HasName(menubarDevice, "Location Manager")
    ensures r == Saved ==> HasName(toolbarDevice, "Location Manager") || HasName(menubarDevice, "Location Manager")
  {
    var prefInToolbar := HasAction(toolbar, "Preferences");
    var prefInMenubar := HasAction(menubar, "Preferences");
    var lmInToolbar := HasAction(toolbarDevice, "Location Manager");
    var lmInMenubar := HasAction(menubarDevice, "Location Manager");
    if !prefInToolbar && !prefInMenubar {
      return PreferencesMissing;
    }
    if !lmInToolbar && !lmInMenubar {
      return LocationManagerMissing;
    }
    return Saved;
  }
}
