/** Book and format deletion (src/calibre/gui2/actions/delete.py): which
    formats "delete all but" removes, the one-id-at-a-time library
    deleter, the row the views move to afterwards, and the count in the
    undo message.

    The database (`formats`, `title`, `delete_book`, `remove_formats`) is
    outside this file: its answers are parameters. */
module Delete {
  import opened Common

  // -----------------------------------------------------------------------
  // delete_all_but_selected_formats

  /** `{x.lower() for x in bfmts.split(',')}`. */
  function BookFormats(formats: string): set<string> {
    set p | p in Split(formats, ',') :: Lower(p)
  }

  /** What the loop records for one book: nothing when the book has no
      format list or keeps none of its formats, otherwise the formats that
      are not kept. */
  function RemovalFor(formats: Option<string>, keep: set<string>): (r: Option<set<string>>)
    ensures r.Some? <==> formats.Some? && BookFormats(formats.value) * keep != {}
    ensures r.Some? ==> r.value == BookFormats(formats.value) - keep
  {
    if formats.None? then None
    else
      var bfmts := BookFormats(formats.value);
      var rfmts := bfmts - keep;
      if bfmts - rfmts != {} then
        Some(rfmts)
      else
        assert bfmts * keep == {} by {
          forall x | x in bfmts * keep ensures x in bfmts - rfmts { }
        }
        None
  }

  /** A book the loop records keeps at least one of its formats. */
  lemma NeverRemovesAll(formats: Option<string>, keep: set<string>)
    requires RemovalFor(formats, keep).Some?
    ensures exists x :: x in BookFormats(formats.value) && x !in RemovalFor(formats, keep).value
    ensures RemovalFor(formats, keep).value < BookFormats(formats.value)
  {
    var x :| x in BookFormats(formats.value) * keep;
    assert x !in RemovalFor(formats, keep).value;
  }

  /** The `removals` loop: one entry per selected book that has a format
      list and keeps at least one of its formats. */
  method Removals(ids: seq<nat>, formatsOf: nat -> Option<string>, keep: set<string>)
    returns (removals: map<nat, set<string>>)
    ensures forall id :: id in removals <==> id in ids && RemovalFor(formatsOf(id), keep).Some?
    ensures forall id :: id in removals ==> formatsOf(id).Some? && removals[id] == BookFormats(formatsOf(id).value) - keep
  {
    removals := map[];
    var i := 0;
    while i < |ids|
      invariant 0 <= i <= |ids|
      invariant forall id :: id in removals <==> id in ids[..i] && RemovalFor(formatsOf(id), keep).Some?
      invariant forall id :: id in removals ==> formatsOf(id).Some? && removals[id] == BookFormats(formatsOf(id).value) - keep
    {
      var id := ids[i];
      var r := RemovalFor(formatsOf(id), keep);
      if r.Some? {
        removals := removals[id := r.value];
      }
      assert ids[..i + 1] == ids[..i] + [id];
      i := i + 1;
    }
    assert ids[..i] == ids;
  }

  // -----------------------------------------------------------------------
  // The undo message

  /** `sum(map(len, removed_map.values()))`, the entries in insertion order. */
  function CountRemoved(entries: seq<(nat, set<string>)>): nat {
    if |entries| == 0 then 0 else CountRemoved(entries[..|entries| - 1]) + |entries[|entries| - 1].1|
  }

  /** The (book, format) pairs a removal map names. */
  ghost function Pairs(entries: seq<(nat, set<string>)>): set<(nat, string)> {
    set i, f | 0 <= i < |entries| && f in entries[i].1 :: (entries[i].0, f)
  }

  predicate DistinctKeys(entries: seq<(nat, set<string>)>) {
    forall i, j :: 0 <= i < j < |entries| ==> entries[i].0 != entries[j].0
  }

  /** A book's formats, paired with the book. */
  lemma {:induction false} TagWithCard(k: nat, s: set<string>)
    ensures |set f | f in s :: (k, f)| == |s|
    decreases |s|
  {
    if s != {} {
      var x :| x in s;
      TagWithCard(k, s - {x});
      assert (set f | f in s :: (k, f)) == (set f | f in s - {x} :: (k, f)) + {(k, x)};
    } else {
      assert (set f | f in s :: (k, f)) == {};
    }
  }

  /** The pairs of a list of entries with one more entry at the end. */
  lemma PairsSnoc(entries: seq<(nat, set<string>)>)
    requires |entries| > 0
    ensures var n := |entries| - 1;
      Pairs(entries) == Pairs(entries[..n]) + set f | f in entries[n].1 :: (entries[n].0, f)
  {
    var n := |entries| - 1;
    var prefix := entries[..n];
    forall p | p in Pairs(entries) ensures p in Pairs(prefix) || (p.0 == entries[n].0 && p.1 in entries[n].1) {
      var i, f :| 0 <= i < |entries| && f in entries[i].1 && p == (entries[i].0, f);
      if i < n {
        assert prefix[i] == entries[i];
      }
    }
    forall p | p in Pairs(prefix) ensures p in Pairs(entries) {
      var i, f :| 0 <= i < |prefix| && f in prefix[i].1 && p == (prefix[i].0, f);
      assert prefix[i] == entries[i];
    }
  }

  /** With distinct books, the last entry's pairs are new. */
  lemma PairsSnocDisjoint(entries: seq<(nat, set<string>)>)
    requires |entries| > 0 && DistinctKeys(entries)
    ensures var n := |entries| - 1;
      Pairs(entries[..n]) * (set f | f in entries[n].1 :: (entries[n].0, f)) == {}
    ensures DistinctKeys(entries[..|entries| - 1])
  {
    var n := |entries| - 1;
    var prefix := entries[..n];
    forall p | p in Pairs(prefix) ensures p.0 != entries[n].0 {
      var i, f :| 0 <= i < |prefix| && f in prefix[i].1 && p == (prefix[i].0, f);
      assert prefix[i] == entries[i];
    }
    forall i, j | 0 <= i < j < |prefix| ensures prefix[i].0 != prefix[j].0 {
      assert prefix[i] == entries[i] && prefix[j] == entries[j];
    }
  }

  /** With one entry per book, the message counts exactly the removed
      (book, format) pairs. */
  lemma {:induction false} CountRemovedIsPairs(entries: seq<(nat, set<string>)>)
    requires DistinctKeys(entries)
    ensures CountRemoved(entries) == |Pairs(entries)|
    decreases |entries|
  {
    if |entries| > 0 {
      var n := |entries| - 1;
      var prefix := entries[..n];
      var (k, s) := entries[n];
      PairsSnocDisjoint(entries);
      CountRemovedIsPairs(prefix);
      TagWithCard(k, s);
      PairsSnoc(entries);
    }
  }

  // -----------------------------------------------------------------------
  // MultiDeleter

  /** An entry of `failures`: the id and the title shown for it. */
  datatype Failure = Failure(id: nat, title: string)

  function FailedIds(fs: seq<Failure>): (r: seq<nat>)
    ensures |r| == |fs| && forall k :: 0 <= k < |fs| ==> r[k] == fs[k].id
  {
    if |fs| == 0 then [] else FailedIds(fs[..|fs| - 1]) + [fs[|fs| - 1].id]
  }

  lemma FailedIdsSnoc(fs: seq<Failure>, f: Failure)
    ensures FailedIds(fs + [f]) == FailedIds(fs) + [f.id]
  {
    assert (fs + [f])[..|fs|] == fs;
  }

  /** The queued, deleted and failed ids are, together, the original ids. */
  ghost predicate Accounted(ids: seq<nat>, deleted: seq<nat>, failures: seq<Failure>, original: seq<nat>) {
    multiset(ids) + multiset(deleted) + multiset(FailedIds(failures)) == multiset(original)
  }

  /** Popping the last id and recording it as deleted. */
  lemma PopDeleted(ids: seq<nat>, deleted: seq<nat>, failures: seq<Failure>, original: seq<nat>)
    requires Accounted(ids, deleted, failures, original) && |ids| > 0
    ensures Accounted(ids[..|ids| - 1], deleted + [ids[|ids| - 1]], failures, original)
  {
    var id := ids[|ids| - 1];
    assert ids == ids[..|ids| - 1] + [id];
    assert multiset(ids) == multiset(ids[..|ids| - 1]) + multiset{id};
    assert multiset(deleted + [id]) == multiset(deleted) + multiset{id};
  }

  /** Popping the last id and recording it as failed. */
  lemma PopFailed(ids: seq<nat>, deleted: seq<nat>, failures: seq<Failure>, original: seq<nat>, f: Failure)
    requires Accounted(ids, deleted, failures, original) && |ids| > 0 && f.id == ids[|ids| - 1]
    ensures Accounted(ids[..|ids| - 1], deleted, failures + [f], original)
  {
    var id := f.id;
    assert ids == ids[..|ids| - 1] + [id];
    assert multiset(ids) == multiset(ids[..|ids| - 1]) + multiset{id};
    FailedIdsSnoc(failures, f);
    assert multiset(FailedIds(failures) + [id]) == multiset(FailedIds(failures)) + multiset{id};
  }

  /** Deletes the books in `ids` one per event-loop turn, the last id first. */
  class MultiDeleter {
    var ids: seq<nat>
    var deletedIds: seq<nat>
    var failures: seq<Failure>
    /** The argument `callback` received, once `cleanup` ran. */
    var finished: Option<seq<nat>>
    ghost var original: seq<nat>

    /** Every id is still queued, deleted or failed, exactly once. */
    ghost predicate Valid()
      reads this`ids, this`deletedIds, this`failures, this`finished, this`original
    {
      && Accounted(ids, deletedIds, failures, original)
      && (finished.Some? ==> |ids| == 0 && finished.value == deletedIds)
    }

    constructor (ids: seq<nat>)
      ensures Valid() && this.ids == ids && deletedIds == [] && failures == [] && finished == None
    {
      this.ids := ids;
      deletedIds := [];
      failures := [];
      finished := None;
      original := ids;
    }

    /** delete_one: with nothing left, clean up and hand the deleted ids to
        the callback; otherwise pop the last id and record it as deleted or
        as failed. `title` is the database's title (None when reading it
        raised) and `deleted` whether `delete_book` returned normally. */
    method DeleteOne(title: Option<string>, deleted: bool)
      requires Valid()
      modifies this`ids, this`deletedIds, this`failures, this`finished
      ensures Valid()
      ensures |old(ids)| == 0 ==>
        && finished == Some(deletedIds)
        && ids == old(ids) && deletedIds == old(deletedIds) && failures == old(failures)
      ensures |old(ids)| > 0 ==>
        && ids == old(ids)[..|old(ids)| - 1]
        && finished == old(finished)
        && (title.Some? && deleted ==>
              deletedIds == old(deletedIds) + [old(ids)[|old(ids)| - 1]] && failures == old(failures))
        && (!(title.Some? && deleted) ==>
              && deletedIds == old(deletedIds)
              && failures == old(failures) + [Failure(old(ids)[|old(ids)| - 1], Shown(title, old(ids)[|old(ids)| - 1]))])
    {
      if |ids| == 0 {
        finished := Some(deletedIds);
        return;
      }
      var id := ids[|ids| - 1];
      Record(title.Some? && deleted, Failure(id, Shown(title, id)));
    }

    /** The popped id goes to `deleted_ids` or, with the title shown for it,
        to `failures`. */
    method Record(ok: bool, f: Failure)
      requires Valid() && |ids| > 0 && f.id == ids[|ids| - 1]
      modifies this`ids, this`deletedIds, this`failures
      ensures Valid() && ids == old(ids)[..|old(ids)| - 1]
      ensures ok ==> deletedIds == old(deletedIds) + [f.id] && failures == old(failures)
      ensures !ok ==> deletedIds == old(deletedIds) && failures == old(failures) + [f]
    {
      if ok {
        PopDeleted(ids, deletedIds, failures, original);
        ids, deletedIds := ids[..|ids| - 1], deletedIds + [f.id];
        assert Accounted(ids, deletedIds, failures, original);
      } else {
        PopFailed(ids, deletedIds, failures, original, f);
        ids, failures := ids[..|ids| - 1], failures + [f];
        assert Accounted(ids, deletedIds, failures, original);
      }
    }
  }

  /** The title a failure is reported under: the database's title when it
      gave a non-empty one, otherwise `id:<id>`. */
  function Shown(title: Option<string>, id: nat): (r: string)
    ensures title.Some? && title.value != "" ==> r == title.value
    ensures title.None? || title.value == "" ==> r == "id:" + Decimal(id)
  {
    if title.Some? && title.value != "" then title.value else "id:" + Decimal(id)
  }

  // -----------------------------------------------------------------------
  // The current row after a deletion

  /** delete_books on a device view: the row before the deleted one (the
      next one for row 0), clamped to [0, rowCount]. */
  function DeviceNextRow(row: int, rowCount: int): (r: int)
    requires row > -1
    ensures rowCount >= 0 ==> 0 <= r <= rowCount
    ensures var nrow := if row > 0 then row - 1 else row + 1;
      (0 <= nrow <= rowCount ==> r == nrow) && (nrow > rowCount ==> r == rowCount)
    ensures rowCount < 0 ==> r == rowCount
  {
    var nrow := if row > 0 then row - 1 else row + 1;
    var lo := if 0 > nrow then 0 else nrow;
    if rowCount < lo then rowCount else lo
  }

  /** library_ids_deleted: a current row past the last row becomes the last row. */
  function LibraryCurrentRow(currentRow: Option<int>, rowCount: nat): (r: Option<int>)
    ensures currentRow.None? <==> r.None?
    ensures currentRow.Some? && 0 <= currentRow.value < rowCount ==> r == currentRow
    ensures currentRow.Some? && !(0 <= currentRow.value < rowCount) ==> r == Some(rowCount - 1)
    ensures rowCount > 0 && r.Some? ==> 0 <= r.value < rowCount
  {
    if currentRow.None? then None
    else if 0 <= currentRow.value < rowCount then currentRow
    else Some(rowCount - 1)
  }
}
