/** The "first letter" collapse mode of the tag browser
    (src/calibre/gui2/tag_browser/model.py, inside process_one_node):
    values are grouped by the collation class of their first letter; with
    `tags_browser_collapse_fl_at > 1` runs shorter than that threshold are
    merged into a neighbouring run and labelled "X - Y".

    ICU's `collation_order_for_partitioning` is a parameter `collate` that
    maps an upper-cased string to its ordinal and the length of its first
    collation element. */
module FirstLetter {
  import opened Common

  /** FL_Interval(first_chr, last_chr, length). */
  datatype Interval = Interval(first: string, last: string, length: nat)

  /** The text the first-letter key is read from: the upper-cased sort or
      name, or a single blank for an empty one. */
  function KeyText(t: string): string {
    if t != "" then Upper(t) else " "
  }

  function Ord(collate: string -> (int, nat), t: string): int {
    collate(KeyText(t)).0
  }

  /** `c[0:ordlen]`: the first collation element of the key. */
  function Head(collate: string -> (int, nat), t: string): string {
    Take(KeyText(t), collate(KeyText(t)).1)
  }

  function Sum(iv: seq<Interval>): nat {
    if |iv| == 0 then 0 else iv[0].length + Sum(iv[1..])
  }

  lemma {:induction false} SumConcat(a: seq<Interval>, b: seq<Interval>)
    ensures Sum(a + b) == Sum(a) + Sum(b)
  {
    if |a| > 0 {
      assert (a + b)[1..] == a[1..] + b;
      SumConcat(a[1..], b);
    } else {
      assert a + b == b;
    }
  }

  function Repeat(x: string, n: nat): (r: seq<string>)
    ensures |r| == n && forall k :: 0 <= k < n ==> r[k] == x
  {
    if n == 0 then [] else Repeat(x, n - 1) + [x]
  }

  /** The label of a (possibly merged) interval. */
  function Label(i: Interval): (r: string)
    ensures i.first != i.last ==> r == i.first + " - " + i.last
    ensures i.first == i.last ==> r == i.first
  {
    if i.first == i.last then i.first else i.first + " - " + i.last
  }

  /** The per-value labels of a list of intervals. */
  function ExpandLabels(iv: seq<Interval>): (r: seq<string>)
    ensures |r| == Sum(iv)
  {
    if |iv| == 0 then []
    else
      SumConcat(iv[..|iv| - 1], [iv[|iv| - 1]]);
      assert iv[..|iv| - 1] + [iv[|iv| - 1]] == iv;
      ExpandLabels(iv[..|iv| - 1]) + Repeat(Label(iv[|iv| - 1]), iv[|iv| - 1].length)
  }

  // -----------------------------------------------------------------------
  // Building the letter list and its runs

  /** What `cl_list[..n]` holds after n values: a value keeps the previous
      letter while the collation ordinal stays the same, and takes its own
      first collation element when the ordinal changes (the first value
      compares against ordinal 0 and letter " "). */
  ghost predicate LettersOk(keys: seq<string>, collate: string -> (int, nat), cl: seq<string>, n: nat)
    requires n <= |keys| && n <= |cl|
  {
    && (n > 0 && Ord(collate, keys[0]) != 0 ==> cl[0] == Head(collate, keys[0]))
    && (n > 0 && Ord(collate, keys[0]) == 0 ==> cl[0] == " ")
    && (forall k :: 0 < k < n && Ord(collate, keys[k]) == Ord(collate, keys[k - 1]) ==> cl[k] == cl[k - 1])
    && (forall k :: 0 < k < n && Ord(collate, keys[k]) != Ord(collate, keys[k - 1]) ==>
          cl[k] == Head(collate, keys[k]))
  }

  lemma LettersStep(keys: seq<string>, collate: string -> (int, nat), cl: seq<string>, n: nat, c: string)
    requires n < |keys| && |cl| == n && LettersOk(keys, collate, cl, n)
    requires n == 0 && Ord(collate, keys[0]) == 0 ==> c == " "
    requires n == 0 && Ord(collate, keys[0]) != 0 ==> c == Head(collate, keys[0])
    requires n > 0 && Ord(collate, keys[n]) == Ord(collate, keys[n - 1]) ==> c == cl[n - 1]
    requires n > 0 && Ord(collate, keys[n]) != Ord(collate, keys[n - 1]) ==> c == Head(collate, keys[n])
    ensures LettersOk(keys, collate, cl + [c], n + 1)
  {
    var cl' := cl + [c];
    forall k | 0 < k < n + 1 && Ord(collate, keys[k]) == Ord(collate, keys[k - 1]) ensures cl'[k] == cl'[k - 1] {
      if k < n { assert cl'[k] == cl[k] && cl'[k - 1] == cl[k - 1]; }
    }
    forall k | 0 < k < n + 1 && Ord(collate, keys[k]) != Ord(collate, keys[k - 1]) ensures cl'[k] == Head(collate, keys[k]) {
      if k < n { assert cl'[k] == cl[k]; }
    }
  }

  /** Every run is non-empty and names a single letter. */
  ghost predicate RunsOk(intervals: seq<Interval>) {
    forall k :: 0 <= k < |intervals| ==> intervals[k].length >= 1 && intervals[k].first == intervals[k].last
  }

  /** The state of the first pass after the values `cl` stands for: the
      last ordinal and letter seen, the letters so far and, when merging is
      on, the closed runs followed by the open run that starts at `lastIdx`. */
  ghost predicate RunsInv(keys: seq<string>, collate: string -> (int, nat), flCollapse: bool, cl: seq<string>,
                          intervals: seq<Interval>, lastOrd: int, lastC: string, lastIdx: nat) {
    && |cl| <= |keys|
    && (|cl| > 0 ==> lastOrd == Ord(collate, keys[|cl| - 1]) && lastC == cl[|cl| - 1])
    && (|cl| == 0 ==> lastOrd == 0 && lastC == " " && lastIdx == 0 && intervals == [])
    && LettersOk(keys, collate, cl, |cl|)
    && RunsCover(flCollapse, cl, intervals, lastIdx)
  }

  /** Without merging there are no runs; with merging, the closed runs
      cover the values before the open run, which starts at `lastIdx`. */
  ghost predicate RunsCover(flCollapse: bool, cl: seq<string>, intervals: seq<Interval>, lastIdx: nat) {
    && (!flCollapse ==> intervals == [])
    && (flCollapse && |cl| > 0 ==> lastIdx < |cl| && Sum(intervals) == lastIdx)
    && RunsOk(intervals)
  }

  lemma RunsCoverStep(flCollapse: bool, cl: seq<string>, intervals: seq<Interval>, lastC: string, lastIdx: nat,
                      intervals': seq<Interval>, lastC': string, lastIdx': nat)
    requires RunsCover(flCollapse, cl, intervals, lastIdx)
    requires |cl| == 0 ==> lastIdx == 0 && intervals == []
    requires || (intervals' == intervals && lastIdx' == lastIdx)
             || (flCollapse && |cl| > 0 && intervals' == intervals + [Interval(lastC, lastC, |cl| - lastIdx)] && lastIdx' == |cl|)
    ensures RunsCover(flCollapse, cl + [lastC'], intervals', lastIdx')
  {
    if intervals' != intervals {
      SumConcat(intervals, [Interval(lastC, lastC, |cl| - lastIdx)]);
      assert Sum([Interval(lastC, lastC, |cl| - lastIdx)]) == |cl| - lastIdx by {
        assert [Interval(lastC, lastC, |cl| - lastIdx)][1..] == [];
      }
      assert intervals'[|intervals|] == Interval(lastC, lastC, |cl| - lastIdx);
    }
  }

  /** One value of the first pass: a new collation ordinal closes the open
      run (when merging) and starts a new letter; otherwise the value takes
      the current letter. */
  lemma RunsStep(keys: seq<string>, collate: string -> (int, nat), flCollapse: bool, cl: seq<string>,
                 intervals: seq<Interval>, lastOrd: int, lastC: string, lastIdx: nat,
                 intervals': seq<Interval>, lastC': string, lastIdx': nat)
    requires RunsInv(keys, collate, flCollapse, cl, intervals, lastOrd, lastC, lastIdx) && |cl| < |keys|
    requires var c := KeyText(keys[|cl|]);
      if lastOrd != collate(c).0 then
        && lastC' == Take(c, collate(c).1)
        && (flCollapse && |cl| > 0 ==> intervals' == intervals + [Interval(lastC, lastC, |cl| - lastIdx)] && lastIdx' == |cl|)
        && (!(flCollapse && |cl| > 0) ==> intervals' == intervals && lastIdx' == lastIdx)
      else lastC' == lastC && intervals' == intervals && lastIdx' == lastIdx
    ensures RunsInv(keys, collate, flCollapse, cl + [lastC'], intervals', Ord(collate, keys[|cl|]), lastC', lastIdx')
  {
    var cl' := cl + [lastC'];
    LettersStep(keys, collate, cl, |cl|, lastC');
    assert LettersOk(keys, collate, cl', |cl'|);
    RunsCoverStep(flCollapse, cl, intervals, lastC, lastIdx, intervals', lastC', lastIdx');
    assert RunsCover(flCollapse, cl', intervals', lastIdx');
    assert cl'[|cl|] == lastC';
  }

  /** The first pass over the values: `cl_list` holds each value's letter
      (a change of collation ordinal starts a new letter) and, when merging
      is on, `intervals` holds one run per letter. */
  method Runs(keys: seq<string>, collate: string -> (int, nat), flCollapse: bool)
    returns (cl: seq<string>, intervals: seq<Interval>)
    ensures |cl| == |keys| && LettersOk(keys, collate, cl, |keys|)
    ensures !flCollapse ==> intervals == []
    ensures flCollapse && |keys| > 0 ==> Sum(intervals) == |keys|
    ensures RunsOk(intervals)
  {
    cl := [];
    intervals := [];
    var lastOrd := 0;
    var lastC := " ";
    var lastIdx := 0;
    var idx := 0;
    while idx < |keys|
      invariant idx == |cl| && RunsInv(keys, collate, flCollapse, cl, intervals, lastOrd, lastC, lastIdx)
    {
      var c := KeyText(keys[idx]);
      var ordnum := collate(c).0;
      var ordlen := collate(c).1;
      ghost var ivBefore, cBefore, lastIdxBefore := intervals, lastC, lastIdx;
      if lastOrd != ordnum {
        if flCollapse && idx > 0 {
          intervals := intervals + [Interval(lastC, lastC, idx - lastIdx)];
          lastIdx := idx;
        }
        lastC := Take(c, ordlen);
        lastOrd := ordnum;
      }
      RunsStep(keys, collate, flCollapse, cl, ivBefore, if idx == 0 then 0 else Ord(collate, keys[idx - 1]),
               cBefore, lastIdxBefore, intervals, lastC, lastIdx);
      cl := cl + [lastC];
      idx := idx + 1;
    }
    if flCollapse && |keys| > 0 {
      RunsCoverStep(flCollapse, cl, intervals, lastC, lastIdx, intervals + [Interval(lastC, lastC, |cl| - lastIdx)], lastC, |cl|);
      intervals := intervals + [Interval(lastC, lastC, |cl| - lastIdx)];
    }
  }

  // -----------------------------------------------------------------------
  // Merging short runs

  /** The first interval shorter than `when`, or |iv| when there is none. */
  method FindShort(iv: seq<Interval>, when: int) returns (idx: nat)
    ensures idx <= |iv|
    ensures forall k :: 0 <= k < idx ==> iv[k].length >= when
    ensures idx < |iv| ==> iv[idx].length < when
  {
    idx := 0;
    while idx < |iv| && iv[idx].length >= when
      invariant idx <= |iv|
      invariant forall k :: 0 <= k < idx ==> iv[k].length >= when
    {
      idx := idx + 1;
    }
  }

  /** Intervals i and i+1 replaced by one interval spanning both. */
  function Fold(iv: seq<Interval>, i: nat): seq<Interval>
    requires i + 1 < |iv|
  {
    iv[..i] + [Interval(iv[i].first, iv[i + 1].last, iv[i].length + iv[i + 1].length)] + iv[i + 2..]
  }

  lemma FoldProps(iv: seq<Interval>, i: nat)
    requires i + 1 < |iv|
    ensures |Fold(iv, i)| == |iv| - 1
    ensures Sum(Fold(iv, i)) == Sum(iv)
    ensures Fold(iv, i)[0].first == iv[0].first
    ensures Fold(iv, i)[|iv| - 2].last == iv[|iv| - 1].last
  {
    var m := Interval(iv[i].first, iv[i + 1].last, iv[i].length + iv[i + 1].length);
    var a := iv[..i];
    var b := iv[i + 2..];
    assert iv == a + ([iv[i], iv[i + 1]] + b);
    assert Fold(iv, i) == a + ([m] + b);
    SumConcat(a, [iv[i], iv[i + 1]] + b);
    SumConcat(a, [m] + b);
    SumConcat([iv[i], iv[i + 1]], b);
    SumConcat([m], b);
    assert Sum([iv[i], iv[i + 1]]) == iv[i].length + iv[i + 1].length by {
      assert [iv[i], iv[i + 1]][1..] == [iv[i + 1]];
      assert [iv[i + 1]][1..] == [];
    }
    assert Sum([m]) == m.length by {
      assert [m][1..] == [];
    }
  }

  /** Folds interval `idx` into a neighbour: the previous one when there is
      no next one or when the previous one is strictly shorter, otherwise
      the next one. */
  function MergeAt(iv: seq<Interval>, idx: nat): (r: seq<Interval>)
    requires |iv| > 1 && idx < |iv|
    ensures |r| == |iv| - 1
    ensures Sum(r) == Sum(iv)
    ensures r[0].first == iv[0].first && r[|r| - 1].last == iv[|iv| - 1].last
  {
    if idx > 0 && (idx == |iv| - 1 || iv[idx - 1].length < iv[idx + 1].length) then
      FoldProps(iv, idx - 1);
      Fold(iv, idx - 1)
    else
      FoldProps(iv, idx);
      Fold(iv, idx)
  }

  /** The merge worklist: repeatedly folds the first short interval into a
      neighbour until none is short or a single interval is left. */
  method Merge(iv0: seq<Interval>, when: int) returns (iv: seq<Interval>)
    ensures Sum(iv) == Sum(iv0)
    ensures |iv| <= |iv0|
    ensures |iv| <= 1 || forall k :: 0 <= k < |iv| ==> iv[k].length >= when
    ensures |iv0| > 0 ==> |iv| > 0 && iv[0].first == iv0[0].first && iv[|iv| - 1].last == iv0[|iv0| - 1].last
  {
    iv := iv0;
    var changed := true;
    while changed && |iv| > 1
      invariant Sum(iv) == Sum(iv0) && |iv| <= |iv0|
      invariant !changed ==> forall k :: 0 <= k < |iv| ==> iv[k].length >= when
      invariant |iv0| > 0 ==> |iv| > 0 && iv[0].first == iv0[0].first && iv[|iv| - 1].last == iv0[|iv0| - 1].last
      decreases |iv| + (if changed then 1 else 0)
    {
      changed := false;
      var idx := FindShort(iv, when);
      if idx < |iv| {
        iv := MergeAt(iv, idx);
        changed := true;
      }
    }
  }

  // -----------------------------------------------------------------------
  // The merge step exactly as written, with its finite stand-in for a
  // missing neighbour

  /** FL_Interval('', '', 100000000), used for "no previous/next interval". */
  const NullLength: nat := 100000000

  datatype MergeOutcome = Merged(intervals: seq<Interval>) | IndexError

  /** One merge step as the source writes it: a missing neighbour is an
      interval of length 100000000, `intervals[idx-1]` with idx == 0 is the
      last interval, and `intervals[idx+1]` past the end raises IndexError. */
  function MergeAtAsWritten(iv: seq<Interval>, idx: nat): (r: MergeOutcome)
    requires |iv| > 1 && idx < |iv|
    ensures r.Merged? ==> |r.intervals| == |iv| - 1
  {
    var cur := iv[idx];
    var prev := if idx == 0 then Interval("", "", NullLength) else iv[idx - 1];
    var next := if idx < |iv| - 1 then iv[idx + 1] else Interval("", "", NullLength);
    if prev.length < next.length then
      var target := if idx == 0 then |iv| - 1 else idx - 1;
      var upd := iv[target := Interval(prev.first, cur.last, prev.length + cur.length)];
      Merged(upd[..idx] + upd[idx + 1..])
    else if idx + 1 < |iv| then
      var upd := iv[idx + 1 := Interval(cur.first, next.last, next.length + cur.length)];
      Merged(upd[..idx] + upd[idx + 1..])
    else IndexError
  }

  /** A first run of one value next to a run of 100000001 values: the step
      overwrites the last interval with a nameless one and loses a value. */
  lemma MergeAsWrittenLosesValues()
    ensures var iv := [Interval("A", "A", 1), Interval("B", "B", 100000001)];
      && MergeAtAsWritten(iv, 0) == Merged([Interval("", "A", 100000001)])
      && Sum(MergeAtAsWritten(iv, 0).intervals) != Sum(iv)
      && MergeAt(iv, 0) == [Interval("A", "B", 100000002)]
  {
    var iv := [Interval("A", "A", 1), Interval("B", "B", 100000001)];
    var upd := iv[1 := Interval("", "A", 100000001)];
    assert upd[..0] + upd[1..] == [Interval("", "A", 100000001)];
    assert Sum([Interval("", "A", 100000001)]) == 100000001;
    assert Sum(iv) == 100000002 by {
      assert iv[1..][1..] == [];
    }
    assert iv[..0] + [Interval("A", "B", 100000002)] + iv[2..] == [Interval("A", "B", 100000002)];
  }

  /** A last run of one value after a run of 100000000 values: the step
      indexes past the end. */
  lemma MergeAsWrittenIndexError()
    ensures MergeAtAsWritten([Interval("A", "A", 100000000), Interval("B", "B", 1)], 1) == IndexError
  {
  }

  /** Overwriting element i and deleting element i + 1 folds the pair into
      the new element. */
  lemma UpdateDropNext<T>(s: seq<T>, i: nat, m: T)
    requires i + 1 < |s|
    ensures s[i := m][..i + 1] + s[i := m][i + 2..] == s[..i] + [m] + s[i + 2..]
  {
    var u := s[i := m];
    assert u[..i + 1] == s[..i] + [m];
    assert u[i + 2..] == s[i + 2..];
  }

  /** Overwriting element i + 1 and deleting element i folds the pair into
      the new element. */
  lemma UpdateDropPrev<T>(s: seq<T>, i: nat, m: T)
    requires i + 1 < |s|
    ensures s[i + 1 := m][..i] + s[i + 1 := m][i + 1..] == s[..i] + [m] + s[i + 2..]
  {
    var u := s[i + 1 := m];
    assert u[..i] == s[..i];
    assert u[i + 1..] == [m] + s[i + 2..];
  }

  /** The step as written, when it folds interval idx into the previous one. */
  lemma AsWrittenFoldsPrev(iv: seq<Interval>, idx: nat)
    requires 0 < idx < |iv|
    requires forall k :: 0 <= k < |iv| ==> iv[k].length < NullLength
    requires idx == |iv| - 1 || iv[idx - 1].length < iv[idx + 1].length
    ensures MergeAtAsWritten(iv, idx) == Merged(Fold(iv, idx - 1))
  {
    var m := Interval(iv[idx - 1].first, iv[idx].last, iv[idx - 1].length + iv[idx].length);
    UpdateDropNext(iv, idx - 1, m);
  }

  /** The step as written, when it folds interval idx into the next one. */
  lemma AsWrittenFoldsNext(iv: seq<Interval>, idx: nat)
    requires idx + 1 < |iv|
    requires forall k :: 0 <= k < |iv| ==> iv[k].length < NullLength
    requires !(idx > 0 && iv[idx - 1].length < iv[idx + 1].length)
    ensures MergeAtAsWritten(iv, idx) == Merged(Fold(iv, idx))
  {
    var m := Interval(iv[idx].first, iv[idx + 1].last, iv[idx + 1].length + iv[idx].length);
    UpdateDropPrev(iv, idx, m);
  }

  /** While every run is shorter than the stand-in, the step as written is
      the corrected step. */
  lemma MergeAsWrittenAgrees(iv: seq<Interval>, idx: nat)
    requires |iv| > 1 && idx < |iv|
    requires forall k :: 0 <= k < |iv| ==> iv[k].length < NullLength
    ensures MergeAtAsWritten(iv, idx) == Merged(MergeAt(iv, idx))
  {
    if idx > 0 && (idx == |iv| - 1 || iv[idx - 1].length < iv[idx + 1].length) {
      AsWrittenFoldsPrev(iv, idx);
    } else {
      AsWrittenFoldsNext(iv, idx);
    }
  }

  // -----------------------------------------------------------------------
  // Writing the merged labels back

  /** `for i in range(length): cl_list[cur_idx] = label; cur_idx += 1`. */
  method Fill(cl0: seq<string>, cur: nat, lab: string, len: nat) returns (cl: seq<string>)
    requires cur + len <= |cl0|
    ensures cl == cl0[..cur] + Repeat(lab, len) + cl0[cur + len..]
  {
    cl := cl0;
    var i := 0;
    while i < len
      invariant 0 <= i <= len && |cl| == |cl0|
      invariant forall k :: 0 <= k < |cl| ==> cl[k] == if cur <= k < cur + i then lab else cl0[k]
    {
      cl := cl[cur + i := lab];
      i := i + 1;
    }
    FillShape(cl, cl0, cur, lab, len);
  }

  lemma FillShape(cl: seq<string>, cl0: seq<string>, cur: nat, lab: string, len: nat)
    requires cur + len <= |cl0| == |cl|
    requires forall k :: 0 <= k < |cl| ==> cl[k] == if cur <= k < cur + len then lab else cl0[k]
    ensures cl == cl0[..cur] + Repeat(lab, len) + cl0[cur + len..]
  {
    var r := cl0[..cur] + Repeat(lab, len) + cl0[cur + len..];
    assert |r| == |cl|;
    forall k | 0 <= k < |cl| ensures cl[k] == r[k] {
      if k < cur {
      } else if k < cur + len {
        assert r[k] == Repeat(lab, len)[k - cur];
      } else {
        assert r[k] == cl0[cur + len..][k - cur - len];
      }
    }
  }

  /** Replacing the |b| elements after a prefix `a` of `a + s[|a|..]` by `b`. */
  lemma SpliceAt<T>(a: seq<T>, s: seq<T>, b: seq<T>, cl: seq<T>, cl': seq<T>)
    requires |a| + |b| <= |s| && cl == a + s[|a|..]
    requires cl' == cl[..|a|] + b + cl[|a| + |b|..]
    ensures cl' == (a + b) + s[|a| + |b|..]
  {
    assert cl[..|a|] == a;
    assert cl[|a| + |b|..] == s[|a| + |b|..];
  }

  lemma SumStep(iv: seq<Interval>, j: nat)
    requires j < |iv|
    ensures Sum(iv[..j + 1]) == Sum(iv[..j]) + iv[j].length
    ensures Sum(iv[j..]) == iv[j].length + Sum(iv[j + 1..])
  {
    SumConcat(iv[..j], [iv[j]]);
    assert iv[..j + 1] == iv[..j] + [iv[j]];
    assert iv[j..][1..] == iv[j + 1..];
    assert [iv[j]][1..] == [];
  }

  lemma ExpandLabelsSnoc(iv: seq<Interval>, j: nat)
    requires j < |iv|
    ensures ExpandLabels(iv[..j + 1]) == ExpandLabels(iv[..j]) + Repeat(Label(iv[j]), iv[j].length)
  {
    assert iv[..j + 1][..j] == iv[..j];
  }

  /** Labelling the values of interval j extends the labelled prefix by
      that interval. */
  lemma ApplyStep(cl0: seq<string>, iv: seq<Interval>, j: nat, cur: nat, cl: seq<string>, cl': seq<string>)
    requires j < |iv| && cur == Sum(iv[..j]) && cur + Sum(iv[j..]) == Sum(iv) <= |cl0|
    requires cl == ExpandLabels(iv[..j]) + cl0[cur..]
    requires cl' == cl[..cur] + Repeat(Label(iv[j]), iv[j].length) + cl[cur + iv[j].length..]
    ensures cur + iv[j].length == Sum(iv[..j + 1]) && cur + iv[j].length + Sum(iv[j + 1..]) == Sum(iv)
    ensures cl' == ExpandLabels(iv[..j + 1]) + cl0[cur + iv[j].length..]
  {
    SumStep(iv, j);
    var n := iv[j].length;
    var e, r := ExpandLabels(iv[..j]), Repeat(Label(iv[j]), n);
    ExpandLabelsSnoc(iv, j);
    SpliceAt(e, cl0, r, cl, cl');
    var e' := ExpandLabels(iv[..j + 1]);
    assert e' == e + r;
    assert cl' == e' + cl0[cur + n..];
  }

  /** The correction pass: each value in the k-th interval's range gets that
      interval's label. */
  method ApplyLabels(cl0: seq<string>, iv: seq<Interval>) returns (cl: seq<string>)
    requires Sum(iv) <= |cl0|
    ensures |cl| == |cl0|
    ensures cl == ExpandLabels(iv) + cl0[Sum(iv)..]
  {
    cl := cl0;
    var cur := 0;
    var j := 0;
    while j < |iv|
      invariant 0 <= j <= |iv|
      invariant cur == Sum(iv[..j]) && cur + Sum(iv[j..]) == Sum(iv)
      invariant cl == ExpandLabels(iv[..j]) + cl0[cur..]
    {
      SumStep(iv, j);
      ghost var before := cl;
      cl := Fill(cl, cur, Label(iv[j]), iv[j].length);
      ApplyStep(cl0, iv, j, cur, before, cl);
      cur := cur + iv[j].length;
      j := j + 1;
    }
    assert iv[..j] == iv;
  }

  /** The whole first-letter pass: each value's letter, replaced by the
      label of its range when merging (`tags_browser_collapse_fl_at` above
      1) leaves more than one range, every range then holding at least
      that many values. */
  method CollapseLetters(keys: seq<string>, collate: string -> (int, nat), flCollapseWhen: int)
    returns (cl: seq<string>, ghost intervals: seq<Interval>)
    requires |keys| > 0
    ensures |cl| == |keys|
    ensures |intervals| <= 1 ==> LettersOk(keys, collate, cl, |keys|)
    ensures |intervals| > 1 ==>
      && cl == ExpandLabels(intervals) && Sum(intervals) == |keys|
      && forall k :: 0 <= k < |intervals| ==> intervals[k].length >= flCollapseWhen
  {
    var flCollapse := flCollapseWhen > 1;
    var iv;
    cl, iv := Runs(keys, collate, flCollapse);
    intervals := [];
    if flCollapse {
      iv := Merge(iv, flCollapseWhen);
      if |iv| > 1 {
        cl := ApplyLabels(cl, iv);
        assert cl[Sum(iv)..] == [];
        intervals := iv;
      }
    }
  }
}
