/** Where the "partition" collapse mode of the tag browser starts a new
    bucket (src/calibre/gui2/tag_browser/model.py, process_one_node).

    Walking the values of a category in order, a bucket starts at value
    `idx` when at least `collapse` values have passed since the last start
    and the value's name does not continue the current top-level
    component; every value that takes the hierarchical path sets the top
    component to its own first component. */
module Partition {
  import opened Common

  /** What the decision reads from one value: its full name, whether it
      took the hierarchical path, and its first name component. */
  datatype View = View(originalName: string, hierBranch: bool, firstComponent: string)

  /** `top_level_component` and `last_idx`. */
  datatype Cursor = Cursor(top: string, lastIdx: int)

  predicate BreaksAt(cur: Cursor, v: View, idx: nat, collapse: nat) {
    idx >= cur.lastIdx + collapse && !StartsWith(v.originalName, cur.top + ".")
  }

  function Step(cur: Cursor, v: View, idx: nat, collapse: nat): Cursor {
    var c1 := if BreaksAt(cur, v, idx, collapse) then cur.(lastIdx := idx) else cur;
    if v.hierBranch then c1.(top := v.firstComponent) else c1
  }

  /** The cursor after the values `vs`, starting from `top0` and `-collapse`. */
  function CursorAt(top0: string, collapse: nat, vs: seq<View>): Cursor {
    if |vs| == 0 then Cursor(top0, -(collapse as int))
    else Step(CursorAt(top0, collapse, vs[..|vs| - 1]), vs[|vs| - 1], |vs| - 1, collapse)
  }

  /** The positions among `vs` where buckets start. */
  function Breaks(top0: string, collapse: nat, vs: seq<View>): (r: seq<nat>)
    ensures forall k :: 0 <= k < |r| ==> r[k] < |vs|
  {
    if |vs| == 0 then []
    else
      var prefix := vs[..|vs| - 1];
      Breaks(top0, collapse, prefix)
        + (if BreaksAt(CursorAt(top0, collapse, prefix), vs[|vs| - 1], |vs| - 1, collapse) then [|vs| - 1] else [])
  }

  /** Starts are increasing, at least `collapse` apart, and the cursor
      remembers the latest one. */
  lemma {:induction false} BreaksSpaced(top0: string, collapse: nat, vs: seq<View>)
    requires collapse >= 1
    ensures var r := Breaks(top0, collapse, vs);
      && (forall k :: 0 < k < |r| ==> r[k] >= r[k - 1] + collapse)
      && (|r| == 0 ==> CursorAt(top0, collapse, vs).lastIdx == -(collapse as int))
      && (|r| > 0 ==> CursorAt(top0, collapse, vs).lastIdx == r[|r| - 1])
  {
    if |vs| > 0 {
      var prefix := vs[..|vs| - 1];
      BreaksSpaced(top0, collapse, prefix);
      var p := Breaks(top0, collapse, prefix);
      var cur := CursorAt(top0, collapse, prefix);
      var idx := |vs| - 1;
      assert vs[..idx] == prefix;
      assert CursorAt(top0, collapse, vs) == Step(cur, vs[idx], idx, collapse);
      if BreaksAt(cur, vs[idx], idx, collapse) {
        var r := p + [idx];
        assert Breaks(top0, collapse, vs) == r;
        assert CursorAt(top0, collapse, vs).lastIdx == idx;
        assert |p| > 0 ==> idx >= p[|p| - 1] + collapse;
        forall k | 0 < k < |r| ensures r[k] >= r[k - 1] + collapse {
          if k < |p| {
            assert r[k] == p[k] && r[k - 1] == p[k - 1];
          } else {
            assert r[k] == idx && r[k - 1] == p[|p| - 1];
          }
        }
      } else {
        assert Breaks(top0, collapse, vs) == p;
        assert CursorAt(top0, collapse, vs).lastIdx == cur.lastIdx;
      }
    }
  }

  /** With `top_level_component` starting as 'z' + the first name, the first
      value always starts a bucket. */
  lemma FirstValueBreaks(collapse: nat, vs: seq<View>)
    requires |vs| > 0
    ensures var r := Breaks("z" + vs[0].originalName, collapse, vs);
      |r| > 0 && r[0] == 0
  {
    var top0 := "z" + vs[0].originalName;
    var s := vs[0].originalName;
    assert |top0 + "."| > |s|;
    BreaksPrefix(top0, collapse, vs, 1);
    assert vs[..1][..0] == [];
  }

  /** Breaks of a prefix are a prefix of the breaks. */
  lemma {:induction false} BreaksPrefix(top0: string, collapse: nat, vs: seq<View>, n: nat)
    requires n <= |vs|
    ensures var r := Breaks(top0, collapse, vs); var q := Breaks(top0, collapse, vs[..n]);
      |q| <= |r| && r[..|q|] == q
    decreases |vs|
  {
    if n < |vs| {
      var prefix := vs[..|vs| - 1];
      assert prefix[..n] == vs[..n];
      BreaksPrefix(top0, collapse, prefix, n);
    } else {
      assert vs[..n] == vs;
    }
  }

  /** A value whose name continues the first component of a hierarchical
      value just before it never starts a bucket. */
  lemma NoBreakInsidePrefix(top0: string, collapse: nat, vs: seq<View>, idx: nat)
    requires 0 < idx < |vs|
    requires vs[idx - 1].hierBranch
    requires StartsWith(vs[idx].originalName, vs[idx - 1].firstComponent + ".")
    ensures idx !in Breaks(top0, collapse, vs)
  {
    var before := vs[..idx];
    assert before[..idx - 1] + [vs[idx - 1]] == before;
    assert CursorAt(top0, collapse, before).top == vs[idx - 1].firstComponent by {
      assert before[|before| - 1] == vs[idx - 1];
    }
    assert vs[..idx + 1][..idx] == before;
    assert !BreaksAt(CursorAt(top0, collapse, before), vs[idx], idx, collapse);
    BreaksPrefix(top0, collapse, vs, idx + 1);
    BreaksPrefix(top0, collapse, vs, idx);
    var upto := Breaks(top0, collapse, vs[..idx + 1]);
    assert upto == Breaks(top0, collapse, before);
    BreaksAfter(top0, collapse, vs, idx + 1);
  }

  /** Positions past a prefix only start buckets after the prefix's breaks. */
  lemma {:induction false} BreaksAfter(top0: string, collapse: nat, vs: seq<View>, n: nat)
    requires n <= |vs|
    ensures var r := Breaks(top0, collapse, vs); var q := Breaks(top0, collapse, vs[..n]);
      forall k :: |q| <= k < |r| ==> r[k] >= n
    decreases |vs|
  {
    if n < |vs| {
      var prefix := vs[..|vs| - 1];
      assert prefix[..n] == vs[..n];
      BreaksAfter(top0, collapse, prefix, n);
      BreaksPrefix(top0, collapse, prefix, n);
    } else {
      assert vs[..n] == vs;
    }
  }

  /** One more value: the cursor takes one step and the value's position
      is a start exactly when the step breaks. */
  lemma BreaksSnoc(top0: string, collapse: nat, vs: seq<View>, v: View)
    ensures CursorAt(top0, collapse, vs + [v]) == Step(CursorAt(top0, collapse, vs), v, |vs|, collapse)
    ensures Breaks(top0, collapse, vs + [v])
         == Breaks(top0, collapse, vs) + (if BreaksAt(CursorAt(top0, collapse, vs), v, |vs|, collapse) then [|vs|] else [])
  {
    assert (vs + [v])[..|vs|] == vs;
  }
}
