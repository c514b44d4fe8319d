/** Python's `list.sort(key=...)` / `sorted(...)`: a stable sort under a
    total preorder. Modelled as insertion sort; what the callers rely on is
    that the result is ordered and a permutation of the input. */
module Sorting {

  ghost predicate TotalPreorder<T(!new)>(le: (T, T) -> bool) {
    && (forall a, b :: le(a, b) || le(b, a))
    && (forall a, b, c :: le(a, b) && le(b, c) ==> le(a, c))
  }

  ghost predicate Sorted<T>(s: seq<T>, le: (T, T) -> bool) {
    forall i, j :: 0 <= i < j < |s| ==> le(s[i], s[j])
  }

  /** Places `x` before the first element it is not after. */
  function Insert<T>(x: T, s: seq<T>, le: (T, T) -> bool): (r: seq<T>)
    ensures |r| == |s| + 1
    ensures multiset(r) == multiset(s) + multiset{x}
    decreases |s|
  {
    if |s| == 0 then [x]
    else if le(x, s[0]) then [x] + s
    else
      var t := Insert(x, s[1..], le);
      assert s == [s[0]] + s[1..];
      [s[0]] + t
  }

  lemma {:induction false} InsertSorted<T(!new)>(x: T, s: seq<T>, le: (T, T) -> bool)
    requires TotalPreorder(le)
    requires Sorted(s, le)
    ensures Sorted(Insert(x, s, le), le)
    decreases |s|
  {
    if |s| == 0 {
    } else if le(x, s[0]) {
      var r := [x] + s;
      forall i, j | 0 <= i < j < |r| ensures le(r[i], r[j]) {
        if i == 0 {
          assert r[j] == s[j - 1];
          if j - 1 > 0 { assert le(s[0], s[j - 1]); }
        } else {
          assert r[i] == s[i - 1] && r[j] == s[j - 1];
        }
      }
    } else {
      assert le(s[0], x);
      var tail := s[1..];
      assert Sorted(tail, le) by {
        forall i, j | 0 <= i < j < |tail| ensures le(tail[i], tail[j]) {
          assert tail[i] == s[i + 1] && tail[j] == s[j + 1];
        }
      }
      InsertSorted(x, tail, le);
      var t := Insert(x, tail, le);
      var r := [s[0]] + t;
      assert r == Insert(x, s, le);
      forall i, j | 0 <= i < j < |r| ensures le(r[i], r[j]) {
        if i == 0 {
          // every element of t is x or an element of tail, all after s[0]
          assert r[j] == t[j - 1];
          assert r[j] in multiset(t);
          assert multiset(t) == multiset(tail) + multiset{x};
          if r[j] != x {
            assert r[j] in multiset(tail);
            var k :| 0 <= k < |tail| && tail[k] == r[j];
            assert tail[k] == s[k + 1];
          }
        } else {
          assert r[i] == t[i - 1] && r[j] == t[j - 1];
        }
      }
    }
  }

  /** `sorted(s, key=...)`. */
  function Sort<T(!new)>(s: seq<T>, le: (T, T) -> bool): (r: seq<T>)
    requires TotalPreorder(le)
    ensures |r| == |s|
    ensures multiset(r) == multiset(s)
    ensures Sorted(r, le)
    decreases |s|
  {
    if |s| == 0 then []
    else
      var t := Sort(s[1..], le);
      InsertSorted(s[0], t, le);
      assert s == [s[0]] + s[1..];
      Insert(s[0], t, le)
  }

  /** The order on integer keys that every `key=` sort of the model uses. */
  function ByKey<T(!new)>(key: T -> int): (le: (T, T) -> bool)
    ensures forall a, b :: le(a, b) == (key(a) <= key(b))
  {
    (a: T, b: T) => key(a) <= key(b)
  }

  lemma ByKeyTotal<T(!new)>(key: T -> int)
    ensures TotalPreorder(ByKey(key))
  {
  }
}
