/** Values and string operations shared by every module of the model.
    Python strings are modelled as `string` (a sequence of characters);
    Python's `str.lower()` and ICU case mapping are approximated by ASCII
    lower-casing. */
module Common {

  /** Python's `None` or a value. */
  datatype Option<T> = None | Some(value: T) {
    function GetOr(default: T): T {
      match this
      case Some(v) => v
      case None => default
    }
  }

  /** Python's `s[i]` inside `try: ... except: return None`: negative
      indices count from the end, anything else out of range is None. */
  function PyAt<T>(s: seq<T>, i: int): (r: Option<T>)
    ensures r.None? <==> i < -|s| || i >= |s|
    ensures 0 <= i < |s| ==> r == Some(s[i])
    ensures -|s| <= i < 0 ==> r == Some(s[i + |s|])
  {
    if 0 <= i < |s| then Some(s[i])
    else if -|s| <= i < 0 then Some(s[i + |s|])
    else None
  }

  /** `list.index`: the first position holding `x`. */
  function IndexOf<T(==)>(s: seq<T>, x: T): (i: nat)
    requires x in s
    ensures i < |s| && s[i] == x
    ensures forall j :: 0 <= j < i ==> s[j] != x
  {
    if s[0] == x then 0 else 1 + IndexOf(s[1..], x)
  }

  /** No element twice. */
  predicate Distinct<T(==)>(s: seq<T>) {
    forall k, l :: 0 <= k < l < |s| ==> s[k] != s[l]
  }

  /** An element appears at least twice in a list that repeats it. */
  lemma {:induction false} RepeatCounts<T>(t: seq<T>, k: nat, l: nat)
    requires k < l < |t| && t[k] == t[l]
    ensures multiset(t)[t[k]] >= 2
  {
    assert t == t[..k] + [t[k]] + t[k + 1..l] + [t[l]] + t[l + 1..];
  }

  /** A list with no repeats holds each element once at most. */
  lemma {:induction false} DistinctCounts<T>(s: seq<T>, v: T)
    requires Distinct(s)
    ensures multiset(s)[v] <= 1
  {
    if |s| > 0 {
      var init := s[..|s| - 1];
      assert s == init + [s[|s| - 1]];
      assert Distinct(init) by {
        forall k, l | 0 <= k < l < |init| ensures init[k] != init[l] {
          assert init[k] == s[k] && init[l] == s[l];
        }
      }
      DistinctCounts(init, v);
      if v == s[|s| - 1] {
        assert v !in init by {
          forall k | 0 <= k < |init| ensures init[k] != v {
            assert init[k] == s[k];
          }
        }
      }
    }
  }

  /** A permutation of a list without repeats has none. */
  lemma DistinctPermutation<T>(s: seq<T>, t: seq<T>)
    requires Distinct(s) && multiset(t) == multiset(s)
    ensures Distinct(t)
  {
    forall k, l | 0 <= k < l < |t| ensures t[k] != t[l] {
      if t[k] == t[l] {
        RepeatCounts(t, k, l);
        DistinctCounts(s, t[k]);
      }
    }
  }

  // ---------------------------------------------------------------------
  // Case mapping

  function LowerChar(c: char): char {
    if 'A' <= c <= 'Z' then (c as int - 'A' as int + 'a' as int) as char else c
  }

  /** `lower()` / `icu_lower()`: every character mapped through LowerChar. */
  function Lower(s: string): (r: string)
    ensures |r| == |s|
    ensures forall k :: 0 <= k < |s| ==> r[k] == LowerChar(s[k])
  {
    if |s| == 0 then "" else [LowerChar(s[0])] + Lower(s[1..])
  }

  function UpperChar(c: char): char {
    if 'a' <= c <= 'z' then (c as int - 'a' as int + 'A' as int) as char else c
  }

  /** `icu_upper()`: every character mapped through UpperChar. */
  function Upper(s: string): (r: string)
    ensures |r| == |s|
    ensures forall k :: 0 <= k < |s| ==> r[k] == UpperChar(s[k])
  {
    if |s| == 0 then "" else [UpperChar(s[0])] + Upper(s[1..])
  }

  /** Python's `s[:n]` for a non-negative `n`: clamps at the end. */
  function Take(s: string, n: nat): (r: string)
    ensures |r| == if n <= |s| then n else |s|
    ensures StartsWith(s, r)
  {
    if n <= |s| then s[..n] else s
  }

  lemma {:induction false} LowerConcat(a: string, b: string)
    ensures Lower(a + b) == Lower(a) + Lower(b)
  {
    var l, r := Lower(a + b), Lower(a) + Lower(b);
    assert |l| == |r|;
    forall k | 0 <= k < |l| ensures l[k] == r[k] {
      if k < |a| {
        assert l[k] == LowerChar(a[k]) == Lower(a)[k] == r[k];
      } else {
        assert l[k] == LowerChar(b[k - |a|]) == Lower(b)[k - |a|] == r[k];
      }
    }
  }

  // ---------------------------------------------------------------------
  // Prefixes, suffixes, substrings

  predicate StartsWith(s: string, prefix: string) {
    |prefix| <= |s| && s[..|prefix|] == prefix
  }

  predicate EndsWith(s: string, suffix: string) {
    |suffix| <= |s| && s[|s| - |suffix|..] == suffix
  }

  /** `sub` occurs in `s` starting at position `i`. */
  predicate OccursAt(s: string, sub: string, i: int) {
    0 <= i <= |s| - |sub| && s[i..i + |sub|] == sub
  }

  /** `sub in s` / `s.find(sub) >= 0`. */
  ghost predicate Contains(s: string, sub: string) {
    exists i :: OccursAt(s, sub, i)
  }

  /** `s.find(sub) >= 0`, computed. */
  function Find(s: string, sub: string): (r: bool)
    ensures r <==> Contains(s, sub)
  {
    ContainsFrom(s, sub, 0)
  }

  /** A decision procedure for Contains, searching every start position from `i`. */
  function ContainsFrom(s: string, sub: string, i: nat): (r: bool)
    ensures r <==> exists j :: i <= j && OccursAt(s, sub, j)
    decreases |s| + 1 - i
  {
    if i + |sub| > |s| then false
    else if s[i..i + |sub|] == sub then assert OccursAt(s, sub, i); true
    else
      var r := ContainsFrom(s, sub, i + 1);
      assert !OccursAt(s, sub, i);
      assert r <==> exists j :: i <= j && OccursAt(s, sub, j) by {
        if exists j :: i <= j && OccursAt(s, sub, j) {
          var j :| i <= j && OccursAt(s, sub, j);
          assert j != i;
        }
      }
      r
  }

  // ---------------------------------------------------------------------
  // Whitespace stripping (`str.strip()` with no argument)

  /** Python's whitespace (`str.isspace()`): the characters of Unicode
      category Zs and those of bidirectional class WS, B or S. */
  predicate IsSpace(c: char) {
    || '\t' <= c <= '\r'
    || '\U{001C}' <= c <= '\U{001F}'
    || c == ' ' || c == '\U{0085}' || c == '\U{00A0}' || c == '\U{1680}'
    || '\U{2000}' <= c <= '\U{200A}'
    || c == '\U{2028}' || c == '\U{2029}' || c == '\U{202F}' || c == '\U{205F}' || c == '\U{3000}'
  }

  /** `s.strip(chars)`: drops the characters satisfying `drop` from both ends. */
  function StripBy(s: string, drop: char -> bool): (r: string)
    ensures |r| <= |s|
    ensures r != [] ==> !drop(r[0]) && !drop(r[|r| - 1])
    ensures r == [] ==> forall k :: 0 <= k < |s| ==> drop(s[k])
    decreases |s|
  {
    if |s| == 0 then s
    else if drop(s[0]) then StripBy(s[1..], drop)
    else if drop(s[|s| - 1]) then StripBy(s[..|s| - 1], drop)
    else s
  }

  function Strip(s: string): (r: string)
    ensures |r| <= |s|
    ensures r != [] ==> !IsSpace(r[0]) && !IsSpace(r[|r| - 1])
  {
    StripBy(s, IsSpace)
  }

  /** A string that starts and ends with a kept character is its own strip. */
  lemma StripByFixed(s: string, drop: char -> bool)
    requires s != [] ==> !drop(s[0]) && !drop(s[|s| - 1])
    ensures StripBy(s, drop) == s
  {
  }

  // ---------------------------------------------------------------------
  // Splitting and joining on one separator character

  /** `s.split(sep)`: never empty; the pieces never contain the separator. */
  function Split(s: string, sep: char): (r: seq<string>)
    ensures |r| >= 1
    ensures forall k :: 0 <= k < |r| ==> sep !in r[k]
    decreases |s|
  {
    if |s| == 0 then [""]
    else if s[0] == sep then [""] + Split(s[1..], sep)
    else
      var rest := Split(s[1..], sep);
      [[s[0]] + rest[0]] + rest[1..]
  }

  /** `sep.join(parts)`. */
  function Join(parts: seq<string>, sep: char): string
    decreases |parts|
  {
    if |parts| == 0 then ""
    else if |parts| == 1 then parts[0]
    else parts[0] + [sep] + Join(parts[1..], sep)
  }

  /** Joining the pieces of a split gives the string back. */
  lemma {:induction false} JoinSplit(s: string, sep: char)
    ensures Join(Split(s, sep), sep) == s
    decreases |s|
  {
    if |s| == 0 {
    } else if s[0] == sep {
      JoinSplit(s[1..], sep);
      assert s == [sep] + s[1..];
    } else {
      JoinSplit(s[1..], sep);
      var rest := Split(s[1..], sep);
      if |rest| == 1 {
        assert s == [s[0]] + s[1..];
      } else {
        assert Join(rest, sep) == rest[0] + [sep] + Join(rest[1..], sep);
        var r := Split(s, sep);
        assert r[1..] == rest[1..];
        assert s == [s[0]] + s[1..];
      }
    }
  }

  /** Splitting the join of separator-free pieces gives the pieces back. */
  lemma {:induction false} SplitJoin(parts: seq<string>, sep: char)
    requires |parts| >= 1
    requires forall k :: 0 <= k < |parts| ==> sep !in parts[k]
    ensures Split(Join(parts, sep), sep) == parts
    decreases |parts|, |parts[0]|
  {
    if |parts| == 1 {
      SplitNoSep(parts[0], sep);
    } else if |parts[0]| == 0 {
      SplitJoin(parts[1..], sep);
      assert Join(parts, sep) == [sep] + Join(parts[1..], sep);
      assert parts == [""] + parts[1..];
    } else {
      var tail := [parts[0][1..]] + parts[1..];
      assert forall k :: 0 <= k < |tail| ==> sep !in tail[k] by {
        forall k | 0 <= k < |tail| ensures sep !in tail[k] {
          if k == 0 {
            assert forall c :: c in parts[0][1..] ==> c in parts[0];
          } else {
            assert tail[k] == parts[k];
          }
        }
      }
      SplitJoin(tail, sep);
      assert tail[1..] == parts[1..];
      var j := Join(parts, sep);
      assert j == parts[0] + [sep] + Join(parts[1..], sep);
      assert Join(tail, sep) == parts[0][1..] + [sep] + Join(parts[1..], sep);
      assert j[0] == parts[0][0];
      assert j[1..] == Join(tail, sep);
      assert parts[0] == [parts[0][0]] + parts[0][1..];
    }
  }

  lemma {:induction false} SplitNoSep(s: string, sep: char)
    requires sep !in s
    ensures Split(s, sep) == [s]
    decreases |s|
  {
    if |s| > 0 {
      assert sep !in s[1..] by {
        assert forall c :: c in s[1..] ==> c in s;
      }
      SplitNoSep(s[1..], sep);
      assert s == [s[0]] + s[1..];
    }
  }

  /** `str(n)` for a natural number: its decimal digits. */
  function Decimal(n: nat): (r: string)
    ensures |r| >= 1 && forall k :: 0 <= k < |r| ==> '0' <= r[k] <= '9'
  {
    var d := ['0' + (n % 10) as char];
    if n < 10 then d else Decimal(n / 10) + d
  }
}
