/** `get_name_components` (src/calibre/gui2/tag_browser/model.py): the
    hierarchy levels of a dotted value name such as "Fiction.Fantasy". */
module NameComponents {
  import opened Common

  /** `[t.strip() for t in parts if t.strip()]`. */
  function StrippedNonEmpty(parts: seq<string>): seq<string> {
    if |parts| == 0 then []
    else
      var t := Strip(parts[0]);
      if t != "" then [t] + StrippedNonEmpty(parts[1..]) else StrippedNonEmpty(parts[1..])
  }

  /** The kept segments are non-empty and stripped, and dot-free when the
      segments were. */
  lemma {:induction false} StrippedNonEmptyProps(parts: seq<string>)
    ensures var r := StrippedNonEmpty(parts);
      && Clean(r)
      && ((forall k :: 0 <= k < |parts| ==> '.' !in parts[k]) ==> forall k :: 0 <= k < |r| ==> '.' !in r[k])
  {
    if |parts| > 0 {
      var t := Strip(parts[0]);
      StripByFixed(t, IsSpace);
      StripKeepsOnly(parts[0]);
      StrippedNonEmptyProps(parts[1..]);
      if (forall k :: 0 <= k < |parts| ==> '.' !in parts[k]) {
        assert forall k :: 0 <= k < |parts[1..]| ==> '.' !in parts[1..][k] by {
          forall k | 0 <= k < |parts[1..]| ensures '.' !in parts[1..][k] {
            assert parts[1..][k] == parts[k + 1];
          }
        }
      }
    }
  }

  lemma StripKeepsOnly(s: string)
    ensures forall c :: c in Strip(s) ==> c in s
  {
    StripByKeepsOnly(s, IsSpace);
  }

  lemma {:induction false} StripByKeepsOnly(s: string, drop: char -> bool)
    ensures forall c :: c in StripBy(s, drop) ==> c in s
    decreases |s|
  {
    if |s| > 0 {
      if drop(s[0]) {
        StripByKeepsOnly(s[1..], drop);
      } else if drop(s[|s| - 1]) {
        StripByKeepsOnly(s[..|s| - 1], drop);
      }
    }
  }

  /** Every segment is non-empty and has no surrounding white space. */
  predicate Clean(parts: seq<string>) {
    forall k :: 0 <= k < |parts| ==> parts[k] != "" && Strip(parts[k]) == parts[k]
  }

  lemma {:induction false} CleanIsFixed(parts: seq<string>)
    requires Clean(parts)
    ensures StrippedNonEmpty(parts) == parts
  {
    if |parts| > 0 {
      assert Clean(parts[1..]) by {
        forall k | 0 <= k < |parts[1..]| ensures parts[1..][k] != "" && Strip(parts[1..][k]) == parts[1..][k] {
          assert parts[1..][k] == parts[k + 1];
        }
      }
      CleanIsFixed(parts[1..]);
      assert parts == [parts[0]] + parts[1..];
    }
  }

  /** A dotted name's hierarchy levels, or the whole name as its only
      level when the dotted form has empty or padded segments. */
  function GetNameComponents(name: string): (r: seq<string>)
    ensures |r| >= 1
  {
    var components := StrippedNonEmpty(Split(name, '.'));
    if |components| == 0 || Join(components, '.') != name then [name] else components
  }

  /** The levels are the dot-separated segments exactly when every segment
      is non-empty and unpadded; joined with dots they give back the name. */
  lemma GetNameComponentsSpec(name: string)
    ensures var r := GetNameComponents(name);
      && r == (if Clean(Split(name, '.')) then Split(name, '.') else [name])
      && Join(r, '.') == name
  {
    ComponentsCases(name);
  }

  lemma ComponentsCases(name: string)
    ensures var components := StrippedNonEmpty(Split(name, '.'));
      Clean(Split(name, '.')) <==> |components| > 0 && Join(components, '.') == name
    ensures Clean(Split(name, '.')) ==> StrippedNonEmpty(Split(name, '.')) == Split(name, '.')
  {
    var components := StrippedNonEmpty(Split(name, '.'));
    JoinSplit(name, '.');
    if Clean(Split(name, '.')) {
      CleanIsFixed(Split(name, '.'));
    } else if |components| > 0 && Join(components, '.') == name {
      StrippedNonEmptyProps(Split(name, '.'));
      SplitJoin(components, '.');
    }
  }

  /** The first component of each name. */
  function FirstComponents(names: seq<string>): (r: seq<string>)
    ensures |r| == |names| && forall k :: 0 <= k < |names| ==> r[k] == GetNameComponents(names[k])[0]
  {
    if |names| == 0 then [] else [GetNameComponents(names[0])[0]] + FirstComponents(names[1..])
  }

  /** `firsts` lists the first component of each of `names`. */
  ghost predicate FirstsOk(firsts: seq<string>, names: seq<string>)
    decreases |names|
  {
    && |firsts| == |names|
    && (|names| > 0 ==> firsts[0] == GetNameComponents(names[0])[0] && FirstsOk(firsts[1..], names[1..]))
  }

  lemma {:induction false} FirstComponentsOk(names: seq<string>)
    ensures FirstsOk(FirstComponents(names), names)
    decreases |names|
  {
    if |names| > 0 {
      FirstComponentsOk(names[1..]);
      assert FirstComponents(names)[1..] == FirstComponents(names[1..]);
    }
  }

  lemma {:induction false} FirstsAt(firsts: seq<string>, names: seq<string>, i: nat)
    requires FirstsOk(firsts, names) && i < |names|
    ensures firsts[i] == GetNameComponents(names[i])[0]
    decreases i
  {
    if i > 0 {
      FirstsAt(firsts[1..], names[1..], i - 1);
    }
  }
}
