/** Which files the auto-add folder watcher picks up
    (src/calibre/gui2/auto_add.py): the allowed formats, the filter rules
    and the per-file verdict.

    `BOOK_EXTENSIONS`, the `gprefs` entries, `compile_rule` and
    `filter_filename` live outside this file; they are parameters here.
    Names are compared after ASCII lower-casing. */
module AutoAdd {
  import opened Common

  /** The formats never auto-added even when listed as book extensions. */
  const NeverAdded: set<string> := {"pdr", "mbp", "tan"}

  /** AUTO_ADDED: the book extensions minus pdr, mbp and tan. */
  function AutoAdded(bookExtensions: set<string>): (r: set<string>)
    ensures forall x :: x in r <==> x in bookExtensions && x != "pdr" && x != "mbp" && x != "tan"
  {
    bookExtensions - NeverAdded
  }

  /** The object `allowed_formats` returns: AllAllowed (everything but the
      blocked formats) or a plain set of formats. */
  datatype Allowed = AllAllowed(disallowed: set<string>) | Formats(formats: set<string>)

  /** `x in allowed`. */
  predicate Admits(a: Allowed, x: string) {
    match a
    case AllAllowed(disallowed) => x !in disallowed
    case Formats(formats) => x in formats
  }

  /** allowed_formats(): with `auto_add_everything` every format that is not
      blocked, otherwise the AUTO_ADDED formats that are not blocked. */
  function AllowedFormats(everything: bool, blocked: seq<string>, bookExtensions: set<string>): (r: Allowed)
    ensures everything ==> forall x :: Admits(r, x) <==> x !in blocked
    ensures !everything ==> forall x :: Admits(r, x) <==> x in bookExtensions && x !in NeverAdded && x !in blocked
  {
    var b := set x | x in blocked;
    if everything then AllAllowed(b) else Formats(AutoAdded(bookExtensions) - b)
  }

  // -----------------------------------------------------------------------
  // os.path.splitext on POSIX paths

  /** `s.rfind(c)`: the last position holding `c`, or -1. */
  function LastIndex(s: string, c: char): (r: int)
    ensures -1 <= r < |s|
    ensures r >= 0 ==> s[r] == c
    ensures forall k :: r < k < |s| ==> s[k] != c
  {
    if |s| == 0 then -1 else if s[|s| - 1] == c then |s| - 1 else LastIndex(s[..|s| - 1], c)
  }

  /** The last occurrence is the only position with nothing like it after it. */
  lemma LastIndexUnique(s: string, c: char, i: int)
    requires -1 <= i < |s| && (i >= 0 ==> s[i] == c)
    requires forall k :: i < k < |s| ==> s[k] != c
    ensures LastIndex(s, c) == i
  {
  }

  predicate AllDots(s: string) {
    forall k :: 0 <= k < |s| ==> s[k] == '.'
  }

  /** An extension: empty, or a dot followed by neither dots nor slashes. */
  predicate IsExt(e: string) {
    e == "" || (e[0] == '.' && forall k :: 1 <= k < |e| ==> e[k] != '.' && e[k] != '/')
  }

  /** os.path.splitext: the extension starts at the last '.' of the last
      path component, unless only dots precede it in that component. */
  function SplitExt(p: string): (r: (string, string))
    ensures r.0 + r.1 == p
    ensures IsExt(r.1)
  {
    var sepIdx := LastIndex(p, '/');
    var dotIdx := LastIndex(p, '.');
    if dotIdx > sepIdx && !AllDots(p[sepIdx + 1..dotIdx]) then
      SplitAt(p, dotIdx, sepIdx);
      (p[..dotIdx], p[dotIdx..])
    else
      assert p + "" == p;
      (p, "")
  }

  lemma SplitAt(p: string, dotIdx: nat, sepIdx: int)
    requires -1 <= sepIdx < dotIdx < |p| && p[dotIdx] == '.'
    requires forall k :: dotIdx < k < |p| ==> p[k] != '.'
    requires forall k :: sepIdx < k < |p| ==> p[k] != '/'
    ensures p[..dotIdx] + p[dotIdx..] == p
    ensures IsExt(p[dotIdx..]) && p[dotIdx..] != ""
  {
    var e := p[dotIdx..];
    forall k | 1 <= k < |e| ensures e[k] != '.' && e[k] != '/' {
      assert e[k] == p[dotIdx + k];
    }
  }

  /** A name whose last component has something other than dots before a
      final ".e" splits into the name and ".e". */
  lemma SplitExtOf(stem: string, e: string, j: nat)
    requires j < |stem| && stem[j] != '.' && stem[j] != '/'
    requires forall k :: j < k < |stem| ==> stem[k] != '/'
    requires forall k :: 0 <= k < |e| ==> e[k] != '.' && e[k] != '/'
    ensures SplitExt(stem + "." + e) == (stem, "." + e)
  {
    var p := stem + "." + e;
    NameShape(stem, e, j);
    LastIndexUnique(p, '.', |stem|);
    var sepIdx := LastIndex(p, '/');
    assert sepIdx < j;
    assert p[sepIdx + 1..|stem|][j - sepIdx - 1] == stem[j];
    assert !AllDots(p[sepIdx + 1..|stem|]);
  }

  lemma NameShape(stem: string, e: string, j: nat)
    requires j < |stem| && stem[j] != '.' && stem[j] != '/'
    requires forall k :: j < k < |stem| ==> stem[k] != '/'
    requires forall k :: 0 <= k < |e| ==> e[k] != '.' && e[k] != '/'
    ensures var p := stem + "." + e;
      && p[|stem|] == '.' && p[..|stem|] == stem && p[|stem|..] == "." + e
      && (forall k :: |stem| < k < |p| ==> p[k] != '.')
      && (forall k :: j <= k < |p| ==> p[k] != '/')
  {
    var p := stem + "." + e;
    forall k | j <= k < |p| ensures p[k] != '/' {
      if k < |stem| {
        assert p[k] == stem[k];
      } else if k > |stem| {
        assert p[k] == e[k - |stem| - 1];
      }
    }
    forall k | |stem| < k < |p| ensures p[k] != '.' {
      assert p[k] == e[k - |stem| - 1];
    }
  }

  /** `os.path.splitext(filename)[1][1:].lower()`. */
  function ExtensionOf(filename: string): (r: string)
    ensures forall k :: 0 <= k < |r| ==> r[k] != '.'
  {
    var e := SplitExt(filename).1;
    if e == "" then "" else Lower(e[1..])
  }

  /** The extension of "stem.e" is "e" lower-cased. */
  lemma ExtensionOfName(stem: string, e: string, j: nat)
    requires j < |stem| && stem[j] != '.' && stem[j] != '/'
    requires forall k :: j < k < |stem| ==> stem[k] != '/'
    requires forall k :: 0 <= k < |e| ==> e[k] != '.' && e[k] != '/'
    ensures ExtensionOf(stem + "." + e) == Lower(e)
  {
    SplitExtOf(stem, e, j);
    assert ("." + e)[1..] == e;
  }

  // -----------------------------------------------------------------------
  // The worker's rules

  /** An entry of `add_filter_rules`. */
  datatype FilterRule = FilterRule(entries: map<string, string>)

  /** What `compile_rule` makes of a rule. */
  datatype CompiledRule = CompiledRule(rule: FilterRule, matcher: nat)

  /** `tuple(map(compile_rule, rules))`: None when one rule fails to compile. */
  function CompileAll(rules: seq<FilterRule>, compile: FilterRule -> Option<CompiledRule>): (r: Option<seq<CompiledRule>>)
    ensures r.Some? <==> forall k :: 0 <= k < |rules| ==> compile(rules[k]).Some?
    ensures r.Some? ==> |r.value| == |rules| && forall k :: 0 <= k < |rules| ==> r.value[k] == compile(rules[k]).value
  {
    if |rules| == 0 then Some([])
    else
      var rest := CompileAll(rules[1..], compile);
      var first := compile(rules[0]);
      if first.None? then None
      else if rest.None? then
        assert exists k :: 0 <= k < |rules| - 1 && compile(rules[1..][k]).None?;
        None
      else
        Some([first.value] + rest.value)
  }

  /** The auto-add worker's filtering state. */
  class Worker {
    var allowed: Allowed
    var compiledRules: seq<CompiledRule>

    constructor (everything: bool, blocked: seq<string>, bookExtensions: set<string>,
                 rules: seq<FilterRule>, compile: FilterRule -> Option<CompiledRule>)
      ensures allowed == AllowedFormats(everything, blocked, bookExtensions)
      ensures var c := CompileAll(rules, compile); compiledRules == if c.Some? then c.value else []
    {
      allowed := AllowedFormats(everything, blocked, bookExtensions);
      compiledRules := [];
      new;
      ReadRules(rules, compile);
    }

    /** read_rules: the compiled rules, or none at all when one of them
        fails to compile. */
    method ReadRules(rules: seq<FilterRule>, compile: FilterRule -> Option<CompiledRule>)
      modifies this`compiledRules
      ensures (forall k :: 0 <= k < |rules| ==> compile(rules[k]).Some?) ==>
        |compiledRules| == |rules| && forall k :: 0 <= k < |rules| ==> compiledRules[k] == compile(rules[k]).value
      ensures (exists k :: 0 <= k < |rules| && compile(rules[k]).None?) ==> compiledRules == []
    {
      var c := CompileAll(rules, compile);
      compiledRules := if c.Some? then c.value else [];
    }

    /** is_filename_allowed: the rules' verdict when they give one, else
        whether the lower-cased extension is an allowed format. */
    method IsFilenameAllowed(filterFilename: (seq<CompiledRule>, string) -> Option<bool>, filename: string)
      returns (r: bool)
      ensures filterFilename(compiledRules, filename).Some? ==> r == filterFilename(compiledRules, filename).value
      ensures filterFilename(compiledRules, filename).None? ==> (r <==> Admits(allowed, ExtensionOf(filename)))
    {
      var verdict := filterFilename(compiledRules, filename);
      if verdict.Some? {
        r := verdict.value;
      } else {
        r := Admits(allowed, ExtensionOf(filename));
      }
    }
  }

  /** Under the default policy a file "stem.e" is admitted exactly when
      the lower-cased `e` is a book extension other than pdr, mbp and tan
      and is not blocked. */
  lemma DefaultPolicyAdmits(bookExtensions: set<string>, blocked: seq<string>, stem: string, e: string, j: nat)
    requires j < |stem| && stem[j] != '.' && stem[j] != '/'
    requires forall k :: j < k < |stem| ==> stem[k] != '/'
    requires forall k :: 0 <= k < |e| ==> e[k] != '.' && e[k] != '/'
    ensures Admits(AllowedFormats(false, blocked, bookExtensions), ExtensionOf(stem + "." + e)) <==>
      Lower(e) in bookExtensions && Lower(e) !in NeverAdded && Lower(e) !in blocked
  {
    ExtensionOfName(stem, e, j);
  }
}
