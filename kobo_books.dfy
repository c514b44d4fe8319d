/** The books list of the Kobo driver (src/calibre/devices/kobo/books.py):
    which collections (bookshelves) every book on the device is put in by
    `KTCollectionsBookList.get_collections`, the debugging-title test, and
    the two kinds of book a content ID tells apart.

    Books are value records held by the list; the one field the source
    changes on a book, `device_collections`, is changed by replacing the
    record. A collection is the list of (lpath, book) pairs the source keeps
    in a dictionary keyed by lpath, in insertion order; a book is named by
    its position in the list. */
module KoboBooks {
  import opened Common

  // -----------------------------------------------------------------------
  // Books and their fields

  /** One value of a metadata field: Python's None, a string or an integer. */
  datatype Scalar = Null | Text(s: string) | Number(n: int)

  /** What `book.get(attr)` returns: a single value or a list of them. */
  datatype Value = One(x: Scalar) | Many(xs: seq<Scalar>)

  /** The `datatype` entry of a field's metadata, for the cases the source
      tells apart. */
  datatype Kind = Series | Rating | TextKind | Composite | OtherKind

  /** A field's metadata (`fm`): its kind, whether it is a custom column,
      and the `ui_to_list` separator of a field with several values
      (None when `is_multiple` is empty). */
  datatype FieldMeta = FieldMeta(kind: Kind, isCustom: bool, multiple: Option<char>)

  /** A field as `book.get(attr)` and `format_field_extended(attr)` see it:
      its value, its original value and its metadata. */
  datatype Field = Field(val: Value, origVal: Value, fm: Option<FieldMeta>)

  datatype Book = Book(
    lpath: Option<string>,
    applicationId: Option<int>,
    canPutOnShelves: bool,
    /** `_new_book`: the book is being sent to the device now. */
    isNew: bool,
    deviceCollections: seq<string>,
    contentId: Option<string>,
    fields: map<string, Field>)

  /** `is_sideloaded`: the content ID is set and names a file. */
  predicate IsSideloaded(b: Book) {
    b.contentId.Some? && b.contentId.value != "" && StartsWith(b.contentId.value, "file")
  }

  /** `is_purchased_kepub`: the content ID is set and does not name a file. */
  predicate IsPurchasedKepub(b: Book) {
    b.contentId.Some? && b.contentId.value != "" && !StartsWith(b.contentId.value, "file")
  }

  /** A book with a content ID is exactly one of the two kinds; without one
      it is neither. */
  lemma BookKinds(b: Book)
    ensures !(IsSideloaded(b) && IsPurchasedKepub(b))
    ensures IsSideloaded(b) || IsPurchasedKepub(b) <==> b.contentId.Some? && b.contentId.value != ""
  {
  }

  // -----------------------------------------------------------------------
  // is_debugging_title

  /** `is_debugging_title`: with debugging on and a debugging title set,
      a title matches when it contains that title ignoring case, or when it
      is empty. */
  function IsDebuggingTitle(debug: bool, debuggingTitle: Option<string>, title: Option<string>): (r: bool)
    ensures !debug ==> !r
    ensures r ==> debuggingTitle.Some? && debuggingTitle.value != "" && title.Some?
  {
    debug && debuggingTitle.Some? && |debuggingTitle.value| > 0 && title.Some?
    && (Find(Lower(title.value), Lower(debuggingTitle.value)) || |title.value| == 0)
  }

  lemma {:induction false} LowerTwice(s: string)
    ensures Lower(Lower(s)) == Lower(s)
  {
    forall k | 0 <= k < |s| ensures Lower(Lower(s))[k] == Lower(s)[k] {
      assert LowerChar(LowerChar(s[k])) == LowerChar(s[k]);
    }
  }

  /** The test ignores case on both sides, and an empty title always
      matches while debugging with a debugging title. */
  lemma DebuggingTitleIgnoresCase(debuggingTitle: string, title: string)
    requires debuggingTitle != ""
    ensures IsDebuggingTitle(true, Some(debuggingTitle), Some(title))
            == IsDebuggingTitle(true, Some(Lower(debuggingTitle)), Some(Lower(title)))
    ensures IsDebuggingTitle(true, Some(debuggingTitle), Some(""))
    ensures IsDebuggingTitle(true, Some(debuggingTitle), Some(title)) <==> Contains(Lower(title), Lower(debuggingTitle)) || title == ""
  {
    LowerTwice(title);
    LowerTwice(debuggingTitle);
  }

  // -----------------------------------------------------------------------
  // Turning field values into collection names

  const DeviceCollectionsAttr := "device_collections"
  const TemplateAttr := "%template%"
  /** The separator of the pieces of the collections template's output. */
  const TemplateSep := ":@:"

  /** Python's `str(n)` for a non-negative integer. */
  function NatToString(n: nat): (r: string)
    ensures |r| >= 1
  {
    if n < 10 then [(n + '0' as int) as char]
    else NatToString(n / 10) + [(n % 10 + '0' as int) as char]
  }

  function IntToString(n: int): (r: string)
    ensures |r| >= 1
  {
    if n < 0 then "-" + NatToString(-n) else NatToString(n)
  }

  /** `str(n / 2.0)` for a rating stored as half-stars. */
  function RatingText(n: int): (r: string)
    ensures |r| >= 3
    ensures r[|r| - 2..] == (if n % 2 == 0 then ".0" else ".5")
  {
    var m: nat := if n < 0 then -n else n;
    (if n < 0 then "-" else "") + NatToString(m / 2) + (if m % 2 == 0 then ".0" else ".5")
  }

  /** Python truthiness of a value. */
  predicate Truthy(x: Scalar) {
    match x
    case Null => false
    case Text(s) => s != ""
    case Number(n) => n != 0
  }

  predicate ValueTruthy(v: Value) {
    match v
    case One(x) => Truthy(x)
    case Many(xs) => xs != []
  }

  /** Python's `str(x)`. */
  function Str(x: Scalar): string {
    match x
    case Null => "None"
    case Text(s) => s
    case Number(n) => IntToString(n)
  }

  function Texts(ss: seq<string>): (r: seq<Scalar>)
    ensures |r| == |ss| && forall i :: 0 <= i < |ss| ==> r[i] == Text(ss[i])
  {
    seq(|ss|, i requires 0 <= i < |ss| => Text(ss[i]))
  }

  /** `s.split(sep)` for a separator of one or more characters. */
  function SplitOn(s: string, sep: string): (r: seq<string>)
    requires |sep| >= 1
    ensures |r| >= 1
    decreases |s|
  {
    if |s| < |sep| then [s]
    else if s[..|sep|] == sep then [""] + SplitOn(s[|sep|..], sep)
    else
      var rest := SplitOn(s[1..], sep);
      [[s[0]] + rest[0]] + rest[1..]
  }

  /** `sep.join(parts)`. */
  function JoinOn(parts: seq<string>, sep: string): string
    decreases |parts|
  {
    if |parts| == 0 then ""
    else if |parts| == 1 then parts[0]
    else parts[0] + sep + JoinOn(parts[1..], sep)
  }

  /** Joining the pieces of a split gives the string back. */
  lemma JoinOnCons(x: string, rest: seq<string>, sep: string)
    ensures JoinOn([x] + rest, sep) == x + (if |rest| == 0 then "" else sep + JoinOn(rest, sep))
  {
    assert ([x] + rest)[1..] == rest;
    if |rest| > 0 {
      assert x + sep + JoinOn(rest, sep) == x + (sep + JoinOn(rest, sep));
    }
  }

  lemma {:induction false} JoinSplitOn(s: string, sep: string)
    requires |sep| >= 1
    ensures JoinOn(SplitOn(s, sep), sep) == s
    decreases |s|
  {
    if |s| < |sep| {
    } else if s[..|sep|] == sep {
      JoinSplitOn(s[|sep|..], sep);
      JoinSplitAtSep(s, sep);
    } else {
      JoinSplitOn(s[1..], sep);
      JoinSplitAtChar(s, sep);
    }
  }

  lemma JoinSplitAtSep(s: string, sep: string)
    requires 1 <= |sep| <= |s| && s[..|sep|] == sep
    requires JoinOn(SplitOn(s[|sep|..], sep), sep) == s[|sep|..]
    ensures JoinOn(SplitOn(s, sep), sep) == s
  {
    var rest := SplitOn(s[|sep|..], sep);
    assert SplitOn(s, sep) == [""] + rest;
    JoinEmptyFirst(rest, sep);
    SplitsAtPrefix(s, sep);
  }

  lemma JoinSplitAtChar(s: string, sep: string)
    requires 1 <= |sep| <= |s| && s[..|sep|] != sep
    requires JoinOn(SplitOn(s[1..], sep), sep) == s[1..]
    ensures JoinOn(SplitOn(s, sep), sep) == s
  {
    var rest := SplitOn(s[1..], sep);
    assert SplitOn(s, sep) == [[s[0]] + rest[0]] + rest[1..];
    JoinFirstGrows(s[0], rest, sep);
    assert s == [s[0]] + s[1..];
  }

  lemma SplitsAtPrefix(s: string, p: string)
    requires |p| <= |s| && s[..|p|] == p
    ensures s == p + s[|p|..]
  {
    assert s == s[..|p|] + s[|p|..];
  }

  /** An empty first part puts a separator in front. */
  lemma JoinEmptyFirst(parts: seq<string>, sep: string)
    requires |parts| >= 1
    ensures JoinOn([""] + parts, sep) == sep + JoinOn(parts, sep)
  {
    JoinOnCons("", parts, sep);
  }

  /** Prefixing the first part with `c` prefixes the joined string with `c`. */
  lemma JoinFirstGrows(c: char, parts: seq<string>, sep: string)
    requires |parts| >= 1
    ensures JoinOn([[c] + parts[0]] + parts[1..], sep) == [c] + JoinOn(parts, sep)
  {
    var t := if |parts[1..]| == 0 then "" else sep + JoinOn(parts[1..], sep);
    JoinOnCons([c] + parts[0], parts[1..], sep);
    assert parts == [parts[0]] + parts[1..];
    JoinOnCons(parts[0], parts[1..], sep);
    assert ([c] + parts[0]) + t == [c] + (parts[0] + t);
  }

  /** `[v.strip() for v in pieces if v.strip()]`. */
  function StrippedNonEmpty(pieces: seq<string>): (r: seq<string>)
    ensures forall i :: 0 <= i < |r| ==> r[i] != "" && Strip(r[i]) == r[i]
    ensures forall v :: v in r <==> v != "" && exists p :: p in pieces && Strip(p) == v
    decreases |pieces|
  {
    if |pieces| == 0 then []
    else
      var v := Strip(pieces[0]);
      StripByFixed(v, IsSpace);
      (if v != "" then [v] else []) + StrippedNonEmpty(pieces[1..])
  }

  /** The collection names the collections template's output `nv` holds. */
  function TemplateValues(nv: string): (r: seq<string>)
    ensures forall i :: 0 <= i < |r| ==> r[i] != "" && Strip(r[i]) == r[i]
  {
    StrippedNonEmpty(SplitOn(nv, TemplateSep))
  }

  /** The field named `attr`, or nothing. */
  function FieldOf(b: Book, attr: string): Field {
    if attr in b.fields then b.fields[attr] else Field(One(Null), One(Null), None)
  }

  function AsList(v: Value): seq<Scalar> {
    match v
    case One(x) => [x]
    case Many(xs) => xs
  }

  /** The list `val` of a metadata field, after `if not val: continue`. */
  function FieldCategories(f: Field): (r: seq<Scalar>)
    ensures !ValueTruthy(f.val) ==> r == []
  {
    if !ValueTruthy(f.val) then []
    else
      match f.val
      case Many(xs) => xs
      case One(x) =>
        match f.fm
        case None => [x]
        case Some(fm) =>
          if fm.kind == Series then AsList(f.origVal)
          else if fm.kind == Rating then
            match f.origVal
            case One(Number(n)) => [Text(RatingText(n))]
            case _ => AsList(f.origVal)
          else if fm.kind == TextKind && fm.multiple.Some? then AsList(f.origVal)
          else if fm.kind == Composite && fm.multiple.Some? && x.Text? then
            var pieces := Split(x.s, fm.multiple.value);
            seq(|pieces|, i requires 0 <= i < |pieces| => Text(Strip(pieces[i])))
          else [x]
  }

  /** The categories one attribute gives a book: its device collections,
      the pieces of the template's output, or the field's values. */
  function Categories(b: Book, attr: string, template: Option<Book -> string>): seq<Scalar> {
    if attr == DeviceCollectionsAttr then Texts(b.deviceCollections)
    else if attr == TemplateAttr then
      match template
      case None => []
      case Some(f) => if f(b) == "" then [] else Texts(TemplateValues(f(b)))
    else FieldCategories(FieldOf(b, attr))
  }

  /** The metadata the bracket test consults: None for device collections
      and the template, whose `fm` is None. */
  function MetaOf(b: Book, attr: string): Option<FieldMeta> {
    if attr == DeviceCollectionsAttr || attr == TemplateAttr then None else FieldOf(b, attr).fm
  }

  /** A value like `[x]`: how the source writes a value it means to hide. */
  predicate Bracketed(x: Scalar) {
    x.Text? && |x.s| > 1 && x.s[0] == '[' && x.s[|x.s| - 1] == ']'
  }

  predicate SpaceOrComma(c: char) {
    c == ' ' || c == ','
  }

  /** The collection one category names, if any: `[x]` values of tags or
      of a custom text column are skipped, so are empty values, and the
      name is the value as text with spaces and commas stripped. */
  function CategoryName(attr: string, fm: Option<FieldMeta>, category: Scalar): (r: Option<string>)
    ensures r.Some? ==> Truthy(category) && r.value == StripBy(Str(category), SpaceOrComma)
    ensures !Truthy(category) ==> r.None?
  {
    if attr == DeviceCollectionsAttr then
      if Truthy(category) then Some(StripBy(Str(category), SpaceOrComma)) else None
    else if fm.Some? && fm.value.isCustom && fm.value.kind == TextKind && Bracketed(category) then None
    else if (fm.None? || !fm.value.isCustom) && attr == "tags" && Bracketed(category) then None
    else if !Truthy(category) then None
    else Some(StripBy(Str(category), SpaceOrComma))
  }

  /** `[x]` values from tags or a custom text column never name a collection. */
  lemma BracketedNeverNamed(attr: string, fm: Option<FieldMeta>, category: Scalar)
    requires Bracketed(category)
    requires (attr == "tags" && (fm.None? || !fm.value.isCustom))
             || (attr != DeviceCollectionsAttr && fm.Some? && fm.value.isCustom && fm.value.kind == TextKind)
    ensures CategoryName(attr, fm, category).None?
  {
  }

  /** Every other non-empty value names the collection it reads as. */
  lemma CategoryNamed(attr: string, fm: Option<FieldMeta>, category: Scalar)
    requires Truthy(category) && !Bracketed(category)
    ensures CategoryName(attr, fm, category) == Some(StripBy(Str(category), SpaceOrComma))
  {
  }

  /** The names, in order, that one attribute gives a book. */
  function NamesOf(attr: string, fm: Option<FieldMeta>, cats: seq<Scalar>): (r: seq<string>)
    decreases |cats|
  {
    if |cats| == 0 then []
    else
      var rest := NamesOf(attr, fm, cats[1..]);
      match CategoryName(attr, fm, cats[0])
      case None => rest
      case Some(n) => [n] + rest
  }

  /** The names the attributes `attrs` give a book, attribute by attribute. */
  function AttrNames(b: Book, attrs: seq<string>, template: Option<Book -> string>): seq<string>
    decreases |attrs|
  {
    if |attrs| == 0 then []
    else
      var attr := Strip(attrs[0]);
      NamesOf(attr, MetaOf(b, attr), Categories(b, attr, template)) + AttrNames(b, attrs[1..], template)
  }

  // -----------------------------------------------------------------------
  // Which attributes feed a book's collections

  /** The book can be told apart by its lpath, is in the current library
      and can go on a shelf. */
  predicate Eligible(b: Book) {
    b.lpath.Some? && b.applicationId.Some? && b.canPutOnShelves
  }

  /** An existing book while the device's collections are managed on
      connecting: its device-managed collections are kept and its device
      collections cleared. */
  predicate Resets(b: Book, manage: string) {
    Eligible(b) && !b.isNew && manage == "on_connect"
  }

  /** The attributes whose values become the book's collections. */
  function AttrsFor(b: Book, manage: string, ca: seq<string>, hasTemplate: bool): (r: seq<string>)
    ensures b.isNew && manage == "manual" ==> |r| > |ca| && r[..|ca| + 1] == [DeviceCollectionsAttr] + ca
    ensures b.isNew && manage != "manual" ==> |r| >= |ca| && r[..|ca|] == ca
    ensures !b.isNew && manage == "on_connect" ==> |r| >= |ca| && r[..|ca|] == ca
    ensures !b.isNew && manage != "on_connect" ==> |r| >= 1 && r[0] == DeviceCollectionsAttr && |r| <= 2
    ensures hasTemplate ==> |r| >= 1 && r[|r| - 1] == TemplateAttr
    ensures !hasTemplate && TemplateAttr !in ca ==> TemplateAttr !in r
  {
    var attrs :=
      if b.isNew then (if manage == "manual" then [DeviceCollectionsAttr] + ca else ca)
      else if manage == "on_connect" then ca
      else [DeviceCollectionsAttr];
    if hasTemplate then attrs + [TemplateAttr] else attrs
  }

  /** `collection_attributes` lower-cased. */
  function LowerAll(attrs: seq<string>): (r: seq<string>)
    ensures |r| == |attrs| && forall i :: 0 <= i < |r| ==> r[i] == Lower(attrs[i])
  {
    seq(|attrs|, i requires 0 <= i < |attrs| => Lower(attrs[i]))
  }

  /** The device-managed collections the book is already in. */
  function KeptNames(dmc: seq<string>, b: Book): (r: seq<string>)
    ensures forall n :: n in r <==> n in dmc && n in b.deviceCollections
    decreases |dmc|
  {
    if |dmc| == 0 then []
    else (if dmc[0] in b.deviceCollections then [dmc[0]] else []) + KeptNames(dmc[1..], b)
  }

  /** The book as `get_collections` leaves it. */
  function Updated(b: Book, manage: string): (r: Book)
    ensures r == if Resets(b, manage) then b.(deviceCollections := []) else b
  {
    if Resets(b, manage) then b.(deviceCollections := []) else b
  }

  /** Every collection name the book is put in, in the order the source adds
      them; none for a book that is not eligible. */
  function BookNames(b: Book, manage: string, ca: seq<string>, dmc: seq<string>,
                     template: Option<Book -> string>): seq<string>
  {
    if !Eligible(b) then []
    else
      (if Resets(b, manage) then KeptNames(dmc, b) else [])
      + AttrNames(Updated(b, manage), AttrsFor(b, manage, ca, template.Some?), template)
  }

  /** A book that is not eligible is in no collection. */
  lemma IneligibleUnnamed(b: Book, manage: string, ca: seq<string>, dmc: seq<string>,
                          template: Option<Book -> string>)
    requires !Eligible(b)
    ensures BookNames(b, manage, ca, dmc, template) == []
  {
  }

  /** An existing book outside on-connect management, without a template,
      keeps exactly the collections it is in on the device. */
  lemma {:induction false} ExistingKeepsDeviceCollections(b: Book, manage: string, ca: seq<string>, dmc: seq<string>)
    requires Eligible(b) && !b.isNew && manage != "on_connect"
    ensures BookNames(b, manage, ca, dmc, None) == NamesOf(DeviceCollectionsAttr, None, Texts(b.deviceCollections))
  {
    var attrs := AttrsFor(b, manage, ca, false);
    assert attrs == [DeviceCollectionsAttr];
    assert Strip(DeviceCollectionsAttr) == DeviceCollectionsAttr by {
      StripByFixed(DeviceCollectionsAttr, IsSpace);
    }
    assert AttrNames(b, attrs[1..], None) == [];
  }

  // -----------------------------------------------------------------------
  // Collections

  /** A collection: (lpath, book) pairs in the order they were added. */
  type Collection = seq<(string, int)>

  predicate HasLpath(c: Collection, lpath: string) {
    exists k :: 0 <= k < |c| && c[k].0 == lpath
  }

  /** `collections[cat_name][lpath] = book` unless the lpath is there. */
  function Add(colls: map<string, Collection>, name: string, lpath: string, i: int): (r: map<string, Collection>)
    ensures r.Keys == colls.Keys + {name}
  {
    if name !in colls then colls[name := [(lpath, i)]]
    else if HasLpath(colls[name], lpath) then colls
    else colls[name := colls[name] + [(lpath, i)]]
  }

  function AddAll(colls: map<string, Collection>, names: seq<string>, lpath: string, i: int): map<string, Collection>
    decreases |names|
  {
    if |names| == 0 then colls
    else AddAll(Add(colls, names[0], lpath, i), names[1..], lpath, i)
  }

  /** What one book contributes: nothing, or its lpath and the names of
      the collections it goes in. */
  datatype Entry = Skip | Put(lpath: string, names: seq<string>)

  function EntryOf(b: Book, manage: string, ca: seq<string>, dmc: seq<string>, template: Option<Book -> string>): Entry {
    if Eligible(b) then Put(b.lpath.value, BookNames(b, manage, ca, dmc, template)) else Skip
  }

  function Entries(books: seq<Book>, manage: string, ca: seq<string>, dmc: seq<string>,
                   template: Option<Book -> string>): (r: seq<Entry>)
    ensures |r| == |books| && forall i :: 0 <= i < |books| ==> r[i] == EntryOf(books[i], manage, ca, dmc, template)
  {
    seq(|books|, i requires 0 <= i < |books| => EntryOf(books[i], manage, ca, dmc, template))
  }

  /** The collections after the entries `es`, in order. */
  function Gather(es: seq<Entry>): map<string, Collection>
    decreases |es|
  {
    if |es| == 0 then map[]
    else
      var n := |es| - 1;
      match es[n]
      case Skip => Gather(es[..n])
      case Put(lpath, names) => AddAll(Gather(es[..n]), names, lpath, n)
  }

  /** The collections of the books of the list. */
  function Collect(books: seq<Book>, manage: string, ca: seq<string>, dmc: seq<string>,
                   template: Option<Book -> string>): map<string, Collection>
  {
    Gather(Entries(books, manage, ca, dmc, template))
  }

  /** `result[category] = lpaths.values()`. */
  function BooksOf(colls: map<string, Collection>): (r: map<string, seq<int>>)
    ensures r.Keys == colls.Keys
    ensures forall name :: name in colls ==>
              (|r[name]| == |colls[name]| && forall k :: 0 <= k < |colls[name]| ==> r[name][k] == colls[name][k].1)
  {
    map name | name in colls :: seq(|colls[name]|, k requires 0 <= k < |colls[name]| => colls[name][k].1)
  }

  // What the collections hold.

  /** Every entry of a collection is a book with an entry that names the
      collection, by that book's lpath. */
  ghost predicate GatherSound(colls: map<string, Collection>, es: seq<Entry>) {
    forall name, k :: name in colls && 0 <= k < |colls[name]| ==>
      var i := colls[name][k].1;
      0 <= i < |es| && es[i].Put? && colls[name][k].0 == es[i].lpath && name in es[i].names
  }

  /** Every book with an entry is, by its lpath, in every collection named. */
  ghost predicate GatherComplete(colls: map<string, Collection>, es: seq<Entry>) {
    forall i, name :: 0 <= i < |es| && es[i].Put? && name in es[i].names ==>
      name in colls && HasLpath(colls[name], es[i].lpath)
  }

  /** No lpath twice in a collection. */
  ghost predicate NoRepeatedLpath(colls: map<string, Collection>) {
    forall name, k, l :: name in colls && 0 <= k < l < |colls[name]| ==> colls[name][k].0 != colls[name][l].0
  }

  lemma HasLpathPrefix(c: Collection, d: Collection, lpath: string)
    requires c <= d && HasLpath(c, lpath)
    ensures HasLpath(d, lpath)
  {
    var k :| 0 <= k < |c| && c[k].0 == lpath;
    assert d[k] == c[k];
  }

  /** One addition keeps lpaths distinct, only appends, puts the book in
      the collection `name`, and adds no other entry. */
  lemma AddStep(colls: map<string, Collection>, name: string, lpath: string, i: int)
    requires NoRepeatedLpath(colls)
    ensures var r := Add(colls, name, lpath, i);
      && NoRepeatedLpath(r)
      && (forall m :: m in colls ==> colls[m] <= r[m])
      && HasLpath(r[name], lpath)
      && (forall m, k :: m in r && 0 <= k < |r[m]| && !(m in colls && k < |colls[m]|) ==> r[m][k] == (lpath, i) && m == name)
  {
    var r: map<string, Collection> := Add(colls, name, lpath, i);
    if name !in colls {
      assert r[name][0].0 == lpath;
    } else if !HasLpath(colls[name], lpath) {
      assert r[name][|colls[name]|].0 == lpath;
    }
  }

  /** Adding a book to several collections keeps lpaths distinct, only
      appends, puts the book in each of them, and adds no other entry. */
  lemma {:induction false} AddAllStep(colls: map<string, Collection>, names: seq<string>, lpath: string, i: int)
    requires NoRepeatedLpath(colls)
    ensures var r := AddAll(colls, names, lpath, i);
      && NoRepeatedLpath(r)
      && (forall m :: m in colls ==> m in r && colls[m] <= r[m])
      && (forall m :: m in names ==> m in r && HasLpath(r[m], lpath))
      && (forall m, k :: m in r && 0 <= k < |r[m]| && !(m in colls && k < |colls[m]|) ==> r[m][k] == (lpath, i) && m in names)
    decreases |names|
  {
    if |names| > 0 {
      var c1 := Add(colls, names[0], lpath, i);
      assert names == [names[0]] + names[1..];
      AddStep(colls, names[0], lpath, i);
      AddAllStep(c1, names[1..], lpath, i);
      var r := AddAll(c1, names[1..], lpath, i);
      assert names[0] in r && HasLpath(r[names[0]], lpath) by {
        HasLpathPrefix(c1[names[0]], r[names[0]], lpath);
      }
      forall m | m in names ensures m in r && HasLpath(r[m], lpath) {
        if m != names[0] {
          assert m in names[1..];
        }
      }
      forall m, k | m in r && 0 <= k < |r[m]| && !(m in colls && k < |colls[m]|)
        ensures r[m][k] == (lpath, i) && m in names
      {
        if m in c1 && k < |c1[m]| {
          assert r[m][k] == c1[m][k];
        }
      }
    }
  }

  /** Adding `a` then `b` is adding `a + b`. */
  lemma {:induction false} AddAllConcat(colls: map<string, Collection>, a: seq<string>, b: seq<string>, lpath: string, i: int)
    ensures AddAll(colls, a + b, lpath, i) == AddAll(AddAll(colls, a, lpath, i), b, lpath, i)
    decreases |a|
  {
    if |a| == 0 {
      assert a + b == b;
    } else {
      assert (a + b)[1..] == a[1..] + b;
      AddAllConcat(Add(colls, a[0], lpath, i), a[1..], b, lpath, i);
    }
  }

  /** The entries with their last one split off. */
  lemma GatherSnoc(es: seq<Entry>, n: int)
    requires 0 <= n < |es|
    ensures Gather(es[..n + 1]) == match es[n]
      case Skip => Gather(es[..n])
      case Put(lpath, names) => AddAll(Gather(es[..n]), names, lpath, n)
  {
    assert es[..n + 1][..n] == es[..n];
  }

  /** No collection holds an lpath twice. */
  lemma {:induction false} GatherDistinct(es: seq<Entry>)
    ensures NoRepeatedLpath(Gather(es))
    decreases |es|
  {
    if |es| > 0 {
      var n := |es| - 1;
      GatherDistinct(es[..n]);
      if es[n].Put? {
        AddAllStep(Gather(es[..n]), es[n].names, es[n].lpath, n);
      }
    }
  }

  lemma {:induction false} GatherValid(es: seq<Entry>)
    ensures GatherSound(Gather(es), es)
    ensures GatherComplete(Gather(es), es)
    decreases |es|
  {
    if |es| > 0 {
      var n := |es| - 1;
      var prev := es[..n];
      GatherValid(prev);
      GatherDistinct(prev);
      var c0: map<string, Collection> := Gather(prev);
      var c: map<string, Collection> := Gather(es);
      if es[n].Put? {
        AddAllStep(c0, es[n].names, es[n].lpath, n);
      }
      forall name: string, k: int | name in c && 0 <= k < |c[name]|
        ensures var i := c[name][k].1;
          0 <= i < |es| && es[i].Put? && c[name][k].0 == es[i].lpath && name in es[i].names
      {
        if name in c0 && k < |c0[name]| {
          assert c[name][k] == c0[name][k];
          assert prev[c0[name][k].1] == es[c0[name][k].1];
        }
      }
      forall i: int, name: string | 0 <= i < |es| && es[i].Put? && name in es[i].names
        ensures name in c && HasLpath(c[name], es[i].lpath)
      {
        if i < n {
          assert prev[i] == es[i];
          HasLpathPrefix(c0[name], c[name], es[i].lpath);
        }
      }
    }
  }

  /** No collection of the list holds an lpath twice. */
  lemma CollectDistinct(books: seq<Book>, manage: string, ca: seq<string>, dmc: seq<string>,
                        template: Option<Book -> string>)
    ensures NoRepeatedLpath(Collect(books, manage, ca, dmc, template))
  {
    GatherDistinct(Entries(books, manage, ca, dmc, template));
  }

  /** Every entry of a collection of the list is an eligible book of the
      list, by its lpath, whose names include the collection. */
  lemma CollectSound(books: seq<Book>, manage: string, ca: seq<string>, dmc: seq<string>,
                     template: Option<Book -> string>)
    ensures var c := Collect(books, manage, ca, dmc, template);
      forall name, k :: name in c && 0 <= k < |c[name]| ==>
        var i := c[name][k].1;
        && 0 <= i < |books| && Eligible(books[i]) && c[name][k].0 == books[i].lpath.value
        && name in BookNames(books[i], manage, ca, dmc, template)
  {
    var es := Entries(books, manage, ca, dmc, template);
    var c: map<string, Collection> := Gather(es);
    GatherValid(es);
    forall name: string, k: int | name in c && 0 <= k < |c[name]|
      ensures var i := c[name][k].1;
        && 0 <= i < |books| && Eligible(books[i]) && c[name][k].0 == books[i].lpath.value
        && name in BookNames(books[i], manage, ca, dmc, template)
    {
      var i := c[name][k].1;
      assert es[i] == EntryOf(books[i], manage, ca, dmc, template);
    }
  }

  /** The book with lpath `lpath` is in every collection of `names`. */
  ghost predicate InAll(c: map<string, Collection>, names: seq<string>, lpath: string) {
    forall name :: name in names ==> name in c && HasLpath(c[name], lpath)
  }

  /** Every eligible book of the list is, by its lpath, in every collection
      it names. */
  lemma CollectComplete(books: seq<Book>, manage: string, ca: seq<string>, dmc: seq<string>,
                        template: Option<Book -> string>)
    ensures forall i :: 0 <= i < |books| && Eligible(books[i]) ==>
      InAll(Collect(books, manage, ca, dmc, template), BookNames(books[i], manage, ca, dmc, template), books[i].lpath.value)
  {
    var es := Entries(books, manage, ca, dmc, template);
    forall i | 0 <= i < |books| && Eligible(books[i])
      ensures InAll(Gather(es), BookNames(books[i], manage, ca, dmc, template), books[i].lpath.value)
    {
      EntryAt(books, i, manage, ca, dmc, template);
      GatherCompleteAt(es, i);
    }
  }

  lemma GatherCompleteAt(es: seq<Entry>, i: int)
    requires 0 <= i < |es| && es[i].Put?
    ensures InAll(Gather(es), es[i].names, es[i].lpath)
  {
    GatherValid(es);
  }

  lemma EntryAt(books: seq<Book>, i: int, manage: string, ca: seq<string>, dmc: seq<string>,
                template: Option<Book -> string>)
    requires 0 <= i < |books| && Eligible(books[i])
    ensures Entries(books, manage, ca, dmc, template)[i]
            == Put(books[i].lpath.value, BookNames(books[i], manage, ca, dmc, template))
  {
  }

  // -----------------------------------------------------------------------
  // get_collections, step by step

  /** The books as `get_collections` leaves them. */
  function UpdatedAll(books: seq<Book>, manage: string): (r: seq<Book>)
    ensures |r| == |books| && forall i :: 0 <= i < |books| ==> r[i] == Updated(books[i], manage)
  {
    seq(|books|, i requires 0 <= i < |books| => Updated(books[i], manage))
  }

  /** Adding `[x] + rest` adds `x` first. */
  lemma AddAllCons(colls: map<string, Collection>, x: seq<string>, rest: seq<string>, lpath: string, i: int)
    requires |x| <= 1
    ensures AddAll(colls, x + rest, lpath, i)
            == AddAll(if |x| == 1 then Add(colls, x[0], lpath, i) else colls, rest, lpath, i)
  {
    if |x| == 1 {
      assert (x + rest)[1..] == rest;
    } else {
      assert x + rest == rest;
    }
  }

  /** Lower-cases the collection attributes. */
  method LowerAttributes(attrs: seq<string>) returns (ca: seq<string>)
    ensures ca == LowerAll(attrs)
  {
    ca := [];
    var j := 0;
    while j < |attrs|
      invariant 0 <= j <= |attrs|
      invariant ca == LowerAll(attrs[..j])
    {
      ca := ca + [Lower(attrs[j])];
      j := j + 1;
    }
    assert attrs[..j] == attrs;
  }

  /** Puts the book in every device-managed collection it is already in. */
  method AddKept(colls: map<string, Collection>, dmc: seq<string>, b: Book, lpath: string, i: int)
    returns (r: map<string, Collection>)
    ensures r == AddAll(colls, KeptNames(dmc, b), lpath, i)
  {
    r := colls;
    var j := 0;
    while j < |dmc|
      invariant 0 <= j <= |dmc|
      invariant AddAll(r, KeptNames(dmc[j..], b), lpath, i) == AddAll(colls, KeptNames(dmc, b), lpath, i)
    {
      assert dmc[j..][1..] == dmc[j + 1..];
      AddAllCons(r, if dmc[j] in b.deviceCollections then [dmc[j]] else [], KeptNames(dmc[j + 1..], b), lpath, i);
      if dmc[j] in b.deviceCollections {
        r := Add(r, dmc[j], lpath, i);
      }
      j := j + 1;
    }
  }

  /** Puts the book in the collection each of `cats` names. */
  method AddCategories(colls: map<string, Collection>, attr: string, fm: Option<FieldMeta>, cats: seq<Scalar>,
                       lpath: string, i: int) returns (r: map<string, Collection>)
    ensures r == AddAll(colls, NamesOf(attr, fm, cats), lpath, i)
  {
    r := colls;
    var k := 0;
    while k < |cats|
      invariant 0 <= k <= |cats|
      invariant AddAll(r, NamesOf(attr, fm, cats[k..]), lpath, i) == AddAll(colls, NamesOf(attr, fm, cats), lpath, i)
    {
      assert cats[k..][1..] == cats[k + 1..];
      var name := CategoryName(attr, fm, cats[k]);
      match name {
        case None =>
        case Some(n) =>
          AddAllCons(r, [n], NamesOf(attr, fm, cats[k + 1..]), lpath, i);
          r := Add(r, n, lpath, i);
      }
      k := k + 1;
    }
  }

  /** Puts the book in the collections every attribute of `attrs` names. */
  method AddAttributes(colls: map<string, Collection>, b: Book, attrs: seq<string>, template: Option<Book -> string>,
                       lpath: string, i: int) returns (r: map<string, Collection>)
    ensures r == AddAll(colls, AttrNames(b, attrs, template), lpath, i)
  {
    r := colls;
    var j := 0;
    while j < |attrs|
      invariant 0 <= j <= |attrs|
      invariant AddAll(r, AttrNames(b, attrs[j..], template), lpath, i) == AddAll(colls, AttrNames(b, attrs, template), lpath, i)
    {
      assert attrs[j..][1..] == attrs[j + 1..];
      var attr := Strip(attrs[j]);
      var fm := MetaOf(b, attr);
      var cats := Categories(b, attr, template);
      AddAllConcat(r, NamesOf(attr, fm, cats), AttrNames(b, attrs[j + 1..], template), lpath, i);
      r := AddCategories(r, attr, fm, cats, lpath, i);
      j := j + 1;
    }
  }

  /** One eligible book: its device-managed collections, the clearing of its
      device collections, then the collections its attributes name. */
  method AddBook(colls: map<string, Collection>, b: Book, i: int, manage: string, ca: seq<string>, dmc: seq<string>,
                 template: Option<Book -> string>) returns (r: map<string, Collection>, nb: Book)
    requires Eligible(b)
    ensures nb == Updated(b, manage)
    ensures r == AddAll(colls, BookNames(b, manage, ca, dmc, template), b.lpath.value, i)
  {
    var lpath := b.lpath.value;
    var attrs := [DeviceCollectionsAttr];
    r := colls;
    nb := b;
    var kept: seq<string> := [];
    if b.isNew {
      if manage == "manual" {
        attrs := attrs + ca;
      } else {
        attrs := ca;
      }
    } else if manage == "on_connect" {
      attrs := ca;
      r := AddKept(r, dmc, b, lpath, i);
      kept := KeptNames(dmc, b);
      nb := b.(deviceCollections := []);
    }
    if template.Some? {
      attrs := attrs + [TemplateAttr];
    }
    assert attrs == AttrsFor(b, manage, ca, template.Some?);
    AddAllConcat(colls, kept, AttrNames(nb, attrs, template), lpath, i);
    r := AddAttributes(r, nb, attrs, template, lpath, i);
  }

  lemma UpdatedSnoc(all: seq<Book>, i: int, manage: string)
    requires 0 <= i < |all|
    ensures UpdatedAll(all[..i + 1], manage) == UpdatedAll(all[..i], manage) + [Updated(all[i], manage)]
  {
  }

  /** The loop over the books: the collections of all of them, and the
      books as left behind. */
  method CollectLoop(all: seq<Book>, manage: string, ca: seq<string>, dmc: seq<string>, template: Option<Book -> string>)
    returns (colls: map<string, Collection>, done: seq<Book>)
    ensures colls == Collect(all, manage, ca, dmc, template)
    ensures done == UpdatedAll(all, manage)
  {
    ghost var es := Entries(all, manage, ca, dmc, template);
    done := [];
    colls := map[];
    var i := 0;
    while i < |all|
      invariant 0 <= i <= |all|
      invariant done == UpdatedAll(all[..i], manage)
      invariant colls == Gather(es[..i])
    {
      var b := all[i];
      GatherSnoc(es, i);
      UpdatedSnoc(all, i, manage);
      if Eligible(b) {
        var nb;
        colls, nb := AddBook(colls, b, i, manage, ca, dmc, template);
        done := done + [nb];
      } else {
        done := done + [b];
      }
      i := i + 1;
    }
    assert all[..i] == all;
    assert es[..i] == es;
  }

  /** The book list of a Kobo device. */
  class KTCollectionsBookList {
    var books: seq<Book>
    /** The collections the device manages itself. */
    var deviceManagedCollections: seq<string>

    constructor(books: seq<Book>)
      ensures this.books == books && deviceManagedCollections == []
    {
      this.books := books;
      deviceManagedCollections := [];
    }

    method SetDeviceManagedCollections(names: seq<string>)
      modifies this`deviceManagedCollections
      ensures deviceManagedCollections == names
    {
      deviceManagedCollections := names;
    }

    /** The collections every book goes in: the books of each collection,
        by position, without an lpath twice (see `CollectDistinct`, `CollectSound` and `CollectComplete`); under
        on-connect management the existing books lose their device
        collections. */
    method GetCollections(collectionAttributes: seq<string>, template: Option<Book -> string>, manage: string)
      returns (result: map<string, seq<int>>)
      modifies this`books
      ensures books == UpdatedAll(old(books), manage)
      ensures result == BooksOf(Collect(old(books), manage, LowerAll(collectionAttributes), deviceManagedCollections, template))
    {
      var ca := LowerAttributes(collectionAttributes);
      var colls, done := CollectLoop(books, manage, ca, deviceManagedCollections, template);
      books := done;
      result := BooksOf(colls);
    }
  }
}
