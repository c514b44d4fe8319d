/** The MTP device driver (src/calibre/devices/mtp/driver.py): which
    folders a scan skips, how a setting is looked up, how the send-to
    folders are reordered for the Kindle app, and how the book list read
    from the device is reconciled with the metadata cache stored on it.

    The filesystem cache, the MTP transfers and the metadata readers live
    outside this file: the files found on the device, the cache as decoded
    and the result of reading one file's metadata are parameters here. */
module MtpDriver {
  import opened Common

  // -----------------------------------------------------------------------
  // Ignored folders

  /** USB vendor id of Amazon; `is_kindle` compares the connected device's
      vendor id with it. */
  const AmazonVendorId := 0x1949

  predicate IsKindle(vid: int) {
    vid == AmazonVendorId
  }

  /** Top-level folders that hold no books on common devices. */
  const TopLevelIgnored: set<string> := {
    "alarms", "dcim", "movies", "music", "notifications", "screenshots",
    "pictures", "ringtones", "samsung", "sony", "htc", "bluetooth", "fonts",
    "games", "lost.dir", "video", "whatsapp", "image",
    "com.zinio.mobile.android.reader"}

  /** Hidden top-level folders that are scanned anyway (the Tolino library
      and the notebooks of a Kindle Scribe). */
  const HiddenKept: set<string> := {".tolino", ".notebooks"}

  function LowerAll(path: seq<string>): (r: seq<string>)
    ensures |r| == |path|
    ensures forall k :: 0 <= k < |path| ==> r[k] == Lower(path[k])
  {
    seq(|path|, k requires 0 <= k < |path| => Lower(path[k]))
  }

  function LowerSet(names: seq<string>): set<string> {
    set k | 0 <= k < |names| :: Lower(names[k])
  }

  /** The folders the default policy scans, rule by rule: a top-level
      folder that is neither listed nor hidden (bar the two kept hidden
      ones), `system` only on a Kindle and then only its `thumbnails`, and
      under `android` only `data` and `data/com.amazon.kindle`. */
  predicate DefaultKept(kindle: bool, lpath: seq<string>)
    requires |lpath| > 0
  {
    var top := lpath[0];
    && top !in TopLevelIgnored
    && (StartsWith(top, ".") ==> top in HiddenKept)
    && (top == "system" ==> kindle && (|lpath| > 1 ==> lpath[1] == "thumbnails"))
    && (top == "android" && |lpath| > 1 ==>
          lpath[1] == "data" && (|lpath| > 2 ==> lpath[2] == "com.amazon.kindle"))
  }

  /** The default ignore policy applied to a lower-cased, non-empty path. */
  function DefaultIgnored(kindle: bool, lpath: seq<string>): (r: bool)
    requires |lpath| > 0
    ensures r <==> !DefaultKept(kindle, lpath)
  {
    if lpath[0] in TopLevelIgnored then true
    else if StartsWith(lpath[0], ".") && lpath[0] !in HiddenKept then true
    else if lpath[0] == "system" && !kindle then true
    else if |lpath| > 1 then
      if lpath[0] == "android" then
        if lpath[1] != "data" then true
        else |lpath| > 2 && lpath[2] != "com.amazon.kindle"
      else if lpath[0] == "system" then lpath[1] != "thumbnails"
      else false
    else false
  }

  /** A Kindle `.sdr` sidecar folder: the last component ends in ".sdr". */
  predicate IsSidecar(kindle: bool, path: seq<string>) {
    kindle && |path| > 0 && EndsWith(Lower(path[|path| - 1]), ".sdr")
  }

  /** `is_folder_ignored` with the `ignored_folders` setting already looked
      up: None is the IndexError raised for an empty path on a storage
      without user settings. */
  function IsFolderIgnored(kindle: bool, storageId: string, path: seq<string>,
                           ignoredFolders: map<string, seq<string>>): (r: Option<bool>)
    ensures r.None? <==> !IsSidecar(kindle, path) && storageId !in ignoredFolders && |path| == 0
    ensures IsSidecar(kindle, path) ==> r == Some(true)
    ensures !IsSidecar(kindle, path) && storageId in ignoredFolders ==>
              r == Some(Join(LowerAll(path), '/') in LowerSet(ignoredFolders[storageId]))
    ensures !IsSidecar(kindle, path) && storageId !in ignoredFolders && |path| > 0 ==>
              r == Some(!DefaultKept(kindle, LowerAll(path)))
  {
    var lpath := LowerAll(path);
    if kindle && |lpath| > 0 && EndsWith(lpath[|lpath| - 1], ".sdr") then Some(true)
    else if storageId in ignoredFolders then
      Some(Join(lpath, '/') in LowerSet(ignoredFolders[storageId]))
    else if |lpath| == 0 then None
    else Some(DefaultIgnored(kindle, lpath))
  }

  /** Under the default policy a folder inside an ignored folder is ignored
      too, so a scan that does not descend into ignored folders skips
      exactly the ignored paths. */
  lemma {:induction false} DefaultIgnoredInherited(kindle: bool, lpath: seq<string>, name: string)
    requires |lpath| > 0 && DefaultIgnored(kindle, lpath)
    ensures DefaultIgnored(kindle, lpath + [name])
  {
    var longer := lpath + [name];
    assert longer[0] == lpath[0];
    if |lpath| > 1 {
      assert longer[1] == lpath[1];
    }
    if |lpath| > 2 {
      assert longer[2] == lpath[2];
    }
  }

  /** The Kindle app's book folder is scanned by the default policy. */
  lemma KindleAppFolderKept(kindle: bool)
    ensures DefaultKept(kindle, ["android", "data", "com.amazon.kindle", "files"])
  {
    var top := "android";
    assert top[0] != '.';
  }

  // -----------------------------------------------------------------------
  // Settings

  /** `get_pref`: the device-specific setting, else the device default (only
      while a device is connected), else the global setting. `prefs` holds
      the stored settings merged with their defaults; the global value is
      looked up first in every case, so a key it lacks fails (None). */
  function GetPref<V>(key: string, connected: bool, deviceDefaults: map<string, V>,
                      deviceSettings: map<string, V>, prefs: map<string, V>): (r: Option<V>)
    ensures r.None? <==> key !in prefs
    ensures key in prefs && key in deviceSettings ==> r == Some(deviceSettings[key])
    ensures key in prefs && key !in deviceSettings && connected && key in deviceDefaults ==>
              r == Some(deviceDefaults[key])
    ensures key in prefs && key !in deviceSettings && (!connected || key !in deviceDefaults) ==>
              r == Some(prefs[key])
  {
    if key !in prefs then None
    else
      var dd := if connected then deviceDefaults else map[];
      var defaultValue := if key in dd then dd[key] else prefs[key];
      Some(if key in deviceSettings then deviceSettings[key] else defaultValue)
  }

  // -----------------------------------------------------------------------
  // Send-to folders

  const KindleAppFolder := "Android/data/com.amazon.kindle/files"
  const KindleFolder := "kindle"

  /** The default `send_to` list, in order of preference. */
  const DefaultSendTo: seq<string> := [
    "Calibre_Companion", "Books", "eBooks/import", "eBooks",
    "wordplayer/calibretransfer", "sdcard/ebooks",
    KindleAppFolder, KindleFolder, "NOOK", "Documents"]

  const KindleFormats: seq<string> := ["azw3", "mobi", "azw", "azw1", "azw4", "pdf"]

  const DefaultSendTemplate := "{title} - {authors}"

  /** `list.remove(x)` guarded by `x in list`. */
  function RemoveFirst<T(==)>(s: seq<T>, x: T): (r: seq<T>)
    ensures x !in s ==> r == s
    ensures x in s ==> r == s[..IndexOf(s, x)] + s[IndexOf(s, x) + 1..]
  {
    if x in s then
      var i := IndexOf(s, x);
      s[..i] + s[i + 1..]
    else s
  }

  /** Removing the first `x` takes one `x` out of the multiset. */
  lemma RemoveFirstMultiset<T>(s: seq<T>, x: T)
    requires x in s
    ensures multiset(RemoveFirst(s, x)) == multiset(s) - multiset{x}
  {
    var i := IndexOf(s, x);
    assert s == s[..i] + [x] + s[i + 1..];
  }

  /** One turn of the loop: remove the folder if present, insert it first. */
  function MoveToFront(s: seq<string>, folder: string): seq<string> {
    [folder] + RemoveFirst(s, folder)
  }

  /** The loop of `configure_for_kindle_app` run over `folders`. */
  function FrontAll(s: seq<string>, folders: seq<string>): seq<string> {
    if |folders| == 0 then s
    else MoveToFront(FrontAll(s, folders[..|folders| - 1]), folders[|folders| - 1])
  }

  const KindleFolders: seq<string> := [KindleFolder, KindleAppFolder]

  function KindleSendTo(s: seq<string>): seq<string> {
    FrontAll(s, KindleFolders)
  }

  /** The entries other than `drop`, in order. */
  function Without(s: seq<string>, drop: set<string>): seq<string> {
    if |s| == 0 then []
    else (if s[0] in drop then [] else [s[0]]) + Without(s[1..], drop)
  }

  lemma {:induction false} WithoutConcat(a: seq<string>, b: seq<string>, drop: set<string>)
    ensures Without(a + b, drop) == Without(a, drop) + Without(b, drop)
    decreases |a|
  {
    if |a| == 0 {
      assert a + b == b;
    } else {
      assert (a + b)[1..] == a[1..] + b;
      WithoutConcat(a[1..], b, drop);
    }
  }

  lemma RemoveFirstWithout(s: seq<string>, x: string, drop: set<string>)
    requires x in drop
    ensures Without(RemoveFirst(s, x), drop) == Without(s, drop)
  {
    if x in s {
      var i := IndexOf(s, x);
      var front, back := s[..i], s[i + 1..];
      assert s == front + ([x] + back);
      assert RemoveFirst(s, x) == front + back;
      WithoutConcat(front, [x] + back, drop);
      WithoutConcat([x], back, drop);
      assert Without([x], drop) == [];
      WithoutConcat(front, back, drop);
      calc {
        Without(s, drop);
        Without(front, drop) + Without([x] + back, drop);
        Without(front, drop) + ([] + Without(back, drop));
        { assert [] + Without(back, drop) == Without(back, drop); }
        Without(front, drop) + Without(back, drop);
        Without(RemoveFirst(s, x), drop);
      }
    }
  }

  lemma FoldersDiffer()
    ensures KindleAppFolder != KindleFolder
  {
    assert |KindleFolder| != |KindleAppFolder|;
  }

  lemma RemoveFirstBehind(x: string, rest: seq<string>, y: string)
    requires x != y
    ensures RemoveFirst([x] + rest, y) == [x] + RemoveFirst(rest, y)
  {
    var s := [x] + rest;
    assert s[1..] == rest;
    if y in rest {
      var i := IndexOf(rest, y);
      assert IndexOf(s, y) == 1 + i;
      assert s[..i + 1] == [x] + rest[..i];
      assert s[i + 2..] == rest[i + 1..];
      calc {
        RemoveFirst(s, y);
        s[..i + 1] + s[i + 2..];
        [x] + (rest[..i] + rest[i + 1..]);
      }
    } else {
      assert y !in s;
    }
  }

  /** Moving `x` then `y` to the front. */
  lemma FrontTwo(s: seq<string>, x: string, y: string)
    requires x != y
    ensures FrontAll(s, [x, y]) == [y, x] + RemoveFirst(RemoveFirst(s, x), y)
  {
    assert [x, y][..1] == [x];
    assert [x][..0] == [];
    assert FrontAll(s, [x]) == [x] + RemoveFirst(s, x);
    RemoveFirstBehind(x, RemoveFirst(s, x), y);
  }

  lemma KindleSendToShape(s: seq<string>)
    ensures KindleSendTo(s) == [KindleAppFolder, KindleFolder]
              + RemoveFirst(RemoveFirst(s, KindleFolder), KindleAppFolder)
  {
    FoldersDiffer();
    FrontTwo(s, KindleFolder, KindleAppFolder);
  }

  /** After `configure_for_kindle_app` the Kindle app folder comes first and
      `kindle` second; every other folder keeps its place in the order. */
  lemma KindleSendToOrder(s: seq<string>)
    ensures |KindleSendTo(s)| >= 2
    ensures KindleSendTo(s)[0] == KindleAppFolder && KindleSendTo(s)[1] == KindleFolder
    ensures Without(KindleSendTo(s), {KindleAppFolder, KindleFolder})
              == Without(s, {KindleAppFolder, KindleFolder})
  {
    KindleSendToShape(s);
    var drop := {KindleAppFolder, KindleFolder};
    var inner := RemoveFirst(s, KindleFolder);
    RemoveFirstWithout(s, KindleFolder, drop);
    RemoveFirstWithout(inner, KindleAppFolder, drop);
    WithoutConcat([KindleAppFolder, KindleFolder], RemoveFirst(inner, KindleAppFolder), drop);
    assert Without([KindleAppFolder, KindleFolder], drop) == [] by {
      assert [KindleAppFolder, KindleFolder][1..] == [KindleFolder];
    }
  }

  /** How often `z` occurs once the first `x` is removed. */
  lemma RemoveFirstCount(s: seq<string>, x: string, z: string)
    ensures multiset(RemoveFirst(s, x))[z] == if z == x && x in s then multiset(s)[z] - 1 else multiset(s)[z]
  {
    if x in s {
      RemoveFirstMultiset(s, x);
    }
  }

  lemma FrontTwoCounts(s: seq<string>, x: string, y: string, z: string)
    requires x != y
    ensures z == x || z == y ==>
              multiset(FrontAll(s, [x, y]))[z] == if z in s then multiset(s)[z] else 1
    ensures z != x && z != y ==> multiset(FrontAll(s, [x, y]))[z] == multiset(s)[z]
  {
    FrontTwo(s, x, y);
    var inner := RemoveFirst(s, x);
    var rest := RemoveFirst(inner, y);
    assert multiset(FrontAll(s, [x, y])) == multiset{y, x} + multiset(rest);
    RemoveFirstCount(s, x, z);
    RemoveFirstCount(inner, y, z);
    if z == y {
      assert z in inner <==> z in s by {
        assert multiset(inner)[z] == multiset(s)[z];
      }
    }
  }

  /** Each of the two folders occurs once afterwards if it occurred at most
      once before; every other folder occurs as often as before. */
  lemma KindleSendToCounts(s: seq<string>)
    ensures multiset(s)[KindleAppFolder] <= 1 ==> multiset(KindleSendTo(s))[KindleAppFolder] == 1
    ensures multiset(s)[KindleFolder] <= 1 ==> multiset(KindleSendTo(s))[KindleFolder] == 1
    ensures forall x :: x != KindleAppFolder && x != KindleFolder ==>
              multiset(KindleSendTo(s))[x] == multiset(s)[x]
  {
    FoldersDiffer();
    FrontTwoCounts(s, KindleFolder, KindleAppFolder, KindleFolder);
    FrontTwoCounts(s, KindleFolder, KindleAppFolder, KindleAppFolder);
    forall x | x != KindleAppFolder && x != KindleFolder
      ensures multiset(KindleSendTo(s))[x] == multiset(s)[x]
    {
      FrontTwoCounts(s, KindleFolder, KindleAppFolder, x);
    }
  }

  /** Configuring for the Kindle app twice is the same as once. */
  lemma KindleSendToIdempotent(s: seq<string>)
    ensures KindleSendTo(KindleSendTo(s)) == KindleSendTo(s)
  {
    var r := KindleSendTo(s);
    KindleSendToShape(s);
    KindleSendToShape(r);
    var rest := RemoveFirst(RemoveFirst(s, KindleFolder), KindleAppFolder);
    assert r == [KindleAppFolder, KindleFolder] + rest;
    FoldersDiffer();
    assert IndexOf(r, KindleFolder) == 1;
    var r1 := RemoveFirst(r, KindleFolder);
    assert r1 == [KindleAppFolder] + rest;
    assert IndexOf(r1, KindleAppFolder) == 0;
    assert RemoveFirst(r1, KindleAppFolder) == rest;
  }

  /** The settings `configure_for_kindle_app` and
      `configure_for_generic_epub_app` change. None is a setting not stored,
      which reads as its default. */
  class SendSettings {
    var formatMap: Option<seq<string>>
    var sendTemplate: Option<string>
    var sendTo: Option<seq<string>>

    constructor()
      ensures formatMap.None? && sendTemplate.None? && sendTo.None?
    {
      formatMap := None;
      sendTemplate := None;
      sendTo := None;
    }

    /** `prefs['send_to']`. */
    function SendTo(): seq<string>
      reads this`sendTo
    {
      sendTo.GetOr(DefaultSendTo)
    }

    /** `configure_for_kindle_app`. */
    method ConfigureForKindleApp()
      modifies this`formatMap, this`sendTemplate, this`sendTo
      ensures formatMap == Some(KindleFormats)
      ensures sendTemplate == Some(DefaultSendTemplate)
      ensures sendTo == Some(KindleSendTo(old(SendTo())))
    {
      formatMap := Some(KindleFormats);
      sendTemplate := Some(DefaultSendTemplate);
      var orig := SendTo();
      ghost var start := orig;
      for i := 0 to |KindleFolders|
        invariant orig == FrontAll(start, KindleFolders[..i])
      {
        var folder := KindleFolders[i];
        assert KindleFolders[..i + 1][..i] == KindleFolders[..i];
        if folder in orig {
          orig := RemoveFirst(orig, folder);
        }
        orig := [folder] + orig;
      }
      assert KindleFolders[..|KindleFolders|] == KindleFolders;
      sendTo := Some(orig);
    }

    /** `configure_for_generic_epub_app`: the three settings revert to
        their defaults. */
    method ConfigureForGenericEpubApp()
      modifies this`formatMap, this`sendTemplate, this`sendTo
      ensures formatMap.None? && sendTemplate.None? && sendTo.None?
      ensures SendTo() == DefaultSendTo
    {
      formatMap := None;
      sendTemplate := None;
      sendTo := None;
    }
  }

  // -----------------------------------------------------------------------
  // Reconciling the book list with the metadata cache

  /** An e-book file as the filesystem cache lists it: its lower-cased path
      relative to the storage, its size, its modification time and its
      path of MTP object ids. */
  datatype MtpFile = MtpFile(relpath: seq<string>, size: int, modified: int, idPath: seq<int>)

  /** A book of the list: the same four facts and its metadata `M`. */
  datatype Book<M> = Book(relpath: seq<string>, size: int, datetime: int, idPath: seq<int>, meta: M)

  /** The book describes the file as it is now on the device. */
  predicate Describes<M>(b: Book<M>, f: MtpFile) {
    b.relpath == f.relpath && b.size == f.size && b.datetime == f.modified && b.idPath == f.idPath
  }

  predicate Listed<M>(bl: seq<Book<M>>, f: MtpFile) {
    exists j :: 0 <= j < |bl| && Describes(bl[j], f)
  }

  predicate OnDevice(files: seq<MtpFile>, relpath: seq<string>) {
    exists t :: 0 <= t < |files| && files[t].relpath == relpath
  }

  predicate DistinctBooks<M>(bl: seq<Book<M>>) {
    forall i, j :: 0 <= i < j < |bl| ==> bl[i].relpath != bl[j].relpath
  }

  predicate DistinctFiles(files: seq<MtpFile>) {
    forall i, j :: 0 <= i < j < |files| ==> files[i].relpath != files[j].relpath
  }

  /** `{b.mtp_relpath: i for i, b in enumerate(bl)}`: the last position of
      each path. */
  function CacheIndex<M>(bl: seq<Book<M>>): (m: map<seq<string>, nat>)
    ensures forall k :: k in m ==> m[k] < |bl| && bl[m[k]].relpath == k
    ensures forall j :: 0 <= j < |bl| ==> bl[j].relpath in m && j <= m[bl[j].relpath]
  {
    if |bl| == 0 then map[]
    else
      var front := bl[..|bl| - 1];
      assert forall j :: 0 <= j < |front| ==> front[j] == bl[j];
      CacheIndex(front)[bl[|bl| - 1].relpath := |bl| - 1]
  }

  /** The book after its file was read again: `smart_update` with what was
      read (nothing when reading failed), then the file's size, time and
      object path. */
  function Reread<M>(b: Book<M>, f: MtpFile, read: MtpFile -> Option<M>, merge: (M, M) -> M): (r: Book<M>)
    ensures Describes(r, f)
  {
    var meta := match read(f) case Some(m) => merge(b.meta, m) case None => b.meta;
    Book(f.relpath, f.size, f.modified, f.idPath, meta)
  }

  /** The positions of `s` from `i` on that are not in `gone`, in order. */
  function KeptFrom<M>(s: seq<Book<M>>, gone: set<nat>, i: nat): seq<Book<M>>
    requires i <= |s|
    decreases |s| - i
  {
    if i == |s| then []
    else (if i in gone then [] else [s[i]]) + KeptFrom(s, gone, i + 1)
  }

  lemma {:induction false} KeptFromHas<M>(s: seq<Book<M>>, gone: set<nat>, i: nat, j: nat)
    requires i <= j < |s| && j !in gone
    ensures s[j] in KeptFrom(s, gone, i)
    decreases j - i
  {
    if i < j {
      KeptFromHas(s, gone, i + 1, j);
    }
  }

  lemma {:induction false} KeptFromOnly<M>(s: seq<Book<M>>, gone: set<nat>, i: nat, b: Book<M>)
    requires i <= |s| && b in KeptFrom(s, gone, i)
    ensures exists j :: i <= j < |s| && j !in gone && s[j] == b
    decreases |s| - i
  {
    if i < |s| && !(i !in gone && s[i] == b) {
      KeptFromOnly(s, gone, i + 1, b);
    }
  }

  lemma {:induction false} KeptFromAll<M>(s: seq<Book<M>>, gone: set<nat>, i: nat)
    requires i <= |s|
    requires forall j :: i <= j < |s| ==> j !in gone
    ensures KeptFrom(s, gone, i) == s[i..]
    decreases |s| - i
  {
    if i < |s| {
      KeptFromAll(s, gone, i + 1);
      assert s[i..] == [s[i]] + s[i + 1..];
    }
  }

  /** The list still holds the cached entries first, path for path. */
  ghost predicate Prefixed<M>(cached: seq<Book<M>>, c0: map<seq<string>, nat>, bl: seq<Book<M>>) {
    && c0 == CacheIndex(cached)
    && |cached| <= |bl|
    && (forall j :: 0 <= j < |cached| ==> bl[j].relpath == cached[j].relpath)
  }

  /** Entries still in `relpath_cache`, and cached entries shadowed by a
      later one with the same path, are untouched. */
  ghost predicate Untouched<M>(cached: seq<Book<M>>, c0: map<seq<string>, nat>, bl: seq<Book<M>>,
                               cache: map<seq<string>, nat>)
    requires Prefixed(cached, c0, bl)
  {
    && (forall k :: k in cache ==> k in c0 && cache[k] == c0[k] && bl[c0[k]] == cached[c0[k]])
    && (forall j :: 0 <= j < |cached| && c0[cached[j].relpath] != j ==> bl[j] == cached[j])
  }

  /** The entries removed from `relpath_cache` are those of files seen. */
  ghost predicate Consumed(files: seq<MtpFile>, i: nat, c0: map<seq<string>, nat>, cache: map<seq<string>, nat>)
    requires i <= |files|
  {
    && (forall k :: k in c0 && k !in cache ==> OnDevice(files[..i], k))
    && (forall t :: 0 <= t < i ==> files[t].relpath !in cache)
  }

  ghost predicate AllListed<M>(files: seq<MtpFile>, i: nat, bl: seq<Book<M>>)
    requires i <= |files|
  {
    forall t :: 0 <= t < i ==> Listed(bl, files[t])
  }

  /** Books appended after the cached ones are for files seen. */
  ghost predicate Appended<M>(cached: seq<Book<M>>, files: seq<MtpFile>, i: nat, c0: map<seq<string>, nat>,
                              bl: seq<Book<M>>)
    requires i <= |files| && |cached| <= |bl|
  {
    && (forall j :: |cached| <= j < |bl| ==> OnDevice(files[..i], bl[j].relpath))
    && (DistinctFiles(files) ==> forall j :: |cached| <= j < |bl| ==> bl[j].relpath !in c0)
  }

  /** A cached entry whose size is unchanged still has its metadata. */
  ghost predicate MetaKept<M>(cached: seq<Book<M>>, bl: seq<Book<M>>)
    requires |cached| <= |bl|
  {
    forall j :: 0 <= j < |cached| && bl[j].size == cached[j].size ==> bl[j].meta == cached[j].meta
  }

  /** Without `need_sync` nothing the cache records has changed. */
  ghost predicate SyncTracked<M>(cached: seq<Book<M>>, bl: seq<Book<M>>, decodeFailed: bool, needSync: bool) {
    !needSync ==>
      && !decodeFailed
      && |bl| == |cached|
      && forall j :: 0 <= j < |cached| ==> bl[j].size == cached[j].size
  }

  /** What the loop over the device's files keeps true after `i` files. */
  ghost predicate Reconciling<M>(cached: seq<Book<M>>, files: seq<MtpFile>, c0: map<seq<string>, nat>,
                                 i: nat, bl: seq<Book<M>>, cache: map<seq<string>, nat>,
                                 decodeFailed: bool, needSync: bool)
    requires i <= |files|
  {
    && Prefixed(cached, c0, bl)
    && Untouched(cached, c0, bl, cache)
    && Consumed(files, i, c0, cache)
    && AllListed(files, i, bl)
    && Appended(cached, files, i, c0, bl)
    && MetaKept(cached, bl)
    && SyncTracked(cached, bl, decodeFailed, needSync)
  }

  /** The reconciliation loop of `books()` for one storage. `cached` is the
      list as decoded from the metadata cache (`decodeFailed` when decoding
      raised), `files` the e-book files on the storage; `read` reads one
      file's metadata (None when it raises), `merge` is `smart_update` and
      `blank` the metadata of a new `Book`. `needSync` says whether the
      cache is written back. Without a storage the list is empty. */
  method Books<M>(storage: Option<string>, cached: seq<Book<M>>, decodeFailed: bool,
                  files: seq<MtpFile>, read: MtpFile -> Option<M>, merge: (M, M) -> M, blank: M)
    returns (bl: seq<Book<M>>, needSync: bool)
    ensures storage.None? ==> bl == [] && !needSync
    // every file on the device is in the list, with its current size, time and path
    ensures storage.Some? ==> forall t :: 0 <= t < |files| ==> Listed(bl, files[t])
    // cache entries that no file matches are gone
    ensures storage.Some? && DistinctBooks(cached) ==>
              forall j :: 0 <= j < |bl| ==> OnDevice(files, bl[j].relpath)
    // a cached entry whose size still matches keeps its metadata: it was not read again
    ensures storage.Some? && DistinctBooks(cached) && DistinctFiles(files) ==>
              forall j, k ::
                (0 <= j < |bl| && 0 <= k < |cached| &&
                 bl[j].relpath == cached[k].relpath && bl[j].size == cached[k].size) ==>
                bl[j].meta == cached[k].meta
    // any change to what the cache records sets need_sync
    ensures storage.Some? && !needSync ==>
              !decodeFailed && |bl| == |cached| &&
              forall j :: 0 <= j < |bl| ==>
                bl[j].relpath == cached[j].relpath && bl[j].size == cached[j].size &&
                bl[j].meta == cached[j].meta
  {
    if storage.None? {
      return [], false;
    }
    needSync := decodeFailed;
    bl := cached;
    var cache := CacheIndex(cached);
    ghost var c0 := cache;
    ReconcilingStart(cached, files, c0, decodeFailed, needSync);
    for i := 0 to |files|
      invariant Reconciling(cached, files, c0, i, bl, cache, decodeFailed, needSync)
    {
      bl, cache, needSync := ReconcileFile(cached, files, c0, i, bl, cache, decodeFailed, needSync, read, merge, blank);
    }
    assert files[..|files|] == files;
    var gone := set k | k in cache :: cache[k];
    ghost var full := bl;
    ghost var syncBefore := needSync;
    bl, needSync := DropGone(bl, gone, needSync);
    BooksFinal(cached, files, c0, full, cache, gone, bl, decodeFailed, syncBefore, needSync);
  }

  lemma ReconcilingStart<M>(cached: seq<Book<M>>, files: seq<MtpFile>, c0: map<seq<string>, nat>,
                            decodeFailed: bool, needSync: bool)
    requires c0 == CacheIndex(cached) && needSync == decodeFailed
    ensures Reconciling(cached, files, c0, 0, cached, c0, decodeFailed, needSync)
  {
  }

  /** `for idx in sorted(relpath_cache.values(), reverse=True): del bl[idx]`,
      visiting the positions from the highest down. */
  method DropGone<M>(full: seq<Book<M>>, gone: set<nat>, needSync: bool)
    returns (bl: seq<Book<M>>, needSync': bool)
    ensures bl == KeptFrom(full, gone, 0)
    ensures needSync' == (needSync || GoneFrom(full, gone, 0))
  {
    bl := full;
    needSync' := needSync;
    var j := |full|;
    assert full[..j] == full;
    while j > 0
      invariant 0 <= j <= |full|
      invariant bl == full[..j] + KeptFrom(full, gone, j)
      invariant needSync' == (needSync || GoneFrom(full, gone, j))
    {
      j := j - 1;
      DropStep(full, gone, j);
      if j in gone {
        bl := bl[..j] + bl[j + 1..];
        needSync' := true;
      }
    }
    assert full[..0] == [];
  }

  /** Some position from `j` on is to be removed. */
  predicate GoneFrom<M>(full: seq<Book<M>>, gone: set<nat>, j: nat) {
    exists g :: j <= g < |full| && g in gone
  }

  lemma DropStep<M>(full: seq<Book<M>>, gone: set<nat>, j: nat)
    requires j < |full|
    ensures j in gone ==>
              var cur := full[..j + 1] + KeptFrom(full, gone, j + 1);
              cur[..j] + cur[j + 1..] == full[..j] + KeptFrom(full, gone, j)
    ensures j !in gone ==>
              full[..j + 1] + KeptFrom(full, gone, j + 1) == full[..j] + KeptFrom(full, gone, j)
    ensures GoneFrom(full, gone, j) <==> j in gone || GoneFrom(full, gone, j + 1)
  {
    if j in gone {
      DropGoneStep(full, gone, j);
    } else {
      DropKeptStep(full, gone, j);
    }
    GoneFromStep(full, gone, j);
  }

  lemma DropGoneStep<M>(full: seq<Book<M>>, gone: set<nat>, j: nat)
    requires j < |full| && j in gone
    ensures var cur := full[..j + 1] + KeptFrom(full, gone, j + 1);
            cur[..j] + cur[j + 1..] == full[..j] + KeptFrom(full, gone, j)
  {
    var front, rest := full[..j + 1], KeptFrom(full, gone, j + 1);
    DropRemoved(front, rest, j);
    assert front[..j] == full[..j];
    assert KeptFrom(full, gone, j) == [] + rest;
    assert [] + rest == rest;
  }

  lemma DropKeptStep<M>(full: seq<Book<M>>, gone: set<nat>, j: nat)
    requires j < |full| && j !in gone
    ensures full[..j + 1] + KeptFrom(full, gone, j + 1) == full[..j] + KeptFrom(full, gone, j)
  {
    assert KeptFrom(full, gone, j) == [full[j]] + KeptFrom(full, gone, j + 1);
    assert full[..j + 1] == full[..j] + [full[j]];
  }

  lemma DropRemoved<T>(front: seq<T>, rest: seq<T>, j: nat)
    requires |front| == j + 1
    ensures (front + rest)[..j] + (front + rest)[j + 1..] == front[..j] + rest
  {
    assert (front + rest)[..j] == front[..j];
    assert (front + rest)[j + 1..] == rest;
  }

  lemma GoneFromStep<M>(full: seq<Book<M>>, gone: set<nat>, j: nat)
    requires j < |full|
    ensures GoneFrom(full, gone, j) <==> j in gone || GoneFrom(full, gone, j + 1)
  {
    if GoneFrom(full, gone, j) {
      var g :| j <= g < |full| && g in gone;
      assert g == j || GoneFrom(full, gone, j + 1);
    }
  }

  /** One turn of the loop: the file's cached entry is reused when its size
      matches, read again when it does not, and a new book is appended when
      there is no entry. */
  method ReconcileFile<M>(cached: seq<Book<M>>, files: seq<MtpFile>, ghost c0: map<seq<string>, nat>,
                          i: nat, bl: seq<Book<M>>, cache: map<seq<string>, nat>,
                          decodeFailed: bool, needSync: bool,
                          read: MtpFile -> Option<M>, merge: (M, M) -> M, blank: M)
    returns (bl': seq<Book<M>>, cache': map<seq<string>, nat>, needSync': bool)
    requires i < |files|
    requires Reconciling(cached, files, c0, i, bl, cache, decodeFailed, needSync)
    ensures Reconciling(cached, files, c0, i + 1, bl', cache', decodeFailed, needSync')
  {
    var f := files[i];
    if f.relpath in cache {
      var idx := cache[f.relpath];
      cache' := cache - {f.relpath};
      var b := bl[idx];
      var nb;
      if b.size == f.size {
        nb := b.(datetime := f.modified, idPath := f.idPath);
        needSync' := needSync;
      } else {
        nb := Reread(b, f, read, merge);
        needSync' := true;
      }
      bl' := bl[idx := nb];
      StepMatched(cached, files, c0, i, bl, cache, decodeFailed, needSync, nb, needSync');
    } else {
      cache' := cache;
      needSync' := true;
      var book := Book(f.relpath, 0, 0, [], blank);
      bl' := bl + [Reread(book, f, read, merge)];
      StepNew(cached, files, c0, i, bl, cache, decodeFailed, needSync, bl'[|bl|]);
    }
  }

  lemma OnDeviceGrows(files: seq<MtpFile>, i: nat)
    requires i < |files|
    ensures forall p :: OnDevice(files[..i], p) ==> OnDevice(files[..i + 1], p)
    ensures OnDevice(files[..i + 1], files[i].relpath)
  {
    assert files[..i + 1][i] == files[i];
    forall p | OnDevice(files[..i], p) ensures OnDevice(files[..i + 1], p) {
      var t :| 0 <= t < i && files[..i][t].relpath == p;
      assert files[..i + 1][t] == files[..i][t];
    }
  }

  lemma ConsumedStep(files: seq<MtpFile>, i: nat, c0: map<seq<string>, nat>,
                     cache: map<seq<string>, nat>, cache': map<seq<string>, nat>)
    requires i < |files| && Consumed(files, i, c0, cache)
    requires forall k :: k in cache' <==> k in cache && k != files[i].relpath
    ensures Consumed(files, i + 1, c0, cache')
  {
    OnDeviceGrows(files, i);
  }

  lemma ListedStep<M>(files: seq<MtpFile>, i: nat, bl: seq<Book<M>>, bl': seq<Book<M>>,
                      cache: map<seq<string>, nat>, pos: nat)
    requires i < |files| && AllListed(files, i, bl)
    requires forall t :: 0 <= t < i ==> files[t].relpath !in cache
    requires |bl| <= |bl'| && pos < |bl'| && Describes(bl'[pos], files[i])
    requires forall w :: 0 <= w < |bl| && bl[w].relpath !in cache ==> bl'[w] == bl[w]
    ensures AllListed(files, i + 1, bl')
  {
    forall t | 0 <= t < i + 1 ensures Listed(bl', files[t]) {
      if t < i {
        assert Listed(bl, files[t]);
        var w :| 0 <= w < |bl| && Describes(bl[w], files[t]);
        assert Describes(bl'[w], files[t]);
      }
    }
  }

  /** The file's path had a cache entry: the entry now describes the file. */
  lemma StepMatched<M>(cached: seq<Book<M>>, files: seq<MtpFile>, c0: map<seq<string>, nat>,
                       i: nat, bl: seq<Book<M>>, cache: map<seq<string>, nat>,
                       decodeFailed: bool, needSync: bool, nb: Book<M>, needSync': bool)
    requires i < |files| && files[i].relpath in cache
    requires Reconciling(cached, files, c0, i, bl, cache, decodeFailed, needSync)
    requires Describes(nb, files[i])
    requires nb.size == bl[cache[files[i].relpath]].size ==> nb.meta == bl[cache[files[i].relpath]].meta
    requires needSync' == (needSync || nb.size != bl[cache[files[i].relpath]].size)
    ensures Reconciling(cached, files, c0, i + 1, bl[cache[files[i].relpath] := nb],
                        cache - {files[i].relpath}, decodeFailed, needSync')
  {
    var f := files[i];
    var idx := cache[f.relpath];
    var bl' := bl[idx := nb];
    var cache' := cache - {f.relpath};
    assert idx < |cached| && bl[idx] == cached[idx] && cached[idx].relpath == f.relpath;
    MatchedPrefixed(cached, c0, bl, cache, f.relpath, nb);
    ConsumedStep(files, i, c0, cache, cache');
    ListedStep(files, i, bl, bl', cache, idx);
    AppendedKept(cached, files, i, c0, bl, idx, nb);
    MatchedMeta(cached, bl, idx, nb);
    assert SyncTracked(cached, bl', decodeFailed, needSync');
  }

  lemma AppendedKept<M>(cached: seq<Book<M>>, files: seq<MtpFile>, i: nat, c0: map<seq<string>, nat>,
                        bl: seq<Book<M>>, idx: nat, nb: Book<M>)
    requires i < |files| && |cached| <= |bl| && idx < |cached|
    requires Appended(cached, files, i, c0, bl)
    ensures Appended(cached, files, i + 1, c0, bl[idx := nb])
  {
    OnDeviceGrows(files, i);
  }

  lemma MatchedMeta<M>(cached: seq<Book<M>>, bl: seq<Book<M>>, idx: nat, nb: Book<M>)
    requires |cached| <= |bl| && idx < |cached| && bl[idx] == cached[idx]
    requires MetaKept(cached, bl)
    requires nb.size == bl[idx].size ==> nb.meta == bl[idx].meta
    ensures MetaKept(cached, bl[idx := nb])
  {
  }

  lemma MatchedPrefixed<M>(cached: seq<Book<M>>, c0: map<seq<string>, nat>, bl: seq<Book<M>>,
                           cache: map<seq<string>, nat>, key: seq<string>, nb: Book<M>)
    requires Prefixed(cached, c0, bl) && Untouched(cached, c0, bl, cache)
    requires key in cache && nb.relpath == key
    ensures Prefixed(cached, c0, bl[cache[key] := nb])
    ensures Untouched(cached, c0, bl[cache[key] := nb], cache - {key})
  {
    var bl' := bl[cache[key] := nb];
    forall k | k in cache - {key} ensures bl'[c0[k]] == cached[c0[k]] {
      assert cached[c0[k]].relpath == k;
    }
  }

  /** The file's path had no cache entry: a new book for it is appended. */
  lemma StepNew<M>(cached: seq<Book<M>>, files: seq<MtpFile>, c0: map<seq<string>, nat>,
                   i: nat, bl: seq<Book<M>>, cache: map<seq<string>, nat>,
                   decodeFailed: bool, needSync: bool, nb: Book<M>)
    requires i < |files| && files[i].relpath !in cache
    requires Reconciling(cached, files, c0, i, bl, cache, decodeFailed, needSync)
    requires Describes(nb, files[i])
    ensures Reconciling(cached, files, c0, i + 1, bl + [nb], cache, decodeFailed, true)
  {
    var f := files[i];
    var bl' := bl + [nb];
    assert Prefixed(cached, c0, bl');
    assert Untouched(cached, c0, bl', cache);
    ConsumedStep(files, i, c0, cache, cache);
    ListedStep(files, i, bl, bl', cache, |bl|);
    AppendedStep(cached, files, i, c0, bl, cache, nb);
    assert MetaKept(cached, bl');
  }

  lemma AppendedStep<M>(cached: seq<Book<M>>, files: seq<MtpFile>, i: nat, c0: map<seq<string>, nat>,
                        bl: seq<Book<M>>, cache: map<seq<string>, nat>, nb: Book<M>)
    requires i < |files| && |cached| <= |bl|
    requires Appended(cached, files, i, c0, bl) && Consumed(files, i, c0, cache)
    requires files[i].relpath !in cache && nb.relpath == files[i].relpath
    ensures Appended(cached, files, i + 1, c0, bl + [nb])
  {
    OnDeviceGrows(files, i);
  }

  /** After both loops: the properties `Books` promises. */
  lemma BooksFinal<M>(cached: seq<Book<M>>, files: seq<MtpFile>, c0: map<seq<string>, nat>,
                      full: seq<Book<M>>, cache: map<seq<string>, nat>, gone: set<nat>,
                      bl: seq<Book<M>>, decodeFailed: bool, syncBefore: bool, needSync: bool)
    requires Reconciling(cached, files, c0, |files|, full, cache, decodeFailed, syncBefore)
    requires files[..|files|] == files
    requires gone == set k | k in cache :: cache[k]
    requires bl == KeptFrom(full, gone, 0)
    requires needSync == (syncBefore || GoneFrom(full, gone, 0))
    ensures forall t :: 0 <= t < |files| ==> Listed(bl, files[t])
    ensures DistinctBooks(cached) ==> forall j :: 0 <= j < |bl| ==> OnDevice(files, bl[j].relpath)
    ensures DistinctBooks(cached) && DistinctFiles(files) ==>
              forall j, k ::
                (0 <= j < |bl| && 0 <= k < |cached| &&
                 bl[j].relpath == cached[k].relpath && bl[j].size == cached[k].size) ==>
                bl[j].meta == cached[k].meta
    ensures !needSync ==>
              !decodeFailed && |bl| == |cached| &&
              forall j :: 0 <= j < |bl| ==>
                bl[j].relpath == cached[j].relpath && bl[j].size == cached[j].size &&
                bl[j].meta == cached[j].meta
  {
    GoneUnmatched(cached, c0, full, cache, gone);
    FinalListed(files, full, cache, gone, bl);
    if DistinctBooks(cached) {
      FinalOnDevice(cached, files, c0, full, cache, gone, bl);
      if DistinctFiles(files) {
        FinalMeta(cached, files, c0, full, gone, bl);
      }
    }
    if !needSync {
      assert !GoneFrom(full, gone, 0);
      KeptFromAll(full, gone, 0);
    }
  }

  /** A position in `gone` holds a cached entry no file matched. */
  lemma GoneUnmatched<M>(cached: seq<Book<M>>, c0: map<seq<string>, nat>, full: seq<Book<M>>,
                         cache: map<seq<string>, nat>, gone: set<nat>)
    requires Prefixed(cached, c0, full) && Untouched(cached, c0, full, cache)
    requires gone == set k | k in cache :: cache[k]
    ensures forall g :: g in gone ==> g < |cached| && full[g] == cached[g] && cached[g].relpath in cache
  {
    forall g | g in gone ensures g < |cached| && full[g] == cached[g] && cached[g].relpath in cache {
      var k :| k in cache && cache[k] == g;
      assert cached[c0[k]].relpath == k;
    }
  }

  lemma FinalListed<M>(files: seq<MtpFile>, full: seq<Book<M>>, cache: map<seq<string>, nat>,
                       gone: set<nat>, bl: seq<Book<M>>)
    requires AllListed(files, |files|, full)
    requires forall t :: 0 <= t < |files| ==> files[t].relpath !in cache
    requires forall g :: g in gone ==> g < |full| && full[g].relpath in cache
    requires bl == KeptFrom(full, gone, 0)
    ensures forall t :: 0 <= t < |files| ==> Listed(bl, files[t])
  {
    forall t | 0 <= t < |files| ensures Listed(bl, files[t]) {
      assert Listed(full, files[t]);
      var w :| 0 <= w < |full| && Describes(full[w], files[t]);
      assert w !in gone;
      KeptFromHas(full, gone, 0, w);
    }
  }

  lemma FinalOnDevice<M>(cached: seq<Book<M>>, files: seq<MtpFile>, c0: map<seq<string>, nat>,
                         full: seq<Book<M>>, cache: map<seq<string>, nat>, gone: set<nat>,
                         bl: seq<Book<M>>)
    requires DistinctBooks(cached) && files[..|files|] == files
    requires Prefixed(cached, c0, full) && Untouched(cached, c0, full, cache)
    requires Consumed(files, |files|, c0, cache) && Appended(cached, files, |files|, c0, full)
    requires gone == set k | k in cache :: cache[k]
    requires bl == KeptFrom(full, gone, 0)
    ensures forall j :: 0 <= j < |bl| ==> OnDevice(files, bl[j].relpath)
  {
    forall j | 0 <= j < |bl| ensures OnDevice(files, bl[j].relpath) {
      assert bl[j] in KeptFrom(full, gone, 0);
      KeptFromOnly(full, gone, 0, bl[j]);
      var w :| 0 <= w < |full| && w !in gone && full[w] == bl[j];
      if w < |cached| {
        var k := cached[w].relpath;
        assert c0[k] == w;
        assert k !in cache;
      }
    }
  }

  lemma FinalMeta<M>(cached: seq<Book<M>>, files: seq<MtpFile>, c0: map<seq<string>, nat>,
                     full: seq<Book<M>>, gone: set<nat>, bl: seq<Book<M>>)
    requires DistinctBooks(cached) && DistinctFiles(files)
    requires Prefixed(cached, c0, full) && Appended(cached, files, |files|, c0, full)
    requires MetaKept(cached, full)
    requires bl == KeptFrom(full, gone, 0)
    ensures forall j, k ::
              (0 <= j < |bl| && 0 <= k < |cached| &&
               bl[j].relpath == cached[k].relpath && bl[j].size == cached[k].size) ==>
              bl[j].meta == cached[k].meta
  {
    forall j, k | 0 <= j < |bl| && 0 <= k < |cached| &&
                  bl[j].relpath == cached[k].relpath && bl[j].size == cached[k].size
      ensures bl[j].meta == cached[k].meta
    {
      assert bl[j] in KeptFrom(full, gone, 0);
      KeptFromOnly(full, gone, 0, bl[j]);
      var w :| 0 <= w < |full| && w !in gone && full[w] == bl[j];
      assert cached[k].relpath in c0;
      assert w < |cached|;
      assert w == k;
    }
  }
}
