/** Renaming a user category from the tag browser (TagsModel.setData in
    src/calibre/gui2/tag_browser/model.py, the branch for a category node
    whose key starts with '@'). The category and every sub-category under
    it (keys continuing with '.') get the new name; the keys are compared
    without case, and a new name that some key already has, in any case,
    aborts the rename. */
module CategoryRename {
  import opened Common
  import opened UserCategories

  datatype Outcome =
    | PeriodInName             // "You cannot use periods in the name ..."
    | SameName                 // nothing to do; setData returns True
    | NameUsed(name: string)   // "The name ... is already used"
    | MissingKey(key: string)  // `user_cats[ckey + rest]` raises KeyError
    | Done(cats: Cats, nkey: string)

  /** `s.rfind(c)`: the last position of `c`, or -1. */
  function LastIndex(s: string, c: char): (r: int)
    ensures -1 <= r < |s|
    ensures r >= 0 ==> s[r] == c
    ensures forall j :: r < j < |s| ==> s[j] != c
  {
    if |s| == 0 then -1
    else if s[|s| - 1] == c then |s| - 1
    else LastIndex(s[..|s| - 1], c)
  }

  /** The dotted path above a key's last component ("" at the top). */
  function ParentPath(s: string): string {
    var d := LastIndex(s, '.');
    if d < 0 then "" else s[..d]
  }

  /** nkey: `ckey` with its last component replaced by `val`. */
  function NewKey(ckey: string, val: string): string {
    var dotpos := LastIndex(ckey, '.');
    if dotpos < 0 then val else ckey[..dotpos + 1] + val
  }

  /** A renamed category stays where it was: same parent path, and the new
      name as its last component. */
  lemma NewKeySameParent(ckey: string, val: string)
    requires '.' !in val
    ensures ParentPath(NewKey(ckey, val)) == ParentPath(ckey)
    ensures EndsWith(NewKey(ckey, val), val)
  {
    var nkey := NewKey(ckey, val);
    var d := LastIndex(ckey, '.');
    assert forall j :: 0 <= j < |val| ==> val[j] != '.' by {
      forall j | 0 <= j < |val| ensures val[j] != '.' {
        assert val[j] in val;
      }
    }
    if d < 0 {
      assert LastIndex(nkey, '.') == -1;
    } else {
      var pre := ckey[..d + 1];
      assert nkey == pre + val;
      LastIndexAfter(pre, val, d);
      assert nkey[..d] == ckey[..d];
    }
    assert nkey[|nkey| - |val|..] == val;
  }

  /** The last '.' of `pre + val` is that of `pre` when `val` has none. */
  lemma {:induction false} LastIndexAfter(pre: string, val: string, d: int)
    requires 0 <= d < |pre| && pre[d] == '.' && forall j :: d < j < |pre| ==> pre[j] != '.'
    requires forall j :: 0 <= j < |val| ==> val[j] != '.'
    ensures LastIndex(pre + val, '.') == d
    decreases |val|
  {
    var s := pre + val;
    if |val| == 0 {
      assert s == pre;
      LastIndexAt(pre, d);
    } else {
      assert s[..|s| - 1] == pre + val[..|val| - 1];
      LastIndexAfter(pre, val[..|val| - 1], d);
    }
  }

  lemma {:induction false} LastIndexAt(s: string, d: int)
    requires 0 <= d < |s| && s[d] == '.' && forall j :: d < j < |s| ==> s[j] != '.'
    ensures LastIndex(s, '.') == d
    decreases |s|
  {
    if d < |s| - 1 {
      LastIndexAt(s[..|s| - 1], d);
    }
  }

  /** Key `c` is the renamed category or one under it, compared without
      case as the loop does. */
  predicate Matches(c: string, ckey: string) {
    StartsWith(Lower(c), Lower(ckey)) && (|c| == |ckey| || (|c| > |ckey| && c[|ckey|] == '.'))
  }

  /** `user_cat_keys_lower`, kept as a set since it is only searched. */
  function LowerKeys(cats: Cats): set<string> {
    set k | k in cats :: Lower(k)
  }

  /** `user_cats[to] = user_cats[from]; del user_cats[from]`. */
  function MoveKey<K, V>(m: map<K, V>, from: K, to: K): map<K, V>
    requires from in m
  {
    m[to := m[from]] - {from}
  }

  /** The loop over the keys in `order` (the sorted keys), from state `cur`. */
  function RenameFold(lowerKeys: set<string>, ckey: string, nkey: string, cur: Cats, order: seq<string>): Outcome
    decreases |order|
  {
    if |order| == 0 then Done(cur, nkey)
    else
      var c := order[0];
      if Matches(c, ckey) then
        var rest := c[|ckey|..];
        if ckey != nkey && Lower(nkey + rest) in lowerKeys then NameUsed(nkey + rest)
        else if ckey + rest !in cur then MissingKey(ckey + rest)
        else RenameFold(lowerKeys, ckey, nkey, MoveKey(cur, ckey + rest, nkey + rest), order[1..])
      else RenameFold(lowerKeys, ckey, nkey, cur, order[1..])
  }

  /** setData on a user-category node with key `categoryKey` ('@' then the
      category's dotted path) and the stripped, non-blank new name `val`. */
  function RenameUserCategory(cats: Cats, categoryKey: string, val: string, order: seq<string>): Outcome
    requires |categoryKey| >= 1
  {
    if '.' in val then PeriodInName
    else
      var ckey := categoryKey[1..];
      var nkey := NewKey(ckey, val);
      if ckey == nkey then SameName
      else RenameFold(LowerKeys(cats), ckey, nkey, cats, order)
  }

  // -----------------------------------------------------------------------
  // What the rename does when every matching key spells `ckey` exactly

  /** `order` lists the keys of `cats`, each once. */
  ghost predicate Listing<K, V>(order: seq<K>, cats: map<K, V>) {
    (forall i, j :: 0 <= i < j < |order| ==> order[i] != order[j]) && (set c | c in order) == cats.Keys
  }

  /** No key differs from `ckey` in case only in its first |ckey| characters. */
  predicate Exact(cats: Cats, ckey: string) {
    forall c :: c in cats && Matches(c, ckey) ==> c[..|ckey|] == ckey
  }

  /** Where key `c` goes. */
  function Target(c: string, ckey: string, nkey: string): string {
    if Matches(c, ckey) then nkey + c[|ckey|..] else c
  }

  /** Renaming matching key `c` meets a name some key already has, in any
      case (`lowerKeys` holds the lowercased keys). */
  predicate Clash(lowerKeys: set<string>, c: string, ckey: string, nkey: string) {
    Matches(c, ckey) && Lower(nkey + c[|ckey|..]) in lowerKeys
  }

  /** `lowerKeys` holds the lowercased form of every key of `cats`. */
  ghost predicate Covers(lowerKeys: set<string>, cats: Cats) {
    forall k :: k in cats ==> Lower(k) in lowerKeys
  }

  /** Where key `c` is once the keys in `done` have been processed, given
      each key's target `tgt`. */
  function At<K>(c: K, done: set<K>, tgt: map<K, K>): K
    requires c in tgt
  {
    if c in done then tgt[c] else c
  }

  /** `cur` holds every category of `cats` under its current key, and
      nothing else. */
  ghost predicate Placed<K, V>(cats: map<K, V>, cur: map<K, V>, done: set<K>, tgt: map<K, K>, origin: map<K, K>)
    requires cats.Keys <= tgt.Keys
  {
    && (forall c :: c in cats ==>
          At(c, done, tgt) in cur && cur[At(c, done, tgt)] == cats[c] && At(c, done, tgt) in origin && origin[At(c, done, tgt)] == c)
    && (forall k :: k in cur ==> k in origin && origin[k] in cats && At(origin[k], done, tgt) == k)
  }

  /** The renamed map: every category under its target key, and nothing else. */
  ghost predicate IsRenaming(cats: Cats, m: Cats, ckey: string, nkey: string) {
    && (forall c :: c in cats ==> Target(c, ckey, nkey) in m && m[Target(c, ckey, nkey)] == cats[c])
    && (forall k :: k in m ==> exists c :: c in cats && Target(c, ckey, nkey) == k)
  }

  /** Moving key `c` to a new target that no processed key occupies keeps
      every category in place. */
  lemma PlacedMove<K, V>(cats: map<K, V>, cur: map<K, V>, done: set<K>, tgt: map<K, K>, origin: map<K, K>, c: K)
    requires cats.Keys == tgt.Keys && Placed(cats, cur, done, tgt, origin)
    requires c in cats && c !in done && tgt[c] !in cats
    requires forall x :: x in done && x in cats ==> tgt[x] != tgt[c] && tgt[x] != c
    ensures c in cur && Placed(cats, MoveKey(cur, c, tgt[c]), done + {c}, tgt, origin[tgt[c] := c])
  {
    assert At(c, done, tgt) == c;
    var t := tgt[c];
    var next := MoveKey(cur, c, t);
    forall x | x in cats && x != c
      ensures At(x, done + {c}, tgt) == At(x, done, tgt) && At(x, done, tgt) != c && At(x, done, tgt) != t
    {
    }
    assert At(c, done + {c}, tgt) == t;
    var origin' := origin[t := c];
    forall k | k in next ensures k in origin' && origin'[k] in cats && At(origin'[k], done + {c}, tgt) == k {
      if k != t {
        assert origin[k] != c;
      }
    }
  }

  /** A key that stays where it is. */
  lemma PlacedStay<K, V>(cats: map<K, V>, cur: map<K, V>, done: set<K>, tgt: map<K, K>, origin: map<K, K>, c: K)
    requires cats.Keys == tgt.Keys && Placed(cats, cur, done, tgt, origin)
    requires c in cats && tgt[c] == c
    ensures Placed(cats, cur, done + {c}, tgt, origin)
  {
    forall x | x in cats ensures At(x, done + {c}, tgt) == At(x, done, tgt) {
    }
    forall k | k in cur ensures At(origin[k], done + {c}, tgt) == k {
      assert At(origin[k], done, tgt) == k;
    }
  }

  lemma NotInLowerKeys(lowerKeys: set<string>, cats: Cats, x: string)
    requires Covers(lowerKeys, cats) && Lower(x) !in lowerKeys
    ensures x !in cats
  {
  }

  lemma TargetsDiffer(ckey: string, nkey: string, x: string, c: string)
    requires x != c && |x| >= |ckey| && |c| >= |ckey| && x[..|ckey|] == ckey && c[..|ckey|] == ckey
    ensures nkey + x[|ckey|..] != nkey + c[|ckey|..]
  {
    assert x == ckey + x[|ckey|..] && c == ckey + c[|ckey|..];
    assert (nkey + x[|ckey|..])[|nkey|..] == x[|ckey|..];
    assert (nkey + c[|ckey|..])[|nkey|..] == c[|ckey|..];
  }

  /** A matching key spelt as `ckey` moves when the name changes. */
  lemma Moves(ckey: string, nkey: string, c: string)
    requires ckey != nkey && Matches(c, ckey) && c[..|ckey|] == ckey
    ensures c == ckey + c[|ckey|..] && Target(c, ckey, nkey) != c
  {
    var rest := c[|ckey|..];
    assert c == ckey + rest;
    if |nkey| == |ckey| {
      assert (nkey + rest)[..|nkey|] == nkey;
    }
  }

  /** The targets of the keys of `cats`. */
  ghost predicate Targets(cats: Cats, tgt: map<string, string>, ckey: string, nkey: string) {
    tgt.Keys == cats.Keys && forall c :: c in cats ==> tgt[c] == Target(c, ckey, nkey)
  }

  /** How the loop ends: with the renamed map, at a name already used, or
      at a key that is not there. */
  datatype Pass<K, V> = Complete(m: map<K, V>) | Blocked(name: K) | Lost(key: K)

  /** The loop with each key's outcome decided beforehand: key `c` goes to
      `tgt[c]`, and renaming a key in `bad` meets a name already used. */
  ghost function MoveFold<K, V>(tgt: map<K, K>, bad: set<K>, cur: map<K, V>, order: seq<K>): Pass<K, V>
    decreases |order|
  {
    if |order| == 0 then Complete(cur)
    else
      var c := order[0];
      if c !in tgt || tgt[c] == c then MoveFold(tgt, bad, cur, order[1..])
      else if c in bad then Blocked(tgt[c])
      else if c !in cur then Lost(c)
      else MoveFold(tgt, bad, MoveKey(cur, c, tgt[c]), order[1..])
  }

  function AsOutcome(p: Pass<string, seq<Entry>>, nkey: string): Outcome {
    match p
    case Complete(m) => Done(m, nkey)
    case Blocked(name) => NameUsed(name)
    case Lost(key) => MissingKey(key)
  }

  /** The loop over the keys takes, key by key, the decisions `tgt` and
      `bad` record. */
  lemma {:induction false} FoldAgrees(lowerKeys: set<string>, ckey: string, nkey: string, tgt: map<string, string>,
                                      bad: set<string>, cur: Cats, order: seq<string>)
    requires ckey != nkey
    requires forall c :: c in order ==>
      && c in tgt && tgt[c] == Target(c, ckey, nkey)
      && (c in bad <==> Clash(lowerKeys, c, ckey, nkey))
      && (Matches(c, ckey) ==> c[..|ckey|] == ckey)
    ensures RenameFold(lowerKeys, ckey, nkey, cur, order) == AsOutcome(MoveFold(tgt, bad, cur, order), nkey)
    decreases |order|
  {
    if |order| > 0 {
      var c := order[0];
      assert c in order;
      assert forall x :: x in order[1..] ==> x in order;
      if Matches(c, ckey) {
        Moves(ckey, nkey, c);
        var next := if c in cur then MoveKey(cur, c, tgt[c]) else cur;
        FoldAgrees(lowerKeys, ckey, nkey, tgt, bad, next, order[1..]);
      } else {
        FoldAgrees(lowerKeys, ckey, nkey, tgt, bad, cur, order[1..]);
      }
    }
  }

  /** Keys that do not clash go to pairwise distinct targets (`back` undoes
      the renaming), and those that move go to names in `unused`, which no
      key has. */
  ghost predicate Apart<K, V>(cats: map<K, V>, tgt: map<K, K>, bad: set<K>, unused: set<K>, back: map<K, K>)
    requires cats.Keys <= tgt.Keys
  {
    && unused !! cats.Keys
    && forall x :: x in cats && x !in bad ==>
         tgt[x] in back && back[tgt[x]] == x && (tgt[x] == x || tgt[x] in unused)
  }

  lemma TargetsApart(lowerKeys: set<string>, cats: Cats, ckey: string, nkey: string, tgt: map<string, string>, bad: set<string>)
    returns (unused: set<string>, back: map<string, string>)
    requires Covers(lowerKeys, cats) && Exact(cats, ckey) && Targets(cats, tgt, ckey, nkey)
    requires forall c :: c in cats ==> (c in bad <==> Clash(lowerKeys, c, ckey, nkey))
    ensures Apart(cats, tgt, bad, unused, back)
  {
    forall x, y | x in cats && y in cats && x !in bad && y !in bad && x != y ensures tgt[x] != tgt[y] {
      if Matches(x, ckey) {
        NotInLowerKeys(lowerKeys, cats, tgt[x]);
        if Matches(y, ckey) {
          TargetsDiffer(ckey, nkey, x, y);
        }
      } else if Matches(y, ckey) {
        NotInLowerKeys(lowerKeys, cats, tgt[y]);
      }
    }
    forall x | x in cats && x !in bad && tgt[x] != x ensures tgt[x] !in cats {
      NotInLowerKeys(lowerKeys, cats, tgt[x]);
    }
    unused := (set x | x in cats && x !in bad :: tgt[x]) - cats.Keys;
    back := map x | x in cats && x !in bad :: tgt[x] := x;
  }

  /** The rest of the loop, from a state where `done` is processed. */
  lemma {:induction false} FoldSpec<K, V>(cats: map<K, V>, cur: map<K, V>, done: set<K>, tgt: map<K, K>,
                                          origin: map<K, K>, bad: set<K>, unused: set<K>, back: map<K, K>, order: seq<K>)
    returns (final: map<K, K>)
    requires cats.Keys == tgt.Keys && Apart(cats, tgt, bad, unused, back) && Placed(cats, cur, done, tgt, origin)
    requires forall x :: x in bad ==> x in cats && tgt[x] != x && x !in done
    requires forall i, j :: 0 <= i < j < |order| ==> order[i] != order[j]
    requires forall i :: 0 <= i < |order| ==> order[i] in cats && order[i] !in done
    requires done + (set c | c in order) == cats.Keys
    ensures var r := MoveFold(tgt, bad, cur, order);
      && ((forall i :: 0 <= i < |order| ==> order[i] !in bad) ==> r.Complete? && Placed(cats, r.m, cats.Keys, tgt, final))
      && ((exists i :: 0 <= i < |order| && order[i] in bad) ==> r.Blocked? && exists c :: c in bad && r.name == tgt[c])
    decreases |order|
  {
    final := origin;
    if |order| == 0 {
      assert done == cats.Keys;
    } else {
      var c := order[0];
      var tail := order[1..];
      assert (set x | x in order) == {c} + (set x | x in tail);
      assert forall i :: 0 <= i < |tail| ==> tail[i] == order[i + 1];
      if c !in bad {
        var next := cur;
        var origin' := origin;
        if tgt[c] != c {
          forall x | x in done && x in cats ensures tgt[x] != tgt[c] && tgt[x] != c {
          }
          PlacedMove(cats, cur, done, tgt, origin, c);
          next := MoveKey(cur, c, tgt[c]);
          origin' := origin[tgt[c] := c];
        } else {
          PlacedStay(cats, cur, done, tgt, origin, c);
        }
        final := FoldSpec(cats, next, done + {c}, tgt, origin', bad, unused, back, tail);
        if exists i :: 0 <= i < |order| && order[i] in bad {
          var i :| 0 <= i < |order| && order[i] in bad;
          assert i > 0 && tail[i - 1] in bad;
        }
      }
    }
  }

  /** The loop, with its decisions taken beforehand, runs over every key:
      it stops at a key in `bad` if there is one, and otherwise puts every
      category at its target. */
  lemma FoldOutcome<K, V>(cats: map<K, V>, tgt: map<K, K>, bad: set<K>, unused: set<K>, back: map<K, K>, order: seq<K>)
    returns (final: map<K, K>)
    requires cats.Keys == tgt.Keys && Apart(cats, tgt, bad, unused, back) && Listing(order, cats)
    requires forall x :: x in bad ==> x in cats && tgt[x] != x
    ensures var r := MoveFold(tgt, bad, cats, order);
      && (bad == {} ==> r.Complete? && Placed(cats, r.m, cats.Keys, tgt, final))
      && (bad != {} ==> r.Blocked? && exists c :: c in bad && r.name == tgt[c])
  {
    var origin := map c | c in cats :: c;
    assert Placed(cats, cats, {}, tgt, origin) by {
      forall c | c in cats ensures At(c, {}, tgt) == c {
      }
    }
    assert {} + (set c | c in order) == cats.Keys;
    assert forall i :: 0 <= i < |order| ==> order[i] in cats by {
      forall i | 0 <= i < |order| ensures order[i] in cats {
        assert order[i] in (set c | c in order);
      }
    }
    final := FoldSpec(cats, cats, {}, tgt, origin, bad, unused, back, order);
    if bad != {} {
      var c :| c in bad;
      assert c in (set x | x in order);
      var i :| 0 <= i < |order| && order[i] == c;
    }
  }

  /** The end state of the loop, read in terms of target keys. */
  lemma PlacedIsRenaming(cats: Cats, m: Cats, tgt: map<string, string>, final: map<string, string>, ckey: string, nkey: string)
    requires Targets(cats, tgt, ckey, nkey) && Placed(cats, m, cats.Keys, tgt, final)
    ensures IsRenaming(cats, m, ckey, nkey)
  {
    forall c | c in cats ensures At(c, cats.Keys, tgt) == Target(c, ckey, nkey) {
    }
    forall k | k in m ensures exists c :: c in cats && Target(c, ckey, nkey) == k {
      assert final[k] in cats && At(final[k], cats.Keys, tgt) == k;
    }
  }

  /** When no key matches `ckey` in case only, the rename either meets a
      name already in use, exactly when some renamed key would take one,
      or moves every category to its target key and keeps its items. */
  lemma RenameUserCategorySpec(cats: Cats, categoryKey: string, val: string, order: seq<string>)
    requires |categoryKey| >= 1 && '.' !in val && Listing(order, cats)
    requires Exact(cats, categoryKey[1..])
    ensures var ckey := categoryKey[1..]; var nkey := NewKey(ckey, val); var lowerKeys := LowerKeys(cats);
      var r := RenameUserCategory(cats, categoryKey, val, order);
      && (ckey == nkey <==> r == SameName)
      && (ckey != nkey ==>
            && (r.Done? <==> forall c :: c in cats ==> !Clash(lowerKeys, c, ckey, nkey))
            && (r.Done? ==> r.nkey == nkey && IsRenaming(cats, r.cats, ckey, nkey))
            && (r.NameUsed? <==> exists c :: c in cats && Clash(lowerKeys, c, ckey, nkey))
            && (r.NameUsed? ==> exists c :: c in cats && Clash(lowerKeys, c, ckey, nkey) && r.name == Target(c, ckey, nkey)))
  {
    var ckey := categoryKey[1..];
    var nkey := NewKey(ckey, val);
    var lowerKeys := LowerKeys(cats);
    if ckey != nkey {
      var tgt := map c | c in cats :: Target(c, ckey, nkey);
      var bad := set c | c in cats && Clash(lowerKeys, c, ckey, nkey);
      assert Covers(lowerKeys, cats);
      var unused, back := TargetsApart(lowerKeys, cats, ckey, nkey, tgt, bad);
      forall x | x in bad ensures x in cats && tgt[x] != x {
        Moves(ckey, nkey, x);
      }
      assert forall c :: c in order ==> c in cats;
      FoldAgrees(lowerKeys, ckey, nkey, tgt, bad, cats, order);
      var final := FoldOutcome(cats, tgt, bad, unused, back, order);
      var r := MoveFold(tgt, bad, cats, order);
      if bad == {} {
        PlacedIsRenaming(cats, r.m, tgt, final, ckey, nkey);
      } else {
        var c :| c in bad;
      }
    }
  }

  /** The setData branch for a user category. The user categories change
      only when the rename completes. */
  method RenameUserCategoryKeys(p: UserCategoryPrefs, categoryKey: string, val: string, order: seq<string>)
    returns (r: Outcome)
    requires |categoryKey| >= 1
    modifies p`cats
    ensures r == RenameUserCategory(old(p.cats), categoryKey, val, order)
    ensures p.cats == if r.Done? then r.cats else old(p.cats)
  {
    if '.' in val {
      return PeriodInName;
    }
    var userCats := p.cats;
    var lowerKeys := LowerKeys(userCats);
    var ckey := categoryKey[1..];
    var dotpos := LastIndex(ckey, '.');
    var nkey := if dotpos < 0 then val else ckey[..dotpos + 1] + val;
    if ckey == nkey {
      return SameName;
    }
    var i := 0;
    while i < |order|
      invariant 0 <= i <= |order| && p.cats == old(p.cats)
      invariant RenameFold(lowerKeys, ckey, nkey, userCats, order[i..]) == RenameUserCategory(old(p.cats), categoryKey, val, order)
    {
      var c := order[i];
      assert order[i..][1..] == order[i + 1..];
      if StartsWith(Lower(c), Lower(ckey)) {
        if |c| == |ckey| {
          assert c[|ckey|..] == "" && nkey + "" == nkey && ckey + "" == ckey;
          if ckey != nkey && Lower(nkey) in lowerKeys {
            return NameUsed(nkey);
          }
          if ckey !in userCats {
            return MissingKey(ckey);
          }
          userCats := userCats[nkey := userCats[ckey]] - {ckey};
        } else if c[|ckey|] == '.' {
          var rest := c[|ckey|..];
          if ckey != nkey && Lower(nkey + rest) in lowerKeys {
            return NameUsed(nkey + rest);
          }
          if ckey + rest !in userCats {
            return MissingKey(ckey + rest);
          }
          userCats := userCats[nkey + rest := userCats[ckey + rest]] - {ckey + rest};
        }
      }
      i := i + 1;
    }
    p.cats := userCats;
    return Done(userCats, nkey);
  }
}
