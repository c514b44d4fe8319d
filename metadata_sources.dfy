/** The metadata download sources preferences
    (src/calibre/gui2/preferences/metadata_sources.py): the table of
    sources with their enabled state and cover priority, and the list of
    fields that downloads may set. Both keep the user's edits in override
    maps until they are committed.

    Plugins are identified by their names. The plugin registry
    (`is_disabled`, `enable_plugin`, `disable_plugin`) and `msprefs` live
    outside this file: the disabled set and the stored preferences are
    parameters, and what a commit writes is returned. */
module MetadataSources {
  import opened Common
  import opened Sorting

  /** Qt.CheckState. */
  datatype CheckState = Unchecked | PartiallyChecked | Checked

  /** `Qt.CheckState(val)` for an integer `val`. */
  function CheckStateOf(i: int): (r: Option<CheckState>)
    ensures r.Some? <==> 0 <= i <= 2
  {
    if i == 0 then Some(Unchecked)
    else if i == 1 then Some(PartiallyChecked)
    else if i == 2 then Some(Checked)
    else None
  }

  /** The item data roles the models answer to. */
  datatype Role = DisplayRole | EditRole | CheckStateRole | OtherRole

  /** What `data` shows for a cell. */
  datatype Shown = Name(name: string) | Priority(priority: int) | Check(state: CheckState)

  // -----------------------------------------------------------------------
  // Cover priorities

  /** The priority shown for a source: its override, else the stored
      priority, else 1. */
  function PriorityOf(overrides: map<string, int>, stored: map<string, int>, name: string): int {
    if name in overrides then overrides[name]
    else if name in stored then stored[name]
    else 1
  }

  /** The `cover_priorities` a commit writes: an override of 1 removes the
      entry, any other override is stored, other entries stay. Committing
      changes nothing that is shown: every source shows the same priority
      before, with its overrides, as after, with none. */
  function CommittedPriorities(stored: map<string, int>, overrides: map<string, int>): (r: map<string, int>)
    ensures forall n :: n in r <==> (n in overrides && overrides[n] != 1) || (n !in overrides && n in stored)
    ensures forall n :: n in r ==> r[n] == if n in overrides then overrides[n] else stored[n]
    ensures forall n :: PriorityOf(map[], r, n) == PriorityOf(overrides, stored, n)
  {
    map n | n in stored.Keys + overrides.Keys && (n !in overrides || overrides[n] != 1) ::
      if n in overrides then overrides[n] else stored[n]
  }

  /** The enabled state shown for a source: its override, else Unchecked
      exactly when the source is disabled. */
  function EnabledOf(overrides: map<string, CheckState>, disabled: set<string>, name: string): CheckState {
    if name in overrides then overrides[name]
    else if name in disabled then Unchecked
    else Checked
  }

  /** The disabled sources after a commit: overrides to Checked enable,
      overrides to Unchecked disable, others change nothing. Every source
      whose override is not PartiallyChecked shows the same state after
      the commit as before. */
  function CommittedDisabled(disabled: set<string>, overrides: map<string, CheckState>): (r: set<string>)
    ensures forall n :: n in r <==>
      (n in overrides && overrides[n] == Unchecked) || (n in disabled && (n !in overrides || overrides[n] == PartiallyChecked))
    ensures forall n :: (n in overrides ==> overrides[n] != PartiallyChecked) ==>
      EnabledOf(map[], r, n) == EnabledOf(overrides, disabled, n)
  {
    (disabled - set n | n in overrides && overrides[n] == Checked)
      + set n | n in overrides && overrides[n] == Unchecked
  }

  /** A source that needs a confirmation before it is enabled. */
  predicate NeedsConfirmation(name: string) {
    Find(name, "Douban")
  }

  /** The table of metadata sources. */
  class SourcesModel {
    var plugins: seq<string>
    var enabledOverrides: map<string, CheckState>
    var coverOverrides: map<string, int>

    constructor (plugins: seq<string>)
      ensures this.plugins == plugins && enabledOverrides == map[] && coverOverrides == map[]
    {
      this.plugins := plugins;
      enabledOverrides := map[];
      coverOverrides := map[];
    }

    /** data: the name, the priority (override, else stored, else 1) or
        the enabled state (override, else from `disabled`) of a cell;
        None for a row outside the table or a role without data. */
    function Data(row: int, col: int, role: Role, stored: map<string, int>, disabled: set<string>): (r: Option<Shown>)
      reads this`plugins, this`enabledOverrides, this`coverOverrides
      ensures PyAt(plugins, row).None? ==> r.None?
      ensures PyAt(plugins, row).Some? && (role == DisplayRole || role == EditRole) && col == 1 ==>
        r == Some(Priority(PriorityOf(coverOverrides, stored, PyAt(plugins, row).value)))
      ensures PyAt(plugins, row).Some? && role == CheckStateRole && col == 0 ==>
        r == Some(Check(EnabledOf(enabledOverrides, disabled, PyAt(plugins, row).value)))
    {
      var p := PyAt(plugins, row);
      if p.None? then None
      else if role == DisplayRole || role == EditRole then
        if col == 0 then Some(Name(p.value))
        else if col == 1 then Some(Priority(PriorityOf(coverOverrides, stored, p.value)))
        else None
      else if role == CheckStateRole && col == 0 then
        Some(Check(EnabledOf(enabledOverrides, disabled, p.value)))
      else None
    }

    /** setData: the check box of column 0 records an enabled override
        (a Douban source only once `confirmed`); column 1 records
        `max(1, int(val))` as the cover priority, or nothing when `val` is
        not an integer (`number` is `int(val)`, None when that raises). */
    method SetData(row: int, col: int, role: Role, number: Option<int>, confirmed: bool) returns (ret: bool)
      requires PyAt(plugins, row).Some? && col == 0 && role == CheckStateRole ==>
        number.Some? && CheckStateOf(number.value).Some?
      modifies this`enabledOverrides, this`coverOverrides
      ensures var p := PyAt(plugins, row);
        if p.None? then
          !ret && enabledOverrides == old(enabledOverrides) && coverOverrides == old(coverOverrides)
        else if col == 0 && role == CheckStateRole then
          var v := CheckStateOf(number.value).value;
          coverOverrides == old(coverOverrides) &&
          if v == Checked && NeedsConfirmation(p.value) && !confirmed then
            !ret && enabledOverrides == old(enabledOverrides)
          else
            ret && enabledOverrides == old(enabledOverrides)[p.value := v]
        else if col == 1 && role == EditRole && number.Some? then
          ret && enabledOverrides == old(enabledOverrides)
          && coverOverrides == old(coverOverrides)[p.value := if number.value < 1 then 1 else number.value]
        else
          !ret && enabledOverrides == old(enabledOverrides) && coverOverrides == old(coverOverrides)
    {
      var p := PyAt(plugins, row);
      if p.None? {
        return false;
      }
      var plugin := p.value;
      ret := false;
      if col == 0 && role == CheckStateRole {
        var v := CheckStateOf(number.value).value;
        if v == Checked && NeedsConfirmation(plugin) && !confirmed {
          return ret;
        }
        enabledOverrides := enabledOverrides[plugin := v];
        ret := true;
      }
      if col == 1 && role == EditRole {
        if number.Some? {
          coverOverrides := coverOverrides[plugin := if number.value < 1 then 1 else number.value];
          ret := true;
        }
      }
    }

    /** commit: apply the enabled overrides to the plugin registry, write
        the cover priorities when there are priority overrides, and forget
        every override. */
    method Commit(stored: map<string, int>, disabled: set<string>)
      returns (newStored: map<string, int>, wrote: bool, newDisabled: set<string>)
      modifies this`enabledOverrides, this`coverOverrides
      ensures newDisabled == CommittedDisabled(disabled, old(enabledOverrides))
      ensures wrote <==> old(coverOverrides) != map[]
      ensures newStored == CommittedPriorities(stored, old(coverOverrides))
      ensures enabledOverrides == map[] && coverOverrides == map[]
    {
      newDisabled := disabled;
      var pending := enabledOverrides.Keys;
      while pending != {}
        invariant pending <= enabledOverrides.Keys
        invariant forall n :: n in newDisabled <==>
          if n in enabledOverrides && n !in pending then enabledOverrides[n] == Unchecked
            || (n in disabled && enabledOverrides[n] == PartiallyChecked)
          else n in disabled
        decreases pending
      {
        var n :| n in pending;
        var v := enabledOverrides[n];
        if v == Checked {
          newDisabled := newDisabled - {n};
        } else if v == Unchecked {
          newDisabled := newDisabled + {n};
        }
        pending := pending - {n};
      }
      newStored := stored;
      wrote := false;
      if coverOverrides != map[] {
        newStored := WritePriorities(stored, coverOverrides);
        wrote := true;
      } else {
        assert CommittedPriorities(stored, coverOverrides) == stored;
      }
      enabledOverrides := map[];
      coverOverrides := map[];
    }

    /** restore_defaults: override every source with its default enabled
        state and its default cover priority. */
    method RestoreDefaults(defaultDisabled: set<string>, defaultPriorities: map<string, int>)
      modifies this`enabledOverrides, this`coverOverrides
      ensures enabledOverrides.Keys == coverOverrides.Keys == set p | p in plugins
      ensures forall p :: p in plugins ==>
        enabledOverrides[p] == (if p in defaultDisabled then Unchecked else Checked)
        && coverOverrides[p] == PriorityOf(map[], defaultPriorities, p)
    {
      enabledOverrides := map p | p in plugins :: if p in defaultDisabled then Unchecked else Checked;
      coverOverrides := map p | p in plugins :: PriorityOf(map[], defaultPriorities, p);
    }
  }

  /** The loop of SourcesModel.commit that updates `cover_priorities`. */
  method WritePriorities(stored: map<string, int>, overrides: map<string, int>) returns (cp: map<string, int>)
    ensures cp == CommittedPriorities(stored, overrides)
  {
    cp := stored;
    var pending := overrides.Keys;
    while pending != {}
      invariant pending <= overrides.Keys
      invariant forall n :: n in cp <==>
        if n in overrides && n !in pending then overrides[n] != 1 else n in stored
      invariant forall n :: n in cp ==> cp[n] == if n in overrides && n !in pending then overrides[n] else stored[n]
      decreases pending
    {
      var n :| n in pending;
      if overrides[n] == 1 {
        cp := cp - {n};
      } else {
        cp := cp[n := overrides[n]];
      }
      pending := pending - {n};
    }
  }

  /** After restore_defaults and a commit every source shows its default
      priority. */
  lemma RestoredPriorities(stored: map<string, int>, plugins: seq<string>, defaults: map<string, int>, name: string)
    requires name in plugins
    ensures var restored := map p | p in plugins :: PriorityOf(map[], defaults, p);
      PriorityOf(map[], CommittedPriorities(stored, restored), name) == PriorityOf(map[], defaults, name)
  {
    var restored := map p | p in plugins :: PriorityOf(map[], defaults, p);
    assert PriorityOf(map[], CommittedPriorities(stored, restored), name) == PriorityOf(restored, stored, name);
  }

  // -----------------------------------------------------------------------
  // Fields

  /** Fields never listed: some sources say `language` for `languages`. */
  const Excluded: set<string> := {"series_index", "language"}

  predicate Listed(field: string) {
    !StartsWith(field, "identifier:") && field !in Excluded
  }

  /** state: Unchecked exactly when the field is ignored. */
  function State(field: string, ignoreFields: seq<string>): (r: CheckState)
    ensures r != PartiallyChecked
    ensures r == Unchecked <==> field in ignoreFields
  {
    if field in ignoreFields then Unchecked else Checked
  }

  /** The ignored fields a commit writes: the ignored fields without an
      override and the fields overridden to Unchecked. */
  function MergedIgnored(ignored: seq<string>, overrides: map<string, CheckState>): (r: set<string>)
    ensures forall f :: f in r <==> (f in ignored && f !in overrides) || (f in overrides && overrides[f] == Unchecked)
  {
    (set x | x in ignored && x !in overrides) + (set k | k in overrides && overrides[k] == Unchecked)
  }

  /** Committing keeps the state shown for every field whose override is
      not PartiallyChecked. */
  lemma CommitKeepsFieldStates(ignored: seq<string>, overrides: map<string, CheckState>, written: seq<string>, field: string)
    requires forall f :: f in written <==> f in MergedIgnored(ignored, overrides)
    requires field in overrides ==> overrides[field] != PartiallyChecked
    ensures State(field, written) == if field in overrides then overrides[field] else State(field, ignored)
  {
  }

  /** The list of fields a download may set. */
  class FieldsModel {
    var fields: seq<string>
    var overrides: map<string, CheckState>

    constructor ()
      ensures fields == [] && overrides == map[]
    {
      fields := [];
      overrides := map[];
    }

    /** initialize: every field some source touches, except identifiers,
        `series_index` and `language`, sorted by the rank of its display
        description. */
    method Initialize(touched: seq<set<string>>, descRank: string -> int)
      modifies this`fields
      ensures forall f :: f in fields <==> Listed(f) && exists k :: 0 <= k < |touched| && f in touched[k]
      ensures Sorted(fields, ByKey(descRank))
      ensures forall i, j :: 0 <= i < j < |fields| ==> fields[i] != fields[j]
    {
      var all: set<string> := {};
      for i := 0 to |touched|
        invariant forall f :: f in all <==> exists k :: 0 <= k < i && f in touched[k]
      {
        all := all + touched[i];
      }
      var listed: seq<string> := [];
      var pending := all;
      while pending != {}
        invariant pending <= all
        invariant forall f :: f in listed <==> f in all && f !in pending && Listed(f)
        invariant forall i, j :: 0 <= i < j < |listed| ==> listed[i] != listed[j]
        decreases pending
      {
        var x :| x in pending;
        if Listed(x) {
          listed := listed + [x];
        }
        pending := pending - {x};
      }
      ByKeyTotal(descRank);
      fields := Sort(listed, ByKey(descRank));
      DistinctPermutation(listed, fields);
      forall f ensures f in fields <==> f in listed {
        assert f in fields <==> f in multiset(fields);
        assert f in listed <==> f in multiset(listed);
      }
    }

    /** data: the check state of a row, its override or its state. */
    function Data(row: int, ignoreFields: seq<string>): (r: Option<CheckState>)
      reads this`fields, this`overrides
      ensures r.None? <==> PyAt(fields, row).None?
      ensures r.Some? ==> var f := PyAt(fields, row).value;
        r.value == if f in overrides then overrides[f] else State(f, ignoreFields)
    {
      var f := PyAt(fields, row);
      if f.None? then None
      else if f.value in overrides then Some(overrides[f.value])
      else Some(State(f.value, ignoreFields))
    }

    /** setData: a check box click records an override. */
    method SetData(row: int, val: CheckState, role: Role) returns (ret: bool)
      modifies this`overrides
      ensures ret <==> PyAt(fields, row).Some? && role == CheckStateRole
      ensures overrides == if ret then old(overrides)[PyAt(fields, row).value := val] else old(overrides)
    {
      var f := PyAt(fields, row);
      if f.None? {
        return false;
      }
      ret := false;
      if role == CheckStateRole {
        overrides := overrides[f.value := val];
        ret := true;
      }
    }

    method SelectAll()
      modifies this`overrides
      ensures overrides.Keys == set f | f in fields
      ensures forall f :: f in overrides ==> overrides[f] == Checked
    {
      overrides := map f | f in fields :: Checked;
    }

    method ClearAll()
      modifies this`overrides
      ensures overrides.Keys == set f | f in fields
      ensures forall f :: f in overrides ==> overrides[f] == Unchecked
    {
      overrides := map f | f in fields :: Unchecked;
    }

    /** restore_defaults: override every field with its default state. */
    method RestoreDefaults(defaultIgnore: seq<string>)
      modifies this`overrides
      ensures overrides.Keys == set f | f in fields
      ensures forall f :: f in overrides ==> overrides[f] == State(f, defaultIgnore)
    {
      overrides := map f | f in fields :: State(f, defaultIgnore);
    }

    /** commit: the new `ignore_fields`. */
    function Commit(ignoreFields: seq<string>): (r: set<string>)
      reads this`overrides
      ensures forall f :: f in r <==> (f in ignoreFields && f !in overrides) || (f in overrides && overrides[f] == Unchecked)
    {
      MergedIgnored(ignoreFields, overrides)
    }

    /** commit_user_defaults: the new `user_default_ignore_fields`. */
    function CommitUserDefaults(userDefaultIgnore: seq<string>): (r: set<string>)
      reads this`overrides
      ensures forall f :: f in r <==> (f in userDefaultIgnore && f !in overrides) || (f in overrides && overrides[f] == Unchecked)
    {
      MergedIgnored(userDefaultIgnore, overrides)
    }
  }
}
