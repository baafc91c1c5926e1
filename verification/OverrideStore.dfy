/** The overrides the program writes: edits are validated, written, and rolled back when they cannot be. */
module OverrideStore {
  import opened Wrappers
  import opened Toml
  import opened OverrideEdits
  import opened OverridePaths
  import Migrations

  // ----- diagnostics -----

  datatype Severity = Warning | Error

  datatype RecoveryScope = Advisory | Value | Component | Document

  datatype Entry = Entry(severity: Severity, scope: RecoveryScope, code: string, path: string, message: string, owner: string)

  /** What diagnosing a table gives; reading the configuration files may fail altogether. */
  datatype Diagnosis = Diagnosed(entries: seq<Entry>) | Failed(what: string)

  /** The configuration files as they are: what each overrides table would lead to. */
  type Diagnose = Tree -> Diagnosis

  function Errors(d: Diagnosis): set<Entry> {
    if d.Diagnosed? then set e | e in d.entries && e.severity == Error else {}
  }

  predicate Fatal(e: Entry) {
    e.severity == Error && e.scope == Document
  }

  /** `introducedErrorsComparedTo`. */
  function Introduced(candidate: seq<Entry>, baseline: seq<Entry>): (errors: seq<Entry>)
    ensures forall e :: e in errors <==> e in candidate && e.severity == Error && e !in baseline
  {
    if candidate == [] then []
    else
      var last := candidate[|candidate| - 1];
      Introduced(candidate[..|candidate| - 1], baseline)
      + if last.severity == Error && last !in baseline then [last] else []
  }

  /** A table may replace another: it can be diagnosed, has no document error and none the other has not. */
  ghost predicate Acceptable(diagnose: Diagnose, baseline: Tree, candidate: Tree) {
    && diagnose(baseline).Diagnosed? && diagnose(candidate).Diagnosed?
    && (forall e <- diagnose(candidate).entries :: !Fatal(e))
    && Errors(diagnose(candidate)) <= Errors(diagnose(baseline))
  }

  /** In terms of the diagnostics themselves: every error of the new table is one the old table had as well, and none
      concerns the whole document. */
  lemma AcceptableIs(diagnose: Diagnose, baseline: Tree, candidate: Tree)
    ensures Acceptable(diagnose, baseline, candidate)
       <==> diagnose(baseline).Diagnosed? && diagnose(candidate).Diagnosed?
            && forall e <- diagnose(candidate).entries :: e.severity == Error ==>
                 e.scope != Document && e in diagnose(baseline).entries
  {
    var a, b := diagnose(baseline), diagnose(candidate);
    if a.Diagnosed? && b.Diagnosed? {
      assert Errors(b) <= Errors(a) <==> forall e <- b.entries :: e.severity == Error ==> e in a.entries by {
        if Errors(b) <= Errors(a) {
          forall e | e in b.entries && e.severity == Error
            ensures e in a.entries
          {
            assert e in Errors(b);
          }
        }
      }
    }
  }

  /** The overrides file: absent, not to be parsed, or a table. */
  datatype File = Absent | Unparsable(error: string) | Parsed(table: Tree)

  // ----- what a run of edits may do -----

  /** What happens to the file: the program writes it, or reads what it finds in it. */
  datatype Event = Wrote(table: Tree) | Read(file: File)

  /** What is held of the file. */
  datatype Held = Held(persisted: Tree, parseError: string) {
    function After(e: Event): Held {
      match e
      case Wrote(t) => Held(t, parseError)
      case Read(Absent) => Held(EMPTY, "")
      case Read(Unparsable(error)) => Held(persisted, error)
      case Read(Parsed(t)) => Held(t, "")
    }
  }

  /** What is held after all these events. */
  function Last(h: Held, log: seq<Event>): Held {
    if log == [] then h else Last(h, log[..|log| - 1]).After(log[|log| - 1])
  }

  /** The state of the overrides: in memory, as persisted, and all that happened to the file. */
  datatype Store = Store(table: Tree, held: Held, log: seq<Event>) {
    /** Outside the parse-error state memory and file agree. */
    predicate InSync() {
      held.parseError == "" ==> table == held.persisted
    }
  }

  /** Each table written was acceptable in place of the one persisted then, and the file could be parsed. */
  ghost predicate Chain(diagnose: Diagnose, h: Held, log: seq<Event>) {
    log == [] ||
    var before, last := log[..|log| - 1], log[|log| - 1];
    Chain(diagnose, h, before)
    && (last.Wrote? ==> Last(h, before).parseError == "" && Acceptable(diagnose, Last(h, before).persisted, last.table))
  }

  /** What edits and loads can lead to, with the configuration files unchanged. */
  ghost predicate Advances(diagnose: Diagnose, s: Store, s': Store) {
    && s.log <= s'.log
    && Chain(diagnose, s.held, s'.log[|s.log|..])
    && s'.held == Last(s.held, s'.log[|s.log|..])
    && (s.InSync() ==> s'.InSync())
  }

  lemma {:induction false} ChainsJoin(diagnose: Diagnose, h: Held, a: seq<Event>, b: seq<Event>)
    requires Chain(diagnose, h, a) && Chain(diagnose, Last(h, a), b)
    ensures Chain(diagnose, h, a + b) && Last(h, a + b) == Last(Last(h, a), b)
    decreases b
  {
    if b == [] {
      assert a + b == a;
    } else {
      var before := b[..|b| - 1];
      ChainsJoin(diagnose, h, a, before);
      assert (a + b)[..|a + b| - 1] == a + before;
    }
  }

  /** What is persisted is what was last written or read: a file that cannot be parsed leaves it as it was. */
  lemma {:induction false} PersistedIsLatest(h: Held, log: seq<Event>, k: nat)
    requires k < |log| && !(log[k].Read? && log[k].file.Unparsable?)
    requires forall j :: k < j < |log| ==> log[j].Read? && log[j].file.Unparsable?
    ensures Last(h, log).persisted
         == match log[k] case Wrote(t) => t case Read(file) => if file.Parsed? then file.table else EMPTY
    decreases log
  {
    if k < |log| - 1 {
      assert log[|log| - 1].Read?;
      PersistedIsLatest(h, log[..|log| - 1], k);
    }
  }

  /** There is a parse error exactly when the file was unparsable when it was last read. */
  lemma {:induction false} ParseErrorIsLatest(h: Held, log: seq<Event>, k: nat)
    requires k < |log| && log[k].Read? && forall j :: k < j < |log| ==> log[j].Wrote?
    ensures Last(h, log).parseError == if log[k].file.Unparsable? then log[k].file.error else ""
    decreases log
  {
    if k < |log| - 1 {
      assert log[|log| - 1].Wrote?;
      ParseErrorIsLatest(h, log[..|log| - 1], k);
    }
  }

  lemma AdvancesAgain(diagnose: Diagnose, a: Store, b: Store, c: Store)
    requires Advances(diagnose, a, b) && Advances(diagnose, b, c)
    ensures Advances(diagnose, a, c)
  {
    var first, second := b.log[|a.log|..], c.log[|b.log|..];
    ChainsJoin(diagnose, a.held, first, second);
    assert c.log[|a.log|..] == first + second;
  }

  /** One event, after which memory and file agree. */
  lemma OneEvent(diagnose: Diagnose, was: Store, now: Store, e: Event)
    requires now.log == was.log + [e] && now.held == was.held.After(e) && now.InSync()
    requires e.Wrote? ==> was.held.parseError == "" && Acceptable(diagnose, was.held.persisted, e.table)
    ensures Advances(diagnose, was, now)
  {
    var more := now.log[|was.log|..];
    assert more == [e] && more[..0] == [];
    assert Last(was.held, more[..0]) == was.held;
  }

  lemma NoEvent(diagnose: Diagnose, s: Store)
    ensures Advances(diagnose, s, s)
  {
    assert s.log[|s.log|..] == [];
  }

  lemma {:induction false} ChainAt(diagnose: Diagnose, h: Held, log: seq<Event>, k: nat)
    requires Chain(diagnose, h, log) && k < |log| && log[k].Wrote?
    ensures Last(h, log[..k]).parseError == "" && Acceptable(diagnose, Last(h, log[..k]).persisted, log[k].table)
    decreases log
  {
    var n := |log| - 1;
    if k < n {
      assert log[..n][..k] == log[..k];
      ChainAt(diagnose, h, log[..n], k);
    }
  }

  /** What was written in a run, at the `k`th event: the file could be parsed then, and the table had no document
      error and no error that what was persisted then had not. */
  lemma RunsAreSafe(diagnose: Diagnose, s: Store, s': Store, k: nat)
    requires Advances(diagnose, s, s') && |s.log| <= k < |s'.log| && s'.log[k].Wrote?
    ensures var held := Last(s.held, s'.log[|s.log|..k]);
            && held.parseError == ""
            && (forall e <- Errors(diagnose(s'.log[k].table)) :: !Fatal(e))
            && Errors(diagnose(s'.log[k].table)) <= Errors(diagnose(held.persisted))
  {
    var more := s'.log[|s.log|..];
    ChainAt(diagnose, s.held, more, k - |s.log|);
    assert more[..k - |s.log|] == s'.log[|s.log|..k];
  }

  lemma {:induction false} WritesKeepErrors(diagnose: Diagnose, h: Held, log: seq<Event>, i: nat)
    requires Chain(diagnose, h, log) && i <= |log| && forall k :: i <= k < |log| ==> log[k].Wrote?
    ensures Errors(diagnose(Last(h, log).persisted)) <= Errors(diagnose(Last(h, log[..i]).persisted))
    decreases log
  {
    var n := |log| - 1;
    if i == |log| {
      assert log[..i] == log;
    } else {
      assert log[..n][..i] == log[..i];
      WritesKeepErrors(diagnose, h, log[..n], i);
    }
  }

  lemma LogKeepsErrors(diagnose: Diagnose, h: Held, log: seq<Event>, i: nat, j: nat)
    requires Chain(diagnose, h, log) && i <= j <= |log| && forall k :: i <= k < j ==> log[k].Wrote?
    ensures Errors(diagnose(Last(h, log[..j]).persisted)) <= Errors(diagnose(Last(h, log[..i]).persisted))
  {
    ChainPrefix(diagnose, h, log, j);
    WritesKeepErrors(diagnose, h, log[..j], i);
    assert log[..j][..i] == log[..i];
  }

  /** Between two readings of the file the errors of what is persisted never grow. */
  lemma ErrorsNeverGrow(diagnose: Diagnose, s: Store, s': Store, i: nat, j: nat)
    requires Advances(diagnose, s, s') && |s.log| <= i <= j <= |s'.log| && forall k :: i <= k < j ==> s'.log[k].Wrote?
    ensures Errors(diagnose(Last(s.held, s'.log[|s.log|..j]).persisted))
            <= Errors(diagnose(Last(s.held, s'.log[|s.log|..i]).persisted))
  {
    var more, from := s'.log[|s.log|..], |s.log|;
    assert more[..j - from] == s'.log[from..j] && more[..i - from] == s'.log[from..i];
    LogKeepsErrors(diagnose, s.held, more, i - from, j - from);
  }

  lemma {:induction false} ChainPrefix(diagnose: Diagnose, h: Held, log: seq<Event>, n: nat)
    requires Chain(diagnose, h, log) && n <= |log|
    ensures Chain(diagnose, h, log[..n])
    decreases log
  {
    if n == |log| {
      assert log[..n] == log;
    } else {
      assert log[..|log| - 1][..n] == log[..n];
      ChainPrefix(diagnose, h, log[..|log| - 1], n);
    }
  }

  // ----- loading -----

  /** A load: the settings that changed between versions, whether the merged configuration has no error that
      rejects it, and whether the file can be written. */
  datatype Load = Load(legacy: Migrations.Legacy, diagnose: Diagnose, usable: bool, writable: bool)

  /** The table as a file of the current version holds it, if it is of an older one. */
  function Migrated(l: Migrations.Legacy, t: Tree): Option<Tree> {
    var stored := Migrations.StoredVersion(l, t);
    if t == EMPTY || stored.None? then None
    else
      var applied := Migrations.Reached(stored.value, Migrations.ConfigMigrations(l));
      if applied == stored.value then None
      else
        var migrated := Migrations.Pending(t, stored.value, Migrations.ConfigMigrations(l));
        Some(Table(migrated.entries[Migrations.VERSION_KEY := Leaf(Int(applied))]))
  }

  /** What a load writes back. */
  ghost function WrittenBack(load: Load, persisted: Tree, t: Tree): Option<Tree> {
    var migrated := Migrated(load.legacy, t);
    if load.usable && load.writable && migrated.Some? && Acceptable(load.diagnose, persisted, migrated.value) then migrated
    else None
  }

  /** A migrated table is of the current version: no load writes twice. */
  lemma MigratedOnce(l: Migrations.Legacy, t: Tree)
    requires Migrations.Sound(l) && Migrated(l, t).Some?
    ensures Migrated(l, Migrated(l, t).value) == None
  {
    assert Migrations.StoredVersion(l, Migrated(l, t).value) == Some(Migrations.CURRENT_VERSION);
  }

  /** What each version leads to: a table that says none has its radii made positive and then its schedule switched on, one
      of version 1 only the latter, and nothing is done to one of version 2, to one that is empty, or to one whose version
      is not known. */
  lemma UpgradedFrom(l: Migrations.Legacy, t: Tree)
    requires Migrations.Sound(l)
    ensures Migrations.VERSION_KEY !in t.entries && t != EMPTY ==>
      Migrated(l, t) == Some(AtCurrent(Migrations.FixSchedule(l, Migrations.FixNegativeBarRadii(l, t))))
    ensures Says(t, 0) ==> Migrated(l, t) == Some(AtCurrent(Migrations.FixSchedule(l, Migrations.FixNegativeBarRadii(l, t))))
    ensures Says(t, 1) ==> Migrated(l, t) == Some(AtCurrent(Migrations.FixSchedule(l, t)))
    ensures t == EMPTY || (exists v :: Says(t, v) && (v < 0 || v >= 2)) ==> Migrated(l, t) == None
  {
    var stored := Migrations.StoredVersion(l, t);
    if t != EMPTY && stored.Some? {
      MigratedFrom(l, t, stored.value);
    }
  }

  lemma MigratedFrom(l: Migrations.Legacy, t: Tree, stored: int)
    requires Migrations.StoredVersion(l, t) == Some(stored) && t != EMPTY
    ensures stored == 0 ==> Migrated(l, t) == Some(AtCurrent(Migrations.FixSchedule(l, Migrations.FixNegativeBarRadii(l, t))))
    ensures stored == 1 ==> Migrated(l, t) == Some(AtCurrent(Migrations.FixSchedule(l, t)))
    ensures stored == 2 ==> Migrated(l, t) == None
  {
    if stored < 2 {
      PendingFrom(l, t, stored);
    }
  }

  lemma PendingFrom(l: Migrations.Legacy, t: Tree, stored: int)
    requires 0 <= stored <= 1
    ensures Migrations.Pending(t, stored, Migrations.ConfigMigrations(l))
         == Migrations.FixSchedule(l, if stored == 0 then Migrations.FixNegativeBarRadii(l, t) else t)
  {
    var ms := Migrations.ConfigMigrations(l);
    assert ms[..1] == [ms[0]] && [ms[0]][..0] == [];
    assert Migrations.Pending(t, stored, []) == t;
    assert Migrations.Pending(t, stored, [ms[0]]) == if stored == 0 then Migrations.FixNegativeBarRadii(l, t) else t;
  }

  /** A load writes back the table as the current version holds it exactly when it is of an older one, the merged
      configuration is usable, the file can be written, and the new table is acceptable after the persisted one. */
  lemma WritesBack(load: Load, persisted: Tree, t: Tree, back: Tree)
    ensures WrittenBack(load, persisted, t) == Some(back)
       <==> Migrated(load.legacy, t) == Some(back) && load.usable && load.writable && Acceptable(load.diagnose, persisted, back)
  {
  }

  /** So a table that says no version is written back with both migrations applied, if all that holds. */
  lemma OldTableIsWrittenBack(load: Load, persisted: Tree, t: Tree)
    requires Migrations.Sound(load.legacy) && Migrations.VERSION_KEY !in t.entries && t != EMPTY && load.usable && load.writable
    ensures var back := AtCurrent(Migrations.FixSchedule(load.legacy, Migrations.FixNegativeBarRadii(load.legacy, t)));
            WrittenBack(load, persisted, t) == if Acceptable(load.diagnose, persisted, back) then Some(back) else None
  {
    UpgradedFrom(load.legacy, t);
  }

  predicate Says(t: Tree, version: int) {
    Migrations.VERSION_KEY in t.entries && t.entries[Migrations.VERSION_KEY] == Leaf(Int(version))
  }

  function AtCurrent(t: Tree): Tree {
    Table(t.entries[Migrations.VERSION_KEY := Leaf(Int(2))])
  }

  method MigrateOverrides(l: Migrations.Legacy, t: Tree) returns (migrated: Option<Tree>)
    ensures migrated == Migrated(l, t)
  {
    if t == EMPTY {
      return None;
    }
    var stored := Migrations.StoredVersion(l, t);
    if stored.None? {
      return None;
    }
    var effective, applied := Migrations.ApplyPendingConfigMigrations(t, stored.value, Migrations.ConfigMigrations(l));
    migrated := if applied != stored.value then Some(Table(effective.entries[Migrations.VERSION_KEY := Leaf(Int(applied))]))
                else None;
  }

  // ----- the service -----

  class ConfigService {
    const overridesPath: string
    var overridesTable: Tree
    var persisted: Tree
    var parseError: string
    var lastMutationError: string
    ghost var log: seq<Event>

    constructor (overridesPath: string)
      ensures this.overridesPath == overridesPath && State() == Store(EMPTY, Held(EMPTY, ""), [])
    {
      this.overridesPath := overridesPath;
      overridesTable, persisted, parseError, lastMutationError, log := EMPTY, EMPTY, "", "", [];
    }

    ghost function State(): Store
      reads this
    {
      Store(overridesTable, Held(persisted, parseError), log)
    }

    method ValidateOverrideMutation(diagnose: Diagnose, candidate: Tree, baseline: Tree) returns (ok: bool)
      modifies this`lastMutationError
      ensures ok <==> parseError == "" && Acceptable(diagnose, baseline, candidate)
    {
      lastMutationError := "";
      if parseError != "" {
        lastMutationError := parseError;
        return false;
      }
      var before, after := diagnose(baseline), diagnose(candidate);
      if before.Failed? {
        lastMutationError := before.what;
        return false;
      }
      if after.Failed? {
        lastMutationError := after.what;
        return false;
      }
      var i := 0;
      while i < |after.entries|
        invariant 0 <= i <= |after.entries| && forall k :: 0 <= k < i ==> !Fatal(after.entries[k])
      {
        if Fatal(after.entries[i]) {
          lastMutationError := after.entries[i].path + ": " + after.entries[i].message;
          return false;
        }
        i := i + 1;
      }
      var introduced := Introduced(after.entries, before.entries);
      if introduced != [] {
        assert introduced[0] in introduced;
        assert introduced[0] in Errors(after) && introduced[0] !in Errors(before);
        lastMutationError := introduced[0].path + ": " + introduced[0].message;
        return false;
      }
      assert forall e <- Errors(after) :: e in before.entries || e in introduced;
      ok := true;
    }

    /** `writable` is whether the table can be formatted and the file replaced. */
    method WriteOverridesToFile(diagnose: Diagnose, writable: bool) returns (ok: bool)
      modifies this
      ensures parseError == old(parseError)
      ensures ok <==> overridesPath != "" && old(parseError) == "" && writable
                      && Acceptable(diagnose, old(persisted), old(overridesTable))
      ensures ok ==> persisted == overridesTable == old(overridesTable) && log == old(log) + [Wrote(persisted)]
      ensures !ok ==> persisted == old(persisted) && log == old(log)
                      && overridesTable == if overridesPath == "" then old(overridesTable) else persisted
    {
      if overridesPath == "" {
        return false;
      }
      ok := ValidateOverrideMutation(diagnose, overridesTable, persisted);
      if !ok {
        overridesTable := persisted;
        return;
      }
      if !writable {
        overridesTable := persisted;
        return false;
      }
      log := log + [Wrote(overridesTable)];
      persisted := overridesTable;
    }

    /** `loadOverridesFromFile`: without a path it finds no file; a file that cannot be parsed leaves an empty table
        in memory and what was persisted before. */
    method LoadOverridesFromFile(file: File)
      requires file.Unparsable? ==> file.error != ""
      modifies this
      ensures var found := if overridesPath == "" then Absent else file;
              && log == old(log) + [Read(found)] && State().held == old(State()).held.After(Read(found))
              && overridesTable == if found.Parsed? then found.table else EMPTY
      ensures State().InSync()
    {
      overridesTable := EMPTY;
      parseError := "";
      log := log + [Read(if overridesPath == "" then Absent else file)];
      if overridesPath == "" || file.Absent? {
        persisted := EMPTY;
        return;
      }
      if file.Unparsable? {
        parseError := file.error;
        return;
      }
      overridesTable := file.table;
      persisted := overridesTable;
    }

    /** The part of `loadAll` that changes the overrides: a file of an older version is migrated and written back. */
    method LoadAll(load: Load)
      modifies this
      ensures Advances(load.diagnose, old(State()), State())
      ensures var back := WrittenBack(load, old(persisted), old(overridesTable));
              State() == if overridesPath != "" && old(parseError) == "" && back.Some?
                         then Store(back.value, Held(back.value, ""), old(log) + [Wrote(back.value)])
                         else old(State())
    {
      NoEvent(load.diagnose, State());
      var needed := MigrateOverrides(load.legacy, overridesTable);
      if needed.None? || !load.usable || parseError != "" {
        return;
      }
      var previousOverrides := overridesTable;
      overridesTable := needed.value;
      var ok := WriteOverridesToFile(load.diagnose, load.writable);
      if ok {
        OneEvent(load.diagnose, old(State()), State(), Wrote(needed.value));
      } else {
        overridesTable := previousOverrides;
      }
    }

    /** The edited table is validated, written and loaded again; when it cannot be, everything stays as it was. */
    method Commit(diagnose: Diagnose, next: Tree, writable: bool, load: Load) returns (ok: bool)
      requires overridesPath != "" && load.diagnose == diagnose
      requires State().InSync()
      modifies this
      ensures Advances(diagnose, old(State()), State())
      ensures ok <==> old(parseError) == "" && writable && Acceptable(diagnose, old(overridesTable), next)
      ensures !ok ==> State() == old(State())
      ensures ok ==> overridesTable == persisted
      ensures ok ==> var back := WrittenBack(load, next, next);
                     log == old(log) + [Wrote(next)] + if back.Some? then [Wrote(back.value)] else []
    {
      NoEvent(diagnose, State());
      ok := ValidateOverrideMutation(diagnose, next, overridesTable);
      if !ok {
        return;
      }
      var previous := overridesTable;
      overridesTable := next;
      ok := WriteOverridesToFile(diagnose, writable);
      if !ok {
        overridesTable := previous;
        return;
      }
      OneEvent(diagnose, old(State()), State(), Wrote(next));
      ghost var between := State();
      LoadAll(load);
      AdvancesAgain(diagnose, old(State()), between, State());
    }

    method TrimAll(env: Settings, start: Tree, overrides: seq<Setting>) returns (next: Tree)
      requires forall k :: 0 <= k < |overrides| ==> overrides[k].0 != []
      ensures next == Fold(Trimmer(env), start, overrides)
    {
      next := start;
      var i := 0;
      while i < |overrides|
        invariant 0 <= i <= |overrides| && next == Fold(Trimmer(env), start, overrides[..i])
      {
        var path := overrides[i].0;
        FoldNext(Trimmer(env), start, overrides, i);
        if !PresenceIsSemantic(path) && !env.effective(path, next) {
          var erased;
          next, erased := EraseOverridePath(next, path, env.preserveDepth(path));
          if Companion(path).Some? {
            next, erased := EraseOverridePath(next, Companion(path).value, env.preserveDepth(path));
          }
        }
        i := i + 1;
      }
      assert overrides[..i] == overrides;
    }

    method SetOverrides(overrides: seq<Setting>, env: Settings, diagnose: Diagnose, writable: bool, load: Load)
      returns (ok: bool, changed: bool)
      requires load.diagnose == diagnose && State().InSync()
      modifies this
      ensures Advances(diagnose, old(State()), State())
      ensures changed ==> ok && overridesTable == persisted
      ensures !changed ==> State() == old(State())
      ensures overridesPath == "" || overrides == [] || (exists k :: 0 <= k < |overrides| && overrides[k].0 == []) ==> !ok
      ensures overridesPath != "" && overrides != [] && (forall k :: 0 <= k < |overrides| ==> overrides[k].0 != []) ==>
        var next := NextBySetting(env, old(overridesTable), overrides);
        if next == old(overridesTable) then ok && !changed
        else
          (ok <==> old(parseError) == "" && writable && Acceptable(diagnose, old(overridesTable), next))
          && (ok ==> changed && old(log) + [Wrote(next)] <= log)
    {
      NoEvent(diagnose, State());
      changed := false;
      if overridesPath == "" || overrides == [] {
        return false, false;
      }
      var next := overridesTable;
      var i := 0;
      while i < |overrides|
        invariant 0 <= i <= |overrides| && State() == old(State())
        invariant forall k :: 0 <= k < i ==> overrides[k].0 != []
        invariant next == Fold(Put, old(overridesTable), overrides[..i])
      {
        if overrides[i].0 == [] {
          return false, false;
        }
        FoldNext(Put, old(overridesTable), overrides, i);
        next := SetAt(next, overrides[i].0, overrides[i].1);
        i := i + 1;
      }
      assert overrides[..i] == overrides;
      next := TrimAll(env, next, overrides);
      if next == overridesTable {
        lastMutationError := "";
        return true, false;
      }
      ok := Commit(diagnose, next, writable, load);
      changed := ok;
    }

    method ClearOverrides(paths: seq<Path>, env: Settings, diagnose: Diagnose, writable: bool, load: Load)
      returns (ok: bool, changed: bool)
      requires load.diagnose == diagnose && State().InSync()
      modifies this
      ensures Advances(diagnose, old(State()), State())
      ensures changed ==> ok && overridesTable == persisted
      ensures !changed ==> State() == old(State())
      ensures overridesPath == "" || [] in paths ==> !ok
      ensures overridesPath != "" && [] !in paths ==>
        var next := NextByClearing(env, old(overridesTable), paths);
        (forall p <- paths :: Get(next, p).None?)
        && if !Found(env, old(overridesTable), paths) then ok && !changed && next == old(overridesTable)
        else
          (ok <==> old(parseError) == "" && writable && Acceptable(diagnose, old(overridesTable), next))
          && (ok ==> changed && old(log) + [Wrote(next)] <= log)
    {
      NoEvent(diagnose, State());
      changed := false;
      if overridesPath == "" {
        return false, false;
      }
      var next := overridesTable;
      var anyChanged := false;
      var i := 0;
      while i < |paths|
        invariant 0 <= i <= |paths| && State() == old(State())
        invariant [] !in paths[..i]
        invariant next == NextByClearing(env, old(overridesTable), paths[..i])
        invariant anyChanged == Found(env, old(overridesTable), paths[..i])
      {
        var path := paths[i];
        assert paths[..i + 1][..i] == paths[..i];
        FoldNext(Clearer(env), old(overridesTable), paths, i);
        if path == [] {
          return false, false;
        }
        var erased;
        next, erased := EraseOverridePath(next, path, env.preserveDepth(path));
        if erased {
          anyChanged := true;
          if Companion(path).Some? {
            next, erased := EraseOverridePath(next, Companion(path).value, env.preserveDepth(path));
          }
        }
        i := i + 1;
      }
      assert paths[..i] == paths;
      forall k | 0 <= k < |paths|
        ensures Get(next, paths[k]).None?
      {
        ClearedPathIsGone(env, old(overridesTable), paths, k, paths[k]);
      }
      if !anyChanged {
        NothingFound(env, old(overridesTable), paths);
        lastMutationError := "";
        return true, false;
      }
      ok := Commit(diagnose, next, writable, load);
      changed := ok;
    }
  }

  // ----- runs -----

  /** An edit, a load because a configuration file changed, or one because the overrides file did. */
  datatype Edit = Set(overrides: seq<Setting>) | Clear(paths: seq<Path>) | Reload | Reread(file: File)

  /** Any edits and loads, one after another, with the configuration files unchanged. */
  method Run(service: ConfigService, edits: seq<Edit>, env: seq<Settings>, writable: seq<bool>, loads: seq<Load>, diagnose: Diagnose)
    requires |env| == |edits| && |writable| == |edits| && |loads| == |edits|
    requires forall i :: 0 <= i < |loads| ==> loads[i].diagnose == diagnose
    requires forall e <- edits :: e.Reread? && e.file.Unparsable? ==> e.file.error != ""
    requires service.State().InSync()
    modifies service
    ensures Advances(diagnose, old(service.State()), service.State())
    ensures service.State().InSync()
  {
    var i := 0;
    NoEvent(diagnose, service.State());
    while i < |edits|
      invariant 0 <= i <= |edits| && Advances(diagnose, old(service.State()), service.State())
    {
      ghost var before := service.State();
      match edits[i] {
        case Set(overrides) => var ok, changed := service.SetOverrides(overrides, env[i], diagnose, writable[i], loads[i]);
        case Clear(paths) => var ok, changed := service.ClearOverrides(paths, env[i], diagnose, writable[i], loads[i]);
        case Reload => service.LoadAll(loads[i]);
        case Reread(file) => Reopen(service, file, loads[i]);
      }
      AdvancesAgain(diagnose, old(service.State()), before, service.State());
      i := i + 1;
    }
  }

  /** The part of `checkReload` for a changed overrides file. */
  method Reopen(service: ConfigService, file: File, load: Load)
    requires file.Unparsable? ==> file.error != ""
    modifies service
    ensures Advances(load.diagnose, old(service.State()), service.State()) && service.State().InSync()
    ensures var found := if service.overridesPath == "" then Absent else file;
            old(service.log) + [Read(found)] <= service.log
            && (found.Unparsable? ==> service.log == old(service.log) + [Read(found)])
  {
    service.LoadOverridesFromFile(file);
    ghost var between := service.State();
    OneEvent(load.diagnose, old(service.State()), between, between.log[|between.log| - 1]);
    service.LoadAll(load);
    AdvancesAgain(load.diagnose, old(service.State()), between, service.State());
  }
}
