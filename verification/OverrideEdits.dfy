/** The tables that edits of the overrides lead to, before they are validated and written. */
module OverrideEdits {
  import opened Wrappers
  import opened Toml
  import opened OverridePaths

  /** `overridePresenceIsSemantic`: the key matters even with the value it would have anyway. */
  predicate PresenceIsSemantic(path: Path) {
    if |path| == 3 && path[0] == "widget" && path[2] == "type" then true
    else |path| == 5 && path[0] == "bar" && path[2] == "monitor" && (path[4] == "start" || path[4] == "center" || path[4] == "end")
  }

  /** It does for the type of a widget and for the three sections of a bar on a monitor. */
  lemma PresenceMatters(path: Path, name: string, monitor: string, section: string)
    ensures PresenceIsSemantic(["widget", name, "type"])
    ensures PresenceIsSemantic(["bar", name, "monitor", monitor, section]) <==> section in {"start", "center", "end"}
    ensures PresenceIsSemantic(path) ==>
      |path| >= 3 && (path == ["widget", path[1], "type"]
                      || (|path| == 5 && path == ["bar", path[1], "monitor", path[3], path[4]]))
  {
  }

  /** The configuration as an edit finds it: which overrides have an effect in a table, and how deep emptied
      tables stay. */
  datatype Settings = Settings(effective: (Path, Tree) -> bool, preserveDepth: Path -> nat)

  function Trimmed(env: Settings, t: Tree, path: Path): Tree {
    if PresenceIsSemantic(path) || env.effective(path, t) then t
    else EraseWithCompanion(t, path, Companion(path), env.preserveDepth(path))
  }

  function Cleared(env: Settings, t: Tree, path: Path): Tree {
    if Get(t, path).None? then t else EraseWithCompanion(t, path, Companion(path), env.preserveDepth(path))
  }

  function Fold<T>(step: (Tree, T) -> Tree, t: Tree, list: seq<T>): Tree {
    if list == [] then t else step(Fold(step, t, list[..|list| - 1]), list[|list| - 1])
  }

  type Setting = (Path, OverrideValue)

  function Put(t: Tree, o: Setting): Tree {
    if o.0 == [] then t else SetAt(t, o.0, o.1)
  }

  function Trimmer(env: Settings): (Tree, Setting) -> Tree {
    (t: Tree, o: Setting) => Trimmed(env, t, o.0)
  }

  /** Every value is set; then those without effect are taken out again. */
  function NextBySetting(env: Settings, t: Tree, overrides: seq<Setting>): Tree {
    Fold(Trimmer(env), Fold(Put, t, overrides), overrides)
  }

  function NextByClearing(env: Settings, t: Tree, paths: seq<Path>): Tree {
    Fold(Clearer(env), t, paths)
  }

  function Clearer(env: Settings): (Tree, Path) -> Tree {
    (t: Tree, p: Path) => Cleared(env, t, p)
  }

  /** One of the paths was there when its turn came. */
  predicate Found(env: Settings, t: Tree, paths: seq<Path>) {
    paths != [] &&
    (Found(env, t, paths[..|paths| - 1]) || Get(NextByClearing(env, t, paths[..|paths| - 1]), paths[|paths| - 1]).Some?)
  }

  lemma FoldNext<T>(step: (Tree, T) -> Tree, t: Tree, list: seq<T>, i: nat)
    requires i < |list|
    ensures Fold(step, t, list[..i + 1]) == step(Fold(step, t, list[..i]), list[i])
  {
    assert list[..i + 1][..i] == list[..i];
  }

  // ----- what clearing one path does -----

  /** Clearing the path leaves this one as it is. */
  predicate ClearingSpares(path: Path, q: Path) {
    Unrelated(path, q) && (Companion(path).Some? ==> Unrelated(Companion(path).value, q))
  }

  /** Clearing the path removes this one. */
  predicate ClearingRemoves(path: Path, q: Path) {
    path <= q || (Companion(path).Some? && Companion(path).value <= q)
  }

  lemma {:induction false} EraseKeepsAbsent(n: Node, path: Path, level: nat, preserve: nat, q: Path)
    requires path != [] && Get(n, q).None?
    ensures Get(Erase(n, path, level, preserve), q).None?
    decreases path
  {
    if n.Table? && path[0] in n.entries && |path| > 1 && q[0] == path[0] {
      EraseKeepsAbsent(n.entries[path[0]], path[1..], level + 1, preserve, q[1..]);
    }
  }

  lemma ClearedStaysAbsent(t: Tree, path: Path, preserve: nat, q: Path)
    requires Get(t, q).None?
    ensures Get(EraseWithCompanion(t, path, Companion(path), preserve), q).None?
  {
    if path != [] {
      EraseKeepsAbsent(t, path, 0, preserve, q);
      if Companion(path).Some? {
        EraseKeepsAbsent(Erase(t, path, 0, preserve), Companion(path).value, 0, preserve, q);
      }
    }
  }

  lemma ClearedIsAbsent(t: Tree, path: Path, preserve: nat, q: Path)
    requires path != [] && ClearingRemoves(path, q)
    ensures Get(EraseWithCompanion(t, path, Companion(path), preserve), q).None?
  {
    var erased := Erase(t, path, 0, preserve);
    if path <= q {
      EraseRemovesBelow(t, path, 0, preserve, q);
      if Companion(path).Some? {
        EraseKeepsAbsent(erased, Companion(path).value, 0, preserve, q);
      }
    } else {
      EraseRemovesBelow(erased, Companion(path).value, 0, preserve, q);
    }
  }

  lemma ClearingKeeps(t: Tree, path: Path, preserve: nat, q: Path)
    requires path != [] && ClearingSpares(path, q)
    ensures Get(EraseWithCompanion(t, path, Companion(path), preserve), q) == Get(t, q)
  {
    EraseKeepsUnrelated(t, path, 0, preserve, q);
    if Companion(path).Some? {
      EraseKeepsUnrelated(Erase(t, path, 0, preserve), Companion(path).value, 0, preserve, q);
    }
  }

  // ----- what setting many paths does -----

  predicate AllNamed(overrides: seq<Setting>) {
    forall k :: 0 <= k < |overrides| ==> overrides[k].0 != []
  }

  /** What a setting puts at a path: its table at its own, the order beside it. */
  function Written(o: Setting, q: Path): Option<Node>
    requires o.0 != []
  {
    if q == o.0 then Some(o.1.Main()) else if OrderPath(o.0, o.1) == Some(q) then Some(o.1.order) else None
  }

  lemma {:induction false} PutsReadBack(t: Tree, overrides: seq<Setting>, n: nat, k: nat, q: Path)
    requires k < n <= |overrides| && AllNamed(overrides) && Written(overrides[k], q).Some?
    requires forall j :: k < j < n ==> Spares(overrides[j].0, overrides[j].1, q)
    ensures Get(Fold(Put, t, overrides[..n]), q) == Written(overrides[k], q)
    decreases n
  {
    var before := Fold(Put, t, overrides[..n - 1]);
    FoldNext(Put, t, overrides, n - 1);
    if k == n - 1 {
      SetReadsBack(before, overrides[k].0, overrides[k].1);
    } else {
      PutsReadBack(t, overrides, n - 1, k, q);
      SetKeepsUnrelated(before, overrides[n - 1].0, overrides[n - 1].1, q);
    }
  }

  lemma {:induction false} PutsSpare(t: Tree, overrides: seq<Setting>, n: nat, q: Path)
    requires n <= |overrides| && AllNamed(overrides)
    requires forall j :: 0 <= j < n ==> Spares(overrides[j].0, overrides[j].1, q)
    ensures Get(Fold(Put, t, overrides[..n]), q) == Get(t, q)
    decreases n
  {
    if n > 0 {
      FoldNext(Put, t, overrides, n - 1);
      PutsSpare(t, overrides, n - 1, q);
      SetKeepsUnrelated(Fold(Put, t, overrides[..n - 1]), overrides[n - 1].0, overrides[n - 1].1, q);
    }
  }

  /** When its turn comes the `j`th path has no effect, and is taken out again. */
  predicate TrimmedAt(env: Settings, start: Tree, overrides: seq<Setting>, j: nat)
    requires j < |overrides|
  {
    var path := overrides[j].0;
    !PresenceIsSemantic(path) && !env.effective(path, Fold(Trimmer(env), start, overrides[..j]))
  }

  lemma {:induction false} TrimsSpare(env: Settings, start: Tree, overrides: seq<Setting>, n: nat, q: Path)
    requires n <= |overrides| && AllNamed(overrides)
    requires forall j :: 0 <= j < n && TrimmedAt(env, start, overrides, j) ==> ClearingSpares(overrides[j].0, q)
    ensures Get(Fold(Trimmer(env), start, overrides[..n]), q) == Get(start, q)
    decreases n
  {
    if n > 0 {
      var path := overrides[n - 1].0;
      FoldNext(Trimmer(env), start, overrides, n - 1);
      TrimsSpare(env, start, overrides, n - 1, q);
      if TrimmedAt(env, start, overrides, n - 1) {
        ClearingKeeps(Fold(Trimmer(env), start, overrides[..n - 1]), path, env.preserveDepth(path), q);
      }
    }
  }

  lemma {:induction false} TrimsRemove(env: Settings, start: Tree, overrides: seq<Setting>, n: nat, j: nat, q: Path)
    requires j < n <= |overrides| && AllNamed(overrides)
    requires TrimmedAt(env, start, overrides, j) && ClearingRemoves(overrides[j].0, q)
    ensures Get(Fold(Trimmer(env), start, overrides[..n]), q).None?
    decreases n
  {
    var path, before := overrides[n - 1].0, Fold(Trimmer(env), start, overrides[..n - 1]);
    FoldNext(Trimmer(env), start, overrides, n - 1);
    if j == n - 1 {
      ClearedIsAbsent(before, path, env.preserveDepth(path), q);
    } else {
      TrimsRemove(env, start, overrides, n - 1, j, q);
      ClearedStaysAbsent(before, path, env.preserveDepth(path), q);
    }
  }

  /** A path without effect once all values are set and those before it are trimmed. */
  ghost predicate TakenOut(env: Settings, t: Tree, overrides: seq<Setting>, j: nat) {
    j < |overrides| && TrimmedAt(env, Fold(Put, t, overrides), overrides, j)
  }

  /** A value that was set, and the order that came with it, is there after the edit, unless a later setting
      overwrites it or a path that matters to it is taken out for having no effect. */
  lemma SetPathReadsBack(env: Settings, t: Tree, overrides: seq<Setting>, k: nat, q: Path)
    requires k < |overrides| && AllNamed(overrides) && Written(overrides[k], q).Some?
    requires forall j :: k < j < |overrides| ==> Spares(overrides[j].0, overrides[j].1, q)
    ensures (forall j: nat :: TakenOut(env, t, overrides, j) ==> ClearingSpares(overrides[j].0, q)) ==>
      Get(NextBySetting(env, t, overrides), q) == Written(overrides[k], q)
  {
    var n, start := |overrides|, Fold(Put, t, overrides);
    assert overrides[..n] == overrides;
    PutsReadBack(t, overrides, n, k, q);
    if forall j: nat :: TakenOut(env, t, overrides, j) ==> ClearingSpares(overrides[j].0, q) {
      forall j | 0 <= j < n && TrimmedAt(env, start, overrides, j)
        ensures ClearingSpares(overrides[j].0, q)
      {
        assert TakenOut(env, t, overrides, j);
      }
      TrimsSpare(env, start, overrides, n, q);
    }
  }

  /** A path taken out is gone after the edit, with all below it, and so is the order that goes with it. */
  lemma TakenOutIsGone(env: Settings, t: Tree, overrides: seq<Setting>, j: nat, q: Path)
    requires AllNamed(overrides) && TakenOut(env, t, overrides, j)
    requires ClearingRemoves(overrides[j].0, q)
    ensures Get(NextBySetting(env, t, overrides), q).None?
  {
    assert overrides[..|overrides|] == overrides;
    TrimsRemove(env, Fold(Put, t, overrides), overrides, |overrides|, j, q);
  }

  /** One setting: its value is found exactly when it has an effect or its mere presence means something. */
  lemma OneSettingReadsBack(env: Settings, t: Tree, path: Path, v: OverrideValue)
    requires path != []
    ensures Get(NextBySetting(env, t, [(path, v)]), path)
         == if PresenceIsSemantic(path) || env.effective(path, SetAt(t, path, v)) then Some(v.Main()) else None
  {
    var overrides: seq<Setting> := [(path, v)];
    var put := Fold(Put, t, overrides);
    FoldNext(Put, t, overrides, 0);
    FoldNext(Trimmer(env), put, overrides, 0);
    assert overrides[..0] == [] && overrides[..1] == overrides;
    SetReadsBack(t, path, v);
    ClearedIsAbsent(put, path, env.preserveDepth(path), path);
  }

  /** What no setting writes and no clearing touches is as it was. */
  lemma SettingKeepsOthers(env: Settings, t: Tree, overrides: seq<Setting>, q: Path)
    requires AllNamed(overrides)
    requires forall j :: 0 <= j < |overrides| ==> Spares(overrides[j].0, overrides[j].1, q) && ClearingSpares(overrides[j].0, q)
    ensures Get(NextBySetting(env, t, overrides), q) == Get(t, q)
  {
    assert overrides[..|overrides|] == overrides;
    PutsSpare(t, overrides, |overrides|, q);
    TrimsSpare(env, Fold(Put, t, overrides), overrides, |overrides|, q);
  }

  // ----- what clearing many paths does -----

  /** A cleared path is gone after the edit, with all below it; the order that goes with it too, if the path was there
      when its turn came. */
  lemma {:induction false} ClearedPathIsGone(env: Settings, t: Tree, paths: seq<Path>, k: nat, q: Path)
    requires k < |paths| && [] !in paths
    requires paths[k] <= q || (ClearingRemoves(paths[k], q) && Get(NextByClearing(env, t, paths[..k]), paths[k]).Some?)
    ensures Get(NextByClearing(env, t, paths), q).None?
    decreases paths
  {
    var n := |paths| - 1;
    var before, path := NextByClearing(env, t, paths[..n]), paths[n];
    if k == n {
      if Get(before, path).Some? {
        ClearedIsAbsent(before, path, env.preserveDepth(path), q);
      } else {
        NothingBelowAbsent(before, path, q);
      }
    } else {
      assert paths[..n][..k] == paths[..k];
      ClearedPathIsGone(env, t, paths[..n], k, q);
      ClearedStaysAbsent(before, path, env.preserveDepth(path), q);
    }
  }

  lemma {:induction false} NothingBelowAbsent(n: Node, path: Path, q: Path)
    requires path <= q && Get(n, path).None?
    ensures Get(n, q).None?
    decreases path
  {
    if n.Table? && path[0] in n.entries {
      assert path[1..] <= q[1..];
      NothingBelowAbsent(n.entries[path[0]], path[1..], q[1..]);
    }
  }

  lemma {:induction false} NothingFound(env: Settings, t: Tree, paths: seq<Path>)
    requires !Found(env, t, paths)
    ensures NextByClearing(env, t, paths) == t
    decreases paths
  {
    if paths != [] {
      NothingFound(env, t, paths[..|paths| - 1]);
    }
  }

  /** What no clearing touches is as it was. */
  lemma {:induction false} ClearingKeepsOthers(env: Settings, t: Tree, paths: seq<Path>, q: Path)
    requires [] !in paths && forall k :: 0 <= k < |paths| ==> ClearingSpares(paths[k], q)
    ensures Get(NextByClearing(env, t, paths), q) == Get(t, q)
    decreases paths
  {
    if paths != [] {
      var n := |paths| - 1;
      var before, path := NextByClearing(env, t, paths[..n]), paths[n];
      assert forall p :: p in paths[..n] ==> p in paths;
      ClearingKeepsOthers(env, t, paths[..n], q);
      assert path in paths;
      ClearingKeeps(before, path, env.preserveDepth(path), q);
    }
  }

  lemma {:induction false} ClearingKeepsAbsent(env: Settings, t: Tree, paths: seq<Path>, q: Path)
    requires Get(t, q).None?
    ensures Get(NextByClearing(env, t, paths), q).None?
    decreases paths
  {
    if paths != [] {
      var n := |paths| - 1;
      ClearingKeepsAbsent(env, t, paths[..n], q);
      ClearedStaysAbsent(NextByClearing(env, t, paths[..n]), paths[n], env.preserveDepth(paths[n]), q);
    }
  }

  /** One of the paths was found exactly when one of them was there at first, and then clearing changes the table. */
  lemma {:induction false} FoundIsChange(env: Settings, t: Tree, paths: seq<Path>)
    requires [] !in paths
    ensures Found(env, t, paths) <==> exists k :: 0 <= k < |paths| && Get(t, paths[k]).Some?
    ensures Found(env, t, paths) <==> NextByClearing(env, t, paths) != t
    decreases paths
  {
    if paths == [] {
      assert NextByClearing(env, t, paths) == t;
    } else {
      var n := |paths| - 1;
      var before := NextByClearing(env, t, paths[..n]);
      FoundIsChange(env, t, paths[..n]);
      if Get(before, paths[n]).Some? && Get(t, paths[n]).None? {
        ClearingKeepsAbsent(env, t, paths[..n], paths[n]);
      }
      if k :| 0 <= k < |paths| && Get(t, paths[k]).Some? {
        ClearedPathIsGone(env, t, paths, k, paths[k]);
        if k < n {
          assert paths[..n][k] == paths[k];
        } else {
          assert !Found(env, t, paths[..n]) ==> before == t;
        }
      }
      if Found(env, t, paths[..n]) {
        var k :| 0 <= k < n && Get(t, paths[..n][k]).Some?;
        assert paths[k] == paths[..n][k];
      }
    }
  }
}
