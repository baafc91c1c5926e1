/** What the include walk loads, and what its merging while it walks amounts to. */
module IncludeProofs {
  import opened Wrappers
  import opened Toml
  import opened Includes

  // ----- the include graph -----

  /** A path of a file that can be parsed opens another. */
  ghost predicate Edge(fs: FileSystem, p: FilePath, q: FilePath) {
    p in fs.parsed && q in fs.parsed && Open(q) in StepsOf(fs, p)
  }

  ghost predicate Chain(fs: FileSystem, c: seq<FilePath>) {
    |c| > 0 && forall i :: 0 <= i < |c| - 1 ==> Edge(fs, c[i], c[i + 1])
  }

  ghost predicate Reaches(fs: FileSystem, p: FilePath, q: FilePath) {
    exists c :: Chain(fs, c) && c[0] == p && c[|c| - 1] == q
  }

  /** By paths among these only, but for the last. */
  ghost predicate ReachesBy(fs: FileSystem, through: seq<FilePath>, p: FilePath, q: FilePath) {
    exists c :: ChainBy(fs, through, c) && c[0] == p && c[|c| - 1] == q
  }

  ghost predicate ChainBy(fs: FileSystem, through: seq<FilePath>, c: seq<FilePath>) {
    Chain(fs, c) && forall i :: 0 <= i < |c| - 1 ==> c[i] in through
  }

  lemma ReachesItself(fs: FileSystem, through: seq<FilePath>, p: FilePath)
    ensures ReachesBy(fs, through, p, p)
  {
    assert ChainBy(fs, through, [p]);
  }

  lemma EdgeThenReaches(fs: FileSystem, through: seq<FilePath>, p: FilePath, q: FilePath, r: FilePath)
    requires Edge(fs, p, q) && p in through && ReachesBy(fs, through, q, r)
    ensures ReachesBy(fs, through, p, r)
  {
    var c :| ChainBy(fs, through, c) && c[0] == q && c[|c| - 1] == r;
    var d := [p] + c;
    forall i | 0 <= i < |d| - 1
      ensures Edge(fs, d[i], d[i + 1]) && d[i] in through
    {
      if i > 0 {
        assert d[i] == c[i - 1] && d[i + 1] == c[i - 1 + 1];
      }
    }
    assert ChainBy(fs, through, d) && d[|d| - 1] == r;
  }

  lemma ReachesByMore(fs: FileSystem, through: seq<FilePath>, more: seq<FilePath>, p: FilePath, q: FilePath)
    requires ReachesBy(fs, through, p, q) && forall x <- through :: x in more
    ensures ReachesBy(fs, more, p, q) && Reaches(fs, p, q)
  {
    var c :| ChainBy(fs, through, c) && c[0] == p && c[|c| - 1] == q;
    assert ChainBy(fs, more, c);
  }

  // ----- what a stretch of the walk keeps -----

  function NewFinished(w: Walk, v: Walk): seq<FilePath> {
    if |w.finished| <= |v.finished| then v.finished[|w.finished|..] else []
  }

  function NewLoaded(w: Walk, v: Walk): seq<Key> {
    if |w.loaded| <= |v.loaded| then v.loaded[|w.loaded|..] else []
  }

  function KeysOf(fs: FileSystem, paths: seq<FilePath>): seq<Key> {
    seq(|paths|, i requires 0 <= i < |paths| => fs.canonical(paths[i]))
  }

  ghost predicate Distinct(s: seq<Key>) {
    forall i, j :: 0 <= i < j < |s| ==> s[i] != s[j]
  }

  /** Every newly visited file is entered once and left once. */
  ghost predicate Accounted(fs: FileSystem, w: Walk, v: Walk) {
    && w.finished <= v.finished && w.loaded <= v.loaded && w.visited <= v.visited
    && Distinct(NewLoaded(w, v)) && (forall k :: k in NewLoaded(w, v) <==> k in v.visited - w.visited)
    && (forall p <- NewFinished(w, v) :: p in fs.parsed)
    && multiset(KeysOf(fs, NewFinished(w, v))) == multiset(NewLoaded(w, v))
  }

  predicate Settled(fs: FileSystem, steps: seq<Step>, visited: set<Key>) {
    forall s <- steps :: s.Open? && s.path in fs.parsed ==> fs.canonical(s.path) in visited
  }

  ghost predicate AllSettled(fs: FileSystem, w: Walk, v: Walk) {
    forall p <- NewFinished(w, v) :: p in fs.parsed && Settled(fs, StepsOf(fs, p), v.visited)
  }

  ghost predicate OpenedBy(fs: FileSystem, steps: seq<Step>, through: seq<FilePath>, p: FilePath) {
    exists s :: s in steps && s.Open? && s.path in fs.parsed && ReachesBy(fs, through, s.path, p)
  }

  /** Every file was left by a path that the steps reach by such paths. */
  ghost predicate OnlyReached(fs: FileSystem, steps: seq<Step>, w: Walk, v: Walk) {
    forall p <- NewFinished(w, v) :: OpenedBy(fs, steps, NewFinished(w, v), p)
  }

  lemma OpenedByMore(fs: FileSystem, steps: seq<Step>, all: seq<Step>, through: seq<FilePath>, more: seq<FilePath>, p: FilePath)
    requires OpenedBy(fs, steps, through, p) && (forall x <- through :: x in more) && forall s <- steps :: s in all
    ensures OpenedBy(fs, all, more, p)
  {
    var s :| s in steps && s.Open? && s.path in fs.parsed && ReachesBy(fs, through, s.path, p);
    ReachesByMore(fs, through, more, s.path, p);
    assert s in all;
  }

  predicate Fine(fs: FileSystem, s: Step) {
    s.Enter? || (s.Open? && s.path in fs.parsed)
  }

  predicate AllFine(fs: FileSystem, steps: seq<Step>) {
    forall s <- steps :: Fine(fs, s)
  }

  /** An error is reported exactly when there was one before or some step taken was not fine. */
  ghost predicate ErrorsReported(fs: FileSystem, steps: seq<Step>, w: Walk, v: Walk) {
    v.firstError.None? <==>
    w.firstError.None? && AllFine(fs, steps)
    && forall p <- NewFinished(w, v) :: p in fs.parsed && AllFine(fs, StepsOf(fs, p))
  }

  ghost predicate Walked(fs: FileSystem, steps: seq<Step>, w: Walk, v: Walk) {
    && Accounted(fs, w, v) && AllSettled(fs, w, v) && Settled(fs, steps, v.visited)
    && OnlyReached(fs, steps, w, v) && ErrorsReported(fs, steps, w, v)
  }

  lemma NewFinishedSplits(w: Walk, u: Walk, v: Walk)
    requires w.finished <= u.finished <= v.finished && w.loaded <= u.loaded <= v.loaded
    ensures NewFinished(w, v) == NewFinished(w, u) + NewFinished(u, v)
    ensures NewLoaded(w, v) == NewLoaded(w, u) + NewLoaded(u, v)
  {
  }

  lemma DistinctJoin(a: seq<Key>, b: seq<Key>)
    requires Distinct(a) && Distinct(b) && forall k :: k in a ==> k !in b
    ensures Distinct(a + b)
  {
    forall i, j | 0 <= i < |a| && 0 <= j < |b|
      ensures a[i] != b[j]
    {
      assert a[i] in a && b[j] in b;
    }
  }

  lemma KeysJoin(fs: FileSystem, a: seq<FilePath>, b: seq<FilePath>)
    ensures KeysOf(fs, a + b) == KeysOf(fs, a) + KeysOf(fs, b)
  {
  }

  lemma AccountedComposes(fs: FileSystem, w: Walk, u: Walk, v: Walk)
    requires Accounted(fs, w, u) && Accounted(fs, u, v)
    ensures Accounted(fs, w, v)
  {
    NewFinishedSplits(w, u, v);
    DistinctJoin(NewLoaded(w, u), NewLoaded(u, v));
    KeysJoin(fs, NewFinished(w, u), NewFinished(u, v));
  }

  lemma WalkedComposes(fs: FileSystem, a: seq<Step>, b: seq<Step>, w: Walk, u: Walk, v: Walk)
    requires Walked(fs, a, w, u) && Walked(fs, b, u, v)
    ensures Walked(fs, a + b, w, v)
  {
    AccountedComposes(fs, w, u, v);
    NewFinishedSplits(w, u, v);
    forall p | p in NewFinished(w, u)
      ensures Settled(fs, StepsOf(fs, p), v.visited)
    {
    }
    OnlyReachedComposes(fs, a, b, w, u, v);
  }

  lemma OnlyReachedComposes(fs: FileSystem, a: seq<Step>, b: seq<Step>, w: Walk, u: Walk, v: Walk)
    requires OnlyReached(fs, a, w, u) && OnlyReached(fs, b, u, v)
    requires NewFinished(w, v) == NewFinished(w, u) + NewFinished(u, v)
    ensures OnlyReached(fs, a + b, w, v)
  {
    forall p | p in NewFinished(w, v)
      ensures OpenedBy(fs, a + b, NewFinished(w, v), p)
    {
      if p in NewFinished(w, u) {
        OpenedByMore(fs, a, a + b, NewFinished(w, u), NewFinished(w, v), p);
      } else {
        OpenedByMore(fs, b, a + b, NewFinished(u, v), NewFinished(w, v), p);
      }
    }
  }

  lemma EmptyWalk(fs: FileSystem, w: Walk)
    ensures Walked(fs, [], w, w)
  {
    assert KeysOf(fs, NewFinished(w, w)) == [];
  }

  /** Entering a file and leaving it put its key first and its path last. */
  lemma FileBrackets(fs: FileSystem, path: FilePath, w: Walk, entered: Walk, after: Walk, v: Walk)
    requires entered.loaded == w.loaded + [fs.canonical(path)] && entered.finished == w.finished
    requires entered.loaded <= after.loaded && entered.finished <= after.finished
    requires v == after.(finished := after.finished + [path])
    ensures w.loaded <= v.loaded && w.finished <= v.finished
    ensures NewLoaded(w, v) == [fs.canonical(path)] + NewLoaded(entered, after)
    ensures NewFinished(w, v) == NewFinished(entered, after) + [path]
    ensures KeysOf(fs, NewFinished(w, v)) == KeysOf(fs, NewFinished(entered, after)) + [fs.canonical(path)]
  {
    assert NewLoaded(w, v) == [fs.canonical(path)] + NewLoaded(entered, after);
    assert NewFinished(w, v) == NewFinished(entered, after) + [path];
    assert KeysOf(fs, NewFinished(w, v)) == KeysOf(fs, NewFinished(entered, after)) + [fs.canonical(path)];
  }

  lemma FileAccounted(fs: FileSystem, path: FilePath, w: Walk, entered: Walk, after: Walk, v: Walk)
    requires path in fs.parsed && fs.canonical(path) !in w.visited
    requires entered == w.(visited := w.visited + {fs.canonical(path)}, loaded := w.loaded + [fs.canonical(path)])
    requires Accounted(fs, entered, after)
    requires v == after.(finished := after.finished + [path])
    ensures Accounted(fs, w, v)
    ensures NewFinished(w, v) == NewFinished(entered, after) + [path]
  {
    var key, inner := fs.canonical(path), NewLoaded(entered, after);
    FileBrackets(fs, path, w, entered, after, v);
    forall i | 0 <= i < |inner|
      ensures inner[i] != key
    {
      assert inner[i] in inner;
    }
  }

  lemma FileReached(fs: FileSystem, path: FilePath, through: seq<FilePath>, p: FilePath)
    requires path in fs.parsed && OpenedBy(fs, StepsOf(fs, path), through, p)
    ensures OpenedBy(fs, [Open(path)], through + [path], p)
  {
    var s :| s in StepsOf(fs, path) && s.Open? && s.path in fs.parsed && ReachesBy(fs, through, s.path, p);
    assert s == Open(s.path);
    ReachesByMore(fs, through, through + [path], s.path, p);
    EdgeThenReaches(fs, through + [path], path, s.path, p);
    assert Open(path) in [Open(path)];
  }

  /** The walk through one file, from the walk through its includes. */
  lemma FileWalked(fs: FileSystem, path: FilePath, w: Walk, entered: Walk, after: Walk, v: Walk)
    requires path in fs.parsed && fs.canonical(path) !in w.visited
    requires entered == w.(visited := w.visited + {fs.canonical(path)}, loaded := w.loaded + [fs.canonical(path)])
    requires Walked(fs, StepsOf(fs, path), entered, after)
    requires v == after.(finished := after.finished + [path])
    ensures Walked(fs, [Open(path)], w, v)
  {
    FileAccounted(fs, path, w, entered, after, v);
    forall p | p in NewFinished(w, v)
      ensures OpenedBy(fs, [Open(path)], NewFinished(w, v), p)
    {
      if p in NewFinished(entered, after) {
        FileReached(fs, path, NewFinished(entered, after), p);
      } else {
        ReachesItself(fs, NewFinished(w, v), path);
        assert Open(path) in [Open(path)];
      }
    }
  }

  lemma {:induction false} ExpandWalks(fs: FileSystem, path: FilePath, w: Walk)
    requires path in fs.parsed
    ensures Walked(fs, [Open(path)], w, Expand(fs, path, w).0)
    decreases Keys(fs) - w.visited, 0
  {
    var key := fs.canonical(path);
    if key in w.visited {
      EmptyWalk(fs, w);
    } else {
      var entered := w.(visited := w.visited + {key}, loaded := w.loaded + [key]);
      assert key in Keys(fs) - w.visited;
      PerformWalks(fs, StepsOf(fs, path), entered, EMPTY);
      var after := Perform(fs, StepsOf(fs, path), entered, EMPTY).0;
      FileWalked(fs, path, w, entered, after, Expand(fs, path, w).0);
    }
  }

  lemma {:induction false} PerformOneWalks(fs: FileSystem, step: Step, w: Walk)
    ensures Walked(fs, [step], w, PerformOne(fs, step, w).0)
    decreases Keys(fs) - w.visited, 1
  {
    if step.Open? && step.path in fs.parsed {
      ExpandWalks(fs, step.path, w);
    } else {
      assert step in [step];
      assert KeysOf(fs, NewFinished(w, PerformOne(fs, step, w).0)) == [];
    }
  }

  /** Every stretch of the walk, on any include graph. */
  lemma {:induction false} PerformWalks(fs: FileSystem, steps: seq<Step>, w: Walk, base: Tree)
    ensures Walked(fs, steps, w, Perform(fs, steps, w, base).0)
    decreases Keys(fs) - w.visited, |steps| + 2
  {
    if steps == [] {
      EmptyWalk(fs, w);
    } else {
      var (next, tree) := PerformOne(fs, steps[0], w);
      PerformOneWalks(fs, steps[0], w);
      PerformWalks(fs, steps[1..], next, Merge(base, tree));
      assert [steps[0]] + steps[1..] == steps;
      WalkedComposes(fs, [steps[0]], steps[1..], w, next, Perform(fs, steps, w, base).0);
    }
  }

  // ----- flattening -----

  /** The bodies of the files, overlaid one after the other. */
  function OverlayAll(fs: FileSystem, base: Tree, paths: seq<FilePath>): Tree {
    if paths == [] then base
    else
      var last := paths[|paths| - 1];
      var below := OverlayAll(fs, base, paths[..|paths| - 1]);
      if last in fs.parsed then Merge(below, Body(fs.parsed[last])) else below
  }

  /** No path is a table in one of these files and a leaf in another. */
  ghost predicate AllCompatible(fs: FileSystem, paths: seq<FilePath>) {
    forall p <- paths, q <- paths :: p in fs.parsed && q in fs.parsed ==> Compatible(Body(fs.parsed[p]), Body(fs.parsed[q]))
  }

  lemma {:induction false} OverlayCompatible(fs: FileSystem, paths: seq<FilePath>, q: FilePath)
    requires q in fs.parsed && forall p <- paths :: p in fs.parsed ==> Compatible(Body(fs.parsed[p]), Body(fs.parsed[q]))
    ensures Compatible(OverlayAll(fs, EMPTY, paths), Body(fs.parsed[q]))
  {
    if paths != [] {
      var last := paths[|paths| - 1];
      assert last in paths && forall p <- paths[..|paths| - 1] :: p in paths;
      OverlayCompatible(fs, paths[..|paths| - 1], q);
      if last in fs.parsed {
        MergeCompatible(OverlayAll(fs, EMPTY, paths[..|paths| - 1]), Body(fs.parsed[last]), Body(fs.parsed[q]));
      }
    }
  }

  /** Merging a flattened tree into a base is overlaying its files on the base. */
  lemma {:induction false} OverlayRebase(fs: FileSystem, base: Tree, paths: seq<FilePath>)
    requires AllCompatible(fs, paths)
    ensures Merge(base, OverlayAll(fs, EMPTY, paths)) == OverlayAll(fs, base, paths)
  {
    if paths == [] {
      EmptyIsIdentity(base);
    } else {
      var init, last := paths[..|paths| - 1], paths[|paths| - 1];
      assert last in paths && forall p <- init :: p in paths;
      OverlayRebase(fs, base, init);
      if last in fs.parsed {
        OverlayCompatible(fs, init, last);
        MergeAssociative(base, OverlayAll(fs, EMPTY, init), Body(fs.parsed[last]));
      }
    }
  }

  lemma {:induction false} OverlayConcat(fs: FileSystem, base: Tree, a: seq<FilePath>, b: seq<FilePath>)
    ensures OverlayAll(fs, OverlayAll(fs, base, a), b) == OverlayAll(fs, base, a + b)
  {
    if b == [] {
      assert a + b == a;
    } else {
      assert (a + b)[..|a + b| - 1] == a + b[..|b| - 1];
      OverlayConcat(fs, base, a, b[..|b| - 1]);
    }
  }

  lemma {:induction false} ExpandFlattens(fs: FileSystem, path: FilePath, w: Walk)
    requires path in fs.parsed && AllCompatible(fs, NewFinished(w, Expand(fs, path, w).0))
    ensures Expand(fs, path, w).1 == OverlayAll(fs, EMPTY, NewFinished(w, Expand(fs, path, w).0))
    decreases Keys(fs) - w.visited, 0
  {
    var key := fs.canonical(path);
    if key !in w.visited {
      var entered := w.(visited := w.visited + {key}, loaded := w.loaded + [key]);
      assert key in Keys(fs) - w.visited;
      PerformWalks(fs, StepsOf(fs, path), entered, EMPTY);
      var after := Perform(fs, StepsOf(fs, path), entered, EMPTY).0;
      FileAccounted(fs, path, w, entered, after, Expand(fs, path, w).0);
      var inner := NewFinished(entered, after);
      CompatibleParts(fs, inner, [path]);
      PerformFlattens(fs, StepsOf(fs, path), entered, EMPTY);
      assert (inner + [path])[..|inner|] == inner;
    }
  }

  lemma {:induction false} PerformOneFlattens(fs: FileSystem, step: Step, w: Walk)
    requires AllCompatible(fs, NewFinished(w, PerformOne(fs, step, w).0))
    ensures PerformOne(fs, step, w).1 == OverlayAll(fs, EMPTY, NewFinished(w, PerformOne(fs, step, w).0))
    decreases Keys(fs) - w.visited, 1
  {
    if step.Open? && step.path in fs.parsed {
      ExpandFlattens(fs, step.path, w);
    }
  }

  lemma CompatibleParts(fs: FileSystem, a: seq<FilePath>, b: seq<FilePath>)
    requires AllCompatible(fs, a + b)
    ensures AllCompatible(fs, a) && AllCompatible(fs, b)
  {
    assert (forall p <- a :: p in a + b) && forall p <- b :: p in a + b;
  }

  /** Merging while walking is overlaying the bodies in the order the files are left. */
  lemma {:induction false} PerformFlattens(fs: FileSystem, steps: seq<Step>, w: Walk, base: Tree)
    requires AllCompatible(fs, NewFinished(w, Perform(fs, steps, w, base).0))
    ensures Perform(fs, steps, w, base).1 == OverlayAll(fs, base, NewFinished(w, Perform(fs, steps, w, base).0))
    decreases Keys(fs) - w.visited, |steps| + 2
  {
    if steps != [] {
      var (next, tree) := PerformOne(fs, steps[0], w);
      var end := Perform(fs, steps, w, base).0;
      PerformOneWalks(fs, steps[0], w);
      PerformWalks(fs, steps[1..], next, Merge(base, tree));
      NewFinishedSplits(w, next, end);
      var here, later := NewFinished(w, next), NewFinished(next, end);
      CompatibleParts(fs, here, later);
      PerformOneFlattens(fs, steps[0], w);
      PerformFlattens(fs, steps[1..], next, Merge(base, tree));
      OverlayRebase(fs, base, here);
      OverlayConcat(fs, base, here, later);
    }
  }

  lemma {:induction false} ExpandHasNoInclude(fs: FileSystem, path: FilePath, w: Walk)
    requires path in fs.parsed
    ensures "include" !in Expand(fs, path, w).1.entries
    decreases Keys(fs) - w.visited, 0
  {
    var key := fs.canonical(path);
    if key !in w.visited {
      assert key in Keys(fs) - w.visited;
      PerformHasNoInclude(fs, StepsOf(fs, path), w.(visited := w.visited + {key}, loaded := w.loaded + [key]), EMPTY);
    }
  }

  lemma {:induction false} PerformHasNoInclude(fs: FileSystem, steps: seq<Step>, w: Walk, base: Tree)
    requires "include" !in base.entries
    ensures "include" !in Perform(fs, steps, w, base).1.entries
    decreases Keys(fs) - w.visited, |steps| + 2
  {
    if steps != [] {
      var (next, tree) := PerformOne(fs, steps[0], w);
      if steps[0].Open? && steps[0].path in fs.parsed {
        ExpandHasNoInclude(fs, steps[0].path, w);
      }
      PerformHasNoInclude(fs, steps[1..], next, Merge(base, tree));
    }
  }

  // ----- the main results -----

  lemma {:induction false} OpensAre(paths: seq<FilePath>, s: Step)
    ensures s in Opens(paths) <==> s.Open? && s.path in paths
  {
    if paths != [] {
      OpensAre(paths[..|paths| - 1], s);
    }
  }

  lemma {:induction false} LoadSetIs(fs: FileSystem, roots: seq<FilePath>, anyOptOut: bool, p: FilePath)
    ensures p in LoadSet(fs, roots, anyOptOut)
            <==> p in roots && (anyOptOut ==> p in fs.parsed && OptsOut(fs.parsed[p]))
  {
    if roots != [] {
      LoadSetIs(fs, roots[..|roots| - 1], anyOptOut, p);
    }
  }

  lemma {:induction false} ParseableIs(fs: FileSystem, paths: seq<FilePath>, p: FilePath)
    ensures p in Parseable(fs, paths) <==> p in paths && p in fs.parsed
  {
    if paths != [] {
      ParseableIs(fs, paths[..|paths| - 1], p);
    }
  }

  /** A root that is loaded: every parseable one, or only those with `autoload = false` when one has it. */
  ghost predicate IsLoadedRoot(fs: FileSystem, paths: seq<FilePath>, p: FilePath) {
    && p in paths && p in fs.parsed
    && ((exists q :: q in paths && q in fs.parsed && OptsOut(fs.parsed[q])) ==> OptsOut(fs.parsed[p]))
  }

  lemma LoadedRootsAre(fs: FileSystem, paths: seq<FilePath>, p: FilePath)
    ensures var roots := Parseable(fs, paths);
            Open(p) in Opens(LoadSet(fs, roots, AnyOptsOut(fs, roots))) <==> IsLoadedRoot(fs, paths, p)
  {
    var roots := Parseable(fs, paths);
    OpensAre(LoadSet(fs, roots, AnyOptsOut(fs, roots)), Open(p));
    LoadSetIs(fs, roots, AnyOptsOut(fs, roots), p);
    ParseableIs(fs, paths, p);
    if q :| q in paths && q in fs.parsed && OptsOut(fs.parsed[q]) {
      ParseableIs(fs, paths, q);
      var i :| 0 <= i < |roots| && roots[i] == q;
      assert AnyOptsOut(fs, roots);
    }
    if AnyOptsOut(fs, roots) {
      var i :| 0 <= i < |roots| && roots[i] in fs.parsed && OptsOut(fs.parsed[roots[i]]);
      ParseableIs(fs, paths, roots[i]);
      assert roots[i] in roots;
    }
  }

  function RootSteps(fs: FileSystem, paths: seq<FilePath>): seq<Step> {
    var roots := Parseable(fs, paths);
    Opens(LoadSet(fs, roots, AnyOptsOut(fs, roots)))
  }

  lemma MergeConfigWalks(fs: FileSystem, paths: seq<FilePath>) returns (start: Walk)
    ensures start == START.(firstError := FirstParseError(fs, paths))
    ensures MergeConfig(fs, paths) == Perform(fs, RootSteps(fs, paths), start, EMPTY)
    ensures Walked(fs, RootSteps(fs, paths), start, MergeConfig(fs, paths).0)
    ensures NewFinished(start, MergeConfig(fs, paths).0) == MergeConfig(fs, paths).0.finished
    ensures NewLoaded(start, MergeConfig(fs, paths).0) == MergeConfig(fs, paths).0.loaded
  {
    start := START.(firstError := FirstParseError(fs, paths));
    PerformWalks(fs, RootSteps(fs, paths), start, EMPTY);
  }

  /** Every file is loaded at most once, whatever the include graph, and left exactly when it was loaded. */
  lemma LoadedAtMostOnce(fs: FileSystem, paths: seq<FilePath>)
    ensures var w := MergeConfig(fs, paths).0;
            Distinct(w.loaded) && (forall k :: k in w.loaded <==> k in w.visited)
            && multiset(KeysOf(fs, w.finished)) == multiset(w.loaded)
  {
    var start := MergeConfigWalks(fs, paths);
  }

  /** For kind-compatible files the merged configuration is one left fold of the bodies in finishing order;
      it never has a top-level `include`. */
  lemma MergeConfigFlattens(fs: FileSystem, paths: seq<FilePath>)
    ensures AllCompatible(fs, MergeConfig(fs, paths).0.finished) ==>
      MergeConfig(fs, paths).1 == OverlayAll(fs, EMPTY, MergeConfig(fs, paths).0.finished)
    ensures "include" !in MergeConfig(fs, paths).1.entries
  {
    var start := MergeConfigWalks(fs, paths);
    PerformHasNoInclude(fs, RootSteps(fs, paths), start, EMPTY);
    if AllCompatible(fs, MergeConfig(fs, paths).0.finished) {
      PerformFlattens(fs, RootSteps(fs, paths), start, EMPTY);
    }
  }

  /** A path that the loaded roots reach. */
  ghost predicate ReachedFromRoots(fs: FileSystem, paths: seq<FilePath>, q: FilePath) {
    exists p :: IsLoadedRoot(fs, paths, p) && Reaches(fs, p, q)
  }

  ghost predicate ReachedKey(fs: FileSystem, paths: seq<FilePath>, k: Key) {
    exists q :: q in fs.parsed && fs.canonical(q) == k && ReachedFromRoots(fs, paths, q)
  }

  /** Two reached paths of one file open the same files; it fails when a link moves a relative include. */
  ghost predicate CoherentAliases(fs: FileSystem, paths: seq<FilePath>) {
    forall p, q, r ::
      ReachedFromRoots(fs, paths, p) && ReachedFromRoots(fs, paths, q) && fs.canonical(p) == fs.canonical(q) && Edge(fs, p, r)
      ==> OpensKey(fs, q, fs.canonical(r))
  }

  ghost predicate OpensKey(fs: FileSystem, p: FilePath, k: Key) {
    exists r :: Edge(fs, p, r) && fs.canonical(r) == k
  }

  lemma FinishedPathOf(fs: FileSystem, start: Walk, w: Walk, k: Key) returns (p: FilePath)
    requires Accounted(fs, start, w) && k in w.visited - start.visited
    ensures p in NewFinished(start, w) && fs.canonical(p) == k
  {
    var keys := KeysOf(fs, NewFinished(start, w));
    assert k in multiset(NewLoaded(start, w)) && k in keys;
    var i :| 0 <= i < |keys| && keys[i] == k;
    p := NewFinished(start, w)[i];
  }

  /** The loaded roots reach it by paths that files were loaded from. */
  ghost predicate ReachedByLoaded(fs: FileSystem, paths: seq<FilePath>, q: FilePath) {
    exists p :: IsLoadedRoot(fs, paths, p) && ReachesBy(fs, MergeConfig(fs, paths).0.finished, p, q)
  }

  lemma FinishedIsReached(fs: FileSystem, paths: seq<FilePath>, p: FilePath)
    requires p in MergeConfig(fs, paths).0.finished
    ensures p in fs.parsed && ReachedFromRoots(fs, paths, p) && ReachedByLoaded(fs, paths, p)
  {
    var finished := MergeConfig(fs, paths).0.finished;
    var start := MergeConfigWalks(fs, paths);
    assert OpenedBy(fs, RootSteps(fs, paths), finished, p);
    var s :| s in RootSteps(fs, paths) && s.Open? && s.path in fs.parsed && ReachesBy(fs, finished, s.path, p);
    assert s == Open(s.path);
    LoadedRootsAre(fs, paths, s.path);
    ReachesByMore(fs, finished, finished, s.path, p);
  }

  lemma OpenedIsLoaded(fs: FileSystem, paths: seq<FilePath>, p: FilePath, k: Key)
    requires p in MergeConfig(fs, paths).0.finished && OpensKey(fs, p, k)
    ensures k in MergeConfig(fs, paths).0.visited
  {
    var start := MergeConfigWalks(fs, paths);
    var r :| Edge(fs, p, r) && fs.canonical(r) == k;
    assert Open(r) in StepsOf(fs, p) && Open(r).Open? && Open(r).path == r;
  }

  lemma ChainExtends(fs: FileSystem, paths: seq<FilePath>, c: seq<FilePath>, i: nat)
    requires Chain(fs, c) && i < |c| && IsLoadedRoot(fs, paths, c[0])
    ensures ReachedFromRoots(fs, paths, c[i])
  {
    assert Chain(fs, c[..i + 1]);
    assert Reaches(fs, c[0], c[i]);
  }

  lemma {:induction false} ChainIsLoaded(fs: FileSystem, paths: seq<FilePath>, c: seq<FilePath>, i: nat)
    requires CoherentAliases(fs, paths) && Chain(fs, c) && i < |c| && IsLoadedRoot(fs, paths, c[0])
    ensures c[i] in fs.parsed && fs.canonical(c[i]) in MergeConfig(fs, paths).0.visited
  {
    var start := MergeConfigWalks(fs, paths);
    if i == 0 {
      LoadedRootsAre(fs, paths, c[0]);
      assert Open(c[0]) in RootSteps(fs, paths) && Open(c[0]).Open? && Open(c[0]).path == c[0];
    } else {
      var p, r := c[i - 1], c[i];
      ChainIsLoaded(fs, paths, c, i - 1);
      assert Edge(fs, c[i - 1], c[i - 1 + 1]);
      var f := FinishedPathOf(fs, start, MergeConfig(fs, paths).0, fs.canonical(p));
      FinishedIsReached(fs, paths, f);
      ChainExtends(fs, paths, c, i - 1);
      OpenedIsLoaded(fs, paths, f, fs.canonical(r));
    }
  }

  lemma ChainByLoaded(fs: FileSystem, paths: seq<FilePath>, c: seq<FilePath>, i: nat)
    requires ChainBy(fs, MergeConfig(fs, paths).0.finished, c) && i < |c| && IsLoadedRoot(fs, paths, c[0])
    ensures c[i] in fs.parsed && fs.canonical(c[i]) in MergeConfig(fs, paths).0.visited
  {
    var start := MergeConfigWalks(fs, paths);
    if i == 0 {
      LoadedRootsAre(fs, paths, c[0]);
      assert Open(c[0]) in RootSteps(fs, paths) && Open(c[0]).Open? && Open(c[0]).path == c[0];
    } else {
      assert Edge(fs, c[i - 1], c[i - 1 + 1]);
      OpenedIsLoaded(fs, paths, c[i - 1], fs.canonical(c[i]));
    }
  }

  /** On every include graph the files loaded are exactly those that the loaded roots reach by paths that files were
      loaded from. */
  lemma LoadedThroughLoaded(fs: FileSystem, paths: seq<FilePath>, k: Key)
    ensures k in MergeConfig(fs, paths).0.visited
            <==> exists q :: q in fs.parsed && fs.canonical(q) == k && ReachedByLoaded(fs, paths, q)
  {
    var w := MergeConfig(fs, paths).0;
    var start := MergeConfigWalks(fs, paths);
    if k in w.visited {
      var f := FinishedPathOf(fs, start, w, k);
      FinishedIsReached(fs, paths, f);
    }
    if q :| q in fs.parsed && fs.canonical(q) == k && ReachedByLoaded(fs, paths, q) {
      var p :| IsLoadedRoot(fs, paths, p) && ReachesBy(fs, w.finished, p, q);
      var c :| ChainBy(fs, w.finished, c) && c[0] == p && c[|c| - 1] == q;
      ChainByLoaded(fs, paths, c, |c| - 1);
    }
  }

  /** Nothing is loaded that the loaded roots do not reach, and, when the reached aliases are coherent, all of it is. */
  lemma LoadedIsExactlyReachable(fs: FileSystem, paths: seq<FilePath>, k: Key)
    ensures k in MergeConfig(fs, paths).0.visited ==> ReachedKey(fs, paths, k)
    ensures CoherentAliases(fs, paths) && ReachedKey(fs, paths, k) ==> k in MergeConfig(fs, paths).0.visited
  {
    var w := MergeConfig(fs, paths).0;
    var start := MergeConfigWalks(fs, paths);
    if k in w.visited {
      var f := FinishedPathOf(fs, start, w, k);
      FinishedIsReached(fs, paths, f);
    }
    if CoherentAliases(fs, paths) && ReachedKey(fs, paths, k) {
      var q :| q in fs.parsed && fs.canonical(q) == k && ReachedFromRoots(fs, paths, q);
      var p :| IsLoadedRoot(fs, paths, p) && Reaches(fs, p, q);
      var c :| Chain(fs, c) && c[0] == p && c[|c| - 1] == q;
      ChainIsLoaded(fs, paths, c, |c| - 1);
    }
  }

  // ----- a link that hides an include -----

  function StringNodes(files: seq<string>): (nodes: seq<Node>)
    ensures |nodes| == |files|
  {
    if files == [] then [] else StringNodes(files[..|files| - 1]) + [Leaf(Str(files[|files| - 1]))]
  }

  function Including(files: seq<string>): Tree {
    Table(map["include" := Table(map["files" := Leaf(Arr(StringNodes(files)))])])
  }

  lemma {:induction false} StringsOfNodes(files: seq<string>)
    ensures Strings(StringNodes(files)) == files
  {
    if files != [] {
      StringsOfNodes(files[..|files| - 1]);
      assert StringNodes(files)[..|files| - 1] == StringNodes(files[..|files| - 1]);
    }
  }

  lemma IncludingDirects(files: seq<string>)
    ensures Directive(Including(files)) == IncludeDirective(files, true, false)
  {
    StringsOfNodes(files);
  }

  function RootTargets(direct: bool): seq<FilePath> {
    ["f", "g"] + if direct then ["t"] else []
  }

  /** `f` and `g` are one file in two directories by a link; its include `e` is `s` beside `f` and `t` beside `g`.
      The root `r` includes `f` and `g`, and `t` itself or not. */
  function Linked(direct: bool): FileSystem {
    FileSystem(map["r" := Including(RootTargets(direct)),
                   "f" := Including(["e"]), "g" := Including(["e"]), "s" := EMPTY, "t" := EMPTY],
               p => if p == "g" then "f" else p,
               (from: FilePath, entry: string) =>
                 File(if entry != "e" then entry else if from == "f" then "s" else "t"))
  }

  lemma {:induction false} FileSteps(fs: FileSystem, from: FilePath, entries: seq<string>, targets: seq<FilePath>)
    requires |entries| == |targets| && forall i :: 0 <= i < |entries| ==> fs.resolve(from, entries[i]) == File(targets[i])
    ensures Steps(fs, from, entries) == Opens(targets)
    decreases entries
  {
    if entries != [] {
      FileSteps(fs, from, entries[..|entries| - 1], targets[..|targets| - 1]);
    }
  }

  /** What there is to know of these files. */
  ghost predicate IsLinked(fs: FileSystem, direct: bool) {
    && fs.parsed.Keys == {"r", "f", "g", "s", "t"}
    && StepsOf(fs, "r") == Opens(RootTargets(direct))
    && StepsOf(fs, "f") == Opens(["s"]) && StepsOf(fs, "g") == Opens(["t"])
    && StepsOf(fs, "s") == [] && StepsOf(fs, "t") == []
    && fs.parsed["f"] == fs.parsed["g"] && fs.canonical("g") == "f"
    && forall p <- fs.parsed :: p != "g" ==> fs.canonical(p) == p
  }

  lemma IncludingOpens(fs: FileSystem, path: FilePath, files: seq<string>, targets: seq<FilePath>)
    requires path in fs.parsed && fs.parsed[path] == Including(files) && |files| == |targets|
    requires forall i :: 0 <= i < |files| ==> fs.resolve(path, files[i]) == File(targets[i])
    ensures StepsOf(fs, path) == Opens(targets)
  {
    IncludingDirects(files);
    FileSteps(fs, path, files, targets);
  }

  lemma EmptyOpensNothing(fs: FileSystem, path: FilePath)
    requires path in fs.parsed && fs.parsed[path] == EMPTY
    ensures StepsOf(fs, path) == []
  {
  }

  /** The files themselves. */
  ghost predicate HasLinkedFiles(fs: FileSystem, direct: bool) {
    && fs.parsed.Keys == {"r", "f", "g", "s", "t"}
    && fs.parsed["r"] == Including(RootTargets(direct)) && fs.parsed["f"] == fs.parsed["g"] == Including(["e"])
    && fs.parsed["s"] == fs.parsed["t"] == EMPTY
  }

  ghost predicate ResolvesLinks(fs: FileSystem) {
    && fs.resolve("f", "e") == File("s") && fs.resolve("g", "e") == File("t")
    && forall entry :: entry != "e" ==> fs.resolve("r", entry) == File(entry)
  }

  ghost predicate KeysOfLinks(fs: FileSystem) {
    fs.canonical("g") == "f" && forall p :: p != "g" ==> fs.canonical(p) == p
  }

  lemma LinkedHas(direct: bool) returns (fs: FileSystem)
    ensures fs == Linked(direct) && HasLinkedFiles(fs, direct) && ResolvesLinks(fs) && KeysOfLinks(fs)
  {
    fs := Linked(direct);
  }

  lemma RootOpens(fs: FileSystem, direct: bool)
    requires HasLinkedFiles(fs, direct) && ResolvesLinks(fs)
    ensures StepsOf(fs, "r") == Opens(RootTargets(direct))
  {
    IncludingOpens(fs, "r", RootTargets(direct), RootTargets(direct));
  }

  lemma AliasesOpen(fs: FileSystem, direct: bool)
    requires HasLinkedFiles(fs, direct) && ResolvesLinks(fs)
    ensures StepsOf(fs, "f") == Opens(["s"]) && StepsOf(fs, "g") == Opens(["t"])
    ensures StepsOf(fs, "s") == [] && StepsOf(fs, "t") == []
  {
    IncludingOpens(fs, "f", ["e"], ["s"]);
    IncludingOpens(fs, "g", ["e"], ["t"]);
    EmptyOpensNothing(fs, "s");
    EmptyOpensNothing(fs, "t");
  }

  lemma LinkedFiles(direct: bool) returns (fs: FileSystem)
    ensures fs == Linked(direct) && IsLinked(fs, direct)
  {
    fs := LinkedHas(direct);
    RootOpens(fs, direct);
    AliasesOpen(fs, direct);
  }

  lemma PerformOpens(fs: FileSystem, paths: seq<FilePath>, path: FilePath, w: Walk, base: Tree)
    ensures Perform(fs, Opens(paths + [path]), w, base).0 == PerformOne(fs, Open(path), Perform(fs, Opens(paths), w, base).0).0
  {
    assert (paths + [path])[..|paths|] == paths;
    PerformOneMore(fs, Opens(paths), Open(path), w, base);
  }

  lemma OpensOne(fs: FileSystem, path: FilePath, w: Walk, base: Tree)
    ensures Perform(fs, Opens([path]), w, base).0 == PerformOne(fs, Open(path), w).0
  {
    PerformOpens(fs, [], path, w, base);
    assert [] + [path] == [path];
  }

  /** A file that opens nothing. */
  lemma LeafVisits(fs: FileSystem, path: FilePath, w: Walk)
    requires path in fs.parsed && StepsOf(fs, path) == []
    ensures Expand(fs, path, w).0.visited == w.visited + {fs.canonical(path)}
  {
  }

  /** A file that opens one file that opens nothing. */
  lemma HostVisits(fs: FileSystem, path: FilePath, target: FilePath, w: Walk)
    requires path in fs.parsed && target in fs.parsed && fs.canonical(path) !in w.visited
    requires StepsOf(fs, path) == Opens([target]) && StepsOf(fs, target) == []
    ensures Expand(fs, path, w).0.visited == w.visited + {fs.canonical(path), fs.canonical(target)}
  {
    var key := fs.canonical(path);
    var entered := w.(visited := w.visited + {key}, loaded := w.loaded + [key]);
    OpensOne(fs, target, entered, EMPTY);
    LeafVisits(fs, target, entered);
  }

  lemma LinkedRootVisits(fs: FileSystem, direct: bool, w: Walk)
    requires IsLinked(fs, direct) && w.visited == {}
    ensures Expand(fs, "r", w).0.visited == {"r", "f", "s"} + if direct then {"t"} else {}
  {
    var both := ["f", "g"];
    var entered := w.(visited := w.visited + {"r"}, loaded := w.loaded + ["r"]);
    OpensOne(fs, "f", entered, EMPTY);
    HostVisits(fs, "f", "s", entered);
    PerformOpens(fs, ["f"], "g", entered, EMPTY);
    assert ["f"] + ["g"] == both;
    var after := Perform(fs, Opens(both), entered, EMPTY).0;
    assert after.visited == {"r", "f", "s"};
    if direct {
      PerformOpens(fs, both, "t", entered, EMPTY);
      LeafVisits(fs, "t", after);
    } else {
      assert both + [] == both;
    }
  }

  lemma OneRoot(fs: FileSystem, root: FilePath)
    requires root in fs.parsed
    ensures RootSteps(fs, [root]) == Opens([root])
  {
    var roots := Parseable(fs, [root]);
    assert [root][..0] == [] && Parseable(fs, []) == [];
    assert roots == [root];
    var any := AnyOptsOut(fs, roots);
    assert any ==> OptsOut(fs.parsed[root]);
    assert roots[..0] == [] && LoadSet(fs, [], any) == [];
    assert LoadSet(fs, roots, any) == [root];
  }

  lemma LinkedVisits(fs: FileSystem, direct: bool)
    requires IsLinked(fs, direct)
    ensures MergeConfig(fs, ["r"]).0.visited == {"r", "f", "s"} + if direct then {"t"} else {}
  {
    var start := MergeConfigWalks(fs, ["r"]);
    OneRoot(fs, "r");
    OpensOne(fs, "r", start, EMPTY);
    LinkedRootVisits(fs, direct, start);
  }

  lemma LinkedReaches(fs: FileSystem, direct: bool)
    requires IsLinked(fs, direct)
    ensures ReachedFromRoots(fs, ["r"], "f") && ReachedFromRoots(fs, ["r"], "g") && ReachedFromRoots(fs, ["r"], "t")
    ensures Edge(fs, "g", "t")
  {
    OpensAre(RootTargets(direct), Open("f"));
    OpensAre(RootTargets(direct), Open("g"));
    OpensAre(["t"], Open("t"));
    assert IsLoadedRoot(fs, ["r"], "r");
    var toX, toY := ["r", "f"], ["r", "g", "t"];
    assert Chain(fs, toX) && Chain(fs, toY);
    ChainExtends(fs, ["r"], toX, 1);
    ChainExtends(fs, ["r"], toY, 1);
    ChainExtends(fs, ["r"], toY, 2);
  }

  lemma LinkedIsIncoherent(fs: FileSystem, direct: bool)
    requires IsLinked(fs, direct)
    ensures !CoherentAliases(fs, ["r"])
  {
    LinkedReaches(fs, direct);
    if r :| Edge(fs, "f", r) && fs.canonical(r) == "t" {
      OpensAre(["s"], Open(r));
    }
    assert !OpensKey(fs, "f", "t");
  }

  lemma NotAmong(visited: set<Key>)
    requires visited == {"r", "f", "s"}
    ensures "t" !in visited
  {
    assert "t"[0] != "r"[0] && "t"[0] != "f"[0] && "t"[0] != "s"[0];
  }

  lemma HiddenByLink(fs: FileSystem)
    requires IsLinked(fs, false)
    ensures "t" !in MergeConfig(fs, ["r"]).0.visited
  {
    var visited := MergeConfig(fs, ["r"]).0.visited;
    LinkedVisits(fs, false);
    assert visited == {"r", "f", "s"};
    NotAmong(visited);
  }

  lemma ReachedThroughLink(fs: FileSystem, direct: bool)
    requires IsLinked(fs, direct)
    ensures ReachedKey(fs, ["r"], "t")
  {
    LinkedReaches(fs, direct);
    assert fs.canonical("t") == "t";
  }

  /** One file, reached by two paths with the same content, includes different files from each: the second path is
      passed over with its include. */
  lemma LinkHidesAnInclude() returns (fs: FileSystem)
    ensures "f" in fs.parsed && "g" in fs.parsed && fs.parsed["f"] == fs.parsed["g"] && fs.canonical("f") == fs.canonical("g")
    ensures ReachedKey(fs, ["r"], "t") && "t" !in MergeConfig(fs, ["r"]).0.visited
  {
    fs := LinkedFiles(false);
    HiddenByLink(fs);
    ReachedThroughLink(fs, false);
    assert fs.canonical("f") == "f";
  }

  lemma LinkedKeys(fs: FileSystem, k: Key)
    requires IsLinked(fs, true) && ReachedKey(fs, ["r"], k)
    ensures k in MergeConfig(fs, ["r"]).0.visited
  {
    LinkedVisits(fs, true);
    var q :| q in fs.parsed && fs.canonical(q) == k && ReachedFromRoots(fs, ["r"], q);
    assert q in fs.parsed.Keys;
  }

  /** Coherence is not needed: what one path of a file hides may be loaded by another way. */
  lemma IncoherentButLoaded(k: Key) returns (fs: FileSystem)
    ensures fs == Linked(true) && !CoherentAliases(fs, ["r"])
    ensures ReachedKey(fs, ["r"], k) ==> k in MergeConfig(fs, ["r"]).0.visited
  {
    fs := LinkedFiles(true);
    LinkedIsIncoherent(fs, true);
    if ReachedKey(fs, ["r"], k) {
      LinkedKeys(fs, k);
    }
  }

  lemma {:induction false} FirstParseErrorIs(fs: FileSystem, paths: seq<FilePath>)
    ensures FirstParseError(fs, paths).None? <==> forall p <- paths :: p in fs.parsed
  {
    if paths != [] {
      assert paths == paths[..|paths| - 1] + [paths[|paths| - 1]];
      FirstParseErrorIs(fs, paths[..|paths| - 1]);
    }
  }

  /** No error is reported exactly when every root parses and every include of every loaded file is found and parses. */
  lemma ErrorExactlyWhenSomethingIsMissing(fs: FileSystem, paths: seq<FilePath>)
    ensures var w := MergeConfig(fs, paths).0;
            w.firstError.None?
            <==> (forall p <- paths :: p in fs.parsed)
                 && forall p <- w.finished :: p in fs.parsed && AllFine(fs, StepsOf(fs, p))
  {
    var start := MergeConfigWalks(fs, paths);
    FirstParseErrorIs(fs, paths);
    forall s | s in RootSteps(fs, paths)
      ensures Fine(fs, s)
    {
      OpensAre(LoadSet(fs, Parseable(fs, paths), AnyOptsOut(fs, Parseable(fs, paths))), s);
      LoadedRootsAre(fs, paths, s.path);
    }
  }
}
