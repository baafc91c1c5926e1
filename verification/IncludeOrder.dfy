/** What an `[include]` table says, and the order in which a file and its includes are merged. */
module IncludeOrder {
  import opened Wrappers
  import opened Toml
  import opened Includes
  import opened IncludeProofs

  // ----- the [include] table -----

  predicate Says(t: Tree, key: string, n: Node) {
    Get(t, ["include", key]) == Some(n)
  }

  lemma SaysIs(t: Tree, key: string, n: Node)
    ensures Says(t, key, n)
       <==> "include" in t.entries && t.entries["include"].Table? && key in t.entries["include"].entries
            && t.entries["include"].entries[key] == n
  {
    var path := ["include", key];
    assert path[1..] == [key] && [key][1..] == [];
    if "include" in t.entries {
      var inc := t.entries["include"];
      assert Get(t, path) == Get(inc, path[1..]);
      if inc.Table? && key in inc.entries {
        assert Get(inc, [key]) == Get(inc.entries[key], []);
      }
    }
  }

  /** A file opts out by `autoload = false` alone, anything but a flag says nothing of it, and only an array names files. */
  lemma DirectiveSays(t: Tree, b: bool, items: seq<Node>)
    ensures Directive(t).hasAutoload && Directive(t).autoload == b <==> Says(t, "autoload", Leaf(Bool(b)))
    ensures !Directive(t).hasAutoload ==> Directive(t).autoload
    ensures OptsOut(t) <==> Says(t, "autoload", Leaf(Bool(false)))
    ensures Says(t, "files", Leaf(Arr(items))) ==> Directive(t).files == Strings(items)
    ensures Directive(t).files != [] ==> exists given :: Says(t, "files", Leaf(Arr(given)))
  {
    SaysIs(t, "autoload", Leaf(Bool(b)));
    SaysIs(t, "autoload", Leaf(Bool(false)));
    SaysIs(t, "files", Leaf(Arr(items)));
    if Directive(t).files != [] {
      var given := t.entries["include"].entries["files"].value.items;
      SaysIs(t, "files", Leaf(Arr(given)));
    }
  }

  /** The strings of an array in their order; items of other kinds are skipped. */
  lemma {:induction false} StringsJoin(a: seq<Node>, n: Node, b: seq<Node>)
    ensures Strings(a + [n] + b) == Strings(a) + (if n.Leaf? && n.value.Str? then [n.value.s] else []) + Strings(b)
    decreases b
  {
    var all := a + [n] + b;
    if b == [] {
      assert all == a + [n] && all[..|all| - 1] == a;
    } else {
      assert all[..|all| - 1] == a + [n] + b[..|b| - 1];
      StringsJoin(a, n, b[..|b| - 1]);
    }
  }

  // ----- the roots -----

  /** Which roots are loaded is decided one by one, and they are loaded in the order they are found in. */
  lemma {:induction false} LoadSetJoins(fs: FileSystem, a: seq<FilePath>, root: FilePath, b: seq<FilePath>, anyOptOut: bool)
    ensures LoadSet(fs, a + [root] + b, anyOptOut)
         == LoadSet(fs, a, anyOptOut) + (if anyOptOut && !(root in fs.parsed && OptsOut(fs.parsed[root])) then [] else [root])
            + LoadSet(fs, b, anyOptOut)
    decreases b
  {
    var all := a + [root] + b;
    if b == [] {
      assert all == a + [root] && all[..|all| - 1] == a;
    } else {
      assert all[..|all| - 1] == a + [root] + b[..|b| - 1];
      LoadSetJoins(fs, a, root, b[..|b| - 1], anyOptOut);
    }
  }

  lemma {:induction false} ParseableJoins(fs: FileSystem, a: seq<FilePath>, root: FilePath, b: seq<FilePath>)
    ensures Parseable(fs, a + [root] + b) == Parseable(fs, a) + (if root in fs.parsed then [root] else []) + Parseable(fs, b)
    decreases b
  {
    var all := a + [root] + b;
    if b == [] {
      assert all == a + [root] && all[..|all| - 1] == a;
    } else {
      assert all[..|all| - 1] == a + [root] + b[..|b| - 1];
      ParseableJoins(fs, a, root, b[..|b| - 1]);
    }
  }

  /** The roots in the order of their names, without those that do not parse and without those left out. */
  function Roots(fs: FileSystem, paths: seq<FilePath>, onlyOptedOut: bool): seq<FilePath> {
    if paths == [] then []
    else if paths[0] in fs.parsed && (onlyOptedOut ==> Says(fs.parsed[paths[0]], "autoload", Leaf(Bool(false))))
    then [paths[0]] + Roots(fs, paths[1..], onlyOptedOut)
    else Roots(fs, paths[1..], onlyOptedOut)
  }

  lemma ParseableFirst(fs: FileSystem, root: FilePath, rest: seq<FilePath>)
    ensures Parseable(fs, [root] + rest) == if root in fs.parsed then [root] + Parseable(fs, rest) else Parseable(fs, rest)
  {
    ParseableJoins(fs, [], root, rest);
    assert [] + [root] + rest == [root] + rest;
  }

  lemma LoadSetFirst(fs: FileSystem, root: FilePath, rest: seq<FilePath>, anyOptOut: bool)
    ensures LoadSet(fs, [root] + rest, anyOptOut)
         == if anyOptOut && !(root in fs.parsed && OptsOut(fs.parsed[root])) then LoadSet(fs, rest, anyOptOut)
            else [root] + LoadSet(fs, rest, anyOptOut)
  {
    LoadSetJoins(fs, [], root, rest, anyOptOut);
    assert [] + [root] + rest == [root] + rest;
  }

  lemma {:induction false} LoadSetIsRoots(fs: FileSystem, paths: seq<FilePath>, onlyOptedOut: bool)
    ensures LoadSet(fs, Parseable(fs, paths), onlyOptedOut) == Roots(fs, paths, onlyOptedOut)
    decreases paths
  {
    if paths != [] {
      ParseableFirst(fs, paths[0], paths[1..]);
      assert [paths[0]] + paths[1..] == paths;
      LoadSetIsRoots(fs, paths[1..], onlyOptedOut);
      if paths[0] in fs.parsed {
        DirectiveSays(fs.parsed[paths[0]], false, []);
        LoadSetFirst(fs, paths[0], Parseable(fs, paths[1..]), onlyOptedOut);
      }
    }
  }

  ghost predicate SomeOptsOut(fs: FileSystem, paths: seq<FilePath>) {
    exists p :: p in paths && p in fs.parsed && Says(fs.parsed[p], "autoload", Leaf(Bool(false)))
  }

  /** The steps of the whole walk: all roots that parse, or only those that say `autoload = false` when one does. */
  lemma RootStepsAre(fs: FileSystem, paths: seq<FilePath>)
    ensures RootSteps(fs, paths) == Opens(Roots(fs, paths, SomeOptsOut(fs, paths)))
  {
    var roots := Parseable(fs, paths);
    forall p | p in fs.parsed
      ensures OptsOut(fs.parsed[p]) <==> Says(fs.parsed[p], "autoload", Leaf(Bool(false)))
      ensures p in roots <==> p in paths
    {
      DirectiveSays(fs.parsed[p], false, []);
      ParseableIs(fs, paths, p);
    }
    if AnyOptsOut(fs, roots) {
      var i :| 0 <= i < |roots| && roots[i] in fs.parsed && OptsOut(fs.parsed[roots[i]]);
      assert roots[i] in roots;
      assert SomeOptsOut(fs, paths);
    }
    if p :| p in paths && p in fs.parsed && Says(fs.parsed[p], "autoload", Leaf(Bool(false))) {
      assert p in roots;
      assert AnyOptsOut(fs, roots);
    }
    LoadSetIsRoots(fs, paths, SomeOptsOut(fs, paths));
  }

  // ----- errors -----

  function ErrorOf(s: Step): Option<Error> {
    match s
    case Absent(entry, from) => Some(NotFound(entry, from))
    case Open(path) => Some(ParseError(path))
    case Enter(_) => None
  }

  lemma {:induction false} ExpandKeepsError(fs: FileSystem, path: FilePath, w: Walk)
    requires path in fs.parsed && w.firstError.Some?
    ensures Expand(fs, path, w).0.firstError == w.firstError
    decreases Keys(fs) - w.visited, 0
  {
    var key := fs.canonical(path);
    if key !in w.visited {
      assert key in Keys(fs) - w.visited;
      ErrorStays(fs, StepsOf(fs, path), w.(visited := w.visited + {key}, loaded := w.loaded + [key]), EMPTY);
    }
  }

  /** The first error is the one that is reported. */
  lemma {:induction false} ErrorStays(fs: FileSystem, steps: seq<Step>, w: Walk, base: Tree)
    requires w.firstError.Some?
    ensures Perform(fs, steps, w, base).0.firstError == w.firstError
    decreases Keys(fs) - w.visited, |steps| + 2
  {
    if steps != [] {
      var (next, tree) := PerformOne(fs, steps[0], w);
      if steps[0].Open? && steps[0].path in fs.parsed {
        ExpandKeepsError(fs, steps[0].path, w);
      }
      ErrorStays(fs, steps[1..], next, Merge(base, tree));
    }
  }

  /** A step that cannot be taken is what the walk reports if all went well before it, whatever comes after. */
  lemma FirstErrorIsReported(fs: FileSystem, a: seq<Step>, bad: Step, b: seq<Step>, w: Walk, base: Tree)
    requires Perform(fs, a, w, base).0.firstError.None? && !Fine(fs, bad)
    ensures Perform(fs, a + ([bad] + b), w, base).0.firstError == ErrorOf(bad)
  {
    PerformSplits(fs, a, [bad] + b, w, base);
    var (before, tree) := Perform(fs, a, w, base);
    PerformSplits(fs, [bad], b, before, tree);
    var (after, more) := Perform(fs, [bad], before, tree);
    PerformOneMore(fs, [], bad, before, tree);
    assert [] + [bad] == [bad];
    ErrorStays(fs, b, after, more);
  }

  /** Of the roots that do not parse it is the first that is reported, before anything else. */
  lemma {:induction false} FirstRootErrorIs(fs: FileSystem, a: seq<FilePath>, bad: FilePath, b: seq<FilePath>)
    requires (forall p <- a :: p in fs.parsed) && bad !in fs.parsed
    ensures FirstParseError(fs, a + [bad] + b) == Some(ParseError(bad))
    decreases b
  {
    var all := a + [bad] + b;
    if b == [] {
      assert all == a + [bad] && all[..|all| - 1] == a;
      FirstParseErrorIs(fs, a);
    } else {
      assert all[..|all| - 1] == a + [bad] + b[..|b| - 1];
      FirstRootErrorIs(fs, a, bad, b[..|b| - 1]);
    }
  }

  // ----- a file and its includes -----

  /** The walk once some files were taken, some directories noted, and perhaps an entry was missing. */
  function Took(fs: FileSystem, w: Walk, files: seq<FilePath>, dirs: seq<Key>, missing: Option<Error>): Walk {
    Walk(w.visited + (set p | p in files :: fs.canonical(p)), w.loaded + KeysOf(fs, files), w.finished + files, w.includeDirs + dirs,
         if w.firstError.Some? then w.firstError else missing)
  }

  lemma TookBoth(fs: FileSystem, w: Walk, a: seq<FilePath>, b: seq<FilePath>, c: seq<Key>, d: seq<Key>, e: Option<Error>, f: Option<Error>)
    ensures Took(fs, Took(fs, w, a, c, e), b, d, f) == Took(fs, w, a + b, c + d, if e.Some? then e else f)
  {
    KeysJoin(fs, a, b);
    assert (set p | p in a + b :: fs.canonical(p)) == (set p | p in a :: fs.canonical(p)) + (set p | p in b :: fs.canonical(p));
  }

  lemma TookNothing(fs: FileSystem, w: Walk)
    ensures Took(fs, w, [], [], None) == w
  {
    assert KeysOf(fs, []) == [];
  }

  /** Files that include nothing and have not been seen. */
  ghost predicate Plain(fs: FileSystem, files: seq<FilePath>, visited: set<Key>) {
    && (forall p <- files :: p in fs.parsed && StepsOf(fs, p) == [] && fs.canonical(p) !in visited)
    && forall i, j :: 0 <= i < j < |files| ==> fs.canonical(files[i]) != fs.canonical(files[j])
  }

  lemma PlainParts(fs: FileSystem, a: seq<FilePath>, b: seq<FilePath>, w: Walk, dirs: seq<Key>, missing: Option<Error>)
    requires Plain(fs, a + b, w.visited)
    ensures Plain(fs, a, w.visited) && Plain(fs, b, Took(fs, w, a, dirs, missing).visited)
  {
    assert (forall p <- a :: p in a + b) && forall p <- b :: p in a + b;
    forall p, q | p in a && q in b
      ensures fs.canonical(p) != fs.canonical(q)
    {
      var i :| 0 <= i < |a| && a[i] == p;
      var j :| 0 <= j < |b| && b[j] == q;
      assert (a + b)[i] == p && (a + b)[|a| + j] == q;
    }
    forall i, j | 0 <= i < j < |a|
      ensures fs.canonical(a[i]) != fs.canonical(a[j])
    {
      assert (a + b)[i] == a[i] && (a + b)[j] == a[j];
    }
    forall i, j | 0 <= i < j < |b|
      ensures fs.canonical(b[i]) != fs.canonical(b[j])
    {
      assert (a + b)[|a| + i] == b[i] && (a + b)[|a| + j] == b[j];
    }
  }

  lemma PlainFile(fs: FileSystem, path: FilePath, w: Walk)
    requires Plain(fs, [path], w.visited)
    ensures path in fs.parsed && PerformOne(fs, Open(path), w) == (Took(fs, w, [path], [], None), Body(fs.parsed[path]))
  {
    assert path in [path];
    EmptyIsIdentity(Body(fs.parsed[path]));
    var key := fs.canonical(path);
    var entered := w.(visited := w.visited + {key}, loaded := w.loaded + [key]);
    assert Perform(fs, StepsOf(fs, path), entered, EMPTY) == (entered, EMPTY);
    assert KeysOf(fs, [path]) == [key] && (set p | p in [path] :: fs.canonical(p)) == {key};
    assert w.includeDirs + [] == w.includeDirs;
  }

  lemma OverlayOneMore(fs: FileSystem, base: Tree, files: seq<FilePath>, last: FilePath)
    requires last in fs.parsed
    ensures OverlayAll(fs, base, files + [last]) == Merge(OverlayAll(fs, base, files), Body(fs.parsed[last]))
  {
    assert (files + [last])[..|files|] == files;
  }

  /** They are taken in their order, each laid over those before it. */
  lemma {:induction false} PlainFilesInOrder(fs: FileSystem, files: seq<FilePath>, w: Walk, base: Tree)
    requires Plain(fs, files, w.visited)
    ensures Perform(fs, Opens(files), w, base) == (Took(fs, w, files, [], None), OverlayAll(fs, base, files))
    decreases files
  {
    if files == [] {
      TookNothing(fs, w);
    } else {
      var fewer, last := files[..|files| - 1], files[|files| - 1];
      assert files == fewer + [last];
      PlainParts(fs, fewer, [last], w, [], None);
      PlainFilesInOrder(fs, fewer, w, base);
      PerformOneMore(fs, Opens(fewer), Open(last), w, base);
      PlainFile(fs, last, Took(fs, w, fewer, [], None));
      OverlayOneMore(fs, base, fewer, last);
      TookBoth(fs, w, fewer, [last], [], [], None, None);
      assert Took(fs, w, files, [] + [], None) == Took(fs, w, files, [], None);
    }
  }

  /** What the entries of a file stand for. */
  ghost predicate StandFor(fs: FileSystem, from: FilePath, entries: seq<string>, targets: seq<Target>) {
    |entries| == |targets| && forall i :: 0 <= i < |entries| ==> fs.resolve(from, entries[i]) == targets[i]
  }

  function FilesOf(targets: seq<Target>): seq<FilePath> {
    if targets == [] then []
    else
      FilesOf(targets[..|targets| - 1])
      + match targets[|targets| - 1] case Directory(_, children) => children case File(path) => [path] case Missing => []
  }

  function DirectoriesOf(targets: seq<Target>): seq<Key> {
    if targets == [] then []
    else DirectoriesOf(targets[..|targets| - 1]) + if targets[|targets| - 1].Directory? then [targets[|targets| - 1].key] else []
  }

  /** The first entry that stands for nothing. */
  function FirstMissing(from: FilePath, entries: seq<string>, targets: seq<Target>): Option<Error>
    requires |entries| == |targets|
  {
    if targets == [] then None
    else
      var n := |targets| - 1;
      var before := FirstMissing(from, entries[..n], targets[..n]);
      if before.None? && targets[n].Missing? then Some(NotFound(entries[n], from)) else before
  }

  lemma OneTarget(from: FilePath, entry: string, target: Target)
    ensures FilesOf([target]) == match target case Directory(_, children) => children case File(path) => [path] case Missing => []
    ensures DirectoriesOf([target]) == if target.Directory? then [target.key] else []
    ensures FirstMissing(from, [entry], [target]) == if target.Missing? then Some(NotFound(entry, from)) else None
  {
    assert [target][..0] == [] && [entry][..0] == [];
  }

  lemma OneStep(fs: FileSystem, step: Step, w: Walk, base: Tree)
    ensures Perform(fs, [step], w, base) == (PerformOne(fs, step, w).0, Merge(base, PerformOne(fs, step, w).1))
  {
    PerformOneMore(fs, [], step, w, base);
    assert [] + [step] == [step];
  }

  lemma DirectoryInOrder(fs: FileSystem, key: Key, children: seq<FilePath>, w: Walk, base: Tree)
    requires Plain(fs, children, w.visited)
    ensures Perform(fs, [Enter(key)] + Opens(children), w, base)
         == (Took(fs, w, children, [key], None), OverlayAll(fs, base, children))
  {
    var noted := w.(includeDirs := w.includeDirs + [key]);
    EmptyIsIdentity(base);
    OneStep(fs, Enter(key), w, base);
    PerformSplits(fs, [Enter(key)], Opens(children), w, base);
    PlainFilesInOrder(fs, children, noted, base);
    assert noted.includeDirs + [] == noted.includeDirs;
  }

  lemma MissingInOrder(fs: FileSystem, from: FilePath, entry: string, w: Walk, base: Tree)
    ensures Perform(fs, [Absent(entry, from)], w, base) == (Took(fs, w, [], [], Some(NotFound(entry, from))), base)
  {
    EmptyIsIdentity(base);
    OneStep(fs, Absent(entry, from), w, base);
    TookNothing(fs, w);
  }

  lemma EntryInOrder(fs: FileSystem, from: FilePath, entry: string, target: Target, w: Walk, base: Tree)
    requires fs.resolve(from, entry) == target && Plain(fs, FilesOf([target]), w.visited)
    ensures Perform(fs, EntrySteps(fs, from, entry), w, base)
         == (Took(fs, w, FilesOf([target]), DirectoriesOf([target]), FirstMissing(from, [entry], [target])),
             OverlayAll(fs, base, FilesOf([target])))
  {
    OneTarget(from, entry, target);
    match target {
      case Directory(key, children) => DirectoryInOrder(fs, key, children, w, base);
      case File(path) =>
        assert Opens([path]) == [Open(path)] by {
          assert [path][..0] == [];
        }
        PlainFilesInOrder(fs, [path], w, base);
      case Missing => MissingInOrder(fs, from, entry, w, base);
    }
  }

  /** What a file names comes in the order it is named, a directory's files in theirs; the first entry that stands for
      nothing is reported unless there was an error before. */
  lemma {:induction false} EntriesInOrder(fs: FileSystem, from: FilePath, entries: seq<string>, targets: seq<Target>, w: Walk, base: Tree)
    requires StandFor(fs, from, entries, targets) && Plain(fs, FilesOf(targets), w.visited)
    ensures Perform(fs, Steps(fs, from, entries), w, base)
         == (Took(fs, w, FilesOf(targets), DirectoriesOf(targets), FirstMissing(from, entries, targets)),
             OverlayAll(fs, base, FilesOf(targets)))
    decreases entries
  {
    if entries == [] {
      TookNothing(fs, w);
    } else {
      var n := |entries| - 1;
      var here, last, dirs := FilesOf(targets[..n]), FilesOf([targets[n]]), DirectoriesOf([targets[n]]);
      var missing, late := FirstMissing(from, entries[..n], targets[..n]), FirstMissing(from, [entries[n]], [targets[n]]);
      LastTarget(from, entries, targets);
      PlainParts(fs, here, last, w, DirectoriesOf(targets[..n]), missing);
      EntriesInOrder(fs, from, entries[..n], targets[..n], w, base);
      var before := Took(fs, w, here, DirectoriesOf(targets[..n]), missing);
      PerformSplits(fs, Steps(fs, from, entries[..n]), EntrySteps(fs, from, entries[n]), w, base);
      EntryInOrder(fs, from, entries[n], targets[n], before, OverlayAll(fs, base, here));
      TookBoth(fs, w, here, last, DirectoriesOf(targets[..n]), dirs, missing, late);
      OverlayConcat(fs, base, here, last);
    }
  }

  lemma LastTarget(from: FilePath, entries: seq<string>, targets: seq<Target>)
    requires |entries| == |targets| && targets != []
    ensures var n := |targets| - 1;
            && FilesOf(targets) == FilesOf(targets[..n]) + FilesOf([targets[n]])
            && DirectoriesOf(targets) == DirectoriesOf(targets[..n]) + DirectoriesOf([targets[n]])
            && FirstMissing(from, entries, targets)
            == if FirstMissing(from, entries[..n], targets[..n]).Some? then FirstMissing(from, entries[..n], targets[..n])
               else FirstMissing(from, [entries[n]], [targets[n]])
  {
    var one := [targets[|targets| - 1]];
    assert one[..0] == [];
  }

  /** A file over what it includes: its own settings are laid over the files it names, which are laid over one another in
      the order they are named; it is loaded before them and left after them. */
  lemma FileOverItsIncludes(fs: FileSystem, path: FilePath, targets: seq<Target>, w: Walk)
    requires path in fs.parsed && fs.canonical(path) !in w.visited
    requires StandFor(fs, path, Directive(fs.parsed[path]).files, targets)
    requires Plain(fs, FilesOf(targets), w.visited + {fs.canonical(path)})
    ensures var files, (v, tree) := FilesOf(targets), Expand(fs, path, w);
            && tree == Merge(OverlayAll(fs, EMPTY, files), Body(fs.parsed[path]))
            && v.loaded == w.loaded + [fs.canonical(path)] + KeysOf(fs, files) && v.finished == w.finished + files + [path]
            && v.includeDirs == w.includeDirs + DirectoriesOf(targets)
            && v.firstError == if w.firstError.Some? then w.firstError
                               else FirstMissing(path, Directive(fs.parsed[path]).files, targets)
  {
    var key := fs.canonical(path);
    var entered := w.(visited := w.visited + {key}, loaded := w.loaded + [key]);
    EntriesInOrder(fs, path, Directive(fs.parsed[path]).files, targets, entered, EMPTY);
  }

  /** Root files that include nothing: the configuration is their settings, each over those of the roots before it. */
  lemma PlainRootsInOrder(fs: FileSystem, paths: seq<FilePath>)
    requires Plain(fs, Roots(fs, paths, SomeOptsOut(fs, paths)), {})
    ensures var (w, merged) := MergeConfig(fs, paths);
            && merged == OverlayAll(fs, EMPTY, Roots(fs, paths, SomeOptsOut(fs, paths)))
            && w.finished == Roots(fs, paths, SomeOptsOut(fs, paths)) && w.includeDirs == []
  {
    var start := MergeConfigWalks(fs, paths);
    RootStepsAre(fs, paths);
    PlainFilesInOrder(fs, Roots(fs, paths, SomeOptsOut(fs, paths)), start, EMPTY);
  }
}
