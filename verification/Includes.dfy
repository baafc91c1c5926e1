/** `mergeConfigWithIncludes`: a depth-first walk over `[include]` tables that merges while it walks. */
module Includes {
  import opened Wrappers
  import opened Toml

  type FilePath = string
  /** What `canonicalKey` gives: one key per file, however it is reached. */
  type Key = string

  /** What an `[include].files` entry names, seen from the including file. */
  datatype Target = Directory(key: Key, children: seq<FilePath>) | File(path: FilePath) | Missing

  /** The files as the walk finds them; `parsed` holds the paths that can be parsed. */
  datatype FileSystem = FileSystem(parsed: map<FilePath, Tree>, canonical: FilePath -> Key,
                                   resolve: (FilePath, string) -> Target)

  datatype Error = ParseError(path: FilePath) | NotFound(entry: string, from: FilePath)

  // ----- the [include] table -----

  datatype IncludeDirective = IncludeDirective(files: seq<string>, autoload: bool, hasAutoload: bool)

  function Strings(items: seq<Node>): seq<string> {
    if items == [] then []
    else
      var last := items[|items| - 1];
      Strings(items[..|items| - 1]) + if last.Leaf? && last.value.Str? then [last.value.s] else []
  }

  function Field(n: Node, key: string): Option<Node> {
    if n.Table? && key in n.entries then Some(n.entries[key]) else None
  }

  function Directive(t: Tree): IncludeDirective {
    match Field(t, "include")
    case Some(inc) =>
      var autoload := Field(inc, "autoload");
      var files := Field(inc, "files");
      var given := autoload.Some? && autoload.value.Leaf? && autoload.value.value.Bool?;
      IncludeDirective(
        if files.Some? && files.value.Leaf? && files.value.value.Arr? then Strings(files.value.value.items) else [],
        if given then autoload.value.value.b else true,
        given)
    case None => IncludeDirective([], true, false)
  }

  method ReadInclude(t: Tree) returns (directive: IncludeDirective)
    ensures directive == Directive(t)
  {
    directive := IncludeDirective([], true, false);
    if "include" !in t.entries || !t.entries["include"].Table? {
      return;
    }
    var inc := t.entries["include"];
    if "autoload" in inc.entries && inc.entries["autoload"].Leaf? && inc.entries["autoload"].value.Bool? {
      directive := directive.(autoload := inc.entries["autoload"].value.b, hasAutoload := true);
    }
    if "files" in inc.entries && inc.entries["files"].Leaf? && inc.entries["files"].value.Arr? {
      var items := inc.entries["files"].value.items;
      var i := 0;
      while i < |items|
        invariant 0 <= i <= |items|
        invariant directive == Directive(t).(files := Strings(items[..i]))
      {
        var node := items[i];
        assert items[..i + 1][..i] == items[..i];
        if node.Leaf? && node.value.Str? {
          directive := directive.(files := directive.files + [node.value.s]);
        }
        i := i + 1;
      }
      assert items[..|items|] == items;
    }
  }

  /** A file's own settings. */
  function Body(t: Tree): Tree {
    Table(t.entries - {"include"})
  }

  // ----- the walk -----

  /** What a file asks for, entry by entry. */
  datatype Step = Enter(dir: Key) | Open(path: FilePath) | Absent(entry: string, from: FilePath)

  function Opens(paths: seq<FilePath>): seq<Step> {
    if paths == [] then [] else Opens(paths[..|paths| - 1]) + [Open(paths[|paths| - 1])]
  }

  function EntrySteps(fs: FileSystem, from: FilePath, entry: string): seq<Step> {
    match fs.resolve(from, entry)
    case Directory(key, children) => [Enter(key)] + Opens(children)
    case File(path) => [Open(path)]
    case Missing => [Absent(entry, from)]
  }

  function Steps(fs: FileSystem, from: FilePath, entries: seq<string>): seq<Step> {
    if entries == [] then []
    else Steps(fs, from, entries[..|entries| - 1]) + EntrySteps(fs, from, entries[|entries| - 1])
  }

  function StepsOf(fs: FileSystem, path: FilePath): seq<Step>
    requires path in fs.parsed
  {
    Steps(fs, path, Directive(fs.parsed[path]).files)
  }

  /** What the walk has done: `loaded` in the order files are entered, `finished` in the order they are left. */
  datatype Walk = Walk(visited: set<Key>, loaded: seq<Key>, finished: seq<FilePath>,
                       includeDirs: seq<Key>, firstError: Option<Error>)

  const START := Walk({}, [], [], [], None)

  function Fail(w: Walk, e: Error): Walk {
    if w.firstError.None? then w.(firstError := Some(e)) else w
  }

  function Keys(fs: FileSystem): set<Key> {
    set p | p in fs.parsed :: fs.canonical(p)
  }

  /** `expandFile`: the walk after a file and the tree it contributes. */
  function Expand(fs: FileSystem, path: FilePath, w: Walk): (r: (Walk, Tree))
    requires path in fs.parsed
    ensures w.visited <= r.0.visited
    decreases Keys(fs) - w.visited, 0
  {
    var key := fs.canonical(path);
    if key in w.visited then (w, EMPTY)
    else
      var entered := w.(visited := w.visited + {key}, loaded := w.loaded + [key]);
      assert key in Keys(fs) - w.visited;
      var (after, base) := Perform(fs, StepsOf(fs, path), entered, EMPTY);
      (after.(finished := after.finished + [path]), Merge(base, Body(fs.parsed[path])))
  }

  /** `loadAndExpand`, and the other steps of the include loop. */
  function PerformOne(fs: FileSystem, step: Step, w: Walk): (r: (Walk, Tree))
    ensures w.visited <= r.0.visited
    decreases Keys(fs) - w.visited, 1
  {
    match step
    case Enter(dir) => (w.(includeDirs := w.includeDirs + [dir]), EMPTY)
    case Open(path) => if path in fs.parsed then Expand(fs, path, w) else (Fail(w, ParseError(path)), EMPTY)
    case Absent(entry, from) => (Fail(w, NotFound(entry, from)), EMPTY)
  }

  function Perform(fs: FileSystem, steps: seq<Step>, w: Walk, base: Tree): (r: (Walk, Tree))
    ensures w.visited <= r.0.visited
    decreases Keys(fs) - w.visited, |steps| + 2
  {
    if steps == [] then (w, base)
    else
      var (next, tree) := PerformOne(fs, steps[0], w);
      Perform(fs, steps[1..], next, Merge(base, tree))
  }

  // ----- the roots -----

  predicate OptsOut(t: Tree) {
    Directive(t).hasAutoload && !Directive(t).autoload
  }

  /** The root files that can be parsed. */
  function Parseable(fs: FileSystem, paths: seq<FilePath>): (roots: seq<FilePath>)
    ensures forall p <- roots :: p in fs.parsed
  {
    if paths == [] then []
    else
      var last := paths[|paths| - 1];
      Parseable(fs, paths[..|paths| - 1]) + if last in fs.parsed then [last] else []
  }

  function FirstParseError(fs: FileSystem, paths: seq<FilePath>): Option<Error> {
    if paths == [] then None
    else
      var before, last := FirstParseError(fs, paths[..|paths| - 1]), paths[|paths| - 1];
      if before.None? && last !in fs.parsed then Some(ParseError(last)) else before
  }

  predicate AnyOptsOut(fs: FileSystem, roots: seq<FilePath>) {
    exists i :: 0 <= i < |roots| && roots[i] in fs.parsed && OptsOut(fs.parsed[roots[i]])
  }

  lemma AnyOptsOutGrows(fs: FileSystem, roots: seq<FilePath>, path: FilePath)
    requires path in fs.parsed
    ensures AnyOptsOut(fs, roots + [path]) <==> AnyOptsOut(fs, roots) || OptsOut(fs.parsed[path])
  {
    if i :| 0 <= i < |roots| && roots[i] in fs.parsed && OptsOut(fs.parsed[roots[i]]) {
      assert (roots + [path])[i] == roots[i];
    }
    assert (roots + [path])[|roots|] == path;
  }

  /** All roots, or the opted-out ones when there are any. */
  function LoadSet(fs: FileSystem, roots: seq<FilePath>, anyOptOut: bool): seq<FilePath> {
    if roots == [] then []
    else
      var last := roots[|roots| - 1];
      LoadSet(fs, roots[..|roots| - 1], anyOptOut)
      + if anyOptOut && !(last in fs.parsed && OptsOut(fs.parsed[last])) then [] else [last]
  }

  /** `mergeConfigWithIncludes` on the `.toml` files of the configuration directory. */
  function MergeConfig(fs: FileSystem, paths: seq<FilePath>): (Walk, Tree) {
    var roots := Parseable(fs, paths);
    var start := START.(firstError := FirstParseError(fs, paths));
    Perform(fs, Opens(LoadSet(fs, roots, AnyOptsOut(fs, roots))), start, EMPTY)
  }

  lemma {:induction false} PerformSplits(fs: FileSystem, a: seq<Step>, b: seq<Step>, w: Walk, base: Tree)
    ensures Perform(fs, a + b, w, base)
         == Perform(fs, b, Perform(fs, a, w, base).0, Perform(fs, a, w, base).1)
    decreases a
  {
    if a == [] {
      assert a + b == b;
    } else {
      var (next, tree) := PerformOne(fs, a[0], w);
      assert (a + b)[1..] == a[1..] + b;
      PerformSplits(fs, a[1..], b, next, Merge(base, tree));
    }
  }

  lemma PerformOneMore(fs: FileSystem, a: seq<Step>, step: Step, w: Walk, base: Tree)
    ensures var (w1, b1) := Perform(fs, a, w, base);
            var (w2, tree) := PerformOne(fs, step, w1);
            Perform(fs, a + [step], w, base) == (w2, Merge(b1, tree))
  {
    PerformSplits(fs, a, [step], w, base);
  }

  // ----- the program -----

  class Includer {
    const fs: FileSystem
    var visited: set<Key>
    var loadedFiles: seq<Key>
    var includeDirs: seq<Key>
    var firstError: Option<Error>
    ghost var finished: seq<FilePath>

    constructor (fs: FileSystem)
      ensures this.fs == fs && Done() == START
    {
      this.fs := fs;
      visited, loadedFiles, includeDirs, firstError, finished := {}, [], [], None, [];
    }

    ghost function Done(): Walk
      reads this
    {
      Walk(visited, loadedFiles, finished, includeDirs, firstError)
    }

    method Report(e: Error)
      modifies this`firstError
      ensures Done() == Fail(old(Done()), e)
    {
      if firstError.None? {
        firstError := Some(e);
      }
    }

    method LoadAndExpand(path: FilePath) returns (tree: Tree)
      modifies this
      ensures (Done(), tree) == PerformOne(fs, Open(path), old(Done()))
      decreases Keys(fs) - visited, 1
    {
      if path !in fs.parsed {
        Report(ParseError(path));
        return EMPTY;
      }
      tree := ExpandFile(path, fs.parsed[path]);
    }

    method LoadChildren(children: seq<FilePath>, base0: Tree) returns (base: Tree)
      modifies this
      ensures (Done(), base) == Perform(fs, Opens(children), old(Done()), base0)
      decreases Keys(fs) - visited, 2
    {
      base := base0;
      var j := 0;
      while j < |children|
        invariant 0 <= j <= |children|
        invariant old(visited) <= visited
        invariant (Done(), base) == Perform(fs, Opens(children[..j]), old(Done()), base0)
      {
        PerformOneMore(fs, Opens(children[..j]), Open(children[j]), old(Done()), base0);
        assert children[..j + 1][..j] == children[..j];
        var tree := LoadAndExpand(children[j]);
        base := DeepMerge(base, tree);
        j := j + 1;
      }
      assert children[..j] == children;
    }

    method ExpandEntry(path: FilePath, entry: string, base0: Tree) returns (base: Tree)
      modifies this
      ensures (Done(), base) == Perform(fs, EntrySteps(fs, path, entry), old(Done()), base0)
      decreases Keys(fs) - visited, 3
    {
      EmptyIsIdentity(base0);
      match fs.resolve(path, entry) {
        case Directory(key, children) =>
          PerformSplits(fs, [Enter(key)], Opens(children), Done(), base0);
          includeDirs := includeDirs + [key];
          base := LoadChildren(children, base0);
        case File(target) =>
          var tree := LoadAndExpand(target);
          base := DeepMerge(base0, tree);
        case Missing =>
          base := base0;
          Report(NotFound(entry, path));
      }
    }

    method ExpandFile(path: FilePath, parsed: Tree) returns (base: Tree)
      requires path in fs.parsed && parsed == fs.parsed[path]
      modifies this
      ensures (Done(), base) == Expand(fs, path, old(Done()))
      decreases Keys(fs) - visited, 0
    {
      var key := fs.canonical(path);
      if key in visited {
        return EMPTY;
      }
      assert key in Keys(fs) - visited;
      visited := visited + {key};
      loadedFiles := loadedFiles + [key];
      ghost var entered := Done();
      var directive := ReadInclude(parsed);
      base := EMPTY;
      var i := 0;
      while i < |directive.files|
        invariant 0 <= i <= |directive.files|
        invariant entered.visited <= visited
        invariant (Done(), base) == Perform(fs, Steps(fs, path, directive.files[..i]), entered, EMPTY)
      {
        var entry := directive.files[i];
        assert directive.files[..i + 1][..i] == directive.files[..i];
        PerformSplits(fs, Steps(fs, path, directive.files[..i]), EntrySteps(fs, path, entry), entered, EMPTY);
        base := ExpandEntry(path, entry, base);
        i := i + 1;
      }
      assert directive.files[..i] == directive.files;
      base := DeepMerge(base, Body(parsed));
      finished := finished + [path];
    }

    /** Phase A: parse the root files and look for `autoload = false`. */
    method ScanRoots(paths: seq<FilePath>) returns (roots: seq<FilePath>, anyOptOut: bool)
      requires firstError.None?
      modifies this`firstError
      ensures roots == Parseable(fs, paths) && anyOptOut == AnyOptsOut(fs, roots)
      ensures firstError == FirstParseError(fs, paths)
    {
      roots, anyOptOut := [], false;
      var i := 0;
      while i < |paths|
        invariant 0 <= i <= |paths|
        invariant roots == Parseable(fs, paths[..i]) && anyOptOut == AnyOptsOut(fs, roots)
        invariant firstError == FirstParseError(fs, paths[..i])
      {
        assert paths[..i + 1][..i] == paths[..i];
        if paths[i] !in fs.parsed {
          Report(ParseError(paths[i]));
        } else {
          var directive := ReadInclude(fs.parsed[paths[i]]);
          var optOut := directive.hasAutoload && !directive.autoload;
          AnyOptsOutGrows(fs, roots, paths[i]);
          anyOptOut := anyOptOut || optOut;
          roots := roots + [paths[i]];
        }
        i := i + 1;
      }
      assert paths[..i] == paths;
    }

    /** Phase B: merge the load set. */
    method MergeRoots(roots: seq<FilePath>, anyOptOut: bool) returns (merged: Tree)
      requires forall p <- roots :: p in fs.parsed
      modifies this
      ensures (Done(), merged) == Perform(fs, Opens(LoadSet(fs, roots, anyOptOut)), old(Done()), EMPTY)
    {
      merged := EMPTY;
      var i := 0;
      while i < |roots|
        invariant 0 <= i <= |roots|
        invariant (Done(), merged) == Perform(fs, Opens(LoadSet(fs, roots[..i], anyOptOut)), old(Done()), EMPTY)
      {
        var root := roots[i];
        LoadSetNext(fs, roots, i, anyOptOut);
        PerformOneMore(fs, Opens(LoadSet(fs, roots[..i], anyOptOut)), Open(root), old(Done()), EMPTY);
        i := i + 1;
        if anyOptOut && !OptsOut(fs.parsed[root]) {
          continue;
        }
        var tree := ExpandFile(root, fs.parsed[root]);
        merged := DeepMerge(merged, tree);
      }
      assert roots[..i] == roots;
    }
  }

  lemma LoadSetNext(fs: FileSystem, roots: seq<FilePath>, i: nat, anyOptOut: bool)
    requires i < |roots| && roots[i] in fs.parsed
    ensures Opens(LoadSet(fs, roots[..i + 1], anyOptOut))
         == if anyOptOut && !OptsOut(fs.parsed[roots[i]]) then Opens(LoadSet(fs, roots[..i], anyOptOut))
            else Opens(LoadSet(fs, roots[..i], anyOptOut)) + [Open(roots[i])]
  {
    var before := LoadSet(fs, roots[..i], anyOptOut);
    assert roots[..i + 1][..i] == roots[..i];
    assert (before + [roots[i]])[..|before|] == before;
    assert before + [] == before;
  }

  method MergeConfigWithIncludes(fs: FileSystem, paths: seq<FilePath>) returns (merged: Tree, out: Includer)
    ensures fresh(out) && out.fs == fs
    ensures (out.Done(), merged) == MergeConfig(fs, paths)
  {
    out := new Includer(fs);
    var roots, anyOptOut := out.ScanRoots(paths);
    merged := out.MergeRoots(roots, anyOptOut);
  }
}
