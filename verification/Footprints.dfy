/** The static half of a test's footprint (footprint.py): the files its module imports, directly or
    not, and the conftests above it, through every memo of a process, while `sys.path` changes.
    A path is the sequence of its components from the root of the file system. */
module Footprints {
  import opened Prelude

  type Path = seq<string>

  type SysPath = seq<Path>

  // `from ..a.b import c` as the dotted name's parts and the number of leading dots.
  datatype Import = Import(parts: seq<string>, level: nat)

  // What a process finds, but for `sys.path`: the run root, the files there are, the imports each source
  // names (none when it cannot be read or parsed), and `os.stat` as a modification time and a size.
  datatype Tree = Tree(root: Path, files: set<Path>, named: Path -> seq<Import>, stat: Path -> Option<(nat, nat)>)

  // ---- resolving one import ----

  // `os.path.dirname`, `n` times.
  function Above(path: Path, n: nat): Path {
    if n == 0 || path == [] then path else Above(Init(path), n - 1)
  }

  function Directory(path: Path): Path {
    Above(path, 1)
  }

  // The two files a dotted name may stand for below one directory: a module, or a package.
  function Spellings(stem: Path): seq<Path> {
    [if stem == [] then [".py"] else Init(stem) + [Last(stem) + ".py"], stem + ["__init__.py"]]
  }

  function SpellingsUnder(dirs: seq<Path>, parts: seq<string>): seq<Path> {
    if dirs == [] then [] else SpellingsUnder(Init(dirs), parts) + Spellings(Last(dirs) + parts)
  }

  // Every file the import may resolve to, in the order they are tried: in one directory above the
  // importing file, or in all of `sys.path`.
  function Candidates(sysPath: SysPath, name: Import, directory: Path): seq<Path> {
    SpellingsUnder(if name.level > 0 then [Above(directory, name.level - 1)] else sysPath, name.parts)
  }

  function First(files: set<Path>, candidates: seq<Path>): (f: Option<Path>)
    ensures f.Some? ==> f.value in files
  {
    if candidates == [] then None
    else if candidates[0] in files then Some(candidates[0])
    else First(files, candidates[1..])
  }

  // `abs_path.startswith(root + os.sep)`, which nothing does below the root of the file system.
  predicate InRoot(t: Tree, f: Path) {
    t.root != [] && t.root < f
  }

  // The first candidate that exists decides, and counts only below the run root.
  function Target(t: Tree, candidates: seq<Path>): (f: Option<Path>)
    ensures f.Some? ==> f.value in t.files
  {
    var f := First(t.files, candidates);
    if f.Some? && InRoot(t, f.value) then f else None
  }

  function Resolve(t: Tree, sysPath: SysPath, name: Import, from: Path): (f: Option<Path>)
    ensures f.Some? ==> f.value in t.files
  {
    Target(t, Candidates(sysPath, name, Directory(from)))
  }

  // ---- what that comes to, from the paths alone ----

  // The module file and the package file of a dotted name below a directory.
  function ModuleFile(directory: Path, parts: seq<string>): Path
    requires parts != []
  {
    directory + parts[..|parts| - 1] + [parts[|parts| - 1] + ".py"]
  }

  function PackageFile(directory: Path, parts: seq<string>): Path {
    directory + parts + ["__init__.py"]
  }

  ghost predicate HoldsEither(t: Tree, directory: Path, parts: seq<string>)
    requires parts != []
  {
    ModuleFile(directory, parts) in t.files || PackageFile(directory, parts) in t.files
  }

  // The module before the package, and nothing outside the run root.
  ghost predicate IsFoundIn(t: Tree, directory: Path, parts: seq<string>, found: Option<Path>)
    requires parts != []
  {
    var m, p := ModuleFile(directory, parts), PackageFile(directory, parts);
    && (found.Some? ==> found.value == if m in t.files then m else p)
    && (found.Some? <==>
          HoldsEither(t, directory, parts) && t.root != [] && t.root < if m in t.files then m else p)
  }

  lemma {:induction false} SpellingsAre(directory: Path, parts: seq<string>)
    requires parts != []
    ensures Spellings(directory + parts) == [ModuleFile(directory, parts), PackageFile(directory, parts)]
  {
    var stem := directory + parts;
    assert Init(stem) == directory + parts[..|parts| - 1] && Last(stem) == parts[|parts| - 1];
  }

  lemma {:induction false} AboveIs(base: Path, rest: Path)
    ensures Above(base + rest, |rest|) == base
  {
    if rest == [] {
      assert base + rest == base;
    } else {
      assert Init(base + rest) == base + Init(rest);
      AboveIs(base, Init(rest));
    }
  }

  lemma {:induction false} FirstConcat(files: set<Path>, a: seq<Path>, b: seq<Path>)
    ensures First(files, a + b) == if First(files, a).Some? then First(files, a) else First(files, b)
  {
    if a == [] {
      assert a + b == b;
    } else {
      assert (a + b)[1..] == a[1..] + b;
      FirstConcat(files, a[1..], b);
    }
  }

  lemma {:induction false} FirstOfPair(files: set<Path>, a: Path, b: Path)
    ensures First(files, [a, b]) == if a in files then Some(a) else if b in files then Some(b) else None
  {
    assert [a, b][1..] == [b] && [b][1..] == [];
    assert First(files, []) == None;
    assert First(files, [b]) == if b in files then Some(b) else None;
  }

  lemma {:induction false} OneDirectory(directory: Path, parts: seq<string>)
    ensures SpellingsUnder([directory], parts) == Spellings(directory + parts)
  {
    assert Init([directory]) == [] && Last([directory]) == directory;
    assert SpellingsUnder([directory], parts) == [] + Spellings(directory + parts);
  }

  // `from ..a.b import c` with `n` dots, in a file: one directory up for every dot after the first.
  lemma {:induction false} RelativeImportResolves(
      t: Tree, sysPath: SysPath, base: Path, up: Path, file: string, parts: seq<string>, n: nat)
    requires parts != [] && n > 0 && |up| == n - 1
    ensures IsFoundIn(t, base, parts, Resolve(t, sysPath, Import(parts, n), base + up + [file]))
  {
    var from := base + up + [file];
    assert Init(from) == base + up && Directory(from) == Above(Init(from), 0);
    AboveIs(base, up);
    SpellingsAre(base, parts);
    OneDirectory(base, parts);
    assert Candidates(sysPath, Import(parts, n), Directory(from)) == Spellings(base + parts);
    FirstOfPair(t.files, ModuleFile(base, parts), PackageFile(base, parts));
  }

  // `from .. import c`: the package itself, should the directory be one.
  lemma {:induction false} BareRelativeImportResolves(
      t: Tree, sysPath: SysPath, base: Path, name: string, up: Path, file: string, n: nat)
    requires n > 0 && |up| == n - 1
    ensures IsFoundIn(t, base, [name], Resolve(t, sysPath, Import([], n), base + [name] + up + [file]))
  {
    var directory := base + [name];
    var from := directory + up + [file];
    assert Init(from) == directory + up && Directory(from) == Above(Init(from), 0);
    AboveIs(directory, up);
    SpellingsAre(base, [name]);
    OneDirectory(directory, []);
    assert directory + [] == directory;
    assert Candidates(sysPath, Import([], n), Directory(from)) == Spellings(directory);
    FirstOfPair(t.files, ModuleFile(base, [name]), PackageFile(base, [name]));
  }

  // And at the root of the file system.
  lemma {:induction false} BareImportAtRoot(t: Tree, sysPath: SysPath, up: Path, file: string, n: nat)
    requires n > 0 && |up| == n - 1
    ensures var found := Resolve(t, sysPath, Import([], n), up + [file]);
            && (found.Some? ==> found.value == if [".py"] in t.files then [".py"] else ["__init__.py"])
            && (found.Some? ==> found.value in t.files && t.root != [] && t.root < found.value)
  {
    var from := up + [file];
    assert Init(from) == up && Directory(from) == Above(Init(from), 0) && [] + up == up;
    AboveIs([], up);
    OneDirectory([], []);
    assert Candidates(sysPath, Import([], n), Directory(from)) == [[".py"], [] + ["__init__.py"]];
    FirstOfPair(t.files, [".py"], [] + ["__init__.py"]);
  }

  // `import a.b`: the first directory of `sys.path` that holds it decides, though what it holds may not
  // count; with none there is nothing.
  lemma {:induction false} AbsoluteImportResolves(
      t: Tree, sysPath: SysPath, from: Path, parts: seq<string>, i: nat)
    requires parts != [] && i <= |sysPath|
    requires forall j :: 0 <= j < i ==> !HoldsEither(t, sysPath[j], parts)
    requires i < |sysPath| ==> HoldsEither(t, sysPath[i], parts)
    ensures var found := Resolve(t, sysPath, Import(parts, 0), from);
            if i < |sysPath| then IsFoundIn(t, sysPath[i], parts, found) else found.None?
  {
    FirstUnder(t, sysPath, parts, |sysPath|, i);
    assert sysPath[..|sysPath|] == sysPath;
    if i < |sysPath| {
      FirstOfPair(t.files, ModuleFile(sysPath[i], parts), PackageFile(sysPath[i], parts));
    }
  }

  lemma {:induction false} FirstUnder(t: Tree, sysPath: SysPath, parts: seq<string>, n: nat, i: nat)
    requires parts != [] && i <= |sysPath| && n <= |sysPath|
    requires forall j :: 0 <= j < i ==> !HoldsEither(t, sysPath[j], parts)
    requires i < |sysPath| ==> HoldsEither(t, sysPath[i], parts)
    ensures First(t.files, SpellingsUnder(sysPath[..n], parts)) ==
            if i < n then First(t.files, [ModuleFile(sysPath[i], parts), PackageFile(sysPath[i], parts)]) else None
  {
    if n > 0 {
      var directory := sysPath[n - 1];
      FirstUnder(t, sysPath, parts, n - 1, i);
      assert Init(sysPath[..n]) == sysPath[..n - 1] && Last(sysPath[..n]) == directory;
      SpellingsAre(directory, parts);
      FirstConcat(t.files, SpellingsUnder(sysPath[..n - 1], parts), Spellings(directory + parts));
      FirstOfPair(t.files, ModuleFile(directory, parts), PackageFile(directory, parts));
      if i < n {
        FirstOfPair(t.files, ModuleFile(sysPath[i], parts), PackageFile(sysPath[i], parts));
      }
    }
  }

  // ---- remembering resolutions ----

  // What the memo of resolutions is keyed by: only a relative import keeps the directory, and none keeps
  // `sys.path`.
  type Key = (Import, Path)

  function MemoKey(name: Import, from: Path): Key {
    (name, if name.level > 0 then Directory(from) else [])
  }

  // Two imports share what is remembered exactly when they are written the same and, if relative, in files
  // of one directory.
  lemma {:induction false} KeyIsSharedIff(name: Import, from: Path, other: Import, elsewhere: Path)
    ensures MemoKey(name, from) == MemoKey(other, elsewhere)
      <==> name == other && (name.level > 0 ==> Directory(from) == Directory(elsewhere))
  {
  }

  function ResolveKey(t: Tree, sysPath: SysPath, key: Key): (f: Option<Path>)
    ensures f.Some? ==> f.value in t.files
  {
    Target(t, Candidates(sysPath, key.0, key.1))
  }

  lemma {:induction false} KeyResolves(t: Tree, sysPath: SysPath, name: Import, from: Path)
    ensures ResolveKey(t, sysPath, MemoKey(name, from)) == Resolve(t, sysPath, name, from)
  {
    assert name.level == 0 ==> Candidates(sysPath, name, []) == Candidates(sysPath, name, Directory(from));
  }

  // Both trees find the same file first, or both find none that counts.
  predicate SameTarget(o: Tree, was: seq<Path>, t: Tree, now: seq<Path>) {
    var f, g := First(o.files, was), First(t.files, now);
    f == g || ((f.Some? ==> !InRoot(o, f.value)) && (g.Some? ==> !InRoot(t, g.value)))
  }

  // An answer memoised under one `sys.path`, for whichever file asked, is the resolution under another
  // exactly when the first existing candidate is the same under both, or neither's counts; relative
  // imports are always right.
  lemma {:induction false} MemoIsRightIff(t: Tree, was: SysPath, now: SysPath, name: Import, from: Path, other: Path)
    requires MemoKey(name, from) == MemoKey(name, other)
    ensures Resolve(t, was, name, other) == Resolve(t, now, name, from)
      <==> SameTarget(t, Candidates(was, name, Directory(other)), t, Candidates(now, name, Directory(from)))
    ensures name.level > 0 ==> Resolve(t, was, name, other) == Resolve(t, now, name, from)
  {
  }

  // ---- what a file imports ----

  // What was found, in order and without repetitions.
  function Gather(found: seq<Option<Path>>): seq<Path> {
    if found == [] then []
    else
      var before, f := Gather(Init(found)), Last(found);
      if f.Some? && f.value !in before then before + [f.value] else before
  }

  lemma {:induction false} GatherHolds(found: seq<Option<Path>>, f: Path)
    ensures f in Gather(found) <==> Some(f) in found
  {
    if found != [] {
      GatherHolds(Init(found), f);
      assert found == Init(found) + [Last(found)];
    }
  }

  function KeyOf(t: Tree, path: Path, n: nat): Key
    requires n < |t.named(path)|
  {
    MemoKey(t.named(path)[n], path)
  }

  function Found(t: Tree, sysPath: SysPath, path: Path): (found: seq<Option<Path>>)
    ensures |found| == |t.named(path)|
  {
    seq(|t.named(path)|, n requires 0 <= n < |t.named(path)| => Resolve(t, sysPath, t.named(path)[n], path))
  }

  // The in-tree files a source file imports.
  function Deps(t: Tree, sysPath: SysPath, path: Path): seq<Path> {
    Gather(Found(t, sysPath, path))
  }

  // ---- reaching over any graph of imports ----

  type Graph = Path -> seq<Path>

  function TrueGraph(t: Tree, sysPath: SysPath): Graph {
    path => Deps(t, sysPath, path)
  }

  // One or more imports, each file naming the next.
  ghost predicate IsChain(next: Graph, p: seq<Path>) {
    |p| > 1 && forall i :: 0 <= i < |p| - 1 ==> p[i + 1] in next(p[i])
  }

  ghost predicate ChainFrom(next: Graph, p: seq<Path>, from: Path, to: Path) {
    IsChain(next, p) && p[0] == from && Last(p) == to
  }

  ghost predicate Imports(next: Graph, from: Path, to: Path) {
    exists p :: ChainFrom(next, p, from, to)
  }

  ghost predicate IsMet(next: Graph, start: Path, f: Path) {
    f == start || Imports(next, start, f)
  }

  lemma {:induction false} ImportsOneMore(next: Graph, start: Path, f: Path, d: Path)
    requires IsMet(next, start, f) && d in next(f)
    ensures Imports(next, start, d)
  {
    if Imports(next, start, f) {
      var p :| ChainFrom(next, p, start, f);
      assert ChainFrom(next, p + [d], start, d);
    } else {
      assert ChainFrom(next, [start, d], start, d);
    }
  }

  // A set that holds what the start and each of its members import holds all that is reached.
  ghost predicate ClosedUnder(next: Graph, start: Path, holds: Path -> bool) {
    forall f, d :: (f == start || holds(f)) && d in next(f) ==> holds(d)
  }

  lemma {:induction false} ClosedHoldsReached(next: Graph, start: Path, holds: Path -> bool, p: seq<Path>, i: nat)
    requires ClosedUnder(next, start, holds) && IsChain(next, p) && p[0] == start && 0 < i < |p|
    ensures holds(p[i])
  {
    if i > 1 {
      ClosedHoldsReached(next, start, holds, p, i - 1);
    }
    assert p[i] in next(p[i - 1]);
  }

  lemma {:induction false} ReachedIsHeld(next: Graph, start: Path, holds: Path -> bool, f: Path)
    requires ClosedUnder(next, start, holds) && Imports(next, start, f)
    ensures holds(f)
  {
    var p :| ChainFrom(next, p, start, f);
    ClosedHoldsReached(next, start, holds, p, |p| - 1);
  }

  // ---- the worklist ----

  // Everything seen is imported; everything a file finished with imports is seen.
  ghost predicate Walked(next: Graph, all: set<Path>, start: Path, seen: set<Path>, queue: seq<Path>) {
    && seen <= all
    && (forall f :: f in seen ==> Imports(next, start, f))
    && (forall f :: f in queue ==> f == start || f in seen)
    && (forall f :: (f == start || f in seen) && f !in queue ==> Expanded(next, seen, f))
  }

  predicate Expanded(next: Graph, seen: set<Path>, f: Path) {
    forall d :: d in next(f) ==> d in seen
  }

  // As above with `current` taken off the queue and the first `n` of its imports looked at.
  ghost predicate Expanding(
      next: Graph, all: set<Path>, start: Path, seen: set<Path>, queue: seq<Path>, current: Path, n: nat) {
    && seen <= all
    && (forall f :: f in seen ==> Imports(next, start, f))
    && (forall f :: f in queue ==> f == start || f in seen)
    && (current == start || current in seen)
    && (forall f :: (f == start || f in seen) && f !in queue && f != current ==> Expanded(next, seen, f))
    && n <= |next(current)|
    && (forall i :: 0 <= i < n ==> next(current)[i] in seen)
  }

  lemma {:induction false} Discover(next: Graph, all: set<Path>, start: Path, seen: set<Path>, queue: seq<Path>,
                                    current: Path, n: nat)
    requires Expanding(next, all, start, seen, queue, current, n) && n < |next(current)| && next(current)[n] in all
    ensures var d := next(current)[n]; Expanding(next, all, start, seen + {d}, queue + [d], current, n + 1)
  {
    var d := next(current)[n];
    ImportsOneMore(next, start, current, d);
    var more, longer := seen + {d}, queue + [d];
    assert d in longer;
    forall f | (f == start || f in more) && f !in longer && f != current
      ensures Expanded(next, more, f)
    {
      assert Expanded(next, seen, f);
    }
  }

  lemma {:induction false} Finish(
      next: Graph, all: set<Path>, start: Path, seen: set<Path>, queue: seq<Path>, current: Path)
    requires Expanding(next, all, start, seen, queue, current, |next(current)|)
    ensures Walked(next, all, start, seen, queue)
  {
    assert Expanded(next, seen, current);
  }

  // With nothing left to expand, what was seen is what is imported; cycles included.
  lemma {:induction false} WalkedIsExact(next: Graph, all: set<Path>, start: Path, seen: set<Path>, f: Path)
    requires Walked(next, all, start, seen, [])
    ensures f in seen <==> Imports(next, start, f)
  {
    if Imports(next, start, f) {
      forall g, d | (g == start || g in seen) && d in next(g)
        ensures d in seen
      {
        assert Expanded(next, seen, g);
      }
      ReachedIsHeld(next, start, x => x in seen, f);
    }
  }

  // ---- what is carried from run to run ----

  // What one parse is filed under; the token of the import roots stands for `sys.path` itself.
  datatype Stamp = Stamp(mtime: nat, size: nat, sysPath: SysPath)

  datatype Entry = Entry(stamp: Stamp, deps: seq<Path>)

  type Carried = map<Path, Entry>

  function StampOf(t: Tree, sysPath: SysPath, path: Path): Option<Stamp> {
    var st := t.stat(path);
    if st.None? then None else Some(Stamp(st.value.0, st.value.1, sysPath))
  }

  // An entry is used only when the stamp is the file's own.
  predicate Usable(t: Tree, sysPath: SysPath, carried: Carried, path: Path) {
    path in carried && StampOf(t, sysPath, path) == Some(carried[path].stamp)
  }

  // ---- what a process remembers ----

  // `caches`: `resolved`, `file_deps`, `file_deps_new`, `import_closure`.
  datatype Memos = Memos(
    resolved: map<Key, Option<Path>>, fileDeps: map<Path, seq<Path>>, fileDepsNew: Carried,
    importClosure: map<Path, set<Path>>)

  const FRESH := Memos(map[], map[], map[], map[])

  // What an import is taken to resolve to: as remembered, else as it does now.
  function Recall(t: Tree, sysPath: SysPath, resolved: map<Key, Option<Path>>, key: Key): Option<Path> {
    if key in resolved then resolved[key] else ResolveKey(t, sysPath, key)
  }

  function Recalled(t: Tree, sysPath: SysPath, resolved: map<Key, Option<Path>>, path: Path): (found: seq<Option<Path>>)
    ensures |found| == |t.named(path)|
  {
    seq(|t.named(path)|, n requires 0 <= n < |t.named(path)| => Recall(t, sysPath, resolved, KeyOf(t, path, n)))
  }

  // What a file is taken to import: as remembered, as carried, or parsed with remembered resolutions.
  function Seen(t: Tree, sysPath: SysPath, carried: Carried, s: Memos, path: Path): seq<Path> {
    if path in s.fileDeps then s.fileDeps[path]
    else if Usable(t, sysPath, carried, path) then carried[path].deps
    else Gather(Recalled(t, sysPath, s.resolved, path))
  }

  function SeenGraph(t: Tree, sysPath: SysPath, carried: Carried, s: Memos): Graph {
    path => Seen(t, sysPath, carried, s, path)
  }

  // Every path the answers can mention: one carried or remembered may be gone.
  function Known(t: Tree, carried: Carried, s: Memos): set<Path> {
    t.files
    + (set p, i | p in carried && 0 <= i < |carried[p].deps| :: carried[p].deps[i])
    + (set p, i | p in s.fileDeps && 0 <= i < |s.fileDeps[p]| :: s.fileDeps[p][i])
    + (set k | k in s.resolved && s.resolved[k].Some? :: s.resolved[k].value)
  }

  lemma {:induction false} SeenIsKnown(t: Tree, sysPath: SysPath, carried: Carried, s: Memos, path: Path)
    ensures forall d :: d in Seen(t, sysPath, carried, s, path) ==> d in Known(t, carried, s)
  {
    forall d | d in Seen(t, sysPath, carried, s, path)
      ensures d in Known(t, carried, s)
    {
      if path in s.fileDeps {
        var i :| 0 <= i < |s.fileDeps[path]| && s.fileDeps[path][i] == d;
      } else if Usable(t, sysPath, carried, path) {
        var i :| 0 <= i < |carried[path].deps| && carried[path].deps[i] == d;
      } else {
        var found := Recalled(t, sysPath, s.resolved, path);
        GatherHolds(found, d);
        var n :| 0 <= n < |found| && found[n] == Some(d);
        assert KeyOf(t, path, n) in s.resolved ==> s.resolved[KeyOf(t, path, n)] == Some(d);
      }
    }
  }

  // ---- what it remembers after some files have been asked about ----

  function KeysOf(t: Tree, paths: set<Path>): set<Key> {
    set f, n | f in paths && 0 <= n < |t.named(f)| :: KeyOf(t, f, n)
  }

  function WithKeys(
      t: Tree, sysPath: SysPath, resolved: map<Key, Option<Path>>, keys: set<Key>): map<Key, Option<Path>> {
    map k | k in resolved.Keys + keys :: Recall(t, sysPath, resolved, k)
  }

  predicate MustParse(t: Tree, sysPath: SysPath, carried: Carried, s: Memos, path: Path) {
    path !in s.fileDeps && !Usable(t, sysPath, carried, path)
  }

  function Parsed(t: Tree, sysPath: SysPath, carried: Carried, s: Memos, paths: set<Path>): set<Path> {
    set f | f in paths && MustParse(t, sysPath, carried, s, f)
  }

  // What is parsed is recorded under the stamp of the moment, if the file has one.
  function WithRecords(t: Tree, sysPath: SysPath, carried: Carried, s: Memos, paths: set<Path>): Carried {
    var parsed := Parsed(t, sysPath, carried, s, paths);
    s.fileDepsNew + map f | f in parsed && StampOf(t, sysPath, f).Some? :: RecordOf(t, sysPath, carried, s, f)
  }

  function RecordOf(t: Tree, sysPath: SysPath, carried: Carried, s: Memos, path: Path): Entry
    requires StampOf(t, sysPath, path).Some?
  {
    Entry(StampOf(t, sysPath, path).value, Seen(t, sysPath, carried, s, path))
  }

  function WithDeps(t: Tree, sysPath: SysPath, carried: Carried, s: Memos, paths: set<Path>): map<Path, seq<Path>> {
    map f | f in s.fileDeps.Keys + paths :: Seen(t, sysPath, carried, s, f)
  }

  function After(t: Tree, sysPath: SysPath, carried: Carried, s: Memos, paths: set<Path>): Memos {
    Memos(
      WithKeys(t, sysPath, s.resolved, KeysOf(t, Parsed(t, sysPath, carried, s, paths))),
      WithDeps(t, sysPath, carried, s, paths),
      WithRecords(t, sysPath, carried, s, paths),
      s.importClosure)
  }

  lemma {:induction false} RecallStays(
      t: Tree, sysPath: SysPath, resolved: map<Key, Option<Path>>, keys: set<Key>, path: Path)
    ensures Recalled(t, sysPath, WithKeys(t, sysPath, resolved, keys), path) == Recalled(t, sysPath, resolved, path)
  {
  }

  lemma {:induction false} WithKeysTwice(
      t: Tree, sysPath: SysPath, resolved: map<Key, Option<Path>>, a: set<Key>, b: set<Key>)
    ensures WithKeys(t, sysPath, WithKeys(t, sysPath, resolved, a), b) == WithKeys(t, sysPath, resolved, a + b)
  {
  }

  // Asking changes no answer, while `sys.path` stays.
  lemma {:induction false} SeenStays(t: Tree, sysPath: SysPath, carried: Carried, s: Memos, paths: set<Path>, f: Path)
    ensures Seen(t, sysPath, carried, After(t, sysPath, carried, s, paths), f) == Seen(t, sysPath, carried, s, f)
  {
    RecallStays(t, sysPath, s.resolved, KeysOf(t, Parsed(t, sysPath, carried, s, paths)), f);
  }

  lemma {:induction false} AfterNone(t: Tree, sysPath: SysPath, carried: Carried, s: Memos)
    ensures After(t, sysPath, carried, s, {}) == s
  {
    var r := After(t, sysPath, carried, s, {});
    assert r.resolved == s.resolved && r.fileDeps == s.fileDeps && r.fileDepsNew == s.fileDepsNew;
  }

  lemma {:induction false} ParsedTwice(
      t: Tree, sysPath: SysPath, carried: Carried, s: Memos, a: set<Path>, b: set<Path>)
    ensures var r := After(t, sysPath, carried, s, a);
            Parsed(t, sysPath, carried, s, a) + Parsed(t, sysPath, carried, r, b)
              == Parsed(t, sysPath, carried, s, a + b)
  {
  }

  lemma {:induction false} RecordsTwice(
      t: Tree, sysPath: SysPath, carried: Carried, s: Memos, r: Memos, a: set<Path>, b: set<Path>)
    requires r.fileDepsNew == WithRecords(t, sysPath, carried, s, a)
    requires forall f :: Seen(t, sysPath, carried, r, f) == Seen(t, sysPath, carried, s, f)
    requires Parsed(t, sysPath, carried, s, a) + Parsed(t, sysPath, carried, r, b)
              == Parsed(t, sysPath, carried, s, a + b)
    ensures WithRecords(t, sysPath, carried, r, b) == WithRecords(t, sysPath, carried, s, a + b)
  {
    var twice, both := WithRecords(t, sysPath, carried, r, b), WithRecords(t, sysPath, carried, s, a + b);
    forall f
      ensures f in twice <==> f in both
      ensures f in twice ==> twice[f] == both[f]
    {
      assert f in Parsed(t, sysPath, carried, s, a + b) <==>
             f in Parsed(t, sysPath, carried, s, a) || f in Parsed(t, sysPath, carried, r, b);
    }
  }

  lemma {:induction false} DepsTwice(
      t: Tree, sysPath: SysPath, carried: Carried, s: Memos, r: Memos, a: set<Path>, b: set<Path>)
    requires r.fileDeps == WithDeps(t, sysPath, carried, s, a)
    requires forall f :: Seen(t, sysPath, carried, r, f) == Seen(t, sysPath, carried, s, f)
    ensures WithDeps(t, sysPath, carried, r, b) == WithDeps(t, sysPath, carried, s, a + b)
  {
  }

  lemma {:induction false} AfterTwice(t: Tree, sysPath: SysPath, carried: Carried, s: Memos, a: set<Path>, b: set<Path>)
    ensures After(t, sysPath, carried, After(t, sysPath, carried, s, a), b) == After(t, sysPath, carried, s, a + b)
  {
    var r := After(t, sysPath, carried, s, a);
    forall f
      ensures Seen(t, sysPath, carried, r, f) == Seen(t, sysPath, carried, s, f)
    {
      SeenStays(t, sysPath, carried, s, a, f);
    }
    ParsedTwice(t, sysPath, carried, s, a, b);
    var (x, y) := (Parsed(t, sysPath, carried, s, a), Parsed(t, sysPath, carried, r, b));
    KeysOfBoth(t, x, y);
    WithKeysTwice(t, sysPath, s.resolved, KeysOf(t, x), KeysOf(t, y));
    DepsTwice(t, sysPath, carried, s, r, a, b);
    RecordsTwice(t, sysPath, carried, s, r, a, b);
  }

  lemma {:induction false} KeysOfBoth(t: Tree, a: set<Path>, b: set<Path>)
    ensures KeysOf(t, a) + KeysOf(t, b) == KeysOf(t, a + b)
  {
  }

  // ---- closures ----

  // A `conftest.py` in a directory from the run root down to the module's.
  predicate IsConftestOf(t: Tree, moduleKey: Path, f: Path) {
    exists k :: 0 <= k < |moduleKey| && f == t.root + moduleKey[..k] + ["conftest.py"] && f in t.files
  }

  ghost function ClosureBy(next: Graph, t: Tree, all: set<Path>, moduleKey: Path): set<Path> {
    set f | f in all && (Imports(next, t.root + moduleKey, f) || IsConftestOf(t, moduleKey, f))
  }

  // The module's closure as the process would find it now, and as it is.
  ghost function SeenClosure(t: Tree, sysPath: SysPath, carried: Carried, s: Memos, moduleKey: Path): set<Path> {
    ClosureBy(SeenGraph(t, sysPath, carried, s), t, Known(t, carried, s), moduleKey)
  }

  ghost function TrueClosure(t: Tree, sysPath: SysPath, moduleKey: Path): set<Path> {
    ClosureBy(TrueGraph(t, sysPath), t, t.files, moduleKey)
  }

  // The files a walk from the module asks about.
  ghost function Met(t: Tree, sysPath: SysPath, carried: Carried, s: Memos, moduleKey: Path): set<Path> {
    var start := t.root + moduleKey;
    set f | f in Known(t, carried, s) + {start} && IsMet(SeenGraph(t, sysPath, carried, s), start, f)
  }

  // One closure asked for: as remembered, else walked, and remembered.
  ghost function Asked(t: Tree, sysPath: SysPath, carried: Carried, s: Memos, moduleKey: Path): Memos {
    if moduleKey in s.importClosure then s
    else
      After(t, sysPath, carried, s, Met(t, sysPath, carried, s, moduleKey)).(
        importClosure := s.importClosure[moduleKey := SeenClosure(t, sysPath, carried, s, moduleKey)])
  }

  // ---- the process ----

  lemma {:induction false} TakeLast(next: Graph, all: set<Path>, start: Path, seen: set<Path>, queue: seq<Path>)
    requires queue != [] && Walked(next, all, start, seen, queue)
    ensures Expanding(next, all, start, seen, Init(queue), Last(queue), 0)
  {
    assert queue == Init(queue) + [Last(queue)];
  }

  // The imports of one file onto the queue, those not seen before.
  method Expand(deps: seq<Path>, seen0: set<Path>, queue0: seq<Path>, ghost current: Path, ghost start: Path,
                ghost next: Graph, ghost all: set<Path>)
      returns (seen: set<Path>, queue: seq<Path>)
    requires deps == next(current) && forall d :: d in deps ==> d in all
    requires Expanding(next, all, start, seen0, queue0, current, 0)
    ensures Walked(next, all, start, seen, queue)
    ensures seen0 <= seen && (seen == seen0 ==> queue == queue0)
    ensures forall f :: f in queue0 || f in seen - seen0 ==> f in queue
  {
    seen, queue := seen0, queue0;
    for i := 0 to |deps|
      invariant Expanding(next, all, start, seen, queue, current, i)
      invariant seen0 <= seen && (seen == seen0 ==> queue == queue0)
      invariant forall f :: f in queue0 || f in seen - seen0 ==> f in queue
    {
      if deps[i] !in seen {
        Discover(next, all, start, seen, queue, current, i);
        seen, queue := seen + {deps[i]}, queue + [deps[i]];
      }
    }
    Finish(next, all, start, seen, queue, current);
  }

  // And every conftest from the run root down to the module's directory.
  method WithConftests(t: Tree, moduleKey: Path, seen: set<Path>) returns (closure: set<Path>)
    requires moduleKey != []
    ensures forall f :: f in closure <==> f in seen || IsConftestOf(t, moduleKey, f)
  {
    closure := seen;
    var directory := Init(moduleKey);
    while true
      invariant directory < moduleKey
      invariant forall f :: f in closure <==> f in seen || IsConftestBelow(t, moduleKey, |directory|, f)
      decreases |directory|
    {
      var conftest := t.root + directory + ["conftest.py"];
      assert directory == moduleKey[..|directory|];
      if conftest in t.files {
        closure := closure + {conftest};
      }
      if directory == [] {
        break;
      }
      directory := Init(directory);
    }
  }

  class Caches {
    const t: Tree
    const fileDepsCache: Carried
    var resolved: map<Key, Option<Path>>
    var fileDeps: map<Path, seq<Path>>
    var fileDepsNew: Carried
    var hits: nat
    var parsed: nat
    var importClosure: map<Path, set<Path>>

    constructor (t: Tree, carried: Carried)
      ensures Now() == FRESH && this.t == t && fileDepsCache == carried
    {
      this.t, fileDepsCache := t, carried;
      resolved, fileDeps, fileDepsNew := map[], map[], map[];
      hits, parsed, importClosure := 0, 0, map[];
    }

    ghost function Now(): Memos
      reads this
    {
      Memos(resolved, fileDeps, fileDepsNew, importClosure)
    }

    // `_resolve_module_file`
    method ResolveFile(sysPath: SysPath, name: Import, from: Path) returns (r: Option<Path>)
      modifies this`resolved
      ensures resolved == WithKeys(t, sysPath, old(resolved), {MemoKey(name, from)})
      ensures r == Recall(t, sysPath, old(resolved), MemoKey(name, from))
    {
      var key := MemoKey(name, from);
      if key in resolved {
        assert WithKeys(t, sysPath, resolved, {key}) == resolved;
        return resolved[key];
      }
      r := Resolve(t, sysPath, name, from);
      KeyResolves(t, sysPath, name, from);
      resolved := resolved[key := r];
    }

    // `_file_deps_from_cache`
    method DepsFromCache(sysPath: SysPath, path: Path) returns (r: Option<seq<Path>>)
      modifies this`hits
      ensures r == if Usable(t, sysPath, fileDepsCache, path) then Some(fileDepsCache[path].deps) else None
      ensures r.Some? <==>
                && path in fileDepsCache
                && t.stat(path) == Some((fileDepsCache[path].stamp.mtime, fileDepsCache[path].stamp.size))
                && fileDepsCache[path].stamp.sysPath == sysPath
      ensures hits == old(hits) + if r.Some? then 1 else 0
    {
      if path !in fileDepsCache {
        return None;
      }
      var st := StampOf(t, sysPath, path);
      var entry := fileDepsCache[path];
      if st.None? || st.value != entry.stamp {
        return None;
      }
      hits := hits + 1;
      r := Some(entry.deps);
    }

    // What a file imports, read from the file, with what is remembered of its imports.
    method Parse(sysPath: SysPath, path: Path) returns (deps: seq<Path>)
      modifies this`resolved
      ensures resolved == WithKeys(t, sysPath, old(resolved), KeysOf(t, {path}))
      ensures deps == Gather(Recalled(t, sysPath, old(resolved), path))
    {
      deps := [];
      var names := t.named(path);
      ghost var start := resolved;
      ParseStart(t, sysPath, start, path);
      for i := 0 to |names|
        invariant ParsedUpTo(t, sysPath, start, path, i, resolved, deps)
      {
        ParseStep(t, sysPath, start, path, i, resolved, deps);
        var f := ResolveFile(sysPath, names[i], path);
        if f.Some? && f.value !in deps {
          deps := deps + [f.value];
        }
      }
      ParseEnd(t, sysPath, start, path, resolved, deps);
    }

    // `_file_deps`: each file is parsed, or taken from the cache, once per process.
    method FileDeps(sysPath: SysPath, path: Path) returns (deps: seq<Path>)
      modifies this`resolved, this`fileDeps, this`fileDepsNew, this`hits, this`parsed
      ensures Now() == After(t, sysPath, fileDepsCache, old(Now()), {path})
      ensures deps == Seen(t, sysPath, fileDepsCache, old(Now()), path)
      ensures hits + parsed == old(hits + parsed) + if path in old(fileDeps) then 0 else 1
    {
      ghost var s := Now();
      if path in fileDeps {
        AskRemembered(t, sysPath, fileDepsCache, s, path);
        return fileDeps[path];
      }
      var cached := DepsFromCache(sysPath, path);
      if cached.Some? {
        AskRemembered(t, sysPath, fileDepsCache, s, path);
        deps := cached.value;
      } else {
        AskParsed(t, sysPath, fileDepsCache, s, path);
        RecordOne(t, sysPath, fileDepsCache, s, path);
        deps := Parse(sysPath, path);
        parsed := parsed + 1;
        var st := StampOf(t, sysPath, path);
        if st.Some? {
          fileDepsNew := fileDepsNew[path := Entry(st.value, deps)];
        }
      }
      fileDeps := fileDeps[path := deps];
    }

    // The loop over the queue: what the module imports, directly or not, as the process sees it.
    method Walk(sysPath: SysPath, start: Path) returns (seen: set<Path>)
      modifies this
      ensures var s := old(Now());
              && Walked(SeenGraph(t, sysPath, fileDepsCache, s), Known(t, fileDepsCache, s), start, seen, [])
              && Now() == After(t, sysPath, fileDepsCache, s, seen + {start})
    {
      ghost var s := Now();
      ghost var (next, all) := (SeenGraph(t, sysPath, fileDepsCache, s), Known(t, fileDepsCache, s));
      ghost var asked: set<Path> := {};
      AfterNone(t, sysPath, fileDepsCache, s);
      seen := {};
      var queue := [start];
      while queue != []
        invariant Now() == After(t, sysPath, fileDepsCache, s, asked)
        invariant Walked(next, all, start, seen, queue)
        invariant AskedSoFar({}, asked, start, seen, queue)
        decreases all - seen, |queue|
      {
        ghost var (before, pending) := (seen, queue);
        var current, rest := Last(queue), Init(queue);
        TakeLast(next, all, start, seen, queue);
        SeenStays(t, sysPath, fileDepsCache, s, asked, current);
        AfterTwice(t, sysPath, fileDepsCache, s, asked, {current});
        var deps := FileDeps(sysPath, current);
        SeenIsKnown(t, sysPath, fileDepsCache, s, current);
        seen, queue := Expand(deps, seen, rest, current, start, next, all);
        AskedNext({}, asked, start, before, pending, seen, queue);
        asked := asked + {current};
        FewerLeft(all, before, seen);
      }
      assert asked == seen + {start};
    }

    // `_import_closure`
    method ImportClosure(sysPath: SysPath, moduleKey: Path) returns (closure: set<Path>)
      requires moduleKey != []
      modifies this
      ensures Now() == Asked(t, sysPath, fileDepsCache, old(Now()), moduleKey)
      ensures moduleKey in importClosure && closure == importClosure[moduleKey]
    {
      if moduleKey in importClosure {
        return importClosure[moduleKey];
      }
      ghost var s := Now();
      var seen := Walk(sysPath, t.root + moduleKey);
      closure := WithConftests(t, moduleKey, seen);
      ClosureIsSeen(t, sysPath, fileDepsCache, s, moduleKey, seen, closure);
      importClosure := importClosure[moduleKey := closure];
    }

    // `report_with_imports`: what the test ran, and its module's closure without line numbers, the
    // same for every test of the module whichever ran first.
    method ReportWithImports(sysPath: SysPath, moduleKey: Path, enabled: bool, touched: map<Path, seq<nat>>)
        returns (report: map<Path, seq<nat>>)
      requires moduleKey != []
      modifies this
      ensures Now() == if enabled then Asked(t, sysPath, fileDepsCache, old(Now()), moduleKey) else old(Now())
      ensures !enabled ==> report == touched
      ensures enabled ==> moduleKey in importClosure && report.Keys == touched.Keys + importClosure[moduleKey]
      ensures forall f :: f in report ==> report[f] == if f in touched then touched[f] else []
    {
      report := touched;
      if !enabled {
        return;
      }
      var closure := ImportClosure(sysPath, moduleKey);
      report := WithFiles(touched, closure);
    }
  }

  method WithFiles(touched: map<Path, seq<nat>>, closure: set<Path>) returns (report: map<Path, seq<nat>>)
    ensures report.Keys == touched.Keys + closure
    ensures forall f :: f in report ==> report[f] == if f in touched then touched[f] else []
  {
    report := touched;
    var left := closure;
    while left != {}
      invariant left <= closure
      invariant report.Keys == touched.Keys + (closure - left)
      invariant forall f :: f in report ==> report[f] == if f in touched then touched[f] else []
      decreases left
    {
      var rel :| rel in left;
      if rel !in report {
        report := report[rel := []];
      }
      left := left - {rel};
    }
  }

  // ---- steps of the methods ----

  function FirstKeys(t: Tree, path: Path, i: nat): set<Key>
    requires i <= |t.named(path)|
  {
    set n | 0 <= n < i :: KeyOf(t, path, n)
  }

  lemma {:induction false} WithNoKeys(t: Tree, sysPath: SysPath, resolved: map<Key, Option<Path>>)
    ensures WithKeys(t, sysPath, resolved, {}) == resolved
  {
  }

  // After the first `i` imports of a file.
  ghost predicate ParsedUpTo(t: Tree, sysPath: SysPath, start: map<Key, Option<Path>>, path: Path, i: nat,
                             resolved: map<Key, Option<Path>>, deps: seq<Path>) {
    && i <= |t.named(path)|
    && resolved == WithKeys(t, sysPath, start, FirstKeys(t, path, i))
    && deps == Gather(Recalled(t, sysPath, start, path)[..i])
  }

  lemma {:induction false} ParseStart(t: Tree, sysPath: SysPath, start: map<Key, Option<Path>>, path: Path)
    ensures ParsedUpTo(t, sysPath, start, path, 0, start, [])
  {
    assert FirstKeys(t, path, 0) == {};
    WithNoKeys(t, sysPath, start);
  }

  lemma {:induction false} ParseEnd(t: Tree, sysPath: SysPath, start: map<Key, Option<Path>>, path: Path,
                                    resolved: map<Key, Option<Path>>, deps: seq<Path>)
    requires ParsedUpTo(t, sysPath, start, path, |t.named(path)|, resolved, deps)
    ensures resolved == WithKeys(t, sysPath, start, KeysOf(t, {path}))
    ensures deps == Gather(Recalled(t, sysPath, start, path))
  {
    var found := Recalled(t, sysPath, start, path);
    assert found[..|t.named(path)|] == found;
    assert FirstKeys(t, path, |t.named(path)|) == KeysOf(t, {path});
  }

  lemma {:induction false} ParseStep(t: Tree, sysPath: SysPath, start: map<Key, Option<Path>>, path: Path, i: nat,
                                     resolved: map<Key, Option<Path>>, deps: seq<Path>)
    requires i < |t.named(path)| && ParsedUpTo(t, sysPath, start, path, i, resolved, deps)
    ensures var key := KeyOf(t, path, i);
            var f := Recall(t, sysPath, resolved, key);
            ParsedUpTo(t, sysPath, start, path, i + 1, WithKeys(t, sysPath, resolved, {key}),
                       if f.Some? && f.value !in deps then deps + [f.value] else deps)
  {
    var found, key := Recalled(t, sysPath, start, path), KeyOf(t, path, i);
    KeyStep(t, sysPath, start, path, i);
    assert Recall(t, sysPath, resolved, key) == found[i];
    assert Init(found[..i + 1]) == found[..i] && Last(found[..i + 1]) == found[i];
  }

  lemma {:induction false} KeyStep(t: Tree, sysPath: SysPath, start: map<Key, Option<Path>>, path: Path, i: nat)
    requires i < |t.named(path)|
    ensures WithKeys(t, sysPath, WithKeys(t, sysPath, start, FirstKeys(t, path, i)), {KeyOf(t, path, i)})
      == WithKeys(t, sysPath, start, FirstKeys(t, path, i + 1))
  {
    WithKeysTwice(t, sysPath, start, FirstKeys(t, path, i), {KeyOf(t, path, i)});
    assert FirstKeys(t, path, i) + {KeyOf(t, path, i)} == FirstKeys(t, path, i + 1);
  }

  lemma {:induction false} RecordOne(t: Tree, sysPath: SysPath, carried: Carried, s: Memos, path: Path)
    requires MustParse(t, sysPath, carried, s, path)
    ensures WithRecords(t, sysPath, carried, s, {path}) ==
            if StampOf(t, sysPath, path).Some? then s.fileDepsNew[path := RecordOf(t, sysPath, carried, s, path)]
            else s.fileDepsNew
  {
    assert Parsed(t, sysPath, carried, s, {path}) == {path};
  }

  lemma {:induction false} AskParsed(t: Tree, sysPath: SysPath, carried: Carried, s: Memos, path: Path)
    requires MustParse(t, sysPath, carried, s, path)
    ensures After(t, sysPath, carried, s, {path}) ==
            Memos(WithKeys(t, sysPath, s.resolved, KeysOf(t, {path})),
                  s.fileDeps[path := Gather(Recalled(t, sysPath, s.resolved, path))],
                  WithRecords(t, sysPath, carried, s, {path}), s.importClosure)
  {
    assert Parsed(t, sysPath, carried, s, {path}) == {path};
    WithOneDeps(t, sysPath, carried, s, path);
  }

  lemma {:induction false} AskRemembered(t: Tree, sysPath: SysPath, carried: Carried, s: Memos, path: Path)
    requires !MustParse(t, sysPath, carried, s, path)
    ensures After(t, sysPath, carried, s, {path})
      == s.(fileDeps := s.fileDeps[path := Seen(t, sysPath, carried, s, path)])
  {
    assert Parsed(t, sysPath, carried, s, {path}) == {} && KeysOf(t, {}) == {};
    WithNoKeys(t, sysPath, s.resolved);
    WithOneDeps(t, sysPath, carried, s, path);
    assert WithRecords(t, sysPath, carried, s, {path}) == s.fileDepsNew;
  }

  lemma {:induction false} WithOneDeps(t: Tree, sysPath: SysPath, carried: Carried, s: Memos, path: Path)
    ensures WithDeps(t, sysPath, carried, s, {path}) == s.fileDeps[path := Seen(t, sysPath, carried, s, path)]
  {
  }

  lemma {:induction false} ClosureIsSeen(t: Tree, sysPath: SysPath, carried: Carried, s: Memos, moduleKey: Path,
                                         seen: set<Path>, closure: set<Path>)
    requires Walked(SeenGraph(t, sysPath, carried, s), Known(t, carried, s), t.root + moduleKey, seen, [])
    requires forall f :: f in closure <==> f in seen || IsConftestOf(t, moduleKey, f)
    ensures closure == SeenClosure(t, sysPath, carried, s, moduleKey)
    ensures Met(t, sysPath, carried, s, moduleKey) == seen + {t.root + moduleKey}
  {
    forall f
      ensures f in seen <==> Imports(SeenGraph(t, sysPath, carried, s), t.root + moduleKey, f)
    {
      WalkedIsExact(SeenGraph(t, sysPath, carried, s), Known(t, carried, s), t.root + moduleKey, seen, f);
    }
  }

  // Of the files seen, all but those on the queue have been asked about, and nothing else since.
  ghost predicate AskedSoFar(before: set<Path>, asked: set<Path>, start: Path, seen: set<Path>, queue: seq<Path>) {
    && before <= asked <= before + seen + {start}
    && forall f :: f in queue || f in asked || (f != start && f !in seen)
  }

  lemma {:induction false} AskedNext(
      before: set<Path>, asked: set<Path>, start: Path, seen: set<Path>, queue: seq<Path>, more: set<Path>,
      longer: seq<Path>)
    requires queue != [] && AskedSoFar(before, asked, start, seen, queue) && seen <= more
    requires Last(queue) == start || Last(queue) in seen
    requires forall f :: f in Init(queue) || f in more - seen ==> f in longer
    ensures AskedSoFar(before, asked + {Last(queue)}, start, more, longer)
  {
    forall f | (f == start || f in more) && f !in longer
      ensures f in asked + {Last(queue)}
    {
      assert queue == Init(queue) + [Last(queue)];
    }
  }

  lemma {:induction false} FewerLeft(files: set<Path>, before: set<Path>, seen: set<Path>)
    requires before <= seen <= files
    ensures seen == before || files - seen < files - before
  {
    if seen != before {
      var f :| f in seen && f !in before;
      assert f in files - before && f !in files - seen;
    }
  }

  // A conftest in a directory of the module's path no shorter than `n`.
  ghost predicate IsConftestBelow(t: Tree, moduleKey: Path, n: nat, f: Path) {
    exists k :: n < k < |moduleKey| && f == t.root + moduleKey[..k] + ["conftest.py"] && f in t.files
  }
}
