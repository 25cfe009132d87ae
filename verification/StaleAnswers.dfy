/** Closures that are wrong (footprint.py): because a file came or went between two runs, and because a
    test changed `sys.path` within one. */
module StaleAnswers {
  import opened Prelude
  import opened Footprints
  import opened CarriedCaches

  // ---- a file that comes, and one that goes ----

  const M: Path := ["r", "m.py"]
  const FOO: Path := ["r", "foo.py"]
  const KEY: Path := ["m.py"]
  const ROOT: SysPath := [["r"]]

  // `m.py` says `import foo`; every file keeps its modification time and size.
  function NamedIn(path: Path): seq<Import> {
    if path == M then [Import(["foo"], 0)] else []
  }

  function Project(files: set<Path>): Tree {
    Tree(["r"], files, NamedIn, path => if path in files then Some((1, 1)) else None)
  }

  function RunOver(files: set<Path>): Run {
    Run(Project(files), [[Ask(ROOT, KEY)]])
  }

  // The two spellings of a module of one name, in a directory of one name below the root.
  lemma {:induction false} SpellingsOf(dir: Path, name: string, file: string)
    requires file == name + ".py"
    ensures Spellings(dir + [name]) == [dir + [file], dir + [name] + ["__init__.py"]]
  {
    assert Init(dir + [name]) == dir && Last(dir + [name]) == name;
  }

  lemma {:induction false} ProjectImports(files: set<Path>)
    requires files == {M} || files == {M, FOO}
    ensures Deps(Project(files), ROOT, M) == if FOO in files then [FOO] else []
  {
    var t, name := Project(files), Import(["foo"], 0);
    assert t.named(M) == [name];
    assert "foo" + ".py" == "foo.py" && Init(ROOT) == [] && Last(ROOT) == ["r"];
    SpellingsOf(["r"], "foo", "foo.py");
    var package := ["r"] + ["foo"] + ["__init__.py"];
    assert ["r"] + ["foo.py"] == FOO && |package| == 3;
    assert Candidates(ROOT, name, Directory(M)) == [FOO, package];
    FirstOfPair(files, FOO, package);
    assert package !in files;
    GatherOne(Found(t, ROOT, M));
  }

  lemma {:induction false} GatherOne(found: seq<Option<Path>>)
    requires |found| == 1
    ensures Gather(found) == if found[0].Some? then [found[0].value] else []
  {
    assert Init(found) == [] && Last(found) == found[0];
  }

  // What one worker of one run hands on.
  lemma {:induction false} CarriedFromOne(t: Tree, asks: seq<Ask>)
    ensures CarriedAfter([Run(t, [asks])]) == MemosAfter(t, map[], asks).fileDepsNew
  {
    var runs := [Run(t, [asks])];
    CarriedStep(runs, 0);
    assert runs[..0] == [] && runs[..1] == runs;
    assert Init([asks]) == [] && Last([asks]) == asks;
    var more := MemosAfter(t, map[], asks).fileDepsNew;
    assert Learnt(t, map[], [asks]) == map[] + more;
    assert map[] + (map[] + more) == more;
  }

  lemma {:induction false} ProjectRecords(files: set<Path>)
    requires M in files
    ensures var carried := CarriedAfter([RunOver(files)]);
      M in carried && carried[M] == Entry(Stamp(1, 1, ROOT), Deps(Project(files), ROOT, M))
  {
    var t, asks := Project(files), [Ask(ROOT, KEY)];
    CarriedFromOne(t, asks);
    RemembersAsked(t, map[], asks, KEY);
    assert asks[0].moduleKey == KEY && t.root + KEY == M;
    StableRecords(t, ROOT, map[], asks, M);
    assert IsMet(ServedGraph(t, ROOT, map[]), t.root + KEY, M);
  }

  lemma {:induction false} OverRunsIsOneProject(parse: Parse, was: set<Path>, now: set<Path>)
    requires forall path, st :: parse(path, st) == NamedIn(path)
    ensures OneProject([RunOver(was)], Project(now), parse)
  {
  }

  lemma {:induction false} LeafImportsNothing(next: Graph, start: Path, f: Path)
    requires next(start) == []
    ensures !Imports(next, start, f)
  {
    if Imports(next, start, f) {
      ReachedIsHeld(next, start, x => false, f);
    }
  }

  // A second run is told nothing of a file that has come, and still told of one that has gone: the stamp
  // of the file that imports it is what it was.
  lemma {:induction false} NewFileIsMissed(parse: Parse)
    requires forall path, st :: parse(path, st) == NamedIn(path)
    ensures var (runs, t, ask) := ([RunOver({M})], Project({M, FOO}), Ask(ROOT, KEY));
      && OneProject(runs, t, parse) && Overtaken(runs, t, [], ROOT, M)
      && FOO in TrueClosure(t, ROOT, KEY) && FOO !in Answer(t, CarriedAfter(runs), [], ask)
    ensures var (runs, t, ask) := ([RunOver({M, FOO})], Project({M}), Ask(ROOT, KEY));
      && OneProject(runs, t, parse) && Overtaken(runs, t, [], ROOT, M)
      && FOO !in t.files && FOO in Answer(t, CarriedAfter(runs), [], ask)
  {
    ComesUnseen(parse);
    GoesUnseen(parse);
  }

  lemma {:induction false} ComesUnseen(parse: Parse)
    requires forall path, st :: parse(path, st) == NamedIn(path)
    ensures var (runs, t, ask) := ([RunOver({M})], Project({M, FOO}), Ask(ROOT, KEY));
      && OneProject(runs, t, parse) && Overtaken(runs, t, [], ROOT, M)
      && FOO in TrueClosure(t, ROOT, KEY) && FOO !in Answer(t, CarriedAfter(runs), [], ask)
  {
    CarriedOver(parse, {M}, {M, FOO});
    MissedThen(Project({M, FOO}), CarriedAfter([RunOver({M})]));
  }

  lemma {:induction false} MissedThen(t: Tree, carried: Carried)
    requires t.root == ["r"] && Served(t, ROOT, carried, M) == [] && Deps(t, ROOT, M) == [FOO]
    ensures FOO in TrueClosure(t, ROOT, KEY) && FOO !in Answer(t, carried, [], Ask(ROOT, KEY))
  {
    assert M == t.root + KEY;
    AnswerFromOne(t, carried, M);
    ImportsOneMore(TrueGraph(t, ROOT), M, M, FOO);
    TrueClosureHolds(t, ROOT, KEY, FOO);
  }

  lemma {:induction false} ReportedStill(t: Tree, carried: Carried)
    requires t.root == ["r"] && Served(t, ROOT, carried, M) == [FOO]
    ensures FOO in Answer(t, carried, [], Ask(ROOT, KEY))
  {
    assert M == t.root + KEY;
    AnswerFromOne(t, carried, M);
  }

  // What a later process takes `m.py` to import is what the earlier one found.
  lemma {:induction false} CarriedOver(parse: Parse, was: set<Path>, now: set<Path>)
    requires forall path, st :: parse(path, st) == NamedIn(path)
    requires (was == {M} && now == {M, FOO}) || (was == {M, FOO} && now == {M})
    ensures var (runs, t) := ([RunOver(was)], Project(now));
      && OneProject(runs, t, parse) && Overtaken(runs, t, [], ROOT, M)
      && Served(t, ROOT, CarriedAfter(runs), M) == (if FOO in was then [FOO] else [])
      && Deps(t, ROOT, M) == (if FOO in now then [FOO] else [])
  {
    var runs, t := [RunOver(was)], Project(now);
    ProjectRecords(was);
    ProjectImports(was);
    ProjectImports(now);
    OverRunsIsOneProject(parse, was, now);
    StableIsServed(t, ROOT, CarriedAfter(runs), [], M);
    assert FOO in Deps(t, ROOT, M) <==> FOO !in SeenNow(runs, t, [], ROOT)(M);
    WrongIffOvertaken(parse, runs, t, [], ROOT, M);
  }

  lemma {:induction false} AnswerFromOne(t: Tree, carried: Carried, start: Path)
    requires t.root == ["r"] && start == t.root + KEY && Served(t, ROOT, carried, start) in {[], [FOO]}
    ensures FOO in Answer(t, carried, [], Ask(ROOT, KEY)) <==> Served(t, ROOT, carried, start) == [FOO]
  {
    var next := ServedGraph(t, ROOT, carried);
    StableAnswer(t, carried, [], Ask(ROOT, KEY));
    NoConftest(t);
    if Served(t, ROOT, carried, start) == [FOO] {
      ImportsOneMore(next, start, start, FOO);
    } else {
      LeafImportsNothing(next, start, FOO);
    }
  }

  lemma {:induction false} GoesUnseen(parse: Parse)
    requires forall path, st :: parse(path, st) == NamedIn(path)
    ensures var (runs, t, ask) := ([RunOver({M, FOO})], Project({M}), Ask(ROOT, KEY));
      && OneProject(runs, t, parse) && Overtaken(runs, t, [], ROOT, M)
      && FOO !in t.files && FOO in Answer(t, CarriedAfter(runs), [], ask)
  {
    CarriedOver(parse, {M, FOO}, {M});
    ReportedStill(Project({M}), CarriedAfter([RunOver({M, FOO})]));
  }

  lemma {:induction false} NoConftest(t: Tree)
    requires t.root == ["r"]
    ensures !IsConftestOf(t, KEY, FOO)
  {
    assert FOO[1][0] == 'f' && "conftest.py"[0] == 'c';
    forall k | 0 <= k < |KEY|
      ensures FOO != t.root + KEY[..k] + ["conftest.py"]
    {
      assert KEY[..k] == [];
      assert (t.root + KEY[..k] + ["conftest.py"])[1] == "conftest.py";
    }
  }

  // ---- a test that changes `sys.path` ----

  const A: Path := ["r", "a.py"]
  const B: Path := ["r", "b.py"]
  const HELPER: Path := ["r", "lib", "helper.py"]
  const LIB: SysPath := [["r"], ["r", "lib"]]
  const ASK_A: Path := ["a.py"]
  const ASK_B: Path := ["b.py"]

  // Two modules say `import helper`, which lies in `lib`.
  function HelperNamed(path: Path): seq<Import> {
    if path == A || path == B then [Import(["helper"], 0)] else []
  }

  function TwoModules(): Tree {
    Tree(["r"], {A, B, HELPER}, HelperNamed, path => if path in {A, B, HELPER} then Some((1, 1)) else None)
  }

  const HELPER_KEY: Key := (Import(["helper"], 0), [])

  lemma {:induction false} HelperResolves()
    ensures ResolveKey(TwoModules(), ROOT, HELPER_KEY) == None
    ensures ResolveKey(TwoModules(), LIB, HELPER_KEY) == Some(HELPER)
  {
    var t, name := TwoModules(), Import(["helper"], 0);
    assert "helper" + ".py" == "helper.py" && Init(ROOT) == [] && Last(ROOT) == ["r"];
    assert Init(LIB) == ROOT && Last(LIB) == ["r", "lib"];
    SpellingsOf(["r"], "helper", "helper.py");
    SpellingsOf(["r", "lib"], "helper", "helper.py");
    var (x, y) := (["r"] + ["helper.py"], ["r"] + ["helper"] + ["__init__.py"]);
    var z := ["r", "lib"] + ["helper"] + ["__init__.py"];
    assert x !in t.files && y !in t.files by {
      assert |x| == 2 && x[1][0] == 'h' && A[1][0] == 'a' && B[1][0] == 'b' && |HELPER| == 3;
      assert |y| == 3 && y[1][0] == 'h' && HELPER[1][0] == 'l';
    }
    assert ["r", "lib"] + ["helper.py"] == HELPER;
    assert Candidates(ROOT, name, []) == [x, y];
    assert Candidates(LIB, name, []) == [x, y] + [HELPER, z];
    FirstOfPair(t.files, x, y);
    FirstConcat(t.files, [x, y], [HELPER, z]);
    FirstOfPair(t.files, HELPER, z);
  }

  // After a module alone has been asked about, its one import is remembered as it resolved then.
  lemma {:induction false} FirstAsked(t: Tree, sysPath: SysPath, moduleKey: Path, path: Path, key: Key)
    requires path == t.root + moduleKey && |t.named(path)| == 1 && KeyOf(t, path, 0) == key
    requires t.named(HELPER) == []
    requires ResolveKey(t, sysPath, key) == None || ResolveKey(t, sysPath, key) == Some(HELPER)
    ensures var s := MemosAfter(t, map[], [Ask(sysPath, moduleKey)]);
            && s.importClosure.Keys == {moduleKey}
            && key in s.resolved && s.resolved[key] == ResolveKey(t, sysPath, key)
            && forall f :: f in s.fileDeps ==> f == path || f == HELPER
  {
    var asks := [Ask(sysPath, moduleKey)];
    assert Init(asks) == [] && Last(asks) == asks[0];
    var next := SeenGraph(t, sysPath, map[], FRESH);
    GatherOne(Recalled(t, sysPath, map[], path));
    assert Gather([]) == [] && Recalled(t, sysPath, map[], HELPER) == [];
    var met := Met(t, sysPath, map[], FRESH, moduleKey);
    assert path in met && path in Parsed(t, sysPath, map[], FRESH, met);
    assert key in KeysOf(t, Parsed(t, sysPath, map[], FRESH, met));
    forall f | f in met
      ensures f == path || f == HELPER
    {
      if f != path {
        ReachedIsHeld(next, path, x => x == HELPER, f);
      }
    }
  }

  // What the second module is then taken to import.
  lemma {:induction false} SecondSeen(t: Tree, sysPath: SysPath, s: Memos, path: Path, key: Key)
    requires |t.named(path)| == 1 && KeyOf(t, path, 0) == key && path !in s.fileDeps && key in s.resolved
    ensures Seen(t, sysPath, map[], s, path) == if s.resolved[key].Some? then [s.resolved[key].value] else []
  {
    GatherOne(Recalled(t, sysPath, s.resolved, path));
  }

  lemma {:induction false} SecondDeps(sysPath: SysPath)
    ensures Deps(TwoModules(), sysPath, B) ==
            var f := ResolveKey(TwoModules(), sysPath, HELPER_KEY); if f.Some? then [f.value] else []
  {
    var t := TwoModules();
    KeyResolves(t, sysPath, Import(["helper"], 0), B);
    GatherOne(Found(t, sysPath, B));
  }

  lemma {:induction false} HelperIsNoConftest(t: Tree, moduleKey: Path)
    requires t.root == ["r"] && |moduleKey| == 1
    ensures !IsConftestOf(t, moduleKey, HELPER)
  {
    forall k | 0 <= k < |moduleKey|
      ensures |t.root + moduleKey[..k] + ["conftest.py"]| == 2
    {
    }
  }

  // What `b.py` is taken to import, when `a.py` was asked about under another `sys.path`.
  lemma {:induction false} SecondSees(was: SysPath, now: SysPath)
    requires (was == ROOT && now == LIB) || (was == LIB && now == ROOT)
    ensures var t := TwoModules();
            var s := MemosAfter(t, map[], [Ask(was, ASK_A)]);
            && Seen(t, now, map[], s, B) == (if was == LIB then [HELPER] else [])
            && Deps(t, now, B) == (if now == LIB then [HELPER] else [])
            && B !in s.fileDeps && ASK_B !in s.importClosure
  {
    var t := TwoModules();
    HelperResolves();
    FilesDiffer();
    FirstAsked(t, was, ASK_A, A, HELPER_KEY);
    AfterFirst(t, was, now, MemosAfter(t, map[], [Ask(was, ASK_A)]));
    SecondDeps(now);
  }

  lemma {:induction false} FilesDiffer()
    ensures A != B && A != HELPER && B != HELPER && ASK_A != ASK_B
    ensures TwoModules().root + ASK_A == A && TwoModules().root + ASK_B == B
  {
    assert A[1][0] == 'a' && B[1][0] == 'b' && |HELPER| == 3 && ASK_A[0][0] == 'a' && ASK_B[0][0] == 'b';
  }

  lemma {:induction false} AfterFirst(t: Tree, was: SysPath, now: SysPath, s: Memos)
    requires t == TwoModules() && s.importClosure.Keys == {ASK_A}
    requires HELPER_KEY in s.resolved && s.resolved[HELPER_KEY] == ResolveKey(t, was, HELPER_KEY)
    requires forall f :: f in s.fileDeps ==> f == A || f == HELPER
    ensures B !in s.fileDeps && ASK_B !in s.importClosure
    ensures Seen(t, now, map[], s, B) ==
            var f := ResolveKey(t, was, HELPER_KEY); if f.Some? then [f.value] else []
  {
    FilesDiffer();
    SecondSeen(t, now, s, B, HELPER_KEY);
  }

  // What the closure of a module that imports at most the helper holds.
  lemma {:induction false} HelperIsAnswered(t: Tree, asks: seq<Ask>, ask: Ask, start: Path)
    requires t.root == ["r"] && |ask.moduleKey| == 1 && start == t.root + ask.moduleKey
    requires Deps(t, ask.sysPath, start) in {[], [HELPER]}
    requires Seen(t, ask.sysPath, map[], MemosAfter(t, map[], asks), start) in {[], [HELPER]}
    ensures HELPER in Answer(t, map[], asks, ask)
      <==> Seen(t, ask.sysPath, map[], MemosAfter(t, map[], asks), start) == [HELPER]
    ensures HELPER in TrueClosure(t, ask.sysPath, ask.moduleKey) <==> Deps(t, ask.sysPath, start) == [HELPER]
  {
    var s := MemosAfter(t, map[], asks);
    AnswerIsSeen(t, map[], asks, ask);
    SeenClosureHolds(t, ask.sysPath, map[], s, ask.moduleKey, HELPER);
    TrueClosureHolds(t, ask.sysPath, ask.moduleKey, HELPER);
    HelperIsNoConftest(t, ask.moduleKey);
    OneImport(SeenGraph(t, ask.sysPath, map[], s), start);
    OneImport(TrueGraph(t, ask.sysPath), start);
  }

  lemma {:induction false} SecondAnswer(was: SysPath, now: SysPath)
    requires (was == ROOT && now == LIB) || (was == LIB && now == ROOT)
    ensures var (t, asks) := (TwoModules(), [Ask(was, ASK_A)]);
            && (HELPER in Answer(t, map[], asks, Ask(now, ASK_B)) <==> was == LIB)
            && (HELPER in TrueClosure(t, now, ASK_B) <==> now == LIB)
  {
    SecondSees(was, now);
    assert TwoModules().root + ASK_B == B;
    HelperIsAnswered(TwoModules(), [Ask(was, ASK_A)], Ask(now, ASK_B), B);
  }

  lemma {:induction false} OneImport(next: Graph, start: Path)
    requires next(start) == [] || next(start) == [HELPER]
    ensures Imports(next, start, HELPER) <==> next(start) == [HELPER]
  {
    if next(start) == [HELPER] {
      ImportsOneMore(next, start, start, HELPER);
    } else {
      LeafImportsNothing(next, start, HELPER);
    }
  }

  // A test of `a.py` puts `lib` on `sys.path`, or its module's teardown takes it off: the closure of
  // `b.py`, asked for next, is what it would have been before. And the list recorded for it is filed under
  // the new `sys.path`, so that the next run, which never changes it, gets it wrong on the same tree.
  lemma {:induction false} PathChangeIsMissed()
    ensures var t := TwoModules();
            && HELPER in TrueClosure(t, LIB, ASK_B) && HELPER !in Answer(t, map[], [Ask(ROOT, ASK_A)], Ask(LIB, ASK_B))
            && HELPER !in TrueClosure(t, ROOT, ASK_B) && HELPER in Answer(t, map[], [Ask(LIB, ASK_A)], Ask(ROOT, ASK_B))
    ensures var t := TwoModules();
            var runs := [Run(t, [[Ask(ROOT, ASK_A), Ask(LIB, ASK_B)]])];
            && B in CarriedAfter(runs) && CarriedAfter(runs)[B] == Entry(Stamp(1, 1, LIB), [])
            && HELPER !in Answer(t, CarriedAfter(runs), [], Ask(LIB, ASK_B))
  {
    SecondAnswer(ROOT, LIB);
    SecondAnswer(LIB, ROOT);
    MisfiledEntry();
    MisfiledAnswer();
  }

  lemma {:induction false} MisfiledEntry()
    ensures var t := TwoModules();
            var runs := [Run(t, [[Ask(ROOT, ASK_A), Ask(LIB, ASK_B)]])];
            B in CarriedAfter(runs) && CarriedAfter(runs)[B] == Entry(Stamp(1, 1, LIB), [])
  {
    var t := TwoModules();
    SecondSees(ROOT, LIB);
    assert t.root + ASK_B == B;
    SecondRecorded(t, Ask(ROOT, ASK_A), Ask(LIB, ASK_B), B);
  }

  lemma {:induction false} SecondRecorded(t: Tree, first: Ask, second: Ask, path: Path)
    requires var s := MemosAfter(t, map[], [first]);
             path == t.root + second.moduleKey && path !in s.fileDeps && second.moduleKey !in s.importClosure
    requires StampOf(t, second.sysPath, path).Some?
    ensures var carried := CarriedAfter([Run(t, [[first, second]])]);
            path in carried && carried[path] == RecordOf(t, second.sysPath, map[], MemosAfter(t, map[], [first]), path)
  {
    var asks := [first, second];
    assert Init(asks) == [first] && Last(asks) == second;
    RecordedAs(t, second.sysPath, MemosAfter(t, map[], [first]), second.moduleKey, path);
    CarriedFromOne(t, asks);
  }

  lemma {:induction false} RecordedAs(t: Tree, sysPath: SysPath, s: Memos, moduleKey: Path, path: Path)
    requires path == t.root + moduleKey && path !in s.fileDeps && moduleKey !in s.importClosure
    requires StampOf(t, sysPath, path).Some?
    ensures var more := Asked(t, sysPath, map[], s, moduleKey).fileDepsNew;
            path in more && more[path] == RecordOf(t, sysPath, map[], s, path)
  {
    var met := Met(t, sysPath, map[], s, moduleKey);
    assert path in met && path in Parsed(t, sysPath, map[], s, met);
  }

  lemma {:induction false} MisfiledAnswer()
    ensures var t := TwoModules();
            var runs := [Run(t, [[Ask(ROOT, ASK_A), Ask(LIB, ASK_B)]])];
            HELPER !in Answer(t, CarriedAfter(runs), [], Ask(LIB, ASK_B))
  {
    var t := TwoModules();
    var runs := [Run(t, [[Ask(ROOT, ASK_A), Ask(LIB, ASK_B)]])];
    MisfiledEntry();
    var carried := CarriedAfter(runs);
    StableAnswer(t, carried, [], Ask(LIB, ASK_B));
    assert t.root + ASK_B == B && Served(t, LIB, carried, B) == [];
    LeafImportsNothing(ServedGraph(t, LIB, carried), B, HELPER);
    HelperIsNoConftest(t, ASK_B);
  }
}
