/** The dependency cache carried from run to run (footprint.py), and the memos of each process: an entry
    is filed under what determines the parse of a file and under `sys.path` as it is when the file is
    parsed, not under what its imports were resolved with. When an answer is still right, when a closure
    built on it is, and what many runs hand on. */
module CarriedCaches {
  import opened Prelude
  import opened Footprints

  // ---- one import, then and now ----

  // No candidate, up to the one that was found, has appeared or gone.
  ghost predicate Undisturbed(candidates: seq<Path>, was: set<Path>, now: set<Path>) {
    forall i :: 0 <= i < |candidates| && NoneBefore(candidates, i, was) ==>
      (candidates[i] in was <==> candidates[i] in now)
  }

  predicate NoneBefore(candidates: seq<Path>, i: nat, files: set<Path>)
    requires i <= |candidates|
  {
    forall j :: 0 <= j < i ==> candidates[j] !in files
  }

  lemma {:induction false} FirstAt(files: set<Path>, candidates: seq<Path>) returns (i: nat)
    ensures i <= |candidates| && NoneBefore(candidates, i, files)
    ensures First(files, candidates) == if i < |candidates| then Some(candidates[i]) else None
    ensures i < |candidates| ==> candidates[i] in files
  {
    if candidates == [] || candidates[0] in files {
      i := 0;
    } else {
      var k := FirstAt(files, candidates[1..]);
      i := k + 1;
      forall j | 0 <= j < i
        ensures candidates[j] !in files
      {
        if j > 0 {
          assert candidates[1..][j - 1] == candidates[j];
        }
      }
    }
  }

  lemma {:induction false} FirstStaysIff(candidates: seq<Path>, was: set<Path>, now: set<Path>)
    ensures First(was, candidates) == First(now, candidates) <==> Undisturbed(candidates, was, now)
  {
    var i := FirstAt(was, candidates);
    var k := FirstAt(now, candidates);
    if Undisturbed(candidates, was, now) {
      forall j | 0 <= j < i
        ensures candidates[j] !in now
      {
        assert NoneBefore(candidates, j, was);
      }
      assert k >= i;
      if i < |candidates| {
        assert candidates[i] in now;
      }
    } else {
      var j :| && 0 <= j < |candidates| && NoneBefore(candidates, j, was)
               && (candidates[j] in was) != (candidates[j] in now);
      assert j <= i;
    }
  }

  // A moment of a process, as far as resolving goes.
  datatype View = View(t: Tree, sysPath: SysPath)

  function CandidatesIn(v: View, key: Key): seq<Path> {
    Candidates(v.sysPath, key.0, key.1)
  }

  function TargetIn(v: View, key: Key): Option<Path> {
    ResolveKey(v.t, v.sysPath, key)
  }

  // An import resolves the same at two moments of one project exactly when the first existing candidate
  // is the same, or neither's counts; under one `sys.path` it does if no candidate up to the one that was
  // found has appeared or gone.
  lemma {:induction false} ResolvesTheSameIff(v: View, w: View, key: Key)
    requires v.t.root == w.t.root
    ensures TargetIn(v, key) == TargetIn(w, key) <==> SameTarget(v.t, CandidatesIn(v, key), w.t, CandidatesIn(w, key))
    ensures v.sysPath == w.sysPath && Undisturbed(CandidatesIn(v, key), v.t.files, w.t.files) ==>
              TargetIn(v, key) == TargetIn(w, key)
  {
    FirstStaysIff(CandidatesIn(v, key), v.t.files, w.t.files);
  }

  // ---- one file ----

  // Every import that resolved otherwise is made up for: what it used to resolve to still is imported,
  // what it resolves to now already was.
  predicate MadeUpFor(was: seq<Option<Path>>, now: seq<Option<Path>>)
    requires |was| == |now|
  {
    forall n :: 0 <= n < |now| && was[n] != now[n] ==>
      (was[n].Some? ==> was[n] in now) && (now[n].Some? ==> now[n] in was)
  }

  ghost predicate SameFiles(a: seq<Path>, b: seq<Path>) {
    forall f :: f in a <==> f in b
  }

  lemma {:induction false} SameIffMadeUpFor(was: seq<Option<Path>>, now: seq<Option<Path>>)
    requires |was| == |now|
    ensures SameFiles(Gather(was), Gather(now)) <==> MadeUpFor(was, now)
  {
    if MadeUpFor(was, now) {
      forall f
        ensures f in Gather(was) <==> f in Gather(now)
      {
        GatherHolds(was, f);
        GatherHolds(now, f);
        if Some(f) in was {
          var n :| 0 <= n < |was| && was[n] == Some(f);
          assert was[n] == now[n] || was[n] in now;
        }
        if Some(f) in now {
          var n :| 0 <= n < |now| && now[n] == Some(f);
          assert was[n] == now[n] || now[n] in was;
        }
      }
    }
    if SameFiles(Gather(was), Gather(now)) {
      forall n | 0 <= n < |now|
        ensures (was[n].Some? ==> was[n] in now) && (now[n].Some? ==> now[n] in was)
      {
        StillFound(was, now, n);
        StillFound(now, was, n);
      }
    }
  }

  lemma {:induction false} StillFound(was: seq<Option<Path>>, now: seq<Option<Path>>, n: nat)
    requires |was| == |now| && n < |was| && SameFiles(Gather(was), Gather(now))
    ensures was[n].Some? ==> was[n] in now
  {
    if was[n].Some? {
      GatherHolds(was, was[n].value);
      GatherHolds(now, was[n].value);
    }
  }

  // ---- a closure ----

  ghost predicate SameReach(a: Graph, b: Graph, start: Path) {
    forall f :: Imports(a, start, f) <==> Imports(b, start, f)
  }

  // What `a` adds to the imports of files met over `b` is reached over `b` anyway.
  ghost predicate SurplusIsReached(a: Graph, b: Graph, start: Path) {
    forall f, d :: IsMet(b, start, f) && Surplus(a, b, f, d) ==> Imports(b, start, d)
  }

  predicate Surplus(a: Graph, b: Graph, f: Path, d: Path) {
    d in a(f) && d !in b(f)
  }

  lemma {:induction false} SurplusReachedIsWithin(a: Graph, b: Graph, start: Path, f: Path)
    requires SurplusIsReached(a, b, start) && Imports(a, start, f)
    ensures Imports(b, start, f)
  {
    var holds := (x: Path) => Imports(b, start, x);
    forall g, d | (g == start || holds(g)) && d in a(g)
      ensures holds(d)
    {
      if d in b(g) {
        ImportsOneMore(b, start, g, d);
      } else {
        assert Surplus(a, b, g, d);
      }
    }
    ReachedIsHeld(a, start, holds, f);
  }

  // Two import graphs reach the same files exactly when each reaches anyway what the other adds to the
  // files met on the way: nothing need be asked of files neither meets.
  lemma {:induction false} SameReachIff(a: Graph, b: Graph, start: Path)
    ensures SameReach(a, b, start) <==> SurplusIsReached(a, b, start) && SurplusIsReached(b, a, start)
  {
    if SurplusIsReached(a, b, start) && SurplusIsReached(b, a, start) {
      forall f
        ensures Imports(a, start, f) <==> Imports(b, start, f)
      {
        if Imports(a, start, f) {
          SurplusReachedIsWithin(a, b, start, f);
        }
        if Imports(b, start, f) {
          SurplusReachedIsWithin(b, a, start, f);
        }
      }
    }
    if SameReach(a, b, start) {
      forall f, d | IsMet(b, start, f) && d in a(f) && d !in b(f)
        ensures Imports(b, start, d)
      {
        ImportsOneMore(a, start, f, d);
      }
      forall f, d | IsMet(a, start, f) && d in b(f) && d !in a(f)
        ensures Imports(a, start, d)
      {
        ImportsOneMore(b, start, f, d);
      }
    }
  }

  // Files not met over one of the graphs are no matter: a change outside a closure leaves it.
  lemma {:induction false} AgreeingGraphs(a: Graph, b: Graph, start: Path)
    requires forall f :: IsMet(b, start, f) ==> forall d :: d in a(f) <==> d in b(f)
    ensures SameReach(a, b, start)
  {
    assert SurplusIsReached(a, b, start);
    forall f | Imports(a, start, f)
      ensures Imports(b, start, f)
    {
      SurplusReachedIsWithin(a, b, start, f);
    }
    SameReachIff(a, b, start);
  }

  lemma {:induction false} ReachedIsKnown(next: Graph, all: set<Path>, start: Path, f: Path)
    requires forall g, d :: d in next(g) ==> d in all
    requires Imports(next, start, f)
    ensures f in all
  {
    ReachedIsHeld(next, start, x => x in all, f);
  }

  ghost predicate IsMember(next: Graph, t: Tree, moduleKey: Path, f: Path) {
    Imports(next, t.root + moduleKey, f) || IsConftestOf(t, moduleKey, f)
  }

  lemma {:induction false} SeenClosureHolds(
      t: Tree, sysPath: SysPath, carried: Carried, s: Memos, moduleKey: Path, f: Path)
    ensures f in SeenClosure(t, sysPath, carried, s, moduleKey)
      <==> IsMember(SeenGraph(t, sysPath, carried, s), t, moduleKey, f)
  {
    var next := SeenGraph(t, sysPath, carried, s);
    if Imports(next, t.root + moduleKey, f) {
      forall g, d | d in next(g)
        ensures d in Known(t, carried, s)
      {
        SeenIsKnown(t, sysPath, carried, s, g);
      }
      ReachedIsKnown(next, Known(t, carried, s), t.root + moduleKey, f);
    }
  }

  lemma {:induction false} TrueClosureHolds(t: Tree, sysPath: SysPath, moduleKey: Path, f: Path)
    ensures f in TrueClosure(t, sysPath, moduleKey) <==> IsMember(TrueGraph(t, sysPath), t, moduleKey, f)
  {
    var next := TrueGraph(t, sysPath);
    if Imports(next, t.root + moduleKey, f) {
      forall g, d | d in next(g)
        ensures d in t.files
      {
        GatherHolds(Found(t, sysPath, g), d);
      }
      ReachedIsKnown(next, t.files, t.root + moduleKey, f);
    }
  }

  // ---- one process ----

  // A test has run and its module's closure is asked for, under `sys.path` as it is then.
  datatype Ask = Ask(sysPath: SysPath, moduleKey: Path)

  ghost function MemosAfter(t: Tree, carried: Carried, asks: seq<Ask>): Memos {
    if asks == [] then FRESH
    else Asked(t, Last(asks).sysPath, carried, MemosAfter(t, carried, Init(asks)), Last(asks).moduleKey)
  }

  // What is answered, after other asks.
  ghost function Answer(t: Tree, carried: Carried, asks: seq<Ask>, ask: Ask): set<Path> {
    Asked(t, ask.sysPath, carried, MemosAfter(t, carried, asks), ask.moduleKey).importClosure[ask.moduleKey]
  }

  function HeldGraph(s: Memos): Graph {
    path => if path in s.fileDeps then s.fileDeps[path] else []
  }

  // Each closure remembered is what the remembered files make it, and they are all remembered.
  ghost predicate Settled(t: Tree, s: Memos) {
    forall m :: m in s.importClosure ==> IsSettled(t, s, m, s.importClosure[m])
  }

  ghost predicate IsSettled(t: Tree, s: Memos, moduleKey: Path, closure: set<Path>) {
    && (forall f :: IsMet(HeldGraph(s), t.root + moduleKey, f) ==> f in s.fileDeps)
    && (forall f :: f in closure <==> IsMember(HeldGraph(s), t, moduleKey, f))
  }

  // More files remembered do not unsettle a closure.
  lemma {:induction false} StaysSettled(t: Tree, s: Memos, r: Memos, moduleKey: Path, closure: set<Path>)
    requires IsSettled(t, s, moduleKey, closure)
    requires forall f :: f in s.fileDeps ==> f in r.fileDeps && r.fileDeps[f] == s.fileDeps[f]
    ensures IsSettled(t, r, moduleKey, closure)
  {
    AgreeingGraphs(HeldGraph(r), HeldGraph(s), t.root + moduleKey);
  }

  lemma {:induction false} NewIsSettled(t: Tree, sysPath: SysPath, carried: Carried, s: Memos, moduleKey: Path)
    ensures var r := After(t, sysPath, carried, s, Met(t, sysPath, carried, s, moduleKey));
            IsSettled(t, r, moduleKey, SeenClosure(t, sysPath, carried, s, moduleKey))
  {
    var met, start := Met(t, sysPath, carried, s, moduleKey), t.root + moduleKey;
    var r, next := After(t, sysPath, carried, s, met), SeenGraph(t, sysPath, carried, s);
    forall f | IsMet(next, start, f)
      ensures f in met && r.fileDeps[f] == next(f)
    {
      MetIsKnown(t, sysPath, carried, s, moduleKey, f);
    }
    AgreeingGraphs(HeldGraph(r), next, start);
    forall f
      ensures f in SeenClosure(t, sysPath, carried, s, moduleKey) <==> IsMember(HeldGraph(r), t, moduleKey, f)
    {
      SeenClosureHolds(t, sysPath, carried, s, moduleKey, f);
    }
  }

  lemma {:induction false} MetIsKnown(t: Tree, sysPath: SysPath, carried: Carried, s: Memos, moduleKey: Path, f: Path)
    ensures f in Met(t, sysPath, carried, s, moduleKey)
      <==> IsMet(SeenGraph(t, sysPath, carried, s), t.root + moduleKey, f)
  {
    var next := SeenGraph(t, sysPath, carried, s);
    if f != t.root + moduleKey && Imports(next, t.root + moduleKey, f) {
      forall g, d | d in next(g)
        ensures d in Known(t, carried, s)
      {
        SeenIsKnown(t, sysPath, carried, s, g);
      }
      ReachedIsKnown(next, Known(t, carried, s), t.root + moduleKey, f);
    }
  }

  lemma {:induction false} AskedIsSettled(t: Tree, sysPath: SysPath, carried: Carried, s: Memos, moduleKey: Path)
    requires Settled(t, s)
    ensures Settled(t, Asked(t, sysPath, carried, s, moduleKey))
  {
    if moduleKey !in s.importClosure {
      var met := Met(t, sysPath, carried, s, moduleKey);
      var r := Asked(t, sysPath, carried, s, moduleKey);
      var after := After(t, sysPath, carried, s, met);
      assert HeldGraph(r) == HeldGraph(after) by {
        assert r.fileDeps == after.fileDeps;
      }
      NewIsSettled(t, sysPath, carried, s, moduleKey);
      forall m | m in r.importClosure
        ensures IsSettled(t, r, m, r.importClosure[m])
      {
        if m != moduleKey {
          StaysSettled(t, s, r, m, s.importClosure[m]);
        } else {
          StaysSettled(t, after, r, m, r.importClosure[m]);
        }
      }
    }
  }

  lemma {:induction false} ProcessIsSettled(t: Tree, carried: Carried, asks: seq<Ask>)
    ensures Settled(t, MemosAfter(t, carried, asks))
  {
    if asks != [] {
      ProcessIsSettled(t, carried, Init(asks));
      AskedIsSettled(t, Last(asks).sysPath, carried, MemosAfter(t, carried, Init(asks)), Last(asks).moduleKey);
    }
  }

  // Remembered or walked afresh: the answer is the closure as the process sees it now.
  lemma {:induction false} AnswerIsSeen(t: Tree, carried: Carried, asks: seq<Ask>, ask: Ask)
    ensures Answer(t, carried, asks, ask)
      == SeenClosure(t, ask.sysPath, carried, MemosAfter(t, carried, asks), ask.moduleKey)
  {
    var s, m := MemosAfter(t, carried, asks), ask.moduleKey;
    ProcessIsSettled(t, carried, asks);
    if m in s.importClosure {
      AgreeingGraphs(SeenGraph(t, ask.sysPath, carried, s), HeldGraph(s), t.root + m);
      forall f
        ensures f in s.importClosure[m] <==> f in SeenClosure(t, ask.sysPath, carried, s, m)
      {
        SeenClosureHolds(t, ask.sysPath, carried, s, m, f);
      }
    }
  }

  // ---- where its answers come from ----

  // `sys.path` when an import was resolved for what is remembered of it: at the first ask after which
  // something is; else as it is now.
  ghost function KeyMoment(t: Tree, carried: Carried, asks: seq<Ask>, now: SysPath, key: Key): SysPath {
    if asks == [] || key !in MemosAfter(t, carried, asks).resolved then now
    else KeyMoment(t, carried, Init(asks), Last(asks).sysPath, key)
  }

  lemma {:induction false} RecallGoesBack(t: Tree, carried: Carried, asks: seq<Ask>, now: SysPath, key: Key)
    ensures Recall(t, now, MemosAfter(t, carried, asks).resolved, key)
      == TargetIn(View(t, KeyMoment(t, carried, asks, now, key)), key)
  {
    if asks != [] {
      RecallGoesBack(t, carried, Init(asks), Last(asks).sysPath, key);
    }
  }

  // When a file was first asked about: what had been asked before, and `sys.path`.
  datatype Moment = Moment(asks: seq<Ask>, sysPath: SysPath)

  ghost function FileMoment(t: Tree, carried: Carried, asks: seq<Ask>, now: SysPath, path: Path): Moment {
    if asks == [] || path !in MemosAfter(t, carried, asks).fileDeps then Moment(asks, now)
    else FileMoment(t, carried, Init(asks), Last(asks).sysPath, path)
  }

  lemma {:induction false} SeenGoesBack(t: Tree, carried: Carried, asks: seq<Ask>, now: SysPath, path: Path)
    ensures var m := FileMoment(t, carried, asks, now, path);
            var s := MemosAfter(t, carried, m.asks);
            && path !in s.fileDeps
            && Seen(t, now, carried, MemosAfter(t, carried, asks), path) == Seen(t, m.sysPath, carried, s, path)
  {
    if asks != [] && path in MemosAfter(t, carried, asks).fileDeps {
      SeenGoesBack(t, carried, Init(asks), Last(asks).sysPath, path);
    }
  }

  // The moments each import of a file parsed by this process was resolved at.
  ghost function ParsedOrigins(
      t: Tree, carried: Carried, asks: seq<Ask>, now: SysPath, path: Path): (origins: seq<View>)
    ensures |origins| == |t.named(path)|
  {
    var m := FileMoment(t, carried, asks, now, path);
    seq(|t.named(path)|, n requires 0 <= n < |t.named(path)| =>
      View(t, KeyMoment(t, carried, m.asks, m.sysPath, KeyOf(t, path, n))))
  }

  // What the imports of a file resolve to, each at a moment of its own.
  function Resolutions(origins: seq<View>, t: Tree, path: Path): (found: seq<Option<Path>>)
    requires |origins| == |t.named(path)|
    ensures |found| == |t.named(path)|
  {
    seq(|origins|, n requires 0 <= n < |origins| => TargetIn(origins[n], KeyOf(t, path, n)))
  }

  lemma {:induction false} ParsedGoesBack(t: Tree, carried: Carried, asks: seq<Ask>, now: SysPath, path: Path)
    requires !Usable(t, FileMoment(t, carried, asks, now, path).sysPath, carried, path)
    ensures Seen(t, now, carried, MemosAfter(t, carried, asks), path)
      == Gather(Resolutions(ParsedOrigins(t, carried, asks, now, path), t, path))
  {
    var m, origins := FileMoment(t, carried, asks, now, path), ParsedOrigins(t, carried, asks, now, path);
    var found := Recalled(t, m.sysPath, MemosAfter(t, carried, m.asks).resolved, path);
    SeenGoesBack(t, carried, asks, now, path);
    forall n | 0 <= n < |found|
      ensures found[n] == Resolutions(origins, t, path)[n]
    {
      RecallGoesBack(t, carried, m.asks, m.sysPath, KeyOf(t, path, n));
    }
    assert found == Resolutions(origins, t, path);
  }

  // A record was made when the file was first asked about.
  lemma {:induction false} RecordGoesBack(t: Tree, carried: Carried, asks: seq<Ask>, now: SysPath, path: Path)
    requires path in MemosAfter(t, carried, asks).fileDepsNew
    ensures var s, q := MemosAfter(t, carried, asks), FileMoment(t, carried, asks, now, path).sysPath;
            && path in s.fileDeps && s.fileDeps[path] == s.fileDepsNew[path].deps
            && StampOf(t, q, path) == Some(s.fileDepsNew[path].stamp)
            && !Usable(t, q, carried, path)
  {
    var s, last := MemosAfter(t, carried, Init(asks)), Last(asks);
    if path in s.fileDepsNew {
      RecordGoesBack(t, carried, Init(asks), last.sysPath, path);
    }
    AskRecords(t, last.sysPath, carried, s, last.moduleKey, path);
  }

  // What one ask makes of a file's record: it stays, or it is new and of this moment.
  lemma {:induction false} AskRecords(
      t: Tree, sysPath: SysPath, carried: Carried, s: Memos, moduleKey: Path, path: Path)
    requires path in s.fileDepsNew ==> path in s.fileDeps
    ensures var r := Asked(t, sysPath, carried, s, moduleKey);
            && (path in s.fileDeps ==> path in r.fileDeps && r.fileDeps[path] == s.fileDeps[path])
            && (path in s.fileDepsNew ==> path in r.fileDepsNew && r.fileDepsNew[path] == s.fileDepsNew[path])
            && (path in r.fileDepsNew && path !in s.fileDepsNew ==>
                  && MustParse(t, sysPath, carried, s, path) && path in r.fileDeps
                  && StampOf(t, sysPath, path) == Some(r.fileDepsNew[path].stamp)
                  && r.fileDepsNew[path].deps == r.fileDeps[path])
  {
  }

  ghost predicate IsViewOf(t: Tree, asks: seq<Ask>, v: View) {
    exists i :: 0 <= i < |asks| && v == View(t, asks[i].sysPath)
  }

  lemma {:induction false} ViewOfMore(t: Tree, asks: seq<Ask>, before: seq<Ask>, v: View)
    requires before <= asks && IsViewOf(t, before, v)
    ensures IsViewOf(t, asks, v)
  {
    var i :| 0 <= i < |before| && v == View(t, before[i].sysPath);
    assert asks[i] == before[i];
  }

  lemma {:induction false} KeyMomentIsOne(t: Tree, carried: Carried, asks: seq<Ask>, now: SysPath, key: Key)
    ensures var q := KeyMoment(t, carried, asks, now, key); q == now || IsViewOf(t, asks, View(t, q))
  {
    if asks != [] && key in MemosAfter(t, carried, asks).resolved {
      var q := KeyMoment(t, carried, asks, now, key);
      KeyMomentIsOne(t, carried, Init(asks), Last(asks).sysPath, key);
      if q == Last(asks).sysPath {
        assert View(t, q) == View(t, asks[|asks| - 1].sysPath);
      } else {
        ViewOfMore(t, asks, Init(asks), View(t, q));
      }
    }
  }

  lemma {:induction false} FileMomentIsOne(t: Tree, carried: Carried, asks: seq<Ask>, now: SysPath, path: Path)
    ensures var m := FileMoment(t, carried, asks, now, path);
            && m.asks <= asks
            && (IsViewOf(t, asks, View(t, m.sysPath))
                || (m == Moment(asks, now) && path !in MemosAfter(t, carried, asks).fileDeps))
  {
    if asks != [] && path in MemosAfter(t, carried, asks).fileDeps {
      var m := FileMoment(t, carried, asks, now, path);
      FileMomentIsOne(t, carried, Init(asks), Last(asks).sysPath, path);
      if m.sysPath == Last(asks).sysPath {
        assert View(t, m.sysPath) == View(t, asks[|asks| - 1].sysPath);
      } else {
        ViewOfMore(t, asks, Init(asks), View(t, m.sysPath));
      }
    }
  }

  lemma {:induction false} OriginsAreAsked(t: Tree, carried: Carried, asks: seq<Ask>, now: SysPath, path: Path, n: nat)
    requires n < |t.named(path)|
    ensures var v := ParsedOrigins(t, carried, asks, now, path)[n];
            IsViewOf(t, asks, v) || (v == View(t, now) && path !in MemosAfter(t, carried, asks).fileDeps)
  {
    var m, v := FileMoment(t, carried, asks, now, path), ParsedOrigins(t, carried, asks, now, path)[n];
    FileMomentIsOne(t, carried, asks, now, path);
    KeyMomentIsOne(t, carried, m.asks, m.sysPath, KeyOf(t, path, n));
    if IsViewOf(t, m.asks, v) {
      ViewOfMore(t, asks, m.asks, v);
    }
  }

  // ---- many runs ----

  // The tree a run finds, and what is asked of each of its workers.
  datatype Run = Run(t: Tree, workers: seq<seq<Ask>>)

  // What the workers leave, in the order their files are folded in.
  ghost function Learnt(t: Tree, carried: Carried, workers: seq<seq<Ask>>): Carried {
    if workers == [] then map[]
    else Learnt(t, carried, Init(workers)) + MemosAfter(t, carried, Last(workers)).fileDepsNew
  }

  // What the next run starts with.
  ghost function CarriedAfter(runs: seq<Run>): Carried {
    if runs == [] then map[]
    else
      var carried := CarriedAfter(Init(runs));
      carried + Learnt(Last(runs).t, carried, Last(runs).workers)
  }

  predicate HasModules(asks: seq<Ask>) {
    forall i :: 0 <= i < |asks| ==> asks[i].moduleKey != []
  }

  ghost predicate AreAnswers(t: Tree, carried: Carried, asks: seq<Ask>, closures: seq<set<Path>>) {
    |closures| <= |asks| && forall i :: 0 <= i < |closures| ==> closures[i] == Answer(t, carried, asks[..i], asks[i])
  }

  method Work(t: Tree, carried: Carried, asks: seq<Ask>) returns (closures: seq<set<Path>>, learnt: Carried)
    requires HasModules(asks)
    ensures |closures| == |asks| && AreAnswers(t, carried, asks, closures)
    ensures learnt == MemosAfter(t, carried, asks).fileDepsNew
  {
    var caches := new Caches(t, carried);
    closures := [];
    for i := 0 to |asks|
      invariant caches.t == t && caches.fileDepsCache == carried
      invariant caches.Now() == MemosAfter(t, carried, asks[..i])
      invariant |closures| == i && AreAnswers(t, carried, asks, closures)
    {
      assert Init(asks[..i + 1]) == asks[..i];
      var closure := caches.ImportClosure(asks[i].sysPath, asks[i].moduleKey);
      AnswerOneMore(t, carried, asks, closures, closure);
      closures := closures + [closure];
    }
    assert asks[..|asks|] == asks;
    learnt := caches.fileDepsNew;
  }

  lemma {:induction false} AnswerOneMore(
      t: Tree, carried: Carried, asks: seq<Ask>, closures: seq<set<Path>>, closure: set<Path>)
    requires |closures| < |asks| && AreAnswers(t, carried, asks, closures)
    requires closure == Answer(t, carried, asks[..|closures|], asks[|closures|])
    ensures AreAnswers(t, carried, asks, closures + [closure])
  {
    var more := closures + [closure];
    forall i | 0 <= i < |more|
      ensures more[i] == Answer(t, carried, asks[..i], asks[i])
    {
      assert i < |closures| ==> more[i] == closures[i];
    }
  }

  ghost predicate AreReports(t: Tree, carried: Carried, workers: seq<seq<Ask>>, reports: seq<seq<set<Path>>>) {
    |reports| <= |workers| &&
    forall w :: 0 <= w < |reports| ==> |reports[w]| == |workers[w]| && AreAnswers(t, carried, workers[w], reports[w])
  }

  // After the first workers of a run.
  ghost predicate WorkedUpTo(
      t: Tree, carried: Carried, workers: seq<seq<Ask>>, reports: seq<seq<set<Path>>>, learnt: Carried) {
    && AreReports(t, carried, workers, reports)
    && learnt == Learnt(t, carried, workers[..|reports|])
  }

  lemma {:induction false} WorkerOneMore(
      t: Tree, carried: Carried, workers: seq<seq<Ask>>, reports: seq<seq<set<Path>>>, learnt: Carried,
      closures: seq<set<Path>>)
    requires |reports| < |workers| && WorkedUpTo(t, carried, workers, reports, learnt)
    requires |closures| == |workers[|reports|]| && AreAnswers(t, carried, workers[|reports|], closures)
    ensures WorkedUpTo(t, carried, workers, reports + [closures],
                       learnt + MemosAfter(t, carried, workers[|reports|]).fileDepsNew)
  {
    var more := reports + [closures];
    forall w | 0 <= w < |more|
      ensures |more[w]| == |workers[w]| && AreAnswers(t, carried, workers[w], more[w])
    {
      assert w < |reports| ==> more[w] == reports[w];
    }
    assert Init(workers[..|more|]) == workers[..|reports|];
  }

  // Every worker starts from the same carried entries and leaves its own file of new ones.
  method RunOnce(run: Run, carried: Carried) returns (reports: seq<seq<set<Path>>>, learnt: Carried)
    requires RunHasModules(run)
    ensures |reports| == |run.workers| && AreReports(run.t, carried, run.workers, reports)
    ensures learnt == Learnt(run.t, carried, run.workers)
  {
    reports, learnt := [], map[];
    for w := 0 to |run.workers|
      invariant |reports| == w && WorkedUpTo(run.t, carried, run.workers, reports, learnt)
    {
      assert HasModules(run.workers[w]);
      var closures, more := Work(run.t, carried, run.workers[w]);
      WorkerOneMore(run.t, carried, run.workers, reports, learnt, closures);
      reports, learnt := reports + [closures], learnt + more;
    }
    assert run.workers[..|run.workers|] == run.workers;
  }

  ghost predicate IsRunOf(runs: seq<Run>, i: nat, reports: seq<seq<set<Path>>>)
    requires i < |runs|
  {
    && |reports| == |runs[i].workers|
    && AreReports(runs[i].t, CarriedAfter(runs[..i]), runs[i].workers, reports)
  }

  ghost predicate AreRuns(runs: seq<Run>, reports: seq<seq<seq<set<Path>>>>) {
    |reports| <= |runs| && forall i :: 0 <= i < |reports| ==> IsRunOf(runs, i, reports[i])
  }

  predicate RunHasModules(run: Run) {
    forall w :: 0 <= w < |run.workers| ==> HasModules(run.workers[w])
  }

  // Run after run, each over whatever tree it finds and under whatever `sys.path` its tests leave: every
  // closure reported is the process's answer after what it was asked before.
  method RunAll(runs: seq<Run>) returns (reports: seq<seq<seq<set<Path>>>>, carried: Carried)
    requires forall i :: 0 <= i < |runs| ==> RunHasModules(runs[i])
    ensures |reports| == |runs| && AreRuns(runs, reports)
    ensures carried == CarriedAfter(runs)
  {
    reports, carried := [], map[];
    for i := 0 to |runs|
      invariant |reports| == i && AreRuns(runs, reports)
      invariant carried == CarriedAfter(runs[..i])
    {
      CarriedStep(runs, i);
      assert RunHasModules(runs[i]);
      var closures, learnt := RunOnce(runs[i], carried);
      RunOneMore(runs, reports, closures);
      reports, carried := reports + [closures], carried + learnt;
    }
    assert runs[..|runs|] == runs;
  }

  lemma {:induction false} CarriedStep(runs: seq<Run>, i: nat)
    requires i < |runs|
    ensures var carried := CarriedAfter(runs[..i]);
      CarriedAfter(runs[..i + 1]) == carried + Learnt(runs[i].t, carried, runs[i].workers)
  {
    assert Init(runs[..i + 1]) == runs[..i];
  }

  lemma {:induction false} RunOneMore(runs: seq<Run>, reports: seq<seq<seq<set<Path>>>>, closures: seq<seq<set<Path>>>)
    requires |reports| < |runs| && AreRuns(runs, reports) && IsRunOf(runs, |reports|, closures)
    ensures AreRuns(runs, reports + [closures])
  {
    var more := reports + [closures];
    forall i | 0 <= i < |more|
      ensures IsRunOf(runs, i, more[i])
    {
      assert i < |reports| ==> more[i] == reports[i];
    }
  }

  // ---- where an entry comes from ----

  // The worker whose record of the file is kept: the last one folded in that has one.
  ghost function Recorder(t: Tree, carried: Carried, workers: seq<seq<Ask>>, path: Path): (asks: seq<Ask>)
    requires path in Learnt(t, carried, workers)
    ensures asks in workers && path in MemosAfter(t, carried, asks).fileDepsNew
    ensures Learnt(t, carried, workers)[path] == MemosAfter(t, carried, asks).fileDepsNew[path]
  {
    if path in MemosAfter(t, carried, Last(workers)).fileDepsNew then
      assert workers[|workers| - 1] == Last(workers);
      Last(workers)
    else
      var asks := Recorder(t, carried, Init(workers), path);
      assert workers == Init(workers) + [Last(workers)];
      asks
  }

  // And the run: the last one that recorded the file.
  ghost function RecordingRun(runs: seq<Run>, path: Path): (k: nat)
    requires path in CarriedAfter(runs)
    ensures k < |runs| && path in Learnt(runs[k].t, CarriedAfter(runs[..k]), runs[k].workers)
    ensures CarriedAfter(runs)[path] == Learnt(runs[k].t, CarriedAfter(runs[..k]), runs[k].workers)[path]
  {
    assert runs[..|runs| - 1] == Init(runs);
    if path in Learnt(Last(runs).t, CarriedAfter(Init(runs)), Last(runs).workers) then |runs| - 1
    else
      var k := RecordingRun(Init(runs), path);
      assert Init(runs)[..k] == runs[..k];
      k
  }

  // The moments each import of a carried list was resolved at.
  ghost function CarriedOrigins(runs: seq<Run>, path: Path): seq<View>
    requires path in CarriedAfter(runs)
  {
    var k := RecordingRun(runs, path);
    var carried := CarriedAfter(runs[..k]);
    ParsedOrigins(runs[k].t, carried, Recorder(runs[k].t, carried, runs[k].workers, path), [], path)
  }

  ghost predicate IsViewIn(run: Run, v: View) {
    exists w :: 0 <= w < |run.workers| && IsViewOf(run.t, run.workers[w], v)
  }

  // Every entry was made by an earlier run from the tree that run found, its stamp under one of the
  // `sys.path`s the run went through, its resolutions each under one of them.
  lemma {:induction false} EntriesAreTraced(runs: seq<Run>, path: Path)
    requires path in CarriedAfter(runs)
    ensures var k, e, origins := RecordingRun(runs, path), CarriedAfter(runs)[path], CarriedOrigins(runs, path);
            var o := runs[k].t;
            && |origins| == |o.named(path)|
            && e.deps == Gather(Resolutions(origins, o, path))
            && (forall n :: 0 <= n < |origins| ==> IsViewIn(runs[k], origins[n]))
            && (exists v :: IsViewIn(runs[k], v) && StampOf(o, v.sysPath, path) == Some(e.stamp))
  {
    var k := RecordingRun(runs, path);
    var (o, carried) := (runs[k].t, CarriedAfter(runs[..k]));
    var asks := Recorder(o, carried, runs[k].workers, path);
    var w :| 0 <= w < |runs[k].workers| && runs[k].workers[w] == asks;
    assert forall v :: IsViewOf(o, asks, v) ==> IsViewIn(runs[k], v);
    RecordGoesBack(o, carried, asks, [], path);
    ParsedGoesBack(o, carried, asks, [], path);
    FileMomentIsOne(o, carried, asks, [], path);
    forall n | 0 <= n < |o.named(path)|
      ensures IsViewIn(runs[k], CarriedOrigins(runs, path)[n])
    {
      OriginsAreAsked(o, carried, asks, [], path, n);
    }
    assert IsViewIn(runs[k], View(o, FileMoment(o, carried, asks, [], path).sysPath));
  }

  // ---- when an answer is right ----

  // What the parser makes of a file, given what `os.stat` says of it: the stamp's promise, and no more.
  type Parse = (Path, (nat, nat)) -> seq<Import>

  ghost predicate Follows(t: Tree, parse: Parse) {
    forall path :: t.stat(path).Some? ==> t.named(path) == parse(path, t.stat(path).value)
  }

  ghost predicate OneProject(runs: seq<Run>, t: Tree, parse: Parse) {
    Follows(t, parse) && forall k :: 0 <= k < |runs| ==> runs[k].t.root == t.root && Follows(runs[k].t, parse)
  }

  ghost function SeenNow(runs: seq<Run>, t: Tree, asks: seq<Ask>, sysPath: SysPath): Graph {
    SeenGraph(t, sysPath, CarriedAfter(runs), MemosAfter(t, CarriedAfter(runs), asks))
  }

  // The moment each import of a file was resolved at, for what the process takes the file to import: of the
  // run that recorded it, if its list was usable when the file was first asked about, else of this process.
  ghost function Origins(runs: seq<Run>, t: Tree, asks: seq<Ask>, sysPath: SysPath, path: Path): seq<View> {
    var carried := CarriedAfter(runs);
    if Usable(t, FileMoment(t, carried, asks, sysPath, path).sysPath, carried, path) then CarriedOrigins(runs, path)
    else ParsedOrigins(t, carried, asks, sysPath, path)
  }

  // A moment of an earlier run, of this process, or now.
  ghost predicate IsMoment(runs: seq<Run>, t: Tree, asks: seq<Ask>, sysPath: SysPath, v: View) {
    || (exists k :: 0 <= k < |runs| && IsViewIn(runs[k], v))
    || IsViewOf(t, asks, v)
    || v == View(t, sysPath)
  }

  // Whatever a process takes a file to import is, import by import, what it resolved to at these moments.
  lemma {:induction false} AnswersAreTraced(
      parse: Parse, runs: seq<Run>, t: Tree, asks: seq<Ask>, sysPath: SysPath, path: Path)
    requires OneProject(runs, t, parse)
    ensures var origins := Origins(runs, t, asks, sysPath, path);
            && |origins| == |t.named(path)|
            && SeenNow(runs, t, asks, sysPath)(path) == Gather(Resolutions(origins, t, path))
            && forall n :: 0 <= n < |origins| ==> IsMoment(runs, t, asks, sysPath, origins[n])
  {
    var carried := CarriedAfter(runs);
    var q := FileMoment(t, carried, asks, sysPath, path).sysPath;
    if Usable(t, q, carried, path) {
      SeenGoesBack(t, carried, asks, sysPath, path);
      CarriedIsTraced(parse, runs, t, q, path);
    } else {
      ParsedGoesBack(t, carried, asks, sysPath, path);
      forall n | 0 <= n < |t.named(path)|
        ensures IsMoment(runs, t, asks, sysPath, Origins(runs, t, asks, sysPath, path)[n])
      {
        OriginsAreAsked(t, carried, asks, sysPath, path, n);
      }
    }
  }

  lemma {:induction false} CarriedIsTraced(parse: Parse, runs: seq<Run>, t: Tree, sysPath: SysPath, path: Path)
    requires OneProject(runs, t, parse) && Usable(t, sysPath, CarriedAfter(runs), path)
    ensures var origins := CarriedOrigins(runs, path);
            && |origins| == |t.named(path)|
            && CarriedAfter(runs)[path].deps == Gather(Resolutions(origins, t, path))
            && forall n :: 0 <= n < |origins| ==> IsViewIn(runs[RecordingRun(runs, path)], origins[n])
  {
    EntriesAreTraced(runs, path);
    var o := runs[RecordingRun(runs, path)].t;
    assert o.named(path) == t.named(path);
    assert Resolutions(CarriedOrigins(runs, path), o, path) == Resolutions(CarriedOrigins(runs, path), t, path);
  }

  // What each import of the file resolved to at its moment.
  ghost function Then(runs: seq<Run>, t: Tree, asks: seq<Ask>, sysPath: SysPath, path: Path): (found: seq<Option<Path>>)
    ensures |found| == |t.named(path)|
  {
    var origins := Origins(runs, t, asks, sysPath, path);
    if |origins| == |t.named(path)| then Resolutions(origins, t, path) else Found(t, sysPath, path)
  }

  // The first existing candidate of the import is not what it was at its moment.
  ghost predicate Disturbed(runs: seq<Run>, t: Tree, asks: seq<Ask>, sysPath: SysPath, path: Path, n: nat)
    requires n < |t.named(path)|
  {
    var origins, key := Origins(runs, t, asks, sysPath, path), KeyOf(t, path, n);
    n < |origins| &&
    !SameTarget(origins[n].t, CandidatesIn(origins[n], key), t, CandidatesIn(View(t, sysPath), key))
  }

  // Some disturbed import of the file is not made up for: nothing else imports now what it resolved to
  // then, or nothing else did then what it resolves to now.
  ghost predicate Overtaken(runs: seq<Run>, t: Tree, asks: seq<Ask>, sysPath: SysPath, path: Path) {
    var was, now := Then(runs, t, asks, sysPath, path), Found(t, sysPath, path);
    exists n :: 0 <= n < |t.named(path)| && Disturbed(runs, t, asks, sysPath, path, n)
      && ((was[n].Some? && was[n] !in now) || (now[n].Some? && now[n] !in was))
  }

  lemma {:induction false} DisturbedIff(
      parse: Parse, runs: seq<Run>, t: Tree, asks: seq<Ask>, sysPath: SysPath, path: Path, n: nat)
    requires OneProject(runs, t, parse) && n < |t.named(path)|
    ensures Disturbed(runs, t, asks, sysPath, path, n)
      <==> Then(runs, t, asks, sysPath, path)[n] != Found(t, sysPath, path)[n]
  {
    AnswersAreTraced(parse, runs, t, asks, sysPath, path);
    var v := Origins(runs, t, asks, sysPath, path)[n];
    MomentIsOfProject(parse, runs, t, asks, sysPath, v);
    ResolvesTheSameIff(v, View(t, sysPath), KeyOf(t, path, n));
    KeyResolves(t, sysPath, t.named(path)[n], path);
  }

  lemma {:induction false} MomentIsOfProject(
      parse: Parse, runs: seq<Run>, t: Tree, asks: seq<Ask>, sysPath: SysPath, v: View)
    requires OneProject(runs, t, parse) && IsMoment(runs, t, asks, sysPath, v)
    ensures v.t.root == t.root
  {
  }

  // What a process takes a file to import is what it imports now exactly when the file is not overtaken.
  lemma {:induction false} WrongIffOvertaken(
      parse: Parse, runs: seq<Run>, t: Tree, asks: seq<Ask>, sysPath: SysPath, path: Path)
    requires OneProject(runs, t, parse)
    ensures SameFiles(SeenNow(runs, t, asks, sysPath)(path), Deps(t, sysPath, path))
      <==> !Overtaken(runs, t, asks, sysPath, path)
  {
    var was, now := Then(runs, t, asks, sysPath, path), Found(t, sysPath, path);
    AnswersAreTraced(parse, runs, t, asks, sysPath, path);
    SameIffMadeUpFor(was, now);
    forall n | 0 <= n < |was|
      ensures Disturbed(runs, t, asks, sysPath, path, n) <==> was[n] != now[n]
    {
      DisturbedIff(parse, runs, t, asks, sysPath, path, n);
    }
  }

  // What a parse records is true of the stamp it is filed under exactly when what was remembered of other
  // imports is made up for.
  lemma {:induction false} RecordIsTrueIff(t: Tree, sysPath: SysPath, carried: Carried, s: Memos, path: Path)
    requires MustParse(t, sysPath, carried, s, path) && StampOf(t, sysPath, path).Some?
    ensures SameFiles(RecordOf(t, sysPath, carried, s, path).deps, Deps(t, sysPath, path))
      <==> MadeUpFor(Recalled(t, sysPath, s.resolved, path), Found(t, sysPath, path))
    ensures forall n :: 0 <= n < |t.named(path)| && KeyOf(t, path, n) !in s.resolved ==>
      Recalled(t, sysPath, s.resolved, path)[n] == Found(t, sysPath, path)[n]
  {
    SameIffMadeUpFor(Recalled(t, sysPath, s.resolved, path), Found(t, sysPath, path));
    forall n | 0 <= n < |t.named(path)|
      ensures Found(t, sysPath, path)[n] == ResolveKey(t, sysPath, KeyOf(t, path, n))
    {
      KeyResolves(t, sysPath, t.named(path)[n], path);
    }
  }

  // With no import disturbed, the answer is the very list a parse would give.
  lemma {:induction false} UndisturbedIsSame(
      parse: Parse, runs: seq<Run>, t: Tree, asks: seq<Ask>, sysPath: SysPath, path: Path)
    requires OneProject(runs, t, parse)
    requires forall n :: 0 <= n < |t.named(path)| ==> !Disturbed(runs, t, asks, sysPath, path, n)
    ensures SeenNow(runs, t, asks, sysPath)(path) == Deps(t, sysPath, path)
  {
    AnswersAreTraced(parse, runs, t, asks, sysPath, path);
    forall n | 0 <= n < |t.named(path)|
      ensures Then(runs, t, asks, sysPath, path)[n] == Found(t, sysPath, path)[n]
    {
      DisturbedIff(parse, runs, t, asks, sysPath, path, n);
    }
    assert Then(runs, t, asks, sysPath, path) == Found(t, sysPath, path);
  }

  // The imports as they resolved at their moments.
  ghost function ThenGraph(runs: seq<Run>, t: Tree, asks: seq<Ask>, sysPath: SysPath): Graph {
    path => Gather(Then(runs, t, asks, sysPath, path))
  }

  // What an overtaken file imported then and does not now is imported now by another file met; what it
  // imports now and did not then was imported then by another file met.
  ghost predicate ErrorsAreCovered(runs: seq<Run>, t: Tree, asks: seq<Ask>, sysPath: SysPath, start: Path) {
    var (before, now) := (ThenGraph(runs, t, asks, sysPath), TrueGraph(t, sysPath));
    && OvertakenIsReached(runs, t, asks, sysPath, before, now, start)
    && OvertakenIsReached(runs, t, asks, sysPath, now, before, start)
  }

  ghost predicate OvertakenIsReached(
      runs: seq<Run>, t: Tree, asks: seq<Ask>, sysPath: SysPath, a: Graph, b: Graph, start: Path) {
    forall f, d :: Overtaken(runs, t, asks, sysPath, f) && IsMet(b, start, f) && Surplus(a, b, f, d) ==>
      Imports(b, start, d)
  }

  // After any runs over any trees, and any asks under any `sys.path`: what a module is taken to import is
  // what it imports exactly when every error of an overtaken file is covered by another way to the file.
  lemma {:induction false} ReachIsRightIff(
      parse: Parse, runs: seq<Run>, t: Tree, asks: seq<Ask>, sysPath: SysPath, start: Path)
    requires OneProject(runs, t, parse)
    ensures SameReach(SeenNow(runs, t, asks, sysPath), TrueGraph(t, sysPath), start)
      <==> ErrorsAreCovered(runs, t, asks, sysPath, start)
  {
    var seen, before := SeenNow(runs, t, asks, sysPath), ThenGraph(runs, t, asks, sysPath);
    var now := TrueGraph(t, sysPath);
    forall f
      ensures seen(f) == before(f)
    {
      AnswersAreTraced(parse, runs, t, asks, sysPath, f);
    }
    forall f, d | Surplus(before, now, f, d) || Surplus(now, before, f, d)
      ensures Overtaken(runs, t, asks, sysPath, f)
    {
      WrongIffOvertaken(parse, runs, t, asks, sysPath, f);
    }
    OnlyOvertakenErr(runs, t, asks, sysPath, before, now, start);
    OnlyOvertakenErr(runs, t, asks, sysPath, now, before, start);
    SameReachIff(before, now, start);
    AgreeingGraphs(seen, before, start);
  }

  lemma {:induction false} OnlyOvertakenErr(
      runs: seq<Run>, t: Tree, asks: seq<Ask>, sysPath: SysPath, a: Graph, b: Graph, start: Path)
    requires forall f, d :: Surplus(a, b, f, d) ==> Overtaken(runs, t, asks, sysPath, f)
    ensures OvertakenIsReached(runs, t, asks, sysPath, a, b, start) <==> SurplusIsReached(a, b, start)
  {
  }

  // So an answer is right whenever no file the module imports is overtaken.
  lemma {:induction false} AnswerIsRight(parse: Parse, runs: seq<Run>, t: Tree, asks: seq<Ask>, ask: Ask)
    requires OneProject(runs, t, parse)
    requires forall f :: IsMet(TrueGraph(t, ask.sysPath), t.root + ask.moduleKey, f) ==>
      !Overtaken(runs, t, asks, ask.sysPath, f)
    ensures Answer(t, CarriedAfter(runs), asks, ask) == TrueClosure(t, ask.sysPath, ask.moduleKey)
  {
    var (a, b) := (SeenNow(runs, t, asks, ask.sysPath), TrueGraph(t, ask.sysPath));
    forall f | IsMet(b, t.root + ask.moduleKey, f)
      ensures forall d :: d in a(f) <==> d in b(f)
    {
      WrongIffOvertaken(parse, runs, t, asks, ask.sysPath, f);
    }
    AgreeingGraphs(a, b, t.root + ask.moduleKey);
    AnswerIsSeen(t, CarriedAfter(runs), asks, ask);
    forall f
      ensures f in Answer(t, CarriedAfter(runs), asks, ask) <==> f in TrueClosure(t, ask.sysPath, ask.moduleKey)
    {
      SeenClosureHolds(t, ask.sysPath, CarriedAfter(runs), MemosAfter(t, CarriedAfter(runs), asks), ask.moduleKey, f);
      TrueClosureHolds(t, ask.sysPath, ask.moduleKey, f);
    }
  }

  // ---- while `sys.path` stays as it is ----

  predicate AllUnder(asks: seq<Ask>, sysPath: SysPath) {
    forall i :: 0 <= i < |asks| ==> asks[i].sysPath == sysPath
  }

  // What a file is taken to import then: the carried list, or what it does import.
  function Served(t: Tree, sysPath: SysPath, carried: Carried, path: Path): seq<Path> {
    if Usable(t, sysPath, carried, path) then carried[path].deps else Deps(t, sysPath, path)
  }

  lemma {:induction false} StableIsServed(t: Tree, sysPath: SysPath, carried: Carried, asks: seq<Ask>, path: Path)
    requires AllUnder(asks, sysPath)
    ensures Seen(t, sysPath, carried, MemosAfter(t, carried, asks), path) == Served(t, sysPath, carried, path)
  {
    if asks == [] {
      forall n | 0 <= n < |t.named(path)|
        ensures Recalled(t, sysPath, map[], path)[n] == Found(t, sysPath, path)[n]
      {
        KeyResolves(t, sysPath, t.named(path)[n], path);
      }
      assert Recalled(t, sysPath, map[], path) == Found(t, sysPath, path);
    } else {
      var s, m := MemosAfter(t, carried, Init(asks)), asks[|asks| - 1].moduleKey;
      StableIsServed(t, sysPath, carried, Init(asks), path);
      SeenStays(t, sysPath, carried, s, Met(t, sysPath, carried, s, m), path);
    }
  }

  function ServedGraph(t: Tree, sysPath: SysPath, carried: Carried): Graph {
    path => Served(t, sysPath, carried, path)
  }

  ghost predicate IsClosure(closure: set<Path>, next: Graph, t: Tree, moduleKey: Path) {
    forall f :: f in closure <==> IsMember(next, t, moduleKey, f)
  }

  // The order of asking is no matter then, and with nothing carried every answer is right.
  lemma {:induction false} StableAnswer(t: Tree, carried: Carried, asks: seq<Ask>, ask: Ask)
    requires AllUnder(asks, ask.sysPath)
    ensures IsClosure(Answer(t, carried, asks, ask), ServedGraph(t, ask.sysPath, carried), t, ask.moduleKey)
    ensures carried == map[] ==> Answer(t, carried, asks, ask) == TrueClosure(t, ask.sysPath, ask.moduleKey)
  {
    var s, served := MemosAfter(t, carried, asks), ServedGraph(t, ask.sysPath, carried);
    forall f
      ensures SeenGraph(t, ask.sysPath, carried, s)(f) == served(f)
    {
      StableIsServed(t, ask.sysPath, carried, asks, f);
    }
    AgreeingGraphs(SeenGraph(t, ask.sysPath, carried, s), served, t.root + ask.moduleKey);
    AnswerIsSeen(t, carried, asks, ask);
    forall f
      ensures f in Answer(t, carried, asks, ask) <==> IsMember(served, t, ask.moduleKey, f)
    {
      SeenClosureHolds(t, ask.sysPath, carried, s, ask.moduleKey, f);
    }
    if carried == map[] {
      NothingCarriedIsTrue(t, ask.sysPath, ask.moduleKey, Answer(t, carried, asks, ask));
    }
  }

  lemma {:induction false} NothingCarriedIsTrue(t: Tree, sysPath: SysPath, moduleKey: Path, closure: set<Path>)
    requires IsClosure(closure, ServedGraph(t, sysPath, map[]), t, moduleKey)
    ensures closure == TrueClosure(t, sysPath, moduleKey)
  {
    AgreeingGraphs(ServedGraph(t, sysPath, map[]), TrueGraph(t, sysPath), t.root + moduleKey);
    forall f
      ensures f in closure <==> f in TrueClosure(t, sysPath, moduleKey)
    {
      TrueClosureHolds(t, sysPath, moduleKey, f);
    }
  }

  ghost predicate HasAsked(asks: seq<Ask>, m: Path) {
    exists i :: 0 <= i < |asks| && asks[i].moduleKey == m
  }

  ghost predicate IsAskedAbout(t: Tree, sysPath: SysPath, carried: Carried, s: Memos, f: Path) {
    exists m :: m in s.importClosure && IsMet(ServedGraph(t, sysPath, carried), t.root + m, f)
  }

  // Exactly what was met has been asked about, and what had to be parsed and has a stamp is recorded.
  ghost predicate IsRecorded(t: Tree, sysPath: SysPath, carried: Carried, s: Memos, f: Path) {
    && (f in s.fileDeps <==> IsAskedAbout(t, sysPath, carried, s, f))
    && (f in s.fileDepsNew <==> f in s.fileDeps && !Usable(t, sysPath, carried, f) && StampOf(t, sysPath, f).Some?)
    && (f in s.fileDepsNew ==> s.fileDepsNew[f] == Entry(StampOf(t, sysPath, f).value, Deps(t, sysPath, f)))
  }

  lemma {:induction false} StableRecords(t: Tree, sysPath: SysPath, carried: Carried, asks: seq<Ask>, f: Path)
    requires AllUnder(asks, sysPath)
    ensures IsRecorded(t, sysPath, carried, MemosAfter(t, carried, asks), f)
  {
    if asks != [] {
      var s, last := MemosAfter(t, carried, Init(asks)), asks[|asks| - 1];
      StableRecords(t, sysPath, carried, Init(asks), f);
      StableIsServed(t, sysPath, carried, Init(asks), f);
      StableMet(t, sysPath, carried, Init(asks), last.moduleKey, f);
      AskIsRecorded(t, sysPath, carried, s, last.moduleKey, f);
    }
  }

  lemma {:induction false} AskIsRecorded(t: Tree, sysPath: SysPath, carried: Carried, s: Memos, m: Path, f: Path)
    requires IsRecorded(t, sysPath, carried, s, f)
    requires Seen(t, sysPath, carried, s, f) == Served(t, sysPath, carried, f)
    requires f in Met(t, sysPath, carried, s, m) <==> IsMet(ServedGraph(t, sysPath, carried), t.root + m, f)
    ensures IsRecorded(t, sysPath, carried, Asked(t, sysPath, carried, s, m), f)
  {
    var r := Asked(t, sysPath, carried, s, m);
    if m !in s.importClosure {
      assert IsAskedAbout(t, sysPath, carried, r, f) <==>
             IsAskedAbout(t, sysPath, carried, s, f) || f in Met(t, sysPath, carried, s, m);
      assert f in r.fileDeps <==> f in s.fileDeps || f in Met(t, sysPath, carried, s, m);
    }
  }

  lemma {:induction false} RemembersAsked(t: Tree, carried: Carried, asks: seq<Ask>, m: Path)
    ensures m in MemosAfter(t, carried, asks).importClosure <==> HasAsked(asks, m)
  {
    if asks != [] {
      RemembersAsked(t, carried, Init(asks), m);
      HasAskedSnoc(asks, m);
      var s, last := MemosAfter(t, carried, Init(asks)), Last(asks);
      var r := Asked(t, last.sysPath, carried, s, last.moduleKey);
      assert r.importClosure.Keys == s.importClosure.Keys + {last.moduleKey};
    }
  }

  lemma {:induction false} HasAskedSnoc(asks: seq<Ask>, m: Path)
    requires asks != []
    ensures HasAsked(asks, m) <==> HasAsked(Init(asks), m) || Last(asks).moduleKey == m
  {
    assert asks[|asks| - 1] == Last(asks);
    forall i | 0 <= i < |asks| - 1
      ensures asks[i] == Init(asks)[i]
    {
    }
    if HasAsked(Init(asks), m) {
      var i :| 0 <= i < |Init(asks)| && Init(asks)[i].moduleKey == m;
      assert asks[i].moduleKey == m;
    }
  }

  lemma {:induction false} StableMet(
      t: Tree, sysPath: SysPath, carried: Carried, asks: seq<Ask>, moduleKey: Path, f: Path)
    requires AllUnder(asks, sysPath)
    ensures f in Met(t, sysPath, carried, MemosAfter(t, carried, asks), moduleKey)
      <==> IsMet(ServedGraph(t, sysPath, carried), t.root + moduleKey, f)
  {
    var s := MemosAfter(t, carried, asks);
    forall g
      ensures SeenGraph(t, sysPath, carried, s)(g) == ServedGraph(t, sysPath, carried)(g)
    {
      StableIsServed(t, sysPath, carried, asks, g);
    }
    AgreeingGraphs(SeenGraph(t, sysPath, carried, s), ServedGraph(t, sysPath, carried), t.root + moduleKey);
    MetIsKnown(t, sysPath, carried, s, moduleKey, f);
  }

  // ---- a run again over the same tree ----

  // The entry a process makes that resolves everything under the `sys.path` it files it under.
  predicate IsRecord(t: Tree, sysPath: SysPath, path: Path, e: Entry) {
    StampOf(t, sysPath, path) == Some(e.stamp) && e.deps == Deps(t, sysPath, path)
  }

  ghost predicate WorkersUnder(workers: seq<seq<Ask>>, sysPath: SysPath) {
    forall w :: 0 <= w < |workers| ==> AllUnder(workers[w], sysPath)
  }

  lemma {:induction false} LearntIsNew(t: Tree, sysPath: SysPath, carried: Carried, workers: seq<seq<Ask>>, f: Path)
    requires WorkersUnder(workers, sysPath)
    ensures var more := Learnt(t, carried, workers);
            && (f in more <==> exists w :: 0 <= w < |workers| && f in MemosAfter(t, carried, workers[w]).fileDepsNew)
            && (f in more ==> !Usable(t, sysPath, carried, f) && IsRecord(t, sysPath, f, more[f]))
  {
    if workers != [] {
      LearntIsNew(t, sysPath, carried, Init(workers), f);
      assert workers[|workers| - 1] == Last(workers);
      assert forall w :: 0 <= w < |workers| - 1 ==> workers[w] == Init(workers)[w];
      StableRecords(t, sysPath, carried, Last(workers), f);
    }
  }

  lemma {:induction false} ServedRepeats(t: Tree, sysPath: SysPath, carried: Carried, workers: seq<seq<Ask>>, f: Path)
    requires WorkersUnder(workers, sysPath)
    ensures Served(t, sysPath, carried + Learnt(t, carried, workers), f) == Served(t, sysPath, carried, f)
  {
    LearntIsNew(t, sysPath, carried, workers, f);
  }

  // The next run over the same tree, under the same `sys.path` throughout, answers the same, right or
  // wrong; and where it asks nothing new, it parses nothing that has a stamp.
  lemma {:induction false} SecondRunRepeats(t: Tree, carried: Carried, workers: seq<seq<Ask>>, asks: seq<Ask>, ask: Ask)
    requires WorkersUnder(workers, ask.sysPath) && AllUnder(asks, ask.sysPath)
    ensures var after := carried + Learnt(t, carried, workers);
            && Answer(t, after, asks, ask) == Answer(t, carried, asks, ask)
            && (AsksNothingNew(workers, asks) ==> MemosAfter(t, after, asks).fileDepsNew == map[])
  {
    var after, p := carried + Learnt(t, carried, workers), ask.sysPath;
    var (a, b) := (ServedGraph(t, p, after), ServedGraph(t, p, carried));
    forall f
      ensures a(f) == b(f)
    {
      ServedRepeats(t, p, carried, workers, f);
    }
    AgreeingGraphs(a, b, t.root + ask.moduleKey);
    StableAnswer(t, after, asks, ask);
    StableAnswer(t, carried, asks, ask);
    assert Answer(t, after, asks, ask) == Answer(t, carried, asks, ask);
    if AsksNothingNew(workers, asks) {
      forall f
        ensures f !in MemosAfter(t, after, asks).fileDepsNew
      {
        NothingNewRecorded(t, p, carried, workers, asks, f);
      }
    }
  }

  ghost predicate AsksNothingNew(workers: seq<seq<Ask>>, asks: seq<Ask>) {
    forall m :: HasAsked(asks, m) ==> exists w :: 0 <= w < |workers| && HasAsked(workers[w], m)
  }

  lemma {:induction false} NothingNewRecorded(t: Tree, sysPath: SysPath, carried: Carried, workers: seq<seq<Ask>>,
                                              asks: seq<Ask>, f: Path)
    requires WorkersUnder(workers, sysPath) && AllUnder(asks, sysPath) && AsksNothingNew(workers, asks)
    ensures f !in MemosAfter(t, carried + Learnt(t, carried, workers), asks).fileDepsNew
  {
    var after := carried + Learnt(t, carried, workers);
    var s := MemosAfter(t, after, asks);
    StableRecords(t, sysPath, after, asks, f);
    if f in s.fileDepsNew {
      var m :| m in s.importClosure && IsMet(ServedGraph(t, sysPath, after), t.root + m, f);
      RemembersAsked(t, after, asks, m);
      var w :| 0 <= w < |workers| && HasAsked(workers[w], m);
      RemembersAsked(t, carried, workers[w], m);
      MetBefore(t, sysPath, carried, workers, m, f);
      StableRecords(t, sysPath, carried, workers[w], f);
      LearntIsNew(t, sysPath, carried, workers, f);
      assert false;
    }
  }

  lemma {:induction false} MetBefore(
      t: Tree, sysPath: SysPath, carried: Carried, workers: seq<seq<Ask>>, m: Path, f: Path)
    requires WorkersUnder(workers, sysPath)
    requires IsMet(ServedGraph(t, sysPath, carried + Learnt(t, carried, workers)), t.root + m, f)
    ensures IsMet(ServedGraph(t, sysPath, carried), t.root + m, f)
  {
    var (a, b) := (ServedGraph(t, sysPath, carried + Learnt(t, carried, workers)), ServedGraph(t, sysPath, carried));
    forall g
      ensures a(g) == b(g)
    {
      ServedRepeats(t, sysPath, carried, workers, g);
    }
    AgreeingGraphs(a, b, t.root + m);
  }
}
