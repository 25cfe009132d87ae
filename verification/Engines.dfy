/** `engine.py`: the stack of wider-scope fixtures that lives across a run, and the function-scoped
    fixtures of one case, both set up and looked up by name. */
module Engines {
  import opened Prelude
  import NodeIds
  import opened Fixtures
  import SetUpTrace

  // What a fixture hands out, by identity.
  type Value = int

  // What the n-th fixture body run does with its arguments, in binding order: hand out a value, or raise.
  type Bodies = (FixtureDef, seq<Value>, nat) -> Option<Value>

  // Which instance of a scope a fixture belongs to. Session, module and class keys leave the
  // definition's location out.
  datatype InstanceKey =
    | SessionKey(name: string)
    | PackageKey(name: string, location: string)
    | ModuleKeyed(name: string, moduleKey: string)
    | ClassKey(name: string, moduleKey: string, cls: string)
    | FunctionKey(name: string, node: string)

  function InstanceKeyOf(d: FixtureDef, node: string): InstanceKey {
    match d.scope
    case Session => SessionKey(d.name)
    case Package => PackageKey(d.name, d.location)
    case Module => ModuleKeyed(d.name, NodeIds.ModuleKey(node))
    case Class => ClassKey(d.name, NodeIds.ModuleKey(node), NodeIds.ClassPart(node))
    case Function => FunctionKey(d.name, node)
  }

  // A live fixture. `handle` identifies this set-up; `sources` are the handles of the fixtures its
  // arguments were read from, in binding order.
  datatype Active = Active(def: FixtureDef, key: InstanceKey, value: Value, handle: nat, sources: seq<nat>)

  datatype State = State(active: seq<Active>, trace: seq<SetUpTrace.Event>, bodies: nat)

  const START := State([], [], 0)

  function Handles(entries: seq<Active>): (r: seq<nat>)
    ensures |r| == |entries|
  {
    seq(|entries|, i requires 0 <= i < |entries| => entries[i].handle)
  }

  function Values(entries: seq<Active>): (r: seq<Value>)
    ensures |r| == |entries|
  {
    seq(|entries|, i requires 0 <= i < |entries| => entries[i].value)
  }

  // What the `n`-th body run gives when its arguments are the values of these entries, one for each
  // binding in order: a value, or none when it raises.
  ghost predicate Gives(bodies: Bodies, d: FixtureDef, from: seq<Active>, n: nat, v: Option<Value>) {
    exists args :: AreValues(args, from) && bodies(d, args, n) == v
  }

  predicate AreValues(args: seq<Value>, from: seq<Active>) {
    |args| == |from| && forall b :: 0 <= b < |from| ==> args[b] == from[b].value
  }

  predicate AreHandles(sources: seq<nat>, from: seq<Active>) {
    |sources| == |from| && forall b :: 0 <= b < |from| ==> sources[b] == from[b].handle
  }

  // ---- looking up, setting up ----

  // The most recently set-up entry of this name.
  function Find(entries: seq<Active>, name: string): Option<Active> {
    if entries == [] then None
    else if Last(entries).def.name == name then Some(Last(entries))
    else Find(Init(entries), name)
  }

  // The entries the arguments are read from; `None` when a name is not there.
  function Sources(entries: seq<Active>, bindings: seq<(string, string)>): (r: Option<seq<Active>>)
    ensures r.Some? ==> |r.value| == |bindings|
  {
    if bindings == [] then Some([])
    else
      var earlier := Sources(entries, Init(bindings));
      var a := Find(entries, Last(bindings).1);
      if earlier.None? || a.None? then None else Some(earlier.value + [a.value])
  }

  datatype Attempt = Attempt(state: State, built: Option<Active>)

  // One set-up, its arguments read by name from `entries`. A name that is not there fails before the
  // body runs; a body that raises leaves nothing behind.
  function SetUpOne(s: State, entries: seq<Active>, d: FixtureDef, key: InstanceKey, bodies: Bodies): Attempt {
    var from := Sources(entries, d.bindings);
    if from.None? then Attempt(s, None)
    else
      var v := bodies(d, Values(from.value), s.bodies);
      if v.None? then Attempt(s.(bodies := s.bodies + 1), None)
      else
        var sources := Handles(from.value);
        Attempt(s.(bodies := s.bodies + 1, trace := s.trace + [SetUpTrace.SetUp(s.bodies, sources)]),
                Some(Active(d, key, v.value, s.bodies, sources)))
  }

  // ---- the wider-scope stack ----

  predicate Stale(a: Active, node: string) {
    a.key != InstanceKeyOf(a.def, node)
  }

  function StaleTornDown(s: State, node: string): State
    decreases |s.active|
  {
    if s.active == [] || !Stale(Last(s.active), node) then s
    else
      var torn := SetUpTrace.TornDown(Last(s.active).handle);
      StaleTornDown(s.(active := Init(s.active), trace := s.trace + [torn]), node)
  }

  predicate IsLive(active: seq<Active>, key: InstanceKey) {
    exists i :: 0 <= i < |active| && active[i].key == key
  }

  datatype Outcome = Outcome(state: State, ok: bool)

  function SyncOne(s: State, d: FixtureDef, node: string, bodies: Bodies): Outcome {
    var key := InstanceKeyOf(d, node);
    if d.Rank() == 0 || IsLive(s.active, key) then Outcome(s, true)
    else
      var r := SetUpOne(s, s.active, d, key, bodies);
      if r.built.None? then Outcome(r.state, false)
      else Outcome(r.state.(active := s.active + [r.built.value]), true)
  }

  function SetUpMissing(s: State, closure: seq<FixtureDef>, node: string, bodies: Bodies): Outcome {
    if closure == [] then Outcome(s, true)
    else
      var r := SetUpMissing(s, Init(closure), node, bodies);
      if r.ok then SyncOne(r.state, Last(closure), node, bodies) else r
  }

  function WiderSynced(s: State, closure: seq<FixtureDef>, node: string, bodies: Bodies): Outcome {
    SetUpMissing(StaleTornDown(s, node), closure, node, bodies)
  }

  // ---- one case ----

  datatype Case = Case(state: State, locals: seq<Active>, ok: bool)

  // A function-scoped fixture reads its own case's fixtures first, then the wider stack.
  function SetUpLocal(c: Case, d: FixtureDef, node: string, bodies: Bodies): Case {
    if d.Rank() != 0 then c
    else
      var r := SetUpOne(c.state, c.state.active + c.locals, d, InstanceKeyOf(d, node), bodies);
      if r.built.None? then Case(r.state, c.locals, false)
      else Case(r.state, c.locals + [r.built.value], true)
  }

  function SetUpLocals(s: State, closure: seq<FixtureDef>, node: string, bodies: Bodies): Case {
    if closure == [] then Case(s, [], true)
    else
      var c := SetUpLocals(s, Init(closure), node, bodies);
      if c.ok then SetUpLocal(c, Last(closure), node, bodies) else c
  }

  // The teardown of these entries, newest first.
  function Unwind(entries: seq<Active>): seq<SetUpTrace.Event> {
    if entries == [] then [] else [SetUpTrace.TornDown(Last(entries).handle)] + Unwind(Init(entries))
  }

  // The `finally` of a case: what was set up comes down in reverse, however far set-up got.
  function CaseRun(s: State, closure: seq<FixtureDef>, node: string, bodies: Bodies): State {
    var c := SetUpLocals(s, closure, node, bodies);
    c.state.(trace := c.state.trace + Unwind(c.locals))
  }

  function RunCases(s: State, closure: seq<FixtureDef>, node: string, cases: nat, bodies: Bodies): State {
    if cases == 0 then s
    else CaseRun(RunCases(s, closure, node, cases - 1, bodies), closure, node, bodies)
  }

  // ---- runs ----

  // A node that runs here, with how many cases of each fixture-parameter combination are selected; or
  // one for which a module child is forked, before which this process tears down what is stale.
  datatype Request =
    | Request(node: string, closure: seq<FixtureDef>, combos: seq<nat>)
    | ChildForked(node: string)

  function RunCombos(s: State, closure: seq<FixtureDef>, node: string, combos: seq<nat>, bodies: Bodies): Outcome {
    if combos == [] then Outcome(s, true)
    else
      var before := RunCombos(s, closure, node, Init(combos), bodies);
      if !before.ok || Last(combos) == 0 then before
      else
        var synced := WiderSynced(before.state, closure, node, bodies);
        if !synced.ok then synced
        else Outcome(RunCases(synced.state, closure, node, Last(combos), bodies), true)
  }

  // The combinations one after the other, until one cannot be set up.
  lemma {:induction false} CombosInTurn(
      s: State, closure: seq<FixtureDef>, node: string, a: seq<nat>, b: seq<nat>, bodies: Bodies)
    ensures var first := RunCombos(s, closure, node, a, bodies);
            RunCombos(s, closure, node, a + b, bodies) ==
              if first.ok then RunCombos(first.state, closure, node, b, bodies) else first
  {
    if b == [] {
      assert a + b == a;
    } else {
      assert Init(a + b) == a + Init(b);
      CombosInTurn(s, closure, node, a, Init(b), bodies);
    }
  }

  // One of them: nothing at all when no case of it is selected; else a sync, and on success its cases.
  lemma {:induction false} OneCombo(s: State, closure: seq<FixtureDef>, node: string, cases: nat, bodies: Bodies)
    ensures var r, synced := RunCombos(s, closure, node, [cases], bodies), WiderSynced(s, closure, node, bodies);
            && (cases == 0 ==> r == Outcome(s, true))
            && (cases > 0 && !synced.ok ==> r == Outcome(synced.state, false))
            && (cases > 0 && synced.ok ==> r == Outcome(RunCases(synced.state, closure, node, cases, bodies), true))
  {
    assert Init([cases]) == [] && RunCombos(s, closure, node, [], bodies) == Outcome(s, true);
  }

  function RunOne(s: State, r: Request, bodies: Bodies): State {
    match r
    case Request(node, closure, combos) => RunCombos(s, closure, node, combos, bodies).state
    case ChildForked(node) => StaleTornDown(s, node)
  }

  function Run(requests: seq<Request>, bodies: Bodies): State {
    if requests == [] then START else RunOne(Run(Init(requests), bodies), Last(requests), bodies)
  }

  function AllTornDown(s: State): State {
    State([], s.trace + Unwind(s.active), s.bodies)
  }

  // ---- what every step keeps ----

  ghost predicate UniqueKeys(active: seq<Active>) {
    forall i, j :: 0 <= i < j < |active| ==> active[i].key != active[j].key
  }

  // Each entry's arguments came from entries that are still below it.
  ghost predicate SourcesBelow(entries: seq<Active>) {
    forall i, h :: 0 <= i < |entries| && h in entries[i].sources ==> h in Handles(entries[..i])
  }

  // `entries` are exactly what the trace says is live.
  ghost predicate Accounted(s: State, entries: seq<Active>) {
    && SetUpTrace.Replay(s.trace) == Some(Handles(entries))
    && SetUpTrace.Numbered(s.trace, s.bodies)
    && SourcesBelow(entries)
  }

  ghost predicate Sound(s: State) {
    Accounted(s, s.active) && UniqueKeys(s.active)
  }

  lemma {:induction false} FoundIsThere(entries: seq<Active>, name: string)
    ensures var a := Find(entries, name); a.Some? ==> a.value in entries && a.value.def.name == name
  {
    if entries != [] && Last(entries).def.name != name {
      FoundIsThere(Init(entries), name);
    }
  }

  lemma {:induction false} SourcesAreThere(entries: seq<Active>, bindings: seq<(string, string)>)
    ensures var from := Sources(entries, bindings);
            from.Some? ==> forall k :: 0 <= k < |bindings| ==>
              from.value[k] in entries && Find(entries, bindings[k].1) == Some(from.value[k])
  {
    if bindings != [] {
      SourcesAreThere(entries, Init(bindings));
      FoundIsThere(entries, Last(bindings).1);
      assert forall k :: 0 <= k < |bindings| - 1 ==> bindings[k] == Init(bindings)[k];
    }
  }

  lemma {:induction false} HandlesSnoc(entries: seq<Active>, a: Active)
    ensures Handles(entries + [a]) == Handles(entries) + [a.handle]
  {
  }

  lemma {:induction false} SetUpOneKeeps(
      s: State, entries: seq<Active>, d: FixtureDef, key: InstanceKey, bodies: Bodies)
    requires Accounted(s, entries)
    ensures var r := SetUpOne(s, entries, d, key, bodies);
            Accounted(r.state, if r.built.Some? then entries + [r.built.value] else entries)
            && r.state.active == s.active
  {
    var from := Sources(entries, d.bindings);
    var r := SetUpOne(s, entries, d, key, bodies);
    if r.built.Some? {
      SourcesAreThere(entries, d.bindings);
      forall h | h in r.built.value.sources ensures h in Handles(entries) {
        var k :| 0 <= k < |from.value| && Handles(from.value)[k] == h;
        var i :| 0 <= i < |entries| && entries[i] == from.value[k];
        assert Handles(entries)[i] == h;
      }
      HandlesSnoc(entries, r.built.value);
      var more := entries + [r.built.value];
      forall i, h | 0 <= i < |more| && h in more[i].sources ensures h in Handles(more[..i]) {
        assert more[..i] == entries[..i];
        assert entries[..|entries|] == entries;
      }
    }
  }

  lemma {:induction false} PopKeeps(s: State, entries: seq<Active>)
    requires Accounted(s, entries) && entries != []
    ensures Accounted(s.(trace := s.trace + [SetUpTrace.TornDown(Last(entries).handle)]), Init(entries))
  {
    assert Init(Handles(entries)) == Handles(Init(entries));
    forall i | 0 <= i < |Init(entries)| ensures Init(entries)[..i] == entries[..i] && Init(entries)[i] == entries[i] {
    }
  }

  lemma {:induction false} UnwindKeeps(s: State, base: seq<Active>, entries: seq<Active>)
    requires Accounted(s, base + entries)
    ensures Accounted(s.(trace := s.trace + Unwind(entries)), base)
    decreases |entries|
  {
    if entries == [] {
      assert base + entries == base && s.trace + [] == s.trace;
    } else {
      var torn := SetUpTrace.TornDown(Last(entries).handle);
      PopKeeps(s, base + entries);
      assert Init(base + entries) == base + Init(entries);
      UnwindKeeps(s.(trace := s.trace + [torn]), base, Init(entries));
      ConcatAssociates(s.trace, [torn], Unwind(Init(entries)));
    }
  }

  lemma {:induction false} TeardownStaleKeeps(s: State, node: string)
    requires Sound(s)
    ensures var r := StaleTornDown(s, node); Sound(r) && r.active <= s.active
    decreases |s.active|
  {
    if s.active != [] && Stale(Last(s.active), node) {
      PopKeeps(s, s.active);
      var torn := SetUpTrace.TornDown(Last(s.active).handle);
      TeardownStaleKeeps(s.(active := Init(s.active), trace := s.trace + [torn]), node);
    }
  }

  lemma {:induction false} SyncOneKeeps(s: State, d: FixtureDef, node: string, bodies: Bodies)
    requires Sound(s)
    ensures var r := SyncOne(s, d, node, bodies); Sound(r.state) && s.active <= r.state.active
  {
    var key := InstanceKeyOf(d, node);
    if d.Rank() != 0 && !IsLive(s.active, key) {
      SetUpOneKeeps(s, s.active, d, key, bodies);
      var r := SyncOne(s, d, node, bodies);
      forall i | 0 <= i < |s.active| ensures s.active[i].key != key {
      }
      assert s.active <= r.state.active;
    }
  }

  lemma {:induction false} SetUpMissingKeeps(s: State, closure: seq<FixtureDef>, node: string, bodies: Bodies)
    requires Sound(s)
    ensures var r := SetUpMissing(s, closure, node, bodies); Sound(r.state) && s.active <= r.state.active
  {
    if closure != [] {
      SetUpMissingKeeps(s, Init(closure), node, bodies);
      var r := SetUpMissing(s, Init(closure), node, bodies);
      if r.ok {
        SyncOneKeeps(r.state, Last(closure), node, bodies);
      }
    }
  }

  lemma {:induction false} SetUpLocalsKeeps(s: State, closure: seq<FixtureDef>, node: string, bodies: Bodies)
    requires Sound(s)
    ensures var c := SetUpLocals(s, closure, node, bodies);
            Accounted(c.state, s.active + c.locals) && c.state.active == s.active
  {
    if closure == [] {
      assert s.active + [] == s.active;
    } else {
      SetUpLocalsKeeps(s, Init(closure), node, bodies);
      var c, d := SetUpLocals(s, Init(closure), node, bodies), Last(closure);
      if c.ok && d.Rank() == 0 {
        SetUpOneKeeps(c.state, s.active + c.locals, d, InstanceKeyOf(d, node), bodies);
        var r := SetUpOne(c.state, s.active + c.locals, d, InstanceKeyOf(d, node), bodies);
        if r.built.Some? {
          ConcatAssociates(s.active, c.locals, [r.built.value]);
        }
      }
    }
  }

  // A case leaves the wider stack as it found it.
  lemma {:induction false} RunCaseKeeps(s: State, closure: seq<FixtureDef>, node: string, bodies: Bodies)
    requires Sound(s)
    ensures var r := CaseRun(s, closure, node, bodies); Sound(r) && r.active == s.active
  {
    SetUpLocalsKeeps(s, closure, node, bodies);
    var c := SetUpLocals(s, closure, node, bodies);
    UnwindKeeps(c.state, s.active, c.locals);
  }

  lemma {:induction false} RunCasesKeeps(s: State, closure: seq<FixtureDef>, node: string, cases: nat, bodies: Bodies)
    requires Sound(s)
    ensures var r := RunCases(s, closure, node, cases, bodies); Sound(r) && r.active == s.active
  {
    if cases > 0 {
      RunCasesKeeps(s, closure, node, cases - 1, bodies);
      RunCaseKeeps(RunCases(s, closure, node, cases - 1, bodies), closure, node, bodies);
    }
  }

  lemma {:induction false} RunCombosKeeps(
      s: State, closure: seq<FixtureDef>, node: string, combos: seq<nat>, bodies: Bodies)
    requires Sound(s)
    ensures Sound(RunCombos(s, closure, node, combos, bodies).state)
  {
    if combos != [] {
      RunCombosKeeps(s, closure, node, Init(combos), bodies);
      var before := RunCombos(s, closure, node, Init(combos), bodies);
      TeardownStaleKeeps(before.state, node);
      SetUpMissingKeeps(StaleTornDown(before.state, node), closure, node, bodies);
      var synced := WiderSynced(before.state, closure, node, bodies);
      RunCasesKeeps(synced.state, closure, node, Last(combos), bodies);
    }
  }

  // In every reachable state: instance keys are unique, and what each live fixture was built from is
  // still below it.
  lemma {:induction false} ReachableStatesAreSound(requests: seq<Request>, bodies: Bodies)
    ensures Sound(Run(requests, bodies))
  {
    if requests != [] {
      ReachableStatesAreSound(Init(requests), bodies);
      var s := Run(Init(requests), bodies);
      match Last(requests) {
        case Request(node, closure, combos) => RunCombosKeeps(s, closure, node, combos, bodies);
        case ChildForked(node) => TeardownStaleKeeps(s, node);
      }
    }
  }

  // Over every run, set-ups that raise midway included, once the worker has torn everything down the
  // trace is well nested and nothing is live.
  lemma {:induction false} EveryRunIsWellNested(requests: seq<Request>, bodies: Bodies)
    ensures var r := AllTornDown(Run(requests, bodies));
            r.active == [] && SetUpTrace.Replay(r.trace) == Some([]) && SetUpTrace.Numbered(r.trace, r.bodies)
  {
    ReachableStatesAreSound(requests, bodies);
    var s := Run(requests, bodies);
    assert [] + s.active == s.active;
    UnwindKeeps(s, [], s.active);
  }

  // ---- tearing down what is stale ----

  // How many entries a teardown for `node` leaves: all but the longest stale run at the top.
  function Kept(active: seq<Active>, node: string): (n: nat)
    ensures n <= |active|
    ensures forall i :: n <= i < |active| ==> Stale(active[i], node)
    ensures n > 0 ==> !Stale(active[n - 1], node)
  {
    if active == [] || !Stale(Last(active), node) then |active| else Kept(Init(active), node)
  }

  // Exactly the maximal stale suffix goes, newest first; nothing that belongs to `node` does.
  lemma {:induction false} TeardownStaleIsExact(s: State, node: string)
    ensures var n := Kept(s.active, node);
            StaleTornDown(s, node) ==
            s.(active := s.active[..n], trace := s.trace + Unwind(s.active[n..]))
    decreases |s.active|
  {
    var n := Kept(s.active, node);
    if n == |s.active| {
      assert s.active[..n] == s.active && s.active[n..] == [] && s.trace + [] == s.trace;
    } else {
      var torn := SetUpTrace.TornDown(Last(s.active).handle);
      TeardownStaleIsExact(s.(active := Init(s.active), trace := s.trace + [torn]), node);
      assert Init(s.active[n..]) == Init(s.active)[n..] && Init(s.active)[..n] == s.active[..n];
      ConcatAssociates(s.trace, [torn], Unwind(Init(s.active)[n..]));
    }
  }

  ghost predicate StaleIsSuffix(active: seq<Active>, node: string) {
    forall i, j :: 0 <= i < j < |active| && Stale(active[i], node) ==> Stale(active[j], node)
  }

  ghost predicate NothingStale(active: seq<Active>, node: string) {
    forall i :: 0 <= i < |active| ==> !Stale(active[i], node)
  }

  // Nothing stale remains exactly when nothing that is live sits on top of something stale.
  lemma {:induction false} NothingStaleRemainsIff(s: State, node: string)
    ensures NothingStale(StaleTornDown(s, node).active, node) <==> StaleIsSuffix(s.active, node)
  {
    TeardownStaleIsExact(s, node);
    var n := Kept(s.active, node);
    var left := s.active[..n];
    if NothingStale(left, node) {
      forall i | 0 <= i < n ensures !Stale(s.active[i], node) {
        assert left[i] == s.active[i];
      }
    }
  }

  ghost predicate WidestFirst(active: seq<Active>) {
    forall i, j :: 0 <= i < j < |active| ==> active[j].def.Rank() <= active[i].def.Rank()
  }

  ghost predicate KeyedFor(active: seq<Active>, node: string) {
    forall i :: 0 <= i < |active| ==> active[i].key == InstanceKeyOf(active[i].def, node)
  }

  // A stack sorted widest first whose entries all belong to one test's scopes is fully cleaned for any other.
  lemma {:induction false} SortedStackLeavesNothingStale(s: State, last: string, node: string)
    requires WidestFirst(s.active) && KeyedFor(s.active, last)
    ensures NothingStale(StaleTornDown(s, node).active, node)
  {
    forall i, j | 0 <= i < j < |s.active| && Stale(s.active[i], node)
      ensures Stale(s.active[j], node)
    {
      StaleWithItsScope(s.active[i], s.active[j], last, node);
    }
    NothingStaleRemainsIff(s, node);
  }

  // Of two entries of one test, a wider one is not stale before a narrower one.
  lemma {:induction false} StaleWithItsScope(a: Active, b: Active, last: string, node: string)
    requires a.key == InstanceKeyOf(a.def, last) && b.key == InstanceKeyOf(b.def, last)
    requires b.def.Rank() <= a.def.Rank() && Stale(a, node)
    ensures Stale(b, node)
  {
  }

  // ---- what `_sync_wider` leaves live ----

  ghost predicate WiderLive(active: seq<Active>, closure: seq<FixtureDef>, node: string) {
    forall k :: 0 <= k < |closure| && closure[k].Rank() != 0 ==> IsLive(active, InstanceKeyOf(closure[k], node))
  }

  ghost predicate TopBelongs(active: seq<Active>, node: string) {
    active != [] ==> !Stale(Last(active), node)
  }

  lemma {:induction false} SetUpMissingSucceeds(s: State, closure: seq<FixtureDef>, node: string, bodies: Bodies)
    requires Sound(s) && TopBelongs(s.active, node)
    ensures var r := SetUpMissing(s, closure, node, bodies);
            TopBelongs(r.state.active, node) && (r.ok ==> WiderLive(r.state.active, closure, node))
  {
    if closure != [] {
      SetUpMissingSucceeds(s, Init(closure), node, bodies);
      SetUpMissingKeeps(s, Init(closure), node, bodies);
      var before, r := SetUpMissing(s, Init(closure), node, bodies), SetUpMissing(s, closure, node, bodies);
      if before.ok {
        SyncOneKeeps(before.state, Last(closure), node, bodies);
      }
      if r.ok {
        forall k | 0 <= k < |closure| && closure[k].Rank() != 0
          ensures IsLive(r.state.active, InstanceKeyOf(closure[k], node))
        {
          var key := InstanceKeyOf(closure[k], node);
          if k < |closure| - 1 {
            assert closure[k] == Init(closure)[k];
          } else if !IsLive(before.state.active, key) {
            assert Last(r.state.active).key == key;
          }
        }
      }
    }
  }

  // After a successful call every wider fixture of the closure has its instance live for the node.
  lemma {:induction false} SyncMakesWiderLive(s: State, closure: seq<FixtureDef>, node: string, bodies: Bodies)
    requires Sound(s)
    ensures var r := WiderSynced(s, closure, node, bodies);
            TopBelongs(r.state.active, node) && (r.ok ==> WiderLive(r.state.active, closure, node))
  {
    TeardownStaleKeeps(s, node);
    TeardownStaleIsExact(s, node);
    SetUpMissingSucceeds(StaleTornDown(s, node), closure, node, bodies);
  }

  lemma {:induction false} NothingMissing(s: State, closure: seq<FixtureDef>, node: string, bodies: Bodies)
    requires WiderLive(s.active, closure, node)
    ensures SetUpMissing(s, closure, node, bodies) == Outcome(s, true)
  {
    if closure != [] {
      forall k | 0 <= k < |Init(closure)| && Init(closure)[k].Rank() != 0
        ensures IsLive(s.active, InstanceKeyOf(Init(closure)[k], node))
      {
        assert Init(closure)[k] == closure[k];
      }
      NothingMissing(s, Init(closure), node, bodies);
      assert Last(closure) == closure[|closure| - 1];
    }
  }

  // A second call for the same node and closure changes nothing.
  lemma {:induction false} SyncIsIdempotent(
      s: State, closure: seq<FixtureDef>, node: string, bodies: Bodies, again: Bodies)
    requires Sound(s) && WiderSynced(s, closure, node, bodies).ok
    ensures var r := WiderSynced(s, closure, node, bodies).state;
            WiderSynced(r, closure, node, again) == Outcome(r, true)
  {
    SyncMakesWiderLive(s, closure, node, bodies);
    var r := WiderSynced(s, closure, node, bodies).state;
    assert StaleTornDown(r, node) == r;
    NothingMissing(r, closure, node, again);
  }

  // ---- where the stack's order and the keys fall short ----

  // A session fixture first asked for after a module fixture was set up sits on top of it, and keeps
  // it from being torn down when the run moves to another module.
  lemma {:induction false} LateSessionFixtureHidesStaleModule(
      m: FixtureDef, s: FixtureDef, first: string, second: string, elsewhere: string, bodies: Bodies)
    requires m.scope.Module? && s.scope.Session? && m.bindings == [] && s.bindings == []
    requires NodeIds.ModuleKey(first) == NodeIds.ModuleKey(second) != NodeIds.ModuleKey(elsewhere)
    requires bodies(m, [], 0).Some? && bodies(s, [], 1).Some?
    ensures var run := Run([Request(first, [m], [1]), Request(second, [m, s], [1])], bodies);
            var after := StaleTornDown(run, elsewhere);
            after == run && !NothingStale(after.active, elsewhere)
  {
    var s1 := Plainly(START, m, first, bodies);
    FirstSetUp(m, first, bodies);
    assert s1.active[0].key == InstanceKeyOf(m, second);
    OneWiderRequest(s1, [m], s, second, bodies);
    assert [m] + [s] == [m, s];
    var s2 := Plainly(s1, s, second, bodies);
    assert Run([Request(first, [m], [1]), Request(second, [m, s], [1])], bodies) == s2;
    assert Stale(s2.active[0], elsewhere) && !Stale(Last(s2.active), elsewhere);
  }

  // The stack with one more fixture, of no arguments, set up on top.
  function Plainly(s: State, d: FixtureDef, node: string, bodies: Bodies): State
    requires bodies(d, [], s.bodies).Some?
  {
    State(s.active + [Active(d, InstanceKeyOf(d, node), bodies(d, [], s.bodies).value, s.bodies, [])],
          s.trace + [SetUpTrace.SetUp(s.bodies, [])], s.bodies + 1)
  }

  lemma {:induction false} FirstSetUp(d: FixtureDef, node: string, bodies: Bodies)
    requires d.Rank() != 0 && d.bindings == [] && bodies(d, [], 0).Some?
    ensures Run([Request(node, [d], [1])], bodies) == Plainly(START, d, node, bodies)
  {
    OneWiderRequest(START, [], d, node, bodies);
    assert [] + [d] == [d];
  }

  lemma {:induction false} OneWiderRequest(
      s: State, earlier: seq<FixtureDef>, d: FixtureDef, node: string, bodies: Bodies)
    requires forall k :: 0 <= k < |earlier| ==> earlier[k].Rank() != 0
    requires d.Rank() != 0 && TopBelongs(s.active, node) && SetUpMissing(s, earlier, node, bodies) == Outcome(s, true)
    requires SyncOne(s, d, node, bodies).ok
    ensures RunCombos(s, earlier + [d], node, [1], bodies) == SyncOne(s, d, node, bodies)
  {
    var closure := earlier + [d];
    assert Init(closure) == earlier;
    var synced := SyncOne(s, d, node, bodies).state;
    assert StaleTornDown(s, node) == s;
    assert WiderSynced(s, closure, node, bodies) == Outcome(synced, true);
    NoLocals(synced, closure, node, bodies);
    assert synced.trace + [] == synced.trace;
    assert RunCases(synced, closure, node, 0, bodies) == synced;
    assert Init([1]) == [] && RunCombos(s, closure, node, [], bodies) == Outcome(s, true);
  }

  lemma {:induction false} NoLocals(s: State, closure: seq<FixtureDef>, node: string, bodies: Bodies)
    requires forall k :: 0 <= k < |closure| ==> closure[k].Rank() != 0
    ensures SetUpLocals(s, closure, node, bodies) == Case(s, [], true)
  {
    if closure != [] {
      NoLocals(s, Init(closure), node, bodies);
    }
  }

  // ---- the engine itself ----

  lemma {:induction false} SourcesStep(entries: seq<Active>, bindings: seq<(string, string)>, k: nat)
    requires k < |bindings|
    ensures Sources(entries, bindings[..k + 1]) ==
            (var earlier, a := Sources(entries, bindings[..k]), Find(entries, bindings[k].1);
             if earlier.None? || a.None? then None else Some(earlier.value + [a.value]))
    ensures Sources(entries, bindings[..k]).None? ==> Sources(entries, bindings).None?
    decreases |bindings| - k
  {
    assert Init(bindings[..k + 1]) == bindings[..k];
    if k + 1 < |bindings| {
      SourcesStep(entries, bindings, k + 1);
    } else {
      assert bindings[..k + 1] == bindings;
    }
  }

  lemma {:induction false} SetUpMissingStep(s: State, closure: seq<FixtureDef>, k: nat, node: string, bodies: Bodies)
    requires k < |closure|
    ensures var r := SetUpMissing(s, closure[..k], node, bodies);
            && SetUpMissing(s, closure[..k + 1], node, bodies) ==
               (if r.ok then SyncOne(r.state, closure[k], node, bodies) else r)
            && (!r.ok ==> SetUpMissing(s, closure, node, bodies) == r)
    decreases |closure| - k
  {
    assert Init(closure[..k + 1]) == closure[..k];
    if k + 1 < |closure| {
      SetUpMissingStep(s, closure, k + 1, node, bodies);
    } else {
      assert closure[..k + 1] == closure;
    }
  }

  lemma {:induction false} SetUpLocalsStep(s: State, closure: seq<FixtureDef>, k: nat, node: string, bodies: Bodies)
    requires k < |closure|
    ensures var c := SetUpLocals(s, closure[..k], node, bodies);
            && SetUpLocals(s, closure[..k + 1], node, bodies) ==
               (if c.ok then SetUpLocal(c, closure[k], node, bodies) else c)
            && (!c.ok ==> SetUpLocals(s, closure, node, bodies) == c)
    decreases |closure| - k
  {
    assert Init(closure[..k + 1]) == closure[..k];
    if k + 1 < |closure| {
      SetUpLocalsStep(s, closure, k + 1, node, bodies);
    } else {
      assert closure[..k + 1] == closure;
    }
  }

  // The latest entry of a name, found from the newest end.
  method NewestNamed(entries: seq<Active>, name: string) returns (r: Option<Active>)
    ensures r == Find(entries, name)
  {
    var i := |entries|;
    assert entries[..i] == entries;
    while i > 0
      invariant 0 <= i <= |entries| && Find(entries, name) == Find(entries[..i], name)
    {
      assert Init(entries[..i]) == entries[..i - 1];
      i := i - 1;
      if entries[i].def.name == name {
        return Some(entries[i]);
      }
    }
    r := None;
  }

  lemma {:induction false} FindLocalFirst(left: seq<Active>, entries: seq<Active>, name: string)
    ensures Find(left + entries, name) ==
            if Find(entries, name).Some? then Find(entries, name) else Find(left, name)
  {
    if entries == [] {
      assert left + entries == left;
    } else {
      assert Init(left + entries) == left + Init(entries);
      FindLocalFirst(left, Init(entries), name);
    }
  }

  class Engine {
    var active: seq<Active>  // in set-up order
    var bodiesRun: nat
    ghost var trace: seq<SetUpTrace.Event>

    ghost function View(): State
      reads this
    {
      State(active, trace, bodiesRun)
    }

    constructor ()
      ensures View() == START
    {
      active, bodiesRun, trace := [], 0, [];
    }

    // `value_of`: the case's own fixtures first, then the wider stack; `_value` when there are none.
    method ValueOf(name: string, locals: seq<Active>) returns (r: Option<Active>)
      ensures r == Find(active + locals, name)
    {
      FindLocalFirst(active, locals, name);
      r := NewestNamed(locals, name);
      if r.None? {
        r := NewestNamed(active, name);
      }
    }

    method ReadArguments(d: FixtureDef, locals: seq<Active>) returns (r: Option<seq<Active>>)
      ensures r == Sources(active + locals, d.bindings)
    {
      var from: seq<Active> := [];
      for k := 0 to |d.bindings|
        invariant Sources(active + locals, d.bindings[..k]) == Some(from)
      {
        SourcesStep(active + locals, d.bindings, k);
        var a := ValueOf(d.bindings[k].1, locals);
        if a.None? {
          if k + 1 < |d.bindings| {
            SourcesStep(active + locals, d.bindings, k + 1);
          } else {
            assert d.bindings[..k + 1] == d.bindings;
          }
          return None;
        }
        from := from + [a.value];
      }
      assert d.bindings[..|d.bindings|] == d.bindings;
      r := Some(from);
    }

    method SetUpFixture(d: FixtureDef, key: InstanceKey, locals: seq<Active>, bodies: Bodies)
        returns (built: Option<Active>)
      modifies this`bodiesRun, this`trace
      ensures Attempt(View(), built) == SetUpOne(old(View()), active + locals, d, key, bodies)
    {
      var from := ReadArguments(d, locals);
      if from.None? {
        return None;
      }
      var v := bodies(d, Values(from.value), bodiesRun);
      var n := bodiesRun;
      bodiesRun := bodiesRun + 1;
      if v.None? {
        return None;
      }
      trace := trace + [SetUpTrace.SetUp(n, Handles(from.value))];
      built := Some(Active(d, key, v.value, n, Handles(from.value)));
    }

    method TeardownStale(node: string)
      modifies this
      ensures View() == StaleTornDown(old(View()), node)
    {
      while active != []
        invariant StaleTornDown(View(), node) == StaleTornDown(old(View()), node)
        decreases |active|
      {
        var top := active[|active| - 1];
        if top.key == InstanceKeyOf(top.def, node) {
          break;
        }
        trace := trace + [SetUpTrace.TornDown(top.handle)];
        active := active[..|active| - 1];
      }
    }

    method SyncWider(closure: seq<FixtureDef>, node: string, bodies: Bodies) returns (ok: bool)
      modifies this
      ensures Outcome(View(), ok) == WiderSynced(old(View()), closure, node, bodies)
    {
      TeardownStale(node);
      ghost var start := View();
      var live := set a | a in active :: a.key;
      for k := 0 to |closure|
        invariant Outcome(View(), true) == SetUpMissing(start, closure[..k], node, bodies)
        invariant live == set a | a in active :: a.key
      {
        SetUpMissingStep(start, closure, k, node, bodies);
        var d := closure[k];
        if d.Rank() == 0 {
          continue;
        }
        var key := InstanceKeyOf(d, node);
        assert key in live <==> IsLive(active, key);
        if key in live {
          continue;
        }
        assert active + [] == active;
        var built := SetUpFixture(d, key, [], bodies);
        if built.None? {
          if k + 1 < |closure| {
            SetUpMissingStep(start, closure, k + 1, node, bodies);
          } else {
            assert closure[..k + 1] == closure;
          }
          return false;
        }
        ghost var before := active;
        active := active + [built.value];
        live := live + {key};
        assert forall a :: a in active <==> a in before || a == built.value;
      }
      assert closure[..|closure|] == closure;
      ok := true;
    }

    // The fixtures of one case up, its body, and in any event its fixtures down in reverse.
    method RunCase(closure: seq<FixtureDef>, node: string, bodies: Bodies)
      modifies this`bodiesRun, this`trace
      ensures View() == CaseRun(old(View()), closure, node, bodies)
    {
      var handles := SetUpLocalFixtures(closure, node, bodies);
      ghost var c := SetUpLocals(old(View()), closure, node, bodies);
      while handles != []
        invariant trace + Unwind(handles) == c.state.trace + Unwind(c.locals) && bodiesRun == c.state.bodies
        decreases |handles|
      {
        ghost var torn := SetUpTrace.TornDown(handles[|handles| - 1].handle);
        ConcatAssociates(trace, [torn], Unwind(Init(handles)));
        trace := trace + [torn];
        handles := handles[..|handles| - 1];
      }
      assert trace + [] == trace;
    }

    method SetUpLocalFixtures(closure: seq<FixtureDef>, node: string, bodies: Bodies) returns (locals: seq<Active>)
      modifies this`bodiesRun, this`trace
      ensures var c := SetUpLocals(old(View()), closure, node, bodies);
              View() == c.state && locals == c.locals
    {
      ghost var start := View();
      locals := [];
      for k := 0 to |closure|
        invariant Case(View(), locals, true) == SetUpLocals(start, closure[..k], node, bodies)
      {
        SetUpLocalsStep(start, closure, k, node, bodies);
        var d := closure[k];
        if d.Rank() != 0 {
          continue;
        }
        var built := SetUpFixture(d, InstanceKeyOf(d, node), locals, bodies);
        if built.None? {
          if k + 1 < |closure| {
            SetUpLocalsStep(start, closure, k + 1, node, bodies);
          } else {
            assert closure[..k + 1] == closure;
          }
          return;
        }
        locals := locals + [built.value];
      }
      assert closure[..|closure|] == closure;
    }

    method TeardownAll()
      modifies this
      ensures View() == AllTornDown(old(View()))
    {
      while active != []
        invariant trace + Unwind(active) == old(trace + Unwind(active)) && bodiesRun == old(bodiesRun)
        decreases |active|
      {
        ghost var torn := SetUpTrace.TornDown(active[|active| - 1].handle);
        ConcatAssociates(trace, [torn], Unwind(Init(active)));
        trace := trace + [torn];
        active := active[..|active| - 1];
      }
      assert trace + [] == trace;
    }
  }
}
