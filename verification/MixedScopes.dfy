/** Wider and function-scoped fixtures together, on an engine that earlier tests have left in any state:
    what every look-up by name finds, and when that is what the registry resolves. */
module MixedScopes {
  import opened Prelude
  import opened Fixtures
  import opened Closures
  import DepthFirst
  import opened Engines
  import opened Arguments

  function IsWider(): FixtureDef -> bool {
    (d: FixtureDef) => d.Rank() != 0
  }

  function Wider(closure: seq<FixtureDef>): seq<FixtureDef> {
    Filter(IsWider(), closure)
  }

  function Narrow(closure: seq<FixtureDef>): seq<FixtureDef> {
    Filter(Not(IsWider()), closure)
  }

  // ---- what is set up ----

  predicate HasKey(defs: seq<FixtureDef>, node: string, key: InstanceKey) {
    exists i :: 0 <= i < |defs| && InstanceKeyOf(defs[i], node) == key
  }

  // The wider definitions a sync sets up: those whose key is neither live nor taken by an earlier one.
  function MissingFrom(kept: seq<Active>, closure: seq<FixtureDef>, node: string): seq<FixtureDef> {
    if closure == [] then []
    else
      var before, d := MissingFrom(kept, Init(closure), node), Last(closure);
      var key := InstanceKeyOf(d, node);
      if d.Rank() == 0 || IsLive(kept, key) || HasKey(before, node, key) then before else before + [d]
  }

  // Everything a test sets up, in order: the missing wider fixtures, then its own.
  function ToSetUp(kept: seq<Active>, closure: seq<FixtureDef>, node: string): seq<FixtureDef> {
    MissingFrom(kept, closure, node) + Narrow(closure)
  }

  // `a`'s body was run on what its parameters' names find below it.
  ghost predicate Built(below: seq<Active>, a: Active, bodies: Bodies) {
    var from := Sources(below, a.def.bindings);
    from.Some? && BuiltFrom(a, from.value, bodies)
  }

  ghost predicate AllBuilt(base: seq<Active>, entries: seq<Active>, bodies: Bodies) {
    forall i :: 0 <= i < |entries| ==> Built(base + entries[..i], entries[i], bodies)
  }

  // Set-up of `d` stops above `below`: a name is not there, or the body raises on what is.
  ghost predicate Stops(below: seq<Active>, d: FixtureDef, n: nat, bodies: Bodies) {
    var from := Sources(below, d.bindings);
    from.None? || (|from.value| == |d.bindings| && Gives(bodies, d, from.value, n, None))
  }

  // `entries` were set up on `base` in the given order, all of it or up to the first that stops.
  ghost predicate SetUpIn(
      base: seq<Active>, entries: seq<Active>, order: seq<FixtureDef>, ok: bool, n: nat, bodies: Bodies) {
    && |entries| <= |order|
    && Defs(entries) == order[..|entries|]
    && AllBuilt(base, entries, bodies)
    && (ok <==> |entries| == |order|)
    && (!ok ==> Stops(base + entries, order[|entries|], n + |entries|, bodies))
  }

  lemma {:induction false} BuiltSnoc(base: seq<Active>, entries: seq<Active>, a: Active, bodies: Bodies)
    requires AllBuilt(base, entries, bodies) && Built(base + entries, a, bodies)
    ensures AllBuilt(base, entries + [a], bodies)
    ensures Defs(entries + [a]) == Defs(entries) + [a.def]
  {
    var more := entries + [a];
    forall i | 0 <= i < |more|
      ensures Built(base + more[..i], more[i], bodies)
    {
      assert more[..i] == if i < |entries| then entries[..i] else entries;
    }
  }

  // One more definition of the order, set up or not.
  lemma {:induction false} SetUpNext(
      base: seq<Active>, entries: seq<Active>, order: seq<FixtureDef>, n: nat, d: FixtureDef, s: State,
      key: InstanceKey, bodies: Bodies)
    requires SetUpIn(base, entries, order, true, n, bodies) && s.bodies == n + |entries|
    ensures var r := SetUpOne(s, base + entries, d, key, bodies);
            var more := if r.built.Some? then entries + [r.built.value] else entries;
            && SetUpIn(base, more, order + [d], r.built.Some?, n, bodies)
            && r.state.active == s.active
            && (r.built.Some? ==> r.built.value.key == key && r.state.bodies == n + |more|)
  {
    var r := SetUpOne(s, base + entries, d, key, bodies);
    assert (order + [d])[..|entries|] == order[..|entries|];
    if r.built.Some? {
      BuiltSnoc(base, entries, r.built.value, bodies);
      assert order[..|entries|] == order && (order + [d])[..|entries| + 1] == order + [d];
    }
  }

  // ---- the sync ----

  ghost predicate AllKeyed(entries: seq<Active>, node: string) {
    forall i :: 0 <= i < |entries| ==> entries[i].key == InstanceKeyOf(entries[i].def, node)
  }

  // The stack after a sync of `closure`: what was there, and the missing ones above it.
  ghost predicate SyncedOn(
      s: State, r: Outcome, added: seq<Active>, closure: seq<FixtureDef>, node: string, bodies: Bodies) {
    && r.state.active == s.active + added
    && AllKeyed(added, node)
    && SetUpIn(s.active, added, MissingFrom(s.active, closure, node), r.ok, s.bodies, bodies)
    && (r.ok ==> r.state.bodies == s.bodies + |added|)
  }

  lemma {:induction false} LiveAmong(base: seq<Active>, added: seq<Active>, node: string, key: InstanceKey)
    requires AllKeyed(added, node)
    ensures IsLive(base + added, key) <==> IsLive(base, key) || HasKey(Defs(added), node, key)
  {
    var all := base + added;
    if IsLive(all, key) {
      var i :| 0 <= i < |all| && all[i].key == key;
      if i >= |base| {
        assert InstanceKeyOf(Defs(added)[i - |base|], node) == key;
      }
    }
    if IsLive(base, key) {
      var i :| 0 <= i < |base| && base[i].key == key;
      assert all[i].key == key;
    }
    if HasKey(Defs(added), node, key) {
      var i :| 0 <= i < |Defs(added)| && InstanceKeyOf(Defs(added)[i], node) == key;
      assert all[|base| + i].key == key;
    }
  }

  lemma {:induction false} SyncSetsUpMissing(s: State, closure: seq<FixtureDef>, node: string, bodies: Bodies)
      returns (added: seq<Active>)
    ensures SyncedOn(s, SetUpMissing(s, closure, node, bodies), added, closure, node, bodies)
  {
    if closure == [] {
      added := [];
      assert s.active + [] == s.active;
    } else {
      added := SyncSetsUpMissing(s, Init(closure), node, bodies);
      var r := SetUpMissing(s, Init(closure), node, bodies);
      if r.ok {
        added := SyncNext(s, r, added, Init(closure), Last(closure), node, bodies);
        assert Init(closure) + [Last(closure)] == closure;
      } else {
        MissingGrows(s.active, closure, node);
        StoppedEarlier(s.active, added, MissingFrom(s.active, Init(closure), node),
                       MissingFrom(s.active, closure, node), s.bodies, bodies);
      }
    }
  }

  lemma {:induction false} MissingGrows(kept: seq<Active>, closure: seq<FixtureDef>, node: string)
    requires closure != []
    ensures MissingFrom(kept, Init(closure), node) <= MissingFrom(kept, closure, node)
  {
  }

  lemma {:induction false} StoppedEarlier(base: seq<Active>, entries: seq<Active>, order: seq<FixtureDef>,
                                          more: seq<FixtureDef>, n: nat, bodies: Bodies)
    requires SetUpIn(base, entries, order, false, n, bodies) && order <= more
    ensures SetUpIn(base, entries, more, false, n, bodies)
  {
    assert more[..|entries|] == order[..|entries|];
  }

  lemma {:induction false} SyncNext(s: State, r: Outcome, before: seq<Active>, closure: seq<FixtureDef>, d: FixtureDef,
                                    node: string, bodies: Bodies)
      returns (added: seq<Active>)
    requires SyncedOn(s, r, before, closure, node, bodies) && r.ok
    ensures SyncedOn(s, SyncOne(r.state, d, node, bodies), added, closure + [d], node, bodies)
  {
    added := before;
    var key, missing := InstanceKeyOf(d, node), MissingFrom(s.active, closure, node);
    InitOfSnoc(closure, d);
    assert missing[..|before|] == missing;
    LiveAmong(s.active, before, node, key);
    if d.Rank() != 0 && !IsLive(r.state.active, key) {
      SetUpNext(s.active, before, missing, s.bodies, d, r.state, key, bodies);
      var built := SetUpOne(r.state, r.state.active, d, key, bodies).built;
      if built.Some? {
        added := before + [built.value];
        ConcatAssociates(s.active, before, [built.value]);
      }
    }
  }

  // ---- the case ----

  ghost predicate CasedOn(s: State, c: Case, closure: seq<FixtureDef>, bodies: Bodies) {
    && c.state.active == s.active
    && SetUpIn(s.active, c.locals, Narrow(closure), c.ok, s.bodies, bodies)
    && (c.ok ==> c.state.bodies == s.bodies + |c.locals|)
  }

  lemma {:induction false} CaseSetsUpNarrow(s: State, closure: seq<FixtureDef>, node: string, bodies: Bodies)
    ensures CasedOn(s, SetUpLocals(s, closure, node, bodies), closure, bodies)
  {
    if closure != [] {
      CaseSetsUpNarrow(s, Init(closure), node, bodies);
      var c, d := SetUpLocals(s, Init(closure), node, bodies), Last(closure);
      var order := Narrow(Init(closure));
      if c.ok && d.Rank() == 0 {
        SetUpNext(s.active, c.locals, order, s.bodies, d, c.state, InstanceKeyOf(d, node), bodies);
      } else if !c.ok {
        StoppedEarlier(s.active, c.locals, order, Narrow(closure), s.bodies, bodies);
      }
    }
  }

  // ---- what a look-up by name finds ----

  // What one test sets up on a stack: its sync, and its case unless the sync stopped.
  datatype Test = Test(kept: seq<Active>, added: seq<Active>, locals: seq<Active>, ok: bool)

  // The entries above the first `n`.
  function Above(n: nat, active: seq<Active>): seq<Active> {
    if n <= |active| then active[n..] else []
  }

  function RunTest(s: State, closure: seq<FixtureDef>, node: string, bodies: Bodies): Test {
    var kept, r := StaleTornDown(s, node).active, WiderSynced(s, closure, node, bodies);
    var c := SetUpLocals(r.state, closure, node, bodies);
    if r.ok then Test(kept, Above(|kept|, r.state.active), c.locals, c.ok)
    else Test(kept, Above(|kept|, r.state.active), [], false)
  }

  function Entries(t: Test): seq<Active> {
    t.added + t.locals
  }

  lemma {:induction false} BuiltConcat(base: seq<Active>, a: seq<Active>, b: seq<Active>, bodies: Bodies)
    requires AllBuilt(base, a, bodies) && AllBuilt(base + a, b, bodies)
    ensures AllBuilt(base, a + b, bodies)
  {
    forall i | 0 <= i < |a + b|
      ensures Built(base + (a + b)[..i], (a + b)[i], bodies)
    {
      if i < |a| {
        assert (a + b)[..i] == a[..i];
      } else {
        assert base + (a + b)[..i] == base + a + b[..i - |a|];
      }
    }
  }

  // A sync and a case, one after the other, are one set-up of everything the test sets up.
  lemma {:induction false} StagesJoin(base: seq<Active>, added: seq<Active>, missing: seq<FixtureDef>, n: nat,
                                      locals: seq<Active>, narrow: seq<FixtureDef>, ok: bool, bodies: Bodies)
    requires SetUpIn(base, added, missing, true, n, bodies)
    requires SetUpIn(base + added, locals, narrow, ok, n + |added|, bodies)
    ensures SetUpIn(base, added + locals, missing + narrow, ok, n, bodies)
  {
    var order, all := missing + narrow, added + locals;
    BuiltConcat(base, added, locals, bodies);
    JoinedDefs(added, missing, locals, narrow);
    if !ok {
      ConcatAssociates(base, added, locals);
      assert order[|all|] == narrow[|locals|];
    }
  }

  lemma {:induction false} JoinedDefs(
      added: seq<Active>, missing: seq<FixtureDef>, locals: seq<Active>, narrow: seq<FixtureDef>)
    requires |added| == |missing| && |locals| <= |narrow|
    requires Defs(added) == missing[..|added|] && Defs(locals) == narrow[..|locals|]
    ensures Defs(added + locals) == (missing + narrow)[..|added + locals|]
  {
    assert missing[..|added|] == missing;
    assert (missing + narrow)[..|added| + |locals|] == missing + narrow[..|locals|];
    assert Defs(added + locals) == Defs(added) + Defs(locals);
  }

  // From any state of the engine and for any closure: a test's fixtures are set up in one order, each
  // on what its parameters' names find below it, until a name is not there or a body raises.
  lemma {:induction false} TestSetsUpInOrder(s: State, closure: seq<FixtureDef>, node: string, bodies: Bodies)
    ensures var t := RunTest(s, closure, node, bodies);
            && t.kept == StaleTornDown(s, node).active
            && WiderSynced(s, closure, node, bodies).state.active == t.kept + t.added
            && SetUpIn(t.kept, Entries(t), ToSetUp(t.kept, closure, node), t.ok, s.bodies, bodies)
  {
    var kept, r := StaleTornDown(s, node), WiderSynced(s, closure, node, bodies);
    TeardownStaleIsExact(s, node);
    var added := SyncSetsUpMissing(kept, closure, node, bodies);
    assert Above(|kept.active|, kept.active + added) == added;
    var missing := MissingFrom(kept.active, closure, node);
    if r.ok {
      SyncThenCase(kept, r.state, added, closure, node, bodies);
    } else {
      assert added + [] == added;
      StoppedEarlier(kept.active, added, missing, ToSetUp(kept.active, closure, node), s.bodies, bodies);
    }
  }

  lemma {:induction false} SyncThenCase(
      kept: State, synced: State, added: seq<Active>, closure: seq<FixtureDef>, node: string, bodies: Bodies)
    requires SyncedOn(kept, Outcome(synced, true), added, closure, node, bodies)
    ensures var c := SetUpLocals(synced, closure, node, bodies);
            SetUpIn(kept.active, added + c.locals, ToSetUp(kept.active, closure, node), c.ok, kept.bodies, bodies)
  {
    var c := SetUpLocals(synced, closure, node, bodies);
    CaseSetsUpNarrow(synced, closure, node, bodies);
    StagesJoin(kept.active, added, MissingFrom(kept.active, closure, node), kept.bodies,
               c.locals, Narrow(closure), c.ok, bodies);
  }

  // The definition whose value a parameter of `d` is given above a stack of these definitions.
  lemma {:induction false} ArgumentIsLatest(below: seq<Active>, bindings: seq<(string, string)>, b: nat)
    requires b < |bindings| && Sources(below, bindings).Some?
    ensures Latest(Defs(below), bindings[b].1) == Some(Sources(below, bindings).value[b].def)
  {
    SourcesAreThere(below, bindings);
    FindIsLatest(below, bindings[b].1);
  }

  lemma {:induction false} LatestConcat(a: seq<FixtureDef>, b: seq<FixtureDef>, name: string)
    ensures Latest(a + b, name) == if Latest(b, name).Some? then Latest(b, name) else Latest(a, name)
  {
    if b == [] {
      assert a + b == a;
    } else {
      assert Init(a + b) == a + Init(b);
      LatestConcat(a, Init(b), name);
    }
  }

  // ---- when it is what the registry resolves ----

  // Each parameter of `a` that resolves was given the value of the definition it resolves to.
  ghost predicate GivenRight(reg: seq<FixtureDef>, site: Site, below: seq<Active>, a: Active) {
    var from := Sources(below, a.def.bindings);
    from.Some? && forall b :: 0 <= b < |a.def.bindings| ==>
      GivenTarget(Target(reg, site, a.def, a.def.bindings[b].1), from.value[b])
  }

  predicate GivenTarget(target: Option<FixtureDef>, arg: Active) {
    target.Some? ==> arg.def == target.value
  }

  // A wider `u` behind another definition of its name: a function-scoped one, which any set-up puts after
  // it, or a more specific one.
  ghost predicate Hidden(site: Site, present: seq<FixtureDef>, u: FixtureDef) {
    u.Rank() != 0 && exists v :: v in present && v.name == u.name && HidesFrom(site, v, u)
  }

  predicate HidesFrom(site: Site, v: FixtureDef, u: FixtureDef) {
    v.Rank() == 0 || IsCloser(site, v, u)
  }

  predicate IsCloser(site: Site, v: FixtureDef, u: FixtureDef) {
    var (x, y) := (Specificity(v, site), Specificity(u, site));
    x.Some? && y.Some? && y.value < x.value
  }

  // The definition `u` is what its name finds above `kept` and `present`: it is set up among the latter
  // and not behind another of its name; or none of its name is set up, and the newest entry of its name
  // that was kept is its own.
  ghost predicate Reaches(site: Site, kept: seq<FixtureDef>, present: seq<FixtureDef>, u: FixtureDef) {
    if u in present then !Hidden(site, present, u)
    else Latest(present, u.name).None? && Latest(kept, u.name) == Some(u)
  }

  ghost predicate AllReach(
      reg: seq<FixtureDef>, site: Site, kept: seq<FixtureDef>, present: seq<FixtureDef>, d: FixtureDef) {
    forall b :: 0 <= b < |d.bindings| ==> TargetReaches(site, Target(reg, site, d, d.bindings[b].1), kept, present)
  }

  ghost predicate TargetReaches(
      site: Site, target: Option<FixtureDef>, kept: seq<FixtureDef>, present: seq<FixtureDef>) {
    target.Some? ==> Reaches(site, kept, present, target.value)
  }

  // The order things would be set up in if nothing were live: `_sync_wider` first, then the case.
  function Stages(closure: seq<FixtureDef>): seq<FixtureDef> {
    Wider(closure) + Narrow(closure)
  }

  // No wider fixture resolves a parameter to a function-scoped one.
  ghost predicate NoScopeMismatch(reg: seq<FixtureDef>, site: Site, closure: seq<FixtureDef>) {
    forall d, t :: d in closure && d.Rank() != 0 && DepthFirst.Edge(GraphOf(reg, site), d, t) ==> t.Rank() != 0
  }

  lemma {:induction false} StagesAreSetUpOrder(reg: seq<FixtureDef>, site: Site, names: seq<string>)
    requires !CyclicNeeds(reg, site, names) && NoScopeMismatch(reg, site, Closure(reg, site, names))
    ensures SetUpOrder(reg, site, names, Stages(Closure(reg, site, names)))
  {
    var closure, g := Closure(reg, site, names), GraphOf(reg, site);
    var narrow := Not(IsWider());
    var w, n := Wider(closure), Narrow(closure);
    ClosureIsSetUpOrder(reg, site, names);
    DepthFirst.PartFirst(g, closure, IsWider());
    FilterHasNoRepeats(IsWider(), closure);
    FilterHasNoRepeats(narrow, closure);
    forall d ensures d in w <==> NeededBy(reg, site, names, d) && d.Rank() != 0
             ensures d in n <==> NeededBy(reg, site, names, d) && d.Rank() == 0 {
      FilterHolds(IsWider(), closure, d);
      FilterHolds(narrow, closure, d);
    }
    forall i, j | 0 <= i < j < |w + n| ensures (w + n)[i] != (w + n)[j] {
      if i < |w| <= j {
        assert w[i] in w && n[j - |w|] in n;
      }
    }
  }

  // ---- what is set up is part of the stages, in their order ----

  function Picks(picked: seq<FixtureDef>): FixtureDef -> bool {
    (d: FixtureDef) => d in picked
  }

  lemma {:induction false} MissingIsWider(kept: seq<Active>, closure: seq<FixtureDef>, node: string)
    requires NoRepeats(closure)
    ensures var missing := MissingFrom(kept, closure, node);
            && (forall d :: d in missing ==> d in closure && d.Rank() != 0)
            && missing == Filter(Picks(missing), Wider(closure))
  {
    if closure != [] {
      var before, d := MissingFrom(kept, Init(closure), node), Last(closure);
      var missing, wider := MissingFrom(kept, closure, node), Wider(Init(closure));
      MissingIsWider(kept, Init(closure), node);
      assert d !in Init(closure);
      forall i | 0 <= i < |wider|
        ensures Picks(before)(wider[i]) == Picks(missing)(wider[i])
      {
        FilterHolds(IsWider(), Init(closure), wider[i]);
      }
      FilterSame(Picks(before), Picks(missing), wider);
      FilterLast(IsWider(), closure);
      if d.Rank() != 0 {
        assert d !in before;
        FilterLast(Picks(missing), Wider(closure));
        InitOfSnoc(wider, d);
      }
    }
  }

  // What is kept of a sequence stays in its order.
  lemma {:induction false} FilterKeepsOrder<T>(keep: T -> bool, s: seq<T>, p: nat, q: nat) returns (i: nat, j: nat)
    requires p < q < |Filter(keep, s)|
    ensures i < j < |s| && s[i] == Filter(keep, s)[p] && s[j] == Filter(keep, s)[q]
  {
    if q < |Filter(keep, Init(s))| {
      i, j := FilterKeepsOrder(keep, Init(s), p, q);
    } else {
      i := FilterPlace(keep, Init(s), p);
      j := |s| - 1;
    }
  }

  // Both wider, or both function-scoped: in the order of the closure.
  lemma {:induction false} StageKeepsOrder(kept: seq<Active>, closure: seq<FixtureDef>, node: string, p: nat, q: nat)
      returns (i: nat, j: nat)
    requires NoRepeats(closure)
    requires var order := ToSetUp(kept, closure, node);
             p < q < |order| && (order[p].Rank() == 0 <==> order[q].Rank() == 0)
    ensures var order := ToSetUp(kept, closure, node);
            i < j < |closure| && closure[i] == order[p] && closure[j] == order[q]
  {
    var missing, order := MissingFrom(kept, closure, node), ToSetUp(kept, closure, node);
    SplitByRank(kept, closure, node, p);
    SplitByRank(kept, closure, node, q);
    if q < |missing| {
      var x, y := FilterKeepsOrder(Picks(missing), Wider(closure), p, q);
      i, j := FilterKeepsOrder(IsWider(), closure, x, y);
    } else {
      i, j := FilterKeepsOrder(Not(IsWider()), closure, p - |missing|, q - |missing|);
    }
  }

  lemma {:induction false} SplitByRank(kept: seq<Active>, closure: seq<FixtureDef>, node: string, p: nat)
    requires NoRepeats(closure) && p < |ToSetUp(kept, closure, node)|
    ensures var missing, order := MissingFrom(kept, closure, node), ToSetUp(kept, closure, node);
            && missing == Filter(Picks(missing), Wider(closure))
            && order[p] in closure
            && (p < |missing| <==> order[p].Rank() != 0)
  {
    var missing, order := MissingFrom(kept, closure, node), ToSetUp(kept, closure, node);
    MissingIsWider(kept, closure, node);
    if p < |missing| {
      assert order[p] in missing;
    } else {
      assert order[p] == Narrow(closure)[p - |missing|] && order[p] in Narrow(closure);
      FilterHolds(Not(IsWider()), closure, order[p]);
    }
  }

  // Two definitions of one name, in the order they are set up: a wider and a function-scoped one, or the
  // less specific first.
  lemma {:induction false} NameOrder(reg: seq<FixtureDef>, site: Site, names: seq<string>, kept: seq<Active>,
                                     node: string, p: nat, q: nat)
    requires !CyclicNeeds(reg, site, names)
    requires var order := ToSetUp(kept, Closure(reg, site, names), node);
             p < q < |order| && order[p].name == order[q].name
    ensures var order := ToSetUp(kept, Closure(reg, site, names), node);
            InNameOrder(site, order[p], order[q])
  {
    var closure := Closure(reg, site, names);
    ClosureIsExact(reg, site, names);
    ClosureIsSetUpOrder(reg, site, names);
    SplitByRank(kept, closure, node, p);
    SplitByRank(kept, closure, node, q);
    var order := ToSetUp(kept, closure, node);
    if order[p].Rank() == 0 <==> order[q].Rank() == 0 {
      var i, j := StageKeepsOrder(kept, closure, node, p, q);
      EarlierIsLess(reg, site, names, closure, i, j);
    }
  }

  predicate InNameOrder(site: Site, d: FixtureDef, e: FixtureDef) {
    if d.Rank() == 0 <==> e.Rank() == 0 then
      IsCloser(site, e, d)
    else d.Rank() != 0
  }

  ghost predicate AllInNameOrder(site: Site, order: seq<FixtureDef>) {
    forall p, q :: 0 <= p < q < |order| && order[p].name == order[q].name ==> InNameOrder(site, order[p], order[q])
  }

  // The last of its name, among definitions in that order.
  lemma {:induction false} LatestIffNotHidden(site: Site, present: seq<FixtureDef>, u: FixtureDef)
    requires AllInNameOrder(site, present) && u in present
    requires u.Rank() == 0 ==> forall v :: v in present && v.name == u.name && v.Rank() == 0 ==> !IsCloser(site, v, u)
    ensures Latest(present, u.name) == Some(u) <==> !Hidden(site, present, u)
  {
    var j :| 0 <= j < |present| && present[j] == u;
    if k :| j < k < |present| && present[k].name == u.name {
      assert InNameOrder(site, present[j], present[k]);
      assert present[k] in present && HidesFrom(site, present[k], u);
      LaterIsNot(site, present, u, j, k);
    } else {
      LatestIs(present, u.name, j);
      forall v | v in present && v.name == u.name
        ensures u.Rank() != 0 ==> !HidesFrom(site, v, u)
      {
        var k :| 0 <= k < |present| && present[k] == v;
        assert k < j ==> InNameOrder(site, present[k], present[j]);
      }
    }
  }

  // Something of the name after it: `u` is not the latest.
  lemma {:induction false} LaterIsNot(site: Site, present: seq<FixtureDef>, u: FixtureDef, j: nat, k: nat)
    requires AllInNameOrder(site, present) && j < k < |present| && present[j] == u && present[k].name == u.name
    ensures Latest(present, u.name) != Some(u)
  {
    var m := LatestPlace(present, u.name, k);
    assert InNameOrder(site, present[j], present[m]);
  }

  // What a look-up above `kept` and `present` finds.
  lemma {:induction false} FindsIffReaches(site: Site, kept: seq<FixtureDef>, present: seq<FixtureDef>, u: FixtureDef)
    requires AllInNameOrder(site, present)
    requires u in present && u.Rank() == 0 ==>
      forall v :: v in present && v.name == u.name && v.Rank() == 0 ==> !IsCloser(site, v, u)
    ensures Latest(kept + present, u.name) == Some(u) <==> Reaches(site, kept, present, u)
  {
    LatestConcat(kept, present, u.name);
    LatestIsThere(present, u.name);
    if u in present {
      LatestIffNotHidden(site, present, u);
      var j :| 0 <= j < |present| && present[j] == u;
      var _ := LatestPlace(present, u.name, j);
    }
  }

  lemma {:induction false} LatestIsThere(order: seq<FixtureDef>, name: string)
    ensures var d := Latest(order, name); d.Some? ==> d.value in order
  {
    if order != [] && Last(order).name != name {
      LatestIsThere(Init(order), name);
    }
  }

  lemma {:induction false} LatestPlace(order: seq<FixtureDef>, name: string, k: nat) returns (m: nat)
    requires k < |order| && order[k].name == name
    ensures k <= m < |order| && order[m].name == name && Latest(order, name) == Some(order[m])
  {
    m := |order| - 1;
    if Last(order).name != name {
      m := LatestPlace(Init(order), name, k);
    }
  }

  lemma {:induction false} EachLookupIsLatest(
      kept: seq<Active>, entries: seq<Active>, order: seq<FixtureDef>, ok: bool, n: nat, bodies: Bodies, i: nat,
      b: nat)
    requires SetUpIn(kept, entries, order, ok, n, bodies) && i < |entries| && b < |order[i].bindings|
    ensures entries[i].def == order[i]
    ensures var from := Sources(kept + entries[..i], order[i].bindings);
            from.Some? && Latest(Defs(kept) + order[..i], order[i].bindings[b].1) == Some(from.value[b].def)
  {
    var below := kept + entries[..i];
    assert Defs(entries)[i] == order[i];
    assert Built(below, entries[i], bodies);
    assert Defs(below) == Defs(kept) + order[..i] by {
      assert forall k :: 0 <= k < i ==> Defs(entries)[k] == order[k];
    }
    ArgumentIsLatest(below, order[i].bindings, b);
  }

  // Of what stands before the latest of a name nothing is closer.
  lemma {:induction false} LatestIsClosest(reg: seq<FixtureDef>, site: Site, names: seq<string>, order: seq<FixtureDef>,
                                           x: nat, y: nat, u: FixtureDef)
    requires SetUpOrder(reg, site, names, order) && x < y <= |order| && order[x].name == u.name
    requires Latest(order[..y], u.name) == Some(u)
    ensures !IsCloser(site, order[x], u)
  {
    var m := LatestPlace(order[..y], u.name, x);
    if x < m {
      EarlierIsLess(reg, site, names, order, x, m);
    }
  }

  // A function-scoped fixture set up before the requester is no closer than what the request resolves to.
  lemma {:induction false} EarlierIsNoCloser(reg: seq<FixtureDef>, site: Site, names: seq<string>, kept: seq<Active>,
                                             node: string, i: nat, b: nat, k: nat)
    requires !CyclicNeeds(reg, site, names)
    requires var order := ToSetUp(kept, Closure(reg, site, names), node);
             && k < i < |order| && b < |order[i].bindings|
             && order[k].Rank() == 0 && order[k].name == order[i].bindings[b].1
             && Target(reg, site, order[i], order[i].bindings[b].1).Some?
    ensures var order := ToSetUp(kept, Closure(reg, site, names), node);
            !IsCloser(site, order[k], Target(reg, site, order[i], order[i].bindings[b].1).value)
  {
    var closure := Closure(reg, site, names);
    var order := ToSetUp(kept, closure, node);
    ClosureIsExact(reg, site, names);
    ClosureIsSetUpOrder(reg, site, names);
    SplitByRank(kept, closure, node, k);
    SplitByRank(kept, closure, node, i);
    var x, y := StageKeepsOrder(kept, closure, node, k, i);
    ByNameIsByDefinition(reg, site, names, closure, y, b);
    TargetIsNode(reg, site, order[i], order[i].bindings[b].1);
    LatestIsClosest(reg, site, names, closure, x, y, Target(reg, site, order[i], order[i].bindings[b].1).value);
  }

  lemma {:induction false} SetUpInNameOrder(
      reg: seq<FixtureDef>, site: Site, names: seq<string>, kept: seq<Active>, node: string, n: nat)
    requires !CyclicNeeds(reg, site, names) && n <= |ToSetUp(kept, Closure(reg, site, names), node)|
    ensures AllInNameOrder(site, ToSetUp(kept, Closure(reg, site, names), node)[..n])
  {
    var present := ToSetUp(kept, Closure(reg, site, names), node)[..n];
    forall p, q | 0 <= p < q < |present| && present[p].name == present[q].name
      ensures InNameOrder(site, present[p], present[q])
    {
      NameOrder(reg, site, names, kept, node, p, q);
    }
  }

  // When a look-up at the `i`-th set-up finds what the name stands for.
  lemma {:induction false} TargetIffReaches(reg: seq<FixtureDef>, site: Site, names: seq<string>, kept: seq<Active>,
                                            node: string, i: nat, b: nat)
    requires !CyclicNeeds(reg, site, names)
    requires i < |ToSetUp(kept, Closure(reg, site, names), node)|
    requires b < |ToSetUp(kept, Closure(reg, site, names), node)[i].bindings|
    ensures var order := ToSetUp(kept, Closure(reg, site, names), node);
            var target := Target(reg, site, order[i], order[i].bindings[b].1);
            target.Some? ==>
              (Latest(Defs(kept) + order[..i], order[i].bindings[b].1) == target
               <==> Reaches(site, Defs(kept), order[..i], target.value))
  {
    var order := ToSetUp(kept, Closure(reg, site, names), node);
    var name := order[i].bindings[b].1;
    if Target(reg, site, order[i], name).Some? {
      var u := Target(reg, site, order[i], name).value;
      TargetIsNode(reg, site, order[i], name);
      SetUpInNameOrder(reg, site, names, kept, node, i);
      forall v | v in order[..i] && v.name == u.name && v.Rank() == 0
        ensures !IsCloser(site, v, u)
      {
        var k :| 0 <= k < i && order[..i][k] == v;
        EarlierIsNoCloser(reg, site, names, kept, node, i, b, k);
      }
      FindsIffReaches(site, Defs(kept), order[..i], u);
    }
  }

  lemma {:induction false} ArgumentsAreRightIff(
      reg: seq<FixtureDef>, site: Site, names: seq<string>, kept: seq<Active>, entries: seq<Active>, ok: bool, n: nat,
      node: string, bodies: Bodies, i: nat)
    requires !CyclicNeeds(reg, site, names)
    requires SetUpIn(kept, entries, ToSetUp(kept, Closure(reg, site, names), node), ok, n, bodies) && i < |entries|
    ensures var order := ToSetUp(kept, Closure(reg, site, names), node);
            GivenRight(reg, site, kept + entries[..i], entries[i])
            <==> AllReach(reg, site, Defs(kept), order[..i], order[i])
  {
    var order := ToSetUp(kept, Closure(reg, site, names), node);
    var d, below := order[i], kept + entries[..i];
    assert Built(below, entries[i], bodies) && Defs(entries)[i] == d;
    var from := Sources(below, d.bindings).value;
    forall b | 0 <= b < |d.bindings|
      ensures var target := Target(reg, site, d, d.bindings[b].1);
              GivenTarget(target, from[b]) <==> TargetReaches(site, target, Defs(kept), order[..i])
    {
      EachLookupIsLatest(kept, entries, order, ok, n, bodies, i, b);
      TargetIffReaches(reg, site, names, kept, node, i, b);
    }
  }

  lemma {:induction false} NameIffReaches(reg: seq<FixtureDef>, site: Site, names: seq<string>, kept: seq<Active>,
                                          node: string, name: string)
    requires !CyclicNeeds(reg, site, names)
    requires name in names && Resolve(reg, name, site, None).Some?
    ensures var order, u := ToSetUp(kept, Closure(reg, site, names), node), Resolve(reg, name, site, None);
            Latest(Defs(kept) + order, name) == u <==> Reaches(site, Defs(kept), order, u.value)
  {
    var closure := Closure(reg, site, names);
    var order, u := ToSetUp(kept, closure, node), Resolve(reg, name, site, None).value;
    ClosureIsExact(reg, site, names);
    ClosureIsSetUpOrder(reg, site, names);
    TestArgumentIsNearest(reg, site, names, closure, name);
    ResolveFinds(reg, name, site, None);
    SetUpInNameOrder(reg, site, names, kept, node, |order|);
    assert order[..|order|] == order && closure[..|closure|] == closure;
    forall v | v in order && v.name == u.name
      ensures !IsCloser(site, v, u)
    {
      var k :| 0 <= k < |order| && order[k] == v;
      SplitByRank(kept, closure, node, k);
      var x :| 0 <= x < |closure| && closure[x] == v;
      LatestIsClosest(reg, site, names, closure, x, |closure|, u);
    }
    FindsIffReaches(site, Defs(kept), order, u);
  }

  lemma {:induction false} FindsItIff(reg: seq<FixtureDef>, site: Site, kept: seq<Active>, entries: seq<Active>,
                                      order: seq<FixtureDef>, name: string)
    requires Defs(entries) == order && Resolve(reg, name, site, None).Some?
    ensures FindsIt(reg, site, kept + entries, name)
      <==> Latest(Defs(kept) + order, name) == Resolve(reg, name, site, None)
  {
    FindIsLatest(kept + entries, name);
    assert Defs(kept + entries) == Defs(kept) + order;
  }

  // Looking `name` up by name gives an entry of the definition it resolves to.
  ghost predicate FindsIt(reg: seq<FixtureDef>, site: Site, entries: seq<Active>, name: string) {
    var t, a := Resolve(reg, name, site, None), Find(entries, name);
    t.Some? ==> a.Some? && a.value.def == t.value
  }

  ghost predicate NameReaches(
      reg: seq<FixtureDef>, site: Site, kept: seq<FixtureDef>, order: seq<FixtureDef>, name: string) {
    TargetReaches(site, Resolve(reg, name, site, None), kept, order)
  }

  // Whatever earlier tests left live. A test's fixtures are set up in order until a name is not there or
  // a body raises; each is given the definitions its parameters resolve to, and each name the test
  // asks for is found at its nearest definition, exactly when that definition is among those set up, or
  // none of its name is and its own entry is the newest of its name that was kept.
  lemma {:induction false} MixedScopeArgumentsAreRightIff(
      reg: seq<FixtureDef>, site: Site, names: seq<string>, s: State, node: string, bodies: Bodies)
    requires !CyclicNeeds(reg, site, names)
    ensures var closure := Closure(reg, site, names);
            var t := RunTest(s, closure, node, bodies);
            var order := ToSetUp(t.kept, closure, node);
            && t.kept == StaleTornDown(s, node).active
            && SetUpIn(t.kept, Entries(t), order, t.ok, s.bodies, bodies)
            && (forall i :: 0 <= i < |Entries(t)| ==>
                  (GivenRight(reg, site, t.kept + Entries(t)[..i], Entries(t)[i])
                   <==> AllReach(reg, site, Defs(t.kept), order[..i], order[i])))
            && (t.ok ==> forall n :: n in names ==>
                  (FindsIt(reg, site, t.kept + Entries(t), n) <==> NameReaches(reg, site, Defs(t.kept), order, n)))
  {
    var closure := Closure(reg, site, names);
    var t := RunTest(s, closure, node, bodies);
    var order := ToSetUp(t.kept, closure, node);
    TestSetsUpInOrder(s, closure, node, bodies);
    forall i | 0 <= i < |Entries(t)|
      ensures GivenRight(reg, site, t.kept + Entries(t)[..i], Entries(t)[i])
        <==> AllReach(reg, site, Defs(t.kept), order[..i], order[i])
    {
      ArgumentsAreRightIff(reg, site, names, t.kept, Entries(t), t.ok, s.bodies, node, bodies, i);
    }
    if t.ok {
      assert order[..|Entries(t)|] == order;
      forall n | n in names
        ensures FindsIt(reg, site, t.kept + Entries(t), n) <==> NameReaches(reg, site, Defs(t.kept), order, n)
      {
        if Resolve(reg, n, site, None).Some? {
          FindsItIff(reg, site, t.kept, Entries(t), order, n);
          NameIffReaches(reg, site, names, t.kept, node, n);
        }
      }
    }
  }

  // ---- whose instance a definition gets ----

  ghost predicate DistinctInstances(wider: seq<FixtureDef>, node: string) {
    forall i, j :: 0 <= i < j < |wider| ==> InstanceKeyOf(wider[i], node) != InstanceKeyOf(wider[j], node)
  }

  // Every kept entry under the key of one of these definitions is that definition's own.
  ghost predicate KeptAreOwn(kept: seq<Active>, wider: seq<FixtureDef>, node: string) {
    forall i, j :: 0 <= i < |kept| && 0 <= j < |wider| && kept[i].key == InstanceKeyOf(wider[j], node) ==>
      kept[i].def == wider[j]
  }

  ghost predicate HasInstance(active: seq<Active>, d: FixtureDef, node: string) {
    exists x :: 0 <= x < |active| && active[x].def == d && active[x].key == InstanceKeyOf(d, node)
  }

  ghost predicate HaveInstances(active: seq<Active>, wider: seq<FixtureDef>, node: string) {
    forall i :: 0 <= i < |wider| ==> HasInstance(active, wider[i], node)
  }

  // With no key shared, every wider definition is missing or its own entry is kept.
  lemma {:induction false} MissingOrKept(kept: seq<Active>, closure: seq<FixtureDef>, node: string, d: FixtureDef)
    requires NoRepeats(closure) && DistinctInstances(Wider(closure), node) && d in closure && d.Rank() != 0
    ensures d in MissingFrom(kept, closure, node) || IsLive(kept, InstanceKeyOf(d, node))
  {
    FilterLast(IsWider(), closure);
    if d == Last(closure) {
      NoEarlierKey(kept, closure, node);
    } else {
      assert closure == Init(closure) + [Last(closure)];
      DistinctBefore(closure, node);
      MissingOrKept(kept, Init(closure), node, d);
    }
  }

  lemma {:induction false} DistinctBefore(closure: seq<FixtureDef>, node: string)
    requires closure != [] && DistinctInstances(Wider(closure), node)
    ensures DistinctInstances(Wider(Init(closure)), node)
  {
    FilterLast(IsWider(), closure);
    var earlier, wider := Wider(Init(closure)), Wider(closure);
    assert forall i :: 0 <= i < |earlier| ==> earlier[i] == wider[i];
  }

  lemma {:induction false} NoEarlierKey(kept: seq<Active>, closure: seq<FixtureDef>, node: string)
    requires NoRepeats(closure) && closure != [] && Last(closure).Rank() != 0
    requires DistinctInstances(Wider(closure), node)
    ensures !HasKey(MissingFrom(kept, Init(closure), node), node, InstanceKeyOf(Last(closure), node))
  {
    var d, before, earlier := Last(closure), MissingFrom(kept, Init(closure), node), Wider(Init(closure));
    MissingIsWider(kept, Init(closure), node);
    FilterLast(IsWider(), closure);
    assert Wider(closure) == earlier + [d];
    forall i | 0 <= i < |before|
      ensures InstanceKeyOf(before[i], node) != InstanceKeyOf(d, node)
    {
      assert before[i] in before;
      FilterHolds(IsWider(), Init(closure), before[i]);
      var k :| 0 <= k < |earlier| && earlier[k] == before[i];
      assert (earlier + [d])[k] == before[i] && (earlier + [d])[|earlier|] == d;
    }
  }

  lemma {:induction false} OwnWhenNothingIsShared(
      kept: seq<Active>, added: seq<Active>, closure: seq<FixtureDef>, node: string)
    requires NoRepeats(closure) && AllKeyed(added, node) && Defs(added) == MissingFrom(kept, closure, node)
    requires DistinctInstances(Wider(closure), node) && KeptAreOwn(kept, Wider(closure), node)
    ensures HaveInstances(kept + added, Wider(closure), node)
  {
    var wider := Wider(closure);
    forall j | 0 <= j < |wider|
      ensures HasInstance(kept + added, wider[j], node)
    {
      FilterHolds(IsWider(), closure, wider[j]);
      MissingOrKept(kept, closure, node, wider[j]);
      if IsLive(kept, InstanceKeyOf(wider[j], node)) {
        var i :| 0 <= i < |kept| && kept[i].key == InstanceKeyOf(wider[j], node);
        assert (kept + added)[i].def == wider[j];
      } else {
        var i :| 0 <= i < |Defs(added)| && Defs(added)[i] == wider[j];
        assert (kept + added)[|kept| + i].def == wider[j];
      }
    }
  }

  lemma {:induction false} NothingIsSharedWhenOwn(
      kept: seq<Active>, active: seq<Active>, wider: seq<FixtureDef>, node: string)
    requires NoRepeats(wider) && UniqueKeys(active) && kept <= active && HaveInstances(active, wider, node)
    ensures DistinctInstances(wider, node) && KeptAreOwn(kept, wider, node)
  {
    forall i, j | 0 <= i < j < |wider|
      ensures InstanceKeyOf(wider[i], node) != InstanceKeyOf(wider[j], node)
    {
      assert HasInstance(active, wider[i], node) && HasInstance(active, wider[j], node);
    }
    forall i, j | 0 <= i < |kept| && 0 <= j < |wider| && kept[i].key == InstanceKeyOf(wider[j], node)
      ensures kept[i].def == wider[j]
    {
      assert HasInstance(active, wider[j], node) && kept[i] == active[i];
    }
  }

  // After a sync that did not stop, in any reachable state: every wider definition of the closure has an
  // instance of its own exactly when no two of them share a key and none of their keys was kept for
  // another definition.
  lemma {:induction false} OwnInstanceIff(s: State, closure: seq<FixtureDef>, node: string, bodies: Bodies)
    requires Engines.Sound(s) && NoRepeats(closure) && WiderSynced(s, closure, node, bodies).ok
    ensures HaveInstances(WiderSynced(s, closure, node, bodies).state.active, Wider(closure), node)
      <==> DistinctInstances(Wider(closure), node) && KeptAreOwn(StaleTornDown(s, node).active, Wider(closure), node)
  {
    var kept, r := StaleTornDown(s, node), WiderSynced(s, closure, node, bodies);
    TeardownStaleKeeps(s, node);
    SetUpMissingKeeps(kept, closure, node, bodies);
    var added := SyncSetsUpMissing(kept, closure, node, bodies);
    var missing := MissingFrom(kept.active, closure, node);
    assert missing[..|added|] == missing;
    FilterHasNoRepeats(IsWider(), closure);
    if DistinctInstances(Wider(closure), node) && KeptAreOwn(kept.active, Wider(closure), node) {
      OwnWhenNothingIsShared(kept.active, added, closure, node);
    }
    if HaveInstances(r.state.active, Wider(closure), node) {
      NothingIsSharedWhenOwn(kept.active, r.state.active, Wider(closure), node);
    }
  }

  // ---- nothing left by earlier tests ----

  lemma {:induction false} NothingKeptSetsUpAll(closure: seq<FixtureDef>, node: string)
    requires NoRepeats(closure) && DistinctInstances(Wider(closure), node)
    ensures ToSetUp([], closure, node) == Stages(closure)
  {
    var missing, wider := MissingFrom([], closure, node), Wider(closure);
    MissingIsWider([], closure, node);
    forall i | 0 <= i < |wider|
      ensures Picks(missing)(wider[i])
    {
      FilterHolds(IsWider(), closure, wider[i]);
      MissingOrKept([], closure, node, wider[i]);
    }
    FilterAll(Picks(missing), wider);
  }

  // On an empty stack, with no two wider definitions of the closure sharing an instance key, everything
  // is right.
  lemma {:induction false} FreshEngineArgumentsAreRight(reg: seq<FixtureDef>, site: Site, names: seq<string>, s: State,
                                                        node: string, bodies: Bodies)
    requires !CyclicNeeds(reg, site, names) && NoScopeMismatch(reg, site, Closure(reg, site, names))
    requires s.active == [] && DistinctInstances(Wider(Closure(reg, site, names)), node)
    ensures var t := RunTest(s, Closure(reg, site, names), node, bodies);
            && (forall i :: 0 <= i < |Entries(t)| ==> GivenRight(reg, site, t.kept + Entries(t)[..i], Entries(t)[i]))
            && (t.ok ==> forall n :: n in names ==> FindsIt(reg, site, t.kept + Entries(t), n))
  {
    var closure := Closure(reg, site, names);
    var t, stages := RunTest(s, closure, node, bodies), Stages(closure);
    MixedScopeArgumentsAreRightIff(reg, site, names, s, node, bodies);
    ClosureIsExact(reg, site, names);
    NothingKeptSetsUpAll(closure, node);
    assert Defs(t.kept) == [];
    forall i | 0 <= i < |Entries(t)|
      ensures AllReach(reg, site, [], stages[..i], stages[i])
    {
      FreshTargetsReach(reg, site, names, node, i);
    }
    forall n | n in names
      ensures NameReaches(reg, site, [], stages, n)
    {
      FreshNameReaches(reg, site, names, node, n);
    }
  }

  lemma {:induction false} FreshTargetsReach(
      reg: seq<FixtureDef>, site: Site, names: seq<string>, node: string, i: nat)
    requires !CyclicNeeds(reg, site, names) && NoScopeMismatch(reg, site, Closure(reg, site, names))
    requires var closure := Closure(reg, site, names);
             ToSetUp([], closure, node) == Stages(closure) && i < |Stages(closure)|
    ensures var stages := Stages(Closure(reg, site, names)); AllReach(reg, site, [], stages[..i], stages[i])
  {
    var stages := Stages(Closure(reg, site, names));
    StagesAreSetUpOrder(reg, site, names);
    forall b | 0 <= b < |stages[i].bindings|
      ensures TargetReaches(site, Target(reg, site, stages[i], stages[i].bindings[b].1), [], stages[..i])
    {
      ByNameIsByDefinition(reg, site, names, stages, i, b);
      TargetIffReaches(reg, site, names, [], node, i, b);
      assert Defs([]) + stages[..i] == stages[..i];
    }
  }

  lemma {:induction false} FreshNameReaches(
      reg: seq<FixtureDef>, site: Site, names: seq<string>, node: string, name: string)
    requires !CyclicNeeds(reg, site, names) && NoScopeMismatch(reg, site, Closure(reg, site, names))
    requires var closure := Closure(reg, site, names); ToSetUp([], closure, node) == Stages(closure)
    requires name in names
    ensures NameReaches(reg, site, [], Stages(Closure(reg, site, names)), name)
  {
    var stages := Stages(Closure(reg, site, names));
    StagesAreSetUpOrder(reg, site, names);
    TestArgumentIsNearest(reg, site, names, stages, name);
    if Resolve(reg, name, site, None).Some? {
      NameIffReaches(reg, site, names, [], node, name);
      assert Defs([]) + stages == stages;
    }
  }
}
