/** Which instance of a definition a look-up by name gives (engine.py): a module fixture of another module
    is the right definition and the wrong value. */
module Instances {
  import opened Prelude
  import NodeIds
  import opened Fixtures
  import opened Closures
  import opened DepthFirst
  import opened Engines
  import Arguments
  import opened MixedScopes
  import SharedNames

  // ---- when two fixtures are one instance ----

  predicate HasNoColon(s: string) {
    forall i :: 0 <= i < |s| ==> s[i] != ':'
  }

  // A test's node id from its module, its class and its own name.
  function MethodId(moduleKey: string, cls: string, test: string): string {
    moduleKey + "::" + (cls + "::" + test)
  }

  lemma {:induction false} PartsOfMethodId(m: string, a: string, t: string)
    requires HasNoColon(m) && HasNoColon(a)
    ensures NodeIds.ModuleKey(MethodId(m, a, t)) == m && NodeIds.ClassPart(MethodId(m, a, t)) == a
    ensures NodeIds.After(NodeIds.After(MethodId(m, a, t))) == t
  {
    NodeIds.SplitsAtKey(m, a + "::" + t);
    NodeIds.SplitsAtKey(a, t);
    assert MethodId(m, a, t) == m + "::" + (a + "::" + t);
  }

  lemma {:induction false} OneMethodIff(m: string, a: string, t: string, n: string, b: string, u: string)
    requires HasNoColon(m) && HasNoColon(a) && HasNoColon(n) && HasNoColon(b)
    ensures MethodId(m, a, t) == MethodId(n, b, u) <==> m == n && a == b && t == u
  {
    PartsOfMethodId(m, a, t);
    PartsOfMethodId(n, b, u);
  }

  lemma {:induction false} OneKeyIff(d: FixtureDef, e: FixtureDef, x: string, y: string)
    ensures InstanceKeyOf(d, x) == InstanceKeyOf(e, y) <==>
              && d.name == e.name && d.scope == e.scope
              && (d.scope.Package? ==> d.location == e.location)
              && (d.scope.Module? || d.scope.Class? ==> NodeIds.ModuleKey(x) == NodeIds.ModuleKey(y))
              && (d.scope.Class? ==> NodeIds.ClassPart(x) == NodeIds.ClassPart(y))
              && (d.scope.Function? ==> x == y)
  {
  }

  // Definitions are one instance for tests of two classes exactly when they are of one name and one scope,
  // and: for session scope always; for package scope in one location; for module scope in one module; for
  // class scope in one module and one class; for function scope in one test.
  lemma {:induction false} OneInstanceIff(
      d: FixtureDef, e: FixtureDef, m: string, a: string, t: string, n: string, b: string, u: string)
    requires HasNoColon(m) && HasNoColon(a) && HasNoColon(n) && HasNoColon(b)
    ensures InstanceKeyOf(d, MethodId(m, a, t)) == InstanceKeyOf(e, MethodId(n, b, u)) <==>
              && d.name == e.name && d.scope == e.scope
              && (d.scope.Package? ==> d.location == e.location)
              && (d.scope.Module? ==> m == n)
              && (d.scope.Class? ==> m == n && a == b)
              && (d.scope.Function? ==> m == n && a == b && t == u)
  {
    PartsOfMethodId(m, a, t);
    PartsOfMethodId(n, b, u);
    OneMethodIff(m, a, t, n, b, u);
    OneKeyIff(d, e, MethodId(m, a, t), MethodId(n, b, u));
  }

  lemma {:induction false} PartsOfFunctionId(m: string, t: string)
    requires HasNoColon(m) && HasNoColon(t)
    ensures NodeIds.ModuleKey(m + "::" + t) == m && NodeIds.ClassPart(m + "::" + t) == t
  {
    NodeIds.SplitsAtKey(m, t);
    assert NodeIds.SeparatorAt(t) == |t|;
    assert t[..|t|] == t;
  }

  // Tests outside of any class are each a class of their own.
  lemma {:induction false} OutsideClassesIff(
      d: FixtureDef, e: FixtureDef, m: string, t: string, n: string, u: string)
    requires HasNoColon(m) && HasNoColon(t) && HasNoColon(n) && HasNoColon(u) && d.scope.Class?
    ensures InstanceKeyOf(d, m + "::" + t) == InstanceKeyOf(e, n + "::" + u) <==>
              d.name == e.name && d.scope == e.scope && m == n && t == u
  {
    PartsOfFunctionId(m, t);
    PartsOfFunctionId(n, u);
    OneKeyIff(d, e, m + "::" + t, n + "::" + u);
  }

  // What one test set up is stale for another exactly when it is of a scope the other is not in; what is
  // of a session or a package never is.
  lemma {:induction false} StaleIff(
      entry: Active, m: string, a: string, t: string, n: string, b: string, u: string)
    requires HasNoColon(m) && HasNoColon(a) && HasNoColon(n) && HasNoColon(b)
    requires entry.key == InstanceKeyOf(entry.def, MethodId(m, a, t))
    ensures Stale(entry, MethodId(n, b, u)) <==>
              match entry.def.scope
              case Session => false
              case Package => false
              case Module => m != n
              case Class => m != n || a != b
              case Function => m != n || a != b || t != u
  {
    OneInstanceIff(entry.def, entry.def, m, a, t, n, b, u);
  }

  // ---- what a test sets up is of its own scopes ----

  lemma {:induction false} LocalsAreKeyed(s: State, closure: seq<FixtureDef>, node: string, bodies: Bodies)
    ensures AllKeyed(SetUpLocals(s, closure, node, bodies).locals, node)
  {
    if closure != [] {
      LocalsAreKeyed(s, Init(closure), node, bodies);
    }
  }

  lemma {:induction false} EntriesAreKeyed(s: State, closure: seq<FixtureDef>, node: string, bodies: Bodies)
    ensures AllKeyed(Entries(RunTest(s, closure, node, bodies)), node)
  {
    var kept, t := StaleTornDown(s, node), RunTest(s, closure, node, bodies);
    var added := SyncSetsUpMissing(kept, closure, node, bodies);
    assert Above(|kept.active|, kept.active + added) == added;
    LocalsAreKeyed(WiderSynced(s, closure, node, bodies).state, closure, node, bodies);
    assert t.added == added;
  }

  // The fixtures a sync sets up are those of a scope wider than a function, and a case those of a function.
  lemma {:induction false} StagesAreByScope(s: State, closure: seq<FixtureDef>, node: string, bodies: Bodies)
    ensures var t := RunTest(s, closure, node, bodies);
            && (forall i :: 0 <= i < |t.added| ==> !t.added[i].def.scope.Function? && t.added[i].def in closure)
            && AllNarrow(t.locals, closure)
  {
    var kept := StaleTornDown(s, node);
    var added := SyncSetsUpMissing(kept, closure, node, bodies);
    assert Above(|kept.active|, kept.active + added) == added;
    forall i | 0 <= i < |added|
      ensures !added[i].def.scope.Function? && added[i].def in closure
    {
      assert Arguments.Defs(added)[i] == MissingFrom(kept.active, closure, node)[i];
      MissingAreWider(kept.active, closure, node, i);
    }
    var synced := WiderSynced(s, closure, node, bodies);
    LocalsAreNarrow(synced.state, closure, node, bodies);
    assert RunTest(s, closure, node, bodies).locals ==
           if synced.ok then SetUpLocals(synced.state, closure, node, bodies).locals else [];
  }

  lemma {:induction false} MissingAreWider(kept: seq<Active>, closure: seq<FixtureDef>, node: string, i: nat)
    requires i < |MissingFrom(kept, closure, node)|
    ensures var d := MissingFrom(kept, closure, node)[i]; !d.scope.Function? && d in closure
  {
    if i < |MissingFrom(kept, Init(closure), node)| {
      MissingAreWider(kept, Init(closure), node, i);
    }
  }

  lemma {:induction false} OneLocal(c: Case, d: FixtureDef, node: string, bodies: Bodies)
    ensures var locals := SetUpLocal(c, d, node, bodies).locals;
            || locals == c.locals
            || (locals != [] && Init(locals) == c.locals && Last(locals).def == d && d.scope.Function?)
  {
    if d.Rank() == 0 {
      var built := SetUpOne(c.state, c.state.active + c.locals, d, InstanceKeyOf(d, node), bodies).built;
      if built.Some? {
        InitOfSnoc(c.locals, built.value);
      }
    }
  }

  predicate AllNarrow(locals: seq<Active>, closure: seq<FixtureDef>) {
    forall i :: 0 <= i < |locals| ==> locals[i].def.scope.Function? && locals[i].def in closure
  }

  lemma {:induction false} MoreNarrow(locals: seq<Active>, closure: seq<FixtureDef>, more: seq<Active>)
    requires closure != [] && AllNarrow(locals, Init(closure))
    requires || more == locals
             || (&& more != [] && Init(more) == locals
                 && Last(more).def == Last(closure) && Last(more).def.scope.Function?)
    ensures AllNarrow(more, closure)
  {
    assert closure == Init(closure) + [Last(closure)];
    if more != locals {
      assert more == locals + [Last(more)];
    }
  }

  lemma {:induction false} LocalsAreNarrow(s: State, closure: seq<FixtureDef>, node: string, bodies: Bodies)
    ensures AllNarrow(SetUpLocals(s, closure, node, bodies).locals, closure)
  {
    if closure != [] {
      LocalsAreNarrow(s, Init(closure), node, bodies);
      var c := SetUpLocals(s, Init(closure), node, bodies);
      OneLocal(c, Last(closure), node, bodies);
      MoreNarrow(c.locals, closure, SetUpLocals(s, closure, node, bodies).locals);
    }
  }

  // ---- when a look-up gives the test's own instance ----

  predicate IsOwn(a: Option<Active>, u: FixtureDef, node: string) {
    a.Some? && a.value.def == u && a.value.key == InstanceKeyOf(u, node)
  }

  // Each parameter of `a` that resolves was given this test's instance of what it resolves to.
  ghost predicate GivenOwn(reg: seq<FixtureDef>, site: Site, node: string, below: seq<Active>, a: Active) {
    var from := Sources(below, a.def.bindings);
    from.Some? && forall b :: 0 <= b < |a.def.bindings| ==>
      GivenOwnTarget(Target(reg, site, a.def, a.def.bindings[b].1), from.value[b], node)
  }

  predicate GivenOwnTarget(target: Option<FixtureDef>, arg: Active, node: string) {
    target.Some? ==> IsOwn(Some(arg), target.value, node)
  }

  ghost predicate FindsOwn(reg: seq<FixtureDef>, site: Site, node: string, entries: seq<Active>, name: string) {
    var u := Resolve(reg, name, site, None);
    u.Some? ==> IsOwn(Find(entries, name), u.value, node)
  }

  // `u` is set up by this test and not behind another of its name; or none of its name is, and the newest
  // entry of its name that was kept is of `u` and of this test's scope.
  ghost predicate ReachesOwn(site: Site, kept: seq<Active>, node: string, present: seq<FixtureDef>, u: FixtureDef) {
    if u in present then !Hidden(site, present, u)
    else Latest(present, u.name).None? && IsOwn(Find(kept, u.name), u, node)
  }

  ghost predicate AllReachOwn(
      reg: seq<FixtureDef>, site: Site, kept: seq<Active>, node: string, present: seq<FixtureDef>, d: FixtureDef) {
    forall b :: 0 <= b < |d.bindings| ==>
      TargetReachesOwn(site, Target(reg, site, d, d.bindings[b].1), kept, node, present)
  }

  ghost predicate TargetReachesOwn(
      site: Site, target: Option<FixtureDef>, kept: seq<Active>, node: string, present: seq<FixtureDef>) {
    target.Some? ==> ReachesOwn(site, kept, node, present, target.value)
  }

  lemma {:induction false} FindsOwnIff(
      site: Site, kept: seq<Active>, entries: seq<Active>, node: string, u: FixtureDef)
    requires AllKeyed(entries, node)
    requires Latest(Arguments.Defs(kept) + Arguments.Defs(entries), u.name) == Some(u)
      <==> Reaches(site, Arguments.Defs(kept), Arguments.Defs(entries), u)
    ensures IsOwn(Find(kept + entries, u.name), u, node) <==> ReachesOwn(site, kept, node, Arguments.Defs(entries), u)
  {
    var defs := Arguments.Defs(entries);
    FindLocalFirst(kept, entries, u.name);
    Arguments.FindIsLatest(entries, u.name);
    if u in defs {
      FoundAmong(kept, entries, node, u);
    } else {
      LatestIsThere(defs, u.name);
    }
  }

  // Where `u` was set up by this test, a look-up stays among what this test set up.
  lemma {:induction false} FoundAmong(kept: seq<Active>, entries: seq<Active>, node: string, u: FixtureDef)
    requires AllKeyed(entries, node) && u in Arguments.Defs(entries)
    ensures Find(entries, u.name).Some?
    ensures IsOwn(Find(entries, u.name), u, node)
      <==> Latest(Arguments.Defs(kept) + Arguments.Defs(entries), u.name) == Some(u)
  {
    var defs := Arguments.Defs(entries);
    var k :| 0 <= k < |defs| && defs[k] == u;
    var _ := LatestPlace(defs, u.name, k);
    Arguments.FindIsLatest(entries, u.name);
    LatestConcat(Arguments.Defs(kept), defs, u.name);
    var a := Find(entries, u.name).value;
    var i :| 0 <= i < |entries| && entries[i] == a;
    assert a.key == InstanceKeyOf(a.def, node);
  }

  lemma {:induction false} ArgumentsAreOwnIff(
      reg: seq<FixtureDef>, site: Site, names: seq<string>, kept: seq<Active>, entries: seq<Active>, ok: bool, n: nat,
      node: string, bodies: Bodies, i: nat)
    requires !CyclicNeeds(reg, site, names) && AllKeyed(entries, node)
    requires SetUpIn(kept, entries, ToSetUp(kept, Closure(reg, site, names), node), ok, n, bodies) && i < |entries|
    ensures var order := ToSetUp(kept, Closure(reg, site, names), node);
            GivenOwn(reg, site, node, kept + entries[..i], entries[i])
            <==> AllReachOwn(reg, site, kept, node, order[..i], order[i])
  {
    var order := ToSetUp(kept, Closure(reg, site, names), node);
    var d, below := order[i], kept + entries[..i];
    assert Built(below, entries[i], bodies) && Arguments.Defs(entries)[i] == d;
    var from := Sources(below, d.bindings).value;
    SourcesAreThere(below, d.bindings);
    assert Arguments.Defs(entries[..i]) == order[..i] by {
      assert forall k :: 0 <= k < i ==> Arguments.Defs(entries)[k] == order[k];
    }
    forall b | 0 <= b < |d.bindings|
      ensures var target := Target(reg, site, d, d.bindings[b].1);
              GivenOwnTarget(target, from[b], node) <==> TargetReachesOwn(site, target, kept, node, order[..i])
    {
      TargetIffReaches(reg, site, names, kept, node, i, b);
      TargetIsNode(reg, site, d, d.bindings[b].1);
      var target := Target(reg, site, d, d.bindings[b].1);
      if target.Some? {
        FindsOwnIff(site, kept, entries[..i], node, target.value);
      }
    }
  }

  lemma {:induction false} NameIsOwnIff(
      reg: seq<FixtureDef>, site: Site, names: seq<string>, kept: seq<Active>, entries: seq<Active>, node: string,
      name: string)
    requires !CyclicNeeds(reg, site, names) && AllKeyed(entries, node) && name in names
    requires Arguments.Defs(entries) == ToSetUp(kept, Closure(reg, site, names), node)
    ensures FindsOwn(reg, site, node, kept + entries, name)
      <==> TargetReachesOwn(site, Resolve(reg, name, site, None), kept, node, Arguments.Defs(entries))
  {
    var u := Resolve(reg, name, site, None);
    if u.Some? {
      ResolveFinds(reg, name, site, None);
      NameIffReaches(reg, site, names, kept, node, name);
      FindsOwnIff(site, kept, entries, node, u.value);
    }
  }

  // Whatever earlier tests left live, for any acyclic closure: each fixture a test sets up is given the
  // test's own instances of what its parameters resolve to, and each name the test asks for is found at
  // the test's own instance of its nearest definition, exactly when that definition is among those set up
  // with no other of its name behind it; or none of its name is, and the newest entry of the name that was
  // kept is of that definition and of the test's scope.
  lemma {:induction false} OwnInstancesAreGivenIff(
      reg: seq<FixtureDef>, site: Site, names: seq<string>, s: State, node: string, bodies: Bodies)
    requires !CyclicNeeds(reg, site, names)
    ensures var closure := Closure(reg, site, names);
            var t := RunTest(s, closure, node, bodies);
            var order := ToSetUp(t.kept, closure, node);
            && |Entries(t)| <= |order|
            && (forall i :: 0 <= i < |Entries(t)| ==>
                  (GivenOwn(reg, site, node, t.kept + Entries(t)[..i], Entries(t)[i])
                   <==> AllReachOwn(reg, site, t.kept, node, order[..i], order[i])))
            && (t.ok ==> forall n :: n in names ==>
                  (FindsOwn(reg, site, node, t.kept + Entries(t), n)
                   <==> TargetReachesOwn(site, Resolve(reg, n, site, None), t.kept, node, order)))
  {
    var closure := Closure(reg, site, names);
    var t := RunTest(s, closure, node, bodies);
    var order := ToSetUp(t.kept, closure, node);
    TestSetsUpInOrder(s, closure, node, bodies);
    EntriesAreKeyed(s, closure, node, bodies);
    forall i | 0 <= i < |Entries(t)|
      ensures GivenOwn(reg, site, node, t.kept + Entries(t)[..i], Entries(t)[i])
        <==> AllReachOwn(reg, site, t.kept, node, order[..i], order[i])
    {
      ArgumentsAreOwnIff(reg, site, names, t.kept, Entries(t), t.ok, s.bodies, node, bodies, i);
    }
    if t.ok {
      assert order[..|Entries(t)|] == order;
      forall n | n in names
        ensures FindsOwn(reg, site, node, t.kept + Entries(t), n)
          <==> TargetReachesOwn(site, Resolve(reg, n, site, None), t.kept, node, order)
      {
        NameIsOwnIff(reg, site, names, t.kept, Entries(t), node, n);
      }
    }
  }

  // ---- a module fixture of another module ----

  // A fixture without parameters in the run root's conftest.
  function Rooted(name: string, scope: Scope): FixtureDef {
    FixtureDef(0, name, scope, false, "", [], None)
  }

  function Root(): seq<FixtureDef> {
    [Rooted("u", Module), Rooted("s", Session), Rooted("t", Session)]
  }

  lemma {:induction false} RootResolves(site: Site, i: nat)
    requires i < 3
    ensures Resolve(Root(), Root()[i].name, site, None) == Some(Root()[i])
  {
    var (u, s, t) := (Rooted("u", Module), Rooted("s", Session), Rooted("t", Session));
    assert u.name != s.name && u.name != t.name && s.name != t.name;
    OneOfThree(u, s, t, Root()[i]);
    OnlyOneResolves(Root(), Root()[i], site);
  }

  lemma {:induction false} OneOfThree(u: FixtureDef, s: FixtureDef, t: FixtureDef, d: FixtureDef)
    requires u.name != s.name && u.name != t.name && s.name != t.name && (d == u || d == s || d == t)
    ensures Named([u, s, t], d.name) == [d]
  {
    assert Init([u, s, t]) == [u, s] && Init([u, s]) == [u] && Init([u]) == [];
    assert Named([], d.name) == [];
    assert Named([u], d.name) == [] + if d == u then [u] else [];
    assert Named([u, s], d.name) == Named([u], d.name) + if d == s then [s] else [];
    assert Named([u, s, t], d.name) == Named([u, s], d.name) + if d == t then [t] else [];
  }

  lemma {:induction false} OnlyOneResolves(reg: seq<FixtureDef>, d: FixtureDef, site: Site)
    requires Named(reg, d.name) == [d] && d.location == ""
    ensures Resolve(reg, d.name, site, None) == Some(d)
  {
    assert !NodeIds.HasSeparator("") && Specificity(d, site) == Some(0);
    assert Init([d]) == [] && Nearest([], site, None) == None;
  }

  lemma {:induction false} ListingOfTwo<T(!new), K>(g: Graph<T, K>, d: T, e: T)
    requires WellFormed(g) && d in g.nodes && e in g.nodes && Key(g, d) != Key(g, e)
    requires Next(g, d) == [] && Next(g, e) == []
    ensures Within(g, [d, e]) && Listing(g, [d, e]) == [d, e]
  {
    var w: Walk<T, K> := Walk([], {}, {});
    assert Init([d, e]) == [d] && Last([d, e]) == e && Init([d]) == [] && Last([d]) == d;
    assert VisitAll(g, [], w) == w;
    var first := VisitOne(g, d, w);
    Leaf(g, d, w);
    assert VisitAll(g, [d], w) == first;
    Leaf(g, e, first);
  }

  lemma {:induction false} Leaf<T(!new), K>(g: Graph<T, K>, d: T, w: Walk<T, K>)
    requires WellFormed(g) && d in g.nodes && Next(g, d) == [] && Key(g, d) !in w.seen && w.visiting == {}
    ensures VisitOne(g, d, w) == Walk(w.ordered + [d], w.seen + {Key(g, d)}, {})
  {
    var inside := w.(visiting := w.visiting + {Key(g, d)});
    assert VisitAll(g, Next(g, d), inside) == inside;
  }

  lemma {:induction false} ClosureOfTwo(reg: seq<FixtureDef>, site: Site, d: FixtureDef, e: FixtureDef)
    requires Resolve(reg, d.name, site, None) == Some(d) && Resolve(reg, e.name, site, None) == Some(e)
    requires d.bindings == [] && e.bindings == [] && d.name != e.name
    ensures Closure(reg, site, [d.name, e.name]) == [d, e]
  {
    var f, names := Resolver(reg, site), [d.name, e.name];
    assert Init(names) == [d.name] && Last(names) == e.name && Init([d.name]) == [] && Last([d.name]) == d.name;
    assert f(d.name) == Some(d) && f(e.name) == Some(e);
    assert Collect(f, [d.name]) == [] + [d];
    assert Collect(f, names) == [d] + [e];
    assert Roots(reg, site, names) == [d, e];
    GraphIsWellFormed(reg, site, names);
    ResolvedIsNode(reg, site, d.name, None);
    ResolvedIsNode(reg, site, e.name, None);
    var g := GraphOf(reg, site);
    assert DepthFirst.Key(g, d) == (d.name, d.location) && DepthFirst.Key(g, e) == (e.name, e.location);
    assert Next(g, d) == [] && Next(g, e) == [];
    ListingOfTwo(g, d, e);
  }

  // The tests m1::t(u), m1::t2(u, s), m2::t(u), m2::t2(u, t): session fixtures on top keep the instances of
  // both modules live.
  ghost function Requests(u: FixtureDef, s: FixtureDef, t: FixtureDef, n1: string, n2: string): seq<Request> {
    [Request(n1, [u], [1]), Request(n1, [u, s], [1]), Request(n2, [u], [1]), Request(n2, [u, t], [1])]
  }

  predicate Runs(u: FixtureDef, s: FixtureDef, t: FixtureDef, bodies: Bodies) {
    bodies(u, [], 0).Some? && bodies(s, [], 1).Some? && bodies(u, [], 2).Some? && bodies(t, [], 3).Some?
  }

  ghost function Stack(u: FixtureDef, s: FixtureDef, t: FixtureDef, n1: string, n2: string, bodies: Bodies): State
    requires Runs(u, s, t, bodies)
  {
    Plainly(Plainly(Plainly(Plainly(START, u, n1, bodies), s, n1, bodies), u, n2, bodies), t, n2, bodies)
  }

  lemma {:induction false} RunsToStack(
      u: FixtureDef, s: FixtureDef, t: FixtureDef, n1: string, n2: string, bodies: Bodies)
    requires Runs(u, s, t, bodies) && u.scope.Module? && s.scope.Session? && t.scope.Session?
    requires u.bindings == [] && s.bindings == [] && t.bindings == [] && s.name != t.name
    requires NodeIds.ModuleKey(n1) != NodeIds.ModuleKey(n2)
    ensures Run(Requests(u, s, t, n1, n2), bodies) == Stack(u, s, t, n1, n2, bodies)
  {
    var s1 := Plainly(START, u, n1, bodies);
    var s2 := Plainly(s1, s, n1, bodies);
    var s3 := Plainly(s2, u, n2, bodies);
    FirstSetUp(u, n1, bodies);
    OnTop(s1, u, s, n1, bodies);
    OneWiderRequest(s2, [], u, n2, bodies);
    assert [] + [u] == [u];
    OnTop(s3, u, t, n2, bodies);
    FourRequests(Request(n1, [u], [1]), Request(n1, [u, s], [1]),
                 Request(n2, [u], [1]), Request(n2, [u, t], [1]), bodies);
  }

  lemma {:induction false} FourRequests(a: Request, b: Request, c: Request, d: Request, bodies: Bodies)
    ensures Run([a, b, c, d], bodies) == RunOne(RunOne(RunOne(Run([a], bodies), b, bodies), c, bodies), d, bodies)
  {
    assert Init([a, b, c, d]) == [a, b, c] && Init([a, b, c]) == [a, b] && Init([a, b]) == [a];
    assert Run([a, b], bodies) == RunOne(Run([a], bodies), b, bodies);
    assert Run([a, b, c], bodies) == RunOne(Run([a, b], bodies), c, bodies);
  }

  // A fixture asked for beside one that is live.
  lemma {:induction false} OnTop(s: State, u: FixtureDef, d: FixtureDef, node: string, bodies: Bodies)
    requires s.active != [] && Last(s.active).def == u && Last(s.active).key == InstanceKeyOf(u, node)
    requires u.Rank() != 0 && d.Rank() != 0 && d.bindings == [] && bodies(d, [], s.bodies).Some?
    requires !IsLive(s.active, InstanceKeyOf(d, node))
    ensures RunCombos(s, [u, d], node, [1], bodies) == Outcome(Plainly(s, d, node, bodies), true)
  {
    assert IsLive(s.active, InstanceKeyOf(u, node));
    assert Init([u]) == [] && SetUpMissing(s, [], node, bodies) == Outcome(s, true);
    assert SetUpMissing(s, [u], node, bodies) == Outcome(s, true);
    OneWiderRequest(s, [u], d, node, bodies);
    assert [u] + [d] == [u, d];
  }

  // The third test of m1 asks for `u`: nothing is stale, nothing is set up, the right definition is found,
  // and it is the instance of m2.
  lemma {:induction false} OtherModulesInstanceIsServed(bodies: Bodies)
    requires Runs(Rooted("u", Module), Rooted("s", Session), Rooted("t", Session), bodies)
    ensures var (reg, m1, m2) := (Root(), Site("m1.py", []), Site("m2.py", []));
            var (n1, n2) := ("m1.py" + "::" + "t", "m2.py" + "::" + "t");
            var run := Run([Request(n1, Closure(reg, m1, ["u"]), [1]), Request(n1, Closure(reg, m1, ["u", "s"]), [1]),
                            Request(n2, Closure(reg, m2, ["u"]), [1]), Request(n2, Closure(reg, m2, ["u", "t"]), [1])],
                           bodies);
            var third := RunTest(run, Closure(reg, m1, ["u"]), n1, bodies);
            && third == Test(run.active, [], [], true)
            && FindsIt(reg, m1, third.kept, "u")
            && !FindsOwn(reg, m1, n1, third.kept, "u")
  {
    var (u, s, t) := (Rooted("u", Module), Rooted("s", Session), Rooted("t", Session));
    var (m1, n1, n2) := (Site("m1.py", []), "m1.py" + "::" + "t", "m2.py" + "::" + "t");
    RootClosures(m1);
    RootClosures(Site("m2.py", []));
    TwoModules();
    RootResolves(m1, 0);
    assert Root()[0] == u;
    RunsToStack(u, s, t, n1, n2, bodies);
    StackServesOther(u, s, t, n1, n2, bodies);
    NotOwn(Root(), m1, n1, Stack(u, s, t, n1, n2, bodies).active, u);
  }

  lemma {:induction false} NotOwn(reg: seq<FixtureDef>, site: Site, node: string, entries: seq<Active>, u: FixtureDef)
    requires Resolve(reg, u.name, site, None) == Some(u)
    requires Find(entries, u.name).Some? && Find(entries, u.name).value.def == u
    requires !IsOwn(Find(entries, u.name), u, node)
    ensures FindsIt(reg, site, entries, u.name) && !FindsOwn(reg, site, node, entries, u.name)
  {
  }

  lemma {:induction false} TwoModules()
    ensures NodeIds.ModuleKey("m1.py" + "::" + "t") != NodeIds.ModuleKey("m2.py" + "::" + "t")
  {
    NodeIds.SplitsAtKey("m1.py", "t");
    NodeIds.SplitsAtKey("m2.py", "t");
    assert "m1.py"[1] != "m2.py"[1];
  }

  lemma {:induction false} RootClosures(site: Site)
    ensures var (u, s, t) := (Rooted("u", Module), Rooted("s", Session), Rooted("t", Session));
            && Closure(Root(), site, ["u"]) == [u]
            && Closure(Root(), site, ["u", "s"]) == [u, s]
            && Closure(Root(), site, ["u", "t"]) == [u, t]
  {
    var (u, s, t) := (Rooted("u", Module), Rooted("s", Session), Rooted("t", Session));
    assert Root()[0] == u && Root()[1] == s && Root()[2] == t;
    RootResolves(site, 0);
    RootResolves(site, 1);
    RootResolves(site, 2);
    SharedNames.PlainClosure(Root(), site, "u", u);
    ClosureOfTwo(Root(), site, u, s);
    ClosureOfTwo(Root(), site, u, t);
  }

  lemma {:induction false} StackServesOther(
      u: FixtureDef, s: FixtureDef, t: FixtureDef, n1: string, n2: string, bodies: Bodies)
    requires Runs(u, s, t, bodies) && u.scope.Module? && s.scope.Session? && t.scope.Session?
    requires NodeIds.ModuleKey(n1) != NodeIds.ModuleKey(n2) && u.name != t.name
    ensures var stack := Stack(u, s, t, n1, n2, bodies);
            && RunTest(stack, [u], n1, bodies) == Test(stack.active, [], [], true)
            && Find(stack.active, u.name).Some?
            && Find(stack.active, u.name).value.def == u
            && !IsOwn(Find(stack.active, u.name), u, n1)
  {
    var stack := Stack(u, s, t, n1, n2, bodies);
    assert stack.active[0].key == InstanceKeyOf(u, n1) && Last(stack.active).key == InstanceKeyOf(t, n1);
    SharedNames.KeptOnly(stack, u, n1, bodies);
    assert Last(Init(stack.active)).def == u && Last(Init(stack.active)).key == InstanceKeyOf(u, n2);
  }
}
