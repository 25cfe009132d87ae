/** Two runs in which a test is handed the value of a definition its name does not resolve to, from the
    registry to the stack. */
module SharedNames {
  import opened Prelude
  import NodeIds
  import opened Fixtures
  import opened Closures
  import opened DepthFirst
  import opened Engines
  import opened MixedScopes
  import Overrides

  // A fixture `db` without parameters, in a conftest of this directory.
  function Db(uid: nat, scope: Scope, location: string): FixtureDef {
    FixtureDef(uid, "db", scope, false, location, [], None)
  }

  lemma {:induction false} TestDirs()
    ensures NodeIds.DirName("a/m.py") == "a" && NodeIds.DirName("b/m.py") == "b" && NodeIds.DirName("n.py") == ""
  {
    NodeIds.DirNameOf("a", "m.py");
    NodeIds.DirNameOf("b", "m.py");
    NodeIds.DirNameOf("", "n.py");
    assert "a" + "/" + "m.py" == "a/m.py" && "b" + "/" + "m.py" == "b/m.py";
  }

  // Where a conftest of a directory without slashes is visible, and how specific it is.
  lemma {:induction false} DirSpecificity(d: FixtureDef, site: Site)
    requires d.location in {"", "a", "b"} && NodeIds.DirName(site.moduleKey) in {"", "a", "b"}
    ensures Specificity(d, site) ==
            if d.location == "" then Some(0)
            else if d.location == NodeIds.DirName(site.moduleKey) then Some(1) else None
  {
    var dir := NodeIds.DirName(site.moduleKey);
    if d.location != "" {
      assert NodeIds.SlashCount(d.location[..0]) == 0 && NodeIds.SlashCount(d.location) == 0;
      assert dir == "" || |dir| == 1;
    }
  }

  lemma {:induction false} ListingOne<T(!new), K>(g: Graph<T, K>, d: T)
    requires WellFormed(g) && d in g.nodes && Next(g, d) == []
    ensures Within(g, [d]) && Listing(g, [d]) == [d]
  {
    var w: Walk<T, K> := Walk([], {}, {});
    assert Init([d]) == [] && Last([d]) == d;
    assert VisitAll(g, [], w) == w;
    assert VisitOne(g, d, w).ordered == [] + [d];
  }

  // The closure of one name that resolves to a fixture without parameters.
  lemma {:induction false} PlainClosure(reg: seq<FixtureDef>, site: Site, name: string, d: FixtureDef)
    requires Resolve(reg, name, site, None) == Some(d) && d.bindings == []
    ensures Closure(reg, site, [name]) == [d]
  {
    var f := Resolver(reg, site);
    assert Init([name]) == [] && Last([name]) == name && f(name) == Some(d);
    assert Collect(f, [name]) == [] + [d];
    GraphIsWellFormed(reg, site, [name]);
    ListingOne(GraphOf(reg, site), d);
  }

  // ---- the runs ----

  // What a test of a module finds under `db` after two others, and what the name resolves to there.
  lemma {:induction false} PackageFixtureOfAnotherDirectory(bodies: Bodies)
    requires var (a, root) := (Db(0, Package, "a"), Db(1, Package, ""));
             bodies(a, [], 0).Some? && bodies(root, [], 1).Some?
    ensures var (a, root) := (Db(0, Package, "a"), Db(1, Package, ""));
            var (reg, inA, atRoot) := ([a, root], Site("a/m.py", []), Site("n.py", []));
            var run := Run([Request("a/m.py::t", Closure(reg, inA, ["db"]), [1]),
                            Request("n.py::t", Closure(reg, atRoot, ["db"]), [1])], bodies);
            var third := RunTest(run, Closure(reg, inA, ["db"]), "a/m.py::u", bodies);
            // nothing is stale, no key is shared, and nothing more is set up
            && NothingStale(run.active, "a/m.py::u")
            && DistinctInstances(Wider(Closure(reg, inA, ["db"])), "a/m.py::u")
            && KeptAreOwn(third.kept, Wider(Closure(reg, inA, ["db"])), "a/m.py::u")
            && third == Test(run.active, [], [], true)
            // and yet the name is found at the other definition
            && Resolve(reg, "db", inA, None) == Some(a)
            && Find(third.kept, "db").Some? && Find(third.kept, "db").value.def == root
  {
    var (a, root) := (Db(0, Package, "a"), Db(1, Package, ""));
    var (reg, inA, atRoot) := ([a, root], Site("a/m.py", []), Site("n.py", []));
    TestDirs();
    Overrides.ResolveOfTwo(a, root, inA);
    Overrides.ResolveOfTwo(a, root, atRoot);
    DirSpecificity(a, inA);
    DirSpecificity(root, inA);
    DirSpecificity(a, atRoot);
    DirSpecificity(root, atRoot);
    PlainClosure(reg, inA, "db", a);
    PlainClosure(reg, atRoot, "db", root);
    PackageStack(a, root, "a/m.py::t", "n.py::t", "a/m.py::u", bodies);
  }

  // Two package fixtures of one name: the one set up later is found first, and neither is ever stale.
  lemma {:induction false} PackageStack(a: FixtureDef, root: FixtureDef, first: string, second: string, third: string,
                                        bodies: Bodies)
    requires a.scope.Package? && root.scope.Package? && a.name == root.name && a.location != root.location
    requires a.bindings == [] && root.bindings == [] && bodies(a, [], 0).Some? && bodies(root, [], 1).Some?
    ensures var run := Run([Request(first, [a], [1]), Request(second, [root], [1])], bodies);
            && NothingStale(run.active, third)
            && DistinctInstances(Wider([a]), third)
            && KeptAreOwn(run.active, Wider([a]), third)
            && RunTest(run, [a], third, bodies) == Test(run.active, [], [], true)
            && Find(run.active, a.name).Some? && Find(run.active, a.name).value.def == root
  {
    TwoPlain(a, root, first, second, bodies);
    var s2 := Plainly(Plainly(START, a, first, bodies), root, second, bodies);
    assert s2.active[0].key == InstanceKeyOf(a, third) && s2.active[1].key == InstanceKeyOf(root, third);
    KeptOnly(s2, a, third, bodies);
    assert Last(s2.active).def == root;
  }

  // Two fixtures without parameters, under keys of their own, asked for one after the other.
  lemma {:induction false} TwoPlain(d: FixtureDef, e: FixtureDef, first: string, second: string, bodies: Bodies)
    requires d.Rank() != 0 && e.Rank() != 0 && d.bindings == [] && e.bindings == []
    requires bodies(d, [], 0).Some? && bodies(e, [], 1).Some?
    requires InstanceKeyOf(d, first) == InstanceKeyOf(d, second) != InstanceKeyOf(e, second)
    ensures Run([Request(first, [d], [1]), Request(second, [e], [1])], bodies)
      == Plainly(Plainly(START, d, first, bodies), e, second, bodies)
  {
    var s1 := Plainly(START, d, first, bodies);
    FirstSetUp(d, first, bodies);
    assert !IsLive(s1.active, InstanceKeyOf(e, second));
    OneWiderRequest(s1, [], e, second, bodies);
    assert [] + [e] == [e];
    var r1, r2 := Request(first, [d], [1]), Request(second, [e], [1]);
    assert Init([r1, r2]) == [r1] && Last([r1, r2]) == r2;
  }

  // A test whose one wider fixture is live under its key, on a stack nothing of which goes.
  lemma {:induction false} KeptOnly(s: State, d: FixtureDef, node: string, bodies: Bodies)
    requires d.Rank() != 0 && TopBelongs(s.active, node) && IsLive(s.active, InstanceKeyOf(d, node))
    ensures RunTest(s, [d], node, bodies) == Test(s.active, [], [], true)
    ensures Wider([d]) == [d]
  {
    assert StaleTornDown(s, node) == s;
    assert Init([d]) == [] && Last([d]) == d;
    assert SetUpMissing(s, [], node, bodies) == Outcome(s, true);
    assert SetUpLocals(s, [], node, bodies) == Case(s, [], true);
    assert Above(|s.active|, s.active) == [];
    assert Wider([]) == [];
  }

  // Two session fixtures of one name in different directories share an entry: the test that resolves
  // to the second is handed the first one's value, and the second is never set up.
  lemma {:induction false} SecondSessionDefinitionIsNeverBuilt(bodies: Bodies)
    requires bodies(Db(0, Session, "a"), [], 0).Some?
    ensures var (a, b) := (Db(0, Session, "a"), Db(1, Session, "b"));
            var (reg, inA, inB) := ([a, b], Site("a/m.py", []), Site("b/m.py", []));
            var run := Run([Request("a/m.py::t", Closure(reg, inA, ["db"]), [1])], bodies);
            var second := RunTest(run, Closure(reg, inB, ["db"]), "b/m.py::t", bodies);
            && second == Test(run.active, [], [], true)
            && Resolve(reg, "db", inB, None) == Some(b)
            && Find(second.kept, "db").Some? && Find(second.kept, "db").value.def == a
            && !KeptAreOwn(second.kept, Wider(Closure(reg, inB, ["db"])), "b/m.py::t")
  {
    var (a, b) := (Db(0, Session, "a"), Db(1, Session, "b"));
    var (reg, inA, inB) := ([a, b], Site("a/m.py", []), Site("b/m.py", []));
    TestDirs();
    Overrides.ResolveOfTwo(a, b, inA);
    Overrides.ResolveOfTwo(a, b, inB);
    DirSpecificity(a, inA);
    DirSpecificity(b, inA);
    DirSpecificity(a, inB);
    DirSpecificity(b, inB);
    PlainClosure(reg, inA, "db", a);
    PlainClosure(reg, inB, "db", b);
    FirstServes(a, b, "a/m.py::t", "b/m.py::t", bodies);
  }

  // Of two session fixtures of one name the one set up is found for both.
  lemma {:induction false} FirstServes(a: FixtureDef, b: FixtureDef, first: string, second: string, bodies: Bodies)
    requires a.scope.Session? && b.scope.Session? && a.name == b.name && a != b
    requires a.bindings == [] && bodies(a, [], 0).Some?
    ensures var run := Run([Request(first, [a], [1])], bodies);
            && RunTest(run, [b], second, bodies) == Test(run.active, [], [], true)
            && Find(run.active, a.name).Some? && Find(run.active, a.name).value.def == a
            && !KeptAreOwn(run.active, Wider([b]), second)
  {
    FirstSetUp(a, first, bodies);
    var s1 := Plainly(START, a, first, bodies);
    assert s1.active[0].key == InstanceKeyOf(b, second);
    KeptOnly(s1, b, second, bodies);
    assert Wider([b])[0] == b;
  }

  // ---- a wider fixture that asks for a function-scoped one ----

  // A package fixture in `a` with one parameter, `db`.
  function Svc(uid: nat): FixtureDef {
    FixtureDef(uid, "svc", Package, false, "a", [("db", "db")], None)
  }

  lemma {:induction false} ListingTwo<T(!new), K>(g: Graph<T, K>, d: T, e: T)
    requires WellFormed(g) && d in g.nodes && e in g.nodes && Key(g, d) != Key(g, e)
    requires Next(g, d) == [e] && Next(g, e) == []
    ensures Within(g, [d]) && Listing(g, [d]) == [e, d]
  {
    var w: Walk<T, K> := Walk([], {}, {});
    var inside := w.(visiting := {} + {Key(g, d)});
    assert Init([d]) == [] && Last([d]) == d && Init([e]) == [] && Last([e]) == e;
    assert VisitAll(g, [], w) == w && VisitAll(g, [], inside) == inside;
    var deeper := inside.(visiting := inside.visiting + {Key(g, e)});
    assert VisitAll(g, Next(g, e), deeper) == deeper;
    assert VisitOne(g, e, inside) == Walk([] + [e], {} + {Key(g, e)}, inside.visiting);
    assert VisitAll(g, [e], inside) == VisitOne(g, e, inside);
    assert VisitOne(g, d, w).ordered == [e] + [d];
  }

  // With a session `db` of the root and a function-scoped one in `a`.
  function Mismatched(): seq<FixtureDef> {
    [Db(0, Session, ""), Db(1, Function, "a"), Svc(2)]
  }

  lemma {:induction false} NamedInMismatched()
    ensures Named(Mismatched(), "db") == [Db(0, Session, ""), Db(1, Function, "a")]
    ensures Named(Mismatched(), "svc") == [Svc(2)]
  {
    var (x, y, z) := (Db(0, Session, ""), Db(1, Function, "a"), Svc(2));
    assert Init([x, y, z]) == [x, y] && Init([x, y]) == [x] && Init([x]) == [];
    assert Named([], "db") == [] && Named([x], "db") == [x] && Named([x, y], "db") == [x] + [y];
    assert Named([], "svc") == [] && Named([x], "svc") == [] && Named([x, y], "svc") == [];
    assert Named([x, y, z], "svc") == [] + [z];
  }

  lemma {:induction false} ResolveMismatched(site: Site)
    requires NodeIds.DirName(site.moduleKey) in {"", "a"}
    ensures var (x, y, z) := (Db(0, Session, ""), Db(1, Function, "a"), Svc(2));
            var inA := NodeIds.DirName(site.moduleKey) == "a";
            && Resolve(Mismatched(), "db", site, None) == Some(if inA then y else x)
            && Resolve(Mismatched(), "svc", site, None) == if inA then Some(z) else None
  {
    var (x, y, z) := (Db(0, Session, ""), Db(1, Function, "a"), Svc(2));
    NamedInMismatched();
    DirSpecificity(x, site);
    DirSpecificity(y, site);
    DirSpecificity(z, site);
    ResolveAmongTwo(Mismatched(), "db", x, y, site);
    ResolveAlone(Mismatched(), "svc", z, site);
  }

  lemma {:induction false} ResolveAmongTwo(
      reg: seq<FixtureDef>, name: string, x: FixtureDef, y: FixtureDef, site: Site)
    requires Named(reg, name) == [x, y] && x.name == name && y.name == name
    ensures var (p, q) := (Specificity(x, site), Specificity(y, site));
            Resolve(reg, name, site, None) ==
              if p.Some? && (q.None? || q.value <= p.value) then Some(x) else if q.Some? then Some(y) else None
  {
    Overrides.ResolveOfTwo(x, y, site);
    assert Init([x, y]) == [x] && Init([x]) == [] && Named([], name) == [] && Named([x], name) == [x];
    assert Named([x, y], name) == [x] + [y];
  }

  lemma {:induction false} ResolveAlone(reg: seq<FixtureDef>, name: string, z: FixtureDef, site: Site)
    requires Named(reg, name) == [z]
    ensures Resolve(reg, name, site, None) == if Specificity(z, site).Some? then Some(z) else None
  {
    assert Init([z]) == [] && Nearest([], site, None) == None;
  }

  lemma {:induction false} MismatchedClosure(site: Site)
    requires NodeIds.DirName(site.moduleKey) == "a"
    ensures Closure(Mismatched(), site, ["svc"]) == [Db(1, Function, "a"), Svc(2)]
  {
    var (reg, y, z) := (Mismatched(), Db(1, Function, "a"), Svc(2));
    ResolveMismatched(site);
    GraphIsWellFormed(reg, site, ["svc"]);
    var g, f := GraphOf(reg, site), Resolver(reg, site);
    assert Init(["svc"]) == [] && Last(["svc"]) == "svc" && f("svc") == Some(z);
    assert Collect(f, ["svc"]) == [] + [z];
    assert reg[1] == y && reg[2] == z && y in g.nodes && z in g.nodes;
    var h := TargetOf(reg, site, z);
    assert Init(z.bindings) == [] && Last(z.bindings) == ("db", "db") && h(("db", "db")) == Some(y);
    assert Collect(h, z.bindings) == [] + [y];
    assert Next(g, z) == [y] && Next(g, y) == [];
    ListingTwo(g, z, y);
  }

  // A session `db` that an earlier test left live is what the package fixture is given, though in `a` the
  // name resolves to a function-scoped one.
  lemma {:induction false} ScopeMismatchIsServed(bodies: Bodies, v: Value)
    requires bodies(Db(0, Session, ""), [], 0) == Some(v) && bodies(Svc(2), [v], 1).Some?
    ensures var (reg, atRoot, inA) := (Mismatched(), Site("n.py", []), Site("a/m.py", []));
            var run := Run([Request("n.py::t", Closure(reg, atRoot, ["db"]), [1])], bodies);
            var synced := WiderSynced(run, Closure(reg, inA, ["svc"]), "a/m.py::t", bodies);
            && synced.ok && |synced.state.active| == 2
            && var svc := synced.state.active[1];
            && svc.def == Svc(2)
            && !GivenRight(reg, inA, run.active, svc)
  {
    var (reg, atRoot, inA) := (Mismatched(), Site("n.py", []), Site("a/m.py", []));
    var (x, y, z) := (Db(0, Session, ""), Db(1, Function, "a"), Svc(2));
    TestDirs();
    ResolveMismatched(atRoot);
    PlainClosure(reg, atRoot, "db", x);
    MismatchedClosure(inA);
    MismatchedTarget(inA);
    MismatchedRun(reg, inA, x, y, z, "n.py::t", "a/m.py::t", bodies);
  }

  lemma {:induction false} MismatchedTarget(site: Site)
    requires NodeIds.DirName(site.moduleKey) == "a"
    ensures Target(Mismatched(), site, Svc(2), "db") == Some(Db(1, Function, "a"))
  {
    ResolveMismatched(site);
    assert "db" != "svc";
  }

  lemma {:induction false} MismatchedRun(reg: seq<FixtureDef>, site: Site, x: FixtureDef, y: FixtureDef, z: FixtureDef,
                                         first: string, node: string, bodies: Bodies)
    requires x.name == "db" && x.scope.Session? && x.bindings == [] && x != y
    requires y.Rank() == 0 && z.scope.Package? && z.bindings == [("db", "db")]
    requires Target(reg, site, z, "db") == Some(y)
    requires bodies(x, [], 0).Some? && bodies(z, [bodies(x, [], 0).value], 1).Some?
    ensures var run := Run([Request(first, [x], [1])], bodies);
            var synced := WiderSynced(run, [y, z], node, bodies);
            && synced.ok && |synced.state.active| == 2 && synced.state.active[1].def == z
            && !GivenRight(reg, site, run.active, synced.state.active[1])
  {
    FirstSetUp(x, first, bodies);
    SvcIsGiven(reg, site, Plainly(START, x, first, bodies), y, z, node, bodies);
  }

  lemma {:induction false} SvcIsGiven(
      reg: seq<FixtureDef>, site: Site, s: State, y: FixtureDef, z: FixtureDef, node: string, bodies: Bodies)
    requires |s.active| == 1 && s.active[0].def.name == "db" && s.active[0].key == SessionKey("db")
    requires s.active[0].def.scope.Session? && s.active[0].def != y
    requires y.Rank() == 0 && z.scope.Package? && z.bindings == [("db", "db")]
    requires Target(reg, site, z, "db") == Some(y)
    requires bodies(z, [s.active[0].value], s.bodies).Some?
    ensures var synced := WiderSynced(s, [y, z], node, bodies);
            && synced.ok && |synced.state.active| == 2 && synced.state.active[1].def == z
            && !GivenRight(reg, site, s.active, synced.state.active[1])
  {
    var top := s.active[0];
    var key := InstanceKeyOf(z, node);
    assert Init([y, z]) == [y] && Init([y]) == [] && Last([y]) == y && Last([y, z]) == z;
    assert StaleTornDown(s, node) == s;
    assert SetUpMissing(s, [], node, bodies) == Outcome(s, true);
    assert SetUpMissing(s, [y], node, bodies) == Outcome(s, true);
    assert !IsLive(s.active, key);
    OneSource(s.active, z.bindings);
    assert Values([top]) == [top.value];
    var built := SetUpOne(s, s.active, z, key, bodies).built;
    assert built.Some? && built.value.def == z;
    assert SetUpMissing(s, [y, z], node, bodies).state.active == s.active + [built.value];
    assert !GivenTarget(Target(reg, site, z, z.bindings[0].1), [top][0]);
  }

  lemma {:induction false} OneSource(active: seq<Active>, bindings: seq<(string, string)>)
    requires |active| == 1 && |bindings| == 1 && active[0].def.name == bindings[0].1
    ensures Sources(active, bindings) == Some([active[0]])
  {
    assert Init(bindings) == [] && Last(bindings) == bindings[0];
    assert Find(active, bindings[0].1) == Some(active[0]);
    assert [] + [active[0]] == [active[0]];
  }
}
