/** `fixtures._closure`: the depth-first walk that lists the fixtures a test needs. */
module Closures {
  import opened Prelude
  import opened Fixtures
  import opened DepthFirst

  // ---- what resolves to what ----

  // What `d` is given for the provider name `dep`: past itself when it asks for its own name.
  function Target(reg: seq<FixtureDef>, site: Site, d: FixtureDef, dep: string): Option<FixtureDef> {
    Resolve(reg, dep, site, if dep == d.name then SpecificityOf(reg, d, site) else None)
  }

  function Resolver(reg: seq<FixtureDef>, site: Site): string -> Option<FixtureDef> {
    name => Resolve(reg, name, site, None)
  }

  function TargetOf(reg: seq<FixtureDef>, site: Site, d: FixtureDef): ((string, string)) -> Option<FixtureDef> {
    (b: (string, string)) => Target(reg, site, d, b.1)
  }

  function Successors(reg: seq<FixtureDef>, site: Site, d: FixtureDef): seq<FixtureDef> {
    Collect(TargetOf(reg, site, d), d.bindings)
  }

  function Roots(reg: seq<FixtureDef>, site: Site, names: seq<string>): seq<FixtureDef> {
    Collect(Resolver(reg, site), names)
  }

  function NamesOf(defs: seq<FixtureDef>): (r: seq<string>)
    ensures |r| == |defs|
  {
    seq(|defs|, i requires 0 <= i < |defs| => defs[i].name)
  }

  // The autouse fixtures, then what is used without being asked for, then the arguments.
  function RootNames(reg: seq<FixtureDef>, site: Site, extra: seq<string>, requested: seq<string>): seq<string> {
    NamesOf(Autouse(reg, site)) + extra + requested
  }

  ghost predicate Resolvable(reg: seq<FixtureDef>, site: Site, d: FixtureDef) {
    exists below :: Resolve(reg, d.name, site, below) == Some(d)
  }

  // The walk tells definitions apart by name and location.
  ghost function GraphOf(reg: seq<FixtureDef>, site: Site): Graph<FixtureDef, (string, string)> {
    Graph((set d | d in reg && Resolvable(reg, site, d)),
          d => Successors(reg, site, d),
          (d: FixtureDef) => (d.name, d.location))
  }

  lemma {:induction false} SuccessorsHold(reg: seq<FixtureDef>, site: Site, d: FixtureDef, s: FixtureDef)
    ensures s in Successors(reg, site, d) <==>
            exists i :: 0 <= i < |d.bindings| && Target(reg, site, d, d.bindings[i].1) == Some(s)
  {
    var f := TargetOf(reg, site, d);
    CollectHolds(f, d.bindings, s);
    assert forall i :: 0 <= i < |d.bindings| ==> f(d.bindings[i]) == Target(reg, site, d, d.bindings[i].1);
  }

  lemma {:induction false} RootsHold(reg: seq<FixtureDef>, site: Site, names: seq<string>, d: FixtureDef)
    ensures d in Roots(reg, site, names) <==> d.name in names && Resolve(reg, d.name, site, None) == Some(d)
  {
    var f := Resolver(reg, site);
    CollectHolds(f, names, d);
    forall i | 0 <= i < |names| && f(names[i]) == Some(d) ensures d.name == names[i] {
      ResolveFinds(reg, names[i], site, None);
    }
  }

  // What a fixture is given for a name: the first registered of the most specific visible definitions of
  // it, for its own name of those less specific than itself.
  lemma {:induction false} TargetIsNearest(
      reg: seq<FixtureDef>, site: Site, d: FixtureDef, dep: string) returns (i: nat)
    requires d in reg
    ensures var defs, below := Named(reg, dep), if dep == d.name then Specificity(d, site) else None;
            var t := Target(reg, site, d, dep);
            if t.None? then forall k :: 0 <= k < |defs| ==> !Candidate(defs[k], site, below)
            else IsNearestAt(defs, site, below, i) && defs[i] == t.value
  {
    NamedHolds(reg, d.name, d);
    i := NearestIsFirstMostSpecific(Named(reg, dep), site, if dep == d.name then Specificity(d, site) else None);
  }

  lemma {:induction false} TargetIsNode(reg: seq<FixtureDef>, site: Site, d: FixtureDef, dep: string)
    ensures var t := Target(reg, site, d, dep);
            t.Some? ==> t.value in GraphOf(reg, site).nodes && t.value.name == dep
  {
    var below := if dep == d.name then SpecificityOf(reg, d, site) else None;
    ResolveFinds(reg, dep, site, below);
    var t := Target(reg, site, d, dep);
    assert t.Some? ==> Resolve(reg, t.value.name, site, below) == t;
  }

  // Of the definitions of one name that are equally specific only the first registered is ever
  // resolved to, so name and specificity, and name and location, identify the definition.
  lemma {:induction false} SpecificityIdentifies(reg: seq<FixtureDef>, site: Site, a: FixtureDef, b: FixtureDef)
    requires Resolvable(reg, site, a) && Resolvable(reg, site, b)
    requires a.name == b.name && Specificity(a, site) == Specificity(b, site)
    ensures a == b
  {
    var defs := Named(reg, a.name);
    var x :| Resolve(reg, a.name, site, x) == Some(a);
    var y :| Resolve(reg, b.name, site, y) == Some(b);
    var i := NearestIsFirstMostSpecific(defs, site, x);
    var j := NearestIsFirstMostSpecific(defs, site, y);
    assert BelowNearest(defs[j], site, x, defs[i], j < i);
    assert BelowNearest(defs[i], site, y, defs[j], i < j);
  }

  lemma {:induction false} GraphIsWellFormed(reg: seq<FixtureDef>, site: Site, names: seq<string>)
    ensures WellFormed(GraphOf(reg, site)) && Within(GraphOf(reg, site), Roots(reg, site, names))
  {
    var g := GraphOf(reg, site);
    forall d | d in g.nodes ensures Within(g, Next(g, d)) {
      forall s | s in Next(g, d) ensures s in g.nodes {
        SuccessorsHold(reg, site, d, s);
        var i :| 0 <= i < |d.bindings| && Target(reg, site, d, d.bindings[i].1) == Some(s);
        TargetIsNode(reg, site, d, d.bindings[i].1);
      }
    }
    forall a, b | a in g.nodes && b in g.nodes && DepthFirst.Key(g, a) == DepthFirst.Key(g, b) ensures a == b {
      SpecificityIdentifies(reg, site, a, b);
    }
    forall d | d in Roots(reg, site, names) ensures d in g.nodes {
      RootsHold(reg, site, names, d);
      ResolveFinds(reg, d.name, site, None);
    }
  }

  // ---- the closure ----

  ghost function Closure(reg: seq<FixtureDef>, site: Site, names: seq<string>): seq<FixtureDef> {
    GraphIsWellFormed(reg, site, names);
    Listing(GraphOf(reg, site), Roots(reg, site, names))
  }

  ghost predicate NeededBy(reg: seq<FixtureDef>, site: Site, names: seq<string>, d: FixtureDef) {
    Reached(GraphOf(reg, site), Roots(reg, site, names), d)
  }

  // Some needed definition requests itself, directly or through what it resolves to.
  ghost predicate CyclicNeeds(reg: seq<FixtureDef>, site: Site, names: seq<string>) {
    Cyclic(GraphOf(reg, site), Roots(reg, site, names))
  }

  ghost predicate RequestsFirst(reg: seq<FixtureDef>, site: Site, order: seq<FixtureDef>) {
    DepsFirst(GraphOf(reg, site), order)
  }

  // On every registry, cyclic or not: each needed definition exactly once, and no other.
  lemma {:induction false} ClosureIsExact(reg: seq<FixtureDef>, site: Site, names: seq<string>)
    ensures forall d :: d in Closure(reg, site, names) <==> NeededBy(reg, site, names, d)
    ensures var c := Closure(reg, site, names);
            forall i, j :: 0 <= i < j < |c| ==> c[i] != c[j]
  {
    GraphIsWellFormed(reg, site, names);
    ListsExactlyReached(GraphOf(reg, site), Roots(reg, site, names));
  }

  // Each definition comes after everything it resolves to exactly when none of them is on a cycle.
  lemma {:induction false} ClosureOrder(reg: seq<FixtureDef>, site: Site, names: seq<string>)
    ensures RequestsFirst(reg, site, Closure(reg, site, names)) <==> !CyclicNeeds(reg, site, names)
  {
    GraphIsWellFormed(reg, site, names);
    DepsFirstIffAcyclic(GraphOf(reg, site), Roots(reg, site, names));
  }

  // The autouse fixtures and what they need come first, then what is used, then what is requested.
  lemma {:induction false} ClosureFollowsRootOrder(
      reg: seq<FixtureDef>, site: Site, extra: seq<string>, requested: seq<string>)
    ensures var autouse := NamesOf(Autouse(reg, site));
            Closure(reg, site, autouse) <= Closure(reg, site, autouse + extra)
                                        <= Closure(reg, site, RootNames(reg, site, extra, requested))
  {
    var autouse := NamesOf(Autouse(reg, site));
    GraphIsWellFormed(reg, site, autouse);
    GraphIsWellFormed(reg, site, extra);
    GraphIsWellFormed(reg, site, autouse + extra);
    GraphIsWellFormed(reg, site, requested);
    CollectConcat(Resolver(reg, site), autouse, extra);
    CollectConcat(Resolver(reg, site), autouse + extra, requested);
    EarlierRootsFirst(GraphOf(reg, site), Roots(reg, site, autouse), Roots(reg, site, extra));
    EarlierRootsFirst(GraphOf(reg, site), Roots(reg, site, autouse + extra), Roots(reg, site, requested));
  }

  // ---- the walk as `_closure` runs it ----

  lemma {:induction false} ResolvedIsNode(reg: seq<FixtureDef>, site: Site, name: string, below: Option<int>)
    ensures var t := Resolve(reg, name, site, below);
            t.Some? ==> t.value in GraphOf(reg, site).nodes && t.value.name == name
  {
    ResolveFinds(reg, name, site, below);
    var t := Resolve(reg, name, site, below);
    assert t.Some? ==> Resolve(reg, t.value.name, site, below) == t;
  }

  lemma {:induction false} TargetsAreNodes(
      reg: seq<FixtureDef>, site: Site, d: FixtureDef, bindings: seq<(string, string)>)
    ensures Within(GraphOf(reg, site), Collect(TargetOf(reg, site, d), bindings))
  {
    var f := TargetOf(reg, site, d);
    forall s | s in Collect(f, bindings) ensures s in GraphOf(reg, site).nodes {
      CollectHolds(f, bindings, s);
      var i :| 0 <= i < |bindings| && f(bindings[i]) == Some(s);
      TargetIsNode(reg, site, d, bindings[i].1);
    }
  }

  type FixtureWalk = Walk<FixtureDef, (string, string)>

  // A visit to what a lookup found: nothing when it found nothing.
  ghost function VisitFound(
      reg: seq<FixtureDef>, site: Site, found: Option<FixtureDef>, w: FixtureWalk): (r: FixtureWalk)
    requires found.Some? ==> found.value in GraphOf(reg, site).nodes
    ensures r.visiting == w.visiting
  {
    GraphIsWellFormed(reg, site, []);
    if found.None? then w else VisitOne(GraphOf(reg, site), found.value, w)
  }

  ghost function VisitTargets(reg: seq<FixtureDef>, site: Site, d: FixtureDef, bindings: seq<(string, string)>,
                              w: FixtureWalk): (r: FixtureWalk)
    ensures r.visiting == w.visiting
  {
    TargetsAreNodes(reg, site, d, bindings);
    GraphIsWellFormed(reg, site, []);
    VisitAll(GraphOf(reg, site), Collect(TargetOf(reg, site, d), bindings), w)
  }

  ghost function VisitRoots(reg: seq<FixtureDef>, site: Site, names: seq<string>): (r: FixtureWalk)
    ensures r.visiting == {} && r.ordered == Closure(reg, site, names)
  {
    GraphIsWellFormed(reg, site, names);
    VisitAll(GraphOf(reg, site), Roots(reg, site, names), Walk([], {}, {}))
  }

  lemma {:induction false} VisitTargetsStep(reg: seq<FixtureDef>, site: Site, d: FixtureDef, i: nat, w: FixtureWalk)
    requires i < |d.bindings|
    ensures var t := Target(reg, site, d, d.bindings[i].1);
            && (t.Some? ==> t.value in GraphOf(reg, site).nodes)
            && VisitTargets(reg, site, d, d.bindings[..i + 1], w) ==
               VisitFound(reg, site, t, VisitTargets(reg, site, d, d.bindings[..i], w))
  {
    var f := TargetOf(reg, site, d);
    assert d.bindings[..i + 1] == d.bindings[..i] + [d.bindings[i]];
    CollectSnoc(f, d.bindings[..i], d.bindings[i]);
    TargetsAreNodes(reg, site, d, d.bindings[..i + 1]);
    TargetsAreNodes(reg, site, d, d.bindings[..i]);
    TargetIsNode(reg, site, d, d.bindings[i].1);
    GraphIsWellFormed(reg, site, []);
    VisitSnoc(GraphOf(reg, site), Collect(f, d.bindings[..i]), f(d.bindings[i]), w);
  }

  lemma {:induction false} VisitRootsStep(reg: seq<FixtureDef>, site: Site, names: seq<string>, name: string)
    ensures var t := Resolve(reg, name, site, None);
            && (t.Some? ==> t.value in GraphOf(reg, site).nodes)
            && VisitRoots(reg, site, names + [name]) == VisitFound(reg, site, t, VisitRoots(reg, site, names))
  {
    var f := Resolver(reg, site);
    CollectSnoc(f, names, name);
    GraphIsWellFormed(reg, site, names);
    GraphIsWellFormed(reg, site, names + [name]);
    ResolvedIsNode(reg, site, name, None);
    VisitSnoc(GraphOf(reg, site), Collect(f, names), f(name), Walk([], {}, {}));
  }

  ghost function Entered(w: FixtureWalk, key: (string, string)): FixtureWalk {
    w.(visiting := w.visiting + {key})
  }

  ghost function Finished(w: FixtureWalk, d: FixtureDef, key: (string, string)): FixtureWalk {
    var left := w.(visiting := w.visiting - {key});
    if key in w.seen then left else left.(ordered := w.ordered + [d], seen := w.seen + {key})
  }

  lemma {:induction false} VisitFoundUnfolds(reg: seq<FixtureDef>, site: Site, d: FixtureDef, w: FixtureWalk)
    requires d in GraphOf(reg, site).nodes
    ensures var key := (d.name, d.location);
            VisitFound(reg, site, Some(d), w) ==
            if key in w.seen || key in w.visiting then w
            else Finished(VisitTargets(reg, site, d, d.bindings, Entered(w, key)), d, key)
  {
    var g, key := GraphOf(reg, site), (d.name, d.location);
    GraphIsWellFormed(reg, site, []);
    TargetsAreNodes(reg, site, d, d.bindings);
    assert DepthFirst.Key(g, d) == key && Next(g, d) == Collect(TargetOf(reg, site, d), d.bindings);
    if key !in w.visiting {
      assert w.visiting + {key} - {key} == w.visiting;
    }
  }

  lemma {:induction false} FewerToVisit(
      reg: seq<FixtureDef>, site: Site, d: FixtureDef, visiting: set<(string, string)>)
    requires d in GraphOf(reg, site).nodes && (d.name, d.location) !in visiting
    ensures var key, all := (d.name, d.location), AllKeys(GraphOf(reg, site));
            |all - (visiting + {key})| < |all - visiting|
  {
    var g, key := GraphOf(reg, site), (d.name, d.location);
    assert DepthFirst.Key(g, d) == key;
    assert key in AllKeys(g);
    assert AllKeys(g) - (visiting + {key}) == AllKeys(g) - visiting - {key};
  }

  class ClosureWalk {
    const reg: Registry
    const site: Site
    var ordered: seq<FixtureDef>
    var seen: set<(string, string)>
    var visiting: set<(string, string)>

    ghost function View(): Walk<FixtureDef, (string, string)>
      reads this
    {
      Walk(ordered, seen, visiting)
    }

    constructor (reg: Registry, site: Site)
      ensures this.reg == reg && this.site == site && View() == Walk([], {}, {})
    {
      this.reg, this.site := reg, site;
      ordered, seen, visiting := [], {}, {};
    }

    method Visit(name: string, below: Option<int>)
      requires reg.Valid()
      modifies this
      ensures var t := Resolve(reg.added, name, site, below);
              && (t.Some? ==> t.value in GraphOf(reg.added, site).nodes)
              && View() == VisitFound(reg.added, site, t, old(View()))
      decreases |AllKeys(GraphOf(reg.added, site)) - visiting|, 1
    {
      ResolvedIsNode(reg.added, site, name, below);
      var t := reg.ResolveName(name, site, below);
      if t.None? {
        return;
      }
      VisitDef(t.value);
    }

    method VisitDef(d: FixtureDef)
      requires reg.Valid() && d in GraphOf(reg.added, site).nodes
      modifies this
      ensures View() == VisitFound(reg.added, site, Some(d), old(View()))
      decreases |AllKeys(GraphOf(reg.added, site)) - visiting|, 0
    {
      VisitFoundUnfolds(reg.added, site, d, View());
      var key := (d.name, d.location);
      if key in seen || key in visiting {
        return;
      }
      FewerToVisit(reg.added, site, d, visiting);
      VisitNew(d, key);
    }

    method VisitNew(d: FixtureDef, key: (string, string))
      requires reg.Valid() && key !in visiting
      modifies this
      ensures View() == Finished(VisitTargets(reg.added, site, d, d.bindings, Entered(old(View()), key)), d, key)
      decreases |AllKeys(GraphOf(reg.added, site)) - (visiting + {key})|, 3
    {
      visiting := visiting + {key};
      VisitRequests(d);
      visiting := visiting - {key};
      if key !in seen {
        seen := seen + {key};
        ordered := ordered + [d];
      }
    }

    method VisitRequests(d: FixtureDef)
      requires reg.Valid()
      modifies this
      ensures View() == VisitTargets(reg.added, site, d, d.bindings, old(View()))
      decreases |AllKeys(GraphOf(reg.added, site)) - visiting|, 2
    {
      for i := 0 to |d.bindings|
        invariant View() == VisitTargets(reg.added, site, d, d.bindings[..i], old(View()))
      {
        VisitTargetsStep(reg.added, site, d, i, old(View()));
        var dep := d.bindings[i].1;
        var ceiling := None;
        if dep == d.name {
          ceiling := reg.SpecificityFor(d, site);
        }
        Visit(dep, ceiling);
      }
      assert d.bindings[..|d.bindings|] == d.bindings;
    }

    method VisitNames(ghost done: seq<string>, names: seq<string>)
      requires reg.Valid() && View() == VisitRoots(reg.added, site, done)
      modifies this
      ensures View() == VisitRoots(reg.added, site, done + names)
    {
      assert done + names[..0] == done;
      for i := 0 to |names|
        invariant View() == VisitRoots(reg.added, site, done + names[..i])
      {
        VisitRootsStep(reg.added, site, done + names[..i], names[i]);
        assert done + names[..i] + [names[i]] == done + names[..i + 1];
        Visit(names[i], None);
      }
      assert done + names[..|names|] == done + names;
    }
  }

  method ComputeClosure(reg: Registry, site: Site, requested: seq<string>, extra: seq<string>)
      returns (closure: seq<FixtureDef>)
    requires reg.Valid()
    ensures closure == Closure(reg.added, site, RootNames(reg.added, site, extra, requested))
  {
    var walk := new ClosureWalk(reg, site);
    var autouse := reg.AutouseFor(site);
    walk.VisitNames([], NamesOf(autouse));
    assert [] + NamesOf(autouse) == NamesOf(autouse);
    walk.VisitNames(NamesOf(autouse), extra);
    walk.VisitNames(NamesOf(autouse) + extra, requested);
    closure := walk.ordered;
  }

  // ---- looking values up by name only ----

  // The last of `order` with this name.
  function Latest(order: seq<FixtureDef>, name: string): Option<FixtureDef> {
    if order == [] then None
    else if Last(order).name == name then Some(Last(order))
    else Latest(Init(order), name)
  }

  lemma {:induction false} LatestIs(order: seq<FixtureDef>, name: string, i: nat)
    requires i < |order| && order[i].name == name
    requires forall k :: i < k < |order| ==> order[k].name != name
    ensures Latest(order, name) == Some(order[i])
  {
    if i < |order| - 1 {
      LatestIs(Init(order), name, i);
    }
  }

  lemma {:induction false} LatestIsNone(order: seq<FixtureDef>, name: string)
    requires forall k :: 0 <= k < |order| ==> order[k].name != name
    ensures Latest(order, name) == None
  {
    if order != [] {
      LatestIsNone(Init(order), name);
    }
  }

  // Any order of the needed definitions in which each comes after what it resolves to.
  ghost predicate SetUpOrder(reg: seq<FixtureDef>, site: Site, names: seq<string>, order: seq<FixtureDef>) {
    && RequestsFirst(reg, site, order)
    && (forall i, j :: 0 <= i < j < |order| ==> order[i] != order[j])
    && (forall d :: d in order <==> NeededBy(reg, site, names, d))
  }

  // A needed definition is the nearest of its name, or is what its override resolves to.
  lemma {:induction false} NeededIsOnOverrideChain(reg: seq<FixtureDef>, site: Site, names: seq<string>, d: FixtureDef)
      returns (e: FixtureDef)
    requires NeededBy(reg, site, names, d)
    ensures d in GraphOf(reg, site).nodes
    ensures Resolve(reg, d.name, site, None) != Some(d) ==>
              e.name == d.name && NeededBy(reg, site, names, e) && e in GraphOf(reg, site).nodes
              && Edge(GraphOf(reg, site), e, d)
              && Resolve(reg, d.name, site, Specificity(e, site)) == Some(d)
  {
    GraphIsWellFormed(reg, site, names);
    e := ReachedThrough(GraphOf(reg, site), Roots(reg, site, names), d);
    if d in Roots(reg, site, names) {
      RootsHold(reg, site, names, d);
    } else {
      RequestIsNearestBelow(reg, site, e, d);
    }
  }

  lemma {:induction false} RequestIsNearestBelow(reg: seq<FixtureDef>, site: Site, e: FixtureDef, d: FixtureDef)
    requires e in GraphOf(reg, site).nodes && Edge(GraphOf(reg, site), e, d)
    ensures Resolve(reg, d.name, site, None) == Some(d)
         || (e.name == d.name && Resolve(reg, d.name, site, Specificity(e, site)) == Some(d))
  {
    SuccessorsHold(reg, site, e, d);
    var i :| 0 <= i < |e.bindings| && Target(reg, site, e, e.bindings[i].1) == Some(d);
    TargetIsNode(reg, site, e, e.bindings[i].1);
    NamedHolds(reg, e.name, e);
  }

  lemma {:induction false} NearestIsNoLower(reg: seq<FixtureDef>, site: Site, below: Option<int>, d: FixtureDef)
    requires d in reg && Candidate(d, site, below)
    ensures var r := Resolve(reg, d.name, site, below);
            r.Some? && Specificity(d, site).value <= Specificity(r.value, site).value
  {
    NamedHolds(reg, d.name, d);
    var defs := Named(reg, d.name);
    var i := NearestIsFirstMostSpecific(defs, site, below);
    var k :| 0 <= k < |defs| && defs[k] == d;
    if Resolve(reg, d.name, site, below).Some? {
      assert BelowNearest(defs[k], site, below, defs[i], k < i);
    }
  }

  // Through an override chain of any length, a less specific definition is set up before a more specific one.
  lemma {:induction false} OverridesComeLater(reg: seq<FixtureDef>, site: Site, names: seq<string>,
                                              order: seq<FixtureDef>, i: nat, j: nat)
    requires SetUpOrder(reg, site, names, order) && i < |order| && j < |order|
    requires order[i].name == order[j].name && Specificity(order[i], site).Some? && Specificity(order[j], site).Some?
    requires Specificity(order[i], site).value < Specificity(order[j], site).value
    ensures i < j
    decreases |order| - i
  {
    var d, top := order[i], order[j];
    var e := NeededIsOnOverrideChain(reg, site, names, d);
    var _ := NeededIsOnOverrideChain(reg, site, names, top);
    NearestIsNoLower(reg, site, None, top);
    assert Resolve(reg, d.name, site, None) != Some(d);
    var k :| 0 <= k < |order| && order[k] == e;
    assert LeadsInto(GraphOf(reg, site), order[k], order[..k]);
    if Specificity(top, site).value < Specificity(e, site).value {
      NearestIsNoLower(reg, site, Specificity(e, site), top);
      assert false;
    } else if Specificity(top, site).value == Specificity(e, site).value {
      SpecificityIdentifies(reg, site, top, e);
    } else {
      OverridesComeLater(reg, site, names, order, k, j);
    }
  }

  lemma {:induction false} NearestOrLess(reg: seq<FixtureDef>, site: Site, below: Option<int>, e: FixtureDef)
    requires e in GraphOf(reg, site).nodes && Candidate(e, site, below)
    ensures var r := Resolve(reg, e.name, site, below);
            r.Some? && r.value.name == e.name && r.value in GraphOf(reg, site).nodes
            && Specificity(r.value, site).Some?
            && (e == r.value || Specificity(e, site).value < Specificity(r.value, site).value)
  {
    NearestIsNoLower(reg, site, below, e);
    ResolveFinds(reg, e.name, site, below);
    var r := Resolve(reg, e.name, site, below);
    assert Resolve(reg, r.value.name, site, below) == Some(r.value);
    if Specificity(e, site) == Specificity(r.value, site) {
      SpecificityIdentifies(reg, site, e, r.value);
    }
  }

  // If all that is set up under a name may be resolved to, the latest is what is resolved to.
  lemma {:induction false} LatestIsResolved(reg: seq<FixtureDef>, site: Site, names: seq<string>,
                                            order: seq<FixtureDef>, upto: nat, name: string, below: Option<int>)
    requires SetUpOrder(reg, site, names, order) && upto <= |order|
    requires forall k :: 0 <= k < upto && order[k].name == name ==> Candidate(order[k], site, below)
    requires var t := Resolve(reg, name, site, below); t.Some? ==> t.value in order[..upto]
    ensures Latest(order[..upto], name) == Resolve(reg, name, site, below)
  {
    var t := Resolve(reg, name, site, below);
    forall k | 0 <= k < upto && order[k].name == name
      ensures t.Some? && Specificity(order[k], site).Some? && Specificity(t.value, site).Some?
      ensures order[k] == t.value || Specificity(order[k], site).value < Specificity(t.value, site).value
    {
      var _ := NeededIsOnOverrideChain(reg, site, names, order[k]);
      NearestOrLess(reg, site, below, order[k]);
    }
    if t.None? {
      LatestIsNone(order[..upto], name);
    } else {
      ResolveFinds(reg, name, site, below);
      var j :| 0 <= j < upto && order[..upto][j] == t.value;
      forall k | j < k < upto ensures order[..upto][k].name != name {
        if order[k].name == name {
          OverridesComeLater(reg, site, names, order, k, j);
          assert false;
        }
      }
      LatestIs(order[..upto], name, j);
    }
  }

  // At the moment a fixture is set up, the latest value stored under a name it asks for is that of
  // exactly the definition the registry resolves the name to; there is none when nothing resolves.
  lemma {:induction false} ByNameIsByDefinition(reg: seq<FixtureDef>, site: Site, names: seq<string>,
                                                order: seq<FixtureDef>, i: nat, b: nat)
    requires SetUpOrder(reg, site, names, order) && i < |order| && b < |order[i].bindings|
    ensures Latest(order[..i], order[i].bindings[b].1) == Target(reg, site, order[i], order[i].bindings[b].1)
  {
    var d, dep := order[i], order[i].bindings[b].1;
    var t := Target(reg, site, d, dep);
    var _ := NeededIsOnOverrideChain(reg, site, names, d);
    NamedHolds(reg, d.name, d);
    forall k | 0 <= k < i && order[k].name == dep
      ensures Candidate(order[k], site, if dep == d.name then Specificity(d, site) else None)
    {
      EarlierIsLess(reg, site, names, order, k, i);
    }
    if t.Some? {
      SuccessorsHold(reg, site, d, t.value);
      assert LeadsInto(GraphOf(reg, site), order[i], order[..i]) && Edge(GraphOf(reg, site), d, t.value);
    }
    LatestIsResolved(reg, site, names, order, i, dep, if dep == d.name then Specificity(d, site) else None);
  }

  lemma {:induction false} EarlierIsLess(reg: seq<FixtureDef>, site: Site, names: seq<string>,
                                         order: seq<FixtureDef>, k: nat, i: nat)
    requires SetUpOrder(reg, site, names, order) && k < i < |order|
    ensures Specificity(order[k], site).Some? && Specificity(order[i], site).Some?
    ensures order[k].name == order[i].name ==>
              Specificity(order[k], site).value < Specificity(order[i], site).value
  {
    var _ := NeededIsOnOverrideChain(reg, site, names, order[k]);
    var _ := NeededIsOnOverrideChain(reg, site, names, order[i]);
    if order[k].name == order[i].name {
      if Specificity(order[k], site).value > Specificity(order[i], site).value {
        OverridesComeLater(reg, site, names, order, i, k);
      } else if Specificity(order[k], site) == Specificity(order[i], site) {
        SpecificityIdentifies(reg, site, order[k], order[i]);
      }
    }
  }

  // Once everything is set up, a name the test asks for is found at the definition it resolves to.
  lemma {:induction false} TestArgumentIsNearest(reg: seq<FixtureDef>, site: Site, names: seq<string>,
                                                 order: seq<FixtureDef>, name: string)
    requires SetUpOrder(reg, site, names, order) && name in names
    ensures Latest(order, name) == Resolve(reg, name, site, None)
  {
    var t := Resolve(reg, name, site, None);
    forall k | 0 <= k < |order| && order[k].name == name ensures Candidate(order[k], site, None) {
      var _ := NeededIsOnOverrideChain(reg, site, names, order[k]);
    }
    assert order[..|order|] == order;
    if t.Some? {
      ResolveFinds(reg, name, site, None);
      RootIsNeeded(reg, site, names, t.value);
    }
    LatestIsResolved(reg, site, names, order, |order|, name, None);
  }

  lemma {:induction false} RootIsNeeded(reg: seq<FixtureDef>, site: Site, names: seq<string>, d: FixtureDef)
    requires d.name in names && Resolve(reg, d.name, site, None) == Some(d)
    ensures NeededBy(reg, site, names, d)
  {
    RootsHold(reg, site, names, d);
    var g := GraphOf(reg, site);
    assert IsPath(g, [d]) && IsPathFrom(g, Roots(reg, site, names), [d]) && Last([d]) == d;
  }
}
