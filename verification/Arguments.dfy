/** Looking values up by name gives every fixture the values of exactly the definitions the registry
    resolves its parameters to. */
module Arguments {
  import opened Prelude
  import opened Fixtures
  import Closures
  import opened Engines

  function Defs(entries: seq<Active>): (r: seq<FixtureDef>)
    ensures |r| == |entries|
  {
    seq(|entries|, i requires 0 <= i < |entries| => entries[i].def)
  }

  // `a`'s body was run on the values of these entries.
  ghost predicate BuiltFrom(a: Active, from: seq<Active>, bodies: Bodies) {
    && |from| == |a.def.bindings|
    && AreHandles(a.sources, from)
    && Gives(bodies, a.def, from, a.handle, Some(a.value))
  }

  // The argument for one binding: the instance, among `below`, of the definition it resolves to; a
  // name that resolves to nothing is looked for in what earlier tests left live.
  ghost predicate RightArgument(reg: seq<FixtureDef>, site: Site, left: seq<Active>, below: seq<Active>,
                                d: FixtureDef, dep: string, arg: Active) {
    match Closures.Target(reg, site, d, dep)
    case Some(t) => arg in below && arg.def == t
    case None => Find(left, dep) == Some(arg)
  }

  ghost predicate RightSources(reg: seq<FixtureDef>, site: Site, left: seq<Active>, below: seq<Active>,
                               d: FixtureDef, from: seq<Active>) {
    && |from| == |d.bindings|
    && forall b :: 0 <= b < |from| ==> RightArgument(reg, site, left, below, d, d.bindings[b].1, from[b])
  }

  ghost predicate RightArguments(reg: seq<FixtureDef>, site: Site, left: seq<Active>, below: seq<Active>,
                                 a: Active, bodies: Bodies) {
    exists from :: BuiltFrom(a, from, bodies) && RightSources(reg, site, left, below, a.def, from)
  }

  ghost predicate AllRight(reg: seq<FixtureDef>, site: Site, left: seq<Active>, entries: seq<Active>, bodies: Bodies) {
    forall i :: 0 <= i < |entries| ==> RightArguments(reg, site, left, entries[..i], entries[i], bodies)
  }

  // Some parameter of `d` names nothing: not a definition in scope, nor anything left live.
  ghost predicate LacksArgument(reg: seq<FixtureDef>, site: Site, left: seq<Active>, d: FixtureDef) {
    exists b :: 0 <= b < |d.bindings|
      && Closures.Target(reg, site, d, d.bindings[b].1).None? && Find(left, d.bindings[b].1).None?
  }

  // The body raises on the right arguments.
  ghost predicate Raises(reg: seq<FixtureDef>, site: Site, left: seq<Active>, below: seq<Active>, d: FixtureDef, n: nat,
                         bodies: Bodies) {
    exists from :: RightSources(reg, site, left, below, d, from) && Gives(bodies, d, from, n, None)
  }

  // Set-up of `d` stops here: a parameter names nothing, or the body raises.
  ghost predicate Fails(reg: seq<FixtureDef>, site: Site, left: seq<Active>, below: seq<Active>, d: FixtureDef, n: nat,
                        bodies: Bodies) {
    LacksArgument(reg, site, left, d) || Raises(reg, site, left, below, d, n, bodies)
  }

  // ---- by name over entries is by name over definitions ----

  lemma {:induction false} FindIsLatest(entries: seq<Active>, name: string)
    ensures var a, d := Find(entries, name), Closures.Latest(Defs(entries), name);
            a.Some? == d.Some? && (a.Some? ==> a.value.def == d.value && a.value in entries)
  {
    if entries != [] {
      assert Init(Defs(entries)) == Defs(Init(entries));
      FindIsLatest(Init(entries), name);
    }
  }

  lemma {:induction false} SourcesExist(entries: seq<Active>, bindings: seq<(string, string)>)
    ensures Sources(entries, bindings).None? <==>
            exists b :: 0 <= b < |bindings| && Find(entries, bindings[b].1).None?
  {
    if bindings != [] {
      SourcesExist(entries, Init(bindings));
      assert forall b :: 0 <= b < |bindings| - 1 ==> bindings[b] == Init(bindings)[b];
      if Find(entries, Last(bindings).1).None? {
        assert bindings[|bindings| - 1] == Last(bindings);
      }
    }
  }

  // When the definitions set up so far are the first `k` of a set-up order, the next one finds exactly
  // what it resolves to.
  lemma {:induction false} NextFinds(reg: seq<FixtureDef>, site: Site, names: seq<string>, order: seq<FixtureDef>,
                                     left: seq<Active>, entries: seq<Active>, k: nat, b: nat)
    requires Closures.SetUpOrder(reg, site, names, order) && k < |order| && b < |order[k].bindings|
    requires Defs(entries) == order[..k]
    ensures var d, dep := order[k], order[k].bindings[b].1;
            FindsRight(reg, site, left, entries, d, dep)
  {
    var dep := order[k].bindings[b].1;
    FindLocalFirst(left, entries, dep);
    FindIsLatest(entries, dep);
    Closures.ByNameIsByDefinition(reg, site, names, order, k, b);
  }

  // An attempt to set `d` up above `entries`: on the right arguments, or failed for want of one.
  ghost predicate AttemptIsRight(
      reg: seq<FixtureDef>, site: Site, left: seq<Active>, entries: seq<Active>, d: FixtureDef, key: InstanceKey,
      s: State, r: Attempt, bodies: Bodies) {
    && r.state.active == s.active
    && if r.built.None? then Fails(reg, site, left, entries, d, s.bodies, bodies)
       else
         && r.built.value.def == d
         && r.built.value.key == key
         && r.state.bodies == s.bodies + 1
         && RightArguments(reg, site, left, entries, r.built.value, bodies)
  }

  lemma {:induction false} NextIsRight(reg: seq<FixtureDef>, site: Site, names: seq<string>, order: seq<FixtureDef>,
                                       left: seq<Active>, entries: seq<Active>, k: nat,
                                       s: State, key: InstanceKey, bodies: Bodies)
    requires Closures.SetUpOrder(reg, site, names, order) && k < |order| && Defs(entries) == order[..k]
    ensures AttemptIsRight(reg, site, left, entries, order[k], key, s,
                           SetUpOne(s, left + entries, order[k], key, bodies), bodies)
  {
    var d := order[k];
    forall b | 0 <= b < |d.bindings|
      ensures FindsRight(reg, site, left, entries, d, d.bindings[b].1)
    {
      NextFinds(reg, site, names, order, left, entries, k, b);
    }
    FoundSourcesAreRight(reg, site, left, entries, d, s, key, bodies);
  }

  ghost predicate FindsRight(reg: seq<FixtureDef>, site: Site, left: seq<Active>, entries: seq<Active>, d: FixtureDef,
                             dep: string) {
    var arg := Find(left + entries, dep);
    && (arg.Some? ==> RightArgument(reg, site, left, entries, d, dep, arg.value))
    && (arg.None? <==> Closures.Target(reg, site, d, dep).None? && Find(left, dep).None?)
  }

  lemma {:induction false} FoundSourcesAreRight(
      reg: seq<FixtureDef>, site: Site, left: seq<Active>, entries: seq<Active>, d: FixtureDef, s: State,
      key: InstanceKey, bodies: Bodies)
    requires forall b :: 0 <= b < |d.bindings| ==> FindsRight(reg, site, left, entries, d, d.bindings[b].1)
    ensures AttemptIsRight(reg, site, left, entries, d, key, s, SetUpOne(s, left + entries, d, key, bodies), bodies)
  {
    var from := Sources(left + entries, d.bindings);
    SourcesExist(left + entries, d.bindings);
    SourcesAreThere(left + entries, d.bindings);
    var r := SetUpOne(s, left + entries, d, key, bodies);
    if from.Some? {
      assert RightSources(reg, site, left, entries, d, from.value);
      if r.built.Some? {
        assert BuiltFrom(r.built.value, from.value, bodies);
      }
    } else {
      var b :| 0 <= b < |d.bindings| && Find(left + entries, d.bindings[b].1).None?;
      assert FindsRight(reg, site, left, entries, d, d.bindings[b].1);
    }
  }

  lemma {:induction false} AllRightSnoc(reg: seq<FixtureDef>, site: Site, left: seq<Active>, entries: seq<Active>,
                                        a: Active, bodies: Bodies)
    requires AllRight(reg, site, left, entries, bodies) && RightArguments(reg, site, left, entries, a, bodies)
    ensures AllRight(reg, site, left, entries + [a], bodies)
    ensures Defs(entries + [a]) == Defs(entries) + [a.def]
  {
    var more := entries + [a];
    forall i | 0 <= i < |more| ensures RightArguments(reg, site, left, more[..i], more[i], bodies) {
      assert more[..i] == if i < |entries| then entries[..i] else entries;
    }
  }

  // ---- a closure of function-scoped fixtures, on an engine in any state ----

  ghost predicate AllFunctionScoped(closure: seq<FixtureDef>) {
    forall k :: 0 <= k < |closure| ==> closure[k].Rank() == 0
  }

  lemma {:induction false} ClosureIsSetUpOrder(reg: seq<FixtureDef>, site: Site, names: seq<string>)
    requires !Closures.CyclicNeeds(reg, site, names)
    ensures Closures.SetUpOrder(reg, site, names, Closures.Closure(reg, site, names))
  {
    Closures.ClosureIsExact(reg, site, names);
    Closures.ClosureOrder(reg, site, names);
  }

  // After `k` fixtures of a set-up order: all set up rightly, or stopped at the first that fails.
  ghost predicate Following(reg: seq<FixtureDef>, site: Site, left: seq<Active>, order: seq<FixtureDef>, k: nat,
                            c: Case, bodies0: nat, bodies: Bodies) {
    && c.state.active == left && AllRight(reg, site, left, c.locals, bodies)
    && |c.locals| <= k <= |order| && Defs(c.locals) == order[..|c.locals|]
    && if c.ok then |c.locals| == k && c.state.bodies == bodies0 + k
       else |c.locals| < k && Fails(reg, site, left, c.locals, order[|c.locals|], bodies0 + |c.locals|, bodies)
  }

  lemma {:induction false} NextFollows(
      reg: seq<FixtureDef>, site: Site, left: seq<Active>, order: seq<FixtureDef>, k: nat, c: Case, bodies0: nat,
      node: string, bodies: Bodies)
    requires Following(reg, site, left, order, k, c, bodies0, bodies) && c.ok && k < |order| && order[k].Rank() == 0
    requires var key := InstanceKeyOf(order[k], node);
             AttemptIsRight(reg, site, left, c.locals, order[k], key, c.state,
                            SetUpOne(c.state, left + c.locals, order[k], key, bodies), bodies)
    ensures Following(reg, site, left, order, k + 1, SetUpLocal(c, order[k], node, bodies), bodies0, bodies)
  {
    var r := SetUpOne(c.state, left + c.locals, order[k], InstanceKeyOf(order[k], node), bodies);
    if r.built.Some? {
      FollowOn(reg, site, left, order, k, c, r.built.value, r.state, bodies0, bodies);
    }
  }

  lemma {:induction false} FollowOn(reg: seq<FixtureDef>, site: Site, left: seq<Active>, order: seq<FixtureDef>, k: nat,
                                    c: Case, a: Active, s: State, bodies0: nat, bodies: Bodies)
    requires Following(reg, site, left, order, k, c, bodies0, bodies) && c.ok && k < |order|
    requires a.def == order[k] && RightArguments(reg, site, left, c.locals, a, bodies)
    requires s.active == left && s.bodies == c.state.bodies + 1
    ensures Following(reg, site, left, order, k + 1, Case(s, c.locals + [a], true), bodies0, bodies)
  {
    AllRightSnoc(reg, site, left, c.locals, a, bodies);
    assert order[..k + 1] == order[..k] + [a.def];
  }

  lemma {:induction false} LocalsFollowOrder(
      reg: seq<FixtureDef>, site: Site, names: seq<string>, order: seq<FixtureDef>, k: nat, s: State, node: string,
      bodies: Bodies)
    requires Closures.SetUpOrder(reg, site, names, order) && AllFunctionScoped(order) && k <= |order|
    ensures Following(reg, site, s.active, order, k, SetUpLocals(s, order[..k], node, bodies), s.bodies, bodies)
  {
    if k > 0 {
      LocalsFollowOrder(reg, site, names, order, k - 1, s, node, bodies);
      assert Init(order[..k]) == order[..k - 1] && Last(order[..k]) == order[k - 1];
      var c := SetUpLocals(s, order[..k - 1], node, bodies);
      if c.ok {
        var key := InstanceKeyOf(order[k - 1], node);
        NextIsRight(reg, site, names, order, s.active, c.locals, k - 1, c.state, key, bodies);
        NextFollows(reg, site, s.active, order, k - 1, c, s.bodies, node, bodies);
      }
    }
  }

  // Looking `n` up by name gives the fixture just set up from the definition it resolves to.
  ghost predicate FindsNearest(reg: seq<FixtureDef>, site: Site, left: seq<Active>, locals: seq<Active>, n: string) {
    var (t, a) := (Resolve(reg, n, site, None), Find(left + locals, n));
    t.Some? ==> a.Some? && a.value in locals && a.value.def == t.value
  }

  lemma {:induction false} NameFindsNearest(
      reg: seq<FixtureDef>, site: Site, names: seq<string>, order: seq<FixtureDef>, left: seq<Active>,
      locals: seq<Active>, n: string)
    requires Closures.SetUpOrder(reg, site, names, order) && Defs(locals) == order && n in names
    ensures FindsNearest(reg, site, left, locals, n)
  {
    Closures.TestArgumentIsNearest(reg, site, names, order, n);
    FindLocalFirst(left, locals, n);
    FindIsLatest(locals, n);
  }

  // Whatever is live from before: each fixture of the closure is set up in order, on the values of
  // exactly the definitions its parameters resolve to, override chains of any length included, until
  // one fails; and each name the test itself asks for is found at its nearest definition.
  lemma {:induction false} FunctionScopedArgumentsAreRight(reg: seq<FixtureDef>, site: Site, names: seq<string>,
                                                           s: State, node: string, bodies: Bodies)
    requires !Closures.CyclicNeeds(reg, site, names) && AllFunctionScoped(Closures.Closure(reg, site, names))
    ensures var closure := Closures.Closure(reg, site, names);
            var c := SetUpLocals(s, closure, node, bodies);
            && AllRight(reg, site, s.active, c.locals, bodies)
            && Defs(c.locals) <= closure && (c.ok <==> Defs(c.locals) == closure)
            && (!c.ok ==> Fails(reg, site, s.active, c.locals, closure[|c.locals|], s.bodies + |c.locals|, bodies))
            && (c.ok ==> forall n :: n in names ==> FindsNearest(reg, site, s.active, c.locals, n))
  {
    var closure := Closures.Closure(reg, site, names);
    ClosureIsSetUpOrder(reg, site, names);
    assert closure[..|closure|] == closure;
    LocalsFollowOrder(reg, site, names, closure, |closure|, s, node, bodies);
    var c := SetUpLocals(s, closure, node, bodies);
    if c.ok {
      forall n | n in names
        ensures FindsNearest(reg, site, s.active, c.locals, n)
      {
        NameFindsNearest(reg, site, names, closure, s.active, c.locals, n);
      }
    }
  }
}
