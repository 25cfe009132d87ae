/** Running a node's plan (engine.py `_plan`, `_execute`): which variants run, in which order, with
    which values and under which id. */
module Execution {
  import opened Prelude
  import Plans
  import opened Disambiguation

  type Values<V> = map<string, V>

  // A node's expansion: one map per fixture-parameter combination, one per parametrize case, and
  // the argument names whose value goes to the fixture of that name.
  datatype Plan<V> = Plan(
    node: string, combos: seq<Values<V>>, cases: seq<Values<V>>, indirect: set<string>, ids: seq<string>,
    selected: set<nat>)

  // The part of an id a combination, a case and their position give.
  type Describe<!V> = (Values<V>, Values<V>, nat) -> string

  // ---- naming ----

  function Texts<V>(combos: seq<Values<V>>, cases: seq<Values<V>>, describe: Describe<V>): seq<string> {
    var specs := Plans.Cross(combos, cases);
    seq(|specs|, i requires 0 <= i < |specs| => describe(specs[i].0, specs[i].1, i))
  }

  function VariantIds<V(==)>(
    rule: Rule, node: string, combos: seq<Values<V>>, cases: seq<Values<V>>, describe: Describe<V>): seq<string> {
    var texts := Texts(combos, cases, describe);
    var parametrized := combos != [map[]] || cases != [map[]];
    seq(|texts|, i requires 0 <= i < |texts| => if parametrized then node + "[" + Label(rule, texts, i) + "]" else node)
  }

  ghost predicate Named<V>(plan: Plan<V>, rule: Rule, describe: Describe<V>) {
    plan.ids == VariantIds(rule, plan.node, plan.combos, plan.cases, describe)
  }

  // ---- running ----

  // A combination's wider fixtures were synced, or one variant ran with these values under this id.
  datatype Event<V> =
    | Synced(combo: nat)
    | Ran(index: nat, fixtureValues: Values<V>, testValues: Values<V>, id: string)

  // `selected` within `[lo, hi)`, in increasing order.
  function Chosen(selected: set<nat>, lo: nat, hi: nat): seq<nat>
    decreases hi
  {
    if lo >= hi then [] else Chosen(selected, lo, hi - 1) + if hi - 1 in selected then [hi - 1] else []
  }

  // Indirect values join the fixtures' and leave the test's.
  function RunWith<V>(plan: Plan<V>, combo: Values<V>, kase: Values<V>, i: nat): Event<V>
    requires i < |plan.ids|
  {
    Ran(i, combo + (map k | k in kase && k in plan.indirect :: kase[k]), kase - plan.indirect, plan.ids[i])
  }

  predicate Fits<V>(plan: Plan<V>) {
    |plan.ids| == |plan.combos| * |plan.cases|
  }

  // Variant `i`: combination `i / per_combo` with case `i % per_combo`.
  function RunOf<V>(plan: Plan<V>, i: nat): Event<V>
    requires Fits(plan) && i < |plan.ids|
  {
    Plans.InRow(i, |plan.combos|, |plan.cases|);
    RunWith(plan, plan.combos[i / |plan.cases|], plan.cases[i % |plan.cases|], i)
  }

  lemma {:induction false} ChosenIsExact(selected: set<nat>, lo: nat, hi: nat, i: nat)
    ensures i in Chosen(selected, lo, hi) <==> lo <= i < hi && i in selected
    decreases hi
  {
    if lo < hi {
      ChosenIsExact(selected, lo, hi - 1, i);
    }
  }

  lemma {:induction false} ChosenIncreases(selected: set<nat>, lo: nat, hi: nat, a: nat, b: nat)
    requires a < b < |Chosen(selected, lo, hi)|
    ensures Chosen(selected, lo, hi)[a] < Chosen(selected, lo, hi)[b]
    decreases hi
  {
    var before := Chosen(selected, lo, hi - 1);
    if b < |before| {
      ChosenIncreases(selected, lo, hi - 1, a, b);
    } else {
      ChosenIsExact(selected, lo, hi - 1, before[a]);
    }
  }

  // Whether any variant in a range is selected.
  predicate Wanted(selected: set<nat>, lo: nat, hi: nat) {
    exists i :: lo <= i < hi && i in selected
  }

  // What a run leaves: the events, and the ids reported, or none when a fixture could not be set up.
  datatype Outcome<V> = Outcome(trace: seq<Event<V>>, reported: Option<seq<string>>)

  // The indices that ran.
  function RunsIn<V>(trace: seq<Event<V>>): seq<nat> {
    if trace == [] then []
    else RunsIn(Init(trace)) + if Last(trace).Ran? then [Last(trace).index] else []
  }

  // The combinations that were synced.
  function SyncsIn<V>(trace: seq<Event<V>>): seq<nat> {
    if trace == [] then []
    else SyncsIn(Init(trace)) + if Last(trace).Synced? then [Last(trace).combo] else []
  }

  // The combination the live wider fixtures were last synced for.
  function LastSynced<V>(trace: seq<Event<V>>): Option<nat> {
    if trace == [] then None
    else if Last(trace).Synced? then Some(Last(trace).combo)
    else LastSynced(Init(trace))
  }

  // Each variant ran as the plan names it, its own combination the one last synced.
  predicate AsPlanned<V(==)>(plan: Plan<V>, trace: seq<Event<V>>)
    requires Fits(plan)
  {
    trace == [] ||
    (AsPlanned(plan, Init(trace)) &&
     (Last(trace).Ran? ==>
        && Last(trace).index < |plan.ids|
        && Last(trace) == RunOf(plan, Last(trace).index)
        && |plan.cases| > 0
        && LastSynced(Init(trace)) == Some(Last(trace).index / |plan.cases|)))
  }

  // The first `n` combinations without those nothing of which is selected.
  function WantedCombos<V>(plan: Plan<V>, n: nat): seq<nat> {
    if n == 0 then []
    else
      WantedCombos(plan, n - 1) +
      if Wanted(plan.selected, (n - 1) * |plan.cases|, (n - 1) * |plan.cases| + |plan.cases|) then [n - 1] else []
  }

  function IdsOf<V>(plan: Plan<V>, indices: seq<nat>): seq<string> {
    if indices == [] then []
    else IdsOf(plan, Init(indices)) + if Last(indices) < |plan.ids| then [plan.ids[Last(indices)]] else []
  }

  // After the variants below `i`, with `n` combinations looked at.
  ghost predicate Progress<V>(plan: Plan<V>, out: Outcome<V>, n: nat, i: nat)
    requires Fits(plan)
  {
    && AsPlanned(plan, out.trace)
    && RunsIn(out.trace) == Chosen(plan.selected, 0, i)
    && SyncsIn(out.trace) == WantedCombos(plan, n)
    && out.reported == Some(IdsOf(plan, Chosen(plan.selected, 0, i)))
  }

  lemma {:induction false} NothingChosen(selected: set<nat>, lo: nat, hi: nat)
    requires lo <= hi && !Wanted(selected, lo, hi)
    ensures Chosen(selected, 0, hi) == Chosen(selected, 0, lo)
    decreases hi
  {
    if lo < hi {
      assert hi - 1 !in selected;
      NothingChosen(selected, lo, hi - 1);
    }
  }

  lemma {:induction false} SkipCombo<V>(plan: Plan<V>, out: Outcome<V>, c: nat)
    requires Fits(plan) && Progress(plan, out, c, c * |plan.cases|)
    requires !Wanted(plan.selected, c * |plan.cases|, c * |plan.cases| + |plan.cases|)
    ensures Progress(plan, out, c + 1, c * |plan.cases| + |plan.cases|)
  {
    NothingChosen(plan.selected, c * |plan.cases|, c * |plan.cases| + |plan.cases|);
  }

  lemma {:induction false} SyncCombo<V>(plan: Plan<V>, out: Outcome<V>, c: nat)
    requires Fits(plan) && Progress(plan, out, c, c * |plan.cases|)
    requires Wanted(plan.selected, c * |plan.cases|, c * |plan.cases| + |plan.cases|)
    ensures Progress(plan, out.(trace := out.trace + [Synced(c)]), c + 1, c * |plan.cases|)
    ensures LastSynced(out.trace + [Synced(c)]) == Some(c)
  {
    InitOfSnoc(out.trace, Synced(c));
  }

  lemma {:induction false} SkipCase<V>(plan: Plan<V>, out: Outcome<V>, n: nat, i: nat)
    requires Fits(plan) && Progress(plan, out, n, i) && i !in plan.selected
    ensures Progress(plan, out, n, i + 1)
  {
    assert Chosen(plan.selected, 0, i + 1) == Chosen(plan.selected, 0, i);
  }

  lemma {:induction false} RunCase<V>(plan: Plan<V>, out: Outcome<V>, n: nat, c: nat, k: nat)
    requires Fits(plan) && c < |plan.combos| && k < |plan.cases|
    requires Progress(plan, out, n, c * |plan.cases| + k) && LastSynced(out.trace) == Some(c)
    requires c * |plan.cases| + k in plan.selected
    ensures var i := c * |plan.cases| + k;
            && i < |plan.ids|
            && var e := RunWith(plan, plan.combos[c], plan.cases[k], i);
            && LastSynced(out.trace + [e]) == Some(c)
            && Progress(plan, Outcome(out.trace + [e], Some(out.reported.value + [plan.ids[i]])), n, i + 1)
  {
    var i := Plans.CellOf(c, |plan.combos|, k, |plan.cases|);
    var e := RunWith(plan, plan.combos[c], plan.cases[k], i);
    assert e == RunOf(plan, i);
    InitOfSnoc(out.trace, e);
    InitOfSnoc(Chosen(plan.selected, 0, i), i);
    assert Chosen(plan.selected, 0, i + 1) == Chosen(plan.selected, 0, i) + [i];
  }

  // Whether combination `c` has something to run and its fixtures cannot be set up.
  predicate Breaks<V>(plan: Plan<V>, fails: nat -> bool, c: nat) {
    fails(c) && Wanted(plan.selected, c * |plan.cases|, c * |plan.cases| + |plan.cases|)
  }

  // Everything selected runs, in order, unless a combination's fixtures cannot be set up; that ends
  // the node there, and what had run is not reported.
  method Execute<V(==)>(plan: Plan<V>, fails: nat -> bool) returns (out: Outcome<V>)
    requires Fits(plan)
    ensures out.reported.Some? <==> forall c :: 0 <= c < |plan.combos| ==> !Breaks(plan, fails, c)
    ensures out.reported.Some? ==> Progress(plan, out, |plan.combos|, |plan.ids|)
    ensures out.reported.None? ==> exists c, reported ::
              && 0 <= c < |plan.combos|
              && Breaks(plan, fails, c)
              && (forall d :: 0 <= d < c ==> !Breaks(plan, fails, d))
              && Progress(plan, Outcome(out.trace, Some(reported)), c, c * |plan.cases|)
  {
    var per := |plan.cases|;
    var trace: seq<Event<V>>, reported: seq<string> := [], [];
    var index := 0;
    for c := 0 to |plan.combos|
      invariant index == c * per && Progress(plan, Outcome(trace, Some(reported)), c, index)
      invariant forall d :: 0 <= d < c ==> !Breaks(plan, fails, d)
    {
      if !Wanted(plan.selected, index, index + per) {
        SkipCombo(plan, Outcome(trace, Some(reported)), c);
        index := index + per;
        continue;
      }
      if fails(c) {
        assert Breaks(plan, fails, c);
        return Outcome(trace, None);
      }
      SyncCombo(plan, Outcome(trace, Some(reported)), c);
      trace := trace + [Synced(c)];
      for k := 0 to per
        invariant index == c * per + k && LastSynced(trace) == Some(c)
        invariant Progress(plan, Outcome(trace, Some(reported)), c + 1, index)
      {
        if index in plan.selected {
          RunCase(plan, Outcome(trace, Some(reported)), c + 1, c, k);
          trace := trace + [RunWith(plan, plan.combos[c], plan.cases[k], index)];
          reported := reported + [plan.ids[index]];
        } else {
          SkipCase(plan, Outcome(trace, Some(reported)), c + 1, index);
        }
        index := index + 1;
      }
    }
    out := Outcome(trace, Some(reported));
  }

  // ---- what a finished run did ----

  lemma {:induction false} RunsAreEvents<V>(plan: Plan<V>, trace: seq<Event<V>>, i: nat)
    requires Fits(plan) && AsPlanned(plan, trace)
    ensures i in RunsIn(trace) <==> i < |plan.ids| && RunOf(plan, i) in trace
  {
    if trace != [] {
      RunsAreEvents(plan, Init(trace), i);
      assert trace == Init(trace) + [Last(trace)];
    }
  }

  lemma {:induction false} WantedCombosAreExact<V>(plan: Plan<V>, n: nat, c: nat)
    ensures c in WantedCombos(plan, n)
      <==> c < n && Wanted(plan.selected, c * |plan.cases|, c * |plan.cases| + |plan.cases|)
  {
    if n > 0 {
      WantedCombosAreExact(plan, n - 1, c);
    }
  }

  // Exactly the selected variants ran, each once and in increasing order; fixtures were synced for
  // exactly the combinations with one of them.
  lemma {:induction false} RunsExactlyTheSelected<V>(plan: Plan<V>, out: Outcome<V>, i: nat, a: nat, b: nat, c: nat)
    requires Fits(plan) && Progress(plan, out, |plan.combos|, |plan.ids|)
    ensures i < |plan.ids| ==> (i in plan.selected <==> RunOf(plan, i) in out.trace)
    ensures a < b < |RunsIn(out.trace)| ==> RunsIn(out.trace)[a] < RunsIn(out.trace)[b]
    ensures c in SyncsIn(out.trace)
      <==> c < |plan.combos| && Wanted(plan.selected, c * |plan.cases|, c * |plan.cases| + |plan.cases|)
  {
    RunsAreEvents(plan, out.trace, i);
    ChosenIsExact(plan.selected, 0, |plan.ids|, i);
    if a < b < |RunsIn(out.trace)| {
      ChosenIncreases(plan.selected, 0, |plan.ids|, a, b);
    }
    WantedCombosAreExact(plan, |plan.combos|, c);
  }

  // A variant runs with the values its id was made from, and under that id.
  lemma {:induction false} RunsUnderItsOwnName<V>(
      plan: Plan<V>, rule: Rule, describe: Describe<V>, i: nat)
    requires Named(plan, rule, describe) && i < |plan.ids|
    ensures Fits(plan) && |plan.cases| > 0 && i / |plan.cases| < |plan.combos|
    ensures i < |Texts(plan.combos, plan.cases, describe)|
    ensures var (combo, kase) := (plan.combos[i / |plan.cases|], plan.cases[i % |plan.cases|]);
            var texts := Texts(plan.combos, plan.cases, describe);
            && texts[i] == describe(combo, kase, i)
            && RunOf(plan, i) == RunWith(plan, combo, kase, i)
            && RunOf(plan, i).id ==
                 if plan.combos != [map[]] || plan.cases != [map[]] then plan.node + "[" + Label(rule, texts, i) + "]"
                 else plan.node
  {
    Plans.CrossLength(plan.combos, plan.cases);
    Plans.CrossAt(plan.combos, plan.cases, i);
  }

  // Each of a case's values reached the fixture or the test, never both, and neither got anything else
  // but the fixtures their own combination.
  predicate ValuesSplit<V(==)>(plan: Plan<V>, e: Event<V>, combo: Values<V>, kase: Values<V>)
    requires e.Ran?
  {
    && e.testValues.Keys == kase.Keys - plan.indirect
    && e.fixtureValues.Keys == combo.Keys + (kase.Keys * plan.indirect)
    && (forall k :: k in kase ==>
          if k in plan.indirect then e.fixtureValues[k] == kase[k] else e.testValues[k] == kase[k])
    && (forall k :: k in combo && (k in kase ==> k !in plan.indirect) ==> e.fixtureValues[k] == combo[k])
  }

  lemma {:induction false} IndirectValuesGoToFixtures<V>(plan: Plan<V>, trace: seq<Event<V>>, e: Event<V>)
    requires Fits(plan) && AsPlanned(plan, trace) && e in trace && e.Ran?
    ensures e.index < |plan.ids| && |plan.cases| > 0 && e.index / |plan.cases| < |plan.combos|
    ensures ValuesSplit(plan, e, plan.combos[e.index / |plan.cases|], plan.cases[e.index % |plan.cases|])
  {
    if e == Last(trace) {
      Plans.InRow(e.index, |plan.combos|, |plan.cases|);
    } else {
      assert trace == Init(trace) + [Last(trace)];
      IndirectValuesGoToFixtures(plan, Init(trace), e);
    }
  }
}
