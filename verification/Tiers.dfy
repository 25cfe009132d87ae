/** Which tier a node runs on (tiers.route), decided from the run's options and what is recorded of it. */
module Tiers {
  import opened Prelude

  datatype Tier = Bare | Restore | InProcess | Fork | ModuleChild | Refused

  predicate IsInProcess(t: Tier) {
    t.Bare? || t.Restore? || t.InProcess?
  }

  // A run's configuration, and the platform's.
  datatype Options = Options(forkAvailable: bool, inModuleChild: bool, noFork: bool, restore: bool)

  // What is asked and recorded of one node.
  datatype Record = Record(forceNoFork: bool, trustedPure: bool, mustFork: bool)

  // `restorable()`: None when the module cannot be imported or inspected.
  type Restorable = Option<bool>

  // Whether the snapshot is consulted at all.
  predicate Consulted(o: Options, r: Record) {
    o.restore && !r.trustedPure && (r.forceNoFork || o.noFork)
  }

  // The other two reasons a node must fork.
  predicate ForksAnyway(o: Options, r: Record, childHoldsModule: bool) {
    && o.restore
    && !o.noFork
    && (r.mustFork || (childHoldsModule && !o.inModuleChild && o.forkAvailable))
  }

  predicate MustFork(o: Options, r: Record, childHoldsModule: bool, restorable: Restorable) {
    (Consulted(o, r) && restorable != Some(true)) || ForksAnyway(o, r, childHoldsModule)
  }

  function Route(o: Options, r: Record, childHoldsModule: bool, restorable: Restorable): Tier {
    if MustFork(o, r, childHoldsModule, restorable) then
      if !o.forkAvailable then Refused else if o.inModuleChild then Fork else ModuleChild
    else if o.noFork || r.forceNoFork then
      if r.trustedPure then Bare else if o.restore then Restore else InProcess
    else Fork
  }

  // To run in this process is asked of the node or of the run.
  predicate IsAsked(o: Options, r: Record) {
    o.noFork || r.forceNoFork
  }

  // And leaks nothing, or is let leak.
  predicate IsSafe(o: Options, r: Record, restorable: Restorable) {
    !o.restore || r.trustedPure || restorable == Some(true)
  }

  // A recorded disturber, kept out of this process where shared state is to be kept apart.
  predicate IsKeptOut(o: Options, r: Record) {
    o.restore && !o.noFork && r.mustFork
  }

  // A child has the node's module and the process may use it.
  predicate ChildTakes(o: Options, holds: bool) {
    holds && o.restore && !o.noFork && !o.inModuleChild && o.forkAvailable
  }

  // The tier of every node, whatever the options, the records and the snapshot say. The soundness
  // gate is in `here`: with shared state to be kept apart, a node runs in this process only when it
  // is recorded pure or its module can be put back.
  lemma {:induction false} RouteIff(o: Options, r: Record, holds: bool, restorable: Restorable)
    ensures var tier := Route(o, r, holds, restorable);
            var here := IsAsked(o, r) && IsSafe(o, r, restorable) && !IsKeptOut(o, r) && !ChildTakes(o, holds);
            var barred := (IsAsked(o, r) && !IsSafe(o, r, restorable)) || IsKeptOut(o, r);
            && (tier.Bare? <==> here && r.trustedPure)
            && (tier.Restore? <==> here && !r.trustedPure && o.restore)
            && (tier.InProcess? <==> here && !r.trustedPure && !o.restore)
            && (tier.Refused? <==> barred && !o.forkAvailable)
            && (tier.ModuleChild? <==> (barred || ChildTakes(o, holds)) && o.forkAvailable && !o.inModuleChild)
            && (tier.Fork? <==> if barred then o.forkAvailable && o.inModuleChild
                                else !IsAsked(o, r) && !ChildTakes(o, holds))
  {
  }

  // A module child never forks a second one, and one asked to run a node itself does.
  lemma {:induction false} ChildrenRunTheirNodes(o: Options, r: Record, holds: bool, restorable: Restorable)
    requires o.inModuleChild
    ensures Route(o, r, holds, restorable) != ModuleChild
    ensures !o.restore && r.forceNoFork ==> IsInProcess(Route(o, r, holds, restorable))
  {
  }

  // While a child holds the node's module, it takes the node.
  lemma {:induction false} OpenChildTakesNode(o: Options, r: Record, restorable: Restorable)
    requires o.forkAvailable && !o.inModuleChild && !o.noFork && o.restore
    ensures Route(o, r, true, restorable) == ModuleChild
  {
  }

  // The documentation says the snapshot is consulted only when the answer depends on it. It is not
  // so: a consulted snapshot decides the tier exactly when nothing else makes the node fork, and a
  // recorded disturber asked to run in-process has it taken for nothing.
  lemma {:induction false} SnapshotDecidesIff(o: Options, r: Record, holds: bool)
    ensures Route(o, r, holds, Some(true)) != Route(o, r, holds, Some(false))
      <==> Consulted(o, r) && !ForksAnyway(o, r, holds)
    ensures Route(o, r, holds, None) == Route(o, r, holds, Some(false))
    ensures o.restore && !o.noFork && r == Record(true, false, true) ==> Consulted(o, r) && ForksAnyway(o, r, holds)
  {
  }
}
