/** From `-k` to the run: the variants a node runs are those whose own ids the keyword selects
    (engine.py `_plan` and `_execute`). */
module KeywordRuns {
  import opened Prelude
  import Keywords
  import Execution
  import SelectionGrammar
  import NodeIds
  import Plans
  import opened Disambiguation

  // `-k` with how it reads names: the same for every node of a run.
  datatype Filter = Filter(keyword: Option<SelectionGrammar.Expr>, lower: string -> string, naming: Keywords.Naming)

  // The positions `_plan` keeps: all of them, none, or those whose case ids match.
  function Kept(f: Filter, node: string, ids: seq<string>): set<nat> {
    set i | 0 <= i < |ids| && Keywords.Keeps(f.keyword, f.lower, f.naming, node, ids[i])
  }

  // The texts in the brackets of a node's ids; none for a node that is not parametrized.
  function Labels<V(==)>(
      plan: Execution.Plan<V>, rule: Rule, describe: Execution.Describe<V>): Option<seq<string>> {
    var texts := Execution.Texts(plan.combos, plan.cases, describe);
    if plan.combos == [map[]] && plan.cases == [map[]] then None
    else Some(seq(|texts|, i requires 0 <= i < |texts| => Label(rule, texts, i)))
  }

  lemma {:induction false} IdsAreCaseIds<V>(
      plan: Execution.Plan<V>, rule: Rule, describe: Execution.Describe<V>)
    requires Execution.Named(plan, rule, describe)
    ensures plan.ids == Keywords.VariantIds(plan.node, Labels(plan, rule, describe))
    ensures Execution.Fits(plan)
  {
    Plans.CrossLength(plan.combos, plan.cases);
  }

  // A finished run of the kept positions ran variant `i` exactly when `-k` selects the id `i` runs under.
  lemma {:induction false} RunsWhatKeywordSelects<V>(
    f: Filter, plan: Execution.Plan<V>, rule: Rule, describe: Execution.Describe<V>, out: Execution.Outcome<V>, i: nat)
    requires Keywords.LowersInPieces(f.lower) && NodeIds.HasSeparator(plan.node)
    requires Execution.Named(plan, rule, describe) && plan.selected == Kept(f, plan.node, plan.ids)
    requires Execution.Fits(plan) && Execution.Progress(plan, out, |plan.combos|, |plan.ids|)
    requires i < |plan.ids|
    ensures Execution.RunOf(plan, i).id == plan.ids[i]
    ensures Execution.RunOf(plan, i) in out.trace
      <==> Keywords.Selects(f.keyword, f.lower, Keywords.KeywordNames(f.naming, plan.ids[i]))
  {
    IdsAreCaseIds(plan, rule, describe);
    Keywords.TwoPhasesSelectAsOne(f.keyword, f.lower, f.naming, plan.node, Labels(plan, rule, describe));
    Execution.RunsExactlyTheSelected(plan, out, i, 0, 0, 0);
  }
}
