/** That the bound of `steal` (benchmarks/harness/analyse_bins.py) is attained for every number of
    workers, by the items 2m-1, 2m-1, 2m-2, 2m-2, ..., m+1, m+1, m, m, m. */
module Tightness {
  import opened Prelude
  import StableSort
  import opened ListScheduling
  import opened AnalyseBins

  // The `i`-th of the 2m+1 durations.
  function Duration(m: nat, i: nat): nat
    requires m > 0 && i <= 2 * m
  {
    if i == 2 * m then m else 2 * m - 1 - i / 2
  }

  // A worker for each under which all finish together: the three shortest on the first, and on
  // every other a long one with a short one.
  function Balanced(m: nat, i: nat): nat
    requires m > 0 && i <= 2 * m
  {
    if i + 2 >= 2 * m then 0 else if i % 2 == 0 then i / 2 + 1 else m - 1 - i / 2
  }

  ghost predicate IsWorst(m: nat, q: seq<nat>) {
    m > 0 && |q| == 2 * m + 1 && forall i :: 0 <= i < |q| ==> q[i] == Duration(m, i)
  }

  ghost predicate IsBalanced(m: nat, a: seq<nat>) {
    m > 0 && |a| == 2 * m + 1 && forall i :: 0 <= i < |a| ==> a[i] == Balanced(m, i)
  }

  // ---- the optimum ----

  // What the balanced assignment has put on worker `j` after `n` items.
  function BalancedLoad(m: nat, n: nat, j: nat): int {
    if j == 0 then (if n + 2 > 2 * m then (n + 2 - 2 * m) * m else 0)
    else (if 2 * (j - 1) < n then 2 * m - j else 0) + (if 2 * (m - 1 - j) + 1 < n then m + j else 0)
  }

  lemma {:induction false} BalancedUpTo(m: nat, q: seq<nat>, a: seq<nat>, n: nat, j: nat)
    requires IsWorst(m, q) && IsBalanced(m, a) && n <= |q| && j < m
    ensures Load(q[..n], a[..n], j) == BalancedLoad(m, n, j)
  {
    if n > 0 {
      BalancedUpTo(m, q, a, n - 1, j);
      assert Init(q[..n]) == q[..n - 1] && Init(a[..n]) == a[..n - 1];
      assert q[n - 1] == Duration(m, n - 1) && a[n - 1] == Balanced(m, n - 1);
      BalancedStep(m, n - 1, j);
    }
  }

  lemma {:induction false} BalancedStep(m: nat, i: nat, j: nat)
    requires m > 0 && i <= 2 * m && j < m
    ensures BalancedLoad(m, i + 1, j) == BalancedLoad(m, i, j) + if Balanced(m, i) == j then Duration(m, i) else 0
  {
    if j == 0 && i + 2 > 2 * m {
      var k := i + 2 - 2 * m;
      assert (k + 1) * m == k * m + m;
    }
  }

  lemma {:induction false} BalancedFinishesTogether(m: nat, q: seq<nat>, a: seq<nat>)
    requires IsWorst(m, q) && IsBalanced(m, a)
    ensures Assigns(a, q, m)
    ensures forall j :: 0 <= j < m ==> Load(q, a, j) == 3 * m
    ensures Sum(q) == m * (3 * m)
  {
    assert q[..|q|] == q && a[..|a|] == a;
    forall j | 0 <= j < m
      ensures Load(q, a, j) == 3 * m
    {
      BalancedUpTo(m, q, a, |q|, j);
    }
    var l := Loads(q, a, m);
    LoadsConserve(q, a, m);
    SumAtLeast(l, 3 * m);
    SumAtMost(l, 3 * m);
  }

  // ---- the greedy hand-out ----

  // One item each to begin with.
  lemma {:induction false} FirstRound(m: nat, q: seq<nat>, n: nat)
    requires IsWorst(m, q) && n <= m
    ensures forall k :: 0 <= k < m ==> GreedyLoads(q[..n], m)[k] == if k < n then q[k] else 0
  {
    if n > 0 {
      FirstRound(m, q, n - 1);
      var load := GreedyLoads(q[..n - 1], m);
      var w := LeastLoaded(load);
      assert load[n - 1] == 0;
      assert w == n - 1;
      HandOutStep(q, n - 1, m);
    }
  }

  // After `t` more items: those of the workers given a second one are `second`, and no one has more
  // than a long and a short one together.
  ghost predicate SecondRound(m: nat, t: nat, load: seq<nat>, second: set<nat>)
    requires m > 0
  {
    && |load| == m
    && |second| <= t
    && (forall k :: 0 <= k < m && k !in second ==> load[k] <= Duration(m, k))
    && (forall k :: 0 <= k < m ==> load[k] <= 3 * m - 1)
  }

  // Too few numbers to fill a range.
  lemma {:induction false} SomeMissing(s: set<nat>, lo: nat, hi: nat) returns (k: nat)
    requires lo <= hi && |s| < hi - lo
    ensures lo <= k < hi && k !in s
  {
    k := hi - 1;
    if k in s {
      k := SomeMissing(s - {k}, lo, hi - 1);
    }
  }

  lemma {:induction false} SecondRoundStep(m: nat, t: nat, load: seq<nat>, second: set<nat>, w: nat, next: seq<nat>)
    requires m > 0 && t < m && SecondRound(m, t, load, second) && w == LeastLoaded(load)
    requires next == load[w := load[w] + Duration(m, m + t)]
    ensures SecondRound(m, t + 1, next, second + {w})
  {
    var k := SomeMissing(second, m - t - 1, m);
    assert load[w] <= load[k] <= Duration(m, k) <= Duration(m, m - t - 1);
    assert (m - t - 1) / 2 + (m + t) / 2 == m - 1;
  }

  lemma {:induction false} AfterSecondRound(m: nat, q: seq<nat>, t: nat) returns (second: set<nat>)
    requires IsWorst(m, q) && t <= m
    ensures SecondRound(m, t, GreedyLoads(q[..m + t], m), second)
  {
    if t == 0 {
      FirstRound(m, q, m);
      assert m + t == m;
      second := {};
    } else {
      var before := AfterSecondRound(m, q, t - 1);
      second := OneMoreItem(m, q, t - 1, before);
    }
  }

  lemma {:induction false} LoadsAfter(m: nat, q: seq<nat>, i: nat, load: seq<nat>)
    requires IsWorst(m, q) && i < |q| && load == GreedyLoads(q[..i], m)
    ensures var w := LeastLoaded(load); GreedyLoads(q[..i + 1], m) == load[w := load[w] + Duration(m, i)]
  {
    HandOutStep(q, i, m);
  }

  lemma {:induction false} OneMoreItem(m: nat, q: seq<nat>, t: nat, before: set<nat>) returns (second: set<nat>)
    requires IsWorst(m, q) && t < m && SecondRound(m, t, GreedyLoads(q[..m + t], m), before)
    ensures SecondRound(m, t + 1, GreedyLoads(q[..m + t + 1], m), second)
  {
    var load := GreedyLoads(q[..m + t], m);
    var w := LeastLoaded(load);
    LoadsAfter(m, q, m + t, load);
    SecondRoundStep(m, t, load, before, w, GreedyLoads(q[..m + t + 1], m));
    second := before + {w};
  }

  lemma {:induction false} SumFullExactly(l: seq<nat>, x: nat, w: nat)
    requires Sum(l) == |l| * x && w < |l| && forall k :: 0 <= k < |l| ==> l[k] <= x
    ensures l[w] == x
  {
    SumUpdate(l, w, x - l[w]);
    SumAtMost(l[w := x], x);
  }

  // Then all have the same, and the last item goes on top.
  lemma {:induction false} GreedyIsLate(m: nat, q: seq<nat>, a: seq<nat>)
    requires IsWorst(m, q) && IsBalanced(m, a)
    ensures Max(GreedyLoads(q, m)) >= 4 * m - 1
  {
    var load := GreedyLoads(q[..2 * m], m);
    var w := LeastLoaded(load);
    AllLevel(m, q, a);
    HandOutStep(q, 2 * m, m);
    assert q[..2 * m + 1] == q && q[2 * m] == m;
    assert GreedyLoads(q, m)[w] == 4 * m - 1;
  }

  lemma {:induction false} AllLevel(m: nat, q: seq<nat>, a: seq<nat>)
    requires IsWorst(m, q) && IsBalanced(m, a)
    ensures forall w :: 0 <= w < m ==> GreedyLoads(q[..2 * m], m)[w] == 3 * m - 1
  {
    var load := GreedyLoads(q[..2 * m], m);
    var second := AfterSecondRound(m, q, m);
    assert m + m == 2 * m;
    SumBeforeLast(m, q, a);
    forall w | 0 <= w < m
      ensures load[w] == 3 * m - 1
    {
      SumFullExactly(load, 3 * m - 1, w);
    }
  }

  lemma {:induction false} SumBeforeLast(m: nat, q: seq<nat>, a: seq<nat>)
    requires IsWorst(m, q) && IsBalanced(m, a)
    ensures Sum(GreedyLoads(q[..2 * m], m)) == m * (3 * m - 1)
  {
    var front := q[..2 * m];
    BalancedFinishesTogether(m, q, a);
    assert q[2 * m] == m && q == front + [m];
    SumSnoc(front, m);
    LoadsConserve(front, Greedy(front, m), m);
    OneLessEach(m);
  }

  lemma {:induction false} OneLessEach(m: nat)
    requires m > 0
    ensures m * (3 * m) - m == m * (3 * m - 1)
  {
  }

  // The factor 4/3 - 1/(3m) cannot be improved for any number m of workers.
  lemma {:induction false} FourThirdsIsTight(items: seq<Item>, where: string -> nat, workers: nat)
    requires IsWorst(workers, Durations(items)) && IsBalanced(workers, Places(items, where))
    ensures 3 * workers * Max(StealLoads(items, workers)) == (4 * workers - 1) * ItemMakespan(items, where, workers)
    ensures ItemMakespan(items, where, workers) == 3 * workers
  {
    var q, a := Durations(items), Places(items, where);
    BalancedFinishesTogether(workers, q, a);
    forall i | 0 <= i < |items|
      ensures where(items[i].id) < workers
    {
      assert a[i] == where(items[i].id);
    }
    LevelMakespan(items, where, workers);
    WorstIsSorted(items, workers);
    SortedAlready(items);
    GreedyIsLate(workers, q, a);
    StealIsFourThirdsOptimal(items, where, workers);
    Attained(workers, Max(StealLoads(items, workers)), ItemMakespan(items, where, workers));
  }

  lemma {:induction false} LevelMakespan(items: seq<Item>, where: string -> nat, workers: nat)
    requires workers > 0
    requires forall j :: 0 <= j < workers ==> Load(Durations(items), Places(items, where), j) == 3 * workers
    ensures ItemMakespan(items, where, workers) == 3 * workers
  {
    var best := ItemLoads(items, where, workers);
    assert best[0] == 3 * workers && Max(best) in best;
  }

  lemma {:induction false} Attained(m: nat, late: nat, opt: nat)
    requires m > 0 && opt == 3 * m && late >= 4 * m - 1 && 3 * m * late <= (4 * m - 1) * opt
    ensures 3 * m * late == (4 * m - 1) * opt
  {
    MulMonotone(4 * m - 1, late, opt);
  }

  lemma {:induction false} WorstIsSorted(items: seq<Item>, m: nat)
    requires IsWorst(m, Durations(items))
    ensures StableSort.InOrder(LongerItem(), items)
  {
    forall i, j | 0 <= i < j < |items|
      ensures LongerItem()(items[i], items[j])
    {
      assert items[i].ms == Durations(items)[i] && items[j].ms == Durations(items)[j];
    }
  }

  // Such items, and such an assignment of them, there are for every number of workers.
  lemma {:induction false} WorstCaseExists(m: nat) returns (items: seq<Item>, where: string -> nat)
    requires m > 0
    ensures IsWorst(m, Durations(items)) && IsBalanced(m, Places(items, where))
    ensures forall i, j :: 0 <= i < j < |items| ==> items[i].id != items[j].id
  {
    items := seq(2 * m + 1, i requires 0 <= i < 2 * m + 1 => Item(NameOf(i), Duration(m, i)));
    where := id => if |id| <= 2 * m then Balanced(m, |id|) else 0;
  }

  function NameOf(i: nat): (id: string)
    ensures |id| == i
  {
    seq(i, _ => 'x')
  }
}
