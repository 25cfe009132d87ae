/** The list scheduler shared by the three packings of the benchmark harness, on plain weights:
    units are handed out in queue order, each to the first least-loaded worker. */
module ListScheduling {
  import opened Prelude
  import StableSort

  // `load_.index(min(load_))`: the first worker whose load is the least.
  function LeastLoaded(load: seq<nat>): (w: nat)
    requires load != []
    ensures w < |load|
    ensures forall j :: 0 <= j < |load| ==> load[w] <= load[j]
    ensures forall j :: 0 <= j < w ==> load[w] < load[j]
  {
    if |load| == 1 then 0
    else
      var w := LeastLoaded(Init(load));
      if Last(load) < load[w] then |load| - 1 else w
  }

  // An assignment gives each queue position a worker.
  predicate Assigns(a: seq<nat>, q: seq<nat>, m: nat) {
    |a| == |q| && forall i :: 0 <= i < |a| ==> a[i] < m
  }

  // What assignment `a` of queue `q` puts on worker `j`.
  function Load(q: seq<nat>, a: seq<nat>, j: nat): nat
    requires |a| == |q|
  {
    if q == [] then 0
    else Load(Init(q), Init(a), j) + if Last(a) == j then Last(q) else 0
  }

  function Loads(q: seq<nat>, a: seq<nat>, m: nat): (l: seq<nat>)
    requires |a| == |q|
    ensures |l| == m
  {
    seq(m, j requires 0 <= j < m => Load(q, a, j))
  }

  // The assignment the greedy rule makes.
  function Greedy(q: seq<nat>, m: nat): (a: seq<nat>)
    requires m > 0
    ensures Assigns(a, q, m)
  {
    if q == [] then []
    else
      var a := Greedy(Init(q), m);
      a + [LeastLoaded(Loads(Init(q), a, m))]
  }

  // The loads the greedy rule leaves.
  function GreedyLoads(q: seq<nat>, m: nat): (l: seq<nat>)
    requires m > 0
    ensures |l| == m
  {
    Loads(q, Greedy(q, m), m)
  }

  method HandOut(q: seq<nat>, m: nat) returns (load: seq<nat>)
    requires m > 0
    ensures load == GreedyLoads(q, m)
  {
    load := seq(m, _ => 0);
    assert load == GreedyLoads(q[..0], m);
    for i := 0 to |q|
      invariant load == GreedyLoads(q[..i], m)
    {
      HandOutStep(q, i, m);
      var w := LeastLoaded(load);
      load := load[w := load[w] + q[i]];
    }
    assert q[..|q|] == q;
  }

  lemma {:induction false} HandOutStep(q: seq<nat>, i: nat, m: nat)
    requires m > 0 && i < |q|
    ensures var load := GreedyLoads(q[..i], m);
            var w := LeastLoaded(load);
            GreedyLoads(q[..i + 1], m) == load[w := load[w] + q[i]]
  {
    GreedySnoc(q[..i], q[i], m);
    assert q[..i + 1] == q[..i] + [q[i]];
  }

  // Handing one more unit to worker `w` changes that worker's load and no other.
  lemma {:induction false} LoadsSnoc(q: seq<nat>, a: seq<nat>, x: nat, w: nat, m: nat)
    requires |a| == |q| && w < m
    ensures Loads(q + [x], a + [w], m) == Loads(q, a, m)[w := Load(q, a, w) + x]
  {
    assert Init(q + [x]) == q && Init(a + [w]) == a;
  }

  lemma {:induction false} GreedySnoc(q: seq<nat>, x: nat, m: nat)
    requires m > 0
    ensures var w := LeastLoaded(Loads(q, Greedy(q, m), m));
            Greedy(q + [x], m) == Greedy(q, m) + [w] &&
            Loads(q + [x], Greedy(q + [x], m), m) ==
            Loads(q, Greedy(q, m), m)[w := Load(q, Greedy(q, m), w) + x]
  {
    assert Init(q + [x]) == q;
    LoadsSnoc(q, Greedy(q, m), x, LeastLoaded(Loads(q, Greedy(q, m), m)), m);
  }

  // Every unit is on exactly one worker, so the loads add up to the queue.
  lemma {:induction false} LoadsConserve(q: seq<nat>, a: seq<nat>, m: nat)
    requires Assigns(a, q, m)
    ensures Sum(Loads(q, a, m)) == Sum(q)
  {
    if q == [] {
      SumAtMost(Loads(q, a, m), 0);
    } else {
      LoadsConserve(Init(q), Init(a), m);
      LoadsSnoc(Init(q), Init(a), Last(q), Last(a), m);
      assert q == Init(q) + [Last(q)] && a == Init(a) + [Last(a)];
      SumUpdate(Loads(Init(q), Init(a), m), Last(a), Last(q));
    }
  }

  lemma {:induction false} LoadCons(x: nat, c: nat, q: seq<nat>, a: seq<nat>, j: nat)
    requires |a| == |q|
    ensures Load([x] + q, [c] + a, j) == Load(q, a, j) + if c == j then x else 0
  {
    if q == [] {
      assert Init([x] + q) == [] && Init([c] + a) == [];
    } else {
      LoadCons(x, c, Init(q), Init(a), j);
      assert Init([x] + q) == [x] + Init(q) && Init([c] + a) == [c] + Init(a);
    }
  }

  // The worker the greedy rule picks carries at most the average of what is already placed.
  lemma {:induction false} LeastIsBelowAverage(q: seq<nat>, m: nat)
    requires m > 0
    ensures var a := Greedy(q, m);
            m * Load(q, a, LeastLoaded(Loads(q, a, m))) <= Sum(q)
  {
    var l := Loads(q, Greedy(q, m), m);
    LoadsConserve(q, Greedy(q, m), m);
    SumAtLeast(l, l[LeastLoaded(l)]);
  }

  lemma Distribute(a: nat, b: nat, c: nat)
    ensures a * (b + c) == a * b + a * c
  {
  }

  lemma {:induction false} AverageStep(m: nat, least: nat, x: nat, placed: nat, unit: nat)
    requires m > 0 && m * least <= placed && x <= unit
    ensures m * (least + x) <= placed + x + (m - 1) * unit
  {
    Distribute(m, least, x);
    MulMonotone(x, unit, m - 1);
    assert m * x == (m - 1) * x + x;
  }

  // Graham's bound for any queue order: no worker exceeds the average by more than (m-1)/m units.
  lemma {:induction false} ListSchedulingBound(q: seq<nat>, m: nat, unit: nat, j: nat)
    requires m > 0 && j < m
    requires forall i :: 0 <= i < |q| ==> q[i] <= unit
    ensures m * Load(q, Greedy(q, m), j) <= Sum(q) + (m - 1) * unit
  {
    var l := Load(q, Greedy(q, m), j);
    if q == [] {
      MulMonotone(0, unit, m - 1);
    } else {
      var x, l0 := Last(q), Load(Init(q), Greedy(Init(q), m), j);
      ListSchedulingBound(Init(q), m, unit, j);
      if Last(Greedy(q, m)) == j {
        LeastIsBelowAverage(Init(q), m);
        assert l == l0 + x;
        AverageStep(m, l0, x, Sum(Init(q)), unit);
      } else {
        assert l == l0;
      }
    }
  }

  // ---- longest first: the 4/3 bound ----

  ghost predicate LongestFirst(q: seq<nat>) {
    forall i, j :: 0 <= i < j < |q| ==> q[j] <= q[i]
  }

  // A unit that leaves no room for one more of size `x` under `opt` counts twice.
  function Score(y: nat, x: nat, opt: nat): nat {
    if y + x > opt then 2 else 1
  }

  function Scores(q: seq<nat>, x: nat, opt: nat): seq<nat> {
    seq(|q|, i requires 0 <= i < |q| => Score(q[i], x, opt))
  }

  // When every unit exceeds a third of `opt`, a worker's score says how full it is.
  lemma {:induction false} ScoreVersusLoad(q: seq<nat>, a: seq<nat>, j: nat, x: nat, opt: nat)
    requires |a| == |q| && x <= opt < 3 * x
    requires forall i :: 0 <= i < |q| ==> x <= q[i]
    ensures var s, l := Load(Scores(q, x, opt), a, j), Load(q, a, j);
            && (s <= 1 ==> l + x <= opt)
            && (s >= 1 ==> l >= x)
            && (s >= 2 ==> l + x > opt)
            && (s >= 3 ==> l > opt)
            && (s == 0 ==> l == 0)
  {
    if q != [] {
      ScoreVersusLoad(Init(q), Init(a), j, x, opt);
      assert Init(Scores(q, x, opt)) == Scores(Init(q), x, opt);
    }
  }

  // If some assignment fits everything under `opt` < 3x, the greedy rule has room for the last unit.
  lemma {:induction false} RoomForLargeUnit(q: seq<nat>, x: nat, b: seq<nat>, m: nat, opt: nat)
    requires m > 0 && Assigns(b, q + [x], m) && opt < 3 * x
    requires forall i :: 0 <= i < |q| ==> x <= q[i]
    requires forall j :: 0 <= j < m ==> Load(q + [x], b, j) <= opt
    ensures Load(q, Greedy(q, m), LeastLoaded(Loads(q, Greedy(q, m), m))) + x <= opt
  {
    var all := q + [x];
    assert Load(all, b, Last(b)) >= x;
    var byOther := Loads(Scores(all, x, opt), b, m);
    forall j | 0 <= j < m ensures byOther[j] <= 2 {
      ScoreVersusLoad(all, b, j, x, opt);
    }
    LoadsConserve(Scores(all, x, opt), b, m);
    SumAtMost(byOther, 2);
    assert Init(Scores(all, x, opt)) == Scores(q, x, opt);
    var a := Greedy(q, m);
    var byGreedy := Loads(Scores(q, x, opt), a, m);
    LoadsConserve(Scores(q, x, opt), a, m);
    if forall j :: 0 <= j < m ==> 2 <= byGreedy[j] {
      SumAtLeast(byGreedy, 2);
      assert false;
    }
    var j :| 0 <= j < m && byGreedy[j] <= 1;
    ScoreVersusLoad(q, a, j, x, opt);
    assert Load(q, a, j) == Loads(q, a, m)[j];
  }

  lemma {:induction false} FourThirdsArithmetic(m: nat, least: nat, x: nat, placed: nat, opt: nat)
    requires m > 0 && m * least <= placed && placed + x <= m * opt && 3 * x <= opt
    ensures 3 * m * (least + x) <= (4 * m - 1) * opt
  {
    Distribute(m, least, x);
    MulMonotone(3 * x, opt, m - 1);
    var ml, mx, mo := m * least, m * x, m * opt;
    assert (m - 1) * (3 * x) == 3 * mx - 3 * x;
    assert (m - 1) * opt == mo - opt;
    assert (4 * m - 1) * opt == 4 * mo - opt;
    assert 3 * m * (least + x) == 3 * (m * (least + x));
  }

  lemma WithinOpt(m: nat, l: nat, opt: nat)
    requires m > 0 && l <= opt
    ensures 3 * m * l <= (4 * m - 1) * opt
  {
    MulMonotone(l, opt, m);
    var (ml, mo) := (m * l, m * opt);
    assert (m - 1) * opt == mo - opt;
    assert (4 * m - 1) * opt == 4 * mo - opt;
    assert 3 * m * l == 3 * ml;
  }

  lemma {:induction false} TotalWithin(q: seq<nat>, b: seq<nat>, m: nat, opt: nat)
    requires Assigns(b, q, m)
    requires forall k :: 0 <= k < m ==> Load(q, b, k) <= opt
    ensures Sum(q) <= m * opt
  {
    LoadsConserve(q, b, m);
    SumAtMost(Loads(q, b, m), opt);
  }

  // Placing the shortest unit so far: either it is short, or few units fit on any worker.
  lemma {:induction false} LongestFirstStep(q: seq<nat>, x: nat, b: seq<nat>, m: nat, opt: nat)
    requires m > 0 && Assigns(b, q + [x], m) && LongestFirst(q + [x])
    requires forall k :: 0 <= k < m ==> Load(q + [x], b, k) <= opt
    ensures var a := Greedy(q, m);
            3 * m * (Load(q, a, LeastLoaded(Loads(q, a, m))) + x) <= (4 * m - 1) * opt
  {
    var least := Load(q, Greedy(q, m), LeastLoaded(Loads(q, Greedy(q, m), m)));
    if 3 * x <= opt {
      ShortUnitStep(q, x, b, m, opt);
    } else {
      assert forall i :: 0 <= i < |q| ==> (q + [x])[i] == q[i] && x == (q + [x])[|q|];
      RoomForLargeUnit(q, x, b, m, opt);
      WithinOpt(m, least + x, opt);
    }
  }

  lemma {:induction false} ShortUnitStep(q: seq<nat>, x: nat, b: seq<nat>, m: nat, opt: nat)
    requires m > 0 && Assigns(b, q + [x], m) && 3 * x <= opt
    requires forall k :: 0 <= k < m ==> Load(q + [x], b, k) <= opt
    ensures var a := Greedy(q, m);
            3 * m * (Load(q, a, LeastLoaded(Loads(q, a, m))) + x) <= (4 * m - 1) * opt
  {
    LeastIsBelowAverage(q, m);
    TotalWithin(q + [x], b, m, opt);
    SumSnoc(q, x);
    FourThirdsArithmetic(m, Load(q, Greedy(q, m), LeastLoaded(Loads(q, Greedy(q, m), m))), x, Sum(q), opt);
  }

  // Longest-first list scheduling against any assignment `b` whose loads stay within `opt`.
  lemma {:induction false} LongestFirstBound(q: seq<nat>, b: seq<nat>, m: nat, opt: nat, j: nat)
    requires m > 0 && j < m && Assigns(b, q, m) && LongestFirst(q)
    requires forall k :: 0 <= k < m ==> Load(q, b, k) <= opt
    ensures 3 * m * Load(q, Greedy(q, m), j) <= (4 * m - 1) * opt
  {
    var l := Load(q, Greedy(q, m), j);
    if q == [] {
      WithinOpt(m, 0, opt);
    } else {
      var x, q0 := Last(q), Init(q);
      assert q == q0 + [x];
      if Last(Greedy(q, m)) == j {
        LongestFirstStep(q0, x, b, m, opt);
        assert l == Load(q0, Greedy(q0, m), j) + x;
      } else {
        assert forall k :: 0 <= k < m ==> Load(q0, Init(b), k) <= Load(q, b, k);
        LongestFirstBound(q0, Init(b), m, opt, j);
        assert l == Load(q0, Greedy(q0, m), j);
      }
    }
  }

  // ---- reordering a queue of named units ----

  function Weigh<T>(s: seq<T>, w: T -> nat): (q: seq<nat>)
    ensures |q| == |s|
  {
    seq<nat>(|s|, i requires 0 <= i < |s| => w(s[i]))
  }

  lemma {:induction false} WeighedLoadCons<T>(x: T, s: seq<T>, w: T -> nat, p: T -> nat, j: nat)
    ensures Load(Weigh([x] + s, w), Weigh([x] + s, p), j) ==
            Load(Weigh(s, w), Weigh(s, p), j) + if p(x) == j then w(x) else 0
  {
    assert Weigh([x] + s, w) == [w(x)] + Weigh(s, w) && Weigh([x] + s, p) == [p(x)] + Weigh(s, p);
    LoadCons(w(x), p(x), Weigh(s, w), Weigh(s, p), j);
  }

  lemma {:induction false} LoadInsert<T>(le: (T, T) -> bool, x: T, s: seq<T>, w: T -> nat, p: T -> nat, j: nat)
    ensures var t, u := StableSort.Insert(le, x, s), [x] + s;
            Load(Weigh(t, w), Weigh(t, p), j) == Load(Weigh(u, w), Weigh(u, p), j)
  {
    if s != [] && !le(x, s[0]) {
      assert s == [s[0]] + s[1..];
      LoadInsert(le, x, s[1..], w, p, j);
      WeighedLoadCons(s[0], StableSort.Insert(le, x, s[1..]), w, p, j);
      WeighedLoadCons(x, s[1..], w, p, j);
      WeighedLoadCons(x, s, w, p, j);
      WeighedLoadCons(s[0], s[1..], w, p, j);
    }
  }

  // An assignment that goes by the units themselves loads a worker the same in any order.
  lemma {:induction false} LoadSorted<T>(le: (T, T) -> bool, s: seq<T>, w: T -> nat, p: T -> nat, j: nat)
    ensures var t := StableSort.Sorted(le, s);
            Load(Weigh(t, w), Weigh(t, p), j) == Load(Weigh(s, w), Weigh(s, p), j)
  {
    if s != [] {
      assert s == [s[0]] + s[1..];
      LoadSorted(le, s[1..], w, p, j);
      LoadInsert(le, s[0], StableSort.Sorted(le, s[1..]), w, p, j);
      WeighedLoadCons(s[0], StableSort.Sorted(le, s[1..]), w, p, j);
      WeighedLoadCons(s[0], s[1..], w, p, j);
    }
  }
}
