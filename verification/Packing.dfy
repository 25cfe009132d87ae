/** The static partition of `benchmarks/harness/analyse_bins.py`: whole modules heaviest first, a
    module above the split cap item by item, each unit to the first least-loaded worker. */
module Packing {
  import opened Prelude
  import ListScheduling
  import StableSort
  import AnalyseBins

  type Weights = map<string, nat>

  function Weight(weights: Weights, id: string): nat {
    if id in weights then weights[id] else 0
  }

  function WeightOf(weights: Weights, ids: seq<string>): nat {
    if ids == [] then 0 else WeightOf(weights, Init(ids)) + Weight(weights, Last(ids))
  }

  // A module and its items, in the order they were collected.
  datatype Module = Module(key: string, members: seq<string>)

  function ModuleKeyOf(): Module -> string {
    (x: Module) => x.key
  }

  // `groups.setdefault(locality_key(cid), []).append(cid)`
  function Join(modules: seq<Module>, id: string): seq<Module> {
    var i := IndexOf(ModuleKeyOf(), modules, AnalyseBins.LocalityKey(id));
    if i == |modules| then modules + [Module(AnalyseBins.LocalityKey(id), [id])]
    else modules[i := modules[i].(members := modules[i].members + [id])]
  }

  function Modules(items: seq<string>): seq<Module> {
    if items == [] then [] else Join(Modules(Init(items)), Last(items))
  }

  // Python's `int()`: towards zero.
  function Truncated(x: real): int {
    if x >= 0.0 then x.Floor else -((-x).Floor)
  }

  function SplitCap(total: nat, workers: nat, threshold: real): int
    requires workers > 0
  {
    Truncated((total as real / workers as real) * threshold)
  }

  // Code-point order of strings.
  predicate AtMost(a: string, b: string) {
    a == [] || (b != [] && (a[0] < b[0] || (a[0] == b[0] && AtMost(a[1..], b[1..]))))
  }

  // Heaviest module first, names in order among equals.
  function HeavierModule(weights: Weights): (Module, Module) -> bool {
    (a: Module, b: Module) =>
      var x, y := WeightOf(weights, a.members), WeightOf(weights, b.members);
      x > y || (x == y && AtMost(a.key, b.key))
  }

  function HeavierId(weights: Weights): (string, string) -> bool {
    (a: string, b: string) => Weight(weights, a) >= Weight(weights, b)
  }

  predicate Splits(weights: Weights, m: Module, cap: int) {
    WeightOf(weights, m.members) > cap && |m.members| > 1 && cap > 0
  }

  function Singles(ids: seq<string>): (r: seq<seq<string>>)
    ensures |r| == |ids|
  {
    seq(|ids|, i requires 0 <= i < |ids| => [ids[i]])
  }

  // The units a module is handed out in.
  function UnitsOf(weights: Weights, m: Module, cap: int): seq<seq<string>> {
    if Splits(weights, m, cap) then Singles(StableSort.Sorted(HeavierId(weights), m.members)) else [m.members]
  }

  function Units(weights: Weights, modules: seq<Module>, cap: int): seq<seq<string>> {
    if modules == [] then []
    else Units(weights, Init(modules), cap) + UnitsOf(weights, Last(modules), cap)
  }

  function UnitWeights(weights: Weights, units: seq<seq<string>>): (q: seq<nat>)
    ensures |q| == |units|
  {
    seq(|units|, i requires 0 <= i < |units| => WeightOf(weights, units[i]))
  }

  // The units assignment `a` gives to worker `j`, end to end.
  function Bin(units: seq<seq<string>>, a: seq<nat>, j: nat): seq<string>
    requires |a| == |units|
  {
    if units == [] then []
    else Bin(Init(units), Init(a), j) + if Last(a) == j then Last(units) else []
  }

  function Bins(units: seq<seq<string>>, a: seq<nat>, workers: nat): (bins: seq<seq<string>>)
    requires |a| == |units|
    ensures |bins| == workers
  {
    seq(workers, j requires 0 <= j < workers => Bin(units, a, j))
  }

  function Placed(weights: Weights, units: seq<seq<string>>, workers: nat): (bins: seq<seq<string>>)
    requires workers > 0
    ensures |bins| == workers
  {
    Bins(units, ListScheduling.Greedy(UnitWeights(weights, units), workers), workers)
  }

  function PlacedLoads(weights: Weights, units: seq<seq<string>>, workers: nat): seq<nat>
    requires workers > 0
  {
    ListScheduling.GreedyLoads(UnitWeights(weights, units), workers)
  }

  // The queue of units for a list of collected items.
  function PackUnits(items: seq<string>, weights: Weights, workers: nat, threshold: real): seq<seq<string>>
    requires workers > 0
  {
    var ordered := StableSort.Sorted(HeavierModule(weights), Modules(items));
    Units(weights, ordered, SplitCap(WeightOf(weights, items), workers, threshold))
  }

  method Gather(items: seq<string>) returns (groups: seq<Module>)
    ensures groups == Modules(items)
  {
    groups := [];
    for i := 0 to |items|
      invariant groups == Modules(items[..i])
    {
      assert Init(items[..i + 1]) == items[..i];
      var key := AnalyseBins.LocalityKey(items[i]);
      var g := IndexOf(ModuleKeyOf(), groups, key);
      if g == |groups| {
        groups := groups + [Module(key, [])];
        assert [] + [items[i]] == [items[i]];
      }
      groups := groups[g := groups[g].(members := groups[g].members + [items[i]])];
    }
    assert items[..|items|] == items;
  }

  // Bins and loads as greedy placing of the units leaves them.
  ghost predicate HoldsPlaced(
      weights: Weights, units: seq<seq<string>>, workers: nat, bins: seq<seq<string>>, load: seq<nat>)
    requires workers > 0
  {
    bins == Placed(weights, units, workers) && load == PlacedLoads(weights, units, workers)
  }

  // One more unit, wholly in the least-loaded bin.
  lemma {:induction false} PlaceOne(weights: Weights, units: seq<seq<string>>, u: seq<string>, workers: nat,
                                    bins: seq<seq<string>>, load: seq<nat>, w: nat)
    requires workers > 0 && HoldsPlaced(weights, units, workers, bins, load) && w == ListScheduling.LeastLoaded(load)
    ensures w < |bins| == |load| == workers
    ensures HoldsPlaced(weights, units + [u], workers,
                        bins[w := bins[w] + u], load[w := load[w] + WeightOf(weights, u)])
  {
    PlaceUnit(weights, units, u, workers);
  }

  // One item to the bin that is least loaded now.
  method PlaceItem(id: string, weights: Weights, workers: nat, ghost units: seq<seq<string>>,
                   bins0: seq<seq<string>>, load0: seq<nat>)
      returns (bins: seq<seq<string>>, load: seq<nat>)
    requires workers > 0
    requires HoldsPlaced(weights, units, workers, bins0, load0)
    ensures HoldsPlaced(weights, units + [[id]], workers, bins, load)
  {
    var w := ListScheduling.LeastLoaded(load0);
    PlaceOne(weights, units, [id], workers, bins0, load0, w);
    WeightOfOne(weights, id);
    bins := bins0[w := bins0[w] + [id]];
    load := load0[w := load0[w] + Weight(weights, id)];
  }

  // One module's items, each to the bin that is least loaded when its turn comes.
  method PlaceApart(queue: seq<string>, weights: Weights, workers: nat, ghost units: seq<seq<string>>,
                    bins0: seq<seq<string>>, load0: seq<nat>)
      returns (bins: seq<seq<string>>, load: seq<nat>)
    requires workers > 0
    requires HoldsPlaced(weights, units, workers, bins0, load0)
    ensures HoldsPlaced(weights, units + Singles(queue), workers, bins, load)
  {
    bins, load := bins0, load0;
    SinglesStep(units, queue, 0);
    for k := 0 to |queue|
      invariant HoldsPlaced(weights, WithSingles(units, queue, k), workers, bins, load)
    {
      bins, load := PlaceItem(queue[k], weights, workers, WithSingles(units, queue, k), bins, load);
      SinglesStep(units, queue, k);
    }
    SinglesStep(units, queue, |queue|);
  }

  ghost function WithSingles(units: seq<seq<string>>, queue: seq<string>, k: nat): seq<seq<string>>
    requires k <= |queue|
  {
    units + Singles(queue)[..k]
  }

  lemma {:induction false} SinglesStep(units: seq<seq<string>>, queue: seq<string>, k: nat)
    requires k <= |queue|
    ensures WithSingles(units, queue, 0) == units && WithSingles(units, queue, |queue|) == units + Singles(queue)
    ensures k < |queue| ==> WithSingles(units, queue, k + 1) == WithSingles(units, queue, k) + [[queue[k]]]
  {
  }

  // One module's items, all to the bin that is least loaded now.
  method PlaceTogether(members: seq<string>, weights: Weights, workers: nat, ghost units: seq<seq<string>>,
                       bins0: seq<seq<string>>, load0: seq<nat>)
      returns (bins: seq<seq<string>>, load: seq<nat>)
    requires workers > 0
    requires HoldsPlaced(weights, units, workers, bins0, load0)
    ensures HoldsPlaced(weights, units + [members], workers, bins, load)
  {
    var w := ListScheduling.LeastLoaded(load0);
    PlaceOne(weights, units, members, workers, bins0, load0, w);
    bins, load := AppendAll(members, weights, w, bins0, load0);
  }

  method AppendAll(members: seq<string>, weights: Weights, w: nat, bins0: seq<seq<string>>, load0: seq<nat>)
      returns (bins: seq<seq<string>>, load: seq<nat>)
    requires w < |bins0| == |load0|
    ensures bins == bins0[w := bins0[w] + members]
    ensures load == load0[w := load0[w] + WeightOf(weights, members)]
  {
    bins, load := bins0, load0;
    for k := 0 to |members|
      invariant |bins| == |bins0| && |load| == |load0|
      invariant bins == bins0[w := bins[w]] && bins[w] == bins0[w] + members[..k]
      invariant load == load0[w := load[w]] && load[w] == load0[w] + WeightOf(weights, members[..k])
    {
      assert Init(members[..k + 1]) == members[..k];
      bins := bins[w := bins[w] + [members[k]]];
      load := load[w := load[w] + Weight(weights, members[k])];
    }
    assert members[..|members|] == members;
  }

  lemma {:induction false} UnitsStep(weights: Weights, ordered: seq<Module>, i: nat, cap: int)
    requires i < |ordered|
    ensures var (units, members) := (Units(weights, ordered[..i], cap), ordered[i].members);
            Units(weights, ordered[..i + 1], cap) == units
              + if WeightOf(weights, members) > cap && |members| > 1 && cap > 0
                then Singles(StableSort.Sorted(HeavierId(weights), members))
                else [members]
  {
    assert Init(ordered[..i + 1]) == ordered[..i];
  }

  method Pack(items: seq<string>, weights: Weights, workers: nat, threshold: real)
      returns (bins: seq<seq<string>>)
    requires workers > 0
    // `items` and `weights` are the same dictionary's keys
    requires NoRepeats(items) && weights.Keys == set id | id in items
    ensures bins == Placed(weights, PackUnits(items, weights, workers, threshold), workers)
  {
    var groups := Gather(items);
    var cap := SplitCap(WeightOf(weights, items), workers, threshold);
    var ordered := StableSort.Sorted(HeavierModule(weights), groups);
    bins := seq(workers, _ => []);
    var load: seq<nat> := seq(workers, _ => 0);
    for i := 0 to |ordered|
      invariant HoldsPlaced(weights, Units(weights, ordered[..i], cap), workers, bins, load)
    {
      var members := ordered[i].members;
      ghost var units := Units(weights, ordered[..i], cap);
      UnitsStep(weights, ordered, i, cap);
      if WeightOf(weights, members) > cap && |members| > 1 && cap > 0 {
        bins, load := PlaceApart(StableSort.Sorted(HeavierId(weights), members), weights, workers, units, bins, load);
      } else {
        bins, load := PlaceTogether(members, weights, workers, units, bins, load);
      }
    }
    assert ordered[..|ordered|] == ordered;
  }

  // Placing one more unit extends the least-loaded bin, and its load, by that unit.
  lemma {:induction false} PlaceUnit(weights: Weights, units: seq<seq<string>>, u: seq<string>, workers: nat)
    requires workers > 0
    ensures var load, bins := PlacedLoads(weights, units, workers), Placed(weights, units, workers);
            var w := ListScheduling.LeastLoaded(load);
            && PlacedLoads(weights, units + [u], workers) == load[w := load[w] + WeightOf(weights, u)]
            && Placed(weights, units + [u], workers) == bins[w := bins[w] + u]
  {
    var q, x := UnitWeights(weights, units), WeightOf(weights, u);
    UnitWeightsSnoc(weights, units, u);
    PlaceWeight(q, x, workers);
    var w := ListScheduling.LeastLoaded(ListScheduling.GreedyLoads(q, workers));
    BinsSnoc(units, ListScheduling.Greedy(q, workers), u, w, workers);
  }

  lemma {:induction false} PlaceWeight(q: seq<nat>, x: nat, workers: nat)
    requires workers > 0
    ensures var load := ListScheduling.GreedyLoads(q, workers);
            var w := ListScheduling.LeastLoaded(load);
            && ListScheduling.Greedy(q + [x], workers) == ListScheduling.Greedy(q, workers) + [w]
            && ListScheduling.GreedyLoads(q + [x], workers) == load[w := load[w] + x]
  {
    ListScheduling.GreedySnoc(q, x, workers);
  }

  lemma {:induction false} UnitWeightsSnoc(weights: Weights, units: seq<seq<string>>, u: seq<string>)
    ensures UnitWeights(weights, units + [u]) == UnitWeights(weights, units) + [WeightOf(weights, u)]
  {
  }

  lemma {:induction false} BinsSnoc(units: seq<seq<string>>, a: seq<nat>, u: seq<string>, w: nat, workers: nat)
    requires |a| == |units| && w < workers
    ensures Bins(units + [u], a + [w], workers) ==
            Bins(units, a, workers)[w := Bins(units, a, workers)[w] + u]
  {
    assert Init(units + [u]) == units && Init(a + [w]) == a;
    var after, before := Bins(units + [u], a + [w], workers), Bins(units, a, workers);
    forall j | 0 <= j < workers ensures after[j] == before[w := before[w] + u][j] {
      assert after[j] == Bin(units, a, j) + if w == j then u else [];
    }
  }

  lemma {:induction false} WeightOfOne(weights: Weights, id: string)
    ensures WeightOf(weights, [id]) == Weight(weights, id)
  {
    assert Init([id]) == [];
  }

  // ---- load_ is the weight of the bins ----

  lemma {:induction false} WeightConcat(weights: Weights, s: seq<string>, t: seq<string>)
    ensures WeightOf(weights, s + t) == WeightOf(weights, s) + WeightOf(weights, t)
  {
    if t == [] {
      assert s + t == s;
    } else {
      WeightConcat(weights, s, Init(t));
      assert Init(s + t) == s + Init(t);
    }
  }

  lemma {:induction false} LoadIsBinWeight(weights: Weights, units: seq<seq<string>>, a: seq<nat>, j: nat)
    requires |a| == |units|
    ensures WeightOf(weights, Bin(units, a, j)) == ListScheduling.Load(UnitWeights(weights, units), a, j)
  {
    if units != [] {
      LoadIsBinWeight(weights, Init(units), Init(a), j);
      assert Init(UnitWeights(weights, units)) == UnitWeights(weights, Init(units));
      WeightConcat(weights, Bin(Init(units), Init(a), j), if Last(a) == j then Last(units) else []);
    }
  }

  // ---- every item in exactly one bin ----

  function Flatten(bins: seq<seq<string>>): seq<string> {
    if bins == [] then [] else Flatten(Init(bins)) + Last(bins)
  }

  lemma {:induction false} FlattenExtend(bins: seq<seq<string>>, w: nat, u: seq<string>)
    requires w < |bins|
    ensures multiset(Flatten(bins[w := bins[w] + u])) == multiset(Flatten(bins)) + multiset(u)
  {
    var r := bins[w := bins[w] + u];
    if w == |bins| - 1 {
      assert Init(r) == Init(bins);
      SumsAssociate(multiset(Flatten(Init(bins))), multiset(bins[w]), multiset(u));
    } else {
      assert Init(r) == Init(bins)[w := bins[w] + u];
      FlattenExtend(Init(bins), w, u);
      SumsSwap(multiset(Flatten(Init(bins))), multiset(u), multiset(Last(bins)));
    }
  }

  lemma {:induction false} FlattenEmpty(bins: seq<seq<string>>)
    requires forall j :: 0 <= j < |bins| ==> bins[j] == []
    ensures Flatten(bins) == []
  {
    if bins != [] {
      FlattenEmpty(Init(bins));
    }
  }

  lemma {:induction false} BinsHoldUnits(weights: Weights, units: seq<seq<string>>, workers: nat)
    requires workers > 0
    ensures multiset(Flatten(Placed(weights, units, workers))) == multiset(Flatten(units))
  {
    if units == [] {
      FlattenEmpty(Placed(weights, units, workers));
    } else {
      BinsHoldUnits(weights, Init(units), workers);
      PlaceUnit(weights, Init(units), Last(units), workers);
      assert units == Init(units) + [Last(units)];
      FlattenExtend(Placed(weights, Init(units), workers),
                    ListScheduling.LeastLoaded(PlacedLoads(weights, Init(units), workers)), Last(units));
    }
  }

  function Members(modules: seq<Module>): multiset<string> {
    if modules == [] then multiset{} else Members(Init(modules)) + multiset(Last(modules).members)
  }

  lemma {:induction false} MembersJoin(modules: seq<Module>, id: string)
    ensures Members(Join(modules, id)) == Members(modules) + multiset{id}
  {
    var i := IndexOf(ModuleKeyOf(), modules, AnalyseBins.LocalityKey(id));
    if i == |modules| {
      assert Init(Join(modules, id)) == modules;
    } else {
      MembersExtend(modules, i, id);
    }
  }

  lemma {:induction false} MembersExtend(modules: seq<Module>, i: nat, id: string)
    requires i < |modules|
    ensures Members(modules[i := modules[i].(members := modules[i].members + [id])])
         == Members(modules) + multiset{id}
  {
    var m := modules[i].(members := modules[i].members + [id]);
    if i == |modules| - 1 {
      assert Init(modules[i := m]) == Init(modules) && Last(modules[i := m]) == m;
      assert multiset(m.members) == multiset(modules[i].members) + multiset{id};
      SumsAssociate(Members(Init(modules)), multiset(modules[i].members), multiset{id});
    } else {
      MembersExtend(Init(modules), i, id);
      ExtendBeforeLast(modules, i, m, id);
    }
  }

  lemma {:induction false} ExtendBeforeLast(modules: seq<Module>, i: nat, m: Module, id: string)
    requires i < |modules| - 1 && Members(Init(modules)[i := m]) == Members(Init(modules)) + multiset{id}
    ensures Members(modules[i := m]) == Members(modules) + multiset{id}
  {
    assert Init(modules[i := m]) == Init(modules)[i := m] && Last(modules[i := m]) == Last(modules);
    SumsSwap(Members(Init(modules)), multiset{id}, multiset(Last(modules).members));
  }

  lemma {:induction false} ModulesHoldItems(items: seq<string>)
    ensures Members(Modules(items)) == multiset(items)
  {
    if items != [] {
      ModulesHoldItems(Init(items));
      MembersJoin(Modules(Init(items)), Last(items));
      MultisetSnoc(items);
    }
  }

  lemma {:induction false} MembersConcat(s: seq<Module>, t: seq<Module>)
    ensures Members(s + t) == Members(s) + Members(t)
  {
    if t == [] {
      assert s + t == s;
    } else {
      MembersConcat(s, Init(t));
      assert Init(s + t) == s + Init(t);
      SumsAssociate(Members(s), Members(Init(t)), multiset(Last(t).members));
    }
  }

  lemma {:induction false} SumsAssociate(a: multiset<string>, b: multiset<string>, c: multiset<string>)
    ensures (a + b) + c == a + (b + c)
  {
  }

  lemma {:induction false} SumsSwap(a: multiset<string>, b: multiset<string>, c: multiset<string>)
    ensures (a + b) + c == (a + c) + b
  {
  }

  lemma {:induction false} MembersInsert(le: (Module, Module) -> bool, x: Module, s: seq<Module>)
    ensures Members(StableSort.Insert(le, x, s)) == multiset(x.members) + Members(s)
  {
    assert Members([x]) == multiset(x.members) by {
      assert Init([x]) == [];
    }
    if s == [] || le(x, s[0]) {
      MembersConcat([x], s);
    } else {
      assert s == [s[0]] + s[1..];
      MembersInsert(le, x, s[1..]);
      MembersConcat([s[0]], StableSort.Insert(le, x, s[1..]));
      MembersConcat([s[0]], s[1..]);
    }
  }

  lemma {:induction false} MembersSorted(le: (Module, Module) -> bool, s: seq<Module>)
    ensures Members(StableSort.Sorted(le, s)) == Members(s)
  {
    if s != [] {
      assert s == [s[0]] + s[1..];
      MembersSorted(le, s[1..]);
      MembersInsert(le, s[0], StableSort.Sorted(le, s[1..]));
      MembersConcat([s[0]], s[1..]);
      assert Init([s[0]]) == [];
    }
  }

  lemma {:induction false} FlattenConcat(s: seq<seq<string>>, t: seq<seq<string>>)
    ensures Flatten(s + t) == Flatten(s) + Flatten(t)
  {
    if t == [] {
      assert s + t == s;
    } else {
      FlattenConcat(s, Init(t));
      assert Init(s + t) == s + Init(t);
    }
  }

  lemma {:induction false} FlattenSingles(ids: seq<string>)
    ensures Flatten(Singles(ids)) == ids
  {
    if ids != [] {
      FlattenSingles(Init(ids));
      assert Init(Singles(ids)) == Singles(Init(ids));
    }
  }

  lemma {:induction false} UnitsHoldMembers(weights: Weights, modules: seq<Module>, cap: int)
    ensures multiset(Flatten(Units(weights, modules, cap))) == Members(modules)
  {
    if modules != [] {
      var m := Last(modules);
      UnitsHoldMembers(weights, Init(modules), cap);
      FlattenConcat(Units(weights, Init(modules), cap), UnitsOf(weights, m, cap));
      if Splits(weights, m, cap) {
        FlattenSingles(StableSort.Sorted(HeavierId(weights), m.members));
        StableSort.SortedPermutes(HeavierId(weights), m.members);
      } else {
        assert Init([m.members]) == [];
      }
    }
  }

  // Every item lands in exactly one bin, once.
  lemma {:induction false} PackPartitions(items: seq<string>, weights: Weights, workers: nat, threshold: real)
    requires workers > 0
    ensures var bins := Placed(weights, PackUnits(items, weights, workers, threshold), workers);
            multiset(Flatten(bins)) == multiset(items)
  {
    var ordered := StableSort.Sorted(HeavierModule(weights), Modules(items));
    ModulesHoldItems(items);
    MembersSorted(HeavierModule(weights), Modules(items));
    UnitsHoldMembers(weights, ordered, SplitCap(WeightOf(weights, items), workers, threshold));
    BinsHoldUnits(weights, PackUnits(items, weights, workers, threshold), workers);
  }

  // ---- small modules stay whole ----

  // The items of one module, in collected order.
  function ItemsOf(items: seq<string>, key: string): seq<string> {
    if items == [] then []
    else ItemsOf(Init(items), key) + if AnalyseBins.LocalityKey(Last(items)) == key then [Last(items)] else []
  }

  lemma {:induction false} ModuleHoldsItems(items: seq<string>, key: string)
    ensures var i := IndexOf(ModuleKeyOf(), Modules(items), key);
            if i < |Modules(items)| then Modules(items)[i].members == ItemsOf(items, key) != []
            else ItemsOf(items, key) == []
  {
    if items != [] {
      var modules := Modules(Init(items));
      ModuleHoldsItems(Init(items), key);
      var i, r := IndexOf(ModuleKeyOf(), modules, key), Modules(items);
      if i < |modules| {
        assert r[i].key == key;
        assert IndexOf(ModuleKeyOf(), r, key) == i;
      } else if AnalyseBins.LocalityKey(Last(items)) == key {
        assert r[i].key == key;
        assert IndexOf(ModuleKeyOf(), r, key) == i;
      }
    }
  }

  lemma {:induction false} UnitStaysWhole(units: seq<seq<string>>, a: seq<nat>, i: nat)
    requires i < |units| == |a|
    ensures exists before, after :: Bin(units, a, a[i]) == before + units[i] + after
  {
    if i == |units| - 1 {
      var before := Bin(Init(units), Init(a), a[i]);
      assert Bin(units, a, a[i]) == before + units[i] + [];
    } else {
      UnitStaysWhole(Init(units), Init(a), i);
      var before, after :| Bin(Init(units), Init(a), a[i]) == before + units[i] + after;
      var more := if Last(a) == a[i] then Last(units) else [];
      assert Bin(units, a, a[i]) == before + units[i] + (after + more);
    }
  }

  lemma {:induction false} WholeModuleIsUnit(weights: Weights, modules: seq<Module>, m: Module, cap: int)
    requires m in modules && !Splits(weights, m, cap)
    ensures m.members in Units(weights, modules, cap)
  {
    if m != Last(modules) {
      assert m in Init(modules);
      WholeModuleIsUnit(weights, Init(modules), m, cap);
    }
  }

  // A module at or below the cap is never split: one bin holds its items, together and in order.
  lemma {:induction false} PackKeepsSmallModulesWhole(items: seq<string>, weights: Weights, workers: nat,
                                                      threshold: real, key: string)
    requires workers > 0
    requires WeightOf(weights, ItemsOf(items, key)) <= SplitCap(WeightOf(weights, items), workers, threshold)
    ensures var bins := Placed(weights, PackUnits(items, weights, workers, threshold), workers);
            exists j, before, after :: 0 <= j < workers && bins[j] == before + ItemsOf(items, key) + after
  {
    var units := PackUnits(items, weights, workers, threshold);
    var bins := Placed(weights, units, workers);
    var a := ListScheduling.Greedy(UnitWeights(weights, units), workers);
    ModuleHoldsItems(items, key);
    var i := IndexOf(ModuleKeyOf(), Modules(items), key);
    if i == |Modules(items)| {
      assert bins[0] == bins[0] + ItemsOf(items, key) + [];
    } else {
      var ordered := StableSort.Sorted(HeavierModule(weights), Modules(items));
      StableSort.SortedPermutes(HeavierModule(weights), Modules(items));
      assert Modules(items)[i] in multiset(ordered);
      var cap := SplitCap(WeightOf(weights, items), workers, threshold);
      WholeModuleIsUnit(weights, ordered, Modules(items)[i], cap);
      var u :| 0 <= u < |units| && units[u] == ItemsOf(items, key);
      UnitStaysWhole(units, a, u);
      assert bins[a[u]] == Bin(units, a, a[u]);
    }
  }

  // ---- the order modules are placed in ----

  // `a` before `b` in code-point order: they part at a character that is less in `a`, or `a` ends first.
  ghost predicate IsBefore(a: string, b: string) {
    exists k: nat :: k <= |a| && k <= |b| && a[..k] == b[..k] && (k == |a| || (k < |b| && a[k] < b[k]))
  }

  lemma {:induction false} SameStart(a: string, b: string, k: nat)
    requires a != [] && b != [] && k <= |a| && k <= |b| && a[..k] == b[..k]
    ensures k > 0 ==> a[0] == b[0]
  {
    if k > 0 {
      assert a[..k][0] == a[0] && b[..k][0] == b[0];
    }
  }

  lemma {:induction false} AtMostIsBefore(a: string, b: string)
    ensures AtMost(a, b) <==> IsBefore(a, b)
  {
    if a == [] || b == [] {
      assert a[..0] == b[..0];
    } else if a[0] == b[0] {
      AtMostIsBefore(a[1..], b[1..]);
      if IsBefore(a[1..], b[1..]) {
        var k: nat :| k <= |a[1..]| && k <= |b[1..]| && a[1..][..k] == b[1..][..k]
                      && (k == |a[1..]| || (k < |b[1..]| && a[1..][k] < b[1..][k]));
        assert a[..k + 1] == [a[0]] + a[1..][..k] && b[..k + 1] == [b[0]] + b[1..][..k];
        assert IsBefore(a, b);
      }
      if IsBefore(a, b) {
        var k: nat :| k <= |a| && k <= |b| && a[..k] == b[..k] && (k == |a| || (k < |b| && a[k] < b[k]));
        assert k > 0;
        assert a[1..][..k - 1] == a[..k][1..] && b[1..][..k - 1] == b[..k][1..];
        assert IsBefore(a[1..], b[1..]);
      }
    } else {
      if IsBefore(a, b) {
        var k: nat :| k <= |a| && k <= |b| && a[..k] == b[..k] && (k == |a| || (k < |b| && a[k] < b[k]));
        SameStart(a, b, k);
      }
      if a[0] < b[0] {
        assert a[..0] == b[..0];
      }
    }
  }

  lemma {:induction false} AtMostIsTotal(a: string, b: string, c: string)
    ensures AtMost(a, b) || AtMost(b, a)
    ensures AtMost(a, b) && AtMost(b, c) ==> AtMost(a, c)
  {
    if a != [] && b != [] {
      AtMostIsTotal(a[1..], b[1..], if c == [] then [] else c[1..]);
    }
  }

  // Every module is placed, the heaviest first, in order of their keys among equals.
  lemma {:induction false} HeaviestModulesFirst(items: seq<string>, weights: Weights)
    ensures var q := StableSort.Sorted(HeavierModule(weights), Modules(items));
            && multiset(q) == multiset(Modules(items))
            && forall i, j :: 0 <= i < j < |q| ==>
                 var (x, y) := (WeightOf(weights, q[i].members), WeightOf(weights, q[j].members));
                 x > y || (x == y && IsBefore(q[i].key, q[j].key))
  {
    var le, q := HeavierModule(weights), StableSort.Sorted(HeavierModule(weights), Modules(items));
    forall a: Module, b: Module, c: Module
      ensures le(a, b) || le(b, a)
      ensures le(a, b) && le(b, c) ==> le(a, c)
    {
      AtMostIsTotal(a.key, b.key, c.key);
    }
    StableSort.SortedPermutes(le, Modules(items));
    StableSort.SortedInOrder(le, Modules(items));
    forall i, j | 0 <= i < j < |q|
      ensures var (x, y) := (WeightOf(weights, q[i].members), WeightOf(weights, q[j].members));
              x > y || (x == y && IsBefore(q[i].key, q[j].key))
    {
      assert le(q[i], q[j]);
      AtMostIsBefore(q[i].key, q[j].key);
    }
  }

  // And the items of a split module, the heaviest first, in collection order among equals.
  lemma {:induction false} HeaviestItemsFirst(ids: seq<string>, weights: Weights, weight: nat)
    ensures var q := StableSort.Sorted(HeavierId(weights), ids);
            && multiset(q) == multiset(ids)
            && (forall i, j :: 0 <= i < j < |q| ==> Weight(weights, q[i]) >= Weight(weights, q[j]))
            && Filter(OfWeight(weights, weight), q) == Filter(OfWeight(weights, weight), ids)
  {
    var q := StableSort.Sorted(HeavierId(weights), ids);
    StableSort.SortedPermutes(HeavierId(weights), ids);
    StableSort.SortedInOrder(HeavierId(weights), ids);
    StableSort.SortedIsStable(HeavierId(weights), OfWeight(weights, weight), ids);
    forall i, j | 0 <= i < j < |q|
      ensures Weight(weights, q[i]) >= Weight(weights, q[j])
    {
      assert HeavierId(weights)(q[i], q[j]);
    }
  }

  function OfWeight(weights: Weights, weight: nat): string -> bool {
    (id: string) => Weight(weights, id) == weight
  }

  // ---- when a module is split ----

  // `cap` whole units, and no more, fit into what is shared out among the workers.
  predicate IsShare(cap: int, workers: nat, shared: real) {
    cap as real * workers as real <= shared < (cap as real + 1.0) * workers as real
  }

  // The cap is the whole number of units in the threshold's multiple of a worker's even share.
  lemma {:induction false} CapIsShare(total: nat, workers: nat, threshold: real)
    requires workers > 0 && threshold >= 0.0
    ensures var cap := SplitCap(total, workers, threshold);
            cap >= 0 && IsShare(cap, workers, total as real * threshold)
  {
    var cap := SplitCap(total, workers, threshold);
    var share := total as real / workers as real * threshold;
    Shared(total as real, workers as real, threshold);
    assert cap == share.Floor && cap as real <= share < cap as real + 1.0;
    Scaled(cap as real, share, cap as real + 1.0, workers as real);
  }

  lemma {:induction false} Shared(n: real, w: real, threshold: real)
    requires w > 0.0 && n >= 0.0 && threshold >= 0.0
    ensures n / w * threshold >= 0.0 && n / w * threshold * w == n * threshold
  {
    assert n / w * w == n;
    assert n / w >= 0.0;
    assert n / w * threshold * w == n / w * w * threshold;
  }

  lemma {:induction false} Scaled(a: real, b: real, c: real, w: real)
    requires w > 0.0 && a <= b < c
    ensures a * w <= b * w < c * w
  {
  }

  // A module of several items, heavier than that, is handed out item by item.
  lemma {:induction false} HeavyModulesAreSplit(
      items: seq<string>, weights: Weights, workers: nat, threshold: real, m: Module, i: nat)
    requires workers > 0 && threshold >= 0.0 && m in Modules(items) && |m.members| > 1 && i < |m.members|
    requires IsAbove(WeightOf(weights, m.members), workers, WeightOf(weights, items) as real * threshold)
    ensures [m.members[i]] in PackUnits(items, weights, workers, threshold)
  {
    CapIsShare(WeightOf(weights, items), workers, threshold);
    CapBelow(SplitCap(WeightOf(weights, items), workers, threshold), WeightOf(weights, m.members), workers,
             WeightOf(weights, items) as real * threshold);
    QueueIsSplit(items, weights, workers, threshold, m, i);
  }

  lemma {:induction false} QueueIsSplit(
      items: seq<string>, weights: Weights, workers: nat, threshold: real, m: Module, i: nat)
    requires workers > 0 && m in Modules(items) && i < |m.members|
    requires Splits(weights, m, SplitCap(WeightOf(weights, items), workers, threshold))
    ensures [m.members[i]] in PackUnits(items, weights, workers, threshold)
  {
    var ordered := StableSort.Sorted(HeavierModule(weights), Modules(items));
    StableSort.SortedPermutes(HeavierModule(weights), Modules(items));
    assert m in multiset(Modules(items)) && m in multiset(ordered);
    SplitModuleIsSingles(weights, ordered, m, SplitCap(WeightOf(weights, items), workers, threshold), i);
  }

  // More than what is shared out gives each worker, which is at least one unit.
  predicate IsAbove(weight: nat, workers: nat, shared: real) {
    workers as real <= shared < weight as real * workers as real
  }

  lemma {:induction false} CapBelow(cap: nat, weight: nat, workers: nat, shared: real)
    requires workers > 0 && IsShare(cap, workers, shared) && IsAbove(weight, workers, shared)
    ensures 0 < cap < weight
  {
    RealMonotone(weight as real, cap as real, workers as real);
  }

  lemma {:induction false} RealMonotone(a: real, b: real, w: real)
    requires w > 0.0
    ensures a <= b ==> a * w <= b * w
  {
  }

  lemma {:induction false} SplitModuleIsSingles(weights: Weights, modules: seq<Module>, m: Module, cap: int, i: nat)
    requires m in modules && Splits(weights, m, cap) && i < |m.members|
    ensures [m.members[i]] in Units(weights, modules, cap)
  {
    if m == Last(modules) {
      var queue := StableSort.Sorted(HeavierId(weights), m.members);
      StableSort.SortedPermutes(HeavierId(weights), m.members);
      assert m.members[i] in multiset(queue);
      var k :| 0 <= k < |queue| && queue[k] == m.members[i];
      assert UnitsOf(weights, m, cap)[k] == [m.members[i]];
    } else {
      assert m in Init(modules);
      SplitModuleIsSingles(weights, Init(modules), m, cap, i);
    }
  }

  // ---- the bound on the heaviest bin ----

  function HeaviestItem(weights: Weights, items: seq<string>): nat {
    Max(seq(|items|, i requires 0 <= i < |items| => Weight(weights, items[i])))
  }

  lemma {:induction false} UnitWeighsAtMost(weights: Weights, modules: seq<Module>, cap: int, heaviest: nat, i: nat)
    requires cap > 0 && i < |Units(weights, modules, cap)|
    requires forall id :: id in Members(modules) ==> Weight(weights, id) <= heaviest
    ensures WeightOf(weights, Units(weights, modules, cap)[i]) <= if cap > heaviest then cap else heaviest
  {
    var m, earlier := Last(modules), Units(weights, Init(modules), cap);
    if i < |earlier| {
      UnitWeighsAtMost(weights, Init(modules), cap, heaviest, i);
    } else {
      assert forall id :: id in m.members ==> id in multiset(m.members) && id in Members(modules);
      UnitOfModuleWeighsAtMost(weights, m, cap, heaviest, i - |earlier|);
    }
  }

  lemma {:induction false} UnitOfModuleWeighsAtMost(weights: Weights, m: Module, cap: int, heaviest: nat, i: nat)
    requires cap > 0 && i < |UnitsOf(weights, m, cap)|
    requires forall id :: id in m.members ==> Weight(weights, id) <= heaviest
    ensures WeightOf(weights, UnitsOf(weights, m, cap)[i]) <= if cap > heaviest then cap else heaviest
  {
    if Splits(weights, m, cap) {
      var queue := StableSort.Sorted(HeavierId(weights), m.members);
      StableSort.SortedPermutes(HeavierId(weights), m.members);
      assert queue[i] in multiset(queue) && queue[i] in m.members;
      WeightOfOne(weights, queue[i]);
    } else if |m.members| == 1 {
      assert m.members == [m.members[0]];
      WeightOfOne(weights, m.members[0]);
    }
  }

  // No unit of the queue outweighs both the cap and the heaviest item.
  lemma {:induction false} QueuedUnitsWeighAtMost(items: seq<string>, weights: Weights, workers: nat, threshold: real)
    requires workers > 0 && SplitCap(WeightOf(weights, items), workers, threshold) > 0
    ensures var cap := SplitCap(WeightOf(weights, items), workers, threshold);
            var q := UnitWeights(weights, PackUnits(items, weights, workers, threshold));
            forall i :: 0 <= i < |q| ==> q[i] <= Max([cap, HeaviestItem(weights, items)])
  {
    var cap := SplitCap(WeightOf(weights, items), workers, threshold);
    var heaviest := HeaviestItem(weights, items);
    var q := UnitWeights(weights, PackUnits(items, weights, workers, threshold));
    var ordered := StableSort.Sorted(HeavierModule(weights), Modules(items));
    MembersWeighAtMost(items, weights);
    MaxOfTwo(cap, heaviest);
    forall i | 0 <= i < |q| ensures q[i] <= Max([cap, heaviest]) {
      UnitWeighsAtMost(weights, ordered, cap, heaviest, i);
    }
  }

  lemma {:induction false} MaxOfTwo(a: nat, b: nat)
    ensures a <= Max([a, b]) && b <= Max([a, b])
  {
    assert [a, b][0] == a && [a, b][1] == b;
  }

  lemma {:induction false} MembersWeighAtMost(items: seq<string>, weights: Weights)
    ensures forall id :: id in Members(StableSort.Sorted(HeavierModule(weights), Modules(items))) ==>
              Weight(weights, id) <= HeaviestItem(weights, items)
  {
    ModulesHoldItems(items);
    MembersSorted(HeavierModule(weights), Modules(items));
    forall id | id in multiset(items)
      ensures Weight(weights, id) <= HeaviestItem(weights, items)
    {
      var k :| 0 <= k < |items| && items[k] == id;
      var all := seq(|items|, i requires 0 <= i < |items| => Weight(weights, items[i]));
      assert all[k] <= HeaviestItem(weights, items);
    }
  }

  // With a positive cap no bin exceeds the average by more than (m-1)/m of the largest unit.
  lemma {:induction false} PackBound(items: seq<string>, weights: Weights, workers: nat, threshold: real, j: nat)
    requires j < workers
    requires SplitCap(WeightOf(weights, items), workers, threshold) > 0
    ensures var bins := Placed(weights, PackUnits(items, weights, workers, threshold), workers);
            var cap := SplitCap(WeightOf(weights, items), workers, threshold);
            workers * WeightOf(weights, bins[j]) <= WeightOf(weights, items)
              + (workers - 1) * Max([cap, HeaviestItem(weights, items)])
  {
    var cap := SplitCap(WeightOf(weights, items), workers, threshold);
    var units := PackUnits(items, weights, workers, threshold);
    var q := UnitWeights(weights, units);
    QueuedUnitsWeighAtMost(items, weights, workers, threshold);
    PackTotal(items, weights, workers, threshold);
    LoadIsBinWeight(weights, units, ListScheduling.Greedy(q, workers), j);
    ListScheduling.ListSchedulingBound(q, workers, Max([cap, HeaviestItem(weights, items)]), j);
  }

  lemma {:induction false} WeightRemove(weights: Weights, t: seq<string>, i: nat)
    requires i < |t|
    ensures WeightOf(weights, t) == WeightOf(weights, t[..i] + t[i + 1..]) + Weight(weights, t[i])
  {
    assert t == t[..i] + [t[i]] + t[i + 1..];
    WeightConcat(weights, t[..i] + [t[i]], t[i + 1..]);
    WeightConcat(weights, t[..i], [t[i]]);
    WeightConcat(weights, t[..i], t[i + 1..]);
    WeightOfOne(weights, t[i]);
  }

  lemma {:induction false} WeightIsPermutationInvariant(weights: Weights, s: seq<string>, t: seq<string>)
    requires multiset(s) == multiset(t)
    ensures WeightOf(weights, s) == WeightOf(weights, t)
  {
    if s == [] {
      assert |multiset(t)| == 0;
    } else {
      MultisetSnoc(s);
      assert Last(s) in multiset(t);
      var i :| 0 <= i < |t| && t[i] == Last(s);
      MultisetRemove(t, i);
      MultisetCancel(multiset(Init(s)), multiset(t[..i] + t[i + 1..]), Last(s));
      WeightIsPermutationInvariant(weights, Init(s), t[..i] + t[i + 1..]);
      WeightRemove(weights, t, i);
    }
  }

  lemma {:induction false} UnitWeightsSum(weights: Weights, units: seq<seq<string>>)
    ensures Sum(UnitWeights(weights, units)) == WeightOf(weights, Flatten(units))
  {
    if units != [] {
      UnitWeightsSum(weights, Init(units));
      assert Init(UnitWeights(weights, units)) == UnitWeights(weights, Init(units));
      WeightConcat(weights, Flatten(Init(units)), Last(units));
    }
  }

  lemma {:induction false} PackTotal(items: seq<string>, weights: Weights, workers: nat, threshold: real)
    requires workers > 0
    ensures Sum(UnitWeights(weights, PackUnits(items, weights, workers, threshold))) == WeightOf(weights, items)
  {
    var units := PackUnits(items, weights, workers, threshold);
    UnitWeightsSum(weights, units);
    var ordered := StableSort.Sorted(HeavierModule(weights), Modules(items));
    ModulesHoldItems(items);
    MembersSorted(HeavierModule(weights), Modules(items));
    UnitsHoldMembers(weights, ordered, SplitCap(WeightOf(weights, items), workers, threshold));
    WeightIsPermutationInvariant(weights, Flatten(units), items);
  }
}
