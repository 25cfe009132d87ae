/** The packings `benchmarks/harness/analyse_bins.py` compares: per-test stealing, stealing of
    whole modules, and the static partition with its split cap. Durations are whole milliseconds. */
module AnalyseBins {
  import opened Prelude
  import opened ListScheduling
  import NodeIds
  import opened StableSort

  datatype Item = Item(id: string, ms: nat)

  // `node_id.split("::", 1)[0]`
  function LocalityKey(id: string): string {
    NodeIds.Before(id)
  }

  // ---- steal: one item at a time, longest first ----

  function LongerItem(): (Item, Item) -> bool {
    (a: Item, b: Item) => a.ms >= b.ms
  }

  function Durations(items: seq<Item>): (q: seq<nat>)
    ensures |q| == |items|
  {
    seq(|items|, i requires 0 <= i < |items| => items[i].ms)
  }

  function StealLoads(items: seq<Item>, workers: nat): seq<nat>
    requires workers > 0
  {
    var q := Durations(Sorted(LongerItem(), items));
    GreedyLoads(q, workers)
  }

  method Steal(items: seq<Item>, workers: nat) returns (load: seq<nat>)
    requires workers > 0
    ensures load == StealLoads(items, workers)
  {
    load := HandOut(Durations(Sorted(LongerItem(), items)), workers);
  }

  // Where an assignment of items to workers, by id, puts each item of a list.
  function Places(items: seq<Item>, where: string -> nat): (a: seq<nat>)
    ensures |a| == |items|
  {
    seq<nat>(|items|, i requires 0 <= i < |items| => where(items[i].id))
  }

  function ItemLoad(items: seq<Item>, where: string -> nat, j: nat): nat {
    Load(Durations(items), Places(items, where), j)
  }

  function ItemLoads(items: seq<Item>, where: string -> nat, workers: nat): (l: seq<nat>)
    ensures |l| == workers
  {
    seq(workers, j requires 0 <= j < workers => ItemLoad(items, where, j))
  }

  // The longest-loaded worker under an arbitrary assignment of the items.
  function ItemMakespan(items: seq<Item>, where: string -> nat, workers: nat): nat {
    Max(ItemLoads(items, where, workers))
  }

  // Reordering the items does not change what an assignment by id puts on a worker.
  lemma {:induction false} ItemLoadSorted(items: seq<Item>, where: string -> nat, j: nat)
    ensures ItemLoad(Sorted(LongerItem(), items), where, j) == ItemLoad(items, where, j)
  {
    var sorted := Sorted(LongerItem(), items);
    var w, p: Item -> nat := (i: Item) => i.ms, (i: Item) => where(i.id);
    assert Durations(items) == Weigh(items, w) && Places(items, where) == Weigh(items, p);
    assert Durations(sorted) == Weigh(sorted, w) && Places(sorted, where) == Weigh(sorted, p);
    LoadSorted(LongerItem(), items, w, p, j);
  }

  lemma {:induction false} QueueIsLongestFirst(s: seq<Item>)
    ensures LongestFirst(Durations(Sorted(LongerItem(), s)))
  {
    SortedInOrder(LongerItem(), s);
    var sorted := Sorted(LongerItem(), s);
    assert forall i, j :: 0 <= i < j < |sorted| ==> LongerItem()(sorted[i], sorted[j]);
  }

  // The makespan of `steal` is at most 4/3 - 1/(3m) times that of any assignment of the same items.
  lemma {:induction false} StealIsFourThirdsOptimal(items: seq<Item>, where: string -> nat, workers: nat)
    requires workers > 0
    requires forall i :: 0 <= i < |items| ==> where(items[i].id) < workers
    ensures 3 * workers * Max(StealLoads(items, workers))
         <= (4 * workers - 1) * ItemMakespan(items, where, workers)
  {
    var sorted := Sorted(LongerItem(), items);
    var q, b := Durations(sorted), Places(sorted, where);
    var opt := ItemMakespan(items, where, workers);
    forall k | 0 <= k < workers ensures Load(q, b, k) <= opt {
      ItemLoadSorted(items, where, k);
      assert ItemLoads(items, where, workers)[k] <= opt;
    }
    SortedPermutes(LongerItem(), items);
    forall i | 0 <= i < |sorted| ensures where(sorted[i].id) < workers {
      assert sorted[i] in multiset(sorted);
    }
    QueueIsLongestFirst(items);
    var load := StealLoads(items, workers);
    assert Max(load) in load;
    var j :| 0 <= j < workers && load[j] == Max(load);
    LongestFirstBound(q, b, workers, opt, j);
  }

  lemma {:induction false} SortedAlready(s: seq<Item>)
    requires InOrder(LongerItem(), s)
    ensures Sorted(LongerItem(), s) == s
  {
    if s != [] {
      SortedAlready(s[1..]);
      assert |s| > 1 ==> s[1..][0] == s[1];
      assert s == [s[0]] + s[1..];
    }
  }

  // ---- group_steal: one module at a time ----

  // A module of the queue: its key, its summed duration and its number of items.
  datatype Group = Group(key: string, ms: nat, count: nat)

  datatype Order = ByCount | ByTime

  function GroupKey(): Group -> string {
    (x: Group) => x.key
  }

  // `groups.setdefault(key, [0, 0])`, then both counters go up.
  function Credit(groups: seq<Group>, item: Item): (r: seq<Group>)
    ensures r != []
  {
    var key := LocalityKey(item.id);
    var i := IndexOf(GroupKey(), groups, key);
    if i == |groups| then groups + [Group(key, item.ms, 1)]
    else groups[i := Group(key, groups[i].ms + item.ms, groups[i].count + 1)]
  }

  function Groups(items: seq<Item>): seq<Group> {
    if items == [] then [] else Credit(Groups(Init(items)), Last(items))
  }

  function Heavier(order: Order): (Group, Group) -> bool {
    (a: Group, b: Group) => if order.ByCount? then a.count >= b.count else a.ms >= b.ms
  }

  function Times(groups: seq<Group>): (q: seq<nat>)
    ensures |q| == |groups|
  {
    seq(|groups|, i requires 0 <= i < |groups| => groups[i].ms)
  }

  function GroupStealLoads(items: seq<Item>, workers: nat, order: Order): seq<nat>
    requires workers > 0
  {
    var q := Times(Sorted(Heavier(order), Groups(items)));
    GreedyLoads(q, workers)
  }

  method GatherGroups(items: seq<Item>) returns (groups: seq<Group>)
    ensures groups == Groups(items)
  {
    groups := [];
    for i := 0 to |items|
      invariant groups == Groups(items[..i])
    {
      assert Init(items[..i + 1]) == items[..i];
      var item := items[i];
      var key := LocalityKey(item.id);
      var g := IndexOf(GroupKey(), groups, key);
      ghost var before := groups;
      if g == |groups| {
        groups := groups + [Group(key, 0, 0)];
      }
      groups := groups[g := Group(key, groups[g].ms + item.ms, groups[g].count + 1)];
      assert groups == Credit(before, item);
    }
    assert items[..|items|] == items;
  }

  method GroupSteal(items: seq<Item>, workers: nat, order: Order) returns (load: seq<nat>)
    requires workers > 0
    ensures load == GroupStealLoads(items, workers, order)
  {
    var groups := GatherGroups(items);
    load := HandOut(Times(Sorted(Heavier(order), groups)), workers);
  }

  // What is before the first `::`, or all of it.
  lemma {:induction false} LocalityKeyIs(moduleKey: string, rest: string)
    requires forall i :: 0 <= i < |moduleKey| ==> moduleKey[i] != ':'
    ensures LocalityKey(moduleKey + "::" + rest) == moduleKey && LocalityKey(moduleKey) == moduleKey
  {
    NodeIds.SplitsAtKey(moduleKey, rest);
    assert NodeIds.SeparatorAt(moduleKey) == |moduleKey|;
  }

  // The order modules are handed out in: by how many items they have, or how long they take, the largest
  // first, and in order of first item among equals.
  lemma {:induction false} LargestModulesFirst(items: seq<Item>, order: Order, size: nat)
    ensures var q := Sorted(Heavier(order), Groups(items));
            && multiset(q) == multiset(Groups(items))
            && (forall i, j :: 0 <= i < j < |q| ==>
                  if order.ByCount? then q[i].count >= q[j].count else q[i].ms >= q[j].ms)
            && Filter(OfSize(order, size), q) == Filter(OfSize(order, size), Groups(items))
  {
    var q := Sorted(Heavier(order), Groups(items));
    SortedPermutes(Heavier(order), Groups(items));
    SortedInOrder(Heavier(order), Groups(items));
    SortedIsStable(Heavier(order), OfSize(order, size), Groups(items));
    forall i, j | 0 <= i < j < |q|
      ensures if order.ByCount? then q[i].count >= q[j].count else q[i].ms >= q[j].ms
    {
      assert Heavier(order)(q[i], q[j]);
    }
  }

  function OfSize(order: Order, size: nat): Group -> bool {
    (g: Group) => size == if order.ByCount? then g.count else g.ms
  }

  // The time the items of one module take together, and how many they are.
  function ModuleTime(items: seq<Item>, key: string): nat {
    if items == [] then 0
    else ModuleTime(Init(items), key) + if LocalityKey(Last(items).id) == key then Last(items).ms else 0
  }

  function ModuleCount(items: seq<Item>, key: string): nat {
    if items == [] then 0
    else ModuleCount(Init(items), key) + if LocalityKey(Last(items).id) == key then 1 else 0
  }

  ghost predicate DistinctKeys(groups: seq<Group>) {
    forall i, j :: 0 <= i < j < |groups| ==> groups[i].key != groups[j].key
  }

  // What the groups say about one key: nothing, when no group has it.
  function MsOf(groups: seq<Group>, key: string): nat {
    var i := IndexOf(GroupKey(), groups, key);
    if i < |groups| then groups[i].ms else 0
  }

  function CountOf(groups: seq<Group>, key: string): nat {
    var i := IndexOf(GroupKey(), groups, key);
    if i < |groups| then groups[i].count else 0
  }

  lemma {:induction false} CreditChangesOneKey(groups: seq<Group>, item: Item, key: string)
    requires DistinctKeys(groups)
    ensures var r := Credit(groups, item);
            var mine := LocalityKey(item.id) == key;
            && DistinctKeys(r)
            && MsOf(r, key) == MsOf(groups, key) + (if mine then item.ms else 0)
            && CountOf(r, key) == CountOf(groups, key) + (if mine then 1 else 0)
  {
    var r := Credit(groups, item);
    var i := IndexOf(GroupKey(), groups, key);
    if i < |groups| {
      assert r[i].key == key;
      assert IndexOf(GroupKey(), r, key) == i;
    } else if LocalityKey(item.id) == key {
      assert r[i].key == key;
    }
  }

  // The groups have distinct keys and hold exactly the time and count of each module.
  lemma {:induction false} GroupsAreModules(items: seq<Item>, key: string)
    ensures DistinctKeys(Groups(items))
    ensures MsOf(Groups(items), key) == ModuleTime(items, key)
    ensures CountOf(Groups(items), key) == ModuleCount(items, key)
  {
    if items != [] {
      GroupsAreModules(Init(items), key);
      CreditChangesOneKey(Groups(Init(items)), Last(items), key);
    }
  }

  // What an assignment of modules to workers puts on one worker.
  function ModulePlaces(groups: seq<Group>, where: string -> nat): (a: seq<nat>)
    ensures |a| == |groups|
  {
    seq<nat>(|groups|, i requires 0 <= i < |groups| => where(groups[i].key))
  }

  function GroupLoad(groups: seq<Group>, where: string -> nat, j: nat): nat {
    Load(Times(groups), ModulePlaces(groups, where), j)
  }

  lemma {:induction false} GroupLoadSnoc(gs: seq<Group>, g: Group, where: string -> nat, j: nat)
    ensures GroupLoad(gs + [g], where, j) == GroupLoad(gs, where, j) + if where(g.key) == j then g.ms else 0
  {
    assert Times(gs + [g]) == Times(gs) + [g.ms];
    assert ModulePlaces(gs + [g], where) == ModulePlaces(gs, where) + [where(g.key)];
    assert Init(Times(gs) + [g.ms]) == Times(gs);
    assert Init(ModulePlaces(gs, where) + [where(g.key)]) == ModulePlaces(gs, where);
  }

  lemma {:induction false} GroupLoadCredit(gs: seq<Group>, i: nat, g: Group, where: string -> nat, j: nat)
    requires i < |gs| && gs[i].key == g.key && gs[i].ms <= g.ms
    ensures GroupLoad(gs[i := g], where, j) ==
            GroupLoad(gs, where, j) + if where(g.key) == j then g.ms - gs[i].ms else 0
  {
    assert gs == Init(gs) + [Last(gs)];
    GroupLoadSnoc(Init(gs), Last(gs), where, j);
    if i == |gs| - 1 {
      assert gs[i := g] == Init(gs) + [g];
      GroupLoadSnoc(Init(gs), g, where, j);
    } else {
      assert gs[i := g] == Init(gs)[i := g] + [Last(gs)];
      GroupLoadSnoc(Init(gs)[i := g], Last(gs), where, j);
      GroupLoadCredit(Init(gs), i, g, where, j);
    }
  }

  // An assignment of modules loads a worker the same, counted by module or by item.
  lemma {:induction false} GroupLoadIsItemLoad(items: seq<Item>, where: string -> nat, j: nat)
    ensures GroupLoad(Groups(items), where, j) == ItemLoad(items, id => where(LocalityKey(id)), j)
  {
    if items != [] {
      var gs, item := Groups(Init(items)), Last(items);
      var byId := (id: string) => where(LocalityKey(id));
      GroupLoadIsItemLoad(Init(items), where, j);
      assert Init(Durations(items)) == Durations(Init(items));
      assert Init(Places(items, byId)) == Places(Init(items), byId);
      var at := IndexOf(GroupKey(), gs, LocalityKey(item.id));
      if at == |gs| {
        GroupLoadSnoc(gs, Last(Groups(items)), where, j);
      } else {
        GroupLoadCredit(gs, at, Groups(items)[at], where, j);
      }
      assert ItemLoad(items, byId, j) ==
             ItemLoad(Init(items), byId, j) + if byId(item.id) == j then item.ms else 0;
    }
  }

  lemma {:induction false} GroupLoadSorted(order: Order, gs: seq<Group>, where: string -> nat, j: nat)
    ensures GroupLoad(Sorted(Heavier(order), gs), where, j) == GroupLoad(gs, where, j)
  {
    var sorted := Sorted(Heavier(order), gs);
    var w, p: Group -> nat := (g: Group) => g.ms, (g: Group) => where(g.key);
    assert Times(gs) == Weigh(gs, w) && ModulePlaces(gs, where) == Weigh(gs, p);
    assert Times(sorted) == Weigh(sorted, w) && ModulePlaces(sorted, where) == Weigh(sorted, p);
    LoadSorted(Heavier(order), gs, w, p, j);
  }

  // The queue of modules takes as long as the items, whichever way it is ordered.
  lemma {:induction false} QueueTotal(items: seq<Item>, order: Order)
    ensures Sum(Times(Sorted(Heavier(order), Groups(items)))) == Sum(Durations(items))
  {
    var zero: string -> nat := _ => 0;
    var byId := (id: string) => zero(LocalityKey(id));
    var queue := Sorted(Heavier(order), Groups(items));
    GroupLoadSorted(order, Groups(items), zero, 0);
    GroupLoadIsItemLoad(items, zero, 0);
    AllOnOneWorker(Times(queue), ModulePlaces(queue, zero));
    AllOnOneWorker(Durations(items), Places(items, byId));
  }

  lemma {:induction false} AllOnOneWorker(q: seq<nat>, a: seq<nat>)
    requires Assigns(a, q, 1)
    ensures Load(q, a, 0) == Sum(q)
  {
    LoadsConserve(q, a, 1);
    assert Loads(q, a, 1) == [] + [Load(q, a, 0)];
    SumSnoc([], Load(q, a, 0));
  }

  // The longest module of the suite.
  function HeaviestModule(items: seq<Item>): nat {
    Max(seq(|items|, i requires 0 <= i < |items| => ModuleTime(items, LocalityKey(items[i].id))))
  }

  lemma {:induction false} GroupKeyOccurs(items: seq<Item>, g: Group)
    requires g in Groups(items)
    ensures exists i :: 0 <= i < |items| && LocalityKey(items[i].id) == g.key
  {
    var gs := Groups(Init(items));
    if LocalityKey(Last(items).id) != g.key {
      assert g in gs;
      GroupKeyOccurs(Init(items), g);
      var i :| 0 <= i < |Init(items)| && LocalityKey(Init(items)[i].id) == g.key;
      assert items[i] == Init(items)[i];
    }
  }

  lemma {:induction false} QueuedModuleIsBounded(items: seq<Item>, order: Order, i: nat)
    requires i < |Sorted(Heavier(order), Groups(items))|
    ensures Times(Sorted(Heavier(order), Groups(items)))[i] <= HeaviestModule(items)
  {
    var queue := Sorted(Heavier(order), Groups(items));
    SortedPermutes(Heavier(order), Groups(items));
    var g := queue[i];
    assert g in multiset(queue) && g in Groups(items);
    GroupsAreModules(items, g.key);
    var at :| 0 <= at < |Groups(items)| && Groups(items)[at] == g;
    assert IndexOf(GroupKey(), Groups(items), g.key) == at;
    GroupKeyOccurs(items, g);
    var k :| 0 <= k < |items| && LocalityKey(items[k].id) == g.key;
    var times := seq(|items|, i requires 0 <= i < |items| => ModuleTime(items, LocalityKey(items[i].id)));
    assert times[k] == g.ms;
  }

  // In either order: no worker exceeds the average by more than (m-1)/m of the longest module.
  lemma {:induction false} GroupStealBound(items: seq<Item>, workers: nat, order: Order, j: nat)
    requires j < workers
    ensures workers * GroupStealLoads(items, workers, order)[j]
         <= Sum(Durations(items)) + (workers - 1) * HeaviestModule(items)
  {
    var q := Times(Sorted(Heavier(order), Groups(items)));
    forall i | 0 <= i < |q| ensures q[i] <= HeaviestModule(items) {
      QueuedModuleIsBounded(items, order, i);
    }
    QueueTotal(items, order);
    ListSchedulingBound(q, workers, HeaviestModule(items), j);
  }

  // By time: at most 4/3 - 1/(3m) times any assignment that keeps modules whole.
  lemma {:induction false} GroupStealIsFourThirdsOptimal(items: seq<Item>, where: string -> nat, workers: nat)
    requires workers > 0
    requires forall i :: 0 <= i < |items| ==> where(LocalityKey(items[i].id)) < workers
    ensures 3 * workers * Max(GroupStealLoads(items, workers, ByTime))
         <= (4 * workers - 1) * ItemMakespan(items, id => where(LocalityKey(id)), workers)
  {
    var byId := (id: string) => where(LocalityKey(id));
    var groups, opt := Groups(items), ItemMakespan(items, byId, workers);
    var queue := Sorted(Heavier(ByTime), groups);
    var q, b := Times(queue), ModulePlaces(queue, where);
    forall k | 0 <= k < workers ensures Load(q, b, k) <= opt {
      GroupLoadSorted(ByTime, groups, where, k);
      GroupLoadIsItemLoad(items, where, k);
      assert ItemLoads(items, byId, workers)[k] <= opt;
    }
    SortedPermutes(Heavier(ByTime), groups);
    forall i | 0 <= i < |queue| ensures where(queue[i].key) < workers {
      assert queue[i] in multiset(queue) && queue[i] in groups;
      GroupKeyOccurs(items, queue[i]);
    }
    SortedInOrder(Heavier(ByTime), groups);
    assert forall i, j :: 0 <= i < j < |queue| ==> Heavier(ByTime)(queue[i], queue[j]);
    var load := GroupStealLoads(items, workers, ByTime);
    var j :| 0 <= j < workers && load[j] == Max(load);
    LongestFirstBound(q, b, workers, opt, j);
  }
}
