/** A depth-first walk that lists each node after the nodes it leads to, skipping what it has seen and
    what it is still visiting, on any finite graph whose nodes are told apart by a key. */
module DepthFirst {
  import opened Prelude

  datatype Graph<!T, !K> = Graph(nodes: set<T>, next: T -> seq<T>, key: T -> K)

  function Key<T, K>(g: Graph<T, K>, d: T): K {
    g.key(d)
  }

  function Next<T, K>(g: Graph<T, K>, d: T): seq<T> {
    g.next(d)
  }

  predicate Within<T(==), K>(g: Graph<T, K>, ds: seq<T>) {
    forall d :: d in ds ==> d in g.nodes
  }

  // Edges stay inside, and no two nodes share a key.
  ghost predicate WellFormed<T(!new), K>(g: Graph<T, K>) {
    && (forall d :: d in g.nodes ==> Within(g, Next(g, d)))
    && (forall a, b :: a in g.nodes && b in g.nodes && Key(g, a) == Key(g, b) ==> a == b)
  }

  function Keys<T, K>(g: Graph<T, K>, ds: seq<T>): (ks: set<K>) {
    set i | 0 <= i < |ds| :: Key(g, ds[i])
  }

  ghost function AllKeys<T(!new), K>(g: Graph<T, K>): set<K> {
    set d | d in g.nodes :: Key(g, d)
  }

  datatype Walk<T, K> = Walk(ordered: seq<T>, seen: set<K>, visiting: set<K>)

  ghost function VisitAll<T(!new), K>(g: Graph<T, K>, ds: seq<T>, w: Walk<T, K>): (r: Walk<T, K>)
    requires WellFormed(g) && Within(g, ds)
    ensures r.visiting == w.visiting
    decreases |AllKeys(g) - w.visiting|, 1, |ds|
  {
    if ds == [] then w
    else VisitOne(g, Last(ds), VisitAll(g, Init(ds), w))
  }

  ghost function VisitOne<T(!new), K>(g: Graph<T, K>, d: T, w: Walk<T, K>): (r: Walk<T, K>)
    requires WellFormed(g) && d in g.nodes
    ensures r.visiting == w.visiting
    decreases |AllKeys(g) - w.visiting|, 0
  {
    var key := Key(g, d);
    if key in w.seen || key in w.visiting then w
    else
      assert AllKeys(g) - (w.visiting + {key}) == AllKeys(g) - w.visiting - {key};
      var inner := VisitAll(g, Next(g, d), w.(visiting := w.visiting + {key}));
      if key in inner.seen then inner.(visiting := w.visiting)
      else Walk(inner.ordered + [d], inner.seen + {key}, w.visiting)
  }

  lemma {:induction false} VisitSnoc<T(!new), K>(g: Graph<T, K>, ds: seq<T>, found: Option<T>, w: Walk<T, K>)
    requires WellFormed(g) && Within(g, ds) && (found.Some? ==> found.value in g.nodes)
    ensures var before := VisitAll(g, ds, w);
            VisitAll(g, ds + (if found.Some? then [found.value] else []), w) ==
            if found.Some? then VisitOne(g, found.value, before) else before
  {
    if found.Some? {
      InitOfSnoc(ds, found.value);
    } else {
      assert ds + [] == ds;
    }
  }

  ghost function Listing<T(!new), K>(g: Graph<T, K>, roots: seq<T>): seq<T>
    requires WellFormed(g) && Within(g, roots)
  {
    VisitAll(g, roots, Walk([], {}, {})).ordered
  }

  // ---- paths ----

  ghost predicate Edge<T(!new), K>(g: Graph<T, K>, a: T, b: T) {
    b in Next(g, a)
  }

  ghost predicate IsPath<T(!new), K>(g: Graph<T, K>, p: seq<T>) {
    p != [] && forall i, j :: 0 <= i && j == i + 1 < |p| ==> Edge(g, p[i], p[j])
  }

  ghost predicate IsPathFrom<T(!new), K>(g: Graph<T, K>, roots: seq<T>, p: seq<T>) {
    IsPath(g, p) && p[0] in roots
  }

  ghost predicate Reached<T(!new), K>(g: Graph<T, K>, roots: seq<T>, d: T) {
    exists p :: IsPathFrom(g, roots, p) && Last(p) == d
  }

  ghost predicate IsLoop<T(!new), K>(g: Graph<T, K>, p: seq<T>) {
    IsPath(g, p) && |p| >= 2 && p[0] == Last(p)
  }

  // Some node that is reached leads back to itself.
  ghost predicate Cyclic<T(!new), K>(g: Graph<T, K>, roots: seq<T>) {
    exists p :: IsLoop(g, p) && Reached(g, roots, p[0])
  }

  ghost predicate LeadsInto<T(!new), K>(g: Graph<T, K>, d: T, order: seq<T>) {
    forall s :: Edge(g, d, s) ==> s in order
  }

  // Each element after everything it leads to.
  ghost predicate DepsFirst<T(!new), K>(g: Graph<T, K>, order: seq<T>) {
    forall i :: 0 <= i < |order| ==> LeadsInto(g, order[i], order[..i])
  }

  ghost predicate DistinctKeys<T(!new), K>(g: Graph<T, K>, order: seq<T>) {
    forall i, j :: 0 <= i < j < |order| ==> Key(g, order[i]) != Key(g, order[j])
  }

  // ---- the invariant; `stack` lists the nodes being visited ----

  ghost predicate Settled<T(!new), K>(g: Graph<T, K>, d: T, w: Walk<T, K>) {
    forall s :: Edge(g, d, s) ==> Key(g, s) in w.seen || Key(g, s) in w.visiting
  }

  ghost predicate Sound<T(!new), K>(g: Graph<T, K>, w: Walk<T, K>) {
    && Within(g, w.ordered)
    && w.seen == Keys(g, w.ordered)
    && w.seen !! w.visiting
    && DistinctKeys(g, w.ordered)
    && forall d :: d in w.ordered ==> Settled(g, d, w)
  }

  ghost predicate FromRoots<T(!new), K>(g: Graph<T, K>, roots: seq<T>, w: Walk<T, K>) {
    && (forall d :: d in w.ordered ==> Reached(g, roots, d))
    && (!Cyclic(g, roots) ==> DepsFirst(g, w.ordered))
  }

  ghost predicate OnStack<T(!new), K>(g: Graph<T, K>, roots: seq<T>, w: Walk<T, K>, stack: seq<T>) {
    && Within(g, stack)
    && w.visiting == Keys(g, stack)
    && (stack != [] ==> IsPathFrom(g, roots, stack))
  }

  // `d` is a root, or the top of the stack leads to it.
  ghost predicate NextUp<T(!new), K>(g: Graph<T, K>, roots: seq<T>, stack: seq<T>, d: T) {
    && d in g.nodes
    && if stack == [] then d in roots else Edge(g, Last(stack), d)
  }

  ghost predicate Invariant<T(!new), K>(g: Graph<T, K>, roots: seq<T>, w: Walk<T, K>, stack: seq<T>) {
    WellFormed(g) && Sound(g, w) && FromRoots(g, roots, w) && OnStack(g, roots, w, stack)
  }

  lemma {:induction false} KeysSnoc<T(!new), K>(g: Graph<T, K>, ds: seq<T>, d: T)
    ensures Keys(g, ds + [d]) == Keys(g, ds) + {Key(g, d)}
  {
    var ks := Keys(g, ds + [d]);
    forall k | k in Keys(g, ds) ensures k in ks {
      var i :| 0 <= i < |ds| && Key(g, ds[i]) == k;
      assert (ds + [d])[i] == ds[i];
    }
    assert (ds + [d])[|ds|] == d;
  }

  lemma {:induction false} Deepen<T(!new), K>(g: Graph<T, K>, roots: seq<T>, d: T, w: Walk<T, K>, stack: seq<T>)
    requires Invariant(g, roots, w, stack) && NextUp(g, roots, stack, d)
    requires Key(g, d) !in w.seen && Key(g, d) !in w.visiting
    ensures Invariant(g, roots, w.(visiting := w.visiting + {Key(g, d)}), stack + [d])
    ensures forall s :: s in Next(g, d) ==> NextUp(g, roots, stack + [d], s)
    ensures Reached(g, roots, d)
  {
    KeysSnoc(g, stack, d);
    if stack == [] {
      assert IsPath(g, [d]) && stack + [d] == [d];
    } else {
    }
    assert IsPathFrom(g, roots, stack + [d]) && Last(stack + [d]) == d;
    var outer := w.(visiting := w.visiting + {Key(g, d)});
    forall e | e in w.ordered ensures Settled(g, e, outer) {
      assert Settled(g, e, w);
    }
    assert Within(g, Next(g, d));
  }

  lemma {:induction false} LeadingBackIsCyclic<T(!new), K>(g: Graph<T, K>, roots: seq<T>, stack: seq<T>, s: T)
    requires IsPathFrom(g, roots, stack) && Edge(g, Last(stack), s) && s in stack
    ensures Cyclic(g, roots)
  {
    var i :| 0 <= i < |stack| && stack[i] == s;
    var loop := stack[i..] + [s];
    assert IsLoop(g, loop) && loop[0] == s;
    assert IsPathFrom(g, roots, stack[..i + 1]) && Last(stack[..i + 1]) == s;
  }

  lemma {:induction false} Finish<T(!new), K>(g: Graph<T, K>, roots: seq<T>, d: T, inner: Walk<T, K>, stack: seq<T>)
    requires Invariant(g, roots, inner, stack + [d]) && Reached(g, roots, d)
    requires Settled(g, d, inner)
    ensures FromRoots(g, roots, inner.(ordered := inner.ordered + [d]))
  {
    var r := inner.ordered + [d];
    if !Cyclic(g, roots) {
      forall s | Edge(g, d, s) ensures s in inner.ordered {
        if s in stack + [d] {
          LeadingBackIsCyclic(g, roots, stack + [d], s);
        }
        assert s in Next(g, d) && s in g.nodes;
      }
      forall i | 0 <= i < |r| ensures LeadsInto(g, r[i], r[..i]) {
        if i < |inner.ordered| {
          assert r[..i] == inner.ordered[..i];
        } else {
          assert r[..i] == inner.ordered;
        }
      }
    }
  }

  lemma {:induction false} Record<T(!new), K>(g: Graph<T, K>, d: T, inner: Walk<T, K>)
    requires WellFormed(g) && d in g.nodes && Sound(g, inner) && Key(g, d) in inner.visiting
    requires Settled(g, d, inner)
    ensures Sound(g, Walk(inner.ordered + [d], inner.seen + {Key(g, d)}, inner.visiting - {Key(g, d)}))
  {
    var r := Walk(inner.ordered + [d], inner.seen + {Key(g, d)}, inner.visiting - {Key(g, d)});
    KeysSnoc(g, inner.ordered, d);
    forall e | e in r.ordered ensures Settled(g, e, r) {
      assert Settled(g, e, inner);
    }
    forall i | 0 <= i < |inner.ordered| ensures Key(g, inner.ordered[i]) != Key(g, d) {
      assert Key(g, inner.ordered[i]) in Keys(g, inner.ordered);
    }
  }

  lemma {:induction false} VisitOneKeeps<T(!new), K>(g: Graph<T, K>, roots: seq<T>, d: T, w: Walk<T, K>, stack: seq<T>)
    requires Invariant(g, roots, w, stack) && NextUp(g, roots, stack, d)
    ensures var r := VisitOne(g, d, w);
            Invariant(g, roots, r, stack) && w.seen <= r.seen && (Key(g, d) in r.seen || Key(g, d) in r.visiting)
    decreases |AllKeys(g) - w.visiting|, 0
  {
    var key := Key(g, d);
    if key !in w.seen && key !in w.visiting {
      assert AllKeys(g) - (w.visiting + {key}) == AllKeys(g) - w.visiting - {key};
      var outer := w.(visiting := w.visiting + {key});
      Deepen(g, roots, d, w, stack);
      VisitAllKeeps(g, roots, Next(g, d), outer, stack + [d]);
      var inner := VisitAll(g, Next(g, d), outer);
      assert Settled(g, d, inner);
      Finish(g, roots, d, inner, stack);
      Record(g, d, inner);
      assert outer.visiting - {key} == w.visiting;
    }
  }

  lemma {:induction false} VisitAllKeeps<T(!new), K>(
      g: Graph<T, K>, roots: seq<T>, ds: seq<T>, w: Walk<T, K>, stack: seq<T>)
    requires Invariant(g, roots, w, stack) && Within(g, ds)
    requires forall d :: d in ds ==> NextUp(g, roots, stack, d)
    ensures var r := VisitAll(g, ds, w);
            Invariant(g, roots, r, stack) && w.seen <= r.seen
            && forall d :: d in ds ==> Key(g, d) in r.seen || Key(g, d) in r.visiting
    decreases |AllKeys(g) - w.visiting|, 1, |ds|
  {
    if ds != [] {
      VisitAllKeeps(g, roots, Init(ds), w, stack);
      var before := VisitAll(g, Init(ds), w);
      VisitOneKeeps(g, roots, Last(ds), before, stack);
    }
  }

  // ---- what is listed ----

  lemma {:induction false} ListingInvariant<T(!new), K>(g: Graph<T, K>, roots: seq<T>)
    requires WellFormed(g) && Within(g, roots)
    ensures var w := VisitAll(g, roots, Walk([], {}, {}));
            Invariant(g, roots, w, []) && forall d :: d in roots ==> Key(g, d) in w.seen
  {
    VisitAllKeeps(g, roots, roots, Walk([], {}, {}), []);
  }

  lemma {:induction false} PathStaysListed<T(!new), K>(g: Graph<T, K>, roots: seq<T>, p: seq<T>, k: nat)
    requires WellFormed(g) && Within(g, roots) && IsPathFrom(g, roots, p) && k < |p|
    ensures p[k] in g.nodes && p[k] in Listing(g, roots)
  {
    ListingInvariant(g, roots);
    var w := VisitAll(g, roots, Walk([], {}, {}));
    if k > 0 {
      PathStaysListed(g, roots, p, k - 1);
      assert Edge(g, p[k - 1], p[k]) && Settled(g, p[k - 1], w);
      assert p[k] in Next(g, p[k - 1]);
    }
  }

  // A reached node is a root, or a reached node leads to it.
  lemma {:induction false} ReachedThrough<T(!new), K>(g: Graph<T, K>, roots: seq<T>, d: T) returns (e: T)
    requires WellFormed(g) && Within(g, roots) && Reached(g, roots, d)
    ensures d in g.nodes
    ensures d in roots || (Reached(g, roots, e) && e in g.nodes && Edge(g, e, d))
  {
    var p :| IsPathFrom(g, roots, p) && Last(p) == d;
    PathStaysListed(g, roots, p, |p| - 1);
    e := d;
    if |p| > 1 {
      e := p[|p| - 2];
      assert Edge(g, p[|p| - 2], p[|p| - 1]);
      PathStaysListed(g, roots, p, |p| - 2);
      assert IsPathFrom(g, roots, p[..|p| - 1]) && Last(p[..|p| - 1]) == e;
    }
  }

  // Exactly the nodes reached from the roots, each once, whether or not there are cycles.
  lemma {:induction false} ListsExactlyReached<T(!new), K>(g: Graph<T, K>, roots: seq<T>)
    requires WellFormed(g) && Within(g, roots)
    ensures DistinctKeys(g, Listing(g, roots))
    ensures forall d :: d in Listing(g, roots) <==> Reached(g, roots, d)
  {
    ListingInvariant(g, roots);
    forall d | Reached(g, roots, d) ensures d in Listing(g, roots) {
      var p :| IsPathFrom(g, roots, p) && Last(p) == d;
      PathStaysListed(g, roots, p, |p| - 1);
    }
  }

  lemma {:induction false} PathDescends<T(!new), K>(
      g: Graph<T, K>, order: seq<T>, p: seq<T>, k: nat, at: nat) returns (j: nat)
    requires DepsFirst(g, order) && IsPath(g, p) && 0 < k < |p| && at < |order| && order[at] == p[0]
    ensures j < at && order[j] == p[k]
  {
    var i := at;
    if k > 1 {
      i := PathDescends(g, order, p, k - 1, at);
    }
    assert LeadsInto(g, order[i], order[..i]) && Edge(g, p[k - 1], p[k]);
    j :| 0 <= j < i && order[..i][j] == p[k];
  }

  // Each node after all it leads to, exactly when no reached node is on a cycle.
  lemma {:induction false} DepsFirstIffAcyclic<T(!new), K>(g: Graph<T, K>, roots: seq<T>)
    requires WellFormed(g) && Within(g, roots)
    ensures DepsFirst(g, Listing(g, roots)) <==> !Cyclic(g, roots)
  {
    ListingInvariant(g, roots);
    var order := Listing(g, roots);
    if Cyclic(g, roots) {
      var p :| IsLoop(g, p) && Reached(g, roots, p[0]);
      ListsExactlyReached(g, roots);
      LoopIsNotDepsFirst(g, order, p);
    }
  }

  lemma {:induction false} LoopIsNotDepsFirst<T(!new), K>(g: Graph<T, K>, order: seq<T>, p: seq<T>)
    requires DistinctKeys(g, order) && IsLoop(g, p) && p[0] in order
    ensures !DepsFirst(g, order)
  {
    if DepsFirst(g, order) {
      var at :| 0 <= at < |order| && order[at] == p[0];
      var _ := PathDescends(g, order, p, |p| - 1, at);
    }
  }

  // ---- the order of the roots ----

  lemma {:induction false} VisitGrows<T(!new), K>(g: Graph<T, K>, ds: seq<T>, w: Walk<T, K>)
    requires WellFormed(g) && Within(g, ds)
    ensures w.ordered <= VisitAll(g, ds, w).ordered
    decreases |AllKeys(g) - w.visiting|, 1, |ds|
  {
    if ds != [] {
      VisitGrows(g, Init(ds), w);
      VisitOneGrows(g, Last(ds), VisitAll(g, Init(ds), w));
    }
  }

  lemma {:induction false} VisitOneGrows<T(!new), K>(g: Graph<T, K>, d: T, w: Walk<T, K>)
    requires WellFormed(g) && d in g.nodes
    ensures w.ordered <= VisitOne(g, d, w).ordered
    decreases |AllKeys(g) - w.visiting|, 0
  {
    var key := Key(g, d);
    if key !in w.seen && key !in w.visiting {
      assert AllKeys(g) - (w.visiting + {key}) == AllKeys(g) - w.visiting - {key};
      VisitGrows(g, Next(g, d), w.(visiting := w.visiting + {key}));
    }
  }

  // What earlier roots need is listed before anything only later roots need.
  lemma {:induction false} EarlierRootsFirst<T(!new), K>(g: Graph<T, K>, first: seq<T>, second: seq<T>)
    requires WellFormed(g) && Within(g, first) && Within(g, second)
    ensures Listing(g, first) <= Listing(g, first + second)
  {
    if second == [] {
      assert first + second == first;
    } else {
      EarlierRootsFirst(g, first, Init(second));
      assert Init(first + second) == first + Init(second);
      VisitOneGrows(g, Last(second), VisitAll(g, first + Init(second), Walk([], {}, {})));
    }
  }

  // ---- doing one part of a listing before the rest ----

  lemma {:induction false} InsertKeepsDepsFirst<T(!new), K>(g: Graph<T, K>, first: seq<T>, d: T, rest: seq<T>)
    requires DepsFirst(g, first + rest) && LeadsInto(g, d, first)
    ensures DepsFirst(g, first + [d] + rest)
  {
    var before, after := first + rest, first + [d] + rest;
    forall i | 0 <= i < |after| ensures LeadsInto(g, after[i], after[..i]) {
      if i < |first| {
        assert LeadsInto(g, before[i], before[..i]) && after[..i] == before[..i];
      } else if i == |first| {
        assert after[..i] == first;
      } else {
        assert LeadsInto(g, before[i - 1], before[..i - 1]);
        assert after[..i] == first + [d] + rest[..i - 1 - |first|];
        assert before[..i - 1] == first + rest[..i - 1 - |first|];
      }
    }
  }

  // A part that leads only into itself may be done first.
  lemma {:induction false} PartFirst<T(!new), K>(g: Graph<T, K>, order: seq<T>, keep: T -> bool)
    requires DepsFirst(g, order)
    requires forall d, t :: d in order && keep(d) && Edge(g, d, t) ==> keep(t)
    ensures DepsFirst(g, Filter(keep, order) + Filter(Not(keep), order))
  {
    var drop := Not(keep);
    if order != [] {
      var earlier, d := Init(order), Last(order);
      forall i | 0 <= i < |earlier| ensures LeadsInto(g, earlier[i], earlier[..i]) {
        assert LeadsInto(g, order[i], order[..i]) && earlier[..i] == order[..i];
      }
      PartFirst(g, earlier, keep);
      assert LeadsInto(g, order[|order| - 1], order[..|order| - 1]);
      var first, rest := Filter(keep, earlier), Filter(drop, earlier);
      if keep(d) {
        forall t | Edge(g, d, t) ensures t in first {
          FilterHolds(keep, earlier, t);
        }
        InsertKeepsDepsFirst(g, first, d, rest);
        assert first + [d] + rest == Filter(keep, order) + Filter(drop, order);
      } else {
        forall t | Edge(g, d, t) ensures t in first + rest {
          FilterHolds(keep, earlier, t);
          FilterHolds(drop, earlier, t);
        }
        assert first + rest + [] == first + rest;
        InsertKeepsDepsFirst(g, first + rest, d, []);
        assert first + rest + [d] + [] == Filter(keep, order) + Filter(drop, order);
      }
    }
  }
}
