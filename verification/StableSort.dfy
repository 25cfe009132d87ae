/** Python's `sorted`: a stable sort under a comparison, as an insertion sort. */
module StableSort {
  import opened Prelude

  // Puts `x` in front of the first element it may precede.
  function Insert<T>(le: (T, T) -> bool, x: T, s: seq<T>): seq<T> {
    if s == [] || le(x, s[0]) then [x] + s else [s[0]] + Insert(le, x, s[1..])
  }

  function Sorted<T>(le: (T, T) -> bool, s: seq<T>): seq<T> {
    if s == [] then [] else Insert(le, s[0], Sorted(le, s[1..]))
  }

  ghost predicate InOrder<T>(le: (T, T) -> bool, s: seq<T>) {
    forall i, j :: 0 <= i < j < |s| ==> le(s[i], s[j])
  }

  ghost predicate TotalPreorder<T(!new)>(le: (T, T) -> bool) {
    && (forall a, b :: le(a, b) || le(b, a))
    && (forall a, b, c :: le(a, b) && le(b, c) ==> le(a, c))
  }

  lemma {:induction false} InsertPermutes<T>(le: (T, T) -> bool, x: T, s: seq<T>)
    ensures multiset(Insert(le, x, s)) == multiset{x} + multiset(s)
  {
    if !(s == [] || le(x, s[0])) {
      InsertPermutes(le, x, s[1..]);
      assert s == [s[0]] + s[1..];
    }
  }

  lemma {:induction false} SortedPermutes<T>(le: (T, T) -> bool, s: seq<T>)
    ensures multiset(Sorted(le, s)) == multiset(s)
  {
    if s != [] {
      SortedPermutes(le, s[1..]);
      InsertPermutes(le, s[0], Sorted(le, s[1..]));
      assert s == [s[0]] + s[1..];
    }
  }

  lemma {:induction false} InsertKeepsOrder<T(!new)>(le: (T, T) -> bool, x: T, s: seq<T>)
    requires TotalPreorder(le) && InOrder(le, s)
    ensures InOrder(le, Insert(le, x, s))
  {
    if s != [] && !le(x, s[0]) {
      InsertKeepsOrder(le, x, s[1..]);
      InsertPermutes(le, x, s[1..]);
      var r := Insert(le, x, s[1..]);
      forall k | 0 <= k < |r| ensures le(s[0], r[k]) {
        assert r[k] in multiset(r);
      }
    }
  }

  lemma {:induction false} SortedInOrder<T(!new)>(le: (T, T) -> bool, s: seq<T>)
    requires TotalPreorder(le)
    ensures InOrder(le, Sorted(le, s))
  {
    if s != [] {
      SortedInOrder(le, s[1..]);
      InsertKeepsOrder(le, s[0], Sorted(le, s[1..]));
    }
  }

  // Elements that may stand either way round.
  ghost predicate Interchangeable<T(!new)>(le: (T, T) -> bool, keep: T -> bool) {
    forall a, b :: keep(a) && keep(b) ==> le(a, b)
  }

  lemma {:induction false} FilterCons<T>(keep: T -> bool, x: T, s: seq<T>)
    ensures Filter(keep, [x] + s) == (if keep(x) then [x] else []) + Filter(keep, s)
  {
    FilterConcat(keep, [x], s);
    assert Init([x]) == [];
  }

  lemma {:induction false} InsertIsStable<T(!new)>(le: (T, T) -> bool, keep: T -> bool, x: T, s: seq<T>)
    requires Interchangeable(le, keep)
    ensures Filter(keep, Insert(le, x, s)) == Filter(keep, [x] + s)
  {
    FilterCons(keep, x, s);
    if s != [] && !le(x, s[0]) {
      InsertIsStable(le, keep, x, s[1..]);
      FilterCons(keep, s[0], Insert(le, x, s[1..]));
      FilterCons(keep, x, s[1..]);
      FilterCons(keep, s[0], s[1..]);
      assert s == [s[0]] + s[1..];
    }
  }

  // Those that may stand either way round stay as they stood.
  lemma {:induction false} SortedIsStable<T(!new)>(le: (T, T) -> bool, keep: T -> bool, s: seq<T>)
    requires Interchangeable(le, keep)
    ensures Filter(keep, Sorted(le, s)) == Filter(keep, s)
  {
    if s != [] {
      SortedIsStable(le, keep, s[1..]);
      InsertIsStable(le, keep, s[0], Sorted(le, s[1..]));
      FilterCons(keep, s[0], Sorted(le, s[1..]));
      FilterCons(keep, s[0], s[1..]);
      assert s == [s[0]] + s[1..];
    }
  }
}
