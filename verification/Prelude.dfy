/** Values every other module shares: optional and failing results, sums and maxima of sequences. */
module Prelude {
  datatype Option<+T> = None | Some(value: T)

  datatype Result<+T, +E> = Ok(value: T) | Err(error: E)

  function Last<T>(s: seq<T>): T
    requires s != []
  {
    s[|s| - 1]
  }

  function Init<T>(s: seq<T>): seq<T>
    requires s != []
  {
    s[..|s| - 1]
  }

  function Sum(s: seq<nat>): nat {
    if s == [] then 0 else Sum(Init(s)) + Last(s)
  }

  // The largest element; 0 for no elements.
  function Max(s: seq<nat>): (x: nat)
    ensures forall i :: 0 <= i < |s| ==> s[i] <= x
    ensures s != [] ==> x in s
  {
    if s == [] then 0
    else
      var m := Max(Init(s));
      if |s| > 1 && m >= Last(s) then m else Last(s)
  }

  lemma ConcatAssociates<T>(a: seq<T>, b: seq<T>, c: seq<T>)
    ensures a + b + c == a + (b + c)
  {
  }

  lemma InitOfSnoc<T>(s: seq<T>, x: T)
    ensures Init(s + [x]) == s && Last(s + [x]) == x
  {
  }

  lemma {:induction false} SumSnoc(s: seq<nat>, x: nat)
    ensures Sum(s + [x]) == Sum(s) + x
  {
    assert Init(s + [x]) == s;
  }

  lemma {:induction false} SumUpdate(s: seq<nat>, w: nat, x: nat)
    requires w < |s|
    ensures Sum(s[w := s[w] + x]) == Sum(s) + x
  {
    var t := s[w := s[w] + x];
    if w == |s| - 1 {
      assert Init(t) == Init(s);
    } else {
      SumUpdate(Init(s), w, x);
      assert Init(t) == Init(s)[w := s[w] + x];
    }
  }

  lemma {:induction false} SumAtLeast(s: seq<nat>, x: nat)
    requires forall i :: 0 <= i < |s| ==> x <= s[i]
    ensures |s| * x <= Sum(s)
  {
    if s != [] {
      SumAtLeast(Init(s), x);
      assert |s| * x == |Init(s)| * x + x;
    }
  }

  lemma {:induction false} SumAtMost(s: seq<nat>, x: nat)
    requires forall i :: 0 <= i < |s| ==> s[i] <= x
    ensures Sum(s) <= |s| * x
  {
    if s != [] {
      SumAtMost(Init(s), x);
      assert |s| * x == |Init(s)| * x + x;
    }
  }

  lemma {:induction false} MultisetSnoc<T>(s: seq<T>)
    requires s != []
    ensures multiset(s) == multiset(Init(s)) + multiset{Last(s)}
  {
    assert s == Init(s) + [Last(s)];
  }

  lemma {:induction false} MultisetRemove<T>(s: seq<T>, i: nat)
    requires i < |s|
    ensures multiset(s) == multiset(s[..i] + s[i + 1..]) + multiset{s[i]}
  {
    assert s == s[..i] + [s[i]] + s[i + 1..];
  }

  lemma {:induction false} MultisetCancel<T>(a: multiset<T>, b: multiset<T>, x: T)
    requires a + multiset{x} == b + multiset{x}
    ensures a == b
  {
    assert a == a + multiset{x} - multiset{x};
    assert b == b + multiset{x} - multiset{x};
  }

  lemma {:induction false} MulMonotone(a: nat, b: nat, c: nat)
    ensures a <= b ==> a * c <= b * c
  {
    if a <= b {
      assert b * c == a * c + (b - a) * c;
    }
  }

  // What `f` finds for each element, in order.
  function Collect<A, B>(f: A -> Option<B>, xs: seq<A>): seq<B> {
    if xs == [] then []
    else
      var y := f(Last(xs));
      Collect(f, Init(xs)) + if y.Some? then [y.value] else []
  }

  lemma {:induction false} CollectSnoc<A, B>(f: A -> Option<B>, xs: seq<A>, x: A)
    ensures Collect(f, xs + [x]) == Collect(f, xs) + if f(x).Some? then [f(x).value] else []
  {
    InitOfSnoc(xs, x);
  }

  lemma {:induction false} CollectConcat<A, B>(f: A -> Option<B>, xs: seq<A>, ys: seq<A>)
    ensures Collect(f, xs + ys) == Collect(f, xs) + Collect(f, ys)
  {
    if ys == [] {
      assert xs + ys == xs;
    } else {
      CollectConcat(f, xs, Init(ys));
      assert Init(xs + ys) == xs + Init(ys);
    }
  }

  lemma {:induction false} CollectHolds<A, B>(f: A -> Option<B>, xs: seq<A>, y: B)
    ensures y in Collect(f, xs) <==> exists i :: 0 <= i < |xs| && f(xs[i]) == Some(y)
  {
    if xs != [] {
      CollectHolds(f, Init(xs), y);
      assert forall i :: 0 <= i < |Init(xs)| ==> Init(xs)[i] == xs[i];
      if y in Collect(f, Init(xs)) {
        var i :| 0 <= i < |Init(xs)| && f(Init(xs)[i]) == Some(y);
        assert f(xs[i]) == Some(y);
      }
    }
  }

  function Filter<T>(keep: T -> bool, s: seq<T>): seq<T> {
    if s == [] then []
    else Filter(keep, Init(s)) + if keep(Last(s)) then [Last(s)] else []
  }

  lemma {:induction false} FilterHolds<T>(keep: T -> bool, s: seq<T>, x: T)
    ensures x in Filter(keep, s) <==> x in s && keep(x)
  {
    if s != [] {
      FilterHolds(keep, Init(s), x);
      assert x in s <==> x in Init(s) || x == Last(s) by {
        assert s == Init(s) + [Last(s)];
      }
    }
  }

  lemma {:induction false} FilterConcat<T>(keep: T -> bool, s: seq<T>, t: seq<T>)
    ensures Filter(keep, s + t) == Filter(keep, s) + Filter(keep, t)
  {
    if t == [] {
      assert s + t == s;
    } else {
      assert Init(s + t) == s + Init(t);
      FilterConcat(keep, s, Init(t));
    }
  }

  lemma {:induction false} FilterLast<T>(keep: T -> bool, s: seq<T>)
    requires s != []
    ensures Filter(keep, s) == if keep(Last(s)) then Filter(keep, Init(s)) + [Last(s)] else Filter(keep, Init(s))
  {
  }

  lemma {:induction false} FilterSame<T>(keep: T -> bool, other: T -> bool, s: seq<T>)
    requires forall i :: 0 <= i < |s| ==> keep(s[i]) == other(s[i])
    ensures Filter(keep, s) == Filter(other, s)
  {
    if s != [] {
      FilterSame(keep, other, Init(s));
    }
  }

  lemma {:induction false} InitLast<T>(s: seq<T>)
    requires s != []
    ensures s == Init(s) + [Last(s)]
  {
  }

  lemma {:induction false} FilterAll<T>(keep: T -> bool, s: seq<T>)
    requires forall i :: 0 <= i < |s| ==> keep(s[i])
    ensures Filter(keep, s) == s
  {
    if s != [] {
      var rest := Init(s);
      forall i | 0 <= i < |rest|
        ensures keep(rest[i])
      {
        assert rest[i] == s[i];
      }
      FilterAll(keep, rest);
      FilterLast(keep, s);
      InitLast(s);
    }
  }

  // Where the `i`-th of a filtered sequence stands in the whole.
  lemma {:induction false} FilterPlace<T>(keep: T -> bool, s: seq<T>, i: nat) returns (j: nat)
    requires i < |Filter(keep, s)|
    ensures j < |s| && s[j] == Filter(keep, s)[i] && Filter(keep, s[..j]) == Filter(keep, s)[..i]
  {
    if i < |Filter(keep, Init(s))| {
      j := FilterPlace(keep, Init(s), i);
      assert Init(s)[..j] == s[..j];
    } else {
      j := |s| - 1;
      assert s[..j] == Init(s);
    }
  }

  // The index of the first element with this key; `|s|` when there is none.
  function IndexOf<T>(keyOf: T -> string, s: seq<T>, key: string): (i: nat)
    ensures i <= |s|
    ensures i < |s| ==> keyOf(s[i]) == key
    ensures forall k :: 0 <= k < i ==> keyOf(s[k]) != key
  {
    if s == [] then 0
    else if keyOf(s[0]) == key then 0
    else 1 + IndexOf(keyOf, s[1..], key)
  }

  function Not<T>(keep: T -> bool): T -> bool {
    x => !keep(x)
  }

  ghost predicate NoRepeats<T>(s: seq<T>) {
    forall i, j :: 0 <= i < j < |s| ==> s[i] != s[j]
  }

  lemma {:induction false} FilterHasNoRepeats<T>(keep: T -> bool, s: seq<T>)
    requires NoRepeats(s)
    ensures NoRepeats(Filter(keep, s))
  {
    if s != [] {
      FilterHasNoRepeats(keep, Init(s));
      FilterHolds(keep, Init(s), Last(s));
      assert Last(s) !in Init(s);
    }
  }
}
