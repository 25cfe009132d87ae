/** A node's variants (plan.py, engine.py `_plan` and `_execute`): the products they are made of, the
    ids they are given, and the order they run in. */
module Plans {
  import opened Prelude

  // ---- products ----

  // `[(x, y) for x in xs for y in ys]`
  function Row<X, Y>(x: X, ys: seq<Y>): (r: seq<(X, Y)>) {
    seq(|ys|, i requires 0 <= i < |ys| => (x, ys[i]))
  }

  function Cross<X, Y>(xs: seq<X>, ys: seq<Y>): seq<(X, Y)> {
    if xs == [] then [] else Cross(Init(xs), ys) + Row(Last(xs), ys)
  }

  lemma {:induction false} NextMultiple(a: nat, b: nat, d: nat)
    ensures a < b ==> a * d + d <= b * d
  {
    MulMonotone(a + 1, b, d);
    assert (a + 1) * d == a * d + d;
  }

  lemma {:induction false} OneQuotient(q: nat, r: nat, k: nat, m: nat, d: nat)
    requires q * d + r == k * d + m && r < d && m < d
    ensures q == k && r == m
  {
    NextMultiple(q, k, d);
    NextMultiple(k, q, d);
  }

  lemma {:induction false} DivModOf(q: nat, r: nat, d: nat)
    requires r < d
    ensures (q * d + r) / d == q && (q * d + r) % d == r
  {
    var n := q * d + r;
    OneQuotient(q, r, n / d, n % d, d);
  }

  lemma {:induction false} InRow(i: nat, rows: nat, d: nat)
    requires i < rows * d
    ensures d > 0 && i / d < rows && i % d < d && i == i / d * d + i % d
  {
    if d > 0 {
      MulMonotone(rows, i / d, d);
    }
  }

  lemma {:induction false} CrossLength<X, Y>(xs: seq<X>, ys: seq<Y>)
    ensures |Cross(xs, ys)| == |xs| * |ys|
  {
    if xs != [] {
      CrossLength(Init(xs), ys);
      assert |xs| * |ys| == (|xs| - 1) * |ys| + |ys|;
    }
  }

  // The inner sequence varies fastest: entry `i` is entry `i / |ys|` of the outer with `i % |ys|` of
  // the inner.
  lemma {:induction false} CrossAt<X, Y>(xs: seq<X>, ys: seq<Y>, i: nat)
    requires i < |xs| * |ys|
    ensures |Cross(xs, ys)| == |xs| * |ys| && |ys| > 0 && i / |ys| < |xs|
    ensures Cross(xs, ys)[i] == (xs[i / |ys|], ys[i % |ys|])
  {
    InRow(i, |xs|, |ys|);
    CrossLength(xs, ys);
    CrossLength(Init(xs), ys);
    var q := |xs| - 1;
    assert |xs| * |ys| == q * |ys| + |ys|;
    if i < q * |ys| {
      CrossAt(Init(xs), ys, i);
    } else {
      DivModOf(q, i - q * |ys|, |ys|);
    }
  }

  // `itertools.product`
  function Product<T>(axes: seq<seq<T>>): seq<seq<T>> {
    if axes == [] then [[]]
    else
      var pairs := Cross(Product(Init(axes)), Last(axes));
      seq(|pairs|, i requires 0 <= i < |pairs| => pairs[i].0 + [pairs[i].1])
  }

  // The number of combinations of the axes.
  function Size<T>(axes: seq<seq<T>>): nat {
    if axes == [] then 1 else Size(Init(axes)) * |Last(axes)|
  }

  // The digits of `i` in the mixed radix of the axes' lengths, the last axis least significant.
  function Digits<T>(axes: seq<seq<T>>, i: nat): (digits: seq<nat>)
    requires i < Size(axes)
    ensures |digits| == |axes|
    ensures forall j :: 0 <= j < |axes| ==> digits[j] < |axes[j]|
  {
    if axes == [] then []
    else
      var d := |Last(axes)|;
      InRow(i, Size(Init(axes)), d);
      Digits(Init(axes), i / d) + [i % d]
  }

  lemma {:induction false} LastDigit<T>(axes: seq<seq<T>>, i: nat)
    requires axes != [] && i < Size(axes)
    ensures var d := |Last(axes)|;
            d > 0 && i / d < Size(Init(axes)) && Digits(axes, i) == Digits(Init(axes), i / d) + [i % d]
  {
    InRow(i, Size(Init(axes)), |Last(axes)|);
  }

  // Combination `i` takes from each axis the value its digit names, so every combination occurs
  // once, with the last axis varying fastest.
  lemma {:induction false} ProductAt<T>(axes: seq<seq<T>>, i: nat)
    requires i < Size(axes)
    ensures |Product(axes)| == Size(axes) && |Product(axes)[i]| == |axes|
    ensures forall j :: 0 <= j < |axes| ==> Product(axes)[i][j] == axes[j][Digits(axes, i)[j]]
  {
    if axes != [] {
      var rest, axis := Init(axes), Last(axes);
      LastDigit(axes, i);
      ProductAt(rest, i / |axis|);
      CrossAt(Product(rest), axis, i);
      PickedByDigits(axes, Product(rest)[i / |axis|], Product(axes)[i], Digits(axes, i));
    }
  }

  // A pick from all axes but the last, and one from the last.
  lemma {:induction false} PickedByDigits<T>(axes: seq<seq<T>>, before: seq<T>, picked: seq<T>, digits: seq<nat>)
    requires axes != [] && Chooses(axes, digits) && |before| == |axes| - 1
    requires forall j :: 0 <= j < |before| ==> before[j] == Init(axes)[j][Init(digits)[j]]
    requires picked == before + [Last(axes)[Last(digits)]]
    ensures |picked| == |axes| && forall j :: 0 <= j < |axes| ==> picked[j] == axes[j][digits[j]]
  {
  }

  lemma {:induction false} CellsInOrder(q: nat, r: nat, k: nat, m: nat, d: nat)
    requires q * d + r < k * d + m && r < d && m < d
    ensures q <= k && (q == k ==> r < m)
  {
    NextMultiple(k, q, d);
  }

  lemma {:induction false} CellAt(i: nat, rows: nat, d: nat) returns (q: nat, r: nat)
    requires i < rows * d
    ensures d > 0 && q == i / d < rows && r == i % d < d && i == q * d + r
  {
    InRow(i, rows, d);
    q, r := i / d, i % d;
  }

  lemma {:induction false} DivInOrder(i: nat, j: nat, rows: nat, d: nat)
    requires i < j < rows * d
    ensures d > 0 && i / d <= j / d < rows && (i / d == j / d ==> i % d < j % d)
  {
    var q, r := CellAt(i, rows, d);
    var k, m := CellAt(j, rows, d);
    CellsInOrder(q, r, k, m, d);
  }

  // Combinations come in lexicographic order: of two, the later one is further along the first axis on
  // which they differ.
  lemma {:induction false} ProductInOrder<T>(axes: seq<seq<T>>, i: nat, j: nat) returns (k: nat)
    requires i < j < Size(axes)
    ensures k < |axes| && Digits(axes, i)[k] < Digits(axes, j)[k]
    ensures forall a :: 0 <= a < k ==> Digits(axes, i)[a] == Digits(axes, j)[a]
  {
    var rest, d := Init(axes), |Last(axes)|;
    DivInOrder(i, j, Size(rest), d);
    LastDigit(axes, i);
    LastDigit(axes, j);
    if i / d < j / d {
      k := ProductInOrder(rest, i / d, j / d);
    } else {
      k := |rest|;
    }
  }

  // A choice of one position in each axis.
  predicate Chooses<T>(axes: seq<seq<T>>, digits: seq<nat>) {
    |digits| == |axes| && forall j :: 0 <= j < |axes| ==> digits[j] < |axes[j]|
  }

  // Where the combination of a choice stands in the product.
  function PlaceOf<T>(axes: seq<seq<T>>, digits: seq<nat>): nat
    requires |digits| == |axes|
  {
    if axes == [] then 0 else PlaceOf(Init(axes), Init(digits)) * |Last(axes)| + Last(digits)
  }

  lemma {:induction false} CellOf(q: nat, rows: nat, r: nat, d: nat) returns (i: nat)
    requires q < rows && r < d
    ensures i == q * d + r && i < rows * d && i / d == q && i % d == r
  {
    i := q * d + r;
    DivModOf(q, r, d);
    MulMonotone(q + 1, rows, d);
  }

  // Every choice has its place, and no place serves two choices: the product holds each combination
  // exactly once.
  lemma {:induction false} ChoiceHasPlace<T>(axes: seq<seq<T>>, digits: seq<nat>)
    requires Chooses(axes, digits)
    ensures PlaceOf(axes, digits) < Size(axes) && Digits(axes, PlaceOf(axes, digits)) == digits
  {
    if axes != [] {
      var rest, more := Init(axes), Init(digits);
      ChoiceHasPlace(rest, more);
      var i := CellOf(PlaceOf(rest, more), Size(rest), Last(digits), |Last(axes)|);
      assert PlaceOf(axes, digits) == i && Size(axes) == Size(rest) * |Last(axes)|;
      assert Digits(axes, i) == Digits(rest, PlaceOf(rest, more)) + [Last(digits)];
      assert digits == more + [Last(digits)];
    }
  }

  lemma {:induction false} PlaceHasOneChoice<T>(axes: seq<seq<T>>, i: nat)
    requires i < Size(axes)
    ensures PlaceOf(axes, Digits(axes, i)) == i
  {
    if axes != [] {
      var d := |Last(axes)|;
      InRow(i, Size(Init(axes)), d);
      PlaceHasOneChoice(Init(axes), i / d);
      InitOfSnoc(Digits(Init(axes), i / d), i % d);
    }
  }
}
