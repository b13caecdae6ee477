/** The numpy arrays the normaliser and the backends work on, over real numbers:
    one-dimensional vectors, rectangular batches of row vectors, numpy's
    tolerance comparison and boolean-mask indexing. */
module Arrays {

  type Vector = seq<real>

  /** A one- or two-dimensional array; `cols` is `shape[1]` of a batch. */
  datatype NDArray = Vec(v: Vector) | Mat(rows: seq<Vector>, cols: nat)
  {
    /** A batch is rectangular: every row has `cols` entries. */
    ghost predicate WellFormed() {
      Mat? ==> forall i :: 0 <= i < |rows| ==> |rows[i]| == cols
    }
  }

  /** A two-dimensional array, the shape every backend call takes. */
  type Matrix = a: NDArray | a.Mat? && a.WellFormed() witness Mat([], 0)

  /** The vectors a norm along the last axis is taken over: a vector is its own single row. */
  function Rows(a: NDArray): seq<Vector> {
    match a
    case Vec(v) => [v]
    case Mat(rows, _) => rows
  }

  ghost predicate SameShape(a: NDArray, b: NDArray) {
    match a
    case Vec(v) => b.Vec? && |b.v| == |v|
    case Mat(rows, cols) => b.Mat? && |b.rows| == |rows| && b.cols == cols
  }

  function Zeros(n: nat): (z: Vector)
    ensures |z| == n
  {
    seq(n, _ => 0.0)
  }

  function Sq(x: real): real {
    x * x
  }

  /** The sum of squares of the entries: the squared Euclidean norm. */
  function SumSq(v: Vector): (s: real)
    ensures s >= 0.0
  {
    if v == [] then 0.0 else Sq(v[0]) + SumSq(v[1..])
  }

  /** `n` is the Euclidean norm of `v`: the non-negative square root of its sum of squares. */
  ghost predicate IsNormOf(n: real, v: Vector) {
    n >= 0.0 && Sq(n) == SumSq(v)
  }

  /** Elementwise division by a scalar, `v / n`; the divisor is never zero. */
  function Div(v: Vector, n: real): (r: Vector)
    requires n != 0.0
    ensures |r| == |v|
  {
    seq(|v|, j requires 0 <= j < |v| => v[j] / n)
  }

  /* Facts about squares of reals, each proved from products of distinct terms. */

  lemma SqPositive(x: real)
    requires x != 0.0
    ensures Sq(x) > 0.0
  {
    if x > 0.0 {
      var h := x / 2.0;
      assert Sq(x) == x * (h + h);
    } else {
      var y := -x;
      var h := y / 2.0;
      assert Sq(x) == y * (h + h);
    }
  }

  lemma SqZero(x: real)
    requires Sq(x) == 0.0
    ensures x == 0.0
  {
    if x != 0.0 {
      SqPositive(x);
    }
  }

  lemma MulMonotone(x: real, y: real, z: real)
    requires x >= 0.0 && y <= z
    ensures x * y <= x * z
  {
  }

  lemma SqOne(x: real)
    requires x >= 0.0 && Sq(x) == 1.0
    ensures x == 1.0
  {
    if x < 1.0 {
      MulMonotone(x, x, 1.0);
    }
  }

  lemma SqDiv(a: real, n: real)
    requires n != 0.0
    ensures Sq(a / n) * Sq(n) == Sq(a)
  {
    var q := a / n;
    assert q * n == a;
    assert (q * q) * (n * n) == (q * n) * (q * n);
  }

  /** Dividing a vector by `n` divides its sum of squares by the square of `n`. */
  lemma {:induction false} SumSqDiv(v: Vector, n: real)
    requires n != 0.0
    ensures SumSq(Div(v, n)) * Sq(n) == SumSq(v)
  {
    if v != [] {
      SumSqDiv(v[1..], n);
      assert Div(v, n)[1..] == Div(v[1..], n);
      assert Div(v, n)[0] == v[0] / n;
      SqDiv(v[0], n);
      var tail := SumSq(Div(v[1..], n));
      assert (Sq(v[0] / n) + tail) * Sq(n) == Sq(v[0] / n) * Sq(n) + tail * Sq(n);
    }
  }

  lemma {:induction false} SumSqZeros(n: nat)
    ensures SumSq(Zeros(n)) == 0.0
  {
    if n > 0 {
      SumSqZeros(n - 1);
      assert Zeros(n)[1..] == Zeros(n - 1);
    }
  }

  /** Only the zero vector has a zero sum of squares. */
  lemma {:induction false} SumSqZeroIsZeros(v: Vector)
    requires SumSq(v) == 0.0
    ensures v == Zeros(|v|)
  {
    if v != [] {
      SqZero(v[0]);
      SumSqZeroIsZeros(v[1..]);
      assert Zeros(|v|) == [0.0] + Zeros(|v| - 1);
      assert v == [v[0]] + v[1..];
    }
  }

  /** A Euclidean norm is zero exactly on the zero vector. */
  lemma NormZeroIffZeros(n: real, v: Vector)
    requires IsNormOf(n, v)
    ensures n == 0.0 <==> v == Zeros(|v|)
  {
    if v == Zeros(|v|) {
      SumSqZeros(|v|);
      SqZero(n);
    } else if n == 0.0 {
      SumSqZeroIsZeros(v);
    }
  }

  /** A Euclidean norm is one on a unit vector. */
  lemma NormOfUnit(n: real, v: Vector)
    requires IsNormOf(n, v) && SumSq(v) == 1.0
    ensures n == 1.0
  {
    SqOne(n);
  }

  /** Dividing a vector by its non-zero Euclidean norm gives a unit vector. */
  lemma DivByNormIsUnit(v: Vector, n: real)
    requires IsNormOf(n, v) && n != 0.0
    ensures SumSq(Div(v, n)) == 1.0
  {
    SumSqDiv(v, n);
    SqPositive(n);
    var s := SumSq(Div(v, n));
    assert s * Sq(n) == 1.0 * Sq(n);
    assert s == (s * Sq(n)) / Sq(n);
  }

  /** numpy's default tolerances for `isclose` and `allclose`. */
  const RTOL: real := 0.00001
  const ATOL: real := 0.00000001

  function Abs(x: real): real {
    if x < 0.0 then -x else x
  }

  /** `np.isclose(a, b)`: |a - b| <= atol + rtol * |b|. */
  predicate IsClose(a: real, b: real) {
    Abs(a - b) <= ATOL + RTOL * Abs(b)
  }

  /** The number of `True` entries of a boolean mask. */
  function Count(mask: seq<bool>): (c: nat)
    ensures c <= |mask|
  {
    if mask == [] then 0 else (if mask[0] then 1 else 0) + Count(mask[1..])
  }

  /** Boolean-mask indexing `xs[mask]`: the entries at `True` positions, in order. */
  function Select<T>(xs: seq<T>, mask: seq<bool>): (r: seq<T>)
    requires |xs| == |mask|
    ensures |r| == Count(mask)
  {
    if xs == [] then [] else (if mask[0] then [xs[0]] else []) + Select(xs[1..], mask[1..])
  }

  /** Boolean-mask assignment `base[mask] = vals` on a copy of `base`. */
  function Scatter<T>(base: seq<T>, mask: seq<bool>, vals: seq<T>): (r: seq<T>)
    requires |base| == |mask| && |vals| == Count(mask)
    ensures |r| == |base|
  {
    if base == [] then []
    else if mask[0] then [vals[0]] + Scatter(base[1..], mask[1..], vals[1..])
    else [base[0]] + Scatter(base[1..], mask[1..], vals)
  }

  /** The positions `p >= lo` of the `True` entries of a mask, ascending. */
  function PositionsFrom(mask: seq<bool>, lo: nat): (ps: seq<int>)
    requires lo <= |mask|
    ensures |ps| == Count(mask[lo..])
    decreases |mask| - lo
  {
    if lo == |mask| then []
    else
      assert mask[lo..][1..] == mask[lo + 1..];
      (if mask[lo] then [lo] else []) + PositionsFrom(mask, lo + 1)
  }

  /** The positions of the `True` entries of a mask, ascending. */
  function TruePositions(mask: seq<bool>): (ps: seq<int>)
    ensures |ps| == Count(mask)
  {
    assert mask[0..] == mask;
    PositionsFrom(mask, 0)
  }

  lemma {:induction false} PositionsFromExact(mask: seq<bool>, lo: nat)
    requires lo <= |mask|
    ensures forall i :: 0 <= i < |PositionsFrom(mask, lo)| ==>
      lo <= PositionsFrom(mask, lo)[i] < |mask| && mask[PositionsFrom(mask, lo)[i]]
    ensures forall i, j :: 0 <= i < j < |PositionsFrom(mask, lo)| ==>
      PositionsFrom(mask, lo)[i] < PositionsFrom(mask, lo)[j]
    ensures forall p :: lo <= p < |mask| && mask[p] ==> p in PositionsFrom(mask, lo)
    decreases |mask| - lo
  {
    if lo < |mask| {
      PositionsFromExact(mask, lo + 1);
      var rest := PositionsFrom(mask, lo + 1);
      var head: seq<int> := if mask[lo] then [lo] else [];
      assert PositionsFrom(mask, lo) == head + rest;
    }
  }

  /** TruePositions lists every `True` position of the mask, and only those, strictly ascending. */
  lemma TruePositionsExact(mask: seq<bool>)
    ensures var ps := TruePositions(mask);
      && (forall i :: 0 <= i < |ps| ==> 0 <= ps[i] < |mask| && mask[ps[i]])
      && (forall i, j :: 0 <= i < j < |ps| ==> ps[i] < ps[j])
      && (forall p :: 0 <= p < |mask| && mask[p] ==> p in ps)
  {
    PositionsFromExact(mask, 0);
  }

  lemma {:induction false} SelectGathersFrom<T>(xs: seq<T>, mask: seq<bool>, lo: nat)
    requires |xs| == |mask| && lo <= |mask|
    ensures forall i :: 0 <= i < |PositionsFrom(mask, lo)| ==>
      lo <= PositionsFrom(mask, lo)[i] < |xs| &&
      Select(xs[lo..], mask[lo..])[i] == xs[PositionsFrom(mask, lo)[i]]
    decreases |mask| - lo
  {
    PositionsFromExact(mask, lo);
    if lo < |mask| {
      SelectGathersFrom(xs, mask, lo + 1);
      assert xs[lo..][1..] == xs[lo + 1..];
      assert mask[lo..][1..] == mask[lo + 1..];
    }
  }

  /** Mask indexing gathers the entries at the mask's `True` positions. */
  lemma SelectGathers<T>(xs: seq<T>, mask: seq<bool>)
    requires |xs| == |mask|
    ensures var ps := TruePositions(mask);
      forall i :: 0 <= i < |ps| ==> 0 <= ps[i] < |xs| && Select(xs, mask)[i] == xs[ps[i]]
  {
    SelectGathersFrom(xs, mask, 0);
    assert xs[0..] == xs && mask[0..] == mask;
  }
}
