/** The zero-safe normalisation of vicinity/utils.py, over real numbers.

    `np.linalg.norm` of one vector is the parameter `norm`; the lemmas that need it
    to be the Euclidean norm say so in their `requires`. Arrays are values, so no
    function here can change its caller's array: the "copy before the masked write"
    of the source has nothing left to guard against. */
module Utils {
  import opened Common
  import opened Arrays

  /** `np.linalg.norm` applied to one vector. */
  type Norm = Vector -> real

  /** The norm routine is the Euclidean norm on every vector. */
  ghost predicate IsEuclidean(norm: Norm) {
    forall v :: IsNormOf(norm(v), v)
  }

  /** `np.linalg.norm(vectors, axis=1)`: one norm per row. */
  function RowNorms(rows: seq<Vector>, norm: Norm): (ns: seq<real>)
    ensures |ns| == |rows|
  {
    seq(|rows|, i requires 0 <= i < |rows| => norm(rows[i]))
  }

  /** `np.zeros_like` of a batch. */
  function ZerosLike(rows: seq<Vector>): (z: seq<Vector>)
    ensures |z| == |rows|
  {
    seq(|rows|, i requires 0 <= i < |rows| => Zeros(|rows[i]|))
  }

  /** The mask `norm > 0.0`. */
  function Positive(ns: seq<real>): (mask: seq<bool>)
    ensures |mask| == |ns|
  {
    seq(|ns|, i requires 0 <= i < |ns| => ns[i] > 0.0)
  }

  /** `np.any(np.isclose(norm, 0.0))`. */
  predicate AnyNearZero(ns: seq<real>) {
    exists i :: 0 <= i < |ns| && IsClose(ns[i], 0.0)
  }

  /** `vectors / norm[:, None]`: every row divided by its own norm. */
  function DivideRows(rows: seq<Vector>, ns: seq<real>): (r: seq<Vector>)
    requires |rows| == |ns|
    requires forall i :: 0 <= i < |ns| ==> ns[i] != 0.0
    ensures |r| == |rows|
  {
    seq(|rows|, i requires 0 <= i < |rows| => Div(rows[i], ns[i]))
  }

  /** The norms the mask keeps are all positive, so the masked division never divides by zero. */
  lemma {:induction false} SelectedNormsPositive(ns: seq<real>)
    ensures forall i :: 0 <= i < |Select(ns, Positive(ns))| ==> Select(ns, Positive(ns))[i] > 0.0
  {
    var mask := Positive(ns);
    SelectGathers(ns, mask);
    TruePositionsExact(mask);
  }

  /** The masked path: `result = zeros_like(vectors)`, then
      `result[nonzero] = vectors[nonzero] / norm[nonzero][:, None]` with `nonzero = norm > 0.0`. */
  function MaskedDivide(rows: seq<Vector>, ns: seq<real>): (r: seq<Vector>)
    requires |rows| == |ns|
    ensures |r| == |rows|
  {
    var nonzero := Positive(ns);
    var maskedNorm := Select(ns, nonzero);
    var maskedVectors := Select(rows, nonzero);
    SelectedNormsPositive(ns);
    Scatter(ZerosLike(rows), nonzero, DivideRows(maskedVectors, maskedNorm))
  }

  /** One step of the masked path: the first row is divided or zeroed on its own, and
      the remaining rows go through the masked path by themselves. */
  lemma MaskedDivideCons(rows: seq<Vector>, ns: seq<real>)
    requires |rows| == |ns| && rows != []
    ensures MaskedDivide(rows, ns) ==
      [if ns[0] > 0.0 then Div(rows[0], ns[0]) else Zeros(|rows[0]|)] + MaskedDivide(rows[1..], ns[1..])
  {
    var m := Positive(ns);
    assert m[1..] == Positive(ns[1..]);
    assert ZerosLike(rows)[1..] == ZerosLike(rows[1..]);
    SelectedNormsPositive(ns);
    SelectedNormsPositive(ns[1..]);
    var selRows, selNorms := Select(rows[1..], m[1..]), Select(ns[1..], m[1..]);
    var tail := MaskedDivide(rows[1..], ns[1..]);
    assert tail == Scatter(ZerosLike(rows[1..]), m[1..], DivideRows(selRows, selNorms));
    if m[0] {
      assert Select(rows, m) == [rows[0]] + selRows;
      assert Select(ns, m) == [ns[0]] + selNorms;
      var quotients := DivideRows(Select(rows, m), Select(ns, m));
      assert quotients == [Div(rows[0], ns[0])] + DivideRows(selRows, selNorms);
    } else {
      assert Select(rows, m) == selRows;
      assert Select(ns, m) == selNorms;
    }
  }

  /** Row by row, the masked path divides each row whose norm is positive, however
      small, by that norm, and leaves every other row zero. */
  lemma {:induction false} MaskedDivideRowwise(rows: seq<Vector>, ns: seq<real>)
    requires |rows| == |ns|
    ensures forall i :: 0 <= i < |rows| ==>
      MaskedDivide(rows, ns)[i] == if ns[i] > 0.0 then Div(rows[i], ns[i]) else Zeros(|rows[i]|)
  {
    if rows != [] {
      MaskedDivideRowwise(rows[1..], ns[1..]);
      MaskedDivideCons(rows, ns);
      forall i | 1 <= i < |rows|
        ensures MaskedDivide(rows, ns)[i] == if ns[i] > 0.0 then Div(rows[i], ns[i]) else Zeros(|rows[i]|)
      {
        assert rows[1..][i - 1] == rows[i] && ns[1..][i - 1] == ns[i];
      }
    }
  }

  /** `normalize(vectors, norms)`. A vector takes the one-dimensional path, which
      computes its own norm and ignores `norms`; a batch uses `norms` verbatim when
      given and computes one norm per row otherwise. Every division in it has a
      non-zero divisor. */
  function Normalize(vectors: NDArray, norms: Option<seq<real>>, norm: Norm): (r: NDArray)
    requires vectors.WellFormed()
    requires vectors.Mat? && norms.Some? ==> |norms.value| == |vectors.rows|
    ensures r.WellFormed() && SameShape(vectors, r)
  {
    match vectors
    case Vec(v) =>
      var n := norm(v);
      if IsClose(n, 0.0) then Vec(Zeros(|v|)) else Vec(Div(v, n))
    case Mat(rows, cols) =>
      var ns := if norms.Some? then norms.value else RowNorms(rows, norm);
      if AnyNearZero(ns) then
        MaskedDivideRowwise(rows, ns);
        Mat(MaskedDivide(rows, ns), cols)
      else
        Mat(DivideRows(rows, ns), cols)
  }

  /** What `normalize_or_copy` hands back: its very argument, or a new array. */
  datatype Normalized = SameObject | NewArray(values: NDArray)

  /** The array the caller ends up holding. */
  function Contents(r: Normalized, input: NDArray): NDArray {
    match r
    case SameObject => input
    case NewArray(a) => a
  }

  /** `np.allclose(norms[norms != 0], 1)`. */
  predicate AllUnitLength(ns: seq<real>) {
    forall i :: 0 <= i < |ns| && ns[i] != 0.0 ==> IsClose(ns[i], 1.0)
  }

  /** `normalize_or_copy(vectors)`: the input itself when its non-zero rows are all
      unit length within tolerance, otherwise `normalize` given the norms already
      computed, which gives what a fresh `normalize` would. */
  function NormalizeOrCopy(vectors: NDArray, norm: Norm): (r: Normalized)
    requires vectors.WellFormed()
    ensures r == SameObject <==> forall i :: 0 <= i < |Rows(vectors)| && norm(Rows(vectors)[i]) != 0.0 ==>
      IsClose(norm(Rows(vectors)[i]), 1.0)
    ensures r.NewArray? ==> r.values == Normalize(vectors, None, norm)
    ensures Contents(r, vectors).WellFormed() && SameShape(vectors, Contents(r, vectors))
  {
    var norms := RowNorms(Rows(vectors), norm);
    assert forall i :: 0 <= i < |norms| ==> norms[i] == norm(Rows(vectors)[i]);
    if AllUnitLength(norms) then SameObject else NewArray(Normalize(vectors, Some(norms), norm))
  }

  /* Properties of the normaliser. */

  /** A one-dimensional input ignores `norms`; with the Euclidean norm, the zero
      vector stays zero, a vector whose norm is close to zero becomes the zero
      vector, and every other vector becomes a unit vector pointing the same way. */
  lemma NormalizeVectorUnitOrZero(v: Vector, norms: Option<seq<real>>, norm: Norm)
    requires IsNormOf(norm(v), v)
    ensures var r := Normalize(Vec(v), norms, norm);
      && r == Normalize(Vec(v), None, norm)
      && (v == Zeros(|v|) ==> r.v == v)
      && (IsClose(norm(v), 0.0) ==> r.v == Zeros(|v|))
      && (!IsClose(norm(v), 0.0) ==> SumSq(r.v) == 1.0 && forall j :: 0 <= j < |v| ==> r.v[j] * norm(v) == v[j])
  {
    NormZeroIffZeros(norm(v), v);
    if !IsClose(norm(v), 0.0) {
      DivByNormIsUnit(v, norm(v));
    }
  }

  /** A batch, row by row: `norms` is used verbatim when given. When some norm is
      close to zero, a row whose norm is positive, however small, is divided by it
      and any other row becomes zero; otherwise every row is divided by its norm. */
  lemma NormalizeRowwise(rows: seq<Vector>, cols: nat, norms: Option<seq<real>>, norm: Norm)
    requires Mat(rows, cols).WellFormed()
    requires norms.Some? ==> |norms.value| == |rows|
    ensures var ns := if norms.Some? then norms.value else RowNorms(rows, norm);
      var r := Normalize(Mat(rows, cols), norms, norm);
      forall i :: 0 <= i < |rows| ==>
        if ns[i] > 0.0 || !AnyNearZero(ns) then ns[i] != 0.0 && r.rows[i] == Div(rows[i], ns[i])
        else r.rows[i] == Zeros(cols)
  {
    var ns := if norms.Some? then norms.value else RowNorms(rows, norm);
    if AnyNearZero(ns) {
      MaskedDivideRowwise(rows, ns);
    }
  }

  /** With the Euclidean norm, a batch comes out with every zero row still zero and
      every other row of unit length, including rows whose norm is tiny. */
  lemma NormalizeRowsUnitOrZero(rows: seq<Vector>, cols: nat, norm: Norm)
    requires Mat(rows, cols).WellFormed()
    requires forall i :: 0 <= i < |rows| ==> IsNormOf(norm(rows[i]), rows[i])
    ensures var r := Normalize(Mat(rows, cols), None, norm);
      forall i :: 0 <= i < |rows| ==>
        && (rows[i] == Zeros(cols) ==> r.rows[i] == rows[i])
        && (rows[i] != Zeros(cols) ==> SumSq(r.rows[i]) == 1.0)
  {
    var ns := RowNorms(rows, norm);
    var r := Normalize(Mat(rows, cols), None, norm);
    NormalizeRowwise(rows, cols, None, norm);
    forall i | 0 <= i < |rows|
      ensures rows[i] == Zeros(cols) ==> r.rows[i] == rows[i]
      ensures rows[i] != Zeros(cols) ==> SumSq(r.rows[i]) == 1.0
    {
      NormZeroIffZeros(ns[i], rows[i]);
      if rows[i] == Zeros(cols) {
        assert IsClose(ns[i], 0.0);
      } else {
        DivByNormIsUnit(rows[i], ns[i]);
      }
    }
  }

  /** With the Euclidean norm, every row the caller of `normalize_or_copy` ends up
      holding has norm zero or one within tolerance. */
  lemma NormalizeOrCopyUnitOrZero(vectors: NDArray, norm: Norm)
    requires vectors.WellFormed() && IsEuclidean(norm)
    ensures var out := Contents(NormalizeOrCopy(vectors, norm), vectors);
      forall i :: 0 <= i < |Rows(out)| ==> norm(Rows(out)[i]) == 0.0 || IsClose(norm(Rows(out)[i]), 1.0)
  {
    var r := NormalizeOrCopy(vectors, norm);
    var out := Contents(r, vectors);
    if r.NewArray? {
      forall i | 0 <= i < |Rows(out)|
        ensures norm(Rows(out)[i]) == 0.0 || IsClose(norm(Rows(out)[i]), 1.0)
      {
        var w := Rows(out)[i];
        assert IsNormOf(norm(w), w);
        match vectors
        case Vec(v) =>
          assert IsNormOf(norm(v), v);
          NormalizeVectorUnitOrZero(v, None, norm);
          if IsClose(norm(v), 0.0) {
            NormZeroIffZeros(norm(w), w);
          } else {
            NormOfUnit(norm(w), w);
          }
        case Mat(rows, cols) =>
          assert IsNormOf(norm(rows[i]), rows[i]);
          NormalizeRowsUnitOrZero(rows, cols, norm);
          if rows[i] == Zeros(cols) {
            NormZeroIffZeros(norm(w), w);
          } else {
            NormOfUnit(norm(w), w);
          }
      }
    } else {
      var ns := RowNorms(Rows(vectors), norm);
      assert AllUnitLength(ns);
      forall i | 0 <= i < |Rows(out)|
        ensures norm(Rows(out)[i]) == 0.0 || IsClose(norm(Rows(out)[i]), 1.0)
      {
        assert ns[i] == norm(Rows(out)[i]);
      }
    }
  }

  /** `normalize_or_copy` is idempotent: applied to its own output, with the
      Euclidean norm, it hands that output back untouched. */
  lemma NormalizeOrCopyIdempotent(vectors: NDArray, norm: Norm)
    requires vectors.WellFormed() && IsEuclidean(norm)
    ensures var out := Contents(NormalizeOrCopy(vectors, norm), vectors);
      NormalizeOrCopy(out, norm) == SameObject
  {
    var out := Contents(NormalizeOrCopy(vectors, norm), vectors);
    NormalizeOrCopyUnitOrZero(vectors, norm);
    var ns := RowNorms(Rows(out), norm);
    assert AllUnitLength(ns) by {
      forall i | 0 <= i < |ns| && ns[i] != 0.0 ensures IsClose(ns[i], 1.0) {
        assert ns[i] == norm(Rows(out)[i]);
      }
    }
  }

  /** The two paths treat a tiny norm differently: the vector [1e-9] becomes the
      zero vector, while the batch holding it as its only row comes out as [[1.0]]. */
  lemma TinyNormVectorAndRowDiffer(norm: Norm)
    requires norm([0.000000001]) == 0.000000001
    ensures Normalize(Vec([0.000000001]), None, norm) == Vec([0.0])
    ensures Normalize(Mat([[0.000000001]], 1), None, norm) == Mat([[1.0]], 1)
  {
    var t := 0.000000001;
    assert Zeros(1) == [0.0];
    NormalizeRowwise([[t]], 1, None, norm);
    assert Div([t], t) == [1.0];
  }
}
