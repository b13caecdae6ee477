/** `PyNNDescentBackend` of vicinity/backends/pynndescent.py: a backend built once over
    an NNDescent index, which normalises every query batch with `normalize_or_copy`
    before searching and refuses every later insertion or deletion. */
module PyNNDescent {
  import opened Common
  import opened Arrays
  import opened Utils
  import opened Neighbours
  import opened NNDescentEngine

  /** The defaults of `from_vectors` and of `PyNNDescentArgs`. */
  const DefaultNNeighbors: int := 15
  const DefaultMetric: Metric := Cosine

  /** `PyNNDescentArgs`: the parameters the index was built with. */
  datatype PyNNDescentArgs = PyNNDescentArgs(nNeighbors: int := DefaultNNeighbors, metric: Metric := DefaultMetric)

  const InsertUnsupported: string := "Dynamic insertion is not supported by pynndescent."
  const DeleteUnsupported: string := "Dynamic deletion is not supported by pynndescent."

  /** The batch `normalize_or_copy(vectors)` hands the engine: the same shape as the input. */
  function NormalizedInput(vectors: Matrix, norm: Norm): (q: Matrix)
    ensures |q.rows| == |vectors.rows| && q.cols == vectors.cols
  {
    Contents(NormalizeOrCopy(vectors, norm), vectors)
  }

  class PyNNDescentBackend {
    var index: NNDescent
    var arguments: PyNNDescentArgs

    ghost predicate Valid()
      reads this
    {
      index.Valid()
    }

    constructor (index: NNDescent, arguments: PyNNDescentArgs)
      requires index.Valid()
      ensures Valid() && this.index == index && this.arguments == arguments
    {
      this.index := index;
      this.arguments := arguments;
    }

    /** `from_vectors`: builds the index over `vectors` with the given parameters and
        records exactly those parameters. `search` is the graph search NNDescent
        builds over `vectors`. */
    static method FromVectors(vectors: Matrix, search: Search,
                              nNeighbors: int := DefaultNNeighbors, metric: Metric := DefaultMetric)
      returns (b: PyNNDescentBackend)
      requires ShapedSearch(search)
      ensures fresh(b) && fresh(b.index) && b.Valid()
      ensures b.arguments == PyNNDescentArgs(nNeighbors, metric)
      ensures b.index.rawData == vectors && b.index.search == search
      ensures b.index.nNeighbors == nNeighbors && b.index.metric == metric
      ensures b.Len() == |vectors.rows| && b.Dim() == vectors.cols
    {
      var index := new NNDescent(vectors, nNeighbors, metric, search);
      b := new PyNNDescentBackend(index, PyNNDescentArgs(nNeighbors, metric));
    }

    /** `len(backend)`: the number of vectors the index was built over. */
    function Len(): nat
      reads this
    {
      |index.rawData.rows|
    }

    /** The `dim` property. */
    function Dim(): nat
      reads this
    {
      index.Dim()
    }

    /** The `backend_type` property: a constant that reads no state. */
    function BackendType(): (kind: BackendKind)
      ensures kind == PyNNDescentKind
    {
      PyNNDescentKind
    }

    /** `query(vectors, k)`: normalises the batch, asks the engine for `k` neighbours per
        row, and pairs the i-th index row with the i-th distance row. An engine error
        is raised unchanged. */
    function Query(vectors: Matrix, k: nat, norm: Norm): (r: Outcome<QueryResult>)
      reads this
      requires Valid()
      ensures var answer := index.Query(NormalizedInput(vectors, norm), k);
        && (r.Ok? <==> answer.Ok?)
        && (r.Raised? ==> r.error == answer.error)
        && (r.Ok? ==> |r.value| == |vectors.rows| && forall i :: 0 <= i < |r.value| ==>
              && r.value[i] == (answer.value.indices[i], answer.value.distances[i])
              && |r.value[i].0| == k && |r.value[i].1| == k)
    {
      match index.Query(NormalizedInput(vectors, norm), k)
      case Ok(knn) => Ok(Pairs(knn))
      case Raised(e) => Raised(e)
    }

    /** `insert`: always refused; it changes nothing. */
    method Insert(vectors: Matrix) returns (r: Outcome<()>)
      ensures r.Raised? && r.error == NotImplementedError(InsertUnsupported)
    {
      r := Raised(NotImplementedError(InsertUnsupported));
    }

    /** `delete`: always refused, whatever the list, the empty one included; it changes nothing. */
    method Delete(indices: seq<int>) returns (r: Outcome<()>)
      ensures r.Raised? && r.error == NotImplementedError(DeleteUnsupported)
    {
      r := Raised(NotImplementedError(DeleteUnsupported));
    }

    /** `threshold(vectors, threshold)`: normalises the batch, fetches `OverFetch`
        neighbours per row and keeps, row by row, the indices whose distance is
        strictly below the threshold. An engine error is raised unchanged. */
    method Threshold(vectors: Matrix, threshold: real, norm: Norm) returns (r: Outcome<seq<seq<int>>>)
      requires Valid()
      ensures var answer := index.Query(NormalizedInput(vectors, norm), OverFetch);
        && (r.Ok? <==> answer.Ok?)
        && (r.Raised? ==> r.error == answer.error)
        && (r.Ok? ==> Paired(Pairs(answer.value)) && r.value == ThresholdRows(Pairs(answer.value), threshold))
      ensures r.Ok? ==> |r.value| == |vectors.rows| && forall i :: 0 <= i < |r.value| ==> |r.value[i]| <= OverFetch
    {
      var answer := index.Query(NormalizedInput(vectors, norm), OverFetch);
      if answer.Raised? {
        return Raised(answer.error);
      }
      ThresholdRowsBounded(answer.value, |vectors.rows|, threshold);
      var rows := Pairs(answer.value);
      var result: seq<seq<int>> := [];
      for i := 0 to |rows|
        invariant |result| == i
        invariant forall j :: 0 <= j < i ==> result[j] == FilterRow(rows[j].0, rows[j].1, threshold)
      {
        result := result + [FilterRow(rows[i].0, rows[i].1, threshold)];
      }
      return Ok(result);
    }
  }
}
