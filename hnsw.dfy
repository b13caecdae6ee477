/** `HNSWBackend` of nearest/backends/hnsw.py: a backend over an hnswlib index that
    forwards insertions and deletions to the index and searches without normalising. */
module Hnsw {
  import opened Common
  import opened Arrays
  import opened Neighbours
  import opened HnswEngine

  /** The defaults of `HNSWArgs`. */
  const DefaultSpace: Space := Cosine
  const DefaultEfConstruction: int := 200
  const DefaultM: int := 16

  /** `HNSWArgs`, a frozen record: `dim` is whatever the caller passed. */
  datatype HNSWArgs = HNSWArgs(dim: int, space: Space := DefaultSpace,
                               efConstruction: int := DefaultEfConstruction, m: int := DefaultM)

  /** A call that returns nothing, or raises the error it was given. */
  function Completed(err: Option<Error>): (r: Outcome<()>)
    ensures r.Ok? <==> err.None?
    ensures r.Raised? ==> err == Some(r.error)
  {
    match err
    case None => Ok(())
    case Some(e) => Raised(e)
  }

  class HNSWBackend {
    const index: HnswIndex
    const arguments: HNSWArgs

    ghost predicate Valid() {
      index.Valid()
    }

    constructor (index: HnswIndex, arguments: HNSWArgs)
      requires index.Valid()
      ensures Valid() && this.index == index && this.arguments == arguments
    {
      this.index := index;
      this.arguments := arguments;
    }

    /** `from_vectors`: a new index of the vectors' width, with capacity for exactly
        their number of rows, then all rows added in one batch. The arguments record
        `dim` as passed, which nothing checks against the vectors' width. `fault`,
        `search` and `count` are the behaviour of the hnswlib index. */
    static method FromVectors(vectors: Matrix, dim: int, space: Space, efConstruction: int, m: int,
                              fault: Fault, search: Search, count: Counter)
      returns (r: Outcome<HNSWBackend>)
      requires ShapedSearch(search)
      ensures var init := [InitIndex(|vectors.rows|, efConstruction, m)];
        var built := init + [AddItems(vectors)];
        && (r.Ok? <==> fault(init).None? && fault(built).None?)
        && (r.Raised? ==> Some(r.error) == if fault(init).Some? then fault(init) else fault(built))
        && (r.Ok? ==> && fresh(r.value) && fresh(r.value.index) && r.value.Valid()
                      && r.value.arguments == HNSWArgs(dim, space, efConstruction, m)
                      && r.value.index.space == space && r.value.Dim() == vectors.cols
                      && r.value.index.calls == built
                      && r.value.index.fault == fault && r.value.index.search == search
                      && r.value.index.count == count)
    {
      var index := new HnswIndex(space, vectors.cols, fault, search, count);
      var err := index.InitIndexCall(|vectors.rows|, efConstruction, m);
      assert index.calls == [InitIndex(|vectors.rows|, efConstruction, m)];
      if err.Some? {
        return Raised(err.value);
      }
      err := index.AddItemsCall(vectors);
      if err.Some? {
        return Raised(err.value);
      }
      var b := new HNSWBackend(index, HNSWArgs(dim, space, efConstruction, m));
      return Ok(b);
    }

    /** The `backend_type` property: a constant that reads no state. */
    function BackendType(): (kind: BackendKind)
      ensures kind == HnswKind
    {
      HnswKind
    }

    /** The `dim` property: the index's own width, not the recorded argument. */
    function Dim(): nat {
      index.dim
    }

    /** `len(backend)`: whatever `get_current_count()` answers. */
    function Len(): nat
      reads index
    {
      index.CurrentCount()
    }

    /** `query(vectors, k)`: the batch goes to `knn_query` as given, not normalised, and
        the i-th label row is paired with the i-th distance row. An engine error is
        raised unchanged. */
    function Query(vectors: Matrix, k: nat): (r: Outcome<QueryResult>)
      reads index
      requires Valid()
      ensures var answer := index.KnnQuery(vectors, k);
        && (r.Ok? <==> answer.Ok?)
        && (r.Raised? ==> r.error == answer.error)
        && (r.Ok? ==> |r.value| == |vectors.rows| && forall i :: 0 <= i < |r.value| ==>
              && r.value[i] == (answer.value.indices[i], answer.value.distances[i])
              && |r.value[i].0| == k && |r.value[i].1| == k)
    {
      match index.KnnQuery(vectors, k)
      case Ok(knn) => Ok(Pairs(knn))
      case Raised(e) => Raised(e)
    }

    /** `insert(vectors)`: the whole batch goes to one `add_items` call, unchanged. */
    method Insert(vectors: Matrix) returns (r: Outcome<()>)
      modifies index`calls
      ensures index.calls == old(index.calls) + [AddItems(vectors)]
      ensures r == Completed(index.fault(index.calls))
    {
      var err := index.AddItemsCall(vectors);
      r := Completed(err);
    }

    /** `delete(indices)`: one `mark_deleted` call per listed index, in list order, and
        nothing else; the first call that raises ends the loop, with the calls before
        it already made. */
    method Delete(indices: seq<int>) returns (r: Outcome<()>)
      modifies index`calls
      ensures index.calls == MarkEach(index.fault, old(index.calls), indices).0
      ensures r == Completed(MarkEach(index.fault, old(index.calls), indices).1)
    {
      var i := 0;
      while i < |indices|
        invariant 0 <= i <= |indices|
        invariant index.calls == old(index.calls) + MarkCalls(indices[..i])
        invariant MarkEach(index.fault, old(index.calls), indices) == MarkEach(index.fault, index.calls, indices[i..])
      {
        var err := index.MarkDeletedCall(indices[i]);
        assert indices[i..][0] == indices[i] && indices[i..][1..] == indices[i + 1..];
        if err.Some? {
          return Raised(err.value);
        }
        assert MarkCalls(indices[..i + 1]) == MarkCalls(indices[..i]) + [MarkDeleted(indices[i])];
        i := i + 1;
      }
      return Ok(());
    }

    /** `threshold(vectors, threshold)`: `query(vectors, OverFetch)`, then per row the
        labels whose distance is strictly below the threshold. An engine error is
        raised unchanged. */
    method Threshold(vectors: Matrix, threshold: real) returns (r: Outcome<seq<seq<int>>>)
      requires Valid()
      ensures var answer := Query(vectors, OverFetch);
        && (r.Ok? <==> answer.Ok?)
        && (r.Raised? ==> r.error == answer.error)
        && (r.Ok? ==> Paired(answer.value) && r.value == ThresholdRows(answer.value, threshold))
      ensures r.Ok? ==> |r.value| == |vectors.rows| && forall i :: 0 <= i < |r.value| ==> |r.value[i]| <= OverFetch
    {
      var answer := Query(vectors, OverFetch);
      if answer.Raised? {
        return Raised(answer.error);
      }
      ThresholdRowsBounded(index.KnnQuery(vectors, OverFetch).value, |vectors.rows|, threshold);
      var rows := answer.value;
      var out: seq<seq<int>> := [];
      for i := 0 to |rows|
        invariant |out| == i
        invariant forall j :: 0 <= j < i ==> out[j] == FilterRow(rows[j].0, rows[j].1, threshold)
      {
        out := out + [FilterRow(rows[i].0, rows[i].1, threshold)];
      }
      return Ok(out);
    }
  }
}
