/** The `hnswlib.Index` as the backend sees it. The index's graph is opaque; what the
    backend does to it is recorded as the log of calls made on it, in order. Whether
    a call raises, what a search answers and what the element count is are
    functions of that log handed in at construction, so nothing is relied on about them
    except that a successful search has one row of `k` neighbours per query. */
module HnswEngine {
  import opened Common
  import opened Arrays
  import opened Neighbours

  /** The spaces the backend lets a caller choose. */
  datatype Space = Cosine | L2 | Ip

  /** A call that changes the index. */
  datatype EngineCall =
    | InitIndex(maxElements: nat, efConstruction: int, m: int)
    | AddItems(data: Matrix)
    | MarkDeleted(id: int)

  /** The error, if any, that the last call of a log raises given the calls before it. */
  type Fault = seq<EngineCall> -> Option<Error>

  /** `knn_query(queries, k)` on the index the log has built. */
  type Search = (seq<EngineCall>, Matrix, nat) -> Outcome<Knn>

  /** `get_current_count()` of the index the log has built. */
  type Counter = seq<EngineCall> -> nat

  /** A successful search answers every query with `k` labels and `k` distances. */
  ghost predicate ShapedSearch(search: Search) {
    forall log, q: Matrix, k: nat :: search(log, q, k).Ok? ==> Shaped(search(log, q, k).value, |q.rows|, k)
  }

  /** One `mark_deleted` call per label, in list order. */
  function MarkCalls(labels: seq<int>): (calls: seq<EngineCall>)
    ensures |calls| == |labels|
  {
    seq(|labels|, i requires 0 <= i < |labels| => MarkDeleted(labels[i]))
  }

  /** The calls a loop of `mark_deleted` over `labels` appends to `log`, stopping after
      the first call that raises, and the error that call raised. */
  function MarkEach(fault: Fault, log: seq<EngineCall>, labels: seq<int>): (r: (seq<EngineCall>, Option<Error>))
    ensures |log| <= |r.0| <= |log| + |labels|
    ensures labels != [] ==> |r.0| > |log|
    ensures r.0 == log + MarkCalls(labels[..|r.0| - |log|])
    ensures r.1.None? <==> |r.0| == |log| + |labels| && (labels != [] ==> fault(r.0).None?)
    ensures r.1.Some? ==> r.1 == fault(r.0)
    ensures forall n :: 0 < n < |r.0| - |log| ==> fault(log + MarkCalls(labels[..n])).None?
    decreases |labels|
  {
    if labels == [] then (log, None)
    else
      var next := log + [MarkDeleted(labels[0])];
      match fault(next)
      case Some(e) =>
        assert MarkCalls(labels[..1]) == [MarkDeleted(labels[0])];
        (next, Some(e))
      case None =>
        var r := MarkEach(fault, next, labels[1..]);
        assert labels[1..][..|r.0| - |next|] == labels[1..|r.0| - |log|];
        assert MarkCalls(labels[..|r.0| - |log|]) == [MarkDeleted(labels[0])] + MarkCalls(labels[1..|r.0| - |log|]);
        assert forall n :: 0 < n < |r.0| - |log| ==> fault(log + MarkCalls(labels[..n])).None? by {
          assert MarkCalls(labels[..1]) == [MarkDeleted(labels[0])];
          forall n | 1 < n < |r.0| - |log| ensures fault(log + MarkCalls(labels[..n])).None? {
            assert MarkCalls(labels[..n]) == [MarkDeleted(labels[0])] + MarkCalls(labels[1..][..n - 1]);
            assert log + MarkCalls(labels[..n]) == next + MarkCalls(labels[1..][..n - 1]);
          }
        }
        r
  }

  /** When no `mark_deleted` call raises, the loop marks every label exactly once, in
      list order, and raises nothing. */
  lemma {:induction false} MarkEachAllAccepted(fault: Fault, log: seq<EngineCall>, labels: seq<int>)
    requires forall n :: 0 < n <= |labels| ==> fault(log + MarkCalls(labels[..n])).None?
    ensures MarkEach(fault, log, labels) == (log + MarkCalls(labels), None)
    decreases |labels|
  {
    if labels != [] {
      var next := log + [MarkDeleted(labels[0])];
      assert MarkCalls(labels[..1]) == [MarkDeleted(labels[0])];
      assert fault(next).None?;
      forall n | 0 < n <= |labels[1..]| ensures fault(next + MarkCalls(labels[1..][..n])).None? {
        assert MarkCalls(labels[..n + 1]) == [MarkDeleted(labels[0])] + MarkCalls(labels[1..][..n]);
        assert fault(log + MarkCalls(labels[..n + 1])).None?;
        assert log + MarkCalls(labels[..n + 1]) == next + MarkCalls(labels[1..][..n]);
      }
      MarkEachAllAccepted(fault, next, labels[1..]);
      assert MarkCalls(labels) == [MarkDeleted(labels[0])] + MarkCalls(labels[1..]);
      assert next + MarkCalls(labels[1..]) == log + MarkCalls(labels);
      assert MarkEach(fault, log, labels) == MarkEach(fault, next, labels[1..]);
    }
  }

  class HnswIndex {
    const space: Space
    /** The width of the vectors the index holds, fixed at construction. */
    const dim: nat
    const fault: Fault
    const search: Search
    const count: Counter
    /** Every call made on the index that changes it, in call order. */
    var calls: seq<EngineCall>

    ghost predicate Valid() {
      ShapedSearch(search)
    }

    /** `HnswIndex(space=space, dim=dim)`: a fresh index nothing has been done to. */
    constructor (space: Space, dim: nat, fault: Fault, search: Search, count: Counter)
      requires ShapedSearch(search)
      ensures Valid()
      ensures this.space == space && this.dim == dim && calls == []
      ensures this.fault == fault && this.search == search && this.count == count
    {
      this.space := space;
      this.dim := dim;
      this.fault := fault;
      this.search := search;
      this.count := count;
      calls := [];
    }

    /** Makes one call on the index; the call may raise. */
    method Perform(call: EngineCall) returns (err: Option<Error>)
      modifies this`calls
      ensures calls == old(calls) + [call]
      ensures err == fault(calls)
    {
      calls := calls + [call];
      err := fault(calls);
    }

    /** `init_index(max_elements=..., ef_construction=..., M=...)`. */
    method InitIndexCall(maxElements: nat, efConstruction: int, m: int) returns (err: Option<Error>)
      modifies this`calls
      ensures calls == old(calls) + [InitIndex(maxElements, efConstruction, m)]
      ensures err == fault(calls)
    {
      err := Perform(InitIndex(maxElements, efConstruction, m));
    }

    /** `add_items(data)`. */
    method AddItemsCall(data: Matrix) returns (err: Option<Error>)
      modifies this`calls
      ensures calls == old(calls) + [AddItems(data)]
      ensures err == fault(calls)
    {
      err := Perform(AddItems(data));
    }

    /** `mark_deleted(id)`. */
    method MarkDeletedCall(id: int) returns (err: Option<Error>)
      modifies this`calls
      ensures calls == old(calls) + [MarkDeleted(id)]
      ensures err == fault(calls)
    {
      err := Perform(MarkDeleted(id));
    }

    /** `knn_query(queries, k)`. */
    function KnnQuery(queries: Matrix, k: nat): (r: Outcome<Knn>)
      reads this
      requires Valid()
      ensures r.Ok? ==> Shaped(r.value, |queries.rows|, k)
    {
      search(calls, queries, k)
    }

    /** `get_current_count()`. */
    function CurrentCount(): nat
      reads this
    {
      count(calls)
    }
  }
}
