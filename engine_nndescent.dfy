/** The `pynndescent.NNDescent` index as the backend sees it. Its graph construction
    and search are opaque: the search is a function handed in at construction, and
    the only thing relied on about it is that a successful answer has one row of `k`
    neighbours per query. */
module NNDescentEngine {
  import opened Common
  import opened Arrays
  import opened Neighbours

  /** The metrics the backend lets a caller choose. */
  datatype Metric = Cosine | Euclidean | Manhattan

  /** `NNDescent.query(queries, k=k)` over the graph built at construction. */
  type Search = (Matrix, nat) -> Outcome<Knn>

  /** A successful search answers every query with `k` indices and `k` distances. */
  ghost predicate ShapedSearch(search: Search) {
    forall q: Matrix, k: nat :: search(q, k).Ok? ==> Shaped(search(q, k).value, |q.rows|, k)
  }

  class NNDescent {
    /** `_raw_data`: the vectors the index was built over. */
    const rawData: Matrix
    const nNeighbors: int
    const metric: Metric
    const search: Search

    ghost predicate Valid() {
      ShapedSearch(search)
    }

    /** `NNDescent(data, n_neighbors=..., metric=...)`. */
    constructor (data: Matrix, nNeighbors: int, metric: Metric, search: Search)
      requires ShapedSearch(search)
      ensures Valid()
      ensures rawData == data && this.nNeighbors == nNeighbors && this.metric == metric
      ensures this.search == search
    {
      rawData := data;
      this.nNeighbors := nNeighbors;
      this.metric := metric;
      this.search := search;
    }

    /** `index.dim`: the width of the vectors the index was built over. */
    function Dim(): nat {
      rawData.cols
    }

    /** `index.query(queries, k=k)`. */
    function Query(queries: Matrix, k: nat): (r: Outcome<Knn>)
      requires Valid()
      ensures r.Ok? ==> Shaped(r.value, |queries.rows|, k)
    {
      search(queries, k)
    }
  }
}
