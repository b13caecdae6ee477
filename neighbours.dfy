/** The result shapes of a batched nearest-neighbour query and the threshold filter
    both backends apply to them. */
module Neighbours {
  import opened Arrays

  /** `threshold` asks the engine for this many neighbours per query and filters those. */
  const OverFetch: nat := 100

  /** An engine's answer to a batched k-nearest-neighbour query: one row of neighbour
      indices and one row of distances per query vector. */
  datatype Knn = Knn(indices: seq<seq<int>>, distances: seq<seq<real>>)

  /** What `query` returns: one (indices, distances) pair per query vector. */
  type QueryResult = seq<(seq<int>, seq<real>)>

  /** The answer has `n` rows, each with `k` indices and `k` distances. */
  predicate Shaped(knn: Knn, n: nat, k: nat) {
    && |knn.indices| == n
    && |knn.distances| == n
    && (forall i :: 0 <= i < n ==> |knn.indices[i]| == k && |knn.distances[i]| == k)
  }

  /** `list(zip(indices, distances))`: the i-th index row with the i-th distance row,
      as many pairs as the shorter of the two has rows. */
  function Pairs(knn: Knn): (r: QueryResult)
    ensures |r| <= |knn.indices| && |r| <= |knn.distances|
  {
    var n := if |knn.indices| <= |knn.distances| then |knn.indices| else |knn.distances|;
    seq(n, i requires 0 <= i < n => (knn.indices[i], knn.distances[i]))
  }

  /** Every pair holds as many indices as distances. */
  predicate Paired(rows: QueryResult) {
    forall i :: 0 <= i < |rows| ==> |rows[i].0| == |rows[i].1|
  }

  /** The mask `dist < threshold`. */
  function Below(dist: seq<real>, threshold: real): (mask: seq<bool>)
    ensures |mask| == |dist|
  {
    seq(|dist|, j requires 0 <= j < |dist| => dist[j] < threshold)
  }

  /** The positions a row keeps: those whose distance is strictly below the threshold. */
  function KeptPositions(dist: seq<real>, threshold: real): seq<int> {
    TruePositions(Below(dist, threshold))
  }

  /** `idx[dist < threshold]`: one filtered row. */
  function FilterRow(idx: seq<int>, dist: seq<real>, threshold: real): (r: seq<int>)
    requires |idx| == |dist|
  {
    Select(idx, Below(dist, threshold))
  }

  /** The rows a threshold query returns, one filtered row per pair. */
  function ThresholdRows(rows: QueryResult, threshold: real): (r: seq<seq<int>>)
    requires Paired(rows)
    ensures |r| == |rows|
  {
    seq(|rows|, i requires 0 <= i < |rows| => FilterRow(rows[i].0, rows[i].1, threshold))
  }

  /** A filtered row is the order-preserving subsequence of the fetched indices whose
      distance is strictly below the threshold: it takes the index at each such
      position, in ascending position order, and misses none of them. */
  lemma FilterRowExact(idx: seq<int>, dist: seq<real>, threshold: real)
    requires |idx| == |dist|
    ensures var r, ps := FilterRow(idx, dist, threshold), KeptPositions(dist, threshold);
      && |r| == |ps| <= |idx|
      && (forall i :: 0 <= i < |ps| ==> 0 <= ps[i] < |idx| && dist[ps[i]] < threshold && r[i] == idx[ps[i]])
      && (forall i, j :: 0 <= i < j < |ps| ==> ps[i] < ps[j])
      && (forall p :: 0 <= p < |idx| && dist[p] < threshold ==> p in ps)
  {
    var mask := Below(dist, threshold);
    TruePositionsExact(mask);
    SelectGathers(idx, mask);
  }

  /** On an engine answer of `n` rows of `OverFetch` neighbours, the threshold filter
      returns one row per query, none longer than the over-fetch. */
  lemma ThresholdRowsBounded(knn: Knn, n: nat, threshold: real)
    requires Shaped(knn, n, OverFetch)
    ensures Paired(Pairs(knn))
    ensures var r := ThresholdRows(Pairs(knn), threshold);
      |r| == n && forall i :: 0 <= i < n ==> |r[i]| <= OverFetch
  {
    var rows := Pairs(knn);
    forall i | 0 <= i < n ensures |FilterRow(rows[i].0, rows[i].1, threshold)| <= OverFetch {
      FilterRowExact(rows[i].0, rows[i].1, threshold);
    }
  }
}
