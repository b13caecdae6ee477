# Vector normalisation and ANN backend policy, in Dafny

This project models the part of the `vicinity` / `nearest` vector-search layer that has
behaviour of its own, apart from the approximate-nearest-neighbour engines it wraps:

- the zero-safe normaliser `normalize` and its fast-path wrapper `normalize_or_copy`
  (vicinity/utils.py), over real numbers;
- the `PyNNDescentBackend` (vicinity/backends/pynndescent.py), a backend built once that
  normalises every query batch and refuses insertion and deletion;
- the `HNSWBackend` (nearest/backends/hnsw.py), which forwards insertion as one
  `add_items` call and deletion as one `mark_deleted` call per index;
- the threshold query both backends build on a fixed-size k-nearest-neighbour search:
  fetch 100 neighbours per query, keep those strictly closer than the threshold.

Files and modules:

| file | module | contents |
|---|---|---|
| common.dfy | `Common` | `Option`, `Outcome` (a value or a raised `Error`), the backend tags |
| arrays.dfy | `Arrays` | arrays as `Vec`/`Mat` values, sums of squares, `isclose`, boolean-mask indexing and assignment |
| utils.dfy | `Utils` | `normalize`, `normalize_or_copy` and their properties |
| neighbours.dfy | `Neighbours` | engine answers, the `zip` of index and distance rows, the threshold filter |
| engine_nndescent.dfy | `NNDescentEngine` | the NNDescent index handle: its data, parameters and an opaque search |
| engine_hnsw.dfy | `HnswEngine` | the hnswlib index handle: the log of calls made on it, opaque search, fault and count |
| pynndescent.dfy | `PyNNDescent` | `PyNNDescentBackend` |
| hnsw.dfy | `Hnsw` | `HNSWBackend` |

How the engines are modelled. Neither engine's graph is visible, so each is a class
whose search is a function supplied at construction. The NNDescent search depends
only on the query batch and `k`. The hnswlib index keeps `calls`, the log of every
`init_index`, `add_items` and `mark_deleted` made on it, in order. Whether a call
raises, what `knn_query` answers and what `get_current_count` returns are functions
of that log. The one thing relied on about either engine is that a successful search
answers each query row with `k` indices and `k` distances (`ShapedSearch`). Engine
errors reach the caller unchanged as `Raised(EngineError(...))`.

`np.linalg.norm` of a vector is a parameter `norm`. Lemmas that need it to be the
Euclidean norm require `IsNormOf(norm(v), v)`: `norm(v) >= 0` and
`norm(v) * norm(v)` equal to the sum of squares of `v`, for the vectors concerned
(`IsEuclidean` requires this of every vector). `isclose` and `allclose` use numpy's
default tolerances: `|a - b| <= 1e-8 + 1e-5 * |b|`.

Where a reader might expect otherwise, the model follows the code:

- Zero vectors. One-dimensional input is zeroed when its norm is close to zero. A row
  of a batch is zeroed only when its norm is not positive: a row with a tiny positive
  norm is still divided by it and comes out with unit length. `Utils.TinyNormVectorAndRowDiffer`
  shows `[1e-9]` becoming `[0.0]` as a vector and `[[1.0]]` as a batch.
- Dimension checks. Neither backend checks a batch's width against its dimension, and
  `HNSWBackend.from_vectors` records the `dim` it is given, which may differ from the
  width of the vectors the index is built with. A `k` too large or a full index is
  whatever the engine raises.
- Normalisation by metric. `PyNNDescentBackend` normalises query batches for every
  metric, including `euclidean` and `manhattan`.

## Model

| member | source | states |
|---|---|---|
| `Utils.Normalize` | vicinity/utils.py:5-38 | the result has the input's shape and is well formed, and no division in it has a zero divisor, on every path |
| `Utils.NormalizeVectorUnitOrZero` | vicinity/utils.py:17-21 | 1-D input ignores `norms`; the zero vector stays zero; a norm close to 0 gives the zero vector; otherwise each entry times the norm gives back the input entry and the result has unit length |
| `Utils.NormalizeRowwise` | vicinity/utils.py:23-38 | given norms are used verbatim; if any norm is close to 0, rows with positive norm are divided by it and all others become zero; otherwise every row is divided by its own norm |
| `Utils.SelectedNormsPositive` | vicinity/utils.py:30-34 | every norm the `norm > 0.0` mask selects is positive, so the masked division never divides by zero |
| `Utils.MaskedDivideRowwise` | vicinity/utils.py:28-36 | the masked path (zeros, mask, masked division written back through the mask) gives row `i` divided by its norm when that norm is positive and a zero row otherwise |
| `Utils.NormalizeRowsUnitOrZero` | vicinity/utils.py:23-38 | with the Euclidean norm, zero rows stay zero and every other row, however small, comes out with sum of squares 1 |
| `Utils.NormalizeOrCopy` | vicinity/utils.py:41-51 | the input object itself is returned exactly when every row of non-zero norm has norm close to 1, zero rows being ignored; when a new array is returned, it equals `normalize(vectors)` computed afresh; the array the caller holds has the input's shape |
| `Utils.NormalizeOrCopyUnitOrZero` | vicinity/utils.py:47-51 | with the Euclidean norm, every row the caller receives has norm 0 or a norm close to 1, on both the fast path and the normalising path |
| `Utils.NormalizeOrCopyIdempotent` | vicinity/utils.py:41-51 | with the Euclidean norm, applying `normalize_or_copy` to its own output returns that output object itself |
| `Utils.TinyNormVectorAndRowDiffer` | vicinity/utils.py:17-36 | the vector `[1e-9]` normalises to `[0.0]`, while the batch `[[1e-9]]` normalises to `[[1.0]]` |
| `Arrays.TruePositionsExact` | vicinity/utils.py:30-33 | the positions of a boolean mask are exactly its `True` positions, strictly ascending |
| `Arrays.SelectGathers` | vicinity/utils.py:32-33 | mask indexing `xs[mask]` takes the entry at each `True` position, in order |
| `Neighbours.FilterRowExact` | vicinity/backends/pynndescent.py:83-85 | `idx[dist < threshold]` is the order-preserving subsequence of `idx` at exactly the positions whose distance is strictly below the threshold, and no longer than `idx` |
| `Neighbours.ThresholdRowsBounded` | vicinity/backends/pynndescent.py:81-86 | on an engine answer of 100 neighbours per query, the threshold filter returns one row per query, each of at most 100 indices |
| `NNDescentEngine.NNDescent.constructor` | vicinity/backends/pynndescent.py:46 | the index holds the vectors, `n_neighbors`, `metric` and search it was built with |
| `NNDescentEngine.NNDescent.Query` | vicinity/backends/pynndescent.py:67 | a successful engine search answers each query row with `k` indices and `k` distances |
| `PyNNDescent.NormalizedInput` | vicinity/backends/pynndescent.py:66 | the batch handed to the engine is `normalize_or_copy`'s output, of the input's shape |
| `PyNNDescent.PyNNDescentBackend.constructor` | vicinity/backends/pynndescent.py:29-36 | the backend holds the given index and arguments |
| `PyNNDescent.PyNNDescentBackend.FromVectors` | vicinity/backends/pynndescent.py:38-62 | a fresh backend whose arguments record exactly the given `n_neighbors` and `metric`, whose index is built over the vectors with those parameters, whose length is the number of rows and whose `dim` is their width |
| `PyNNDescent.PyNNDescentBackend.Len` | vicinity/backends/pynndescent.py:50-52 | no contract of its own: the number of vectors the index was built over, which `FromVectors` states is the input's row count |
| `PyNNDescent.PyNNDescentBackend.Dim` | vicinity/backends/pynndescent.py:59-62 | no contract of its own: the width of the vectors the index was built over, which `FromVectors` states is the input's width |
| `PyNNDescent.PyNNDescentBackend.BackendType` | vicinity/backends/pynndescent.py:54-57 | the backend type is `PYNNDESCENT`, whatever the state |
| `PyNNDescent.PyNNDescentBackend.Query` | vicinity/backends/pynndescent.py:64-68 | the engine is asked about the normalised batch; on success one (indices, distances) pair per query row, the i-th index row with the i-th distance row, each of length `k`; an engine error is raised unchanged |
| `PyNNDescent.PyNNDescentBackend.Insert` | vicinity/backends/pynndescent.py:70-72 | always raises `NotImplementedError` with the insertion message; it may modify nothing |
| `PyNNDescent.PyNNDescentBackend.Delete` | vicinity/backends/pynndescent.py:74-76 | always raises `NotImplementedError` with the deletion message, for every list including the empty one; it may modify nothing |
| `PyNNDescent.PyNNDescentBackend.Threshold` | vicinity/backends/pynndescent.py:78-86 | asks the engine for 100 neighbours of the normalised batch; on success returns the threshold filter of each (indices, distances) pair, one row per query, each at most 100 long; an engine error is raised unchanged |
| `HnswEngine.HnswIndex.constructor` | nearest/backends/hnsw.py:44 | a new index of the given space and width, with no calls made on it |
| `HnswEngine.HnswIndex.InitIndexCall` | nearest/backends/hnsw.py:45 | logs one `init_index` call with the given capacity and parameters; raises what the engine raises |
| `HnswEngine.HnswIndex.AddItemsCall` | nearest/backends/hnsw.py:46 | logs one `add_items` call with the given batch; raises what the engine raises |
| `HnswEngine.HnswIndex.MarkDeletedCall` | nearest/backends/hnsw.py:90 | logs one `mark_deleted` call with the given label; raises what the engine raises |
| `HnswEngine.HnswIndex.KnnQuery` | nearest/backends/hnsw.py:81 | a successful engine search answers each query row with `k` labels and `k` distances |
| `HnswEngine.MarkEach` | nearest/backends/hnsw.py:89-90 | the loop of `mark_deleted` calls appends exactly the calls for a prefix of the list, in list order, and a non-empty list always makes its first call; every call before the last one made returned normally; the list is completed iff no call raised; when a call raised, it is the last one made and its error is the one returned |
| `HnswEngine.MarkEachAllAccepted` | nearest/backends/hnsw.py:87-90 | when no `mark_deleted` call raises, every listed index is marked exactly once, in list order, and nothing is raised |
| `Hnsw.HNSWBackend.constructor` | nearest/backends/hnsw.py:25-32 | the backend holds the given index and arguments |
| `Hnsw.HNSWBackend.FromVectors` | nearest/backends/hnsw.py:34-48 | the index has the vectors' width and gets exactly `init_index(number of rows, ef_construction, m)` then `add_items(vectors)`; the arguments record `dim`, `space`, `ef_construction` and `m` as passed, unchecked against the width; an error from either call is raised |
| `Hnsw.HNSWBackend.BackendType` | nearest/backends/hnsw.py:50-53 | the backend type is `HNSW`, a constant that reads no state |
| `Hnsw.HNSWBackend.Dim` | nearest/backends/hnsw.py:55-58 | no contract of its own: the index's own width, not `arguments.dim`; `FromVectors` states it is the vectors' width while `arguments.dim` is the `dim` passed |
| `Hnsw.HNSWBackend.Len` | nearest/backends/hnsw.py:60-62 | no contract: the count is engine-defined, `get_current_count` of the index's call log |
| `Hnsw.HNSWBackend.Query` | nearest/backends/hnsw.py:79-81 | the batch goes to `knn_query` unnormalised; on success one (labels, distances) pair per query row, the i-th with the i-th, each of length `k`; an engine error is raised unchanged |
| `Hnsw.HNSWBackend.Insert` | nearest/backends/hnsw.py:83-85 | exactly one `add_items` call with the unchanged batch is added to the index's log; the result is what that call raises or nothing |
| `Hnsw.HNSWBackend.Delete` | nearest/backends/hnsw.py:87-90 | the index's log grows by exactly the `mark_deleted` calls `MarkEach` describes, and the result is the error it ends with, if any; an empty list changes nothing |
| `Hnsw.HNSWBackend.Threshold` | nearest/backends/hnsw.py:92-98 | runs the backend's own `query` with 100 neighbours; on success returns the threshold filter of each pair, one row per query, each at most 100 long; an engine error is raised unchanged |

## Left out

- `save` and `load` of both backends, and the JSON `dump`/`load`/`dict` of the argument
  records in vicinity/backends/base.py: file-system I/O. The rest of base.py is an
  abstract interface with no logic; it is not part of this model.
- The engines' graph construction and search: they are opaque functions. Nothing is
  claimed about the order of distances, about deleted labels leaving search results,
  or about what `get_current_count` returns; `Hnsw.HNSWBackend.Len` carries no
  contract for that reason.
- Floating point: the model computes over real numbers. Rounding, NaN and infinities
  are not modelled, and `np.linalg.norm` is a parameter.
- Integer arrays: every array is modelled as real-valued. An integer input keeps its
  dtype through `np.zeros_like` on the masked path of `normalize`, so the quotients
  written into it are truncated (`[[3, 4], [0, 0]]` comes out as `[[0, 0], [0, 0]]`);
  that truncation, and its effect through `normalize_or_copy` on
  `PyNNDescentBackend.query` and `threshold`, is not modelled.
- Arrays are values. `normalize` therefore cannot mutate its caller's array by
  construction, rather than by the copy the code makes before the masked write; the
  identity that `normalize_or_copy` returns on its fast path is the `SameObject` tag.
- Utils.Normalize: requires given norms to have one entry per row; numpy's broadcasting
  of a norms array of another length, or its error, is not modelled. The only caller,
  `normalize_or_copy`, always passes one norm per row.
- Neighbours.ThresholdRows: requires each index row and distance row to have the same
  length, which every successful engine answer does; the `IndexError` numpy raises
  otherwise is not modelled.
- PyNNDescent.PyNNDescentBackend.FromVectors: always succeeds; an error NNDescent
  raises while building its graph is not modelled.
- Every batch a backend takes is two-dimensional (`Matrix`): the vectors of both
  `from_vectors`, the batch of `HNSWBackend.insert`, and the queries of `query` and
  `threshold`. A one-dimensional batch, and the error it raises (for example the
  `IndexError` on `vectors.shape[1]` in `HNSWBackend.from_vectors`), is not modelled.
- `k` is a natural number; a negative `k` is not modelled.
- NNDescent's `dim` is modelled as the width of the vectors the index was built over.
- The `Backend` enumeration and the `QueryResult` alias of the `datatypes` modules are
  not part of this model beyond the two tags and the pair type used here.
