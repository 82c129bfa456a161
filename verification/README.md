# Verified models of the point-cloud registration library

This project models the parts of small_gicp (CPU) and sgc (GPU) whose correctness is combinatorial or metric: neighbour
search, indexing, sorting, concurrent construction, voxel maps, downsampling, the odometry pipeline and the reduction of the
linear system. Every concurrent algorithm is proved for all schedules, every search against brute force, and every sort and
downsampling against a definition on the input alone. `dafny verify dfyconfig.toml` checks the whole project.

- `KNearest` says once what "the k nearest" means; `KnnResult` is the caller's pair of buffers kept sorted in place. The
  kd-tree (`KdTree`, `KdTreeBuilder`, `KdTreeTasks`), the shell and brute-force passes of the GPU covariances
  (`ShellSearch`, `CovarianceNeighbors`), the two-phase GPU correspondence search (`WindowSearch`), the flat containers and
  the incremental voxel map (`FlatContainer`, `IncrementalVoxelMap`, `VoxelMapSearch`, `VoxelMapRuns`) are all proved
  against it.
- `Voxels` and `IndexedCloud` hold the voxel grid, the 21-bit keys and the distance bounds; `HashIndex` the compare-and-swap
  hash table and its agreement with binary search.
- `StableSort` and `RadixSort` are the tiled radix sort; `QuickSort` and `MergeSort` the task-parallel sorts.
- `Downsampling`, `VoxelgridSampling` and `DownsamplingBlocks` are the sequential and the block-parallel voxel grid.
- `GaussianVoxel` is the running mean that is opened and closed, on its own and as the contents of a voxel map; `FlowGraph`
  the odometry pipeline; `WarpReduce` and `Reduction` the warp and host sums and the correspondence cache.
- `Arithmetic`, `Collections`, `Geometry` and `Matrices` are shared by the others.

Interleavings appear in two forms: as step functions with a schedule (`KdTreeTasks`, `HashIndex`), and as loops that pick
the next enabled task arbitrarily (`KdTreeTasks`, `HashIndex`, `RadixSort`, `QuickSort`, `MergeSort`, `DownsamplingBlocks`,
`Reduction`, `FlowGraph`).

## What the code does not do

Where the code and its documentation part, the model follows the code, and these results say exactly when the promise holds:

- The kd-tree builder preallocates one node a point. That is enough for every cloud if and only if `max_leaf_size >= 3`
  (`KdTreeBuilder.NodesFitExactlyFromThree`), so `BuildTree` requires it, as well as a non-empty cloud.
- `voxelgrid_sampling` starts from the front of the sorted items. A non-empty cloud without a point in range therefore
  yields one out-of-range point, although such points are documented as ignored (`VoxelgridSampling.Sample`). Block-wise,
  this happens to every block that starts with an invalid key (`DownsamplingBlocks.AllAveragesExactly`).
- The range check also covers the homogeneous coordinate, so leaves of at most 2^-20 put every point out of range
  (`Downsampling.LeafRange`).
- The covariance kernel orders by (distance, index), and at a given shell its selection is indeed independent of the
  processing order (`CovarianceNeighbors.OrderIndependent`). Yet when the bound fires, the list may differ from the whole
  cloud's in that order, which the brute-force pass selects: exactly when a point outside the cube, as far away as its
  nearest face, is among the k first (`CovarianceNeighbors.FiredListIsLexExact`; a cloud and a run: `TieOutsideTheCube`,
  `TiedNeighbors`).
- The shell pass is announced as exact for every point whose k-th neighbour lies within MAX_SHELL voxels. That holds for a
  distance of twelve cells (`CovarianceNeighbors.NearNeighborsFire`), but not for twelve voxels along each axis
  (`CovarianceNeighbors.CornerNeighbor`); it is exact if and only if every point outside the cube has k points of the cube
  no farther than itself (`CovarianceNeighbors.CubeListIsExact`).
- `set_search_offsets(27)` appends to the present pattern. The repeated centre is harmless for one neighbour only
  (`VoxelMapSearch.RepeatedCentre`).
- The pairing node keeps a static last frame, so only a first call starts at the identity (`FlowGraph.LaterCallAgrees`).
- Hash lookup of the empty marker itself returns the value of a free slot (`HashIndex.LookupsAgree`); packed keys are below
  2^63 and cannot be the marker.
- The window search is exact up to a threshold of four cells and for no larger one
  (`WindowSearch.WindowTooSmallBeyondFourCells`).

## Model

| member | source | states |
|---|---|---|
| KNearest.PushKeeps | include/small_gicp/ann/knn_result.hpp:80-100 | offering an unseen candidate to the bounded sorted list keeps it exactly the k nearest of all candidates seen so far |
| KNearest.SkipKeeps | include/small_gicp/ann/knn_result.hpp:80-83 | a candidate that does not precede the worst entry of a full list may be skipped without changing what the list means |
| KNearest.LatestIsPlain | include/small_gicp/ann/knn_result.hpp:89-91 | offering candidates by ascending index, by distance alone, is offering them by (distance, index): an equal goes behind the earlier ones |
| KNearest.KNearestUnique | include/small_gicp/ann/knn_result.hpp:80-100 | any two k-nearest lists of the same candidates have the same length and distances; in (distance, index) order they are equal |
| KNearest.KNearestLength | include/small_gicp/ann/knn_result.hpp:73-73 | the number found is min(k, number of candidates) |
| KNearest.KthWithin | cuda/src/preproc/covariance.cu:246-249 | the list is full with its last distance within a bound if and only if at least k candidates are within the bound |
| KNearest.PartSuffices | cuda/src/preproc/covariance.cu:246-249 | the k nearest of some candidates have the distances of the k nearest of all if and only if every candidate left out has k considered ones no farther than itself |
| KNearest.PartSufficesLex | cuda/src/preproc/covariance.cu:140-143 | in (distance, index) order they are the k nearest of all if and only if every candidate left out has k candidates in front of it |
| KnnResult.KnnResult.constructor | include/small_gicp/ann/knn_result.hpp:41-61 | the buffers start filled with the invalid index and the largest distance, with no entry |
| KnnResult.KnnResult.Push | include/small_gicp/ann/knn_result.hpp:80-100 | the in-place shifting insertion equals the bounded sorted insertion; entries from the largest distance on are rejected, and the cells behind the entries keep the invalid index |
| KnnResult.Place | include/small_gicp/ann/knn_result.hpp:89-96 | shifting the tail one cell at a time in place performs the sorted insertion and leaves the cells behind it alone |
| KdTree.PrunedPointsAreRejected | include/small_gicp/ann/kdtree.hpp:227-230 | points no nearer than the worst distance held would all have been rejected: leaving them out loses nothing |
| KdTree.BehindPlane | include/small_gicp/ann/kdtree.hpp:207-228 | a point on the far side of the split plane is at least the plane distance away |
| KdTree.UnsafeKdTree.ScanLeaf | include/small_gicp/ann/kdtree.hpp:198-205 | a leaf scan accounts for exactly the points of the leaf, offered in the order of their indices in the leaf |
| KdTree.PruningChangesNothing | include/small_gicp/ann/kdtree.hpp:227-232 | scanning a subtree that the plane test prunes would change nothing |
| KdTree.StopsAtFirst | include/small_gicp/ann/kdtree.hpp:194-233 | the unpruned search scans the leaves, the query side of every split first, and stops after the first leaf that brings the worst distance below epsilon |
| KdTree.UnsafeKdTree.Search | include/small_gicp/ann/kdtree.hpp:194-233 | the pruned recursion computes exactly the unpruned scan of the leaves, goes on if and only if the worst distance is not below epsilon, and accounts for every point of its subtree when it does |
| KdTree.UnsafeKdTree.KnnSearch | include/small_gicp/ann/kdtree.hpp:172-176 | the result of the unpruned scan: the k nearest of the whole cloud with epsilon 0, otherwise possibly k neighbours all nearer than epsilon; the cells behind them hold the invalid index and the largest distance |
| KdTreeBuilder.BuildIsWellFormed | include/small_gicp/ann/kdtree.hpp:96-126 | the tree holds every index once, separates every split, covers consecutive ranges, and has a node count that depends on the number of points alone |
| KdTreeBuilder.FewerNodesThanPoints | include/small_gicp/ann/kdtree.hpp:84-87 | with leaves of at least three points a tree over n >= 2 points has fewer than n nodes |
| KdTreeBuilder.NodesFitExactlyFromThree | include/small_gicp/ann/kdtree.hpp:85-85 | one preallocated node a point is enough for every cloud if and only if max_leaf_size >= 3 |
| KdTreeBuilder.KdTreeUnderConstruction.CreateNode | include/small_gicp/ann/kdtree.hpp:96-126 | the in-place recursion reorders only its own range, takes consecutive nodes from the counter in bounds, and stores the reference tree |
| KdTreeBuilder.BuildTree | include/small_gicp/ann/kdtree.hpp:80-88 | the stored tree is the reference tree of the cloud, rooted at 0, over all its points, with at most as many nodes as points |
| KdTreeBuilder.BuildAndSearch | include/small_gicp/ann/kdtree.hpp:145-176 | building a tree and searching it with epsilon 0 finds exactly the k nearest points of brute force, and fills the rest of the buffers with the invalid index and the largest distance |
| KdTreeTasks.AdvanceKeepsTree | include/small_gicp/ann/kdtree_omp.hpp:50-93 | every atomic move of every task leaves the tree that will have been built unchanged and rearranges only its own range |
| KdTreeTasks.AdvanceKeepsIds | include/small_gicp/ann/kdtree_omp.hpp:58-58 | ids come from the counter, are held once, and children hold larger ones than parents |
| KdTreeTasks.AdvanceKeepsNodes | include/small_gicp/ann/kdtree_omp.hpp:59-92 | a move writes only nodes its task holds, and stored nodes stay in step with their tasks |
| KdTreeTasks.ReturnedIsStored | include/small_gicp/ann/kdtree_omp.hpp:92-92 | a returned call has stored the tree it denotes |
| KdTreeTasks.ParallelBuildIsSequentialTree | include/small_gicp/ann/kdtree_omp.hpp:24-93 | for every interleaving the counter hands out exactly 0, 1, 2, ... within the array, the indices stay a permutation, and the finished tree is the sequential one, rooted at 0 |
| KdTreeTasks.MovesDecrease | include/small_gicp/ann/kdtree_omp.hpp:50-93 | every move that changes anything brings the build closer to its end |
| KdTreeTasks.SomeMoveIsEnabled | include/small_gicp/ann/kdtree_omp.hpp:80-90 | a call that has not returned always has a move: no deadlock |
| KdTreeTasks.BuildTree | include/small_gicp/ann/kdtree_omp.hpp:24-42 | taking arbitrary enabled moves until the root returns, and cutting the node array to the counter, stores the sequential tree with root 0 |
| KdTreeTasks.BuildAndSearch | include/small_gicp/ann/kdtree_omp.hpp:24-42 | for every interleaving, building in parallel and searching with epsilon 0 finds exactly the k nearest points of brute force and marks the rest of the buffers |
| HashIndex.MaskIsRemainder | cuda/include/sgc/voxel/hash_index.cuh:12-12 | masking with one less than a power of two is the remainder, for every natural number and power |
| HashIndex.MaskOnWords | cuda/include/sgc/voxel/hash_index.cuh:23-23 | the same on 64-bit words, for every capacity from 16 to 2^32 |
| HashIndex.StepsUndone | cuda/include/sgc/voxel/hash_index.cuh:18-22 | every step of the finalizer can be undone on 64-bit words: no two keys are mixed to the same word |
| HashIndex.GeneratorValues | cuda/include/sgc/voxel/hash_index.cuh:18-22 | it yields the first outputs of the splitmix64 generator |
| HashIndex.HashIsHome | cuda/include/sgc/voxel/hash_index.cuh:18-24 | the masked splitmix64 hash is the slot below the capacity at which the probe path of the key starts |
| HashIndex.ProbeStep | cuda/include/sgc/voxel/hash_index.cuh:37-37 | adding one and masking leads from each slot of the probe path to the next, round the end of the table |
| HashIndex.Capacity | cuda/src/voxel/hash_index.cu:46-49 | the capacity is a power of two, at least 16 and at least twice the number of keys |
| HashIndex.StepKeeps | cuda/src/voxel/hash_index.cu:20-33 | every atomic step of every thread keeps the table invariant, and no slot is emptied or given another key |
| HashIndex.StepDecreases | cuda/src/voxel/hash_index.cu:22-32 | every step of an unfinished thread lowers the number of steps left |
| HashIndex.RunsAreShort | cuda/src/voxel/hash_index.cu:14-33 | every run of n threads keeps the invariant and makes at most n (n + 2) steps, so all probe loops end |
| HashIndex.PathIsShort | cuda/src/voxel/hash_index.cu:22-32 | an occupied probe path is no longer than the number of keys, so it ends before coming round |
| HashIndex.FinishedTable | cuda/src/voxel/hash_index.cu:14-33 | in the finished table key i is in exactly one slot, with value i, and nothing else is stored |
| HashIndex.Build | cuda/src/voxel/hash_index.cu:20-33 | clearing and inserting under an arbitrary schedule ends in a finished table, for any hash function |
| HashIndex.BuildIndex | cuda/src/voxel/hash_index.cu:45-61 | with the capacity of the doubling loop and the splitmix64 hash, clearing and inserting distinct keys ends in a finished table of mask + 1 slots |
| HashIndex.FindVoxel | cuda/include/sgc/search/nn.hpp:22-37 | the binary search returns the position of the key, or -1 when it is absent |
| HashIndex.HashLookup | cuda/include/sgc/voxel/hash_index.cuh:27-39 | the probe loop ends and returns the index of the key, or -1; for the empty marker it returns the value of a free slot |
| HashIndex.LookupsAgree | cuda/include/sgc/voxel/hash_index.cuh:27-39 | hash lookup and binary search agree if and only if the probe key is not the empty marker |
| Voxels.FastFloor | cuda/include/sgc/voxel/voxel_key.hpp:22-30 | truncation plus correction is the floor |
| Voxels.CoordKey | cuda/include/sgc/voxel/voxel_key.hpp:54-61 | packed keys stay below 2^63, so none is the empty marker |
| Voxels.PackingOnWords | cuda/include/sgc/voxel/voxel_key.hpp:40-42 | on 64-bit words or-ing the shifted fields is adding them, and shifting and masking takes them apart |
| Voxels.PackThenUnpack | cuda/include/sgc/voxel/voxel_key.hpp:46-61 | unpacking undoes packing if and only if the coordinates are in the 21-bit range |
| Voxels.UnpackThenPack | cuda/include/sgc/voxel/voxel_key.hpp:46-61 | packing undoes unpacking for every 63-bit key |
| Voxels.EqualKeys | cuda/include/sgc/voxel/voxel_key.hpp:54-61 | equal keys mean equal coordinates up to wrap-around |
| Voxels.KeyOrder | cuda/include/sgc/voxel/voxel_key.hpp:54-61 | in range the order of the keys is the order of the cells by z, then y, then x |
| Voxels.CellGapBoundsDistance | cuda/src/reg/linearize.cu:118-123 | the scaled gap to a cell, which prunes the outer window, never exceeds the distance to a point in it |
| Voxels.OutsideCube | cuda/src/preproc/covariance.cu:246-251 | a point outside the cube of s shells is at least (s + frac_min) * leaf away |
| IndexedCloud.DecodeEncode | cuda/src/preproc/covariance.cu:205-210 | every offset of a (2r + 1)^3 window has a number below the window size that decodes to it |
| IndexedCloud.EncodeDecode | cuda/src/preproc/covariance.cu:205-210 | every number below the window size decodes to an offset of the window |
| IndexedCloud.StoredAtOneOffset | cuda/src/preproc/covariance.cu:211-213 | within a window key wrap-around cannot make one point appear at two offsets |
| IndexedCloud.Probe | cuda/src/preproc/covariance.cu:213-213 | a probe finds the point stored under the key through whichever index is ready |
| ShellSearch.TopK.Offer | cuda/src/preproc/covariance.cu:229-241 | the in-place merge into the shared list is the bounded sorted insertion in (distance, index) order |
| ShellSearch.UnreachedIsOutside | cuda/src/preproc/covariance.cu:246-251 | a point not stored in the cube of s shells lies outside it, at least as far away as its nearest face |
| ShellSearch.ReachIsCube | cuda/src/preproc/covariance.cu:205-213 | within the bound, being stored at an offset of the cube is lying in the cube: key wrap-around adds no point |
| ShellSearch.FiringTest | cuda/src/preproc/covariance.cu:246-249 | the early-stop test succeeds if and only if at least k points lie in the cube within the distance of its nearest face |
| ShellSearch.FiresLater | cuda/src/preproc/covariance.cu:246-251 | a bound that fires at one shell would fire at every later one |
| ShellSearch.ProbeCell | cuda/src/preproc/covariance.cu:202-243 | each probe merges the point stored at its cell exactly once and nothing else |
| ShellSearch.ScanShell | cuda/src/preproc/covariance.cu:195-243 | scanning a shell probes all its cells once: the list ends as the k nearest of the points stored in the cube up to it |
| ShellSearch.Shells | cuda/src/preproc/covariance.cu:195-254 | the list ends as the k nearest of the points stored in the cube of the last shell scanned, the first at which the bound can fire, or shell 12; the stop flag is set if and only if the bound fires for the cube of 12 shells |
| CovarianceNeighbors.OrderIndependent | cuda/src/preproc/covariance.cu:140-143 | at a given shell any two lists of the cube are equal: the selection does not depend on the processing order |
| CovarianceNeighbors.CubeListIsExact | cuda/src/preproc/covariance.cu:145-148 | the list of a cube has the k smallest distances of the cloud if and only if every point outside has k points of the cube no farther than itself |
| CovarianceNeighbors.FiringSuffices | cuda/src/preproc/covariance.cu:246-251 | when the bound fires that condition holds |
| CovarianceNeighbors.FiredListIsLexExact | cuda/src/preproc/covariance.cu:140-143 | when the bound fires, the list is the (distance, index) list of the whole cloud if and only if no point outside the cube at exactly the bound has fewer than k points in front of it |
| CovarianceNeighbors.TieOutsideTheCube | cuda/src/preproc/covariance.cu:246-251 | an indexed three-point cloud and a query for which the bound does not fire at shell 0, fires at shell 1, and such a point exists |
| CovarianceNeighbors.TiedNeighbors | cuda/src/preproc/covariance.cu:349-386 | on that cloud both passes return the nearest distances but not the points of the (distance, index) order |
| CovarianceNeighbors.NearNeighborsFire | cuda/src/preproc/covariance.cu:145-148 | the bound fires for every query with k points within a distance of twelve cells |
| CovarianceNeighbors.CornerNeighbor | cuda/src/preproc/covariance.cu:145-148 | an indexed cloud whose third neighbour lies within twelve voxels along each axis, for which the cube of twelve shells does not suffice |
| CovarianceNeighbors.SelectNext | cuda/src/preproc/covariance.cu:298-326 | the strided scan and the warp reduction select the next point in (distance, index) order, or none |
| CovarianceNeighbors.BruteForce | cuda/src/preproc/covariance.cu:294-331 | k rounds select the k nearest of the whole cloud in (distance, index) order |
| CovarianceNeighbors.Neighbors | cuda/src/preproc/covariance.cu:349-386 | both passes: exact distances if and only if the cloud has at most 8192 points or the cube of 12 shells suffices; for such small clouds exact in (distance, index) order if and only if no tie lies outside the cube at which the bound fired |
| WindowSearch.ScanWindow | cuda/src/reg/linearize.cu:59-93 | a window scan returns a point stored in an eligible cell, or none, that beats every eligible cell |
| WindowSearch.FirstPhaseCovers | cuda/src/reg/linearize.cu:98-98 | a first-phase best within two cells is nearest of all: skipping the second phase loses nothing |
| WindowSearch.BothPhasesCover | cuda/src/reg/linearize.cu:97-150 | pruning the second phase against the first-phase best or the threshold loses nothing below the threshold in the outer window, and nothing at all in the inner one |
| WindowSearch.FindNearest | cuda/src/reg/linearize.cu:46-155 | for every threshold all points of the inner window, and all points of the outer one below the threshold, are matched or beaten; up to four cells all points below it are; queries out of range match nothing |
| WindowSearch.Correspond | cuda/src/reg/linearize.cu:217-223 | for every threshold an accepted point is within it and no farther than any in scope, and one is accepted whenever a point in scope is below it or one of the inner window within it; up to four cells it is a nearest point of the cloud |
| WindowSearch.WindowTooSmallBeyondFourCells | cuda/src/reg/linearize.cu:107-110 | the four-cell limit is exact: for every larger threshold some cloud has a point below it that the search must miss |
| WarpReduce.ReduceSum | cuda/src/reg/linearize.cu:313-324 | the shuffle tree leaves the sum of the 32 lanes in lane 0 |
| WarpReduce.ReduceSelect | cuda/src/preproc/covariance.cu:312-323 | with a selecting operation lane 0 ends with a lane value no worse than any other |
| Reduction.LinearizeKernel | cuda/src/reg/linearize.cu:160-332 | in any order of the warps every launched warp writes exactly its own 43 in-bounds cells, the cache ends with the correspondence and matrix of every source point, or -1, and the counter at the number of inliers |
| Reduction.TotalOfWarp | cuda/src/reg/linearize.cu:313-324 | the running total over threads advances by the sum of the warp lanes |
| Reduction.TailAddsNothing | cuda/src/reg/linearize.cu:336-354 | the padding threads of the last block add nothing |
| Reduction.HostSum | cuda/src/reg/linearize.cu:432-441 | the ordered host loop adds up to the sum over all launched threads |
| Reduction.Symmetrize | cuda/src/reg/linearize.cu:442-447 | mirroring makes H symmetric and keeps its upper triangle, b and the error |
| Reduction.LinearizeAndReduce | cuda/src/reg/linearize.cu:372-452 | H, b, the error and the inlier count are the sums over all source points with a correspondence, H symmetric, and the cache holds the correspondences; with identity weights the error is half the sum of the squared distances; without source or target all are zero and the cache is left alone |
| Reduction.EveryCellIsTheSum | cuda/src/reg/linearize.cu:262-310 | when every point has a symmetric matrix whose upper triangle the threads compute, the result is the sum of the matrices of the points with a correspondence |
| Reduction.HoldsStays | cuda/src/reg/linearize.cu:301-309 | storing the correspondences of some points leaves those of all others in the cache |
| Reduction.WeightCells | cuda/src/reg/linearize.cu:302-305 | the cached matrices are stored by rows, nine cells a point |
| Reduction.UnitErrors | cuda/src/reg/linearize.cu:298-299 | with identity weights the error is half the sum of the squared distances to the correspondences |
| Reduction.ErrorOfOuter | cuda/src/reg/linearize.cu:298-299 | for a weight that is a product of a vector with itself the error is half the square of the residual along the vector |
| Reduction.ErrorAdds | cuda/src/reg/linearize.cu:298-299 | the error is additive in the weight |
| Reduction.EvalErrorCached | cuda/src/reg/linearize.cu:456-481 | with the cache of a linearization the re-evaluated error is the sum, over its correspondences and matrices, of the errors at the given pose; with identity weights half the sum of the squared distances there; at the same pose it is the error of the linearization |
| StableSort.StableSortUnique | include/small_gicp/util/sort_tbb.hpp:31-32 | there is only one stable sort of an input |
| StableSort.StableSortPermutes | include/small_gicp/util/sort_tbb.hpp:31-32 | a stable sort is a permutation |
| StableSort.DestInjective | include/small_gicp/util/sort_tbb.hpp:111-114 | different elements have different destinations in a pass |
| StableSort.DestOnto | include/small_gicp/util/sort_tbb.hpp:111-114 | every position is the destination of some element |
| StableSort.PassRefines | include/small_gicp/util/sort_tbb.hpp:61-121 | a stable pass by a higher digit refines a stable sort by the lower digits |
| RadixSort.Histogram | include/small_gicp/util/sort_tbb.hpp:64-76 | under any interleaving of the tiles the cells end with the counts per digit and tile |
| RadixSort.Offsets | include/small_gicp/util/sort_tbb.hpp:78-102 | the last counts saved before the scan, the scanned cells and the added-up bins give every digit and tile its first destination |
| RadixSort.Scatter | include/small_gicp/util/sort_tbb.hpp:104-117 | under any interleaving of the tiles every element reaches its destination, no cell being written twice |
| RadixSort.RadixPass | include/small_gicp/util/sort_tbb.hpp:61-117 | one pass is the stable distribution of its input by the digit |
| RadixSort.PassSortsMoreBits | include/small_gicp/util/sort_tbb.hpp:61-62 | after pass s the data is stably sorted by the low (s + 1) * bits bits |
| RadixSort.RadixSortTbb | include/small_gicp/util/sort_tbb.hpp:32-127 | for every length, key width, digit size and tile size the caller array ends as the stable sort of its input, whether the number of passes is odd or even |
| QuickSort.RearrangeKeepsOthers | include/small_gicp/util/sort_omp.hpp:76-83 | rearranging a pending range disturbs no other task and no pair already in order |
| QuickSort.PivotInUpperHalf | include/small_gicp/util/sort_omp.hpp:69-76 | the nine-sample pivot is an element of the range, so the upper part is never empty |
| QuickSort.PivotIsCentral | include/small_gicp/util/sort_omp.hpp:69-76 | no more than five of the nine samples lie on either side of the pivot |
| QuickSort.MiddleIsNotEmpty | include/small_gicp/util/sort_omp.hpp:76-77 | the pivot lands in the middle part, so both spawned ranges are strictly shorter even when all keys are equal |
| QuickSort.SpawnKeeps | include/small_gicp/util/sort_omp.hpp:79-83 | spawning the outer parts leaves the middle in its final place and keeps every unordered pair inside one pending range |
| QuickSort.QuickSortOmp | include/small_gicp/util/sort_omp.hpp:62-87 | for every strict weak order, array and interleaving: the sort ends with a sorted permutation |
| MergeSort.HalvesSorted | include/small_gicp/util/sort_omp.hpp:28-34 | when both half tasks have finished, however their steps interleaved, both halves are sorted rearrangements |
| MergeSort.Advance | include/small_gicp/util/sort_omp.hpp:19-36 | every step of every task keeps unbegun ranges untouched and finished ones sorted, changes only the range of its task, and lowers the steps left |
| MergeSort.SomeMoveIsEnabled | include/small_gicp/util/sort_omp.hpp:28-35 | an unfinished sort always has a task that can move: no deadlock |
| MergeSort.MergeSortOmp | include/small_gicp/util/sort_omp.hpp:19-36 | for every interleaving of the tasks the range ends as a sorted permutation of itself and nothing outside it changes |
| Downsampling.LeafRange | include/small_gicp/util/downsampling.hpp:39-40 | since the homogeneous coordinate 1 is range-checked too, points are kept only if the leaf is larger than 2^-20 |
| Downsampling.NewStep | include/small_gicp/util/downsampling.hpp:66-71 | closing a run writes the average of exactly its points and opens the next |
| Downsampling.Sweep | include/small_gicp/util/downsampling.hpp:59-75 | the sweep yields one average per valid key in strictly ascending order; a sweep that starts with an invalid key yields that one point |
| VoxelgridSampling.PermutedSum | include/small_gicp/util/downsampling.hpp:53-54 | the unstable sort does not change the sum of any voxel |
| VoxelgridSampling.Sample | include/small_gicp/util/downsampling.hpp:23-78 | the result is one average per occupied voxel, in ascending key order, if and only if the cloud is empty or some point is in range; otherwise it is an out-of-range point |
| VoxelgridSampling.DownsamplingUnique | include/small_gicp/util/downsampling.hpp:23-78 | the result is determined by the cloud |
| VoxelgridSampling.SumsAreConserved | include/small_gicp/util/downsampling.hpp:71-74 | weighted by the sizes of their voxels the output points add up to the points in range |
| VoxelgridSampling.CentroidStays | include/small_gicp/util/downsampling.hpp:71-74 | the centroid of a voxel lies in that voxel |
| VoxelgridSampling.SamplingAgain | include/small_gicp/util/downsampling.hpp:23-78 | sampling the result again at the same leaf size returns it unchanged |
| VoxelgridSampling.ResultInRange | include/small_gicp/util/downsampling.hpp:71-74 | a result of averages is empty or has a point in range, so sampling it again is not the exceptional case |
| VoxelgridSampling.SampleTwice | include/small_gicp/util/downsampling.hpp:23-78 | sampling twice is sampling once for every cloud, the exceptional out-of-range point included |
| DownsamplingBlocks.ReserveKeeps | include/small_gicp/util/downsampling_omp.hpp:87-87 | a reservation made with fetch_add is disjoint from all earlier ones and extends what they fill |
| DownsamplingBlocks.WriteKeeps | include/small_gicp/util/downsampling_omp.hpp:88-90 | writing a result into its reserved cell disturbs no other block |
| DownsamplingBlocks.SweepBlocks | include/small_gicp/util/downsampling_omp.hpp:61-94 | for every schedule and every cutting into blocks: each block in one piece, the pieces disjoint and filling the output, whose length depends only on keys and cuts |
| DownsamplingBlocks.SampleOmp | include/small_gicp/util/downsampling_omp.hpp:26-95 | the output is assembled from the averages of the quick-sorted items cut at key changes and at 1024-item boundaries |
| DownsamplingBlocks.CountExact | include/small_gicp/util/downsampling_omp.hpp:65-86 | over any first blocks the number of results is the number of runs of equal valid keys plus the number of inner cuts that do not fall between two runs |
| DownsamplingBlocks.OutputCount | include/small_gicp/util/downsampling_omp.hpp:65-86 | the output count is the number of occupied voxels plus the number of inner cuts at which no new voxel begins, hence at most the number of blocks less one more than the voxels |
| DownsamplingBlocks.AllAveragesExactly | include/small_gicp/util/downsampling_omp.hpp:72-85 | nothing but averages of in-range points comes out if and only if fewer points are out of range than the last block holds |
| DownsamplingBlocks.VoxelsAddUp | include/small_gicp/util/downsampling_omp.hpp:72-85 | the parts into which the blocks cut a voxel add up to the voxel |
| GaussianVoxel.OpenUndoesClose | include/small_gicp/ann/gaussian_voxelmap.hpp:33-37 | multiplying back by the count undoes the division |
| GaussianVoxel.GaussianVoxel.Add | include/small_gicp/ann/gaussian_voxelmap.hpp:32-42 | adding opens a finalized voxel and keeps mean and covariance the sums of everything added since creation |
| GaussianVoxel.GaussianVoxel.Finalize | include/small_gicp/ann/gaussian_voxelmap.hpp:45-53 | a finalized voxel holds the averages of everything added, along every vector and between any two; finalizing again changes nothing |
| GaussianVoxel.AverageExactly | include/small_gicp/ann/gaussian_voxelmap.hpp:45-53 | mean and covariance are the averages of the samples if and only if, for all vectors a and b, the count times a . mean and a . cov b are the sums over the samples |
| GaussianVoxel.SameCovariance | include/small_gicp/ann/gaussian_voxelmap.hpp:32-53 | samples that all have one covariance give that covariance |
| GaussianVoxel.RunCalls | include/small_gicp/ann/gaussian_voxelmap.hpp:32-53 | any interleaving of add and finalize ends with the sums, or the averages, of everything added, along every vector and between any two |
| GaussianVoxel.MeanStaysInCell | include/small_gicp/ann/gaussian_voxelmap.hpp:45-53 | when all added points share a half-open cell so does their mean |
| VoxelMapRuns.GaussianHistory | include/small_gicp/ann/incremental_voxelmap.hpp:55-92 | after every sequence of insertions each live Gaussian voxel is finalized and represents exactly the points its cell received since the scan that created it, at least one |
| VoxelMapRuns.LiveGaussianIsAverage | include/small_gicp/ann/gaussian_voxelmap.hpp:32-53 | so its mean and covariance are the averages over those points, along every vector and between any two, and its mean lies in its cell |
| VoxelMapRuns.BirthIsFirst | include/small_gicp/ann/incremental_voxelmap.hpp:61-66 | the creating scan is the one before which the cell was empty and after which it has been live ever since |
| FlatContainer.FlatContainer.Add | include/small_gicp/ann/flat_container.hpp:43-58 | a point is dropped when the container is full or a stored point is too close; the container stays bounded and sparse, and the normals and covariances it keeps belong to the same samples as its points |
| FlatContainer.AddedCovers | include/small_gicp/ann/flat_container.hpp:43-58 | after an add the container is full or some stored point is within the minimal distance of the offered one |
| FlatContainer.FlatContainer.KnnSearch | include/small_gicp/ann/flat_container.hpp:84-107 | the k nearest points of the container in (distance, index) order, with the invalid index behind them; an empty container leaves the buffers alone |
| IncrementalVoxelMap.AgeIsBounded | include/small_gicp/ann/incremental_voxelmap.hpp:74-80 | every live voxel satisfies lru < counter <= lru + horizon + cycle - 1 |
| IncrementalVoxelMap.InsertMeans | include/small_gicp/ann/incremental_voxelmap.hpp:55-92 | cell by cell: a voxel is live afterwards if and only if it was live or hit and no clearing found it out of the horizon; its contents are the finalized old contents plus the new points of its cell |
| IncrementalVoxelMap.InsertKeepsOrder | include/small_gicp/ann/incremental_voxelmap.hpp:55-87 | of two cells live after an insertion, those live before keep their order and stand in front of new ones, and of two new ones the first hit is in front |
| IncrementalVoxelMap.EvictInOrder | include/small_gicp/ann/incremental_voxelmap.hpp:76-79 | eviction leaves the survivors in their order |
| IncrementalVoxelMap.IncrementalVoxelMap.constructor | include/small_gicp/ann/incremental_voxelmap.hpp:46-46 | a new map is empty with horizon 100, cycle 10 and the centre offset only |
| IncrementalVoxelMap.IncrementalVoxelMap.SetSearchOffsets | include/small_gicp/ann/incremental_voxelmap.hpp:157-186 | 1 and 7 replace the pattern, 7 by the centre, the positive and the negative steps, 27 appends the 27 cells to it, any other number means 1 |
| IncrementalVoxelMap.CubePlaces | include/small_gicp/ann/incremental_voxelmap.hpp:177-184 | the offset (i, j, k) stands at place 9 (i + 1) + 3 (j + 1) + k + 1 of the 27 |
| IncrementalVoxelMap.IncrementalVoxelMap.Insert | include/small_gicp/ann/incremental_voxelmap.hpp:55-92 | the hash map and the flat vector stay mutually inverse and every voxel recent; the new vector is the touched, evicted and finalized old one |
| VoxelMapRuns.ReachableIsRecent | include/small_gicp/ann/incremental_voxelmap.hpp:74-87 | every map that a sequence of insertions produces has one voxel a cell and only recent voxels |
| VoxelMapRuns.OrderOfBirth | include/small_gicp/ann/incremental_voxelmap.hpp:55-87 | in every map that a sequence of insertions produces a voxel stands in front of another if and only if it was created first, by scan and by first hit within a scan |
| VoxelMapRuns.InsertAll | include/small_gicp/ann/incremental_voxelmap.hpp:55-92 | inserting scan after scan into an empty map ends in the flat vector of that sequence |
| VoxelMapSearch.InsertKeepsOk | include/small_gicp/ann/incremental_voxelmap.hpp:57-72 | every stored point lies in the cell of its voxel, and every voxel stays sparse |
| VoxelMapRuns.ReachableIsOk | include/small_gicp/ann/incremental_voxelmap.hpp:57-72 | in every map of point containers that a sequence of insertions produces, every point lies in the cell of its voxel and every voxel is sparse |
| VoxelMapRuns.ContainerHistory | include/small_gicp/ann/incremental_voxelmap.hpp:55-92 | a live container holds points that its cell received since the scan that created it, and unless it is full it covers all of them |
| VoxelMapSearch.IndexWords | include/small_gicp/ann/incremental_voxelmap.hpp:151-153 | on 64-bit words packing two 32-bit ids by shift and or is reversible |
| VoxelMapSearch.IndexRoundTrip | include/small_gicp/ann/incremental_voxelmap.hpp:151-153 | a global index decodes to the voxel and point it was made from |
| VoxelMapSearch.IndexOrder | include/small_gicp/ann/incremental_voxelmap.hpp:151-151 | indices are ordered by voxel and within a voxel by point |
| VoxelMapSearch.KnnSearch | include/small_gicp/ann/incremental_voxelmap.hpp:99-148 | the loops over pattern and points compute the search function of the flat vector, and mark the rest of the buffers with the invalid index and the largest distance |
| VoxelMapSearch.SearchIsKNearest | include/small_gicp/ann/incremental_voxelmap.hpp:127-148 | for k = 1, or a pattern without repeats, the result is the k nearest of the points in the cells of the pattern |
| VoxelMapSearch.SearchInVisitOrder | include/small_gicp/ann/incremental_voxelmap.hpp:127-148 | for every pattern, even with repeats, the result lists the first k visits by distance, of equally far ones the earlier visit |
| VoxelMapSearch.NearestIsGlobal | include/small_gicp/ann/incremental_voxelmap.hpp:99-119 | with the 27 cells a result within a leaf is the nearest point of the whole map, its index names that point, and no result means no point within a leaf |
| VoxelMapSearch.KNearestIsGlobal | include/small_gicp/ann/incremental_voxelmap.hpp:127-148 | for every k the result is the k nearest of the whole map if and only if every point outside the pattern has k searched points no farther than itself; with distinct offsets that cover the 27 cells it is whenever it is full with its last distance within a leaf |
| VoxelMapRuns.InsertAndSearch | include/small_gicp/ann/incremental_voxelmap.hpp:55-148 | building a map from any scans and searching it: a full result whose last distance is within a leaf is the k nearest of all stored points, and for k = 1 no result means no point within a leaf |
| VoxelMapSearch.RepeatedCentre | include/small_gicp/ann/incremental_voxelmap.hpp:176-184 | the pattern that setting 27 on a new map produces is exact for every map if and only if k is 1 |
| VoxelMapSearch.SamePointTwice | include/small_gicp/ann/incremental_voxelmap.hpp:176-184 | for every k >= 2 a lone point in the centre cell is returned twice |
| FlowGraph.FlowGraph.Preprocess | src/benchmark/odometry_benchmark_small_gicp_tbb_flow.cpp:61-67 | finishing a frame replaces its points and hands it to the sequencer |
| FlowGraph.FlowGraph.Pair | src/benchmark/odometry_benchmark_small_gicp_tbb_flow.cpp:73-78 | the serial node pairs each frame with the one before it |
| FlowGraph.FlowGraph.AlignPair | src/benchmark/odometry_benchmark_small_gicp_tbb_flow.cpp:81-96 | a registration reads only preprocessed frames and computes the alignment of its pair |
| FlowGraph.FlowGraph.Output | src/benchmark/odometry_benchmark_small_gicp_tbb_flow.cpp:102-108 | the trajectory grows by the product of its last pose and the alignment |
| FlowGraph.FlowGraph.IdleMeansDone | src/benchmark/odometry_benchmark_small_gicp_tbb_flow.cpp:158-164 | when no node can move every frame has been output: no frame is lost and nothing deadlocks |
| FlowGraph.Estimate | src/benchmark/odometry_benchmark_small_gicp_tbb_flow.cpp:50-165 | for every schedule the run ends with one pose per frame, pose i being the ordered product of the alignments up to frame i |
| FlowGraph.TrueTrajectory | src/benchmark/odometry_benchmark_small_gicp_tbb_flow.cpp:81-108 | if every registration yields the true motion from its target to its source, pose i is the true motion from the first frame, or on a later call from the frame left over, to frame i |
| FlowGraph.LaterCall | src/benchmark/odometry_benchmark_small_gicp_tbb_flow.cpp:73-78 | because the last frame is static, a later call yields the trajectory of a first call moved by the alignment to the frame left over |
| FlowGraph.LaterCallAgrees | src/benchmark/odometry_benchmark_small_gicp_tbb_flow.cpp:73-78 | a later call yields the trajectory of a first call if and only if that alignment is the identity |

## Left out

- Floating-point rounding, infinities and overflow on conversion to int: coordinates and distances are reals, integers are unbounded; 21-bit, 32-bit and 64-bit packing is modelled on words where it matters.
- The largest float: the searches take it as a parameter `far`; candidates from `far` on are rejected where the code rejects them, and the GPU searches require all distances to be below it.
- std::sort, std::partition, std::nth_element, std::inplace_merge, find_axis, preprocessing, registration and the factor maths are functions known by their contracts; nothing is assumed of them beyond the C++ standard's promise.
- NormalProjection: only axis-aligned splits are modelled.
- The kd-tree's index and node vectors and the voxel map's flat vector are fields of sequence type that the methods update; voxel contents are values inside the flat vector, so aliasing through the shared pointers is not captured.
- The tile buckets of the radix sort are a two-dimensional array indexed by bin and tile instead of one flat array.
- RadixSort.RadixSortTbb: the buffers reused between calls are allocated anew, because their old contents are never read.
- MergeSort.MergeSortOmp: sorting a short range and merging two halves are each one step, because no other task touches that range.
- KnnResult.KnnResult.constructor: requires k > 0, for which the code aborts otherwise.
- QuickSort.QuickSortOmp: a partition of a task's own range is one step, because no other pending task touches that range.
- DownsamplingBlocks.SweepBlocks: the sweep of a block and its reservation are one step, because the sweep only reads shared data; the writes interleave cell by cell.
- Reduction.LinearizeKernel: a warp writes its own slot and cache entries in one step; the outputs of a point other than its error are a parameter.
- FlowGraph.Estimate: preprocessing and registration each take effect in one step; queues in front of the serial nodes are first in, first out.
- KdTreeTasks.ParallelBuildIsSequentialTree: a task's reordering of its own range is one step, because no other task reads that range.
- GaussianVoxel.GaussianVoxel.Finalize: requires a point to divide by; the map only finalizes voxels that have one.
- HashIndex.BuildIndex: the mask is a natural number; that it fits 32 bits, for at most 2^31 keys, is not part of the model.
- VoxelMapRuns.InsertAndSearch: the horizon, the cycle and the settings stay as they are during the run.
- Overflow of the lru counter and of the 32-bit point and voxel ids; VoxelMapSearch requires the ids to fit.
- The 3x3 and 6x6 linear algebra beyond sums, scaling and quadratic forms: covariances from neighbours, eigenvalues, inverses, the exponential map, and the LM and Gauss-Newton loops.
- GPU launches, memory and error codes, shared-memory layout; kernels run one after the other in launch order. Building the hash index of an empty cloud, which launches an empty grid, is not excluded by the model.
- nn_query; downsample.cu, voxel_hash_map.cu, vgicp.cu and nn_query.cuh are not part of this model.
- random_sampling, file input and output, benchmarks, bindings, PCL and ROS adapters.
- voxelgrid_sampling_tbb: its block sweep is that of DownsamplingBlocks.SweepBlocks with other cuts; its parallel_sort is not modelled.
