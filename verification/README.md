# Distributed index arithmetic of a FETI solver

ESPRESO solves structural and thermal problems by domain decomposition (FETI) on many cooperating
processes. This project models the bookkeeping that makes the decomposed problem the same as the
undecomposed one, as it is written in the C++ sources, and proves what it achieves on every mesh,
every number of processes and every order in which messages may arrive.

The members named below are grouped by what they are about:

- **Constraints.** `Decomposition` is the mesh as the constraints see it: node intervals, the
  domains sharing each, the processes owning the domains, and the order in which each process lists
  its intervals. `Offsets` and `ConstraintUpdate` hand out the row numbers of the Lagrange
  multipliers. `DomainConstraints` holds the three walks that write rows, columns, values and
  weights of one domain, `ClustersMap` and `ProcessMap` the map of multipliers to processes. `Gluing`
  and `Scaling` state what all the pieces mean together, and `WholeMesh` runs everything and draws
  the conclusions for what the processes really computed. `DomainNodes`, `MatrixEntries`, `GluedDofs`
  and `MapRanks` say the same entry by entry: which degree of freedom of the domain's own matrices a
  column is, which pair or condition an entry belongs to, which processes a map entry names.
  `SampleMesh` shows a mesh with two processes, three domains and a Dirichlet node on a shared
  interval that meets all assumptions.
- **Loading.** `Clusterize` (with `BorderRefinement`, `RefinementLists`, `BucketCounts`,
  `LevelCounts`, `ProcessCounts`, `ClusterLevels`, `ClusterRun`, `BorderPlaces`) cuts the space-filling curve into
  parts of nearly equal size. `ClosestNode` and `AssignEBuckets`, `FillCoordinates`, `SharedNodes`
  and `NodeLoading`, `BlockExchange` and `ElementExchange` are the request/reply and packing
  protocols, `BalanceElements` and `Conservation` the redistribution of elements, `NeighbourExchange`
  the exchange with blocking sends, `MeshSort` and `GroupPermute` the renumbering of nodes and elements.
- **Containers.** `TArray`, `Esutils`, `MergeTree`, `SerializedData` and `UniformData` are the arrays
  and vectors cut into pieces for threads.
- **Matrices.** `SparseMatrices`, `Assembly`, `MassCopies`, `DomainMatrices`, `ElementValues` and
  `DofNumbering` are the assembly of element matrices and vectors.
- **Rigid-body kernels.** `RigidMotions`, `RotationCoefficients`, `StructuralMechanics` and
  `AnalyticRegularization` are the hand-unrolled orthogonalisation of the six rigid motions.
- **Line search.** `LineSearch`.

Code that changes things step by step is modelled by methods with loops and, where the source has an
object, by a class: `Domain`, `RandomInput`, `ThreadVectors`, `UniformVectors`, `SparseVVPMatrix`,
`SparseCSRMatrix`, `StructuralMechanics`, `Assembler`. All processes of a run are modelled by one sequence with an entry
for each; every process works with its own entry and with what the communication gives it.

`dafny verify dfyconfig.toml` checks the whole project.

## Model

| member | source | states |
|---|---|---|
| Offsets.ComputeIntervalsOffsets | src/assembler/constraints/constraints.cpp:38-94 | every process that lists an interval ends up holding the same global offset for it, and every process returns the same total, for any number of processes and any consistent interval order |
| Offsets.RangesDisjoint | src/assembler/constraints/constraints.cpp:69-91 | the ranges `offset .. offset + size` of two intervals, the ones `ComputeIntervalsOffsets` hands out, never overlap |
| Offsets.RangesCover | src/assembler/constraints/constraints.cpp:69-91 | every number below the total lies in the range of some interval, so with `RangesDisjoint` the ranges tile it |
| Offsets.CountOwned | src/assembler/constraints/constraints.cpp:49-67 | the first loop of a process puts into the buffer of each other process exactly the local offsets of the shared intervals it owns, in order, makes room for what it will receive, and returns its own total |
| Offsets.PushOffset | src/assembler/constraints/constraints.cpp:54-62 | the walk over the domains of one owned interval adds its offset to the buffer of every other process with a copy, once |
| Offsets.AssignOffsets | src/assembler/constraints/constraints.cpp:80-89 | reading the received buffers by one cursor for each owner, a process gives every interval it lists its global offset |
| ConstraintUpdate.Update | src/assembler/constraints/constraints.cpp:194-264 | after both rounds every process holds, for the intervals it lists, the row offsets of one common layout and knows the same two sizes |
| ConstraintUpdate.UpdatedLayoutIsValid | src/assembler/constraints/constraints.cpp:221-256 | that layout is sound: Dirichlet ranges tile `0 .. DirichletSize`, glue ranges the next `GluingSize` rows, each exactly as long as its interval needs |
| ConstraintUpdate.GluingSizeIsExact | src/assembler/constraints/constraints.cpp:237-248 | the computed size of an interval equals the number of pairs of copies of its non-Dirichlet degrees of freedom |
| ConstraintUpdate.DirichletSizeIsExact | src/assembler/constraints/constraints.cpp:214-227 | the computed size of an interval equals the number of conditions on all its copies |
| Pairs.PairOfIndex | src/assembler/constraints/equalityconstraints.cpp:152-163 | every position among the rows of one node belongs to a pair of copies |
| Pairs.PairIndexInjective | src/assembler/constraints/equalityconstraints.cpp:152-163 | no two pairs of copies of a node get the same position |
| DomainConstraints.Domain.InsertDirichlet | src/assembler/constraints/equalityconstraints.cpp:25-79 | the domain's vectors grow by exactly its Dirichlet rows, one unit entry for each condition, interval by interval, in the column of the node and kind (`DomainNodes.ColumnIsDof`), and `_domainDirichletSize` counts them |
| DomainConstraints.Domain.GlueNode | src/assembler/constraints/equalityconstraints.cpp:154-167 | one node adds the rows of all pairs of copy `dindex`, lower copies first, and moves the row index behind all pairs of the node |
| DomainConstraints.Domain.GlueElements | src/assembler/constraints/equalityconstraints.cpp:148-221 | the domain's vectors grow by exactly the glue rows of its intervals, skipping Dirichlet nodes, in the columns of the nodes and kinds glued (`DomainNodes.ColumnIsDof`), with weight one over the number of copies aligned to every entry |
| DomainConstraints.Domain.ScaleElements | src/assembler/constraints/equalityconstraints.cpp:368-422 | the third walk replaces the weight of every glue entry, aligned position by position with rows and columns, by the partner copy's diagonal over the sum, and leaves Dirichlet weights alone |
| DomainAssembly.AssembleDomain | src/assembler/constraints/equalityconstraints.cpp:25-422 | all three walks together give the domain's part of the one global matrix, with even weights or, with scaling, diagonal weights; `MatrixEntries` tells that part entry by entry |
| DomainNodes.NumberNodes | src/mesh/preprocessing/arrangement.cpp:219-226 | the local node numbers of the intervals a process lists follow each other from 0 |
| DomainNodes.DomainIntervalsValid | src/mesh/preprocessing/arrangement.cpp:228-244 | the node intervals of a domain are sorted, disjoint and numbered one after the other; the last number counts its nodes |
| DomainNodes.NodesOfDomain | src/mesh/preprocessing/arrangement.cpp:228-244 | the nodes of a domain are those of the listed intervals it shares, and no others |
| DomainNodes.StoredIntervalsMatch | src/mesh/preprocessing/arrangement.cpp:228-244 | the begin, end and `DOFOffset` the constraints store for an interval of a domain are those of the numbering its matrices use |
| DomainNodes.ColumnIsDof | src/assembler/constraints/equalityconstraints.cpp:150-160 | the column of node n and kind dof is `dofs * number + dof + 1`, where `number` is what `DofNumbering.Number` gives n among the intervals of the domain, for Dirichlet and glue entries alike |
| DomainNodes.ColumnIsIndex | src/assembler/physics/physics.cpp:282-294 | that column is the index `fillDOFsIndices` gives the node and kind, plus one |
| MatrixEntries.EveryTermIsEntry | src/assembler/constraints/equalityconstraints.cpp:25-422 | every entry of a domain is a glue entry in the row of a pair of copies, +1 weighted with the higher copy at the lower one, -1 weighted with the lower at the higher one, or a unit entry in the row of a condition, and its column is the degree of freedom glued or fixed in the numbering of the domain |
| MatrixEntries.EveryPairHasEntries | src/assembler/constraints/equalityconstraints.cpp:148-221 | each pair of copies of a free shared degree of freedom has such an entry, and only one, in the domains of both copies |
| MatrixEntries.EveryConditionHasEntry | src/assembler/constraints/equalityconstraints.cpp:38-57 | each condition of each copy has its unit entry in its row, and only one, on the degree of freedom it fixes |
| Gluing.GlueRowEntries | src/assembler/constraints/equalityconstraints.cpp:150-168 | over all domains of all processes a glue row has exactly two entries, both on the same node and degree of freedom: +1 at the lower copy weighted with the higher, -1 at the higher copy weighted with the lower |
| Gluing.GlueRowUnique | src/assembler/constraints/equalityconstraints.cpp:150-216 | two pairs with the same row are the same pair of copies of the same degree of freedom of the same interval |
| Gluing.GlueRowOf | src/assembler/constraints/equalityconstraints.cpp:150-216 | every row in `DirichletSize + 1 .. DirichletSize + GluingSize` belongs to a pair of copies of a non-Dirichlet shared degree of freedom |
| Gluing.FixedRowEntries | src/assembler/constraints/equalityconstraints.cpp:38-57 | over all domains a Dirichlet row has one unit entry, at its copy, and nothing anywhere else |
| Gluing.FixedRowOf | src/assembler/constraints/equalityconstraints.cpp:38-57 | every row in `1 .. DirichletSize` belongs to a condition of a copy |
| Scaling.GluedIffCopiesAgree | src/assembler/constraints/equalityconstraints.cpp:148-230 | the glue rows of `B1 * u` are all zero if and only if all copies of all non-Dirichlet shared degrees of freedom agree in `u` |
| ConstraintUpdate.EvenIsUnit | src/assembler/constraints/equalityconstraints.cpp:167 | weights of one over the number of copies sum to one on every slot |
| ConstraintUpdate.ScaledIsUnit | src/assembler/constraints/equalityconstraints.cpp:372-383 | weights diagonal over sum of diagonals, for positive diagonals, sum to one on every slot |
| Scaling.ScalingIdentity | src/assembler/constraints/equalityconstraints.cpp:368-422 | for weights summing to one (`EvenIsUnit`, `ScaledIsUnit`) and any number of copies, `B1 * B_D^T * B1 == B1` on every row |
| WholeMesh.AssembleMesh | src/assembler/constraints/constraints.cpp:194-264 | the whole run: offsets, then every domain on its process from its own stored data, then every map. Together the domains form the global matrix of the common layout; the row, column, value and weight at each position belong to one pair of copies or one condition, on the degree of freedom the matrices of the domain have for it; each map entry names exactly the processes that work on its multiplier. Diagonals are asked for with scaling only |
| WholeMesh.AssembledIdentity | src/assembler/constraints/equalityconstraints.cpp:368-422 | what the run built, even or scaled with positive diagonals, satisfies `B1 * B_D^T * B1 == B1` with no further assumption on layout or weights |
| WholeMesh.AssembledGluing | src/assembler/constraints/equalityconstraints.cpp:148-230 | the glue rows of what the run built vanish if and only if all copies agree |
| WholeMesh.WeightIsShare | src/assembler/constraints/equalityconstraints.cpp:368-422 | the weight of a copy times the number of copies is 1; with scaling, times the sum of the diagonal entries of all copies it is the diagonal entry of the copy |
| GluedDofs.AssembledGluingAtDofs | src/assembler/constraints/equalityconstraints.cpp:148-230 | the glue rows vanish if and only if, for every node and kind without a condition, all domains sharing the node have the same value at their own degree of freedom for it |
| SampleMesh.SampleIsValid | src/assembler/constraints/constraints.cpp:52-66 | a mesh with two processes, three domains, a shared interval and a Dirichlet node satisfies every assumption made on meshes |
| ClustersMap.NodeMap | src/assembler/constraints/equalityconstraints.cpp:235-256 | the double loop lists the pairs of one node in which the process has a copy, numbered by its running counter as `redundantglue` numbers them |
| ProcessMap.ClustersMapOf | src/assembler/constraints/equalityconstraints.cpp:84-278 | from its own lists and offsets a process builds exactly its map of the common layout, Dirichlet part first |
| ProcessMap.GlueRowInMap | src/assembler/constraints/equalityconstraints.cpp:233-278 | the multiplier of a pair is in the map of a process, in one entry, exactly when the process has one of the two copies, with exactly the rank of the other one if that differs |
| ProcessMap.FixedRowInMap | src/assembler/constraints/equalityconstraints.cpp:84-104 | the multiplier of a condition is in the map of the process owning the copy and in no other |
| ProcessMap.MapMatchesMatrix | src/assembler/constraints/equalityconstraints.cpp:84-278 | a multiplier is in the map of a process, never twice, if and only if it is a row of the matrix in which one of the domains of the process has a nonzero |
| MapRanks.EntryNamesWorkers | src/assembler/constraints/equalityconstraints.cpp:84-278 | an entry of the map of a process begins with the process itself and names, each once, exactly the processes one of whose domains has a nonzero in the row |
| MapRanks.ListsItsMultipliers | src/assembler/constraints/equalityconstraints.cpp:84-278 | no multiplier is listed twice, and each one a domain of the process has a nonzero for is listed |
| NonRedundant.NonRedundantGlue | src/assembler/constraints/equalityconstraints.cpp:170-192 | without redundancy, each copy of each node enters the row to its left neighbour and the row to its right neighbour, at the rows the source computes |
| NonRedundant.LinkMeets | src/assembler/constraints/equalityconstraints.cpp:172-184 | the row of a link holds +1 at its lower copy and -1 at its higher copy, on its node |
| NonRedundant.LinkHasTwoEntries | src/assembler/constraints/equalityconstraints.cpp:172-184 | with at most two copies or one node, a link's row has only the +1 of its lower and the -1 of its higher copy |
| NonRedundant.DistinctLinksIff | src/assembler/constraints/equalityconstraints.cpp:172-184 | the non-redundant numbering gives each link its own row if and only if there are at most two copies or at most one node |
| NonRedundant.LinkCounterexample | src/assembler/constraints/equalityconstraints.cpp:172-184 | three copies of two nodes: two different links share row 2 |
| NonRedundant.DirichletOffsets | src/assembler/constraints/equalityconstraints.cpp:36-72 | the running `LMoffset` puts the rows of a degree of freedom behind `ndomains * size` rows of each earlier one |
| NonRedundant.InsertedIff | src/assembler/constraints/equalityconstraints.cpp:38-72 | without redundancy the inserted Dirichlet rows are the allocated ones, and stay in the allocated range at all, if and only if there is one copy or conditions on at most one degree of freedom |
| NonRedundant.InsertedCounterexample | src/assembler/constraints/equalityconstraints.cpp:38-72 | two copies with one condition on each of two degrees of freedom: two rows allocated, row 3 inserted |
| Clusterize.RandomInput.Clusterize | src/input/randominput.cpp:312-483 | for any distribution of elements, tolerance and depth: every border is at the one place `BorderPlaces.BorderIs` gives it; borders never decrease, the last is the bucket count, the first is 0 if and only if no leading gap is cut, and the number of elements before a border is within the tolerance of its target if and only if no finest bucket has the target inside it with the tolerance exceeded on both sides |
| BorderPlaces.LevelPlaces | src/input/randominput.cpp:404-417 | whatever the order of the buckets of a level, the level puts each border at the first cut with enough elements before it in the refined bucket that holds its target, and leaves it where no refined bucket does |
| BorderPlaces.BorderIsUnique | src/input/randominput.cpp:387-483 | told without the loops, by the counts alone: a border is at the first cut with enough elements before it in the deepest refined bucket holding its target; this fits one place only |
| Clusterize.RandomInput.ClusterLevel | src/input/randominput.cpp:402-473 | one level takes all borders, and the sorted list of buckets still to refine, to the state required of the next level |
| Clusterize.RandomInput.RefineBucket | src/input/randominput.cpp:404-470 | one bucket: every border whose target lies in it goes to the first acceptable cut, no other border moves, and exactly the overfull parts are queued |
| BorderRefinement.MovedOrdered | src/input/randominput.cpp:409-413 | moving the borders of a bucket on any level keeps all borders in order |
| BorderRefinement.StepWaiting | src/input/randominput.cpp:404-417 | after a bucket, every border has met its target or its target lies in a bucket still waiting on this or the next level |
| RefinementLists.NextIsComplete | src/input/randominput.cpp:404-419 | once the list of a level is done, no overfull bucket of the next level is missing from the queue |
| RefinementLists.StepEnds | src/input/randominput.cpp:404-417 | on every level the border of a target inside an overfull part lies at the end of that part, also after the next bucket is refined |
| ProcessCounts.CarryStarts | src/input/randominput.cpp:472-480 | the counts picked by the sorted `refinedindices` are those of the sorted refined buckets, bucket by bucket, on every process |
| ProcessCounts.GlobalCounts | src/input/randominput.cpp:400-452 | summing the local counts of all processes gives, for each cut of each listed bucket, the global number of elements before it |
| LevelCounts.BucketSums | src/input/randominput.cpp:361-375 | the histogram and its coarsenings hold, on each preprocessed level, the number of elements before every bucket |
| BucketCounts.CountIsCardinality | src/input/randominput.cpp:361-375 | the number of elements before a position is the size of the set of places of elements with a lower bucket |
| BucketCounts.GlobalIsCount | src/input/randominput.cpp:400-402 | the sum of these numbers over all processes is the number among the elements of all processes together |
| LevelCounts.ScanCounts | src/input/randominput.cpp:441-450 | scanning the sorted elements from the carried counts gives the number of elements before every cut of the listed buckets |
| ClusterRun.AllBordersMet | src/input/randominput.cpp:387-483 | with at most twice the tolerance in each finest bucket, all borders meet their targets |
| ClusterRun.OverfullMissed | src/input/randominput.cpp:404-417 | a border whose target lies inside an overfull finest bucket ends up at the end of that bucket and misses its target |
| Clusterize.ClusterLateElements | src/input/randominput.cpp:312-483 | ten elements of two processes, all in the last bucket of any curve with more than one level: the run leaves the first border behind 0, and the border of target 5 misses it by more than the tolerance 2 |
| TArray.Distribute | src/basis/containers/tarray.hpp:10-25 | chunks in order from 0 to the size; none is longer than the mean rounded up, all are as long as the first until the size is reached, and empty ones come only at the end |
| SerializedData.ThreadVectors.Balance | src/basis/containers/serializededata.h:51-108 | with the default distribution, whose chunks are equal as `Distribute` makes them, or any given one: it runs to the end without reading in front of a vector if and only if no inner thread with an empty share has to pass structures on, and then every thread holds exactly the structures of its share with exactly their data |
| SerializedData.CutsKeepWhole | src/basis/containers/serializededata.h:51-108 | however the structures are cut into threads, the concatenated boundaries and the concatenated data are the original ones |
| SerializedData.ThreadShare | src/basis/containers/serializededata.h:51-108 | each thread has as many boundaries as structures, the first one more, and its last boundary is the number of data up to and with it |
| SerializedData.DistributionIsSafe | src/basis/containers/tarray.hpp:10-25 | distributions of `tarray` never make an inner thread with an empty share pass structures on |
| SerializedData.UnsafeExample | src/basis/containers/serializededata.h:96-98 | a given distribution for which `balance` would read in front of a vector |
| UniformData.UniformVectors.Balance | src/basis/containers/serializededata.h:17-49 | for structures of `esize` values: it succeeds, every thread then holding exactly the values of its structures in order, if and only if the distribution asks for exactly the values there are; without a distribution this means `esize == 1` or no values at all |
| UniformData.SharesAreAll | src/basis/containers/serializededata.h:17-49 | shares of all values are `esize` values for each structure, and put behind each other they are all values in order |
| UniformData.UniformExample | src/basis/containers/serializededata.h:18-28 | two structures of two values without a distribution: the last thread looks for values that do not exist |
| Esutils.RemoveDuplicity | src/basis/utilities/utils.hpp:94-108 | keeps the first of each run of equal values |
| Esutils.SizesToOffsets | src/basis/utilities/utils.hpp:31-41 | every size becomes the sum of the sizes before it; the sum of all is returned |
| MergeTree.InplaceMerge | src/basis/utilities/utils.hpp:146-166 | sorted segments, any number of them, become one sorted range with the same members, and nothing outside it changes |
| MergeTree.MergeRound | src/basis/utilities/utils.hpp:157-165 | one round makes sorted blocks of twice the width and keeps the members |
| MergeTree.MergeAppendedData | src/basis/utilities/utils.hpp:221-245 | sorted data with sorted segments appended become sorted, with the same members |
| MergeTree.SortWithUniqueMerge | src/basis/utilities/utils.hpp:205-219 | the result is strictly increasing and holds exactly the members of all lists |
| NeighbourExchange.NoDeadlock | src/input/input.cpp:56-69 | with sends that wait for their receive (section 3.4 of the MPI 3.1 standard), for any number of processes, some message can pass until all processes are done |
| NeighbourExchange.RunsEnd | src/input/input.cpp:56-69 | every run takes at most one message for each process |
| NeighbourExchange.FinalPrevious | src/input/input.cpp:56-69 | when all are done each process holds the last ID of its left neighbour, the first one -1 |
| NeighbourExchange.AnswerIff | src/input/input.cpp:46-76 | the IDs are globally sorted if and only if the answer is true and no border across empty processes fails to increase |
| NeighbourExchange.AnswerRightIff | src/input/input.cpp:46-76 | the answer agrees with global order if and only if it is not the case that all lists and all adjacent borders are in order while a border across empty processes is not |
| NeighbourExchange.AnswerWithoutEmpty | src/input/input.cpp:46-76 | with no process empty, the answer is true if and only if all lists are sorted and all borders strictly increase |
| NeighbourExchange.AnswerCounterexample | src/input/input.cpp:56-75 | IDs 5, none and 3 on three processes are answered as sorted |
| NeighbourExchange.AnswerStillRight | src/input/input.cpp:56-75 | for 5, none and 3, 1 a border across an empty process fails too, but the answer is right |
| BlockExchange.AllToAll | src/basis/utilities/communication.hpp:548-620 | every block, headed by size, target and source, arrives at its target once; the order of the blocks is left open |
| BlockExchange.BlockHead | src/input/randominput.cpp:258-260 | a block is headed by its own length, the target and the source, then come the data |
| BlockExchange.Boundaries | src/input/randominput.cpp:242-291 | scanning the sizes and sorting by source finds the block of every source, in whatever order the blocks came |
| AssignEBuckets.AssignBucketsOfAll | src/input/randominput.cpp:149-310 | on every process every element gets a bucket that stands at the place of its chosen node in the lists of the process whose range holds that node, whatever order both exchanges deliver their blocks in |
| AssignEBuckets.OneBucket | src/input/randominput.cpp:262-268 | with sorted ranges and increasing node lists there is only one such bucket |
| AssignEBuckets.StoreBuckets | src/input/randominput.cpp:285-303 | answers read owner by owner along the sorted permutation reach the elements that asked for them |
| AssignEBuckets.ChooseClosest | src/input/randominput.cpp:174-192 | every element gets the node described by `ClosestNode.IsChosen`: the smallest own node from the first kept one on, or, with none kept, the first of the nearest nodes behind all own ones |
| ClosestNode.ClosestIsChosen | src/input/randominput.cpp:176-192 | the scan with its two rules ends with the node so described |
| ClosestNode.ChosenIsUnique | src/input/randominput.cpp:176-192 | the description fits one node only |
| ClosestNode.OwnChosenIff | src/input/randominput.cpp:176-192 | a node of the process is chosen if and only if some own node is kept: every later node below the range is no nearer to its begin than an own node before it |
| ClosestNode.OwnPreferredIff | src/input/randominput.cpp:176-192 | an element with own nodes gets one of them, as promised, if and only if it has none or one is kept |
| ClosestNode.NoneBelowMeansOwn | src/input/randominput.cpp:176-192 | with no node below the range, an own node is chosen if and only if there is one |
| ClosestNode.RemoteIsNearest | src/input/randominput.cpp:176-192 | an element without own nodes gets a node as near to the begin of the range as any of its nodes |
| ClosestNode.ClosestExample | src/input/randominput.cpp:178-190 | for nodes 15 and 9 on the owner of 10 to 19 the remote node 9 is chosen |
| FillCoordinates.Requests | src/input/sortedinput.cpp:221-229 | the sorted nodes are cut at the borders of the owners: one request for each owner concerned, together all nodes |
| FillCoordinates.BackedData | src/input/sortedinput.cpp:300-338 | with moving cursors and any number of threads, an owner answers each process with, for each node asked for, exactly the processes that asked for it, in order |
| FillCoordinates.JoinRanks | src/input/sortedinput.cpp:382-419 | the unpacked answers put behind each other give the rank data of all nodes with boundaries that fit |
| SharedNodes.FillCoordinatesOfAll | src/input/sortedinput.cpp:217-430 | after the run each process has, aligned node by node, the IDs it uses, the coordinates their owners hold, and the rank lists |
| SharedNodes.CoordinatesAreOwners | src/input/sortedinput.cpp:342-355 | the coordinates of node `nd[t] + j` are those process t holds at place j of its range |
| NodeLoading.LoadNodes | src/input/sortedinput.cpp:202-466 | from the element nodes of all threads of all processes: every process knows, in increasing order, exactly the nodes its elements use, each with the coordinates its owner holds at its place and the increasing list of exactly the processes whose elements use it, and every element node becomes the position of its node in that list |
| SharedNodes.RanksAreUsers | src/input/sortedinput.cpp:312-327 | the rank list of a node is exactly the increasing list of the processes whose elements use it |
| SharedNodes.SharersAgree | src/input/sortedinput.cpp:312-327 | two processes that share a node have identical rank lists for it, and both are in them |
| SharedNodes.NeighboursWithMe | src/input/sortedinput.cpp:436-449 | `neighboursWithMe` holds exactly the processes with which a process shares a node, increasing |
| ElementExchange.WriteElements | src/input/input.cpp:257-310 | the message of a process is its elements in the order of their IDs, cut into one block for each target range |
| ElementExchange.ReadElements | src/input/input.cpp:320-344 | parsing undoes packing for records of any length and blocks in any order |
| ElementExchange.RecordsDetermine | src/input/input.cpp:320-344 | the records (ID, type, body, material, nodes in order) are all there is to know: element arrays with the same records are equal |
| BalanceElements.GetDistribution | src/input/input.cpp:96-108 | equal ranges of IDs from 0 on, none longer than the mean rounded up; the last ends one behind the largest ID of all processes (at 1 when no ID is above 0) |
| BalanceElements.BalancePermutedElements | src/input/input.cpp:257-345 | the multiset of element records (ID, type, body, material, node list) of all processes is unchanged, and every record is on the process whose range contains its ID, for the equal ranges of `GetDistribution` |
| Conservation.RowsAreColumns | src/input/input.cpp:312-318 | what all processes send row by row is what they receive column by column |
| MeshSort.SortElements | src/input/input.cpp:415-443 | whole records (ID, type, body, material, ordered node list) and the region bits follow the permutation, with row starts stored or counted |
| MeshSort.SortNodes | src/input/input.cpp:354-389 | IDs end up sorted, every node keeps its coordinates, rank list and region bits, and every reference of an element still points to the same node |
| MeshSort.RankListAt | src/input/input.cpp:369-389 | the rank list of node n that sorting keeps is the part of the rank data between the boundaries n and n + 1 |
| GroupPermute.PermuteGroups | src/basis/utilities/utils.hpp:43-54 | with several values for each place, all values of a place come from the place the permutation names |
| GroupPermute.GroupCells | src/basis/utilities/utils.hpp:43-54 | value e of place i is value e of place `p[i]` |
| MeshSort.RowMoved | src/input/input.cpp:369-442 | with the element permutation built from row sizes, row `i` of the permuted data is row `p[i]` of the data |
| MeshSort.IdsFollow | src/input/input.cpp:360-364 | sorting the IDs by themselves gives the same as permuting them |
| DofNumbering.NumberBijective | src/mesh/intervals/domaininterval.h:7-12 | for sorted disjoint intervals with cumulative offsets, each number below the count belongs to exactly one node |
| DofNumbering.NumberIncreases | src/mesh/intervals/domaininterval.h:7-12 | numbering keeps the order of the nodes |
| DofNumbering.LowerBoundLookup | src/assembler/physics/physics.cpp:290-291 | the bisection for `end <= node` finds the number of every node of the domain |
| DofNumbering.WalkLookup | src/assembler/physics/structuralmechanics3d.cpp:130-134 | the walk while `end < node` finds the same number, also when it stops one interval early |
| DofNumbering.FillDofsIndices | src/assembler/physics/physics.cpp:282-294 | the degrees of freedom of an element: first kind of all nodes, then second kind, and so on |
| DofNumbering.IndicesDistinct | src/assembler/physics/physics.cpp:291 | no two nodes or kinds share a degree of freedom, and all are below their count |
| SparseMatrices.SparseVVPMatrix.Shrink | src/basis/matrices/sparseVVPMatrix.hpp:42-59 | afterwards columns are strictly increasing in each row and each entry means the sum of what was pushed for it; no column is lost or invented, except column 0 in an empty row |
| SparseMatrices.CompactedMeans | src/basis/matrices/sparseVVPMatrix.hpp:47-56 | adding up neighbours with equal columns does not change the sum for any column |
| SparseMatrices.RowSumPermuted | src/basis/matrices/sparseVVPMatrix.hpp:46 | sorting a row, in any order among equal columns, does not change what it means |
| SparseMatrices.EmptyIsShrunk | src/basis/matrices/sparseVVPMatrix.hpp:57 | an empty row becomes the entry (0, 0.0), which means the same |
| SparseMatrices.SparseVVPMatrix.Get | src/basis/matrices/sparseVVPMatrix.h:79-88 | the summing lookup returns what the row means |
| SparseMatrices.SparseCSRMatrix.constructor | src/basis/matrices/sparseCSRMatrix.hpp:46-64 | one-based row pointers, columns and values hold exactly the shrunk rows |
| SparseMatrices.SparseCSRMatrix.Get | src/basis/matrices/sparseCSRMatrix.h:49-57 | with strictly increasing columns the first match is what the entry means, and no match means 0 |
| DomainMatrices.AssembleDomain | src/assembler/physics/physics.cpp:195-351 | for any sequence of elements: K and M come out compressed, with strictly increasing columns, and mean entry by entry the plain sum of all contributions; R and the reduced f are the plain sums of theirs; a part of the wrong size, and only that, is reported. What one element contributes is told by `ElementValues` |
| DomainMatrices.InsertElement | src/assembler/physics/physics.cpp:296-351 | one element adds its stiffness, the copies of its mass, its residual and its reduced load, or reports a part of the wrong size |
| ElementValues.ElementAt | src/assembler/physics/physics.cpp:305-310 | an element adds, at each pair of its degrees of freedom, its matrix entry times the scale of the element, and 0 everywhere else |
| ElementValues.ElementLinear | src/assembler/physics/physics.cpp:305-310 | also when degrees of freedom repeat: with scale k an element adds k times what it adds with scale 1 |
| ElementValues.VectorAt | src/assembler/physics/physics.cpp:342-345 | at each of its degrees of freedom the load adds its value times the load reduction, and 0 everywhere else |
| ElementValues.VectorLinear | src/assembler/physics/physics.cpp:342-345 | also when degrees of freedom repeat: the reduced load is the reduction times the load |
| ElementValues.AssembleTwoElements | src/assembler/physics/physics.cpp:296-351 | the assembly of two elements, one with its stiffness scaled by a half, with load reduction 0.5, value by value |
| Assembly.PushedMeans | src/assembler/physics/physics.cpp:305-310 | pushing duplicates adds each contribution at its place and nothing anywhere else |
| Assembly.TotalSymmetric | src/assembler/physics/physics.cpp:305-310 | symmetric element matrices give a symmetric sum |
| Assembly.MassInsertedMeans | src/assembler/physics/physics.cpp:317-325 | the mass matrix is added `multiplicity` times, copy `m` at every `multiplicity`-th index from `m` on |
| MassCopies.CopiesAreKindsIff | src/assembler/physics/physics.cpp:282-325 | with the indices as `fillDOFsIndices` leaves them, every copy reaches exactly one kind of degree of freedom of all nodes if and only if there is one node or one kind |
| MassCopies.CopiesExample | src/assembler/physics/physics.cpp:282-325 | two nodes with two kinds: copy 0 takes indices 0 and 1, both kinds of the first node |
| MassCopies.MassExample | src/assembler/physics/physics.cpp:282-325 | there the mass between the two nodes ends up between the two kinds of one node, and 0 where it belongs |
| StructuralMechanics.StructuralMechanics.Prepare | src/assembler/physics/structuralmechanics.cpp:74-257 | when no domain and no cluster has all its nodes on a line, the passes make every centre, norm and quotient the one its own sums over the nodes call for, per domain and per cluster |
| RotationCoefficients.TotalIsDot | src/assembler/physics/structuralmechanics.cpp:110-256 | each unrolled accumulation is an inner product of kernel columns over all nodes |
| RotationCoefficients.CompleteIsFrame | src/assembler/physics/structuralmechanics.cpp:110-256 | finished coefficients are those of the Gram-Schmidt process over the nodes |
| RigidMotions.KernelOrthonormal | src/assembler/physics/structuralmechanics3d.cpp:62-95 | the six columns are orthonormal over any set of nodes the coefficients were computed from |
| RigidMotions.KernelIsRigid | src/assembler/physics/structuralmechanics3d.cpp:62-95 | each column u is a rigid motion: (p - q) * (u(p) - u(q)) = 0 for all nodes p and q, whatever the coefficients |
| RigidMotions.ColumnMotions | src/assembler/physics/structuralmechanics3d.cpp:62-95 | which motion each column is: three translations of one length along x, y and z, then rotations about the centre, whose axes are z, -y and x after subtracting the multiples of the earlier axes and scaling |
| RigidMotions.NormsPositive | src/assembler/physics/structuralmechanics.cpp:110-256 | unless all nodes are on one line, no norm the source divides by is 0 |
| RigidMotions.CollinearHasNoFrame | src/assembler/physics/structuralmechanics.cpp:110-256 | for nodes on one line there are no coefficients at all: some norm is 0 |
| AnalyticRegularization.Kernel | src/assembler/physics/structuralmechanics3d.cpp:40-95 | in each of the six dense columns, the three values at the degrees of freedom of every node of the domain, in the numbering of its matrices, are the displacement of the column at the coordinates of that node, with the coefficients of the domain or of its cluster |
| AnalyticRegularization.KernelAtNode | src/assembler/physics/structuralmechanics3d.cpp:62-95 | the values the loops over the intervals write for node n stand where `DofNumbering.Number` puts n |
| AnalyticRegularization.WrittenIsRigid | src/assembler/physics/structuralmechanics3d.cpp:62-95 | what each column has at the degrees of freedom of any two nodes moves them rigidly |
| AnalyticRegularization.DomainKernelOrthonormal | src/assembler/physics/structuralmechanics3d.cpp:48-95 | with the domain's coefficients the columns in the written values are orthonormal |
| AnalyticRegularization.ClusterKernelOrthonormal | src/assembler/physics/structuralmechanics3d.cpp:44-48 | with the cluster's coefficients the columns that all domains of the cluster write, each with its own call, are orthonormal when summed over these domains |
| LineSearch.Assembler.LineSearch | src/assembler/physicssolver/assembler.cpp:288-361 | for any residual: alpha is in [0.1, 1], the primal solution is unchanged, `deltaU` becomes alpha times what it was. Without a sign change alpha is 1. Else there is a run of at most six brackets of the slope from [0, 1] on: each next one keeps the end whose slope has the opposite sign of the slope at the zero of the chord and moves the other end there, the run stops early exactly at the first slope of at most half the start, and alpha is the zero of the last chord, cut at 0.1 and 0.99. If the slope is a line with its zero in [0.1, 0.99], alpha is that zero |
| LineSearch.InterpolationIsZero | src/assembler/physicssolver/assembler.cpp:342 | the interpolated point is the zero of the chord through the two ends |
| LineSearch.ProbedEnd | src/assembler/physicssolver/assembler.cpp:333-339 | in every bracket of a run one end is a point where the slope was taken, unless it is still the first bracket and no slope so far had the opposite sign of one of its ends |
| LineSearch.NegativeTakesAll | src/assembler/physicssolver/assembler.cpp:341 | from a negative slope at the start the run takes all its six slopes |
| LineSearch.SearchSprings | src/assembler/physicssolver/assembler.cpp:288-361 | two degrees of freedom with linear springs: the search finds alpha 0.25, where the slope is 0, and scales the increment by it |
| LineSearch.EarlyStopIff | src/assembler/physicssolver/assembler.cpp:341 | the early stop recognises a slope that has halved, for all slopes, if and only if the slope at the start is not negative; from a negative start it never fires |
| LineSearch.EarlyStopExample | src/assembler/physicssolver/assembler.cpp:341 | from -2 not even a slope of 0 stops the search |
| LineSearch.BracketNarrowed | src/assembler/physicssolver/assembler.cpp:333-339 | a new slope keeps the bracket: both ends are in order, hold the slope there, and differ weakly in sign without being equal |
| LineSearch.Assembler.Probe | src/assembler/physicssolver/assembler.cpp:315-325 | swapping the trial solution in and out leaves the primal solution as it was and returns the slope at alpha |

## Findings

Where the source does not do what it is for on all inputs, the code is modelled as it is, and the
exact condition is proved.

- Non-redundant gluing (src/assembler/constraints/equalityconstraints.cpp:172-184) moves on by one row
  for each node, although a node needs one row for each pair of neighbouring copies. Links get rows of
  their own if and only if there are at most two copies or at most one node
  (`NonRedundant.DistinctLinksIff`); three copies of two nodes fail (`NonRedundant.LinkCounterexample`).
- Non-redundant Dirichlet rows: line 72 of the same file moves on by `ndomains * size`, while
  src/assembler/constraints/constraints.cpp:221-227 allocates `size`. Inserted and allocated rows agree
  if and only if there is one copy or conditions on at most one degree of freedom
  (`NonRedundant.InsertedIff`); two copies with one condition on each of two degrees of freedom fail
  (`NonRedundant.InsertedCounterexample`).
- `clusterize` sets the first border to 0 (src/input/randominput.cpp:379), but refining moves it as well.
  It stays 0 if and only if no bucket that has to be refined, on any level, has no element before it
  without lying at the begin of the curve (the predicate `ClusterRun.Clustered`, established by
  `Clusterize.RandomInput.Clusterize`); the run of `Clusterize.ClusterLateElements` is such an input.
- `clusterize` meets the tolerance of a target if and only if no finest bucket has the target inside it,
  with at least the tolerance of its elements before and more than the tolerance behind (also part of
  `ClusterRun.Clustered`); the second border of `Clusterize.ClusterLateElements` fails. Such a bucket
  holds more than twice the tolerance, so without one that full all borders are met
  (`ClusterRun.AllBordersMet`).
- `isSorted` (src/input/input.cpp:56-72) compares with the left neighbour only. Its answer is wrong if
  and only if all lists and all adjacent borders are in order while a border across empty processes
  does not increase (`NeighbourExchange.AnswerRightIff`); IDs 5, none and 3 fail
  (`NeighbourExchange.AnswerCounterexample`), 5, none and 3, 1 do not
  (`NeighbourExchange.AnswerStillRight`).
- `balance` with boundaries (src/basis/containers/serializededata.h:98) reads in front of a vector if and
  only if an inner thread with an empty share holds structures that have to pass it
  (`SerializedData.ThreadVectors.Balance`, `SerializedData.UnsafeExample`). Distributions of `tarray` never do that
  (`SerializedData.DistributionIsSafe`).
- `balance` for structures of one size (src/basis/containers/serializededata.h:18-28) hands the number of
  values, not of structures, to `tarray`. Without a given distribution it succeeds if and only if the
  structures are single values or there are none (`UniformData.UniformVectors.Balance`); two structures
  of two values fail (`UniformData.UniformExample`). Its callers with structures of three values give a
  distribution.
- `assignEBuckets` says that the closest process is chosen (src/input/randominput.cpp:150). The code
  compares distances to the first node of the process, so a node of a lower process can win over one of
  its own (`ClosestNode.ClosestExample`). An element with nodes of the process itself gets one of them if
  and only if one of them is kept, that is, every later node below the range is no nearer to its begin
  than an own node before it (`ClosestNode.OwnPreferredIff`, `ClosestNode.OwnChosenIff`).
- The mass matrix is meant for one kind of degree of freedom at a time, but
  src/assembler/physics/physics.cpp:322 takes every `multiplicity`-th index while `fillDOFsIndices`
  (lines 282-294) lists the indices kind by kind. The copies reach one kind each if and only if there is
  one node or one kind (`MassCopies.CopiesAreKindsIff`); two nodes with two kinds fail
  (`MassCopies.CopiesExample`, `MassCopies.MassExample`).
- `shrink` gives an empty row the entry (0, 0.0) (src/basis/matrices/sparseVVPMatrix.hpp:57). What the
  matrix means is unchanged, the number of stored entries is not (`SparseMatrices.EmptyIsShrunk`).
- The kernel coefficients exist if and only if the nodes are not all on one line
  (`RigidMotions.NormsPositive` with `StructuralMechanics.StructuralMechanics.Prepare`, `RigidMotions.CollinearHasNoFrame`).
- The early stop of `lineSearch` (src/assembler/physicssolver/assembler.cpp:341) compares an absolute
  value with half the slope at the start. It recognises a slope that has halved if and only if the start
  is not negative, and never stops early from a negative one (`LineSearch.EarlyStopIff`,
  `LineSearch.EarlyStopExample`); the search then takes all its six slopes
  (`LineSearch.NegativeTakesAll` on the run `LineSearch.Assembler.LineSearch` promises).

## Left out

Assumptions:

- The results on `B1` as a whole are for redundant multipliers. The non-redundant mode is covered by
  `NonRedundant` only, since its numbering is sound for at most two copies or one node.
- The processes list the intervals they share in a consistent order, and Dirichlet nodes of an interval
  are distinct; the source reports the opposite of the latter as an internal error.
- The diagonals gathered in src/assembler/constraints/equalityconstraints.cpp:297-366 are given, with
  scaling, positive and the same on all sharers. The gather itself is not modelled.
- Numbers of type `double` are reals, and the square root is any non-negative function with `r * r == x`.
  Rounding and the machine widths of integers are not modelled.
- Communication is modelled by what it delivers: `exscan` gives the exclusive prefix and the total,
  `sendVariousTargets` each buffer to its target in the order of the sources,
  `allToAllWithDataSizeAndTarget` each block to its target in any order. Only the exchange in `isSorted`
  is modelled as single sends and receives.
- Loops run by several threads write disjoint parts and are modelled as sequential loops.
- What `MatrixEntries` and `GluedDofs` say about columns is for local node numbers that follow each other
  interval by interval, as `DomainNodes.NumberNodes` leaves them; the constraints read them from the mesh.
- Node IDs are below the end of the last process range, and every node an element uses is held, once, by
  the process whose range contains it, which keeps its nodes sorted by ID.
- `clusterize` takes the curve as a tree of buckets of any branching and depth and needs at least one
  element on all processes together; its tolerance is any number.

Members that state less than the source does:

- Assembly.InsertMass: takes square mass matrices only, because with more columns than rows the source would read beyond the degrees of freedom.
- ConstraintUpdate.Update: covers the redundant mode of `update`; the sizes and rows of the other mode are covered by `NonRedundant`.
- DomainMatrices.AssembleDomain: the element matrices are given, all four parts are asked for, and the faces and edges of boundary conditions are further elements of the list, with the scale of their stiffness.
- SharedNodes.FillCoordinatesOfAll: does not model the cut into threads at the end, which is `SerializedData.ThreadVectors.Balance` and `UniformData.UniformVectors.Balance`, or the branch for one process, which only copies.
- NodeLoading.LoadNodes: as `SharedNodes.FillCoordinatesOfAll`.
- BalanceElements.BalancePermutedElements: does not model region bits; the elements of equal ID keep no order among each other.
- SerializedData.ThreadVectors.Balance: `permuteNonUniformData` of the same class is not modelled.
- MergeTree.InplaceMerge: for natural numbers in place of any ordered type.
- AnalyticRegularization.Kernel: does not model fix points and the regularisation matrix built from them.
- LineSearch.Assembler.LineSearch: the residual is any function of the primal solution that keeps its shape.

Not modelled:

- Values of the Dirichlet conditions (`B1c`), lower bounds, `B1subdomainsMap` and `B0`.
- `balanceNodes`, `balancePermutedNodes` and `balanceElements`, which repeat the protocols shown here for other records.
- `linkup`, `exchangeBoundary`, region handling, and the geometry of the Hilbert curve.
- Element physics, the linear solver, configuration, readers, result output and the C interface.
