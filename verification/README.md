# Verified models of PyTorch's hard corners

A Dafny project that models six pieces of PyTorch and proves what they are for. Each module
follows one source file: code that updates state step by step is modelled by methods, loops and
classes, recursion by functions, and threads by an interleaving state machine.

| module | models |
|---|---|
| `CharPoly`, `Sylvester`, `LinearAlgebra` | the characteristic-polynomial machinery of the LOBPCG backward pass, over exact reals |
| `Lobpcg`, `LobpcgSteps`, `LobpcgOrtho`, `LobpcgStarts` | the LOBPCG iteration: the worker object and both update methods, the steps they take, the orthogonalisation loop, and starts that make it fail |
| `LobpcgRitz`, `LobpcgGram`, `LobpcgSpan`, `LobpcgExact`, `Forms` | what the iteration achieves in exact arithmetic: Rayleigh-Ritz pairs, orthonormality, spans |
| `ImageConverter` | the producer/consumer pipeline of `make_image_db` with its mutex and condition variable |
| `Barrier` | the counter-and-condition-variable barrier of the two launch benchmarks, over many rounds |
| `Bucketing` | grouping tensors into size-limited chunks and undoing the regrouping |
| `TensorStr`, `TensorReader`, `TensorLines`, `TensorFill` | the printer of integer tensors, a reader for its output, the layout arithmetic, and the placing of breaks and columns |
| `Annotation` | the annotation printer and the resolver that parses its output |
| `AutocastMode` | the autocast context manager |
| `Sums`, `Wrappers` | sums over sequences, optional values and results |

`dafny verify dfyconfig.toml` verifies the whole project.

## How the parts are modelled

- **Threads.** A run is a finite sequence of actions. Taking a lock, testing a predicate, going to
  sleep (which releases the lock), notifying, releasing, and waking for no reason are separate
  actions, so a theorem about every run covers every interleaving. Termination is a measure that
  every ordinary step uses up and a spurious wake-up raises by at most two.
- **Files in `make_image_db`.** Reading a file is a function from names to contents that may fail.
  The code logs that it skips an unreadable file, but it does not: a record is still written, with
  the new label and the bytes left over from the previous file of the same converter.
  `DeliveredInOrder` states exactly which bytes, `FaithfulIffAllOpen` when all records are right.
- **Barrier.** A round is the target that the program stores and a launch plan (a tree of closures
  ending in `parallel_for` ranges, whose split into chunks is arbitrary). The run theorems are for
  rounds whose target is the number of bodies launched, which is proved of both programs. The target
  is read again by each task after its increment, so a task delayed into the next round compares
  with that round's target; the theorems hold regardless.
- **LOBPCG.** The eigensolver, Cholesky and QR are function values that promise only shapes.
  Everything around them (products, Python slices, slice assignments, residuals, counts, all of
  svqb with its dropped columns and raised eigenvalues) is explicit, and a slice assignment is
  defined only for matching widths. In the `ortho` method the first update does not store the eigenvalues, so `E` stays zero until the second; the model does
  the same. On the CPU `basis` calls `orgqr`, which rejects a matrix wider than tall
  (`pytorch/aten/src/ATen/native/BatchLinearAlgebra.cpp:2003-2005`); `Worker.Run` proves that this
  can only happen in the second update, and states from the starting vectors exactly when: svqb
  dropped so many columns with x^T B x = 0 in the first that fewer new directions than unconverged
  pairs were left. Starting from exact eigenvectors is such a case (`InvariantStartFails`), with the
  identity and a unit vector as the smallest example (`FailingRun`).
- **LOBPCG in exact arithmetic.** A second layer assumes kernels that are exact: an eigensolver
  with ordered values and orthonormal vectors on symmetric matrices, square roots, an orthonormal
  basis that spans its argument, a Cholesky factorisation that succeeded, an inner stopping test
  that accepts only B-orthonormal columns, symmetric A and symmetric definite B. Then the three
  steps solve the Rayleigh-Ritz problem on their trial space; two turns of svqb make any columns
  B-orthonormal, however dependent they are (one turn if no eigenvalue is below the bound); in the
  `ortho` method the search basis is B-orthonormal after every update, spans the old vectors and
  the active residuals and nothing beyond the old basis and those residuals; and the leading
  unlocked value never gets worse (`LeadingImproves`). The comments of svqb and of the
  orthogonalisation promise as many columns as given when nothing is to be dropped; the code drops
  those with x^T B x = 0, and `SvqbShape` and `GetOrtho` state when that happens.
- **Iteration count.** The documentation calls `niter` a maximum and reserves -1 for no limit, but
  the counter is compared with zero after it was decremented, so `niter = 0` is unlimited too. In
  `Worker.Run` a count of at least one bounds the run and any other count never stops it.
- **Autocast.** An instance has one slot for the saved settings, and entering it again while it is
  active overwrites the slot. `Execute` says for every program of nested regions, re-entry and
  exceptions included, where each setting comes from afterwards, and so exactly when the settings
  return: always without re-entry (`NoReentryReturns`), and for a decorated function that calls
  itself in any pattern only if no outermost call makes another one, or if the settings were the
  instance's own beforehand (`DecoratedRecursion`).
- **Line width.** The printer counts elements per line as if nothing followed the last one. That is
  enough for a vector printed in full (`FitsIffOneElementFits`), but for rows the closing brackets
  follow, and in a summary the dots may be longer than an element; `FitsExactly` gives the condition
  for every rank, and `BracketOverflow` a print that is one column too wide. Within that limit lines
  are as full as they can be (`LinesAreFull`, `FewestLines`).
- **Annotations.** The resolver strips blanks around each dotted name, so it must understand text
  as a person writes it; `SpacedRoundTrip` is about every placing of blanks around the names.
  `Tuple[()]` resolves as written, but the printer drops the parentheses of an empty tuple and the
  result no longer resolves (`EmptyTupleWritten`, `EmptyTuplePrinted`).

## Model

| member | source | states |
|---|---|---|
| CharPoly.CoefficientsGivenRoots | pytorch/torch/_lobpcg.py:35-72 | the buffer sweep, in place or on clones, returns the coefficients of the product of linear factors |
| CharPoly.CoefficientsDenoteProduct | pytorch/torch/_lobpcg.py:39-42 | for every root list and every x the coefficients have the value of the product of (x - r_i) |
| CharPoly.MonicFromRoots | pytorch/torch/_lobpcg.py:39-42 | the leading coefficient is one, which Horner's rule takes for granted |
| CharPoly.PolynomialValue | pytorch/torch/_lobpcg.py:75-103 | the downward loop is Horner's rule for any zero power and transition |
| CharPoly.HornerOfRoots | pytorch/torch/_lobpcg.py:35-137 | Horner's rule on the computed coefficients gives the product, hence zero at every root |
| CharPoly.VectorPolynomialValue | pytorch/torch/_lobpcg.py:123-137 | each entry of the result is the polynomial at that entry |
| CharPoly.MatrixPolynomialValue | pytorch/torch/_lobpcg.py:105-121 | the result acts on every vector as p(A) does |
| Sylvester.SeriesColumns | pytorch/torch/_lobpcg.py:197-202 | the one-pass loop computes the series of every column, and its loop variable ends at the number of roots |
| Sylvester.SeriesIdentity | pytorch/torch/_lobpcg.py:169-202 | for every matrix, polynomial, vector and d: A X - d X = p(A) w - p(d) w for the series X |
| Sylvester.SeriesSolves | pytorch/torch/_lobpcg.py:167-211 | for a root d the series solves A X - d X = p(A) w |
| Sylvester.SeriesIsNaive | pytorch/torch/_lobpcg.py:173-202 | the one-pass series equals the double sum over matrix powers that it replaces |
| Sylvester.MonicIsPowers | pytorch/torch/_lobpcg.py:204-211 | Horner's rule at A equals the sum of c_k A^k |
| Sylvester.BackwardPieces | pytorch/torch/_lobpcg.py:164-230 | series, p(A) and sign together: every column equals the naive sum and solves the Sylvester equation with the computed p(A), and the sign is right beyond the roots; an unbound loop variable exactly when the largest eigenvalues are wanted and there are no roots |
| Sylvester.SignOfHorner | pytorch/torch/_lobpcg.py:221-230 | the chosen sign times the Horner value of the coefficients is positive at every point beyond all roots on the proper side |
| Sylvester.ApplyEigenvector | pytorch/torch/_lobpcg.py:221-230 | on an eigenvector p(A) multiplies by p of the eigenvalue |
| Sylvester.DefiniteBeyondRoots | pytorch/torch/_lobpcg.py:221-233 | on the span of orthogonal eigenvectors beyond the roots the signed form of p(A) is positive definite, as Cholesky needs |
| LobpcgSteps.Sizes | pytorch/torch/_lobpcg.py:569-577 | which k and n result from every combination of k, n and X, refused exactly when there are fewer than 3n rows |
| LobpcgSteps.FirstShape | pytorch/torch/_lobpcg.py:816-821 | the first Rayleigh-Ritz step yields n vectors and n values |
| LobpcgSteps.BasicShape | pytorch/torch/_lobpcg.py:831-838 | the replaced columns have width n - nc, and the exact width of P under Python slicing |
| LobpcgSteps.OrthoShape | pytorch/torch/_lobpcg.py:873-881 | the same for the orthogonal step, with the exact shape of the matrix given to basis |
| LobpcgRitz.FirstRitz | pytorch/torch/_lobpcg.py:816-821 | exact kernels: the new vectors are B-orthonormal, diagonal in A with the returned values, and each value is extreme, on the side asked for, among the vectors of the trial space B-orthogonal to the earlier ones |
| LobpcgRitz.BasicRitz | pytorch/torch/_lobpcg.py:831-838 | the same for the basic step, whose P consists of the Ritz vectors from number n on |
| LobpcgRitz.OrthoRitz | pytorch/torch/_lobpcg.py:873-881 | the same for the orthogonal step, whose P is B-orthonormal, B-orthogonal to the new vectors, and spans the replaced vectors together with them |
| LobpcgOrtho.SvqbShape | pytorch/torch/_lobpcg.py:976-1013 | svqb keeps the rows and loses columns exactly when one of them has x^T B x = 0 |
| LobpcgOrtho.GetOrtho | pytorch/torch/_lobpcg.py:1015-1113 | the loops compute the recursive form; never more columns than given, all of them if and only if no matrix passed to svqb has a column with x^T B x = 0, and the overdetermined error only beyond m columns |
| LobpcgOrtho.OverdeterminedIff | pytorch/torch/_lobpcg.py:1094-1110 | with more columns than rows and none dropped, the error occurs if and only if the first block fails the outer test |
| Forms.IdentityDefinite | pytorch/torch/_linalg_utils.py:32-42 | without B the identity that takes its place is definite, as the exact results ask of B |
| LobpcgGram.SvqbGram | pytorch/torch/_lobpcg.py:976-1013 | svqb makes any columns pairwise B-orthogonal, and B-orthonormal if they already were or if no eigenvalue is raised |
| LobpcgGram.OrthoOrthogonal | pytorch/torch/_lobpcg.py:1033-1038 | for B-orthonormal V every result is B-orthogonal to V, as documented, whatever the kernels |
| LobpcgGram.OrthoOrthonormal | pytorch/torch/_lobpcg.py:1033-1038 | every result is B-orthonormal, as documented, with two inner turns or one that raises nothing |
| LobpcgSpan.OrthoCovers | pytorch/torch/_lobpcg.py:1015-1113 | V and the result span exactly what V and U spanned |
| LobpcgOrtho.CollinearIsEmpty | pytorch/torch/_lobpcg.py:1025-1026 | if all columns of U are B-collinear to a B-orthonormal V, the result is empty, as documented |
| Lobpcg.LockedStayConverged | pytorch/torch/_lobpcg.py:731-750 | pairs that keep vector and value keep residual and convergence |
| Lobpcg.Worker.UpdateResidual | pytorch/torch/_lobpcg.py:731-735 | column j of A X - (B X) * E is zero if and only if A x_j = e_j B x_j, or A x_j = e_j x_j without B |
| Lobpcg.Worker.UpdateConvergedCount | pytorch/torch/_lobpcg.py:737-762 | the count is the number of leading converged pairs; the error exactly when it would fall below the previous one |
| Lobpcg.Worker.ReplacePairs | pytorch/torch/_lobpcg.py:835-841 | only columns from the locked ones on change; locked vectors, values and residuals stay, so the assertion that the count cannot decrease never fires |
| Lobpcg.Worker.RebuildBasis | pytorch/torch/_lobpcg.py:842-847 | S holds X, P and W side by side and converged_end is their total width |
| Lobpcg.Worker.UpdateBasic | pytorch/torch/_lobpcg.py:806-847 | the whole new state: locked pairs kept, the others replaced by the step (Rayleigh-Ritz pairs for exact kernels), S = X, P and the active residuals each multiplied by K, widths in bounds |
| Lobpcg.Worker.BlockInstalled | pytorch/torch/_lobpcg.py:886-892 | with exact kernels S is B-orthonormal once the new block is in place, and spans exactly X, P and the active residuals with it |
| Lobpcg.Worker.InstallOrtho | pytorch/torch/_lobpcg.py:883-892 | installing a step keeps the locked pairs and the widths, and the overdetermined error is unreachable |
| Lobpcg.Worker.UpdateOrtho | pytorch/torch/_lobpcg.py:849-892 | locked pairs kept, the others replaced by the step, S = X, P and the orthogonalised active residuals; the exact condition of the basis failure, which leaves X and E overwritten and the rest untouched |
| Lobpcg.Worker.Update | pytorch/torch/_lobpcg.py:708-729 | one iteration keeps the invariant, never lowers the count and keeps locked pairs; it can fail only at the second step, with the exact condition and the state it leaves; with exact kernels the pairs solve the Rayleigh-Ritz problem, and an orthogonal update leaves S B-orthonormal, spanning the old vectors and the active residuals and nothing else new |
| Lobpcg.Worker.Run | pytorch/torch/_lobpcg.py:764-791 | over a whole run: counts never fall, a locked pair keeps its vector, value and residual in all later states, n <= converged_end <= 3n <= m, it stops as soon as it may, niter >= 1 bounds it, and it fails exactly for the starting vectors that leave too few directions; with exact kernels every search basis of the orthogonal method is B-orthonormal and every later update solves its Rayleigh-Ritz problem |
| Lobpcg.LeadingImproves | pytorch/torch/_lobpcg.py:873-881 | with exact kernels the value of the first unlocked pair never gets worse from one update to the next |
| LobpcgStarts.LosslessNeverFails | pytorch/torch/_lobpcg.py:859-871 | a start whose residuals lose no column to svqb does not fail |
| LobpcgStarts.InvariantStartFails | pytorch/torch/_lobpcg.py:859-881 | a start spanning an invariant subspace makes the second update fail on the CPU if and only if it is reached with an unconverged pair |
| LobpcgStarts.RunFrom | pytorch/torch/_lobpcg.py:640-642 | a worker built from its inputs fails exactly for such starts |
| LobpcgStarts.FailingRun | pytorch/torch/_lobpcg.py:873-881 | the identity with a unit vector as the start fails in the second update |
| ImageConverter.QueueLines | pytorch/binaries/make_image_db.cc:234-237 | the queueing loop deals line i to converter i mod n |
| ImageConverter.QueuesConserve | pytorch/binaries/make_image_db.cc:234-237 | dealing neither loses nor duplicates lines |
| ImageConverter.DealtAt | pytorch/binaries/make_image_db.cc:234-249 | line i is in the queue its result will be fetched from, at the position of that fetch |
| ImageConverter.StepInv | pytorch/binaries/make_image_db.cc:95-264 | every action of every thread keeps the protocol invariant |
| ImageConverter.RunInv | pytorch/binaries/make_image_db.cc:95-264 | every state of every run satisfies it |
| ImageConverter.DeliveredInOrder | pytorch/binaries/make_image_db.cc:121-187 | under every interleaving record i has the label of line i and its bytes, or exactly the stale bytes when its file does not open |
| ImageConverter.FaithfulIffAllOpen | pytorch/binaries/make_image_db.cc:132-142 | all records carry their own bytes if and only if every file opens |
| ImageConverter.StaleImageExample | pytorch/binaries/make_image_db.cc:135-142 | every finished run over a readable and an unreadable file has recorded the first file's bytes under both labels |
| ImageConverter.StaleJobFinishes | pytorch/binaries/make_image_db.cc:234-264 | such a run exists |
| ImageConverter.ExactlyOnce | pytorch/binaries/make_image_db.cc:101-187 | a queue always splits into taken results, at most one in the slot, at most one in hand, and the rest |
| ImageConverter.NoLostWakeup | pytorch/binaries/make_image_db.cc:109-119 | a sleeper's condition is false or its partner is about to notify, and the two never sleep together |
| ImageConverter.Progress | pytorch/binaries/make_image_db.cc:95-264 | in every reachable unfinished state some thread can take an ordinary step |
| ImageConverter.StepMeasure | pytorch/binaries/make_image_db.cc:95-264 | ordinary steps use up the measure, spurious wake-ups give back at most two |
| ImageConverter.RunBound | pytorch/binaries/make_image_db.cc:234-264 | L lines on n converters take at most 24 L + 5 n + 12 steps plus two per spurious wake-up |
| ImageConverter.StuckOnlyWhenDone | pytorch/binaries/make_image_db.cc:95-99 | a run that cannot continue has written every record and joined every worker |
| ImageConverter.CanFinish | pytorch/binaries/make_image_db.cc:95-264 | every reachable state can be continued to the end |
| Barrier.LaunchTreeBodies | pytorch/binaries/intra_inter_benchmark.cc:43-73 | the recursive launch creates exactly 2^levels * sub_iter bodies |
| Barrier.LaunchLoopBodies | pytorch/binaries/at_launch_benchmark.cc:25-44 | the launching loop creates exactly the requested number of tasks |
| Barrier.TaskStepConserves | pytorch/binaries/intra_inter_benchmark.cc:52-63 | a task step moves work between tasks and counter without losing any |
| Barrier.StepInv | pytorch/binaries/intra_inter_benchmark.cc:36-81 | every action keeps the barrier invariant |
| Barrier.RunInv | pytorch/binaries/intra_inter_benchmark.cc:36-81 | every state of every run of any rounds satisfies it |
| Barrier.WaitIsExact | pytorch/binaries/intra_inter_benchmark.cc:36-41 | wait returns from a round only after exactly its bodies have finished |
| Barrier.IntraInterRounds | pytorch/binaries/intra_inter_benchmark.cc:75-81 | the stored target is the number of bodies launched, and each completed round ran 2^iter_pow * sub_iter of them |
| Barrier.AtLaunchRounds | pytorch/binaries/at_launch_benchmark.cc:39-51 | the stored target is the number of tasks launched, and each completed round ran as many |
| Barrier.NoStaleIncrement | pytorch/binaries/intra_inter_benchmark.cc:58-62 | no task of an earlier round increments the reset counter |
| Barrier.CounterBounds | pytorch/binaries/intra_inter_benchmark.cc:52-63 | a body is finished before it is counted, and the counter never passes the target |
| Barrier.NoLostWakeup | pytorch/binaries/intra_inter_benchmark.cc:36-63 | if the waiter sleeps at the target, a task of the current round is committed to notifying |
| Barrier.Progress | pytorch/binaries/intra_inter_benchmark.cc:36-81 | before the end some thread can always take an ordinary step |
| Barrier.RunBound | pytorch/binaries/at_launch_benchmark.cc:25-51 | runs are bounded by the launch plans, plus two steps per spurious wake-up |
| Barrier.StuckOnlyWhenDone | pytorch/binaries/at_launch_benchmark.cc:39-51 | a run that cannot continue has completed every round |
| Bucketing.SizeIsBytes | pytorch/torch/_utils.py:363-370 | the size is the bytes of all stored elements, indices and values for a sparse tensor |
| Bucketing.TakeTensors | pytorch/torch/_utils.py:350-379 | each chunk has one type and the chunks of each type are the greedy packing of that type's tensors |
| Bucketing.AddTensor | pytorch/torch/_utils.py:363-376 | one turn of the loop keeps one open buffer per type seen |
| Bucketing.FlushBuckets | pytorch/torch/_utils.py:377-379 | the final loop yields every open buffer once |
| Bucketing.ChunkShape | pytorch/torch/_utils.py:350-379 | a chunk fits the limit, or is zero-size tensors followed by one tensor over it |
| Bucketing.GreedyIsOptimal | pytorch/torch/_utils.py:371-376 | no cut into such chunks has fewer of them, for every limit |
| Bucketing.MinimalWithinLimit | pytorch/torch/_utils.py:350-379 | per type, no consecutive grouping within the limit has fewer chunks than were yielded |
| Bucketing.YieldsPreserveType | pytorch/torch/_utils.py:358-361 | the yields hold each type's tensors in their original order |
| Bucketing.ReorderTensorsAs | pytorch/torch/_utils.py:328-347 | result i is the next tensor of the reference's type; the first unserved reference decides the error |
| Bucketing.Drain | pytorch/torch/_utils.py:346-347 | the same for the generator over the per-type iterators |
| Bucketing.GroupMapReorder | pytorch/torch/_utils.py:328-379 | grouping, any type-preserving map and reordering give the map in the original order |
| TensorStr.FormatterWidth | pytorch/torch/_tensor_str.py:84-97 | the loop computes the common width |
| TensorStr.WidthCovers | pytorch/torch/_tensor_str.py:94-97 | no measured value is longer than the width |
| TensorStr.WidthReached | pytorch/torch/_tensor_str.py:89-97 | the width is one or the length of some measured value |
| TensorReader.ReadCanon | pytorch/torch/_tensor_str.py:197-231 | reading undoes the bracket text of any nested item, whatever follows it |
| TensorReader.TextShows | pytorch/torch/_tensor_str.py:175-231 | without blanks and breaks the printed text is the bracket text of what is shown |
| TensorReader.ReadBack | pytorch/torch/_tensor_str.py:175-231 | the text of any tensor without empty dimensions, summarized or not, reads back as what it shows |
| TensorReader.FullPrintInjective | pytorch/torch/_tensor_str.py:175-265 | equal full prints mean equal shapes and values, for any indentation and line width |
| TensorReader.SummaryAgrees | pytorch/torch/_tensor_str.py:197-228 | the numbers shown by a summary are, in order, the elements of the summarized data |
| TensorReader.PrintMatchesMeasure | pytorch/torch/_tensor_str.py:233-298 | the printed numbers are exactly the measured ones, each padded to the common width |
| TensorReader.NatStrShortest | pytorch/torch/_tensor_str.py:94-97 | the decimal text is the one shortest digit string with its value |
| TensorReader.EmptyPrint | pytorch/torch/_tensor_str.py:233-235 | the text [] is printed for tensors without elements and for no others |
| TensorFill.LinesAreFull | pytorch/torch/_tensor_str.py:181-206 | on the printed text: a vector that fits on one line is on one; any line but the last would pass linewidth with one more element; one element per line where none fits |
| TensorFill.FewestLines | pytorch/torch/_tensor_str.py:181-206 | no cut into lines within linewidth has fewer lines than the print |
| TensorFill.NumbersInColumns | pytorch/torch/_tensor_str.py:159-206 | every number is right-aligned in the columns of its place on the line |
| TensorFill.TextHasBreaks | pytorch/torch/_tensor_str.py:204-231 | the number of line breaks of any print: between two slices as many as the rank less one |
| TensorLines.LinesWidest | pytorch/torch/_tensor_str.py:204-206 | the widest line of a vector of elements of any lengths, dots included, whatever follows its bracket |
| TensorLines.TextWidest | pytorch/torch/_tensor_str.py:175-231 | the exact widest line of a print of any rank, summarized or not: rows only add their brackets to the layout of the last dimension |
| TensorLines.FitsExactly | pytorch/torch/_tensor_str.py:175-231 | for any rank all lines stay within linewidth if and only if the last line of a row with all closing brackets does, and the line of the dots, if any |
| TensorLines.StrFits | pytorch/torch/_tensor_str.py:233-265 | both for the whole print with the width the formatter computes |
| TensorLines.BracketOverflow | pytorch/torch/_tensor_str.py:181-231 | a print of two rows one column too wide although one element fits |
| TensorLines.FullVectorWidest | pytorch/torch/_tensor_str.py:175-206 | the exact width of the widest line of a vector printed in full |
| TensorLines.FitsIffOneElementFits | pytorch/torch/_tensor_str.py:176-206 | for a vector printed in full the condition reduces to one element with its separator fitting after the indent |
| Annotation.ParseNestedExpr | pytorch/torch/_jit_internal.py:68-94 | the index-advancing loops compute the recursive reading of the text |
| Annotation.LookupSnoc | pytorch/torch/_jit_internal.py:58-66 | a longer dotted name is one more attribute access at the end |
| Annotation.CharClasses | pytorch/torch/_jit_internal.py:70-79 | characters of names, blanks and the three stop characters are kept apart, and space, tab and line breaks are blanks |
| Annotation.SpacedRoundTrip | pytorch/torch/_jit_internal.py:68-110 | for any blanks before and after each dotted name the text resolves to what the annotation denotes, and is used up |
| Annotation.GapRoundTrip | pytorch/torch/_jit_internal.py:68-110 | the same for text with blanks after its commas |
| Annotation.EmptyTupleWritten | pytorch/torch/_jit_internal.py:73-76 | a subscript by the empty tuple resolves as written |
| Annotation.EmptyTuplePrinted | pytorch/torch/_jit_internal.py:300-305 | its printed form does not resolve |
| Annotation.ParsePrint | pytorch/torch/_jit_internal.py:68-94 | the printed text followed by any separator parses to the denotation and uses exactly that text |
| Annotation.RoundTrip | pytorch/torch/_jit_internal.py:96-110 | resolving the printed annotation gives what the tree denotes, including failure |
| Annotation.PrintInjective | pytorch/torch/_jit_internal.py:291-310 | two annotations with the same text are the same |
| AutocastMode.Autocast.Enter | pytorch/torch/autocast_mode.py:181-199 | saves the device's settings and the cache flag, installs its own, nests once more |
| AutocastMode.Autocast.Exit | pytorch/torch/autocast_mode.py:201-217 | puts the saved settings back and drops the cache exactly when nesting reaches zero |
| AutocastMode.Execute | pytorch/torch/autocast_mode.py:181-217 | for every program of regions, re-entry and exceptions included: the value each setting is left with, exactly when all settings return, the nesting count restored, and the number of cache drops |
| AutocastMode.ExecuteFirst | pytorch/torch/autocast_mode.py:181-217 | the same for one region, whose exit happens whether its body returns or raises |
| AutocastMode.NoReentryReturns | pytorch/torch/autocast_mode.py:201-217 | without re-entry every setting returns |
| AutocastMode.RegionMasks | pytorch/torch/autocast_mode.py:181-217 | a region around any program masks what the program leaves in that device's mode and the cache flag, and in nothing else |
| AutocastMode.ReentryThrough | pytorch/torch/autocast_mode.py:181-217 | what a re-entry through another instance's region leaves: that instance's values where both set them, else the outer one's own |
| AutocastMode.ClearsCounted | pytorch/torch/autocast_mode.py:205-213 | from outside the cache is dropped once per top-level region, from inside never |
| AutocastMode.DecoratedRecursion | pytorch/torch/autocast_mode.py:8-14 | a decorated function that calls itself in any pattern, with or without exceptions, restores the settings if and only if no outermost call makes another one or they were already the instance's |
| AutocastMode.NestedFromTwo | pytorch/torch/autocast_mode.py:8-14 | plain recursion loses them from depth two on |

## Left out

- Floating-point rounding, convergence speed and numerical stability of LOBPCG: the models use exact reals, without batching.
- How the eigensolver, Cholesky and QR compute their results, the NaN of a failed root, and the division by zero norms in the stopping tests; a stopping test with a positive tolerance accepts nearly B-orthonormal columns, about which the exact layer says nothing.
- Orthonormality in the basic method, whose search basis is not orthogonalised: its exact results hold whenever the Cholesky factorisation succeeds.
- The `ortho_use_drop` path, trackers, `force_stop`, and overriding `m`, `n`, `k` or `niter` through `ortho_iparams`.
- The final gradient of the backward pass after the Cholesky factorisation, and the complete-eigenspace branch.
- Raw mode of `make_image_db`, where decoding an unreadable image fails inside OpenCV; a machine reporting no hardware threads; shuffling, keys and commits of the database.
- The memory model of C++: `counter` and `overall_tasks` are read and written in single steps, and 32-bit overflow of `2^iter_pow * sub_iter` is not modelled.
- A main thread that runs the whole range itself when `iter_pow` is zero: the model lets another thread run it, which allows more interleavings.
- The interleaving of yields of different types in `_take_tensors`: only the sequence within each type is specified, as the documentation promises.
- Printing with `edgeitems = 0`, empty tensors beyond the text `[]`, and floating, complex, boolean, sparse, quantized and named tensors.
- Annotations outside dotted names and their subscripts: constants, one-element tuples, bare tuples, list arguments; `Union` handling.
- The autocast constructor's device and dtype checks and scripting mode.
- File, database and network plumbing and thin bindings elsewhere in the repository, which would only add easy members.
