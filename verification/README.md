# Verified models of QDash's algorithms and protocols

QDash calibrates superconducting-qubit chips. This project models, in Dafny, the parts of it that decide something:
which gate calibrations run in parallel, where the qubits of a lattice sit, how concurrent workers share one database
document, how stored documents are rewritten by migrations, how Markdown files are printed, parsed and edited, and how a
client retries. Each part is stated as functions on values; where the source changes state in loops or in place there is
a method or a class that follows those loops and is proved equal to the functions, and the promises are proved about the
functions.

`dafny verify dfyconfig.toml` checks everything.

**Cross-resonance scheduling.** `Wiring` builds the MUX conflict map and the qubit map from a wiring file.
`PairConflicts` turns them into a conflict graph, `GreedyColoring` colours it (first fit along any order of descending
degree), and `CrScheduler` splits the colour classes, puts the fast pairs before the slow ones and selects the pairs.
Main results: for every wiring and every list of distinct pairs, groups never clash, each pair runs exactly once, groups
hold at most ten pairs, and they are what first fit by descending number of clashes leaves, cut in tens.

**Lattices.** `LatticeLayout` is the block layout and its inverse, `LatticeCouplings` the oriented couplings;
`MuxLattice`, `SimpleLattice` and `CellLattice` are three independent generators. Main results: the layout is a
bijection, the couplings are exact and number 2g(g - 1), and the generators agree, the first two exactly on perfect
squares.

**Shared documents.** `ExecutionCounter` and `CalibrationNote` are state machines: any number of callers take atomic
database steps in any order. Main results: execution indices are distinct and gap-free and nobody runs out of retries;
merging notes in parallel is confluent and never erases a written path (`NoteOutcome` reads the result in the note
itself). `CalibMerge` is the recursive merge of calibration data, on values and on mutable dictionaries.

**Migrations.** `ForumNumbers` is the numbering of forum threads, `LegacyNotes` the move of legacy notes into comments.
`ForumOutcome` and `NoteComments` read their results in the fields of posts, counters and comments. Main results:
smallest free numbers, correct replies and counters, nothing changed by a second run; for the notes, a fixed point for
every store and an exact account of what survives.

**Text.** `CaseFormat`, `CaseItems`, `CaseRoundTrip`, `CaseHeadings` and `CaseScripts` are the printer and the parser of
issue-knowledge cases, `FigureLines`, `FigureRemoval` and `TaskFigures` the figure references in task documentation;
`CaseText` and `FigureText` state the texts themselves, `Text` holds the Python string operations both use. Main
results: the exact conditions under which a case survives export and parse, and under which rewriting a file twice
equals rewriting it once.

**Retries.** `Transport` is the client's retry loop and its tokens, `RetryOutcome` the same in statuses, seconds and
fields. Main results: how often a request is sent, how it ends, how long it sleeps, and when a token is given up.

## Where the code does not do what one might expect

- Splitting by a limit of zero raises an error and a negative limit silently drops every pair
  (`CrScheduler.GroupCrPairs`, `CrScheduler.NegativeStepLosesAll`); a positive limit, or none, is exactly what keeps all
  pairs (`CrScheduler.ExactlyOnceIff`).
- The row-major generator fails unless the grid size divides the number of qubits; on numbers that are not perfect
  squares it never agrees with the MUX generator (`SimpleLattice.AgreeExactlyOnSquares`).
- Two users' notes on one qubit: at most one of them becomes a comment, and another one is lost unless its text is on
  record already or the same (`LegacyNotes.ClearedNoteSurvivesIff`, `LegacyNotes.SecondUsersNoteIsLost`);
  `LegacyNotes.LosesNothingIff` says for every store when nothing is lost.
- Two calibration updates in turn are not always their merge (`CalibMerge.TwoUpdatesEqualTheirMergeIff`,
  `CalibMerge.LeafBetweenDictionaries`); they are when they agree on what is a dictionary
  (`CalibMerge.SameShapeIsEnough`).
- Figure updates are not always idempotent: removing a reference can form another one, and an empty last line is lost
  when the file is read again, if a section follows the images (`TaskFigures.TwiceIff`, with a file for each cause in
  `TaskFigures.TwoFilesThatChangeTwice`).
- A fractional number of attempts is accepted by clients/typescript/src/config.ts:42-49 and makes the error after the
  retry loop reachable (`Transport.ExhaustedIff`, `Transport.TwoAndAHalfAttempts`).

## Model

| member | source | states |
|---|---|---|
| `Wiring.BuildMuxConflictMap` | src/tools/cr_schedule_generator.py:149-195 | The conflict map is exact: `b` is in `map[a]` iff `a != b` and some wiring entries of the two MUXes share a readout module or share a control module; no entry is empty. |
| `Wiring.ExactMapIsSymmetric` | src/tools/cr_schedule_generator.py:178-195 | Every exact conflict map is symmetric and irreflexive. |
| `Wiring.ExactMapIsUnique` | src/tools/cr_schedule_generator.py:149-195 | A wiring has only one exact conflict map, so two builders that are both exact return equal maps. |
| `Wiring.GroupByModule` | src/tools/cr_schedule_generator.py:160-176 | One pass over the wiring groups exactly the MUXes of each readout module and of each control module. |
| `Wiring.OneModule` | src/tools/cr_schedule_generator.py:160-176 | A port belongs to exactly one module: the name without "-" that it equals or goes on from with a "-". |
| `Wiring.CreateConflictMap` | src/tools/cr_schedule_generator.py:178-186 | Two MUXes are linked iff they are different members of one group. |
| `Wiring.BuildReadoutSharingByModule` | src/tools/read_wiring.py:8-25 | The readout map links exactly the different MUXes that share a readout module. |
| `Wiring.BuildControlConflictsByModule` | src/tools/read_wiring.py:28-44 | The control map links exactly the different MUXes that share a control module. |
| `Wiring.MergeMuxConflicts` | src/tools/read_wiring.py:47-53 | The merged map links two MUXes iff one of the given maps does, and has the keys of all of them. |
| `Wiring.MergedMapEqualsDirectMap` | src/tools/read_wiring.py:8-53 | Merging the two separately built maps gives the very map that `build_mux_conflict_map` builds in one pass. |
| `Wiring.BuildQubitToMuxMap` | src/tools/cr_schedule_generator.py:198-215 | The map holds exactly the four decimal ids `4 * mux + i` of every wired MUX, each with its MUX. |
| `Wiring.StrIsDecimal` | src/tools/cr_schedule_generator.py:212-214 | The printed id of a qubit is the decimal notation of its number: digits without a leading zero that sum up to it, after a minus sign for a negative one. |
| `Wiring.DrivenByOneMux` | src/tools/cr_schedule_generator.py:198-215 | No qubit id belongs to two MUXes, so the map cannot depend on the order of the wiring entries. |
| `PairConflicts.TestDecidesClash` | src/tools/cr_schedule_generator.py:250-273 | Although it looks up the conflicts of one pair only, the test answers yes iff the two pairs share a qubit, use one MUX, or use MUXes that the wiring makes conflict. |
| `PairConflicts.ClashIsSymmetric` | src/tools/cr_schedule_generator.py:250-273 | A clash does not depend on the order of the two pairs. |
| `PairConflicts.SharingIsOverlap` | src/tools/cr_schedule_generator.py:254-257 | The set intersection is non-empty iff the control or the target of one pair is the control or the target of the other. |
| `PairConflicts.BuildConflictGraph` | src/tools/cr_schedule_generator.py:246-273 | Succeeds iff every tested combination has its MUXes mapped, and then joins exactly the pairs whose test says yes; otherwise returns the error of one combination. |
| `GreedyColoring.LargestFirst` | src/tools/cr_schedule_generator.py:275-276 | Every node once, ordered by descending number of neighbours plus loops, ties in any order. |
| `GreedyColoring.DescendingNeighbours` | src/tools/cr_schedule_generator.py:275-276 | Without self-loops that is: never a node with fewer neighbours before one with more. |
| `GreedyColoring.GreedyColor` | src/tools/cr_schedule_generator.py:275-276 | First fit along any order gives a proper colouring in which each node has the least colour that no earlier neighbour has. |
| `GreedyColoring.ColorNeedsPredecessors` | src/tools/cr_schedule_generator.py:275-284 | The colour of the i-th node is at most i and at most the number of its neighbours. |
| `GreedyColoring.ColorsWithinBound` | src/tools/cr_schedule_generator.py:275-284 | At most 1 + max min(degree, position) colours are used, the maximum taken over any listing of the nodes by descending degree. |
| `GreedyColoring.PositionBoundReached` | src/tools/cr_schedule_generator.py:275-284 | That maximum is the lesser of position and degree at some position. |
| `GreedyColoring.WelshPowell` | src/tools/cr_schedule_generator.py:275-284 | If k colours are used, at least k nodes have degree at least k - 1. |
| `GreedyColoring.GroupByColor` | src/tools/cr_schedule_generator.py:278-284 | The lists by ascending colour are exactly the colour classes, none empty and none missing. |
| `GreedyColoring.ClassesPartition` | src/tools/cr_schedule_generator.py:278-284 | The colour classes concatenated are a permutation of the nodes. |
| `GreedyColoring.ColorClasses` | src/tools/cr_schedule_generator.py:275-284 | The classes partition the nodes, each is free of edges, every node of a later class touches every earlier class, the Welsh-Powell bound holds, and they are what first fit leaves along some order by descending degree. |
| `GreedyColoring.OrderDecidesClasses` | src/tools/cr_schedule_generator.py:275-284 | That last statement leaves nothing open but the order of the nodes: two results along one order are equal, colour by colour and list by list. |
| `GreedyColoring.FewClasses` | src/tools/cr_schedule_generator.py:275-284 | In a graph without self-loops, k classes need k nodes with at least k - 1 neighbours each, and there is at most one class more than a node has neighbours. |
| `CrScheduler.ChunksCut` | src/tools/cr_schedule_generator.py:286-294 | For a positive limit, chunks concatenate back to the group and hold between 1 and the limit pairs. |
| `CrScheduler.ChunkCount` | src/tools/cr_schedule_generator.py:286-294 | A group of n pairs gives exactly ceil(n / limit) chunks. |
| `CrScheduler.ChunkAt` | src/tools/cr_schedule_generator.py:289-293 | The i-th chunk is the slice from i * limit on, of that length unless the group ends before. |
| `CrScheduler.SplitKeepsAll` | src/tools/cr_schedule_generator.py:286-294 | Splitting all classes loses and reorders nothing, each chunk comes from one class, and the number of chunks is the sum of the ceilings. |
| `CrScheduler.NegativeStepLosesAll` | src/tools/cr_schedule_generator.py:286-294 | With a negative limit `range` is empty and every pair is lost. |
| `CrScheduler.SplitGroups` | src/tools/cr_schedule_generator.py:286-294 | The splitting loop computes these chunks. |
| `CrScheduler.GroupCrPairs` | src/tools/cr_schedule_generator.py:223-296 | Fails iff an untestable combination is met or the limit is zero with pairs present; otherwise returns the greedy classes of the conflict graph, split by the limit. |
| `CrScheduler.ClassesAreSafe` | src/tools/cr_schedule_generator.py:246-284 | For every wiring, no two different pairs of one class share a qubit, use the same MUX, or use MUXes that share a readout or control module. |
| `CrScheduler.SplittingKeepsSafety` | src/tools/cr_schedule_generator.py:286-294 | Splitting safe groups gives safe groups. |
| `CrScheduler.ExactlyOnceIff` | src/tools/greedy.py:372-383 | Every pair is scheduled exactly once, and `external_pairs` is empty, iff there is no limit, the limit is at least 1, or there are no pairs. |
| `CrScheduler.LeftOver` | src/tools/greedy.py:372-383 | The pairs left over are exactly the given ones that no group holds. |
| `CrScheduler.AtMostMaxDegreePlusOne` | src/tools/cr_schedule_generator.py:275-284 | Without splitting there are at most max degree + 1 groups. |
| `CrScheduler.SelectedPairs` | src/tools/cr_schedule_generator.py:494-523 | The selected pairs are those whose control qubit has the lower known frequency, whose qubits both have the fidelity and none of whose qubits is excluded; if there are none, those with the frequency order alone; never a pair together with its reverse. |
| `CrScheduler.FiltersInWords` | src/tools/cr_schedule_generator.py:134-142 | Each filter condition says just that of the two qubits. |
| `Common.FilterKeepsOrder` | src/tools/cr_schedule_generator.py:134-142 | What a filter keeps stays in its order. |
| `Common.FilterCounts` | src/tools/cr_schedule_generator.py:134-142 | A filter keeps every element that passes as often as it occurs, and no other. |
| `CrScheduler.SplitFastSlowPairs` | src/tools/greedy.py:276-285 | The loop splits the pairs into those within one MUX and the others, in order. |
| `CrScheduler.SchedulableMeansTestable` | src/tools/cr_schedule_generator.py:250-273 | No KeyError occurs iff the wiring maps the qubits of every pair that takes part in a MUX test. |
| `CrScheduler.GroupFastThenSlow` | src/tools/cr_schedule_generator.py:535-544 | Succeeds iff the pairs are schedulable, else reports an unmapped qubit; the groups are then safe, hold every pair exactly once, hold at most 10 pairs each, all groups of fast pairs come first, and they are the chunks of greedy colour classes of the two clash graphs, as many as the sums of the rounded-up tenths. |
| `CrScheduler.ScheduleChip` | src/tools/cr_schedule_generator.py:485-544 | The whole program: each of its three errors is reported exactly when its cause is present, and otherwise the result is a good schedule of the selected pairs. |
| `CrScheduler.StepsNeedClashes` | src/tools/cr_schedule_generator.py:535-544 | A schedule is cut in tens from its fast and its slow classes, and k classes of one kind need k pairs of that kind that each clash with at least k - 1 others of it. |
| `CrScheduler.ClassesNeedClashes` | src/tools/cr_schedule_generator.py:275-294 | The same for any set of pairs, with at most one class more than a pair has clashes. |
| `LatticeLayout.LayoutInverse` | scripts/generate_topology.py:33-54 | The position of a qubit lies on the board and the explicit inverse finds the qubit again. |
| `LatticeLayout.LayoutOnto` | scripts/generate_topology.py:33-54 | Every position on the board is taken by the qubit that the inverse names. |
| `LatticeLayout.LayoutInjective` | scripts/generate_topology.py:33-54 | Two qubits never get one position, for every number of qubits and every positive MUX size and row length. |
| `LatticeLayout.LayoutFillsSquare` | scripts/generate_topology.py:33-54 | For a square number of qubits and a MUX size that divides its root, the qubits fill exactly the n-by-n grid. |
| `LatticeLayout.LayoutWalk` | scripts/generate_topology.py:37-54 | The layout is a walk from (0, 0): right inside a block, at its edge to the next row of the block, at its end to the next block on the right, at the end of a row of blocks to the first position below. |
| `LatticeCouplings.CouplingsExact` | scripts/generate_topology.py:56-86 | The couplings are exactly the even-to-odd pairs of grid neighbours: one for each unordered pair, none twice, and no qubit is a control in one and a target in another. |
| `LatticeCouplings.ProperInWords` | scripts/generate_topology.py:255-276 | [a, b] is such a coupling iff the qubits are one step apart and row plus column of a is even; row plus column of b is then odd. |
| `LatticeCouplings.CouplingsInOrder` | scripts/generate_topology.py:62-86 | Couplings come by ascending upper or left qubit, the one to the right before the one below. |
| `MuxLattice.BuildFinder` | scripts/generate_topology.py:56-60 | The position dictionary inverts the qubit dictionary. |
| `MuxLattice.CollectCouplings` | scripts/generate_topology.py:62-86 | The loop with its set of couplings already added returns the couplings of the neighbour checks. |
| `MuxLattice.TryCoupling` | scripts/generate_topology.py:66-86 | The body for one neighbour: if the pair is not in the set, the coupling is appended and the pair recorded. |
| `MuxLattice.StepIsNew` | scripts/generate_topology.py:62-86 | When a neighbour is checked its pair has not been added before: the set never suppresses a coupling. |
| `MuxLattice.MuxTopologyExact` | scripts/generate_topology.py:22-101 | Whenever a row holds at least one block, the outcome numbers the qubits, places them without collision and lists exactly the oriented neighbour pairs. |
| `MuxLattice.MuxQubitsInWords` | scripts/generate_topology.py:32-54 | The grid size is the integer square root, and the qubits 0 to n - 1 take that walk. |
| `MuxLattice.MuxCouplingsInWords` | scripts/generate_topology.py:56-86 | [a, b] is listed iff the qubits are one step apart and row plus column of a is even; row plus column of every target is odd. |
| `MuxLattice.GenerateSquareLatticeMux` | scripts/generate_topology.py:22-101 | The generator computes this outcome; it divides by zero exactly for a zero MUX size, or for a row without room for a block while there is at least one qubit. |
| `SimpleLattice.GenerateSquareLattice` | scripts/generate_topology.py:104-154 | The row-major generator returns its couplings, or a KeyError iff the grid size does not divide the number of qubits. |
| `SimpleLattice.SimpleTopologyInWords` | scripts/generate_topology.py:104-154 | With g the integer square root of n: an error iff g does not divide n; otherwise qubit q sits where row * g + col = q, and [a, b] is listed, once, iff the qubits are one step apart, in one row or both in the first g rows, and row plus column of a is even. |
| `SimpleLattice.AgreeExactlyOnSquares` | scripts/generate_topology.py:40-139 | With MUX size 1 the two generators return the same qubits and the same coupling list in order iff the number of qubits is a perfect square. |
| `SimpleLattice.MuxTopologyOfSquare` | scripts/generate_topology.py:22-101 | For g * g qubits and a MUX size dividing g the result fills the grid and has exactly 2g(g - 1) couplings. |
| `SimpleLattice.SamePositionsSameCount` | scripts/generate_topology.py:62-86 | The number of couplings depends on the occupied positions only, not on the numbering. |
| `CellLattice.QubitLattice` | src/tools/calc_poisition.py:7-43 | The loops return the edges and draw every qubit of the 2-by-2 block layout at (50 * col, -50 * row). |
| `CellLattice.LatticeEdgesExact` | src/tools/calc_poisition.py:14-31 | The edges run exactly from each qubit to its right and bottom neighbour. |
| `CellLattice.EdgesDistinct` | src/tools/calc_poisition.py:14-31 | No edge is listed twice. |
| `CellLattice.LatticesAgree` | src/tools/calc_poisition.py:7-43 | The independent generator and the MUX generator with 2-by-2 blocks connect the same unordered pairs of qubits, each listed once by both. |
| `ExecutionCounter.StepKeepsInv` | src/qdash/dbmodel/execution_counter.py:82-122 | Every database step of every caller keeps the invariant on stages, uniqueness and gap-freedom. |
| `ExecutionCounter.RunKeepsInv` | src/qdash/dbmodel/execution_counter.py:82-122 | The invariant holds after every schedule of any number of callers on any keys. |
| `ExecutionCounter.IndicesDistinctAndGapFree` | src/qdash/dbmodel/execution_counter.py:82-122 | In every interleaving no index is given out twice, the indices given out for a key are exactly the interval up to the stored counter, and no caller fails. |
| `ExecutionCounter.IndicesInNumbers` | src/qdash/dbmodel/execution_counter.py:82-122 | Read in the numbers: callers of one key get different indices above the counter stored at the start, or from 0 on if there was none, up to the one stored now, and every number in between was given out. |
| `ExecutionCounter.FourStepsSuffice` | src/qdash/dbmodel/execution_counter.py:82-122 | A caller that has moved four times is done and has begun at most a second attempt, whatever the others do. |
| `ExecutionCounter.LaterCallerGetsLargerIndex` | src/qdash/dbmodel/execution_counter.py:82-122 | A caller that starts after another one of its key has its index gets a larger index. |
| `ExecutionCounter.CounterCollection.GetNextIndex` | src/qdash/dbmodel/execution_counter.py:82-122 | The retry loop of a caller alone takes the two steps of its state machine and returns the next free index, stored as the new counter. |
| `ExecutionCounter.CounterCollection.InsertOne` | src/qdash/dbmodel/execution_counter.py:88-102 | Insertion succeeds iff the key is absent; it then starts the counter at 0 and otherwise changes nothing. |
| `ExecutionCounter.CounterCollection.FindOneAndIncrement` | src/qdash/dbmodel/execution_counter.py:107-112 | Returns the incremented counter and stores it, or nothing when the document is absent. |
| `ExecutionCounter.SoloRun` | src/qdash/dbmodel/execution_counter.py:82-122 | Two steps alone end with the first free index. |
| `CalibrationNote.BuildUpdateOps` | src/qdash/repository/calibration_note.py:332-336 | The update sets exactly one path for every qubit of every parameter that is a dictionary, with its value. |
| `CalibrationNote.OverlayTwice` | src/qdash/repository/calibration_note.py:332-359 | Setting paths in two rounds equals setting their union, later values winning. |
| `CalibrationNote.ReadOverlay` | src/qdash/repository/calibration_note.py:332-359 | A path reads the written value where there is one and the old value elsewhere. |
| `CalibrationNote.OverlayKeepsCanSet` | src/qdash/repository/calibration_note.py:332-359 | Setting paths never changes which later paths the database accepts. |
| `CalibrationNote.StepKeepsInv` | src/qdash/repository/calibration_note.py:264-375 | Every database step of every worker keeps the note equal to the base note overlaid with all writes so far, and the version equal to the number of successful writes. |
| `CalibrationNote.RunKeepsInv` | src/qdash/repository/calibration_note.py:264-375 | The same after every interleaving, from an absent or an existing document. |
| `CalibrationNote.MergingIsConfluent` | src/qdash/repository/calibration_note.py:244-375 | When every worker has finished, document, version and every outcome are the same in all interleavings of workers with disjoint paths. |
| `CalibrationNote.WorkersFinish` | src/qdash/repository/calibration_note.py:264-375 | Every worker finishes within three steps more than it has merges and never re-raises the duplicate-key error. |
| `CalibrationNote.WrittenPathsSurvive` | src/qdash/repository/calibration_note.py:264-359 | At any moment every path of a worker reads as that worker wrote it last, or as in the base note: nothing written is erased. |
| `CalibrationNote.UpsertWouldErase` | src/qdash/repository/calibration_note.py:158-242 | With `upsert` in place of `upsert_on_insert` a late worker erases a merged path unless its own initial note holds the same value. |
| `NoteOutcome.WorkerOutcome` | src/qdash/repository/calibration_note.py:244-375 | A worker completes its whole program if none of its writes goes below a parameter that holds something other than a dictionary in the base note; otherwise it stops at the first merge with such a write. |
| `NoteOutcome.LastWriteIsThere` | src/qdash/repository/calibration_note.py:332-359 | At any moment the note holds, in the dictionary of the parameter, what the owner of a path wrote there last. |
| `NoteOutcome.RestIsUntouched` | src/qdash/repository/calibration_note.py:332-359 | A field that nobody has written is as in the base note, and so is a parameter that is no dictionary. |
| `NoteOutcome.VersionCounts` | src/qdash/repository/calibration_note.py:264-359 | When every worker has finished, the version has grown by one for each worker and each non-empty merge that was carried out. |
| `CalibMerge.MergeReads` | src/qdash/dbmodel/qubit.py:66-74 | Path semantics of the merge: every path reads the new value where the update defines it, the merge of both where both do, and the old value otherwise, unless the update put a leaf above it. |
| `CalibMerge.MergeInFull` | src/qdash/dbmodel/qubit.py:66-74 | One merge of nested dictionaries written out. |
| `CalibMerge.MergeIdempotent` | src/qdash/dbmodel/qubit.py:66-74 | Applying the same update again changes nothing. |
| `CalibMerge.MergeIsUpdateIffCovers` | src/qdash/dbmodel/coupling.py:66-74 | Nothing of the old data is left iff the update covers it. |
| `CalibMerge.TwoUpdatesEqualTheirMergeIff` | src/qdash/dbmodel/qubit.py:66-74 | Two updates in turn equal their merge iff no old dictionary resurfaces through a leaf of the first update under a dictionary of the second. |
| `CalibMerge.SameShapeIsEnough` | src/qdash/dbmodel/qubit.py:66-74 | Two updates that never disagree about what is a dictionary equal their merge, whatever they are applied to. |
| `CalibMerge.LeafBetweenDictionaries` | src/qdash/dbmodel/coupling.py:66-74 | A concrete dictionary, leaf and dictionary for which the two differ. |
| `CalibMerge.MergeCalibData` | src/qdash/dbmodel/qubit.py:66-74 | The recursive in-place merge on mutable dictionaries leaves `existing` equal to the merge of the old contents, leaves `update` as it was, and touches only the objects of `existing`. |
| `CalibMerge.MergeEntry` | src/qdash/dbmodel/coupling.py:66-74 | One key of the loop: recursion where both sides are dictionaries, overwriting otherwise. |
| `ForumNumbers.NumbersAreSmallestFree` | src/qdash/dbmodel/migration.py:741-756 | Existing positive numbers stay; every other root gets, in order, the smallest positive number that is neither existing nor given to an earlier root. |
| `ForumNumbers.NumbersDistinctIff` | src/qdash/dbmodel/migration.py:724-756 | All roots end with distinct numbers iff the existing positive numbers have no duplicates. |
| `ForumNumbers.RootsAfter` | src/qdash/dbmodel/migration.py:741-808 | After the backfill every root has exactly its positive number and a root that had one is unchanged. |
| `ForumNumbers.RepliesAfter` | src/qdash/dbmodel/migration.py:758-773 | Every direct reply carries the number of its root, and nothing else about any other post changes. |
| `ForumOutcome.Threads` | src/qdash/dbmodel/migration.py:724-808 | Read in the posts: a root with a positive number is unchanged; any other gets the least positive number that no root had before and no earlier root has got. |
| `ForumOutcome.Replies` | src/qdash/dbmodel/migration.py:758-773 | Read in the posts: a reply takes over the number of the root it names; every other post is unchanged. |
| `ForumNumbers.CounterCoversNumbers` | src/qdash/dbmodel/migration.py:783-813 | The counter never decreases and is at least every root number. |
| `ForumOutcome.CounterIsLeast` | src/qdash/dbmodel/migration.py:783-813 | The new counter is the least number that is not below 0, the old counter or the number of any root. |
| `ForumNumbers.ReportedIsChanged` | src/qdash/dbmodel/migration.py:758-808 | The reported root count is the number of root threads that execution changes, and the reported reply count the number of other posts that it changes. |
| `ForumOutcome.ReportIsRight` | src/qdash/dbmodel/migration.py:742-800 | The report counts the roots without a positive number, the replies whose number differs from the new one of their root, and the undeleted replies that name no root; its counter is the least one. |
| `ForumNumbers.BackfillTwice` | src/qdash/dbmodel/migration.py:717-808 | A second backfill of a project changes nothing. |
| `ForumNumbers.MigrateTwice` | src/qdash/dbmodel/migration.py:689-819 | A second run of the whole migration changes no post and no counter. |
| `ForumNumbers.OneMoreProject` | src/qdash/dbmodel/migration.py:717-816 | Backfilling one project leaves the numbers, the report and the duplicates of every other project as they were. |
| `ForumNumbers.ForumStore.CollectExisting` | src/qdash/dbmodel/migration.py:724-739 | Collects the positive numbers in use and reports whether one occurs twice. |
| `ForumOutcome.DuplicatesInWords` | src/qdash/dbmodel/migration.py:724-739 | A project is blocked iff two of its roots have one positive number. |
| `ForumNumbers.ForumStore.NumberRoots` | src/qdash/dbmodel/migration.py:741-756 | The gap-filling loop, with termination by the used numbers still above the candidate, computes these numbers. |
| `ForumNumbers.ForumStore.UpdateReplies` | src/qdash/dbmodel/migration.py:758-773 | Counts, or updates and counts, exactly the stale replies. |
| `ForumNumbers.ForumStore.UpdateRoots` | src/qdash/dbmodel/migration.py:805-808 | Writes the new numbers and counts the changed roots. |
| `ForumNumbers.ForumStore.BackfillOne` | src/qdash/dbmodel/migration.py:717-816 | One project: blocked iff it has duplicates and is executed; the report equals that of a dry run; execution backfills posts and counter, a dry run changes nothing. |
| `ForumNumbers.ForumStore.Migrate` | src/qdash/dbmodel/migration.py:689-819 | The loop over projects: a dry run changes nothing and reports what execution would; execution finishes every project, or stops with some of them finished. |
| `ForumOutcome.MigrationInWords` | src/qdash/dbmodel/migration.py:702-816 | The projects visited are those with a non-empty name and a root; their posts are as their own backfill leaves them, their counters the least ones, and everything else is unchanged. |
| `LegacyNotes.AddCommentEntries` | src/qdash/dbmodel/migration.py:204-241 | Adding a note as a comment records its text and author unless the note is blank or the comment id is taken. |
| `LegacyNotes.RelocateEntries` | src/qdash/dbmodel/migration.py:393-421 | Moving comments into a scope leaves there exactly the texts of both. |
| `LegacyNotes.RelocateAppendsOnce` | src/qdash/dbmodel/migration.py:393-421 | The comments that were there stay in front, and no text is appended that is there already. |
| `LegacyNotes.Phase3Records` | src/qdash/dbmodel/migration.py:366-437 | Moving comments out of the global scope neither loses nor adds any entry of a target. |
| `LegacyNotes.SurvivorsAreExactlyKept` | src/qdash/dbmodel/migration.py:293-437 | For every store, what a target has on record after all three phases is exactly described. |
| `LegacyNotes.NothingInvented` | src/qdash/dbmodel/migration.py:293-437 | Nothing is on record afterwards that was not said before. |
| `LegacyNotes.LosesNothingIff` | src/qdash/dbmodel/migration.py:293-437 | Nothing a target said is lost iff every note whose comment id is in use, and every document with news, is on record elsewhere or equals the news that gets in: a condition on the store before the run. |
| `LegacyNotes.LosesNothing` | src/qdash/dbmodel/migration.py:293-437 | In particular when all documents of a target say the same and no legacy comment id is in use. |
| `LegacyNotes.SecondUsersNoteIsLost` | src/qdash/dbmodel/migration.py:321-364 | In every store: a later document of a target, after another one with news, whose own text is on no record and in no document up to that one, is cleared and its text is in no comment. |
| `LegacyNotes.ClearedNoteSurvivesIff` | src/qdash/dbmodel/migration.py:321-364 | In every store a document with a note is cleared, and its text is recorded afterwards iff it was on record before or is the first news of its target. |
| `LegacyNotes.TwoUsersOneComment` | src/qdash/dbmodel/migration.py:321-364 | Where two users' different notes on one qubit are all that is stored, the first becomes a comment and the second is lost. |
| `LegacyNotes.MigrateIsFixedPoint` | src/qdash/dbmodel/migration.py:179-439 | With unchanged cool-downs a second run leaves the whole store as it is, for every store. |
| `LegacyNotes.NoteStore.MigrateTargetNotes` | src/qdash/dbmodel/migration.py:293-319 | The first loop moves the summaries of the target notes themselves. |
| `LegacyNotes.NoteStore.MigrateDocuments` | src/qdash/dbmodel/migration.py:321-364 | One pass over the documents of one kind adds their notes and clears them. |
| `LegacyNotes.NoteStore.RelocateTarget` | src/qdash/dbmodel/migration.py:370-437 | Moves the earlier migrated comments of one target, deleting a global note that ends up empty. |
| `LegacyNotes.NoteStore.RelocateAll` | src/qdash/dbmodel/migration.py:366-437 | The third loop over all global targets, in any order. |
| `LegacyNotes.NoteStore.MigrateLegacyNotes` | src/qdash/dbmodel/migration.py:179-439 | The whole migration equals its three phases; a dry run changes nothing. |
| `NoteComments.NoTextIsLost` | src/qdash/dbmodel/migration.py:293-437 | Where the documents of a target agree in text and author and no comment has an id that the migration hands out, every stripped text said about the target is in a comment afterwards, by its last editor or "migration". |
| `NoteComments.TextsComeFromNotes` | src/qdash/dbmodel/migration.py:293-437 | Every text and author in a comment afterwards was in a comment, a note or a document of the target before. |
| `NoteComments.CommentsAreKept` | src/qdash/dbmodel/migration.py:293-437 | No text of a comment is ever lost. |
| `NoteComments.TargetNoteIsKept` | src/qdash/dbmodel/migration.py:293-319 | The text of a target note is in a comment by its last editor afterwards, unless its comment id is in use. |
| `NoteComments.FirstDocumentIsKept` | src/qdash/dbmodel/migration.py:321-364 | So is the text of the first document of a target with a visible note. |
| `NoteComments.OtherCommentsStay` | src/qdash/dbmodel/migration.py:366-437 | A comment stays under its key unless it is in a global note of an earlier run and its id starts like a migrated one. |
| `NoteComments.OneDocument` | src/qdash/dbmodel/migration.py:321-364 | A document alone: one comment with id, stripped text and author in the scope of the cool-down, and a cleared note. |
| `NoteComments.OneTargetNote` | src/qdash/dbmodel/migration.py:293-319 | A target note alone: its summary becomes its first comment and is cleared. |
| `NoteComments.OneGlobalComment` | src/qdash/dbmodel/migration.py:366-437 | A migrated comment alone in the global scope: it moves to the cool-down with a new id, and the global note is deleted. |
| `CaseRoundTrip.ParseRender` | scripts/export_issue_knowledge.py:37-80 | Exporting and parsing any case whose one-line fields are one line and whose bodies hold no heading gives the case in normal form: stripped values, visible lessons, default severity and status. |
| `CaseHeadings.RoundTripIff` | scripts/generate_task_knowledge.py:293-408 | The round trip is the identity iff the values are trimmed, severity and status are present, the lessons are visible and unpadded on the right, and no body holds a second-level heading. |
| `CaseHeadings.InnerHeadingBreaksRoundTrip` | scripts/generate_task_knowledge.py:347-353 | A heading inside a body never survives, whatever the other sections say. |
| `CaseHeadings.SectionsConserve` | scripts/generate_task_knowledge.py:347-353 | Any three sections together show no more visible characters than the file has outside its headings. |
| `CaseHeadings.ReexportIff` | scripts/generate_task_knowledge.py:293-408 | For every file that parses, exporting the result and parsing again is stable iff severity and status are not blank and no body starts with a heading. |
| `CaseRoundTrip.SectionsOfBlocks` | scripts/generate_task_knowledge.py:347-353 | Printed sections are read back as the map of their headings to their stripped bodies. |
| `CaseRoundTrip.PairRead` | scripts/generate_task_knowledge.py:332-345 | A printed metadata value is read back stripped; an absent one gives the default. |
| `CaseRoundTrip.TrailingBlankLine` | scripts/generate_task_knowledge.py:317-364 | A blank line at the end of a file changes nothing that is read from it. |
| `CaseItems.ListItemsOfStripped` | scripts/generate_task_knowledge.py:81-83 | The whitespace around a list text does not change its items. |
| `CaseItems.LessonItems` | scripts/generate_task_knowledge.py:81-83 | The items of printed lessons are the visible lessons, stripped on the right. |
| `CaseItems.MetaOfLine` | scripts/generate_task_knowledge.py:337-345 | A line `- key: value` is read as its key and its stripped value. |
| `CaseText.KeySpelling` | scripts/generate_task_knowledge.py:337-345 | Any key without a colon is read in lower case with underscores for spaces. |
| `Text.StripInWords` | scripts/generate_task_knowledge.py:338-345 | Stripping leaves the one text without whitespace at its ends that is padded with whitespace only. |
| `CaseScripts.CaseToMarkdown` | scripts/export_issue_knowledge.py:37-80 | The step-by-step printer computes the text, which parses back to the normal form. |
| `CaseText.PrintedText` | scripts/export_issue_knowledge.py:37-80 | The printed case line by line. |
| `CaseText.ParsedText` | scripts/generate_task_knowledge.py:396-408 | Every field as it is read back from a printed case, with the two defaults. |
| `CaseScripts.HeadingIndices` | scripts/generate_task_knowledge.py:333-333 | The positions of the second-level headings, all of them and in ascending order. |
| `CaseScripts.ParseCaseFile` | scripts/generate_task_knowledge.py:293-408 | The parser loops compute the same result as reading title, metadata and sections section by section. |
| `FigureLines.InsertKeepsText` | scripts/fetch_task_figures.py:259-273 | After an insertion no two blank lines are adjacent, and the visible lines are the old ones with the images at the insertion point. |
| `FigureLines.ImagesEndTheSection` | scripts/fetch_task_figures.py:244-273 | The images end up at the end of the Expected section, set off by one blank line on either side, with the next section right after. |
| `FigureText.ReferencesWritten` | scripts/fetch_task_figures.py:234-238 | The references written are "![Example result for <task>](./<file>)", one for each figure in order. |
| `FigureText.FigureReplaced` | scripts/fetch_task_figures.py:229-275 | A file with the section written out: old references go, and the new ones stand between single blank lines before the next section. |
| `FigureRemoval.ImageLineRemoved` | scripts/fetch_task_figures.py:36-36 | The removal pattern matches every reference that the script inserts, as a whole. |
| `FigureRemoval.StripImagesVisible` | scripts/fetch_task_figures.py:231-232 | Removal takes visible text away iff it changes the line. |
| `FigureText.OtherReferencesStay` | scripts/fetch_task_figures.py:36-36 | A reference to anything but a PNG file beside the text stays. |
| `TaskFigures.TwiceIff` | scripts/fetch_task_figures.py:229-275 | Rewriting twice with the same figures equals rewriting once iff one removal pass leaves no reference behind and either the Expected section is the last one or no empty line directly follows the last visible line. |
| `TaskFigures.UnstableChanges` | scripts/fetch_task_figures.py:229-275 | When removal forms a new reference, the second rewrite always changes the file. |
| `TaskFigures.RemovalFormsReference` | scripts/fetch_task_figures.py:36-36 | Removing a reference can form another one around it. |
| `TaskFigures.EmptyLastLineIsLost` | scripts/fetch_task_figures.py:229-275 | Where another section and two empty lines follow the Expected heading, the second rewrite changes the file. |
| `TaskFigures.FormedReferenceIsLost` | scripts/fetch_task_figures.py:229-275 | Where the last line nests one reference in another, the second rewrite changes the file, although its end is clean. |
| `TaskFigures.TwoFilesThatChangeTwice` | scripts/fetch_task_figures.py:229-275 | Both at contents in full, for all figures with proper names. |
| `TaskFigures.NoSection` | scripts/fetch_task_figures.py:255-279 | A file without an Expected section stays as it is, references included. |
| `TaskFigures.FindInsertIndex` | scripts/fetch_task_figures.py:244-262 | The search loop finds the end of the section before its trailing blank lines. |
| `TaskFigures.CollapseBlankLines` | scripts/fetch_task_figures.py:265-273 | The clean-up loop keeps the first of consecutive blank lines. |
| `TaskFigures.UpdateFile` | scripts/fetch_task_figures.py:229-279 | One file: rewritten iff it has an Expected section. |
| `Transport.RunIsFirstStop` | clients/typescript/src/transport.ts:155-171 | A request is sent up to the first answer that is final or the last attempt, ends with that answer, and sleeps the computed wait between attempts. |
| `RetryOutcome.SendsInWords` | clients/typescript/src/transport.ts:155-171 | Every answer before the last is a 408, 429, 500, 502, 503, 504 or no answer at all; the run ends with the first other answer or at the limit and reports it. |
| `RetryOutcome.WaitsInWords` | clients/typescript/src/transport.ts:238-248 | Each wait is the seconds of the header, or else a delay that starts at the base and doubles up to the cap, with up to a tenth added. |
| `Transport.SendsBounded` | clients/typescript/src/transport.ts:152-153 | GET and HEAD are sent at most as often as configured, every other method exactly once and without sleeping. |
| `RetryOutcome.MethodsInWords` | clients/typescript/src/transport.ts:152-153 | GET and HEAD are allowed the configured attempts, every other method one. |
| `Transport.ExhaustedIff` | clients/typescript/src/transport.ts:155-171 | The throw after the loop is reached iff the configured number of attempts is not whole and every attempt it allows asks for another. |
| `Transport.TwoAndAHalfAttempts` | clients/typescript/src/transport.ts:155-171 | With 2.5 attempts configured and a 503 as every answer, a GET is sent twice and then the throw after the loop is reached. |
| `Transport.SleepBounded` | clients/typescript/src/transport.ts:238-248 | Without Retry-After and with a whole number of attempts, n sends sleep at most 1.1 * min((n - 1) * cap, base * (2^(n - 1) - 1)) seconds in all and at least the delays without jitter. |
| `Transport.RetryAfterDecides` | clients/typescript/src/transport.ts:239-243 | A Retry-After header decides the wait alone: no cap, no jitter, never negative. |
| `Transport.TokenFromLogin` | clients/typescript/src/transport.ts:158-160 | Over any list of calls, the token a login client holds came from one login and was rejected by no call since. |
| `Transport.ApiTokenKept` | clients/typescript/src/transport.ts:158-160 | A client with an API token keeps it whatever the answers. |
| `RetryOutcome.ForgetsAfter401` | clients/typescript/src/transport.ts:158-160 | A token is forgotten iff the run ends with a 401 and the client has a username and no API token. |
| `Transport.Client.GetToken` | clients/typescript/src/transport.ts:182-226 | The token held, or a new one from the login; each error exactly when the source raises it, without changing the token. |
| `RetryOutcome.TokensInWords` | clients/typescript/src/transport.ts:182-226 | Each way not to get a token, by the fields that decide it. |
| `Transport.Client.SendWithRetries` | clients/typescript/src/transport.ts:155-171 | The loop computes the run and forgets the token iff the answer is a 401 to a login client. |
| `Transport.Client.AuthorizedFetch` | clients/typescript/src/transport.ts:142-172 | Without a token nothing is sent; otherwise the run and the token afterwards. |
| `Transport.Client.constructor` | clients/typescript/src/transport.ts:65-81 | A new client holds the configured API token, if any. |

## Left out

- Databases, networks, clocks, randomness and files: a database document is a value with atomic find, insert and update steps; answers, login results and random numbers are parameters; timestamps, user-id lookups and real sleeping are ignored.
- Floating point: frequencies, fidelities, delays and random numbers are reals, `int(n ** 0.5)` is the integer square root.
- Malformed coupling ids: ids are pairs after the split on "-".
- The order of equal degrees inside the colouring library: any order of descending degree is allowed, and every result holds for all of them.
- Negative MUX sizes and qubit numbers, the linear and heavy-hex generators, topology ids and YAML output.
- A missing wiring file, plotting, the printed summaries of the schedulers and the conversion of their groups to output formats.
- ExecutionCounter.CounterCollection.GetNextIndex: the loop is stated for a caller without interference; interleaved callers are the state machine of the same module.
- CalibrationNote: retries that the database server makes by itself inside one upsert, and path parts that contain dots.
- Other migrations, the repositories' in-memory twins, and execution locks, whose read and write are separate calls.
- ForumNumbers: posts come in the order of the sort, stored numbers are integers or absent, and projects are visited in any order instead of the sorted one.
- LegacyNotes.NoteStore.MigrateLegacyNotes: of a dry run only that it changes nothing, not its printed statistics.
- ForumNumbers: the report's list of duplicates, its number of threads and its totals.
- LegacyNotes: update times and user ids of comments.
- CalibMerge: leaves are opaque strings.
- CaseFormat: the images of a case are printed but their files are not loaded; lower-casing is ASCII; "\n" is the only line break.
- FigureLines: a reference is matched within one line; a "![" left open over a line break is not modelled, and neither is the choice of the file for a task.
- Transport: request headers, timeouts, JSON bodies and error messages; the date form of Retry-After, which the source does not parse; a failing sleep.
- Services that call these parts (workflow scheduling, agent sessions, forum posting, provenance) and the rest of the repository: data schemas, HTTP routes and user interface.
