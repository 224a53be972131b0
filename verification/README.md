# A verified model of vow's analyses

vow is a Go linter. The question behind most of its diagnostics is whether a
fact holds on every run that reaches a program point; it answers with searches
over control-flow graphs, a small flow-sensitive scan of call results and
guards, and an engine that derives and compares implication rules. Its own
scheduler decides in which order analyzers see packages, and a marker grammar
carries what authors declare. This project models those five parts in Dafny
and proves what their answers mean.

## Modules

- `Cfg`, `Ssa`: blocks, edges, the dominator tree characterised by paths; SSA
  functions and their runs, in which a value is chosen anew each time its
  defining block executes.
- `Narrow`, `NarrowSound`, `NarrowComplete`, `NarrowSearch`, `NarrowLimits`: what
  a guard proves about a value or a field, why a true answer holds on every run,
  what the search cannot miss, how it looks, and where it is unsound.
- `GuardWalks`, `GuardWalkLimits`, `NilFlow`, `AllocEscape`,
  `AllocEscapeComplete`, `AllocSurvival`, `AllocSurvivalPaths`,
  `AllocSurvivalLimits`: its clients: nil comparisons and integer intervals
  decided by dominating guards, nilness of phis, members stored before an
  allocation escapes and whether they are still there.
- `Facts`, `Jobs`, `Schedule`, `Outcomes`, `Execution`, `Building`, `Driver`,
  `FactFlow`: the scheduler. `Schedule` says what each step does to its state and
  proves what every step keeps, `Outcomes` says what a job's end tells of its
  inputs and its Run, `Driver.Graph` holds the fields and methods, `Facts` and
  `FactFlow` follow facts along import edges.
- `GuardLang`, `DeadGuard`, `DeadGuardSound`, `DeadGuardComplete`,
  `DeadGuardExact`, `DeadGuardLimits`, `DeadGuardScan`: a statement language with
  an operational semantics, the dead-guard scan over it, its soundness, the
  guards it does not miss, its limits and exactly where they lie, and the scan as
  it updates its maps in place.
- `Dsl`, `Rules`, `RuleSets`: arrow rules and their meaning, contrapositives,
  chain closure, contradictions.
- `Text`, `EmitMarker`: the emit marker's printer and parser.

`Options` is a helper. A specification function gives the meaning of each loop
or recursive search; the methods are proved equal to it, and the lemmas say what
it means for runs of the program under analysis.

## Where the code and its promises part

Each of these is a lemma with a concrete input, most of them beside the exact
condition under which the code does meet its promise.

- `dominantSide` asks whether a successor dominates the use, not whether the
  guard is that successor's only predecessor. In `if x == nil { log() }; use(x)`
  the second successor is the merge block and x is called non-nil there
  (`NarrowLimits.MergeArmIsUnsound`; the two other walks make the same mistake,
  `GuardWalkLimits.NilDecisionWrongAtMerge` and `RangeWrongAtMerge`). An arm
  stands for having been taken exactly when it is entered from the guard alone,
  loops through the arm aside (`Cfg.ArmIsCrossedIff`).
- A field guard's own block is skipped by the scan for writes, on the ground
  that all of it runs before the comparison. The field may be read, then
  written, then compared (`NarrowLimits.StaleReadingIsUnsound`). On every path to
  the guard the last reading saw what the field still holds exactly when no
  write stands in the rest of the reading's block, nor in a block from which the
  guard is reached without reading again (`NarrowLimits.FreshnessIsExact`).
- A true answer is sound whenever the guards it rests on meet those two
  conditions, whatever other guards the function holds
  (`NarrowSound.ProvesSound`).
- A member stored before an escape may be gone by then: in
  `t.F = x; *t = T{}; return t` it is called stored and the value returned lacks
  it (`AllocSurvivalLimits.StoredMemberMayBeGone`), and so it is where `*t` is
  copied from storage that was cleared before (`CopiedMemberMayBeGone`). On a run
  it is there exactly when it came down a chain of stores and copies, each the
  last to touch what it filled before that was read
  (`AllocSurvival.PresentIffChain`). On every path it is there exactly when each
  instruction that is the last to touch it on some path fills it, a copy if what
  it reads is there on every path to the read
  (`AllocSurvivalPaths.SurvivalIsExact`).
- A load is answered from its address being non-nil
  (`NilFlow.LoadAnsweredFromAddress`); without loads the answer is sound
  (`NilFlow.NonNilSound`).
- The dead-guard scan enters an if's branches with what it has already promoted
  for the statements after the if, so a guard inside a leaving guard's body can
  be called dead while it is live (`DeadGuardLimits.WrittenOrderIsUnsound`).
  The exact condition on verdicts, whatever is pending, in chains and cycles,
  and whatever is narrowed: what is said of a guard at the head of the body, or
  behind statements that leave alone what the scan knows, is
  true in every state that enters it if and only if no such state belies a
  verdict that rests on a promoted binding (`DeadGuardExact.VerdictTrueIff`,
  `VerdictTrueBehindIff`; `MisjudgedRun` has the runs on which it is false). Short of
  chains, that is where the guard contradicts what is known, or the verdict is
  silent or the same without the promotion (`UnchainedVerdictIff`).
  `DescentJustifiedIff` says as much of the scan's knowledge in the body, which
  can be wrong where no verdict is. Over whole programs the scan as written is
  sound wherever what a leaving guard promotes moves no verdict in its own body;
  entered from what was known before the promotion it is sound everywhere
  (`DeadGuardSound.ScanIsSound`).
- Literals are compared by spelling: narrowed to `16`, a guard on `0x10` is
  called impossible (`DeadGuardLimits.SpellingsMatter`, `DeadGuard.OutcomeTruthfulIff`).
- `x, x = f()` records of x what holds of the result it has lost
  (`DeadGuardLimits.RepeatedTargetIsUnsound`). Recording is sound for every
  contract exactly when no local is named twice (`DeadGuardLimits.RecordsTrulyIff`).
- On an empty interval deciding a comparison and deciding its negation differ
  in the cases `GuardWalks.NegationCommutes` lists.
- Flipping an ordered operator complements it exactly on total orders
  (`Rules.FlipNeedsTotalOrder`), negation is an involution exactly on nil checks
  without members (`Rules.NegationUndoes`), and the contradiction test is
  symmetric under the same condition (`RuleSets.ContradictionSymmetric`). The
  grammar produces only such nil checks.

## Model

| member | source | states |
|---|---|---|
| Cfg.ChainIsDominance | internal/analysis/narrow_ssa.go:182-189 | walking up the immediate dominators answers whether every path from the entry meets the ancestor |
| Cfg.MeetsBetween | internal/analysis/narrow_ssa.go:91-110 | between an execution of a strict dominator of a guard and a later block the guard dominates, the guard executes |
| Cfg.ArmIsCrossedIff | internal/analysis/narrow_ssa.go:157-176 | every path to a block that an arm dominates crosses the guard edge if and only if the arm is entered from the guard alone, loops through the arm aside |
| Cfg.LeavesByArm | internal/analysis/narrow_ssa.go:164-176 | after the last visit to a guard whose arm is private, a path to a block that arm dominates has left by that arm |
| Cfg.ArmQuestionsAgree | internal/analysis/cond_ssa.go:93-112 | for host the immediate dominator of a step of the walk, a successor dominates the block asked about if and only if it dominates the step |
| Ssa.LawPersists | internal/analysis/narrow_ssa.go:63-81 | along a run with any number of loop iterations, what executing a definition guaranteed still holds wherever the value is live |
| Narrow.BranchSound | internal/analysis/narrow_ssa.go:216-282 | the arm a run takes tells the truth about the operand the condition reads: comparisons with the constant, errors.As, comma-ok |
| Narrow.BranchProvesExact | internal/analysis/narrow_ssa.go:216-325 | the matcher recognises exactly comparisons of the subject with the fact constant on either side, errors.As and the ok of a comma-ok assertion, and reads each arm of each as it should |
| Narrow.EndsProofExact | internal/analysis/narrow_field_invalidate.go:71-106 | an instruction ends a proof exactly where the field may change: a store through the struct or the field address, or a call or spawn handed either, its callee included |
| Narrow.HoldsFromExact | internal/analysis/narrow_field_invalidate.go:35-66 | a guard no longer speaks about a field if and only if an instruction on some path from it to the use, ahead of the use, may change the field, or the use is on a cycle the guard reaches |
| NarrowSound.ProvesOnlyBelowAnchor | internal/analysis/narrow_ssa.go:63-81 | the search answers true only strictly below the block that computes the value |
| NarrowSound.ProvenBlockLeavesSubject | internal/analysis/narrow_field_invalidate.go:35-52 | a block accepted on the way to the use changes nothing the subject reads, though a guard block is not scanned |
| NarrowSound.SpanLeavesField | internal/analysis/narrow_field_invalidate.go:58-66 | no block between guard and use stores to the field or the struct or hands either address to a call |
| NarrowSound.NothingKillsBetween | internal/analysis/narrow_field_invalidate.go:35-52 | from the last visit of an accepted guard to the block asked about nothing changes what the subject reads |
| NarrowSound.GuardCarries | internal/analysis/narrow_ssa.go:91-110 | a guard the walk accepts, with its arm to itself and for a field a reading that stays fresh, in whichever block it was taken, carries its fact to every entry of the block on every run |
| NarrowSound.FreshReading | internal/analysis/narrow_field_invalidate.go:58-66 | a reading that stays fresh, taken in any block, is what the field holds when the guard branches, on every run |
| NarrowSound.RestsSoundlyProves | internal/analysis/narrow_ssa.go:63-81 | whatever rests on guards that can be relied on is a true answer of the search |
| NarrowSound.ProvesRestsSoundly | internal/analysis/narrow_ssa.go:63-81 | where every guard can be relied on, every true answer of the search rests on such guards |
| NarrowSound.ProvesSound | internal/analysis/narrow_ssa.go:63-81 | a true verdict holds each time the block is entered, on every run, when the guards it rests on can be relied on: other guards of the function play no part, and the visiting set never turns a cycle into a proof |
| NarrowSound.EdgeProvesSound | internal/analysis/narrow_ssa.go:124-144 | a true answer for an edge, about a value or a field, holds at every crossing of it, under the same condition on the guards it rests on |
| NarrowSound.BlockProvesFactSound | internal/analysis/narrow_ssa.go:53-55 | the verdict on an SSA value holds of its current incarnation whenever the block is entered, when the guards it rests on have their arms to themselves |
| NarrowSound.FieldReadProtected | internal/analysis/narrow_field_invalidate.go:35-52 | the field reading at the using instruction satisfies the guarded fact on every run, when the guards the verdict rests on can be relied on; the guard may test a reading from an earlier block |
| NarrowComplete.SearchFindsEstablished | internal/analysis/narrow_ssa.go:53-81 | on a function without loops the search answers true whenever every path to the block takes some arm that establishes the fact, different guards on different paths included |
| NarrowLimits.MergeArmIsUnsound | internal/analysis/narrow_ssa.go:164-176 | a well-formed function and a run on which the search answers non-nil at a merge and the value is nil |
| NarrowLimits.StaleReadingIsUnsound | internal/analysis/narrow_field_invalidate.go:35-52 | a well-formed function and a run on which the field was written between its reading and the branch, and the verdict is false |
| NarrowLimits.FreshnessIsExact | internal/analysis/narrow_field_invalidate.go:58-66 | on every path to the guard no write follows the last reading, and the field still holds what was read, if and only if no write stands in the rest of the reading block or in a block from which the guard is reached without reading again |
| NarrowSearch.ReachableBlocks | internal/analysis/narrow_field_invalidate.go:127-143 | the worklist terminates and returns exactly the reachable blocks |
| NarrowSearch.BlocksBetween | internal/analysis/narrow_field_invalidate.go:112-122 | exactly the blocks on some path from the guard to the use |
| NarrowSearch.ReachesWithin | internal/analysis/narrow_field_invalidate.go:165-176 | true only for a path inside the span; a failed search leaves every span successor of what it visited visited |
| NarrowSearch.CycleReachesItself | internal/analysis/narrow_field_invalidate.go:156-161 | true exactly when a cycle through the block stays in the span, although the visited map is never cleared |
| NarrowSearch.SpanHoldsCycles | internal/analysis/narrow_field_invalidate.go:112-122 | the span holds a cycle through the use if and only if the whole graph does |
| NarrowSearch.ProofHoldsFrom | internal/analysis/narrow_field_invalidate.go:35-52 | decides whether a guard still speaks about the subject at its use |
| NarrowSearch.Dominates | internal/analysis/narrow_ssa.go:182-189 | the loop answers path dominance |
| NarrowSearch.DominatorWalk | internal/analysis/narrow_ssa.go:91-110 | the loop answers whether some dominating guard is accepted |
| NarrowSearch.SearchEdge | internal/analysis/narrow_ssa.go:124-144 | equals the declarative edge verdict and restores the visiting map |
| NarrowSearch.Search | internal/analysis/narrow_ssa.go:63-81 | equals the declarative verdict for the given visiting set and restores it |
| GuardWalks.NarrowedByDominatingGuard | internal/analysis/cond_ssa.go:93-112 | returns the decision of the first dominating guard that decides |
| GuardWalks.GuardDecidesExact | internal/analysis/cond_ssa.go:121-177 | a guard decides exactly when it compares the value with a nil constant by == or !=, and as the value is nil or not on that arm |
| GuardWalks.NilDecisionExact | internal/analysis/cond_ssa.go:93-112 | the walk decides exactly when some such branch lies on the way up on a side that dominates, and then by the nearest |
| GuardWalks.NilDecisionSound | internal/analysis/cond_ssa.go:121-149 | a decided nil comparison has the decided truth on every run, when some guard above that decides alike has its arm to itself |
| GuardWalkLimits.NilDecisionWrongAtMerge | internal/analysis/cond_ssa.go:93-112 | a well-formed function and a run on which a nil comparison at a merge is decided false and is true |
| GuardWalkLimits.RangeWrongAtMerge | internal/analysis/cond_range_ssa.go:175-197 | a well-formed function and a run on which a parameter at a merge lies outside the accumulated interval |
| GuardWalks.IntersectExact | internal/analysis/cond_range_ssa.go:35-46 | a number is in the intersection exactly when it is in both intervals |
| GuardWalks.ImpliesExact | internal/analysis/cond_range_ssa.go:56-102 | on an interval with a member a comparison is decided exactly when all members agree, and with their answer |
| GuardWalks.OperatorsPreserveTruth | internal/analysis/cond_range_ssa.go:246-281 | swapping operands keeps truth, negation inverts it, both are involutions |
| GuardWalks.NegationCommutes | internal/analysis/cond_range_ssa.go:56-102 | deciding a comparison and its negation are the same question with opposite answers, exactly outside a listed family of empty intervals |
| GuardWalks.GuardBoundSound | internal/analysis/cond_range_ssa.go:211-240 | the interval a guard proves contains the value on the arm taken, 64-bit wrap-around of the neighbouring literal included |
| GuardWalks.GuardBoundExact | internal/analysis/cond_range_ssa.go:211-240 | a guard gives an interval exactly when it compares the value with a 64-bit constant and its arm bounds it, and the interval then holds exactly the words the comparison leaves on that arm, all of them at the extremes where it leaves none |
| GuardWalks.AccumulateRange | internal/analysis/cond_range_ssa.go:175-197 | the loop computes the meet of the bounds up the dominator chain |
| GuardWalks.AccumulatedRangeSound | internal/analysis/cond_range_ssa.go:175-197 | on every run reaching the block the parameter lies in the accumulated interval, when what guards with shared arms add is implied by the others |
| GuardWalks.PrivateRangeSound | internal/analysis/cond_range_ssa.go:175-197 | on every run reaching the block the parameter lies in the interval gathered from guards with arms of their own, whatever other guards there are |
| GuardWalks.RangeIsMeet | internal/analysis/cond_range_ssa.go:175-197 | a number lies in the accumulated interval if and only if it meets every bound up the dominator chain |
| GuardWalks.RangeExact | internal/analysis/cond_range_ssa.go:175-240 | a word lies in the accumulated interval if and only if every comparison up the chain leaves it possible on the side that dominates |
| GuardWalks.SharedBoundsImpliedIff | internal/analysis/cond_range_ssa.go:175-197 | what shared arms add is implied by the other guards if and only if the accumulated interval claims no more than those guards do |
| GuardWalks.WalksAgree | internal/analysis/cond_range_ssa.go:175-197 | asking about the block and asking about the step of the walk select the same arm |
| NilFlow.ValueNilness | internal/analysis/nil_flow_ssa.go:551-579 | computes the specified answer and leaves exactly the specified visited set |
| NilFlow.JoinPhi | internal/analysis/nil_flow_ssa.go:646-668 | the loop computes the specified join over the operands |
| NilFlow.JoinOperand | internal/analysis/nil_flow_ssa.go:646-680 | behind a non-nil join each operand is non-nil by its own walk or by the edge that carries it |
| NilFlow.PhiAnswer | internal/analysis/nil_flow_ssa.go:646-668 | a phi is NonNil if and only if it has operands and all are NonNil, Nillable if and only if some operand is Nillable or KnownNil, and Unknown otherwise |
| NilFlow.LeafAnswers | internal/analysis/nil_flow_ssa.go:551-579 | a ? parameter or field answers Nillable, a ! one NonNil, allocations, made values and constants NonNil but for the nil constant, a load as its address does |
| NilFlow.KnownNilIsConstant | internal/analysis/nil_flow_ssa.go:551-579 | KnownNil is answered for the nil constant, read through any number of addresses, and for nothing else |
| NilFlow.KnownNilSound | internal/analysis/nil_flow_ssa.go:551-579 | what is known to be nil and is no load is nil on every run wherever it is available |
| NilFlow.NonNilSound | internal/analysis/nil_flow_ssa.go:551-579 | a NonNil answer that rests on no load and on reliable edges means non-nil on every run wherever the value is live, loop phis and shared operands included; operands non-nil by their own walk ask nothing of their edges |
| NilFlow.LoadAnsweredFromAddress | internal/analysis/nil_flow_ssa.go:569-574 | a run on which a load called NonNil yields nil |
| AllocEscape.PrecedesIsPartialOrder | internal/analysis/nil_check_alloc_escape.go:543-560 | precedence of instructions is reflexive, antisymmetric and transitive |
| AllocEscape.PrecedesExact | internal/analysis/nil_check_alloc_escape.go:543-560 | an instruction precedes one of another block if and only if every path to that block runs through its own, and one of the same block if and only if it stands no later |
| AllocEscape.FirstEscape | internal/analysis/nil_check_alloc_escape.go:351-366 | returns a candidate that no other candidate precedes, and none only if there is none |
| AllocEscape.MinimalIsLeastIff | internal/analysis/nil_check_alloc_escape.go:351-366 | the minimal candidate precedes all others if and only if some candidate does |
| AllocEscape.RootAddresses | internal/analysis/nil_check_alloc_escape.go:504-521 | the fields collected on the way lead from the allocation to the address |
| AllocEscape.AnyFieldStoreReaches | internal/analysis/nil_check_alloc_escape.go:426-451 | the scan equals the specified search and restores the visited set |
| AllocEscape.AnyWholeStoreFills | internal/analysis/nil_check_alloc_escape.go:461-472 | the scan for stores of the whole value equals its specification |
| AllocEscape.AnyStoredFills | internal/analysis/nil_check_alloc_escape.go:484-499 | asking about the stored value equals its specification |
| AllocEscape.StoreBehind | internal/analysis/nil_check_alloc_escape.go:426-451 | a true answer names a store that precedes the escape and covers the path or a prefix the stored value fills |
| AllocEscapeComplete.RootExact | internal/analysis/nil_check_alloc_escape.go:504-521 | climbing field addresses finds an allocation if and only if the address lies within one |
| AllocEscapeComplete.StoreFound | internal/analysis/nil_check_alloc_escape.go:426-502 | a preceding store to the member, or of a value built elsewhere to a prefix of its path, is found through whichever field addresses |
| AllocEscapeComplete.StoreReachesIff | internal/analysis/nil_check_alloc_escape.go:426-535 | where no local storage is copied the search answers true if and only if such a store precedes the escape |
| AllocEscape.FieldStoreReachesSound | internal/analysis/nil_check_alloc_escape.go:426-451 | on every run reaching the escape the member has been stored since the allocation was last made |
| AllocSurvival.PresentIff | internal/analysis/nil_check_alloc_escape.go:426-451 | a member is there at a point of a run if and only if the last store to it or to a prefix of its path, in the allocation at hand, filled it, a copy of local storage only if the member was there when it was read |
| AllocSurvival.SurvivesUntouched | internal/analysis/nil_check_alloc_escape.go:426-451 | a true answer shows on every run the chain of stores and copies behind it, and the member is there at the escape if each of them is the last to touch what it filled, in every allocation copied from up to its read |
| AllocSurvival.PresentIffChain | internal/analysis/nil_check_alloc_escape.go:426-451 | a member is there if and only if it came down some chain of stores and copies, each the last to touch what it filled before that was read |
| AllocSurvivalPaths.SurvivalIsExact | internal/analysis/nil_check_alloc_escape.go:426-451 | on every path to a point the member is there if and only if each instruction that touches it or makes the allocation anew, and reaches the point with nothing touching it on the way, is a store that fills it, a copy if what it reads is always there |
| AllocSurvivalLimits.StoredMemberMayBeGone | internal/analysis/nil_check_alloc_escape.go:426-451 | a well-formed function answered true whose run reaches the return with the member overwritten by an empty whole |
| AllocSurvivalLimits.CopiedMemberMayBeGone | internal/analysis/nil_check_alloc_escape.go:461-502 | a well-formed function answered true through a copy of local storage that had been cleared before it was read: the member is missing although nothing touches it after the copy |
| Facts.ExportsStayOwn | internal/driver/facts.go:43-72 | exporting panics exactly on a foreign object, so a table holds only its own package facts |
| Facts.InheritFrom | internal/driver/facts.go:89-99 | copying entry by entry, in any order, yields the table with the visible object facts and all package facts of the dependency laid over it |
| Facts.HeldIffCarried | internal/driver/facts.go:89-130 | before a run the table holds an object key exactly when some import path carries it hop by hop through the visibility rule |
| Facts.HeldValue | internal/driver/facts.go:43-51 | whatever path it came by, a held fact is the one its owner exported |
| Facts.MergeOrderIrrelevant | internal/driver/facts.go:89-99 | the whole inherited table, object and package facts with their values, does not depend on the order imports are merged in |
| Facts.TransitiveKinds | internal/driver/facts.go:113-130 | method, field, type-name and constant facts are closed over all import paths |
| Facts.DirectKinds | internal/driver/facts.go:113-130 | function and variable facts come exactly from direct imports, and for functions only exported ones |
| Facts.OtherKindsStay | internal/driver/facts.go:113-140 | facts on any other kind of object never leave their package |
| Facts.PackageFactsTravel | internal/driver/facts.go:96-98 | package facts arrive along every import path |
| Facts.PackageHeldValue | internal/driver/facts.go:96-98 | whatever path it came by, a held package fact is the one its own package exported |
| Jobs.DependenciesDescend | internal/driver/graph.go:61-117 | acyclic Requires and imports make the job graph acyclic |
| Jobs.DepKeysExact | internal/driver/graph.go:61-118 | a job waits for exactly the analyzers it requires on its own package and, if it uses facts, for itself on every import that has syntax |
| Jobs.ReleaseClosesEdges | internal/driver/execute.go:191-200 | releasing a job takes exactly its own edges out of the count of open edges |
| Schedule.OutturnLocal | internal/driver/execute.go:27-71 | how a job comes out depends on its dependencies records alone |
| Outcomes.ResultsAreHanded | internal/driver/execute.go:98-106 | a Run is handed the results of exactly the same-package jobs it waits for, by analyzer |
| Outcomes.SucceedsIff | internal/driver/execute.go:27-71 | a job succeeds if and only if all its dependencies did, its package is well typed or its analyzer runs despite errors, and its Run returned no error and a result of the declared type |
| Outcomes.RecordEnds | internal/driver/execute.go:27-71 | a finished job holds the list of its failed dependencies in order, the ill-typed error, the error its Run returned, the wrong-type error, or no error and the result, whichever its inputs and outcome call for, and its facts over those inherited |
| Schedule.FinishKeeps | internal/driver/execute.go:31-66 | finishing a job keeps every invariant: records founded on dependencies, order, counters, fields, stock |
| Schedule.ReleaseKeeps | internal/driver/execute.go:191-208 | releasing keeps them: counters equal the edges and jobs not yet released, including jobs that failed early |
| Schedule.AttemptKeeps | internal/driver/execute.go:34-71 | early failure and full conclusion alike keep the invariants |
| Schedule.InputsLive | internal/driver/execute.go:43-53 | when a job is about to run, no dependency result and not its package syntax has been set free |
| Schedule.StillWanted | internal/driver/execute.go:186-190 | a job not yet executed is a root or has a positive consumer count |
| Schedule.ResultHeldWhileRead | internal/driver/execute.go:191-197 | a successful job that is no root holds its result exactly while some job that reads it has not been released |
| Schedule.SyntaxHeldWhileWaiting | internal/driver/execute.go:202-207 | a package keeps its syntax exactly while some job on it has not been released |
| Execution.ExecuteIsSound | internal/driver/execute.go:27-33 | executing a job keeps the invariants, only adds to history and touches nothing higher in the graph |
| Execution.RunCompletes | internal/driver/execute.go:18-23 | executing the roots executes every job |
| Execution.CompletesInOrder | internal/driver/execute.go:64-66 | the completion order is a permutation of all jobs with every dependency before its consumers |
| Execution.RunMeansClosureSucceeded | internal/driver/execute.go:34-41 | an analyzer gets to run only if its whole transitive dependency closure succeeded: each was run on what its dependencies left, returned no error, and a result of the declared type |
| Execution.SuccessIsDeep | internal/driver/execute.go:34-41 | a job succeeds only if everything it transitively depends on did |
| Execution.LeavesOnlyRoots | internal/driver/execute.go:215-225 | after the run only successful roots keep a result, every package is freed, facts and errors survive |
| Execution.LeftOverEnds | internal/driver/execute.go:18-71 | after the whole run every job is left as the errors of its dependencies and what its own Run returned call for |
| Execution.RunEndsWell | internal/driver/execute.go:18-23 | a ready graph ends with a permuted dependency-first order and every job left as its dependencies, and what its own Run returned, call for |
| Building.AddJobKeeps | internal/driver/graph.go:66-76 | adding a job keeps one job per key, counters equal to in-degrees and waiting counts |
| Building.AddEdgeKeeps | internal/driver/graph.go:79-83 | adding an edge keeps them while the job is under construction |
| Building.OneJobPerNeededKey | internal/driver/graph.go:61-117 | a finished graph has a job for a key if and only if some root leads to it |
| Building.GraphStartsSound | internal/driver/graph.go:40-56 | a freshly built graph satisfies the invariants execution relies on |
| Driver.Graph.Materialize | internal/driver/graph.go:61-117 | terminates even on cyclic dependencies, keeps the half-built graph invariants and adds only what the key leads to |
| Driver.Graph.MaterializeNeeds | internal/driver/graph.go:78-83 | same-package requirements become edges in order |
| Driver.Graph.MaterializeImports | internal/driver/graph.go:84-115 | import edges follow for analyzers with facts, packages without syntax skipped |
| Driver.Graph.Build | internal/driver/graph.go:43-56 | the roots are the product of packages and analyzers, they alone are marked, and every job is needed by one |
| Driver.Graph.Release | internal/driver/execute.go:191-208 | in-place release has exactly the specified effect on the whole state |
| Driver.Graph.FailedDeps | internal/driver/execute.go:75-83 | lists the failed dependencies in order, and is empty exactly when all succeeded |
| Driver.Graph.GatherResultOf | internal/driver/execute.go:98-106 | collects the results the same-package dependencies ended with |
| Driver.Graph.InheritFactsFromImports | internal/driver/execute.go:111-121 | merges the tables of same-analyzer imports in turn |
| Driver.Graph.RunAnalyzer | internal/driver/execute.go:48-63 | needs the package syntax and leaves the job as its run says: error, wrong type, or result and facts |
| Driver.Graph.Attempt | internal/driver/execute.go:34-71 | has exactly the specified effect |
| Driver.Graph.Execute | internal/driver/execute.go:27-71 | keeps the invariants and has exactly the specified effect, each job at most once |
| Driver.Graph.ExecuteAll | internal/driver/execute.go:18-23 | ends with the specified order and leftovers |
| Driver.Graph.ReleaseAll | internal/driver/execute.go:215-225 | frees every non-root result, all edges and all syntax, and nothing else |
| Driver.Run | internal/driver/driver.go:95-102 | for acyclic input: one job per needed key with the right edges, and a run that ends well |
| FactFlow.TablesAgree | internal/driver/execute.go:111-121 | the table execution leaves a job is the one its place in the import net calls for |
| FactFlow.HeldBeforeRun | internal/driver/execute.go:111-121 | before its run a job holds a key exactly when a chain of finished jobs carries it from its exporter |
| FactFlow.NetIsDistinct | internal/driver/graph.go:11-15 | each analyzer and package is one job, which is what makes merge order irrelevant |
| GuardLang.StoreSame | internal/analysis/caller_dead_guard.go:683-703 | an assignment leaves every other variable of every scope alone |
| GuardLang.StoreInPlace | internal/analysis/caller_dead_guard.go:683-703 | an assignment changes the innermost scope that holds the variable, there that variable alone, and no other scope |
| DeadGuard.ShapeIsEntailed | internal/analysis/caller_dead_guard.go:956-1003 | wherever a recognised rule holds, its guard side implies its target side, for implications and biconditionals |
| DeadGuardComplete.RuleShapeExact | internal/analysis/caller_dead_guard.go:956-1040 | the recogniser finds exactly the implications and biconditionals between bare equalities, each with the right guard and target side |
| DeadGuardComplete.RuleBindingExact | internal/analysis/caller_dead_guard.go:816-872 | a rule binds a local if and only if it relates two results that the call assigns to locals |
| DeadGuard.OutcomeTruthfulIff | internal/analysis/caller_dead_guard.go:509-530 | a verdict is right about every value the narrowing leaves if and only if unlike spellings it compares denote unlike values |
| DeadGuard.SilentIsUndecided | internal/analysis/caller_dead_guard.go:509-530 | where no verdict is given both outcomes are possible |
| DeadGuardSound.ExecFrame | internal/analysis/caller_dead_guard.go:622-704 | a block changes no visible variable but those assigned inside it or declared in it |
| DeadGuardSound.ShortCircuitExits | internal/analysis/nil_guard_helpers.go:102-119 | a block that ends in return or panic is never left normally |
| DeadGuardSound.ScanSameEffect | internal/analysis/caller_dead_guard.go:206-236 | verdicts do not change what a program does |
| DeadGuardSound.ForgetJustified | internal/analysis/caller_dead_guard.go:629-704 | what survives invalidation is justified and speaks of no rewritten or shadowed name |
| DeadGuardSound.NarrowJustified | internal/analysis/caller_dead_guard.go:376-397 | promoting on a proved guard keeps the knowledge justified |
| DeadGuardSound.PromoteJustified | internal/analysis/caller_dead_guard.go:590-620 | after a leaving guard came out false, promotion is justified, by the guard or on the target itself |
| DeadGuardSound.CallJustified | internal/analysis/caller_dead_guard.go:746-872 | what a call records is justified of the results it returned, when every result the contract speaks of stays in the local it is assigned to |
| DeadGuardSound.NextJustified | internal/analysis/caller_dead_guard.go:221-235 | past every statement each narrowed relation and each pending promise holds, in every execution |
| DeadGuardSound.ScanIsSound | internal/analysis/caller_dead_guard.go:206-282 | every redundant guard is true and every impossible one false wherever a run meets it: in every program when branches are entered from what was known before the if, and as written when what leaving guards promote moves no verdict in their own bodies |
| DeadGuardSound.DeadGuardsAreDead | internal/analysis/caller_dead_guard.go:206-236 | the same from the empty knowledge a function starts with, for both orders |
| DeadGuardComplete.VerdictExact | internal/analysis/caller_dead_guard.go:440-530 | the verdict on a leaving guard whose local is narrowed, by whichever kind of binding, is redundant if and only if every value allowed makes it true, impossible if and only if none does, and silent if and only if some do and some do not |
| DeadGuardComplete.NonNilResultJudged | internal/analysis/caller_dead_guard.go:206-236 | after a call that declares its result non-nil every leaving nil guard on the local is judged, impossible for == and redundant for !=, as long as the local is spared in between |
| DeadGuardComplete.RuleJudged | internal/analysis/caller_dead_guard.go:206-236 | after a call with a rule and a leaving guard whose failing proves the guard side, every leaving guard on the target is redundant if and only if all values the rule allows make it true, and impossible if and only if none does |
| DeadGuardComplete.NarrowedStays | internal/analysis/caller_dead_guard.go:629-704 | a statement that spares a narrowed local and does not rewrite its guard leaves it narrowed |
| DeadGuardComplete.BranchNarrows | internal/analysis/caller_dead_guard.go:249-282 | in a branch whose guard proves a rule side the bound local is narrowed from the start |
| DeadGuardComplete.ShortCircuitsExact | internal/analysis/nil_guard_helpers.go:102-119 | a body leaves if and only if its last statement is a return or a panic |
| DeadGuardComplete.NestedScanned | internal/analysis/caller_dead_guard.go:161-178 | every nested block is scanned, those of an if without init with what the scan knows and all others from nothing |
| DeadGuardLimits.WrittenOrderIsUnsound | internal/analysis/caller_dead_guard.go:232-234 | a program, an honest call and a run on which the scan as written calls a live guard impossible |
| DeadGuardExact.DescentJustifiedIff | internal/analysis/caller_dead_guard.go:249-269 | what the scan knows in a body it enters as written is justified in every state that enters it if and only if no such state has a promoted local fail its relation, decided from what is pending and narrowed, chains and cycles of rules included |
| DeadGuardExact.VerdictTrueIff | internal/analysis/caller_dead_guard.go:232-269 | what the scan as written says of a guard at the head of a leaving guard body is true in every state that enters the body if and only if no such state belies a verdict resting on a promoted binding, chains and cycles of rules included |
| DeadGuardExact.VerdictTrueBehindIff | internal/analysis/caller_dead_guard.go:206-269 | the same condition for a guard behind statements that can be passed, leave what the scan knows alone and do not touch its local: true each time a run gets there |
| DeadGuardExact.ClaimMade | internal/analysis/caller_dead_guard.go:206-269 | the verdict of the scan on such a guard is among the claims of every run that gets to it |
| DeadGuardExact.MisjudgedRun | internal/analysis/caller_dead_guard.go:232-269 | where that condition fails for a guard of the body, a state in which all the scan knows is so from which every run that gets to the guard makes a false claim |
| DeadGuardExact.UnchainedVerdictIff | internal/analysis/caller_dead_guard.go:232-269 | short of a chain of rules, the verdict is true in every state if and only if the guard contradicts what is known, or the verdict is silent or the one given without the promotion |
| DeadGuardExact.EnterableIff | internal/analysis/caller_dead_guard.go:440-460 | some justified state enters a body if and only if the search up the chain of pending rules finds that its guard can hold |
| DeadGuardExact.MisledIff | internal/analysis/caller_dead_guard.go:249-269 | short of a chain of rules behind the guarded local, that is if and only if the guard promotes nothing or contradicts what is known; and a body can be entered if and only if its guard does not |
| DeadGuardExact.NextKeeps | internal/analysis/caller_dead_guard.go:221-235 | past every statement knowledge stays well kept: pending and narrowed locals apart, every pending one from a rule |
| DeadGuardLimits.OrdersAgree | internal/analysis/caller_dead_guard.go:221-235 | the written and the intended scan agree on programs without guards inside either branch of a leaving guard |
| DeadGuardLimits.WrittenScanIsSound | internal/analysis/caller_dead_guard.go:206-236 | the scan as written is sound on programs that keep guards out of the bodies of leaving guards, their elses left free |
| DeadGuardLimits.RepeatedTargetIsUnsound | internal/analysis/caller_dead_guard.go:776-808 | one local assigned twice is recorded non-nil and holds nil |
| DeadGuardLimits.RecordsTrulyIff | internal/analysis/caller_dead_guard.go:746-872 | for a list of targets, what every contract records is justified after every honest return if and only if no local is named twice |
| DeadGuardLimits.SpellingsMatter | internal/analysis/caller_dead_guard.go:95-103 | 16 narrowed and 0x10 guarded: called impossible, and true |
| DeadGuardScan.StepsConsistent | internal/analysis/caller_dead_guard.go:206-236 | the set of narrowed names always is the key set of the narrowed bindings |
| DeadGuardScan.Tracker.ApplyBodyNarrow | internal/analysis/caller_dead_guard.go:376-397 | moving bindings out of the map being iterated has the specified effect on all three maps |
| DeadGuardScan.Tracker.PromoteOnGuard | internal/analysis/caller_dead_guard.go:590-620 | in-place promotion has the specified effect |
| DeadGuardScan.Tracker.ForgetName | internal/analysis/caller_dead_guard.go:643-652 | forgetting a name has the specified effect |
| DeadGuardScan.Tracker.Drop | internal/analysis/caller_dead_guard.go:653-674 | dropping a rewritten name cascades to bindings paired with it, the blank name aside |
| DeadGuardScan.Tracker.InvalidateFor | internal/analysis/caller_dead_guard.go:629-704 | name by name equals forgetting all shadowed and rewritten names at once |
| DeadGuardScan.Tracker.RecordNilBindings | internal/analysis/caller_dead_guard.go:776-808 | the loop records the specified non-nil results |
| DeadGuardScan.Tracker.RecordCondBindings | internal/analysis/caller_dead_guard.go:816-872 | the loop records the specified rule bindings |
| DeadGuardScan.Tracker.ReportFor | internal/analysis/caller_dead_guard.go:440-460 | computes the specified verdict |
| DeadGuardScan.Tracker.CheckBlock | internal/analysis/caller_dead_guard.go:206-236 | the scan as it runs gives every guard the verdict of the written-order specification |
| DeadGuardScan.Tracker.Descend | internal/analysis/caller_dead_guard.go:249-282 | branches are scanned with copies, promoted by the guard and by its opposite |
| DeadGuardScan.CheckFunction | internal/analysis/caller_dead_guard.go:161-178 | a block met on its own is scanned from nothing, with the verdicts of the written-order specification |
| Rules.ExpressionsEqualIff | internal/analysis/cond_transitive.go:141-189 | the structural comparison is equality of present operands |
| Rules.NegationIsComplement | internal/analysis/cond_contrapositive.go:121-155 | a negation holds exactly where its operand does not, on totally ordered values |
| Rules.NegationExact | internal/analysis/cond_contrapositive.go:113-150 | exactly nil checks by == or != and comparisons with one member can be negated, into the same question by the opposite operator |
| Rules.ContrapositiveExact | internal/analysis/cond_contrapositive.go:86-110 | an implication has a contrapositive if and only if both sides can be negated, and it leads from the right reference to the left one |
| Rules.FlipNeedsTotalOrder | internal/analysis/cond_contrapositive.go:176-192 | flipping operators complements all comparisons if and only if the order is total |
| Rules.NegationUndoes | internal/analysis/cond_contrapositive.go:121-155 | negating twice gives the operand back if and only if a nil check carries no members |
| Rules.ContrapositiveIsEquivalent | internal/analysis/cond_contrapositive.go:94-110 | a contrapositive holds in exactly the cases its rule does |
| Rules.ExpandIsExact | internal/analysis/cond_transitive.go:80-121 | the expansion emits exactly the seed-headed chains of two to five pairwise distinct linked implications, on cyclic pools too |
| Rules.WalkInOrder | internal/analysis/cond_transitive.go:83-113 | chains come out depth first: before their extensions, siblings as the pool lists them |
| Rules.ExpandOnce | internal/analysis/cond_transitive.go:91-99 | no chain is emitted twice when identities are distinct |
| Rules.ExpandIsBounded | internal/analysis/cond_transitive.go:10-16 | at most seeds times n + n^2 + n^3 + n^4 chains |
| Rules.ChainIsEntailed | internal/analysis/cond_transitive.go:100-110 | a derived rule holds wherever all its links do |
| Rules.WalkFrom | internal/analysis/cond_transitive.go:83-113 | the recursion appends exactly the specified entries |
| Rules.ExpandTransitives | internal/analysis/cond_transitive.go:80-121 | the loop over seeds emits the specified entries |
| RuleSets.PoolIsDistinct | internal/analysis/cond_contrapositive.go:41-61 | the pool identifies each rule and each contrapositive once |
| RuleSets.GroupRules | internal/analysis/cond_contrapositive.go:41-77 | groups the rules with their contrapositives and chain closures in input order |
| RuleSets.CollectClaims | internal/analysis/cond_inconsistency.go:188-221 | collects every claim; for rules at distinct places the duplicate guard never engages |
| RuleSets.ClaimsAreEntailed | internal/analysis/cond_inconsistency.go:188-221 | everything collected follows from the author rules |
| RuleSets.ClaimsComplete | internal/analysis/cond_inconsistency.go:188-221 | every rule with both sides is collected, with its contrapositive and the rule derived by every chain of two to five linked implications that starts with either |
| RuleSets.ContradictExactly | internal/analysis/cond_inconsistency.go:249-264 | two rules contradict if and only if they share their left side and their right sides ask opposite things of one reference |
| RuleSets.ContradictionForcesLeft | internal/analysis/cond_inconsistency.go:249-264 | two contradictory rules that hold together force their shared left side to be false, whatever their arrows |
| RuleSets.ContradictionSymmetric | internal/analysis/cond_inconsistency.go:249-264 | the test is symmetric if and only if the negated nil check carries no members |
| RuleSets.KeysSymmetric | internal/analysis/cond_inconsistency.go:134-140 | both duplicate keys ignore the order of the pair |
| RuleSets.ReportContradictions | internal/analysis/cond_inconsistency.go:83-118 | every offending pair is reported or repeats a reported pair descriptions or axis; no reported pairs share a key; nothing else is reported; where spellings tell operands apart every offence shares its left side and its axis with a reported one |
| RuleSets.SuppressedSharesAxis | internal/analysis/cond_inconsistency.go:134-140 | an offending pair that repeats another pair keys shares its left side and, in either order, its right sides, where spellings tell operands apart and avoid the separators |
| RuleSets.ReportedPairIsVacuous | internal/analysis/cond_inconsistency.go:83-118 | under any values satisfying the rules the left side of a reported pair is false |
| Text.AtoiOfItoa | internal/analysis/emit_marker.go:180-189 | a return slot printed reads back |
| Text.TrimSpaceExact | internal/analysis/emit_marker.go:101-128 | trimming takes the white space off both ends and nothing else |
| EmitMarker.ParsedIsPrintable | internal/analysis/emit_marker.go:139-173 | every parsed spec is printable |
| EmitMarker.ReadsBackIff | internal/analysis/emit_marker.go:74-82 | a spec of any shape prints and parses back to itself if and only if it is printable |
| EmitMarker.ParsedIsWritable | internal/analysis/emit_marker.go:101-128 | whatever a line parses to can be written on a line |
| EmitMarker.LineReadsBackIff | internal/analysis/emit_marker.go:101-128 | a scope chain and spec list of any length survive printing and parsing if and only if a line can carry them |
| EmitMarker.ParsedReadsBack | internal/analysis/emit_marker.go:101-128 | printing then parsing is the identity on everything parsed |
| EmitMarker.SpacingIsFree | internal/analysis/emit_marker.go:139-173 | an entry reads the same whatever white space stands around and between its parts |
| EmitMarker.ParseSpecsExact | internal/analysis/emit_marker.go:101-128 | a list of entries reads if and only if every entry that is not blank does, as the specs of those in order |
| EmitMarker.SegmentsExact | internal/analysis/marker_scope.go:66-97 | a chain reads if and only if the text is a chain of closed and non-blank brackets followed by something else, as its segments and the rest, trimmed |
| EmitMarker.StripChainExact | internal/analysis/marker_scope.go:66-97 | a line carries a marker exactly when it begins with it and nothing, white space or a chain follows |
| EmitMarker.CommentDropped | internal/analysis/emit_marker.go:197-203 | what precedes the first // is kept, trimmed, and all that follows goes |
| EmitMarker.CommentedReadsBack | internal/analysis/emit_marker.go:101-128 | a written line reads the same with any comment after it |
| EmitMarker.SubjectReadsBackIff | internal/analysis/marker_scope.go:35-47 | for any marker a subject and payload survive printing and parsing if and only if the subject is absent or a whole segment and the payload has no spaces around it |
| EmitMarker.SubjectIsWhole | internal/analysis/marker_scope.go:35-47 | whatever a single-subject line reads as is no subject or a whole segment, and a trimmed payload |
| EmitMarker.LongChainRefused | internal/analysis/marker_scope.go:35-47 | a chain of two or more segments is refused whatever payload follows |
| EmitMarker.StripMarkerScopeChain | internal/analysis/marker_scope.go:66-97 | the loop computes the specified chain and payload, and fails exactly on malformed brackets |
| EmitMarker.ParseEmitMarkerLine | internal/analysis/emit_marker.go:101-128 | the loop computes the specified line: blank entries skipped, one malformed entry drops them all |

## Left out

- NarrowSound.ProvesSound: needs, of the guards the answer rests on and of no others, an arm entered from the guard alone and for fields a reading that stays fresh; the code asks for neither, and without either one the claim is false of the runs shown.
- NarrowSound.GuardCarries: the same two conditions, for one guard.
- NarrowSound.EdgeProvesSound: the same two conditions.
- NarrowSound.BlockProvesFactSound: the first of them; a value has no reading to go stale.
- NarrowSound.FieldReadProtected: both of them.
- GuardWalks.NilDecisionSound: needs a guard that decides alike and has an arm entered from it alone.
- GuardWalks.AccumulatedRangeSound: needs bounds from shared arms to be implied by the others, without which the interval can be wrong; about parameters, whose value a run never changes.
- NilFlow.NonNilSound: needs that of the guards on edges the answer rests on, and no load among the values it rests on.
- DeadGuardSound.CallJustified: excludes calls whose contract speaks of a result that a repeated local loses; there recording can be wrong.
- DeadGuardSound.NextJustified: the same.
- DeadGuardSound.ScanIsSound: for the written order, programs in which a promoted fact moves a verdict inside the body of the guard that promotes it are excluded. DeadGuardExact.VerdictTrueBehindIff has the exact condition for a guard behind statements that leave alone what the scan knows; for guards further down this is one direction.
- DeadGuardSound.DeadGuardsAreDead: the same.
- DeadGuardExact.MisledIff: the guarded local is not pending in a chain; DescentJustifiedIff is about all of them.
- DeadGuardExact.UnchainedVerdictIff: the same, beside VerdictTrueIff.
- DeadGuardLimits.WrittenScanIsSound: one direction; a guard inside a leaving guard's body may still be judged rightly, and ScanIsSound covers it where nothing promoted moves its verdict.
- Driver.Graph: jobs are values in a map keyed by analyzer and package, and edges are keys. The source shares pointers to jobs; a job's key is its pointer's identity there, so sharing is kept, but in-place update through an alias is not captured. Results and facts are integers, diagnostics are not modelled.
- Driver.Run: takes acyclicity as given, as `analysis.Validate` and Go's import rules provide it; cyclic input is refused there and is not part of this model.
- RuleSets.CollectClaims: rule pointers are positions in the rule list, so one rule listed twice counts as two rules.
- The SSA builder, go/types and go/ast: a function is a finite graph with instruction lists, and the dominator tree is characterised by paths. Recover blocks and panicking edges are not part of this model.
- AllocSurvival.PresentIff: a value that is neither a constant nor read from local storage counts as carrying its members, as the code takes it; stores through addresses not spelt as fields of the allocation are not tracked.
- AllocSurvivalPaths.SurvivalIsExact: the same.
- Memory: a field subject has one cell that stores and calls handed its address may change; stores through other aliases are not tracked, as the code does not track them.
- Pointer loads in ssaValueNilness, beyond the counterexample.
- allocMembers, allFilled, firstValueEscape and allocEscapeThrough: which instructions count as escapes, and the enumeration of members; the model takes the candidates in referrer order.
- fieldAddrNilness and the declaration lookups behind parameterNilness: the declared nullness of a parameter is an oracle.
- Closures, goto, range and switch statements, address-of, and for loops in the dead-guard language; a function literal resets the scan there.
- A call whose results break the callee's contract ends the run under consideration; `panic` is the builtin, as the code takes it to be.
- Floating-point NaN among ordered values.
- The text of diagnostics other than the keys that suppress duplicates; operand and claim spellings are parameters.
- checkLogicalRuleNilDeclConsistency and the nil-only induction hints: a walk over the same claims with a decision table.
- Byte-level behaviour of strings that are not valid UTF-8.
- Sorting of import paths: a package's imports come sorted.
- Marker families other than vow:emit, which share the scope grammar.
- Loading packages, the vet subprocess, YAML, gob, timing, files and environment; locks and sync.Map.
