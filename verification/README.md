# Hexal: the checker's analyses, modelled and proved

Hexal is a compiler whose checker runs a static analysis over every body and several walks and
fixed points over types, modules and calls. This project models those parts in Dafny, in the form
the compiler has them - mutable states, tables, visited sets and loops become classes and methods -
and proves each of them against a specification that does not mention how it is computed.
`dafny verify dfyconfig.toml` checks everything.

**The flow analysis.** `Syntax` is the statement language the analysis sees: slots, the places a
pointer is declared, assigned, freed, dereferenced, exposed or registered for a deferred release,
conditions, if chains, loops and returns. `FlowFacts` gives the abstract state as a value with one
function per operation; `FlowState` is the mutable state, with its counter shared between clones,
and every method is proved to be its function. `FlowAnalysis` is what checking a statement list
computes; `FlowChecker` is how the checker computes it, cloning, joining and adopting, proved equal.
`FlowSemantics` is an independent relational semantics: a heap of allocations, slots holding them,
arbitrary writes to exposed slots, deferred releases run at every exit. The two are connected at
every place of a body (`FlowPlaces`), in two halves: `FlowNarrowing` for narrowed types,
`FlowSoundness` for released identities, which needs the stronger guards of `FlowGuards`;
`FlowClaims` draws the conclusions. That is one direction, what a report means. The other is
`FlowFaults`, built on `FlowArms` for single statements: a body is rejected if and only if some place of
it holds a fault, in any nest of branches, loops and returns. `FlowUntouched` says what is kept, so that a release is reported however far apart
and under whatever names it is repeated. `FlowSteady` covers loops and rejected statements that leave alone
the slots the facts speak of. `FlowHistory` and `FlowJoin` say what the operations keep and what the join is, exactly;
`MissingReturn` proves the termination analyses; `FlowLimits` holds programs on which a claim fails
where the code does not meet it.

**Graphs and fixed points.** `ModuleGraph` (import resolution), `Layout` (by-value recursion),
`ExportedClosure` (private types in exported interfaces), `Captures` (environment dependence).

**Generics.** `Unification` and `Specialization`.

**Tables and arithmetic.** `MatchCoverage`, `StorageEstimate`, `ConstantFolding`. `Finite` holds an
option type and counting lemmas.

## Where the code and its description part

The model follows the code. Each of these is a lemma with a concrete input. Next to it stands the
condition under which the code does what is promised: exact, meaning if and only if, or one way,
meaning sufficient.

Exact:

- An assignment from an untracked source leaves the target its old identity
  (compiler/checker/flow.go:248-251 describes a fresh mint, which the assignment path does not make),
  and re-tracking ignores the escaped flag. `FlowLimits.UntrackedSourceMisreports` and
  `FlowLimits.EscapedTargetMisreports` are programs for each half, `FlowClaims.AssignmentExact` is the
  condition on an assignment, and `FlowClaims.UnfollowedAssignment` a machine wherever it fails.
- The comment on deferred releases (compiler/checker/alloc.go:56-61) promises that rebinding does not
  matter, and `FlowLimits.UncapturedReleaseMisreports` shows that it can. A verdict survives every
  rebinding if and only if an identity was captured: `FlowJoin.OnlyCapturedSurvivesRebinding`.
- `record` replaces the captures of an earlier declaration of the same name but keeps its mark:
  `Captures.SharedNameDisagrees`, with `Captures.DependenceIsCaptureExactly`, and
  `Captures.SecondPassExactly` for the pass over the checked program.
- The closure walk does not enter Router and Server handles: `ExportedClosure.RouterHidesItsApp`, with
  `ExportedClosure.ExposureExactly`.
- Unification ignores nullability at pointer layers: `Unification.NullabilityIsIgnored`, with
  `Unification.StrictExactly` along pointer layers.
- The parameter test does not look behind handles: `Unification.HandleHidesParameter`, with
  `Unification.ClosedExactly`.
- The greedy union search misses solutions: `Unification.GreedySearchMissesSolution`. With at most one
  open member it finds one if and only if there is one and the search is clear:
  `Unification.OneOpenMemberExactly`. An open member in the last place, or last before Nil, is always
  clear: `Unification.OpenLastExactly`. With several open members clarity is one way:
  `Unification.UnifyExactly`, and `Unification.InferenceExactly` for whole argument lists.
- A type copy taken while its object was provisional keeps its incomplete flag, and the layout walk
  stops at it: `Layout.StaleCopyHidesCycle`. The verdict on a declaration is wrong if and only if
  it has by-value ways back to itself and each of them runs through a flagged copy:
  `Layout.AcceptExact`, and over whole sequences `Layout.AllAcceptedExactlyAcyclic` and `Layout.VerdictsAgreeExactly`. Flagged copies of the
  declared type itself hide nothing (`Layout.OwnCopies`), and with flags kept up to date the rule would
  be exact (`Layout.ErasedAllAccepted`).
- Whether a set of specializations is accepted depends on the order of the requests:
  `Specialization.OrderDecides`. No instance reached can meet the guard, or be refused for itself, if
  and only if each is accepted when asked for alone: `Specialization.TameExactly`. That all requests are
  then accepted, in any order, is one way: `Specialization.TameIsAccepted`.
- A refused function instance is remembered: `Specialization.RefusedBodyIsRemembered` says exactly
  which.
- An else can be mandatory and yet never run at integer widths whose literals are all written:
  `MatchCoverage.EveryLiteralIsAccepted`, with `MatchCoverage.ElseIsUsedExactly`.
- `wrapIntegerConstant` says it reduces modulo 2^n; at width 64 it reduces modulo 2^64 - 1:
  `ConstantFolding.WrapsWrong`, with `ConstantFolding.Node64Exactly`, `ConstantFolding.Complement64` and
  `ConstantFolding.Trees64Exactly`.

One way:

- After a statement with a diagnostic the state is rolled back, so a later diagnostic need not be a
  definite error: `FlowLimits.ReportAfterRollbackMisreports`. It is one when what was rolled back
  assigns, declares and exposes only slots the facts say nothing of: `FlowSoundness.SteadyStepSound`.
- One pass over a loop body does not see what two iterations do: `FlowLimits.LoopMisreports`. It sees
  enough of a body under the same condition, by the same lemma.
- An object refused for one of its members may pass when asked for again:
  `Specialization.RefusedObjectPassesLater`. One refused by the guard or for itself does not:
  `Specialization.RefusedObjectIsForgotten`.

## Model

| member | source | states |
|---|---|---|
| FlowState.FlowState.Clone | compiler/checker/flow.go:91-105 | a clone holds the same facts on fresh storage and shares the counter |
| FlowState.FlowState.GetNarrowedType | compiler/checker/flow.go:118-129 | a slot's narrowed type is reported exactly when it has one and has not escaped |
| FlowState.FlowState.SetNarrowed | compiler/checker/flow.go:133-141 | sets the narrowed type of a slot, which an escaped slot refuses, and changes nothing else |
| FlowState.FlowState.Invalidate | compiler/checker/flow.go:169-174 | forgets the narrowing of one slot |
| FlowState.FlowState.MintAllocationId | compiler/checker/flow.go:179-186 | the identity returned is the next one of the shared counter, so it is new to every clone |
| FlowState.FlowState.Track | compiler/checker/flow.go:193-211 | a slot becomes tracked under a fresh identity |
| FlowState.FlowState.Drop | compiler/checker/flow.go:216-222 | a slot is no longer tracked; the freed history stays |
| FlowState.FlowState.IsFreed | compiler/checker/flow.go:227-234 | a slot is freed when it is tracked and its identity is in the freed history |
| FlowState.FlowState.Alias | compiler/checker/flow.go:252-268 | the target takes the source's identity, and only when the source is tracked |
| FlowState.FlowState.Mark | compiler/checker/flow.go:394-406 | the identity of a tracked slot joins the freed history |
| FlowState.FlowState.MarkAlloc | compiler/checker/flow.go:423-431 | a captured identity joins the freed history |
| FlowState.FlowState.Clear | compiler/checker/flow.go:411-419 | a tracked, unescaped slot gets a fresh identity; the old one stays freed |
| FlowState.FlowState.EscapeBinding | compiler/checker/flow.go:448-462 | an escaped slot loses its narrowing and its tracking, and stays escaped |
| FlowState.FlowState.MergeBranches | compiler/checker/flow.go:467-566 | the in-place n-way join leaves exactly the joined facts, tracking, identities and history of the branches |
| FlowState.AgreedAllocation | compiler/checker/flow.go:492-524 | the common identity of a slot over the branches, or none |
| FlowState.FlowState.Adopt | compiler/checker/flow.go:679-694 | the state becomes the branch it adopts, counter included |
| FlowChecker.CheckStatements | compiler/checker/control_flow.go:56-103 | the statement loop on a shared state, with rollback of rejected statements, computes exactly FlowAnalysis.CheckBlock |
| FlowChecker.CheckStatement | compiler/checker/control_flow.go:107-170 | dispatch over statement kinds computes FlowAnalysis.CheckStmt |
| FlowChecker.CheckIfStatement | compiler/checker/control_flow.go:234-358 | cloning a state per branch and merging or adopting the ones that continue computes the if chain of FlowAnalysis |
| FlowChecker.TestCondition | compiler/checker/control_flow.go:199-232 | what a nil or member test proves about its operand under the narrowing in force, and when it is refused |
| FlowChecker.CheckBranch | compiler/checker/control_flow.go:262-300 | a body checked on its own clone continues unless it was rejected or terminates |
| FlowChecker.JoinBranches | compiler/checker/control_flow.go:344-356 | no continuation, one adopted, or several merged |
| FlowChecker.CheckLoop | compiler/checker/control_flow.go:720-760 | one pass over the body and a join with the state before the loop |
| FlowChecker.ValidateActions | compiler/checker/alloc.go:350-376 | deferred actions are validated in reverse registration order on the state, exactly as FlowAnalysis.Validate |
| FlowChecker.ValidateDeferredActions | compiler/checker/alloc.go:320-345 | the normal exit and every recorded return are each validated on their own state |
| FlowChecker.CheckTrackedFree | compiler/checker/alloc.go:256-266 | a release of a freed slot is reported; of any other, its identity is marked |
| FlowChecker.CheckTrackedFreeAlloc | compiler/checker/alloc.go:308-318 | a captured release is reported when its identity is freed, and marks it otherwise |
| FlowChecker.CheckSimpleStatement | compiler/checker/declarations.go:417-422 | declarations, assignments, releases, reads and exposures do to the mutable state what FlowAnalysis.CheckSimple does to the facts |
| FlowClaims.PointSound | compiler/checker/control_flow.go:56-103 | at every place of a body the facts describe every machine that can be there, through any nest of branches, joins, exposures and returns |
| FlowClaims.BodySound | compiler/checker/control_flow.go:49-54 | the same for a whole function body from an initial machine, together with its pending deferred releases |
| FlowClaims.FreedIsReleased | compiler/checker/flow.go:227-234 | whenever a slot is freed in the facts, every execution that reaches the place has released what it holds |
| FlowClaims.NarrowedIsHeld | compiler/checker/flow.go:118-129 | whenever a slot has a narrowed type, its value is of that type on every execution that reaches the place, however assignments and deferred releases treat identities |
| FlowClaims.ReportIsDefinite | compiler/checker/alloc.go:256-266 | a reported release or dereference is a double free or use after free on every execution that reaches it |
| FlowClaims.FailsWhenReported | compiler/checker/alloc.go:350-376 | an exit fails exactly when one of its actions is reported after the later-registered ones ran |
| FlowClaims.ValidateInnerThenOuter | compiler/checker/alloc.go:350-376 | leaving an inner and then an outer scope validates as one list |
| FlowClaims.ExitReportIsDefinite | compiler/checker/alloc.go:350-376 | a deferred release reported at an exit, the end of a body or block included, has been released already on every execution leaving there |
| FlowClaims.AssignmentExact | compiler/checker/declarations.go:502-510 | an assignment keeps the facts true of every machine if and only if a tracked source does not re-track an escaped target and an untracked source does not leave a tracked target its identity |
| FlowClaims.UnfollowedAssignment | compiler/checker/flow.go:252-258 | where that condition fails there is a machine the facts described before and do not describe after |
| FlowNarrowing.PointTyped | compiler/checker/control_flow.go:56-103 | at every place of a body every slot holds a value of its declared and of its narrowed type, and an exposed slot is known to have escaped |
| FlowNarrowing.CondTyped | compiler/checker/control_flow.go:199-232 | the narrowing a condition yields holds on the side it is given to |
| FlowNarrowing.MergeTyped | compiler/checker/flow.go:467-566 | narrowing the branches agree on holds of a machine any of them describes |
| FlowNarrowing.AssignTyped | compiler/checker/declarations.go:502-510 | an assignment forgets the target's narrowing and keeps every other one true |
| FlowNarrowing.ChainTyped | compiler/checker/control_flow.go:234-358 | an execution leaves an if chain through a flow whose narrowings it satisfies |
| FlowSteady.SteadyDrifts | compiler/checker/control_flow.go:720-760 | however often and whichever way a statement runs that assigns, declares and exposes only slots the facts say nothing of, every other slot whose address is not held keeps its value, and releases only accrue |
| FlowNarrowing.SteadyStepTyped | compiler/checker/control_flow.go:56-103 | narrowings stay true across a steady loop and a rolled-back steady statement |
| FlowSoundness.SteadyStepSound | compiler/checker/control_flow.go:56-103 | so do the facts about identities, and the pending releases are those from before |
| FlowSoundness.CondSound | compiler/checker/control_flow.go:199-232 | on either side of a condition, exposures included, the facts about identities stay true |
| FlowSoundness.MergeSound | compiler/checker/flow.go:467-566 | the join's identities and freed history are true of a machine one branch describes |
| FlowSoundness.ValidateSound | compiler/checker/alloc.go:350-376 | running the pending releases keeps the validated facts true |
| FlowSoundness.BlockSound | compiler/checker/control_flow.go:56-103 | a checked block's identities and freed history are true of every machine it falls through to |
| FlowSoundness.ChainSound | compiler/checker/control_flow.go:234-358 | an execution leaves an if chain through one of the flows that continue past it |
| FlowSoundness.AssignSound | compiler/checker/declarations.go:502-510 | alias or clear keeps what is known of the assigned slot's identity and of every other true |
| FlowFaults.RejectedExactly | compiler/checker/control_flow.go:56-103 | a body is rejected if and only if some place of it holds a fault: a use of a released allocation, a jump outside every loop, a test that cannot be made, or an exit that can be come to with a deferred release reported among those of every scope left |
| FlowFaults.ReleasedUseIsReported | compiler/checker/places.go:376-413 | at every place, a release or a read of a slot tracked under an identity in the history rejects the body, and of any other slot adds no rejection |
| FlowFaults.BlockVerdict | compiler/checker/alloc.go:320-345 | a scope is rejected if and only if one of its statements is, or it falls through and a deferred release is reported at its end, or one is at a recorded return |
| FlowFaults.ExitIsReported | compiler/checker/alloc.go:320-376 | at every return that can be come to, and at the end of a body, a reported release of any enclosing scope rejects the body |
| FlowFaults.ExitsExactly | compiler/checker/control_flow.go:56-103 | an accepted sequence has recorded exactly the returns every enclosing scope can come to, each with the inner scopes' releases run |
| FlowArms.StmtFailsExactly | compiler/checker/control_flow.go:107-170 | a statement is rejected exactly for a fault of its own or inside an arm |
| FlowFaults.OpenExactly | compiler/checker/control_flow.go:56-103 | a scope falls through exactly when none of its accepted statements terminates |
| FlowArms.ContinuingExactly | compiler/checker/control_flow.go:234-358 | past an accepted if go exactly the states of the arms that do not terminate, and without an else that of the path where every condition failed |
| FlowArms.IfReleasesExactly | compiler/checker/flow.go:492-566 | after an accepted if an identity is in the history exactly when it is in that of every state that continues |
| FlowNarrowing.NarrowingExact | compiler/checker/flow.go:133-141 | an accepted test narrows, on either side, to exactly the kinds of the operand that some machine can take that side with, and touches nothing else |
| FlowNarrowing.NarrowingComposes | compiler/checker/control_flow.go:199-232 | a second accepted test narrows what the first one left |
| FlowNarrowing.TestRejectedExactly | compiler/checker/control_flow.go:199-232 | a test is refused exactly when the operand's kinds leave one way for it to go, or for a member when nil, an escaped slot or a plain nullable is tested |
| FlowNarrowing.MergeNarrowingExact | compiler/checker/flow.go:467-490 | the join narrows a slot exactly as its parent does where no branch lets it escape or holds another type, and not at all elsewhere |
| FlowUntouched.SeqKeeps | compiler/checker/control_flow.go:56-103 | statements that neither declare, assign, expose nor test a slot keep its narrowing, tracking and identity, through branches, joins, loops and rollbacks |
| FlowUntouched.BodyNarrows | compiler/checker/control_flow.go:262-300 | inside the body of an if or while the tested slot holds exactly the kinds for which the test succeeds, inside the else those for which it fails |
| FlowUntouched.GuardClauseNarrows | compiler/checker/control_flow.go:344-356 | after an if whose body terminates, the tested slot holds exactly the kinds for which the condition fails |
| FlowUntouched.DoubleUseIsReported | compiler/checker/alloc.go:256-266 | a pointer declared, released, and released or read again with nothing in between that uses its slot otherwise rejects the body, whatever branches and loops lie between |
| FlowUntouched.CopiedUseIsReported | compiler/checker/flow.go:252-268 | the same for a copied pointer, released under either name and used under either |
| FlowUntouched.ReassignedUseIsReported | compiler/checker/flow.go:411-419 | the same for a slot given a new value |
| FlowUntouched.SecondReleaseIsReported | compiler/checker/alloc.go:308-345 | a deferred release followed by another release of the slot, at once or deferred, rejects the scope it ends in |
| FlowUntouched.UseAfterScopeIsReported | compiler/checker/alloc.go:320-345 | a slot whose release a nested scope defers, used after that scope, rejects the body |
| FlowLimits.UntrackedSourceMisreports | compiler/checker/flow.go:252-258 | a program with a pointer parameter whose release of a live value is reported, because assigning the parameter kept the old identity |
| FlowLimits.EscapedTargetMisreports | compiler/checker/flow.go:252-268 | a program whose release of a live value is reported, because a slot whose address is held was tracked again and then written through it |
| FlowLimits.ReportAfterRollbackMisreports | compiler/checker/control_flow.go:56-103 | a second diagnostic after a rolled-back statement need not be definite |
| FlowLimits.LoopMisreports | compiler/checker/control_flow.go:735-756 | after a loop the facts can be false of an execution with two iterations |
| FlowLimits.UncapturedReleaseMisreports | compiler/checker/alloc.go:78-83 | an uncaptured deferred release is validated against what its slot names at the exit, and misreports |
| FlowHistory.HistoryIsMonotone | compiler/checker/flow.go:392-431 | over any statements, joins included, freed identities stay freed, escaped slots stay escaped, and every identity in use is at most the counter |
| FlowHistory.SiblingsShareOnlyTheirPast | compiler/checker/flow.go:91-105 | an identity two siblings both know was minted before they split, whatever was checked between them |
| FlowHistory.ContinuingShareOnlyThePast | compiler/checker/control_flow.go:234-358 | an identity any two flows that continue past one if chain both know was minted before the chain |
| FlowHistory.LoopJoinOnlyForgets | compiler/checker/control_flow.go:735-756 | after a loop the freed history is the one before it and tracking is a restriction of the one before |
| FlowHistory.BlockDescends | compiler/checker/flow.go:411-419 | whatever a block does, new identities lie above the counter it started from |
| FlowJoin.JoinExact | compiler/checker/flow.go:492-566 | a slot stays tracked as an identity exactly when the parent tracked it and every branch tracks it, unescaped, as that identity; the freed set is the intersection |
| FlowJoin.JoinIsOrderFree | compiler/checker/flow.go:467-566 | permuting or repeating branches changes nothing |
| FlowJoin.CapturedExitReleasesAll | compiler/checker/alloc.go:350-376 | captured releases end with the freed set extended by all captured identities and nothing else changed |
| FlowJoin.CapturedReportedExactly | compiler/checker/alloc.go:308-318 | an action is reported exactly when its identity was freed already or was captured by a later-registered action |
| FlowJoin.CapturedSurvivesRebinding | compiler/checker/alloc.go:56-61 | captured releases give the same verdicts under any rebinding after registration |
| FlowJoin.OnlyCapturedSurvivesRebinding | compiler/checker/alloc.go:62-83 | a verdict survives every rebinding if and only if an identity was captured |
| MissingReturn.NotFallingTerminates | compiler/checker/control_flow.go:362-394 | not falling through implies terminating |
| MissingReturn.TerminatesSound | compiler/checker/control_flow.go:362-394 | a terminating sequence never reaches its continuation |
| MissingReturn.NoStrayJumpSound | compiler/checker/control_flow.go:14-46 | with every jump inside a loop of its own, no execution leaves by break or continue |
| MissingReturn.NeverFallsThrough | compiler/checker/control_flow.go:14-46 | a body that does not fall through and has no stray jump always ends in a return |
| MissingReturn.AcceptedHasNoStrayJump | compiler/checker/control_flow.go:107-170 | a list checked clean at loop depth zero has no stray jump |
| MissingReturn.AcceptedBodyAlwaysReturns | compiler/checker/functions.go:153-156 | a function with a result, accepted, always returns |
| MissingReturn.TerminatesExactly | compiler/checker/control_flow.go:362-394 | a sequence terminates by shape if and only if no path through it comes to its end |
| MissingReturn.FallsThroughExactly | compiler/checker/control_flow.go:14-46 | with jumps inside loops, a body falls through by shape if and only if some path comes to its end |
| MissingReturn.ExecHasWay | compiler/checker/control_flow.go:14-46 | every execution follows one of those paths |
| ModuleGraph.Walker.Enter | internal/graph/graph.go:37-44 | a node is entered once: visited, and on top of the active path |
| ModuleGraph.Walker.Leave | internal/graph/graph.go:49-54 | the top of the active path ends the post-order |
| ModuleGraph.Walker.Cycle | internal/graph/graph.go:62-71 | the cycle a node closes, exactly when it is on the active path |
| ModuleGraph.ReachState.Visit | compiler/compile.go:490-536 | a visit leaves the active path as it was, keeps what was done, and settles every import of every module it adds |
| ModuleGraph.ReachState.ResolveImport | compiler/compile.go:549-648 | each import entry is settled, or reported for what is wrong with it: unresolved, not found, unknown, or a repetition |
| ModuleGraph.ReachableModules | compiler/compile.go:340-378 | the walk is abandoned exactly when the root reaches a module that cannot be parsed; otherwise the order holds exactly the reachable source modules, once each, root last; a cycle is reported exactly when one is reachable; without one, dependencies come first; every problem is what it says, and nothing wrong with a module's keys or entries is left out |
| ModuleGraph.WalkExact | compiler/compile.go:340-378 | what a finished walk leaves is exactly reachability, duplicate imports or not |
| ModuleGraph.DistinctIdsImport | compiler/compile.go:549-648 | where no user module has a core module's id, every entry that leads to a module imports it |
| ModuleGraph.DependenciesFirstAcyclic | compiler/compile.go:340-378 | an order with dependencies first has no reachable import cycle |
| ModuleGraph.ClosesCycle | compiler/compile.go:549-648 | a target on the active path closes a cycle of imports from the root |
| Layout.LayoutRecursionInvalid | compiler/checker/layout.go:136-184 | the walk with its path set decides the recursion rule and leaves the path as it was on every return |
| Layout.InvalidExactly | compiler/checker/layout.go:136-184 | a type is rejected exactly when some by-value walk ends at the declared type or revisits itself |
| Layout.RejectionHasCycle | compiler/checker/layout.go:136-196 | a rejection, stale flags or not, exhibits a by-value cycle |
| Layout.AcceptExact | compiler/checker/declarations.go:135-142 | whatever flags are stored, acceptance agrees with the by-value graph staying acyclic if and only if not every way back to the declared type is behind a flagged copy |
| Layout.AllAcceptedExactlyAcyclic | compiler/checker/declarations.go:135-142 | over any sequence of declarations with any flags, the by-value graph of the whole environment is acyclic if and only if all are accepted and at none a flagged copy hides every way back |
| Layout.VerdictsAgreeExactly | compiler/checker/layout.go:136-184 | all accepted means acyclic, and the reverse, exactly when one declaration is rejected or none is misled |
| Layout.OwnCopies | compiler/checker/declarations.go:109-142 | the flagged copies a declaration stores of itself while provisional mislead no verdict: all are accepted if and only if the environment is acyclic |
| Layout.ErasedDecides | compiler/checker/layout.go:136-184 | the rule over copies without stale flags accepts a declaration exactly when it keeps the graph acyclic |
| Layout.ErasedAllAccepted | compiler/checker/layout.go:136-184 | and a whole sequence exactly when its environment is acyclic |
| Layout.LastCompletedRejects | compiler/checker/adt.go:83-87 | of the types on a would-be cycle, the last one completed is rejected, unless a flagged copy hides the cycle from it |
| Layout.PathIsShort | compiler/checker/layout.go:122-135 | in an acyclic environment no by-value chain is longer than the number of nominals plus one |
| Layout.Expand | compiler/checker/layout.go:122-135 | replacing complete nominals by their members, with no visited set, ends with none left |
| Layout.ExpandExactly | compiler/checker/layout.go:122-135 | the incomplete nominals left are exactly those a by-value path leads to |
| Layout.StaleCopyHidesCycle | compiler/checker/layout.go:152-155 | a copy that kept its incomplete flag hides a by-value cycle from the walk |
| ExportedClosure.PrivateTypeInUse | compiler/checker/modules.go:821-900 | the walk names a private type it reaches, or has met and settled everything its types write down |
| ExportedClosure.WalkDecides | compiler/checker/modules.go:821-900 | from fresh visited sets, a name is returned exactly when a private nominal is reachable, and is such a nominal |
| ExportedClosure.MethodExposes | compiler/checker/modules.go:789-801 | sharing the visited sets across receiver, parameters and result loses nothing |
| ExportedClosure.CheckExportedClosure | compiler/checker/modules.go:758-810 | every exported declaration whose interface leaks is reported once, in order, and no other is |
| ExportedClosure.ExposureExactly | compiler/checker/modules.go:896-900 | a private type is exposed if and only if the walk finds one or arrives at an http handle whose application type exposes one |
| ExportedClosure.RouterHidesItsApp | compiler/checker/modules.go:896-900 | an exported function over Router of a private type passes the walk |
| Captures.Analysis.Analyze | compiler/checker/captures.go:175-233 | whatever the map order: dependence is reaching a marked declaration in the recorded call graph, and captures are the union of direct captures over what is reached |
| Captures.Analysis.CloseDependence | compiler/checker/captures.go:199-213 | the first loop ends with exactly the declarations a call chain leads from to a marked one |
| Captures.Analysis.CloseCaptures | compiler/checker/captures.go:214-231 | the second loop ends with exactly the inherited captures, and ends |
| Captures.Analysis.ComputeEnvironmentDependence | compiler/checker/captures.go:352-426 | the same two fixed points over the checked program, where a later declaration replaces the mark too |
| Captures.RecordedExactly | compiler/checker/captures.go:175-198 | the last declaration of a name gives its callees, and as its captures the root bindings declared before it that it uses |
| Captures.MarkedExactly | compiler/checker/captures.go:235-241 | a name is marked exactly when some declaration of it uses a root binding declared before it |
| Captures.RereadExactly | compiler/checker/captures.go:352-375 | in the second pass the last checked declaration of a name gives its captures, its callees and its mark |
| Captures.DependenceIsCaptureExactly | compiler/checker/captures.go:235-241 | dependent means having a capture, for all declarations, if and only if every name ever marked reaches a capturing declaration in the recorded graph |
| Captures.DistinctNamesAgree | compiler/checker/captures.go:235-241 | with one declaration per name the two always agree |
| Captures.SharedNameDisagrees | compiler/checker/captures.go:235-241 | two declarations of one name that leave it dependent without a capture |
| Captures.SecondPassAgrees | compiler/checker/captures.go:352-375 | in the second pass shared names cannot disagree where every mark comes with a capture |
| Captures.SecondPassExactly | compiler/checker/captures.go:352-426 | in the second pass, specializations included, marks and captures agree for all declarations if and only if every name still marked reaches a capturing one |
| Unification.UnifyTypes | compiler/checker/generic_calls.go:80-129 | in-place unification returns and leaves exactly what Unify computes |
| Unification.MatchMembers | compiler/checker/generic_calls.go:111-126 | the greedy member search with its used flags is UnifyMembers |
| Unification.UnifyExtends | compiler/checker/generic_calls.go:80-129 | bindings are only extended, on success and on failure |
| Unification.UnifyBindsClosed | compiler/checker/generic_calls.go:80-129 | closed arguments bind only closed types, even in attempts that fail |
| Unification.UnifySound | compiler/checker/generic_calls.go:80-129 | on success every parameter of the expected type is bound and the argument fits its instance: equal up to read-only weakening at pointer layers and a one-to-one matching of union members; strictly where no pointer layer is nullable |
| Unification.StrictExactly | compiler/checker/generic_calls.go:98-108 | along pointer layers the fit is strict if and only if the layers agree on nullability |
| Unification.UnifySolves | compiler/checker/generic_calls.go:80-129 | what unification binds is a solution, whatever failed attempts of the union search bound on the way |
| Unification.SolvesFits | compiler/checker/generic_calls.go:80-129 | a solution binds every parameter of the expected type and the argument fits the instance |
| Unification.UnifyExactly | compiler/checker/generic_calls.go:80-129 | where the union searches are clear, unification succeeds if and only if some extension of the bindings solves it, and what it binds is contained in every solution |
| Unification.UnionFreeIsDecided | compiler/checker/generic_calls.go:82-109 | along pointer layers there is no search, so that statement holds without condition |
| Unification.OneOpenMemberExactly | compiler/checker/generic_calls.go:111-126 | a union with at most one open member unifies if and only if there is a solution and no argument member takes the open one while another would do |
| Unification.OpenLastExactly | compiler/types/unions.go:219-267 | closed members followed by an open one, with or without a Nil, unify if and only if there is a solution |
| Unification.InferenceExactly | compiler/checker/generic_calls.go:16-77 | a whole argument list conflicts only if no type arguments solve it, and what is inferred is contained in whatever does |
| Unification.FittingIsNotEnough | compiler/checker/generic_calls.go:82-109 | a bound parameter and a closed member refuse the more writable pointer their instance would accept |
| Unification.NullabilityIsIgnored | compiler/checker/generic_calls.go:98-108 | a read-only pointer unifies with a nullable one that its instance is not |
| Unification.GreedySearchMissesSolution | compiler/checker/generic_calls.go:111-126 | a union for which the search fails, with a binding left behind, though a solution exists and the argument fits its instance |
| Unification.InferTypeArguments | compiler/checker/generic_calls.go:16-77 | it infers if and only if the arguments are as many as wanted, they unify, and every binding is there and passes the parameter test; the first conflicting argument, the first unbound and the first open parameter are named; for closed arguments all inferred are closed and every argument, rest ones included, fits its parameter's instance |
| Unification.InfersExactly | compiler/checker/generic_calls.go:16-77 | closed arguments whose searches are clear are inferred if and only if type arguments exist that solve them and every type parameter occurs in the type of some argument; those are then the only ones |
| Unification.RestIsRepeated | compiler/checker/generic_calls.go:36-60 | a rest parameter unifies as the list in which it is written out once for every argument it takes |
| Unification.ClosedExactly | compiler/types/generics.go:64-136 | the parameter test is right about a type if and only if no handle hides a parameter |
| Unification.HandleHidesParameter | compiler/types/generics.go:70-136 | a task over an open parameter passes the test and is bound |
| Specialization.GenericTable.SpecializeFunctionIn | compiler/checker/generic_specialization.go:33-142 | cache, guard, frame, body and cache again, in place, are SpecializeFunction; active keys and frame return as they were; nesting terminates on the templates left idle |
| Specialization.GenericTable.SpecializeObjectType | compiler/checker/generic_templates.go:125-170 | the same for object templates, with a refused entry deleted |
| Specialization.GenericTable.ResolveTypeUse | compiler/checker/generic_templates.go:65-120 | type arguments resolve under the current frame, specializing on the way |
| Specialization.SpecializeFunction | compiler/checker/generic_specialization.go:33-142 | on every return the active keys and the frame are those on entry, at most one instance per template is active and cached, and no function entry is lost |
| Specialization.IdleShrinks | compiler/checker/generic_specialization.go:44-48 | past the cache and the guard, entering a key uses up a template that was idle |
| Specialization.NestingIsBounded | compiler/checker/generic_specialization.go:44-48 | however argument types grow, at most as many instances are active as there are templates |
| Specialization.AcceptedIsExactlyReachable | compiler/checker/generic_specialization.go:33-142 | when all requests are accepted the caches hold exactly the instances the requests reach, each complete, and no key is active |
| Specialization.TameIsAccepted | compiler/checker/generic_specialization.go:44-48 | when no instance reaches another of its own template and none is refused for itself, the guard never fires: the requests are accepted, in any order |
| Specialization.TameExactly | compiler/checker/generic_specialization.go:44-48 | every instance the requests reach is accepted when asked for alone, from an empty table, if and only if each is good and none reaches another of its own template |
| Specialization.MergedAgrees | compiler/checker/generics.go:169-185 | a frame merged under an enclosing one reads every own parameter as the argument at its position, and every other name as the enclosing frame does |
| Specialization.ParameterReadsArgument | compiler/checker/generics.go:160-168 | each parameter reads the argument at its own position |
| Specialization.EvalIsSubstitution | compiler/checker/generic_templates.go:65-120 | a written type under a frame is the type its text is with the arguments put in |
| Specialization.EvalQuote | compiler/checker/generic_templates.go:65-120 | a type written out resolves to itself and needs exactly the instances inside it |
| Specialization.EveryRequestIsAnswered | compiler/checker/generic_specialization.go:87-131 | the requests of a body are answered one after the other whether or not earlier ones were refused, and the body passes when all are granted |
| Specialization.EveryMemberIsResolved | compiler/checker/declarations.go:109-154 | so are the members of an object template |
| Specialization.RefusedBodyIsRemembered | compiler/checker/generic_specialization.go:87-131 | a refused function instance stays cached exactly when it passed the guard and its signature, and the next request then succeeds |
| Specialization.RefusedObjectIsForgotten | compiler/checker/generic_templates.go:156-159 | a refused object instance is not cached, and one refused by the guard or for itself is refused again |
| Specialization.RefusedObjectPassesLater | compiler/checker/generic_templates.go:125-170 | an object refused for a member that changes arguments passes when requested again, the first request having cached what the member needs |
| Specialization.OrderDecides | compiler/checker/generic_specialization.go:44-48 | two requests accepted in one order and refused in the other |
| MatchCoverage.Coverage.Cover | compiler/checker/adt.go:485-491 | marks one case, telling whether it was new |
| MatchCoverage.Coverage.CoverKey | compiler/checker/adt.go:473-482 | records one constant, telling whether it was new |
| MatchCoverage.Coverage.FirstMissing | compiler/checker/adt.go:521-528 | the first uncovered case in table order |
| MatchCoverage.CheckPattern | compiler/checker/adt.go:685-895 | one arm against the table is accepted exactly when it fits, says something new, and an else is last and needed or mandatory |
| MatchCoverage.CheckMatchExpression | compiler/checker/adt.go:638-925 | a match is accepted exactly when it is admissible, with every arm's tag and constant recorded; a refused one gives the reason of the first arm not in order, or of a missing else, or names its first missing case |
| MatchCoverage.AcceptedPartitions | compiler/checker/adt.go:669-684 | every value of the domain selects exactly one arm of an accepted match |
| MatchCoverage.FitsExactly | compiler/checker/adt.go:700-895 | a pattern is refused, coverage apart, exactly when it is of the other mode or means no value of the scrutinee |
| MatchCoverage.MisfitReasons | compiler/checker/adt.go:700-895 | a pattern that does not fit is of the wrong mode, a literal outside the integer type, or of the wrong type, each exactly when it is |
| MatchCoverage.AdmissibleExactly | compiler/checker/adt.go:638-925 | a match is accepted exactly when every arm means a value no earlier arm does, an else is last and needed or allowed, integers and ErrorKind have one, all arms agree in type and every value is meant or left to the else |
| MatchCoverage.SelectsWhatItMeans | compiler/checker/adt.go:685-895 | in an accepted match an arm is run for exactly the values its pattern means |
| MatchCoverage.WrittenArmIsUsed | compiler/checker/adt.go:685-895 | every arm but an else is selected by some value |
| MatchCoverage.ElseIsUsedExactly | compiler/checker/adt.go:687-702 | an accepted else is selected by some value except for ErrorKind with all variants written and for an integer with all literals of its width written |
| MatchCoverage.EveryLiteralIsAccepted | compiler/checker/adt.go:894-899 | at every width the match that writes all literals is accepted with an else that never runs |
| MatchCoverage.LoweringRunsSelectedArm | compiler/generator/adt.go:257-330 | the generated chain with an else, and the separate ifs without one, run the selected arm |
| StorageEstimate.EstimatedStorageBytes | compiler/checker/inline_list_size.go:22-129 | given no zero-size list elements: the 64-bit result is the unbounded formula, and it fails exactly when the formula is undefined or reaches 2^64; the visiting set returns as it was |
| StorageEstimate.InlineListWithinBudget | compiler/checker/inline_list_size.go:10-20 | the budget test is the exact inequality |
| StorageEstimate.CheckedAdd | compiler/checker/inline_list_size.go:138-143 | fails exactly when the sum leaves 64 bits |
| StorageEstimate.RoundUp16 | compiler/checker/inline_list_size.go:145-150 | fails exactly when the rounded size leaves 64 bits |
| StorageEstimate.TotalExactly | compiler/checker/inline_list_size.go:55-81 | an object's total is the sum of its members' sizes and 16 for each |
| StorageEstimate.LargestExactly | compiler/checker/inline_list_size.go:82-129 | a union's largest is the size of one of its members, and none exceeds it |
| StorageEstimate.LargestPayloadExactly | compiler/checker/inline_list_size.go:82-129 | an ADT's largest is the sum of one of its payloads, and none exceeds it |
| StorageEstimate.RoundedUpExactly | compiler/checker/inline_list_size.go:145-150 | the rounded size is the least multiple of 16 that is not less |
| StorageEstimate.CapacityGuard | compiler/checker/inline_list_size.go:48-52 | the division that guards the product is exact |
| StorageEstimate.EmptyStructHasSizeZero | compiler/checker/inline_list_size.go:47-52 | a struct without members has size zero, and a list of it divides by zero |
| ConstantFolding.WrapIsCongruent | compiler/checker/constant_folding.go:213-243 | at every width the wrap is in range and congruent modulo the modulus it uses |
| ConstantFolding.WrapIsMachine | compiler/checker/constant_folding.go:213-243 | below 64 bits it is the one value of the type congruent modulo 2^n |
| ConstantFolding.UniqueInRange | compiler/checker/literals.go:64-74 | two values of a type congruent modulo 2^n are equal |
| ConstantFolding.FoldIsMachine | compiler/checker/constant_folding.go:133-165 | below 64 bits, folding any tree of sums, differences, products and complements node by node is evaluating it exactly and wrapping once |
| ConstantFolding.Node64Exactly | compiler/checker/constant_folding.go:221-226 | at 64 bits a single sum, difference or product is right if and only if its exact result fits |
| ConstantFolding.Complement64 | compiler/checker/constant_folding.go:86-100 | at 64 bits the complement is right for every unsigned and wrong for every signed constant |
| ConstantFolding.Trees64Exactly | compiler/checker/constant_folding.go:213-243 | at 64 bits every node of a tree folds to what the machine computes if and only if nothing in it leaves the type and no signed constant is complemented |
| ConstantFolding.DivisionIsMachine | compiler/checker/constant_folding.go:146-163 | division is right at every width, and only the least value by -1 leaves the range |
| ConstantFolding.RemainderIsMachine | compiler/checker/constant_folding.go:146-163 | so is the remainder, which never leaves it |
| ConstantFolding.WrapsWrong | compiler/checker/constant_folding.go:221-226 | a UInt64 sum and an Int64 complement that fold wrong |

## Left out

- Provenance, released sources, stream capability, allocator kinds and string origins in the flow state: their joins follow other conventions and belong to other checks.
- Variant narrowing and the narrowing of match arms: the modelled narrowings are those of conditions.
- FlowClaims.PointSound: says nothing after loops and rejected compound statements that assign, declare or expose a slot the facts speak of, nor inside loops that do or that take a new address: the code computes no fixed point and keeps no state of what it rolled back. errdefer: it is validated as if it always ran.
- Captured root bindings on entry to a body: a body starts with nothing exposed.
- FlowState.FlowState.MergeBranches: requires that the receiver is not one of the branches, which no call passes; nil states and nil branches are not modelled, nor the overflow of the identity counter.
- Recorded return flows are values here and shared pointers in the checker, which never writes to one once it is recorded.
- Deferred actions other than releases: they read and never change the state.
- Diagnostic wording, positions and deduplication, apart from which statement, import, case or declaration is rejected.
- C header imports and prepared bindings in import resolution; validating a module key and lexing and parsing its text are one outcome, broken or parsed.
- ModuleGraph.ReachableModules: which problems were recorded before a module that cannot be parsed ended the walk is not stated, only that each is genuine.
- Aliases, generics and foreign records in layouts beyond the flag a copy carries: a resolved type is opaque, a nominal copy, or by-value parts.
- How free names of a body are found before captures are recorded: a body is its free names and its direct callees. The order of a capture list is not modelled.
- Captures.SecondPassAgrees: takes each declaration's own mark to agree with its own captures, as function and method bodies are checked; for a specialization, which inherits the two from its callees separately, Captures.SecondPassExactly takes only that a capture comes with a mark.
- Unification.UnifyExactly: with several open members its condition is sufficient, not necessary; members of a union that hold another union behind a pointer are outside it, since a failed attempt at one leaves bindings behind.
- Resolving written parameter types before unification, and the wording of conflicts. Generic objects unify only when equal, as in the code.
- Specialization of generic methods, generic ADTs and local literal templates: they use other keys or no guard. The flag that marks open checking is not modelled.
- Specialization.AcceptedIsExactlyReachable: takes function templates to mention only their own parameters, which checking them at their declaration establishes; Specialization.TameIsAccepted takes the same of object templates.
- Specialization.TameIsAccepted: one direction only, since a request that changes arguments may still be answered from the cache.
- What a body, signature or member list can be refused for other than its requests is a set of refused instances.
- MatchCoverage.AdmissibleExactly: takes an ADT's variants and a union's members to have names of their own, none of them the ADT's key, which resolving their declarations establishes.
- Resolving a variant or member pattern to its case, and checking arm bodies, are inputs of the match model; a match has at least one arm, as the parser demands.
- StorageEstimate.EstimatedStorageBytes: exact only where no inline list has a zero-size element, which the budget test refuses; with one, the division by zero is an outcome of its own.
- Float folding, shifts, bitwise and, or and exclusive or of two constants; integer constants are unbounded integers.
- Lexing, parsing, built-in method dispatch, code generation other than the shape of a match, the command line and C interoperation.
