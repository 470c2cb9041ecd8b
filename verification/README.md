# Verified model of the decision engine

The repository is a decision engine around Fermi estimates. An agent drives a session by sending
actions; a kernel keeps a decomposition tree whose nodes are expanded by restricted formulas; the tree
is compiled to one flat expression; a bounded search looks for a formula with few variables that is
still good enough; numeric helpers propagate bounds and correlations. This project models those parts
in Dafny and proves what holds of them over every input, every run and every reachable state.

| files | subject |
|---|---|
| `Trajectory`, `Runtime`, `RuntimeInvariants`, `Replay`, `AgentRuntime`, `Reproduction`, `Persistence` | the event-sourced runtime: append-only log, projection, budgets, one-way status, replay, which logs a client can bring about, export and rehydration |
| `Tree`, `TreeShape`, `TreePruning`, `TreeActions`, `TreeRefinement`, `TreeFormulas`, `TreeReach`, `TreeCompletion` | the decomposition tree, the mutations that replace it, and runs of them |
| `Flatten`, `FlattenMeaning`, `FlattenUnits`, `FlattenDimension`, `NestedDimension` | the compiler from the current branch to one flat expression, its meaning and its dimension |
| `Reals`, `Expressions`, `Signatures`, `Units`, `Dimensions`, `FactorIr`, `Intervals`, `Corners`, `Ablation` | one expression datatype with several semantics, and the theorems that relate them |
| `Ledger`, `SearchReplay`, `Search`, `SearchTrace`, `SearchOutcome`, `SearchResult`, `SearchTruth`, `SearchLoop`, `Generator` | the bounded search, its ledger and the independent validator |
| `Cholesky`, `CorrelationGate`, `ConditionGraph`, `Passages` | the correlation gate, cycle detection and lossless segmentation |
| `Wrappers`, `Docs`, `Text`, `Dependence` | shared values: options, results, documents, padded identifiers, string order, dependence cases |

Where the source updates an object in place (the log, the runtime, the ledger, the search loop, the
depth-first search, the renderer with its visiting set) the model is a class; its methods are proved equal
to functions on values, and the theorems are about those functions. The kernel, the evaluator, the candidate
generator and the square root are function parameters. Digests and payload hashes are abstract functions.

Where the code and its own documentation disagree, and where it is surprising, the model follows the code:

- `replay` collects every rolled-back sequence before it starts, so an untampered log whose rollbacks are
  not last-in-first-out can be reported as a mismatch, although the state is reconstructed.
  `VerdictOverAnyKernel` and `VerdictExactly` give the exact condition and `OutOfOrderRollbackMismatches` the
  smallest log.
- `compile_axis_transform` compares the dimension name and not its exponent; `AxisTransformScalesExactly`
  says when the result is still right, and `SquareAcceptedForAxis` shows one that is not.
- A positive dependence declared with a negative strength meets no gate and is refused inside the Cholesky
  loop; `RouteJointSample` says exactly when, `PositiveWithNegativeStrength` gives three leaves at -0.9.
- An expansion below an alternative lands on the current branch, so the frontier's reachable set can hold
  nodes the root does not reach; `ReachableExactlyInRuns` gives the condition each action must meet, and
  `ExpansionUnderAlternative` three accepted actions that miss it.
- The unit an expansion is said to produce is not compared with the unit of the node it expands, and
  placeholders are bound to units by first appearance but rendered by index. `UnitsKeptExactly` and
  `MeasuredExactly` say exactly when the flat expression keeps every unit all the same; `ParentUnitUnchecked`
  and `PlaceholdersSwapped` are accepted expansions after which it has another unit than the root and
  rescales wrongly.
- The question becomes atomic only by a further promotion after everything the branch reaches, the expanded
  root included, was itself promoted: the test looks at expanded nodes and at the state before the promotion.
  `ProposalCompletesExactly` and `QuestionAtomicExactly` give the condition, `OpenUntilRootTwice` a tree on
  each side of it.
- Rehydration checks the log and the digest of the state; the identifier, the question, the caps, the counters,
  the status and the evaluation are taken from the document (`AlterationsAccepted`). `ResumableExactly` says
  which accepted documents give a session that meets the runtime's invariant, `ProducedExactly` which give one
  that requests could have brought about, `AlteredExactly` and `AlteredIsProducedExactly` what that comes to for
  an altered export, and `BrokenDocuments` has three accepted documents that give neither.

## Model

| member | source | states |
|---|---|---|
| Trajectories.Trajectory.RecordAction | src/aie_decision/trajectory.py:201-242 | an action is appended exactly when the log holds whole pairs, the action is named and a target, if there is one, is on a rollback and is an earlier sequence; the event gets the next sequence, the payload's digest and the prior revision as given; a refusal leaves the log as it was |
| Trajectories.Trajectory.RecordResult | src/aie_decision/trajectory.py:244-290 | a result is appended exactly behind an open action, with its status and digests checked; a refusal leaves the log as it was |
| Trajectories.Trajectory.FindLastRevision | src/aie_decision/trajectory.py:191-199 | the digest of the latest result that carries one |
| Trajectories.Trajectory.CollectPairs | src/aie_decision/trajectory.py:292-306 | the log as its (action, result) pairs, in order |
| Trajectories.Trajectory.RolledBackSequences | src/aie_decision/trajectory.py:308-319 | the targets of exactly the accepted rollbacks |
| Trajectories.Trajectory.Export | src/aie_decision/trajectory.py:337-344 | the exported document holds every event of the log |
| Trajectories.FromExport | src/aie_decision/trajectory.py:346-465 | re-recording the exported events succeeds exactly when the import specification does, with the same log or the same error |
| Trajectories.ImportIsWellFormed | src/aie_decision/trajectory.py:346-465 | whatever import accepts alternates strictly, is contiguous, has true parents and digests and an unbroken prior-revision chain |
| Trajectories.ExportRoundTrip | src/aie_decision/trajectory.py:337-465 | every well-formed chained log survives export and import unchanged |
| Trajectories.RoundTripExactly | src/aie_decision/trajectory.py:337-465 | the logs that survive export and import are exactly the well-formed chained ones |
| RuntimeInvariants.StateIsProjection | src/aie_decision/agent_runtime_projection.py:29-73 | in every reachable session the state is the fold of the live accepted actions of the whole log, its digest is the last revision, the action counter counts the pairs, compute is the sum of the charged costs, and while active no evaluation, compute or depth budget is spent |
| RuntimeInvariants.StepKeeps | src/aie_decision/agent_runtime_execution.py:31-285 | every apply (accepted or rejected) and finalize keeps that invariant |
| RuntimeInvariants.ReprojectionIsOneStep | src/aie_decision/agent_runtime_execution.py:156-261 | re-projecting the whole log with one more kernel action is one kernel step on the current state |
| RuntimeInvariants.RollbackUndoes | src/aie_decision/agent_runtime_projection.py:29-73 | rolling back the action just accepted projects to the state before it |
| RuntimeInvariants.CertifiedIsEarned | src/aie_decision/agent_runtime_lifecycle.py:130-236 | a session becomes certified only by finalize, from active, on a certified frontier, with the counters after finalize strictly inside every cap |
| RuntimeInvariants.TerminalStepFrozen | src/aie_decision/agent_runtime_execution.py:98-120 | once a session is not active, one more request changes nothing but the action counter and adds at most a rejected pair |
| RuntimeInvariants.TerminalRunFrozen | src/aie_decision/agent_runtime_execution.py:98-120 | the same over any run: status, state, revision, other counters and the accepted items are frozen |
| Replays.ReplayReconstructsState | src/aie_decision/agent_runtime_projection.py:100-189 | for every session that meets the invariant, so every reachable one, and whatever the order of rollbacks, replay reconstructs the live state unless the kernel raises while it is re-run |
| Replays.ReplayIsFaithful | src/aie_decision/agent_runtime_projection.py:100-189 | over a kernel that never raises replay always completes and reconstructs the live state |
| Replays.CleanLogMatches | src/aie_decision/agent_runtime_projection.py:135-189 | with no standing action after a rolled-back one between two control actions, replay reports no mismatch and matches every standing pair |
| Replays.LifoReplayMatches | src/aie_decision/agent_runtime_projection.py:100-189 | if every rollback targets the latest live action, the verdict is a match of every unrolled accepted action |
| Replays.VerdictOverAnyKernel | src/aie_decision/agent_runtime_projection.py:100-189 | over any kernel an untampered log is reported as matching if and only if, after every standing action, the state with the rolled-back actions left out exists and has the digest of the state as it was |
| Replays.VerdictExactly | src/aie_decision/agent_runtime_projection.py:135-189 | over kernels whose digests tell how many actions ran, that is so if and only if no standing action follows a rolled-back one between two control actions |
| Replays.OutOfOrderRollbackMismatches | src/aie_decision/agent_runtime_projection.py:135-135 | a reachable log of two actions with the first rolled back replays to the live state and yet reports a mismatch |
| AgentRuntimes.ProjectState | src/aie_decision/agent_runtime_projection.py:29-73 | the two loops compute the fold of the accepted items that are neither control actions nor rolled back |
| AgentRuntimes.AgentRuntime.RebuildProjection | src/aie_decision/agent_runtime_projection.py:75-79 | on a valid runtime, rebuilding the projection changes nothing |
| AgentRuntimes.AgentRuntime.ValidateRollbackTarget | src/aie_decision/agent_runtime_projection.py:81-98 | a target is allowed exactly when it is an accepted, live kernel action of the log |
| AgentRuntimes.AgentRuntime.CheckGate | src/aie_decision/agent_runtime_execution.py:73-144 | the checks before the kernel runs, with the first failing one as the issue |
| AgentRuntimes.AgentRuntime.RecordRejected | src/aie_decision/agent_runtime_execution.py:287-365 | a refused action is logged and counted and keeps the state, status and other counters |
| AgentRuntimes.AgentRuntime.ApplyAction | src/aie_decision/agent_runtime_execution.py:31-285 | one apply moves the runtime exactly as the step specification says, and keeps the invariant |
| AgentRuntimes.AgentRuntime.CommitAccepted | src/aie_decision/agent_runtime_execution.py:196-285 | an accepted action is logged before state, counters and status move; a log refusal moves nothing |
| AgentRuntimes.AgentRuntime.RequestFinalize | src/aie_decision/agent_runtime_lifecycle.py:130-236 | finalize ends an active session as specified and does nothing to one that has ended |
| AgentRuntimes.AgentRuntime.MarkBudgetPartial | src/aie_decision/agent_runtime_budget.py:188-217 | an uncertified session becomes partial exactly when some budget is exhausted |
| AgentRuntimes.AgentRuntime.Replay | src/aie_decision/agent_runtime_projection.py:100-189 | the sandboxed walk of the log and its verdict, changing nothing |
| AgentRuntimes.Start | src/aie_decision/agent_runtime_lifecycle.py:32-86 | a session opens exactly when it has an identifier and a question the kernel can start from, with the start pair recorded and counted |
| Persistence.SessionRoundTrip | src/aie_decision/agent_cli.py:208-257 | for every session that meets the invariant, so every reachable one, export then rehydration gives back the same log, state, counters, status and evaluation |
| Persistence.RehydratedIsConsistent | src/aie_decision/agent_cli.py:216-231 | whatever rehydration accepts has a well-formed chained log whose last revision is the digest of its state |
| Persistence.AlterationsAccepted | src/aie_decision/agent_cli.py:216-257 | whatever identifier, question, caps, counters, status and evaluation an exported document is given, it is accepted and they come back as they are |
| Persistence.ResumableExactly | src/aie_decision/agent_cli.py:216-257 | an accepted document gives a session that meets the invariant if and only if it has whole pairs, one identifier, a log every pair of which agrees with the kernel run from its question and which ends in its state, the counters of that log, and room in its caps if it is active |
| Persistence.AlteredExactly | src/aie_decision/agent_cli.py:232-257 | an altered export does so if and only if the action count is that of the pairs, the compute that of the charged costs, an active status has room in the new caps, and the log projects over the new question, as it does whenever the kernel starts both questions alike |
| Persistence.QuestionExactly | src/aie_decision/agent_cli.py:246-246 | where digests tell states apart, the log of a live session projects over another question exactly when the kernel starts that question in the same state |
| Persistence.ResumedRunsOn | src/aie_decision/agent_runtime_projection.py:100-189 | from such a document every run of requests keeps the invariant, and replay reconstructs its state |
| Persistence.ProducedExactly | src/aie_decision/agent_cli.py:216-257 | an accepted document gives a session that requests can bring about if and only if re-running its log gives that session back |
| Persistence.AlteredIsProducedExactly | src/aie_decision/agent_cli.py:232-257 | under the caps it was exported with, an altered export gives a session that requests can bring about if and only if nothing but the identifier was altered |
| Persistence.BrokenDocuments | src/aie_decision/agent_cli.py:232-257 | an action count off by one, a compute cap already spent and another question are each accepted, and none gives a session that meets the invariant or that requests can bring about |
| Reproductions.ReachableExactly | src/aie_decision/agent_runtime_execution.py:31-285 | a session can be brought about by requests if and only if re-running its own log, with a few candidate requests for each pair, gives it back |
| Reproductions.LogDeterminesSession | src/aie_decision/agent_runtime_projection.py:29-73 | two sessions that requests can bring about and that have the same log have the same state, counters, status and evaluation |
| Persistence.Export | src/aie_decision/agent_runtime_lifecycle.py:255-270 | the exported document of a live runtime is that of its session |
| Persistence.Rehydrate | src/aie_decision/agent_cli.py:208-257 | rehydration succeeds exactly when the specification does, with a fresh valid log and the same session, or with the same error; the runtime it gives is valid exactly when the document is resumable |
| Signatures.DumpRead | src/aie_decision/fermi_expressions.py:235-238 | the parser's dump of a formula is a prefix code: two dumps that begin one text are dumps of one formula |
| Signatures.SignatureRead | src/aie_decision/fermi_expressions.py:197-238 | signature texts read back uniquely from the front, through the parentheses, the separators and the signs of exponents |
| Signatures.JoinedRead | src/aie_decision/fermi_expressions.py:224-233 | a joined text gives back its operation and both operand texts in their sorted or written order |
| Signatures.SignatureExactly | src/aie_decision/fermi_expressions.py:197-238 | two formulas have the same signature text if and only if they differ by swapping operands of + and * at any depth and by writing an integer constant as int or float |
| Signatures.EquivalenceIsSound | src/aie_decision/fermi_expressions.py:241-250 | the variable check adds nothing to the signature check, and equivalent formulas evaluate alike in every environment |
| Units.CloseExactly | src/aie_decision/fermi_units.py:238-241 | units are close exactly when they agree on every exponent |
| Units.MultiplyUnits | src/aie_decision/fermi_units.py:219-225 | the product's exponents are the sums of the factors' exponents, without zeros, which for two factors is the product the dimension checker uses |
| Units.DivideUnits | src/aie_decision/fermi_units.py:227-232 | the quotient's exponents are the differences, without zeros |
| Dimensions.Homogeneous | src/aie_decision/fermi_expressions.py:154-194 | when the checker gives a formula unit D, rescaling the base units by any positive factors rescales its value by exactly D's factor, divisions and integer powers included, and it fails to evaluate exactly when it failed before |
| Dimensions.DimensionlessIsInvariant | src/aie_decision/fermi_expressions.py:154-194 | a dimensionless formula has one value whatever the base units |
| Dimensions.RescalesExactly | src/aie_decision/fermi_expressions.py:154-194 | a nonzero value moves as a unit does under every choice of base units if and only if that unit is the one the checker gives |
| FactorIr.SignatureRefinesDimension | src/aie_decision/factor_ir.py:322-369 | whatever the factor checker accepts, the unit checker accepts with the same exponents |
| FactorIr.LogPotentialIsUnitFree | src/aie_decision/factor_ir.py:412-453 | the log-potential of a compiled factor does not depend on the choice of base units |
| FactorIr.AxisTransformScalesExactly | src/aie_decision/factor_ir.py:179-276 | a formula whose signature names the axis is accepted for it, and rescales as the axis does, for every choice of the unit, if and only if its signature is the axis to the power one (or it has no nonzero value) |
| FactorIr.SquareAcceptedForAxis | src/aie_decision/factor_ir.py:225-226 | the square of a quantity is accepted for that quantity's axis, and doubling the axis quadruples its value |
| Intervals.IntervalSound | src/aie_decision/fermi.py:88-127 | every assignment inside the variable boxes evaluates, inside the computed interval |
| Intervals.IntervalIsotone | src/aie_decision/fermi.py:88-127 | shrinking any box shrinks the result and never introduces a zero denominator |
| Intervals.ResolvingNarrows | src/aie_decision/fermi.py:205-221 | resolving a variable to its midpoint never fails after the baseline succeeded and never widens |
| Intervals.SensitivityLoop | src/aie_decision/fermi.py:205-221 | one row per variable with the exact narrowing, so the clamp at zero never changes a value |
| Corners.ProductIsAllCorners | src/aie_decision/measurement.py:257-273 | the independent case enumerates every corner of the bounds and nothing else |
| Corners.PropagateCase | src/aie_decision/measurement.py:169-175 | for any evaluator a case gives the attained least and greatest corner values, and fails exactly when some corner does |
| Corners.PropagateUncertainty | src/aie_decision/measurement.py:143-175 | for any evaluator every declared case, unknown spelled out as three and each once, gets its corner range; refused exactly without conditions, without cases or when a corner fails |
| Corners.CaseInsideInterval | src/aie_decision/measurement.py:169-175 | for any formula and dependence the corner bounds lie inside the interval bounds |
| Corners.ReadOnceExact | src/aie_decision/fermi.py:88-127 | when every variable occurs at most once, interval bounds equal the extremes over all corners |
| Corners.DependenceInsideIndependent | src/aie_decision/measurement.py:257-273 | for any evaluator that looks at the assignment alone, positive and negative dependence never leave the independent bounds |
| Corners.IndependentSuffices | src/aie_decision/measurement.py:257-273 | and fail only if independence does |
| Corners.RepeatedVariableIsInexact | src/aie_decision/fermi.py:88-127 | a repeated variable can break exactness: x - x over [0, 1] |
| Ablation.RemovalIsNeutral | src/aie_decision/ablation.py:168-205 | in every environment the child evaluates as the parent with the removed variable at 0 (a term) or 1 (a factor), and names every other variable |
| Ablation.PlanVariableAblations | src/aie_decision/ablation.py:118-213 | every variable of the formula lands in exactly one of candidates and rejections, once; each candidate is a neutral removal and each rejection has its reason |
| Ablation.Decide | src/aie_decision/ablation.py:146-211 | one variable is removed when it occurs once, directly under + or *, and is not the last; otherwise rejected with the matching reason |
| Ablation.GroupSites | src/aie_decision/ablation.py:137-144 | sites grouped by variable, in order of first appearance |
| Ablation.SitesCount | src/aie_decision/ablation.py:86-98 | every occurrence of a variable has exactly one site |
| TreeShape.CreateOk | src/aie_decision/decomposition_tree.py:44-110 | a new tree has the shape all mutations keep |
| TreeShape.ExpandStateKeeps | src/aie_decision/tree_mutation.py:111-240 | every expansion keeps the shape: counters count, identifiers number, parents are older, each expansion owns the next block of nodes, the current branch has no alternative and one expansion per expanded node, every other branch is an earlier state of it plus the alternative it forked at, pruned sets are closed |
| TreeShape.ProposeAlternativeKeeps | src/aie_decision/tree_mutation.py:243-333 | every alternative keeps the same shape |
| TreeShape.ProposeAtomKeeps | src/aie_decision/tree_mutation.py:468-519 | promoting a node fails only for an unknown node, and keeps the shape |
| TreeShape.OffBranchMeansUnexpanded | src/aie_decision/tree_mutation.py:230-240 | where the current branch has no expansion there is none at all, so an expansion forks only over a node the branch already expands |
| TreePruning.OneOwner | src/aie_decision/tree_mutation.py:88-156 | every node but the root is a child of exactly one expansion, whose target is its older parent |
| TreePruning.Descendants | src/aie_decision/tree_mutation.py:454-465 | the worklist terminates with exactly the proper descendants by parent chain |
| TreePruning.PruneSubtree | src/aie_decision/tree_mutation.py:422-451 | pruning marks the node and exactly its descendants and records one gap |
| TreePruning.PruneKeeps | src/aie_decision/tree_mutation.py:422-451 | pruning fails only for an unknown node, keeps the shape, and the pruned set stays closed downwards |
| TreeActions.RebuildTree | src/aie_decision/fermi_kernel_tree.py:159-190 | folding the actions gives a well-shaped tree or the first refusal, and remembers exactly the promoted nodes |
| TreeFormulas.RebuiltTreesFlatten | src/aie_decision/fermi_kernel_tree.py:159-190 | every tree built by actions whose first expansions, alternatives aside, have canonical formulas compiles, and its flat expression means what the tree means |
| TreeRefinement.ExpansionOutcome | src/aie_decision/tree_mutation.py:111-240 | only an unknown, atomic or pruned target or a childless request is refused; a formula that closes over its units adds one expansion, any other only gaps |
| TreeRefinement.ActionGrows | src/aie_decision/tree_mutation.py:222-333 | an accepted expansion or alternative grows the tree by one expansion, on the current branch exactly when its node had none, and records at most one redundancy besides |
| TreeRefinement.ExpansionRefines | src/aie_decision/tree_mutation.py:159-218 | expanding a leaf leaves the value of the tree what it was with that leaf read at its formula's value |
| TreeRefinement.AlternativeKeepsMeaning | src/aie_decision/tree_mutation.py:302-333 | an alternative, accepted or not, changes the value of no node on the current branch |
| TreeRefinement.RedundancyIsExact | src/aie_decision/tree_validation.py:73-90 | an accepted alternative is flagged redundant exactly when some expansion of the node has the same child units and, up to commuted operands, the same formula, although the code compares texts |
| TreeFormulas.RebuiltPrintable | src/aie_decision/fermi_kernel_tree.py:159-190 | every tree built from parsed formulas holds only such formulas |
| TreeReach.ReachableNodeIds | src/aie_decision/tree_mutation.py:336-350 | the loop collects the parentless nodes and both ends of every expansion of the branch |
| TreeReach.ReachableExactlyWhenAttached | src/aie_decision/tree_mutation.py:336-350 | the reachable set is what the root reaches if and only if every expansion of the current branch stands on a node the root reaches |
| TreeReach.ReachableExactlyInRuns | src/aie_decision/tree_mutation.py:336-350 | over whole runs that is so if and only if every expansion of a node without one stood, when it was made, on a node the root reached |
| TreeReach.ExpansionUnderAlternative | src/aie_decision/tree_mutation.py:323-333 | three accepted actions after which the reachable set holds a node the root does not reach |
| TreeReach.Frontier | src/aie_decision/tree_state.py:128-157 | exactly the reachable, unpruned nodes that are open or expanded off the branch |
| TreeCompletion.ProposalCompletesExactly | src/aie_decision/tree_mutation.py:468-550 | a proposal makes an open question atomic if and only if it promotes its node and every node the current branch reaches, leaf or expanded, was promoted, unresolved, rejected or pruned before the call |
| TreeCompletion.QuestionAtomicExactly | src/aie_decision/fermi_kernel_tree.py:159-190 | a run ends with the question atomic if and only if some proposal promoted a node when everything the branch then reached had been proposed by earlier actions |
| TreeCompletion.RootMustBeProposed | src/aie_decision/tree_mutation.py:522-550 | whatever a run proposes, the question is open until the root was proposed itself and another action follows |
| TreeCompletion.OpenUntilRootTwice | src/aie_decision/tree_mutation.py:468-550 | a built tree with every leaf atomic and the question open, the same with everything reachable settled, and the further promotion that makes it atomic |
| Flatten.RenderOk | src/aie_decision/fermi_kernel_evaluation.py:88-104 | compiling from any node meets no cycle and mentions exactly the unexpanded nodes below it |
| Flatten.Renderer.RenderNode | src/aie_decision/fermi_kernel_evaluation.py:86-104 | the recursion with its mutable visiting set and the rewriting loop computes the compiler's result and restores the set |
| Flatten.CompileActive | src/aie_decision/fermi_kernel_evaluation.py:73-106 | the flat expression of the current branch from its only root |
| Flatten.SubstValue | src/aie_decision/fermi_kernel_evaluation.py:97-102 | replacing a placeholder by a formula is evaluating with the formula's value |
| FlattenMeaning.FlatteningPreservesMeaning | src/aie_decision/fermi_kernel_evaluation.py:73-106 | with canonical formulas the current branch compiles, its variables are exactly the unexpanded nodes the root reaches, and it has a value exactly when the nested expansions do, the same one |
| FlattenMeaning.RenderMeaning | src/aie_decision/tree_validation.py:149-177 | the same below any node, against bottom-up evaluation of each expansion |
| FlattenUnits.RebuiltChecked | src/aie_decision/fermi_validation.py:51-94 | every relationship of a tree built by actions closes over the units its child nodes carry |
| FlattenUnits.MeasuresExactly | src/aie_decision/fermi_validation.py:67-90 | bound by index, a request's formula has a given unit if and only if the request with its child units reordered by first appearance and that parent unit passes the check |
| FlattenUnits.OrderedRequestExactly | src/aie_decision/fermi_validation.py:67-90 | an accepted request with its placeholders in child order has a given unit if and only if the parent unit it declares is close to it |
| NestedDimensions.FlatteningKeepsNestedDimension | src/aie_decision/fermi_kernel_evaluation.py:73-106 | whatever units the leaves have, the flat expression checks exactly when the nested expansions do, bottom-up with placeholders bound by index, and has the same unit |
| FlattenDimension.NodeExactly | src/aie_decision/fermi_kernel_evaluation.py:86-104 | where its children keep their units, the flat formula of an expanded node has exactly the units its own formula, bound by index, makes of them |
| FlattenDimension.MeasuredExactly | src/aie_decision/fermi_validation.py:51-94 | an expanded node's formula gives the node's unit if and only if the reordered request passes the check, and for ordered placeholders if and only if its declared parent unit is the node's |
| FlattenDimension.UnitsKeptExactly | src/aie_decision/fermi_kernel_evaluation.py:73-106 | the flat formula of every node the root reaches has the node's unit if and only if every formula of the current branch gives the unit of the node it expands |
| FlattenDimension.RebuiltUnitsExactly | src/aie_decision/fermi_kernel_tree.py:159-190 | the same for every tree built, from a question with a unit, by actions whose first expansions have canonical formulas |
| FlattenDimension.FlatteningPreservesDimension | src/aie_decision/fermi_kernel_evaluation.py:73-106 | then the flat expression has the root's dimension over the leaves' units |
| FlattenDimension.EstimateRescales | src/aie_decision/fermi_kernel_evaluation.py:73-106 | and a choice of base units rescales the estimate by exactly the factor of the root's unit |
| FlattenDimension.FirstExpansionExactly | src/aie_decision/tree_mutation.py:111-218 | after one accepted expansion of the root the flat expression has exactly the units its formula, bound by index, makes of its children |
| FlattenDimension.ParentUnitUnchecked | src/aie_decision/tree_mutation.py:120-130 | a root of any dimension takes a dimensionless expansion; the flat expression is then dimensionless and its nonzero values rescale otherwise than the root's unit |
| FlattenDimension.PlaceholdersSwapped | src/aie_decision/fermi_validation.py:74-77 | second over first, with the units in child order and the root's own unit declared, is accepted; the flat expression has the inverse unit and rescales wrongly |
| Ledger.AnalysisLedger.Append | src/aie_decision/ledger.py:48-89 | appends exactly the records that continue the lineage; a refusal changes nothing |
| Ledger.AnalysisLedger.FindLatest | src/aie_decision/ledger.py:96-100 | the newest entry of a record |
| Ledger.SequenceCounts | src/aie_decision/ledger.py:72-80 | in every ledger the n-th revision of a record carries sequence n |
| Ledger.Open | src/aie_decision/ledger.py:42-46 | a ledger opens exactly with a run identifier |
| SearchReplay.ReplaySearchLedger | src/aie_decision/search_replay.py:61-220 | the single pass accepts, recovers and fails exactly as the transition specification does |
| SearchReplay.AcceptedIsCoherent | src/aie_decision/search_replay.py:150-203 | an accepted ledger activates a candidate once, validates it after that, completes it once, ranks it only after an evaluation, and names an evaluated result |
| SearchReplay.PendingExactly | src/aie_decision/search_replay.py:199-207 | pending is exactly the activated candidates that were not completed |
| Search.ReplayIsProgress | src/aie_decision/search.py:334-360 | with the identifiers the search gives its events, every identity check of the validator passes |
| Search.NextContinues | src/aie_decision/search.py:341-360 | the next event always continues the ledger's lineage |
| SearchResult.TraceIsAccepted | src/aie_decision/search.py:334-595 | for any evaluator, clock, budget and generator with distinct named seeds and named children, the ledger has a proper lineage and the validator accepts it; it recovers exactly the evaluated candidates and their outcomes, the terminal event, and as pending the rest of the activation order with its records |
| SearchTruth.TraceIsTruthful | src/aie_decision/search.py:393-546 | every event agrees with the rows: a minimisation follows a passed parent, an expansion a failed one, and evaluations, ranks and rejections repeat their candidate's verdict |
| SearchResult.ResultFoundExactly | src/aie_decision/search.py:551-585 | when children name the candidate they were made from, a search that no budget stops ends result-found exactly when some candidate passed |
| SearchResult.SelectionIsLeast | src/aie_decision/search.py:558-591 | the selected candidate passed, no passed ablation was made from it, and of such rows it has the fewest variables, then the highest score, then the least width, then the least identifier |
| SearchResult.SearchIsBounded | src/aie_decision/search.py:375-392 | whatever the generator offers, no run exceeds its evaluation, candidate or round budget |
| SearchResult.SearchIsExhaustive | src/aie_decision/search.py:375-549 | every row holds the evaluator's verdict and was a seed or offered by a row; without a budget stop all seeds and activated candidates have rows and every offered child was taken or repeats a known formula |
| SearchLoop.FermiSearch.constructor | src/aie_decision/search.py:319-373 | the seeds are queued and recorded |
| SearchLoop.FermiSearch.Record | src/aie_decision/search.py:334-360 | an event is numbered and appended; the ledger never refuses it |
| SearchLoop.FermiSearch.OfferChildren | src/aie_decision/search.py:507-546 | children are skipped, activated or cut off by the candidate budget as specified |
| SearchLoop.FermiSearch.SweepRound | src/aie_decision/search.py:382-546 | one round over the waiting candidates |
| SearchLoop.FermiSearch.RunRounds | src/aie_decision/search.py:375-549 | the loop terminates and computes the specified search |
| SearchLoop.FermiSearch.Finish | src/aie_decision/search.py:551-595 | ranking, selection and the terminal event |
| SearchLoop.SearchFermi | src/aie_decision/search.py:300-600 | the in-place search decides as the specification does, and over distinct named seeds and named children its own ledger replays to its evaluations, its terminal event and its waiting candidates |
| Generator.CheckGraph | src/aie_decision/search.py:68-107 | accepts exactly the graphs with distinct candidates, known parents and parent chains that end at seeds |
| Generator.ChainEnds | src/aie_decision/search.py:99-107 | the walk with its seen set terminates and reports exactly whether the chain ends |
| Generator.DeclaredIsWellFormed | src/aie_decision/search.py:109-126 | an accepted graph meets every assumption the search makes of its generator |
| Generator.DeclaredSearchIsReachability | src/aie_decision/search.py:375-549 | over a declared graph the search evaluates only candidates reachable from the seeds through failed expansions and passed ablations, and without a budget stop all of them |
| Cholesky.Factorise | src/aie_decision/probability_propagation.py:186-202 | the loop succeeds if and only if a lower triangular factor with positive diagonal exists, and returns it |
| Cholesky.FactorReproduces | src/aie_decision/probability_propagation.py:186-202 | for a symmetric matrix the factor times its transpose is the matrix, entry by entry |
| CorrelationGate.BuildCorrelationMatrix | src/aie_decision/probability_propagation.py:176-183 | ones on the diagonal and the common value elsewhere |
| CorrelationGate.PivotStep | src/aie_decision/probability_propagation.py:186-202 | eliminating a column of an equicorrelation matrix takes the pivot (1-r)(1+kr)/(1+(k-1)r) to the next one |
| CorrelationGate.FactorExistsExactly | src/aie_decision/probability_propagation.py:276-295 | an equicorrelation matrix has a factor exactly when 1+(n-1)r is positive |
| CorrelationGate.GateExact | src/aie_decision/probability_propagation.py:276-295 | under negative dependence the gate passes if and only if the Cholesky loop meets no non-positive pivot |
| CorrelationGate.RouteJointSample | src/aie_decision/probability_propagation.py:384-506 | which requests are refused by the gate, which inside the Cholesky loop, which become scenarios; a negative correlation is never refused inside the loop |
| CorrelationGate.PositiveWithNegativeStrength | src/aie_decision/probability_propagation.py:276-295 | three fitted leaves declared positive at -0.9 meet no gate and have no factor; declared negative at 0.9 the gate refuses the same matrix |
| ConditionGraph.BuildAdjacency | src/aie_decision/validation.py:138-155 | the adjacency holds exactly the declared edges between known nodes |
| ConditionGraph.CycleSearch.Visit | src/aie_decision/validation.py:162-172 | the recursive search terminates; it reports only real cycles and otherwise finishes the node and restores the path |
| ConditionGraph.HasCycle | src/aie_decision/validation.py:138-175 | a cycle is reported if and only if the known nodes and declared edges have one |
| Passages.FindSentences | src/aie_decision/evidence.py:199-222 | the spans are the sentences, each up to its first break and the terminators after it, with only line breaks between |
| Passages.SplitClauses | src/aie_decision/evidence.py:234-249 | the pieces are the trimmed stretches between clause boundaries |
| Passages.SegmentText | src/aie_decision/evidence.py:191-259 | every atom is the source slice at its offsets and one clause of one sentence; spans are ordered and disjoint, no visible character is left out, and clauses are numbered without a gap |
| Passages.AtomsAreSeparate | src/aie_decision/evidence.py:250-259 | no two atoms share a locator or a character |
| Text.PaddedInjective | src/aie_decision/search.py:341-343 | zero-padded identifiers of different numbers differ |

## Left out

- Clocks, timestamps and the recorded-at fields. The search's time budget is an arbitrary function of the events recorded so far.
- Hashing and JSON canonicalisation: digests and payload hashes are abstract functions. Only the export round trip needs a digest never to be empty; nothing needs it to be injective.
- Parsing and printing of formulas and units: the model starts from an expression datatype and from parsed units. Textual substitution into a parenthesised placeholder is substitution on that datatype.
- Message texts, notes and rationales, and the checks that such texts are not blank; the decomposition tree's own action list, which exports drop.
- The runtime's repairs after a failed recording, except for a rollback target on an action that is not a rollback, which a caller can cause and the model has.
- Type-shape checks of imported documents (a field that is not an object, a sequence that is not an integer) and rollback targets that are not integers.
- Normalisation of the kernel's frontier evaluation; the verdict of replaying an empty log.
- Floating point: numbers are reals. The square root is a parameter with its defining property.
- Random sampling, quantile fitting and everything computed from samples; the model follows a joint-sample request to the point where sampling starts.
- In-place edits of a copied syntax tree (ablation) and of a list of rows (Cholesky) are modelled on values, so aliasing inside them is not captured.
- The text Python gives a float is a parameter: different floats have different texts, which show that they are floats and close no parenthesis (`1e+16` may stand for a large whole one), and those of fractional floats have no delimiter but the sign of an exponent. `SomePrinter` shows such a parameter exists. Formulas are those the parser lets through, so identifiers hold no delimiter.
- `mark_node_unresolved`, `pruning_projection` and `current_branch_projection`: not among the actions the kernel folds. `_tree_depth`: a maximum over parent chains.
- Rows after the first in the search's ranking, and the presentation order of evaluations: neither is observable in the outcome.
- The heuristic likelihood, the mechanical ablations and the mutation templates enter the search through its evaluator and generator parameters; `Ablation` covers the ablations themselves.
- The checkpoint that wraps an exported ledger and its replay under one hash; unsupported mutation kinds, which the candidate datatype cannot express.
- Record validation, the wave layer, report rendering, file and command-line handling: fixed-shape checks and plumbing.
- VerdictExactly: is about kernels whose digests tell how many actions ran; over other kernels a repeated digest can hide a mismatch, and VerdictOverAnyKernel has the condition.
- Append: does not model the schema version of a record or the validation of its own model, which come before the lineage checks.
- ReplaySearchLedger: does not model the schema versions and the type-shape checks of an exported ledger's fields.
