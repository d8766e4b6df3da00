# XmasMM core, modelled in Dafny

XmasMM is a Christmas-themed Mastermind game written in JavaScript. Its
repository also holds Python scripts that drive the project's own task list.
This project models two parts of it.

**The task graph.** `scripts/task_manager.py` and `scripts/task_status.py`
keep a registry of tasks. Each task has a status (PENDING, READY, CURRENT or
COMPLETED), a list of dependencies and a priority. The scripts provide these
operations:

- starting a task (only when its dependencies are COMPLETED);
- completing a task, which promotes PENDING dependents whose dependencies
  are now all COMPLETED to READY;
- recomputing the derived `currentState` block, made of the next task (the
  READY task of least priority) and the progress counts;
- validating the registry (unsatisfied dependencies of READY or CURRENT
  tasks, and a CURRENT count other than one).

The registry is a class `ProjectData`. It holds the tasks dictionary together
with its key order, since Python dictionaries iterate in insertion order and
the scripts depend on that order. `TaskManager` is a class over it. Each loop
is proved against a specification function in `TaskData`.

**The game logic.** The game-logic modules are:

- `GameUtils`: the feedback count (black and white pegs), computed by the
  source's splice algorithm. It is proved equal to a multiset definition:
  exact matches for black, the size of the multiset intersection for
  black + white.
- `ConstraintSolver`: the exhaustive hint solver. It enumerates every code,
  filters the codes by the guess history and offers, per position, the
  elements still possible there.
- `LogicDeductionEngine`: the heuristic hint engine. It is a class whose
  fields hold the candidate sets per position, the eliminated and confirmed
  elements, and the exact counts. Its methods are proved equal to functions
  on an `EngineState` value, and lemmas about those functions show what
  each rule achieves.
- `ScoreManager` and `scripts/score_simulation.js`: the end-of-round score,
  the running score during play and the one-shot hint.
- `GameStateManager`: the secret code, the guesses left and the win and
  game-over flags.
- `HistoryManager`, `HistoryScroller` and `ActiveRowManager`: the guess
  history, its scroll offset and the row being filled in.
- `ThemeConfig` and `ThemeManager`: the theme registry, the lookup of asset
  names and the theme rotation.

Randomness comes in as draws in [0, 1). Camera sizes, registry values and
saved preferences come in as parameters.

Where the scripts' behaviour needs pinning down, the model follows the code:

- `get_ready_tasks` and the choice of the next task follow registry order.
  A tie in priority goes to the first READY task in that order.
- An unknown id makes `complete_task` return False rather than raise.
- A missing active or next task raises KeyError.
- `nextTask` stores the `id` field of the chosen record, which need not
  equal the key it is stored under.

Dependency readiness, used below, means that every READY or CURRENT task
has all its dependencies COMPLETED.

## Model

| member | source | states |
|---|---|---|
| TaskData.ProjectData.constructor | scripts/task_manager.py:8-19 | a loaded registry is well formed: keys listed once and dependencies name tasks; a record's `id` field may differ from its key |
| TaskData.DependencyIssuesMember | scripts/task_manager.py:151-156 | a dependency issue is reported exactly for each pair of a READY or CURRENT task and one of its dependencies that is not COMPLETED |
| TaskData.DependencyIssuesEmpty | scripts/task_manager.py:151-156 | no dependency issue is reported exactly when every READY or CURRENT task has all its dependencies COMPLETED |
| TaskData.DepIssuesMember | scripts/task_manager.py:153-156 | the issues for one task are exactly its dependencies that are not COMPLETED |
| TaskData.DepIssuesEmpty | scripts/task_manager.py:153-156 | one task has no issue exactly when all its dependencies are COMPLETED |
| TaskData.CurrentIdsExact | scripts/task_manager.py:158-159 | the list of CURRENT ids holds every CURRENT task and nothing else, each once |
| TaskData.MinReady | scripts/task_manager.py:104-111 | the next task is null exactly when no task is READY; otherwise it is a READY task whose priority is no greater than that of any READY task |
| TaskData.MinReadyFirst | scripts/task_manager.py:107-108 | among READY tasks of equal least priority, the first in registry order is chosen |
| TaskData.CountStatus | scripts/task_manager.py:114-115 | a count of tasks with a status never exceeds the number of tasks |
| TaskData.RoundHalfEven | scripts/task_manager.py:119 | the percentage is within one half of the exact ratio, and a tie goes to the even neighbour |
| TaskData.PercentageBounded | scripts/task_manager.py:113-120 | the recomputed progress has completed <= total and a percentage of at most 100 |
| TaskData.OrderSize | scripts/task_manager.py:115 | the progress total, the dictionary size, equals the length of the key order |
| TaskManager.TaskManager.constructor | scripts/task_manager.py:10-13 | the manager works on a well-formed registry |
| TaskManager.Finish | scripts/task_manager.py:51-56 | the completed task becomes COMPLETED, keeps its other fields, and takes the notes only when they are truthy; every other task is unchanged |
| TaskManager.TaskManager.GetCurrentTask | scripts/task_manager.py:28-31 | the active task's record, and KeyError exactly when the active id is null or names no task |
| TaskManager.TaskManager.GetNextTask | scripts/task_manager.py:33-36 | none for a null or empty next id, the record when it names a task, KeyError otherwise |
| TaskData.WithStatus | scripts/task_manager.py:38-44 | the records with a status, in registry order, as many as CountStatus counts |
| TaskManager.TaskManager.GetReadyTasks | scripts/task_manager.py:38-44 | exactly the READY records, each as stored, one per READY task, in registry order |
| TaskManager.TaskManager.DependenciesSatisfied | scripts/task_manager.py:87-93 | true exactly when every dependency is COMPLETED |
| TaskManager.AllCompleted | scripts/task_manager.py:90-93 | the dependency loop returns true exactly when every dependency is COMPLETED, on any state of the tasks |
| TaskManager.TaskManager.StartTask | scripts/task_manager.py:67-85 | succeeds exactly for a known task with all dependencies COMPLETED; it then becomes CURRENT and the active task, and on failure nothing changes |
| TaskManager.TaskManager.UpdateDependentTasks | scripts/task_manager.py:95-100 | exactly the PENDING dependents of the task whose dependencies are all COMPLETED become READY; nothing else changes |
| TaskManager.TaskManager.UpdateCurrentState | scripts/task_manager.py:102-120 | the next task is null exactly when no task is READY, otherwise the `id` field of the first READY task of least priority, and the progress is recounted from the live tasks |
| TaskManager.TaskManager.FindNextTask | scripts/task_manager.py:104-111 | the loop's result is the specified next task |
| TaskManager.TaskManager.CountCompleted | scripts/task_manager.py:114 | the loop counts exactly the COMPLETED tasks |
| TaskManager.TaskManager.CompleteTask | scripts/task_manager.py:46-65 | an unknown id changes nothing; otherwise the task is COMPLETED (notes kept only when truthy), its dependents are promoted and the next task (the chosen record's `id` field) and progress are recomputed |
| TaskManager.TaskManager.ValidateState | scripts/task_manager.py:147-165 | the dependency issues in registry order, then one issue when the CURRENT count is not one; several CURRENT tasks are reported by the `id` fields of their records, in registry order |
| TaskManager.CollectDependencyIssues | scripts/task_manager.py:151-156 | the dependency loop yields exactly the specified issues |
| TaskManager.CollectDepIssues | scripts/task_manager.py:153-156 | the inner loop yields one issue per dependency that is not COMPLETED |
| TaskManager.CascadeStep | scripts/task_manager.py:97-100 | testing a dependent against the partly promoted tasks agrees with testing it against the tasks before the cascade |
| TaskManager.CascadeDone | scripts/task_manager.py:95-100 | the loop's result is the whole cascade, and the registry stays well formed |
| TaskManager.SameCompletion | scripts/task_manager.py:87-93 | promotions never change whether a task's dependencies are satisfied |
| TaskManager.CompletePreservesReadiness | scripts/task_manager.py:46-65 | completing a task keeps dependency readiness |
| TaskManager.CompleteOnlyAdvances | scripts/task_manager.py:46-65 | completing a task moves statuses forward only: it becomes COMPLETED, some PENDING tasks become READY, every other record is unchanged |
| TaskManager.CascadeLeavesNoReadyPending | scripts/task_manager.py:95-100 | after the cascade no dependent of the completed task is left PENDING with all dependencies COMPLETED |
| TaskManager.CompleteCountsOne | scripts/task_manager.py:113-120 | the COMPLETED count rises by exactly one, or by none when the task was already COMPLETED |
| TaskManager.CountOneChange | scripts/task_manager.py:114 | counts of two states that agree on completion everywhere but one task differ only by that task |
| TaskManager.StartPreservesReadiness | scripts/task_manager.py:67-85 | starting a task that is not COMPLETED keeps dependency readiness |
| TaskManager.ValidationEmptyIff | scripts/task_manager.py:147-165 | validation reports nothing exactly when dependency readiness holds and exactly one task is CURRENT |
| TaskManager.SingleCurrent | scripts/task_manager.py:158-163 | one CURRENT id is listed exactly when exactly one task is CURRENT |
| TaskManager.OneCurrentIsUnique | scripts/task_manager.py:158-163 | a single listed CURRENT id is the only CURRENT task |
| TaskManager.OtherCountNotUnique | scripts/task_manager.py:158-163 | with zero or several listed ids, no task is the only CURRENT one |
| TaskManager.ChainFirstCompletion | scripts/task_manager.py:46-65 | in the chain A -> B -> C, completing A makes B READY and the next task, and C stays PENDING |
| TaskManager.ChainSecondCompletion | scripts/task_manager.py:46-65 | then completing B makes C READY and the next task |
| TaskManager.SecondStartReported | scripts/task_manager.py:67-85 | a second task can be started while one is CURRENT, and validation then reports both |
| TaskManager.MultipleCurrentReported | scripts/task_manager.py:158-162 | the several-CURRENT issue appears exactly when more than one task is CURRENT, and lists the `id` fields of those records in registry order |
| TaskManager.RecordIdsReported | scripts/task_manager.py:158-160 | two CURRENT records stored under "1" and "2" with ids "x" and "y" are reported as ["x", "y"] |
| TaskStatus.GetCurrentStatus | scripts/task_status.py:18-28 | the active record, the next record when the next id is truthy, the progress and the phase; KeyError exactly when an id named names no task |
| TaskStatus.ValidateDependencies | scripts/task_status.py:70-81 | one issue per READY or CURRENT task and dependency that is not COMPLETED, in registry order |
| TaskStatus.UpdateValidation | scripts/task_status.py:83-87 | the stored issues become the dependency issues and nothing else changes |
| TaskStatus.StoredIssuesMeaning | scripts/task_status.py:70-87 | the stored list is empty exactly when dependency readiness holds, and every stored issue names a real violation |
| GameUtils.Dedup | js/utils/LogicDeductionEngine.js:51-56 | exactly the elements of the list, none repeated |
| GameUtils.DedupFirstSeen | js/utils/LogicDeductionEngine.js:51-56 | the distinct elements come in the order of their first appearance in the list |
| GameUtils.IndexOfAppend | js/utils/LogicDeductionEngine.js:51-56 | appending an element keeps the first index of every earlier element, and a new element comes last |
| GameUtils.IndexOf | js/utils/ThemeManager.js:58 | -1 exactly when absent, otherwise the first index holding the element |
| GameUtils.SplitGuess | js/utils/GameUtils.js:20-27 | splicing the exact matches out of the guess removes exactly their multiset |
| GameUtils.SplitCode | js/utils/GameUtils.js:20-27 | splicing the exact matches out of the code removes the same multiset |
| GameUtils.MatchedLength | js/utils/GameUtils.js:20-27 | one match is removed per black peg |
| GameUtils.CommonCountSplits | js/utils/GameUtils.js:13-39 | the common elements are the exact matches plus what the leftovers share |
| GameUtils.FirstPassStep | js/utils/GameUtils.js:21-26 | each position of the first pass is either an exact match removed from both copies or stays |
| GameUtils.FirstPassState | js/utils/GameUtils.js:21-26 | scanning from the end keeps the earlier indices of both copies in place, so the test at index i is the test on the original arrays |
| GameUtils.SecondPassStep | js/utils/GameUtils.js:30-35 | a leftover guess element consumes one equal code element, adding one white peg, or matches nothing |
| GameUtils.ScannedStep | js/utils/GameUtils.js:21-26 | one more scanned index keeps the first-pass invariant |
| GameUtils.SpliceExactMatches | js/utils/GameUtils.js:20-27 | the first pass counts the exact matches and leaves the guess and code without them, order kept |
| GameUtils.CountElementMatches | js/utils/GameUtils.js:29-36 | the second pass counts the size of the multiset intersection of the leftovers |
| GameUtils.CalculateFeedback | js/utils/GameUtils.js:13-39 | black counts the exact matches and black + white the common elements counted with multiplicity |
| GameUtils.FeedbackBounded | js/utils/GameUtils.js:13-39 | black + white never exceeds the length of the code or of the guess |
| GameUtils.AllBlackIffEqual | js/utils/GameUtils.js:13-39 | all pegs are black exactly when the code is a prefix of the guess |
| GameUtils.GameElements | js/utils/GameUtils.js:41-43 | six distinct elements |
| GameUtils.PickIndex | js/utils/GameUtils.js:7 | a draw in [0, 1) picks a valid index |
| GameUtils.GenerateRandomCode | js/utils/GameUtils.js:4-11 | a code of the requested length, each position the element its draw picks |
| ConstraintSolver.Prefixed | js/utils/ConstraintSolver.js:27-29 | each completed code is the prefix followed by one tail |
| ConstraintSolver.PrependEachSize | js/utils/ConstraintSolver.js:31-35 | one level of the generator emits one code per element and tail |
| ConstraintSolver.PrependEachMember | js/utils/ConstraintSolver.js:31-35 | a code is emitted exactly when its head is an element and its rest a tail |
| ConstraintSolver.AllCodesSize | js/utils/ConstraintSolver.js:20-40 | there are elements^length codes |
| ConstraintSolver.AllCodesMember | js/utils/ConstraintSolver.js:24-40 | the enumeration holds exactly the codes of the right length over the elements |
| ConstraintSolver.AllCodesLength | js/utils/ConstraintSolver.js:27-29 | every generated code has the code length |
| ConstraintSolver.PrefixedNested | js/utils/ConstraintSolver.js:31-34 | pushing one element and recursing is prefixing twice |
| ConstraintSolver.PrefixedConcat | js/utils/ConstraintSolver.js:31-35 | the codes of consecutive loop iterations are concatenated in order |
| ConstraintSolver.Filter | js/utils/ConstraintSolver.js:75-81 | filtering keeps only codes already present |
| ConstraintSolver.Remaining | js/utils/ConstraintSolver.js:70-84 | filtering by the history keeps only codes already present |
| ConstraintSolver.FilterMember | js/utils/ConstraintSolver.js:75-81 | a code is kept exactly when it gives the recorded feedback to the guess |
| ConstraintSolver.RemainingMember | js/utils/ConstraintSolver.js:70-84 | the remaining codes are exactly the candidates consistent with every recorded feedback |
| ConstraintSolver.ConsistentStep | js/utils/ConstraintSolver.js:72-83 | consistency with n feedbacks is consistency with the first n - 1 and with the last |
| ConstraintSolver.Column | js/utils/ConstraintSolver.js:92-100 | the element of each remaining code at one position |
| ConstraintSolver.ChoicesOf | js/utils/ConstraintSolver.js:87-100 | one choice list per position |
| ConstraintSolver.ChoicesSound | js/utils/ConstraintSolver.js:57-103 | an element offered at a position is there in some code consistent with the whole history |
| ConstraintSolver.ChoicesComplete | js/utils/ConstraintSolver.js:57-103 | an element that some consistent code has at a position is offered there |
| ConstraintSolver.SecretAlwaysOffered | js/utils/ConstraintSolver.js:57-103 | when the feedbacks were computed against the secret, each of its elements is offered at its position |
| ConstraintSolver.ConstraintSolver.constructor | js/utils/ConstraintSolver.js:10-17 | no code list yet and a guess counter of 0 |
| ConstraintSolver.ConstraintSolver.GenerateFrom | js/utils/ConstraintSolver.js:26-36 | the recursive generator emits every extension of the prefix, in enumeration order |
| ConstraintSolver.ConstraintSolver.GenerateAllCodes | js/utils/ConstraintSolver.js:24-40 | exactly the codes of the code length over the elements, elements^length of them |
| ConstraintSolver.ConstraintSolver.EnsureCodesGenerated | js/utils/ConstraintSolver.js:45-49 | the code list exists afterwards and is the full enumeration |
| ConstraintSolver.ConstraintSolver.FilterByHistory | js/utils/ConstraintSolver.js:70-84 | the loop keeps exactly the codes consistent with the history |
| ConstraintSolver.FilterCodes | js/utils/ConstraintSolver.js:75-81 | one filter pass keeps exactly the codes giving the recorded feedback |
| ConstraintSolver.ConstraintSolver.GetValidChoices | js/utils/ConstraintSolver.js:57-103 | with no history every element at every position; otherwise per position the distinct elements of the consistent codes in first-appearance order, and the guess counter updated |
| ConstraintSolver.Repeat | js/utils/ConstraintSolver.js:62-68 | the element list once per position |
| ConstraintSolver.BuildChoices | js/utils/ConstraintSolver.js:92-100 | the per-position loop builds the specified choice table |
| ConstraintSolver.DistinctAt | js/utils/ConstraintSolver.js:93-97 | the loop yields `Dedup` of the elements at one position, so the distinct elements in first-appearance order (GameUtils.DedupFirstSeen) |
| ConstraintSolver.ConstraintSolver.GetPossibleCodesCount | js/utils/ConstraintSolver.js:146-169 | the number of codes consistent with the history |
| ConstraintSolver.ConstraintSolver.GetRemainingCodes | js/utils/ConstraintSolver.js:177-200 | the codes consistent with the history, in enumeration order |
| ConstraintSolver.ConstraintSolver.Reset | js/utils/ConstraintSolver.js:205-209 | the guess counter is 0 and the code list is kept |
| LogicDeductionEngine.RemoveAll | js/utils/LogicDeductionEngine.js:101-103 | deleting elements from a candidate set keeps exactly the others |
| LogicDeductionEngine.Insert | js/utils/LogicDeductionEngine.js:115 | adding to a set yields the old members plus the new one |
| LogicDeductionEngine.DropFromAll | js/utils/LogicDeductionEngine.js:67-70 | each position loses exactly the eliminated elements |
| LogicDeductionEngine.Rule1 | js/utils/LogicDeductionEngine.js:58-72 | Rule 1 only eliminates and shrinks candidate sets; confirmations and counts stay |
| LogicDeductionEngine.Rule2 | js/utils/LogicDeductionEngine.js:74-106 | Rule 2 only eliminates and shrinks candidate sets; confirmations and counts stay |
| LogicDeductionEngine.Rule3 | js/utils/LogicDeductionEngine.js:108-117 | Rule 3 only confirms: candidates and eliminations stay, nothing confirmed is lost, and with no feedback nothing changes |
| LogicDeductionEngine.Analyze | js/utils/LogicDeductionEngine.js:44-124 | analysing a guess keeps the number of positions and loses no elimination |
| LogicDeductionEngine.Rule2AfterNothing | js/utils/LogicDeductionEngine.js:79-105 | before Rule 2 considers any element nothing has changed |
| LogicDeductionEngine.RemoveExcept | js/utils/LogicDeductionEngine.js:164-168 | the element is deleted from every position but the deduced one |
| LogicDeductionEngine.Deduce1At | js/utils/LogicDeductionEngine.js:157-170 | Deduction 1 at one position keeps the number of positions |
| LogicDeductionEngine.Deduce1From | js/utils/LogicDeductionEngine.js:156-171 | Deduction 1 never eliminates or recounts anything |
| LogicDeductionEngine.PositionsOf | js/utils/LogicDeductionEngine.js:175-180 | exactly the positions whose set holds the element, ascending |
| LogicDeductionEngine.Deduce2For | js/utils/LogicDeductionEngine.js:182-192 | Deduction 2 for one element keeps the number of positions |
| LogicDeductionEngine.Deduce2Over | js/utils/LogicDeductionEngine.js:174-193 | Deduction 2 changes only candidate sets |
| LogicDeductionEngine.SingletonPositions | js/utils/LogicDeductionEngine.js:196-201 | exactly the positions with one candidate, ascending |
| LogicDeductionEngine.FirstUndeduced | js/utils/LogicDeductionEngine.js:205 | the first position with several candidates, or none when there is none |
| LogicDeductionEngine.FirstNotIn | js/utils/LogicDeductionEngine.js:215-216 | the first candidate no deduced position holds, or none when every candidate is held |
| LogicDeductionEngine.Deduce3 | js/utils/LogicDeductionEngine.js:195-225 | Deduction 3 keeps the number of positions |
| LogicDeductionEngine.Advanced | js/utils/LogicDeductionEngine.js:154-226 | the advanced deductions never eliminate or recount anything |
| LogicDeductionEngine.RemoveAllDistinct | js/utils/LogicDeductionEngine.js:101-103 | deleting from a set keeps it a set |
| LogicDeductionEngine.InitialWf | js/utils/LogicDeductionEngine.js:26-37 | the reset state is well formed |
| LogicDeductionEngine.EliminationKeepsWf | js/utils/LogicDeductionEngine.js:65-70 | eliminating an element and deleting it everywhere keeps the engine well formed and only shrinks it |
| LogicDeductionEngine.ShrinksTrans | js/utils/LogicDeductionEngine.js:44-124 | shrinking steps compose |
| LogicDeductionEngine.StepsCompose | js/utils/LogicDeductionEngine.js:44-124 | two well-formed shrinking steps make one |
| LogicDeductionEngine.Rule1KeepsWf | js/utils/LogicDeductionEngine.js:58-72 | Rule 1 keeps the engine well formed and only shrinks it |
| LogicDeductionEngine.Rule2KeepsWf | js/utils/LogicDeductionEngine.js:74-106 | Rule 2 keeps the engine well formed and only shrinks it |
| LogicDeductionEngine.Rule3KeepsWf | js/utils/LogicDeductionEngine.js:108-117 | Rule 3 keeps the engine well formed and only shrinks it |
| LogicDeductionEngine.Deduce1AtKeepsWf | js/utils/LogicDeductionEngine.js:157-170 | one Deduction 1 step keeps the engine well formed and only shrinks it |
| LogicDeductionEngine.Deduce1FromKeepsWf | js/utils/LogicDeductionEngine.js:156-171 | Deduction 1 keeps the engine well formed and only shrinks it |
| LogicDeductionEngine.Deduce2ForKeepsWf | js/utils/LogicDeductionEngine.js:175-192 | one Deduction 2 step keeps the engine well formed and only shrinks it |
| LogicDeductionEngine.Deduce2OverKeepsWf | js/utils/LogicDeductionEngine.js:174-193 | Deduction 2 keeps the engine well formed and only shrinks it |
| LogicDeductionEngine.Deduce3KeepsWf | js/utils/LogicDeductionEngine.js:195-225 | Deduction 3 keeps the engine well formed and only shrinks it |
| LogicDeductionEngine.RulesKeepWf | js/utils/LogicDeductionEngine.js:58-117 | the three rules in a row keep the engine well formed |
| LogicDeductionEngine.AdvancedKeepsWf | js/utils/LogicDeductionEngine.js:154-226 | the advanced deductions keep the engine well formed and only shrink it |
| LogicDeductionEngine.AnalyzeKeepsWf | js/utils/LogicDeductionEngine.js:44-124 | analysing a guess keeps every eliminated element out of every candidate set, only shrinks the sets, and forgets nothing eliminated or confirmed |
| LogicDeductionEngine.SingleDistinct | js/utils/LogicDeductionEngine.js:63 | a guess with one distinct element is that element repeated |
| LogicDeductionEngine.Rule1Eliminates | js/utils/LogicDeductionEngine.js:58-72 | an all-same guess with no feedback leaves its element eliminated and a candidate nowhere |
| LogicDeductionEngine.ZeroFeedbackEliminates | js/utils/LogicDeductionEngine.js:74-106 | a guess of several distinct elements with no feedback eliminates every unconfirmed element in it, everywhere |
| LogicDeductionEngine.AnalyzeZero | js/utils/LogicDeductionEngine.js:63 | Rule 1 leaves a guess of several distinct elements alone |
| LogicDeductionEngine.Rule1Idle | js/utils/LogicDeductionEngine.js:58-72 | Rule 1 changes nothing unless the guess is one element repeated and scores no peg |
| LogicDeductionEngine.Rule2ZeroEliminates | js/utils/LogicDeductionEngine.js:96-104 | with no feedback Rule 2 eliminates each unconfirmed element of the guess |
| LogicDeductionEngine.EliminatedKept | js/utils/LogicDeductionEngine.js:108-124 | an elimination survives Rule 3 and the advanced deductions |
| LogicDeductionEngine.Rule3Confirms | js/utils/LogicDeductionEngine.js:108-117 | an all-same guess with feedback confirms its element with an exact count of black + white |
| LogicDeductionEngine.Deduce1AtRemoves | js/utils/LogicDeductionEngine.js:157-170 | a lone unconfirmed candidate becomes confirmed and leaves every other position |
| LogicDeductionEngine.Deduce1Confirms | js/utils/LogicDeductionEngine.js:156-171 | every element alone at a position is confirmed afterwards, and nothing confirmed is lost |
| LogicDeductionEngine.RepeatedElementLost | js/utils/LogicDeductionEngine.js:155-171 | for the secret A A over elements A and B, the guess B B leaves position 1 with no candidate: Deduction 1 ignores repeated elements |
| LogicDeductionEngine.RepeatedFeedback | js/utils/GameUtils.js:13-39 | B B scores no peg against A A |
| LogicDeductionEngine.RepeatedRules | js/utils/LogicDeductionEngine.js:58-117 | in that scenario the rules eliminate B everywhere |
| LogicDeductionEngine.RepeatedRule1 | js/utils/LogicDeductionEngine.js:58-72 | Rule 1 of that scenario |
| LogicDeductionEngine.InitialAB | js/utils/LogicDeductionEngine.js:26-37 | the scenario's start: both positions may hold A or B |
| LogicDeductionEngine.RuleOneOnBB | js/utils/LogicDeductionEngine.js:58-72 | Rule 1 on B B with no feedback eliminates B and deletes it everywhere |
| LogicDeductionEngine.RepeatedDedup | js/utils/LogicDeductionEngine.js:51-56 | the distinct elements of the scenario's lists |
| LogicDeductionEngine.RepeatedRemove | js/utils/LogicDeductionEngine.js:68-70 | deleting B from {A, B} |
| LogicDeductionEngine.RepeatedAdvanced | js/utils/LogicDeductionEngine.js:154-226 | the advanced deductions of that scenario empty position 1 |
| LogicDeductionEngine.RepeatedDeduce2 | js/utils/LogicDeductionEngine.js:173-193 | Deduction 2 of that scenario changes nothing |
| LogicDeductionEngine.RepeatedDeduce3 | js/utils/LogicDeductionEngine.js:195-225 | Deduction 3 of that scenario changes nothing |
| LogicDeductionEngine.RemoveAllTwice | js/utils/LogicDeductionEngine.js:101-103 | deleting one more element after a set of them is deleting all at once |
| LogicDeductionEngine.DropFromAllTwice | js/utils/LogicDeductionEngine.js:101-103 | the same, across positions |
| LogicDeductionEngine.DropNothing | js/utils/LogicDeductionEngine.js:79-105 | deleting nothing changes nothing |
| LogicDeductionEngine.RemoveNothing | js/utils/LogicDeductionEngine.js:101-103 | deleting nothing from one set changes nothing |
| LogicDeductionEngine.NewSet | js/utils/LogicDeductionEngine.js:28-30 | `new Set` keeps the distinct elements in first-seen order |
| LogicDeductionEngine.TallyStep | js/utils/LogicDeductionEngine.js:52-54 | one more guess entry keeps the tally exact |
| LogicDeductionEngine.DedupSnoc | js/utils/LogicDeductionEngine.js:51-56 | one more guess entry adds its element to the distinct list exactly when it is new |
| LogicDeductionEngine.CountElements | js/utils/LogicDeductionEngine.js:51-56 | each distinct element with its number of occurrences, keys in first-seen order |
| LogicDeductionEngine.ExpectedFeedback | js/utils/LogicDeductionEngine.js:83-92 | the feedback the confirmed other elements account for |
| LogicDeductionEngine.Rule2TargetsStep | js/utils/LogicDeductionEngine.js:79-105 | one more element considered by Rule 2 is eliminated exactly when the rule's test holds |
| LogicDeductionEngine.PositionsIn | js/utils/LogicDeductionEngine.js:175-180 | the positions loop yields exactly the positions holding the element |
| LogicDeductionEngine.SingletonsIn | js/utils/LogicDeductionEngine.js:196-201 | the loop yields exactly the singleton positions |
| LogicDeductionEngine.FindUndeduced | js/utils/LogicDeductionEngine.js:205 | the first position with several candidates |
| LogicDeductionEngine.DeducedElements | js/utils/LogicDeductionEngine.js:208-212 | the elements of the deduced positions |
| LogicDeductionEngine.FindMissing | js/utils/LogicDeductionEngine.js:215-216 | the first candidate not among them |
| LogicDeductionEngine.LogicDeductionEngine.constructor | js/utils/LogicDeductionEngine.js:10-20 | every position may hold every element, nothing eliminated or confirmed, and the engine well formed |
| LogicDeductionEngine.LogicDeductionEngine.Reset | js/utils/LogicDeductionEngine.js:26-37 | the initial state again, well formed |
| LogicDeductionEngine.LogicDeductionEngine.GetConfirmedCount | js/utils/LogicDeductionEngine.js:131-133 | the recorded exact count, 0 when unknown |
| LogicDeductionEngine.LogicDeductionEngine.SetElementCount | js/utils/LogicDeductionEngine.js:140-145 | records the count for that element and changes no other |
| LogicDeductionEngine.LogicDeductionEngine.Eliminate | js/utils/LogicDeductionEngine.js:65-70 | the element is eliminated and deleted from every position |
| LogicDeductionEngine.LogicDeductionEngine.ApplyRule1 | js/utils/LogicDeductionEngine.js:58-72 | the new state is Rule 1's |
| LogicDeductionEngine.LogicDeductionEngine.ConsiderForRule2 | js/utils/LogicDeductionEngine.js:79-105 | one pass of Rule 2's loop adds one element to what Rule 2 has considered |
| LogicDeductionEngine.LogicDeductionEngine.ApplyRule2 | js/utils/LogicDeductionEngine.js:74-106 | the new state is Rule 2's |
| LogicDeductionEngine.LogicDeductionEngine.ApplyRule3 | js/utils/LogicDeductionEngine.js:108-117 | the new state is Rule 3's |
| LogicDeductionEngine.LogicDeductionEngine.AnalyzeGuess | js/utils/LogicDeductionEngine.js:44-124 | keeps the engine well formed, and the new state is the three rules followed by the advanced deductions |
| LogicDeductionEngine.LogicDeductionEngine.RemoveElsewhere | js/utils/LogicDeductionEngine.js:164-168 | the element is deleted from every position but one |
| LogicDeductionEngine.LogicDeductionEngine.DeduceSingletons | js/utils/LogicDeductionEngine.js:155-171 | the new state is Deduction 1's |
| LogicDeductionEngine.LogicDeductionEngine.DeduceSingletonAt | js/utils/LogicDeductionEngine.js:157-170 | one pass of Deduction 1 |
| LogicDeductionEngine.LogicDeductionEngine.DeduceConfirmedPlaces | js/utils/LogicDeductionEngine.js:173-193 | the new state is Deduction 2's, over the confirmed elements in insertion order |
| LogicDeductionEngine.LogicDeductionEngine.DeducePlaceOf | js/utils/LogicDeductionEngine.js:174-192 | one pass of Deduction 2: a confirmed element with a single possible position claims that position |
| LogicDeductionEngine.LogicDeductionEngine.DeduceLastPosition | js/utils/LogicDeductionEngine.js:195-225 | the new state is Deduction 3's |
| LogicDeductionEngine.LogicDeductionEngine.PerformAdvancedDeductions | js/utils/LogicDeductionEngine.js:154-226 | the new state is the advanced deductions' |
| LogicDeductionEngine.LogicDeductionEngine.GetPossibleElements | js/utils/LogicDeductionEngine.js:233-239 | empty outside the code; otherwise the position's candidates, none of them eliminated and all game elements |
| LogicDeductionEngine.LogicDeductionEngine.IsPositionDeduced | js/utils/LogicDeductionEngine.js:246-251 | true exactly for a position in the code with one candidate |
| LogicDeductionEngine.LogicDeductionEngine.GetDeducedPositions | js/utils/LogicDeductionEngine.js:257-265 | exactly the deduced positions, ascending |
| LogicDeductionEngine.LogicDeductionEngine.GetDeducedElement | js/utils/LogicDeductionEngine.js:272-277 | the single candidate of a deduced position, null otherwise |
| LogicDeductionEngine.LogicDeductionEngine.GetAllPossibilities | js/utils/LogicDeductionEngine.js:283-285 | one candidate list per position |
| LogicDeductionEngine.LogicDeductionEngine.GetPossibilityCount | js/utils/LogicDeductionEngine.js:292-297 | the number of candidates, 0 outside the code |
| LogicDeductionEngine.LogicDeductionEngine.IsElementEliminated | js/utils/LogicDeductionEngine.js:304-306 | an eliminated element is a candidate nowhere |
| LogicDeductionEngine.LogicDeductionEngine.IsElementConfirmed | js/utils/LogicDeductionEngine.js:313-315 | membership of the confirmed elements |
| ScoreManager.Max0 | js/managers/ScoreManager.js:60 | the clamp never yields less than 0 or than its argument |
| ScoreManager.Total | js/managers/ScoreManager.js:53-60 | the total is never negative |
| ScoreManager.SpeedBonus | js/managers/ScoreManager.js:41-46 | a bonus exactly below 10 guesses, a penalty exactly above |
| ScoreManager.FinalBreakdown | js/managers/ScoreManager.js:25-51 | 200 per perfect and 100 per close element, 300 for a win, -200 for the hint |
| ScoreManager.SpeedBonusNonIncreasing | js/managers/ScoreManager.js:41-46 | an extra guess never raises the speed bonus |
| ScoreManager.FinalScoreMonotone | js/managers/ScoreManager.js:24-63 | a later finish or the hint never scores more, a win never less |
| ScoreManager.BestFiveElementRound | js/managers/ScoreManager.js:24-63 | a five-element code solved in one guess without hint scores 1975 |
| ScoreManager.OngoingScore | js/managers/ScoreManager.js:163-177 | the running score lies between 0 and 1000 |
| ScoreManager.OngoingScoreMonotone | js/managers/ScoreManager.js:163-177 | the running score falls as guesses are used and never rises with the hint |
| ScoreManager.ScoreManager.constructor | js/managers/ScoreManager.js:4-15 | score 0, hint unused, threshold 500, empty breakdown |
| ScoreManager.ScoreManager.CalculateElementFeedback | js/managers/ScoreManager.js:68-94 | perfect counts the exact matches, perfect + close the common elements |
| ScoreManager.ScoreManager.CalculateFinalScore | js/managers/ScoreManager.js:24-63 | the breakdown for the final guess's feedback, and the score its clamped total |
| ScoreManager.ScoreManager.GetScoreBreakdown | js/managers/ScoreManager.js:99-104 | the breakdown with the current score as total |
| ScoreManager.ScoreManager.CheckHintAvailability | js/managers/ScoreManager.js:128-135 | offered exactly while unused and the score is at least the threshold |
| ScoreManager.ScoreManager.UseSantasHint | js/managers/ScoreManager.js:137-155 | when not offered nothing changes; otherwise the hint is spent and the drawn position of the guess gets the secret's element |
| ScoreManager.ScoreManager.CalculateScore | js/managers/ScoreManager.js:163-177 | the score becomes the running score |
| ScoreManager.ScoreManager.Reset | js/managers/ScoreManager.js:179-182 | score 0 and the hint available again |
| ScoreManager.ScoreManager.GetCurrentScore | js/managers/ScoreManager.js:184-186 | the total the breakdown shows |
| ScoreManager.ScoreManager.IsHintUsed | js/managers/ScoreManager.js:188-190 | a used hint is never offered again |
| ScoreSimulation.SimBreakdown | scripts/score_simulation.js:5-36 | as the score manager's, except that a win without all perfect is credited as all perfect |
| ScoreSimulation.SimulationAgrees | scripts/score_simulation.js:5-36 | whenever a win means an all-perfect guess, the simulation's score is the game's |
| ScoreSimulation.GameRoundsAgree | scripts/score_simulation.js:17-21 | for every real final guess and secret the simulation's formula gives the game's score |
| ScoreSimulation.ForcedCorrectionDiffers | scripts/score_simulation.js:17-21 | a won round with three perfect and two close is credited 1000 element points instead of 800 |
| ScoreSimulation.RunSimulation | scripts/score_simulation.js:38-51 | 504 rows: every guess count 3 to 14, every (perfect, close) pair with perfect + close at most 5, without and then with the hint, each point at the row `RowIndex` names in loop order, each scored by the formula |
| GameStateManager.OrDefault | js/managers/GameStateManager.js:16-17 | a missing or zero registry value gives the fallback |
| GameStateManager.GameStateManager.constructor | js/managers/GameStateManager.js:4-13 | the game elements, length 4, 10 guesses, no secret, no win |
| GameStateManager.GameStateManager.InitializeGameState | js/managers/GameStateManager.js:15-22 | length and limit from the registry or their defaults, all guesses left, a fresh secret of that length drawn element by element; no guess counted yet, so the game is over only for a limit of 0 or less |
| GameStateManager.GameStateManager.ProcessGuess | js/managers/GameStateManager.js:24-48 | the guess's feedback, one guess spent, a win exactly when the guess is the secret, and the flags set; counting the guesses since initialisation or reset, `isGameOver` holds exactly once they reach the limit |
| GameStateManager.GameStateManager.GetGameStats | js/managers/GameStateManager.js:66-75 | code length, guess limit, guesses left and both flags as stored, with a copy of the secret |
| GameStateManager.GameStateManager.Reset | js/managers/GameStateManager.js:77-82 | all guesses back and the guess count restarted, a new secret of the same length whose every element is the one its draw picks, both flags cleared |
| GameStateManager.WinMeansSecretGuessed | js/managers/GameStateManager.js:31 | a guess of the code length wins exactly when it is the secret, and then scores no white peg |
| GameStateManager.OnlySecretWins | js/managers/GameStateManager.js:50-52 | once a secret of the code length is drawn, `isGameWon` holds for a full-length guess's feedback exactly when the guess is the secret |
| GameStateManager.GameStateManager.GetSecretCode | js/managers/GameStateManager.js:58-60 | the returned code is the one guess of the code length that wins |
| GameStateManager.GameStateManager.GetGameElements | js/managers/GameStateManager.js:62-64 | six distinct elements |
| HistoryScroller.TotalRows | js/managers/HistoryScroller.js:105 | the guesses plus the active row |
| HistoryScroller.CalculateScrollParameters | js/managers/HistoryScroller.js:87-102 | rows of 60 pixels, header and margin by screen width, and as many whole rows as fit |
| HistoryScroller.CalculateMaxScrollOffset | js/managers/HistoryScroller.js:104-108 | the overflow of the rows beyond the visible ones, never negative |
| HistoryScroller.Clamp | js/managers/HistoryScroller.js:76 | a value within range is kept and any result lies within range |
| HistoryScroller.ClampEdges | js/managers/HistoryScroller.js:76 | scrolling past either end stops there, and clamping twice is clamping once |
| HistoryScroller.MaxOffsetMonotone | js/managers/HistoryScroller.js:104-108 | one more guess never lowers the maximum offset, and raises it by one row once the rows overflow |
| HistoryScroller.HistoryScroller.constructor | js/managers/HistoryScroller.js:4-13 | offset 0, not dragging |
| HistoryScroller.ValidatedOffset | js/managers/HistoryRenderer.js:11-35 | the renderer hands back offset 0 both for an empty history and after drawing the rows |
| HistoryScroller.HistoryScroller.ScrollHistory | js/managers/HistoryScroller.js:67-85 | nothing changes with no rows; otherwise the offset first moves by the delta clamped to 0 and the maximum, and the refresh that follows leaves the renderer's validated offset, 0 |
| HistoryScroller.HistoryScroller.AutoScrollToNewest | js/managers/HistoryScroller.js:110-121 | jumps to the maximum offset when the rows overflow, otherwise keeps the offset |
| HistoryScroller.HistoryScroller.PointerDown | js/managers/HistoryScroller.js:40-43 | a drag starts at the pointer |
| HistoryScroller.HistoryScroller.PointerMove | js/managers/HistoryScroller.js:45-56 | while dragging, a move of more than 10 pixels scrolls by minus a twentieth of it (clamped, then reset to the renderer's offset 0 by the refresh) and restarts the drag there |
| HistoryScroller.HistoryScroller.PointerUp | js/managers/HistoryScroller.js:58-64 | the drag ends and the offset stays |
| HistoryScroller.HistoryScroller.GetScrollOffset | js/managers/HistoryScroller.js:179-181 | the offset is never negative, whatever came before |
| HistoryScroller.HistoryScroller.SetScrollOffset | js/managers/HistoryScroller.js:183-185 | the offset is never negative |
| HistoryScroller.HistoryScroller.Reset | js/managers/HistoryScroller.js:187-196 | offset 0 and no drag |
| ActiveRowManager.PrefilledRow | js/managers/ActiveRowManager.js:22-29 | one slot per position, the first ones holding the prefill and the rest empty |
| ActiveRowManager.Select | js/managers/ActiveRowManager.js:270-272 | the named slot holds the element; a slot past the end grows the row with holes between |
| ActiveRowManager.SelectNeverEmpties | js/managers/ActiveRowManager.js:270-272 | a pick never makes a complete row incomplete, and a pick inside the row fills its slot |
| ActiveRowManager.FullPrefillIsComplete | js/managers/ActiveRowManager.js:22-29 | a row prefilled with a whole guess can be submitted at once |
| ActiveRowManager.PastEndSelectLeavesHole | js/managers/ActiveRowManager.js:405-416 | a pick past the end of a complete row passes the null test while holding an undefined entry |
| ActiveRowManager.CalculateSlotPositioning | js/managers/ActiveRowManager.js:165-182 | slot width and spacing by screen size, and the row centred when it fits with 15-pixel margins, at 15 otherwise |
| ActiveRowManager.ActiveRowManager.constructor | js/managers/ActiveRowManager.js:4-14 | no row and an empty buffer |
| ActiveRowManager.ActiveRowManager.CreateActiveRow | js/managers/ActiveRowManager.js:16-45 | a row is active and its buffer is the prefilled row |
| ActiveRowManager.ActiveRowManager.SelectElement | js/managers/ActiveRowManager.js:270-280 | the buffer takes the element, and a TypeError exactly when no row is active |
| ActiveRowManager.ActiveRowManager.SubmitActiveRowGuess | js/managers/ActiveRowManager.js:405-416 | a guess exactly when a row is active with no empty slot; the row is then removed, otherwise kept |
| ActiveRowManager.ActiveRowManager.GetActiveRowGuess | js/managers/ActiveRowManager.js:418-420 | the buffer exactly while a row is active |
| ActiveRowManager.ActiveRowManager.RemoveActiveRow | js/managers/ActiveRowManager.js:422-455 | no row afterwards, and the buffer emptied when there was one |
| ActiveRowManager.ActiveRowManager.Reset | js/managers/ActiveRowManager.js:457-460 | no row afterwards |
| HistoryManager.HistoryManager.constructor | js/managers/HistoryManager.js:4-13 | empty histories, a fresh scroller at offset 0 and no active row |
| HistoryManager.HistoryManager.AddGuess | js/managers/HistoryManager.js:63-75 | the guess and feedback appended in step, the last guess the new one; the auto-scroll jumps to the newest row, and the refresh that follows leaves the offset at the renderer's 0 |
| HistoryManager.HistoryManager.RefreshDisplay | js/managers/HistoryManager.js:77-98 | the scroller stores the renderer's validated offset, so every refresh leaves the offset at 0 |
| HistoryManager.HistoryManager.GetGuessCount | js/managers/HistoryManager.js:101-103 | the length of the history |
| HistoryManager.HistoryManager.GetGuessHistory | js/managers/HistoryManager.js:105-107 | as many guesses as feedback entries |
| HistoryManager.HistoryManager.GetFeedbackHistory | js/managers/HistoryManager.js:109-111 | one feedback entry per guess |
| HistoryManager.HistoryManager.GetLastGuess | js/managers/HistoryManager.js:113-115 | null exactly for an empty history, otherwise the latest guess |
| HistoryManager.HistoryManager.Reset | js/managers/HistoryManager.js:118-125 | empty histories, the scroller reset and no active row |
| ThemeConfig.ToLower | js/config/ThemeConfig.js:204 | lowering leaves no capital and keeps whitespace whitespace |
| ThemeConfig.NormalizeClean | js/config/ThemeConfig.js:204 | a normalised name is no longer than the name and holds neither whitespace nor capitals |
| ThemeConfig.Normalize | js/config/ThemeConfig.js:204 | the normalised name is no longer than the name |
| ThemeConfig.NormalizeAppend | js/config/ThemeConfig.js:204 | normalising works piece by piece |
| ThemeConfig.NormalizeFixed | js/config/ThemeConfig.js:204 | a name already in normal form is unchanged |
| ThemeConfig.NormalizeHead | js/config/ThemeConfig.js:204 | a visible first character stays in front, lowered |
| ThemeConfig.NormalizeIdempotent | js/config/ThemeConfig.js:204-207 | normalising twice is normalising once |
| ThemeConfig.FindAssetBase | js/config/ThemeConfig.js:206-210 | none exactly when no element matches by normalised name or id |
| ThemeConfig.ElementAssetBase | js/config/ThemeConfig.js:201-211 | none exactly when no element of the theme matches the normalised name |
| ThemeConfig.NormalizeCandyWords | js/config/ThemeConfig.js:204 | "Candy" and " Cane" lowered and stripped |
| ThemeConfig.NormalizeCandyCane | js/config/ThemeConfig.js:204 | "Candy Cane" normalises to "candycane" |
| ThemeConfig.FindCandyCane | js/config/ThemeConfig.js:206-210 | the Christmas lookup of "candycane" finds its asset |
| ThemeConfig.CandyCaneLookup | js/config/ThemeConfig.js:201-211 | spacing and capitals do not matter: the display name finds the asset |
| ThemeConfig.CandyCaneIdLookup | js/config/ThemeConfig.js:201-211 | the id finds it too |
| ThemeConfig.HeadMismatch | js/config/ThemeConfig.js:206-209 | an element whose name and id start differently from the wanted name does not match |
| ThemeConfig.NoChristmasElementStartsWithM | js/config/ThemeConfig.js:16-80 | no Christmas element normalises to a word starting with m |
| ThemeConfig.MistletoeHasNoAsset | js/utils/GameUtils.js:42 | the game's "Mistletoe" has no asset in the Christmas theme |
| ThemeConfig.BuiltInThemesWellFormed | js/config/ThemeConfig.js:12-159 | both built-in themes pass validation |
| ThemeConfig.ThemeConfig.constructor | js/config/ThemeConfig.js:4-12 | the Christmas theme is active and only it is offered for cycling |
| ThemeConfig.ThemeConfig.GetCurrentTheme | js/config/ThemeConfig.js:170-172 | the active theme, or Christmas when the id is unregistered |
| ThemeConfig.ThemeConfig.SetTheme | js/config/ThemeConfig.js:179-187 | switches exactly to a registered theme and reports whether it did |
| ThemeConfig.ThemeConfig.GetElements | js/config/ThemeConfig.js:193-195 | the active theme's display names, in order |
| ThemeConfig.ThemeConfig.GetElementAssetBase | js/config/ThemeConfig.js:201-211 | the lookup against the active theme |
| ThemeConfig.ThemeConfig.GetFeedbackAssetBase | js/config/ThemeConfig.js:219-222 | the symbol's asset base, null exactly when the theme has no such symbol |
| ThemeConfig.ThemeConfig.GetAudioPath | js/config/ThemeConfig.js:245-253 | "" for an unknown or empty audio file, otherwise the file under the theme's audio directory |
| ThemeConfig.ThemeConfig.GetAssetPath | js/config/ThemeConfig.js:261-264 | directory, asset base, underscore, resolution ("1x" by default) and ".png", each in its place |
| ThemeConfig.ThemeConfig.GetAvailableThemes | js/config/ThemeConfig.js:270-273 | a non-empty list of registered themes |
| ThemeConfig.ThemeConfig.GetThemeInfo | js/config/ThemeConfig.js:280-289 | null exactly for an unregistered id, otherwise its id and names |
| ThemeConfig.ThemeConfig.ValidateTheme | js/config/ThemeConfig.js:296-329 | valid exactly when there is no error; one error for an unknown id, otherwise exactly the failed checks in order: element count, feedback, colours |
| ThemeManager.NextInRotation | js/utils/ThemeManager.js:56-61 | a theme not in the list is followed by the first one |
| ThemeManager.ModWrap | js/utils/ThemeManager.js:60 | the source's remainder on an index up to the length |
| ThemeManager.NextIsModular | js/utils/ThemeManager.js:56-61 | the next theme is the modular successor, always one of the list |
| ThemeManager.NextOfListed | js/utils/ThemeManager.js:56-61 | on a list without repeats each theme is followed by the next, the last by the first |
| ThemeManager.RotationCycles | js/utils/ThemeManager.js:56-61 | the rotation walks the list in order and wraps round |
| ThemeManager.RotationReturns | js/utils/ThemeManager.js:68-72 | cycling visits every theme within one pass and returns to the start after exactly one |
| ThemeManager.GetNextTheme | js/utils/ThemeManager.js:56-61 | the successor of the active theme; with one theme offered, always "christmas" |
| ThemeManager.SwitchTheme | js/utils/ThemeManager.js:33-50 | switches exactly to a theme that passes validation, that is a built-in one |
| ThemeManager.CycleTheme | js/utils/ThemeManager.js:68-72 | switches to the next theme and returns it |
| ThemeManager.GetAllThemeInfo | js/utils/ThemeManager.js:116-120 | the info of every theme offered, none of it null |
| ThemeManager.MissingElementAssets | js/utils/ThemeManager.js:136-141 | empty exactly when every element names an asset |
| ThemeManager.ThemeAssetReport | js/utils/ThemeManager.js:134-154 | a TypeError exactly when a feedback symbol is absent; otherwise complete exactly when nothing is missing |
| ThemeManager.MissingFeedbackAsset | js/utils/ThemeManager.js:143-149 | the symbol is reported exactly when its asset base is empty |
| ThemeManager.CheckThemeAssets | js/utils/ThemeManager.js:128-155 | "Theme not found" for an unknown id, otherwise the theme's report |
| ThemeManager.CollectMissingElements | js/utils/ThemeManager.js:136-141 | the loop reports exactly the elements without an asset |
| ThemeManager.BuiltInAssetsComplete | js/utils/ThemeManager.js:128-155 | both built-in themes are complete |
| ThemeManager.ChristmasAssetsComplete | js/utils/ThemeManager.js:128-155 | the Christmas theme is complete |
| ThemeManager.HalloweenAssetsComplete | js/utils/ThemeManager.js:128-155 | the Halloween theme is complete |
| ThemeManager.GetThemeDisplayName | js/utils/ThemeManager.js:217-220 | the registered theme's name, "Unknown Theme" otherwise |
| ThemeManager.Initialize | js/utils/ThemeManager.js:9-25 | a saved theme is restored exactly when non-empty, offered and registered |

## Left out

- Loading and saving `tasks.json`, the `startedAt`, `completedAt` and `lastUpdated` timestamps, and the `activeTask` and `nextTask` text of `get_task_summary` (scripts/task_manager.py:122-145) and of the helper functions (lines 168-190): file I/O and text formatting.
- The wording of validation messages: issues are values of a datatype. An unsatisfied dependency carries the task's key and the dependency id; the several-CURRENT issue carries the records' `id` fields.
- The markdown status and task list of scripts/task_status.py (lines 30-68) and its command-line entry point: text generation and I/O.
- TaskData.RoundHalfEven: rounds the exact ratio. Python rounds the floating-point value `(completed / total) * 100`, which can land on the other side of a tie (23 of 40 gives 57 in Python and 58 here).
- TaskData.ProjectData.constructor: requires every dependency to name a task. The scripts would raise KeyError on a dangling dependency, and that path is not modelled.
- TaskManager.TaskManager.UpdateCurrentState: requires at least one task. Its only caller, `complete_task`, has just found one; an empty registry would divide by zero.
- Extra fields of a task record (title, description and so on): they are carried by the JSON but no modelled operation reads them.
- GameUtils.GenerateRandomCode: requires a non-empty element list. With none the source fills the code with `undefined`; the game always passes its six elements.
- GameUtils.FeedbackOf: the clamp of white at 0 is never taken (CommonCountSplits), so it changes nothing.
- `getDepthLayers` (js/utils/GameUtils.js:45-55): rendering order only.
- ConstraintSolver.ConstraintSolver.GetValidChoices: requires at least as many feedbacks as guesses, as do GetPossibleCodesCount, GetRemainingCodes and FilterByHistory. With fewer, the source reads `undefined.black` and throws a TypeError.
- The console logging of every module, and the `logState` debug dump of the deduction engine.
- The deduction engine's Deduction 1 ignores repeated elements (LogicDeductionEngine.RepeatedElementLost). The model reproduces this and proves no soundness claim for the heuristic engine; the exhaustive solver is the sound one (ConstraintSolver.ChoicesSound, ConstraintSolver.ChoicesComplete).
- `Object.keys` lists integer-like keys first. Element names are words, so the guess tally is modelled in first-seen order.
- ScoreManager.ScoreManager.UseSantasHint: requires a non-empty secret and a guess buffer of the same length. With an empty secret the source writes `undefined` into the guess.
- Button styles and texts set by `checkHintAvailability` and `useSantasHint`, and `generateShareText` and `updateScoreDisplay`: user interface text.
- The per-bucket statistics, 50-point bins and console tables of `runSimulation` (scripts/score_simulation.js:53-90): aggregation for display. The rows they are computed from are modelled.
- GameStateManager.GameStateManager.InitializeGameState: the registry values and random draws are passed in; the scene registry itself is not modelled.
- Sprites, slot graphics, the element picker, touch feedback and the row's vertical position (`calculateActiveRowPosition`, `updateActiveRowPosition`, `scrollToActiveRow` in both managers): rendering.
- The drawing done by `HistoryRenderer.displayGuessHistory` (only the offset it returns is modelled), and the HistoryManager methods that only forward to the active-row manager, including `fillActiveRowWithElements`: rendering. Its `scrollHistory` and `getScrollOffset` only forward to the scroller and are modelled there.
- HistoryScroller.HistoryScroller.PointerMove: positions are exact reals, not floating point.
- `toLowerCase` is modelled for ASCII letters only. Non-ASCII capitals are left as they are, which changes no lookup of the built-in names.
- ThemeConfig.ThemeConfig.ValidateTheme: checks colours for presence only, not for a non-empty value. The backgrounds and audio checks always pass, because a theme record always has both.
- ThemeConfig.ThemeConfig.GetFeedbackAssetBase: looks symbols up in the theme's own table only. JavaScript would also find inherited object properties such as `constructor`.
- ThemeConfig.ThemeConfig.SetTheme: accepts registered theme ids only. JavaScript's `themes[themeId]` also finds inherited object properties, so `setTheme("constructor")` returns true and makes that name the current theme.
- ThemeConfig.ThemeConfig.GetThemeInfo: null for every unregistered id. For an inherited property name such as `constructor`, JavaScript returns an object whose name is "Object".
- ThemeConfig.ThemeConfig.ValidateTheme: gives [NotFound] for every unregistered id. For an inherited property name such as `constructor`, JavaScript finds a value and reports all five checks as failed.
- ThemeConfig.ThemeConfig.GetAudioPath: looks audio types up in the theme's own table only. For an inherited property name such as `constructor`, JavaScript finds a function and returns a non-empty path.
- ThemeManager.CheckThemeAssets: reports "Theme not found" for every unregistered id. For an inherited property name such as `constructor`, JavaScript finds a value without `elements` and throws a TypeError.
- ThemeManager.GetThemeDisplayName: gives "Unknown Theme" for every unregistered id. For an inherited property name such as `constructor`, JavaScript gives "Object".
- `getColors`, `getBackgrounds`, `getThemeColorPreview`, `emitThemeChangeEvent` and `switchThemeWithReload`: display helpers and a page reload.
- Saving and clearing the theme preference in local storage: the saved value is a parameter of `Initialize`.
- "Mistletoe", one of the game's elements, has no Christmas asset (ThemeConfig.MistletoeHasNoAsset). The model states this and does not change either list.
