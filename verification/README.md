# Tales: the engine and its cores

Tales runs declarative test suites: scenarios made of steps in file order, retries, keyword calls,
teardown, hooks, parallel scenarios under a deadline, and matchers over JSON values. This project
models the parts of it that decide what runs and what is reported, and proves what they promise.

* `Model`, `Refs`: the loaded suite, and the load-time checks of step order and step variables.
* `Engine`: one step. Retries, keyword calls into a fresh state, the keyword call stack and seed scope,
  as functions over an oracle that answers for providers and expressions. Every answer may depend on
  everything that happened before.
* `Scenarios`, `Lifecycle`: the step phase, hooks, teardown and suite teardown, over the same oracle.
* `StepRunner`, `ScenarioRunner`: the runner in its own form, objects updated by loops, proved equal to
  those functions. Go's map iteration order is an arbitrary choice there.
* `SuiteRun`, `LiveTracker`: the parallel run as a transition system over its goroutines, and the
  tracker behind its stalled list.
* `Report`: results, JUnit counting, and the exit status.
* `SkipRules`, `Matcher`, `Deprecation`, `Order`, `Seeds`, `Xorshift` and `Rand`, `Canonical`,
  `Workspace`, `Totp`: the smaller cores.
* `Wrappers`, `Sorting`, `Decimal`: shared vocabulary and library routines (`sort`, `fmt`).

Where the code and its own prose disagree, the model follows the code and a lemma marks the place:

* `required(...)` is called a no-op (README.md:580); it is one exactly on expectations that do not
  tolerate a missing key (`Matcher.RequiredIsNoOpExactly`, and among other fields
  `Matcher.RequiredInContext`).
* Structural matching identifies lists with tuples and objects with maps, except that a map-typed
  expected value is compared with its type: headers taken from an earlier mail step
  (internal/provider/mail/response.go:166-177) do not match the same headers parsed from JSON.
  `Matcher.MatchIsTreeMatchExactly` says that this is the only exception.
* Reordering steps is said never to drop or duplicate one when source keys repeat
  (internal/parser/order.go:76-81). That holds for every body the parser decodes
  (`Order.DecodedStepsAreKept`); for a source list that does not come from the decoded body it can fail
  (`Order.DuplicateSourceDropsAStep`), and `Order.PermutesExactly` says when.
* A keyword call made by a step with an empty name leaves no trace in the seed stream
  (`Seeds.EmptyCallerIsInvisible`).
* Validated step lists are acyclic exactly when no name can be referred to before its step
  (`Refs.AcyclicExactly`). Both callers of the validation see to that: the loader allows nothing external
  and no repeated name (`Refs.LoadedStepsAreAcyclic`), and a keyword call refuses names of its caller
  first (`Engine.KeywordStepsAreAcyclic`).
* Expressions the collectors skip may read unbound variables (`Refs.UncollectedMayBeUnbound`); a validated
  step is safe exactly when they do not (`Refs.AllUsesBoundExactly`).
* Results are promised not to depend on parallel execution (README.md:594-595). That holds for scenarios
  that end before the context fires; all results are independent of the schedule exactly when no result
  depends on being caught by it (`SuiteRun.ResultsVaryOnlyByFiring`).
* The stalled list is documented as the scenarios in flight at the exact moment of the deadline
  (internal/runtime/live_tracker.go:115-127). It covers those in every run exactly when scenario names are
  distinct, as the loader requires, or scenarios run one at a time (`SuiteRun.CoverageExactly`). It can hold
  more: what starts between the deadline and the watcher's look, since a waiting scenario starts without
  reading the context, and what had read the context but not yet ended. `SuiteRun.StalledAtTheDeadline`
  says when it is exact, `SuiteRun.LateStarterIsListed` shows that it need not be.
* Hooks are documented to be ended also when their own begin fails (internal/provider/scenario_hook.go:38-42);
  that hook is not, only the ones that began before it (`Lifecycle.HooksAreBracketed`).

## Model

| member | source | states |
|---|---|---|
| Engine.ExecuteStep | internal/runtime/runner.go:557-598 | For every suite, including cyclic and dynamically named calls, a step ends; it passes or fails; passing changes the caller's results at its own name only, failing changes nothing and gives a detail; between 1 and the allowed number of attempts |
| Engine.CallShrinks | internal/runtime/runner.go:1574-1599 | The termination measure: entering a keyword strictly shrinks the set of non-empty keywords whose step names are all still free |
| Engine.EnterKeyword | internal/runtime/runner.go:1488-1507 | A call that passes the checks enters a keyword that is not on the call stack, and everything inside it is accounted to the calling step |
| Engine.CallStackBounded | internal/runtime/runner.go:1435-1537 | At every moment of every run no keyword is inside itself, calls nest no deeper than there are keywords, and the seed scope is the calling steps' names in order |
| Engine.CallError | internal/runtime/runner.go:1468-1493 | A keyword's steps are run exactly when the keyword exists, has its inputs, takes no name of the caller's state, and is in order there |
| Engine.KeywordAttempt | internal/runtime/runner.go:1435-1493 | In terms of what the evaluator answers: a keyword attempt needs a call block, its variables, an answer to what is called, a known keyword with its inputs, free step names and ordered steps, in this order of checking; lacking one it fails for it, having logged only what it had evaluated; else the call runs |
| Engine.CallRunsTheKeyword | internal/runtime/runner.go:1495-1537 | The call runs the steps in turn from the caller's results; it fails with the failing step's failure, or when the outputs cannot be evaluated; a passing one stores exactly what the outputs evaluated to in what the steps left, a failing one nothing |
| Engine.CallCarriesInputs | internal/runtime/runner.go:1501-1507 | What happens directly inside a call carries the call's inputs, its frame, and the caller's seed scope with the calling step pushed |
| Engine.KeywordSteps | internal/runtime/runner.go:1601-1630 | Running a keyword's steps keeps the key set of its state and changes only its own steps' results |
| Engine.KeywordStepsTakeTurns | internal/runtime/runner.go:1606-1627 | Every step of a keyword gets its turn, in order, until one fails: it is passed over because its when, asked at that moment, does not hold, or run with its first attempt logged, and hands on what it left; no failure is reported exactly when all have had their turn and none failed, otherwise the failing one's |
| Engine.KeywordStepsAreReached | internal/runtime/runner.go:1606-1627 | The same in the log: for each step up to the failing one, or for all, a when check answered otherwise than that it holds, or the first attempt after one that holds, at increasing positions; the failure names the last of them; nothing happens at the site of a later step |
| Engine.KeywordStepsCompose | internal/runtime/runner.go:1606-1627 | So the tail of the list runs from what the head left, and only if that did not fail |
| Engine.ProviderStepsRetry | internal/runtime/runner.go:557-586 | For a provider step the engine's attempts are the plain retry loop |
| Engine.AttemptsAreNumbered | internal/runtime/runner.go:563-585 | The attempts of any step, keyword steps with calls nested in their attempts included, are numbered without a gap at one unchanging site, with a pause between any two when one is configured; an extra pause shows only when it was cut short and failed the step |
| Engine.KeywordStepAddsNoOwn | internal/runtime/runner.go:1435-1537 | Whatever a keyword attempt runs, the calling step neither attempts nor pauses meanwhile |
| Engine.ProviderLogIsTrace | internal/runtime/runner.go:563-585 | A provider step logs nothing else |
| Engine.RetryStopsAtSuccess | internal/runtime/runner.go:563-585 | Any step is a chain of failed attempts that leave the results alone, each started on its predecessor's log and pause, and a last one that passed, used up the attempts, or whose pause was cut short; the last one's result, stored value and log are the step's |
| Engine.ProviderSuccessIsFinal | internal/runtime/runner.go:563-585 | In terms of a provider's answers: only the last can be a success, and it is what is stored; a failure reports the last answer, or the interrupted pause |
| Engine.FailingProviderIsAskedAsWritten | internal/runtime/runner.go:731-742 | A provider that never succeeds is asked exactly as often as the retry block says, once without one or below one, with pauses exactly for a positive interval, and the last answer is the failure |
| StepRunner.Runner.ExecuteStepInPhase | internal/runtime/runner.go:557-598 | The retry loop over mutable state does what Engine.ExecuteStep says, and the evaluator's seed scope is what it was, on every path |
| StepRunner.Runner.ExecuteStepAttempt | internal/runtime/runner.go:631-729 | One attempt, provider or keyword, leaves state, log and seed scope as Engine.AttemptStep says: a result written only if it passes |
| StepRunner.Runner.ExecuteKeywordStep | internal/runtime/runner.go:1435-1470 | A keyword attempt up to the evaluated call, with its error exits |
| StepRunner.Runner.CallEvaluated | internal/runtime/runner.go:1466-1537 | The rest of the call: checks, fresh state, pushed and restored seed scope, outputs written to the caller only on success |
| StepRunner.Runner.NewKeywordState | internal/runtime/runner.go:1574-1599 | The keyword's state holds the outer results and empty results for its own steps; the first colliding step is named |
| StepRunner.Runner.ExecuteKeywordSteps | internal/runtime/runner.go:1601-1630 | The loop over a keyword's steps does what Engine.KeywordSteps says, that is, gives each step its turn as Engine.KeywordStepsTakeTurns describes, and does nothing when the steps are out of order |
| StepRunner.Evaluator.PushSeedScope | internal/lang/eval.go:79-89 | Pushing joins with a NUL, and hands back exactly what restoring needs |
| StepRunner.ScenarioState.SetStepResult | internal/runtime/context.go:63-68 | Exactly one result changes |
| Scenarios.StepPhaseConsistent | internal/runtime/runner.go:446-551 | After any number of steps of any scenario: one result per step in file order, passes and skips then at most one failure then only skips, the tracker's sets are the failed and skipped names, and the scenario's status and detail are the failing step's |
| Scenarios.NotAskedAbout | internal/runtime/runner.go:446-457 | A step with a failed or skipped dependency, and any step after a failure, is skipped for that reason and nothing is evaluated for it |
| Scenarios.LoudRuleDecides | internal/runtime/runner.go:459-463 | Otherwise the first of its rules that is not quiet skips it for the rule's reason, or fails it and the scenario with what is wrong with the rule; nothing else is evaluated |
| Scenarios.WhenDecides | internal/runtime/runner.go:465-475 | With all rules quiet its when is asked next: it is skipped for a false one if and only if the answer is false, for a broken one if and only if it cannot be evaluated, and attempted if and only if there is no when or the answer is that it holds |
| Scenarios.ResultsStay | internal/runtime/runner.go:438-488 | Later steps never rewrite earlier results, and a failed scenario stays failed |
| Scenarios.OnlyPassesWriteResults | internal/runtime/runner.go:446-488 | A name keeps its initial result unless a step of that name passed |
| Scenarios.FailureSilencesTheRest | internal/runtime/runner.go:453-457 | After the first failure nothing more happens in the phase: no rule, no when, no provider, no result |
| Scenarios.TransitiveDependenciesPassed | internal/runtime/tracker.go:51-66 | A step that gets to run had every step it transitively depends on pass |
| Scenarios.ReachedOnlyIfDependenciesPassed | internal/runtime/runner.go:446-488 | No provider is attempted on behalf of a step, even from inside keywords, unless all its transitive dependencies passed |
| Scenarios.SkippedExactly | internal/runtime/runner.go:446-551 | In a run without failures a step is skipped if and only if on a dependency path from it there is a step, itself included, whose first rule that is not quiet skips it, or whose rules are quiet and whose when is answered otherwise than that it holds |
| ScenarioRunner.DepTracker.DependencyBlocker | internal/runtime/tracker.go:51-66 | Some failed or skipped dependency, when there is one, in whatever order the map is visited |
| ScenarioRunner.RunOneStep | internal/runtime/runner.go:446-488 | One step over mutable state does what the specification says, up to which blocker a cascaded skip names; and the blocker it names ended that way |
| ScenarioRunner.Record | internal/runtime/runner.go:494-551 | A recorded result, the tracker and the scenario's status and detail stay in step |
| ScenarioRunner.RunScenario | internal/runtime/runner.go:240-352 | Statuses, failures, results and everything done do not depend on map iteration order; only the reason text of a cascaded skip may, and the reason given is true |
| ScenarioRunner.ApplyScenarioSkip | internal/runtime/skip.go:22-48 | The scenario's own rules skip it, fail it with kind skip, or leave it alone |
| ScenarioRunner.EvaluateGates | internal/runtime/runner.go:459-473 | Skip rules before when, each deciding as Scenarios.LoudRuleDecides and Scenarios.WhenDecides say: a broken rule fails the step, a when that cannot be evaluated skips it |
| ScenarioRunner.ExecuteTeardownStepInPhase | internal/runtime/runner.go:806-814 | A teardown step over mutable state does what Lifecycle.TeardownStep, characterised by Lifecycle.TeardownWhenDecides, says |
| ScenarioRunner.RunScenarioTeardown | internal/runtime/runner.go:336-347 | Every teardown step is run and recorded; the first failure there fails a scenario that had passed |
| ScenarioRunner.RunSuiteTeardown | internal/runtime/suite_teardown.go:29-87 | The suite teardown, workspace failure included, does what the specification says |
| ScenarioRunner.EndHooks | internal/runtime/runner.go:277-290 | The hooks that began are ended last begun first |
| Lifecycle.ResultShape | internal/runtime/runner.go:240-352 | A scenario result either ended before its steps, or has one entry per step and per teardown step, in file order, halting at the first failure; its teardown failures are those of its failed teardown steps |
| Lifecycle.ScenarioRulesDecide | internal/runtime/skip.go:22-48 | Without a workspace nothing happens; the first of the scenario's rules that is not quiet ends it, skipped for its reason or failed with kind skip, before any hook; with none the hooks begin |
| Lifecycle.RefusingHookDecides | internal/runtime/runner.go:305-317 | Hooks are asked in order; the first that refuses fails the scenario with its text before any step, those before it being ended |
| Lifecycle.BegunHooksDecide | internal/runtime/runner.go:319-332 | When none refuses the steps follow, unless one refers to itself |
| Lifecycle.FailureIsFirstFailedStep | internal/runtime/runner.go:332-347 | The scenario's failure is the detail of its first failed step, teardown included; only a broken skip rule or a refusing hook fails a scenario that ran no step |
| Lifecycle.CaseShowsTheFailure | internal/report/junit.go:86-141 | The step a JUnit failure shows is the one the scenario's failure is about |
| Lifecycle.TeardownReportsAll | internal/runtime/suite_teardown.go:52-67 | A teardown reports on all its steps whatever fails, and collects exactly the failures of those that failed |
| Lifecycle.TeardownWhenDecides | internal/runtime/runner.go:806-814 | Its when, asked first, decides about a teardown step: false skips it, one that cannot be evaluated skips it, and it is attempted if and only if there is none or it holds |
| Lifecycle.TeardownTakesTurns | internal/runtime/runner.go:336-347 | Every teardown step gets its turn in order on what the ones before it left, whatever became of them, and its result is what is reported |
| Lifecycle.HooksAreBracketed | internal/runtime/runner.go:264-318 | On every path the hooks that began, and no others, are ended once each in reverse order; a hook whose begin failed is not ended; a skipped scenario touches none |
| Lifecycle.StepsThenHooksThenTeardown | internal/runtime/runner.go:332-347 | What happens before the hooks are ended belongs to the scenario's steps, what happens after to its teardown steps, in the teardown phase except inside keyword calls |
| Lifecycle.TeardownFailureHasStep | internal/runtime/suite_teardown.go:29-87 | A suite-teardown failure never comes without a recorded step; a workspace that cannot be made is one failed step and one failure, and runs nothing |
| Lifecycle.WholeRunReportsAgree | internal/report/junit.go:147-170 | Over whole runs the JUnit failure count is positive exactly when the command fails, and the tests attribute counts the scenarios and the teardown |
| Report.Failed | internal/report/report.go:167-179 | True exactly when a scenario failed or the suite teardown did |
| Report.FindFirstFailedStep | internal/report/junit.go:232-246 | The earliest failed step, steps before teardown, or none when none failed |
| Report.WriteJUnit | internal/report/junit.go:42-67 | One case per scenario in order telling its status and first failed step, one more for a recorded suite teardown, and counters that count the cases |
| Report.CountersCount | internal/report/junit.go:42-67 | The counters are the numbers of cases with a failure and with a skip |
| Report.FirstMessageIsShown | internal/report/junit.go:172-180 | The teardown case shows the first message that says something, or the default when none does |
| Report.ReportsAgreeExactly | internal/report/junit.go:147-170 | The failure count and Failed agree, except exactly when a teardown failed with no step recorded and every scenario was fine |
| SuiteRun.RunsKeepInvariant | internal/runtime/runner.go:136-198 | In every interleaving permits count the holders, the slot of a scenario that has run holds its result as it was returned, or nothing for an error, and the others nothing, the first error is one that happened, cleanup comes after all, and the tracker holds only scenarios that started and did not end in time |
| SuiteRun.AtMostParallel | internal/runtime/runner.go:80-82 | At most Parallel scenarios, one when it is not positive, are past the semaphore at once |
| SuiteRun.ParallelIsReached | internal/runtime/runner.go:123-145 | And in some interleaving that many are, when there are that many scenarios |
| SuiteRun.NeverStuck | internal/runtime/runner.go:123-198 | Until the run returns some move is possible without the context firing, the last receive included |
| SuiteRun.RunsAreBounded | internal/runtime/runner.go:123-198 | Every interleaving is finite: at most eight moves a scenario and six more |
| SuiteRun.SlotsHoldOutcomes | internal/runtime/runner.go:152-153 | In a complete run a slot holds r if and only if the scenario returned r, and nothing if and only if it returned an error |
| SuiteRun.ScheduleIndependent | README.md:594-595 | Two complete runs, however interleaved and whatever their parallelism, agree on the result of every scenario that ends before the context fires in both, and it is r if and only if running the scenario undisturbed returns r |
| SuiteRun.UndisturbedRunsAgree | internal/runtime/runner.go:136-154 | So when neither run is disturbed the whole result lists agree, and so does whether there was an error |
| SuiteRun.ResultsVaryOnlyByFiring | internal/runtime/runner.go:136-154 | Over all complete runs the result lists are the same if and only if every scenario, however caught by the firing context, returns what it returns undisturbed, or an error both times |
| SuiteRun.ErrorShows | internal/runtime/runner.go:166-205 | A complete run reports an error exactly when a slot stays empty |
| SuiteRun.FirstErrorIsKept | internal/runtime/runner.go:170-176 | The error reported is that of the goroutine that got to keep its error before any other |
| SuiteRun.SlotWrittenOnce | internal/runtime/runner.go:136-154 | Only goroutine i changes slot i, and a complete run makes it write exactly once |
| SuiteRun.CleanupComesLast | internal/runtime/runner.go:177-185 | Suite teardown starts once, when no permit is held and every goroutine is done, no scenario moves after it, and providers are closed only after it |
| SuiteRun.StalledCoverage | internal/runtime/live_tracker.go:128-144 | With distinct names, a scenario started and not past its context read when the deadline passes is in the stalled list, however late the watcher runs |
| SuiteRun.StalledAreTracked | internal/runtime/live_tracker.go:128-144 | Names shared or not, a stalled list exists only when the deadline had passed as the watcher looked, and names only scenarios still tracked then, none that had ended in time |
| SuiteRun.StalledExactly | internal/runtime/live_tracker.go:35-61 | With distinct names or one at a time, the list is exactly the scenarios tracked when the watcher looked |
| SuiteRun.ListExactly | internal/runtime/live_tracker.go:35-61 | In every interleaving the tracker holds exactly the tracked scenarios if and only if names are distinct or scenarios run one at a time |
| SuiteRun.StalledAtTheDeadline | internal/runtime/live_tracker.go:115-144 | With distinct names the list is what was in flight at the deadline, plus what started since and what was caught between context read and end; it is the list of that moment if and only if there is none of the latter |
| SuiteRun.LateStarterIsListed | internal/runtime/runner.go:145-152 | In every suite with a scenario that moment can be missed: one that starts after the deadline is listed with nothing in flight |
| SuiteRun.CoverageExactly | internal/runtime/live_tracker.go:35-61 | Over all interleavings the list covers what was in flight at the deadline if and only if no two scenarios share a name or scenarios run one at a time |
| SuiteRun.SharedNameHidesAScenario | internal/runtime/live_tracker.go:41-45 | Otherwise there is an interleaving whose list is empty while a scenario is in flight |
| LiveTracker.LiveScenarioTracker.Snapshot | internal/runtime/live_tracker.go:49-61 | The active names, each once, in ascending order |
| LiveTracker.LiveScenarioTracker.SnapshotWithElapsed | internal/runtime/live_tracker.go:66-78 | The active names in ascending order, each with the time since its own start |
| LiveTracker.SnapshotUnique | internal/runtime/live_tracker.go:47-61 | Two snapshots of the same set are the same list, whatever the map order |
| Refs.StepDependencies | internal/lang/refs.go:62-112 | The collected dependencies, or an error exactly for a self-reference |
| Refs.DependsOnExactly | internal/lang/refs.go:62-112 | A step waits for d if and only if depends_on names it or its when, a variable, a collected expression of its body or a skip rule reads result.d |
| Refs.ValidateStepOrder | internal/lang/refs.go:119-136 | Accepts exactly the lists where no step depends on itself and each dependency is external or earlier; a rejection explains the first offender |
| Refs.ValidateStepRefs | internal/lang/refs.go:141-188 | One step against the names seen, all names and the external ones |
| Refs.PathsDescend | internal/lang/refs.go:114-136 | When no name can be referred to before its step, file order is a topological order: every dependency path strictly descends |
| Refs.AcyclicExactly | internal/lang/refs.go:114-136 | For given names and externals, all accepted lists are acyclic if and only if no later name is external or repeats an earlier one |
| Refs.LoadedStepsAreAcyclic | internal/parser/loader.go:245-249 | A scenario's steps, as the loader accepts them, have no dependency cycle |
| Engine.KeywordStepsAreAcyclic | internal/runtime/runner.go:1601-1604 | Nor have the steps of a keyword that gets to run |
| Refs.ValidateStepVars | internal/lang/refs.go:469-539 | Accepts exactly the steps whose variables are new, read only earlier ones, and cover every collected use; a rejection names what is wrong first, in the order variables, when, skip rules, body |
| Refs.EvaluateStepVars | internal/runtime/runner.go:835-860 | Evaluates in declaration order, each expression seeing exactly what the earlier ones returned under their names; the result adds the last value, or is the failing variable with its error |
| Refs.ValidatedValuesStay | internal/runtime/runner.go:835-860 | On a validated step what one evaluation returned is what every later one sees |
| Refs.ValidatedVarsAreBound | internal/runtime/runner.go:835-860 | On a validated step no evaluation reads an unbound variable, none is evaluated twice, and the collected body finds every name bound |
| Refs.AllUsesBoundExactly | internal/lang/refs.go:469-539 | On a validated step every expression finds its variables bound if and only if the uncollected ones read declared variables only |
| Refs.UncollectedMayBeUnbound | internal/lang/refs.go:82-102 | Which validation does not ensure: a witness |
| SkipRules.EvaluateSkipRules | internal/runtime/skip.go:122-135 | The loop over the rules decides what SkipRules.DecisionFrom says, errors with their rule's index |
| SkipRules.FirstLoudRuleDecides | internal/runtime/skip.go:109-135 | The first rule that is not quiet decides, be it a skip or an error; the guarded step goes ahead only if all are quiet |
| SkipRules.MatchSkipAttributes | internal/runtime/skip.go:171-231 | A rule matches when every written attribute is satisfied; the first unusable attribute in order is the error |
| SkipRules.RuleMeaning | internal/runtime/skip.go:137-321 | Attribute by attribute: a skip_if rule skips for the reason given if and only if its os and arch lists hold the host's, its env_set variables are set, its env variables have their values and its condition is true, as far as written; a skip_unless rule is quiet if and only if they all hold |
| SkipRules.MatchEnv | internal/runtime/skip.go:281-321 | Whether all listed variables have the listed values, in whatever order the map is visited |
| SkipRules.IfAndUnlessAreOpposite | internal/runtime/skip.go:137-164 | Over the same attributes and on every host, skip_if and skip_unless give the same attribute error, or one is quiet and the other gives the reason or the error in evaluating it |
| Matcher.MatchIsTreeMatchExactly | internal/assertion/json.go:27-137 | For matcher-free expectations, in either mode, the match is tree equality (strict) or recursive embedding (partial), lists and tuples, objects and maps identified, if and only if the expectation has no map-typed part |
| Matcher.LiteralMatch | internal/assertion/json.go:27-137 | The positive half for one pair of values |
| Matcher.MapExpectationRefusesObject | internal/assertion/json.go:51-57 | The smallest exception: a map-typed expectation refuses the object with the same tree |
| Matcher.StrictImpliesPartial | internal/assertion/json.go:27-137 | Whatever matches strictly matches partially, matchers and wrappers included |
| Matcher.MatchJSON | internal/assertion/json.go:27-61 | Decides the relation, and on failure reports a path to a genuine mismatch |
| Matcher.FieldMeanings | internal/assertion/json.go:71-100 | exists() matches a present value that is not null, not_exists() an absent or null one, any() a present one, optional(x) an absent one or one that matches x, required(x) a present one that does |
| Matcher.TypeMeanings | internal/assertion/matcher.go:94-142 | A string matches is_string and no other type matcher, and so for numbers, bools, lists and tuples, objects and maps; a null matches by its type, a set none |
| Matcher.ValueMeanings | internal/assertion/matcher.go:74-244 | contains(x) matches a string in which the text x occurs, and an array that holds exactly x; one_of(x) matches exactly the elements of x; any() everything, exists() what is not null, not_exists() null |
| Matcher.OtherNames | internal/assertion/matcher.go:65-72 | An external matcher gives its own verdict, an unknown name matches nothing |
| Matcher.MatchObject | internal/assertion/json.go:63-113 | The same for objects, fields visited in any order: pass or fail does not depend on it |
| Matcher.MatchArray | internal/assertion/json.go:115-137 | The same for lists and tuples |
| Matcher.BlameRefutes | internal/assertion/json.go:63-137 | A blamed path really refutes the match |
| Matcher.RequiredInContext | internal/assertion/json.go:76-90 | Among any other fields, required(x) behaves as x exactly when x does not tolerate a missing key or the others accept no object without it |
| Matcher.RequiredIsNoOpExactly | internal/assertion/json.go:76-90 | For a field on its own, exactly when x does not tolerate a missing key |
| Matcher.MatcherLaws | internal/assertion/matcher.go:65-244 | exists and not_exists are opposites; a value satisfies at most one type matcher, and its type, null or not, decides which; any accepts everything, an unknown name nothing; an array contains a value exactly when the value is one_of the array |
| Matcher.MatchContains | internal/assertion/matcher.go:144-170 | A string that has the needle as a substring, or an array with an element exactly equal to it |
| Matcher.MatchOneOf | internal/assertion/matcher.go:226-244 | Succeeds exactly when the value is one of the listed ones |
| Matcher.AnyEqual | internal/assertion/matcher.go:236-243 | Whether some element equals the value exactly |
| Matcher.EqualRefinesMatch | internal/assertion/json.go:10-24 | Exact equality implies the match in both modes on matcher-free expectations; on a bare matcher equality and match agree |
| Deprecation.HitsCountPlaces | internal/parser/deprecation.go:96-112 | The search reports a warning exactly as often as attributes and blocks of the whole tree raise it: the warning's rule is the first of the list to fit the element's kind, name and real ancestor chain |
| Deprecation.HitsAreExactlyRaised | internal/parser/deprecation.go:96-112 | In particular it finds exactly the deprecated elements |
| Deprecation.FirstFitExactly | internal/parser/deprecation.go:116-129 | The rule found is the first of the list that fits, whichever that is, and none is found if and only if none fits |
| Deprecation.Append | internal/parser/deprecation.go:109-110 | A Go append that may write into a shared backing array |
| Deprecation.MatchesWithin | internal/parser/deprecation.go:133-150 | A rule fits when its context is a suffix of the ancestor chain |
| Deprecation.WalkDeprecations | internal/parser/deprecation.go:96-112 | Although siblings overwrite the shared buffer, the walk reports what the pure search finds and leaves the caller's chain intact |
| Deprecation.CollectDeprecations | internal/parser/deprecation.go:73-91 | Each hit gives one warning, and the output is sorted by position |
| Deprecation.ReadsTopDown | internal/parser/deprecation.go:161-182 | Sorted by position means by file name in lexicographic order, then by line, then by column, and warnings without a position last |
| Deprecation.ReportIsUnique | internal/parser/deprecation.go:152-182 | With distinct positions every attribute order gives the same report |
| Order.CollectSourceOrder | internal/parser/order.go:51-74 | The step and case blocks in textual order |
| Order.SourceOrderLists | internal/parser/order.go:51-74 | It lists exactly the step and case blocks with two labels, from top to bottom |
| Order.DecodingPermutes | internal/parser/decode.go:108-112 | Decoding steps before cases loses the order and nothing else |
| Order.ReorderStepsBySource | internal/parser/order.go:82-114 | The returned order and the lines set on the steps, on every exit |
| Order.LineOfKey | internal/parser/order.go:97-109 | A step's line is that of the last source entry under its key with a position, or stays when there is none |
| Order.DecodedStepsAreKept | internal/parser/decode.go:108-112 | Steps decoded from a body are reordered without losing or repeating one, whatever their keys |
| Order.RoundTrip | internal/parser/order.go:51-114 | Decoding and reordering gives back the textual order if and only if the keys are distinct or decoding had not changed the order |
| Order.PermutesExactly | internal/parser/order.go:76-114 | The output permutes the input if and only if the lists disagree or the source keys are distinct |
| Order.DuplicateSourceDropsAStep | internal/parser/order.go:76-81 | A source list that does not come from the decoded body and repeats a key can drop one step and duplicate another |
| Seeds.StreamsAgreeExactly | internal/runtime/seed.go:33-44 | Two call sites hash the same bytes if and only if they agree on everything, up to empty names at the outer end of the call path |
| Seeds.StreamDecodable | internal/runtime/runner.go:361-387 | With non-empty calling steps the hashed bytes determine seed, scenario, call path, step, generator and expression path, at any depth |
| Seeds.EmptyCallerIsInvisible | internal/lang/eval.go:79-89 | An empty calling-step name leaves no trace in the stream |
| Seeds.ScopeIsJoin | internal/lang/eval.go:79-89 | The scope is the calling steps' names joined by NUL, leading empty names left out |
| Seeds.SecondStreamSeparate | internal/runtime/seed.go:57-68 | The second stream meets a first stream only for the expression path randv2 |
| Xorshift.NextStateReversible | internal/runtime/seed.go:16-30 | A draw's state change can be undone |
| Xorshift.RunsNeverMerge | internal/runtime/seed.go:16-30 | Generators in different states stay different over every run of draws |
| Xorshift.StateStaysNonZero | internal/runtime/seed.go:16-30 | A non-zero state stays non-zero over every run of draws |
| Rand.DeterministicRand.Intn | internal/runtime/seed.go:16-30 | The result is in [0, n) for positive n and 0 otherwise, when the state does not move |
| Rand.HashParts | internal/runtime/seed.go:33-44 | The hash depends on the joined stream alone, however it is fed |
| Canonical.EncodingIgnoresSetOrder | internal/lang/functions.go:350-390 | The encoded output is the same for every element order of every nested set, ties included |
| Canonical.EncodableIgnoresSetOrder | internal/lang/functions.go:288-314 | So is whether the value can be encoded |
| Canonical.SetIsSortedPermutation | internal/lang/functions.go:350-390 | A canonical set is a rearrangement of its members in non-decreasing order of encoding, ties in iteration order |
| Canonical.ToCanonical | internal/lang/functions.go:288-314 | The recursive dispatch computes the canonical form, or an error exactly for unencodable values |
| Canonical.CanonRoundTrip | internal/lang/functions.go:288-390 | Reading the canonical form back gives the value, every scalar, attribute and element of it, with sets become lists in some order |
| Canonical.SetFreeRoundTrip | internal/lang/functions.go:288-347 | Without sets it gives exactly the value |
| Canonical.ObjectEncoding | internal/lang/functions.go:284-330 | An object is written with each of its keys once, in ascending order, each before its value's encoding |
| Canonical.JoinedByCommas | internal/lang/functions.go:284-330 | Fields and items are joined by one comma between neighbours |
| Canonical.SortedByEncoding | internal/lang/functions.go:350-390 | Sorting an index array by encoding and gathering sorts the items |
| Workspace.RelInsideIsPrefix | internal/workspace/resolver.go:118-129 | The text test on the relative path holds exactly when base is an element-wise prefix of target |
| Workspace.ResolveExisting | internal/workspace/resolver.go:135-153 | Terminates with the deepest existing ancestor canonicalized and the rest kept |
| Workspace.CanonicalizationUnique | internal/workspace/resolver.go:131-153 | That result is unique |
| Workspace.Contained | internal/workspace/resolver.go:104-113 | Holds exactly when target is inside base as written and after canonicalization |
| Workspace.Resolver.ResolveOutput | internal/workspace/resolver.go:39-52 | Accepts exactly the paths inside the work directory in both senses |
| Workspace.Resolver.ResolveInput | internal/workspace/resolver.go:58-77 | Accepts exactly the paths inside the work directory or the project directory |
| Workspace.PlainRelativeAccepted | internal/workspace/resolver.go:91-97 | A relative path without .. is accepted wherever no symlink is involved |
| Workspace.CleanLaws | internal/workspace/resolver.go:87-97 | A name followed by .. vanishes, .. at the root vanishes, empty elements and . vanish, and what is left stays: below the root for an absolute path, below the base for a relative one |
| Totp.GenerateTotp | internal/lang/totp.go:42-118 | An accepted request yields exactly the requested number of digits, denoting the truncated HMAC modulo the power of ten; a rejected one the first failing check |
| Totp.AcceptedExactly | internal/lang/totp.go:42-90 | Rejected are exactly a negative period, digits outside 0 to 10, another algorithm, a time before the epoch, and a secret that does not decode |
| Totp.TruncateIsLast31Bits | internal/lang/totp.go:103-107 | Dynamic truncation is the last 31 bits of the four bytes at the offset (section 5.3 of RFC 4226) |
| Totp.BigEndianRoundTrip | internal/lang/totp.go:93-95 | The counter bytes denote the counter |

## Left out

- Providers, expression evaluation and generators are oracle answers; of skip rules the evaluated attributes are, and what they decide is computed.
- The texts of rejected keyword graphs and of missing keyword inputs: which dependency or input they name depends on map order, so only the kind of the error is kept in the engine (the first offender itself is characterised by Refs.ValidateStepOrder).
- Wall-clock values, durations, artifacts, request and response summaries, and the event sink are not part of the results.
- A scenario's workspace is an input that is there or not; creating directories is not modelled.
- ScenarioRunner.RunScenario: needs distinct step names within the scenario, which the loader enforces (internal/parser/loader.go:150-157), because dependencies are looked up by name.
- A panic inside a step, which the deferred hook ending also covers, has no counterpart.
- SuiteRun.RunsKeepInvariant: a scenario's execution is one move, made when it ends. Of the state around it a scenario reads only the context it is handed, so its outcome has a second argument, how the firing context caught it, left arbitrary whenever the context has fired by then. The heartbeat goroutine only reads and is not a process of the model.
- A run whose result list holds a missing scenario (workspace or dependency error) is outside the report theorems.
- JUnit bodies, console, HTML and JSONL output: rendering.
- Matcher: regular expressions, UUIDs and numeric thresholds are external; unknown values and a matcher whose name is a null string are not modelled, nor typed nulls under contains and one_of, on which the Go code panics.
- Canonical: JSON string escaping is a parameter, and infinite numbers, which json.Number cannot hold, do not occur.
- Workspace: slash-separated paths on one state of the file system; Windows volumes and changes between check and use are not modelled.
- Totp: HMAC-SHA1 is an arbitrary function to 20 bytes and secret decoding an arbitrary partial function.
- Rand: the PCG generator seeded by the two hashes is not modelled, only the bytes hashed for it.
- Masking, providers' decoders and evaluators, the CLI, doctor, the mock server and the website: flat or plumbing.
