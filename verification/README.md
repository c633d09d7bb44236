# hermes-vps: a verified model

A Dafny model of the parts of hermes-vps whose correctness depends on more than one function at
a time, and proofs about every run, every file text and every interleaving of them.
`dafny verify dfyconfig.toml` checks everything.

**The action-graph engine** (`ActionGraph`, `GraphValidation`, `Preview`, `RunSpec`,
`RunProgress`, `EngineCore`, `RunProperties`, `RunEvents`, `Reporting`). A graph is a dictionary
with its insertion order. The handler is an arbitrary function from an action and an attempt
number to success or an error, so it stands for every handler, including failures while its
result is normalised; since each action is started at most once this covers every run. `Plan` is
the independent description of a run: the order printed in the preview, without the actions that
have an unsuccessful transitive dependency, cut just after the first failure that is not
tolerated. `Engine.Run`, written in the program's own imperative form, is proved to carry out
exactly that plan, and the properties of runs are then proved of the plan.

**The `.env` store** (`RegexTemplate`, `EnvText`, `EnvReadBack`, `EnvFiles`, `EnvOverlay`,
`CommitExactness`, `EnvStorage`, `EnvReader`, `ConfigModel`, `ConfigService`, `ApplyEffects`,
`ApplyValues`, `ApplyPipeline`). Files are strings. Reading translates line breaks as text mode does; an upsert
replaces the first match or appends, and the replacement is expanded as a template of Python's
`re` module, as the program does by passing `KEY=value` to `pattern.sub`. Not every value
survives this. `Storable` says which do: the value is on one line and, where a line is replaced,
every backslash stands before a character that gives it no meaning in a template. Read-back,
the commit of a stage, the write of a patch, saving a draft and the wizard's apply are each proved
to work *if and only if* the values are storable; `BackslashIsLost` is a value that is not, so the plain round trip the
upsert is written for does not hold of every value. The model follows the code.

**The toolchain cache** (`ToolchainCache`, `ToolchainSafety`, `ToolchainPrepare`). `prepare` is a
sequence of file-system changes, any of which can be the last one of a call: commands fail, tree
removals stop half-way, the sentinel's writing tears. One lock per cache key keeps calls for the
same key apart; calls for different keys interleave step by step. `Next` is the step machine,
directories carry the history of how they came about, and `PrepareLocked` is the imperative code,
proved to do only steps of the machine while other calls go on. That a ready directory is intact
needs calls that do not share a key without sharing version and tag: dotted versions never do, and
`SharedKeyDamages` shows what happens otherwise.

**The wizard's request/reply protocol** (`WizardProtocol`, `WizardObjects`). Worker threads reply
late and in any order. The protocol says what each event does to the flags, ids and steps; the
objects (`CorrelatedTask`, `FlowCoordinator` and the handlers) are proved to do just that.

Outcomes of what lies outside, such as commands, keys found on disk, the network, widgets and
failing writes, are parameters. Strings are compared by code point.

## Model

| member | source | states |
|---|---|---|
| `ActionGraph.Graph.OrderedMeansAcyclic` | hermes_control_core/actions.py:141-157 | a listing of all actions that puts dependencies first exists only when no action depends on itself along any path |
| `ActionGraph.Graph.NoMinimumMeansCycle` | hermes_vps_app/status_presentation.py:422-423 | a non-empty set of actions each depending on one of the set contains an action on a dependency cycle, so an empty wave is a real cycle |
| `GraphValidation.CycleSearch.Dfs` | hermes_control_core/actions.py:145-154 | a visit either finishes the node, leaving the recursion stack as it was and extending a dependencies-first finishing order, or reports a node that lies on a closed dependency path of the graph; it terminates on every graph |
| `GraphValidation.ClosedStack` | hermes_control_core/actions.py:148-149 | a node met again while on the recursion stack closes a dependency path from the node back to itself |
| `GraphValidation.FinishKeepsOrder` | hermes_control_core/actions.py:151-154 | finishing a node after all its dependencies keeps the finishing order dependencies-first |
| `GraphValidation.ValidateGraph` | hermes_control_core/actions.py:127-157 | accepts exactly the graphs whose keys match, whose dependencies are known and which are acyclic; each rejection names a real defect of the kind reported, the first mismatched key, an unknown dependency of a graph whose keys match, or a node on a cycle of a graph that passes both checks |
| `Preview.WaveKeepsListed` | hermes_vps_app/status_presentation.py:417-426 | appending a wave keeps the listing duplicate-free, within the graph and dependencies-first |
| `Preview.StuckMeansDefect` | hermes_vps_app/status_presentation.py:422-423 | an empty wave with actions left over means a missing dependency or a cycle |
| `Preview.PreviewIsTopological` | hermes_vps_app/status_presentation.py:413-427 | the waves list every action once, dependencies first, exactly when all dependencies are known and the graph is acyclic |
| `Preview.ReadyIds` | hermes_vps_app/status_presentation.py:417-421 | one wave holds exactly the unlisted actions whose dependencies are all listed, in graph order |
| `Preview.MoveReady` | hermes_vps_app/status_presentation.py:424-426 | the ready actions move from the remaining set to the end of the listing |
| `Preview.TopologicalActionOrder` | hermes_vps_app/status_presentation.py:413-427 | prints an order exactly when the dependencies are known and the graph is acyclic, the same condition the validator checks; the order is topological and is the one the engine is compared with |
| `RunSpec.AttemptsMeaning` | hermes_control_core/engine.py:197-219 | attempts stop at the first success, or at the budget when there is none |
| `RunSpec.StateAfterMeaning` | hermes_control_core/engine.py:192-229 | an executed action is SUCCEEDED, SKIPPED or FAILED according to its outcomes and its tolerance; attempts is its first successful attempt or its whole budget, which is 1 for kind none and max(1, max_attempts) otherwise; an error is kept exactly when it did not succeed |
| `RunSpec.ExecutionMeaning` | hermes_control_core/engine.py:192-229 | in the fields of the descriptor and the answers of the handler alone: an executed action succeeds at its first successful attempt, or fails after exactly 1 attempt for kind none or max_attempts below 2 and after max_attempts attempts otherwise, keeping the last error and the details of its last attempt that had any |
| `RunSpec.SuccessMeaning` | hermes_control_core/engine.py:231-240 | an action succeeds exactly when its first attempt does or, for a kind that retries, some attempt up to max_attempts does |
| `RunSpec.ResultIsCarriedOut` | hermes_control_core/engine.py:185-229 | in the result of the plan each started action has been executed in that sense and every other one is untouched |
| `RunSpec.RunnableStep` | hermes_control_core/actions.py:235-241 | everything an action depends on succeeds exactly when its direct dependencies succeed and the same holds of each of them |
| `RunSpec.StuckFrontier` | hermes_control_core/engine.py:95-98 | when no action of the next preview wave is runnable, none of any later wave is, so breaking off the loop loses nothing |
| `RunProgress.ReadyIffNext` | hermes_control_core/actions.py:228-241 | in the states a run reaches, an action is ready exactly when it is in the next preview wave and all its transitive dependencies succeeded |
| `RunProgress.ReadyIsNextWave` | hermes_control_core/actions.py:223-246 | the ready actions of the engine, in order, are the runnable actions of the next preview wave |
| `RunProgress.NeverBlocked` | hermes_control_core/actions.py:243-244 | the BLOCKED assignment is never reached in a run |
| `RunProgress.NothingLeft` | hermes_control_core/engine.py:81-89 | when no action is unresolved, the plan has been carried out |
| `RunProgress.PlanWhenStuck` | hermes_control_core/engine.py:95-98 | when nothing is ready, exactly the plan has been started |
| `RunProgress.PlanWhenStopped` | hermes_control_core/engine.py:106-114 | a run stopped inside a wave has started exactly the plan, which ends with its only fatal failure |
| `RunProgress.FailFastMeansFatal` | hermes_control_core/engine.py:242-250 | after one more execution the fail-fast test fires exactly when that action failed and its failure is not tolerated |
| `RunProgress.StoppedResult` | hermes_control_core/engine.py:107-114 | the fail-fast result, failed and not completed, is the result of the plan |
| `RunProgress.QuietResult` | hermes_control_core/engine.py:116-135 | a run without a fatal failure leaves no FAILED or CANCELLED action and does not report failure |
| `RunProgress.SnapshotStatuses` | hermes_control_core/engine.py:80-114 | between waves every status is PENDING, SUCCEEDED or SKIPPED, as the set of executed actions and their outcomes say |
| `EngineCore.Engine.Emit` | hermes_control_core/engine.py:252-279 | appends one event |
| `EngineCore.Engine.CanRetry` | hermes_control_core/engine.py:231-240 | another attempt is allowed exactly below the budget |
| `EngineCore.Engine.TryUntilDone` | hermes_control_core/engine.py:197-219 | the retry loop ends with the state given by the first successful attempt or the last allowed one |
| `EngineCore.Engine.ExecuteOne` | hermes_control_core/engine.py:185-229 | exactly the executed action's state changes, to the one its outcomes determine, and exactly its events are appended |
| `EngineCore.Engine.DepStatuses` | hermes_control_core/actions.py:235-243 | the three questions about the dependency states are answered as before the pass, although the pass marks actions BLOCKED as it goes |
| `EngineCore.Engine.ReadyOrBlock` | hermes_control_core/actions.py:228-244 | examines one action: it is reported when ready, and it becomes BLOCKED exactly when unresolved, not ready and behind a FAILED or CANCELLED dependency |
| `EngineCore.Engine.ReadyActions` | hermes_control_core/actions.py:223-246 | for arbitrary states, returns the ready actions in graph order and changes only the blocked ones |
| `EngineCore.Engine.ShouldFailFast` | hermes_control_core/engine.py:242-250 | true exactly when some FAILED action does not tolerate failure |
| `EngineCore.Engine.AnyStatus` | hermes_control_core/engine.py:116-117 | whether some state has one of the statuses asked for |
| `EngineCore.Engine.RunNext` | hermes_control_core/engine.py:100-106 | executes one action after those before it and stops exactly on a fatal failure |
| `EngineCore.Engine.RunWave` | hermes_control_core/engine.py:100-114 | executes a wave in order up to its first fatal failure |
| `EngineCore.Engine.NextWave` | hermes_control_core/engine.py:95-95 | the next wave consists of the runnable actions of the next preview wave and computing it changes no state |
| `EngineCore.Engine.Turn` | hermes_control_core/engine.py:80-114 | one turn either ends with the plan carried out or starts at least one more action |
| `EngineCore.Engine.Unfinished` | hermes_control_core/engine.py:81-93 | the loop ends only when the plan has been carried out, and no state is ever RUNNING at its head |
| `EngineCore.Engine.RunLoop` | hermes_control_core/engine.py:80-114 | the loop terminates having carried out exactly the plan, in at most as many executing rounds as actions started; stopped exactly by a fatal failure |
| `EngineCore.Engine.Summary` | hermes_control_core/engine.py:116-135 | the flags of a run that was not stopped, in terms of the final statuses |
| `EngineCore.Engine.Run` | hermes_control_core/engine.py:75-135 | for every graph and every handler: rejects exactly the invalid graphs; otherwise starts the preview order filtered to runnable actions and cut just after the first fatal failure, and its states, events, completed and failed are those of that plan, each started action being executed as its retry policy allows and every other one untouched; the unexpected-RUNNING error cannot occur |
| `RunProperties.PlanIsOrdered` | hermes_control_core/engine.py:80-114 | each action is started at most once, after all its dependencies, and only when everything it depends on succeeded |
| `RunProperties.PlanIsComplete` | hermes_control_core/engine.py:95-114 | only the last action started can fail fatally; without a fatal failure exactly the runnable actions are started |
| `RunProperties.AllSucceed` | hermes_control_core/engine.py:80-135 | when every action succeeds the run starts exactly the previewed order and completes with every action SUCCEEDED |
| `RunProperties.FirstObstacle` | hermes_control_core/actions.py:235-241 | an action that cannot run depends on a runnable one that did not succeed |
| `RunProperties.PendingIffSkippedDependency` | hermes_control_core/engine.py:95-126 | in a run that does not fail an action stays PENDING if and only if a transitive dependency ended SKIPPED |
| `RunProperties.FinalStatuses` | hermes_control_core/engine.py:107-135 | final statuses are PENDING, SUCCEEDED, SKIPPED or FAILED; failed holds exactly when an action is FAILED, and then exactly one is |
| `RunEvents.LogOfEachAction` | hermes_control_core/engine.py:193-229 | the events of an action are those of its one execution, or none |
| `RunEvents.LogShowsStarts` | hermes_control_core/engine.py:195-195 | the RUNNING events are the actions started, in order |
| `RunEvents.ReplayGivesFinalStatus` | hermes_control_core/engine.py:252-279 | replaying the log gives every action its final status |
| `RunEvents.LogRespectsDeps` | hermes_control_core/engine.py:193-210 | every event of an action comes after the SUCCEEDED event of each dependency |
| `RunEvents.FatalEventIsLast` | hermes_control_core/engine.py:221-225 | nothing follows the FAILED event of an action that does not tolerate failure |
| `RunEvents.LogIsSafe` | hermes_control_core/engine.py:185-229 | all of the above for the log of any run of any valid graph |
| `Reporting.FirstError` | hermes_vps_app/error_taxonomy.py:157-157 | the first action in the given order with a non-empty error, and none exactly when no listed action has one |
| `Reporting.GraphFailure` | hermes_vps_app/error_taxonomy.py:156-180 | unclassified exactly when no action has a non-empty error, and otherwise the action blamed, with its message and status, is the first in order that has one |
| `Reporting.SortAscending` | hermes_vps_app/status_presentation.py:206-206 | the panel's order of the ids is ascending by code points |
| `Reporting.NotAfterMeaning` | hermes_vps_app/status_presentation.py:206 | the order of two ids: one begins the other, or they first differ where it has the smaller code point |
| `Reporting.FailedNode` | hermes_vps_app/status_presentation.py:204-221 | the panel's failed node is the first error in sorted order |
| `Reporting.ErrorsAfterRun` | hermes_control_core/engine.py:209-225 | an action keeps a non-empty error exactly when it was executed, did not succeed and its last message is not empty |
| `Reporting.SearchesAgree` | hermes_vps_app/error_taxonomy.py:156-180 | when no action tolerates failure and no message is empty, a failed run has exactly one error, on its FAILED action, and both searches name it; a run that did not fail has none |
| `Reporting.BlameIsExact` | hermes_vps_app/error_taxonomy.py:157-168 | in general the command line blames the FAILED action exactly when its message is not empty and no action before it in graph order ended SKIPPED with a message |
| `Reporting.PanelBlameIsExact` | hermes_vps_app/status_presentation.py:206-221 | the panel names the FAILED action exactly when its message is not empty and no action with a smaller id ended SKIPPED with a message |
| `Reporting.ToleratedFailureIsBlamed` | hermes_vps_app/error_taxonomy.py:157-168 | a two-action run in which the tolerated failure is blamed instead of the fatal one |
| `Reporting.ProgressSummary` | hermes_vps_app/status_presentation.py:326-342 | each of the eight counters is the multiplicity of its status among the actions |
| `Reporting.CountIsMultiplicity` | hermes_vps_app/status_presentation.py:337-339 | counting a status gives its multiplicity |
| `Reporting.CountersSum` | hermes_vps_app/status_presentation.py:327-339 | the eight counters add up to the number of actions |
| `Reporting.ProgressOfRun` | hermes_vps_app/status_presentation.py:326-342 | for any run the ready, running, blocked and cancelled counters are 0, failed is 0 or 1 as the result says, and completed holds exactly when pending and failed are 0 |
| `RegexTemplate.SafeExpands` | scripts/configure_services.py:243-246 | a value all of whose backslashes stand before a character without special meaning passes through the replacement template unchanged |
| `RegexTemplate.NeverCatchesUp` | scripts/configure_services.py:245-246 | an expansion that lags behind its template by the rest of an escape never catches up |
| `RegexTemplate.UnsafeDiffers` | scripts/configure_services.py:245-246 | any other value is rejected as a template or does not come out as a prefix of its expansion |
| `RegexTemplate.ExpandControl` | scripts/configure_services.py:245-246 | each control escape and the doubled backslash give their one character |
| `RegexTemplate.ExpandOther` | scripts/configure_services.py:245-246 | an unknown letter or a final backslash is rejected, a backslash before any other character stays |
| `RegexTemplate.ExpandNumbered` | scripts/configure_services.py:245-246 | group zero by name gives the match, three octal digits the character with that code, and a number that is not octal is rejected |
| `RegexTemplate.EscapedExpands` | scripts/configure_services.py:245-246 | with every backslash doubled, any value comes out of the template as it is |
| `EnvText.LookupIsFirstMatch` | scripts/configure_logic.py:21-22 | scanning line by line finds the earliest position at a line start where KEY= follows, with the rest of that line as value, which is what the multi-line pattern matches |
| `EnvText.LookupIsLineLookup` | scripts/configure_logic.py:19-22 | the text scan reads the first line of the key in the list of lines |
| `EnvText.LinesOfReplace` | scripts/configure_services.py:244-245 | whatever the match is replaced by, the first line of its key gives way to the lines of the replacement, and every other line stays |
| `EnvText.LinesOfReplaceOne` | scripts/configure_services.py:244-245 | a replacement on one line changes exactly one line, the first of its key |
| `EnvText.LinesOfAppend` | scripts/configure_services.py:246-248 | appending adds one terminated line behind the unchanged text, also when that lacks a final line break |
| `EnvReadBack.UpsertChangesOneLine` | scripts/configure_services.py:240-248 | a storable value is written literally, and every line but the first of its key keeps its content and place, with at most one line added |
| `EnvReadBack.ReadConcat` | scripts/configure_logic.py:15-16 | reading turns each line break of any kind into one newline and may be done piece by piece, except between a carriage return and a line feed |
| `EnvReadBack.KeysDontOverlap` | scripts/configure_services.py:243-243 | a line belongs to at most one key |
| `EnvReadBack.UpsertFrame` | scripts/configure_services.py:240-248 | after a storable upsert the key reads the value and every other key reads as before |
| `EnvReadBack.ReplacedReads` | scripts/configure_services.py:244-245 | whatever the template expands to, the next reader gets it up to its first line break of either kind |
| `EnvReadBack.ReadsBackIffStorable` | scripts/configure_services.py:240-248 | the next reader gets the value if and only if it is on one line and, where a line is replaced, is safe as a template |
| `EnvReadBack.PlainIsStorable` | scripts/configure_services.py:240-248 | a value on one line without a backslash can be stored in every file under every key |
| `EnvReadBack.BackslashIsLost` | scripts/configure_logic.py:28-31 | two backslashes in a value that replaces another do not survive the write |
| `EnvFiles.EnvFile.GetEnvValue` | scripts/configure_logic.py:19-22 | the value of the first match, empty without one |
| `EnvFiles.EnvFile.SetEnvValue` | scripts/configure_logic.py:25-36 | the file is left alone on an error; the key reads the value exactly when it is storable, and then every other key and every other line is unchanged |
| `EnvOverlay.PutAt` | scripts/configure_services.py:205-211 | assigning to one staged key changes no other staged value |
| `EnvOverlay.PutDistinct` | scripts/configure_services.py:205-211 | each key is staged once |
| `EnvOverlay.PutKeepsOrder` | scripts/configure_services.py:205-211 | a key staged again keeps its place, a new one comes last |
| `EnvOverlay.UpsertAllReadsOverlay` | scripts/configure_services.py:221-223 | storable staged values all get written, and the text then reads what the overlay showed for every key, whatever the order of the entries |
| `EnvOverlay.CommitReadsOverlay` | scripts/configure_services.py:221-223 | the same through the next reader's newline translation |
| `CommitExactness.UnsafeIsLostAt` | scripts/configure_services.py:240-245 | an unsafe value that replaces another leaves, behind lines not of its key, a line of the key with a different value |
| `CommitExactness.LostStep` | scripts/configure_services.py:222-223 | upserting one more key keeps some value lost, whatever its expansion puts into the file |
| `CommitExactness.LostStays` | scripts/configure_services.py:222-223 | once a value is lost, no sequence of later upserts of other keys makes all staged values read back |
| `CommitExactness.CommitIffStorable` | scripts/configure_services.py:216-238 | all staged values read back, and the commit changes what is read for no key, if and only if every staged value is storable |
| `CommitExactness.OrderIsIrrelevant` | scripts/configure_services.py:222-223 | the order in which values were staged makes no difference to what is read after the commit |
| `CommitExactness.CommitLines` | scripts/configure_services.py:216-238 | after the commit of storable values each old line is in its place, except that the first line of a staged key is KEY=value, and behind them come the lines of the keys that had none, in staging order |
| `EnvStorage.EnvStore.constructor` | scripts/configure_services.py:184-188 | a new store has nothing staged |
| `EnvStorage.EnvStore.Get` | scripts/configure_services.py:197-200 | reads the staged value or else the file |
| `EnvStorage.EnvStore.Set` | scripts/configure_services.py:202-211 | afterwards the key reads the value and no other key changes, through each of the early returns; the file is untouched |
| `EnvStorage.EnvStore.StagedContent` | scripts/configure_services.py:221-223 | the staged values upserted in order, or an error when a template is rejected |
| `EnvStorage.EnvStore.Flush` | scripts/configure_services.py:216-238 | all-or-nothing: on failure file and stage are as before, on success the stage is empty and the file is the upserted text; what is read changes for no key exactly when every staged value is storable |
| `EnvReader.ParseEnvFile` | hermes_vps_app/operational.py:125-133 | for any text the dictionary holds exactly the keys some line assigns, each with the stripped value of the last line that assigns it, in terms of the characters around the first equals sign of that line |
| `EnvReader.AssignmentMeaning` | hermes_vps_app/operational.py:128-132 | what a stripped line assigns: key and value are the stripped parts before and after its first equals sign, and comments and lines without one assign nothing |
| `EnvReader.LastValueMeaning` | hermes_vps_app/operational.py:127-132 | the value of a line that assigns the key, when no later line does, is the one found |
| `EnvReader.StripMeaning` | hermes_vps_app/operational.py:128 | stripping removes only blanks at both ends and leaves none there |
| `EnvReader.SplitAtSeparator` | hermes_vps_app/operational.py:127 | a text is split at each line separator, a carriage return with its line feed counting as one, and leaves no empty piece at its end |
| `EnvReader.SplitIsLines` | hermes_vps_app/operational.py:127-127 | without other line breaks inside lines, splitlines gives the newline-separated lines |
| `EnvReader.AssignsKey` | hermes_vps_app/operational.py:128-132 | a trimmed line assigns a trimmed key exactly when it begins with KEY= |
| `EnvReader.ReadersAgreeIff` | hermes_vps_app/operational.py:125-133 | in any file that assigns a well-formed key at most once, the last-wins reader and the first-match reader agree on it if and only if it is not assigned, or the first match's line holds no other line separator and its value is trimmed |
| `EnvReader.SpacedValueDiffers` | hermes_vps_app/operational.py:127-132 | a file of one line KEY=v is read alike by both exactly when v is trimmed, so K= v is read differently |
| `EnvReader.ReadersAgree` | hermes_vps_app/operational.py:125-133 | the readers agree on every well-formed key of a file whose keys are unique, whose lines are trimmed and hold no other line separator, and whose keys and values are trimmed around the equals sign |
| `EnvReader.UpsertKeepsWellFormed` | scripts/configure_services.py:240-248 | writing a trimmed one-line value under a trimmed key keeps a file of that kind so |
| `EnvReader.FlushKeepsWellFormed` | scripts/configure_services.py:216-237 | so does committing any number of trimmed values |
| `ConfigModel.NameIsUnique` | hermes_vps_app/config_model.py:273-293 | different panel settings have different .env keys |
| `ConfigModel.NameIsGood` | hermes_vps_app/config_model.py:273-293 | every panel key is non-empty and free of =, line breaks and backslashes |
| `ConfigModel.CreatePatch` | hermes_vps_app/config_model.py:233-250 | the patch changes exactly the keys whose target differs from the original value, each once, with the right old and new values and secrecy; clearing the model is one of them |
| `ConfigModel.OrderIsComplete` | hermes_vps_app/config_model.py:296-319 | the desired values range over every panel key |
| `ConfigService.ProjectConfigEnvService.StagePatch` | hermes_vps_app/config_model.py:266-269 | exactly the values that differ from the file get staged, and every key then shows its value in the patch or what the file has |
| `ConfigService.ProjectConfigEnvService.WritePatch` | hermes_vps_app/config_model.py:265-270 | for any list of changes, a key listed twice counting with its last value: a failed write leaves the file as it was, or created from the template; after a successful one every key reads its changed value or what it read before, if and only if the values that differ from the file are storable |
| `ConfigService.DifferingShows` | scripts/configure_services.py:202-211 | values the file already has need not be staged |
| `ConfigService.PatchOfDraft` | hermes_vps_app/config_model.py:233-250 | the entries a patch stages are the draft's changed values, storable together exactly when each is |
| `ConfigService.ProjectConfigEnvService.SaveDraft` | hermes_vps_app/config_model.py:233-270 | patch, write and reload as a whole: after a successful save of a draft loaded from the file, loading gives back every persisted non-secret setting, replaced secrets have their new value and the others their old one, if and only if every changed value is storable; then no unknown key changes and the reloaded draft has nothing left to change; in that case the file also holds the draft key by literal key |
| `ConfigService.WrittenHoldsDraft` | hermes_vps_app/config_model.py:296-319 | a file that reads a draft's patch holds, under each literal key, the draft's setting and each replaced secret |
| `ConfigService.LoadReadsLines` | hermes_vps_app/config_model.py:196-231 | the loaded draft shows the value of each literal key, and each secret as present exactly when its key has a value |
| `ConfigService.SavedIffStorable` | hermes_vps_app/config_model.py:196-250 | the draft-level if-and-only-if for any text a write leaves; one value that is not storable is enough for some setting or secret to come back different |
| `ConfigService.DraftRoundTrip` | hermes_vps_app/config_model.py:196-250 | the direction from written values to the reloaded draft: settings, secrets and unknown keys |
| `ConfigService.UneditedPatch` | hermes_vps_app/config_model.py:233-250 | the patch of an unedited load is empty if and only if the file names a known provider; otherwise it changes only the provider |
| `ConfigService.SecondPatchIsEmpty` | hermes_vps_app/config_model.py:233-250 | once the values of a patch read back, the reloaded draft has nothing left to change |
| `ApplyEffects.StagedShowsWrites` | scripts/configure_services.py:202-211 | after a list of sets every key shows the last value set for it, or what it showed before |
| `ApplyPipeline.ConfigureOrchestrator.PersistCloudStep` | scripts/configure_services.py:916-923 | an unknown provider raises before anything is staged; otherwise provider, image and, when it is to be replaced or missing, the provider's token are set |
| `ApplyPipeline.ConfigureOrchestrator.StageSecret` | scripts/configure_services.py:922-923 | a secret is set exactly when it is to be replaced or has no real value as staged so far |
| `ApplyPipeline.ConfigureOrchestrator.PersistServerStep` | scripts/configure_services.py:925-931 | the six server values are set in order |
| `ApplyPipeline.ConfigureOrchestrator.PersistHermesStep` | scripts/configure_services.py:933-954 | the release tag is set; then the API key branch, which raises when no real key shows or a stale artifact stays, or the OAuth branch, which raises when there is no artifact |
| `ApplyPipeline.ConfigureOrchestrator.PersistOAuth` | scripts/configure_services.py:947-953 | the API key is cleared, and the step raises exactly when no OAuth artifact is there or can be captured |
| `ApplyPipeline.ConfigureOrchestrator.PersistApiKey` | scripts/configure_services.py:939-945 | a typed key is set, and the step raises exactly when no real key shows or a stale artifact cannot be removed |
| `ApplyPipeline.ConfigureOrchestrator.PersistTelegramStep` | scripts/configure_services.py:956-960 | the allowlist is set, and the bot token when it is to be replaced or missing |
| `ApplyPipeline.ConfigureOrchestrator.StageExtras` | scripts/configure_services.py:982-985 | version, provider and model are set |
| `ApplyPipeline.ConfigureOrchestrator.EnsureSshKey` | scripts/configure_services.py:986-992 | raises without a key pair, otherwise the path and the quoted public key are set and the state keeps the path |
| `ApplyPipeline.ConfigureOrchestrator.RunApplyEffect` | scripts/configure_services.py:973-1007 | an effect other than the commit does what its name says or raises, and never touches the file |
| `ApplyPipeline.ConfigureOrchestrator.RunEffects` | scripts/configure_services.py:965-968 | effects run in order up to the first that raises |
| `ApplyPipeline.ConfigureOrchestrator.ExecuteApplyPlan` | scripts/configure_services.py:965-968 | for every plan whose only commit is last: if anything raises the file is unchanged; otherwise nothing stays staged, and every key reads the last value set for it or what it showed before if and only if what ends up staged is storable |
| `ApplyPipeline.ConfigureOrchestrator.Apply` | scripts/configure_services.py:970-971 | for the fixed pipeline: it raises for an unknown provider, the API key method without a real key typed or shown or with an artifact that cannot be removed, OAuth without an artifact there or captured, no key pair or a failed SSH alias, and in no other case when the write works and what is staged is storable; if anything raises the file is unchanged; after success every known key reads its applied value, the public key the quoted key and every other key what it showed, if and only if what ends up staged is storable |
| `ApplyEffects.CommitIsLast` | scripts/configure_services.py:26-35 | the fixed order commits once, at its end |
| `ApplyEffects.WritesAreEnough` | scripts/configure_services.py:202-211 | storable writes over a storable stage are storable together |
| `ApplyValues.AppliedIffLaid` | scripts/configure_services.py:26-35 | a file reads the last value set for every key exactly when every known key reads its applied value, the public key the quoted key and every unmanaged key what it showed |
| `ApplyValues.PipelineApplies` | scripts/configure_services.py:26-35 | through the values set by the fixed pipeline every known key shows what the wizard state asks for; the SSH key path is the ensured one, not the one the server step had set |
| `ApplyValues.RaisesExactly` | scripts/configure_services.py:916-1007 | the pipeline raises before its commit exactly in the cases listed for it, each said of the wizard's state, the world and the API key shown at the start |
| `ApplyValues.StateFilledIn` | scripts/configure_services.py:916-992 | the state afterwards has the provider's image, the release tag and the path of the key pair filled in and is otherwise as given |
| `ApplyValues.AppliedMeansHolds` | scripts/configure_services.py:916-1007 | a file with the applied values holds, under each literal key, what the wizard's state asks for |
| `ApplyValues.BotTokenUntouched` | scripts/configure_services.py:956-960 | no earlier effect changes the bot token the Telegram step looks at |
| `ApplyValues.UnmanagedUntouched` | scripts/configure_services.py:973-1007 | no plan changes a key the pipeline does not manage |
| `ToolchainCache.LocalStepSound` | hermes_vps_app/hermes_live_metadata.py:171-208 | every step of a call, and every way it can stop, keeps what is known of its directories: the commands seen so far are exactly this call's, and a readable sentinel lies only in a directory of one pass whose seven commands exited 0 |
| `ToolchainCache.OthersUntouched` | hermes_vps_app/hermes_live_metadata.py:145-151 | an event of one cache key changes nothing a running call for another key can see |
| `ToolchainCache.StepKeepsSound` | hermes_vps_app/hermes_live_metadata.py:145-217 | every event of any call keeps the invariant of all calls and directories |
| `ToolchainCache.HistoryIsSound` | hermes_vps_app/hermes_live_metadata.py:145-217 | the invariant holds after every history from an empty root, calls for different keys interleaving |
| `ToolchainCache.ReadyMeansCompletePass` | hermes_vps_app/hermes_live_metadata.py:219-238 | over every interleaved history, with any resolver answers, a directory is found ready only when all commands of one pass for that version and tag exited 0 in it |
| `ToolchainSafety.KeyIsUnique` | hermes_vps_app/hermes_live_metadata.py:156-157 | for versions without a hyphen the cache key determines version and tag |
| `ToolchainSafety.HyphenFreeIsUnambiguous` | hermes_vps_app/hermes_live_metadata.py:104-109 | so calls with dotted versions never share a key without sharing version and tag |
| `ToolchainSafety.RemovalShows` | hermes_vps_app/hermes_live_metadata.py:185-186 | removing files of a directory that is not ready does not make it ready |
| `ToolchainSafety.StepKeepsUndamaged` | hermes_vps_app/hermes_live_metadata.py:145-217 | with a fixed resolver no event makes a directory with removed files ready for its owner |
| `ToolchainSafety.ReadyMeansIntact` | hermes_vps_app/hermes_live_metadata.py:153-254 | over every interleaved history with a fixed resolver in which no two different calls share a key, a ready directory comes from one complete pass and nothing has been removed from it since |
| `ToolchainSafety.SharedKeyDamages` | hermes_vps_app/hermes_live_metadata.py:156-188 | when two different calls do share a key, one can remove files from the directory that is ready for the other and leave it ready, so that condition is needed |
| `ToolchainSafety.CompletedPassIsReady` | hermes_vps_app/hermes_live_metadata.py:198-254 | a completed pass is found ready if and only if the tool and an editable finder are in place and the resolver gives no commit or the recorded one |
| `ToolchainSafety.CutShortIsNotReady` | hermes_vps_app/hermes_live_metadata.py:193-208 | a pass that stops after the move and before a complete sentinel leaves a directory that is not ready |
| `ToolchainSafety.ReadyMeaning` | hermes_vps_app/hermes_live_metadata.py:219-254 | ready means exactly: the sentinel carries version, tag, mode and tool path of this call and a commit the resolver does not contradict, the tool is there, and a finder points at this directory |
| `ToolchainSafety.FinderMeaning` | hermes_vps_app/hermes_live_metadata.py:240-254 | such a finder is a file of the right name in site-packages whose text contains the path of this directory's src and no path into a build directory |
| `ToolchainPrepare.HermesToolchainCache.Interfere` | hermes_vps_app/hermes_live_metadata.py:145-151 | what calls for other keys do between two steps extends the history and is invisible to this call |
| `ToolchainPrepare.HermesToolchainCache.ClearBuildDir` | hermes_vps_app/hermes_live_metadata.py:171-173 | removing a left-over build directory, which may stop half-way, is steps of the machine |
| `ToolchainPrepare.HermesToolchainCache.MakeBuildDir` | hermes_vps_app/hermes_live_metadata.py:174-177 | a fresh build directory |
| `ToolchainPrepare.HermesToolchainCache.RunInBuild` | hermes_vps_app/hermes_live_metadata.py:179-183 | one of the four build commands; it ends the pass unless it exits 0, and the second fixes the commit: what it printed, else the one resolved, else unknown |
| `ToolchainPrepare.HermesToolchainCache.RunBuilds` | hermes_vps_app/hermes_live_metadata.py:179-183 | all four in order, getting through exactly when each exits 0 |
| `ToolchainPrepare.HermesToolchainCache.Build` | hermes_vps_app/hermes_live_metadata.py:171-183 | everything before the final directory is touched, with the exact condition for getting that far and the commit it then has |
| `ToolchainPrepare.HermesToolchainCache.ClearFinalDir` | hermes_vps_app/hermes_live_metadata.py:185-186 | removing the old final directory, which may stop half-way |
| `ToolchainPrepare.HermesToolchainCache.MoveIntoPlace` | hermes_vps_app/hermes_live_metadata.py:187-188 | the built directory becomes the final one |
| `ToolchainPrepare.HermesToolchainCache.RunInFinal` | hermes_vps_app/hermes_live_metadata.py:193-196 | one of the three commands in the final directory |
| `ToolchainPrepare.HermesToolchainCache.RunFinals` | hermes_vps_app/hermes_live_metadata.py:193-196 | all three in order, getting through exactly when each exits 0 |
| `ToolchainPrepare.HermesToolchainCache.Finish` | hermes_vps_app/hermes_live_metadata.py:185-208 | everything from clearing the final directory to the sentinel, with the exact condition for success and the files it leaves |
| `ToolchainPrepare.HermesToolchainCache.MarkReady` | hermes_vps_app/hermes_live_metadata.py:198-208 | the sentinel is written last and may tear |
| `ToolchainPrepare.HermesToolchainCache.BuildAndMark` | hermes_vps_app/hermes_live_metadata.py:171-217 | the steps in order, each only after the one before has succeeded; it succeeds exactly when every step does, and then the directory holds what the build left and the sentinel |
| `ToolchainPrepare.HermesToolchainCache.PrepareLocked` | hermes_vps_app/hermes_live_metadata.py:153-217 | a call that finds its directory ready does nothing but the check and returns the recorded commit, or the resolved one when none is recorded; otherwise, however it ends and whatever calls for other keys do meanwhile, what has happened is a history of the machine, there is a result exactly when every step got through, and then all seven commands exited 0, the commit is what the second printed, else the resolved one, else unknown, and the sentinel carries what is returned |
| `ToolchainPrepare.HistoryGrows` | hermes_vps_app/hermes_live_metadata.py:153-217 | each change made by a call extends a history and keeps the invariant |
| `WizardProtocol.StepKeepsConsistent` | scripts/configure_tui.py:769-874 | every event keeps the invariant that loading means the active request is unanswered, a pending advance carries the active id on the cloud step, and earlier steps are complete |
| `WizardProtocol.RunIsConsistent` | scripts/configure_tui.py:1038-1067 | the invariant holds after every interleaving of user actions and late replies |
| `WizardProtocol.CloudIsLeftByNewestReply` | scripts/configure_tui.py:797-803 | the cloud step is left only by a Next that needs no validation or by the successful reply to the newest request, begun by a validating Next |
| `WizardProtocol.StepMovesExactly` | scripts/configure_tui.py:769-874 | in every reachable state one event moves one step forward exactly when it is an accepted Next whose step was persisted and needs no reply, the newest successful and persisted cloud reply of a pending advance, or the reply the Hermes or Telegram step awaits; one back exactly by Back behind the first step; completed is exactly the step left forward, or the last one when it finishes |
| `WizardProtocol.RequestsExactly` | scripts/configure_tui.py:1229-1264 | when an event begins a cloud request, with which flags, and that no other event but a reply touches them |
| `WizardProtocol.NewestReplyDecides` | scripts/configure_tui.py:1038-1067 | the reply to the newest request ends loading and the pending advance; it moves to the server step, completing the cloud step, exactly when an advance was pending, it is successful and the step could be persisted |
| `WizardProtocol.ValidatingNextArrives` | scripts/configure_tui.py:797-803 | a validating Next on the cloud step followed by anything that does not disturb it, stale replies included, and then by its successful reply, arrives at the server step |
| `WizardProtocol.StaleReplyIsIgnored` | scripts/configure_tui.py:1040-1041 | a reply to any other request changes no flag and no step |
| `WizardProtocol.ValidationsCounted` | scripts/configure_tui.py:1229-1237 | each validating Next with a usable token begins one request |
| `WizardProtocol.AdvancesAreBounded` | scripts/configure_tui.py:1056-1064 | replies move the cloud step forward at most once per validating Next, each reply at most once |
| `WizardObjects.CorrelatedTask.constructor` | scripts/configure_async.py:21-23 | no request is active at first |
| `WizardObjects.CorrelatedTask.Begin` | scripts/configure_async.py:29-32 | the new id is active and greater than all before |
| `WizardObjects.CorrelatedTask.Cancel` | scripts/configure_async.py:37-38 | no id handed out is current any more |
| `WizardObjects.FlowCoordinator.constructor` | scripts/configure_flow.py:41-43 | starts at the given step with nothing complete |
| `WizardObjects.FlowCoordinator.Create` | scripts/configure_flow.py:34-43 | a coordinator for every step there is, and an error exactly for a step count or a step out of range |
| `WizardObjects.FlowCoordinator.Advance` | scripts/configure_flow.py:63-70 | the step left is complete, the last step is not left, and all steps behind the current one stay complete |
| `WizardObjects.FlowCoordinator.Back` | scripts/configure_flow.py:72-76 | one step back, never before the first, and completion is unchanged |
| `WizardObjects.ConfigureTui.LoadCloudOptions` | scripts/configure_tui.py:1229-1264 | the handler does the protocol's step for a new cloud request |
| `WizardObjects.ConfigureTui.AdvanceAndRender` | scripts/configure_tui.py:840-845 | moves forward as the protocol says |
| `WizardObjects.ConfigureTui.PersistCloudStepAndAdvance` | scripts/configure_tui.py:851-859 | a failed write of the step drops the pending advance, otherwise it moves forward |
| `WizardObjects.ConfigureTui.ActionNext` | scripts/configure_tui.py:769-838 | does the protocol's step for Next |
| `WizardObjects.ConfigureTui.ActionBack` | scripts/configure_tui.py:871-874 | does the protocol's step for Back |
| `WizardObjects.ConfigureTui.OnProviderChanged` | scripts/configure_tui.py:954-968 | does the protocol's step for a changed provider |
| `WizardObjects.ConfigureTui.OnLocationChanged` | scripts/configure_tui.py:970-973 | does the protocol's step for a changed location |
| `WizardObjects.ConfigureTui.RenderStep` | scripts/configure_tui.py:405-412 | does the protocol's step for showing the cloud step again |
| `WizardObjects.ConfigureTui.CloudLoaded` | scripts/configure_tui.py:1038-1067 | does the protocol's step for a reply, current or stale, advancing on the newest one when an advance is pending |

## Left out

- Runtime states are values in a dictionary, so two names for one state object are not modelled;
  timestamps, labels, event messages and details, redaction and JSON output are not either.
- The host-override gate, the policy gate of a graph and the audit log; a raising event sink.
- Retry delays: the engine never reads them.
- EngineCore.Engine.Run: exceptions outside `Exception` and the recursion limit of the
  validator's search are not modelled.
- Reporting.FailedNode: the repair scopes, runner modes and error categories shown with it.
- The template model is that of a pattern without groups and follows Python 3.12 and later on
  `\g<`: only digits name a group. Python 3.11 also reads `\g<+0>`, `\g< 0 >` and `\g<0_0>` as the
  whole match; a value with such a reference is not storable over an existing line in any case.
- Keys containing `=`, a backslash or a line break: no key of the program does.
- EnvStorage.EnvStore.Flush: file modes, and an error raised by the final `chmod` after the
  replacement has taken place.
- EnvFiles.EnvFile.SetEnvValue: a write that fails half-way, since the file is not replaced
  atomically there.
- ConfigService.ProjectConfigEnvService.SaveDraft: when `.env` did not exist and was created from
  the template, nothing is promised about the reloaded draft, because the patch was compared with
  the absent file; `WritePatch` says what the file then reads. The SSH material the panel adds to a
  patch between the two steps is a matter of `WritePatch`, which takes any list of changes.
- Drafts are values: the fields edited in place, `change_provider`, the validation messages and
  the redacted displays are not modelled; nor are the alias flag and the fields that are not
  written to the file.
- ConfigModel.CreatePatch: the order of the changes in a patch is not stated.
- ApplyPipeline.ConfigureOrchestrator.RunApplyEffect: the SSH configuration, the key files and the
  OAuth artifact are outcomes given from outside; what happens to them when a later effect raises
  is not stated, only what happens to the `.env` file.
- ApplyPipeline.ConfigureOrchestrator.PersistHermesStep: the recap text of the artifact, and how
  the release tag is found, which does not raise.
- SSH host-block editing, subprocess, OpenTofu, GitHub and Telegram code, and the panel's widgets.
- ToolchainPrepare.HermesToolchainCache.PrepareLocked: the lock file is taken to work, so that a call
  starts only when no other call for its key runs; running calls are taken to build in directories
  of different names; a command's output is given with the blanks at its ends removed; commands are taken not to write the sentinel or other calls' directories; ready fields that the readiness check does not look at
  are dropped; an unreadable finder file is not modelled.
- ToolchainSafety.ReadyMeansIntact: assumes a resolver that always answers the same for a tag;
  `ReadyMeansCompletePass` does not.
- `jump_to` and `force_active`, which are for tests and deep links. The wizard starts at the first
  step.
- WizardObjects.ConfigureTui.ActionNext: the flags of the Hermes and Telegram workers, reading the
  widgets and the step's own checks are outcomes carried by the event.
