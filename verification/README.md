# Angelus: verified models

Angelus runs agent sessions: a session has a durable blueprint of workers, connections and task
plans, and a live swarm built from it. This project models the parts of it that keep state or
transform structured data, and proves what they promise.

| files | part of Angelus |
|---|---|
| `Blueprint`, `Topology`, `PlanTree`, `Plans`, `PlanProofs`, `PlanRuns`, `LeafFields`, `FirstOccurrences`, `SubmittedPlans`, `EditEffects`, `Codec`, `CodecProofs`, `CodecReads`, `CodecDocuments`, `StateFile`, `Reloads`, `ConsoleState`, `ConsoleRuns`, `ConsoleSteps`, `Superseded` | the session blueprint: graph edits with cycle rejection, recursive task plans with derived states and assignments, the strict JSON codec with its migration, the state file and what a restart changes, the object that holds and writes all of it |
| `Gateway`, `GatewaySession`, `GatewayProofs`, `GatewayCommits` | write-ahead edits on the blueprint, mirrored to the live swarm, with rollback |
| `SqlScope`, `SqlScopeProofs`, `SqlChecker`, `SqlVisits`, `SqlSyntax`, `SqlReports`, `SqlWays`, `SqlTexts`, `SqlFindings`, `SqlMeaning`, `SqlSoundness`, `SqlEscapes`, `SqlScripts` | the static checker of SQL calls and its soundness |
| `AbstractText`, `DisplayedTexts` | the streaming filter for compaction summaries |
| `SlashTokens`, `SlashProofs`, `SlashOpenEnds`, `SlashParses`, `SlashPalette`, `PaletteOffers`, `SlashCatalog` | the slash command tokenizer, parser and completion |
| `Steering`, `StopRequests`, `Names` | steering queues and stop requests of running agents |
| `PlanBlock`, `PlanLines`, `PlanMarkup` | the bounded plan block of model requests |
| `Idempotency`, `ExternalAnswers` | the bounded cache of external actions |
| `Instances`, `InstanceStarts` | the scheduler of challenge instances |
| `JsonDiff`, `DiffPaths` | the field-level comparison of documents |
| `IndexSync`, `ShippedMarkers`, `MarkedText` | the rewriter of generated index sections |
| `Wrappers`, `Dicts`, `PyText`, `TextLaws`, `Splits`, `Json` | options, insertion-ordered dicts, string operations, JSON values |

Where the source updates objects in place (console, session, checker, filter, control registry,
walk, link, run, difference list) the model has a class whose methods are proved against
specification functions; the theorems are about those functions and about runs of them. Modules of
exact laws (`SqlWays`, `GatewayCommits`, `LeafFields`, `SubmittedPlans`, `CodecDocuments`, `PaletteOffers`
and the like) say what the functions compute in terms of the inputs alone.

## Inputs and assumptions

- The live swarm is a graph that answers each call by accepting, by returning an error text, or by
  raising, and in the last two cases may or may not have applied the call. Its router keeps each
  target once. The theorems say which answers they need.
- Every disk write is an input: it succeeds or fails as a whole.
- Clocks, generated names, `str()` of values that are not strings, the SQL patterns of the checker
  and the outcome of provider and platform calls are inputs.
- A name means what the checker's own lookup finds, a subscript selects from dicts only, and an
  expression the checker does not understand may be anything.
- A `**mapping` in a call without a second argument may pass anything as the parameters; when a call
  names parameters by several keywords, any of them may count.
- Where texts of several statements are concerned: the INSERT pattern matches no semicolon, and removing
  comments and literals leaves a leading keyword in front.
- The file of external links keeps the order of its entries; the code that reads and writes it is not
  part of this model.
- Numbers with a fraction are reals. Lower-casing covers ASCII letters.

## Where the code and its documentation differ

- Removing a worker is documented as removing every setting of it; its task plan stays.
- `set_plan` accepts execution data on parents. A report that names such a parent at the root of a
  plan sets its state directly, so derived states stay correct only under the stated condition.
- The decoder does not check the graph it loads, and accepts a worker named like the coordinator.
- In the gateway the console mutator is called before the guarded part: when its write fails, the
  blueprint in memory is edited and the swarm is not, and nothing rolls back.
- Error texts are checked for direct swarm calls, and ignored while rebuilding a swarm and while
  undoing an add.
- The state file is written with sorted keys, so plans come back in key order; where two plans hold a
  task of one name, a bind or a report after a restart can go to the other one.
- A dispatch is guarded by a search for the task as a leaf in any plan, and then binds in the first
  plan that holds the task at all: the guard can pass and the bind be refused.
- In the checker, of several statements on one line that bind a name the first one counts. Its walk of
  a signature is documented to visit annotations; those of arguments are never visited, nor are lambda
  defaults, class keywords and type parameters. It sees no parameters in a spread mapping, and it reads a
  script of several statements as one: `PRAGMA foreign_keys=ON; INSERT INTO t VALUES (1)` passes. A text
  that is subscripted itself, and so never issued, is judged like a statement.
- An assignment that is bound to its task again keeps its earlier place in the task's list.
- The slash tokenizer is documented to unescape only quotes and backslashes inside double quotes; it
  unescapes any character. A flag named `__proto__` is dropped.
- A summary without its open tag is not shown until it is longer than 240 characters, and then from
  its beginning.
- The plan block escapes what must not be read as markup, but not the names of tasks, nor quotes in
  the agent's name, nor line breaks outside descriptions.
- Asking whether an agent should stop registers it.
- An executed external action whose record cannot be written is executed again by a retry.
- The comparison of documents takes `true` for `1`.

## Model

| member | source | states |
|---|---|---|
| Topology.OrderSurvivesEdge | angelus/modules/console_module/console_state.py:299-311 | An added edge keeps a topological order exactly when its target does not already lead back to its source. |
| Topology.RefusedExactlyWhenCyclic | angelus/modules/console_module/console_state.py:289-311 | Between two distinct known agents a new edge is refused as cyclic exactly when the graph with it has a cycle. |
| Topology.ApplyKeepsValid | angelus/modules/console_module/console_state.py:252-355 | Every accepted edit keeps the edges duplicate-free, ordered and between known agents, and mapper and router references known. |
| Topology.ReachableIsValid | angelus/modules/console_module/console_state.py:252-355 | Every blueprint that edits reach from the empty one has that invariant and no cycle. |
| Topology.RemovalIsComplete | angelus/modules/console_module/console_state.py:267-285 | Removing a worker removes it from edges, mappers, routers and every target list, keeps every other setting, and leaves all plans. |
| Topology.OrderedIsAcyclic | angelus/modules/console_module/console_state.py:299-311 | A topological order rules out every closed path. |
| EditEffects.AcceptedExactlyWhen | angelus/modules/console_module/console_state.py:252-355 | An edit is accepted exactly when its names, endpoints, mode or targets are what the console asks for and, for a new edge, no path leads back. |
| EditEffects.RefusedExactlyFor | angelus/modules/console_module/console_state.py:252-355 | A refused edit is refused for the first of what speaks against it, in the order of the checks. |
| EditEffects.NameExactly | angelus/modules/console_module/console_state.py:169-169 | A worker name is a letter and up to 63 letters, digits, underscores and dashes. |
| EditEffects.EffectIsExact | angelus/modules/console_module/console_state.py:252-355 | Field by field, an accepted edit leaves what it says, a new worker its prompt and role included, and every other setting in its place and order. |
| ConsoleStates.ConsoleState.Save | angelus/modules/console_module/console_state.py:223-229 | The stored copy becomes the blueprint, or the write fails and the stored copy stays. |
| ConsoleStates.ConsoleState.Replace | angelus/modules/console_module/console_state.py:239-250 | The blueprint in memory becomes the given one, written or not. |
| ConsoleStates.ConsoleState.AddWorker | angelus/modules/console_module/console_state.py:252-265 | Memory and disk afterwards are those of the specified edit; a refusal changes neither. |
| ConsoleStates.ConsoleState.RemoveWorker | angelus/modules/console_module/console_state.py:267-285 | The removal loops over edges, mappers and routers compute the specified cascading removal. |
| ConsoleStates.ConsoleState.LeadsBack | angelus/modules/console_module/console_state.py:299-311 | The depth-first search ends and answers whether a path leads from the target back to the source. |
| ConsoleStates.ConsoleState.AddConnection | angelus/modules/console_module/console_state.py:289-311 | Checks in order, then the search: the state and the refusal are those of the path-based specification. |
| ConsoleStates.ConsoleState.RemoveConnection | angelus/modules/console_module/console_state.py:313-326 | An existing edge goes; a missing one is refused and changes nothing. |
| ConsoleStates.ConsoleState.SetMapper | angelus/modules/console_module/console_state.py:328-341 | A known agent gets one of the three modes; anything else is refused and changes nothing. |
| ConsoleStates.ConsoleState.SetRouter | angelus/modules/console_module/console_state.py:343-355 | Targets are stored once each in first-occurrence order, provided all are known agents. |
| ConsoleStates.ConsoleState.SetPlan | angelus/modules/console_module/console_state.py:370-393 | The agent's plan becomes the normalized one; a refusal leaves memory and disk. |
| ConsoleStates.ConsoleState.UpdateTaskStatus | angelus/modules/console_module/console_state.py:395-428 | The agent's plan becomes the one with that leaf rewritten; a parent or an unknown task changes nothing. |
| ConsoleStates.ConsoleState.BindExecution | angelus/modules/console_module/console_state.py:440-455 | The first plan that holds the task gets the assignment on that leaf; a parent or an unknown task is refused. |
| ConsoleStates.ConsoleState.UpdateAssignmentStatus | angelus/modules/console_module/console_state.py:457-472 | The first plan the report changes is stored and written; a report that changes none writes nothing. |
| ConsoleStates.ConsoleState.HasTask | angelus/modules/console_module/console_state.py:430-433 | True exactly when some plan holds the task. |
| ConsoleStates.ConsoleState.IsBindableLeaf | angelus/modules/console_module/console_state.py:435-438 | True exactly when the first match in some plan is a leaf. |
| ConsoleSteps.LandsExactly | angelus/modules/console_module/console_state.py:223-250 | A call that saves is one step of a run, and its answer says whether it was done, refused or not written. |
| ConsoleSteps.StepExactly | angelus/modules/console_module/console_state.py:223-472 | A refused call changes nothing, an accepted one is in memory, and on disk when it is written; while every write succeeds both are the same. |
| ConsoleRuns.CallKeepsFit | angelus/modules/console_module/console_state.py:252-472 | Every accepted console call keeps the graph invariant, unique names and storable fields; and it keeps all derived states correct exactly when it is not a report that disagrees with a listening root parent of the plan it changes. |
| ConsoleRuns.ReloadKeepsFit | angelus/modules/console_module/console_state.py:179-207 | So does a restart: the state file of such a console decodes to one, with its derived states as they were. |
| ConsoleRuns.RunKeepsFit | angelus/modules/console_module/console_state.py:209-472 | So does every run of calls and restarts, with writes failing anywhere, for memory and disk. |
| ConsoleRuns.RunIsGoodExactlyWhile | angelus/modules/console_module/console_state.py:209-472 | Over such a run derived states are correct after every event exactly when no accepted call is such a report. |
| ConsoleRuns.ReachableReloads | angelus/modules/console_module/console_state.py:110-229 | After any run from the empty console the state file decodes to what was last written with its dicts in key order, and the graph in memory has no cycle. |
| StateFile.SortIsIdentityExactlyWhen | angelus/modules/execution_module/checkpoint_store.py:16-24 | Writing with sorted keys leaves a dict as it is exactly when its keys ascend. |
| StateFile.ReloadSorts | angelus/modules/console_module/console_state.py:179-229 | The document written with sorted keys at every level decodes to the blueprint with workers, mappers, routers and plans in key order. |
| StateFile.ReloadIsIdentityExactlyWhen | angelus/modules/console_module/console_state.py:179-229 | It decodes to the very blueprint exactly when those four are in key order already; a second reload changes nothing more. |
| Reloads.FirstStaysExactlyWhen | angelus/modules/console_module/console_state.py:179-229 | The first plan that passes a test is still the first after a reload exactly when no plan of a lesser name passes it. |
| Reloads.BindFindsSamePlanExactlyWhen | angelus/modules/console_module/console_state.py:440-455 | After a reload a bind goes to the same plan exactly when no plan of a lesser name holds the task. |
| Reloads.ReportFindsSamePlanExactlyWhen | angelus/modules/console_module/console_state.py:457-472 | After a reload a report changes the same plan exactly when it would change no plan of a lesser name. |
| Reloads.UpdateIgnoresReload | angelus/modules/console_module/console_state.py:395-428 | An update after a reload gives what the update before it gives, in key order. |
| Reloads.BindSurvivesReload | angelus/modules/console_module/console_state.py:440-455 | So does a bind that finds the same plan, refusals included. |
| Reloads.ReportSurvivesReload | angelus/modules/console_module/console_state.py:457-472 | So does a report that finds the same plan. |
| Reloads.BindMovesAfterReload | angelus/modules/console_module/console_state.py:440-455 | Two plans that hold a task of one name: before a restart a bind goes to one agent, afterwards to the other. |
| PlanTree.FoldIsFlat | angelus/modules/console_module/console_state.py:671-680 | Folding the children of a settled parent gives the flat function of its leaves: all completed, else any blocked, else all not started, else in progress. |
| PlanTree.DeriveSettles | angelus/modules/console_module/console_state.py:671-680 | Deriving settles every parent of any tree and keeps leaves, names and shape. |
| PlanTree.DeriveFixes | angelus/modules/console_module/console_state.py:671-680 | Deriving a settled tree is the identity. |
| PlanTree.SettledIsDetermined | angelus/modules/console_module/console_state.py:671-680 | The tree shape and its leaves determine a settled plan. |
| PlanTree.UniqueMeansNoDup | angelus/modules/console_module/console_state.py:648-651 | Nested uniqueness is the absence of repeats in the preorder list of names. |
| PlanProofs.NormalizeAllFacts | angelus/modules/console_module/console_state.py:644-668 | With the shared set of seen names, every normalized forest has pairwise different new names and valid fields. |
| PlanProofs.SetPlanIsGood | angelus/modules/console_module/console_state.py:370-393 | An accepted plan has unique names and settled parents; no other agent's plan changes. |
| SubmittedPlans.TasksReadExactly | angelus/modules/console_module/console_state.py:644-668 | A task list is accepted as exactly the forest it says: stripped new names, titles and descriptions cut to their lengths, defaults, flags as numbers, executions of non-empty texts, every refusal included. |
| SubmittedPlans.SetPlanStoresExactly | angelus/modules/console_module/console_state.py:370-393 | A submission is accepted exactly when its goal is not blank and its tasks can be read; then the plan with the stripped and cut goal and summary, the time and the derived tasks is stored in its place, every other plan as it was. |
| TextLaws.StripsExactly | angelus/modules/console_module/console_state.py:376-385 | Stripping takes the spaces off both ends and nothing else. |
| PlanProofs.ResubmittingIsIdentity | angelus/modules/console_module/console_state.py:644-668 | Submitting the encoding of a clean stored plan reproduces every field of every task. |
| PlanProofs.EditIsMapLeaves | angelus/modules/console_module/console_state.py:405-425 | The recursive edit refuses exactly a parent and otherwise is a leaf rewrite that settles the tree. |
| PlanProofs.EditIsExact | angelus/modules/console_module/console_state.py:405-425 | A successful edit rewrites exactly that leaf as told, settles its ancestors, keeps the tree and everything off the path. |
| PlanProofs.EditSucceedsExactlyOnLeaves | angelus/modules/console_module/console_state.py:405-425 | On a plan with unique names an edit succeeds exactly for the name of a leaf. |
| LeafFields.UpdateAcceptedExactlyWhen | angelus/modules/console_module/console_state.py:395-428 | On a plan with unique names an update is accepted exactly for a known state and a leaf of the agent's plan. |
| LeafFields.UpdateIsStored | angelus/modules/console_module/console_state.py:395-428 | After an accepted update the named leaf has the parsed state and every other field as before; only its plan gets the new time, every other leaf and plan stays. |
| LeafFields.BindAcceptedExactlyWhen | angelus/modules/console_module/console_state.py:440-455 | A bind is accepted exactly for an assignment that is not blank and a task that the first plan holding it does not hold as a parent. |
| LeafFields.BindIsStored | angelus/modules/console_module/console_state.py:440-455 | After a bind the leaf is in progress, the assignment is its active one, and its list holds the earlier assignments and the new one, each once in the order of first occurrence; nothing else changes. |
| FirstOccurrences.OneMoreName | angelus/modules/console_module/console_state.py:446-452 | A list without repeats gets a new name at its end, and stays as it is for a known one. |
| LeafFields.ReportIsStored | angelus/modules/console_module/console_state.py:457-472 | After a report each listening leaf of the first plan that has one has the reported state and time and nothing else new; without a listener nothing changes. |
| LeafFields.ListeningRootIsReported | angelus/modules/console_module/console_state.py:457-472 | A listening task at the root of a plan, parent or leaf, takes the reported state and time as it stands. |
| PlanProofs.GuardedBindSucceedsExactlyWhen | angelus/modules/console_module/console_tools.py:373-374 | When the guard of a dispatch has passed, the bind succeeds exactly when the first plan that holds the task holds it as no parent. |
| PlanProofs.GuardDoesNotSuffice | angelus/modules/console_module/console_tools.py:373-374 | A parent in the first plan and a leaf of that name in the second: the guard passes and the bind is refused. |
| PlanProofs.ReportIsExact | angelus/modules/console_module/console_state.py:457-472 | With executions on leaves only, a report changes exactly the leaves whose active assignment it names, and their ancestors. |
| PlanProofs.ReportSettlesExactlyWhen | angelus/modules/console_module/console_state.py:457-472 | With executions anywhere, derived states stay correct exactly when no root that is a parent and listens disagrees with the reported status. |
| PlanProofs.ParentExecutionBreaksTheFold | angelus/modules/console_module/console_state.py:457-472 | A plan whose parent carries an execution shows that the condition is needed. |
| PlanRuns.RunRefinesFlat | angelus/modules/console_module/console_state.py:395-472 | Over every interleaving of edits, binds and reports the plan trees refine flat lists of leaves, and stay sound and of the same shape. |
| PlanRuns.QuietReportIsNoOp | angelus/modules/console_module/console_state.py:457-472 | A report for an assignment that no leaf listens to changes nothing. |
| PlanRuns.SupersededIsIgnored | angelus/modules/console_module/console_state.py:440-472 | Once the only leaf of an assignment is rebound, reports for it change nothing over any later run that does not bind it again. |
| Superseded.ReportIsIgnoredExactlyWhen | angelus/modules/console_module/console_state.py:457-472 | A report in a known state writes nothing, and changes nothing, exactly when no task at any depth has its assignment as the active one. |
| Superseded.SilentExactlyWhile | angelus/modules/console_module/console_state.py:209-472 | Over a run of console calls, restarts and failing writes, nobody listens to a silenced assignment after any event exactly when no accepted call binds it or submits it as active. |
| Superseded.SupersededIsIgnored | angelus/modules/console_module/console_state.py:370-472 | Once the only task of an assignment is rebound and written, reports for it are ignored over every such later run, whichever tasks carry executions. |
| CodecProofs.ItemsInverse | angelus/modules/console_module/console_state.py:589-641 | Task trees of any depth survive encoding and decoding, every field included. |
| CodecProofs.RoundTrip | angelus/modules/console_module/console_state.py:110-164 | Decoding the encoding of any storable blueprint gives it back. |
| CodecProofs.DecodedIsStorable | angelus/modules/console_module/console_state.py:118-164 | Whatever document of either schema is accepted decodes to a storable blueprint. |
| CodecProofs.DecodeIsStable | angelus/modules/console_module/console_state.py:110-164 | Re-encoding an accepted document, migrated or not, and decoding it again changes nothing. |
| CodecProofs.StorableExactlyWhenDecodable | angelus/modules/console_module/console_state.py:495-641 | The storable blueprints are exactly the values the decoder can produce. |
| CodecProofs.GroupedByOwner | angelus/modules/console_module/console_state.py:554-569 | Each owner's migrated plan holds that owner's entries, decoded, in their original order. |
| CodecProofs.GroupingConserves | angelus/modules/console_module/console_state.py:554-569 | The migrated plans together hold as many tasks as the flat list has entries. |
| CodecProofs.LegacyPlansAreGrouped | angelus/modules/console_module/console_state.py:118-164 | An accepted schema-1 document carries exactly the grouped plans of its flat list. |
| CodecProofs.MigrationPartitions | angelus/modules/console_module/console_state.py:554-569 | Every entry has one owner, and an agent has a plan exactly when it owns an entry. |
| CodecDocuments.DecodesExactly | angelus/modules/console_module/console_state.py:118-164 | A document decodes to exactly the blueprint it stands for: no schema version or 1 with the schema-1 fields and the flat list grouped by owner in order of first occurrence, or 2 with the schema-2 fields; absent optional fields are their defaults. |
| CodecDocuments.AcceptedExactlyWhen | angelus/modules/console_module/console_state.py:118-164 | A document is accepted exactly when it stands for some blueprint. |
| CodecReads.TaskReads | angelus/modules/console_module/console_state.py:589-641 | A task object decodes to exactly the task whose fields it holds or leaves to their defaults, and to none when a field is unknown or of another kind. |
| CodecReads.StatusIsItsName | angelus/modules/console_module/console_state.py:589-605 | Each of the four states is read from its one name and from no other text. |
| CodecProofs.DecoderAcceptsCycles | angelus/modules/console_module/console_state.py:528-542 | The decoder accepts a cyclic graph between unknown agents: the graph is not checked on load. |
| CodecProofs.DecoderAcceptsCoordinatorWorker | angelus/modules/console_module/console_state.py:495-527 | It accepts a worker named like the coordinator. |
| GatewayProofs.MirrorMatches | angelus/modules/application_module/swarm_graph_service.py:250-345 | An edit the console accepts means the same on the live graph. |
| GatewayProofs.UndoAdd | angelus/modules/application_module/swarm_graph_service.py:31-47 | Removing the worker that a failed add left, or did not leave, gives the live graph back. |
| GatewayProofs.BuiltIsLiveExactlyWhen | angelus/modules/application_module/session_service.py:396-406 | A rebuilt swarm equals the durable graph exactly when every step took effect. |
| GatewayProofs.EditAgreesExactlyWhen | angelus/modules/application_module/swarm_graph_service.py:494-532 | After any edit from agreement the two sides agree exactly under stated answers of swarm and disk. |
| GatewayProofs.DispatchAgreesExactlyWhen | angelus/modules/application_module/swarm_graph_service.py:347-400 | The same for a dispatch, with its callback and its undo. |
| GatewayProofs.EditIsAllOrNothing | angelus/modules/application_module/swarm_graph_service.py:250-345 | When failing answers are atomic, an edit commits on both sides or leaves the exact earlier state. |
| GatewayProofs.DispatchIsAllOrNothing | angelus/modules/application_module/swarm_graph_service.py:347-400 | So does a dispatch whose undoing removal takes effect. |
| GatewayProofs.SidesStayEqual | angelus/modules/application_module/swarm_graph_service.py:250-400 | Over every run of edits, dispatches, rebuilds and attempts with such answers, durable and live graphs stay equal and valid. |
| GatewayProofs.NextAgreesExactlyWhen | angelus/modules/application_module/swarm_graph_service.py:250-400 | After any one event from agreement, edit, dispatch, rebuild or attempt boundary, the sides agree exactly under stated answers. |
| GatewayProofs.RunAgreesExactlyWhile | angelus/modules/application_module/swarm_graph_service.py:250-400 | Over a whole run under any answers, failed writes and ignored texts included, the sides agree after every event exactly when every event is answered in step. |
| GatewayProofs.SilentRejectionDiverges | angelus/modules/application_module/session_service.py:397-404 | An error text ignored while rebuilding commits an edit and leaves the sides different. |
| GatewayCommits.EditCommitsExactlyWhen | angelus/modules/application_module/swarm_graph_service.py:494-532 | An edit commits exactly when the console accepts it, it is written, and either the session is idle and its rebuild, if it has a coordinator, does not raise, or it runs with a swarm, for an add with a new worker, and the swarm accepts. |
| GatewayCommits.CommittedLiveEditHolds | angelus/modules/application_module/swarm_graph_service.py:494-532 | After a committed live edit memory, disk and swarm hold the edited graph, and agents and stop controls follow it. |
| GatewayCommits.CommittedIdleEditHolds | angelus/modules/application_module/session_service.py:378-406 | After a committed idle edit memory and disk hold it, and a rebuilt swarm runs it when no call was silently dropped. |
| GatewayCommits.OtherEndings | angelus/modules/application_module/swarm_graph_service.py:494-532 | A refused edit changes nothing, an unwritten one stays in memory, and any other that does not commit is taken back in memory, and on disk when that write succeeds. |
| GatewayCommits.DispatchCommitsExactlyWhen | angelus/modules/application_module/swarm_graph_service.py:250-400 | A dispatch commits exactly when the worker is accepted and written, a running swarm takes it, and the plan leaf, if one is named, is bound and written. |
| GatewayCommits.CommittedDispatchHolds | angelus/modules/application_module/swarm_graph_service.py:250-400 | After a committed dispatch memory and disk hold the worker and the bound plans, and the swarm runs the worker. |
| GatewaySessions.Session.RebuildSwarm | angelus/modules/application_module/session_service.py:378-406 | Nothing of the session changes without a coordinator or when a step raises; else swarm and agents are those of the fresh graph. |
| GatewaySessions.FreshSwarm | angelus/modules/application_module/session_service.py:394-405 | The four loops compute the fresh graph and the agent list. |
| GatewaySessions.Session.Undo | angelus/modules/application_module/swarm_graph_service.py:31-47 | The snapshot is restored and a live add undone, each whatever the other does. |
| GatewaySessions.Session.AddAgent | angelus/modules/application_module/swarm_graph_service.py:250-297 | Session and console afterwards are those of the specified write-ahead edit. |
| GatewaySessions.Session.RemoveAgent | angelus/modules/application_module/swarm_graph_service.py:299-345 | Session and console afterwards are those of the specified write-ahead edit. |
| GatewaySessions.Session.Mutate | angelus/modules/application_module/swarm_graph_service.py:494-532 | Session and console afterwards are those of the specified write-ahead edit. |
| GatewaySessions.Session.DispatchAgent | angelus/modules/application_module/swarm_graph_service.py:347-400 | Session and console afterwards are those of the specified dispatch. |
| SqlScope.CollectAssignments | scripts/check_sql_binding.py:159-183 | The worklist loop builds the table of bindings, each name's entries stably sorted by line. |
| SqlScope.LookupName | scripts/check_sql_binding.py:145-156 | The early-exit scan and its walk outwards compute the specified lookup. |
| SqlScopeProofs.DrainIsVisible | scripts/check_sql_binding.py:166-181 | The worklist yields exactly the bindings not inside a nested function, class or lambda. |
| SqlSyntax.OwnExactly | scripts/check_sql_binding.py:171-179 | Plain names among the targets of an assignment are bound to its value at its line, and so is the name of an annotated one with a value; nothing else binds. |
| SqlSyntax.BodiesOwnTheirNames | scripts/check_sql_binding.py:166-180 | Functions, classes and lambdas hide all names below them; any other node adds its own and those below. |
| SqlScopeProofs.CollectsExactly | scripts/check_sql_binding.py:159-183 | Under each name the table holds exactly its visible bindings, in line order. |
| SqlScopeProofs.ScanFindsLatest | scripts/check_sql_binding.py:147-153 | The early exit over sorted entries yields an entry with the greatest line not after the use, if there is one. |
| SqlScopeProofs.LookupFindsLatest | scripts/check_sql_binding.py:145-156 | Lookup returns a latest binding of the innermost scope that has one at or before the use. |
| SqlScopeProofs.DrainReverses | scripts/check_sql_binding.py:166-181 | The worklist, popped from its end, meets the bindings of a name in reverse program order. |
| SqlScopeProofs.LookupTakesTheFirst | scripts/check_sql_binding.py:145-183 | In any suite lookup returns the binding of the greatest line not after the use that comes first in program order. |
| SqlScopeProofs.LookupTakesTheLastExactlyWhen | scripts/check_sql_binding.py:145-183 | It returns what was bound last in program order exactly when the first and the last binding on that line bind the same; it is the very same binding exactly when no other of the name is on the line. |
| SqlScopeProofs.SameLineTakesTheFirst | scripts/check_sql_binding.py:166-183 | Two plain assignments on one line show it: the first is found. |
| SqlChecker.FileChecker.Fail | scripts/check_sql_binding.py:209-217 | A violation is appended unless an equal one is already there. |
| SqlChecker.FileChecker.ApplySqlRules | scripts/check_sql_binding.py:336-406 | The violations grow by exactly the findings of the statement. |
| SqlChecker.FileChecker.InspectCall | scripts/check_sql_binding.py:408-448 | The violations grow by exactly the findings of the call. |
| SqlChecker.FileChecker.Walk | scripts/check_sql_binding.py:450-498 | The recursive walk inspects exactly the specified call sites, each in its scope. |
| SqlChecker.FileChecker.Run | scripts/check_sql_binding.py:500-502 | The whole file is checked in its module scope. |
| SqlVisits.VisitedExactly | scripts/check_sql_binding.py:450-498 | A call is inspected in a scope exactly when it occurs there, through any children, outside lambda defaults, argument annotations, class keywords and type parameters. |
| SqlSyntax.PartsAreAll | scripts/check_sql_binding.py:451-503 | Every part of every kind of node is visited in the same scope, visited in a scope of its own, or never visited. |
| SqlSyntax.PlacesExactly | scripts/check_sql_binding.py:451-503 | Only function bodies get their own scope; only argument annotations, defaults of lambdas, class keywords and type parameters are never visited. |
| SqlReports.FileReportsExactly | scripts/check_sql_binding.py:200-219 | A violation is reported of a file exactly when a call in a visited place has that finding, with its line and rule, and once. |
| SqlReports.ParametersExactly | scripts/check_sql_binding.py:408-448 | The parameters of a call are its second argument, else the value of the last keyword that names them. |
| SqlReports.SqlCallExactly | scripts/check_sql_binding.py:410-412 | Exactly the calls of the three methods are looked at, whatever they are called on. |
| SqlReports.NamedExactly | scripts/check_sql_binding.py:88-88 | A named placeholder is a colon with a letter or an underscore behind it. |
| SqlMeaning.ResolveCovers | scripts/check_sql_binding.py:220-289 | Without a reason to give up, every text an expression can hold, through names, conditionals, boolean operators and nested dicts, is among the resolved ones; resolution ends on cyclic bindings. |
| SqlWays.ResolvesExactly | scripts/check_sql_binding.py:220-289 | The texts and the obstacles that resolution yields are exactly those at the ends of the ways through conditionals, boolean operators, dict values, subscripts and names that do not repeat. |
| SqlWays.AssembledExactlyWhen | scripts/check_sql_binding.py:408-448 | A call is reported as assembled in some way exactly when a way through its statement ends at that. |
| SqlWays.LiteralsAreAccepted | scripts/check_sql_binding.py:408-448 | No assembly is reported exactly for statements built of string literals along such ways. |
| SqlWays.DispatchIsAccepted | scripts/check_sql_binding.py:271-281 | Looking a literal up in a dict of literals, the recommended form, is built of literals. |
| SqlWays.JudgedExactlyWhen | scripts/check_sql_binding.py:408-448 | A rule is reported broken exactly when a text that a way leads to breaks it. |
| SqlWays.SlotReportedExactlyWhen | scripts/check_sql_binding.py:427-448 | An interpolated identifier is reported exactly when the statement itself is an f-string with one. |
| SqlTexts.JudgedCanBeIssuedExactlyWhen | scripts/check_sql_binding.py:220-289 | A judged text is one that the statement can be exactly when a way leads to it that takes out of dicts as often as it goes into them. |
| SqlTexts.SubscriptedTextIsJudged | scripts/check_sql_binding.py:280-281 | A subscripted literal is judged as a statement although no value holds it. |
| SqlWays.KindExactly | scripts/check_sql_binding.py:291-333 | Parameters are taken for dicts, or for sequences, exactly when every way through conditionals, boolean operators and names ends at one. |
| SqlFindings.ExemptExactlyWhen | scripts/check_sql_binding.py:336-352 | The rules are not applied to blank texts and to those that begin with a known keyword, alone or before a space. |
| SqlFindings.NamesColumnsExactlyWhen | scripts/check_sql_binding.py:354-366 | An INSERT lacks its columns exactly when no parenthesis follows its table but for spaces. |
| SqlFindings.EachFindingExactlyWhen | scripts/check_sql_binding.py:336-406 | Each rule is reported exactly when it is broken. |
| SqlFindings.BindingsReportedExactlyWhen | scripts/check_sql_binding.py:388-406 | Where named placeholders are filled, a sequence is reported exactly when every way ends at one, and an unverified binding exactly when they end neither all at dicts nor all at sequences. |
| SqlMeaning.DictKindBindsDicts | scripts/check_sql_binding.py:291-333 | An argument classified as a dict can only evaluate to dicts or lists of dicts. |
| SqlSoundness.SilentExactlyWhenKept | scripts/check_sql_binding.py:336-406 | A statement without findings is blank, a transaction or pragma, or keeps all rules; and the other way round. |
| SqlSoundness.SilentCallIsSafeExactlyWhen | scripts/check_sql_binding.py:408-448 | A call without findings keeps the rules, for every statement it can denote and everything it can pass, exactly when no mapping is spread into it and each parameter keyword passes only dicts, or when its statements have no rules. |
| SqlSoundness.SilentCallIsSafe | scripts/check_sql_binding.py:408-448 | So it is safe when its parameters are a second argument, or one parameter keyword and no spread mapping. |
| SqlSoundness.VisitedIsSafeOrReported | scripts/check_sql_binding.py:209-217 | Every visited call with its parameters in sight is safe or its line is reported, although equal violations are kept once. |
| SqlSoundness.CleanOutsideSkipped | scripts/check_sql_binding.py:450-502 | In a file reported clean a call outside skipped places is safe exactly under that condition. |
| SqlSoundness.CleanFileIsSafe | scripts/check_sql_binding.py:500-502 | In a clean file with no SQL call in skipped places and the parameters of each in sight, every call is safe. |
| SqlEscapes.HiddenCallEscapes | scripts/check_sql_binding.py:456-498 | In each skipped place a clean file can hold a call that executes an f-string. |
| SqlEscapes.SpreadMappingEscapes | scripts/check_sql_binding.py:421-424 | A clean file that hides nothing binds a list with `execute("...", **{"parameters": [1]})`. |
| SqlEscapes.TwoKeywordsEscape | scripts/check_sql_binding.py:421-424 | Of two parameter keywords the last is judged, and the first may pass a list. |
| SqlScripts.ScriptKeepsExactlyWhen | scripts/check_sql_binding.py:336-406 | When a text of several statements passes the checker, which reads it as one, each statement keeps the rules exactly when those behind a leading keyword do, or else when each INSERT behind the first names its columns. |
| SqlScripts.OneStatementIsCovered | scripts/check_sql_binding.py:336-406 | A text without a semicolon is always covered. |
| SqlScripts.SecondStatementEscapes | scripts/check_sql_binding.py:336-406 | A pragma, or an INSERT that names its columns, hides an INSERT behind it that does not. |
| AbstractTexts.AbstractText.Feed | angelus/api/compact.py:69-104 | The deltas so far are the view of the text so far; nothing shown is taken back. |
| AbstractTexts.StreamAll | angelus/api/compact.py:69-104 | Feeding all chunks displays the streamed view. |
| AbstractTexts.Clip | angelus/api/compact.py:89-104 | The loop cuts at the close tag or holds back the longest suffix that begins it. |
| AbstractTexts.HeldIsLongest | angelus/api/compact.py:95-99 | No longer suffix could still grow into the tag. |
| AbstractTexts.OnlyTagBeginningsAreHeld | angelus/api/compact.py:95-99 | Until the tag arrives, all but a proper beginning of it is displayed. |
| AbstractTexts.ShownGrows | angelus/api/compact.py:89-104 | More text never takes back what a shorter body showed. |
| AbstractTexts.ViewHasNoCloseTag | angelus/api/compact.py:89-104 | The displayed text never contains the close tag. |
| AbstractTexts.ChunkingDoesNotMatter | angelus/api/compact.py:58-104 | When the open tag is absent or ends within the first 241 characters, every chunking displays the one-shot view. |
| AbstractTexts.DisplayIsChunkFreeExactlyWhen | angelus/api/compact.py:58-104 | The display is the one-shot view for every chunking exactly when the open tag is absent or that early, or the text read as prose from its beginning looks the same. |
| AbstractTexts.LateTagShowsProse | angelus/api/compact.py:69-104 | Long prose with the open tag behind it: in one piece nothing is displayed, cut behind the grace the prose is. |
| AbstractTexts.DecisiveIsExact | angelus/api/compact.py:69-88 | The place where the body starts is the same for every chunking exactly when the open tag is absent or that early. |
| AbstractTexts.LateTagIsMissed | angelus/api/compact.py:69-88 | Every other text has a chunking that starts its body elsewhere. |
| DisplayedTexts.DisplaysExactly | angelus/api/compact.py:69-104 | A text that arrives at once displays what is behind its first open tag, or all of an untagged text of more than 240 characters, without leading spaces and up to the first close tag or the longest beginning of one at the end. |
| DisplayedTexts.StreamedExactly | angelus/api/compact.py:69-104 | A stream displays the same of the text from where it is first known to start. |
| SlashTokens.Tokenize | frontend/static/slash.js:28-61 | The two nested loops compute the recursive tokenizer. |
| SlashTokens.ParseSlashCommand | frontend/static/slash.js:70-91 | The loop over the tokens computes the descriptor. |
| SlashProofs.SpellingsReadBack | frontend/static/slash.js:28-61 | Every spelling of a token list, with any mix of plain, escaped, raw double-quoted and single-quoted pieces and any blanks, tokenizes to that list. |
| SlashProofs.ReadsVerbatimExactlyWhen | frontend/static/slash.js:28-61 | A double-quoted text reads as it is typed exactly when it holds no backslash. |
| SlashProofs.ReadsAsDocumentedExactlyWhen | frontend/static/slash.js:11-11 | The tokenizer reads a double-quoted text as documented exactly when its backslashes stand only before quotes and backslashes. |
| SlashProofs.EscapeReadsBack | frontend/static/slash.js:28-61 | Any text can be double-quoted: escaping quotes and backslashes reads back. |
| SlashProofs.PrintReadsBack | frontend/static/slash.js:28-61 | Tokenizing a printed list returns it: empty tokens, blanks, quotes and backslashes included. |
| SlashProofs.SpelledCommandParses | frontend/static/slash.js:70-91 | A slash line of spelled tokens parses to the classification of their meanings. |
| SlashProofs.CommandReadsBack | frontend/static/slash.js:70-91 | Parsing a printed command with arguments and flags gives the same descriptor. |
| SlashProofs.FlagReadsBackExactlyWhen | frontend/static/slash.js:78-88 | A printed flag is stored under its key exactly when the key has no equals sign and is not `__proto__`. |
| SlashProofs.LastFlagWins | frontend/static/slash.js:78-88 | A stored key holds the value of its last flag, and every flag key but `__proto__` is stored. |
| SlashOpenEnds.TokensExactly | frontend/static/slash.js:20-60 | The tokens of any line are those that a spelling of it says, and every line has one: a group that is never closed reads to the end, and a last backslash stands for itself. |
| SlashParses.ParsesExactlyWhen | frontend/static/slash.js:70-92 | A line parses to a command exactly when it starts with one slash, is not blank behind it, and says that command: its first token in lower case, the tokens without dashes in order, and for each key the last flag. |
| SlashPalette.RangeIsInside | frontend/static/slash.js:181-220 | The replaced range lies in the text and does not end before it starts. |
| SlashPalette.MatchIsOffered | frontend/static/slash.js:181-220 | An offered name is one of the names and starts with the query. |
| SlashPalette.AcceptedCommandParses | frontend/static/slash.js:231-238 | Accepting a command yields a line that parses to it with the tokens of the untouched tail. |
| SlashPalette.ClosedAfterCommand | frontend/static/slash.js:181-238 | At the caret returned for an accepted command the palette is closed. |
| SlashPalette.ClosedAfterFlag | frontend/static/slash.js:181-238 | At the caret returned for an accepted flag the palette is closed. |
| PaletteOffers.CommandsOfferedExactly | frontend/static/slash.js:181-198 | While the command word is typed the palette offers exactly the commands that complete it, for the whole word. |
| PaletteOffers.FlagsOfferedExactly | frontend/static/slash.js:200-222 | Behind it, exactly the parameters of the first command of that name that complete the dashed last word without `=`, for that word. |
| PaletteOffers.OpenExactlyWhen | frontend/static/slash.js:181-222 | It is open exactly when it offers something, and what it offers is for the word at the caret. |
| PaletteOffers.CaretExactly | frontend/static/slash.js:183-183 | A caret counts where it is, outside the text at the nearer end, and when missing at the end. |
| PaletteOffers.WordEndExactly | frontend/static/slash.js:189-190 | The word at the caret ends at the next space or at the end of the text. |
| PaletteOffers.OfferedInOrder | frontend/static/slash.js:195-214 | Names are offered in the order of the catalog. |
| PaletteOffers.AcceptedInPlace | frontend/static/slash.js:234-241 | Accepting a name puts it where the word was and the caret behind it. |
| SlashCatalog.CatalogIsSimple | frontend/static/slash.js:102-138 | The shipped catalog has only lower-case letters and dashes in its names, which is all the palette results ask. |
| Steering.AgentView.Steer | angelus/modules/application_module/agent_control.py:124-130 | One instruction goes to the end of this agent's queue. |
| Steering.AgentView.DrainSteers | angelus/modules/application_module/agent_control.py:116-122 | The pending instructions come out in order and the queue is empty. |
| Steering.AgentView.RequestStop | angelus/modules/application_module/agent_control.py:132-139 | A request stays; only force replaces a graceful one. |
| Steering.SessionRunControl.ForAgent | angelus/modules/application_module/agent_control.py:173-187 | A known agent keeps its view; an unknown one gets an empty one. |
| Steering.SessionRunControl.ForgetAgent | angelus/modules/application_module/agent_control.py:189-199 | The view goes, every other stays. |
| Steering.SessionRunControl.ShouldStop | angelus/modules/application_module/agent_control.py:201-212 | The answer is the effective request; asking for an unknown agent registers it. |
| Steering.SessionRunControl.Steer | angelus/modules/application_module/agent_control.py:214-240 | A rejected submission changes no queue; an accepted one reaches exactly the recipients of the moment, listed in order. |
| Steering.SessionRunControl.Stop | angelus/modules/application_module/agent_control.py:242-264 | A stop reaches the session or exactly one agent; an unknown agent is refused. |
| Steering.DeliveryIsExact | angelus/modules/application_module/agent_control.py:173-240 | Over every run, what an agent drained followed by what is pending equals, in order, the accepted submissions since it registered whose recipients include it. |
| Steering.ForceWins | angelus/modules/application_module/agent_control.py:97-114 | The effective request is force exactly when either side is, and absent exactly when both are. |
| StopRequests.FirstForceStays | angelus/modules/application_module/agent_control.py:132-139 | Over every run an agent keeps the first forced stop request since it entered, and without one the first. |
| StopRequests.EffectiveExactly | angelus/modules/application_module/agent_control.py:97-114 | The session's request counts unless it is absent, or graceful while the agent's own is forced. |
| StopRequests.RefusedExactlyWhen | angelus/modules/application_module/agent_control.py:214-240 | A blank message is refused before an unknown target, and nothing else is refused. |
| StopRequests.SubmittedExactly | angelus/modules/application_module/agent_control.py:229-240 | The queues of everybody, or of the one named, get the instruction at their end; nothing else changes. |
| PlanBlock.PlanWalk.Walk | angelus/modules/console_module/context_provider.py:140-153 | The nested walk leaves its shared variables as one pass over the preorder lines would. |
| PlanBlock.EmitAllFits | angelus/modules/console_module/context_provider.py:140-153 | That pass shows the lines that fit, counts them, and is truncated exactly when lines are missing. |
| PlanBlock.FitIsLongest | angelus/modules/console_module/context_provider.py:140-153 | What is shown is the longest preorder prefix that fits the budget. |
| PlanBlock.PreorderCounts | angelus/modules/console_module/context_provider.py:173-175 | The recursive total is the number of preorder lines. |
| PlanBlock.RenderPlan | angelus/modules/console_module/context_provider.py:113-159 | The block is the head, the lines that fit, a marker when tasks are missing, and the tail. |
| PlanBlock.BuildBlock | angelus/modules/console_module/context_provider.py:60-81 | An empty plan gives no block; the limit is at least 1000 characters. |
| PlanBlock.BlockIsBounded | angelus/modules/console_module/context_provider.py:113-159 | A complete block of a non-empty plan is shorter than the limit; a truncated one exceeds it at most by its marker when the head fits. |
| PlanBlock.EscapeIsCharwise | angelus/modules/console_module/context_provider.py:178-180 | The three replacements in sequence never touch each other's output. |
| PlanBlock.EscapeIsFaithful | angelus/modules/console_module/context_provider.py:178-180 | Escaped text holds no angle bracket, and different texts stay different. |
| PlanLines.BlockReads | angelus/modules/console_module/context_provider.py:113-159 | The block is its opening with agent, goal and summary, as many task lines as the limit has room for, a note of how many of how many when some are missing, and its closing. |
| PlanLines.LineIsAt | angelus/modules/console_module/context_provider.py:140-153 | A task's line comes behind those of the tasks before it with all below them, and before those of its subtasks, which are one level in. |
| PlanLines.LineIsExact | angelus/modules/console_module/context_provider.py:162-170 | A line is the indent, state and name, then the escaped title and the description, its words single-spaced and cut to 200 characters. |
| PlanLines.LimitExactly | angelus/modules/console_module/context_provider.py:51-53 | The limit of a block is the configured one, and 1000 at least. |
| TextLaws.DecimalSpells | angelus/modules/console_module/context_provider.py:155-156 | Numbers are written in decimal without leading zeros. |
| PlanMarkup.LineAngles | angelus/modules/console_module/context_provider.py:162-170 | The angle brackets of a task line are those of its name, which is not escaped. |
| PlanMarkup.NoForeignTagsExactlyWhen | angelus/modules/console_module/context_provider.py:113-180 | A whole block holds no angle bracket but those of its own tags exactly when no shown task has one in its name. |
| PlanMarkup.OneTaskALineExactlyWhen | angelus/modules/console_module/context_provider.py:113-180 | Split at line breaks a block gives back its lines exactly when agent, goal, summary, and the names and titles of shown tasks hold none; those of descriptions do no harm. |
| PlanMarkup.AgentReadsBackExactlyWhen | angelus/modules/console_module/context_provider.py:113-180 | The quoted attribute of a block ends where the agent's name ends exactly when the name has no quote. |
| Idempotency.ExternalLink.Act | angelus/api/external_agents.py:291-337 | The answer is the specified one, and the cache stays the last 200 recorded executions. |
| Idempotency.RepeatsAreFarApart | angelus/api/external_agents.py:296-336 | In every run two recorded executions under one identity are more than 200 executions apart. |
| Idempotency.ExecutionsAreFarApart | angelus/api/external_agents.py:296-336 | In every run, once an execution is recorded the provider does the same again only after 200 more recorded ones, whether or not the repetition is recorded. |
| Idempotency.ReplayedExactlyWhen | angelus/api/external_agents.py:296-299 | A request is answered from the cache exactly when its identity is among the last 200 recorded executions, with that response. |
| Idempotency.UnsavedExecutionRepeats | angelus/api/external_agents.py:331-336 | When the record of an execution cannot be written, the retry runs it again. |
| Idempotency.IdsAreDistinct | angelus/api/external_agents.py:296-296 | One identity stands for one action and one key. |
| ExternalAnswers.ReplayRepeatsFirst | angelus/api/external_agents.py:296-299 | A replay repeats the response that the first request under the same action and key got. |
| ExternalAnswers.AnsweredExactlyWhen | angelus/api/external_agents.py:291-337 | The answer is decided by the length of the key, then by a record among the last 200, then by the provider, and only a written record makes a first answer. |
| Instances.AutomationRun.constructor | plugins/gzctf/automation.py:45-55 | The run lists every challenge once, idle, and its cap is clamped to one to four. |
| Instances.AutomationRun.Prepare | plugins/gzctf/main.py:1245-1255 | The loops append each download to its challenge and mark it prepared or failed, and nothing else. |
| Instances.PreparedExactlyWhen | plugins/gzctf/main.py:1245-1255 | A challenge is prepared exactly when it was read and every download came, with all files in order; otherwise it keeps the files before the first failure and that error. |
| Instances.AutomationRun.Acquire | plugins/gzctf/main.py:1261-1277 | Checks in order, then one start attempt: state and answer are the specified ones. |
| Instances.ActiveInstances | plugins/gzctf/automation.py:62-64 | The count of ready challenges. |
| Instances.CapHolds | plugins/gzctf/main.py:1261-1277 | Over every sequence of acquire calls, whatever clocks and start failures, ready challenges never exceed the cap, each has its instance, and no challenge comes or goes. |
| Instances.ReadyStays | plugins/gzctf/main.py:1264-1264 | A ready challenge keeps its instance over every run and is handed out again. |
| Instances.QuietUntilDue | plugins/gzctf/main.py:1265-1266 | Until its retry time a challenge is left alone, whatever happens to the others. |
| Instances.FailureWaits | plugins/gzctf/main.py:1273-1276 | After a failed start the challenge is left alone for the backoff of its failures. |
| Instances.BackoffGrows | plugins/gzctf/main.py:1276-1276 | More failures never wait less, and nothing waits longer than 300 seconds. |
| InstanceStarts.SuccessIsStored | plugins/gzctf/main.py:1261-1277 | A due challenge whose start succeeds below the cap is ready with that instance, without an error and with the same attempts; the call answers so and the next one hands the same instance out. |
| InstanceStarts.FailureIsStored | plugins/gzctf/main.py:1273-1276 | One whose start fails is queued with one more attempt, the error and the backoff of its attempts. |
| InstanceStarts.FullIsQueued | plugins/gzctf/main.py:1267-1270 | At the cap it is queued for fifteen seconds and nothing is started. |
| InstanceStarts.WaitIsKept | plugins/gzctf/main.py:1265-1266 | Before its time a challenge that is not ready stays as it is. |
| InstanceStarts.OnlyOneChanges | plugins/gzctf/main.py:1261-1277 | Whatever happens, no other challenge changes, and one that is not in the run is refused. |
| InstanceStarts.ActiveCounts | plugins/gzctf/automation.py:62-64 | The number of active instances is the number of ready challenges. |
| InstanceStarts.BackoffDoubles | plugins/gzctf/main.py:1276-1276 | The waits are 10 seconds, doubled up to 160, then 300. |
| InstanceStarts.CapIsClamped | plugins/gzctf/automation.py:45-55 | A cap from one to four stays, any other goes to the nearer end. |
| InstanceStarts.NewRunIsPending | plugins/gzctf/automation.py:45-55 | A challenge of a new run is pending and has nothing yet. |
| InstanceStarts.NewRunIsInOrder | plugins/gzctf/automation.py:45-55 | A new run holds each listed challenge once, in the order of the listing. |
| InstanceStarts.PreparationIsStored | plugins/gzctf/main.py:1245-1255 | Each challenge is prepared from its own listing: with all its files behind those it had, or failed; nothing else of it changes. |
| JsonDiff.Differences.Compare | scripts/eval/f1_fidelity_check.py:69-82 | The shared list grows by exactly the specified differences, in order. |
| JsonDiff.NoDiffsExactlyWhenEqual | scripts/eval/f1_fidelity_check.py:69-82 | Nothing is reported exactly when the documents are equal after dropping null-valued object keys at every depth. |
| DiffPaths.ReportedExactlyWhen | scripts/eval/f1_fidelity_check.py:69-82 | A difference is reported exactly when a walk through both documents, by keys of either object and places of both lists, leads to two lists of different length or two unequal values, under the path it spells. |
| DiffPaths.EqualExactlyWhen | scripts/eval/f1_fidelity_check.py:81-82 | Two values are equal exactly when they are of one kind and the same part by part, numbers and flags being one kind. |
| JsonDiff.TrueMatchesOne | scripts/eval/f1_fidelity_check.py:81-82 | `true` and `1` compare equal. |
| IndexSync.ProseIsKept | scripts/sync_indexes.py:377-385 | The text before and after the first generated section is kept up to whitespace at the seams. |
| IndexSync.NoSectionIsAppended | scripts/sync_indexes.py:377-385 | To a document without a begin marker the section is appended behind its text, whitespace at the end aside. |
| IndexSync.RefusedExactlyWhen | scripts/sync_indexes.py:378-382 | An update is refused exactly when the first begin marker has no end marker behind it. |
| IndexSync.IdempotentExactlyWhen | scripts/sync_indexes.py:369-385 | Updating an updated document succeeds, and changes nothing exactly when the first pass left prose without sections followed by nothing but copies of the current section. |
| IndexSync.OneSectionIsIdempotent | scripts/sync_indexes.py:369-385 | A document with at most one begin marker is settled by one update. |
| ShippedMarkers.SectionOkExactlyWhen | scripts/sync_indexes.py:369-385 | Between the markers the script uses, a section holds each once exactly when its text quotes neither. |
| ShippedMarkers.MapIsSettledByOneUpdate | scripts/sync_indexes.py:369-385 | A symbol map that quotes no marker is settled by one update of a document with at most one. |
| IndexSync.TwoSectionsAreNotSettled | scripts/sync_indexes.py:369-385 | With two sections the second survives the first update and is replaced by the next. |

## Left out

- Topology.RemovalIsComplete: does not remove the agent's plan, because the code does not.
- LeafFields.ReportIsStored: asks for executions on leaves only; LeafFields.ListeningRootIsReported covers parents at the root of a plan.
- SqlTexts.JudgedCanBeIssuedExactlyWhen: asks for a statement without obstacles, as the laws about meanings do.
- AbstractTexts.ChunkingDoesNotMatter: says nothing about texts whose open tag comes later, because there the display can depend on the chunks; DisplayIsChunkFreeExactlyWhen says when it does.
- PlanProofs.ReportIsExact: asks for executions on leaves only, because the code accepts them elsewhere; ReportSettlesExactlyWhen covers the rest.
- GatewayProofs.SidesStayEqual: asks for answers that are atomic and writes that succeed where no rollback exists; RunAgreesExactlyWhile gives the exact condition for any run.
- SqlSoundness.CleanFileIsSafe: asks that no SQL call sits in a place the walk skips or passes its parameters by a spread mapping or several keywords, because there it does not hold; CleanOutsideSkipped is exact.
- SqlSoundness.SilentCallIsSafe: speaks about the given noise-stripped text as the checker reads it, as one statement; SqlScripts.ScriptKeepsExactlyWhen says when that covers several.
- IndexSync.IdempotentExactlyWhen: takes the generated section as given, with each marker once in it (ShippedMarkers.SectionOkExactlyWhen says when that is so); rendering the symbol maps is not part of the model.
- PlanBlock.BlockIsBounded: gives no bound for a head that is over the limit by itself, because the code budgets none.
- Instances.CapHolds: is about calls one after the other; two processes that load one run at once are not modelled.
- Concurrency of locks: each operation is one atomic section. Quarantine of corrupt files and synchronisation to disk are left out.
- Error message texts, event journals, snapshots and decorations of the graph for display.
- The rest of the gateway's live view, profile and connector lookup in `rebuild_swarm`.
- Force cancellers and the controller of one attempt, beyond a queue and a latched request.
- Lease, link and capability checks of the external endpoint, and the provider calls themselves.
- Availability of slash commands by session state, and everything the page draws.
- Counters of checked statements and call sites, file discovery and the self test of the checker.
- The HTTP routes, the command line, the desktop shell and the plugin UIs: input and output only.
- Execution attempts, connectors, attachments and reconciliation: they mostly delegate to code that is not part of this model.
