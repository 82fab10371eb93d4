# A verified model of the agent framework's algorithms and protocols

This project models the parts of the repository that decide what happens around the language
model, and proves what they guarantee:

- **Planning.** `AutoGenOrchestrator` reads a plan out of a model's answer, orders the sub-tasks by
  their dependencies with a queue, and runs them, handing each the results of the tasks it depends
  on. The scheduler is a class with the original's tables and loops (`Orchestrator`), proved equal to
  a function (`Scheduler`, `Ordering`, `Execution`); the theorems are about that function and are
  repeated on the class's methods; `ReleaseOrder` determines the resulting list completely, and
  `RepeatedIds` says what happens with any ids. The reader is
  proved to invert printing (`PlanParser`, `PlanRoundTrip`, `PlanPieces`, `FencedPlans`, `JsonPlans`).
- **Sub-conversations.** `RoutingChatManager` lets a coordinator hand a conversation to a specialist
  and back. Its transitions are in `Protocol`, with the laws of a client that waits for each answer;
  `Interleaving` lets any number of calls overlap at every `await`, `SessionOpening` also while the
  session is opened or ended; `RoutingManager`, `ChatAgents`
  and `Conversation` are the objects themselves, proved to take exactly the protocol's steps and to
  write exactly the stated entries to the conversation's log. `Clients` says what a client can rely
  on over any run of requests.
- **The conversation log.** The SQLite table with its read-maximum-then-insert append
  (`ConversationLog`), sequentially and with the statements of many appends interleaved, and the
  relation between the log and the copies several agents keep of it (`HistoryCopies`,
  `OverlappingMessages`).
- **Smaller algorithms.** The overlapping text splitter (`TextLoading`), the in-place conversion of
  tool schemas (`SchemaConversion`), the grouping of cited sources (`Grounding`) and the split of a
  thinking answer at its last marker (`AnswerSplit`).

The language model, its tools and the specialised agents are parameters: functions from prompt to
outcome for plans, finite scripts of tool calls and final texts for conversations. `dfyconfig.toml`
lists all files; `dafny verify dfyconfig.toml` checks the project.

## Where the code falls short of its intent

Each of these is a lemma here, with the exact condition beside it where the code does meet the
intent.

- **Repeated task ids break cycle detection, both ways.** A dependant is released once per copy of
  its dependency, so a task that waits for itself can come out of the queue
  (`RepeatedIds.DuplicateIdsHideCycle`); and a waiting task listed twice comes out once, so an acyclic
  plan is taken for a cyclic one (`RepeatedIds.DuplicateIdsFakeCycle`). For every plan, as many ids as
  tasks come out iff every task that waits for a known dependency is listed once and no set of ids is
  stuck, that is, lists more dependencies than the plan outside the set supplies
  (`RepeatedIds.EmitsAllIff`). So an acyclic plan passes iff its waiting tasks are listed once, and
  the test is right exactly under `RepeatedIds.CycleTestCorrectIff`; with unique ids it always is
  (`Ordering.CycleDetectionExact`). `RepeatedIds.OrderIsPermutationIff` says when the result has the
  same tasks as the input.
- **A web address inside a plan is lost, and so are three backticks.** `//` in a text is taken for a
  comment that ends the line, and three backticks end the block
  (`FencedPlans.WebAddressIsLost`). A plan printed in the prompted format, with texts and ids without
  quotes, is read back iff its texts and ids hold no `//` and no three backticks and its ids no closing
  bracket and no line end, both for a block (`FencedPlans.PrintedPlanReadsBackIff`) and for a whole
  answer with the plan in a json fence (`FencedPlans.FencedPlanReadsBackIff`).
- **JSON escapes are not read.** A plan answered as proper JSON is read back iff, besides that, no text
  or id holds a quote, a backslash or a control character, which JSON must escape
  (`JsonPlans.JsonPlanReadsBackIff`).
- **A plan answered without a fence loses every task but the first**, because the search stops at the
  first closing brace, although the prompt shows the plan unfenced. It is read back iff it has a
  single task that would be read back in a fence and holds no closing brace (`FencedPlans.BarePlanReadsBackIff`).
- **Overlapping calls on one session can lose a specialist's result** and reach the "missing result"
  branch (`Interleaving.OverlapLosesResult`). Over any run, nothing is lost iff no END comes back while
  another result is pending (`Interleaving.RunLosesNothingIff`), and a call reaches that branch iff
  between its END and its continuation another call, or a clear, took the pending result and no later
  END put another in its place (`Interleaving.ResultMissingIff`, `Interleaving.OnlyResumeMisses`). A
  client that waits meets neither (`Interleaving.WaitingClientLosesNothing`, `Protocol.SequentialRun`).
- **Two first messages at once open two states for one session**; what the first call does, a handover
  to a specialist included, happens in a state no later message sees
  (`SessionOpening.RacingFirstMessages`, `SessionOpening.LeftBehindForGood`). Over any history, no state
  is stored over another iff no call stores one after another has, or over one that was there, without
  the session being ended in between (`SessionOpening.NeverReplacedIff`); a call's store does so iff,
  since it looked, another call has stored a state and the session has not been ended after that
  (`SessionOpening.OpenReplacesIff`). Calls that do not look while another is opening never do
  (`SessionOpening.OneByOneNeverReplaces`).
- **Clearing a chat under an append in flight can leave a gap** in its indices
  (`ConversationLog.ClearUnderAppendLeavesGap`). Over any run, the chat is gapless throughout iff no
  accepted insert's index lies beyond the next one, and then its history is the accepted appends since
  the last clear, in order (`ConversationLog.GaplessIff`). That index lies beyond iff the chat was
  cleared since it was read and fewer appends than that index have landed since the last clear
  (`ConversationLog.InsertBeyondIff`).
- **A negative overlap passes the text loader's constructor** and leaves gaps between chunks; the text
  can be put together again iff the overlap is not negative, or the text is empty or fits in one chunk
  (`TextLoading.RestoresTextIff`).
- **The last marker is not always the one chosen** (`AnswerSplit.OverlappingMarkerPassedOver`): the
  search compares a marker's start with the *end* of an earlier pattern's marker. It is chosen iff it
  starts after that position (`AnswerSplit.LastMarkerChosenIff`).
- **A turn that ends without text breaks the alternation of roles once the user speaks again**: over a
  whole conversation user and model alternate iff every turn but the last ended with text
  (`Conversation.AlternatesIff`).
- **A copy of the history may miss what other agents said**: it equals the log iff nobody spoke
  between its load's read and arrival and nobody but the agent itself has since
  (`HistoryCopies.CopyEqualsLogIff`). It is a subsequence of the log as long as the agent's messages
  land in the order it pushed them, none of its appends fails, and the chat is not cleared between its
  load's read and arrival, however messages and other agents' failures overlap
  (`OverlappingMessages.OverlappingCopiesAreSubsequences`); a failed append stays in its author's copy
  alone (`OverlappingMessages.FailedStaysInCopy`).

Where code and documentation disagree, the model follows the code:

- `docs/routing-chat-manager.md` says that a specialist's result reaches the coordinator with the
  user's next message. The code hands it over within the same call (`lib/routing-chat-manager.js:217-237`);
  the pending path is only taken when END comes from the coordinator.
- The comment at `lib/routing-chat-manager.js:194-198` promises the coordinator's reply when a
  specialist cannot be started; the code names a variable out of scope and ends in the catch at 257.
  In the model this is `ErrorText`, with control already back at the coordinator.
- Session states are kept under the id as given and agents under the trimmed id, so `"s"` and `" s"`
  have two states around one coordinator. The model keeps this.
- The tools configured for the coordinator are never used: `lib/routing-chat-manager.js:83-87` replaces them
  by the session's own (`RoutingManager.RoutingChatManager.CoordinatorOptions`).

## Model

| member | source | states |
|---|---|---|
| Plan.DepthExact | lib/auto-gen-orchestrator.js:427-440 | on an acyclic plan, chains of k known dependencies start at a task iff k is at most its depth |
| Plan.LongChainCloses | lib/auto-gen-orchestrator.js:468-472 | a dependency chain with as many steps as there are tasks closes a cycle |
| Plan.CycleUnrolls | lib/auto-gen-orchestrator.js:468-472 | tasks that all wait for one another have chains of every length |
| Plan.AcyclicIgnoresOrder | lib/auto-gen-orchestrator.js:427-440 | whether a plan is acyclic, and which ids it knows, does not depend on the order of its tasks |
| Scheduler.AddDependenciesEffect | lib/auto-gen-orchestrator.js:430-439 | linking one task raises its in-degree by its known entries, counted with repetition, and adds it to each dependency's list as often as it lists it; nothing else changes |
| Scheduler.NetEffect | lib/auto-gen-orchestrator.js:416-440 | the tables hold exactly the number of known listings per task and the multiplicity of each dependant |
| Scheduler.SourcesEffect | lib/auto-gen-orchestrator.js:446-452 | the first queue holds each id with in-degree 0 as often as the plan lists it, and no other |
| Scheduler.Step | lib/auto-gen-orchestrator.js:455-466 | every round of the queue loop lowers blocked ids plus queue length by exactly one, whatever the plan: the loop terminates |
| Scheduler.InitialClosed | lib/auto-gen-orchestrator.js:443-452 | when the queue loop starts, every queued id and every listed dependant has an entry in both tables |
| Scheduler.StepStaysClosed | lib/auto-gen-orchestrator.js:455-466 | each round keeps that, so no lookup of the loop fails |
| Scheduler.TaskMap | lib/auto-gen-orchestrator.js:474-479 | each known id is mapped to a task that carries it |
| Scheduler.LastTaskWins | lib/auto-gen-orchestrator.js:474-479 | when an id occurs more than once, the last task with it represents it |
| SchedulerProofs.VisitAt | lib/auto-gen-orchestrator.js:459-465 | a dependant loses one in-degree per listing and is queued once, exactly when its in-degree passes from positive to 0 |
| SchedulerProofs.StepShape | lib/auto-gen-orchestrator.js:455-466 | one round moves the head to the emitted ids and appends only dependants of the head |
| SchedulerProofs.CountedStep | lib/auto-gen-orchestrator.js:455-466 | for every plan, each round keeps the count of how often each id has been queued |
| SchedulerProofs.TrackedStep | lib/auto-gen-orchestrator.js:455-466 | with unique ids, each round keeps: an in-degree counts the dependencies not yet emitted, and emitted ids come after their dependencies |
| SchedulerProofs.QueuedIsReady | lib/auto-gen-orchestrator.js:459-465 | every dependency of a queued task has been emitted |
| SchedulerProofs.PushedDepth | lib/auto-gen-orchestrator.js:459-465 | a task queued in a round lies exactly one depth below the task emitted in it |
| SchedulerProofs.LayeredStep | lib/auto-gen-orchestrator.js:455-466 | each round keeps the emitted ids followed by the queue sorted by depth, with the queue at most one depth below the last task emitted |
| SchedulerProofs.RunKeeps | lib/auto-gen-orchestrator.js:454-466 | the whole queue loop ends with an empty queue and all three invariants |
| Ordering.EmittedAtMostAsListed | lib/auto-gen-orchestrator.js:454-466 | for every plan, no id comes out more often than the plan lists it |
| Ordering.EmittedIsPermutationOfKeys | lib/auto-gen-orchestrator.js:468-472 | for every plan, when the counts agree the emitted ids are the plan's ids in some order |
| Ordering.AllEmittedMeansAcyclic | lib/auto-gen-orchestrator.js:468-472 | unique ids: if all tasks are emitted there is no dependency cycle |
| Ordering.SomeNotEmittedMeansCyclic | lib/auto-gen-orchestrator.js:468-472 | unique ids: if a task is never emitted there is a cycle |
| Ordering.CycleDetectionExact | lib/auto-gen-orchestrator.js:468-472 | unique ids: as many ids as tasks come out iff no task depends on itself through known dependencies |
| Ordering.OrderTheorem | lib/auto-gen-orchestrator.js:415-482 | unique ids: always a permutation; the unchanged plan when cyclic; otherwise known dependencies first and depths non-decreasing |
| ReleaseOrder.DependantsInPlanOrder | lib/auto-gen-orchestrator.js:428-440 | each task's dependants are listed in plan order |
| ReleaseOrder.ReleasedStep | lib/auto-gen-orchestrator.js:455-466 | each round keeps emitted and queued ids in release order: by the position of the last dependency, then by place in the plan |
| ReleaseOrder.OrderIsReleaseOrder | lib/auto-gen-orchestrator.js:415-482 | acyclic plans with unique ids: for any two tasks of the result, the earlier one's last dependency comes earlier, or it is the same and the task stands first in the plan |
| ReleaseOrder.ReleaseOrderUnique | lib/auto-gen-orchestrator.js:415-482 | the result is the only list of the plan's tasks with dependencies first and in that order |
| RepeatedIds.BalancedStep | lib/auto-gen-orchestrator.js:455-466 | for every plan, each round keeps: an in-degree is what the task lists less what the emitted ids have released |
| RepeatedIds.StuckNeverEmitted | lib/auto-gen-orchestrator.js:454-466 | for every plan, no member of a stuck set ever comes out |
| RepeatedIds.EmitsAllIff | lib/auto-gen-orchestrator.js:468-472 | for every plan, as many ids as tasks come out iff tasks that wait are listed once and no set of ids is stuck |
| RepeatedIds.StuckMeansCyclic | lib/auto-gen-orchestrator.js:468-472 | a stuck set contains a dependency cycle |
| RepeatedIds.AcyclicPassesIff | lib/auto-gen-orchestrator.js:468-472 | an acyclic plan is not reported as cyclic iff its waiting tasks are listed once |
| RepeatedIds.CycleTestCorrectIff | lib/auto-gen-orchestrator.js:468-472 | for every plan, exactly when the count test agrees with the dependency relation |
| RepeatedIds.UniqueListedOnce | lib/auto-gen-orchestrator.js:468-472 | with unique ids waiting tasks are listed once, and nothing is stuck iff the plan is acyclic: exact detection follows |
| RepeatedIds.OrderIsPermutationIff | lib/auto-gen-orchestrator.js:468-482 | for every plan, the result has the same tasks iff a waiting task is listed twice, or some set is stuck, or tasks with equal ids are equal |
| RepeatedIds.DuplicateIdsHideCycle | lib/auto-gen-orchestrator.js:468-472 | a three-task plan with a repeated id and a self-dependency whose cycle passes undetected |
| RepeatedIds.DuplicateIdsFakeCycle | lib/auto-gen-orchestrator.js:468-472 | an acyclic three-task plan with a repeated waiting id that is reported as cyclic |
| Execution.RunAllSolves | lib/auto-gen-orchestrator.js:493-537 | in a list with dependencies first, the stored result of each task is its answer with respect to the final results |
| Execution.PromptIsPrompt | lib/auto-gen-orchestrator.js:506-523 | a prompt is the task's own exactly when it has no dependencies; otherwise it is followed by the header and one piece per dependency, in order: a block with its id and stored result if that is not empty, else nothing |
| Execution.ResultIsResult | lib/auto-gen-orchestrator.js:497-536 | a result is the creation-failure text, the agent's own answer to such a prompt, or the error prefix with the message thrown |
| Execution.SolutionIsOfResults | lib/auto-gen-orchestrator.js:493-537 | in a solution of the plan's equation every stored result is one of these, with respect to the final results |
| Execution.ExecuteSolves | lib/auto-gen-orchestrator.js:484-540 | executing an acyclic plan solves "result(t) = agent(t, prompt extended with the non-empty results of its dependencies)" |
| Execution.SolutionUnique | lib/auto-gen-orchestrator.js:506-535 | that equation has a single solution |
| Execution.ExecuteIgnoresOrder | lib/auto-gen-orchestrator.js:484-540 | any permutation of an acyclic plan gives the same result map |
| Execution.ExecuteKeys | lib/auto-gen-orchestrator.js:491-539 | for every plan, repeated ids included: one result per id and nothing else |
| Execution.ExecuteCyclic | lib/auto-gen-orchestrator.js:469-472 | a cyclic plan runs in the order it was written |
| Orchestrator.AutoGenOrchestrator.BuildGraph | lib/auto-gen-orchestrator.js:416-440 | the table-building loops equal the specification; with unique ids in-degrees count each task's own known entries |
| Orchestrator.AutoGenOrchestrator.FindSources | lib/auto-gen-orchestrator.js:446-452 | the queue starts with the ids of in-degree 0 in plan order |
| Orchestrator.AutoGenOrchestrator.ReleaseNeighbours | lib/auto-gen-orchestrator.js:459-465 | the inner loop equals the specified visit of the dependants |
| Orchestrator.AutoGenOrchestrator.DrainQueue | lib/auto-gen-orchestrator.js:442-466 | the queue loop emits the specified ids; with unique ids as many as there are tasks iff the plan is acyclic, with any ids iff waiting tasks are listed once and nothing is stuck |
| Orchestrator.AutoGenOrchestrator.MapBack | lib/auto-gen-orchestrator.js:474-481 | ids are mapped back to the tasks that represent them, in order |
| Orchestrator.AutoGenOrchestrator.OrderSubTasksByDependencies | lib/auto-gen-orchestrator.js:415-482 | unique ids: a permutation, the plan itself when cyclic, otherwise dependencies first, depths non-decreasing and in release order, which determines the list |
| Orchestrator.AutoGenOrchestrator.BuildPrompt | lib/auto-gen-orchestrator.js:506-523 | the prompt is the task's own, or that, the header and the blocks of its dependencies with non-empty results, in `dependsOn` order |
| Orchestrator.AutoGenOrchestrator.ExecuteOne | lib/auto-gen-orchestrator.js:497-536 | the creation-failure text, the agent's answer to its prompt, or the error prefix with the message; the agent joins the managed agents iff it could be created |
| Orchestrator.AutoGenOrchestrator.ExecuteSubTasks | lib/auto-gen-orchestrator.js:484-540 | one result per id; when acyclic, each is the agent's answer to a prompt with the final results of its dependencies, or the text for its failure; the created agents are recorded in order |
| Orchestrator.CreatedFromList | lib/auto-gen-orchestrator.js:498-504 | the agents recorded are those of exactly the tasks whose agents could be created, in order |
| Regexes.SkipQuoted | lib/auto-gen-orchestrator.js:203-255 | a quoted text that is not a field's key contributes no occurrence of that field |
| Regexes.TakeField | lib/auto-gen-orchestrator.js:203-255 | a key followed by a value of its kind is the next occurrence, and the search resumes after it |
| Regexes.StripIsIdentityIff | lib/auto-gen-orchestrator.js:157-158 | removing comments leaves a text unchanged iff `//` does not occur in it |
| Regexes.CommentEnds | lib/auto-gen-orchestrator.js:157-158 | a comment ends before any of the four line terminators, and what follows stays |
| Common.BlankIff | lib/auto-gen-orchestrator.js:155 | which characters are whitespace |
| PlanParser.Reconstruct | lib/auto-gen-orchestrator.js:184-288 | the loop over the ids builds exactly the tasks made of the i-th occurrence of each field |
| PlanParser.TaskIsRebuilt | lib/auto-gen-orchestrator.js:215-288 | the i-th task has the i-th occurrence of each field or the stand-in text, no search and no dependencies where there are too few |
| Common.DecimalIsNotation | lib/auto-gen-orchestrator.js:218-226 | the numbers in stand-in texts and source lists are in decimal notation |
| PlanParser.DependenciesAt | lib/auto-gen-orchestrator.js:252-273 | the i-th dependency list: its quoted ids, or its bare words when it has none |
| PlanParser.WordsReadBack | lib/auto-gen-orchestrator.js:269-272 | bare words with any whitespace between them are read back, except commas that stand alone |
| PlanParser.InBracesFound | lib/auto-gen-orchestrator.js:160-175 | a block with other text around it is cut from its first opening to its last closing brace |
| PlanParser.ReadPlan | lib/auto-gen-orchestrator.js:154-300 | a block is freed of fences, trimmed, freed of comments, cut to its braces and read; without braces the plan is empty |
| PlanParser.ReadAnswer | lib/auto-gen-orchestrator.js:139-152 | the block is looked for in a json fence, then in a plain fence, then from the first opening brace to the next closing one; without one the plan is empty |
| PlanRoundTrip.FieldStep | lib/auto-gen-orchestrator.js:222-256 | passing one printed field, a search finds its value if it looks for that field and nothing otherwise |
| PlanRoundTrip.PlanFound | lib/auto-gen-orchestrator.js:201-256 | in a printed plan the occurrences of each field are the tasks' values, in order and with nothing in between |
| PlanRoundTrip.DependenciesReadBack | lib/auto-gen-orchestrator.js:258-273 | a printed dependency list is read back as it was, the empty one included |
| PlanRoundTrip.PlanStripped | lib/auto-gen-orchestrator.js:157-158 | removing comments turns a printed plan with comments into the same plan without |
| PlanRoundTrip.PrintedBodyReadsBack | lib/auto-gen-orchestrator.js:94-117 | round trip of the text between the fences: any plan of any length printed in the prompted format, with any whitespace and comments after tasks, is read back unchanged |
| Fences.RemovalLeavesNone | lib/auto-gen-orchestrator.js:154-155 | after the removal no fence is left: it never joins backticks into a new one |
| Fences.OnlyFenceRemoved | lib/auto-gen-orchestrator.js:154-155 | a fence, with or without the language, is removed and the text on both sides stays |
| FencedPlans.FencedBlockFound | lib/auto-gen-orchestrator.js:141-152 | in any prose, the block found is exactly the text between the json fence and the next fence, without the whitespace around it |
| PlanPieces.PlanFrom | lib/auto-gen-orchestrator.js:201-288 | every text and id read is a piece of the block or a default; texts hold no quote, ids no closing bracket and no line end |
| FencedPlans.StripLeavesNoComment | lib/auto-gen-orchestrator.js:157-158 | after the removal no comment start is left: it never joins slashes |
| FencedPlans.ReadTextsSurvive | lib/auto-gen-orchestrator.js:154-300 | whatever the block, the texts and ids read from it hold no three backticks and no `//`, and ids fit in a one-line list |
| FencedPlans.PrintedPlanReadsBackIff | lib/auto-gen-orchestrator.js:154-300 | a printed block is read back unchanged iff its texts and ids hold no three backticks and no `//`, and its ids fit in a one-line list |
| FencedPlans.FencedPlanReadsBack | lib/auto-gen-orchestrator.js:139-300 | round trip of a whole answer: prose, a json fence with a printed plan without three backticks, more text |
| FencedPlans.FencedPlanReadsBackIff | lib/auto-gen-orchestrator.js:139-300 | such an answer is read back iff the same holds |
| FencedPlans.PlainFencedPlanReadsBackIff | lib/auto-gen-orchestrator.js:143-152 | without a json fence, a plan in a plain fence is read back under the same condition |
| FencedPlans.JsonFenceWins | lib/auto-gen-orchestrator.js:142-144 | a complete json fence wins over a plain one before it |
| FencedPlans.PlainFenceWins | lib/auto-gen-orchestrator.js:143-144 | a complete plain fence wins over braces before it |
| FencedPlans.CommentedTextIsLost | lib/auto-gen-orchestrator.js:157-158 | a plan with `//` in a text or id is the reading of no answer |
| FencedPlans.WebAddressIsLost | lib/auto-gen-orchestrator.js:157-158 | a prompt with a web address has no quote and no fence, and no answer reads back as its plan |
| JsonPlans.JsonPlanReadsBackIff | lib/auto-gen-orchestrator.js:92-300 | a plan printed as JSON, with any escapes for what must be escaped, is read back iff the same holds and there was nothing to escape |
| FencedPlans.BarePlanLosesTasks | lib/auto-gen-orchestrator.js:141-152 | an answer without fences is read as the plan's first task alone (when its texts hold no closing brace) |
| FencedPlans.BarePlanReadsBackIff | lib/auto-gen-orchestrator.js:94-152 | such an answer is read back iff the plan has a single task that would be read back in a fence and holds no closing brace |
| SubconversationTools.RequestSpecialist | lib/tools/subconversation-tools.js:48-64 | a request signal, with these arguments, iff both are truthy, otherwise an error signal |
| SubconversationTools.EndSpecialist | lib/tools/subconversation-tools.js:107-124 | an end signal, with these values of any type, iff the status is truthy and result and last message are present; a falsy note counts as none |
| Protocol.StartSubConsistent | lib/routing-chat-manager.js:269-331 | starting, reusing or failing to start a specialist keeps: the active agent is the primary iff no role is active, else the instance stored for the role |
| Protocol.EndNamesItsSpecialist | lib/routing-chat-manager.js:339-352 | for a waiting client, an END from a specialist is recorded under that specialist's own role |
| Protocol.WhoSpeaksHearsNext | lib/routing-chat-manager.js:122-261 | the words returned are those of the agent in control afterwards, the next message goes to that agent, a pending result means the primary is in control, and the missing-result branch is not reached |
| Protocol.CallAnswers | lib/routing-chat-manager.js:122-261 | case by case, whose outcome the caller gets and who is in control, with which specialists and what waiting, after no signal, an error signal, a request, an end from a specialist and one from the primary |
| Protocol.ErrorIff | lib/routing-chat-manager.js:122-261 | the error text comes back iff the first agent failed, the agent asked second failed, or the requested specialist is neither known nor available |
| Protocol.EndSubConserves | lib/routing-chat-manager.js:339-366 | an END accounts for the result it stores and for the one it replaces |
| Protocol.CallConserves | lib/routing-chat-manager.js:122-261 | a whole call accounts for every result and overwrites none |
| Protocol.OperationKeeps | lib/routing-chat-manager.js:373-408 | messages, clears and ends of a session keep the invariant and the account |
| Protocol.SequentialRun | lib/routing-chat-manager.js:122-408 | over any sequential run, accepted results = results noted to the primary + dropped by clear or end + the pending one, once each and in order, none overwritten |
| Interleaving.StepSafe | lib/routing-chat-manager.js:122-366 | each step between two awaits, of any call, keeps the state consistent, the account of results balanced, and only asks agents of the session |
| Interleaving.AnyInterleaving | lib/routing-chat-manager.js:122-366 | the same over every interleaving of any number of calls and clears |
| Interleaving.UninterruptedCall | lib/routing-chat-manager.js:122-261 | a call that nothing interrupts takes the machine exactly where the sequential call ends: state, answer and account |
| Interleaving.StepOverwritesIff | lib/routing-chat-manager.js:345-352 | a step loses a result iff an END comes back while another result is pending |
| Interleaving.RunLosesNothingIff | lib/routing-chat-manager.js:122-366 | over any run, nothing is lost in the end iff nothing was before and no END came back while another result was pending |
| Interleaving.ResultMissingIff | lib/routing-chat-manager.js:206-217 | a call whose specialist ended answers that the result is missing iff a step between its END and its continuation took the pending result and no later END refilled its place |
| Interleaving.OnlyResumeMisses | lib/routing-chat-manager.js:209-216 | no other step ever gives that answer |
| Interleaving.WaitingClientLosesNothing | lib/routing-chat-manager.js:206-246 | in the interleaved machine, if calls and clears start only when no call is under way, nothing is overwritten and the missing-result branch is not reached |
| Interleaving.OverlapLosesResult | lib/routing-chat-manager.js:206-217 | two messages at once, both ended: the first result is lost and the second caller gets the missing-result text |
| SessionOpening.AnyHistory | lib/routing-chat-manager.js:74-102 | with openings and ends of the session interleaved too, every state object ever made stays safe |
| SessionOpening.LeftBehindForGood | lib/routing-chat-manager.js:74-102 | a state that is no longer in the map never comes back |
| SessionOpening.LeftBehindIff | lib/routing-chat-manager.js:98-99 | over any history, the current state is left behind iff the session ends or a call that had found no state stores its own |
| SessionOpening.CurrentIff | lib/routing-chat-manager.js:74-102 | over any history, there is a state iff one was stored, or there to begin with, and the session has not been ended since |
| SessionOpening.OpenReplacesIff | lib/routing-chat-manager.js:75-99 | a call stores a state over another iff, since it looked, another call has stored one and the session has not been ended after that |
| SessionOpening.NeverReplacedIff | lib/routing-chat-manager.js:74-102 | over any history, no state is stored over another iff no store follows another, or a state that was there, without an end between |
| SessionOpening.OneByOneNeverReplaces | lib/routing-chat-manager.js:74-102 | if no call looks for the state while another opens one, no state is stored over another |
| SessionOpening.RacingFirstMessages | lib/routing-chat-manager.js:74-102 | two first messages at once: the handover of the first happens in a state that has been replaced |
| SessionOpening.EndForgetsCoordinator | lib/chat-manager.js:251-266 | a session that has ended is opened around a new coordinator |
| Conversation.TurnKeepsAlternation | lib/chat-agent.js:435-554 | a turn adds 2 + 2k entries for k tool calls when it ends with text, one fewer otherwise, and user and model alternate throughout |
| Conversation.ConversationCompleteIff | lib/chat-agent.js:429-581 | over a whole conversation the history alternates and ends with the model iff every turn ended with text |
| Conversation.AlternatesIff | lib/chat-agent.js:429-581 | over a whole conversation user and model alternate iff every turn but the last ended with text |
| Conversation.AnswerIsAnswer | lib/chat-agent.js:552-580 | a turn fails iff the model call throws, answers with the internal-error text without a response object, and otherwise with the model's final text, whatever tools ran |
| Conversation.TurnIsRecorded | lib/chat-agent.js:435-554 | a turn's entries: the user's message, for each call the intention and the tool's name and result, and the final text |
| Conversation.RunToolIsResult | lib/chat-agent.js:507-526 | a tool's result, the signal of a signalling tool, or the texts for an unknown tool and one that throws |
| Conversation.SignalIff | lib/chat-agent.js:563-572 | a reply carries a signal iff the turn ended with text and its last tool returned one, and then that one |
| ChatAgents.ChosenChatId | lib/chat-agent.js:145-157 | a given non-blank id is kept, trimmed; otherwise one is generated iff there is a memory |
| ChatAgents.ChatAgent.constructor | lib/chat-agent.js:143-165 | the agent starts with the stored history of its chat, or empty without a conversation memory |
| ChatAgents.ChatAgent.AddToConversationHistory | lib/chat-agent.js:641-655 | history and chat log both grow by the message; no other chat changes |
| ChatAgents.ChatAgent.ProcessUserMessage | lib/chat-agent.js:429-581 | one turn: history and log grow by the user's message, two entries per call and the final text, in order; the answer is the model's final text with the last tool's signal, the internal-error text, or a failure |
| ChatAgents.ChatAgent.HandleCalls | lib/chat-agent.js:458-550 | the tool loop writes two entries per call, in order, the second with the tool's name and result, and remembers the last result |
| ChatAgents.ChatAgent.ExecuteTool | lib/chat-agent.js:507-526 | the requested tool's result, or the texts for an unknown tool and one that throws |
| ChatAgents.ChatAgent.ClearHistory | lib/chat-agent.js:660-675 | history and chat log become empty; no other chat changes |
| RoutingManager.RoutingChatManager.GetOrCreateSession | lib/chat-manager.js:163-221 | one agent per trimmed id, created once with the session's options or the configured ones, writing to that chat and loaded from it |
| RoutingManager.RoutingChatManager.GetOrCreateSessionState | lib/routing-chat-manager.js:74-102 | the state of an id, opened once around the session's agent, which has the session's own tools and the one to request a specialist; other sessions keep theirs |
| RoutingManager.RoutingChatManager.CoordinatorOptions | lib/routing-chat-manager.js:83-87 | the coordinator's options always name its tools, the one to request a specialist among them |
| RoutingManager.RoutingChatManager.StartSubConversation | lib/routing-chat-manager.js:269-331 | the state moves as the protocol's start; a new specialist is a new object on the same chat with the tool to end the sub-conversation; its context, new or old, is extended by the initial one; no history changes |
| RoutingManager.WithTool | lib/routing-chat-manager.js:290 | the signalling tool is added under its name unless there is one of that name, and all other tools stay |
| RoutingManager.RoutingChatManager.ExtendContext | lib/routing-chat-manager.js:309-313 | the initial context follows the specialist's own after a blank line, or stands alone, and nothing changes without one |
| RoutingManager.RoutingChatManager.EndSubConversation | lib/routing-chat-manager.js:339-366 | the state moves as the protocol's end |
| RoutingManager.RoutingChatManager.HandleRequest | lib/routing-chat-manager.js:174-200 | the specialist that takes over answers the user's own message; otherwise the call fails with control at the primary |
| RoutingManager.RoutingChatManager.HandleEnd | lib/routing-chat-manager.js:203-237 | the result goes to the primary with the user's message in the same call and is no longer pending |
| RoutingManager.RoutingChatManager.ChooseAgent | lib/routing-chat-manager.js:129-161 | the primary with a note when a result is pending, else the active agent with the message as it is |
| RoutingManager.RoutingChatManager.ActOn | lib/routing-chat-manager.js:169-256 | acting on an answer is the protocol's Act, and the chat grows by exactly what the agent asked next writes |
| RoutingManager.RoutingChatManager.ProcessInState | lib/routing-chat-manager.js:122-261 | the whole call is the protocol's Call on the state, keeps all invariants, and says exactly what was added to the chat |
| RoutingManager.RoutingChatManager.ProcessMessage | lib/routing-chat-manager.js:122-261 | with the session created on demand: whose outcome is answered or that it is the error text, who is in control, and the log entries; a blank id is an error; other sessions and other chats are untouched; the session's agents' copies stay subsequences of its log |
| RoutingManager.RoutingChatManager.Ask | lib/chat-agent.js:641-655 | the agent's answer, its history and the log grow together, and every agent of the session keeps a subsequence of the log |
| RoutingManager.RoutingChatManager.OtherAgentsApart | lib/routing-chat-manager.js:297-298 | sessions with different trimmed ids have no agent in common |
| RoutingManager.RoutingChatManager.OtherCopiesKept | lib/chat-agent.js:641-655 | a session whose agents and log did not change is as close to its log as it was |
| RoutingManager.RoutingChatManager.EndSession | lib/routing-chat-manager.js:373-381 | the state and the agent are forgotten, true iff there was an agent; other sessions' states stay |
| RoutingManager.RoutingChatManager.ClearState | lib/routing-chat-manager.js:388-403 | every agent's history and the chat are emptied, a pending result is dropped, control stays |
| RoutingManager.RoutingChatManager.ClearSessionHistory | lib/chat-manager.js:274-301 | which ids can be cleared, that their chat is then empty, and that no other chat changes |
| RoutingManager.RoutingChatManager.Shutdown | lib/routing-chat-manager.js:414-420 | all sessions are forgotten |
| Clients.Handle | lib/routing-chat-manager.js:122-408 | one request, message, clear or end, to whichever trimmed id, keeps any session's copies subsequences of its log, and changes the log of no other session |
| Clients.Serve | lib/routing-chat-manager.js:122-408 | the same over any run of requests, for any session |
| ConversationLog.InsertAtEnd | lib/memory/sqlite-conversation-memory-adapter.js:94-106 | a row at the next index is last in its chat's history and leaves every other chat's history as it was |
| ConversationLog.ClearEffect | lib/memory/sqlite-conversation-memory-adapter.js:124-139 | clearing empties one chat and no other |
| ConversationLog.SQLiteConversationMemoryAdapter.LoadHistory | lib/memory/sqlite-conversation-memory-adapter.js:61-82 | the messages of the chat in index order |
| ConversationLog.SQLiteConversationMemoryAdapter.AppendMessage | lib/memory/sqlite-conversation-memory-adapter.js:91-117 | alone, an append puts the message last in its chat and touches no other |
| ConversationLog.SQLiteConversationMemoryAdapter.ClearHistory | lib/memory/sqlite-conversation-memory-adapter.js:124-139 | the chat is empty, the others as before |
| ConversationLog.LandsIffStillNext | lib/memory/sqlite-conversation-memory-adapter.js:103-111 | an insert is accepted iff the index it had read is still the next one |
| ConversationLog.InsertKeepsDenseIff | lib/memory/sqlite-conversation-memory-adapter.js:100-106 | an accepted insert keeps indices 0..n-1 gapless iff its index is not beyond n |
| ConversationLog.GaplessIff | lib/memory/sqlite-conversation-memory-adapter.js:91-139 | over any run, clears under appends included: gapless at every point iff no accepted insert lies beyond the next index, and then the history is the accepted appends since the last clear, in order |
| ConversationLog.InsertBeyondIff | lib/memory/sqlite-conversation-memory-adapter.js:94-106 | an append's index lies beyond the next one iff the chat was cleared since its read and fewer appends than that index have landed since the last clear |
| ConversationLog.QuietRunsFit | lib/memory/sqlite-conversation-memory-adapter.js:91-139 | a chat that is not cleared under an append meets that condition |
| ConversationLog.AppendsLinearise | lib/memory/sqlite-conversation-memory-adapter.js:91-117 | under any interleaving of appends, without a clear under one of them, indices stay gapless and the history is the accepted appends in order of acceptance |
| ConversationLog.HistoriesFromEmpty | lib/memory/sqlite-conversation-memory-adapter.js:37-45 | from an empty table, every chat whose inserts fit is gapless and its history is the accepted appends, as many as indices |
| ConversationLog.ConflictIffOvertaken | lib/memory/sqlite-conversation-memory-adapter.js:94-111 | between an append's read and its insert, the insert will be accepted iff no other append to the chat was, as long as the chat is not cleared |
| ConversationLog.ClearUnderAppendLeavesGap | lib/memory/sqlite-conversation-memory-adapter.js:91-139 | a concrete run in which a clear under an append leaves index 0 missing |
| HistoryCopies.StepExact | lib/chat-agent.js:262-277 | each load, message, persist and clear keeps an exact description of every agent's copy |
| HistoryCopies.CopiesAreSubsequences | lib/chat-agent.js:641-655 | over any run, late loads included, between messages every agent's copy is a subsequence of the shared log |
| HistoryCopies.CopyEqualsLogIff | lib/chat-agent.js:262-277 | a loaded copy equals the log iff nobody spoke between the load's read and arrival and nobody but the agent has since |
| OverlappingMessages.StepClose | lib/chat-agent.js:641-655 | with messages overlapping, every step that is orderly for an agent keeps: its copy is a part of the log followed by messages of its own that still wait |
| OverlappingMessages.OverlappingCopiesAreSubsequences | lib/chat-agent.js:641-655 | over any run orderly for an agent, whenever none of its messages waits, its copy is a subsequence of the log |
| OverlappingMessages.FailedStaysInCopy | lib/chat-agent.js:648-653 | a failed append leaves its message in the author's copy and out of the log |
| TextLoading.CreateTextLoader | lib/loaders/text-loader.js:19-25 | construction fails iff the overlap is not smaller than the size |
| TextLoading.TextLoader.SplitText | lib/loaders/text-loader.js:52-82 | ceil(n/step) chunks, chunk k from k*step to min(k*step+size, n); the loop terminates and its guard at 74 never fires |
| TextLoading.ChunkIsPart | lib/loaders/text-loader.js:58-59 | a chunk is the part of the text from its start to its end |
| TextLoading.NeighboursShare | lib/loaders/text-loader.js:57-71 | neighbouring chunks share exactly the overlap, or what is left of the text |
| TextLoading.JoinedPrefix | lib/loaders/text-loader.js:57-71 | the first step characters of the first c chunks, joined, are the text's first c*step characters |
| TextLoading.RestoresTextIff | lib/loaders/text-loader.js:19-25 | for every loader that can be built, joining restores the text iff the overlap is not negative, or the text is empty or fits in one chunk |
| Grounding.DistinctMembers | lib/generative-ai-llm.js:242-254 | the distinct list has each member once and no other |
| Grounding.DistinctOrder | lib/generative-ai-llm.js:242-254 | the distinct list is ordered by first occurrence |
| Grounding.CitationsIff | lib/generative-ai-llm.js:221-240 | the citations are exactly what the supports' indices in range cite, with the web's uri and title before the retrieved ones |
| Grounding.CitationsInOrder | lib/generative-ai-llm.js:221-227 | they come support by support |
| Grounding.DomainLookedUpIff | lib/generative-ai-llm.js:234-235 | the domain is looked up iff the uri starts with http |
| Grounding.GroupAfter | lib/generative-ai-llm.js:240-255 | how the declarative group of a source changes with one more citation |
| Grounding.RecordRepresents | lib/generative-ai-llm.js:240-255 | the map update keeps the map equal to the group-by of the citations so far |
| Grounding.CiteIndex | lib/generative-ai-llm.js:227-257 | one chunk index: nothing when out of range or without uri, an exception for an http uri that is no URL, else one citation recorded |
| Grounding.CollectSources | lib/generative-ai-llm.js:214-266 | the sources are the group-by of all citations, in first-citation order with distinct non-empty excerpts; an exception iff a cited http uri is no URL |
| Grounding.Shorten | lib/generative-ai-llm.js:275-278 | a printed excerpt has at most 150 characters and is unchanged iff the excerpt had no more |
| Grounding.FormatSources | lib/generative-ai-llm.js:261-285 | no list for no sources, else the heading and one such entry per source, numbered from 1 |
| Grounding.EntryAt | lib/generative-ai-llm.js:268-282 | the k-th entry carries the number 1 + k and follows the entries before it |
| Grounding.EntryIsEntry | lib/generative-ai-llm.js:269-282 | an entry shows its number, the title or else the domain or else the stand-in, the uri, and one line per excerpt |
| Grounding.FormatGroundingMetadata | lib/generative-ai-llm.js:211-286 | no list iff nothing with a uri is cited, else the group-by of the citations, numbered from 1; an exception iff a cited http uri is no URL |
| SchemaConversion.ConvertIdempotent | lib/agent.js:219-245 | converting a converted type changes nothing, whatever the type entry |
| SchemaConversion.ConvertNames | lib/agent.js:219-245 | an ASCII type text becomes a type name iff it is that name in any casing, and "ANY" iff it is none; a missing type stays missing |
| SchemaConversion.ConvertSpecialLetters | lib/agent.js:221 | the four other characters whose upper case is made of the names' letters |
| SchemaConversion.WrittenIff | lib/agent.js:197-214 | the objects converted are those reached by property names, and item objects there |
| SchemaConversion.ApplyTwice | lib/agent.js:197-214 | converting two sets of schema objects, shared ones included, equals converting their union once |
| SchemaConversion.ConvertProp | lib/agent.js:199-212 | exactly the types of the property, its item object and its nested properties at any depth are converted, in place |
| SchemaConversion.ConvertNestedProperties | lib/agent.js:247-267 | the same for all properties of a map, in any order |
| SchemaConversion.PrepareTools | lib/agent.js:148-157 | the declarations in order, and every schema object any tool reaches converted once |
| SchemaConversion.PrepareToolsForLLM | lib/agent.js:137-181 | declarations iff there are tools, web search iff it is enabled and there are none, schema objects converted as by PrepareTools |
| SchemaConversion.PrepareEachRound | lib/chat-agent.js:544-549 | every round of the tool loop hands over equal declarations whose schema objects hold equal types at every hand-over |
| AnswerSplit.FindAnswerStart | lib/hierarchical-agent-thinking-orchestrator.js:421-440 | the first search computes the specified answer start |
| AnswerSplit.FindSeparatorStart | lib/hierarchical-agent-thinking-orchestrator.js:449-462 | the second search finds the start of a marker that ends at the answer start iff there is one |
| AnswerSplit.CutsIff | lib/hierarchical-agent-thinking-orchestrator.js:443 | the text is cut iff some pattern matches and the chosen match does not end the text |
| AnswerSplit.Split | lib/hierarchical-agent-thinking-orchestrator.js:421-480 | reasoning, marker and answer are the raw text; the marker is a real match and the fallback at 468-473 is not reached |
| AnswerSplit.Process | lib/hierarchical-agent-thinking-orchestrator.js:421-504 | the answer is empty only if the raw text is; it is the cleaned text after the chosen marker, with the text before the marker as reasoning, or else the raw text without reasoning |
| AnswerSplit.LastMarkerChosenIff | lib/hierarchical-agent-thinking-orchestrator.js:433-439 | the last marker of all is chosen iff it starts after the position the earlier patterns led to |
| AnswerSplit.LastMarkerChosenWithGap | lib/hierarchical-agent-thinking-orchestrator.js:433-439 | it is always chosen when every earlier pattern's match ends before it |
| AnswerSplit.OverlappingMarkerPassedOver | lib/hierarchical-agent-thinking-orchestrator.js:415-440 | a separator line that shares its line break with a heading is passed over although it is last |

## Left out

- Calls to Gemini, Vertex AI, embeddings, search and Chroma, and what tools other than the two signalling ones compute: parameters or scripts of the model.
- Task ids that are names of JavaScript's object prototype (`constructor`, `__proto__`): ids are plain keys here.
- Results of sub-tasks that are not text, and the text `generateFinalResponse` makes of all results: wording.
- The code after the return at `lib/auto-gen-orchestrator.js:300`.
- Regexes.FindAll: the field patterns are modelled as matchers without backtracking, which their disjoint character classes never need.
- PlanRoundTrip.PrintedBodyReadsBack: the direction needed for the round trips; which texts and ids it covers is exact in FencedPlans.
- FencedPlans.PrintedPlanReadsBackIff: texts and ids hold no quotes; the reader has no escapes for them.
- JsonPlans.JsonPlanReadsBackIff: ids in dependency lists hold no quotes.
- FencedPlans.BarePlanReadsBackIff: the comment after the first task holds no closing brace.
- FencedPlans.FencedPlanReadsBackIff: comments hold no three backticks.
- Conversation.ConversationCompleteIff: delegation through `delegate_task_to_specialist` inside `ChatAgent` is off, as `RoutingChatManager` leaves it; automatic fact and summary memories are not modelled.
- Interleaving.AnyInterleaving: calls on one state object; SessionOpening adds the openings and ends of a session. A clear is one step, at the point where it drops the pending result.
- RoutingManager.NoteWording: the wording of the two notes to the coordinator is a parameter; who gets them, when and with which result is modelled.
- RoutingManager.RoutingChatManager.ClearSessionHistory: fact and summary memories, which the code clears only for a session without a state, and memory adapters that fail, are not modelled.
- RoutingManager.RoutingChatManager.Shutdown: closing connections is not modelled.
- ChatAgents.ChatAgent.constructor: the history is loaded at once; loads that arrive late are the subject of HistoryCopies.
- RoutingManager.RoutingChatManager.ProcessMessage: clearing a session under an untrimmed id empties a log that agents of the trimmed id's own state still hold copies of.
- The MongoDB adapters: their append has no unique key, so the concurrent law does not hold there, and sequentially they add nothing; the fact and summary adapters are maps and sorted queries.
- Database input/output errors other than the key conflict.
- SchemaConversion.PrepareTools: replacing a `properties` object by a copy with the same entries is no change for a map value.
- The older `webSearchRetrievalResults` format of the source list: string assembly.
- AnswerSplit.Process: the marker patterns are given as positions of their matches and the two final replacements as a function; the JSON branch of `processThinkingResponse` is not modelled.
- `ThinkingAgent`, `AgentRegistry`, `ToolBuilder`, the other orchestrators and the agent chain: guesses over paragraphs or one-branch facts.
