# A verified model of Amplio's core logic

Amplio runs LLM agents as goroutines inside one Go process, over an event store. This project
models the parts of it whose correctness depends on state, interleavings or exact text, in
Dafny, and proves what they promise.

| file | what it models |
|---|---|
| `Text.dfy` | Go strings as byte sequences: searching, cutting, `strings.TrimSpace` down to the UTF-8 encodings of Unicode whitespace |
| `Args.dfy`, `ArgsReading.dfy`, `Spec.dfy`, `SpecRoundTrip.dfy` | the LLM spec language: escaping, the query parser, the parser and the canonical printer of specs |
| `Menu.dfy`, `MenuRows.dfy` | menu resolution, and what a handle resolves to said over the rows |
| `Liveness.dfy`, `LivenessRuns.dfy` | which goroutine owns which session: registries, slots, cleanup, wake and respawn, one step per mutex hold |
| `Waiter.dfy` | the counter and broadcast channel a session sleeps on, with the 64-bit counter wrapping |
| `Events.dfy`, `Registry.dfy` | statuses and event classes; waiters, registries and the commit listener as objects |
| `Cancel.dfy` | the recursive cancel cascade |
| `Recover.dfy` | respawning a session and recovering a run |
| `WorkPool.dfy`, `PoolShutdown.dfy` | the observer's worker pool, its drain and its end |
| `Chunks.dfy`, `Phases.dfy`, `Trajectory.dfy` | cutting a chunk of events, step summaries, phase closing and the three cursors; the view built from the phase rows |
| `Images.dfy`, `ImageNotes.dfy`, `Batches.dfy` | the image window of a request and the messages as they are sent; packing texts into embedding requests |
| `TextRank.dfy`, `RankingLaws.dfy`, `Fusion.dfy` | BM25, what it rewards, and score fusion |
| `Skills.dfy`, `SkillRows.dfy` | the incremental skill index, and what it puts where |
| `Nickname.dfy` | the name pool, uniform choice, and the name allocator |
| `LinkLocks.dfy` | the reference-counted keyed lock |
| `Bus.dfy`, `BusOrder.dfy` | the lossy event bus and the stream that reads it; who gets what in which order |

Code that computes is a function; code that loops or updates fields is a method or a class
whose contract equates it with a function or with a function of the old state. Concurrent code
is a transition system with one step per mutex hold (or per channel operation), and its
theorems range over every run.

Where the code does less than it or its documentation says, the model follows the code and the
exact condition is proved:

- The canonical form of a spec does not always parse back (`internal/llm/spec.go:130-136` says
  it does). `SpecRoundTrip.RoundTripIff` gives the condition for every spec value,
  `FieldsRoundTripIff` on the fields a caller has, `AsciiFieldsRoundTrip` says that ASCII
  arguments always come back; `TrailingBlankBreaks` and `QuestionInsideBlockBreaks` are the two
  families that fail although the parser accepts them.
- Launching takes two mutex holds (`internal/runtime/manager.go:494-495`). If the run's empty
  registry is removed in between, the goroutine lives in a registry nobody can find and a
  second one can be started. `LivenessRuns.SafeIff` says exactly which runs are free of this:
  every live session stays findable and alone, also once the cleanups under way are through, if
  and only if every registration lands in a published registry that no cleanup is about to remove.
  `LivenessRuns.TwoHoldsCanDuplicate` is a run that is not, and
  `LivenessRuns.PairedRunsAreSafe` is the theorem for launches taken as one step.
- `CancelSession` is documented to fail only if the target's own write failed
  (`internal/session/registry.go:230-236`); it also reports failures below the target.
  `Cancel.CancelRun` states exactly when it fails, and `Cancel.CancelledYetFailed` is a cascade
  that cancels its target and still returns an error.
- A failure between the two writes that close a phase can leave two phases that overlap for
  good: `Phases.RetryMendsIff` and `Session.ClosePhases` say exactly when.
- A negative per-image limit disables the check that the total limit implies:
  `Images.KeptIsWithinIff`.
- The prime of a new subscription is commented as never blocking
  (`internal/eventstream/bus.go:54`). It is free exactly if fewer than 1024 events were delivered
  since the subscription (`EventBus.PrimeFreeIff`), every run with an unprimed subscription can go
  on so that it is not (`EventBus.PrimeCanBlock`), and then it blocks for good
  (`EventBus.StuckForever`).
- The observer's drain is documented to abort when `Stop`'s own context ends
  (`internal/observer/observer.go:119`). Nothing wakes `Stop` then: `WorkPool.AbortIff` says that
  it returns exactly from the next broadcast on, and `WorkPool.StrandedStop` that with every
  worker gone none comes unless something is enqueued. The drain itself moves exactly while some
  worker is left (`WorkPool.DrainProgresses`, `WorkPool.DrainNeedsWorkers`).

To check everything: `dafny verify dfyconfig.toml`.

## Model

| member | source | states |
|---|---|---|
| SpecRoundTrip.RoundTripIff | internal/llm/spec.go:130-161 | for every spec value, parsing its canonical form gives a spec of the same meaning if and only if provider, arguments and nickname are clean and the canonical tail is printable |
| SpecRoundTrip.PrintableIff | internal/llm/spec.go:118-156 | for a model without '?' and any arguments, the canonical tail is printable exactly when the model has no nickname mark or misused brace and the tail does not end in whitespace |
| SpecRoundTrip.FieldsRoundTripIff | internal/llm/spec.go:130-161 | the round trip on the fields: it succeeds exactly when provider, client arguments and nickname are clean, the model has no nickname mark, and neither model nor encoded arguments end in whitespace |
| SpecRoundTrip.AsciiFieldsRoundTrip | internal/llm/spec.go:130-161 | with a trimmed model and ASCII arguments the very same spec comes back, with its model and arguments |
| SpecRoundTrip.RenderInjective | internal/llm/spec.go:130-161 | two well-formed specs with the same canonical form mean the same |
| SpecRoundTrip.SameMeaningSameText | internal/llm/spec.go:130-161 | specs of the same meaning have the same canonical form |
| SpecRoundTrip.ParseThenPrintFixpointIff | internal/llm/spec.go:83-161 | for any text the parser accepts, print-and-parse is a fixed point exactly when the canonical tail is printable |
| SpecRoundTrip.TrimChangesMeaning | internal/llm/spec.go:118-161 | a canonical tail that ends in whitespace never means the same after trimming, because an escaped value cut short decodes to another value |
| SpecRoundTrip.CanonicalTailMeansSame | internal/llm/spec.go:118-156 | rewriting a tail canonically keeps its model and arguments |
| SpecRoundTrip.TrailingBlankBreaks | internal/llm/spec.go:83-161 | every model with trailing whitespace before an empty '?' is accepted and does not come back |
| SpecRoundTrip.QuestionInsideBlockBreaks | internal/llm/spec.go:118-161 | a '?' inside an inner block is accepted by the parser, and what is printed for it is refused |
| SpecLang.ParsedIsClean | internal/llm/spec.go:83-116 | whatever text is parsed, the provider is clean, no key is without a value, the nickname is trimmed and the tail is well-formed |
| SpecLang.ParsePrinted | internal/llm/spec.go:83-116 | a printed head followed by any text at all: which spec is read, or that it is refused |
| SpecLang.FindNickname | internal/llm/spec.go:166-189 | the scan with a brace depth finds the first '#' outside a block and refuses misused braces |
| SpecLang.SplitPrintedHead | internal/llm/spec.go:194-219 | splitting a printed head gives back provider, encoded block and tail |
| SpecLang.Print | internal/llm/spec.go:137-161 | the builder writes exactly the canonical form |
| Args.DecodeEncode | internal/llm/spec.go:221-289 | any argument multimap with non-empty value lists, over any bytes, is decoded from its encoding |
| Args.EncodeInjective | internal/llm/spec.go:238-289 | two argument multimaps with the same encoding are equal |
| Args.UnescapeEscape | internal/llm/spec.go:271-289 | percent-decoding undoes the escaping of any byte string (section 2.1 of RFC 3986) |
| Args.EscapeArg | internal/llm/spec.go:279-289 | one pass over the bytes gives the escaped text |
| Args.SortStrings | internal/llm/spec.go:248-256 | the keys in byte-wise order |
| Args.EncodeArgs | internal/llm/spec.go:248-269 | the nested loops write the canonical encoding |
| ArgsReading.EscapeKeepsIff | internal/llm/spec.go:240-247 | text is left as it is exactly if all of it is readable: no control character, blank, `%&=;+{}#`; so ':' and '/' stay |
| ArgsReading.EscapeCharSays | internal/llm/spec.go:271-289 | any other character becomes '%' and two upper-case hexadecimal digits |
| ArgsReading.UnescapeIff | internal/llm/spec.go:221-230 | text can be unescaped exactly if every '%' begins an escape, with digits in either case |
| ArgsReading.UnescapeJoin | internal/llm/spec.go:221-230 | unescaping goes piece by piece |
| ArgsReading.UnescapePiece | internal/llm/spec.go:221-230 | a '+' is read as a space, an escape as the character it spells, anything else as itself |
| ArgsReading.ParseArgsIff | internal/llm/spec.go:221-230 | any text at all is read as arguments exactly if it is blank, or has no ';' and only good escapes |
| ArgsReading.QueryJoin | internal/llm/spec.go:221-230 | a query is its '&'-separated parts in order, and one bad part spoils it |
| ArgsReading.SegmentSays | internal/llm/spec.go:221-230 | a part is a key and a value around its first '=', a key alone has the empty value |
| Text.SpaceIsWhiteSpace | internal/llm/spec.go:166-219 | what trimming takes from either end of any text is a whole character of Unicode's White_Space in UTF-8 (section 3 of RFC 3629), and nothing else |
| Menu.ResolvePermuted | internal/llm/menu.go:55-80 | refusal or resolved text is the same for every permutation of the menu and every labelling of its rows |
| Menu.ResolvedFromMenu | internal/llm/menu.go:107-174 | whatever is resolved has the provider and client block of a menu row: either the handle names that row by nickname or label and the row's tail is kept, or the handle is a spec whose arguments override the row's key by key |
| Menu.RunsReadsBack | internal/llm/menu.go:107-174 | a resolved text reads back with the row's provider and client block, and as a whole when its tail is printable |
| Menu.ExactHandleResolves | internal/llm/menu.go:107-150 | a handle that reproduces a row's provider, model and arguments resolves to that row, unless another such row has a different block |
| Menu.ParseMenu | internal/llm/menu.go:232-245 | rows that do not parse are dropped, the others keep their order |
| Menu.UniqueHit | internal/llm/menu.go:198-223 | one pass finds the only row of a name, or that there are several |
| Menu.FindAlias | internal/llm/menu.go:198-223 | nicknames win over labels, and an ambiguous name in either pass is refused |
| Menu.FindSpec | internal/llm/menu.go:107-174 | the loops over the rows compute the match by spec |
| MenuRows.NicknameResolves | internal/llm/menu.go:71-80 | a handle that is no spec of the menu and is the nickname of exactly one row gives that row's text without the nickname, whatever the labels are |
| MenuRows.LabelResolves | internal/llm/menu.go:71-80 | if it is no nickname and the label of exactly one row, the same for that row |
| MenuRows.OthersAreRefused | internal/llm/menu.go:55-80 | two rows with the nickname, or no nickname and not exactly one label, or a blank handle: refused |
| MenuRows.SpecWins | internal/llm/menu.go:64-72 | a handle that resolves as a spec gives that result, whatever it may also name |
| MenuRows.ResolveSpecIff | internal/llm/menu.go:107-174 | a spec resolves exactly if it means some row and all rows it means have the same client block and arguments; then to that block with the caller's arguments over the row's |
| MenuRows.ClientIsRefused | internal/llm/menu.go:107-112 | a handle with client arguments is refused |
| Liveness.StepIff | internal/session/registry.go:158-205 | a step from a state with the invariant keeps it if and only if it is not a registration in a registry that is no longer published |
| LivenessRuns.SafeIff | internal/runtime/manager.go:320-338 | in every run: at every moment each live session is findable and has one goroutine, also once the cleanups under way are through, if and only if every registration lands |
| LivenessRuns.RunIff | internal/runtime/manager.go:320-338 | the invariant behind it holds throughout a run if and only if every registration lands |
| LivenessRuns.PairedRunsAreSafe | internal/runtime/manager.go:494-513 | with launches as one step, in every run each live session's handle is the published one and no session has two goroutines |
| LivenessRuns.LaunchStartsIff | internal/runtime/manager.go:494-513 | a launch starts a goroutine exactly if the session has none, and touches nobody else |
| LivenessRuns.SpawnStartsIff | internal/session/registry.go:158-172 | the same for a child, which goes by its parent's registry |
| LivenessRuns.ReleaseEnds | internal/session/registry.go:166-180 | a release ends exactly its own session |
| LivenessRuns.CleanupRemovesIff | internal/runtime/runreg.go:82-95 | the cleanup after it unpublishes the run exactly if its registry is empty |
| LivenessRuns.CommitKnows | internal/runtime/notify.go:66-69 | a commit to a live session starts a notifier that holds that session's registry |
| LivenessRuns.CanGoOn | internal/runtime/runreg.go:37-95 | whoever is at any stage of a launch, a session, a cleanup or a notification can take the next step, but for those that wait for the run-registry mutex |
| LivenessRuns.RemovalLocks | internal/runtime/runreg.go:82-95 | between the check and the deletion of a removal nobody else reads or changes what is published |
| Liveness.TakeSlotIff | internal/session/registry.go:158-172 | taking a slot keeps the invariant exactly when the registry is still the published one |
| LivenessRuns.CommitReachesLive | internal/runtime/notify.go:56-85 | a commit to a session that is live finds its own handle and bumps its own counter |
| LivenessRuns.WakeReachesLive | internal/session/registry.go:183-193 | the wake that follows bumps that session's own counter and no other |
| LivenessRuns.NoRespawnOfLive | internal/runtime/notify.go:69-83 | a notifier about to respawn has no live session that was there at its commit |
| LivenessRuns.RespawnLosesNothing | internal/runtime/manager.go:466-513 | a respawn starts a goroutine or finds one that registered after the commit |
| LivenessRuns.OnlyEmptyIsUnpublished | internal/runtime/runreg.go:82-95 | a registry with a session in it is never unpublished |
| LivenessRuns.TwoHoldsCanDuplicate | internal/runtime/manager.go:494-495 | with two lock holds some run ends with two goroutines of one session |
| WaiterProtocol.WaitersAreRight | internal/session/registry.go:42-86 | no lost wake-up: in every run, nobody waits on an open channel once the counter differs from the captured value |
| WaiterProtocol.AnswersAreRight | internal/session/registry.go:56-86 | in every run, a caller is answered with the counter at that moment; it is the captured value exactly when the notifies since the capture are a multiple of 2^64, and only after a timeout |
| WaiterProtocol.CounterCounts | internal/session/registry.go:48-54 | the counter is the number of notifies modulo 2^64 |
| WaiterProtocol.CanReturn | internal/session/registry.go:56-86 | from every state a caller's own steps lead it to its answer |
| WaiterProtocol.WokenAnswers | internal/session/registry.go:56-86 | a woken caller answers without waiting again |
| Registry.Waiter.Notify | internal/session/registry.go:48-54 | the counter goes up by one modulo 2^64 and everyone on the old channel is released |
| Registry.SessionRegistry.RegisterAndContext | internal/session/registry.go:158-172 | a free slot gets a fresh handle, a taken one changes nothing |
| Registry.SessionRegistry.Release | internal/session/registry.go:166-180 | the handle is cancelled and the slot freed, no other slot is touched |
| Registry.SessionRegistry.Notify | internal/session/registry.go:183-193 | tells whether the session is live, and then its waiter was bumped and its old channel closed |
| Registry.SessionRegistry.CancelAll | internal/session/registry.go:207-217 | every registered handle is cancelled |
| Registry.RunRegistry.GetOrCreate | internal/runtime/runreg.go:37-46 | the published registry, or a fresh empty one newly published |
| Registry.RunRegistry.RemoveIfEmpty | internal/runtime/runreg.go:82-106 | unpublishes the run exactly when its registry is empty, and no run becomes active or inactive by it |
| Registry.OnCommit | internal/runtime/notify.go:56-92 | a live session is woken by anything but its own tool results; a cold one is respawned by users, recovery and agents whatever its status, by the environment unless it is finished, by a child exactly if that concluded, and by nothing else |
| Cancel.ChildrenAt | internal/db/sqlite/sqlite.go:652-660 | the listing holds exactly the sessions with that parent, all of them, in the store's order |
| Cancel.CancelSession | internal/session/registry.go:237-273 | terminates on any parent graph under any pattern of store failures; states the set it cancels, everything it writes, whom it interrupts, and exactly when it reports an error |
| Cancel.CancelRun | internal/session/registry.go:219-273 | exactly the sessions reachable by parent links through cancellable sessions are cancelled and interrupted, each writes its own marker and tells its parent and the commit listener once, nothing else changes, no commit of the cascade respawns anyone; it reports success exactly if the target can be written and everyone reached can list its children and has no child that cannot be written |
| Cancel.CancelledYetFailed | internal/session/registry.go:230-236 | a cascade whose target ends up cancelled and which still reports an error, for a child below it |
| Cancel.ClosedIsReached | internal/session/registry.go:237-273 | a set that is reached and closed under child links is exactly what is reachable |
| Cancel.Store.TerminateAndNotifyParent | internal/db/sqlite/sqlite.go:708-800 | one transaction: status, own marker and the parent's result, or nothing; a finished session is a success that writes nothing |
| Cancel.NoticesNeverRevive | internal/db/types.go:83-106 | a cancelled child's result revives no parent, whatever its status |
| Recover.RunManager.RecoverRun | internal/runtime/manager.go:595-640 | up to the first store failure, exactly the unregistered spine sessions of a known type are revived, in order, and a RecoverEvent is appended exactly to those not at rest |
| Recover.RecoveredSays | internal/runtime/manager.go:595-640 | said outright for every row: an unregistered session of a known type that was working, waiting, or is a crashed root is started if it can be launched, and its stream gets a RecoverEvent unless it ends with a reply without tool calls |
| Recover.OthersStay | internal/runtime/manager.go:595-640 | nobody else is started and no other stream is written |
| Recover.StartedInOrder | internal/runtime/manager.go:602-639 | goroutines start in the order of the rows, and the count returned is that of the wanted rows |
| Recover.RunManager.RecoverTwice | internal/runtime/manager.go:595-640 | each wanted session is started once, and a second recovery revives none |
| Recover.RunManager.RespawnSession | internal/runtime/manager.go:466-580 | starts the session exactly if it has no goroutine, is known and can be launched; a failed launch gives the slot back |
| Recover.RunManager.AppendEvent | internal/runtime/notify.go:56-85 | an event for a cold session starts it exactly if the event revives it |
| Recover.RunManager.RecoverRow | internal/runtime/manager.go:606-638 | one row of the recovery and its effect on streams, slots and goroutines |
| Recover.RecoveredStep | internal/runtime/manager.go:602-639 | recovering one row never changes what is wanted of the rows after it |
| WorkPool.PoolIsSafe | internal/observer/observer.go:141-166 | in every run no session is processed by two workers, no worker sleeps while a key can be taken, and Stop waits only while there is work |
| WorkPool.DrainCompletes | internal/observer/observer.go:120-139 | after a full drain under a live context every accepted enqueue was followed by a complete pass that started after it |
| WorkPool.DrainProgresses | internal/observer/observer.go:120-166 | in every run, while there is work in the open set, a worker can take or finish a key if and only if some worker has not left |
| WorkPool.CloseIff | internal/observer/observer.go:120-128 | the set is closed by Stop alone, when it finds no work or its own context over |
| WorkPool.ClosedBy | internal/observer/observer.go:120-130 | in every run a closed set was closed for one of these reasons, and Stop returns only when every worker has left |
| WorkPool.LeavesIff | internal/observer/observer.go:141-156 | a worker leaves exactly when it finds nothing to take and the set closed or its context over |
| PoolShutdown.ShutdownGoesOn | internal/observer/observer.go:120-166 | in every run, once the set is closed the workers' own steps leave less and less to do until all have left, and then Stop can return |
| WorkPool.DrainNeedsWorkers | internal/observer/observer.go:120-130 | once every worker has left, pending keys stay pending in every continuation, and the set is only ever closed by a Stop whose own context ended |
| WorkPool.StopWakesIff | internal/observer/observer.go:103-130 | the steps that end Stop's wait are exactly the broadcasts: an accepted enqueue, a finished key, the watcher of the workers' context |
| WorkPool.AbortIff | internal/observer/observer.go:118-130 | a Stop whose own context ended while it waits is still waiting exactly as long as no broadcast was made |
| WorkPool.StrandedStop | internal/observer/observer.go:103-130 | with every worker gone and the watcher done, Stop waits for good, whatever its own context does, unless something is enqueued |
| WorkPool.WorkSet.TakePending | internal/observer/observer.go:168-177 | takes a pending key nobody is processing, or reports that there is none |
| WorkPool.WorkSet.Take | internal/observer/observer.go:141-158 | what the pool shows after taking a key is what it shows after the protocol's step Take; None exactly means that nothing can be taken |
| WorkPool.WorkSet.Finish | internal/observer/observer.go:162-165 | the key leaves the active set and nothing else changes, as in the protocol's step Done |
| WorkPool.WorkSet.Close | internal/observer/observer.go:126-128 | the set is closed and keeps its keys, as in the protocol's step Check |
| WorkPool.WorkSet.Enqueue | internal/observer/observer.go:132-139 | accepted exactly while the set is open, as in the protocol's step Enqueue |
| Phases.CloseLeavesNoGap | internal/observer/phase.go:316-360 | closing a phase from the cursor leaves no gap, whatever rows lie beyond the cursor |
| Phases.CloseOverlapIff | internal/observer/phase.go:342-360 | it brings no overlap exactly when no row left behind ends inside the new phase |
| Phases.RetryMendsIff | internal/observer/phase.go:342-360 | after a failure between the two writes the rows are no partition, the retry mends them exactly if it chooses the same end, and overlaps for good exactly if it chooses a later one |
| Chunks.EndStepInChunk | internal/observer/phase.go:148-178 | no answer of the model moves the boundary out of the chunk |
| Chunks.TruncateChunkToCap | internal/observer/phase.go:385-405 | whole steps only, at least one, within the cap unless it is one step, and one more step would go over the cap |
| Chunks.EventsInSome | internal/observer/phase.go:331-339 | reading a range gives nothing exactly if no step of it has an event |
| Chunks.EventsInSplit | internal/observer/phase.go:331-339 | reading a range is reading its first steps and then the others |
| Phases.SumIsChunkSize | internal/observer/phase.go:316-330 | what is compared with the threshold is the size of the text of the steps in question |
| Phases.Session.SummarizeOneStep | internal/observer/observer.go:224-265 | fails exactly if one of its three calls fails, and what it leaves behind for every way they can fail |
| Phases.Session.CatchUpSteps | internal/observer/observer.go:213-233 | with concurrent finalizing anywhere the cursor invariant holds at every store call; it fails exactly if a call for one of the steps fails, and then at the first such step, and otherwise the cursor reaches the finalized step it saw |
| Chunks.CutEndsChunk | internal/observer/phase.go:385-405 | in steps: the chunk ends with a step that has an event, is within the cap or a single step, and with the next step that has an event it would be over the cap |
| Phases.Session.SummarizeChunk | internal/observer/phase.go:148-178 | there is no end exactly if the range is silent; an answer inside the chunk is taken unless the session is settled, otherwise the phase ends with the chunk's last step |
| Phases.Session.CloseOne | internal/observer/phase.go:316-360 | one turn, for every way its calls can fail: it reports a failure exactly if a call failed, waits exactly if no phase is due, and otherwise records the phase from the cursor to where the events read say |
| Phases.Session.CloseDue | internal/observer/phase.go:331-360 | the turn that finds a phase due: an empty read means a silent range, otherwise the row and the cursor are exactly what the two writes leave behind, and with neither failing the phase is recorded and the turn is done |
| Phases.Session.ClosePhases | internal/observer/phase.go:305-362 | terminates for any answers; states which rows it wrote, that each phase was due and where it ends, exactly when rows overlap, why it stopped, and that a failure means that a call of the pass failed |
| Phases.Session.Process | internal/observer/observer.go:182-186 | a partition of the phased steps stays one unless a failure falls between the two writes of a phase; with no failure the steps are caught up and phases closed until none is due |
| Phases.SettledIsClosed | internal/observer/phase.go:312-330 | a settled session with an event at its last summarized step ends with every step in a phase, unless a call of the pass failed |
| Phases.Session.FinalizeStep | internal/db/sqlite/sqlite.go:953-1010 | the producer's cursor never goes back |
| Trajectory.Assemble | internal/server/trajectory.go:99-134 | the view shows each step once and in order if and only if the phase rows partition the steps |
| Trajectory.EndToEndIffPartition | internal/server/trajectory.go:99-123 | sorted rows follow one another without gap or overlap exactly when they partition the steps |
| Trajectory.EndToEndShown | internal/server/trajectory.go:103-123 | the steps shown are 1..n in order exactly when the rows follow one another |
| Images.FitImages | internal/llm/images.go:47-108 | the walk and the rewriting loops give exactly the messages of the specification, and count what was replaced |
| ImageNotes.SentMessage | internal/llm/images.go:90-108 | a message is sent with its role, its own text, below it one line for every omitted image in order, and exactly the other attachments in order |
| ImageNotes.NoteSays | internal/llm/images.go:50-57 | an image over a limit of its own is always omitted and noted with its size and that limit; any other omitted image has the note for older ones |
| ImageNotes.OldestFirst | internal/llm/images.go:60-84 | of the images that break no limit of their own the oldest are omitted |
| ImageNotes.DecimalReadsBack | internal/llm/images.go:37-40 | the numbers in a note read back as the numbers |
| Images.FittedIsNewest | internal/llm/images.go:40-90 | for all limits, what is sent is the newest of the images that fit on their own, and at least one of them if there is any |
| Images.FittedIsWithin | internal/llm/images.go:40-57 | what is sent meets every cap, for all limits that `KeptIsWithinIff` does not exclude |
| Images.KeptIsWithinIff | internal/llm/images.go:50-57 | the caps are met on every history exactly when the per-image limit is not negative or there is no total limit |
| Images.FittedTwice | internal/llm/images.go:40-46 | for all limits, fitting what was fitted changes nothing |
| Images.OmissionIsPermanent | internal/llm/images.go:44-46 | appending messages never brings an omitted image back |
| Images.CutStaysIff | internal/llm/images.go:75-82 | for all limits, the cut stays exactly as long as the window and everything newer are a single image or meet the caps together |
| Images.SharedPrefix | internal/llm/images.go:30-34 | for all limits, while there is room, a longer request begins with the shorter one |
| Images.TrimLeavesRoom | internal/llm/images.go:78-83 | a trim leaves one image or at most three quarters of each cap |
| Images.TrimIsLeast | internal/llm/images.go:76-82 | a trim takes nothing more than it has to: any window it passes over has more than one image and is above three quarters of some cap |
| Images.QuarterIsFree | internal/llm/images.go:30-34 | after a trim the cut stays while the newer images take no more than a quarter of each cap |
| Images.See | internal/llm/images.go:67-84 | one image of the walk moves window, total and notes to those of the new cut |
| Batches.EmbedBatches | internal/embed/embed.go:87-103 | consecutive ranges over all texts within both budgets (one long text excepted), and no such packing has fewer |
| Batches.GreedyIsShortest | internal/embed/embed.go:87-103 | the greedy packing stays ahead of any other that starts no later |
| Batches.ClippedIsWithinBudget | internal/embed/embed.go:163-173 | for texts clipped as Embed clips them every batch meets both budgets |
| TextRank.Scores | internal/textrank/textrank.go:118-137 | the scores over the posting lists are the BM25 scores taken document by document |
| TextRank.NewBM25 | internal/textrank/textrank.go:78-111 | the index holds every term's postings with their counts, its inverse document frequency and every document's norm |
| TextRank.ZeroIffNothingShared | internal/textrank/textrank.go:116-117 | a score is never negative, and zero exactly when document and query share no token |
| TextRank.PostingsTf | internal/textrank/textrank.go:82-96 | a posting list says of every document how often it has the term |
| RankingLaws.ScoreKeepsOrder | internal/textrank/textrank.go:118-137 | a document that is no longer and has every query term at least as often scores at least as high |
| RankingLaws.RarerWeighsMore | internal/textrank/textrank.go:104-108 | the rarer of two terms weighs more |
| RankingLaws.IdfIs | internal/textrank/textrank.go:104-108 | a term in df of n documents weighs the logarithm of (n + 1) / (df + 1/2) |
| RankingLaws.NormIs | internal/textrank/textrank.go:99-103 | a document of average length has the norm k1, and the norm grows evenly with the length |
| Fusion.MinMax | internal/textrank/textrank.go:141-153 | each value is rescaled to the range of all, and an all-equal list to zeros |
| Fusion.Fuse | internal/textrank/textrank.go:160-176 | every document gets the fusion of the rescaled signals, of the lexical one alone when there is no embedder, and the inputs stay as they are |
| Fusion.RescaledSays | internal/textrank/textrank.go:138-153 | a rescaled value is its distance from the least as a share of the range, and zero if all are equal |
| Fusion.FusedIsMean | internal/textrank/textrank.go:155-176 | the fusion is all cosine at weight 1, all lexical at 0, and in proportion between |
| Fusion.FusedInUnit | internal/textrank/textrank.go:155-176 | a fused score lies in [0, 1] |
| Fusion.FusedKeepsOrder | internal/textrank/textrank.go:160-176 | a document that is no worse in both signals is no worse in the fusion |
| Skills.IncrementalIffDetermined | internal/skills/index.go:188-261 | over every history of builds with changing corpora and models, unreadable caches and failed or partial saves, each build equals the one from scratch if and only if name and content hash determine the row |
| Skills.Index.BuildOnce | internal/skills/index.go:188-261 | a build fails exactly if the embedding service fails and is asked for something; a successful one installs the specified index, a failed one changes nothing |
| SkillRows.BuiltAt | internal/skills/index.go:221-243 | the index lists every entry in order, and its row of the matrix is the normalized vector of that entry: the cached one if name and hash are unchanged, else that of "name: description" |
| SkillRows.EntryAt | internal/skills/index.go:221-243 | a name leads to its entry |
| SkillRows.SavedAt | internal/skills/index.go:235-247 | what is saved for an entry |
| SkillRows.ToEmbedIs | internal/skills/index.go:197-209 | the service is asked for exactly the entries that are not unchanged |
| SkillRows.NothingAskedAgain | internal/skills/index.go:188-261 | after a complete save the next build of the same corpus asks for nothing |
| SkillRows.UnreadAsksAll | internal/skills/index.go:192-196 | with a cache that cannot be read everything is asked for again, otherwise the rows of the build's own model are used |
| Skills.VectorFound | internal/skills/index.go:221-229 | every entry's vector is found among the reused or the embedded ones |
| Nickname.PickIsUniform | internal/nickname/nickname.go:114-137 | with m free names each is returned with probability exactly 1/m |
| Nickname.PickUnique | internal/nickname/nickname.go:109-150 | for any random numbers: never a used or reserved name; while a pool name is free, the first free one among the 64 draws or the one a further number picks among the free; then the first of the 8 fallback candidates that is not used |
| Nickname.GridIsDistinct | internal/nickname/nickname.go:118-121 | no two pairs of words give the same name |
| Nickname.GridNames | internal/nickname/nickname.go:153-164 | the pool is exactly the names of all pairs |
| Nickname.CellName | internal/nickname/nickname.go:118-121 | the two words drawn make the name in the cell of that pair |
| Nickname.PairOfCell | internal/nickname/nickname.go:118-121 | every cell is the cell of a pair of words |
| Nickname.CellIsOnePair | internal/nickname/nickname.go:118-121 | of one pair only, so two independent uniform draws of words are one uniform draw of a cell |
| Nickname.InitPool | internal/nickname/nickname.go:71-92 | from any two word lists the words left after the reserved parts form a pool: word lists from which no reserved name can be made |
| Nickname.FreeNames | internal/nickname/nickname.go:153-164 | the nested loops list exactly the free names |
| Nickname.Filter | internal/nickname/nickname.go:84-92 | the words left, in order |
| Nickname.PoolIsNotReserved | internal/nickname/nickname.go:71-82 | no name or fallback name made of pool words is reserved |
| Nickname.NameAllocator.Next | internal/session/name_allocator.go:54-73 | over any sequence of calls no name is given out twice, none was a session of the run before, none is reserved, and nothing else is kept back; while a pool name is free it is one of those; a failed listing changes nothing |
| LinkLockProtocol.LocksAreSafe | internal/workspace/locks.go:57-81 | in every run one holder a key at most, the map holds exactly the keys in use and counts their users, and every caller's next step is possible or its key is held |
| LinkLockProtocol.DrainsToEmpty | internal/workspace/locks.go:57-81 | with no new arrivals everybody gets through and an empty map is left |
| LinkLockProtocol.StepKeeps | internal/workspace/locks.go:57-81 | every step keeps the invariant although entries are deleted and made anew |
| LinkLockProtocol.EnterIsEntered | internal/workspace/locks.go:58-65 | the protocol's step Enter changes the counts as `LinkLocks.Enter` does |
| LinkLockProtocol.LeaveIsLeft | internal/workspace/locks.go:71-79 | the protocol's step Leave changes the counts as `LinkLocks.Leave` does |
| LinkLockProtocol.LinkLocks.Enter | internal/workspace/locks.go:58-65 | the key's count goes up by one, with a fresh entry exactly if there was none |
| LinkLockProtocol.LinkLocks.Leave | internal/workspace/locks.go:71-79 | the key's count goes down by one, and the entry goes with its last user |
| EventBus.NothingIsLost | internal/eventstream/bus.go:49-99 | in every interleaving whatever a client has yet to learn is queued, held, on its way, or covered by the flag or the prime |
| EventBus.CaughtUpIsCurrent | internal/server/sse.go:88-108 | a stream with nothing left to do has an up-to-date client |
| EventBus.OnlyMatching | internal/eventstream/bus.go:60-74 | a subscriber never receives another run's events |
| EventBus.PrimeFreeIff | internal/eventstream/bus.go:49-56 | in every run, the prime of a subscription can be sent if and only if fewer than 1024 events were delivered to it since it subscribed |
| EventBus.PrimeCanBlock | internal/eventstream/bus.go:49-56 | every run with an unprimed subscription can go on so that its prime blocks |
| EventBus.StuckForever | internal/eventstream/bus.go:49-56 | once stuck, a subscriber is stuck at every later moment of every run |
| EventBus.DeliverAll | internal/eventstream/bus.go:60-74 | the deliveries of one publication, step by step, do to the subscribers what `Bus.Publish` does to the objects |
| EventBus.Bus.Publish | internal/eventstream/bus.go:60-74 | every subscription of all runs or of the event's run, and every one if the event names no run, gets the event or its flag; no other is touched |
| BusOrder.FirstInFirstOut | internal/eventstream/bus.go:93-99 | in every run, what a stream was handed followed by what is queued is what was put into its channel, in order |
| BusOrder.PublishAims | internal/eventstream/bus.go:60-72 | a publication is on its way to exactly the open subscriptions it concerns |
| BusOrder.StaleUntilTold | internal/server/sse.go:88-108 | a client has an invalidation to learn from its publication on, until that event or a full load is written to it |
| BusOrder.WriteTells | internal/server/sse.go:88-108 | what a client has learned when a full load or one event was written to it |
| BusOrder.StreamGoesOn | internal/server/sse.go:88-108 | a primed stream with something to do has a step of its own that leaves it less to do |
| BusOrder.DroppedIsFlagged | internal/eventstream/bus.go:93-99 | an event is dropped exactly if there is no room, and then flagged |
| EventBus.Subscription.Deliver | internal/eventstream/bus.go:93-99 | never blocks; an event there is no room for is dropped and flagged |

## Left out

- Row labels: `ShortLabel` and its heuristics are a parameter of menu resolution, so the menu theorems hold for any labelling.
- net/url: `url.ParseQuery` and unescaping are written out from their documented behaviour, not from their source.
- Goroutine exit: an exiting goroutine reads its stream once more before it releases its slot; that reading is not part of the liveness steps.
- RunRegistry.Remove: nothing in the repository calls it and it could unpublish a registry in use, so it is not among the steps.
- Waiter.waitAfter: its loop is the steps of the waiter protocol, with the timeout and the context as steps that may happen at any time; real time is not modelled.
- Cancel.CancelSession: the cascade runs without other writers to the same run's statuses; store failures are fixed sets.
- Recover.RunManager.RecoverRun: the recovery runs without other launches in the same run.
- LivenessRuns.PairedRunsAreSafe: takes `GetOrCreate` and `RegisterAndContext` as one step; without that premise the exact condition is `LivenessRuns.SafeIff`.
- Phases.Session.Others: what other goroutines do between two store calls is its contract (more finalized steps, more events, any status); its body does nothing.
- Phases.Session.SummarizeChunk: the model's answer is an input, any integer or none for each first step; prompts, titles and artifacts are left out.
- Phases.Session.CatchUpSteps: which store calls fail, with or without effect, is an input; a context that ends counts as the failure of the next call.
- Images: images are named by their position in the history where the source uses a pair of indices, which is the same order; `0.75` of a cap is `3 * cap / 4`; a note is a value whose text is written out when the message is rewritten.
- TextRank: arithmetic is over the reals, the logarithm is any function positive above 1, and documents are given as tokens; the tokenizer and its stopword list are left out.
- Skills: scanning and parsing of skill files, search and the lexical side are left out; embedding and normalizing are parameters.
- Nickname.PickIsUniform: the random numbers are an input of `Nickname.PickUnique`, each below its bound; here the 64 draws and the last one are taken as independent and uniform; the word lists are any two lists of distinct words without a dash, and the lists themselves are not repeated.
- LinkLocks: a second call of the same release function does nothing (`sync.Once`) and is not a step.
- EventBus: a client is taken to read the current state when it receives an event; HTTP and JSON are left out.
- Batches are not sent: the embedding calls and their errors are left out.
- HTTP handlers, the command line, the frontend, LLM providers, SQLite, YAML and JSON are not modelled; the store appears through its contracts.
- Configuration precedence, briefings, pair codes, the provider cache and other straight-line code have no invariant that spans operations.
