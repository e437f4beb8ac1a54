# Hazelcast Go client: a verified model of its request engine

The project models the in-process state of the Hazelcast Go client that decides whether a
request is answered once, to the right caller, and in time, together with the smaller
state machines beside it. Every statement is a Dafny contract; `dafny verify dfyconfig.toml`
checks the whole project.

What the network, the clock, random draws, address translation and Go's scheduler do is
input to the model: a step of a run, or a parameter that is quantified over. Operations that
change state in the client are classes and loops here; each is proved equal to a function of
the old state, and the properties are proved of that function over all runs.

| file | component |
|---|---|
| `Errors`, `CircuitBreakers` | error chains with `errors.Is`/`As`; the retry loop, nests of retry loops |
| `Invocations`, `Invoker` | which errors are retried; the attempts of one invoke under one deadline |
| `InvocationProtocol`, `InvocationService` | the loop that owns the invocation table: as a step relation with its invariant, and as the objects it changes |
| `ClientMessages`, `ClientMessageReader` | the frame layout, and the incremental parser that rebuilds messages from socket chunks |
| `FlakeIds` | the concurrent flake ID generator |
| `Subscriptions` | one event subscription: publishers, worker and `Stop` |
| `Members`, `MembersMap`, `ConnectionMap`, `PartitionTable`, `ListenerBinder` | the cluster views: several maps that have to agree over every run |
| `ListenerCalls` | the listener binder composed with a run of the invocation service |
| `MemberVersions`, `PnCounter` | the two-slot version count; the choice of a PN counter's replica and its retries |
| `PutAll` | the bulk put split by partition |
| `Decimals` | printing decimals, and the `BigDecimal` grammar that reads them back |

Some results are about where the code does not do what one would expect:

- A call removed from the table before it was completed is never answered, not even when the
  service stops (`RemovedTooEarlyIsLost`); that is the only such case
  (`NoCallerLostAfterExit`). In the client only the listener binder asks for removals, and
  only of calls that were acknowledged, so its callers are all answered
  (`ClientAnswersEveryCaller`).
- The message reader delivers nothing any more after the first fragmented message
  (`ChunkedRoundTrip`).
- A mark that is not persistent stops one retry loop only, and the loops around it make all
  their attempts (`PlainMarksStopOneLevelEach`).
- The comments on the PN counter's replica choice (`proxy_pn_counter.go:224-236`,
  `internal/proxy/random_replica.go:19`) speak of the first `n` data members and of wrapping
  at `n`; the code scans all members from the drawn position on and does not wrap. It can
  miss an existing data member (`FoundForEveryDrawIff`, `DataMemberMissed`), and with members
  excluded it can go beyond the first `n` data members (`AmongFirstForEveryDrawIff`,
  `BeyondFirst`). The model follows the code.
- Members of version 0.0 are counted into a slot that is given away (`ZeroVersionMiscounted`);
  `WinnerIsLargerGroupIff` says exactly when that spoils the result.
- With address translation, a member that left can leave its address behind
  (`TranslationLeavesTrace`): the two maps stay mutual inverses over every run if and only if
  no address is translated (`InverseOverAllRunsIff`).
- `NewDecimal` cuts a scale that is not an int32 silently; `NewDecimalDenotesIff` says exactly
  when the decimal still denotes the number it was made for.
- A decimal whose adjusted exponent exceeds 2^31 - 1 is printed, but `BigDecimal(String)`
  refuses the text (`ParsesBackIff`, `SmallestScaleRefused`).
- The futures of a bulk put are complete when they are returned: the requests run one after
  the other, all of them, and only then is the first error reported (`RequestAll`,
  `ResultPerKey`).
- An accepted connection whose address is already in use always breaks the agreement of the
  connection map's collections (`AddAgreesIffAddressFree`).
- Clearing one member's subscriptions makes the binder forget them for other members
  (`ClearingOneForgetsAll`).

## Model

| member | source | states |
|---|---|---|
| Errors.PersistentSurvivesStripping | internal/cb/errors.go:24-57 | any chain with a persistent link is recognised as non-retryable, and stripping an outer plain mark keeps the persistent link |
| Errors.IsIffInChain | internal/hzerrors/errors.go:102-117 | a cause is found exactly if some link of the chain is it or has it as its kind |
| Errors.MarksInChain | internal/cb/errors.go:24-57 | the mark found is the first marked link of the chain, and a chain is persistent exactly if some link is |
| Errors.WrappersShowCauses | internal/hzerrors/errors.go:102-117 | no wrapper hides a cause or a mark |
| Errors.OutermostMark | internal/cb/errors.go:24-57 | the mark found by `errors.As` is the outermost of the chain, and what it wraps is part of the chain |
| Errors.StripOneMore | internal/cb/circuitbreaker.go:115-120 | stripping marks one after another counts them down and brings in no new cause |
| CircuitBreakers.LoopStopsAtPersistent | internal/cb/circuitbreaker.go:98-130 | if the inner runs stop at a persistent failure, so does the loop around them |
| CircuitBreakers.PersistentErrorStopsEveryLevel | internal/cb/circuitbreaker.go:98-130 | for every nesting depth: no innermost call follows one that failed persistently, and the error leaving the outermost loop still contains the mark |
| CircuitBreakers.PersistentHandlerCalledOnce | internal/cb/circuitbreaker.go:98-130 | a handler that always fails persistently is called at most once at any nesting depth |
| CircuitBreakers.PlainMarksStopOneLevelEach | internal/cb/circuitbreaker.go:98-130 | for every nesting depth and every error without persistent mark: the exact number of innermost calls, each plain mark stopping one level from the inside and the other loops making all their attempts, and the error that leaves |
| CircuitBreakers.PlainMarkStopsOneLevelOnly | internal/cb/circuitbreaker.go:98-130 | two loops and one plain mark: the inner loop ends, the outer one makes all its attempts |
| CircuitBreakers.OpensPastTheLimit | internal/cb/circuitbreaker.go:132-169 | over every run of failures and closings, with a reset timeout: the count is that of the failures since the last closing that took effect, and the circuit is open exactly when it exceeds the limit |
| CircuitBreakers.StartsExist | internal/cb/circuitbreaker.go:157-169 | every run has its positions at which counting starts: the beginning, and behind each first closing that finds the limit passed |
| CircuitBreakers.NeverOpensWithoutReset | internal/cb/circuitbreaker.go:132-141 | without a reset timeout it never opens; the count is what is left of the failures after full rounds |
| CircuitBreakers.CircuitBreaker.TryContext | internal/cb/circuitbreaker.go:73-78 | refuses without a call while open; otherwise the loop's run, its failure counted unless it comes from the context |
| CircuitBreakers.CircuitBreaker.Try | internal/cb/circuitbreaker.go:98-130 | the loop computes the run that the nesting results are about |
| CircuitBreakers.LoopOutcome | internal/cb/circuitbreaker.go:98-130 | what a loop returns and which calls it made, from the attempt that ends it: a closed gate's error, a success or context error as it is, a plain mark taken off, a persistent one kept, the last attempt's error |
| CircuitBreakers.LoopEnds | internal/cb/circuitbreaker.go:98-130 | every loop has an attempt that ends it |
| CircuitBreakers.NestedReturnsSuccess | internal/cb/circuitbreaker.go:111-113 | for every nesting depth, the outermost loop succeeds exactly if the last innermost call did, and gives its value; all earlier calls failed |
| CircuitBreakers.CircuitBreaker.NotifyFailed | internal/cb/circuitbreaker.go:132-141 | the fields stay the result of the history of failures and closings, now with one more failure |
| CircuitBreakers.CircuitBreaker.CloseCircuit | internal/cb/circuitbreaker.go:157-169 | the same with one more closing |
| Invocations.UnwrapErrorDecidesRetry | internal/invocation/invocation.go:141-183 | the error given to the caller lets a retry loop go on exactly when `CanRetry` accepted it and it is no context error |
| Invoker.AttemptJudged | internal/client/invoker.go:86-129 | an attempt is followed by another exactly if its send was refused as paused, or its completion error accepted by `CanRetry`, before the shared deadline |
| Invoker.AttemptsFrom | internal/client/invoker.go:86-129 | the attempts of one invoke are numbered consecutively and each follows exactly when due |
| Invoker.FurtherAttemptIff | internal/client/invoker.go:86-129 | both directions of when a further attempt is made |
| Invoker.RetriedIfTransient | internal/invocation/invocation.go:149-161 | an IO, not-active or retryable error, or a lost target of a request that may be sent again, is followed by another attempt if it comes in time and the gate is open |
| Invoker.RetriedIfPaused | internal/invocation/invocation_service.go:106-122 | a send refused as paused is tried again in time |
| Invoker.InvokeOutcome | internal/client/invoker.go:86-129 | what the caller of an invoke gets, from the fate of the last attempt: the response, or the error without the marks put on it on the way, or what kept the loop from a retry that was due |
| Invoker.AttemptAfterDeadlineIsLast | internal/invocation/invocation_service.go:252-266 | all attempts share one deadline; an attempt begun after it is the last |
| Invoker.NotResentAfterDisconnect | internal/invocation/invocation.go:149-161 | a non-retryable request with redo off is not sent again after an error without IO, not-active or retryable cause |
| Invoker.AttemptsBoundedByDeadline | internal/client/invoker.go:45-58 | the growing sleeps bound the number of attempts by the square root of the timeout |
| Invoker.CallerSeesFateDealt | internal/invocation/invocation.go:99-113 | in every run of the service, what the attempt's caller gets is the result of exactly the fate dealt to its invocation |
| Invoker.CallerSeesItsFate | internal/invocation/invocation_service.go:176-299 | in every run and for every accepted call, what its caller receives at any later time is the result of the one fate dealt to it |
| Invoker.InvokeOverRun | internal/client/invoker.go:86-129 | the retry loop over what its attempts receive as calls of one service run is the invoke specified by the fates of that run |
| Invoker.AcceptedAfterDeadlineIsLast | internal/cluster/invocation_factory.go:41-77 | across one service run with a clock that goes forward, an attempt whose call was accepted after the shared deadline is the last |
| Invoker.NotResentAfterGroupLost | internal/invocation/invocation_service.go:288-299 | a non-retryable request with redo off whose group is lost in the run is not sent again, unless the error has an IO, not-active or retryable cause |
| Invoker.NotResentAfterConnectionLost | internal/invocation/invocation_service.go:201-213 | the same from the accept event: the call was sent over the connection that is lost later |
| InvocationProtocol.StepKeepsInv | internal/invocation/invocation_service.go:176-299 | every send, response, error, removal, lost group, stop and exit keeps the protocol invariant |
| InvocationProtocol.RunKeepsInv | internal/invocation/invocation_service.go:176-299 | the invariant holds in every state of every interleaving |
| InvocationProtocol.ChannelsProperlyUsed | internal/invocation/invocation.go:78-82 | no response channel is sent to twice, sent to after close, or closed twice |
| InvocationProtocol.RegisteredExactlyWhileUncompleted | internal/invocation/invocation_service.go:201-286 | an accepted call without event handler that was not removed is in the table exactly while uncompleted |
| InvocationProtocol.NoCallerLostAfterExit | internal/invocation/invocation_service.go:176-199 | once the loop has exited, a caller has something to receive if and only if its call was not removed while uncompleted |
| InvocationProtocol.AbandonedIff | internal/invocation/invocation_service.go:248-250 | exactly which calls were removed while registered and uncompleted |
| InvocationProtocol.EveryCallerAnswered | internal/invocation/invocation_service.go:176-250 | if calls are removed only once completed or unregistered, every accepted call has something to receive after exit |
| InvocationProtocol.AnsweredIsSettled | internal/cluster/connection_listener_binder.go:141-175 | callers that remove their call only after they received its answer meet that condition |
| InvocationProtocol.RemovedTooEarlyIsLost | internal/invocation/invocation_service.go:248-250 | a run in which a call removed before its reply has nothing to receive after exit |
| InvocationProtocol.ChannelsOnlyGrow | internal/invocation/invocation.go:78-82 | operations on a channel are only appended, and no call is forgotten |
| InvocationProtocol.FirstReplyStands | internal/invocation/invocation.go:78-82 | the first completion decides for ever what the caller receives |
| InvocationProtocol.ReplyReachesOnlyItsCall | internal/invocation/invocation_service.go:215-266 | a response or error for an ID changes only the call created with it, which gets exactly that reply and stays registered exactly if it has an event handler; an event changes nothing |
| InvocationProtocol.GroupLostCompletesItsGroup | internal/invocation/invocation_service.go:288-299 | a lost group completes its registered calls without event flag, removes those without handler, and changes nothing else |
| InvocationProtocol.AcceptedAs | internal/invocation/invocation_service.go:201-213 | over every run a call keeps what it was accepted with, and the group it was sent over |
| InvocationProtocol.SentOverLostGroupCompleted | internal/invocation/invocation_service.go:201-299 | a call sent over a connection that is lost while the service runs has been completed, unless it was removed before or its request has the event flag |
| InvocationProtocol.HandlerStaysRegistered | internal/invocation/invocation_service.go:277-286 | a call with an event handler stays registered, however often it is answered, until it is removed or the loop exits |
| InvocationProtocol.RemovedIsGone | internal/invocation/invocation_service.go:248-250 | a removed call leaves the table, and nothing else changes there |
| InvocationProtocol.StopLetsLoopExit | internal/invocation/invocation_service.go:91-100 | after `Stop` the loop can exit at any time until it has |
| InvocationProtocol.ClosedIffRegisteredAtExit | internal/invocation/invocation_service.go:176-199 | exit closes exactly the channels of the calls registered then |
| InvocationProtocol.NewIdIsFresh | internal/cluster/invocation_factory.go:75-77 | the next correlation ID was never used by an accepted call |
| InvocationProtocol.GroupLostOneMore | internal/invocation/invocation_service.go:288-299 | handling one more entry of the table, in any order, brings the lost group one entry further |
| InvocationService.Impl.Complete | internal/invocation/invocation.go:78-82 | the first completion sends, later ones do nothing |
| InvocationService.Impl.Close | internal/invocation/invocation.go:137-139 | closes the channel and changes nothing else |
| InvocationService.Service.SendInvocation | internal/invocation/invocation_service.go:201-213 | the new state is that of the protocol's accept step |
| InvocationService.Service.HandleClientMessage | internal/invocation/invocation_service.go:215-246 | the new state is that of the protocol's receive step |
| InvocationService.Service.HandleError | internal/invocation/invocation_service.go:252-266 | completes with the error, marked if the deadline has passed |
| InvocationService.Service.RegisterInvocation | internal/invocation/invocation_service.go:268-275 | adds exactly one entry |
| InvocationService.Service.UnregisterInvocation | internal/invocation/invocation_service.go:277-286 | returns the registered call; removes it unless it has an event handler |
| InvocationService.Service.RemoveCorrelationId | internal/invocation/invocation_service.go:248-250 | the protocol's removal step |
| InvocationService.Service.HandleGroupLost | internal/invocation/invocation_service.go:288-299 | iterating the table in any order while deleting from it handles every entry of the group and no other |
| InvocationService.Service.CloseAll | internal/invocation/invocation_service.go:176-199 | closes every registered call and empties the table |
| InvocationService.Service.Stop | internal/invocation/invocation_service.go:91-100 | only lowers the running flag |
| InvocationService.InvocationFactory.NewInvocation | internal/cluster/invocation_factory.go:41-77 | each call gets the next ID and the deadline start plus timeout |
| ClientMessages.NextFrameConsumes | internal/cluster/client_message.go:58-91 | a frame read and written back gives the consumed bytes |
| ClientMessages.NextFrameOfWritten | internal/proto/message.go:126-144 | what was written is read back, whatever follows it |
| ClientMessages.FrameLayout | internal/proto/message.go:126-144 | the bytes of a frame: length with header in four bytes, flags in two, lowest byte first, then the content |
| ClientMessages.FlagBits | internal/proto/message_const.go:49-56 | which bits mean unfragmented and final; marking a frame final sets that bit only |
| ClientMessages.AsWrittenKeeps | internal/proto/message.go:126-144 | writing a message changes nothing but the final bit of its last frame |
| ClientMessages.NextFrameStable | internal/cluster/client_message.go:58-91 | later bytes do not change a frame or a malformed header already decided |
| ClientMessages.ParseInTwo | internal/cluster/client_message.go:42-91 | parsing a stream cut in two continues where the first part ended |
| ClientMessages.ParseConsumes | internal/cluster/client_message.go:58-91 | frames written back and the rest are the input, for arbitrary bytes |
| ClientMessages.GroupKeepsFrames | internal/cluster/client_message.go:46-56 | grouping frames into messages loses, adds and reorders none |
| ClientMessages.ChunkingIsInvisible | internal/cluster/connection.go:240-265 | wherever the stream is cut, even inside a header, the messages delivered are those of the uncut stream |
| ClientMessages.NoByteLost | internal/cluster/client_message.go:42-113 | frames delivered or under construction, written back, followed by the pending bytes are the bytes received |
| ClientMessages.ChunkedRoundTrip | internal/cluster/connection.go:240-265 | exactly what the reader delivers and keeps of written messages, for every list and every chunking |
| ClientMessages.RoundTripIffUnfragmented | internal/cluster/connection.go:240-265 | the list arrives as sent if and only if all its messages are unfragmented |
| ClientMessageReaders.ClientMessageReader.Append | internal/cluster/client_message.go:42-44 | the pending bytes grow by the chunk |
| ClientMessageReaders.ClientMessageReader.ReadFrame | internal/cluster/client_message.go:58-91 | with its kept half-read header, it takes the next frame of the pending bytes or leaves them as they are |
| ClientMessageReaders.ClientMessageReader.Read | internal/cluster/client_message.go:46-56 | reads up to the next final frame, in step with the specification of the stream |
| ClientMessageReaders.ClientMessageReader.ResetBuffer | internal/cluster/client_message.go:97-113 | keeps the unread bytes |
| ClientMessageReaders.ClientMessageReader.Feed | internal/cluster/connection.go:240-265 | one turn of the read loop delivers what the specification says and keeps the rest |
| FlakeIds.StepKeepsInv | flake_id_generator.go:52-78 | every atomic step of every caller keeps the invariant |
| FlakeIds.NoIdTwice | flake_id_generator.go:52-78 | with disjoint batches of int64 values and non-zero increments, no ID is returned twice in any interleaving |
| FlakeIds.IdsComeFromFetchedBatches | flake_id_generator.go:118-127 | every returned ID is valid and belongs to a fetched batch, never the initial one |
| FlakeIds.ReturnedWasIssued | flake_id_generator.go:52-63 | what a caller holds was issued by the protocol |
| FlakeIds.GivenApart | flake_id_generator.go:52-63 | in every interleaving, different callers hold IDs issued at different positions |
| FlakeIds.CallersHoldDifferentIds | flake_id_generator.go:51-63 | under the batch hypotheses, different callers never hold the same ID |
| FlakeIds.OneRefreshPerStaleBatch | flake_id_generator.go:65-78 | of all callers that saw the same batch go stale at most one stores a new one |
| FlakeIds.RefreshIsExclusive | flake_id_generator.go:65-67 | at most one caller is inside the locked section |
| FlakeIds.CheckThenAdd | flake_id_generator.go:118-127 | the two atomic steps of a caller, taken in a row, give the ID and the index of one call on the batch |
| FlakeIds.FlakeIdBatch.NextId | flake_id_generator.go:118-127 | the call on the batch object gives that ID and index |
| FlakeIds.FreshBatchServes | flake_id_generator.go:118-127 | the calls on a fetched batch give its IDs in order from the base, and the invalid one when none is left |
| FlakeIds.RefreshInstalls | flake_id_generator.go:65-78 | a refresh installs the fetched batch unused and sends its caller to look again; a failed fetch ends the call and leaves the batch |
| FlakeIds.RefreshThenServed | flake_id_generator.go:52-78 | a caller that refreshes and is not disturbed gets the first ID of the batch |
| Subscriptions.RunKeepsInv | internal/event/dispatch_service.go:177-224 | the lock, flow and stop invariants hold in every interleaving of publishers, worker and stoppers |
| Subscriptions.NeverPanics | internal/event/dispatch_service.go:199-224 | no send on and no second close of the closed channel |
| Subscriptions.HandledIsPrefix | internal/event/dispatch_service.go:187-192 | handled events are a prefix of the accepted ones, in order, each once |
| Subscriptions.StopDrains | internal/event/dispatch_service.go:199-210 | when any `Stop` has returned, everything accepted was handled |
| Subscriptions.NothingAfterStop | internal/event/dispatch_service.go:199-224 | from then on nothing is accepted or handled |
| Subscriptions.AcceptedExactlyByPublish | internal/event/dispatch_service.go:214-224 | `Publish` returns true exactly in the step that appends its event |
| Subscriptions.RefusedOnlyAfterStop | internal/event/dispatch_service.go:214-224 | over every run, `Publish` returns false only after a call of `Stop` has got the lock |
| Subscriptions.AcceptedWithoutStop | internal/event/dispatch_service.go:214-224 | as long as `Stop` was not called, every `Publish` that has returned was accepted |
| Subscriptions.PublishWaitsOnlyForRoom | internal/event/dispatch_service.go:180-222 | a publisher that has passed the flag waits only for room among 1024 events |
| Subscriptions.WorkerCanMoveUntilDrained | internal/event/dispatch_service.go:187-192 | the worker is never stuck before everything accepted is handled |
| Subscriptions.NoDeadlock | internal/event/dispatch_service.go:177-224 | in every reachable state with an unfinished call some step of a call or of the worker is possible, although no reader gets the lock while a writer asks for it |
| Subscriptions.InternalStepDescends | internal/event/dispatch_service.go:177-224 | every such step brings the calls and the worker closer to their end |
| Subscriptions.CallsReturn | internal/event/dispatch_service.go:196-224 | without new calls only so many more steps are possible, and when none is left every `Publish` and `Stop` has returned |
| MemberVersions.LargerGroupMajorMinorVersion | internal/cluster/cluster_service.go:321-361 | the loop computes the two-slot tally and its winner |
| MemberVersions.TallyHoldsVersions | internal/cluster/cluster_service.go:328-346 | for every list, which versions the two slots hold and when there are too many |
| MemberVersions.TallyHoldsCounts | internal/cluster/cluster_service.go:328-346 | each slot counts its version and the members of version 0.0 seen while it was free |
| MemberVersions.WinnerIsLargerGroupIff | internal/cluster/cluster_service.go:320-361 | for every list: an error exactly for three or more versions, else the most frequent one, the newer on a tie, if and only if the members of version 0.0 do not mislead the count, which is spelled out in their positions and number |
| MemberVersions.WinnerIsLargerGroup | internal/cluster/cluster_service.go:320-361 | without version 0.0 the promise always holds, and 0 is returned exactly without data members |
| MemberVersions.ZeroVersionMiscounted | internal/cluster/cluster_service.go:325-343 | two members of version 0.0 lose against one of another version |
| Members.MajorMinorOrders | cluster/member.go:57-59 | the combined version number orders versions by major and then minor number |
| MembersMaps.UpdateKeepsInverse | internal/cluster/cluster_service.go:197-236 | an update keeps the member and address maps mutual inverses |
| MembersMaps.UpdateKeepsInverseIff | internal/cluster/cluster_service.go:197-297 | one accepted update, of a list without shared UUIDs or translated addresses, keeps the maps mutual inverses if and only if no member it adds has a translated address |
| MembersMaps.AddMembersMeaning | internal/cluster/cluster_service.go:269-288 | after all additions the map holds the listed UUIDs and the older ones whose address no new member took |
| MembersMaps.AcceptedUpdate | internal/cluster/cluster_service.go:197-236 | the keys are exactly the listed UUIDs, `added` exactly the new ones, and a departed one is in `removed` exactly if no new member took its address |
| MembersMaps.AcceptedRecords | internal/cluster/cluster_service.go:269-288 | after an accepted update a listed member that was there keeps the record it had, and a new one has that of the list |
| MembersMaps.MajorityIsLargerGroup | internal/cluster/cluster_service.go:225-233 | an accepted update that changes who is there sets the majority version to that of the larger group of the list |
| MembersMaps.VersionIsHighest | internal/cluster/cluster_service.go:200-201 | over every run, with any versions, the recorded version is the highest of the updates since the last reset, and at least -1 |
| MembersMaps.StaleIffIgnored | internal/cluster/cluster_service.go:197-236 | an update changes nothing exactly if it is not above -1 or not above an earlier one since the last reset |
| MembersMaps.StaleCanBeLeftOut | internal/cluster/cluster_service.go:197-236 | a stale update anywhere in a run can be left out without changing the final view |
| MembersMaps.OrderedIsLastAccepted | internal/cluster/cluster_service.go:202-202 | the ordered list is that of the last accepted update, also after a reset |
| MembersMaps.RunKeepsInverse | internal/cluster/cluster_service.go:197-236 | over every run of updates and resets the maps are mutual inverses if addresses are not translated |
| MembersMaps.InverseOverAllRunsIff | internal/cluster/cluster_service.go:197-305 | the maps are mutual inverses over all runs if and only if no address is translated |
| MembersMaps.LastAcceptedListHolds | internal/cluster/cluster_service.go:197-236 | after every run ending with an accepted update the map holds exactly its list |
| MembersMaps.TranslationLeavesTrace | internal/cluster/cluster_service.go:269-297 | a member that joins and leaves leaves no trace if and only if its address was not translated |
| MembersMaps.MembersMap.AddMember | internal/cluster/cluster_service.go:269-288 | the whole new state; true exactly for a new UUID |
| MembersMaps.MembersMap.RemoveMember | internal/cluster/cluster_service.go:290-297 | the whole new state; the address removed is the member's own, not the translated one |
| MembersMaps.MembersMap.Update | internal/cluster/cluster_service.go:197-236 | a stale version changes and reports nothing; a newer one gives the specified state, `added` and `removed` |
| MembersMaps.MembersMap.Reset | internal/cluster/cluster_service.go:299-305 | the maps are emptied and every version above -1 is accepted next; the ordered list stays |
| ConnectionMaps.AddAgreesIffAddressFree | internal/cluster/connection_manager.go:750-762 | adding a connection for a new member keeps the collections in agreement if and only if its address is free |
| ConnectionMaps.RemoveKeepsAgreement | internal/cluster/connection_manager.go:764-778 | removing keeps the agreement |
| ConnectionMaps.RunKeepsAgreement | internal/cluster/connection_manager.go:739-778 | over every run `addrs` lists the keys of the address map without repeats and both maps hold the same connections |
| ConnectionMaps.RemovingRejectedDuplicate | internal/cluster/connection_manager.go:750-778 | removing a rejected duplicate changes nothing |
| ConnectionMaps.RunsAgree | internal/cluster/connection_manager.go:764-778 | runs with the same operations go through the same states, whatever order the map is scanned in |
| ConnectionMaps.HeldIff | internal/cluster/connection_manager.go:739-778 | exactly which connections a run holds: those accepted under their address and neither removed by their ID nor lost in a reset since |
| ConnectionMaps.ConnectionMap.GetOrAddConnection | internal/cluster/connection_manager.go:750-762 | the whole new state; the connection held for the member is returned |
| ConnectionMaps.ConnectionMap.RemoveConnection | internal/cluster/connection_manager.go:764-778 | removes what is filed under the connection's ID and returns how many are left |
| ConnectionMaps.ConnectionMap.RemoveAddr | internal/cluster/connection_manager.go:910-919 | the first occurrence is replaced by the last address, and the list is one shorter |
| ConnectionMaps.ConnectionMap.RandomConn | internal/cluster/connection_manager.go:802-828 | returns a live held connection, the balancer's choice if that is alive, and none exactly if none held is alive |
| ConnectionMaps.ConnectionMap.Reset | internal/cluster/connection_manager.go:739-748 | all collections are emptied |
| ConnectionMaps.RoundRobinLoadBalancer.OneOf | cluster/load_balancer.go:44-55 | picks the address at the index and advances it, wrapping |
| ConnectionMaps.EveryAddressPicked | cluster/load_balancer.go:44-55 | any `n` calls in a row on a list of `n` pick every position |
| ConnectionMaps.FilterConns | internal/cluster/connection_manager.go:945-989 | permutes the slice in place; the prefix holds exactly the accepted connections, as often as they occurred, and the tail the rejected ones |
| PartitionTables.TableIsLastUpdate | internal/cluster/partition_service.go:112-151 | with increasing versions per connection the table is the last non-empty update since the last reset, although equal updates go unrecorded |
| PartitionTables.VersionNeverFalls | internal/cluster/partition_service.go:112-134 | with any versions, the recorded one never falls while the connection stays the same and there is no reset |
| PartitionTables.FlattenedMeaning | internal/cluster/partition_service.go:119-127 | the flattened table gives each partition the last owner listed for it |
| PartitionTables.UpdateMeaning | internal/cluster/partition_service.go:112-134 | an empty update and one that is not newer on the recorded connection change nothing; any other makes the table that of its pairs |
| PartitionTables.PartitionTable.Update | internal/cluster/partition_service.go:112-134 | the whole new state; true exactly if the table changed |
| PartitionTables.PartitionTable.Reset | internal/cluster/partition_service.go:145-151 | back to the default table |
| ListenerBinders.RecordedIffAcked | internal/cluster/connection_listener_binder.go:287-308 | a registration is recorded for a member exactly if at some point of the log it was acknowledged and the member not cleared after that |
| ListenerBinders.SkippedIffStillKnown | internal/cluster/connection_listener_binder.go:278-308 | a registration counts as already subscribed for a member exactly if it was acknowledged and since then no member was cleared that had it recorded |
| ListenerBinders.SkippedOnlyIfAcked | internal/cluster/connection_listener_binder.go:243-308 | over every run, a skipped registration has an acknowledged add request since the member's subscriptions were last cleared |
| ListenerBinders.ClearingOneForgetsAll | internal/cluster/connection_listener_binder.go:298-308 | clearing one member makes another's acknowledged registration unknown |
| ListenerBinders.KeptIffRecorded | internal/cluster/connection_listener_binder.go:133-152 | a correlation ID is kept for a registration exactly if it was recorded and the registration not dropped after that |
| ListenerBinders.KeptWereAcknowledged | internal/cluster/connection_listener_binder.go:133-175 | if only IDs of acknowledged requests are recorded, the kept ones are of acknowledged requests |
| ListenerBinders.SendListenerRequests | internal/cluster/connection_listener_binder.go:154-175 | requests go out in order up to the first that cannot be sent; the IDs come back only if all are acknowledged |
| ListenerBinders.ConnectionListenerBinder.Add | internal/cluster/connection_listener_binder.go:81-109 | requests go over the active connections that lack the registration, in the order the filter leaves; IDs and subscriptions are recorded if all are acknowledged, and nothing otherwise |
| ListenerBinders.ConnectionListenerBinder.Request | internal/cluster/connection_listener_binder.go:154-175 | what counts as acknowledged grows by exactly the IDs that members acknowledged; IDs come back only if they all are |
| ListenerBinders.ConnectionListenerBinder.Remove | internal/cluster/connection_listener_binder.go:111-131 | forgets the registration, gives back its correlation IDs, all of requests that members acknowledged earlier, clears all active members, and then sends the remove requests; fails exactly if one of them does; nothing for an unknown ID |
| ListenerBinders.ConnectionListenerBinder.HandleConnectionOpened | internal/cluster/connection_listener_binder.go:243-269 | which registrations are subscribed, in which order, with their IDs: exactly those lacked, or those before the first failure and nothing after it |
| ListenerBinders.ConnectionListenerBinder.HandleConnectionClosed | internal/cluster/connection_listener_binder.go:271-276 | the member is cleared; correlation IDs are kept |
| ListenerBinders.ConnectionListenerBinder.AddSubscriptionToMember | internal/cluster/connection_listener_binder.go:287-296 | both maps record the subscription |
| ListenerBinders.ConnectionListenerBinder.RemoveMemberSubscriptions | internal/cluster/connection_listener_binder.go:298-308 | what clearing a member does to both maps |
| ListenerBinders.ConnectionListenerBinder.UpdateCorrelationIds | internal/cluster/connection_listener_binder.go:133-139 | the IDs are appended to those of the registration |
| ListenerBinders.AddSubscribes | internal/cluster/connection_listener_binder.go:81-109 | after a successful add every member is subscribed, and the IDs of the requests are kept after those from before |
| ListenerBinders.AcksSubscribe | internal/cluster/connection_listener_binder.go:287-296 | adding on some connections subscribes their members and no others, and to nothing else |
| ListenerBinders.RemoveForgetsAll | internal/cluster/connection_listener_binder.go:111-131 | after a removal no active member counts as subscribed to that registration, nor to any other |
| ListenerBinders.SubscribesMeaning | internal/cluster/connection_listener_binder.go:243-269 | a new connection's member is subscribed to the registrations requested in addition |
| ListenerBinders.SubscribesKeepIds | internal/cluster/connection_listener_binder.go:243-269 | and the correlation ID of each request is kept for its registration |
| ListenerBinders.OpenedIsSubscribed | internal/cluster/connection_listener_binder.go:243-269 | without a failure the new connection's member has all registrations |
| ListenerBinders.ConnectionListenerBinder.RemoveCorrelationIds | internal/cluster/connection_listener_binder.go:141-152 | the IDs of the registration are dropped and given back, all of requests that members acknowledged |
| ListenerCalls.BinderRemovesOnlyAnswered | internal/cluster/connection_listener_binder.go:111-175 | over every run of the service with the binder as the only one to ask for removals: each removed call had been answered |
| ListenerCalls.ClientAnswersEveryCaller | internal/invocation/invocation_service.go:176-250 | so once the loop has exited every accepted call has something to receive |
| PutAlls.PutSelected | proxy.go:285-301 | after putting the entries of some partitions, a key there holds its last given value and every other key its old one |
| PutAlls.PutInParts | proxy.go:331-347 | putting the entries of disjoint partitions one after the other is putting their union in input order |
| PutAlls.GroupsInAnyOrder | proxy.go:331-347 | groups applied in any order and to any extent put exactly the entries of their partitions |
| PutAlls.BulkPutIsSequentialPut | proxy.go:285-347 | all groups applied in any order give the map of putting the entries one by one, repeated keys included |
| PutAlls.GroupingKeepsEntries | proxy.go:285-301 | the groups together are a permutation of the entries |
| PutAlls.PartitionToPairs | proxy.go:285-301 | the groups by partition in input order, or an error exactly if an entry cannot be serialized or the partition count is unknown; SerializedMeaning says what is grouped |
| PutAlls.SerializedMeaning | proxy.go:288-296 | the pairs are the serialized entries, one for one and in order; there are none exactly if some entry cannot be serialized |
| PutAlls.LastValueOfEntries | proxy.go:288-296 | the last given value of a key is that of the last entry with the key |
| PutAlls.PartitionsOfKeys | proxy.go:292-296 | a partition is asked exactly if some entry's key lies in it |
| PutAlls.PutAll | proxy.go:331-347 | a grouping error exactly if an entry cannot be serialized or the count is unknown, and nothing is sent then; otherwise one request per partition, the error of the first failed one in request order, and in the map exactly the entries of the requests carried out |
| PutAlls.RequestAll | internal/cb/circuitbreaker.go:80-96 | all requests are made and end before the first result is awaited; a failed one does not keep the next from being made |
| PutAlls.NoErrorMeansAll | proxy.go:331-347 | without error the map on return is that of putting all entries one by one |
| PutAlls.ResultPerKey | proxy.go:331-347 | on return, whatever the error, a key holds its last given value if its partition's request was carried out, and its old value if not |
| PutAlls.ResultPerEntry | proxy.go:285-347 | the same of the entries: a key whose partition's request was carried out holds the value of its last entry |
| PnCounters.FirstFromMeaning | internal/proxy/random_replica.go:19-32 | the scan gives the first eligible member from the drawn position on |
| PnCounters.RandomPNCounterReplica | internal/proxy/random_replica.go:12-33 | the loop gives that member, and none if there is no such member or no position can be drawn |
| PnCounters.FoundForEveryDrawIff | internal/proxy/random_replica.go:12-33 | a member is found whatever is drawn if and only if one is eligible at or after the last position that can be drawn |
| PnCounters.DataMemberMissed | internal/proxy/random_replica.go:19-32 | a data member and a lite member: drawing the second finds none |
| PnCounters.ReplicaAmongFirst | proxy_pn_counter.go:224-229 | with nothing excluded the member is one of the first `n` data members |
| PnCounters.LastDrawDecides | proxy_pn_counter.go:231-240 | if it holds for the last position that can be drawn it holds for all |
| PnCounters.AmongFirstForEveryDrawIff | proxy_pn_counter.go:231-240 | with members excluded that holds for every draw if and only if from the last position that can be drawn on no member is eligible, or one that is among the first `n` data members |
| PnCounters.BeyondFirst | proxy_pn_counter.go:231-240 | with one replica, which is excluded, the second data member is given |
| PnCounters.NeverSameMemberTwice | proxy_pn_counter.go:190-222 | one operation is never sent twice to a member, whatever others do to the shared target and however the member list changes, and the request copied for a retry exists |
| PnCounters.AttemptsBounded | proxy_pn_counter.go:190-222 | at most one request per member that ever was listed or a target, and one last attempt |
| PnCounters.SendsWithFixedList | proxy_pn_counter.go:190-240 | with a fixed list at most one more send than there are data members |
| PnCounters.GivesUpIff | proxy_pn_counter.go:205-213 | exactly when an attempt ends with the error that there is no data member; the shared target stays then |
| PnCounters.GoesTo | proxy_pn_counter.go:139-156 | an attempt goes to the shared target it finds unless it was already sent there, and otherwise to the first data member from the drawn position on to which it was not, which becomes the target |
| PnCounters.PNCounter.CrdtOperationTarget | proxy_pn_counter.go:139-156 | the shared target is kept unless excluded, and otherwise replaced by the draw |
| PnCounters.OnMember.Try | proxy_pn_counter.go:196-221 | one attempt is the specified step: the last member is excluded, the set being made at the second attempt |
| Decimals.ToString | types/decimal.go:57-98 | the builder's result is the specified layout |
| Decimals.WritePlain | types/decimal.go:69-84 | the 0.xxx and xx.xx forms |
| Decimals.WriteScientific | types/decimal.go:85-96 | the E-notation form |
| Decimals.RoundTrip | types/decimal.go:57-98 | reading the text by the `BigDecimal` grammar recovers unscaled value and scale, for every integer and every int32 scale |
| Decimals.PrintingIsInjective | types/decimal.go:57-98 | distinct decimals print differently, across all forms |
| Decimals.PrintsItsValue | types/decimal.go:57-98 | the text denotes exactly the unscaled value times ten to the minus scale |
| Decimals.ScientificIff | types/decimal.go:69-69 | the text has an exponent exactly if the scale is negative or the adjusted exponent is below -6 |
| Decimals.FormPrinted | types/decimal.go:57-98 | the digits before and behind the point and the exponent, in both notations |
| Decimals.ExponentSigned | types/decimal.go:91-95 | a printed exponent always carries its sign |
| Decimals.NoLeadingZero | types/decimal.go:59-59 | no number is printed with leading zeros |
| Decimals.NewDecimalDenotesIff | types/decimal.go:33-38 | for any integer scale, the decimal made denotes unscaled times ten to the minus scale if and only if the scale is an int32 or the unscaled value is 0 |
| Decimals.ExponentInRangeIff | types/decimal.go:85-96 | exactly when the printed exponent is in the range the `BigDecimal(String)` documentation asks for |
| Decimals.ParsesBackIff | types/decimal.go:57-98 | `BigDecimal(String)` reads the decimal back if and only if its scale is not negative or its adjusted exponent at most 2^31 - 1, and refuses the text otherwise |
| Decimals.SmallestScaleRefused | types/decimal.go:85-96 | a decimal that is printed but refused |

## Left out

- Sockets, TLS, dialing, authentication, heartbeats, reconnection, failover and cloud discovery: input and output.
- Most proxies (map, list, queue, set, topic, multimap, SQL, CP) and the generated codecs: encode, invoke and decode wrappers, which would only add easy members.
- Near cache, predicates, aggregators and object serialization.
- Vector clocks, murmur hashing and the encoding of partition IDs: a partition is an arbitrary function of the serialized key.
- Timing: backoff jitter, timers and schedulers; a clock is a number that a step carries.
- Delivery of events to handlers by the stripe executor, and `DispatchService`'s map of subscriptions: only one subscription is modelled.
- Pausing as a protocol step: a paused send is refused before it reaches the loop, and is a fate of an attempt.
- Event handlers and request handlers are taken to return.
- 64-bit wrap-around of correlation IDs, of the batch index and of connection IDs.
- The atomic fields of `CircuitBreaker` are updated by one caller at a time in the model; its state handler and timer are not modelled.
- The candidate set and the lookups by member or address of `connectionMap`.
- `SQLMember`, `OrderedMembers` and the notifications sent on member changes.
- `CanRetry` as overridden by connection-bound and member-bound invocations: the code that retries calls the embedded one.
- A decimal with a nil unscaled value.
- Negative replica counts of a PN counter, for which Go's random generator panics.
- FlakeIds.NoIdTwice: asks that fetched batches are disjoint, have non-zero increments and hold int64 values, which the members that produce them guarantee.
- MembersMaps.AcceptedUpdate: asks for untranslated addresses, distinct UUIDs and addresses in a list and a fixed address per UUID.
