# sngo, modelled and verified in Dafny

sngo is an actor framework in the style of Skynet. This project models the parts of it whose correctness is not
obvious from reading one function, and proves what they keep over every input, every interleaving or every run.

| file | what it models |
|---|---|
| `DependencyGraph.dfy`, `LifecycleRuns.dfy`, `Lifecycle.dfy` | service start order (Kahn's algorithm, maps iterated in any order) and whole runs of register, start, retry and stop |
| `ActorProtocol.dfy`, `ActorRuns.dfy`, `ActorLimits.dfy`, `ActorOutcomes.dfy`, `ActorStops.dfy`, `Actor.dfy` | one actor's mailbox, call and stop protocol as interleaved atomic steps, what every run keeps and exactly where that ends, what causes each result, and that a Stop always comes to an end |
| `CallIds.dfy`, `RemoteCall.dfy`, `NodeRuns.dfy`, `RemoteRuns.dfy`, `RemoteOutcomes.dfy`, `RemoteService.dfy` | remote calls between nodes over a network that drops, duplicates and reorders |
| `BigEndian.dfy`, `MessageCodec.dfy`, `TcpConnection.dfy` | the 32-byte message header, and reading framed messages from a stream cut into arbitrary chunks |
| `KeyExchange.dfy`, `BlockCipherMode.dfy`, `Base64.dfy`, `Login.dfy`, `LoginReads.dfy`, `LoginServer.dfy` | key agreement, padding, base64 and the login handshake up to the authentication handler, over lines read whole and over a stream that arrives in any pieces |
| `Handles.dfy`, `Routing.dfy`, `SystemRuns.dfy`, `ActorSystem.dfy`, `Sessions.dfy` | handle tables, routing table, service discovery and response sessions |
| `Decimals.dfy`, `HeaderScanner.dfy` | finding the end of a JSON header by counting braces, and the pack/unpack round trip |
| `LoadBalancer.dfy` | round robin and weighted round robin fairness, and which services a kept list can still pick |
| `Basics.dfy`, `Sequences.dfy`, `Arithmetic.dfy` | shared types and facts about sequences and remainders |

## How the model is built

Code that updates an object's fields is a class whose methods change those fields; each method's contract equates the
new abstract state with a step of a pure specification (`Apply`, `NodeStep`, `StartStep`, `Allocate`, ...). The run
theorems quantify over every finite sequence of such steps from the initial state. For the concurrent parts (actor,
remote calls) one step is one atomic action of one goroutine, so a sequence of steps is an interleaving. History
fields (`accepted`, `issued`, `answers`, `history`, ...) only record what happened.

Each object is tied to its run theorems by `Valid()`, which every method keeps: the actor and the remote service carry
the events and states so far and are where these lead, so their histories are runs; the session manager, the lifecycle
manager, the handle manager, the router and the system satisfy what their runs keep.

Inputs from outside are parameters: whether a service's own Start or Stop succeeds, what a handler returns, which
ready branch a `select` takes, the clock, the private keys and the challenge, the block cipher and the HMAC (functions
with the one or two laws that are used), how base64 writes a single group (any code that can be read back, of which
`Base64.Standard` is proved to be one), the transport, and the iteration order of maps. `0x1_0000_0000` and the like
are written out wherever Go's integers wrap.

Where the code differs from what its names and comments suggest, the model follows the code:

- A failed Start keeps its partial start order and leaves the services it started running; Stop is then a no-op. After a
  retry succeeds, Stop calls such services once per successful start (`StopUndoesStarts`).
- The padding is called PKCS5 in the source but adds nothing to whole blocks, so some plaintexts lose their last bytes
  (`PaddingRoundTrip` says exactly which).
- `readLine` is a single Read of 1024 bytes, so a longer token line arrives cut and is refused (`HonestLogin`). A Read need
  not end where a line does: `LoginSucceedsExactly` says for exactly which ways of arriving in pieces the honest client is
  let in. HMAC and token in one Read are not among them (`OneReadDropsTheLogin`).
- A remote error with empty text is read back as a nil result (`ReadBackIsFaithful`).
- The rollback in NewService is only reached for an empty name and then takes nothing back (`NewServiceKeeps`);
  `FailedServiceLeaves` says what a failed call leaves behind.
- Every 2^32nd call of an actor draws session 0 and is never answered (`ZeroSessionIsNeverAnswered`).
- A message whose select is taken once the drain is over stays in the mailbox although its send succeeded, whenever its
  check was made; so does everything accepted by an actor that was never started (`StopLeavesTheLate`).
- A Stop is refused exactly if it misses the actor both times, not idle at its first attempt and not running at its second
  (`RefusedStopMissed`, `MissedStopIsRefused`); an idle actor nobody else is stopping can refuse it so
  (`IdleActorCanRefuseStop`).
- The loop marks the actor idle after each message, even over a Stop under way, so sends pass again
  (`StoppingIsForgotten`, `SendPassesWhileStopping`).
- An Unregister between the two halves of a RegisterService leaves a name bound to an actor that cannot be routed
  (`RegisterInTwoSteps` says exactly when the tables stay good).
- The weighted balancer keeps a list of the right length although it was built for other services
  (`PicksAreOfBuiltList`, `StalePick`) or with other metrics (`KeptRoundIsFairToLastBuild`).
- The "already stopping" branch of the lifecycle manager is unreachable, since the lock is held for the whole Stop
  (`LifecycleRuns.EveryRun`).

## Model

| member | source | states |
|---|---|---|
| `Lifecycle.CalculateStartOrder` | bootstrap/lifecycle.go:286-339 | for every set of registrations and every map iteration order: succeeds exactly when all dependencies are registered and the graph is acyclic, with every service once and dependencies strictly first; reports a circular dependency exactly when all are registered and a cycle exists; otherwise names a real missing dependency |
| `Lifecycle.BuildGraph` | bootstrap/lifecycle.go:288-306 | on success all dependencies are registered and in-degrees and reverse edges count the multigraph exactly; on failure the named dependency is really missing |
| `Lifecycle.AddService` | bootstrap/lifecycle.go:298-306 | recording one service's dependencies, in order and with repetitions, keeps the counts exact, or stops at a missing one |
| `Lifecycle.AddEdge` | bootstrap/lifecycle.go:303-304 | one recorded edge keeps in-degrees and reverse edges in agreement |
| `Lifecycle.InitialQueue` | bootstrap/lifecycle.go:308-314 | the first queue holds exactly the services without dependencies, once each |
| `Lifecycle.LowerDependents` | bootstrap/lifecycle.go:324-330 | lowering all dependents enqueues exactly those whose last dependency is gone, each once, also with repeated edges |
| `Lifecycle.Release` | bootstrap/lifecycle.go:318-331 | one round outputs a service all of whose dependencies are already output and restores: in-degree = edges from services not yet output |
| `Lifecycle.LeftoverIsCyclic` | bootstrap/lifecycle.go:333-336 | if the queue runs dry early, the services never output contain an explicit cycle |
| `DependencyGraph.CloseCycle` | bootstrap/lifecycle.go:333-336 | following dependencies inside a set whose members all depend on members closes a cycle |
| `DependencyGraph.OrderMeansAcyclic` | bootstrap/lifecycle.go:333-336 | a graph with a cycle has no start order at all |
| `DependencyGraph.RemainingRelease` | bootstrap/lifecycle.go:324-330 | releasing a service takes exactly its multiplicity off each dependent's remaining count |
| `LifecycleRuns.EveryRun` | bootstrap/lifecycle.go:57-229 | in every run of register, start and stop, with starts failing anywhere and retried: each service's Start is called only after all its dependencies started in the same Start call, every stop is the reverse of what was started, and no call sees a stop in progress |
| `LifecycleRuns.StartFollowsDeps` | bootstrap/lifecycle.go:110-143 | calls along a start order up to a failure have all dependencies started first |
| `LifecycleRuns.StopUndoesStarts` | bootstrap/lifecycle.go:175-221 | in every run a Stop begins with the exact reverse of the last complete start, which lists every service registered by then once, and stops each service as often as it was started since the previous stop |
| `LifecycleRuns.DependentsStopFirst` | bootstrap/lifecycle.go:175-217 | in every run, among those first stops each service precedes each of its dependencies |
| `Lifecycle.ReverseInPlace` | bootstrap/lifecycle.go:179-183 | the in-place swap loop reverses the slice |
| `Lifecycle.LifecycleManager.constructor` | bootstrap/lifecycle.go:46-54 | a new manager is in the initial state of runs |
| `Lifecycle.LifecycleManager.Register` | bootstrap/lifecycle.go:57-87 | succeeds exactly for a new non-empty name and a service while not started, recording service and dependencies; otherwise changes nothing and reports the first reason |
| `Lifecycle.LifecycleManager.Start` | bootstrap/lifecycle.go:90-153 | performs one start step with the given outcomes: complete, or up to the first failing service, whose name it reports; a cycle or a named missing dependency is reported exactly when there is one and changes nothing |
| `Lifecycle.LifecycleManager.StartInOrder` | bootstrap/lifecycle.go:110-143 | starts in order up to the first failure and records exactly the successes |
| `Lifecycle.LifecycleManager.Stop` | bootstrap/lifecycle.go:156-229 | performs one stop step over the reversed start order, whatever fails, and reports the last failure; does nothing when not started, and never finds a stop in progress |
| `Lifecycle.LifecycleManager.StopInOrder` | bootstrap/lifecycle.go:185-217 | calls every service once in order and remembers the last failure |
| `ActorRuns.MailboxConserves` | core/actor.go:102-250 | in every interleaving, however many calls: accepted messages = processed, then discarded while draining, then still queued, as sequences; the mailbox never exceeds its capacity; messagesProcessed counts the processed ones begun |
| `ActorRuns.StopIsFinal` | core/actor.go:81-99 | once a Stop has returned, the actor stays stopped and nothing is processed any more, whatever happens later |
| `ActorRuns.EveryRun` | core/actor.go:68-250 | every interleaving with fewer than 2^32 calls keeps the full invariant of mailbox, loop, pending table, channels and stops |
| `ActorRuns.WaitingCallIsSomewhere` | core/actor.go:119-250 | the message of a waiting accepted call is in exactly one of mailbox, loop's hands, answered in its channel |
| `ActorRuns.CallGetsOwnReply` | core/actor.go:134-143 | a call only returns the reply to its own message: what the handler returned for it if it was processed, the shutdown error if it was discarded |
| `ActorRuns.ChannelIsNeverFull` | core/actor.go:209-232 | sendResponse always finds the channel of the call it answers, and finds it empty |
| `ActorRuns.LoopKeepsFifo` | core/actor.go:165-250 | every loop step keeps the first-in first-out conservation |
| `ActorRuns.CallKeepsPending` | core/actor.go:119-143 | every caller step keeps: the pending table holds exactly the calls that have not returned, under their own session |
| `ActorRuns.ResponseKeepsCalls` | core/actor.go:209-232 | looking up and delivering a response settles exactly the message in hand |
| `ActorRuns.FinishedStays` | core/actor.go:81-99 | a closed or refused loop never processes again |
| `ActorOutcomes.AcceptedAreTheAccepts` | core/actor.go:102-132 | in every run the accepted messages are exactly those the accepting selects of senders and callers put in, in order, with their payloads |
| `ActorOutcomes.ResultHasCause` | core/actor.go:102-143 | in every run each result of a call was caused by the matching event of that call in a state where its condition held: not running, mailbox full, shut down, cancelled or replied |
| `ActorOutcomes.ResultStays` | core/actor.go:127-142 | a call keeps its result |
| `ActorOutcomes.RefusalNeedsStop` | core/actor.go:102-116 | in every run without a Stop no call is refused as not running or shutting down; one refused as full met a mailbox holding exactly its capacity |
| `ActorOutcomes.ReplyHasCause` | core/actor.go:199-205 | in every run the reply recorded for a call is what the handler returned for its message at some event |
| `ActorOutcomes.CallGetsHandlersReply` | core/actor.go:134-232 | with fewer than 2^32 calls, a processed call that returned a reply returned what the handler returned for its message |
| `ActorOutcomes.CallCompletes` | core/actor.go:119-232 | from every good state with an idle loop and an empty mailbox, a call can be made and returns exactly what the handler returns |
| `ActorOutcomes.RefusedStopMissed` | core/actor.go:81-87 | in every run a Stop is refused only if the actor was not idle at its first compare-and-swap and not running at its second |
| `ActorOutcomes.MissedStopIsRefused` | core/actor.go:81-87 | every Stop that missed the actor both times is refused |
| `ActorOutcomes.IdleActorCanRefuseStop` | core/actor.go:81-87 | a run in which an actor that nobody else stops refuses a Stop and is idle afterwards |
| `ActorStops.StopNeverSticks` | core/actor.go:89-98 | in every run, wherever the loop is and whatever is queued, a Stop that waits can return by steps of the loop alone; a loop that had not drained yet leaves an empty mailbox |
| `ActorStops.LoopWindsUp` | core/actor.go:165-250 | left to itself a cancelled loop comes to its end |
| `ActorStops.IdleActorCanStop` | core/actor.go:81-99 | in every run an idle actor, started or not, can be stopped |
| `ActorStops.NothingPassesAfterStop` | core/actor.go:102-106 | once a Stop has returned, no further send passes its check and every later call can only end as not running |
| `ActorStops.SendIsQueued` | core/actor.go:102-116 | in every run without a Stop, whatever the actor is doing, a send is taken at once exactly if the mailbox has room, and is queued last |
| `ActorStops.StoppingIsForgotten` | core/actor.go:186-189 | when the loop ends a message, sends pass again and another Stop can claim the actor, also while one is under way |
| `ActorStops.SendPassesWhileStopping` | core/actor.go:81-106 | a run in which a send passes its check after a Stop has claimed the actor |
| `ActorLimits.StopLeavesTheLate` | core/actor.go:81-250 | in every run a returned Stop leaves in the mailbox exactly the messages accepted by selects taken after the drain was over, so nothing accepted is lost exactly when there are none; if the loop was never started, everything accepted stays |
| `ActorLimits.RunStrands` | core/actor.go:165-250 | from any state, once the drain is over the mailbox holds what it held plus exactly what is accepted after that |
| `ActorLimits.MessageCanBeStranded` | core/actor.go:102-116 | late acceptances happen: a run in which a send passes its check before Stop and is accepted after the drain |
| `ActorLimits.ZeroSessionIsNeverAnswered` | core/actor.go:119-232 | in every run, however many calls it makes, exactly every 2^32nd call carries session 0, and such a call never holds a response and never leaves with one |
| `ActorLimits.WrappedCallIsNeverAnswered` | core/actor.go:119-127 | with 2^32 calls there is a run that processes the last call's message, and no continuation of it ever answers that call |
| `ActorLimits.ReplyUpToWrap` | core/actor.go:119-232 | in every run, however many calls it makes, a call that returned a reply got that of a call whose number differs by a multiple of 2^32; up to 2^32 calls it is its own |
| `ActorLimits.DeliveryHasTarget` | core/actor.go:209-230 | in every run a response is delivered to a call that exists |
| `Actor.Actor.constructor` | core/actor.go:42-60 | a new actor is idle with an empty mailbox of the given size |
| `Actor.Actor.HistoryIsRunOfActor` | core/actor.go:42-250 | the events an actor object has performed are a run from the initial state that leads to its fields |
| `Actor.Actor.ReturnedOwnReply` | core/actor.go:134-143 | with fewer than 2^32 calls, a call of the object that returned a reply returned the one to its own message |
| `Actor.Actor.DeliveryFindsItsCall` | core/actor.go:209-230 | the channel the object is about to fill belongs to an existing call, and with fewer than 2^32 calls to the message's own call and is empty |
| `Actor.Actor.StoppedMailbox` | core/actor.go:81-99 | after Stop the object's mailbox holds exactly what was accepted after the drain, or everything accepted if never started |
| `Actor.Actor.Start` | core/actor.go:68-78 | starts the loop exactly from the idle state |
| `Actor.Actor.CheckBeforeSend` | core/actor.go:103-106 | passes unless the actor is stopping or stopped |
| `Actor.Actor.ReadyBranch` | core/actor.go:108-115 | the select takes a ready branch, default only when none is ready |
| `Actor.Actor.TrySend` | core/actor.go:108-115 | performs the send event of the branch taken |
| `Actor.Actor.OpenCall` | core/actor.go:120-126 | draws the next session, wrapping at 2^32, and stores the call's channel under it |
| `Actor.Actor.CheckBeforeCall` | core/actor.go:103-132 | a call leaves at once exactly when the actor is stopping or stopped |
| `Actor.Actor.TryCall` | core/actor.go:130-132 | enqueues the call's message, or leaves with the matching error |
| `Actor.Actor.AwaitReply` | core/actor.go:134-142 | takes a ready branch of the caller's select: the response, the caller's or the actor's context |
| `Actor.Actor.LeaveCall` | core/actor.go:127 | deletes the pending entry and returns the result |
| `Actor.Actor.SelectInLoop` | core/actor.go:169-182 | takes the first message or sees the cancelled context, whichever is ready |
| `Actor.Actor.BeginProcess` | core/actor.go:186-193 | marks running and counts the message |
| `Actor.Actor.AfterHandler` | core/actor.go:199-205 | goes on to respond exactly for messages with a session |
| `Actor.Actor.LookUpPending` | core/actor.go:209-211 | finds the channel stored under the message's session |
| `Actor.Actor.DeliverResponse` | core/actor.go:213-230 | puts the response into the channel unless it is full, which it is not with fewer than 2^32 calls |
| `Actor.Actor.EndProcess` | core/actor.go:189 | stores idle when processing ends, even over stopping |
| `Actor.Actor.DrainOne` | core/actor.go:235-250 | discards one message, answering it with the shutdown error if it is a call, or ends the drain |
| `Actor.Actor.Close` | core/actor.go:166-167 | closes the mailbox as the loop ends |
| `Actor.Actor.OpenStop` | core/actor.go:83 | first compare-and-swap of Stop |
| `Actor.Actor.RetryStop` | core/actor.go:84-87 | second compare-and-swap, refused unless running |
| `Actor.Actor.CancelContext` | core/actor.go:90 | cancels the actor's context |
| `Actor.Actor.FinishStop` | core/actor.go:93-98 | returns once the loop has ended, or was never started, and marks stopped |
| `CallIds.CallIdInjective` | cluster/service.go:374-377 | "call-node-n" ids are injective in node and counter, whatever the node names, for non-negative counters |
| `CallIds.CallIdsCoincide` | cluster/service.go:374-377 | over all integers, two ids coincide exactly for equal nodes and counters, or for opposite counters where the node of the positive one has one more trailing dash |
| `RemoteRuns.CallReturnsOwnAnswer` | cluster/service.go:64-326 | over a network that drops, duplicates and reorders: a result or remote error returned by a call is the outcome of a handler run for this very call at the addressed node, with its arguments and as the handler returned it (but for an empty error), or reports that no handler was registered there then |
| `RemoteRuns.AnswerWasComputed` | cluster/service.go:230-261 | in every run each answer was computed by handling its request at the addressed node, and carries the handler's own outcome exactly if the service was registered there then |
| `RemoteRuns.HandlersAreRegistered` | cluster/service.go:155-180 | in every run a service has a handler exactly if it was registered and not unregistered since |
| `RemoteOutcomes.ReturnHasCause` | cluster/service.go:94-128 | in every history of a node each return of a call was caused by its matching event: reply, failed serialization or send, cancellation, timeout |
| `RemoteOutcomes.CallCompletes` | cluster/service.go:64-326 | a call whose request and reply get through returns the handler's outcome, unless that is an error with empty text |
| `RemoteRuns.EveryRun` | cluster/service.go:64-377 | every run in which no node draws 2^63 ids keeps: packets, held replies, channels and results are all justified by answers to their own call |
| `RemoteRuns.IdNamesOneCall` | cluster/service.go:374-377 | no two calls in a reachable cluster share an id |
| `RemoteRuns.ReturnIsFinal` | cluster/service.go:302-326 | what a call returned never changes, whatever arrives later |
| `RemoteRuns.HandleReplyOk` | cluster/service.go:295-310 | a delivered reply is only ever held for the call it answers |
| `RemoteRuns.SentOk` | cluster/service.go:230-261 | what a node sends is a request of one of its calls or a justified reply to the requester |
| `RemoteRuns.LateReplyChangesNothing` | cluster/service.go:295-310 | in every run, a reply that comes in after its call has returned changes nothing at the node |
| `RemoteRuns.RepliedOk` | cluster/service.go:230-261 | the reply to a request that was sent is justified by the answer it carries, for the call that sent it |
| `NodeRuns.EveryHistoryKeepsTables` | cluster/service.go:64-128 | whatever the network brings: pending entries name calls of that id that have not returned, and looked-up replies belong to calls of their id |
| `NodeRuns.ClusterRunIsNodeHistory` | cluster/service.go:51-62 | what a cluster run does to one node is a history of that node's own events |
| `RemoteCall.ReadBackIsFaithful` | cluster/service.go:312-323 | a reply reads back as what the handler returned exactly unless that was an error with empty text, which reads as a nil result |
| `RemoteService.RemoteService.constructor` | cluster/service.go:51-62 | a new service has no handlers and no calls |
| `RemoteService.RemoteService.RegisterHandler` | cluster/service.go:155-163 | adds a handler exactly if the service has none |
| `RemoteService.RemoteService.UnregisterHandler` | cluster/service.go:176-180 | removes the handler |
| `RemoteService.RemoteService.GenerateCallId` | cluster/service.go:374-377 | draws the next number, wrapping like an int64, and forms the id |
| `RemoteService.RemoteService.OpenCall` | cluster/service.go:64-103 | stores the pending call under a new id, or gives up on a message that cannot be serialized |
| `RemoteService.RemoteService.SendRequest` | cluster/service.go:112-115 | sends the call's own request to the addressed node, or fails |
| `RemoteService.RemoteService.HandleRemoteCall` | cluster/service.go:230-261 | answers with the handler's outcome, or with a missing-handler error, to the sender under the request's id |
| `RemoteService.RemoteService.LookUpReply` | cluster/service.go:295-310 | finds the pending call of a reply, one with its id that has not returned; otherwise changes nothing |
| `RemoteService.RemoteService.OfferReply` | cluster/service.go:312-325 | fills the error or result channel if it is empty |
| `RemoteService.RemoteService.AwaitReply` | cluster/service.go:117-127 | takes a ready branch of the caller's select |
| `RemoteService.RemoteService.FinishCall` | cluster/service.go:105-110 | removes the pending entry as the call returns |
| `MessageCodec.DecodeEncode` | network/message.go:209-273 | decoding an encoding, with anything after it, gives the message's wire projection |
| `MessageCodec.EncodeDecode` | network/message.go:209-273 | whatever Decode accepts is the encoding of its result followed by unread bytes |
| `MessageCodec.DecodeErrors` | network/message.go:240-268 | which error Decode reports, exactly by the length of the data and of the payload announced |
| `MessageCodec.HeaderRoundTrip` | network/message.go:276-318 | reading a header back gives exactly the fields on the wire and the payload length |
| `MessageCodec.Encode` | network/message.go:209-237 | fills the buffer with header and payload; refuses nil and too large messages |
| `MessageCodec.EncodeHeader` | network/message.go:276-291 | fills the 32 header bytes |
| `MessageCodec.PutHeader` | network/message.go:223-229 | writes the six header fields at their places |
| `BigEndian.FromToBytes` | network/message.go:224-229 | a number that fits is read back from its big-endian bytes |
| `BigEndian.ToFromBytes` | network/message.go:247-254 | writing the number read from bytes gives the bytes |
| `BigEndian.Put` | network/message.go:224-229 | writes big-endian bytes in place and nothing after them |
| `TcpConnection.FramingRoundTrip` | network/tcp_connection.go:188-236 | reading the concatenated encodings of any messages gives exactly their wire projections in order, then whatever the remaining bytes give |
| `TcpConnection.FramingExact` | network/tcp_connection.go:188-236 | with nothing after the messages the reader stops at the end of the stream |
| `TcpConnection.ReadOneExactly` | network/tcp_connection.go:188-236 | a read refuses a header exactly for a length above the limit, fails exactly where the stream ends early, and else takes exactly the announced bytes |
| `TcpConnection.TcpConnection.constructor` | network/tcp_connection.go:39-57 | an open connection with counters at zero |
| `TcpConnection.TcpConnection.Read` | network/tcp_connection.go:318 | a socket read takes a non-empty prefix of the stream that fits the buffer |
| `TcpConnection.TcpConnection.ReadFull` | network/tcp_connection.go:315-326 | fills the buffer with the next bytes however they are chunked; fails exactly when the stream is too short |
| `TcpConnection.TcpConnection.ReadMessage` | network/tcp_connection.go:188-236 | its result and the bytes left depend only on the stream, not on its chunks; counters advance by what was read |
| `TcpConnection.TcpConnection.Serve` | network/tcp_server.go:356-381 | the connection loop hands over all messages up to the first error, or up to the shutdown, leaving the rest of the stream unread |
| `TcpConnection.ReceiveAll` | network/tcp_connection.go:188-326 | for every cut of the encodings into non-empty chunks, exactly the sent messages arrive as they look on the wire |
| `KeyExchange.KeyAgreement` | crypt/crypt.go:30-91 | for all keys both sides compute the same eight bytes |
| `KeyExchange.SecretIsPower` | crypt/crypt.go:62-91 | the secret is the generator to the product of both exponents, reduced, in eight bytes |
| `KeyExchange.ExponentIsLowBits` | crypt/crypt.go:36-42 | of a private key exactly the low 31 bits count, and of these 0 and 1 count as 2 |
| `KeyExchange.KeysArePowers` | crypt/crypt.go:30-91 | public key and secret are powers of 2 modulo 2^32 - 5 with those bits as exponents |
| `KeyExchange.PublicKeyOfFive` | crypt/crypt.go:30-59 | the private key 5 has the public key 32 |
| `KeyExchange.PublicKeyOfThirtyTwo` | crypt/crypt.go:30-59 | the private key 32 has the public key 5 |
| `KeyExchange.PowOfMod` | crypt/crypt.go:44-45 | reducing the base first does not change a modular power |
| `KeyExchange.PaddedMinimal` | crypt/crypt.go:47-56 | right-aligning the minimal bytes gives the fixed-width big-endian form |
| `KeyExchange.AlignRight` | crypt/crypt.go:48-56 | both copy branches right-align the bytes in eight |
| `KeyExchange.DHExchange` | crypt/crypt.go:30-59 | computes the public key of the masked and clamped private key |
| `KeyExchange.DHSecret` | crypt/crypt.go:62-91 | computes the shared secret |
| `BlockCipherMode.PaddingRoundTrip` | crypt/crypt.go:134-198 | decoding gives back d exactly when len(d) is 0, is not a multiple of 8, or the last byte is outside 1..8; otherwise it drops exactly that many final bytes |
| `BlockCipherMode.DecryptUndoes` | crypt/crypt.go:157-187 | block by block decryption undoes encryption |
| `BlockCipherMode.EncryptedBlockwise` | crypt/crypt.go:134-165 | each block of the ciphertext is the cipher's value on that block of the padded data, and the padding repeats its own length |
| `BlockCipherMode.ApplyBlocks` | crypt/crypt.go:157-162 | the block loop processes every block in place order |
| `BlockCipherMode.DESEncode` | crypt/crypt.go:134-165 | pads and encrypts |
| `BlockCipherMode.DESDecode` | crypt/crypt.go:168-198 | decrypts and removes what looks like padding |
| `Base64.RoundTrip` | crypt/crypt.go:94-101 | for every code of single groups that can be read back, decoding an encoding of any length gives back the bytes |
| `Base64.Standard` | crypt/crypt.go:94-101 | the standard code of RFC 4648 writes every group in its alphabet and reads it back |
| `Base64.MadeCodecIsLawful` | crypt/crypt.go:94-101 | groups read back if the characters of the alphabet and the sextets of three bytes do |
| `Base64.EncodeIsClean` | crypt/crypt.go:94-96 | an encoding consists of the 64 symbols and the pad character |
| `Base64.EncodePrefix` | crypt/crypt.go:94-96 | cutting the text at a group boundary cuts the bytes |
| `Login.HonestLogin` | loginserver/loginserver.go:118-203 | for every challenge, pair of private keys and credentials, read line by line: the client's HMAC passes, the server judges a token, it is the one sent exactly when the padded token has at most 768 bytes, and the user is let in exactly if it is, the password is right and the server is known |
| `Login.WrongHmacIsRejected` | loginserver/loginserver.go:164-183 | a peer that sends a key and then anything but the HMAC of the challenge under the secret of that key is rejected, exactly then, and gets 401 last, whatever follows |
| `Login.WrongKeyPanics` | loginserver/loginserver.go:135-160 | a key of any length but eight bytes ends the handshake after the server's two lines |
| `Login.TokenIsJudged` | loginserver/loginserver.go:185-203 | after the right HMAC any token line is judged as what it decrypts to, except that a ciphertext not made of whole blocks ends the handshake |
| `Login.StatusTellsOutcome` | loginserver/loginserver.go:178-208 | whatever a peer sends, 403 is written exactly after a refused token and 401 exactly after a wrong HMAC |
| `Login.VerdictOnParts` | examples/login/server/main.go:30-63 | the verdict on any token in three parts, with the error that names the first wrong part |
| `Login.OnlyThreePartsAreJudged` | examples/login/server/main.go:30-63 | a token is malformed exactly if it has no such three parts |
| `Login.ReadsLoseNothing` | loginserver/loginserver.go:252-261 | a Read takes at most 1024 bytes off what was written and loses none |
| `Login.TrimIsExact` | loginserver/loginserver.go:252-261 | trimming takes off all white space at both ends and nothing else |
| `LoginReads.LoginSucceedsExactly` | loginserver/loginserver.go:118-261 | for every way the client's three lines arrive in pieces of at most 1024 bytes: the server recovers the token exactly if the first Read stops at the end of the key's text or past its newline, the second likewise for the HMAC and the third for the token; the user is let in exactly then, with the right password and a known server |
| `LoginReads.ReadOfText` | loginserver/loginserver.go:252-261 | a Read of base64 characters and newlines decodes like the characters in it, wherever the newlines are |
| `LoginReads.TokenStage` | loginserver/loginserver.go:185-203 | a third Read that misses any character neither recovers the token nor lets the user in |
| `Login.CutTokenIsRefused` | examples/login/server/main.go:30-63 | a token of which anything is missing at the end is always refused |
| `Login.TokenRoundTrip` | examples/login/server/main.go:30-63 | splitting and decoding the client's token recovers user, server and password, whatever they are |
| `Login.TokenSurvives` | examples/login/client/main.go:110-115 | no byte of a token could be taken for padding |
| `Login.TokenArrives` | loginserver/loginserver.go:185-200 | the server decrypts the token sent exactly when it fits one read, and otherwise its first 768 bytes |
| `Login.OneReadDropsTheLogin` | examples/login/client/main.go:97-118 | for all keys and credentials, if the honest client's HMAC and token lines arrive in one Read the server drops the connection |
| `Base64.TwoLinesDoNotDecode` | crypt/crypt.go:99-101 | two encodings on separate lines do not decode as one text when the first is padded |
| `Base64.CutText` | crypt/crypt.go:99-101 | a cut text does not decode, or decodes to a proper beginning of the bytes that fills its groups |
| `Base64.OnlyWholeTextReads` | crypt/crypt.go:99-101 | of the beginnings and continuations of a padded encoding, only the encoding itself reads back as the bytes |
| `Base64.DecodesExactly` | crypt/crypt.go:99-101 | a text is base64 exactly if without its line breaks it consists of groups of four characters of the alphabet, of which only the last may end in one or two pads |
| `Login.ReadLine` | loginserver/loginserver.go:252-261 | one read of a line carries its bytes, cut to 768 |
| `LoginServer.Connection.ReadLine` | loginserver/loginserver.go:252-261 | reads at most 1024 bytes of one write, trims and decodes them |
| `LoginServer.ReceiveHmac` | loginserver/loginserver.go:164-183 | rejects with 401 exactly on a wrong HMAC |
| `LoginServer.ReceiveToken` | loginserver/loginserver.go:185-208 | decrypts and judges the token, writing 403 on refusal |
| `LoginServer.HandleConnection` | loginserver/loginserver.go:105-208 | does and writes exactly what the stages of the handshake say for whatever it reads |
| `LoginServer.PerformLogin` | examples/login/client/main.go:53-121 | writes the honest client's three lines |
| `LoginServer.HonestHandshake` | loginserver/loginserver.go:105-208 | both sides run together let the user in exactly for a token that fits, the right password and a known server |
| `Handles.TablesStayInverse` | core/handle.go:100-188 | in every run of up to 2^32 allocations the three tables stay mutually inverse and no id is given out twice |
| `Handles.TopByteIsNode` | core/handle.go:89-118 | the k-th id carries the node in its top byte exactly while the low 24 bits have not overflowed |
| `Handles.IssuedCarriesNode` | core/handle.go:89-118 | in every run of fewer than 2^24 allocations each id given out carries the node in its top byte |
| `Handles.NodesNeverShareIds` | core/handle.go:89-118 | managers with different node ids below 256 never share an id in 2^24 - 1 allocations |
| `Handles.AllocateKeepsInv` | core/handle.go:100-137 | allocating keeps tables and ids consistent |
| `Handles.AllocateOutcome` | core/handle.go:100-137 | an allocation finds the actor's own handle exactly if it has one, is refused exactly for a name another actor has, and else grants a handle with a fresh id |
| `Handles.ReleaseKeepsInv` | core/handle.go:171-188 | releasing keeps tables and ids consistent |
| `Handles.HandleManager.constructor` | core/handle.go:89-97 | starts counting at the node's shifted id plus one |
| `Handles.HandleManager.AllocateHandle` | core/handle.go:100-137 | returns the actor's existing handle whatever the name, refuses a taken name, or enters a new handle in all tables |
| `Handles.HandleManager.GetHandleByActor` | core/handle.go:149-157 | looks up by actor |
| `Handles.HandleManager.GetHandleByName` | core/handle.go:160-168 | looks up by name |
| `Handles.HandleManager.ReleaseHandle` | core/handle.go:171-188 | removes the handle from all tables, or reports that there is none |
| `Routing.EveryRouterRun` | core/advanced_router.go:54-100 | in every run of router operations every handle's actor is in the routing table |
| `Routing.RegisterServiceKeeps` | core/advanced_router.go:66-74 | a successful registration returns a fresh handle bearing the requested name, although allocation may ignore names |
| `Routing.RegisterServiceEffect` | core/advanced_router.go:66-74 | a refused name leaves the handle tables alone; success adds one fresh entry |
| `Routing.RegisterServiceOutcome` | core/advanced_router.go:66-74 | which registrations are refused and with which error |
| `Routing.UnregisterKeeps` | core/advanced_router.go:77-84 | unregistering succeeds exactly for a routed actor and leaves neither actor nor handle |
| `Routing.UnregisterEffect` | core/advanced_router.go:77-84 | what unregistering removes from routing and handle tables, and what it leaves |
| `Routing.UnregisterServiceIsWhole` | core/advanced_router.go:87-100 | removes actor, handle and name together, or finds nothing and changes nothing |
| `Routing.BoundNameIsRoutable` | core/advanced_router.go:126-147 | after any run a message to a bound name reaches the actor holding the name |
| `Routing.UnboundNameIsRefused` | core/advanced_router.go:126-147 | after any run a message is refused exactly for an unbound source or target name, with the error that says which |
| `Routing.RegisterInTwoSteps` | core/advanced_router.go:66-74 | whatever operations run between adding the actor and allocating its handle, every handle's actor is routed at the end exactly if the actor still is, or the name was taken meanwhile |
| `Routing.UnregisterInTwoSteps` | core/advanced_router.go:77-84 | whatever runs between releasing the handle and removing the actor, the same holds exactly if the actor was not given a handle again |
| `Routing.UnregisterServiceInTwoSteps` | core/advanced_router.go:87-100 | whatever runs between removing the actor and releasing its handle, it holds at the end |
| `Routing.NothingBetween` | core/advanced_router.go:66-100 | with nothing in between, the halves in these lemmas are the whole operations |
| `Routing.UnregisterBetween` | core/advanced_router.go:66-84 | unregistering an actor in the middle of its own registration leaves a bound name that cannot be routed |
| `ActorSystem.AdvancedRouter.constructor` | core/advanced_router.go:45-51 | an empty router for the node |
| `ActorSystem.AdvancedRouter.NextID` | core/router.go:81-83 | the next actor id, wrapping at 2^32 |
| `ActorSystem.AdvancedRouter.RegisterNamed` | core/advanced_router.go:66-74 | routing table first, then the handle |
| `ActorSystem.AdvancedRouter.Remove` | core/advanced_router.go:77-84 | handle first, then the routing table |
| `ActorSystem.AdvancedRouter.RemoveNamed` | core/advanced_router.go:87-100 | looks up by name, then removes actor and handle |
| `ActorSystem.AdvancedRouter.RouteNamed` | core/advanced_router.go:126-147 | resolves source and target names to actors; a bound name always finds its handle and actor while ids have not wrapped |
| `SystemRuns.EveryRunStaysInStep` | core/system.go:46-144 | in every run, failing calls and empty names included, discovery and the handle name table have the same keys bound to the same handles |
| `SystemRuns.NewActorKeeps` | core/system.go:46-84 | an actor is created exactly unless the system shuts down or the drawn id is in use, each with its error; it is then routable, has a handle and binds no name |
| `SystemRuns.CreationSucceeds` | core/system.go:46-144 | in every run without a shutdown in which fewer than 2^32 ids were drawn, creating an actor succeeds |
| `SystemRuns.NewServiceKeeps` | core/system.go:87-144 | the rollback branch is taken exactly for the empty name and a fresh id; a service is created exactly for a free name and a fresh id, and then discovery and routing gain exactly its entry |
| `SystemRuns.FailedServiceLeaves` | core/system.go:87-144 | a failed NewService leaves routing and handle tables unchanged exactly when shutting down or when the drawn id is already registered; otherwise the actor stays routed, with a handle exactly when the name is empty |
| `SystemRuns.DiscoveryAgreesWithHandles` | core/service_registry.go:266-284 | after any run, discovering a name finds exactly the handle bound to it |
| `ActorSystem.System.constructor` | core/system.go:32-43 | an empty system |
| `ActorSystem.System.AddActor` | core/system.go:46-84 | draws an id and registers a nameless actor, unless shutting down |
| `ActorSystem.System.AddService` | core/system.go:87-144 | registers with router and discovery, with the rollback on refusal |
| `Sessions.EveryChannelOnce` | core/advanced_router.go:195-274 | in every run, also across counter wraps: each channel gets at most one response or one close, and no operation meets a closed or full channel |
| `Sessions.StepKeeps` | core/advanced_router.go:225-254 | every operation keeps live sessions untouched and never panics nor takes the "channel is full" branch |
| `Sessions.ResponseReachesItsSession` | core/advanced_router.go:225-243 | after any run, completing a live id puts the response into that session's open channel and into no other, and the id is then unknown |
| `Sessions.ResponseIsTakenOnce` | core/advanced_router.go:225-243 | after its waiter took the response, a session's channel stays open and empty, whatever happens later |
| `Sessions.ExpiryIsExact` | core/advanced_router.go:261-273 | after any run, expiry closes and forgets exactly the live sessions that have run out |
| `Sessions.SessionLivesUntilTimeout` | core/advanced_router.go:195-274 | in every run a session created at t0 with timeout d and still live survives expiry at now exactly if now - t0 <= d |
| `Sessions.CleanupClosesItsSession` | core/advanced_router.go:246-254 | after any run cleaning up a live id closes that session's channel and no other, and forgets it |
| `Sessions.SessionManager.CreateSession` | core/advanced_router.go:195-213 | stores a fresh session under the next id, even over a live one |
| `Sessions.SessionManager.CompleteSession` | core/advanced_router.go:225-243 | sends the response and forgets the session exactly if it is live; the channel is never closed or full |
| `Sessions.SessionManager.CleanupSession` | core/advanced_router.go:246-254 | closes and forgets the session exactly if it is live, never closing twice |
| `Sessions.SessionManager.CleanupExpired` | core/advanced_router.go:261-273 | closes and forgets exactly the sessions that have run out, in any order |
| `HeaderScanner.UnpackPack` | protocol/protocol.go:207-241 | for every type, session and payload, unpacking a packed message gives the same three values whatever bytes follow the header |
| `HeaderScanner.OnlyPackedUnpacks` | protocol/protocol.go:225-241 | whatever unpacks is a packed message with these values, or prints the type 0 as -0 |
| `HeaderScanner.UnpackErrors` | protocol/protocol.go:225-241 | which error unpacking reports, by the first end and what stands before it |
| `HeaderScanner.StringsHideBraces` | protocol/protocol.go:282-318 | an object with one string ends at its own brace, whatever braces, quotes and backslashes the string holds and whatever follows |
| `HeaderScanner.FindJSONEnd` | protocol/protocol.go:282-318 | the scanning loop returns the first end |
| `HeaderScanner.FirstEnd` | protocol/protocol.go:282-318 | one past the least position where the brace depth outside strings comes back to zero at a closing brace, else -1 |
| `HeaderScanner.ShapeEnds` | protocol/protocol.go:282-318 | a header closes at its last byte and nowhere before |
| `HeaderScanner.HeaderParses` | protocol/protocol.go:235-240 | the printed header parses to the same type and session |
| `HeaderScanner.OnlyPrintedHeadersParse` | protocol/protocol.go:235-240 | a header is read as a type and a session exactly if it is printed so, or prints the type 0 as -0 |
| `HeaderScanner.PackMessage` | protocol/protocol.go:207-222 | copies header and payload one after the other |
| `HeaderScanner.UnpackMessage` | protocol/protocol.go:225-241 | header up to its end, then the rest; errors for no end and for a bad header |
| `LoadBalancer.WeightedIsFair` | core/service_discovery.go:241-299 | from a fresh balancer with fixed metrics and services, after any number of selections the next total-weight selections pick each service exactly its weight times, whether the list is rebuilt or kept |
| `LoadBalancer.PlainIsFair` | core/service_discovery.go:195-203 | round robin counts over any number of consecutive selections differ by at most one |
| `LoadBalancer.PicksAreOfBuiltList` | core/service_discovery.go:241-273 | in every run with metrics and service lists changing at every turn, picks are of the services the list was last built for; they lie in the given list, wherever the walk stands, exactly when those services all do |
| `LoadBalancer.KeptRoundIsFairToLastBuild` | core/service_discovery.go:241-299 | after any turns with metrics and services changing, while the list is kept a round of picks is fair to the metrics of its last build, whatever they are meanwhile |
| `LoadBalancer.TurnsKeepBuilt` | core/service_discovery.go:241-273 | however metrics and services change, the list is the expansion of the services with the metrics of its last build |
| `LoadBalancer.BusyTurnsAdvance` | core/service_discovery.go:241-258 | the walk advances by exactly the selections that had services |
| `LoadBalancer.StalePick` | core/service_discovery.go:246-249 | with unit weights, the second pick over any other list of the same length is one of the first list |
| `LoadBalancer.WeightedPicksWalk` | core/service_discovery.go:241-258 | weighted selections walk the expanded list cyclically |
| `LoadBalancer.FullRound` | core/service_discovery.go:255-256 | a full round from anywhere is a rotation of the list |
| `LoadBalancer.ExpandCounts` | core/service_discovery.go:261-273 | the expanded list holds each service its weight times |
| `LoadBalancer.Weight` | core/service_discovery.go:290-298 | weights lie in 1..100 |
| `LoadBalancer.WeightFollowsMetric` | core/service_discovery.go:290-298 | a weight is its metric inside 1..100, the nearer bound outside, 1 without metrics, and never falls when the metric rises |
| `LoadBalancer.Balancer.PickRoundRobin` | core/service_discovery.go:195-203 | picks at the index modulo the list and advances it |
| `LoadBalancer.Balancer.BuildWeightedServices` | core/service_discovery.go:261-273 | the nested loops build the expansion |
| `LoadBalancer.Balancer.PickWeighted` | core/service_discovery.go:241-258 | rebuilds the list when its length differs, picks and advances |

## Left out

- Sockets, accept loops, deadlines, tickers, goroutine launching and logging: input and output only.
- `network/tcp_connection.go` Send and its queue: a full queue is bypassed, so there is no send order to state.
- Cluster membership and transport (`cluster/node.go`, `cluster/transport.go`): mostly stubs; the transport is the bag of
  sent packets in `RemoteCall`. Fire-and-forget sends and the cluster service registry are not modelled.
- Lifecycle events, health checks and timeouts of services: broadcasting only.
- `Actor.Actor.Start`: taken as one step, called once; the source's check does not prevent a second loop.
- `Actor.Actor.TrySend`: plain sends carry session 0; a plain message that its sender gave a session of its own is not
  modelled.
- Actors with an unbuffered mailbox (the system replaces size 0 by 1000), nil messages, and a caller reusing one message
  object for two calls.
- `system.Call` of `core/system.go`: it enqueues on the source actor, so delivery to the target is not claimed.
- `LoginServer.Connection.ReadLine`: trims ASCII white space only; the lines of the handshake are ASCII.
- `Login.HonestLogin`: assumes one Read per line; `LoginReads` covers all other ways of arriving.
- The login server after the authentication handler: user table and kicking, only map updates.
- `HeaderScanner.UnpackMessage`: reads headers as PackMessage prints them (`ParseHeader`); general JSON (white space,
  other fields, other orders) is not modelled.
- Internals of DES, SHA-1, HMAC and MD5, and random key generation: abstract functions with the laws used.
- `Routing.EveryRouterRun`: operations are single steps here. The source runs each as two steps without a common lock;
  the two-step lemmas let any whole operations run in between, but not several operations interrupted at once.
- `LoadBalancer.Weight`: the floating-point product behind the metric is an input; only the clamp is modelled. Random,
  least-connections and unhealthy-filter branches are left out.
- `LoadBalancer.Balancer.PickRoundRobin`: the index is unbounded, so it stands for fewer than 2^63 selections.
- `LoadBalancer.Balancer.PickWeighted`: the index is unbounded, so it stands for fewer than 2^63 selections.
- Discovery queries by tags, metadata, status or node: read-only filters.
- `RemoteCall.Return`: a remote error text reaches the caller as a format string; the formatting of one that contains a
  percent sign is not modelled.
- Configuration, the dependency container, application bootstrap, msgserver, the connection manager and the remaining
  example programs.
