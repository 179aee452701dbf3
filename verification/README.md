# Verified models of nanopynix and grpclib-transports

A Dafny 4.11 project. It models the parts of the repository whose correctness is hardest to see from one function, and
proves what they promise. `dafny verify dfyconfig.toml` checks all of it.

Code that changes objects step by step is modelled by classes and methods with loops (`LogicalRpcPeer`, `LogCollector`,
`LogOutbox`, `LogCapture`, the parser, the searches, the graph walks, the repair loop). Each method is proved equal to
a specification function or to a stated set, and the theorems are about those functions. Expressions and recursion are
modelled by functions.

## What is modelled

- **Two logical RPC peers** (`Frames`, `RpcPeer`, `RpcSystem`, `RpcTheorems`, `RpcAnswers`, `RpcDelivery`). A peer is a class; each method is one
  stretch of code between two awaits. The system is two peers, two FIFO queues and any interleaving of calls, timeouts,
  abandoned calls, events, cancels, handler completions in any order, cancelled handlers, reader failures and closing.
  The invariant follows each call from its request to its result, once for each direction. What a caller gets is then
  stated by the actions of the run alone: the one that started the call and the completion of its handler. The queues
  carry frames as they are, or through the control codec.
- **The log pipeline** (`LogCollector`, `LogOutbox`, `OutboxWakeup`, `LogCapture`, `LogPipeline`). The collector with
  any number of producer threads, interleaved at every queue and counter operation; the outbox with its two limits and
  its wake-up signal; the recorder of one block; and the whole way from a producer to the client.
- **Attribute paths** (`AttrPath`, `AttrSelect`, `AttrCompletion`, `FlakeCompletion`). The quoted-path parser, selection,
  the search over candidates, and both completions, which are proved to agree with that search.
- **Graph walks and the repair loop** (`Reachability`, `FsClosure`, `Fod`, `FodOrder`, `FodSource`, `Build`). Reachability
  is defined by paths; the walks are loops over sets and stacks; the repair loop runs against an arbitrary environment.
- **Printers, parsers and canonical forms** (`OrderKeys`, `StoreUri`, `NixConf`, `NixErrors`).

`Common`, `Sequences`, `StringOrder` and `Text` hold what these share.

## What the proofs show that the documentation does not say

- A cancel frame acts on the receiver's own calls, not on its handlers (bidi.py:236-239), and both directions count from
  1. So a timeout never stops the remote handler, against the comment at bidi.py:94, and cancels an unrelated call of
  the remote node when one with the same id is open. `CancelledOnlyByTheRemotePeer` bounds the damage,
  `ATimeoutCancelsAnInnocentCall` shows it.
- The control codec cannot tell an absent error from an empty one (control.py:49, 61). A handler that raises without
  text looks to a remote caller like one that returned nothing.
- The collector evicts its oldest item whatever its kind, so a control event can push out a control event
  (logging.py:204-221, against the docstring at logging.py:191-199). `AControlPutCanLoseAControl` says exactly when.
- `LogOutbox.get` is safe for one consumer only.
- The stream stops at the sentinel without a last look at the drop counter (_worker.py:404-411). This is harmless when
  the outbox holds at least two, and loses the last count when it holds one.
- The outbox counts one drop for whatever it discards, so a discarded notice of n lost events hides n - 1 of them
  (logging.py:346-354). Apart from the end of the stream, an event goes missing without trace in no other way.
- After a head whose last component is empty (`.he`, `a..he`) the file completion offers paths that cannot be selected.
- The flake completion writes names without quotation marks. A path with a dotted, quoted or empty name in it is
  offered as a text that does not parse to it (`OfferSpellsItsPath`, `ANameIsSelectedIffPlain`). And a fragment of
  quotation marks alone makes it take the last component of a prefix for the one being typed.
- Whether `is_fixed_output_derivation_in_closure` accepts a reachable fixed-output derivation can depend on the order of
  inputs: exactly when it can be met before every reachable namesake that is not fixed-output (or path that cannot be
  read) and one of those can be met before it. `FodOrder` proves both halves for every store.
- An engine class that the exception table does not name itself is translated by its nearest base locally and arrives
  unclassified through the worker. Refining an exception twice keeps its class, and can change its type name.
- With deriver edges the forward and the flipped walk of `compute_fs_closure` read different tables; they are converse
  exactly when the tables agree in the sense of `FlippingDeriversIsConverse`.
- A store configuration that names its own scheme explicitly does not come back equal to itself.

## Model

| member | source | states |
|---|---|---|
| `RpcAnswers.CallReturnsItsHandlersResult` | grpclib-transports/src/grpclib_transports/bidi.py:89-117 | In every run of two peers over in-process queues, for either side: a call that returned v was started by some action with a method and payload; after that the other side, which has a handler, completed exactly one task under the call's id, on exactly that method and payload, and its handler returned v. Ids are shared by both directions and answers overtake each other |
| `RpcAnswers.CallRaisesItsHandlersError` | grpclib-transports/src/grpclib_transports/bidi.py:203-221 | A remote error is what the handler raised, in its only task for that call, for that method and payload; or it says that the other side has no handler for that method |
| `RpcAnswers.ATaskAnswersItsRequest` | grpclib-transports/src/grpclib_transports/bidi.py:203-221 | Every completed task sends one frame under the id of its request: what the handler did when the request names a method and there is a handler, and else the fixed error of the case |
| `RpcAnswers.WireCallReturnsItsHandlersResult` | grpclib-transports/src/grpclib_transports/bidi.py:183-239 | The same over the control plane: the handler saw the call's method and payload as the wire spells them, and the caller gets the wire's spelling of its result, with the one exception that an error without text is taken for the empty value |
| `RpcAnswers.WireCallRaisesItsHandlersError` | grpclib-transports/src/grpclib_transports/bidi.py:183-239 | Over the control plane a remote error always has a text: what the handler raised, or the fixed error for an empty method or a missing handler |
| `RpcDelivery.ACallIsAnswered` | grpclib-transports/src/grpclib_transports/bidi.py:89-117 | For every method, payload and handler result there is a run over in-process queues in which the call with the one ends with the other, as its value or its remote error |
| `RpcDelivery.ARequestStartsATask` | grpclib-transports/src/grpclib_transports/bidi.py:195-201 | In any state, whatever the queues, a request that arrives becomes one more task, on the frame as it arrived |
| `RpcDelivery.AnAnswerEndsItsCall` | grpclib-transports/src/grpclib_transports/bidi.py:227-234 | In any state a received answer lets the waiting call of its id end with its value or its error |
| `RpcDelivery.OtherFuturesStay` | grpclib-transports/src/grpclib_transports/bidi.py:183-239 | A frame received on an open peer touches no future but that of its own id |
| `RpcDelivery.AnAskedCancelEndsTheCall` | grpclib-transports/src/grpclib_transports/bidi.py:132-135 | Asking to cancel an id, and delivering that, cancels the other side's own open call of the id |
| `RpcDelivery.ATimeoutEndsTheCall` | grpclib-transports/src/grpclib_transports/bidi.py:111-117 | A call that timed out ends timed out, and its cancel cancels the other side's own open call of the id |
| `RpcDelivery.AnAnswerAfterTheTimeoutIsIgnored` | grpclib-transports/src/grpclib_transports/bidi.py:111-117 | An answer that comes after the timeout of its call changes neither its future nor its end |
| `RpcDelivery.EventsWereEmitted` | grpclib-transports/src/grpclib_transports/bidi.py:119-130 | In every run an event on its way to a side was emitted by the other, while open, with its method and payload |
| `RpcDelivery.AnEventGoesToTheHandler` | grpclib-transports/src/grpclib_transports/bidi.py:222-225 | A received event waits for the handler if and only if the peer has one, touches no call, and an open peer goes on to receive |
| `RpcDelivery.AnyUseStartsTheReader` | grpclib-transports/src/grpclib_transports/bidi.py:79-87 | A call, an event or a start leaves an open peer with a reader, and does not disturb one that runs |
| `RpcDelivery.StartingAClosingPeerSettles` | grpclib-transports/src/grpclib_transports/bidi.py:137-181 | Starting a peer that is being closed settles every future it holds |
| `RpcDelivery.ClosingEnds` | grpclib-transports/src/grpclib_transports/bidi.py:137-165 | From any state closing ends with every future settled |
| `RpcTheorems.WireReplyReads` | grpclib-transports/src/grpclib_transports/control.py:37-61 | Which replies read as which outcome after crossing the wire, in both directions |
| `RpcTheorems.AnErrorWithoutTextReturnsAValue` | grpclib-transports/src/grpclib_transports/bidi.py:209-221 | A whole run in which a handler raises with empty text and its caller returns the empty value |
| `RpcTheorems.NobodyWaitsOnAClosedPeer` | grpclib-transports/src/grpclib_transports/bidi.py:137-181 | Once a reader ran its final block or `aclose` finished, in every continuation every pending future is settled, none is added, no outcome and no result changes, every waiting caller can return at once, every caller still sending can return after that, and a new call is refused |
| `RpcTheorems.RunKeepsClosed` | grpclib-transports/src/grpclib_transports/bidi.py:96-97 | A closed and settled peer stays closed and settled over every run, and its table only shrinks |
| `RpcTheorems.StepKeepsOutcomes` | grpclib-transports/src/grpclib_transports/bidi.py:227-253 | No step of any kind changes a settled outcome, a finished call, or anything of the other node's calls |
| `RpcTheorems.NoRequestIsLost` | grpclib-transports/src/grpclib_transports/bidi.py:99-117 | While a call waits unsettled its request is in exactly one place: in the queue, with its handler, answered with the reply still queued, or dropped with a cancelled handler task |
| `RpcTheorems.CancelActsOnTheReceiversOwnCalls` | grpclib-transports/src/grpclib_transports/bidi.py:236-239 | A cancel frame touches no handler task; it changes the receiver exactly when the receiver has its own unsettled call under that id |
| `RpcTheorems.CancelledOnlyByTheRemotePeer` | grpclib-transports/src/grpclib_transports/bidi.py:132-135 | In every run a call ends cancelled only when the remote node timed out on its own call of the same id, or was asked to cancel that id |
| `RpcTheorems.ATimeoutCancelsAnInnocentCall` | grpclib-transports/src/grpclib_transports/bidi.py:94 | A whole run in which one node's timeout cancels the other node's call of the same id while the handler it meant to stop still runs |
| `RpcSystem.StepKeepsInv` | grpclib-transports/src/grpclib_transports/bidi.py:50-253 | Every step of either node keeps the invariant that ties each call to its request, handler task, logged completion, reply and future |
| `RpcSystem.RunKeepsInv` | grpclib-transports/src/grpclib_transports/bidi.py:50-253 | Every run keeps that invariant |
| `RpcSystem.InitHolds` | grpclib-transports/src/grpclib_transports/bidi.py:63-77 | Two fresh peers satisfy it |
| `RpcPeer.LogicalRpcPeer.constructor` | grpclib-transports/src/grpclib_transports/bidi.py:63-77 | A fresh peer: first id 1, empty tables, open |
| `RpcPeer.LogicalRpcPeer.Start` | grpclib-transports/src/grpclib_transports/bidi.py:79-87 | Starting twice starts one reader |
| `RpcPeer.LogicalRpcPeer.BeginCall` | grpclib-transports/src/grpclib_transports/bidi.py:96-110 | Refused on a closed peer without any change; else a fresh id, its pending future and its request frame, in one step |
| `RpcPeer.LogicalRpcPeer.EndCall` | grpclib-transports/src/grpclib_transports/bidi.py:116-117 | The future of the call leaves the table, nothing else moves |
| `RpcPeer.LogicalRpcPeer.SendCancel` | grpclib-transports/src/grpclib_transports/bidi.py:132-135 | A cancel frame unless the peer is closed |
| `RpcPeer.LogicalRpcPeer.CompleteResponse` | grpclib-transports/src/grpclib_transports/bidi.py:227-234 | Settles the future once: unknown and settled ids are ignored |
| `RpcPeer.LogicalRpcPeer.CancelPending` | grpclib-transports/src/grpclib_transports/bidi.py:236-239 | Cancels an unsettled future of this peer's own table |
| `RpcPeer.LogicalRpcPeer.FailPending` | grpclib-transports/src/grpclib_transports/bidi.py:250-253 | Whatever order the table is visited in, exactly the unsettled futures get the outcome |
| `RpcPeer.LogicalRpcPeer.HandleFrame` | grpclib-transports/src/grpclib_transports/bidi.py:183-193 | What each kind of frame does to the peer and to the reader |
| `RpcPeer.LogicalRpcPeer.EndReader` | grpclib-transports/src/grpclib_transports/bidi.py:174-181 | The peer ends closed with every future settled, by the failure if there was one |
| `RpcPeer.LogicalRpcPeer.ReceiveLoop` | grpclib-transports/src/grpclib_transports/bidi.py:167-181 | An uninterrupted reader does what handling the frames in turn does, and leaves the peer closed and settled |
| `RpcPeer.LogicalRpcPeer.BeginClose` | grpclib-transports/src/grpclib_transports/bidi.py:144-145 | Closing marks the peer before it waits for tasks |
| `RpcPeer.LogicalRpcPeer.FinishClose` | grpclib-transports/src/grpclib_transports/bidi.py:165 | After the wait every future is settled |
| `RpcPeer.FailAllSettles` | grpclib-transports/src/grpclib_transports/bidi.py:250-253 | Failing a table settles all of it, keeps settled outcomes, adds nothing, and does nothing the second time |
| `Frames.EncodeAfterDecode` | grpclib-transports/src/grpclib_transports/control.py:37-61 | Encoding undoes decoding on every control frame that decodes, and exactly the four kinds decode |
| `Frames.FieldsKeepTheirNames` | grpclib-transports/src/grpclib_transports/control.py:37-61 | Each field of a frame is encoded into the field of its own name, absent ones as empty, each kind under its own name, and only object payloads are refused |
| `Frames.DecodeAfterEncode` | grpclib-transports/src/grpclib_transports/control.py:37-61 | A frame crosses the wire unchanged if and only if its payload is bytes and neither method nor error is the empty text |
| `Frames.WireNormalises` | grpclib-transports/src/grpclib_transports/control.py:37-61 | What any frame becomes on the wire, when it arrives at all, and that a second crossing changes nothing |
| `Frames.KindNamesRoundTrip` | grpclib-transports/src/grpclib_transports/control.py:53-57 | The kinds and their names are in one-to-one correspondence |
| `LogCollector.EveryEventIsAccountedFor` | nanopynix/src/nanopynix/logging.py:157-249 | Over every interleaving of any number of producers with the consumer: the queue keeps its bound, announced and unannounced drops add up, the consumer gets what was accepted in order without the evicted items, and at quiescence every event was consumed, is queued or is counted |
| `LogCollector.NextKeepsAccount` | nanopynix/src/nanopynix/logging.py:181-249 | Every single operation of a thread or the consumer keeps the account |
| `LogCollector.UninterruptedPutIsTheMethod` | nanopynix/src/nanopynix/logging.py:181-221 | A put that no other thread interrupts ends, and does to the queue and the counters exactly what the methods do: the interleaved machine is those methods cut into atomic operations |
| `LogCollector.OnlyLinesAreRefused` | nanopynix/src/nanopynix/logging.py:181-221 | At a full queue an uninterrupted put of a log line leaves the queue as it is; a finalize marker or the sentinel takes the place that the oldest event leaves |
| `LogCollector.AControlPutCanLoseAControl` | nanopynix/src/nanopynix/logging.py:204-221 | A control put loses a control event exactly when the queue is full and its oldest item is one |
| `LogCollector.LogCollector.constructor` | nanopynix/src/nanopynix/logging.py:146-155 | An empty collector |
| `LogCollector.LogCollector.PutLog` | nanopynix/src/nanopynix/logging.py:181-189 | A log line that does not fit is counted; nothing queued moves |
| `LogCollector.LogCollector.PutControl` | nanopynix/src/nanopynix/logging.py:191-221 | The exact queue and counters after a control put, with and without a rival producer in the freed slot |
| `LogCollector.LogCollector.RecordDrop` | nanopynix/src/nanopynix/logging.py:223-228 | Both drop counters move together |
| `LogCollector.LogCollector.TakeDropped` | nanopynix/src/nanopynix/logging.py:239-249 | Gives the unannounced drops and resets them, and nothing else |
| `LogCollector.LogCollector.Drain` | nanopynix/src/nanopynix/logging.py:267-275 | Everything queued, in order, and an empty queue |
| `LogOutbox.NothingIsLostUncounted` | nanopynix/src/nanopynix/logging.py:315-401 | Over every run of puts, gets and counter reads: both limits hold, put = handed out + held + dropped, drops = announced + waiting, and what comes out is what was put, in order |
| `LogOutbox.ControlsSurviveBelowTheCeiling` | nanopynix/src/nanopynix/logging.py:315-368 | Every control event survives, in order, if and only if none was put into a buffer already holding the ceiling of control events |
| `LogOutbox.PutKeepsLimits` | nanopynix/src/nanopynix/logging.py:346-368 | Each put removes at most one item, keeps the limits, and removes a control event exactly at the ceiling |
| `LogOutbox.TheNewestAreHeld` | nanopynix/src/nanopynix/logging.py:346-368 | Over every run the log lines held are the last ones put, and so are the control events held: whatever was discarded or handed out was put before all that is held of its kind |
| `LogOutbox.RoomOrOldestLine` | nanopynix/src/nanopynix/logging.py:346-368 | While there is room a put only appends; when there is none and the buffer with the new event holds a line, exactly its oldest line goes |
| `LogOutbox.AFullBufferOfLinesShifts` | nanopynix/src/nanopynix/logging.py:346-368 | In a run, a put into a full buffer of log lines leaves all but the first and then the new event |
| `LogOutbox.LogOutbox.constructor` | nanopynix/src/nanopynix/logging.py:337-344 | An empty outbox with an unraised signal |
| `LogOutbox.LogOutbox.Put` | nanopynix/src/nanopynix/logging.py:346-354 | The two loops leave the new event appended while there is room, and without the oldest line, wherever it stands, when there is none; what went is counted, and the signal held is raised |
| `LogOutbox.LogOutbox.DiscardOldestLog` | nanopynix/src/nanopynix/logging.py:356-368 | Removes exactly the oldest log line, if there is one |
| `LogOutbox.LogOutbox.RecordDrop` | nanopynix/src/nanopynix/logging.py:370-372 | Both drop counters move together |
| `LogOutbox.LogOutbox.TakeDropped` | nanopynix/src/nanopynix/logging.py:382-390 | Gives the unannounced drops and resets them |
| `LogOutbox.LogOutbox.TryGet` | nanopynix/src/nanopynix/logging.py:396-401 | The oldest item, or none when the consumer has to wait |
| `LogOutbox.LogOutbox.Rearm` | nanopynix/src/nanopynix/logging.py:398-400 | Waking replaces the signal by a new, unraised one |
| `OutboxWakeup.TheConsumerIsNeverStuck` | nanopynix/src/nanopynix/logging.py:396-401 | In every interleaving of puts with one consumer, abandoned waits included: a consumer that waits while something is held can wake, and then gets the oldest item |
| `OutboxWakeup.AnEmptyWakeUpHappensOnce` | nanopynix/src/nanopynix/logging.py:396-401 | In every run with one consumer, a wake-up that finds nothing is followed by a wait that only a put ends |
| `OutboxWakeup.AnAbandonedWaitStartsOver` | nanopynix/src/nanopynix/logging.py:396-401 | A consumer that gave up waiting gets the oldest item like any other when it comes back |
| `OutboxWakeup.MoreConsumersCanBeStuck` | nanopynix/src/nanopynix/logging.py:396-401 | With any number of consumers from two on there is a run in which one waits for a replaced signal while an item is held |
| `LogPipeline.EveryLossIsAnnounced` | nanopynix/src/nanopynix/rpc/worker/_worker.py:575-626 | Over every interleaving of producers, relay and stream: every event offered was delivered, announced to the client, is on its way, or is missing; nothing is missing if and only if the outbox discarded no notice of two or more; what a closed stream left unannounced is nothing if the outbox holds at least two |
| `LogPipeline.ADiscardedNoticeIsASilentLoss` | nanopynix/src/nanopynix/logging.py:346-354 | A run in which four markers push a notice of two lost lines out of an outbox of one, and one event goes missing |
| `LogPipeline.MissingIsNotices` | nanopynix/src/nanopynix/logging.py:370-372 | Discarding counts one whatever the event stands for, so exactly the notices of two or more leave something uncounted |
| `LogPipeline.AnOutboxOfOneEndsWithASilentLoss` | nanopynix/src/nanopynix/rpc/worker/_worker.py:401-411 | With an outbox of one there is a run whose last loss is never announced |
| `LogPipeline.DeliveryKeepsOrder` | nanopynix/src/nanopynix/rpc/worker/_worker.py:575-626 | The client gets lines and markers in the order the collector accepted them, with lost ones left out |
| `LogPipeline.NoticesComeFirst` | nanopynix/src/nanopynix/rpc/worker/_worker.py:575-626 | The relay puts the notice of the collector's losses before the event it forwards, with its line, its id or as the sentinel; the stream sends the notice of the outbox's losses before the event it sends |
| `LogCapture.LogCapture.constructor` | nanopynix/src/nanopynix/logging.py:597-622 | An empty capture |
| `LogCapture.LogCapture.Append` | nanopynix/src/nanopynix/logging.py:696-712 | After every delivery the capture is, in every respect, the same function of all that was delivered and registered: the last events, the truncation flag, the losses, the finished ids, the raised waiters |
| `LogCapture.LogCapture.Enter` | nanopynix/src/nanopynix/logging.py:714-718 | Entering the block activates the capture and records nothing |
| `LogCapture.LogCapture.Leave` | nanopynix/src/nanopynix/logging.py:720-721 | Leaving it deactivates the capture and keeps what is recorded |
| `LogCapture.LogCapture.RegisterRequest` | nanopynix/src/nanopynix/logging.py:648-658 | Registering, before or after the marker, keeps that relation; outside the block it does nothing |
| `LogCapture.LogCapture.Unfinalized` | nanopynix/src/nanopynix/logging.py:643-646 | The registered ids minus the marked ones |
| `LogCapture.LogCapture.MustBlock` | nanopynix/src/nanopynix/logging.py:660-675 | A wait blocks if and only if the marker was not delivered, whichever came first |
| `LogCapture.LogCapture.CheckRegistered` | nanopynix/src/nanopynix/logging.py:677-679 | Exactly the registered ids may be waited for |
| `LogCapture.MarkedIsDelivered` | nanopynix/src/nanopynix/logging.py:704-708 | An id is finished exactly when its marker was delivered |
| `LogCapture.TheEndIsKept` | nanopynix/src/nanopynix/logging.py:596-622 | What is kept is the end of what was seen: all of it, or as many of the last as the limit says |
| `LogCapture.LogEventsAreRecorded` | nanopynix/src/nanopynix/logging.py:701-704 | Exactly the log events among the deliveries are recorded |
| `LogCapture.LossesAddUp` | nanopynix/src/nanopynix/logging.py:709-710 | The losses are the sum of the counts of the delivered notices, and of nothing else |
| `AttrPath.ParseAttrPath` | nanopynix-helpers/src/nanopynix_helpers/eval_target.py:38-74 | The index loop computes the recursive reading of the path language |
| `AttrPath.ParseFailsOnOddQuotes` | nanopynix-helpers/src/nanopynix_helpers/eval_target.py:38-74 | A path is refused if and only if it holds an odd number of quotation marks |
| `AttrPath.SpellingRoundTrips` | nanopynix-helpers/src/nanopynix_helpers/eval_target.py:38-74 | A component list is recovered from its quoted, dot-joined spelling if and only if no component holds a quotation mark and the last is not empty |
| `AttrPath.JoinRoundTrips` | nanopynix-helpers/src/nanopynix_helpers/eval_target.py:38-74 | A component list is recovered from its unquoted, dot-joined text if and only if no component holds a separator or a quotation mark and the last is not empty |
| `AttrPath.PlainNamesSpellThemselves` | nanopynix-helpers/src/nanopynix_helpers/eval_target.py:38-74 | A name parses to itself alone if and only if it is not empty and has no separator and no quotation mark |
| `AttrPath.ParseAfterSeparator` | nanopynix-helpers/src/nanopynix_helpers/eval_target.py:38-74 | Parsing distributes over a separator that follows any balanced text |
| `AttrSelect.SelectAttrPath` | nanopynix-helpers/src/nanopynix_helpers/eval_target.py:96-119 | The loop over the components computes the walk down the value, with the depth and the names at its failure |
| `AttrSelect.SelectOneMore` | nanopynix-helpers/src/nanopynix_helpers/eval_target.py:96-119 | One more component resolves exactly when it is a non-empty name of what the rest resolves to |
| `AttrSelect.MissingIsExact` | nanopynix-helpers/src/nanopynix_helpers/eval_target.py:96-119 | A path that does not resolve reports how many components did, and the names that were there instead of the next one |
| `AttrSelect.SelectFlakeAttr` | nanopynix-helpers/src/nanopynix_helpers/eval_target.py:193-221 | The loop over the candidates computes the search |
| `AttrSelect.SearchTakesTheFirst` | nanopynix-helpers/src/nanopynix_helpers/eval_target.py:199-221 | The search ends at the first candidate that resolves or cannot be parsed, and finds nothing exactly when every one parses and none resolves |
| `AttrSelect.PrefixesComeFirst` | nanopynix-helpers/src/nanopynix_helpers/eval_target.py:175-221 | A fragment without a leading dot is tried after each prefix in turn and bare last: the first text that resolves or cannot be parsed decides, and when none does nothing is provided |
| `AttrSelect.TheFirstPrefixWins` | nanopynix-helpers/src/nanopynix_helpers/eval_target.py:175-221 | When every prefixed text parses, the answer is the value under the k-th prefix if and only if that is the first prefix whose path resolves |
| `AttrSelect.TheBareFragmentIsLast` | nanopynix-helpers/src/nanopynix_helpers/eval_target.py:175-221 | And it is the bare fragment if and only if no prefixed path resolves and it does |
| `AttrSelect.ADotClearsThePrefixes` | nanopynix-helpers/src/nanopynix_helpers/eval_target.py:175-221 | After a leading dot only the rest of the fragment is tried |
| `AttrSelect.TheFirstDefaultWins` | nanopynix-helpers/src/nanopynix_helpers/eval_target.py:175-221 | An empty fragment stands for the defaults in their order, and for the whole flake without any |
| `AttrSelect.SearchResolves` | nanopynix-helpers/src/nanopynix_helpers/eval_target.py:199-221 | When every candidate parses, the search resolves if and only if one of them does |
| `AttrSelect.FailureReportsTheFurthest` | nanopynix-helpers/src/nanopynix_helpers/eval_target.py:205-221 | A failed search reports the names where the first of the deepest failures stopped |
| `AttrCompletion.FileCandidatesAreExact` | nanopynix-helpers/src/nanopynix_helpers/attr_completion.py:64-88 | The file rule fails exactly on a head that does not parse, and otherwise offers, sorted, exactly the head with each matching name |
| `AttrCompletion.BareCandidatesAreExact` | nanopynix-helpers/src/nanopynix_helpers/attr_completion.py:80-88 | Before the first separator it offers exactly the matching names of the root |
| `AttrCompletion.FileCandidateParses` | nanopynix-helpers/src/nanopynix_helpers/attr_completion.py:80-88 | A candidate parses to the components of the head and the name if and only if the last head component is not empty and the name is plain, or both are empty |
| `AttrCompletion.FileCandidateResolves` | nanopynix-helpers/src/nanopynix_helpers/attr_completion.py:80-88 | A candidate made from a plain name can be selected if and only if the last head component is not empty |
| `AttrCompletion.OffersOf` | nanopynix-helpers/src/nanopynix_helpers/attr_completion.py:138-151 | One root's offers |
| `AttrCompletion.DefaultResolves` | nanopynix-helpers/src/nanopynix_helpers/attr_completion.py:153-160 | The loop over the defaults stops at the first that resolves or cannot be parsed |
| `AttrCompletion.CompleteFlakeFragment` | nanopynix-helpers/src/nanopynix_helpers/attr_completion.py:108-164 | The loops compute the union over the roots, and the empty fragment's own offer |
| `FlakeCompletion.CompletionIsExact` | nanopynix-helpers/src/nanopynix_helpers/attr_completion.py:108-164 | On every value and for every fragment that parses, unless it is quotation marks alone where the command has a prefix: offered are exactly the paths under a prefix of the command or the top (after a leading dot only the top) that extend the fragment within the component being typed, whatever their names, and a fragment that types nothing itself when the first default that resolves comes before any that cannot be parsed |
| `FlakeCompletion.SplitIsTyped` | nanopynix-helpers/src/nanopynix_helpers/attr_completion.py:91-105 | A text that ends in a separator, or holds no component, types an empty one after all of its own; any other types its last one |
| `FlakeCompletion.CompletionParses` | nanopynix-helpers/src/nanopynix_helpers/attr_completion.py:138-140 | A fragment that does not parse is never answered |
| `FlakeCompletion.FragmentSplits` | nanopynix-helpers/src/nanopynix_helpers/attr_completion.py:130-135 | The fragments that split under the roots: all but quotation marks alone where the command has a prefix |
| `FlakeCompletion.OfferSpellsItsPath` | nanopynix-helpers/src/nanopynix_helpers/attr_completion.py:148-151 | What the search makes of an offer and its root parses to the path offered if and only if every component after the root is a plain name |
| `FlakeCompletion.PlainOfferResolves` | nanopynix-helpers/src/nanopynix_helpers/attr_completion.py:108-164 | Every offered path of plain names, and the empty fragment when it is offered, resolves through the search of the same command, leading dots included |
| `FlakeCompletion.EveryOfferResolves` | nanopynix-helpers/src/nanopynix_helpers/attr_completion.py:108-164 | When the paths offered are of plain names, whatever else the flake holds, every offered fragment resolves |
| `FlakeCompletion.ANameIsSelectedIffPlain` | nanopynix-helpers/src/nanopynix_helpers/attr_completion.py:148-151 | For every name, plain or not: the flake whose only output it is offers it, and the search takes the offer to that output if and only if the name is plain |
| `FlakeCompletion.QuotesAloneMisleadCompletion` | nanopynix-helpers/src/nanopynix_helpers/attr_completion.py:91-105 | For every fragment of quotation marks alone that parses there is a flake and a search that refuses what is offered |
| `FlakeCompletion.SplitAfterPrefix` | nanopynix-helpers/src/nanopynix_helpers/attr_completion.py:91-105 | Under a prefix the fragment splits as it does alone, exactly unless there is a prefix and the fragment is quotation marks alone |
| `FlakeCompletion.ParseAfterPrefix` | nanopynix-helpers/src/nanopynix_helpers/eval_target.py:38-74 | After a balanced prefix that ends in a separator a text parses to both component lists in a row |
| `FsClosure.ComputeFsClosure` | tmp/fs_closure.py:56-109 | On every database the walk terminates with exactly the paths to which a chain of linked paths leads from a start, where a link is read off the rows: a reference, an output or a recorded deriver, as the call asks, or the reverse of a reference or an output when flipped |
| `FsClosure.QueriesReadTheRows` | tmp/fs_closure.py:23-54 | What each of the five queries asks for, in terms of the rows of the three tables |
| `FsClosure.ReachableIsChained` | tmp/fs_closure.py:56-109 | A path is reachable under the queries of a call if and only if such a chain leads to it |
| `FsClosure.Walk` | tmp/fs_closure.py:96-109 | The breadth-first walk over any edge functions within a finite set of paths, in any visiting order, gives exactly what is reachable |
| `FsClosure.Round` | tmp/fs_closure.py:99-107 | One round expands every frontier path, in any order, and adds exactly the new neighbours |
| `FsClosure.Expand` | tmp/fs_closure.py:102-106 | The edges of one path add exactly their union to the closure and what is new of it to the next frontier |
| `FsClosure.FlippingIsConverse` | tmp/fs_closure.py:79-92 | For reference edges, with or without output edges: y is in the closure of x if and only if x is in the flipped closure of y |
| `FsClosure.FlippingDeriversIsConverse` | tmp/fs_closure.py:79-92 | With deriver edges the closures are converse if and only if every recorded deriver leads to its path in the flipped graph and every output to its derivation in the plain one |
| `FsClosure.ConfirmedDeriversAreConverse` | tmp/fs_closure.py:79-92 | That is so wherever, row by row, a path records a deriver exactly when the outputs table lists it for that derivation |
| `FsClosure.DeriversAreNotConverse` | tmp/fs_closure.py:83-92 | It is not so in general: a database, a path in the closure, and no way back |
| `Reachability.ConverseIsEdgewise` | tmp/fs_closure.py:79-109 | Reachability in two graphs is converse if and only if each edge of either has a path back in the other |
| `Reachability.ClosedHoldsReachable` | tmp/fs_closure.py:96-109 | A set that holds the starts and its own neighbours holds everything reachable |
| `Fod.FixedOutputDerivations` | nanopynix-helpers/src/nanopynix_helpers/fod.py:160-180 | On every store, with sharing and cycles, the walk terminates with exactly the fixed-output derivations of the closure; it fails exactly when the closure cannot be read |
| `Fod.IsFixedInClosure` | nanopynix-helpers/src/nanopynix_helpers/fod.py:220-244 | The walk with its early exits gives the answer below |
| `Fod.AnswersAreRight` | nanopynix-helpers/src/nanopynix_helpers/fod.py:220-244 | Whatever the order of inputs: for an unreachable candidate yes means exactly one reachable namesake, and fixed-output; a reachable candidate is accepted only if fixed-output, and always if it and all reachable namesakes are |
| `FodOrder.AcceptedInEveryOrder` | nanopynix-helpers/src/nanopynix_helpers/fod.py:228-244 | A fixed-output candidate of the closure is accepted in every order of inputs if and only if no path of inputs leads from the root, without meeting it, to a path that cannot be read or to a namesake that is not fixed-output |
| `FodOrder.AcceptedInSomeOrder` | nanopynix-helpers/src/nanopynix_helpers/fod.py:228-244 | It is accepted in some order if and only if a path of inputs leads from the root to it that meets none of these before |
| `FodOrder.TheOrderDecides` | nanopynix-helpers/src/nanopynix_helpers/fod.py:228-244 | So the order of inputs decides exactly when there is a path of each kind |
| `Fod.AcceptedMismatchBelongs` | nanopynix-helpers/src/nanopynix_helpers/fod.py:197-217 | An accepted mismatch names no derivation, or the target is fixed-output, or it names one of its fixed-output inputs or the only bearer of a name; the first two are always accepted, and a derivation named without a target, or for a target that cannot be read, never is |
| `Fod.NameOfDrvPath` | nanopynix-helpers/src/nanopynix_helpers/fod.py:247-255 | The name of a derivation is recovered from every store path made of directory, hash and name |
| `Fod.NameIsBetweenDashAndSuffix` | nanopynix-helpers/src/nanopynix_helpers/fod.py:247-255 | A path has a name if and only if its last component is a text without a dash, a dash, the name and `.drv` |
| `FodSource.FindsTheUnambiguous` | nanopynix-helpers/src/nanopynix_helpers/fod.py:130-149 | A literal is found if and only if one is unambiguous, by value, then by name, then by being alone, and it is that one; else the error tells no candidates from several |
| `FodSource.ReplacementIsLocal` | nanopynix-helpers/src/nanopynix_helpers/fod.py:152-157 | For every literal in the source: a replacement is refused exactly for an unsafe hash; otherwise the quoted hash stands where the literal started and everything before and after is unchanged, so that putting the text of a quoted literal back restores the source |
| `FodSource.ExtractUnique` | nanopynix-helpers/src/nanopynix_helpers/fod.py:111-127 | The grouping loops give the first mismatch exactly when no derivation is reported with two different ones |
| `FodSource.UniformGroup` | nanopynix-helpers/src/nanopynix_helpers/fod.py:121-125 | Whether all items of a group are the first |
| `Build.BuildWithFodUpdate` | nanopynix-helpers/src/nanopynix_helpers/build.py:65-124 | The loop runs the attempts and edits of the specification run |
| `Build.OneAttempt` | nanopynix-helpers/src/nanopynix_helpers/build.py:67-118 | One pass of the loop body decides what the specification decides |
| `Build.MismatchIsTargetFod` | nanopynix-helpers/src/nanopynix_helpers/fod.py:197-217 | Whether a mismatch is one of the target |
| `Build.BuildIsBoundedAndJustified` | nanopynix-helpers/src/nanopynix_helpers/build.py:42-124 | Against every environment: at most max_updates writes and one attempt more, every reported update justified by the attempt before it, every reported one written unless in a dry run and none in one, and the returned count is that of the reports |
| `Build.RepairableIsRepaired` | nanopynix-helpers/src/nanopynix_helpers/build.py:65-124 | When the first n attempts fail with a repairable mismatch and the next one builds, the call ends with what it built after n updates if so many are allowed, and otherwise with the limit error and all of them used up |
| `Build.ADryRunReportsOneEdit` | nanopynix-helpers/src/nanopynix_helpers/build.py:109-122 | A dry run stops at its first repairable mismatch with one justified update reported, none written and no outputs |
| `Build.UnrepairedAttemptsEnd` | nanopynix-helpers/src/nanopynix_helpers/build.py:71-93 | A build ends the call with its outputs; another error is passed on; a build failure is passed on if and only if updates are off or no mismatch is reported |
| `Build.RefusedMismatchesEnd` | nanopynix-helpers/src/nanopynix_helpers/build.py:94-117 | A mismatch outside the target, or without source file, update left, readable source, safe hash or unambiguous literal, ends the call with an error and never with an edit |
| `Build.TheFirstReasonIsGiven` | nanopynix-helpers/src/nanopynix_helpers/build.py:94-117 | Of several reasons for refusing the first in the order of the checks is given |
| `Build.MismatchIsReported` | nanopynix-helpers/src/nanopynix_helpers/build.py:83-89 | The mismatch is the one of the error itself, and only without one the first of the log, when no derivation is logged with two different ones |
| `Build.AppliedIsJustified` | nanopynix-helpers/src/nanopynix_helpers/build.py:81-118 | An edit follows only a failed build whose mismatch belongs to the target, and replaces the unambiguous literal by the hash that was got |
| `OrderKeys.OrderIsCanonical` | ci/render.py:75-111 | Two documents are ordered into the same tree if and only if they are equal up to mapping order at every depth; ordering again changes nothing; the ordered documents are exactly the fixed points |
| `OrderKeys.OrderKeepsMeaning` | ci/render.py:75-111 | The result denotes the same document |
| `OrderKeys.OrderIsInKeyOrder` | ci/render.py:75-111 | At every depth the result lists keys by rank, then by name |
| `OrderKeys.KeyOrderIsUnique` | ci/render.py:75-111 | Documents in that order are equal as soon as they denote the same |
| `OrderKeys.ListedKeysComeFirst` | ci/render.py:50-72 | Each listed key has its place and comes before every key that is not listed |
| `StringOrder.SortedSetIsSorted` | ci/render.py:104-107 | Sorting gives a strictly increasing list of the same names |
| `StringOrder.LessIsByFirstDifference` | ci/render.py:104-107 | One name comes before another if and only if it is a proper prefix of it or has the smaller character at the first difference |
| `StringOrder.IncreasingIsUnique` | ci/render.py:104-107 | Only one strictly increasing list holds a set of names |
| `StoreUri.UnquoteOfQuote` | nanopynix/src/nanopynix/stores.py:80-95 | Percent-decoding undoes percent-encoding on every text, for any safe set without the percent sign |
| `StoreUri.QuoteHidesDelimiters` | nanopynix/src/nanopynix/stores.py:80-95 | No delimiter outside the safe set is left in an escaped text |
| `StoreUri.RawUriReadsBack` | nanopynix/src/nanopynix/stores.py:222-237 | For every authority, every scheme without : and ?, and every parameter map whose keys hold no & and no =, the raw URI splits back, at the first ?, each & and each first =, into exactly these |
| `StoreUri.ReadableUri` | nanopynix/src/nanopynix/stores.py:222-237 | The literal URI of parts that need no escape: scheme, `://`, authority, and after `?` the pair |
| `StoreUri.TwoReadablePairs` | nanopynix/src/nanopynix/stores.py:222-225 | Two pairs stand in the order of their keys with `&` between |
| `StoreUri.EscapesAreUpperCase` | nanopynix/src/nanopynix/stores.py:80-95 | Escapes are two upper-case hexadecimal digits |
| `StoreUri.RenderingIsInjective` | nanopynix/src/nanopynix/stores.py:222-237 | Two raw URIs are equal if and only if scheme, authority and parameter map are |
| `StoreUri.RenderingIgnoresOrder` | nanopynix/src/nanopynix/stores.py:222-225 | The order in which parameters were set does not show |
| `StoreUri.FieldsRoundTrip` | nanopynix/src/nanopynix/stores.py:586-602 | A configuration comes back with equal fields if and only if it does not name its own or an empty scheme and does not set an optional authority to the empty text |
| `NixConf.ListRoundTrips` | nanopynix/src/nanopynix/settings.py:317-326 | A list comes back from its text if and only if its items are not empty and hold no blank |
| `NixConf.DictRoundTrips` | nanopynix/src/nanopynix/settings.py:317-333 | A dict comes back from its text if and only if its keys and values hold no blank and its keys no = |
| `NixConf.ParseDict` | nanopynix/src/nanopynix/settings.py:325-333 | The loop reads the pairs, a later key over an earlier one, and refuses a word without = |
| `NixConf.ReadOneLine` | nanopynix/src/nanopynix/settings.py:1266-1272 | One line is skipped, refused or split at its first = and stripped |
| `NixConf.ParseNixConf` | nanopynix/src/nanopynix/settings.py:1263-1273 | The loop over the lines computes the reading of the file, with its one error |
| `NixConf.IterSetIsExact` | nanopynix/src/nanopynix/settings.py:376-390 | Rendering fails exactly on a set field this Nix version does not know; otherwise the entries are those of the written fields, in their order, under their keys, each spelled as its value asks: true or false, the text, the items, the pairs |
| `NixConf.RenderSpells` | nanopynix/src/nanopynix/settings.py:1276-1282 | A value is rendered as the only text that spells it |
| `NixConf.EntriesAreDistinct` | nanopynix/src/nanopynix/settings.py:376-390 | Distinct fields give distinct keys |
| `NixConf.AFileIsItsLines` | nanopynix/src/nanopynix/settings.py:392-394 | The file is one line `key = value` for each entry |
| `NixConf.ALineIsRead` | nanopynix/src/nanopynix/settings.py:1266-1272 | A blank or comment line is skipped, one without = is refused, and any other is split at its first = into a stripped key and value |
| `NixConf.AFileIsRead` | nanopynix/src/nanopynix/settings.py:1263-1273 | A file is refused if and only if a line is; otherwise a setting is read if and only if a line sets it, with the value of the last one that does |
| `NixConf.AWordIsAPair` | nanopynix/src/nanopynix/settings.py:325-333 | A word of a dict is refused without = and else split at its first |
| `NixConf.ADictIsRead` | nanopynix/src/nanopynix/settings.py:325-333 | A dict is refused if and only if a word is; otherwise a key has the value of the last pair for it |
| `NixConf.FileRoundTrips` | nanopynix/src/nanopynix/settings.py:392-394 | Reading the rendered text recovers the key/value map if and only if no key or value holds a line break or an outer blank and no key holds = or starts with # |
| `NixConf.SettingsRoundTrip` | nanopynix/src/nanopynix/settings.py:376-394 | For every field list with distinct keys: reading the file gives exactly the written fields, each with its own value (true for true and false for false, the text itself, the list or dict), if and only if their keys and values are clean |
| `NixErrors.RoutesAgree` | nanopynix/src/nanopynix/exceptions.py:772-804 | Local translation, the typed identity and the message prefix give the same class, type and message if and only if the table names the exception's own class |
| `NixErrors.TheNearestBaseDecides` | nanopynix/src/nanopynix/exceptions.py:772-804 | An engine exception is translated by the first of its class and bases that the table names, with its own message, narrowed at most; without one it is not translated |
| `NixErrors.TheBestInformationWins` | nanopynix/src/nanopynix/exceptions.py:881-904 | The type told by the caller comes before a prefix of the message and a known prefix before the patterns; exactly a known prefix that is used comes off the message |
| `NixErrors.OnlyAllowedClassesCross` | nanopynix/src/nanopynix/exceptions.py:984-1021 | A class outside the family is raised if and only if the worker named it and it is allowed as such, and no known Nix type came with it; without a usable identity the message alone tells |
| `NixErrors.RefinementOnlyNarrows` | nanopynix/src/nanopynix/exceptions.py:721-738 | The class is always the base or a subclass of it, and which of the two |
| `NixErrors.RefiningAgain` | nanopynix/src/nanopynix/exceptions.py:721-738 | Refining again changes no class, and exactly when it changes the error type name |
| `NixErrors.RefiningCanRename` | nanopynix/src/nanopynix/exceptions.py:632-635 | The pattern for a failed coercion names the type differently from its class, so refining again changes the type name |
| `NixErrors.AllowedClassesSurvive` | nanopynix/src/nanopynix/exceptions.py:984-1021 | An allowed class survives the wire with its own message, narrowed at most |
| `NixErrors.StatusMessageSplits` | nanopynix/src/nanopynix/exceptions.py:807-820 | The prefix comes off a status message exactly when its name is known |
| `NixErrors.SubclassIsAnOrder` | nanopynix/src/nanopynix/exceptions.py:77-392 | The class hierarchy is a partial order |
| `NixErrors.SubclassFollowsBases` | nanopynix/src/nanopynix/exceptions.py:77-392 | A class is a subclass of itself, of what its declared bases are subclasses of, and of nothing else |

## Left out

- RpcSystem.StepKeepsInv: sends do not fail and payloads that the codec refuses stay at the head of the queue until the reader stops, because the queues of control.py:210-213 are unbounded and the transport below them is not part of this model.
- RpcPeer.LogicalRpcPeer.ReceiveLoop: covers a reader that no other task interrupts; the interleaved reader is the `Receive`, `EventDone` and `ReaderStop` steps of RpcSystem.
- RpcTheorems.NobodyWaitsOnAClosedPeer: says that a waiting caller can return, not that the event loop schedules it.
- RpcSystem: which tasks `aclose` cancels and in which order they end is left open, so every such ending is covered and some that cannot happen; the uint64 width of the frame id, and the quoting of the method name in the "no handler" message.
- LogCollector.EveryEventIsAccountedFor: statistics (`stats`), the clock and the rate-limited warning do not affect what is delivered and are left out.
- LogPipeline.EveryLossIsAnnounced: a subscriber cancelled in the middle of a send and an encoding that fails are left out.
- LogCapture: the bus, the time limit of a wait and the warning on exit.
- AttrSelect.SelectAttrPath: a value is a finite tree; evaluation that fails with another error, and the wording of the messages, are left out.
- FlakeCompletion.EveryOfferResolves: prefixes are empty or balanced and end in a separator, as the commands write them.
- FlakeCompletion.CompletionIsExact: leaves out the fragments that FragmentSplits names, for which QuotesAloneMisleadCompletion shows that the answer can be wrong.
- FsClosure.ComputeFsClosure: SQLite is three tables, and each query is the set of its rows; the schema's uniqueness of paths is needed for the converses only.
- FodSource.FindsTheUnambiguous: the literals that tree-sitter locates and the mismatches that the regular expression finds are inputs; the source is spliced as its encoded bytes.
- Build.BuildWithFodUpdate: a write, a release or a cache reset that fails, an update callback that raises, and cancellation.
- StoreUri.RawUriReadsBack: texts stand for their UTF-8 bytes; the normalisation that Nix applies to the raw URI is foreign code.
- StoreUri.FieldsRoundTrip: the validation of the fields, the `Auto`, `daemon` and `local` forms, and path authorities of other store types.
- NixConf.ParseNixConf: an error says which rule failed and not which line; "\r\n" gives one empty line more than Python, which is skipped like any other.
- NixConf.IterSetIsExact: the rules of a Nix version and platform are an input of each field, and a number is its text.
- NixErrors.RoutesAgree: the message patterns are an arbitrary function, and the detail that travels beside the message (`raw`, `info`) is left out.
- NixErrors.AllowedClassesSurvive: the allowlist is an arbitrary table of names; the quoting that `KeyError` adds to its text is left out.
- Transports (pipes, stdio, ssh, multiprocessing, the patched HTTP/2 receiver), engine bindings, the store implementation, pydantic validation, environment sources, drift checks, command building and the language-server parts: plumbing or foreign code.
