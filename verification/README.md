# zmq4: a verified model

A Dafny model of the protocol core of zmq4, a ZeroMQ implementation in Go with the
Majordomo service broker (MDP), the DAFKA log and the Malamute message broker on top.
Each module models one component and proves what the component is for: over every
input, every interleaving or every run.

Components that change state step by step are given twice. A pure state machine
(`State`, `Event`, `Step`, `Run`) is what the theorems over runs are about; a class with
the fields and loops of the original is proved to make exactly those steps. Clocks,
send outcomes, map iteration order and goroutine scheduling are parameters or events.

| files | component |
|---|---|
| `BrokerModel`, `BrokerDispatch`, `BrokerInvariant`, `BrokerRuns`, `BrokerOutstanding`, `BrokerLifetimes`, `BrokerCleanup`, `Broker` | Majordomo broker: registry, dispatch, lifetimes, cleanup |
| `Mdp`, `MdpPath`, `MdpService`, `Envelopes` | MDP framing and the path from client to worker and back |
| `Zmtp`, `ZmtpConn` | ZMTP framing and the connection's read and write paths |
| `ReqRep` | REQ, ROUTER and REP envelopes through any number of hops |
| `Subscriptions`, `PubDelivery` | SUB to PUB replication, PUB filtering and high-water mark |
| `PartitionLog`, `Producer` | DAFKA partition log and producer |
| `Mailbox`, `Credit` | Malamute mailboxes and credit |
| `Z85`, `BlockQueue`, `Bytes`, `Sequences` | Z85, the block queue, shared facts |

Where the code does less than its documentation promises, the model follows the code,
a lemma gives an input, and another lemma gives the exact condition:

* a worker REPLY without a body never reaches the broker's handlers (`MdpPath.EmptyReplyIsDropped`, exact in `MdpPath.ReplyGetsThrough`);
* REP splits an envelope wrongly when a request frame is empty (`ReqRep.SplitExact`);
* a subscribe call that begins while an opposite one on its topic waits for the socket's lock can leave every publisher wrong for good (`Subscriptions.OverlapFromStart`, exact in `Subscriptions.CompatibleExactly`);
* publishing a message without frames panics the goroutine that delivers it (`PubDelivery.FramelessPanics`, exact in `PubDelivery.PanicExactly`);
* rebuilding a partition index misreads records with headers (`PartitionLog.HeadersBreakRebuild`, exact in `PartitionLog.ScanExact`);
* a record that the file ends inside of is read as if it were whole, with zeros for what is missing (exact in `PartitionLog.TornRecord`);
* the producer dereferences a batch that a flush may have taken away (`DafkaProducer.FlushBeforeCheckPanics`, exact in `DafkaProducer.CheckPanicsExactly`);
* using a negative amount of credit mints credit (`MalamuteCredit.NegativeUseMints`, exact in `MalamuteCredit.RunConserves`), and the high mark wraps for very large windows (`MalamuteCredit.HighMarkExact`);
* `ValidateString` accepts Z85 strings that `Decode` refuses (`Z85.ValidButUndecodable`, exact in `Z85.ValidatedDecodes`).

`MalamuteMailbox.ReceivedInOrder` takes as a hypothesis that the clock read by receives does
not go back. The code meets it: delivery and receive take their times from the same running
process and under one lock, both carry Go's monotonic clock reading, and comparing them
compares those readings. `MalamuteMailbox.ClockBackReorders` only shows that an arbitrary clock
would not do.

## Model

| member | source | states |
|---|---|---|
| `BrokerDispatch.DispatchPairs` | majordomo/broker.go:907-958 | for every pattern of finitely many failed sends, exactly min(requests, live workers) sends succeed, they carry the first requests in queue order, the rest stay queued, and the workers used plus those left are the workers there were, by count |
| `BrokerDispatch.FailuresOnlyRotate` | majordomo/broker.go:940-957 | any number of failed sends changes only the worker order: it is the same as dispatching with the list turned by that many places |
| `BrokerDispatch.RotateSplit` | majordomo/broker.go:842-855 | after as many failures as there are workers the list is back in its first order |
| `BrokerDispatch.RotateKeeps` | majordomo/broker.go:842-855 | no failure loses or repeats a worker |
| `BrokerInvariant.UnregisterInv` | majordomo/broker.go:961-996 | taking out a worker keeps lists duplicate-free, disjoint, registered under their own identity, and the active count right |
| `BrokerInvariant.RegisterInv` | majordomo/broker.go:543-589 | the same for a READY from a new worker |
| `BrokerInvariant.ReplyInv` | majordomo/broker.go:591-623 | the same for a REPLY, which must not list the worker twice |
| `BrokerInvariant.HeartbeatInv` | majordomo/broker.go:625-642 | the same for a HEARTBEAT |
| `BrokerInvariant.ClientInv` | majordomo/broker.go:654-715 | the same for a client request and the dispatch it starts |
| `BrokerInvariant.CleanupInv` | majordomo/broker.go:1047-1110 | the same for a cleanup, whose active count drops by the number of expired workers of each service |
| `BrokerInvariant.StepInv` | majordomo/broker.go:518-715 | every event keeps the registry invariant |
| `BrokerInvariant.ReachableInv` | majordomo/broker.go:518-996 | the registry invariant holds after every run from an empty broker |
| `BrokerRuns.StepBalances` | majordomo/broker.go:695-709 | one event keeps the books of every service: arrived = dispatched + expired + queued, as multisets |
| `BrokerRuns.RunBalances` | majordomo/broker.go:907-958 | the books balance after every run, for every service |
| `BrokerRuns.EveryRequestOnce` | majordomo/broker.go:1096-1108 | over every run: the counts add up to `TotalRequests`, nothing is dispatched twice or both dispatched and expired or queued, and dispatched followed by queued is in arrival order, through failed sends and expiry |
| `BrokerOutstanding.RunOutstanding` | majordomo/broker.go:591-623 | over every run, an available worker never has a request outstanding and nothing is sent to one that has |
| `BrokerOutstanding.ReplyBetweenRequests` | majordomo/broker.go:922-957 | between two successful sends to the same registration the broker processed a REPLY of that registration |
| `BrokerLifetimes.CleanupRegisters` | majordomo/broker.go:1065-1093 | a cleanup takes out exactly the workers whose expiry has passed and leaves every other registration as it is |
| `BrokerLifetimes.SignOfLife` | majordomo/broker.go:625-642 | after READY from a new worker, REPLY or HEARTBEAT at `now`, a cleanup at `t` keeps the worker if and only if `t` is at most `now` plus the heartbeat expiry |
| `BrokerLifetimes.LifeIsLastSign` | majordomo/broker.go:543-642 | over every run a registered worker lives until its last READY, REPLY or HEARTBEAT plus the expiry then in force; nothing else lengthens or shortens its life |
| `BrokerLifetimes.OnlyLiveWorkersUsed` | majordomo/broker.go:908-957 | a client request sends only to listed workers whose expiry has not passed |
| `BrokerLifetimes.LiveWorkersServe` | majordomo/broker.go:908-957 | a client request keeps an available worker on the lists if and only if it lives, and with at least as many requests as live workers each becomes busy, whatever sends fail |
| `BrokerLifetimes.ReadyListsLast` | majordomo/broker.go:543-589 | a new worker is listed last with the next registration number; no other list or queue changes |
| `BrokerLifetimes.ReplyListsLast` | majordomo/broker.go:842-856 | a worker that replies goes from its place in the busy list to the end of the available list; the others keep their order |
| `BrokerLifetimes.LeavingRetires` | majordomo/broker.go:961-996 | after DISCONNECT, READY from a registered worker, or a cleanup past its expiry, the identity is on no list and its registration is retired |
| `BrokerLifetimes.StrangerChangesNothing` | majordomo/broker.go:636-647 | HEARTBEAT and REPLY of an unregistered worker only tell it to disconnect, its DISCONNECT does nothing |
| `BrokerLifetimes.RetiredForGood` | majordomo/broker.go:907-996 | over every run nothing is ever sent to a retired registration again, or forwarded for it |
| `BrokerLifetimes.CleanupSweepsOld` | majordomo/broker.go:1096-1108 | a request stays queued over a cleanup if and only if it is not older than the timeout, and is reported as swept if and only if it is |
| `BrokerLifetimes.ExpiredWereOld` | majordomo/broker.go:64-67 | over every run a request that expired was swept by a cleanup that found it older than the timeout then in force |
| `BrokerLifetimes.ArrivedAsAsked` | majordomo/broker.go:695-704 | over every run what a service booked as arrived is exactly what the clients asked of it, field by field and in order |
| `BrokerCleanup.CleanupInTwo` | majordomo/broker.go:1047-1110 | sweeping workers and then the request queues is the one-step cleanup of the model, log included |
| `MajordomoBroker.RemoveFirst` | majordomo/broker.go:828-835 | the list loops take out the first occurrence and nothing else |
| `MajordomoBroker.MoveWorkerToBusy` | majordomo/broker.go:828-839 | moves a worker to the end of the busy list |
| `MajordomoBroker.MoveWorkerToAvailable` | majordomo/broker.go:842-856 | takes a worker off the busy list and lists it as available at most once |
| `MajordomoBroker.LiveWorkers` | majordomo/broker.go:911-919 | keeps exactly the unexpired workers, in order |
| `MajordomoBroker.AssignOne` | majordomo/broker.go:922-957 | one turn: the first request to the first worker; a failed send puts both back, the request in front and the worker at the end |
| `MajordomoBroker.Assign` | majordomo/broker.go:922-957 | the dispatch loop ends and does what the model's dispatch does, whatever sends fail |
| `MajordomoBroker.Broker.constructor` | majordomo/broker.go:134-174 | a new broker is the model's initial state |
| `MajordomoBroker.Broker.GetOrCreateService` | majordomo/broker.go:859-871 | returns the service on file, or files a new empty one and changes nothing else |
| `MajordomoBroker.Broker.DispatchRequests` | majordomo/broker.go:907-958 | drops expired workers from the available list, then dispatches as the model does |
| `MajordomoBroker.Broker.ProcessClientRequest` | majordomo/broker.go:654-715 | makes exactly the model's client step and log, keeping the object graph in order |
| `MajordomoBroker.Broker.ProcessReady` | majordomo/broker.go:543-589 | makes exactly the model's READY step: a known worker is disconnected, a new one is registered and listed |
| `MajordomoBroker.Broker.ProcessReply` | majordomo/broker.go:591-623 | makes exactly the model's REPLY step |
| `MajordomoBroker.Broker.ProcessHeartbeat` | majordomo/broker.go:625-642 | makes exactly the model's HEARTBEAT step, whose effect on the worker's life `BrokerLifetimes.SignOfLife` gives |
| `MajordomoBroker.Broker.ProcessDisconnect` | majordomo/broker.go:644-647 | makes exactly the model's DISCONNECT step |
| `MajordomoBroker.Broker.DisconnectWorker` | majordomo/broker.go:961-996 | unregisters a worker and takes it off both lists of its service |
| `MajordomoBroker.Broker.SweepWorkers` | majordomo/broker.go:1062-1093 | unregisters exactly the expired workers, in whatever order the map is walked |
| `MajordomoBroker.Broker.SweepQueues` | majordomo/broker.go:1096-1108 | drops exactly the requests older than the timeout of every service and reports them, in whatever order the map is walked |
| `MajordomoBroker.Broker.Cleanup` | majordomo/broker.go:1047-1110 | both sweeps together make exactly the model's cleanup step and log |
| `MajordomoBroker.Broker.SetHeartbeat` | majordomo/broker.go:177-184 | the expiry becomes interval times liveness and nothing else changes |
| `MajordomoBroker.Broker.SetRequestTimeout` | majordomo/broker.go:187-192 | the request timeout changes and nothing else |
| `MajordomoBroker.Broker.Handle` | majordomo/broker.go:298-345 | any event: the object graph makes exactly the model's step and touches only its own and new objects |
| `MajordomoBroker.Broker.HandleAll` | majordomo/broker.go:257-295 | any sequence of events: the object graph ends in the state and with the log of the model's run, so the theorems over runs hold of it |
| `Mdp.FindDelimiterFrame` | majordomo/mdp.go:245-252 | the first empty frame, or -1 when there is none |
| `Mdp.SplitOnSeparators` | majordomo/broker.go:349-376 | the loop computes the model's split at empty frames |
| `Mdp.DetectMessageType` | majordomo/broker.go:408-515 | the search for a protocol part, the rebuilt message and the fallback are the model's |
| `Mdp.JoinParts` | majordomo/broker.go:349-376 | joining the parts gives the frames back when separators are single, and something shorter otherwise |
| `MdpPath.ReconstructionExact` | majordomo/broker.go:408-515 | for every message of two frames or more, it is rebuilt unchanged as a worker message if and only if it begins with a delimiter and the worker protocol and all its separators are single, wherever else a protocol part may stand |
| `MdpPath.FallbackInserts` | majordomo/broker.go:466-515 | the fallback is reached only by a protocol frame that follows a non-empty frame, so it always puts a delimiter in front of that frame and drops what was before |
| `MdpPath.RequestReachesBroker` | majordomo/mdp.go:255-338 | for every valid service, identity and body, what the client formats is what the broker parses, through REQ and ROUTER |
| `MdpPath.RequestReachesWorker` | majordomo/broker.go:717-773 | the broker's REQUEST is addressed to the worker and parses to the same client and body, whatever they are |
| `MdpPath.ReplyReachesBroker` | majordomo/mdp.go:341-467 | a REPLY with a body reaches the broker with its client and body |
| `MdpPath.EmptyReplyIsDropped` | majordomo/broker.go:408-515 | a REPLY without a body is dropped, for every identity and client |
| `MdpPath.ReplyGetsThrough` | majordomo/broker.go:408-515 | a REPLY gets through if and only if it has a body |
| `MdpPath.ReplyReachesClient` | majordomo/broker.go:776-809 | the broker's reply is addressed to the client and parses to its service and body |
| `MdpPath.CommandReachesBroker` | majordomo/mdp.go:341-467 | byte for byte: a worker's command 1 with a service of 1 to 255 bytes, 4 or 5 is READY, HEARTBEAT or DISCONNECT to the broker; any other but 3 is nothing |
| `MdpPath.ReadyGetsThrough` | majordomo/mdp.go:176-242 | a worker's READY registers it for its service if and only if that has 1 to 255 bytes, for every identity |
| `MdpPath.BareReachesBroker` | majordomo/mdp.go:176-242 | a formatted HEARTBEAT or DISCONNECT reaches the broker as what it is |
| `MdpPath.DisconnectReachesWorker` | majordomo/broker.go:717-773 | the broker's DISCONNECT is addressed to the worker and parses as one |
| `MdpPath.RequestGetsThrough` | majordomo/mdp.go:255-338 | a client's request gets through if and only if its service has 1 to 255 bytes |
| `MdpPath.OldFormReachesBroker` | majordomo/mdp.go:304-308 | the older request form without a command is taken if and only if a body follows the service |
| `MdpPath.WireFrames` | majordomo/mdp.go:133-242 | the frames of both requests and both replies, byte by byte |
| `MdpService.RequestIsAssigned` | majordomo/broker.go:695-709 | with an empty queue a request goes at once to the first live worker, which becomes busy |
| `MdpService.ReplyIsForwarded` | majordomo/broker.go:591-623 | a reply of a registered worker is forwarded and makes it available again |
| `MdpService.ServiceCall` | majordomo/broker.go:298-345 | one whole call in frames: from any state that keeps the registry invariant, with nothing queued, a live worker and a non-empty answer, the worker gets the client's body, the client gets the worker's answer and service, and the worker is available again |
| `MdpService.EmptyAnswerIsLost` | majordomo/broker.go:298-345 | an answer without a body causes no event at all |
| `MdpService.LifeInFrames` | majordomo/broker.go:518-647 | from frames to lives: the bytes of READY and HEARTBEAT give a worker the heartbeat expiry from now, those of DISCONNECT take it off every list |
| `Zmtp.FrameRoundTrip` | protocol_conn.go:430-534 | a written frame of any size reads back, flags and length form included, with the following bytes untouched |
| `Zmtp.MessageRoundTrip` | protocol_conn.go:556-634 | the same for messages of any number of frames |
| `Zmtp.MarshalRoundTrip` | protocol_msg.go:103-127 | a command body reads back as its name and data |
| `Zmtp.StreamRoundTrip` | protocol_conn.go:556-634 | any sequence of messages and commands written one after the other reads back exactly, and nothing after it is touched |
| `Zmtp.NoPrefixAccepted` | protocol_conn.go:556-634 | no proper prefix of an encoding is taken for a message |
| `Zmtp.FrameExtends` | protocol_conn.go:566-600 | bytes that arrive later do not change a frame that was complete |
| `Zmtp.MsgExtends` | protocol_conn.go:556-634 | nor a message that was complete |
| `Zmtp.ReencodeFrame` | protocol_conn.go:430-534 | writing back what was read gives the same bytes if and only if the header was one the writer produces |
| `Zmtp.FrameOnTheWire` | protocol_conn.go:430-534 | the bytes of a frame: 0, 1 or 4 and one length byte up to 255 bytes of body, 2, 3 or 6 and eight length bytes with literal weights beyond |
| `Zmtp.FrameFromTheWire` | protocol_zmtp.go:38-40 | what is read from any first byte: which bits count, which length is taken, and when the length overflows |
| `Zmtp.MessageExample` | protocol_conn.go:250-270 | two one-byte frames, byte by byte, written and read |
| `Zmtp.CommandExample` | protocol_conn.go:173-195 | a command, byte by byte, written and read |
| `Zmtp.RemarshalExact` | protocol_msg.go:103-127 | a body unmarshals if and only if some command marshals to it, and then to that command |
| `Zmtp.CutFrameFault` | protocol_conn.go:566-607 | a frame cut at any byte fails as an end of stream exactly at the three places where a read begins, else as broken |
| `ZmtpConn.Conn.Send` | protocol_conn.go:430-534 | writes exactly the encoding of one frame |
| `ZmtpConn.Conn.SendMsg` | protocol_conn.go:250-270 | writes exactly the encoding of the message, or nothing on a closed connection |
| `ZmtpConn.Conn.SendMulti` | protocol_conn.go:382-428 | the collected buffers are the same bytes as sending frame by frame |
| `ZmtpConn.Conn.SendCmd` | protocol_conn.go:173-195 | writes the encoding of the command; a name over 255 bytes or a closed connection writes nothing |
| `ZmtpConn.Conn.ReadOne` | protocol_conn.go:566-625 | reads what the frame reader of the model reads, leaves its rest, and closes exactly at the end of input |
| `ZmtpConn.Conn.Read` | protocol_conn.go:556-634 | the loop over frames reads what the recursive reader reads, faults and closing included |
| `ZmtpConn.Conn.RecvCmd` | protocol_conn.go:347-380 | accepts exactly commands of one frame that unmarshal; any other message is consumed and refused |
| `ReqRep.SplitRequest` | socket_rep.go:190-201 | the loop computes the model's split of an envelope |
| `ReqRep.SplitExact` | socket_rep.go:190-201 | REP takes an envelope apart as it was put together if and only if no request frame is empty and a request without frames has no empty frame in front |
| `ReqRep.RefusedExactly` | socket_rep.go:190-201 | a message is refused if and only if it has no empty frame |
| `ReqRep.SplitAtLast` | socket_rep.go:190-201 | for every message with an empty frame, preamble and payload by its last two empty frames |
| `ReqRep.RouterWrite` | socket_router.go:226-245 | everything behind the identity goes to every connection with that identity |
| `ReqRep.TargetsUnique` | socket_router.go:226-245 | only the named connection is reached if and only if its identity is unique |
| `ReqRep.ForwardAddsTrail` | socket_router.go:155-173 | any number of ROUTER hops put exactly their identities in front, the latest first |
| `ReqRep.BackwardPopsTrail` | socket_router.go:226-245 | the way back pops one identity per hop and names just the connection the request came in by |
| `ReqRep.RequestReply` | socket_rep.go:139-155 | through any number of hops: when REP sees the request (if and only if), that every reply comes back to the REQ connection, and when REQ returns it unchanged (if and only if it has frames) |
| `ReqRep.RepSocket.Read` | socket_rep.go:139-155 | remembers connection and preamble of a good request; a bad one changes nothing |
| `ReqRep.RepSocket.Write` | socket_rep.go:284-295 | the reply goes, behind the remembered preamble, to the remembered connection if it is still there |
| `ReqRep.RepSocket.RmConn` | socket_rep.go:242-256 | takes out the connection and no other |
| `Subscriptions.HeardFrame` | protocol_conn.go:636-647 | the publisher reads a subscription frame back as the call it carries |
| `Subscriptions.SubscriptionOnTheWire` | socket_pub.go:210-220 | the byte 1 subscribes and 0 unsubscribes the topic that follows; no other message changes a publisher's topics |
| `Subscriptions.StepInv` | core_socket.go:338-373 | every step of calls, replay, sends and delivery keeps: a connection will agree with the subscriber on every topic it is not owed a call about; a call may begin while an opposite one is being written |
| `Subscriptions.Replication` | socket_sub.go:86-117 | over every interleaving of calls, connections, replays, sends and deliveries in which no call begins while an opposite one on its topic waits for the lock: frames in flight, replay and owed calls take each publisher's topics exactly to the subscriber's |
| `Subscriptions.DrainedAgree` | socket_sub.go:86-117 | once nothing is half done or in flight both sides hold the same topics |
| `Subscriptions.DeliveriesDrain` | socket_pub.go:187-208 | as many deliveries as frames in flight bring a connection up to date and touch nothing else |
| `Subscriptions.DeliveredAgree` | socket_sub.go:86-117 | after every disciplined run with no call half done, delivering what is in flight makes the publisher's topics the subscriber's |
| `Subscriptions.ComingAndGoing` | core_socket.go:338-402 | a connection that goes takes only itself away; one that comes starts empty and is owed a snapshot of the topics |
| `Subscriptions.OneCallerDisciplined` | socket_sub.go:86-117 | a single caller is always disciplined |
| `Subscriptions.SentLastIsWrong` | socket_sub.go:111-116 | with any connections, waiting calls and lock holder, a waiting call that an opposite one has overtaken locally can be sent last, and then every publisher is wrong about its topic |
| `Subscriptions.CompatibleExactly` | socket_sub.go:86-117 | in every state that keeps the invariant: all ways to go on after a call begins end with every publisher right if and only if no opposite call on its topic waits for the lock |
| `Subscriptions.DisciplineIsNeeded` | socket_sub.go:86-117 | the same after every such run from a fresh socket |
| `Subscriptions.OverlapFromStart` | socket_sub.go:86-117 | a run from a fresh socket that ends with everything delivered, no subscription and a publisher that has one |
| `Subscriptions.SubSocket.SetOption` | socket_sub.go:86-117 | the local topics change and the frame does the same to any publisher's topics |
| `Subscriptions.PubConn.Listen` | socket_pub.go:187-220 | subscription messages change the topics, all others are forwarded and do not |
| `Subscriptions.PubConn.Subscribe` | protocol_conn.go:636-647 | applies a subscription frame |
| `Subscriptions.PubConn.Subscribed` | protocol_conn.go:649-662 | true if and only if some subscription is a prefix of the topic |
| `PubDelivery.NextInv` | socket_pub.go:251-295 | publishing, taking, deciding and subscription changes keep the account of a connection |
| `PubDelivery.EveryMessageOnce` | socket_pub.go:251-295 | over every history each published message is exactly one of sent, filtered, dropped, held or queued; sent then waiting is in publish order; sent had a subscribed prefix and filtered had none when decided; the backlog is at most the mark at connect, and exactly that when a message is dropped |
| `PubDelivery.PanicExactly` | socket_pub.go:258-268 | from every state that keeps the account, the goroutine can panic without further publishing if and only if a message on its way has no frames |
| `PubDelivery.FramesNeverPanic` | socket_pub.go:258-268 | no history panics in which only messages with frames are published |
| `PubDelivery.FramelessPanics` | socket_pub.go:258-268 | publishing a message without frames, taking it and looking at its topic panics |
| `PubDelivery.SentAsSubscribed` | socket_pub.go:258-268 | once the subscriber's calls have arrived, the goroutine sends exactly what the subscriber's own topics want |
| `PubDelivery.SubscriberGetsWhatItAsked` | socket_pub.go:187-268 | the whole way: a publisher that heard the frames of disciplined calls sends a message it takes if and only if the subscriber's own topics want it, whatever else happened on the connection |
| `PubDelivery.TopicsAreHeard` | protocol_conn.go:636-647 | over every history the topics of a connection are what the messages heard from it make of none |
| `PubDelivery.MatchesExactly` | protocol_conn.go:649-662 | a subscription matches what it is a prefix of, byte by byte; the empty one matches all |
| `PubDelivery.EverythingIsDecided` | socket_pub.go:258-268 | from every account without frameless messages, taking and deciding leads to a state in which nothing waits |
| `PubDelivery.OfferIsPush` | socket_pub.go:282-295 | the writer's channels and the delivery model queue and drop alike |
| `PubDelivery.PubWriter.AddConn` | socket_pub.go:251-256 | a new connection gets an empty channel with the current mark as capacity |
| `PubDelivery.PubWriter.RmConn` | socket_pub.go:271-280 | removes that connection's channel only |
| `PubDelivery.PubWriter.Write` | socket_pub.go:282-295 | offers the message to one channel after the other, in any order; full ones stay as they are; a cancelled context ends the walk with an error and leaves the rest alone |
| `PartitionLog.RecordRoundTrip` | dafka/store.go:814-872 | a record, headers included, reads back from where it was written, whatever follows |
| `PartitionLog.RecordInTheFile` | dafka/store.go:120-128 | the bytes of a record: field by field, with literal places and weights |
| `PartitionLog.HeaderInTheFile` | dafka/store.go:693-713 | the bytes of the headers: two lengths of two bytes, each before its text |
| `PartitionLog.RecordCarriesAll` | dafka/store.go:814-872 | what is read carries offset, stamp, key and value of what was written, and of its headers the last value of each key |
| `PartitionLog.TornRecord` | dafka/store.go:830-844 | a header-free record the file ends inside of is read, padded with zeros, if and only if something of its last field is there |
| `PartitionLog.ScanExact` | dafka/store.go:911-963 | the rebuild sees exactly the written records where they were written if and only if each record's stride, a function of the record alone, fits its size (the last may overshoot); for all logs |
| `PartitionLog.HeaderFreeStride` | dafka/store.go:941-943 | a record without headers is stepped over exactly if and only if its sizes add up within 32 bits |
| `PartitionLog.OneHeaderStride` | dafka/store.go:942-957 | over a record with one header the scan moves by the first four bytes of the record's body, read as two lengths |
| `PartitionLog.RebuildIsLive` | dafka/store.go:911-963 | for every log whose strides fit, headers or not, scanning the file gives the index (last write wins), head and count that the appends left |
| `PartitionLog.HeaderFreeRebuild` | dafka/store.go:911-963 | so it does for all header-free records whose sizes add up within 32 bits |
| `PartitionLog.HeadersBreakRebuild` | dafka/store.go:945-955 | two records, the first with one header: the live index has both, the rebuilt one only the first |
| `PartitionLog.OvershotRecordIsLost` | dafka/store.go:941-959 | whenever the stride over a first record reaches past a second one, the rebuild never sees the second |
| `PartitionLog.HeadIsGreatest` | dafka/store.go:718-723 | the head is the greatest offset written |
| `PartitionLog.IndexPoints` | dafka/store.go:715-717 | the index holds exactly the written offsets and points at the latest record of each |
| `PartitionLog.FetchIsLatest` | dafka/store.go:782-811 | reads refine a plain map: the latest records of the longest gap-free run from the start, capped at the count, in 64-bit offsets, with or without headers |
| `PartitionLog.FetchedAsWritten` | dafka/store.go:782-811 | the k-th record fetched carries the last entry written at the start plus k modulo 2^64; the fetch is short only where none was ever written |
| `PartitionLog.LatestIsLast` | dafka/store.go:715-717 | the plain map: the offsets that were written, each with the last entry written at it |
| `PartitionLog.PartitionStore.WriteRecord` | dafka/store.go:655-725 | file, index, head and count after an append are those of the log with one more record |
| `PartitionLog.PartitionStore.LoadPartitionIndex` | dafka/store.go:911-963 | the scanning loop computes the model's scan, also up to an error |
| `PartitionLog.PartitionStore.ReadRecords` | dafka/store.go:782-811 | the loop yields records up to the first missing offset, or an error at an unreadable one |
| `PartitionLog.EncodeHeaders` | dafka/store.go:693-713 | the header loop writes the model's encoding |
| `PartitionLog.DecodeRecord` | dafka/store.go:814-872 | the reads one after the other decode what the model decodes, short reads included |
| `PartitionLog.DecodeHeaders` | dafka/store.go:846-869 | the header loop; a repeated key keeps its last value |
| `PartitionLog.HeaderSkip` | dafka/store.go:942-955 | adds up, in 16 bits per header, what the scan makes of the four bytes it reads for each header, or is cut off |
| `PartitionLog.Glance` | dafka/store.go:926-957 | one turn of the scan, with its 16- and 32-bit sums |
| `DafkaProducer.StepInv` | dafka/producer.go:407-480 | every step of the produce, flush and publish loops keeps each topic's trail |
| `DafkaProducer.OffsetsHaveNoGap` | dafka/producer.go:407-576 | over every interleaving: published, queued and pending records of a topic are the accepted ones in order, numbered from 0 to the next offset; batches match their base offset and size; the queue is bounded |
| `DafkaProducer.PublishedInOrder` | dafka/producer.go:483-506 | over every run the i-th record of a topic handed to publishing is the i-th accepted, with offset i |
| `DafkaProducer.PublishDrains` | dafka/producer.go:334-340 | as many publishes as there are batches empty the queue and hand over all its records in order |
| `DafkaProducer.EverythingGetsOut` | dafka/producer.go:483-576 | from every state, publishing the queue, one flush and one publish hand out all accepted records of a topic |
| `DafkaProducer.BatchAges` | dafka/producer.go:437-449 | a batch is as old as its first record, and a flush leaves it pending if and only if 1000 batches wait |
| `DafkaProducer.CheckPanicsExactly` | dafka/producer.go:466-470 | the check after an append finds no batch if and only if a flush of that topic found room in between |
| `DafkaProducer.FlushBeforeCheckPanics` | dafka/producer.go:466-470 | append, timer flush, check is such a run |
| `DafkaProducer.FullBatchIsFlushed` | dafka/producer.go:466-474 | a request that finds room leaves its batch pending if and only if it is not full; a full one is at the end of the queue, with its records |
| `DafkaProducer.Producer.Accept` | dafka/producer.go:407-449 | the record gets the offset that is returned and joins the pending batch |
| `DafkaProducer.Producer.CheckBatch` | dafka/producer.go:466-474 | makes the model's check |
| `DafkaProducer.Producer.FlushTopicBatchLocked` | dafka/producer.go:548-563 | moves the batch to the queue or, when that is full, leaves it pending |
| `DafkaProducer.Producer.FlushPendingBatches` | dafka/producer.go:520-533 | flushes exactly the batches older than the linger time, in whatever order the map is walked |
| `DafkaProducer.Producer.FlushAllBatches` | dafka/producer.go:567-576 | flushes exactly the batches there are |
| `DafkaProducer.Producer.PublishBatch` | dafka/producer.go:483-506 | goes through the first batch in order; what is sent is exactly the records whose turn succeeds, the others are counted as errors |
| `MalamuteMailbox.StepBoxes` | malamute/mailbox.go:335-487 | every event keeps exact byte counts, ordered ids and the limits |
| `MalamuteMailbox.CountsAreExact` | malamute/mailbox.go:335-390 | in every reachable state `BytesStored` is the sum of the stored bodies in 64-bit arithmetic, backlog and mailbox count are within limits and ids increase |
| `MalamuteMailbox.ReceivedInOrder` | malamute/mailbox.go:393-424 | with a clock that does not go back, the ids received at an address strictly increase over the whole run, across removed mailboxes, and no id is received at two addresses |
| `MalamuteMailbox.ReceivedAsDelivered` | malamute/mailbox.go:335-424 | over every run and any clock a message received under id k is the k-th delivery that found room, addressed there, every field as sent and the timeout counted from its sending; no id is received twice |
| `MalamuteMailbox.ReceiveHandsOldest` | malamute/mailbox.go:408-421 | a receive hands out the oldest live message and takes just that one |
| `MalamuteMailbox.ReceiveNothing` | malamute/mailbox.go:393-424 | without access or a live message nothing is handed out or taken |
| `MalamuteMailbox.ReceiveElsewhere` | malamute/mailbox.go:399-406 | no other mailbox is touched; a mailbox without owner becomes the client's |
| `MalamuteMailbox.OldestIsLeast` | malamute/mailbox.go:408-421 | the oldest live message of a mailbox has the least id of its live ones |
| `MalamuteMailbox.DeliverKeepsNewest` | malamute/mailbox.go:372-386 | a delivery is stored last, of more than 10000 only the oldest goes, and it counts as activity |
| `MalamuteMailbox.CleanupExactly` | malamute/mailbox.go:460-487 | a cleanup removes a mailbox if and only if nothing in it is live and it was idle longer than the retention, and keeps exactly the live messages |
| `MalamuteMailbox.CreateExactly` | malamute/mailbox.go:427-448 | a created mailbox is empty with the given owner; otherwise nothing changes |
| `MalamuteMailbox.RemoveClientExactly` | malamute/mailbox.go:451-457 | exactly the client's mailboxes go |
| `MalamuteMailbox.OwnerIsKept` | malamute/mailbox.go:399-406 | a mailbox with an owner keeps it as long as it exists |
| `MalamuteMailbox.LiveExact` | malamute/mailbox.go:460-479 | a cleanup keeps exactly the messages that have not expired |
| `MalamuteMailbox.MailboxManager.ProcessDelivery` | malamute/mailbox.go:335-390 | makes the model's delivery |
| `MalamuteMailbox.MailboxManager.HandleReceive` | malamute/mailbox.go:393-424 | makes the model's receive; each refusal exactly when it is due, and the reply is the stored oldest live message, whole |
| `MalamuteMailbox.MailboxManager.HandleCreate` | malamute/mailbox.go:427-448 | creates if and only if there is room and the address is free |
| `MalamuteMailbox.MailboxManager.HandleRemoveClient` | malamute/mailbox.go:451-457 | removes exactly the client's mailboxes |
| `MalamuteMailbox.MailboxManager.CleanupExpiredMessages` | malamute/mailbox.go:460-487 | makes the model's cleanup of every mailbox |
| `MalamuteCredit.GrantBounded` | malamute/credit.go:460-487 | a grant is within the request, half the window and what is left of the window |
| `MalamuteCredit.GrantExactly` | malamute/credit.go:460-487 | for windows above one, credit is granted if and only if some is asked for below both marks, and then one of the three bounds |
| `MalamuteCredit.RequestConserves` | malamute/credit.go:332-397 | a request changes available and total by exactly the grant, without wrapping |
| `MalamuteCredit.ConfirmConserves` | malamute/credit.go:400-418 | a confirmation lowers what is in use, to zero at the least, without wrapping |
| `MalamuteCredit.UseConservesExactly` | malamute/credit.go:524-541 | a use keeps the books if and only if it is refused or takes back no more than is in use |
| `MalamuteCredit.StepConserves` | malamute/credit.go:332-541 | an event keeps every client's books if and only if it is proper |
| `MalamuteCredit.RunConserves` | malamute/credit.go:332-541 | over a whole run the books balance in every state if and only if every use is proper |
| `MalamuteCredit.CreditIsConserved` | malamute/credit.go:332-541 | for every first window and every run of non-negative uses: available + ever spent = total, which is at most the largest window, and available + used is at most total |
| `MalamuteCredit.NegativeUseMints` | malamute/credit.go:524-541 | one granted, eight available after a use of minus seven |
| `MalamuteCredit.HighMarkExact` | malamute/credit.go:97-109 | the high mark is three quarters of the window if and only if tripling it does not wrap |
| `MalamuteCredit.CleanupExactly` | malamute/credit.go:510-521 | a client goes if and only if it has nothing and did not ask for more than an hour |
| `MalamuteCredit.RequestIsTheSign` | malamute/credit.go:353-356 | only its own request, granted or not, counts as a client's last sign |
| `MalamuteCredit.WindowInForce` | malamute/credit.go:435-442 | a window from 10 to 100000 and its three quarters are in force at once; any other is refused |
| `MalamuteCredit.RemoveForgets` | malamute/credit.go:450-456 | removing a client forgets its record and no other |
| `MalamuteCredit.CreditController.ProcessRequest` | malamute/credit.go:332-397 | makes the model's request; the answer carries the grant and the new available credit |
| `MalamuteCredit.CreditController.CalculateGrantedCredit` | malamute/credit.go:460-487 | computes the model's grant |
| `MalamuteCredit.CreditController.ProcessConfirmation` | malamute/credit.go:400-418 | makes the model's confirmation |
| `MalamuteCredit.CreditController.UseCredit` | malamute/credit.go:524-541 | makes the model's use; accepted if and only if enough is available; the books balance after it if and only if it was proper |
| `MalamuteCredit.CreditController.SetWindowSize` | malamute/credit.go:216-232 | accepts exactly the configured range |
| `MalamuteCredit.CreditController.CleanupInactiveClients` | malamute/credit.go:510-521 | removes exactly the clients idle for an hour with nothing available or used |
| `Z85.DecodeEncode` | z85/z85.go:57-87 | decoding an encoding gives the bytes back, for every length divisible by 4 |
| `Z85.EncodeDecode` | z85/z85.go:107-151 | encoding a decoding gives the string back |
| `Z85.AcceptsExactlyEncodings` | z85/z85.go:107-151 | `Decode` accepts exactly what `Encode` produces |
| `Z85.OverflowCheckExact` | z85/z85.go:136-139 | five valid characters survive a round trip if and only if their value fits in 32 bits |
| `Z85.ValidateString` | z85/z85.go:168-180 | the loop accepts exactly the right lengths and characters |
| `Z85.ValidatedDecodes` | z85/z85.go:168-180 | a string decodes if and only if it is valid and no block overflows |
| `Z85.ValidButUndecodable` | z85/z85.go:168-180 | five times the last sign of the alphabet is valid and does not decode |
| `Z85.AlphabetExact` | z85/z85.go:31-51 | the 85 characters in their order as one string, their places in the decoder, and every other byte refused |
| `Z85.TestVector` | z85/z85.go:57-151 | the test vector of RFC 32, both ways |
| `Z85.EncodeInto` | z85/z85.go:57-87 | the front of the buffer becomes the encoding, the rest is untouched, errors write nothing |
| `Z85.DecodeInto` | z85/z85.go:107-151 | each error if and only if it is due, the two character errors by the first block that does not decode; the front becomes the decoding, the rest is untouched |
| `BlockQueue.Queue.Push` | queue.go:32-46 | appends to the concatenation of blocks; every block keeps 1 to 512 elements and `len` the total |
| `BlockQueue.Queue.Peek` | queue.go:48-54 | the oldest element, or nothing if and only if the queue is empty |
| `BlockQueue.Queue.Pop` | queue.go:56-71 | drops the oldest element and no other, removing an emptied block; on an empty queue it changes nothing and reports the panic |
| `BlockQueue.Queue.Len` | queue.go:23-25 | the kept counter is the number of elements |
| `BlockQueue.Queue.Init` | queue.go:27-30 | empties the queue |

## Left out

- CURVE security: rests on NaCl boxes; only the NULL and PLAIN mechanisms, which pass data through, are modelled.
- REQ's choice of connection: the rotation index is not modelled, any one connection is assumed.
- Asynchronous MDP client: the broker strips the request id it correlates by, so there is no round trip.
- MDP worker state and socket heartbeats: updates may be dropped on full channels, no crisp invariant holds; the heartbeats the broker sends to its workers are not modelled either.
- The in-process transport: the codec is modelled over an abstract byte stream.
- Malamute streams: their byte count is not reduced by trimming, so it has no exact accounting.
- Metadata case folding, UUIDs, statistics, logging, dial, listen and accept, beacons, the Zyre node: plumbing.
- MajordomoBroker.Assign: sends that fail forever are not modelled, because the loop then does not end; outcomes are a finite list, after which sends succeed.
- Broker clock: each handler reads the clock once, although the code reads it several times.
- Partial writes: an I/O error in the middle of a frame or a record is not modelled; what reading a torn record then gives is (`PartitionLog.TornRecord`).
- Subscriptions.Replication: the order in which topics are replayed is any enumeration, not the sorted one; application messages sent on a SUB socket and failed sends are not modelled.
- PubDelivery.EveryMessageOnce: holds while the context is live and the connection is open; closing a channel is not modelled, and a negative high-water mark is excluded.
- DafkaProducer.OffsetsHaveNoGap: offsets are unbounded, the 64-bit wrap is not modelled; a record handed to publishing counts as published whether or not its send succeeds, which `PublishBatch` tells apart.
- MalamuteMailbox.ReceivedInOrder: message ids are unbounded, the 64-bit wrap of the id counter is not modelled.
- Mailbox slices: messages are shifted within one Go slice; the model reassigns a sequence, so aliasing of the backing array is not captured.
- PartitionLog.PartitionStore.LoadPartitionIndex: file positions are unbounded, the 63-bit limit of a file is not modelled.
