# Verified model of the ethcore network clients

This project models the parts of ethcore whose behaviour is hardest to see from one
function body, and proves properties of the models with Dafny 4.11. Running
`dafny verify dfyconfig.toml` in this directory checks all of it.

| files | what they model |
|---|---|
| `CrawlErrors`, `CrawlState`, `CrawlMachine` | the crawler as a machine: shared state, the sections of its goroutines that are atomic under one lock, and arbitrary interleavings of dialers, retry worker, connect and disconnect callbacks, cache expiry, discovery and Stop |
| `CrawlTermination`, `CrawlWork`, `CrawlAccounting`, `CrawlLoss`, `CrawlQueues`, `CrawlSuccess`, `CrawlWitness` | what holds of all its runs, and runs that show where a claim ends |
| `CrawlHandler`, `CrawlReports` | the failure handler, the dial and the connect callback run without interruption: which failures are retried, when a success is reported, when a cool-off starts |
| `Crawler` | the crawler as a class that updates its maps, queues and tracker entries in place, each method proved equal to the machine's steps |
| `Hello`, `Session`, `Exchanges`, `Client` | the execution-layer session: capability negotiation, the receive loop, its handlers, what a run writes, announces and ends on, and the client that updates its fields |
| `Bits`, `Varint`, `Frames` | the hand-written base-128 varint (Protocol Buffers Encoding, section "Base 128 Varints") down to its bit operations, and the request and response frames around it |
| `Text`, `Topics`, `Registries`, `Overlaps`, `Pipeline` | gossip topic names (Ethereum consensus specifications, phase 0 p2p interface, section "Topics and messages"), the handler registry that is searched by map iteration, and the publish and receive pipeline through type-erasing wrappers |
| `TraceIds`, `Versions`, `AttestationPool`, `Subscriptions` | trace identifiers, client version strings, the attestation pool's index by slot, and the subnet subscription manager |

How to read the model:

- Code that changes state in place is a class or a method with loops; a specification
  function says what it leaves behind, and the theorems are about that function. Pure
  code is a function.
- Concurrency is interleaving: a goroutine is a task that runs one section at a time, and
  between two sections anything else may run. The tracker read of the failure handler and
  the tracker lock of the scheduler are different sections.
- Answers of the outside world (the network check, identify, requests, providers, write
  failures, map iteration order) are parameters over which every theorem quantifies.
- RLP, SSZ and snappy are parameters. Where a theorem needs them to be inverse pairs it
  says so in its `requires`.
- Where Go would panic, the model has an explicit `Crash` outcome.

Some results contradict what one might expect of the code, and are stated as they are: a
fork mismatch found at dial time is retried; racing handlers, or a negative Max, lose a
failure; a disconnection noticed too early turns a retry into a report; a lost receipts reply is announced twice; a varint's tenth byte is not checked; a
pattern with a slash does not round-trip; overlapping patterns make lookup depend on map
order; a decoder-only handler crashes on Publish; registration drops the handler for
invalid payloads; the attestation key ignores the slot; Set forgets a replaced
subscription without cancelling it.

## Model

| member | source | states |
|---|---|---|
| `CrawlTermination.RetriesEnd` | pkg/consensus/mimicry/crawler/crawler.go:803-980 | Retries end: in every run, under every interleaving of dialers, retry worker, callbacks and handlers and for every setting of Max, a peer that arrived n times is taken for dialling at most n·(Max+1) times, although the tracker read and the tracker lock are separate steps. |
| `CrawlTermination.StepMoves` | pkg/consensus/mimicry/crawler/wiring.go:404-513 | Every step other than the final wipe moves a peer's items in one of seven ways: an arrival, a dial, a drop from a queue, a counted requeue, or the end of an item with the attempts reset or not lowered. |
| `CrawlTermination.MoveLowersWorth` | pkg/consensus/mimicry/crawler/crawler.go:913-945 | The measure behind the bound: (Max+1)·(queued items) + Max·(items in flight) − attempts never rises by more than Max+1 per arrival and pays for every dial. |
| `CrawlTermination.OwnEffect` | pkg/consensus/mimicry/crawler/crawler.go:894-980 | What one atomic section does to its own peer: keep, requeue with exactly one more attempt within Max, or finish with the attempts reset or not lowered. |
| `CrawlTermination.OtherEffect` | pkg/consensus/mimicry/crawler/crawler.go:803-980 | A section leaves the attempts and queue entries of every other peer alone. |
| `CrawlWork.WorkEnds` | pkg/consensus/mimicry/crawler/wiring.go:404-513 | All work ends: in every run, before and after Stop, goroutine sections and worker moves for a peer number at most 16·Max + n·(16·Max+28) for n arrivals, however they interleave. |
| `CrawlMachine.SectionsEnd` | pkg/consensus/mimicry/crawler/wiring.go:107-349 | Every section brings its goroutine strictly closer to its end, so no dial, callback or handler runs for ever. |
| `CrawlWitness.DialBoundIsReached` | pkg/consensus/mimicry/crawler/wiring.go:455-513 | The bound is exact, even for serialised runs: for every Max ≥ 0 one dials a peer that arrived once exactly Max+1 times. |
| `CrawlMachine.ReachableOk` | pkg/consensus/mimicry/crawler/crawler.go:913-971 | In every reachable state each tracker entry and each queued or sleeping retry has 1 ≤ attempts ≤ Max and delay RetryBackoff·attempts, is filed under its own peer, and each stored ENR yields that peer; both queues stay within capacity. |
| `CrawlAccounting.AttemptsFollowHistory` | pkg/consensus/mimicry/crawler/crawler.go:913-945 | In every run the attempts in the tracker are those counted since the last success, exhaustion, loss or wipe, and successive increments are numbered 1, 2, 3, and so on. |
| `CrawlAccounting.EveryCallHasOneOutcome` | pkg/consensus/mimicry/crawler/crawler.go:803-980 | Under every interleaving, failure handler calls for a peer equal its reports, queued retries, drops and losses plus the calls still under way. |
| `CrawlAccounting.GuardsAreUnreachable` | pkg/consensus/mimicry/crawler/crawler.go:894-911 | In no run does the scheduler's not-retryable or retries-off guard turn a handler call away, nor is a failure reported because a stored ENR yields no peer. |
| `CrawlLoss.FailuresVanishExactly` | pkg/consensus/mimicry/crawler/crawler.go:912-938 | Under every interleaving and for every Max, a failure of a peer has vanished exactly when some step of the run entered the scheduler's lock with at least Max attempts counted for the peer. |
| `CrawlLoss.LossIsExact` | pkg/consensus/mimicry/crawler/crawler.go:929-938 | The same for one step: the exhausted guard is taken exactly then. |
| `CrawlLoss.LossNeedsARace` | pkg/consensus/mimicry/crawler/crawler.go:831-938 | With Max ≥ 0 such a step closes a race: since the call read the tracker, with a attempts and a < Max, other goroutines have counted at least Max − a more; so the handling was not serialised. |
| `CrawlLoss.SerialLosesNothing` | pkg/consensus/mimicry/crawler/crawler.go:831-938 | With a peer's handling serialised and Max ≥ 0, also after Stop, no such race is possible and no failure vanishes: every call reports, queues or drops. |
| `CrawlAccounting.ExactAccounting` | pkg/consensus/mimicry/crawler/crawler.go:831-945 | With a peer's handling serialised, Max ≥ 1, no wipe and nothing in mid-flight: retryable failures since the last success = exhausted reports·(Max+1) + missing-ENR reports + current attempts, whatever was dropped. |
| `CrawlAccounting.SerialReadsHold` | pkg/consensus/mimicry/crawler/crawler.go:831-860 | While a peer's handling is serialised and Stop has not wiped the tracker, what the handler read under the read lock still holds when it acts on it. |
| `CrawlAccounting.OneAtATimeIsAlone` | pkg/consensus/mimicry/crawler/crawler.go:803-980 | A peer's handling is serialised in every run in which goroutines work for the peer one after another, however many there are. |
| `CrawlWitness.ExhaustedIsReported` | pkg/consensus/mimicry/crawler/crawler.go:836-858 | For every Max ≥ 1 some serialised run without a wipe goes through all retries of a peer and reports it with its attempts used up. |
| `CrawlWitness.RacingHandlersLose` | pkg/consensus/mimicry/crawler/crawler.go:831-938 | Without serialisation a failure can vanish: two callbacks that both read the tracker before either locks it, with Max 1, leave one call with no outcome. |
| `CrawlWitness.NegativeMaxLoses` | pkg/consensus/mimicry/crawler/crawler.go:930-938 | With a negative Max a failure vanishes even in a serialised run. |
| `CrawlHandler.HandlerOutcome` | pkg/consensus/mimicry/crawler/crawler.go:803-891 | For an uninterrupted handler call, exactly when each outcome occurs: each kind of report, queued with the next number, dropped because stopping or full (1000 retries), or lost (only for negative Max). A report names the peer, its stored ENR and the error. |
| `CrawlHandler.HandlerEffect` | pkg/consensus/mimicry/crawler/crawler.go:803-980 | What that call leaves behind, for every Max: the tracker entry with its peer, ENR, attempts and delay, the retry queue, the cool-off set, and nothing about any other peer. A too-soon failure that is retried does clear the cool-off. |
| `CrawlSuccess.SuccessIsEarned` | pkg/consensus/mimicry/crawler/wiring.go:107-335 | Under every interleaving, a success is reported for a peer in a run exactly when some goroutine was admitted while the crawler was not stopping and the peer not in its cool-off, saw it identify itself in time, had both requests answered on our fork, and found it still connected with a stored ENR. |
| `CrawlSuccess.ConfirmedIsReported` | pkg/consensus/mimicry/crawler/wiring.go:287-324 | A step of any run reports a success exactly when it is that last check, and names the ENR stored in that state. |
| `CrawlSuccess.EveryStageIsPassed` | pkg/consensus/mimicry/crawler/wiring.go:107-285 | In every run a goroutine stands behind a stage of the callback only if it got through that stage. |
| `CrawlReports.SuccessExactly` | pkg/consensus/mimicry/crawler/wiring.go:107-335 | A crawl is reported as a success exactly when the crawler is not stopping, the peer is not in its cool-off, it identified itself in time, answered both requests on our fork, and is then still connected with a stored ENR; the report names that ENR. |
| `CrawlReports.SuccessLeaves` | pkg/consensus/mimicry/crawler/wiring.go:282-349 | A peer that answered has its retries forgotten whether or not it is reported; its ENR is deleted exactly when it was reported and is still connected at the end, and by no other callback. |
| `CrawlReports.CooloffExactly` | pkg/consensus/mimicry/crawler/wiring.go:124-211 | A callback starts its peer's cool-off exactly when the peer identified itself and the failure handler did not free it again, and touches no other peer's. |
| `CrawlReports.FailureExactly` | pkg/consensus/mimicry/crawler/wiring.go:191-280 | A callback calls the failure handler, for no peer but its own, exactly when an admitted peer does not identify itself in time, or fails a request or is on another fork afterwards; never for a shutdown. |
| `CrawlReports.CallbackFails` | pkg/consensus/mimicry/crawler/wiring.go:191-280 | A missed identify, a failed status request and a failed metadata request are retried: queued with the next attempt exactly when an ENR is stored, attempts are left and there is room, else the outcome of the table; a fork mismatch is always reported. Each error is spelled out. |
| `CrawlReports.DialExactly` | pkg/consensus/mimicry/crawler/crawler.go:509-562 | A dial fails, and is retried, exactly when the network check fails for any cause or the peer is in its cool-off; otherwise it stores the dialled ENR unless the peer is connected already. |
| `CrawlReports.DisconnectBeatsRetry` | pkg/consensus/mimicry/crawler/wiring.go:351-375 | The callback disconnects before it calls the failure handler: if the disconnection is noticed first, the ENR is gone and a peer with attempts left is reported without one instead of being retried. |
| `CrawlReports.OwnFailures` | pkg/consensus/mimicry/crawler/error.go:8-56 | The crawler's own errors with their types, and which of them are retried. |
| `CrawlErrors.RetriedExactly` | pkg/consensus/mimicry/crawler/crawler.go:982-1011 | An error is retried unless it is none, the end of a context, or a crawl error of the types network_mismatch or protocol_not_supported. |
| `CrawlQueues.DialsInOrder` | pkg/consensus/mimicry/crawler/wiring.go:404-513 | Peers are dialled in the order in which discovery and retries queued them, each as often as it was queued: in every run what joined the queue is what was dialled followed by what is in it, except that after Stop some are dialled no more. |
| `CrawlQueues.RetriesInOrder` | pkg/consensus/mimicry/crawler/wiring.go:455-513 | No scheduled retry is lost, doubled or overtaken: in every run the retries scheduled are, in order, those the worker has finished with, the one it waits for and those in its queue. |
| `CrawlQueues.RetriesComeBack` | pkg/consensus/mimicry/crawler/wiring.go:455-513 | Before Stop the worker finishes with a retry, unless cancelled, only by putting its peer back in the dial queue. |
| `CrawlQueues.StopIsFinal` | pkg/consensus/mimicry/crawler/crawler.go:284-400 | Whatever happens after Stop, in every interleaving: nothing is dialled, no retry is scheduled, no new connection is handled, and at most the one retry waited for still joins the dial queue. |
| `CrawlQueues.StoppedExactly` | pkg/consensus/mimicry/crawler/crawler.go:284-293 | The crawler is stopping in exactly the runs that contain a Stop. |
| `CrawlQueues.MapsFollowHistory` | pkg/consensus/mimicry/crawler/wiring.go:107-375 | In every run a peer's stored ENR is that of its last dial unless it left or the store was wiped since, and it is in its cool-off exactly when it identified itself and has neither expired nor been freed since. |
| `CrawlHandler.HandlerDecides` | pkg/consensus/mimicry/crawler/crawler.go:803-891 | Run without interruption, the separate sections of the failure handler amount to its decisions taken in order. |
| `CrawlHandler.DialDecides` | pkg/consensus/mimicry/crawler/crawler.go:509-562 | Run without interruption, the sections of a dial amount to: network check, cool-off check, connection check, storing the ENR. |
| `CrawlHandler.CallbackDecides` | pkg/consensus/mimicry/crawler/wiring.go:107-349 | Run without interruption, the sections of the connect callback amount to its decisions: stopping or duplicate, identify, cool-off, requests, tracker clean-up, report, departure. |
| `CrawlHandler.ScheduleViaTracker` | pkg/consensus/mimicry/crawler/crawler.go:913-971 | Entering a first failure into the tracker with no attempts before deciding on it gives the same result as deciding first. |
| `CrawlMachine.DriveIsPlay` | pkg/consensus/mimicry/crawler/crawler.go:803-980 | An uninterrupted goroutine is one of the interleaved machine's runs. |
| `CrawlErrors.DialTimeMismatchIsRetried` | pkg/consensus/mimicry/crawler/error.go:46-63 | A fork mismatch found at dial time is retried, because the error is rebuilt from its text and loses its type; the same mismatch with its own type is not. |
| `Crawler.Crawler.ScheduleRetry` | pkg/consensus/mimicry/crawler/crawler.go:894-980 | In place on the tracker entry: leaves exactly the state of the scheduler's atomic section. |
| `Crawler.Crawler.RetryTracked` | pkg/consensus/mimicry/crawler/crawler.go:930-980 | The scheduler from the exhausted check on: forgets an exhausted entry, else counts and enqueues. |
| `Crawler.Crawler.Track` | pkg/consensus/mimicry/crawler/crawler.go:916-928 | A first failure creates an entry with no attempts; an existing entry is kept. |
| `Crawler.Crawler.CountAttempt` | pkg/consensus/mimicry/crawler/crawler.go:942-945 | Increments the attempts of the shared entry in place and makes the delay proportional; no other entry changes. |
| `Crawler.Crawler.Enqueue` | pkg/consensus/mimicry/crawler/crawler.go:947-979 | Stopping drops; else the cool-off is cleared, and a copy of the entry is queued unless the queue is full. |
| `Crawler.Crawler.HandleCrawlFailure` | pkg/consensus/mimicry/crawler/crawler.go:803-891 | Leaves exactly the state the handler's decisions prescribe. |
| `Crawler.Crawler.RetryOrReport` | pkg/consensus/mimicry/crawler/crawler.go:859-884 | Without a stored ENR, or one that yields no peer, reports; else schedules. |
| `Crawler.Crawler.ConnectToPeer` | pkg/consensus/mimicry/crawler/crawler.go:509-562 | A dial leaves the state of the dial's decisions, and returns an error exactly when already connected or when the dial fails after the two checks passed. |
| `Crawler.Crawler.AwaitIdentify` | pkg/consensus/mimicry/crawler/wiring.go:138-200 | The poll loop: identified if some poll or the final look found an agent version, else cancelled if stopping, else timed out. |
| `Crawler.Crawler.HandlePeerConnected` | pkg/consensus/mimicry/crawler/wiring.go:107-349 | The connect callback, with its poll loop and given the outside world's answers, leaves the state of its decisions. |
| `Crawler.Crawler.FinishIdentify` | pkg/consensus/mimicry/crawler/wiring.go:191-210 | After the wait: an identify timeout goes to the failure handler, else the callback continues. |
| `Crawler.Crawler.Identified` | pkg/consensus/mimicry/crawler/wiring.go:209-211 | The peer enters the cool-off set before its requests are made. |
| `Crawler.Crawler.MakeRequests` | pkg/consensus/mimicry/crawler/wiring.go:213-280 | Each failed request and a fork mismatch go to the failure handler with their own error; cancellation ends the callback. |
| `Crawler.Crawler.ReportSuccess` | pkg/consensus/mimicry/crawler/wiring.go:282-349 | Clears the tracker entry before the connection and ENR checks, reports, and departs deleting the ENR. |
| `Crawler.Crawler.DisconnectFromPeer` | pkg/consensus/mimicry/crawler/crawler.go:564-599 | Does nothing for a peer that is not connected, else deletes its stored ENR. |
| `Crawler.Crawler.HandlePeerDisconnected` | pkg/consensus/mimicry/crawler/wiring.go:365-375 | Is the machine's disconnect step: deletes the ENR, at any time. |
| `Crawler.Crawler.TakeDial` | pkg/consensus/mimicry/crawler/wiring.go:410-447 | Is the machine's dial step: takes the front of the queue, and throws it away when stopping. |
| `Crawler.Crawler.TakeRetry` | pkg/consensus/mimicry/crawler/wiring.go:463-481 | Is the machine's step of the retry worker before its sleep. |
| `Crawler.Crawler.Requeue` | pkg/consensus/mimicry/crawler/wiring.go:488-504 | Is the machine's step after the sleep: gives the peer back to the dial queue, waits when full, gives up when cancelled. |
| `Crawler.Crawler.HandleNewDiscoveryNode` | pkg/consensus/mimicry/crawler/wiring.go:515-587 | Is the machine's discovery step: queues a peer on our network unless stopping or full. |
| `Crawler.Crawler.Stop` | pkg/consensus/mimicry/crawler/crawler.go:284-293 | Is the machine's stop step. |
| `Crawler.Crawler.Wipe` | pkg/consensus/mimicry/crawler/crawler.go:389-397 | Is the machine's wipe step: empties the ENR store and the tracker. |
| `Session.StatusSafety` | pkg/execution/mimicry/client.go:215-320 | For every sequence of messages, provider answers and write failures: Hello is the first packet and never sent again, at most one Status is written and only under version 68, 69 or 70, the sent flag says whether one was, and the version is 0 or in range. |
| `Session.NoStatusBeforeHello` | pkg/execution/mimicry/message_hello.go:155-184 | No Status is written and no version is in force before a valid Hello was received. |
| `Session.StatusVersionIsAlwaysSupported` | pkg/execution/mimicry/message_status.go:81-100 | After an accepted Hello the unsupported-version branch is never taken: a Status is refused only if it does not decode in its version's form. |
| `Session.EchoedStatusFitsVersion` | pkg/execution/mimicry/message_status.go:135-167 | In every run of a session without a status provider, whatever other providers it has, each Status written repeats a received one and has the form of the version under which it is written. |
| `Session.RepliesMatchRequests` | pkg/execution/mimicry/client.go:240-318 | Over whole runs the replies written are, in order, one per completed Ping, headers, bodies, pooled-transactions or receipts request, with the code that follows the request's and its request id. |
| `Session.RepliesCarryItems` | pkg/execution/mimicry/message_get_block_headers.go:33-74 | A delivered reply carries the provider's items; a failing header provider is answered with an empty list, a failing body or receipt provider ends the session without a reply. |
| `Session.ReceiptsFormsAgree` | pkg/execution/mimicry/message_get_receipts.go:56-128 | The form used to decode a receipts request (version equal to 70) and the form of the reply (version at least 70) agree exactly for versions up to 70, and every run stays there: the eth/70 decoder is used exactly when the reply is an eth/70 packet. |
| `Exchanges.WrittenExactly` | pkg/execution/mimicry/client.go:215-320 | Over whole runs, besides our Hello a packet is written exactly when some message read in an open state called for it and it could be delivered: the provider's Status or else the received one, at most once; each reply with its id and items, in the form of the version. |
| `Exchanges.ReceiptsAnswerRequests` | pkg/execution/mimicry/message_get_receipts.go:56-128 | Over whole runs each eth/70 receipts packet is written under version 70 and answers a request that the eth/70 decoder reads with its id; each older one is written under another version and answers a request that the older decoder reads. |
| `Exchanges.ReceiptsAreAnswered` | pkg/execution/mimicry/message_get_receipts.go:75-128 | In every open state a request readable in the form of the version in force is answered in that form with the provider's items, unless the provider fails or the packet cannot be delivered. |
| `Exchanges.PublishedExactly` | pkg/execution/mimicry/publish.go:10-69 | Over whole runs subscribers hear of exactly the accepted Hellos, the readable Statuses the provider does not fail on, the readable transactions and announced hashes, and the peer's reason for disconnecting, with the contents received. |
| `Exchanges.GoesOnExactly` | pkg/execution/mimicry/client.go:240-320 | A session goes on after a turn exactly when the turn read a message other than a Disconnect that is readable for the version in force, no provider it needs failed or offered a Status of unknown form, and the packet it called for, if any, was delivered; unknown messages are passed over. |
| `Session.EndIsAnnounced` | pkg/execution/mimicry/client.go:190-213 | Subscribers hear nothing of an end while the session is open, and afterwards have heard of it once, or twice exactly when the turn that closed it could not deliver a receipts reply. |
| `Session.LostReceiptsAnnouncedTwice` | pkg/execution/mimicry/message_get_receipts.go:119-128 | A run in which that happens. |
| `Session.TurnDisconnects` | pkg/execution/mimicry/message_get_receipts.go:119-128 | How many announcements one turn of the loop makes, and exactly when it makes two. |
| `Session.HelloWrites` | pkg/execution/mimicry/message_hello.go:155-184 | An accepted Hello sets the negotiated version and turns compression on; a refused one changes nothing and ends the session. |
| `Client.Client.StartSession` | pkg/execution/mimicry/client.go:215-320 | The receive loop over any sequence of inputs leaves exactly the state of the run, and stops at the first failure. |
| `Client.Client.Dispatch` | pkg/execution/mimicry/client.go:240-318 | The switch leaves the state of the handler for the message's code; unknown codes change nothing. |
| `Client.Client.HandleHello` | pkg/execution/mimicry/message_hello.go:155-184 | Validates, stores the version, publishes, turns compression on and sends a Status unless one was sent. |
| `Client.Client.HandleStatus` | pkg/execution/mimicry/message_status.go:135-167 | Decodes by version, answers with the provider's Status or echoes, at most once. |
| `Client.Client.SendStatus` | pkg/execution/mimicry/message_status.go:102-133 | Writes a Status of a known form and sets the sent flag only when the write succeeded. |
| `Client.Client.HandleGetBlockHeaders` | pkg/execution/mimicry/message_get_block_headers.go:33-74 | Replies with the request's id, and with an empty list when the provider fails. |
| `Client.Client.HandleGetBlockBodies` | pkg/execution/mimicry/message_get_block_bodies.go:32-69 | Replies with the request's id, and fails when the provider does. |
| `Client.Client.HandleGetPooledTransactions` | pkg/execution/mimicry/message_get_pooled_transactions.go:35-46 | Replies with the request's id and no transactions. |
| `Client.Client.HandleGetReceipts` | pkg/execution/mimicry/message_get_receipts.go:75-128 | Replies in the version's form, and announces a disconnect itself when the write fails. |
| `Client.Client.HandlePlain` | pkg/execution/mimicry/message_transactions.go:32-43 | Messages that are only decoded: transactions and announced hashes are published, a decoding failure ends the session. |
| `Client.Client.HandleSessionError` | pkg/execution/mimicry/client.go:190-213 | Announces the disconnect and ends the session. |
| `Client.Client.WriteRLPx` | pkg/execution/mimicry/client.go:195-208 | A delivered packet is appended to what was written, with the version in force. |
| `Client.ClosedForGood` | pkg/execution/mimicry/client.go:215-320 | Once the loop has returned nothing more happens, whatever would have come. |
| `Hello.CapabilityLoopsAgree` | pkg/execution/mimicry/message_hello.go:49-92 | Validation succeeds if and only if the p2p version is at least 5 and the negotiated version is non-zero, and that version is the maximum advertised eth version within [68, 70]. |
| `Hello.RefusalsAreExact` | pkg/execution/mimicry/message_hello.go:49-78 | What each refusal means for the capability list, and which version it reports. |
| `Hello.PeersOfOneKindAgree` | pkg/execution/mimicry/message_hello.go:94-153 | Two clients of this kind accept each other's Hello and settle on version 70. |
| `Hello.HighestIsMaximal` | pkg/execution/mimicry/message_hello.go:80-92 | The scanned version is an upper bound of the accepted ones and, unless 0, one of them. |
| `Hello.Validate` | pkg/execution/mimicry/message_hello.go:49-78 | The validation loop computes the refusal that the three conditions prescribe. |
| `Hello.ETHProtocolVersion` | pkg/execution/mimicry/message_hello.go:80-92 | The negotiation loop computes the highest supported eth version. |
| `Hello.SupportedEthCaps` | pkg/execution/mimicry/message_hello.go:94-108 | The offering loop lists eth/70, eth/69, eth/68 in that order. |
| `Varint.RoundTrip` | pkg/consensus/mimicry/p2p/resp.go:95-180 | For every n below 2^64, decoding its code followed by any bytes yields n and leaves those bytes; the code has at most 10 bytes. |
| `Varint.EncodingIsMinimal` | pkg/consensus/mimicry/p2p/resp.go:167-180 | No accepted byte string spells a number in fewer bytes than the writer uses, and none is longer than 10 bytes. |
| `Varint.PrefixFree` | pkg/consensus/mimicry/p2p/resp.go:167-180 | The codes are prefix-free: a code that begins another number's code, followed by anything, is that number's code. |
| `Varint.BitsAreDroppedSilently` | pkg/consensus/mimicry/p2p/resp.go:95-116 | The reader's number is the sum of (b_i mod 128)·128^i exactly when it took fewer than ten bytes or the tenth is at most 1; otherwise bits are dropped without an error. |
| `Varint.DroppedBits` | pkg/consensus/mimicry/p2p/resp.go:95-116 | Ten bytes that spell 2^64 and are read as 0. |
| `Varint.CanonicalSpelling` | pkg/consensus/mimicry/p2p/resp.go:95-116 | What the reader took is the writer's code of its result exactly when the last byte is not padding and no bit was dropped. |
| `Varint.ReadStep` | pkg/consensus/mimicry/p2p/resp.go:99-115 | One turn of the reader on bits: or-ing the masked byte at its shift adds it modulo 2^64, and the continuation bit is tested exactly. |
| `Varint.Write` | pkg/consensus/mimicry/p2p/req.go:104-117 | The writer's loop on masks and shifts produces the arithmetic code. |
| `Frames.ResponseRoundTrip` | pkg/consensus/mimicry/p2p/resp.go:75-197 | A success frame reads back as its payload and takes exactly its own bytes, whatever follows, if and only if its compressed length is at most 10,000,000; every larger one is refused with its length. |
| `Frames.ErrorFrameIsReported` | pkg/consensus/mimicry/p2p/resp.go:84-92 | An error frame is always reported as an error with its code and everything sent after it. |
| `Frames.ErrorCodeIsReported` | pkg/consensus/mimicry/p2p/resp.go:84-92 | Every code other than 0 is reported as itself, with all data that follows. |
| `Frames.FrameOutcomes` | pkg/consensus/mimicry/p2p/resp.go:95-144 | For every 64-bit length announced after a success code and any bytes that follow: zero, above 10,000,000, cut short, undecodable or read, each exactly in its case, with the bytes taken. |
| `Frames.LengthOutcomes` | pkg/consensus/mimicry/p2p/resp.go:76-116 | An empty stream, a length cut short and a length of ten continuation bytes have their own refusals. |
| `Varint.Refusals` | pkg/consensus/mimicry/p2p/resp.go:95-116 | Fewer than ten bytes with the continuation bit are a truncated number; ten are an overflow, whatever follows. |
| `Frames.NilPayloadIsUnreadable` | pkg/consensus/mimicry/p2p/resp.go:163-188 | A success frame without a payload cannot be read back. |
| `Frames.AcceptedFrames` | pkg/consensus/mimicry/p2p/resp.go:75-144 | On all bytes: an accepted response is a zero code, a readable length between 1 and 10,000,000 and that many bytes that decompress to the result; nothing else is taken. |
| `Frames.BodyRoundTrip` | pkg/consensus/mimicry/p2p/req.go:95-134 | A request's body, which has no code, reads back the same way. |
| `Frames.Stream.ReadVarint` | pkg/consensus/mimicry/p2p/resp.go:95-116 | The reader's loop returns what the bytes spell and consumes exactly those bytes, ten at most. |
| `Frames.Stream.ReadResponseBytes` | pkg/consensus/mimicry/p2p/resp.go:75-144 | Returns the payload or the error the stream determines, and advances the stream exactly as far. |
| `Frames.Stream.WriteResponseBytes` | pkg/consensus/mimicry/p2p/resp.go:148-197 | Appends exactly one frame to the stream. |
| `Frames.Stream.WriteRequestBytes` | pkg/consensus/mimicry/p2p/req.go:95-134 | Appends exactly one body to the stream. |
| `Frames.Stream.WriteBody` | pkg/consensus/mimicry/p2p/resp.go:163-188 | Appends the varint of the compressed length and the compressed bytes, or nothing for a nil payload. |
| `TraceIds.GenerateBeaconTraceIDs` | pkg/ethereum/beacon/trace_id.go:21-48 | The nested loops end; identifier i is base_i when no earlier address has that base, else base_i, a dash and the number of earlier ones; the inner loop ran exactly that often; all identifiers differ; an empty list is an error. |
| `TraceIds.TakenExactly` | pkg/ethereum/beacon/trace_id.go:35-45 | After n addresses the identifiers in use with a base are exactly those with counters below its number of occurrences. |
| `TraceIds.AllDistinct` | pkg/ethereum/beacon/trace_id.go:35-45 | All identifiers of one call differ. |
| `TraceIds.PrefixStable` | pkg/ethereum/beacon/trace_id.go:29-46 | Adding addresses at the end changes no identifier already given. |
| `TraceIds.IdInjective` | pkg/ethereum/beacon/trace_id.go:32-41 | Although a base may contain a dash, base and counter can be read off an identifier. |
| `TraceIds.SpelledOut` | pkg/ethereum/beacon/trace_id.go:29-46 | An identifier is the bare base for the first address with it, else the base, a dash and the number of earlier addresses with that base. |
| `TraceIds.GenerateBeaconTraceID` | pkg/ethereum/beacon/trace_id.go:11-18 | One address alone gets its bare base. |
| `Versions.SplitVersionString` | pkg/ethereum/clients/clients.go:210-235 | The index loop ends for a non-empty separator (or an empty string) and returns the parts. |
| `Versions.PartsAreNonEmptyPieces` | pkg/ethereum/clients/clients.go:210-235 | Those parts are the pieces between leftmost non-overlapping separators with the empty ones dropped. |
| `Text.SplitJoins` | pkg/ethereum/clients/clients.go:217-232 | Splitting loses nothing: the pieces joined with the separator give the string back. |
| `Text.PiecesAreFree` | pkg/ethereum/clients/clients.go:217-232 | No piece contains the separator. |
| `Versions.VersionRoundTrip` | pkg/ethereum/clients/clients.go:150-207 | From name/[v]numbers[suffix]/rest, with any number of dotted numbers and a suffix after a dash or a plus, implementation, version, major, minor and patch (empty when missing) are recovered if and only if the v is present or the major part does not itself begin with one. |
| `Versions.NamesAlone` | pkg/ethereum/clients/clients.go:150-172 | A name alone, with or without a slash after it, has no version; a string of slashes is its own implementation name. |
| `Versions.ParseExecutionClientVersion` | pkg/ethereum/clients/clients.go:150-207 | The parser returns what the parts of the string determine, with every degenerate case. |
| `Topics.TopicRoundTrip` | pkg/consensus/mimicry/p2p/pubsub/v1/topic.go:39-137 | For a pattern with exactly one placeholder and no other percent sign, every fork digest and every subnet below the maximum: parsing the printed name returns the subnet if and only if the pattern has no slash. |
| `Topics.BareNameRoundTrip` | pkg/consensus/mimicry/p2p/pubsub/v1/topic.go:92-137 | The bare base name is read like the full one. |
| `Topics.PrintedExactlyWhenReadable` | pkg/consensus/mimicry/p2p/pubsub/v1/topic.go:75-137 | A topic is printed for a subnet exactly when its name would be read back as that subnet. |
| `Topics.ConstructorAccepts` | pkg/consensus/mimicry/p2p/pubsub/v1/topic.go:55-72 | The constructor accepts exactly the patterns that contain a placeholder, for a maximum above 0, and keeps both as they are. |
| `Topics.FullName` | pkg/consensus/mimicry/p2p/pubsub/v1/topic.go:39-44 | A full name is /eth2/, the four bytes of the fork digest as two lower-case hexadecimal digits each, the high one first, a slash, the base name and /ssz_snappy. |
| `Topics.MiddleDecides` | pkg/consensus/mimicry/p2p/pubsub/v1/topic.go:119-136 | Between prefix and suffix a decimal number below the maximum is the subnet, a larger one below 2^64 is too large, and anything else is no number. |
| `Topics.MismatchExactly` | pkg/consensus/mimicry/p2p/pubsub/v1/topic.go:102-118 | The other refusals: the name lacks the prefix, or has it and lacks the suffix. |
| `Topics.NamesAreDistinct` | pkg/consensus/mimicry/p2p/pubsub/v1/topic.go:39-89 | Distinct subnets or fork digests give distinct names. |
| `Topics.AcceptedNames` | pkg/consensus/mimicry/p2p/pubsub/v1/topic.go:102-136 | A base name is read as a subnet exactly when it is prefix, decimal digits with that value below the maximum, and suffix. |
| `Topics.AcceptedButNotPrinted` | pkg/consensus/mimicry/p2p/pubsub/v1/topic.go:127-136 | An accepted base name is the printed one exactly when its number has no padding zero. |
| `Topics.CrashesExactly` | pkg/consensus/mimicry/p2p/pubsub/v1/topic.go:111-125 | The parser slices out of range exactly when a name has both prefix and suffix but is shorter than the two together. |
| `Topics.CrashHappens` | pkg/consensus/mimicry/p2p/pubsub/v1/topic.go:111-125 | Such a name exists for a pattern the constructor accepts. |
| `Topics.StrippedExactly` | pkg/consensus/mimicry/p2p/pubsub/v1/topic.go:92-101 | Any name with the root, something without a slash and a slash is stripped to what follows, up to the next slash; a name without the root or without a slash after it is read as it stands. |
| `Topics.BaseOfFullName` | pkg/consensus/mimicry/p2p/pubsub/v1/topic.go:93-101 | Stripping a full name yields its base name up to the first slash. |
| `Registries.OrderIndependence` | pkg/consensus/mimicry/p2p/pubsub/v1/registry.go:126-152 | The lookup of a name is the same in every map iteration order if and only if all patterns that decide on the name decide alike. |
| `Registries.PrefixFreeIsDeterministic` | pkg/consensus/mimicry/p2p/pubsub/v1/registry.go:126-152 | When no registered pattern's prefix begins another's, the lookup is a function of the name. |
| `Registries.SubnetReachesItsPattern` | pkg/consensus/mimicry/p2p/pubsub/v1/registry.go:126-152 | Then every subnet's topic of a registered pattern gets that pattern's handler, unless its full name is registered by itself, which wins. |
| `Registries.SubnetMessageIsDelivered` | pkg/consensus/mimicry/p2p/pubsub/v1/gossipsub.go:346-410 | End to end: a message published on a subnet's topic is judged and processed as itself by whoever looks the topic up, in whatever orders the two sides iterate, with or without a validator or a processor. |
| `Registries.TriedExactly` | pkg/consensus/mimicry/p2p/pubsub/v1/registry.go:137-149 | In a lookup a pattern takes every number below 2^64 - 1; the largest 64-bit number itself is not found. |
| `Registries.OverlapMatters` | pkg/consensus/mimicry/p2p/pubsub/v1/registry.go:137-149 | Two patterns that both accept a name hand it to either of their handlers, as the iteration order goes. |
| `Registries.OverlapHappens` | pkg/consensus/mimicry/p2p/pubsub/v1/registry.go:137-149 | Two well-formed patterns that both accept one name. |
| `Registries.SearchFindsDecider` | pkg/consensus/mimicry/p2p/pubsub/v1/registry.go:137-149 | In any order the loop ends with a pattern that decides, or finds nothing when none does. |
| `Registries.Refusal` | pkg/consensus/mimicry/p2p/pubsub/v1/registry.go:37-61 | A registration is accepted exactly when name and handler are given, the handler is valid and the name is new; each refusal says which of these, in this order, is not so. |
| `Registries.Register` | pkg/consensus/mimicry/p2p/pubsub/v1/registry.go:37-76 | Either refuses and changes nothing, or adds exactly the erased handler under the topic's name. |
| `Registries.RegisterSubnet` | pkg/consensus/mimicry/p2p/pubsub/v1/registry.go:81-121 | The same for a pattern. |
| `Registries.Registry.GetHandler` | pkg/consensus/mimicry/p2p/pubsub/v1/registry.go:126-152 | The loop over the map, in whatever order it yields, returns the exact registration or the result of the search in some order of all patterns. |
| `Registries.Registry.HasHandler` | pkg/consensus/mimicry/p2p/pubsub/v1/registry.go:156-158 | Says whether such a lookup finds a handler. |
| `Registries.Registry.Clear` | pkg/consensus/mimicry/p2p/pubsub/v1/registry.go:162-169 | Removes all registrations. |
| `Registries.Registry.TopicCount` | pkg/consensus/mimicry/p2p/pubsub/v1/registry.go:172-177 | Counts the registrations by name that were accepted since the last Clear. |
| `Registries.Registry.SubnetPatternCount` | pkg/consensus/mimicry/p2p/pubsub/v1/registry.go:180-185 | Counts the registrations by pattern that were accepted since the last Clear. |
| `Overlaps.OrderFreeExactly` | pkg/consensus/mimicry/p2p/pubsub/v1/registry.go:126-152 | A registry gives every name one answer in all iteration orders if and only if no two patterns clash: they have different handlers and both accept one of finitely many names built from their prefixes and suffixes, or one crashes on such a name that the other accepts. |
| `Overlaps.CommonName` | pkg/consensus/mimicry/p2p/pubsub/v1/topic.go:102-136 | Two patterns accept some common topic name exactly when both accept the longer prefix with a zero and the longer suffix, or the longer prefix with an end of the other pattern's suffix. |
| `Overlaps.CrashIsListed` | pkg/consensus/mimicry/p2p/pubsub/v1/topic.go:111-125 | A pattern crashes only on names made of its prefix and what is left of a suffix that overlaps it. |
| `Pipeline.PublishedIsReceived` | pkg/consensus/mimicry/p2p/pubsub/v1/gossipsub.go:516-616 | Bytes published for a message reach the typed validator and the typed processor as that message, unless the encoded size exceeds a non-zero compressor limit; then, and only then, they are turned away before the typed validator. |
| `Pipeline.ErasedHandlerActsTyped` | pkg/consensus/mimicry/p2p/pubsub/v1/registry.go:189-239 | On all bytes, a registered handler's validator and processor see the same typed message as the unerased handler would, and no type assertion fails. |
| `Pipeline.OnlyTheGlobalListenerHears` | pkg/consensus/mimicry/p2p/pubsub/v1/registry.go:65-73 | Registration loses the topic's own handler for invalid payloads: only the global one is ever told. |
| `Pipeline.VerdictExactly` | pkg/consensus/mimicry/p2p/pubsub/v1/gossipsub.go:516-616 | The verdict on all bytes: accept exactly when they open to a message the typed validator accepts, ignore exactly when it ignores it, none exactly when decoding crashes, and reject otherwise. |
| `Pipeline.TurnedAwayExactly` | pkg/consensus/mimicry/p2p/pubsub/v1/gossipsub.go:516-600 | Bytes are turned away for not decompressing or not decoding exactly when they do not, alike by validator and processor, and never for want of a decoder. |
| `Pipeline.ValidExactly` | pkg/consensus/mimicry/p2p/pubsub/v1/handler.go:194-208 | A handler is valid exactly when it validates or processes and can decode; without either function it has no handler, whatever else. |
| `Pipeline.ErasureKeeps` | pkg/consensus/mimicry/p2p/pubsub/v1/registry.go:61-76 | Registration keeps score parameters, compressor and which of validator and processor there are, and a valid handler stays valid. |
| `Pipeline.OtherTypesAreRefused` | pkg/consensus/mimicry/p2p/pubsub/v1/registry.go:207-239 | A message of another type is rejected by a registered validator and failed by a registered processor. |
| `Pipeline.PublishOutcome` | pkg/consensus/mimicry/p2p/pubsub/v1/gossipsub.go:346-410 | Through a registered handler a message of another type is never sent, one of the right type crashes exactly when there is no encoder or the encoder crashes, and the no-encoder error is never given; nothing is sent before the start or without a handler. |
| `Pipeline.OutputIsBounded` | pkg/consensus/mimicry/p2p/compression/snappy.go:24-41 | Whatever the input, decompression yields the decoded bytes exactly when they exist and fit the limit. |
| `Pipeline.LimitIsCheckedFirst` | pkg/consensus/mimicry/p2p/compression/snappy.go:24-41 | For any codec: data decompress exactly when they decode and announce a length that, under a limit, is neither negative nor above it. |
| `Pipeline.CompressionRoundTrip` | pkg/consensus/mimicry/p2p/compression/snappy.go:19-41 | Compressed data decompresses to itself exactly when it fits the limit. |
| `AttestationPools.StoredIsFirsts` | pkg/consensus/mimicry/p2p/eth/examples/attestation_handler.go:484-508 | After any calls of Add the pool holds the first attestation of each of the first keys offered, up to its maximum size (none for a negative one), in order. |
| `AttestationPools.SameKey` | pkg/consensus/mimicry/p2p/eth/examples/attestation_handler.go:489 | Two attestations share a key exactly when root and committee index agree, whatever their slots. |
| `AttestationPools.StoredIsDistinct` | pkg/consensus/mimicry/p2p/eth/examples/attestation_handler.go:491-500 | Stored attestations have distinct keys and never exceed the maximum size. |
| `AttestationPools.EachInItsPlace` | pkg/consensus/mimicry/p2p/eth/examples/attestation_handler.go:502-505 | Every stored attestation stands in the list of its slot, after exactly the earlier ones of that slot. |
| `AttestationPools.NothingElse` | pkg/consensus/mimicry/p2p/eth/examples/attestation_handler.go:502-505 | A slot's list holds only stored attestations of that slot, each from its own insertion. |
| `AttestationPools.LengthsAddUp` | pkg/consensus/mimicry/p2p/eth/examples/attestation_handler.go:511-524 | Over any distinct slots that cover the pool the lengths of the lists add up to the number stored. |
| `AttestationPools.RefusedExactly` | pkg/consensus/mimicry/p2p/eth/examples/attestation_handler.go:491-500 | An addition is refused with an error exactly when the pool holds no attestation with its key afterwards. |
| `AttestationPools.AttestationPool.Add` | pkg/consensus/mimicry/p2p/eth/examples/attestation_handler.go:484-508 | A duplicate or refused attestation changes nothing, another one is appended; an error is returned exactly for a new key in a full pool; the two maps keep agreeing. |
| `AttestationPools.AttestationPool.GetBySlot` | pkg/consensus/mimicry/p2p/eth/examples/attestation_handler.go:511-516 | Returns exactly the stored attestations of the slot, in insertion order. |
| `AttestationPools.AttestationPool.Count` | pkg/consensus/mimicry/p2p/eth/examples/attestation_handler.go:519-524 | Returns the number stored, which never exceeds the maximum size and is the sum of the lists' lengths. |
| `Subscriptions.RunIsSound` | pkg/consensus/mimicry/p2p/pubsub/v1/subscription.go:96-209 | Over any sequence of Add, Remove, Set, Clear and direct cancellation, with objects possibly shared: all subnets stay below the maximum, and each cancel function has fired exactly once if its subscription is cancelled and else never. |
| `Subscriptions.CancelledForGood` | pkg/consensus/mimicry/p2p/pubsub/v1/subscription.go:40-66 | Cancellation is permanent. |
| `Subscriptions.LostExactly` | pkg/consensus/mimicry/p2p/pubsub/v1/subscription.go:138-168 | A live held subscription ends up neither held nor cancelled exactly when a successful Set names all its subnets but the subscription nowhere. |
| `Subscriptions.StaysLiveExactly` | pkg/consensus/mimicry/p2p/pubsub/v1/subscription.go:96-209 | From a state in which everything held is live, that is so after an operation if and only if it hands over nothing cancelled or about to be dropped and drops nothing that stays held at another subnet. |
| `Subscriptions.HeldIsLive` | pkg/consensus/mimicry/p2p/pubsub/v1/subscription.go:96-209 | Over whole runs: everything held is live in all states if and only if every operation was safe in the state it found. |
| `Subscriptions.ReplacingLoses` | pkg/consensus/mimicry/p2p/pubsub/v1/subscription.go:138-168 | Such a Set: replacing one subscription by another at its subnet forgets the first without cancelling it. |
| `Subscriptions.AddingAgainKills` | pkg/consensus/mimicry/p2p/pubsub/v1/subscription.go:108-113 | Adding a subscription again at its own subnet leaves a cancelled one held. |
| `Subscriptions.Cancel` | pkg/consensus/mimicry/p2p/pubsub/v1/subscription.go:40-54 | Safe on nil and when repeated; the cancel function fires at the first call only. |
| `Subscriptions.IsCancelled` | pkg/consensus/mimicry/p2p/pubsub/v1/subscription.go:57-66 | A nil subscription counts as cancelled; for another with a cancel function the answer tells whether that function was called. |
| `Subscriptions.SubnetSubscription.Add` | pkg/consensus/mimicry/p2p/pubsub/v1/subscription.go:96-116 | Refuses nil and subnets out of range without any change; else cancels exactly what was held there and stores the new one. |
| `Subscriptions.SubnetSubscription.Remove` | pkg/consensus/mimicry/p2p/pubsub/v1/subscription.go:120-133 | Cancels and removes exactly what was held at the subnet. |
| `Subscriptions.SubnetSubscription.Set` | pkg/consensus/mimicry/p2p/pubsub/v1/subscription.go:138-168 | A failed Set changes nothing; a successful one holds exactly the non-nil entries and cancels exactly the objects held at dropped subnets. |
| `Subscriptions.SubnetSubscription.CancelMissing` | pkg/consensus/mimicry/p2p/pubsub/v1/subscription.go:149-154 | The loop cancels exactly what is held outside the given subnets, in any iteration order. |
| `Subscriptions.SubnetSubscription.Active` | pkg/consensus/mimicry/p2p/pubsub/v1/subscription.go:172-185 | Lists each live subnet once and nothing else. |
| `Subscriptions.SubnetSubscription.Count` | pkg/consensus/mimicry/p2p/pubsub/v1/subscription.go:212-225 | Equals the number of live subnets, hence the length of Active. |
| `Subscriptions.SubnetSubscription.Get` | pkg/consensus/mimicry/p2p/pubsub/v1/subscription.go:189-194 | What it finds and is not cancelled is exactly what Active lists; what it finds is below the maximum and sound. |
| `Subscriptions.SubnetSubscription.Clear` | pkg/consensus/mimicry/p2p/pubsub/v1/subscription.go:197-209 | Cancels everything held and empties the manager. |

## Left out

- Crawler, Stop racing with channel sends: closing the two channels is not modelled; shutdown is a flag that stops enqueuing, followed at some later time by the wipe of the two maps.
- Crawler, `RetryInfo.LastAttempt` and all clocks: sleeping and time-outs are steps or answers that may come at any time; cache expiry is a step that may come at any time.
- Crawler, DialConcurrency: the machine allows any number of dials at once, which includes every setting. A dialer that ends because its context was cancelled is not distinguished from one that takes no further step.
- Crawler, the back-off delay: computed on integers; the source multiplies two float64 values, which is exact below 2^53 nanoseconds.
- Crawler, the attempts read by the failure handler after it released the read lock: taken as one step with the lookup. The status request and the metadata request are one section with one answer. A nil status without an error is not modelled.
- Crawler, peer identity: a node record stands for what its key and addresses yield; deriving it is a field of the record. Metrics, logging, beacon node, discovery internals and the wall-clock fields of a successful crawl are left out.
- CrawlAccounting.ExactAccounting: stated for states in which no goroutine is between the tracker read and its outcome for the peer; in other states the calls under way make up the difference.
- Client, RLPx: encryption, deadlines and the connection itself are left out; a packet is written or not as an input says. Writes by other goroutines (`Transactions`, `GetPooledTransactions`) and the pending map behind `GetPooledTransactions` are left out.
- Client, message contents: headers, bodies, receipts and pooled transactions are opaque items; a headers request that decodes without a query is not distinguished. The conversion of a message code from uint64 to int is the identity on all codes of interest.
- Frames, stream errors: a stream can end early, but deadlines, failing writes and CloseWrite are left out, as are `ReadResponse`, `WriteResponse` and the SSZ encoder they use.
- Frames, conformance: only the frame's own round trip is claimed; it prefixes the compressed length and uses block compression, unlike the SSZ-snappy strategy of the consensus specifications.
- Topics.TopicRoundTrip: formatting is modelled for patterns with one placeholder and no other percent sign; what Sprintf prints for other patterns is left out. Parsing is modelled for all patterns.
- Topics, bytes: strings are sequences of characters, and all tests are on ASCII characters; UTF-8 is left out.
- Pipeline.ErasedHandlerActsTyped: message types are concrete; for an interface type a nil value would lose its type when erased. Contexts, metrics and events are left out.
- Pipeline.PublishedIsReceived: what the network does between publishing and receiving, including its own validation and size limits, is left out, as are Subscribe, Stop and the life of a processor.
- Registries, locks: each method is one step; the registry has no concurrency of its own.
- TraceIds, the hash: a parameter that gives eight characters for every address.
- Versions.SplitVersionString: requires a non-empty separator for a non-empty string, because the loop would not end otherwise.
- AttestationPools, aliasing: attestations and the returned lists are values; a caller that changes an attestation or list it holds is not modelled. Nor is an attestation without data, which panics.
- Subscriptions, locks and contexts: the cancel function is a counter of calls. Set's two checks of one map are its loops; the loop that cancels is a method of its own, shared with Clear.
- Known-network tables, ENR getters, status and metadata field copies, root printing, fork-digest packing and the test utilities: easy members that would add little.
