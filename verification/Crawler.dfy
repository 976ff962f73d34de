/**
 * The crawler object. Its methods update the tracker, the stored ENRs, the cool-off set and the
 * queues in place; each is proved to do what the sections of the interleaved machine do when the
 * method runs uninterrupted.
 */
module Crawler {
  import opened Common
  import opened CrawlErrors
  import opened CrawlState
  import opened CrawlMachine
  import opened CrawlHandler

  /** A tracker entry, updated in place; the retry queue is sent copies of it. */
  class RetryEntry {
    var peer: ConnectablePeer
    var enr: Node
    var attempts: int
    var backoffDelay: int

    constructor (peer: ConnectablePeer, enr: Node, backoff: int)
      ensures Copy() == RetryInfo(peer, enr, 0, backoff)
    {
      this.peer := peer;
      this.enr := enr;
      this.attempts := 0;
      this.backoffDelay := backoff;
    }

    function Copy(): RetryInfo
      reads this
    {
      RetryInfo(peer, enr, attempts, backoffDelay)
    }
  }

  class Crawler {
    const config: Config
    var peersToDial: seq<ConnectablePeer>
    var retryQueue: seq<RetryInfo>
    var retryTracker: map<PeerID, RetryEntry>
    var peerENRs: map<PeerID, Node>
    var duplicateCache: set<PeerID>
    var isShutdown: bool
    ghost var log: seq<Event>
    ghost var entries: set<RetryEntry>

    /** The tracker's entries are ours, and no two peers share one. */
    ghost predicate Valid()
      reads this
    {
      && (forall p <- retryTracker :: retryTracker[p] in entries)
      && (forall p, q :: p in retryTracker && q in retryTracker && retryTracker[p] == retryTracker[q] ==> p == q)
    }

    ghost function View(): Shared
      requires Valid()
      reads this, entries
    {
      Shared(peersToDial, retryQueue, map p <- retryTracker :: retryTracker[p].Copy(),
             peerENRs, duplicateCache, isShutdown, log)
    }

    constructor (config: Config)
      ensures Valid() && this.config == config && View() == INITIAL
    {
      this.config := config;
      peersToDial, retryQueue, retryTracker := [], [], map[];
      peerENRs, duplicateCache, isShutdown, log, entries := map[], {}, false, [], {};
    }

    ghost method Note(event: Event)
      requires Valid()
      modifies this`log
      ensures Valid() && View() == old(View()).Note(event)
    {
      log := log + [event];
    }

    method EmitFailedCrawl(p: PeerID, err: CrawlError, ghost reason: FailReason)
      requires Valid()
      modifies this`log
      ensures Valid() && View() == Report(old(View()), p, err, reason)
    {
      Note(FailedCrawl(p, if p in peerENRs then Some(peerENRs[p]) else None, err, reason));
    }

    /** Removes a peer's tracker entry. */
    method Forget(p: PeerID, ghost event: Event)
      requires Valid()
      modifies this`retryTracker, this`log
      ensures Valid()
      ensures View() == old(View()).(tracker := old(View()).tracker - {p}).Note(event)
    {
      retryTracker := retryTracker - {p};
      Note(event);
    }

    /** The first failure of a peer gives it a tracker entry with no attempts yet. */
    method Track(p: PeerID, peer: ConnectablePeer, enr: Node)
      requires Valid()
      modifies this`retryTracker, this`entries
      ensures Valid() && fresh(entries - old(entries))
      ensures p in retryTracker && (p in old(retryTracker) ==> retryTracker == old(retryTracker))
      ensures var before := old(View());
              View() == if p in before.tracker then before
                        else before.(tracker := before.tracker[p := RetryInfo(peer, enr, 0, config.retryBackoff)])
    {
      if p !in retryTracker {
        var entry := new RetryEntry(peer, enr, config.retryBackoff);
        retryTracker, entries := retryTracker[p := entry], entries + {entry};
      }
    }

    /** Counts one more attempt in a peer's entry, with its delay. */
    method CountAttempt(p: PeerID) returns (entry: RetryEntry)
      requires Valid() && p in retryTracker
      modifies retryTracker[p]
      ensures Valid() && entry == retryTracker[p] && entry.attempts == old(retryTracker[p].attempts) + 1
      ensures entry.Copy() == old(retryTracker[p].Copy()).(attempts := entry.attempts,
                                                           backoffDelay := config.retryBackoff * entry.attempts)
      ensures View() == old(View()).(tracker := old(View()).tracker[p := entry.Copy()])
    {
      entry := retryTracker[p];
      entry.attempts := entry.attempts + 1;
      entry.backoffDelay := config.retryBackoff * entry.attempts;
    }

    /** Frees the peer from its cool-off and queues a copy of its entry, unless stopping or full. */
    method Enqueue(p: PeerID, entry: RetryEntry)
      requires Valid()
      modifies this`duplicateCache, this`retryQueue, this`log
      ensures Valid()
      ensures var before := old(View());
              var freed := before.(recent := before.recent - {p});
              View() == if before.stopping then before.Note(Dropped(p, entry.attempts, Stopping))
                        else if |before.retryQueue| < RETRY_QUEUE_CAPACITY then
                          freed.(retryQueue := before.retryQueue + [entry.Copy()]).Note(Scheduled(p, entry.attempts))
                        else freed.Note(Dropped(p, entry.attempts, QueueFull))
    {
      if isShutdown {
        Note(Dropped(p, entry.attempts, Stopping));
        return;
      }
      duplicateCache := duplicateCache - {p};
      if |retryQueue| < RETRY_QUEUE_CAPACITY {
        retryQueue := retryQueue + [entry.Copy()];
        Note(Scheduled(p, entry.attempts));
      } else {
        Note(Dropped(p, entry.attempts, QueueFull));
      }
    }

    method ScheduleRetry(p: PeerID, peer: ConnectablePeer, enr: Node, err: CrawlError)
      requires Valid()
      modifies this, entries
      ensures Valid() && fresh(entries - old(entries))
      ensures View() == CrawlState.ScheduleRetry(config, old(View()), p, peer, enr, err)
    {
      if !IsRetryable(err) || config.maxRetryAttempts == 0 {
        Note(Refused(p));
        return;
      }
      ScheduleViaTracker(config, View(), p, peer, enr, err);
      Track(p, peer, enr);
      RetryTracked(p);
    }

    /** The scheduler's work on a peer that has a tracker entry. */
    method RetryTracked(p: PeerID)
      requires Valid() && p in retryTracker
      modifies this`retryTracker, this`duplicateCache, this`retryQueue, this`log, retryTracker[p]
      ensures Valid()
      ensures View() == ScheduleTracked(config, old(View()), p)
    {
      if retryTracker[p].attempts >= config.maxRetryAttempts {
        Forget(p, Lost(p));
        return;
      }
      var entry := CountAttempt(p);
      Enqueue(p, entry);
    }

    method HandleCrawlFailure(p: PeerID, err: CrawlError)
      requires Valid()
      modifies this, entries
      ensures Valid() && fresh(entries - old(entries))
      ensures View() == Decision(config, old(View()), p, err)
    {
      Note(Entered(p));
      if !IsRetryable(err) {
        EmitFailedCrawl(p, err, NotRetryable);
        return;
      }
      if config.maxRetryAttempts == 0 {
        EmitFailedCrawl(p, err, RetriesDisabled);
        return;
      }
      Note(Retryable(p));
      if p in retryTracker && retryTracker[p].attempts >= config.maxRetryAttempts {
        Forget(p, Forgotten(p));
        EmitFailedCrawl(p, err, AttemptsExhausted);
        return;
      }
      RetryOrReport(p, err);
    }

    /** The second half of the handler: a peer without a usable ENR is reported, others are retried. */
    method RetryOrReport(p: PeerID, err: CrawlError)
      requires Valid()
      modifies this, entries
      ensures Valid() && fresh(entries - old(entries))
      ensures View() == WithEnr(config, old(View()), p, err)
    {
      if p !in peerENRs {
        EmitFailedCrawl(p, err, NoEnr);
        return;
      }
      var enr := peerENRs[p];
      match DeriveDetails(enr) {
        case None => EmitFailedCrawl(p, err, Underivable);
        case Some(peer) => ScheduleRetry(p, peer, enr, err);
      }
    }

    /** `check` is the outcome of the ENR check; the result says whether the dialer sees an error. */
    method ConnectToPeer(cp: ConnectablePeer, check: Option<NetworkCheckError>, connected: bool, dialFails: bool)
      returns (failed: bool)
      requires Valid()
      modifies this, entries
      ensures Valid() && fresh(entries - old(entries))
      ensures var answer := if check.Some? then OffNetwork(check.value)
                            else if connected then AlreadyConnected else Proceed;
              View() == DialAttempt(config, old(View()), cp, answer)
      ensures failed == (check.None? && cp.id !in old(duplicateCache) && (connected || dialFails))
    {
      if check.Some? {
        HandleCrawlFailure(cp.id, NewCrawlError(check.value.Text()));
        return false;
      }
      if cp.id in duplicateCache {
        HandleCrawlFailure(cp.id, TOO_SOON);
        return false;
      }
      if connected {
        return true;
      }
      peerENRs := peerENRs[cp.id := cp.enode];
      return dialFails;
    }

    /** Waits for the identify protocol: one poll per tick until the agent version is known or time is up. */
    static method AwaitIdentify(polls: seq<bool>, knownAtEnd: bool, stopped: bool) returns (answer: Answer)
      ensures answer == IdentifyAnswer(polls, knownAtEnd, stopped)
      ensures answer == Proceed <==> knownAtEnd || exists i :: 0 <= i < |polls| && polls[i]
      ensures answer == Cancelled <==> answer != Proceed && stopped
      ensures answer == IdentifyTimedOut <==> answer != Proceed && !stopped
    {
      var completed, i := false, 0;
      while i < |polls| && !completed
        invariant i <= |polls|
        invariant completed <==> true in polls[..i]
      {
        completed := polls[i];
        i := i + 1;
      }
      assert completed ==> true in polls;
      if completed || knownAtEnd {
        return Proceed;
      }
      assert polls[..i] == polls;
      return if stopped then Cancelled else IdentifyTimedOut;
    }

    /** Starts the peer's cool-off. */
    method Remember(p: PeerID)
      requires Valid()
      modifies this`duplicateCache
      ensures Valid() && View() == old(View()).(recent := old(View()).recent + {p})
    {
      duplicateCache := duplicateCache + {p};
    }

    method HandlePeerConnected(p: PeerID, polls: seq<bool>, knownAtEnd: bool, stopped: bool,
                               request: Answer, report: Answer, depart: Answer)
      requires Valid()
      modifies this, entries
      ensures Valid() && fresh(entries - old(entries))
      ensures var identify := IdentifyAnswer(polls, knownAtEnd, stopped);
              View() == Callback(config, old(View()), p, identify, request, report, depart)
    {
      ghost var before := View();
      ghost var identify := IdentifyAnswer(polls, knownAtEnd, stopped);
      if isShutdown || p in duplicateCache {
        CallbackSkips(config, before, p, identify, request, report, depart);
        return;
      }
      var answer := AwaitIdentify(polls, knownAtEnd, stopped);
      if answer.Cancelled? {
        CallbackSkips(config, before, p, identify, request, report, depart);
        return;
      }
      FinishIdentify(p, answer.IdentifyTimedOut?, request, report, depart);
      CallbackGoesOn(config, before, View(), p, identify, request, report, depart);
    }

    /** The callback after the wait for the identify protocol. */
    method FinishIdentify(p: PeerID, timedOut: bool, request: Answer, report: Answer, depart: Answer)
      requires Valid()
      modifies this, entries
      ensures Valid() && fresh(entries - old(entries))
      ensures View() == AfterWait(config, old(View()), p, timedOut, request, report, depart)
    {
      if timedOut {
        HandleCrawlFailure(p, IDENTIFY_TIMEOUT);
      } else {
        Identified(p, request, report, depart);
      }
    }

    /** The callback once the peer has identified itself. */
    method Identified(p: PeerID, request: Answer, report: Answer, depart: Answer)
      requires Valid()
      modifies this, entries
      ensures Valid() && fresh(entries - old(entries))
      ensures View() == Requested(config, old(View()).(recent := old(View()).recent + {p}), p, request, report, depart)
    {
      Remember(p);
      MakeRequests(p, request, report, depart);
    }

    /** The callback's status and metadata requests and what follows from them. */
    method MakeRequests(p: PeerID, request: Answer, report: Answer, depart: Answer)
      requires Valid()
      modifies this, entries
      ensures Valid() && fresh(entries - old(entries))
      ensures View() == Requested(config, old(View()), p, request, report, depart)
    {
      match request {
        case Cancelled =>
        case StatusFailed => HandleCrawlFailure(p, FAILED_STATUS);
        case ForkMismatch(details) => HandleCrawlFailure(p, STATUS_FORK_DIGEST.WithDetails(details));
        case MetadataFailed => HandleCrawlFailure(p, FAILED_METADATA);
        case _ => ReportSuccess(p, report, depart);
      }
    }

    method ReportSuccess(p: PeerID, report: Answer, depart: Answer)
      requires Valid()
      modifies this`retryTracker, this`peerENRs, this`log
      ensures Valid()
      ensures View() == Departed(old(View()), p, report, depart)
    {
      Forget(p, Succeeded(p));
      if report.NotConnected? || p !in peerENRs {
        return;
      }
      Note(SuccessfulCrawl(p, peerENRs[p]));
      if !depart.NotConnected? {
        DisconnectFromPeer(p, true);
      }
    }

    /** The part of a departure that touches the crawler: the goodbye is left to the network. */
    method DisconnectFromPeer(p: PeerID, connected: bool)
      requires Valid()
      modifies this`peerENRs
      ensures Valid()
      ensures View() == if connected then old(View()).(enrs := old(View()).enrs - {p}) else old(View())
    {
      if !connected {
        return;
      }
      peerENRs := peerENRs - {p};
    }

    method HandlePeerDisconnected(p: PeerID)
      requires Valid()
      modifies this`peerENRs
      ensures Valid()
      ensures forall tasks, waiting :: State(View(), tasks, waiting)
                == Next(config, State(old(View()), tasks, waiting), Disconnected(p))
    {
      peerENRs := peerENRs - {p};
    }

    /** One turn of a dialer: takes the next peer, unless the crawler is stopping. */
    method TakeDial() returns (taken: Option<ConnectablePeer>)
      requires Valid()
      modifies this`peersToDial, this`log
      ensures Valid()
      ensures taken == if old(peersToDial) == [] || isShutdown then None else Some(old(peersToDial)[0])
      ensures forall tasks, waiting :: State(View(), if taken.None? then tasks else tasks + [Dialing(taken.value)],
          waiting)
                == Next(config, State(old(View()), tasks, waiting), Step.TakeDial)
    {
      taken := None;
      if peersToDial != [] {
        var cp := peersToDial[0];
        peersToDial := peersToDial[1..];
        if !isShutdown {
          Note(Dialed(cp.id));
          taken := Some(cp);
        }
      }
    }

    /** The first half of a turn of the retry worker, before it sleeps. */
    method TakeRetry() returns (taken: Option<RetryInfo>)
      requires Valid()
      modifies this`retryQueue
      ensures Valid()
      ensures forall tasks :: State(View(), tasks, taken)
                == Next(config, State(old(View()), tasks, None), Step.TakeRetry)
    {
      taken := None;
      if retryQueue != [] {
        var info := retryQueue[0];
        retryQueue := retryQueue[1..];
        if !isShutdown {
          taken := Some(info);
        }
      }
    }

    /** The second half, after the sleep; `done` says that the worker is free again. */
    method Requeue(info: RetryInfo, cancelled: bool) returns (done: bool)
      requires Valid()
      modifies this`peersToDial
      ensures Valid()
      ensures forall tasks :: State(View(), tasks, if done then None else Some(info))
                == Next(config, State(old(View()), tasks, Some(info)), Step.Requeue(cancelled))
    {
      if cancelled {
        return true;
      }
      if |peersToDial| >= DIAL_QUEUE_CAPACITY {
        return false;
      }
      peersToDial := peersToDial + [info.peer];
      return true;
    }

    method HandleNewDiscoveryNode(node: Node, onNetwork: bool)
      requires Valid()
      modifies this`peersToDial, this`log
      ensures Valid()
      ensures forall tasks, waiting :: State(View(), tasks, waiting)
                == Next(config, State(old(View()), tasks, waiting), Discover(node, onNetwork))
    {
      if isShutdown {
        return;
      }
      var details := DeriveDetails(node);
      if details.Some? && onNetwork && |peersToDial| < DIAL_QUEUE_CAPACITY {
        peersToDial := peersToDial + [details.value];
        Note(Arrived(details.value.id));
      }
    }

    method Stop()
      requires Valid()
      modifies this`isShutdown
      ensures Valid()
      ensures forall tasks, waiting :: State(View(), tasks, waiting)
                == Next(config, State(old(View()), tasks, waiting), Step.Stop)
    {
      isShutdown := true;
    }

    /** The end of Stop, after the workers have finished or the wait for them timed out. */
    method Wipe()
      requires Valid() && isShutdown
      modifies this`peerENRs, this`retryTracker, this`log
      ensures Valid()
      ensures forall tasks, waiting :: State(View(), tasks, waiting)
                == Next(config, State(old(View()), tasks, waiting), Step.Wipe)
    {
      peerENRs := map[];
      retryTracker := map[];
      Note(Wiped);
    }
  }

  /** How the wait ends: identified if some poll or the last look found an agent version. */
  function IdentifyAnswer(polls: seq<bool>, knownAtEnd: bool, stopped: bool): Answer {
    if true in polls || knownAtEnd then Proceed else if stopped then Cancelled else IdentifyTimedOut
  }
}
