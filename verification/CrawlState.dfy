/**
 * The crawler's shared state and the atomic sections of its goroutines. A section is the code a
 * goroutine runs under one lock, or one answer of the outside world; `Section` says what one
 * section does to the shared state and where the goroutine goes next.
 */
module CrawlState {
  import opened Common
  import opened CrawlErrors

  type PeerID = nat

  /**
   * A node record. `peer` stands for what the record's key and addresses yield: a peer identity,
   * or nothing when no connectable peer can be derived from it.
   */
  datatype Node = Node(record: nat, peer: Option<PeerID>)

  datatype ConnectablePeer = ConnectablePeer(id: PeerID, enode: Node)

  function DeriveDetails(node: Node): Option<ConnectablePeer> {
    match node.peer
    case None => None
    case Some(id) => Some(ConnectablePeer(id, node))
  }

  datatype RetryInfo = RetryInfo(peer: ConnectablePeer, enr: Node, attempts: int, backoffDelay: int)

  datatype Config = Config(maxRetryAttempts: int, retryBackoff: int)

  const DIAL_QUEUE_CAPACITY := 10000
  const RETRY_QUEUE_CAPACITY := 1000

  datatype DropReason = Stopping | QueueFull

  /** Why a failed crawl is reported instead of retried. */
  datatype FailReason = NotRetryable | RetriesDisabled | AttemptsExhausted | NoEnr | Underivable

  /** What an observer of the crawler would note down, in order. */
  datatype Event =
    | Arrived(peer: PeerID)                     // queued by discovery, or connected without a dial
    | Dialed(peer: PeerID)                      // taken from the dial queue by a dialer
    | Entered(peer: PeerID)                     // a failure handler was called
    | Retryable(peer: PeerID)                   // the handler reached the retry tracker
    | Forgotten(peer: PeerID)                   // the handler removed an exhausted entry
    | Scheduled(peer: PeerID, attempt: int)     // one more attempt counted and queued
    | Dropped(peer: PeerID, attempt: int, cause: DropReason) // counted but not queued
    | Refused(peer: PeerID)                     // a guard of the scheduler turned the call away
    | Lost(peer: PeerID)                        // the scheduler found the attempts used up
    | Succeeded(peer: PeerID)                   // metadata received, entry removed
    | Wiped                                     // Stop emptied the tracker
    | FailedCrawl(peer: PeerID, enr: Option<Node>, error: CrawlError, reason: FailReason)
    | SuccessfulCrawl(peer: PeerID, node: Node)

  datatype Shared = Shared(
    dialQueue: seq<ConnectablePeer>,
    retryQueue: seq<RetryInfo>,
    tracker: map<PeerID, RetryInfo>,
    enrs: map<PeerID, Node>,
    recent: set<PeerID>,
    stopping: bool,
    log: seq<Event>)
  {
    function Note(e: Event): Shared {
      this.(log := log + [e])
    }

    function Attempts(p: PeerID): int {
      if p in tracker then tracker[p].attempts else 0
    }

    function Enr(p: PeerID): Option<Node> {
      if p in enrs then Some(enrs[p]) else None
    }
  }

  const INITIAL := Shared([], [], map[], map[], {}, false, [])

  predicate Exhausted(cfg: Config, sh: Shared, p: PeerID) {
    p in sh.tracker && sh.tracker[p].attempts >= cfg.maxRetryAttempts
  }

  /** One call of the scheduler; all of it after the two guards runs under the tracker's lock. */
  function ScheduleRetry(cfg: Config, sh: Shared, p: PeerID, peer: ConnectablePeer, enr: Node, err: CrawlError): Shared
  {
    if !IsRetryable(err) || cfg.maxRetryAttempts == 0 then
      sh.Note(Refused(p))
    else
      var info := if p in sh.tracker then sh.tracker[p] else RetryInfo(peer, enr, 0, cfg.retryBackoff);
      if info.attempts >= cfg.maxRetryAttempts then
        sh.(tracker := sh.tracker - {p}).Note(Lost(p))
      else
        var attempt := info.attempts + 1;
        var next := info.(attempts := attempt, backoffDelay := cfg.retryBackoff * attempt);
        var tracked := sh.(tracker := sh.tracker[p := next]);
        if sh.stopping then
          tracked.Note(Dropped(p, attempt, Stopping))
        else
          var freed := tracked.(recent := sh.recent - {p});
          if |sh.retryQueue| < RETRY_QUEUE_CAPACITY then
            freed.(retryQueue := sh.retryQueue + [next]).Note(Scheduled(p, attempt))
          else
            freed.Note(Dropped(p, attempt, QueueFull))
  }

  /** Where a goroutine stands between two of its sections. */
  datatype Task =
    | Done
    | Dialing(dialed: ConnectablePeer)          // taken from the queue, ENR not yet checked
    | Storing(dialed: ConnectablePeer)          // about to store the ENR
    | Connecting(p: PeerID)                     // ENR stored, dial under way
    | Accepting(p: PeerID)                      // the connect callback has started
    | Identifying(p: PeerID)                    // waiting for the identify protocol
    | Requesting(p: PeerID)                     // asking for status and metadata
    | Clearing(p: PeerID)                       // metadata received
    | Reporting(p: PeerID)                      // tracker entry removed
    | Departing(p: PeerID)                      // success reported
    | Failing(p: PeerID, err: CrawlError)       // the failure handler was called
    | Exhausting(p: PeerID, err: CrawlError)    // attempts were read as used up
    | Looking(p: PeerID, err: CrawlError)       // attempts were read as left, ENR not yet read
    | Scheduling(p: PeerID, peer: ConnectablePeer, enr: Node, err: CrawlError)
    | Emitting(p: PeerID, err: CrawlError, reason: FailReason)
  {
    predicate For(q: PeerID) {
      match this
      case Done => false
      case Dialing(cp) => cp.id == q
      case Storing(cp) => cp.id == q
      case _ => p == q
    }
  }

  /** The outside world's answer to a section; answers a section does not ask for mean `Proceed`. */
  datatype Answer =
    | Proceed
    | OffNetwork(cause: NetworkCheckError)
    | AlreadyConnected
    | ConnectFailed
    | Cancelled
    | IdentifyTimedOut
    | StatusFailed
    | ForkMismatch(details: string)
    | MetadataFailed
    | NotConnected

  function Fail(sh: Shared, p: PeerID, err: CrawlError): (Shared, Task) {
    (sh.Note(Entered(p)), Failing(p, err))
  }

  function Section(cfg: Config, sh: Shared, task: Task, answer: Answer): (Shared, Task) {
    match task
    case Done => (sh, Done)
    case Dialing(cp) =>
      if answer.OffNetwork? then Fail(sh, cp.id, NewCrawlError(answer.cause.Text()))
      else if cp.id in sh.recent then Fail(sh, cp.id, TOO_SOON)
      else if answer.AlreadyConnected? then (sh, Done)
      else (sh, Storing(cp))
    case Storing(cp) =>
      (sh.(enrs := sh.enrs[cp.id := cp.enode]), Connecting(cp.id))
    case Connecting(p) =>
      (sh, if answer.ConnectFailed? then Done else Accepting(p))
    case Accepting(p) =>
      (sh, if sh.stopping || p in sh.recent then Done else Identifying(p))
    case Identifying(p) =>
      if answer.Cancelled? then (sh, Done)
      else if answer.IdentifyTimedOut? then Fail(sh, p, IDENTIFY_TIMEOUT)
      else (sh.(recent := sh.recent + {p}), Requesting(p))
    case Requesting(p) =>
      if answer.Cancelled? then (sh, Done)
      else if answer.StatusFailed? then Fail(sh, p, FAILED_STATUS)
      else if answer.ForkMismatch? then Fail(sh, p, STATUS_FORK_DIGEST.WithDetails(answer.details))
      else if answer.MetadataFailed? then Fail(sh, p, FAILED_METADATA)
      else (sh, Clearing(p))
    case Clearing(p) =>
      (sh.(tracker := sh.tracker - {p}).Note(Succeeded(p)), Reporting(p))
    case Reporting(p) =>
      if answer.NotConnected? || p !in sh.enrs then (sh, Done)
      else (sh.Note(SuccessfulCrawl(p, sh.enrs[p])), Departing(p))
    case Departing(p) =>
      (if answer.NotConnected? then sh else sh.(enrs := sh.enrs - {p}), Done)
    case Failing(p, err) =>
      if !IsRetryable(err) then (sh, Emitting(p, err, NotRetryable))
      else if cfg.maxRetryAttempts == 0 then (sh, Emitting(p, err, RetriesDisabled))
      else (sh.Note(Retryable(p)), if Exhausted(cfg, sh, p) then Exhausting(p, err) else Looking(p, err))
    case Exhausting(p, err) =>
      (sh.(tracker := sh.tracker - {p}).Note(Forgotten(p)), Emitting(p, err, AttemptsExhausted))
    case Looking(p, err) =>
      (sh,
       match sh.Enr(p)
       case None => Emitting(p, err, NoEnr)
       case Some(enr) =>
         match DeriveDetails(enr)
         case None => Emitting(p, err, Underivable)
         case Some(cp) => Scheduling(p, cp, enr, err))
    case Scheduling(p, cp, enr, err) =>
      (ScheduleRetry(cfg, sh, p, cp, enr, err), Done)
    case Emitting(p, err, reason) =>
      (sh.Note(FailedCrawl(p, sh.Enr(p), err, reason)), Done)
  }

  /** Every section brings its goroutine strictly closer to its end. */
  function Rank(task: Task): nat {
    match task
    case Done => 0
    case Emitting(_, _, _) => 1
    case Scheduling(_, _, _, _) => 2
    case Exhausting(_, _) => 2
    case Looking(_, _) => 3
    case Failing(_, _) => 4
    case Departing(_) => 1
    case Reporting(_) => 2
    case Clearing(_) => 5
    case Requesting(_) => 6
    case Identifying(_) => 7
    case Accepting(_) => 8
    case Connecting(_) => 9
    case Storing(_) => 10
    case Dialing(_) => 11
  }
}
