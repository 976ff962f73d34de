/** The failure handler, the dial and the connect callback when nothing runs in between. */
module CrawlHandler {
  import opened Common
  import opened CrawlErrors
  import opened CrawlState
  import opened CrawlMachine

  const HANDLER: seq<Answer> := [Proceed, Proceed, Proceed, Proceed]

  lemma DriveStep(cfg: Config, sh: Shared, t: Task, a: Answer, rest: seq<Answer>)
    ensures Drive(cfg, sh, t, [a] + rest)
            == Drive(cfg, Section(cfg, sh, t, a).0, Section(cfg, sh, t, a).1, rest)
  {
    assert ([a] + rest)[1..] == rest;
  }

  lemma {:induction false} DriveDone(cfg: Config, sh: Shared, answers: seq<Answer>)
    ensures Drive(cfg, sh, Done, answers) == (sh, Done)
    decreases |answers|
  {
    if answers != [] {
      DriveDone(cfg, sh, answers[1..]);
    }
  }

  /** A call of the failure handler, from its first section to its last. */
  function Handled(cfg: Config, sh: Shared, p: PeerID, err: CrawlError): Shared {
    Drive(cfg, sh.Note(Entered(p)), Failing(p, err), HANDLER).0
  }

  function Report(sh: Shared, p: PeerID, err: CrawlError, reason: FailReason): Shared {
    sh.Note(FailedCrawl(p, sh.Enr(p), err, reason))
  }

  /** The handler's second half: what becomes of a peer with attempts left. */
  function WithEnr(cfg: Config, sh: Shared, p: PeerID, err: CrawlError): Shared {
    match sh.Enr(p)
    case None => Report(sh, p, err, NoEnr)
    case Some(enr) =>
      match DeriveDetails(enr)
      case None => Report(sh, p, err, Underivable)
      case Some(cp) => ScheduleRetry(cfg, sh, p, cp, enr, err)
  }

  /** The handler's decisions, in the order in which it takes them. */
  function Decision(cfg: Config, sh: Shared, p: PeerID, err: CrawlError): Shared {
    var entered := sh.Note(Entered(p));
    var counted := entered.Note(Retryable(p));
    if !IsRetryable(err) then Report(entered, p, err, NotRetryable)
    else if cfg.maxRetryAttempts == 0 then Report(entered, p, err, RetriesDisabled)
    else if Exhausted(cfg, sh, p) then
      Report(counted.(tracker := sh.tracker - {p}).Note(Forgotten(p)), p, err, AttemptsExhausted)
    else WithEnr(cfg, counted, p, err)
  }

  lemma LateSections(cfg: Config, sh: Shared, t: Task, a: Answer, b: Answer)
    requires t.Emitting? || t.Scheduling? || t.Exhausting?
    ensures var (sh1, t1) := Section(cfg, sh, t, a);
            Drive(cfg, sh, t, [a, b]).0 == if t.Exhausting? then Section(cfg, sh1, t1, b).0 else sh1
    ensures Drive(cfg, sh, t, [a, b]).1.Done?
  {
    var (sh1, t1) := Section(cfg, sh, t, a);
    assert [a, b] == [a] + [b] && [b] == [b] + [];
    DriveStep(cfg, sh, t, a, [b]);
    DriveStep(cfg, sh1, t1, b, []);
  }

  lemma {:induction false} DriveConcat(cfg: Config, sh: Shared, t: Task, xs: seq<Answer>, ys: seq<Answer>)
    ensures Drive(cfg, sh, t, xs + ys) == Drive(cfg, Drive(cfg, sh, t, xs).0, Drive(cfg, sh, t, xs).1, ys)
    decreases |xs|
  {
    if xs == [] {
      assert xs + ys == ys;
    } else {
      var (sh1, t1) := Section(cfg, sh, t, xs[0]);
      assert (xs + ys)[1..] == xs[1..] + ys;
      DriveConcat(cfg, sh1, t1, xs[1..], ys);
    }
  }

  lemma LookingDecides(cfg: Config, sh: Shared, p: PeerID, err: CrawlError, a: Answer, b: Answer, c: Answer)
    ensures Drive(cfg, sh, Looking(p, err), [a, b, c])
            == (WithEnr(cfg, sh, p, err), Done)
  {
    assert [a, b, c] == [a] + [b, c];
    DriveStep(cfg, sh, Looking(p, err), a, [b, c]);
    LateSections(cfg, sh, Section(cfg, sh, Looking(p, err), a).1, b, c);
  }

  lemma OthersDecide(cfg: Config, sh: Shared, t: Task, a: Answer, b: Answer, c: Answer)
    requires t.Emitting? || t.Exhausting?
    ensures Drive(cfg, sh, t, [a, b, c])
            == (if t.Emitting? then (Report(sh, t.p, t.err, t.reason), Done)
                else (Report(sh.(tracker := sh.tracker - {t.p}).Note(Forgotten(t.p)), t.p, t.err, AttemptsExhausted),
                    Done))
  {
    assert [a, b, c] == [a, b] + [c];
    DriveConcat(cfg, sh, t, [a, b], [c]);
    LateSections(cfg, sh, t, a, b);
    DriveDone(cfg, Drive(cfg, sh, t, [a, b]).0, [c]);
  }

  /** Whatever answers it is given, an uninterrupted handler takes the same decisions. */
  lemma HandlerDecides(cfg: Config, sh: Shared, p: PeerID, err: CrawlError, a: Answer, b: Answer, c: Answer, d: Answer)
    ensures Drive(cfg, sh.Note(Entered(p)), Failing(p, err), [a, b, c, d]) == (Decision(cfg, sh, p, err), Done)
  {
    var sh0 := sh.Note(Entered(p));
    assert [a, b, c, d] == [a] + [b, c, d];
    DriveStep(cfg, sh0, Failing(p, err), a, [b, c, d]);
    var (sh1, t1) := Section(cfg, sh0, Failing(p, err), a);
    if t1.Looking? {
      LookingDecides(cfg, sh1, p, err, b, c, d);
    } else {
      OthersDecide(cfg, sh1, t1, b, c, d);
    }
  }

  /** The scheduler's work on a peer that has a tracker entry. */
  function ScheduleTracked(cfg: Config, sh: Shared, p: PeerID): Shared
    requires p in sh.tracker
  {
    var info := sh.tracker[p];
    if info.attempts >= cfg.maxRetryAttempts then
      sh.(tracker := sh.tracker - {p}).Note(Lost(p))
    else
      var attempt := info.attempts + 1;
      var next := info.(attempts := attempt, backoffDelay := cfg.retryBackoff * attempt);
      var counted := sh.(tracker := sh.tracker[p := next]);
      var freed := counted.(recent := sh.recent - {p});
      if sh.stopping then counted.Note(Dropped(p, attempt, Stopping))
      else if |sh.retryQueue| < RETRY_QUEUE_CAPACITY then
        freed.(retryQueue := sh.retryQueue + [next]).Note(Scheduled(p, attempt))
      else freed.Note(Dropped(p, attempt, QueueFull))
  }

  /** Entering a first failure into the tracker before deciding on it changes nothing. */
  lemma ScheduleViaTracker(cfg: Config, sh: Shared, p: PeerID, peer: ConnectablePeer, enr: Node, err: CrawlError)
    requires IsRetryable(err) && cfg.maxRetryAttempts != 0
    ensures var tracked := if p in sh.tracker then sh
                           else sh.(tracker := sh.tracker[p := RetryInfo(peer, enr, 0, cfg.retryBackoff)]);
            ScheduleRetry(cfg, sh, p, peer, enr, err) == ScheduleTracked(cfg, tracked, p)
  {
    if p !in sh.tracker {
      var info := RetryInfo(peer, enr, 0, cfg.retryBackoff);
      assert sh.tracker[p := info] - {p} == sh.tracker - {p};
      var next := info.(attempts := 1, backoffDelay := cfg.retryBackoff * 1);
      assert sh.tracker[p := info][p := next] == sh.tracker[p := next];
    }
  }

  // ----- The dial and the connect callback -----

  /**
   * A dialer's work on one peer. The dial itself changes nothing shared, so the dialer's part ends
   * with it; a connection goes on as the connect callback.
   */
  function Dialled(cfg: Config, sh: Shared, cp: ConnectablePeer, check: Answer): Shared {
    Drive(cfg, sh, Dialing(cp), [check, Proceed, ConnectFailed, Proceed, Proceed]).0
  }

  function DialAttempt(cfg: Config, sh: Shared, cp: ConnectablePeer, check: Answer): Shared {
    if check.OffNetwork? then Decision(cfg, sh, cp.id, NewCrawlError(check.cause.Text()))
    else if cp.id in sh.recent then Decision(cfg, sh, cp.id, TOO_SOON)
    else if check.AlreadyConnected? then sh
    else sh.(enrs := sh.enrs[cp.id := cp.enode])
  }

  lemma DialDecides(cfg: Config, sh: Shared, cp: ConnectablePeer, check: Answer)
    ensures Dialled(cfg, sh, cp, check)
            == DialAttempt(cfg, sh, cp, check)
  {
    var rest := [Proceed, ConnectFailed, Proceed, Proceed];
    assert [check, Proceed, ConnectFailed, Proceed, Proceed] == [check] + rest;
    DriveStep(cfg, sh, Dialing(cp), check, rest);
    var (sh1, t1) := Section(cfg, sh, Dialing(cp), check);
    if t1.Failing? {
      HandlerDecides(cfg, sh, t1.p, t1.err, Proceed, ConnectFailed, Proceed, Proceed);
    } else if t1.Done? {
      DriveDone(cfg, sh1, rest);
    } else {
      StoreDecides(cfg, sh1, cp);
    }
  }

  lemma StoreDecides(cfg: Config, sh: Shared, cp: ConnectablePeer)
    ensures Drive(cfg, sh, Storing(cp), [Proceed, ConnectFailed, Proceed, Proceed])
            == (sh.(enrs := sh.enrs[cp.id := cp.enode]), Done)
  {
    var sh1 := sh.(enrs := sh.enrs[cp.id := cp.enode]);
    assert [Proceed, ConnectFailed, Proceed, Proceed] == [Proceed] + [ConnectFailed, Proceed, Proceed];
    assert [ConnectFailed, Proceed, Proceed] == [ConnectFailed] + [Proceed, Proceed];
    DriveStep(cfg, sh, Storing(cp), Proceed, [ConnectFailed, Proceed, Proceed]);
    DriveStep(cfg, sh1, Connecting(cp.id), ConnectFailed, [Proceed, Proceed]);
    DriveDone(cfg, sh1, [Proceed, Proceed]);
  }

  /** The connect callback, given how identify, the requests and the two connection checks went. */
  function Called(cfg: Config, sh: Shared, p: PeerID, identify: Answer, request: Answer, report: Answer,
      depart: Answer): Shared {
    Drive(cfg, sh, Accepting(p), [Proceed, identify, request, Proceed, report, depart, Proceed]).0
  }

  function Departed(sh: Shared, p: PeerID, report: Answer, depart: Answer): Shared {
    var cleared := sh.(tracker := sh.tracker - {p}).Note(Succeeded(p));
    if report.NotConnected? || p !in sh.enrs then cleared
    else
      var reported := cleared.Note(SuccessfulCrawl(p, sh.enrs[p]));
      if depart.NotConnected? then reported else reported.(enrs := sh.enrs - {p})
  }

  function Requested(cfg: Config, sh: Shared, p: PeerID, request: Answer, report: Answer, depart: Answer): Shared {
    match request
    case Cancelled => sh
    case StatusFailed => Decision(cfg, sh, p, FAILED_STATUS)
    case ForkMismatch(details) => Decision(cfg, sh, p, STATUS_FORK_DIGEST.WithDetails(details))
    case MetadataFailed => Decision(cfg, sh, p, FAILED_METADATA)
    case _ => Departed(sh, p, report, depart)
  }

  function AfterWait(cfg: Config, sh: Shared, p: PeerID, timedOut: bool, request: Answer, report: Answer,
      depart: Answer): Shared {
    if timedOut then Decision(cfg, sh, p, IDENTIFY_TIMEOUT)
    else Requested(cfg, sh.(recent := sh.recent + {p}), p, request, report, depart)
  }

  function Callback(cfg: Config, sh: Shared, p: PeerID, identify: Answer, request: Answer, report: Answer,
      depart: Answer): Shared {
    if sh.stopping || p in sh.recent || identify.Cancelled? then sh
    else AfterWait(cfg, sh, p, identify.IdentifyTimedOut?, request, report, depart)
  }

  lemma CallbackSkips(cfg: Config, sh: Shared, p: PeerID, identify: Answer, request: Answer, report: Answer,
                      depart: Answer)
    requires sh.stopping || p in sh.recent || identify.Cancelled?
    ensures Callback(cfg, sh, p, identify, request, report, depart) == sh
  {
  }

  lemma CallbackGoesOn(cfg: Config, sh: Shared, after: Shared, p: PeerID, identify: Answer, request: Answer,
                       report: Answer, depart: Answer)
    requires !(sh.stopping || p in sh.recent || identify.Cancelled?)
    requires after == AfterWait(cfg, sh, p, identify.IdentifyTimedOut?, request, report, depart)
    ensures after == Callback(cfg, sh, p, identify, request, report, depart)
  {
  }

  lemma DepartDecides(cfg: Config, sh: Shared, p: PeerID, report: Answer, depart: Answer)
    ensures Drive(cfg, sh, Clearing(p), [Proceed, report, depart, Proceed]).0 == Departed(sh, p, report, depart)
  {
    var (sh1, t1) := Section(cfg, sh, Clearing(p), Proceed);
    var (sh2, t2) := Section(cfg, sh1, t1, report);
    assert [Proceed, report, depart, Proceed] == [Proceed] + [report, depart, Proceed];
    assert [report, depart, Proceed] == [report] + [depart, Proceed];
    assert [depart, Proceed] == [depart] + [Proceed];
    DriveStep(cfg, sh, Clearing(p), Proceed, [report, depart, Proceed]);
    DriveStep(cfg, sh1, t1, report, [depart, Proceed]);
    DriveStep(cfg, sh2, t2, depart, [Proceed]);
    DriveDone(cfg, Section(cfg, sh2, t2, depart).0, [Proceed]);
  }

  lemma RequestDecides(cfg: Config, sh: Shared, p: PeerID, request: Answer, report: Answer, depart: Answer)
    ensures Drive(cfg, sh, Requesting(p), [request, Proceed, report, depart, Proceed]).0
            == Requested(cfg, sh, p, request, report, depart)
  {
    var rest := [Proceed, report, depart, Proceed];
    assert [request, Proceed, report, depart, Proceed] == [request] + rest;
    DriveStep(cfg, sh, Requesting(p), request, rest);
    var (sh1, t1) := Section(cfg, sh, Requesting(p), request);
    if t1.Failing? {
      HandlerDecides(cfg, sh, p, t1.err, Proceed, report, depart, Proceed);
    } else if t1.Done? {
      DriveDone(cfg, sh1, rest);
    } else {
      DepartDecides(cfg, sh1, p, report, depart);
    }
  }

  lemma CallbackDecides(cfg: Config, sh: Shared, p: PeerID, identify: Answer, request: Answer, report: Answer,
      depart: Answer)
    ensures Called(cfg, sh, p, identify, request, report, depart)
            == Callback(cfg, sh, p, identify, request, report, depart)
  {
    var late := [request, Proceed, report, depart, Proceed];
    assert [Proceed, identify, request, Proceed, report, depart, Proceed] == [Proceed] + ([identify] + late);
    DriveStep(cfg, sh, Accepting(p), Proceed, [identify] + late);
    if sh.stopping || p in sh.recent {
      DriveDone(cfg, sh, [identify] + late);
    } else {
      DriveStep(cfg, sh, Identifying(p), identify, late);
      var (sh1, t1) := Section(cfg, sh, Identifying(p), identify);
      if t1.Done? {
        DriveDone(cfg, sh1, late);
      } else if t1.Failing? {
        assert late == [request, Proceed, report, depart] + [Proceed];
        DriveConcat(cfg, sh1, t1, [request, Proceed, report, depart], [Proceed]);
        HandlerDecides(cfg, sh, p, IDENTIFY_TIMEOUT, request, Proceed, report, depart);
        DriveDone(cfg, Decision(cfg, sh, p, IDENTIFY_TIMEOUT), [Proceed]);
      } else {
        RequestDecides(cfg, sh1, p, request, report, depart);
      }
    }
  }

  // ----- What a handler call means -----

  datatype Outcome = Reported(reason: FailReason) | Queued(attempt: int) | DroppedFor(cause: DropReason) | Vanished

  /** The outcome an observer reads off the log: the last event of the call. */
  function OutcomeOf(log: seq<Event>): Outcome {
    if log == [] then Vanished
    else
      match log[|log| - 1]
      case FailedCrawl(_, _, _, reason) => Reported(reason)
      case Scheduled(_, attempt) => Queued(attempt)
      case Dropped(_, _, cause) => DroppedFor(cause)
      case _ => Vanished
  }

  /** Whether the handler gets as far as the scheduler. */
  predicate Reaches(cfg: Config, sh: Shared, p: PeerID, err: CrawlError) {
    IsRetryable(err) && cfg.maxRetryAttempts != 0 && !Exhausted(cfg, sh, p) && p in sh.enrs
  }

  /** Which outcome follows from what the handler finds, given whether the error may be retried. */
  predicate OutcomeTable(cfg: Config, sh: Shared, p: PeerID, retried: bool, outcome: Outcome) {
    var (max, attempts) := (cfg.maxRetryAttempts, sh.Attempts(p));
    var tried := retried && 0 < max && attempts < max && p in sh.enrs;
    && (outcome == Reported(NotRetryable) <==> !retried)
    && (outcome == Reported(RetriesDisabled) <==> retried && max == 0)
    && (outcome == Reported(AttemptsExhausted) <==> retried && 0 < max == attempts)
    && (outcome == Reported(NoEnr) <==> retried && max != 0 && (max < 0 || attempts < max) && p !in sh.enrs)
    && (outcome.Vanished? <==> retried && max < 0 && p in sh.enrs)
    && (outcome == DroppedFor(Stopping) <==> tried && sh.stopping)
    && (outcome == DroppedFor(QueueFull) <==> tried && !sh.stopping && |sh.retryQueue| == 1000)
    && (outcome == Queued(attempts + 1) <==> tried && !sh.stopping && |sh.retryQueue| < 1000)
  }

  /** A report names the peer, the ENR stored for it when the handler was called, and the error. */
  predicate ReportedAs(sh: Shared, p: PeerID, err: CrawlError, log: seq<Event>) {
    var outcome := OutcomeOf(log);
    outcome.Reported? ==> log[|log| - 1] == FailedCrawl(p, sh.Enr(p), err, outcome.reason)
  }

  lemma ScheduleOutcome(cfg: Config, sh: Shared, p: PeerID, cp: ConnectablePeer, enr: Node, err: CrawlError)
    requires IsRetryable(err) && cfg.maxRetryAttempts != 0 && !Exhausted(cfg, sh, p)
    requires |sh.retryQueue| <= RETRY_QUEUE_CAPACITY && (p in sh.tracker ==> InfoOk(cfg, p, sh.tracker[p]))
    ensures OutcomeOf(ScheduleRetry(cfg, sh, p, cp, enr, err).log)
            == if cfg.maxRetryAttempts < 0 then Vanished
               else if sh.stopping then DroppedFor(Stopping)
               else if |sh.retryQueue| == RETRY_QUEUE_CAPACITY then DroppedFor(QueueFull)
               else Queued(sh.Attempts(p) + 1)
  {
  }

  lemma DecisionOutcome(cfg: Config, sh: Shared, p: PeerID, err: CrawlError, after: Shared)
    requires SharedOk(cfg, sh) && after == Decision(cfg, sh, p, err)
    ensures OutcomeTable(cfg, sh, p, IsRetryable(err), OutcomeOf(after.log))
    ensures ReportedAs(sh, p, err, after.log)
  {
    if Reaches(cfg, sh, p, err) {
      var counted := sh.Note(Entered(p)).Note(Retryable(p));
      ScheduleOutcome(cfg, counted, p, DeriveDetails(sh.enrs[p]).value, sh.enrs[p], err);
      assert after == ScheduleRetry(cfg, counted, p, DeriveDetails(sh.enrs[p]).value, sh.enrs[p], err);
    }
  }

  /**
   * An uninterrupted call of the handler from a reachable state has exactly one outcome: it reports
   * exactly when the error is not retryable, retries are off, the attempts are used up or no ENR is
   * stored; else it drops exactly when the crawler is stopping or the retry queue is full; and it
   * loses the failure exactly when Max is negative.
   */
  lemma {:induction false} HandlerOutcome(cfg: Config, sh: Shared, p: PeerID, err: CrawlError, after: Shared)
    requires SharedOk(cfg, sh) && after == Handled(cfg, sh, p, err)
    ensures OutcomeTable(cfg, sh, p, IsRetryable(err), OutcomeOf(after.log))
    ensures ReportedAs(sh, p, err, after.log)
  {
    HandlerDecides(cfg, sh, p, err, Proceed, Proceed, Proceed, Proceed);
    DecisionOutcome(cfg, sh, p, err, after);
  }

  /**
   * What the call leaves behind: one more attempt with its proportional delay when it was counted,
   * none when the attempts were used up, and a cool-off entry removed exactly when the peer could
   * be retried at once, even if the failure was that it came too soon. A first retry is filed with
   * the stored ENR, a later one with the ENR of the first.
   */
  predicate EffectTable(cfg: Config, sh: Shared, p: PeerID, after: Shared) {
    var outcome := OutcomeOf(after.log);
    var counted := outcome.Queued? || outcome.DroppedFor?;
    && after.enrs == sh.enrs && after.dialQueue == sh.dialQueue && after.stopping == sh.stopping
    && (counted ==>
         && p in sh.enrs
         && var attempts := sh.Attempts(p) + 1;
         && var (peer, enr) := if p in sh.tracker then (sh.tracker[p].peer, sh.tracker[p].enr)
                               else (ConnectablePeer(p, sh.enrs[p]), sh.enrs[p]);
         && after.tracker == sh.tracker[p := RetryInfo(peer, enr, attempts, cfg.retryBackoff * attempts)])
    && (!counted ==>
         after.tracker == if outcome == Reported(AttemptsExhausted) then sh.tracker - {p} else sh.tracker)
    && after.recent == (if outcome.Queued? || outcome == DroppedFor(QueueFull) then sh.recent - {p} else sh.recent)
    && (if outcome.Queued? then p in after.tracker && after.retryQueue == sh.retryQueue + [after.tracker[p]]
        else after.retryQueue == sh.retryQueue)
  }

  lemma ScheduleEffects(cfg: Config, sh: Shared, p: PeerID, enr: Node, err: CrawlError)
    requires IsRetryable(err) && cfg.maxRetryAttempts != 0 && !Exhausted(cfg, sh, p) && SharedOk(cfg, sh)
    requires sh.Enr(p) == Some(enr)
    ensures EffectTable(cfg, sh, p, ScheduleRetry(cfg, sh, p, ConnectablePeer(p, enr), enr, err))
  {
  }

  lemma ReportEffects(cfg: Config, sh: Shared, p: PeerID, err: CrawlError, after: Shared)
    requires SharedOk(cfg, sh) && !Reaches(cfg, sh, p, err) && after == Decision(cfg, sh, p, err)
    ensures EffectTable(cfg, sh, p, after)
  {
  }

  lemma DecisionEffect(cfg: Config, sh: Shared, p: PeerID, err: CrawlError, after: Shared)
    requires SharedOk(cfg, sh) && after == Decision(cfg, sh, p, err)
    ensures EffectTable(cfg, sh, p, after)
  {
    if !Reaches(cfg, sh, p, err) {
      ReportEffects(cfg, sh, p, err, after);
    } else {
      var counted := sh.Note(Entered(p)).Note(Retryable(p));
      ScheduleEffects(cfg, counted, p, sh.enrs[p], err);
      assert after == ScheduleRetry(cfg, counted, p, ConnectablePeer(p, sh.enrs[p]), sh.enrs[p], err);
    }
  }

  lemma {:induction false} HandlerEffect(cfg: Config, sh: Shared, p: PeerID, err: CrawlError, after: Shared)
    requires SharedOk(cfg, sh) && after == Handled(cfg, sh, p, err)
    ensures EffectTable(cfg, sh, p, after)
  {
    HandlerDecides(cfg, sh, p, err, Proceed, Proceed, Proceed, Proceed);
    DecisionEffect(cfg, sh, p, err, after);
  }
}
