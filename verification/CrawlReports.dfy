/**
 * What becomes of a peer that is dialled or connects, when nothing runs in between: which failures
 * are retried, when a success is reported, and when a peer starts or leaves its cool-off. Errors
 * are spelled out, so that nothing here rests on how the retry rule is written.
 */
module CrawlReports {
  import opened Common
  import opened CrawlErrors
  import opened CrawlState
  import opened CrawlMachine
  import opened CrawlHandler

  // ----- Which failures are retried -----

  /** The callback's own failures, and a dial that came too soon, are retried; a fork mismatch is not. */
  lemma OwnFailures(details: string)
    ensures IDENTIFY_TIMEOUT == CrawlError("identify protocol timeout", "identify_timeout")
    ensures FAILED_STATUS == CrawlError("failed to request status", "timeout")
    ensures FAILED_METADATA == CrawlError("failed to request metadata", "timeout")
    ensures TOO_SOON == CrawlError("too soon", "too_soon")
    ensures STATUS_FORK_DIGEST.WithDetails(details)
            == CrawlError("wrong fork digest in status message: " + details, "network_mismatch")
    ensures IsRetryable(IDENTIFY_TIMEOUT) && IsRetryable(FAILED_STATUS) && IsRetryable(FAILED_METADATA)
    ensures IsRetryable(TOO_SOON) && !IsRetryable(STATUS_FORK_DIGEST.WithDetails(details))
  {
    assert IDENTIFY_TIMEOUT_TYPE[0] == 'i' && TIMEOUT_TYPE[0] == 't' && TOO_SOON.errorType[0] == 't';
    assert NETWORK_MISMATCH_TYPE[0] == 'n' && PROTOCOL_NOT_SUPPORTED_TYPE[0] == 'p';
    assert "wrong fork digest in status message" + ": " == "wrong fork digest in status message: ";
    assert "wrong fork digest in status message" + ": " + details
        == "wrong fork digest in status message: " + details;
  }

  /** A peer's failure under this error: every outcome of it, and what a report of it says. */
  predicate FailsWith(cfg: Config, sh: Shared, p: PeerID, err: CrawlError, retried: bool, after: Shared) {
    OutcomeTable(cfg, sh, p, retried, OutcomeOf(after.log)) && ReportedAs(sh, p, err, after.log)
  }

  lemma DecisionFails(cfg: Config, sh: Shared, cooled: Shared, p: PeerID, err: CrawlError, retried: bool,
      after: Shared)
    requires SharedOk(cfg, sh) && cooled == sh.(recent := cooled.recent)
    requires after == Decision(cfg, cooled, p, err) && (IsRetryable(err) <==> retried)
    ensures FailsWith(cfg, sh, p, err, retried, after)
  {
    DecisionOutcome(cfg, cooled, p, err, after);
  }

  /** The callback goes on past its first checks. */
  predicate Admitted(sh: Shared, p: PeerID) {
    !sh.stopping && p !in sh.recent
  }

  /** The peer was admitted and said who it is. */
  predicate Identifies(sh: Shared, p: PeerID, identify: Answer) {
    Admitted(sh, p) && !identify.Cancelled? && !identify.IdentifyTimedOut?
  }

  /** The peer identified itself and answered both requests on our fork. */
  predicate Answers(sh: Shared, p: PeerID, identify: Answer, request: Answer) {
    && Identifies(sh, p, identify)
    && !request.Cancelled? && !request.StatusFailed? && !request.ForkMismatch? && !request.MetadataFailed?
  }

  /** The error with which the callback ends, if it ends with one. */
  function Trouble(sh: Shared, p: PeerID, identify: Answer, request: Answer): Option<CrawlError> {
    if !Admitted(sh, p) || identify.Cancelled? then None
    else if identify.IdentifyTimedOut? then Some(IDENTIFY_TIMEOUT)
    else
      match request
      case StatusFailed => Some(FAILED_STATUS)
      case MetadataFailed => Some(FAILED_METADATA)
      case ForkMismatch(details) => Some(STATUS_FORK_DIGEST.WithDetails(details))
      case _ => None
  }

  /** The state in which the callback goes on after the wait for the identify protocol. */
  function Cooled(sh: Shared, p: PeerID, identify: Answer): Shared {
    if Identifies(sh, p, identify) then sh.(recent := sh.recent + {p}) else sh
  }

  lemma CallbackSplits(cfg: Config, sh: Shared, p: PeerID, identify: Answer, request: Answer, report: Answer,
      depart: Answer, after: Shared)
    requires after == Called(cfg, sh, p, identify, request, report, depart)
    ensures var trouble := Trouble(sh, p, identify, request);
            after == if trouble.Some? then Decision(cfg, Cooled(sh, p, identify), p, trouble.value)
                     else if Answers(sh, p, identify, request) then
                       Departed(Cooled(sh, p, identify), p, report, depart)
                     else Cooled(sh, p, identify)
  {
    CallbackDecides(cfg, sh, p, identify, request, report, depart);
  }

  /**
   * A connection on which identify times out, or the status or the metadata request fails, is a
   * failure that is retried; one with a different fork digest is a failure that never is.
   */
  lemma CallbackFails(cfg: Config, sh: Shared, p: PeerID, identify: Answer, request: Answer, report: Answer,
      depart: Answer, after: Shared)
    requires SharedOk(cfg, sh) && after == Called(cfg, sh, p, identify, request, report, depart)
    ensures Admitted(sh, p) && identify.IdentifyTimedOut? ==>
      FailsWith(cfg, sh, p, CrawlError("identify protocol timeout", "identify_timeout"), true, after)
    ensures Identifies(sh, p, identify) && request.StatusFailed? ==>
      FailsWith(cfg, sh, p, CrawlError("failed to request status", "timeout"), true, after)
    ensures Identifies(sh, p, identify) && request.MetadataFailed? ==>
      FailsWith(cfg, sh, p, CrawlError("failed to request metadata", "timeout"), true, after)
    ensures Identifies(sh, p, identify) && request.ForkMismatch? ==>
      FailsWith(cfg, sh, p,
        CrawlError("wrong fork digest in status message: " + request.details, "network_mismatch"), false, after)
  {
    CallbackSplits(cfg, sh, p, identify, request, report, depart, after);
    OwnFailures(if request.ForkMismatch? then request.details else "");
    var trouble := Trouble(sh, p, identify, request);
    if trouble.Some? {
      DecisionFails(cfg, sh, Cooled(sh, p, identify), p, trouble.value, IsRetryable(trouble.value), after);
    }
  }

  /**
   * The callback disconnects from a peer before it calls the failure handler. If the crawler notices
   * the disconnection first, a peer that was to be retried is given up instead: its ENR is gone.
   */
  lemma DisconnectBeatsRetry(cfg: Config, s: State, p: PeerID, err: CrawlError, after: Shared)
    requires StateOk(cfg, s) && after == Handled(cfg, Next(cfg, s, Disconnected(p)).sh, p, err)
    requires err.errorType == "timeout" || err.errorType == "identify_timeout"
    requires cfg.maxRetryAttempts != 0 && !Exhausted(cfg, s.sh, p)
    ensures after.log[|after.log| - 1..] == [FailedCrawl(p, None, err, NoEnr)]
    ensures after.tracker == s.sh.tracker && after.retryQueue == s.sh.retryQueue
  {
    var sh := Next(cfg, s, Disconnected(p)).sh;
    assert err.errorType[0] == 't' || err.errorType[0] == 'i';
    assert NETWORK_MISMATCH_TYPE[0] == 'n' && PROTOCOL_NOT_SUPPORTED_TYPE[0] == 'p';
    assert p !in sh.enrs && sh.tracker == s.sh.tracker;
    HandlerOutcome(cfg, sh, p, err, after);
    HandlerEffect(cfg, sh, p, err, after);
    var outcome := OutcomeOf(after.log);
    assert outcome == Reported(NoEnr);
  }

  /** What the handler notes besides its call is an outcome or a note of the retry tracker. */
  ghost predicate EntersOnce(before: seq<Event>, after: seq<Event>, p: PeerID) {
    && before < after && after[|before|] == Entered(p)
    && forall i :: |before| < i < |after| ==> !after[i].Entered?
  }

  lemma DecisionEnters(cfg: Config, sh: Shared, p: PeerID, err: CrawlError, after: Shared)
    requires after == Decision(cfg, sh, p, err)
    ensures EntersOnce(sh.log, after.log, p)
  {
    var counted := sh.Note(Entered(p)).Note(Retryable(p));
    if Reaches(cfg, sh, p, err) && DeriveDetails(sh.enrs[p]).Some? {
      ScheduleNews(cfg, counted, p, DeriveDetails(sh.enrs[p]).value, sh.enrs[p], err);
    }
  }

  /**
   * The failure handler is called exactly when an admitted peer does not identify itself in time, or
   * does and then fails a request or is on another fork; a shutdown in between is no failure.
   */
  lemma FailureExactly(cfg: Config, sh: Shared, p: PeerID, identify: Answer, request: Answer, report: Answer,
      depart: Answer, after: Shared)
    requires after == Called(cfg, sh, p, identify, request, report, depart)
    ensures sh.log <= after.log
    ensures forall q :: Entered(q) in after.log[|sh.log|..] <==>
              q == p && ((Admitted(sh, p) && identify.IdentifyTimedOut?)
                         || (Identifies(sh, p, identify)
                             && (request.StatusFailed? || request.ForkMismatch? || request.MetadataFailed?)))
  {
    CallbackSplits(cfg, sh, p, identify, request, report, depart, after);
    var (trouble, cooled) := (Trouble(sh, p, identify, request), Cooled(sh, p, identify));
    if trouble.Some? {
      DecisionEnters(cfg, cooled, p, trouble.value, after);
      assert after.log[|sh.log|..][0] == Entered(p);
    } else if Answers(sh, p, identify, request) {
      DepartedNews(cooled, p, report, depart, after);
      assert after.log[|sh.log|..] == [Succeeded(p)]
        + if !report.NotConnected? && p in sh.enrs then [SuccessfulCrawl(p, sh.enrs[p])] else [];
    }
  }

  // ----- When a success is reported -----

  lemma ScheduleNews(cfg: Config, sh: Shared, p: PeerID, cp: ConnectablePeer, enr: Node, err: CrawlError)
    ensures var after := ScheduleRetry(cfg, sh, p, cp, enr, err);
            exists e: Event :: after.log == sh.log + [e] && !e.SuccessfulCrawl? && !e.Entered?
  {
    var log := ScheduleRetry(cfg, sh, p, cp, enr, err).log;
    assert log == sh.log + [log[|sh.log|]];
  }

  /** The handler adds to the log, and what it adds is never a success. */
  ghost predicate AddsNoSuccess(before: seq<Event>, after: seq<Event>) {
    before < after && forall i :: |before| <= i < |after| ==> !after[i].SuccessfulCrawl?
  }

  lemma DecisionNews(cfg: Config, sh: Shared, p: PeerID, err: CrawlError, after: Shared)
    requires after == Decision(cfg, sh, p, err)
    ensures AddsNoSuccess(sh.log, after.log)
  {
    var counted := sh.Note(Entered(p)).Note(Retryable(p));
    if Reaches(cfg, sh, p, err) && DeriveDetails(sh.enrs[p]).Some? {
      ScheduleNews(cfg, counted, p, DeriveDetails(sh.enrs[p]).value, sh.enrs[p], err);
    }
  }

  lemma DepartedNews(sh: Shared, p: PeerID, report: Answer, depart: Answer, after: Shared)
    requires after == Departed(sh, p, report, depart)
    ensures var reported := !report.NotConnected? && p in sh.enrs;
            && after.log == sh.log + [Succeeded(p)] + (if reported then [SuccessfulCrawl(p, sh.enrs[p])] else [])
            && after.tracker == sh.tracker - {p} && after.retryQueue == sh.retryQueue && after.recent == sh.recent
            && after.enrs == if reported && !depart.NotConnected? then sh.enrs - {p} else sh.enrs
  {
  }

  /**
   * A crawl is reported as a success exactly when the crawler is not stopping, the peer is not in
   * its cool-off, it identified itself and answered both requests, and is then still connected with
   * a stored ENR, which is the one reported.
   */
  lemma SuccessExactly(cfg: Config, sh: Shared, p: PeerID, identify: Answer, request: Answer, report: Answer,
      depart: Answer, after: Shared)
    requires after == Called(cfg, sh, p, identify, request, report, depart)
    ensures sh.log <= after.log
    ensures forall q, n :: SuccessfulCrawl(q, n) in after.log[|sh.log|..] <==>
              q == p && Answers(sh, p, identify, request) && !report.NotConnected? && sh.Enr(p) == Some(n)
  {
    CallbackSplits(cfg, sh, p, identify, request, report, depart, after);
    var (trouble, cooled) := (Trouble(sh, p, identify, request), Cooled(sh, p, identify));
    if trouble.Some? {
      DecisionNews(cfg, cooled, p, trouble.value, after);
    } else if Answers(sh, p, identify, request) {
      DepartedNews(cooled, p, report, depart, after);
      NewsOfSuccess(sh.log, p, if report.NotConnected? then None else sh.Enr(p), after.log);
    }
  }

  lemma NewsOfSuccess(before: seq<Event>, p: PeerID, reported: Option<Node>, after: seq<Event>)
    requires after == before + [Succeeded(p)]
                      + (if reported.Some? then [SuccessfulCrawl(p, reported.value)] else [])
    ensures before <= after
    ensures forall q, n :: SuccessfulCrawl(q, n) in after[|before|..] <==> q == p && reported == Some(n)
  {
    assert after[|before|..] == [Succeeded(p)]
      + if reported.Some? then [SuccessfulCrawl(p, reported.value)] else [];
  }

  /**
   * A peer that answered has its retries forgotten, reported or not, and its ENR is deleted exactly
   * when it was reported and is still there to be sent away; no other callback deletes an ENR.
   */
  lemma SuccessLeaves(cfg: Config, sh: Shared, p: PeerID, identify: Answer, request: Answer, report: Answer,
      depart: Answer, after: Shared)
    requires SharedOk(cfg, sh) && after == Called(cfg, sh, p, identify, request, report, depart)
    ensures Answers(sh, p, identify, request) ==>
      after.tracker == sh.tracker - {p} && after.retryQueue == sh.retryQueue
    ensures after.enrs == if Answers(sh, p, identify, request) && !report.NotConnected? && !depart.NotConnected?
                          then sh.enrs - {p} else sh.enrs
  {
    CallbackSplits(cfg, sh, p, identify, request, report, depart, after);
    var (trouble, cooled) := (Trouble(sh, p, identify, request), Cooled(sh, p, identify));
    if trouble.Some? {
      DecisionEffect(cfg, cooled, p, trouble.value, after);
    } else if Answers(sh, p, identify, request) {
      DepartedNews(cooled, p, report, depart, after);
    }
  }

  // ----- The cool-off -----

  /** The failure handler freed the peer, so that a retry is not turned away as too soon. */
  predicate Freed(sh: Shared, after: Shared) {
    after.log != sh.log && (OutcomeOf(after.log).Queued? || OutcomeOf(after.log) == DroppedFor(QueueFull))
  }

  /**
   * A callback starts its peer's cool-off exactly when the peer identified itself and the failure
   * handler did not free it again, and touches the cool-off of no other peer.
   */
  lemma CooloffExactly(cfg: Config, sh: Shared, p: PeerID, identify: Answer, request: Answer, report: Answer,
      depart: Answer, after: Shared)
    requires SharedOk(cfg, sh) && after == Called(cfg, sh, p, identify, request, report, depart)
    ensures p in after.recent <==> p in sh.recent || (Identifies(sh, p, identify) && !Freed(sh, after))
    ensures after.recent - {p} == sh.recent - {p}
  {
    CallbackSplits(cfg, sh, p, identify, request, report, depart, after);
    var (trouble, cooled) := (Trouble(sh, p, identify, request), Cooled(sh, p, identify));
    if trouble.Some? {
      DecisionNews(cfg, cooled, p, trouble.value, after);
      DecisionEffect(cfg, cooled, p, trouble.value, after);
    } else if Answers(sh, p, identify, request) {
      DepartedNews(cooled, p, report, depart, after);
    }
  }

  // ----- The dial -----

  /** The text under which a failed network check is reported. */
  function CheckText(cause: NetworkCheckError): string {
    match cause
    case LoadFailed(text) => "failed to load enr fork entry: " + text
    case UnmarshalFailed(text) => "failed to unmarshal enr fork entry: " + text
    case WrongDigest(text) => "wrong enr fork digest: " + text
  }

  /**
   * A dial fails, and is retried, exactly when the network check fails, whatever its cause, or the
   * peer is in its cool-off. Otherwise it stores the dialled ENR unless the peer is connected already.
   */
  lemma DialExactly(cfg: Config, sh: Shared, cp: ConnectablePeer, check: Answer, after: Shared)
    requires SharedOk(cfg, sh) && after == Dialled(cfg, sh, cp, check)
    ensures check.OffNetwork? ==>
      FailsWith(cfg, sh, cp.id, CrawlError(CheckText(check.cause), CheckText(check.cause)), true, after)
    ensures !check.OffNetwork? && cp.id in sh.recent ==>
      FailsWith(cfg, sh, cp.id, CrawlError("too soon", "too_soon"), true, after)
    ensures after.log == sh.log <==> !check.OffNetwork? && cp.id !in sh.recent
    ensures after.log == sh.log ==>
      after == if check.AlreadyConnected? then sh else sh.(enrs := sh.enrs[cp.id := cp.enode])
  {
    DialDecides(cfg, sh, cp, check);
    OwnFailures("");
    if check.OffNetwork? {
      var text := check.cause.Text();
      DialTimeMismatchIsRetried(check.cause, "");
      assert "wrong enr fork digest" + ": " == "wrong enr fork digest: ";
      assert text == CheckText(check.cause);
      DecisionFails(cfg, sh, sh, cp.id, NewCrawlError(text), true, after);
      DecisionNews(cfg, sh, cp.id, NewCrawlError(text), after);
    } else if cp.id in sh.recent {
      DecisionFails(cfg, sh, sh, cp.id, TOO_SOON, true, after);
      DecisionNews(cfg, sh, cp.id, TOO_SOON, after);
    }
  }
}
