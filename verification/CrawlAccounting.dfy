/**
 * What the crawler's history says about its retries: attempts are numbered 1, 2, 3, ... between
 * resets, every failure handler call has exactly one outcome, and while the handling of a peer is
 * serialised its retryable failures are accounted for exactly and none is lost.
 */
module CrawlAccounting {
  import opened Common
  import opened CrawlErrors
  import opened CrawlState
  import opened CrawlMachine

  // ----- A step notes at most one event -----

  lemma SectionGrows(cfg: Config, sh: Shared, task: Task, answer: Answer)
    ensures Grows(sh.log, Section(cfg, sh, task, answer).0.log)
  {
  }

  lemma StepGrows(cfg: Config, s: State, step: Step)
    ensures Grows(s.sh.log, Next(cfg, s, step).sh.log)
  {
    if step.Advance? && step.i < |s.tasks| {
      SectionGrows(cfg, s.sh, s.tasks[step.i], step.answer);
    }
  }

  // ----- Attempts are what the history says -----

  /** The number of attempts after one more event. */
  function Counted(attempts: int, e: Event, p: PeerID): int {
    match e
    case Scheduled(q, _) => if q == p then attempts + 1 else attempts
    case Dropped(q, _, _) => if q == p then attempts + 1 else attempts
    case Forgotten(q) => if q == p then 0 else attempts
    case Lost(q) => if q == p then 0 else attempts
    case Succeeded(q) => if q == p then 0 else attempts
    case Wiped => 0
    case _ => attempts
  }

  /** Attempts counted since the last event that reset them. */
  function AttemptsIn(log: seq<Event>, p: PeerID): int {
    if log == [] then 0 else Counted(AttemptsIn(log[..|log| - 1], p), log[|log| - 1], p)
  }

  predicate Numbered(e: Event, before: seq<Event>) {
    match e
    case Scheduled(p, attempt) => attempt == AttemptsIn(before, p) + 1
    case Dropped(p, attempt, _) => attempt == AttemptsIn(before, p) + 1
    case _ => true
  }

  ghost predicate HistoryOk(sh: Shared) {
    && (forall p :: sh.Attempts(p) == AttemptsIn(sh.log, p))
    && (forall k :: 0 <= k < |sh.log| ==> Numbered(sh.log[k], sh.log[..k]))
  }

  /** A section notes at most one event, and moves the attempts of every peer as that event says. */
  ghost predicate Tells(sh: Shared, sh': Shared) {
    || (sh'.log == sh.log && sh'.tracker == sh.tracker)
    || (exists e :: sh'.log == sh.log + [e] && TellsOne(sh, sh', e))
  }

  ghost predicate TellsOne(sh: Shared, sh': Shared, e: Event) {
    && (forall p :: sh'.Attempts(p) == Counted(sh.Attempts(p), e, p))
    && (e.Scheduled? || e.Dropped? ==> e.attempt == sh.Attempts(e.peer) + 1)
  }

  lemma ScheduleTells(cfg: Config, sh: Shared, p: PeerID, cp: ConnectablePeer, enr: Node, err: CrawlError)
    ensures Tells(sh, ScheduleRetry(cfg, sh, p, cp, enr, err))
  {
    var sh' := ScheduleRetry(cfg, sh, p, cp, enr, err);
    var e := sh'.log[|sh'.log| - 1];
    assert sh'.log == sh.log + [e];
    assert TellsOne(sh, sh', e);
  }

  lemma SectionTells(cfg: Config, sh: Shared, task: Task, answer: Answer)
    ensures Tells(sh, Section(cfg, sh, task, answer).0)
  {
    var sh' := Section(cfg, sh, task, answer).0;
    if task.Scheduling? {
      ScheduleTells(cfg, sh, task.p, task.peer, task.enr, task.err);
    } else if sh'.log != sh.log {
      var e := sh'.log[|sh'.log| - 1];
      assert sh'.log == sh.log + [e];
      assert TellsOne(sh, sh', e);
    }
  }

  lemma StepTells(cfg: Config, s: State, step: Step)
    ensures Tells(s.sh, Next(cfg, s, step).sh)
  {
    var sh' := Next(cfg, s, step).sh;
    if step.Advance? {
      if step.i < |s.tasks| {
        SectionTells(cfg, s.sh, s.tasks[step.i], step.answer);
      }
    } else if sh'.log != s.sh.log {
      var e := sh'.log[|sh'.log| - 1];
      assert sh'.log == s.sh.log + [e];
      assert TellsOne(s.sh, sh', e);
    }
  }

  lemma TellingKeepsHistory(sh: Shared, sh': Shared)
    requires HistoryOk(sh) && Tells(sh, sh')
    ensures HistoryOk(sh')
  {
    if sh'.log != sh.log {
      var e :| sh'.log == sh.log + [e] && TellsOne(sh, sh', e);
      assert sh'.log[..|sh.log|] == sh.log;
      forall k | 0 <= k < |sh'.log| ensures Numbered(sh'.log[k], sh'.log[..k]) {
        if k < |sh.log| {
          assert sh'.log[..k] == sh.log[..k];
        }
      }
    } else {
      forall p ensures sh'.Attempts(p) == AttemptsIn(sh'.log, p) {
        assert sh'.Attempts(p) == sh.Attempts(p);
      }
    }
  }

  /**
   * In every run a peer's attempts are exactly those its history counts since the last success,
   * exhaustion or wipe, and each counted attempt carries the next number: 1, 2, 3, ...
   */
  lemma {:induction false} AttemptsFollowHistory(cfg: Config, steps: seq<Step>)
    ensures HistoryOk(Run(cfg, steps).sh)
  {
    if steps != [] {
      var s := Run(cfg, steps[..|steps| - 1]);
      AttemptsFollowHistory(cfg, steps[..|steps| - 1]);
      StepTells(cfg, s, steps[|steps| - 1]);
      TellingKeepsHistory(s.sh, Run(cfg, steps).sh);
    }
  }

  // ----- Every handler call has exactly one outcome -----

  /** +1 for a handler call, -1 for each way in which one can end. */
  function CallBalance(p: PeerID): Event -> int {
    (e: Event) =>
      match e
      case Entered(q) => if q == p then 1 else 0
      case FailedCrawl(q, _, _, _) => if q == p then -1 else 0
      case Scheduled(q, _) => if q == p then -1 else 0
      case Dropped(q, _, _) => if q == p then -1 else 0
      case Refused(q) => if q == p then -1 else 0
      case Lost(q) => if q == p then -1 else 0
      case _ => 0
  }

  function HandlerOf(p: PeerID): Task -> int {
    (t: Task) =>
      if t.For(p) && (t.Failing? || t.Exhausting? || t.Looking? || t.Scheduling? || t.Emitting?) then 1 else 0
  }

  lemma SectionCalls(cfg: Config, sh: Shared, task: Task, answer: Answer, p: PeerID)
    ensures var (sh', task') := Section(cfg, sh, task, answer);
            Weigh(Newest(sh.log, sh'.log), CallBalance(p)) == HandlerOf(p)(task') - HandlerOf(p)(task)
  {
  }

  lemma AdvanceCalls(cfg: Config, s: State, i: nat, answer: Answer, p: PeerID)
    requires i < |s.tasks|
    ensures var s' := Next(cfg, s, Advance(i, answer));
            Weigh(Newest(s.sh.log, s'.sh.log), CallBalance(p))
            == Sum(s'.tasks, HandlerOf(p)) - Sum(s.tasks, HandlerOf(p))
  {
    SectionCalls(cfg, s.sh, s.tasks[i], answer, p);
    SumUpdate(s.tasks, i, Section(cfg, s.sh, s.tasks[i], answer).1, HandlerOf(p));
  }

  lemma DialCalls(cfg: Config, s: State, p: PeerID)
    ensures var s' := Next(cfg, s, TakeDial);
            Weigh(Newest(s.sh.log, s'.sh.log), CallBalance(p))
            == Sum(s'.tasks, HandlerOf(p)) - Sum(s.tasks, HandlerOf(p))
  {
    if s.sh.dialQueue != [] {
      SumAppend(s.tasks, Dialing(s.sh.dialQueue[0]), HandlerOf(p));
    }
  }

  lemma InboundCalls(cfg: Config, s: State, peer: PeerID, p: PeerID)
    ensures var s' := Next(cfg, s, Inbound(peer));
            Weigh(Newest(s.sh.log, s'.sh.log), CallBalance(p))
            == Sum(s'.tasks, HandlerOf(p)) - Sum(s.tasks, HandlerOf(p))
  {
    SumAppend(s.tasks, Accepting(peer), HandlerOf(p));
  }

  lemma StepCalls(cfg: Config, s: State, step: Step, p: PeerID)
    ensures var s' := Next(cfg, s, step);
            Weigh(Newest(s.sh.log, s'.sh.log), CallBalance(p))
            == Sum(s'.tasks, HandlerOf(p)) - Sum(s.tasks, HandlerOf(p))
  {
    match step
    case Advance(i, answer) =>
      if i < |s.tasks| {
        AdvanceCalls(cfg, s, i, answer, p);
      }
    case TakeDial => DialCalls(cfg, s, p);
    case Inbound(peer) => InboundCalls(cfg, s, peer, p);
    case _ =>
  }

  /**
   * Conservation, under every interleaving: the calls of a peer's failure handler are exactly its
   * reported failures, queued retries, drops and losses, plus the calls still under way.
   */
  lemma {:induction false} EveryCallHasOneOutcome(cfg: Config, steps: seq<Step>, p: PeerID)
    ensures Sum(Run(cfg, steps).sh.log, CallBalance(p)) == Sum(Run(cfg, steps).tasks, HandlerOf(p))
  {
    if steps != [] {
      var s, step := Run(cfg, steps[..|steps| - 1]), steps[|steps| - 1];
      EveryCallHasOneOutcome(cfg, steps[..|steps| - 1], p);
      StepCalls(cfg, s, step, p);
      StepGrows(cfg, s, step);
      GrowsSum(s.sh.log, Next(cfg, s, step).sh.log, CallBalance(p));
    }
  }

  /** Outcomes the handler's own checks rule out. */
  predicate Impossible(e: Event) {
    e.Refused? || (e.FailedCrawl? && e.reason == Underivable)
  }

  lemma SectionIsPossible(cfg: Config, sh: Shared, task: Task, answer: Answer)
    requires TaskOk(cfg, task)
    ensures var e := Newest(sh.log, Section(cfg, sh, task, answer).0.log); e.Some? ==> !Impossible(e.value)
  {
  }

  lemma StepIsPossible(cfg: Config, s: State, step: Step)
    requires StateOk(cfg, s)
    ensures var e := Newest(s.sh.log, Next(cfg, s, step).sh.log); e.Some? ==> !Impossible(e.value)
  {
    if step.Advance? && step.i < |s.tasks| {
      SectionIsPossible(cfg, s.sh, s.tasks[step.i], step.answer);
    }
  }

  /**
   * In no run does a guard of the scheduler turn away a call of the failure handler, and in no run
   * is a failure reported because its stored ENR yields no peer.
   */
  lemma {:induction false} GuardsAreUnreachable(cfg: Config, steps: seq<Step>)
    ensures forall e <- Run(cfg, steps).sh.log :: !Impossible(e)
  {
    if steps != [] {
      var s, step := Run(cfg, steps[..|steps| - 1]), steps[|steps| - 1];
      GuardsAreUnreachable(cfg, steps[..|steps| - 1]);
      ReachableOk(cfg, steps[..|steps| - 1]);
      StepIsPossible(cfg, s, step);
      StepGrows(cfg, s, step);
    }
  }

  // ----- Serialised handling -----

  /** From the tracker read to the handler's return, or with the entry about to be removed. */
  function MidOf(p: PeerID): Task -> int {
    (t: Task) =>
      if t.For(p) && (t.Exhausting? || t.Looking? || t.Scheduling? || t.Emitting? || t.Clearing?) then 1 else 0
  }

  /** In every state of a run at most one goroutine is in the middle of the peer's handling. */
  predicate Alone(cfg: Config, steps: seq<Step>, p: PeerID) {
    steps != [] ==> Alone(cfg, steps[..|steps| - 1], p) && Sum(Run(cfg, steps).tasks, MidOf(p)) <= 1
  }

  /** Besides, Stop has not wiped the tracker. */
  predicate Serial(cfg: Config, steps: seq<Step>, p: PeerID) {
    Alone(cfg, steps, p) && Wiped !in Run(cfg, steps).sh.log
  }

  /** A step that is not a wipe that took effect. */
  predicate Harmless(s: State, step: Step) {
    step.Wipe? ==> !s.sh.stopping
  }

  lemma WipeIsNoted(cfg: Config, s: State, step: Step)
    requires Wiped !in Next(cfg, s, step).sh.log
    ensures Wiped !in s.sh.log && Harmless(s, step)
  {
    StepGrows(cfg, s, step);
  }

  lemma SerialFront(cfg: Config, front: seq<Step>, step: Step, steps: seq<Step>, p: PeerID)
    requires steps == front + [step] && Serial(cfg, steps, p)
    ensures Serial(cfg, front, p) && Sum(Run(cfg, front).tasks, MidOf(p)) <= 1
    ensures Harmless(Run(cfg, front), step)
  {
    assert steps[..|steps| - 1] == front;
    WipeIsNoted(cfg, Run(cfg, front), step);
  }

  /** A goroutine that works for the peer at all. */
  function LiveOf(p: PeerID): Task -> int {
    (t: Task) => if t.For(p) then 1 else 0
  }

  /** In every state of a run at most one goroutine works for the peer. */
  predicate OneAtATime(cfg: Config, steps: seq<Step>, p: PeerID) {
    steps != [] ==> OneAtATime(cfg, steps[..|steps| - 1], p) && Sum(Run(cfg, steps).tasks, LiveOf(p)) <= 1
  }

  /** A run in which goroutines work for the peer one after another, however many, is serialised. */
  lemma {:induction false} OneAtATimeIsAlone(cfg: Config, steps: seq<Step>, p: PeerID)
    requires OneAtATime(cfg, steps, p)
    ensures Alone(cfg, steps, p)
  {
    if steps != [] {
      OneAtATimeIsAlone(cfg, steps[..|steps| - 1], p);
      MidIsLive(Run(cfg, steps).tasks, p);
    }
  }

  lemma {:induction false} MidIsLive(tasks: seq<Task>, p: PeerID)
    ensures Sum(tasks, MidOf(p)) <= Sum(tasks, LiveOf(p))
  {
    if tasks != [] {
      MidIsLive(tasks[..|tasks| - 1], p);
    }
  }

  lemma OnlyOne(tasks: seq<Task>, i: nat, p: PeerID)
    requires i < |tasks| && Sum(tasks, MidOf(p)) <= 1 && MidOf(p)(tasks[i]) == 1
    ensures forall j :: 0 <= j < |tasks| && j != i ==> MidOf(p)(tasks[j]) == 0
  {
    SumUpdate(tasks, i, Done, MidOf(p));
    var rest := tasks[i := Done];
    SumNonNegative(rest, MidOf(p));
    forall j | 0 <= j < |tasks| && j != i ensures MidOf(p)(tasks[j]) == 0 {
      assert rest[j] in rest;
    }
  }

  /** What a goroutine read from the tracker still holds. */
  predicate StillTrue(cfg: Config, sh: Shared, task: Task) {
    match task
    case Exhausting(p, _) => Exhausted(cfg, sh, p)
    case Looking(p, _) => !Exhausted(cfg, sh, p)
    case Scheduling(p, _, _, _) => !Exhausted(cfg, sh, p)
    case _ => true
  }

  ghost predicate ReadsHold(cfg: Config, s: State, p: PeerID) {
    forall i :: 0 <= i < |s.tasks| && s.tasks[i].For(p) ==> StillTrue(cfg, s.sh, s.tasks[i])
  }

  lemma SectionReads(cfg: Config, sh: Shared, task: Task, answer: Answer, p: PeerID)
    requires StillTrue(cfg, sh, task)
    ensures var (sh', task') := Section(cfg, sh, task, answer);
            && (task'.For(p) ==> task.For(p) && StillTrue(cfg, sh', task'))
            && (MidOf(p)(task) == 0 || !(task.Exhausting? || task.Scheduling? || task.Clearing?)
                ==> Exhausted(cfg, sh', p) == Exhausted(cfg, sh, p))
  {
  }

  lemma AdvanceReads(cfg: Config, s: State, i: nat, answer: Answer, p: PeerID)
    requires ReadsHold(cfg, s, p) && Sum(s.tasks, MidOf(p)) <= 1 && i < |s.tasks|
    ensures ReadsHold(cfg, Next(cfg, s, Advance(i, answer)), p)
  {
    var s' := Next(cfg, s, Advance(i, answer));
    if !s.tasks[i].For(p) {
      OthersUntouched(cfg, s.sh, s.tasks[i], answer, p);
    } else {
      SectionReads(cfg, s.sh, s.tasks[i], answer, p);
      if MidOf(p)(s.tasks[i]) == 1 {
        OnlyOne(s.tasks, i, p);
      }
    }
  }

  lemma OthersUntouched(cfg: Config, sh: Shared, task: Task, answer: Answer, p: PeerID)
    requires !task.For(p)
    ensures var (sh', task') := Section(cfg, sh, task, answer);
            && !task'.For(p) && Exhausted(cfg, sh', p) == Exhausted(cfg, sh, p)
            && sh'.Attempts(p) == sh.Attempts(p)
  {
  }

  lemma StepReads(cfg: Config, s: State, step: Step, p: PeerID)
    requires ReadsHold(cfg, s, p) && Sum(s.tasks, MidOf(p)) <= 1 && Harmless(s, step)
    ensures ReadsHold(cfg, Next(cfg, s, step), p)
  {
    if step.Advance? && step.i < |s.tasks| {
      AdvanceReads(cfg, s, step.i, step.answer, p);
    }
  }

  lemma {:induction false} SerialReadsHold(cfg: Config, steps: seq<Step>, p: PeerID)
    requires Serial(cfg, steps, p)
    ensures ReadsHold(cfg, Run(cfg, steps), p)
  {
    if steps != [] {
      var front, step := steps[..|steps| - 1], steps[|steps| - 1];
      SerialFront(cfg, front, step, steps, p);
      SerialReadsHold(cfg, front, p);
      StepReads(cfg, Run(cfg, front), step, p);
    }
  }

  // ----- Exact accounting -----

  /** The total weight of the events since the peer's last success. */
  function Since(log: seq<Event>, p: PeerID, weight: Event -> int): int {
    if log == [] || log[|log| - 1] == Succeeded(p) then 0
    else Since(log[..|log| - 1], p, weight) + weight(log[|log| - 1])
  }

  function RetryableFailure(p: PeerID): Event -> int {
    (e: Event) => if e == Retryable(p) then 1 else 0
  }

  function ReportFor(p: PeerID, reasons: set<FailReason>): Event -> int {
    (e: Event) => if e.FailedCrawl? && e.peer == p && e.reason in reasons then 1 else 0
  }

  function ExhaustedReport(p: PeerID): Event -> int {
    ReportFor(p, {AttemptsExhausted})
  }

  function UnreachableReport(p: PeerID): Event -> int {
    ReportFor(p, {NoEnr, Underivable})
  }

  /** What a goroutine in the middle of a handler has taken from the books and not yet returned. */
  function Debt(max: int, p: PeerID): Task -> int {
    (t: Task) =>
      if !t.For(p) then 0
      else if t.Looking? || t.Scheduling? || t.Exhausting? then 1
      else if t.Emitting? && t.reason == AttemptsExhausted then max + 1
      else if t.Emitting? && (t.reason == NoEnr || t.reason == Underivable) then 1
      else 0
  }

  /** Failures not yet explained by a report. */
  function Open(max: int, log: seq<Event>, p: PeerID): int {
    Since(log, p, RetryableFailure(p))
    - Since(log, p, ExhaustedReport(p)) * (max + 1)
    - Since(log, p, UnreachableReport(p))
  }

  /** What one event adds to the open failures. */
  function Gain(max: int, p: PeerID): Event -> int {
    (e: Event) =>
      match e
      case Retryable(q) => if q == p then 1 else 0
      case FailedCrawl(q, _, _, reason) =>
        if q != p then 0
        else if reason == AttemptsExhausted then -(max + 1)
        else if reason == NoEnr || reason == Underivable then -1
        else 0
      case _ => 0
  }

  lemma OpenStep(max: int, log: seq<Event>, e: Event, p: PeerID)
    ensures Open(max, log + [e], p) == if e == Succeeded(p) then 0 else Open(max, log, p) + Gain(max, p)(e)
  {
    assert (log + [e])[..|log|] == log;
    var reports := Since(log, p, ExhaustedReport(p));
    assert (reports + 1) * (max + 1) == reports * (max + 1) + (max + 1);
  }

  lemma GrowsOpen(max: int, before: seq<Event>, after: seq<Event>, p: PeerID)
    requires Grows(before, after) && Newest(before, after) != Some(Succeeded(p))
    ensures Open(max, after, p) == Open(max, before, p) + Weigh(Newest(before, after), Gain(max, p))
  {
    if Newest(before, after).Some? {
      OpenStep(max, before, Newest(before, after).value, p);
    } else {
      assert after == before;
    }
  }

  lemma NoDebts(tasks: seq<Task>, max: int, p: PeerID)
    requires forall i :: 0 <= i < |tasks| ==> MidOf(p)(tasks[i]) == 0
    ensures Sum(tasks, Debt(max, p)) == 0
  {
    if tasks != [] {
      NoDebts(tasks[..|tasks| - 1], max, p);
      assert MidOf(p)(tasks[|tasks| - 1]) == 0;
    }
  }

  lemma ScheduleBalances(cfg: Config, sh: Shared, p: PeerID, cp: ConnectablePeer, enr: Node, err: CrawlError)
    requires !Exhausted(cfg, sh, p) && IsRetryable(err) && 1 <= cfg.maxRetryAttempts
    ensures var sh' := ScheduleRetry(cfg, sh, p, cp, enr, err);
            && Weigh(Newest(sh.log, sh'.log), Gain(cfg.maxRetryAttempts, p)) == 0
            && Newest(sh.log, sh'.log) != Some(Succeeded(p))
            && sh'.Attempts(p) == sh.Attempts(p) + 1
  {
  }

  /** What a section notes pays for what it changes in the attempts and in its goroutine's debt. */
  predicate Pays(cfg: Config, sh: Shared, sh': Shared, task: Task, task': Task, p: PeerID) {
    var max := cfg.maxRetryAttempts;
    && Newest(sh.log, sh'.log) != Some(Succeeded(p))
    && Weigh(Newest(sh.log, sh'.log), Gain(max, p))
       == sh'.Attempts(p) + Debt(max, p)(task') - sh.Attempts(p) - Debt(max, p)(task)
  }

  lemma HandlerPays(cfg: Config, sh: Shared, task: Task, answer: Answer, p: PeerID)
    requires task.For(p) && StillTrue(cfg, sh, task) && TaskOk(cfg, task) && 0 <= sh.Attempts(p) <= cfg.maxRetryAttempts
    requires 1 <= cfg.maxRetryAttempts && (task.Failing? || task.Exhausting? || task.Looking? || task.Emitting?)
    ensures var (sh', task') := Section(cfg, sh, task, answer); Pays(cfg, sh, sh', task, task', p)
  {
  }

  lemma CallbackPays(cfg: Config, sh: Shared, task: Task, answer: Answer, p: PeerID)
    requires task.For(p) && !task.Clearing? && !task.Scheduling?
    requires !task.Failing? && !task.Exhausting? && !task.Looking? && !task.Emitting?
    ensures var (sh', task') := Section(cfg, sh, task, answer); Pays(cfg, sh, sh', task, task', p)
  {
  }

  /** One section of the peer's own goroutine, with what it read still true. */
  lemma OwnSectionBalances(cfg: Config, sh: Shared, task: Task, answer: Answer, p: PeerID)
    requires task.For(p) && StillTrue(cfg, sh, task) && TaskOk(cfg, task) && 0 <= sh.Attempts(p) <= cfg.maxRetryAttempts
    requires 1 <= cfg.maxRetryAttempts && !task.Clearing?
    ensures var (sh', task') := Section(cfg, sh, task, answer); Pays(cfg, sh, sh', task, task', p)
  {
    if task.Scheduling? {
      ScheduleBalances(cfg, sh, p, task.peer, task.enr, task.err);
    } else if task.Failing? || task.Exhausting? || task.Looking? || task.Emitting? {
      HandlerPays(cfg, sh, task, answer, p);
    } else {
      CallbackPays(cfg, sh, task, answer, p);
    }
  }

  lemma OtherSectionBalances(cfg: Config, sh: Shared, task: Task, answer: Answer, p: PeerID)
    requires !task.For(p)
    ensures var ((sh', task'), max) := (Section(cfg, sh, task, answer), cfg.maxRetryAttempts);
            && Newest(sh.log, sh'.log) != Some(Succeeded(p))
            && Weigh(Newest(sh.log, sh'.log), Gain(max, p)) == 0
            && Debt(max, p)(task') == 0
  {
  }

  ghost predicate Balanced(cfg: Config, s: State, p: PeerID) {
    Open(cfg.maxRetryAttempts, s.sh.log, p) == s.sh.Attempts(p) + Sum(s.tasks, Debt(cfg.maxRetryAttempts, p))
  }

  lemma NobodyMid(tasks: seq<Task>, max: int, p: PeerID)
    requires Sum(tasks, MidOf(p)) == 0
    ensures Sum(tasks, Debt(max, p)) == 0
  {
    SumNonNegative(tasks, MidOf(p));
    forall i | 0 <= i < |tasks| ensures MidOf(p)(tasks[i]) == 0 {
      assert tasks[i] in tasks;
    }
    NoDebts(tasks, max, p);
  }

  lemma AdvanceBalances(cfg: Config, s: State, i: nat, answer: Answer, p: PeerID)
    requires StateOk(cfg, s) && ReadsHold(cfg, s, p) && Balanced(cfg, s, p) && i < |s.tasks|
    requires 1 <= cfg.maxRetryAttempts && Sum(s.tasks, MidOf(p)) <= 1
    ensures Balanced(cfg, Next(cfg, s, Advance(i, answer)), p)
  {
    var s', task, max := Next(cfg, s, Advance(i, answer)), s.tasks[i], cfg.maxRetryAttempts;
    SumUpdate(s.tasks, i, s'.tasks[i], Debt(max, p));
    SectionGrows(cfg, s.sh, task, answer);
    if task.For(p) && task.Clearing? {
      OnlyOne(s.tasks, i, p);
      NoDebts(s'.tasks, max, p);
      OpenStep(max, s.sh.log, Succeeded(p), p);
    } else {
      if task.For(p) {
        OwnSectionBalances(cfg, s.sh, task, answer, p);
      } else {
        OtherSectionBalances(cfg, s.sh, task, answer, p);
        OthersUntouched(cfg, s.sh, task, answer, p);
      }
      GrowsOpen(max, s.sh.log, s'.sh.log, p);
    }
  }

  lemma OtherStepIsNeutral(cfg: Config, s: State, step: Step, p: PeerID)
    requires !step.Advance? && Harmless(s, step)
    ensures var (s', max) := (Next(cfg, s, step), cfg.maxRetryAttempts);
            && Newest(s.sh.log, s'.sh.log) != Some(Succeeded(p))
            && Weigh(Newest(s.sh.log, s'.sh.log), Gain(max, p)) == 0
            && s'.sh.Attempts(p) == s.sh.Attempts(p)
            && Sum(s'.tasks, Debt(max, p)) == Sum(s.tasks, Debt(max, p))
  {
    match step
    case TakeDial => DialIsNeutral(cfg, s, p);
    case Inbound(peer) => SumAppend(s.tasks, Accepting(peer), Debt(cfg.maxRetryAttempts, p));
    case _ =>
  }

  lemma DialIsNeutral(cfg: Config, s: State, p: PeerID)
    ensures var (s', max) := (Next(cfg, s, TakeDial), cfg.maxRetryAttempts);
            && Newest(s.sh.log, s'.sh.log) != Some(Succeeded(p))
            && Weigh(Newest(s.sh.log, s'.sh.log), Gain(max, p)) == 0
            && s'.sh.Attempts(p) == s.sh.Attempts(p)
            && Sum(s'.tasks, Debt(max, p)) == Sum(s.tasks, Debt(max, p))
  {
    if s.sh.dialQueue != [] {
      SumAppend(s.tasks, Dialing(s.sh.dialQueue[0]), Debt(cfg.maxRetryAttempts, p));
    }
  }

  lemma OtherStepBalances(cfg: Config, s: State, step: Step, p: PeerID)
    requires Balanced(cfg, s, p) && !step.Advance? && Harmless(s, step)
    ensures Balanced(cfg, Next(cfg, s, step), p)
  {
    OtherStepIsNeutral(cfg, s, step, p);
    StepGrows(cfg, s, step);
    GrowsOpen(cfg.maxRetryAttempts, s.sh.log, Next(cfg, s, step).sh.log, p);
  }

  lemma {:induction false} SerialBalances(cfg: Config, steps: seq<Step>, p: PeerID)
    requires Serial(cfg, steps, p) && 1 <= cfg.maxRetryAttempts
    ensures Balanced(cfg, Run(cfg, steps), p)
  {
    if steps != [] {
      var front, step := steps[..|steps| - 1], steps[|steps| - 1];
      var s := Run(cfg, front);
      SerialFront(cfg, front, step, steps, p);
      SerialBalances(cfg, front, p);
      SerialReadsHold(cfg, front, p);
      ReachableOk(cfg, front);
      if !step.Advance? {
        OtherStepBalances(cfg, s, step, p);
      } else if step.i < |s.tasks| {
        AdvanceBalances(cfg, s, step.i, step.answer, p);
      }
    }
  }

  predicate AddsUp(cfg: Config, sh: Shared, p: PeerID) {
    Since(sh.log, p, RetryableFailure(p))
    == Since(sh.log, p, ExhaustedReport(p)) * (cfg.maxRetryAttempts + 1)
       + Since(sh.log, p, UnreachableReport(p))
       + sh.Attempts(p)
  }

  lemma QuietBooks(cfg: Config, s: State, p: PeerID)
    requires Balanced(cfg, s, p) && Sum(s.tasks, MidOf(p)) == 0
    ensures AddsUp(cfg, s.sh, p)
  {
    NobodyMid(s.tasks, cfg.maxRetryAttempts, p);
  }

  /**
   * Main result: while a peer's handling is serialised, and whenever no goroutine is in the middle
   * of it, its retryable failures since its last success are exactly Max + 1 for every report of
   * exhausted attempts, one for every report of a missing ENR, and its current attempts.
   */
  lemma {:induction false} ExactAccounting(cfg: Config, steps: seq<Step>, s: State, p: PeerID)
    requires Serial(cfg, steps, p) && 1 <= cfg.maxRetryAttempts
    requires s == Run(cfg, steps) && Sum(s.tasks, MidOf(p)) == 0
    ensures AddsUp(cfg, s.sh, p)
  {
    SerialBalances(cfg, steps, p);
    QuietBooks(cfg, s, p);
  }
}
