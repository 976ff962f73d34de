/**
 * All work ends: every section of a goroutine and every move of a worker for a peer burns fuel
 * that only arrivals of that peer bring in, so a run does a bounded amount of work per arrival.
 */
module CrawlWork {
  import opened Common
  import opened CrawlErrors
  import opened CrawlState
  import opened CrawlMachine
  import opened CrawlTermination

  function RankFor(p: PeerID): Task -> int {
    (t: Task) => if t.For(p) then Rank(t) else 0
  }

  /** Where a peer's items stand on their way from one dial to the next. */
  function Position(s: State, p: PeerID): int {
    Sum(s.tasks, RankFor(p))
    + 12 * Sum(s.sh.dialQueue, DialEntry(p))
    + 14 * Sum(s.sh.retryQueue, RetryEntry(p))
    + 13 * Waits(s, p)
  }

  /** The measure that falls by at least one on every outcome of a dial, kept from going below 0. */
  function Outcomes(cap: nat, items: int, attempts: int): int {
    (cap + 1) * items + cap - attempts
  }

  function Fuel(cfg: Config, s: State, p: PeerID): int {
    16 * Outcomes(Cap(cfg), Queued(s, p) + InFlight(s, p), s.sh.Attempts(p)) + Position(s, p)
  }

  function PerArrival(cap: nat): nat {
    16 * (cap + 1) + 12
  }

  lemma OutcomesFall(cap: nat, items: int, a: nat, a': nat)
    requires a <= cap
    ensures Outcomes(cap, items + 1, a) == Outcomes(cap, items, a) + cap + 1
    ensures Outcomes(cap, items, a') < Outcomes(cap, items + 1, a)
    ensures Outcomes(cap, items, a + 1) + 1 == Outcomes(cap, items, a)
  {
    assert (cap + 1) * (items + 1) == (cap + 1) * items + cap + 1;
  }

  /** Whether a step does work for a peer: it runs its goroutine or moves its queue entry. */
  predicate WorksFor(s: State, step: Step, p: PeerID) {
    match step
    case Advance(i, _) => i < |s.tasks| && s.tasks[i].For(p)
    case TakeDial => s.sh.dialQueue != [] && s.sh.dialQueue[0].id == p
    case TakeRetry => s.sh.retryQueue != [] && s.waiting.None? && s.sh.retryQueue[0].peer.id == p
    case Requeue(cancelled) =>
      Waits(s, p) == 1 && (cancelled || |s.sh.dialQueue| < DIAL_QUEUE_CAPACITY)
    case _ => false
  }

  function Burnt(s: State, step: Step, p: PeerID): nat {
    if WorksFor(s, step, p) then 1 else 0
  }

  /** What a move may add to a position: an arrival enters it, a retry goes back to its start. */
  function Slack(c: Counts, c': Counts): int {
    if c'.arrivals > c.arrivals then 12 else if c'.queued > c.queued then 14 else 0
  }

  lemma VisiblePosition(cfg: Config, s: State, i: nat, sh': Shared, task': Task, p: PeerID)
    requires i < |s.tasks| && Visible(cfg, s.sh, sh', s.tasks[i], task', p)
    requires s.tasks[i].Done? || Rank(task') < Rank(s.tasks[i])
    ensures var s' := s.(sh := sh', tasks := s.tasks[i := task']);
            Position(s', p) + (if s.tasks[i].For(p) then 1 else 0)
            <= Position(s, p) + Slack(CountsOf(s, p), CountsOf(s', p))
  {
    QuietCounts(s.sh.log, sh'.log, p);
    SumUpdate(s.tasks, i, task', RankFor(p));
    if sh'.retryQueue != s.sh.retryQueue {
      SumAppend(s.sh.retryQueue, sh'.retryQueue[|sh'.retryQueue| - 1], RetryEntry(p));
    }
  }

  lemma SectionPosition(cfg: Config, s: State, i: nat, answer: Answer, p: PeerID)
    requires StateOk(cfg, s) && i < |s.tasks|
    ensures var (sh', task') := Section(cfg, s.sh, s.tasks[i], answer);
            && Visible(cfg, s.sh, sh', s.tasks[i], task', p)
            && (s.tasks[i].Done? || Rank(task') < Rank(s.tasks[i]))
  {
    SectionIsVisible(cfg, s.sh, s.tasks[i], answer, p);
    SectionsEnd(cfg, s.sh, s.tasks[i], answer);
  }

  lemma AdvancePosition(cfg: Config, s: State, i: nat, answer: Answer, p: PeerID)
    requires StateOk(cfg, s) && i < |s.tasks|
    ensures var s' := Next(cfg, s, Advance(i, answer));
            Position(s', p) + Burnt(s, Advance(i, answer), p) <= Position(s, p) + Slack(CountsOf(s, p), CountsOf(s', p))
  {
    var (sh', task') := Section(cfg, s.sh, s.tasks[i], answer);
    SectionPosition(cfg, s, i, answer, p);
    VisiblePosition(cfg, s, i, sh', task', p);
  }

  lemma InboundPosition(cfg: Config, s: State, peer: PeerID, p: PeerID)
    ensures var s' := Next(cfg, s, Inbound(peer));
            Position(s', p) <= Position(s, p) + Slack(CountsOf(s, p), CountsOf(s', p))
  {
    assert Next(cfg, s, Inbound(peer)) == s.(sh := s.sh.Note(Arrived(peer)), tasks := s.tasks + [Accepting(peer)]);
    NoteCounts(s.sh.log, Arrived(peer), p);
    SumAppend(s.tasks, Accepting(peer), RankFor(p));
  }

  lemma DiscoverPosition(cfg: Config, s: State, node: Node, onNetwork: bool, p: PeerID)
    ensures var s' := Next(cfg, s, Discover(node, onNetwork));
            Position(s', p) <= Position(s, p) + Slack(CountsOf(s, p), CountsOf(s', p))
  {
    if node.peer.Some? {
      var cp := DeriveDetails(node).value;
      NoteCounts(s.sh.log, Arrived(cp.id), p);
      SumAppend(s.sh.dialQueue, cp, DialEntry(p));
    }
  }

  lemma TakeDialPosition(cfg: Config, s: State, p: PeerID)
    ensures Position(Next(cfg, s, TakeDial), p) + Burnt(s, TakeDial, p) <= Position(s, p)
  {
    if s.sh.dialQueue != [] {
      SumTail(s.sh.dialQueue, DialEntry(p));
      SumAppend(s.tasks, Dialing(s.sh.dialQueue[0]), RankFor(p));
    }
  }

  lemma RetryWorkerPosition(cfg: Config, s: State, step: Step, p: PeerID)
    requires step.TakeRetry? || step.Requeue?
    ensures Position(Next(cfg, s, step), p) + Burnt(s, step, p) <= Position(s, p)
  {
    if s.sh.retryQueue != [] {
      SumTail(s.sh.retryQueue, RetryEntry(p));
    }
    if s.waiting.Some? {
      SumAppend(s.sh.dialQueue, s.waiting.value.peer, DialEntry(p));
    }
  }

  lemma StepPosition(cfg: Config, s: State, step: Step, p: PeerID)
    requires StateOk(cfg, s) && !step.Wipe?
    ensures var s' := Next(cfg, s, step);
            Position(s', p) + Burnt(s, step, p) <= Position(s, p) + Slack(CountsOf(s, p), CountsOf(s', p))
  {
    match step
    case Discover(node, onNetwork) => DiscoverPosition(cfg, s, node, onNetwork, p);
    case Inbound(peer) => InboundPosition(cfg, s, peer, p);
    case TakeDial => TakeDialPosition(cfg, s, p);
    case TakeRetry => RetryWorkerPosition(cfg, s, step, p);
    case Requeue(_) => RetryWorkerPosition(cfg, s, step, p);
    case Advance(i, answer) =>
      if i < |s.tasks| {
        AdvancePosition(cfg, s, i, answer, p);
      }
    case _ =>
  }

  lemma MoveBurns(cap: nat, c: Counts, c': Counts)
    requires Moves(cap, c, c') && Sane(cap, c) && Sane(cap, c')
    ensures 16 * Outcomes(cap, c'.queued + c'.inFlight, c'.attempts) + Slack(c, c')
            <= 16 * Outcomes(cap, c.queued + c.inFlight, c.attempts) + (c'.arrivals - c.arrivals) * PerArrival(cap)
  {
    var items := c.queued + c.inFlight;
    OutcomesFall(cap, items, c.attempts, c'.attempts);
    OutcomesFall(cap, items - 1, c.attempts, c'.attempts);
  }

  lemma Burns(cfg: Config, s: State, s': State, burnt: nat, p: PeerID)
    requires StateOk(cfg, s) && StateOk(cfg, s') && Moves(Cap(cfg), CountsOf(s, p), CountsOf(s', p))
    requires Position(s', p) + burnt <= Position(s, p) + Slack(CountsOf(s, p), CountsOf(s', p))
    ensures Fuel(cfg, s', p) + burnt
            <= Fuel(cfg, s, p) + (Arrivals(s'.sh, p) - Arrivals(s.sh, p)) * PerArrival(Cap(cfg))
  {
    CountsAreSane(cfg, s, p);
    CountsAreSane(cfg, s', p);
    MoveBurns(Cap(cfg), CountsOf(s, p), CountsOf(s', p));
  }

  /** What was worked and what fuel is left never exceeds what the arrivals brought in. */
  ghost predicate Covered(cfg: Config, s: State, work: nat, p: PeerID) {
    work + Fuel(cfg, s, p) <= 16 * Cap(cfg) + Arrivals(s.sh, p) * PerArrival(Cap(cfg))
  }

  lemma BurnsCovered(cfg: Config, s: State, s': State, work: nat, burnt: nat, p: PeerID)
    requires Covered(cfg, s, work, p)
    requires Fuel(cfg, s', p) + burnt
             <= Fuel(cfg, s, p) + (Arrivals(s'.sh, p) - Arrivals(s.sh, p)) * PerArrival(Cap(cfg))
    ensures Covered(cfg, s', work + burnt, p)
  {
    Spend(work + Fuel(cfg, s, p) - 16 * Cap(cfg), work + burnt + Fuel(cfg, s', p) - 16 * Cap(cfg),
          Arrivals(s.sh, p), Arrivals(s'.sh, p), PerArrival(Cap(cfg)));
  }

  lemma MoveCovered(cfg: Config, s: State, s': State, work: nat, burnt: nat, p: PeerID)
    requires StateOk(cfg, s) && StateOk(cfg, s') && Moves(Cap(cfg), CountsOf(s, p), CountsOf(s', p))
    requires Position(s', p) + burnt <= Position(s, p) + Slack(CountsOf(s, p), CountsOf(s', p))
    requires Covered(cfg, s, work, p)
    ensures Covered(cfg, s', work + burnt, p)
  {
    Burns(cfg, s, s', burnt, p);
    BurnsCovered(cfg, s, s', work, burnt, p);
  }

  lemma StepCovered(cfg: Config, s: State, step: Step, work: nat, p: PeerID)
    requires StateOk(cfg, s) && !step.Wipe? && Covered(cfg, s, work, p)
    ensures Covered(cfg, Next(cfg, s, step), work + Burnt(s, step, p), p)
  {
    StepMoves(cfg, s, step, p);
    StepPosition(cfg, s, step, p);
    StepKeepsOk(cfg, s, step);
    MoveCovered(cfg, s, Next(cfg, s, step), work, Burnt(s, step, p), p);
  }

  /** How many steps of a run did work for a peer. */
  function Work(cfg: Config, steps: seq<Step>, p: PeerID): nat {
    if steps == [] then 0
    else
      var front := steps[..|steps| - 1];
      Work(cfg, front, p) + Burnt(Run(cfg, front), steps[|steps| - 1], p)
  }

  // ----- After shutdown -----

  lemma StoppedAdvance(cfg: Config, s: State, i: nat, answer: Answer, p: PeerID)
    requires StateOk(cfg, s) && s.sh.stopping && i < |s.tasks|
    ensures var s' := Next(cfg, s, Advance(i, answer));
            Slack(CountsOf(s, p), CountsOf(s', p)) == 0 && Arrivals(s'.sh, p) == Arrivals(s.sh, p)
  {
    var (sh', task') := Section(cfg, s.sh, s.tasks[i], answer);
    StoppedSection(cfg, s.sh, s.tasks[i], answer);
    QuietCounts(s.sh.log, sh'.log, p);
    assert Next(cfg, s, Advance(i, answer)) == s.(sh := sh', tasks := s.tasks[i := task']);
  }

  /** Once the crawler is stopping, no section queues anything. */
  lemma StoppedSection(cfg: Config, sh: Shared, task: Task, answer: Answer)
    requires sh.stopping
    ensures var sh' := Section(cfg, sh, task, answer).0;
            sh'.dialQueue == sh.dialQueue && sh'.retryQueue == sh.retryQueue && QuietLog(sh.log, sh'.log)
  {
  }

  lemma StoppedInbound(cfg: Config, s: State, peer: PeerID, p: PeerID)
    ensures var s' := Next(cfg, s, Inbound(peer));
            && Arrivals(s.sh, p) <= Arrivals(s'.sh, p)
            && Slack(CountsOf(s, p), CountsOf(s', p)) <= 12 * (Arrivals(s'.sh, p) - Arrivals(s.sh, p))
  {
    assert Next(cfg, s, Inbound(peer)) == s.(sh := s.sh.Note(Arrived(peer)), tasks := s.tasks + [Accepting(peer)]);
    NoteCounts(s.sh.log, Arrived(peer), p);
  }

  /** Then a position, with the work done, rises only by what arrivals bring in; the wipe leaves it alone. */
  lemma StoppedPosition(cfg: Config, s: State, step: Step, p: PeerID)
    requires StateOk(cfg, s) && s.sh.stopping
    ensures var s' := Next(cfg, s, step);
            && s'.sh.stopping && Arrivals(s.sh, p) <= Arrivals(s'.sh, p)
            && Position(s', p) + Burnt(s, step, p)
               <= Position(s, p) + 12 * (Arrivals(s'.sh, p) - Arrivals(s.sh, p))
  {
    StoppedNoDials(cfg, s, step, p);
    match step
    case Advance(i, answer) =>
      if i < |s.tasks| {
        StoppedAdvance(cfg, s, i, answer, p);
        AdvancePosition(cfg, s, i, answer, p);
      }
    case Inbound(peer) =>
      StoppedInbound(cfg, s, peer, p);
      InboundPosition(cfg, s, peer, p);
    case TakeDial => TakeDialPosition(cfg, s, p);
    case TakeRetry => RetryWorkerPosition(cfg, s, step, p);
    case Requeue(_) => RetryWorkerPosition(cfg, s, step, p);
    case _ =>
  }

  /** The invariant of all runs; the fuel counts only until the crawler stops. */
  ghost predicate PaidFor(cfg: Config, s: State, work: nat, p: PeerID) {
    && work + Position(s, p) <= 16 * Cap(cfg) + Arrivals(s.sh, p) * PerArrival(Cap(cfg))
    && (!s.sh.stopping ==> Covered(cfg, s, work, p))
  }

  lemma CoveredIsPaidFor(cfg: Config, s: State, work: nat, p: PeerID)
    requires StateOk(cfg, s) && Covered(cfg, s, work, p)
    ensures PaidFor(cfg, s, work, p)
  {
    CountsAreSane(cfg, s, p);
    assert 0 <= (Cap(cfg) + 1) * (Queued(s, p) + InFlight(s, p));
  }

  lemma SpendPart(spent: int, spent': int, n: int, n': int, price: int, part: int)
    requires spent <= n * price && spent' <= spent + part * (n' - n) && part <= price && n <= n'
    ensures spent' <= n' * price
  {
    var more := n' - n;
    assert (price - part) * more >= 0;
    assert part * more <= price * more;
    assert n' * price == n * price + price * more;
  }

  lemma StoppedPaysFor(cfg: Config, s: State, s': State, work: nat, burnt: nat, p: PeerID)
    requires PaidFor(cfg, s, work, p) && s'.sh.stopping && Arrivals(s.sh, p) <= Arrivals(s'.sh, p)
    requires Position(s', p) + burnt <= Position(s, p) + 12 * (Arrivals(s'.sh, p) - Arrivals(s.sh, p))
    ensures PaidFor(cfg, s', work + burnt, p)
  {
    SpendPart(work + Position(s, p) - 16 * Cap(cfg), work + burnt + Position(s', p) - 16 * Cap(cfg),
              Arrivals(s.sh, p), Arrivals(s'.sh, p), PerArrival(Cap(cfg)), 12);
  }

  lemma StepPaidFor(cfg: Config, s: State, step: Step, work: nat, p: PeerID)
    requires StateOk(cfg, s) && PaidFor(cfg, s, work, p)
    ensures PaidFor(cfg, Next(cfg, s, step), work + Burnt(s, step, p), p)
  {
    if s.sh.stopping {
      StoppedPosition(cfg, s, step, p);
      StoppedPaysFor(cfg, s, Next(cfg, s, step), work, Burnt(s, step, p), p);
    } else if step.Wipe? {
      assert Next(cfg, s, step) == s;
    } else {
      StepCovered(cfg, s, step, work, p);
      StepKeepsOk(cfg, s, step);
      CoveredIsPaidFor(cfg, Next(cfg, s, step), work + Burnt(s, step, p), p);
    }
  }

  lemma {:induction false} WorkIsPaidFor(cfg: Config, steps: seq<Step>, p: PeerID)
    ensures PaidFor(cfg, Run(cfg, steps), Work(cfg, steps, p), p)
  {
    if steps == [] {
      assert Position(START, p) == 0 && Fuel(cfg, START, p) == 16 * Cap(cfg);
    } else {
      var front := steps[..|steps| - 1];
      WorkIsPaidFor(cfg, front, p);
      ReachableOk(cfg, front);
      StepPaidFor(cfg, Run(cfg, front), steps[|steps| - 1], Work(cfg, front, p), p);
    }
  }

  lemma PaidForIsBounded(cfg: Config, s: State, work: nat, p: PeerID)
    requires PaidFor(cfg, s, work, p)
    ensures work <= 16 * Cap(cfg) + Arrivals(s.sh, p) * (16 * Cap(cfg) + 28)
  {
    SumNonNegative(s.sh.dialQueue, DialEntry(p));
    SumNonNegative(s.sh.retryQueue, RetryEntry(p));
    SumNonNegative(s.tasks, RankFor(p));
    assert PerArrival(Cap(cfg)) == 16 * Cap(cfg) + 28;
  }

  /**
   * Main result: in every run, before and after Stop, the goroutines and workers take at most
   * 16 * Max + n * (16 * Max + 28) steps for a peer that arrived n times, however they interleave.
   */
  lemma {:induction false} WorkEnds(cfg: Config, steps: seq<Step>, p: PeerID)
    ensures Work(cfg, steps, p) <= 16 * Cap(cfg) + Arrivals(Run(cfg, steps).sh, p) * (16 * Cap(cfg) + 28)
  {
    WorkIsPaidFor(cfg, steps, p);
    PaidForIsBounded(cfg, Run(cfg, steps), Work(cfg, steps, p), p);
  }
}
