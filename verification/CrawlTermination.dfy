/**
 * Retries end: however the goroutines interleave, a peer is dialled at most Max + 1 times for each
 * time it arrived. The proof carries a potential that no step of the machine can raise.
 */
module CrawlTermination {
  import opened Common
  import opened CrawlErrors
  import opened CrawlState
  import opened CrawlMachine

  // ----- Counting -----

  function DialEntry(p: PeerID): ConnectablePeer -> int {
    (cp: ConnectablePeer) => if cp.id == p then 1 else 0
  }

  function RetryEntry(p: PeerID): RetryInfo -> int {
    (info: RetryInfo) => if info.peer.id == p then 1 else 0
  }

  /** A goroutine carries its peer from the dial or connection until the outcome is decided. */
  predicate Carries(task: Task) {
    match task
    case Done => false
    case Reporting(_) => false
    case Departing(_) => false
    case Emitting(_, _, _) => false
    case _ => true
  }

  function CarriedBy(p: PeerID): Task -> int {
    (task: Task) => if task.For(p) && Carries(task) then 1 else 0
  }

  function ArrivalOf(p: PeerID): Event -> int {
    (e: Event) => if e == Arrived(p) then 1 else 0
  }

  function DialOf(p: PeerID): Event -> int {
    (e: Event) => if e == Dialed(p) then 1 else 0
  }

  function Waits(s: State, p: PeerID): int {
    if s.waiting.Some? && s.waiting.value.peer.id == p then 1 else 0
  }

  /** How often a peer stands in one of the two queues or with the retry worker. */
  function Queued(s: State, p: PeerID): int {
    Sum(s.sh.dialQueue, DialEntry(p)) + Sum(s.sh.retryQueue, RetryEntry(p)) + Waits(s, p)
  }

  function InFlight(s: State, p: PeerID): int {
    Sum(s.tasks, CarriedBy(p))
  }

  function Arrivals(sh: Shared, p: PeerID): int {
    Sum(sh.log, ArrivalOf(p))
  }

  function Dials(sh: Shared, p: PeerID): int {
    Sum(sh.log, DialOf(p))
  }

  /** The number of retries the configuration allows; a negative setting allows none. */
  function Cap(cfg: Config): nat {
    if cfg.maxRetryAttempts < 0 then 0 else cfg.maxRetryAttempts
  }

  // ----- The potential -----

  /** Dials still possible: a queued item is worth one more than one in flight. */
  function Worth(cap: nat, queued: int, inFlight: int, attempts: int): int {
    if queued + inFlight == 0 then 0 else (cap + 1) * queued + cap * inFlight - attempts
  }

  lemma WorthIsNatural(cap: nat, q: nat, f: nat, a: nat)
    requires a <= cap
    ensures 0 <= Worth(cap, q, f, a)
  {
    if q > 0 {
      assert (cap + 1) * q >= cap + 1;
    } else if f > 0 {
      assert cap * f >= cap;
    }
  }

  lemma WorthMoves(cap: nat, q: nat, f: nat, a: nat)
    requires a <= cap
    ensures Worth(cap, q + 1, f, a) <= Worth(cap, q, f, a) + cap + 1
    ensures Worth(cap, q, f + 1, a) <= Worth(cap, q, f, a) + cap
    ensures Worth(cap, q, f + 1, a) + 1 == Worth(cap, q + 1, f, a)
    ensures Worth(cap, q, f, a) <= Worth(cap, q + 1, f, a)
    ensures a < cap ==> Worth(cap, q + 1, f, a + 1) <= Worth(cap, q, f + 1, a)
  {
    assert (cap + 1) * (q + 1) == (cap + 1) * q + cap + 1;
    assert cap * (f + 1) == cap * f + cap;
    WorthIsNatural(cap, q, f, a);
    WorthIsNatural(cap, q + 1, f, a);
  }

  /** An item that leaves in flight for good, with its peer's attempts reset or not lowered. */
  lemma WorthFinish(cap: nat, q: nat, f: nat, a: nat, a': nat)
    requires a <= cap && (a' == 0 || a <= a' <= cap)
    ensures Worth(cap, q, f, a') <= Worth(cap, q, f + 1, a)
  {
    assert cap * (f + 1) == cap * f + cap;
    WorthIsNatural(cap, q, f + 1, a);
  }

  // ----- What a section does to the counts -----

  /** The three things a section can do to a peer's items and attempts. */
  datatype Effect = Keeps | Requeues | Finishes

  function EffectOf(cfg: Config, sh: Shared, task: Task, answer: Answer): Effect {
    var (sh', task') := Section(cfg, sh, task, answer);
    if !Carries(task) || Carries(task') then Keeps
    else if sh'.retryQueue == sh.retryQueue then Finishes
    else Requeues
  }

  ghost predicate QuietLog(before: seq<Event>, after: seq<Event>) {
    || after == before
    || (|after| > 0 && after == before + [after[|after| - 1]]
        && !after[|after| - 1].Arrived? && !after[|after| - 1].Dialed?)
  }

  ghost predicate Pushed(before: seq<RetryInfo>, after: seq<RetryInfo>, p: PeerID) {
    && |after| > 0
    && after == before + [after[|after| - 1]]
    && after[|after| - 1].peer.id == p
  }

  lemma SectionIsQuiet(cfg: Config, sh: Shared, task: Task, answer: Answer)
    ensures var (sh', task') := Section(cfg, sh, task, answer);
            && sh'.dialQueue == sh.dialQueue && sh'.stopping == sh.stopping
            && QuietLog(sh.log, sh'.log)
  {
  }

  lemma ScheduleEffect(cfg: Config, sh: Shared, p: PeerID, cp: ConnectablePeer, enr: Node, err: CrawlError)
    requires DeriveDetails(enr) == Some(cp) && cp.id == p
    requires p in sh.tracker ==> InfoOk(cfg, p, sh.tracker[p])
    ensures var sh' := ScheduleRetry(cfg, sh, p, cp, enr, err);
            && sh'.tracker - {p} == sh.tracker - {p}
            && (if sh'.retryQueue == sh.retryQueue
                then sh'.Attempts(p) == 0 || sh.Attempts(p) <= sh'.Attempts(p) <= Cap(cfg)
                else Pushed(sh.retryQueue, sh'.retryQueue, p)
                     && sh'.Attempts(p) == sh.Attempts(p) + 1 <= Cap(cfg))
  {
  }

  ghost predicate HasEffect(cfg: Config, sh: Shared, sh': Shared, p: PeerID, effect: Effect) {
    match effect
    case Keeps => sh'.retryQueue == sh.retryQueue && sh'.Attempts(p) == sh.Attempts(p)
    case Finishes =>
      && sh'.retryQueue == sh.retryQueue
      && (sh'.Attempts(p) == 0 || sh.Attempts(p) <= sh'.Attempts(p) <= Cap(cfg))
    case Requeues =>
      && Pushed(sh.retryQueue, sh'.retryQueue, p)
      && sh'.Attempts(p) == sh.Attempts(p) + 1 <= Cap(cfg)
  }

  /** The effect of a section on the peer it works for. */
  lemma OwnEffect(cfg: Config, sh: Shared, task: Task, answer: Answer, p: PeerID)
    requires SharedOk(cfg, sh) && TaskOk(cfg, task) && task.For(p)
    ensures var (sh', task') := Section(cfg, sh, task, answer);
            && HasEffect(cfg, sh, sh', p, EffectOf(cfg, sh, task, answer))
            && (Carries(task') ==> Carries(task) && task'.For(p))
  {
    if task.Scheduling? {
      ScheduleEffect(cfg, sh, task.p, task.peer, task.enr, task.err);
    }
  }

  /** A section leaves the attempts and the queue entries of every other peer alone. */
  lemma OtherEffect(cfg: Config, sh: Shared, task: Task, answer: Answer, p: PeerID)
    requires SharedOk(cfg, sh) && TaskOk(cfg, task) && !task.For(p)
    ensures var (sh', task') := Section(cfg, sh, task, answer);
            && sh'.Attempts(p) == sh.Attempts(p)
            && !task'.For(p)
            && (sh'.retryQueue == sh.retryQueue
                || exists other :: other != p && Pushed(sh.retryQueue, sh'.retryQueue, other))
  {
    if task.Scheduling? {
      ScheduleEffect(cfg, sh, task.p, task.peer, task.enr, task.err);
      var sh' := ScheduleRetry(cfg, sh, task.p, task.peer, task.enr, task.err);
      assert (p in sh.tracker) == (p in sh.tracker - {task.p}) && (p in sh'.tracker) == (p in sh'.tracker - {task.p});
    }
  }

  lemma NoteCounts(log: seq<Event>, e: Event, p: PeerID)
    ensures Sum(log + [e], ArrivalOf(p)) == Sum(log, ArrivalOf(p)) + (if e == Arrived(p) then 1 else 0)
    ensures Sum(log + [e], DialOf(p)) == Sum(log, DialOf(p)) + (if e == Dialed(p) then 1 else 0)
  {
    SumAppend(log, e, ArrivalOf(p));
    SumAppend(log, e, DialOf(p));
  }

  lemma QuietCounts(before: seq<Event>, after: seq<Event>, p: PeerID)
    requires QuietLog(before, after)
    ensures Sum(after, ArrivalOf(p)) == Sum(before, ArrivalOf(p))
    ensures Sum(after, DialOf(p)) == Sum(before, DialOf(p))
  {
    if after != before {
      NoteCounts(before, after[|after| - 1], p);
    }
  }

  // ----- How each step moves the counts -----

  /** The four numbers the budget of a peer depends on. */
  datatype Counts = Counts(queued: int, inFlight: int, attempts: int, dials: int, arrivals: int)

  function CountsOf(s: State, p: PeerID): Counts {
    Counts(Queued(s, p), InFlight(s, p), s.sh.Attempts(p), Dials(s.sh, p), Arrivals(s.sh, p))
  }

  /** The moves a step can make: one item at a time, arriving, dialled, queued again or gone. */
  predicate Moves(cap: nat, c: Counts, c': Counts) {
    || c' == c
    || c' == c.(queued := c.queued + 1, arrivals := c.arrivals + 1)
    || c' == c.(inFlight := c.inFlight + 1, arrivals := c.arrivals + 1)
    || c' == c.(queued := c.queued - 1, inFlight := c.inFlight + 1, dials := c.dials + 1)
    || c' == c.(queued := c.queued - 1)
    || (c' == c.(queued := c.queued + 1, inFlight := c.inFlight - 1, attempts := c.attempts + 1) && c'.attempts <= cap)
    || (c' == c.(inFlight := c.inFlight - 1, attempts := c'.attempts)
        && (c'.attempts == 0 || c.attempts <= c'.attempts <= cap))
  }

  /** The effect of a section, as far as a peer's counts can see it. */
  ghost predicate Visible(cfg: Config, sh: Shared, sh': Shared, task: Task, task': Task, p: PeerID) {
    && sh'.dialQueue == sh.dialQueue
    && QuietLog(sh.log, sh'.log)
    && (if task.For(p) then
          && (Carries(task') ==> Carries(task) && task'.For(p))
          && HasEffect(cfg, sh, sh', p,
                       if !Carries(task) || Carries(task') then Keeps
                       else if sh'.retryQueue == sh.retryQueue then Finishes else Requeues)
        else
          && sh'.Attempts(p) == sh.Attempts(p)
          && !task'.For(p)
          && (sh'.retryQueue == sh.retryQueue
              || exists other :: other != p && Pushed(sh.retryQueue, sh'.retryQueue, other)))
  }

  lemma VisibleMoves(cfg: Config, s: State, i: nat, sh': Shared, task': Task, p: PeerID)
    requires i < |s.tasks| && Visible(cfg, s.sh, sh', s.tasks[i], task', p)
    ensures Moves(Cap(cfg), CountsOf(s, p), CountsOf(s.(sh := sh', tasks := s.tasks[i := task']), p))
  {
    QuietCounts(s.sh.log, sh'.log, p);
    SumUpdate(s.tasks, i, task', CarriedBy(p));
    if sh'.retryQueue != s.sh.retryQueue {
      SumAppend(s.sh.retryQueue, sh'.retryQueue[|sh'.retryQueue| - 1], RetryEntry(p));
    }
  }

  lemma SectionIsVisible(cfg: Config, sh: Shared, task: Task, answer: Answer, p: PeerID)
    requires SharedOk(cfg, sh) && TaskOk(cfg, task)
    ensures var (sh', task') := Section(cfg, sh, task, answer); Visible(cfg, sh, sh', task, task', p)
  {
    SectionIsQuiet(cfg, sh, task, answer);
    if task.For(p) {
      OwnEffect(cfg, sh, task, answer, p);
    } else {
      OtherEffect(cfg, sh, task, answer, p);
    }
  }

  lemma AdvanceMoves(cfg: Config, s: State, i: nat, answer: Answer, p: PeerID)
    requires StateOk(cfg, s) && i < |s.tasks|
    ensures Moves(Cap(cfg), CountsOf(s, p), CountsOf(Next(cfg, s, Advance(i, answer)), p))
  {
    var (sh', task') := Section(cfg, s.sh, s.tasks[i], answer);
    assert Visible(cfg, s.sh, sh', s.tasks[i], task', p) by {
      SectionIsVisible(cfg, s.sh, s.tasks[i], answer, p);
    }
    VisibleMoves(cfg, s, i, sh', task', p);
    assert Next(cfg, s, Advance(i, answer)) == s.(sh := sh', tasks := s.tasks[i := task']);
  }

  lemma InboundMoves(cfg: Config, s: State, peer: PeerID, p: PeerID)
    ensures Moves(Cap(cfg), CountsOf(s, p), CountsOf(Next(cfg, s, Inbound(peer)), p))
  {
    assert Next(cfg, s, Inbound(peer)) == s.(sh := s.sh.Note(Arrived(peer)), tasks := s.tasks + [Accepting(peer)]);
    NoteCounts(s.sh.log, Arrived(peer), p);
    SumAppend(s.tasks, Accepting(peer), CarriedBy(p));
  }

  lemma DiscoverMoves(cfg: Config, s: State, node: Node, onNetwork: bool, p: PeerID)
    ensures Moves(Cap(cfg), CountsOf(s, p), CountsOf(Next(cfg, s, Discover(node, onNetwork)), p))
  {
    if node.peer.Some? {
      var cp := DeriveDetails(node).value;
      NoteCounts(s.sh.log, Arrived(cp.id), p);
      SumAppend(s.sh.dialQueue, cp, DialEntry(p));
    }
  }

  lemma TakeDialMoves(cfg: Config, s: State, p: PeerID)
    ensures Moves(Cap(cfg), CountsOf(s, p), CountsOf(Next(cfg, s, TakeDial), p))
  {
    if s.sh.dialQueue != [] {
      var cp := s.sh.dialQueue[0];
      var rest := s.sh.(dialQueue := s.sh.dialQueue[1..]);
      SumTail(s.sh.dialQueue, DialEntry(p));
      if s.sh.stopping {
        assert Next(cfg, s, TakeDial) == s.(sh := rest);
      } else {
        assert Next(cfg, s, TakeDial) == s.(sh := rest.Note(Dialed(cp.id)), tasks := s.tasks + [Dialing(cp)]);
        NoteCounts(s.sh.log, Dialed(cp.id), p);
        SumAppend(s.tasks, Dialing(cp), CarriedBy(p));
      }
    }
  }

  lemma RetryWorkerMoves(cfg: Config, s: State, step: Step, p: PeerID)
    requires step.TakeRetry? || step.Requeue?
    ensures Moves(Cap(cfg), CountsOf(s, p), CountsOf(Next(cfg, s, step), p))
  {
    if s.sh.retryQueue != [] {
      SumTail(s.sh.retryQueue, RetryEntry(p));
    }
    if s.waiting.Some? {
      SumAppend(s.sh.dialQueue, s.waiting.value.peer, DialEntry(p));
    }
  }

  /** Every step but Stop's final wipe makes one of the listed moves. */
  lemma StepMoves(cfg: Config, s: State, step: Step, p: PeerID)
    requires StateOk(cfg, s) && !step.Wipe?
    ensures Moves(Cap(cfg), CountsOf(s, p), CountsOf(Next(cfg, s, step), p))
  {
    match step
    case Discover(node, onNetwork) => DiscoverMoves(cfg, s, node, onNetwork, p);
    case Inbound(peer) => InboundMoves(cfg, s, peer, p);
    case TakeDial => TakeDialMoves(cfg, s, p);
    case TakeRetry => RetryWorkerMoves(cfg, s, step, p);
    case Requeue(_) => RetryWorkerMoves(cfg, s, step, p);
    case Advance(i, answer) =>
      if i < |s.tasks| {
        AdvanceMoves(cfg, s, i, answer, p);
      }
    case _ =>
  }

  // ----- The budget -----

  /** What was dialled and what may still be dialled never exceeds what the arrivals paid for. */
  predicate InBudget(cap: nat, c: Counts) {
    c.dials + Worth(cap, c.queued, c.inFlight, c.attempts) <= c.arrivals * (cap + 1)
  }

  predicate Sane(cap: nat, c: Counts) {
    0 <= c.queued && 0 <= c.inFlight && 0 <= c.attempts <= cap
  }

  lemma CountsAreSane(cfg: Config, s: State, p: PeerID)
    requires StateOk(cfg, s)
    ensures Sane(Cap(cfg), CountsOf(s, p))
  {
    SumNonNegative(s.sh.dialQueue, DialEntry(p));
    SumNonNegative(s.sh.retryQueue, RetryEntry(p));
    SumNonNegative(s.tasks, CarriedBy(p));
  }

  lemma MoveLowersWorth(cap: nat, c: Counts, c': Counts)
    requires Moves(cap, c, c') && Sane(cap, c) && Sane(cap, c')
    ensures c'.dials + Worth(cap, c'.queued, c'.inFlight, c'.attempts)
            <= c.dials + Worth(cap, c.queued, c.inFlight, c.attempts) + (c'.arrivals - c.arrivals) * (cap + 1)
  {
    var q, f, a := c.queued, c.inFlight, c.attempts;
    if c'.arrivals == c.arrivals + 1 {
      WorthMoves(cap, q, f, a);
    } else if c'.inFlight == f - 1 && c'.queued == q {
      WorthFinish(cap, q, f - 1, a, c'.attempts);
    } else if c'.inFlight == f - 1 {
      WorthMoves(cap, q, f - 1, a);
    } else if c'.queued == q - 1 {
      WorthMoves(cap, q - 1, f, a);
    }
  }

  lemma Spend(spent: int, spent': int, n: int, n': int, price: int)
    requires spent <= n * price && spent' <= spent + (n' - n) * price
    ensures spent' <= n' * price
  {
    assert (n' - n) * price == n' * price - n * price;
  }

  lemma MoveKeepsBudget(cap: nat, c: Counts, c': Counts)
    requires InBudget(cap, c) && Moves(cap, c, c') && Sane(cap, c) && Sane(cap, c')
    ensures InBudget(cap, c') && c'.dials <= c'.arrivals * (cap + 1)
  {
    MoveLowersWorth(cap, c, c');
    WorthIsNatural(cap, c'.queued, c'.inFlight, c'.attempts);
    Spend(c.dials + Worth(cap, c.queued, c.inFlight, c.attempts),
          c'.dials + Worth(cap, c'.queued, c'.inFlight, c'.attempts), c.arrivals, c'.arrivals, cap + 1);
  }

  ghost predicate WithinBudget(cfg: Config, s: State, p: PeerID) {
    && Dials(s.sh, p) <= Arrivals(s.sh, p) * (Cap(cfg) + 1)
    && (!s.sh.stopping ==> InBudget(Cap(cfg), CountsOf(s, p)))
  }

  lemma StoppedNoDials(cfg: Config, s: State, step: Step, p: PeerID)
    requires StateOk(cfg, s) && s.sh.stopping
    ensures Next(cfg, s, step).sh.stopping
    ensures Dials(Next(cfg, s, step).sh, p) == Dials(s.sh, p)
    ensures Arrivals(s.sh, p) <= Arrivals(Next(cfg, s, step).sh, p)
  {
    match step
    case Advance(i, answer) =>
      if i < |s.tasks| {
        SectionIsQuiet(cfg, s.sh, s.tasks[i], answer);
        QuietCounts(s.sh.log, Next(cfg, s, step).sh.log, p);
      }
    case Inbound(peer) => NoteCounts(s.sh.log, Arrived(peer), p);
    case Wipe => NoteCounts(s.sh.log, Wiped, p);
    case _ =>
  }

  lemma PriceGrows(n: int, n': int, price: nat)
    requires n <= n'
    ensures n * price <= n' * price
  {
    assert (n' - n) * price >= 0;
  }

  lemma MovingKeepsBudget(cfg: Config, s: State, s': State, p: PeerID)
    requires StateOk(cfg, s) && StateOk(cfg, s') && InBudget(Cap(cfg), CountsOf(s, p))
    requires Moves(Cap(cfg), CountsOf(s, p), CountsOf(s', p))
    ensures WithinBudget(cfg, s', p)
  {
    CountsAreSane(cfg, s, p);
    CountsAreSane(cfg, s', p);
    MoveKeepsBudget(Cap(cfg), CountsOf(s, p), CountsOf(s', p));
  }

  lemma RunningKeepsBudget(cfg: Config, s: State, step: Step, p: PeerID)
    requires StateOk(cfg, s) && InBudget(Cap(cfg), CountsOf(s, p)) && !step.Wipe?
    ensures WithinBudget(cfg, Next(cfg, s, step), p)
  {
    StepMoves(cfg, s, step, p);
    StepKeepsOk(cfg, s, step);
    MovingKeepsBudget(cfg, s, Next(cfg, s, step), p);
  }

  lemma StepKeepsBudget(cfg: Config, s: State, step: Step, p: PeerID)
    requires StateOk(cfg, s) && WithinBudget(cfg, s, p)
    ensures WithinBudget(cfg, Next(cfg, s, step), p)
  {
    if s.sh.stopping {
      StoppedNoDials(cfg, s, step, p);
      PriceGrows(Arrivals(s.sh, p), Arrivals(Next(cfg, s, step).sh, p), Cap(cfg) + 1);
    } else if !step.Wipe? {
      RunningKeepsBudget(cfg, s, step, p);
    }
  }

  /**
   * Main result: in every run, under every interleaving and for every setting of Max, a peer that
   * arrived n times is taken for dialling at most n * (Max + 1) times.
   */
  lemma {:induction false} RetriesEnd(cfg: Config, steps: seq<Step>, p: PeerID)
    ensures Dials(Run(cfg, steps).sh, p) <= Arrivals(Run(cfg, steps).sh, p) * (Cap(cfg) + 1)
    ensures WithinBudget(cfg, Run(cfg, steps), p)
  {
    if steps != [] {
      var front := steps[..|steps| - 1];
      RetriesEnd(cfg, front, p);
      ReachableOk(cfg, front);
      StepKeepsBudget(cfg, Run(cfg, front), steps[|steps| - 1], p);
    }
  }
}
