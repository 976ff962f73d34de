/**
 * Runs that show the limits of the other results: the dial bound is reached, handlers that race
 * lose a failure, and so does any negative setting of Max.
 */
module CrawlWitness {
  import opened Common
  import opened CrawlErrors
  import opened CrawlState
  import opened CrawlMachine
  import opened CrawlTermination
  import opened CrawlAccounting

  const NODE := Node(0, Some(1))
  const PEER := ConnectablePeer(1, NODE)

  /** A dial that connects, and a connection whose identify protocol times out, up to the scheduler. */
  const DIAL: seq<Answer> := [Proceed, Proceed, Proceed]
  const TIME_OUT: seq<Answer> := [Proceed, IdentifyTimedOut, Proceed, Proceed]

  lemma Drive3(cfg: Config, sh: Shared, t: Task, a: Answer, b: Answer, c: Answer)
    ensures var (sh1, t1) := Section(cfg, sh, t, a);
            var (sh2, t2) := Section(cfg, sh1, t1, b);
            Drive(cfg, sh, t, [a, b, c]) == Section(cfg, sh2, t2, c)
  {
    assert [a, b, c][1..] == [b, c] && [b, c][1..] == [c] && [c][1..] == [];
    var (sh1, t1) := Section(cfg, sh, t, a);
    var (sh2, t2) := Section(cfg, sh1, t1, b);
    var (sh3, t3) := Section(cfg, sh2, t2, c);
    assert Drive(cfg, sh3, t3, []) == (sh3, t3);
    assert Drive(cfg, sh2, t2, [c]) == (sh3, t3);
    assert Drive(cfg, sh1, t1, [b, c]) == (sh3, t3);
  }

  lemma DriveSplit(cfg: Config, sh: Shared, t: Task, a: Answer, rest: seq<Answer>)
    ensures var (sh1, t1) := Section(cfg, sh, t, a);
            Drive(cfg, sh, t, [a] + rest) == Drive(cfg, sh1, t1, rest)
  {
    assert ([a] + rest)[1..] == rest;
  }

  lemma DialDrive(cfg: Config, sh: Shared)
    requires PEER.id !in sh.recent
    ensures Drive(cfg, sh, Dialing(PEER), DIAL) == (sh.(enrs := sh.enrs[1 := NODE]), Accepting(1))
  {
    Drive3(cfg, sh, Dialing(PEER), Proceed, Proceed, Proceed);
  }

  lemma TimeOutDrive(cfg: Config, sh: Shared)
    requires !sh.stopping && 1 !in sh.recent && sh.Enr(1) == Some(NODE)
    requires cfg.maxRetryAttempts != 0 && !Exhausted(cfg, sh, 1)
    ensures Drive(cfg, sh, Accepting(1), TIME_OUT)
            == (sh.Note(Entered(1)).Note(Retryable(1)), Scheduling(1, PEER, NODE, IDENTIFY_TIMEOUT))
  {
    assert TIME_OUT == [Proceed] + [IdentifyTimedOut, Proceed, Proceed];
    DriveSplit(cfg, sh, Accepting(1), Proceed, [IdentifyTimedOut, Proceed, Proceed]);
    Drive3(cfg, sh, Identifying(1), IdentifyTimedOut, Proceed, Proceed);
  }

  /** Starting a run with one discovered peer, dialled and connected. */
  lemma Connected(cfg: Config) returns (steps: seq<Step>)
    ensures Run(cfg, steps) == State(
              INITIAL.(enrs := map[1 := NODE], log := [Arrived(1), Dialed(1)]), [Accepting(1)], None)
  {
    var s1 := Next(cfg, START, Discover(NODE, true));
    var s2 := Next(cfg, s1, TakeDial);
    assert s1.sh.dialQueue == [PEER] && s1.sh.dialQueue[1..] == [];
    assert s2 == State(INITIAL.(log := [Arrived(1), Dialed(1)]), [Dialing(PEER)], None);
    DialDrive(cfg, s2.sh);
    DriveIsPlay(cfg, s2, 0, DIAL);
    steps := Then(cfg, [], Discover(NODE, true));
    steps := Then(cfg, steps, TakeDial);
    PlayIsRun(cfg, steps, Advances(0, DIAL));
    steps := steps + Advances(0, DIAL);
    assert [Dialing(PEER)][0 := Accepting(1)] == [Accepting(1)];
  }

  lemma Then(cfg: Config, steps: seq<Step>, step: Step) returns (more: seq<Step>)
    ensures more == steps + [step] && Run(cfg, more) == Next(cfg, Run(cfg, steps), step)
  {
    more := steps + [step];
    assert more[..|steps|] == steps;
  }

  /** A callback run up to the scheduler. */
  lemma TimedOut(cfg: Config, steps: seq<Step>, i: nat) returns (more: seq<Step>)
    requires var s := Run(cfg, steps);
             && i < |s.tasks| && s.tasks[i] == Accepting(1)
             && !s.sh.stopping && 1 !in s.sh.recent && s.sh.Enr(1) == Some(NODE) && !Exhausted(cfg, s.sh, 1)
    requires cfg.maxRetryAttempts != 0
    ensures var s := Run(cfg, steps);
            Run(cfg, more) == s.(sh := s.sh.Note(Entered(1)).Note(Retryable(1)),
                                 tasks := s.tasks[i := Scheduling(1, PEER, NODE, IDENTIFY_TIMEOUT)])
    ensures more == steps + Advances(i, TIME_OUT)
  {
    var s := Run(cfg, steps);
    TimeOutDrive(cfg, s.sh);
    DriveIsPlay(cfg, s, i, TIME_OUT);
    PlayIsRun(cfg, steps, Advances(i, TIME_OUT));
    more := steps + Advances(i, TIME_OUT);
  }

  /** Both callbacks time out and read the tracker before either takes its lock. */
  lemma TwoAtTheScheduler(cfg: Config) returns (steps: seq<Step>)
    requires cfg.maxRetryAttempts == 1
    ensures var s := Run(cfg, steps);
            var at := Scheduling(1, PEER, NODE, IDENTIFY_TIMEOUT);
            s.tasks == [at, at] && 1 !in s.sh.tracker && !s.sh.stopping && s.sh.retryQueue == []
  {
    steps := Connected(cfg);
    steps := Then(cfg, steps, Inbound(1));
    assert Run(cfg, steps).tasks == [Accepting(1), Accepting(1)];
    steps := TimedOut(cfg, steps, 0);
    steps := TimedOut(cfg, steps, 1);
  }

  /** Without serialisation the scheduler's own exhaustion guard fires and a failure vanishes. */
  lemma RacingHandlersLose()
    ensures exists steps :: Lost(1) in Run(Config(1, 0), steps).sh.log
  {
    var cfg := Config(1, 0);
    var steps := TwoAtTheScheduler(cfg);
    steps := Then(cfg, steps, Advance(0, Proceed));
    assert Exhausted(cfg, Run(cfg, steps).sh, 1);
    steps := Then(cfg, steps, Advance(1, Proceed));
    var log := Run(cfg, steps).sh.log;
    assert log[|log| - 1] == Lost(1);
  }

  lemma LostAlone(cfg: Config) returns (steps: seq<Step>)
    requires cfg.maxRetryAttempts < 0
    ensures var s := Run(cfg, steps);
            |s.tasks| == 1 && s.sh.log == [Arrived(1), Dialed(1), Entered(1), Retryable(1), Lost(1)]
  {
    steps := Connected(cfg);
    steps := TimedOut(cfg, steps, 0);
    steps := Then(cfg, steps, Advance(0, Proceed));
  }

  lemma {:induction false} OneGoroutineAtATime(cfg: Config, steps: seq<Step>, p: PeerID)
    requires |Run(cfg, steps).tasks| <= 1
    ensures OneAtATime(cfg, steps, p)
  {
    if steps != [] {
      OneGoroutineAtATime(cfg, steps[..|steps| - 1], p);
      AtMostLength(Run(cfg, steps).tasks, p);
    }
  }

  lemma {:induction false} AtMostLength(tasks: seq<Task>, p: PeerID)
    ensures 0 <= Sum(tasks, LiveOf(p)) <= |tasks|
  {
    if tasks != [] {
      AtMostLength(tasks[..|tasks| - 1], p);
    }
  }

  /** With a negative Max even a single, uninterrupted failure vanishes. */
  lemma NegativeMaxLoses(cfg: Config)
    requires cfg.maxRetryAttempts < 0
    ensures exists steps :: Serial(cfg, steps, 1) && Lost(1) in Run(cfg, steps).sh.log
  {
    var steps := LostAlone(cfg);
    OneGoroutineAtATime(cfg, steps, 1);
    OneAtATimeIsAlone(cfg, steps, 1);
    assert Run(cfg, steps).sh.log[4] == Lost(1);
  }

  // ----- One goroutine after another -----

  lemma OneAtATimeThen(cfg: Config, steps: seq<Step>, step: Step, p: PeerID)
    requires OneAtATime(cfg, steps, p) && Sum(Next(cfg, Run(cfg, steps), step).tasks, LiveOf(p)) <= 1
    ensures OneAtATime(cfg, steps + [step], p)
  {
    assert (steps + [step])[..|steps|] == steps;
  }

  /** A section never makes one more goroutine work for a peer. */
  lemma AdvanceKeepsLive(cfg: Config, s: State, i: nat, answer: Answer, p: PeerID)
    ensures Sum(Next(cfg, s, Advance(i, answer)).tasks, LiveOf(p)) <= Sum(s.tasks, LiveOf(p))
  {
    if i < |s.tasks| {
      var task' := Section(cfg, s.sh, s.tasks[i], answer).1;
      StaysWithItsPeer(cfg, s.sh, s.tasks[i], answer, p);
      SumUpdate(s.tasks, i, task', LiveOf(p));
    }
  }

  lemma StaysWithItsPeer(cfg: Config, sh: Shared, task: Task, answer: Answer, p: PeerID)
    ensures Section(cfg, sh, task, answer).1.For(p) ==> task.For(p)
  {
  }

  /** So far one goroutine after another worked for peer 1, and Stop has not wiped anything. */
  predicate Calm(cfg: Config, steps: seq<Step>) {
    OneAtATime(cfg, steps, 1) && Sum(Run(cfg, steps).tasks, LiveOf(1)) <= 1 && Wiped !in Run(cfg, steps).sh.log
  }

  lemma CalmIsSerial(cfg: Config, steps: seq<Step>)
    requires Calm(cfg, steps)
    ensures Serial(cfg, steps, 1)
  {
    OneAtATimeIsAlone(cfg, steps, 1);
  }

  lemma SectionNeverWipes(cfg: Config, sh: Shared, task: Task, answer: Answer)
    ensures Newest(sh.log, Section(cfg, sh, task, answer).0.log) != Some(Wiped)
  {
  }

  lemma NeverWipes(cfg: Config, s: State, step: Step)
    requires !step.Wipe? && Wiped !in s.sh.log
    ensures Wiped !in Next(cfg, s, step).sh.log
  {
    StepGrows(cfg, s, step);
    if step.Advance? && step.i < |s.tasks| {
      SectionNeverWipes(cfg, s.sh, s.tasks[step.i], step.answer);
    }
  }

  lemma FewLive(cfg: Config, s: State, step: Step)
    requires Sum(s.tasks, LiveOf(1)) <= (if step.TakeDial? then 0 else 1) && !step.Inbound?
    ensures Sum(Next(cfg, s, step).tasks, LiveOf(1)) <= 1
  {
    match step
    case Advance(i, answer) => AdvanceKeepsLive(cfg, s, i, answer, 1);
    case TakeDial => DialAddsOne(cfg, s);
    case _ =>
  }

  lemma CalmThen(cfg: Config, steps: seq<Step>, step: Step)
    requires Calm(cfg, steps) && !step.Wipe? && !step.Inbound?
    requires step.TakeDial? ==> Sum(Run(cfg, steps).tasks, LiveOf(1)) <= 0
    ensures Calm(cfg, steps + [step])
  {
    assert (steps + [step])[..|steps|] == steps;
    NeverWipes(cfg, Run(cfg, steps), step);
    FewLive(cfg, Run(cfg, steps), step);
    OneAtATimeThen(cfg, steps, step, 1);
  }

  lemma DialAddsOne(cfg: Config, s: State)
    ensures Sum(Next(cfg, s, TakeDial).tasks, LiveOf(1)) <= Sum(s.tasks, LiveOf(1)) + 1
  {
    if s.sh.dialQueue != [] {
      SumAppend(s.tasks, Dialing(s.sh.dialQueue[0]), LiveOf(1));
    }
  }

  lemma {:induction false} CalmAdvances(cfg: Config, steps: seq<Step>, i: nat, answers: seq<Answer>)
    requires Calm(cfg, steps)
    ensures Calm(cfg, steps + Advances(i, answers))
    decreases |answers|
  {
    if answers == [] {
      assert steps + Advances(i, answers) == steps;
    } else {
      var more := steps + [Advance(i, answers[0])];
      assert more + Advances(i, answers[1..]) == steps + Advances(i, answers);
      CalmThen(cfg, steps, Advance(i, answers[0]));
      CalmAdvances(cfg, more, i, answers[1..]);
    }
  }

  /** When the peer's one goroutine ends, none is left. */
  lemma LastEnds(tasks: seq<Task>, i: nat, p: PeerID)
    requires i < |tasks| && tasks[i].For(p) && Sum(tasks, LiveOf(p)) <= 1
    ensures Sum(tasks[i := Done], LiveOf(p)) == 0
  {
    SumUpdate(tasks, i, Done, LiveOf(p));
    SumNonNegative(tasks[i := Done], LiveOf(p));
  }

  // ----- The dial bound is reached -----

  /** One peer, waiting in the dial queue for its next dial after `k` counted attempts. */
  predicate Ready(s: State, k: nat) {
    && s.sh.dialQueue == [PEER] && s.sh.retryQueue == [] && s.waiting.None?
    && !s.sh.stopping && 1 !in s.sh.recent
    && (if k == 0 then 1 !in s.sh.tracker
        else 1 in s.sh.tracker && s.sh.tracker[1].attempts == k && s.sh.tracker[1].peer == PEER)
  }

  /** Ready, with no goroutine working for the peer and none ever beside another. */
  predicate Idle(cfg: Config, steps: seq<Step>, k: nat) {
    Ready(Run(cfg, steps), k) && Calm(cfg, steps) && Sum(Run(cfg, steps).tasks, LiveOf(1)) == 0
  }

  /** Dialled and connected, up to the connect callback. */
  lemma Connect(cfg: Config, steps: seq<Step>, k: nat) returns (more: seq<Step>)
    requires Idle(cfg, steps, k)
    ensures var (s, s') := (Run(cfg, steps), Run(cfg, more));
            && s' == s.(sh := s.sh.(dialQueue := [], enrs := s.sh.enrs[1 := NODE], log := s.sh.log + [Dialed(1)]),
                        tasks := s.tasks + [Accepting(1)])
            && Calm(cfg, more)
  {
    var s0 := Run(cfg, steps);
    var i := |s0.tasks|;
    more := Then(cfg, steps, TakeDial);
    CalmThen(cfg, steps, TakeDial);
    var s1 := Run(cfg, more);
    assert s1.tasks == s0.tasks + [Dialing(PEER)] && s1.sh.dialQueue == [];
    DialDrive(cfg, s1.sh);
    DriveIsPlay(cfg, s1, i, DIAL);
    PlayIsRun(cfg, more, Advances(i, DIAL));
    CalmAdvances(cfg, more, i, DIAL);
    more := more + Advances(i, DIAL);
    assert s1.tasks[i := Accepting(1)] == s0.tasks + [Accepting(1)];
  }

  /** One round: dialled, connected, identify times out, scheduled, slept and queued again. */
  lemma Round(cfg: Config, steps: seq<Step>, k: nat) returns (more: seq<Step>)
    requires Idle(cfg, steps, k) && k < cfg.maxRetryAttempts
    ensures var (s, s') := (Run(cfg, steps), Run(cfg, more));
            && Idle(cfg, more, k + 1)
            && Dials(s'.sh, 1) == Dials(s.sh, 1) + 1 && Arrivals(s'.sh, 1) == Arrivals(s.sh, 1)
  {
    var s0 := Run(cfg, steps);
    var i := |s0.tasks|;
    more := Connect(cfg, steps, k);
    var s2 := Run(cfg, more);
    NoteCounts(s0.sh.log, Dialed(1), 1);
    CalmAdvances(cfg, more, i, TIME_OUT);
    more := TimedOut(cfg, more, i);
    NoteCounts(s2.sh.log, Entered(1), 1);
    NoteCounts(s2.sh.log + [Entered(1)], Retryable(1), 1);
    more := RoundEnd(cfg, more, i, k);
  }

  /** The scheduler puts the peer on the empty retry queue with one more attempt. */
  lemma ScheduleOnce(cfg: Config, s: State, k: nat)
    requires k < cfg.maxRetryAttempts && Ready(s.(sh := s.sh.(dialQueue := [PEER])), k)
    ensures var sh' := ScheduleRetry(cfg, s.sh, 1, PEER, NODE, IDENTIFY_TIMEOUT);
            && sh'.log == s.sh.log + [Scheduled(1, k + 1)]
            && |sh'.retryQueue| == 1 && sh'.retryQueue[0].peer == PEER
            && 1 in sh'.tracker && sh'.tracker[1].attempts == k + 1 && sh'.tracker[1].peer == PEER
            && sh'.dialQueue == s.sh.dialQueue && 1 !in sh'.recent && !sh'.stopping
  {
  }

  lemma RoundEnd(cfg: Config, steps: seq<Step>, i: nat, k: nat) returns (more: seq<Step>)
    requires var s := Run(cfg, steps);
             && i < |s.tasks| && s.tasks[i] == Scheduling(1, PEER, NODE, IDENTIFY_TIMEOUT)
             && Ready(s.(sh := s.sh.(dialQueue := [PEER])), k) && s.sh.dialQueue == []
    requires k < cfg.maxRetryAttempts && Calm(cfg, steps)
    ensures var (s, s') := (Run(cfg, steps), Run(cfg, more));
            && Idle(cfg, more, k + 1)
            && Dials(s'.sh, 1) == Dials(s.sh, 1) && Arrivals(s'.sh, 1) == Arrivals(s.sh, 1)
  {
    var s := Run(cfg, steps);
    ScheduleOnce(cfg, s, k);
    NoteCounts(s.sh.log, Scheduled(1, k + 1), 1);
    LastEnds(s.tasks, i, 1);
    CalmThen(cfg, steps, Advance(i, Proceed));
    more := Then(cfg, steps, Advance(i, Proceed));
    more := Asleep(cfg, more);
  }

  /** The retry worker moves the only queued retry to the empty dial queue. */
  lemma Asleep(cfg: Config, steps: seq<Step>) returns (more: seq<Step>)
    requires var s := Run(cfg, steps);
             |s.sh.retryQueue| == 1 && s.waiting.None? && !s.sh.stopping && s.sh.dialQueue == []
    requires Calm(cfg, steps)
    ensures var s := Run(cfg, steps);
            Run(cfg, more) == s.(sh := s.sh.(retryQueue := [], dialQueue := [s.sh.retryQueue[0].peer]))
    ensures Calm(cfg, more)
  {
    CalmThen(cfg, steps, TakeRetry);
    more := Then(cfg, steps, TakeRetry);
    CalmThen(cfg, more, Requeue(false));
    more := Then(cfg, more, Requeue(false));
  }

  lemma Discovered(cfg: Config) returns (steps: seq<Step>)
    ensures var s := Run(cfg, steps); Idle(cfg, steps, 0) && Dials(s.sh, 1) == 0 && Arrivals(s.sh, 1) == 1
  {
    steps := Then(cfg, [], Discover(NODE, true));
    var s := Run(cfg, steps);
    assert s == State(INITIAL.(dialQueue := [PEER], log := [Arrived(1)]), [], None);
    NoteCounts([], Arrived(1), 1);
    assert Calm(cfg, []);
    CalmThen(cfg, [], Discover(NODE, true));
  }

  lemma {:induction false} Rounds(cfg: Config, k: nat) returns (steps: seq<Step>)
    requires k <= cfg.maxRetryAttempts
    ensures var s := Run(cfg, steps); Idle(cfg, steps, k) && Dials(s.sh, 1) == k && Arrivals(s.sh, 1) == 1
  {
    if k == 0 {
      steps := Discovered(cfg);
    } else {
      steps := Rounds(cfg, k - 1);
      steps := Round(cfg, steps, k - 1);
    }
  }

  /** For every setting of Max there is a serialised run in which one arrival is dialled exactly Max + 1 times. */
  lemma DialBoundIsReached(cfg: Config)
    requires 0 <= cfg.maxRetryAttempts
    ensures exists steps :: Serial(cfg, steps, 1)
              && Arrivals(Run(cfg, steps).sh, 1) == 1 && Dials(Run(cfg, steps).sh, 1) == Cap(cfg) + 1
  {
    var steps := Rounds(cfg, cfg.maxRetryAttempts);
    var s := Run(cfg, steps);
    CalmThen(cfg, steps, TakeDial);
    steps := Then(cfg, steps, TakeDial);
    NoteCounts(s.sh.log, Dialed(1), 1);
    CalmIsSerial(cfg, steps);
  }

  // ----- An exhausted peer is reported -----

  const GIVE_UP: seq<Answer> := [Proceed, IdentifyTimedOut, Proceed, Proceed, Proceed]

  lemma GiveUpDrive(cfg: Config, sh: Shared)
    requires !sh.stopping && 1 !in sh.recent && sh.Enr(1) == Some(NODE)
    requires cfg.maxRetryAttempts != 0 && Exhausted(cfg, sh, 1)
    ensures var report := FailedCrawl(1, Some(NODE), IDENTIFY_TIMEOUT, AttemptsExhausted);
            var called := sh.(tracker := sh.tracker - {1}).Note(Entered(1)).Note(Retryable(1));
            Drive(cfg, sh, Accepting(1), GIVE_UP) == (called.Note(Forgotten(1)).Note(report), Done)
  {
    var rest := [IdentifyTimedOut, Proceed, Proceed, Proceed];
    assert GIVE_UP == [Proceed] + rest;
    assert rest == [IdentifyTimedOut] + [Proceed, Proceed, Proceed];
    DriveSplit(cfg, sh, Accepting(1), Proceed, rest);
    DriveSplit(cfg, sh, Identifying(1), IdentifyTimedOut, [Proceed, Proceed, Proceed]);
    Drive3(cfg, sh.Note(Entered(1)), Failing(1, IDENTIFY_TIMEOUT), Proceed, Proceed, Proceed);
  }

  lemma GivesUp(cfg: Config, steps: seq<Step>, i: nat) returns (more: seq<Step>)
    requires var s := Run(cfg, steps);
             && i < |s.tasks| && s.tasks[i] == Accepting(1)
             && !s.sh.stopping && 1 !in s.sh.recent && s.sh.Enr(1) == Some(NODE) && Exhausted(cfg, s.sh, 1)
    requires cfg.maxRetryAttempts != 0 && Calm(cfg, steps)
    ensures Calm(cfg, more)
    ensures FailedCrawl(1, Some(NODE), IDENTIFY_TIMEOUT, AttemptsExhausted) in Run(cfg, more).sh.log
  {
    var s := Run(cfg, steps);
    GiveUpDrive(cfg, s.sh);
    DriveIsPlay(cfg, s, i, GIVE_UP);
    PlayIsRun(cfg, steps, Advances(i, GIVE_UP));
    CalmAdvances(cfg, steps, i, GIVE_UP);
    more := steps + Advances(i, GIVE_UP);
    var log := Run(cfg, more).sh.log;
    assert log[|log| - 1] == FailedCrawl(1, Some(NODE), IDENTIFY_TIMEOUT, AttemptsExhausted);
  }

  /** For every positive Max a serialised run ends in the report of a peer whose attempts were used up. */
  lemma ExhaustedIsReported(cfg: Config)
    requires 1 <= cfg.maxRetryAttempts
    ensures exists steps :: Serial(cfg, steps, 1)
              && FailedCrawl(1, Some(NODE), IDENTIFY_TIMEOUT, AttemptsExhausted) in Run(cfg, steps).sh.log
  {
    var steps := Rounds(cfg, cfg.maxRetryAttempts);
    var i := |Run(cfg, steps).tasks|;
    steps := Connect(cfg, steps, cfg.maxRetryAttempts);
    steps := GivesUp(cfg, steps, i);
    CalmIsSerial(cfg, steps);
  }
}
