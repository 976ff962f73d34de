/**
 * When a failure vanishes: exactly when the scheduler, at its lock, finds as many attempts counted
 * as Max allows; and for that, other calls must have counted them since this call read the tracker.
 */
module CrawlLoss {
  import opened Common
  import opened CrawlErrors
  import opened CrawlState
  import opened CrawlMachine
  import opened CrawlAccounting

  /** The step that enters the scheduler's lock for a peer whose attempts, by the history, are used up. */
  predicate LosesAt(cfg: Config, s: State, step: Step, p: PeerID) {
    && step.Advance? && step.i < |s.tasks|
    && s.tasks[step.i].Scheduling? && s.tasks[step.i].p == p
    && AttemptsIn(s.sh.log, p) >= cfg.maxRetryAttempts
  }

  function NewestIn(cfg: Config, s: State, step: Step): Option<Event> {
    Newest(s.sh.log, Next(cfg, s, step).sh.log)
  }

  lemma SchedulingLoses(cfg: Config, s: State, i: nat, answer: Answer, p: PeerID)
    requires i < |s.tasks| && TaskOk(cfg, s.tasks[i])
    ensures NewestIn(cfg, s, Advance(i, answer)) == Some(Lost(p)) <==>
            s.tasks[i].Scheduling? && s.tasks[i].p == p && s.sh.Attempts(p) >= cfg.maxRetryAttempts
  {
    var task := s.tasks[i];
    if task.Scheduling? {
      ScheduleLoses(cfg, s.sh, task.p, task.peer, task.enr, task.err);
    } else {
      OthersLoseNothing(cfg, s.sh, task, answer, p);
    }
  }

  lemma ScheduleLoses(cfg: Config, sh: Shared, p: PeerID, cp: ConnectablePeer, enr: Node, err: CrawlError)
    requires IsRetryable(err) && cfg.maxRetryAttempts != 0
    ensures var e := Newest(sh.log, ScheduleRetry(cfg, sh, p, cp, enr, err).log);
            && e.Some? && (e.value.Lost? ==> e.value.peer == p)
            && (e.value.Lost? <==> sh.Attempts(p) >= cfg.maxRetryAttempts)
  {
  }

  lemma OthersLoseNothing(cfg: Config, sh: Shared, task: Task, answer: Answer, p: PeerID)
    requires !task.Scheduling?
    ensures Newest(sh.log, Section(cfg, sh, task, answer).0.log) != Some(Lost(p))
  {
  }

  /** A step loses a failure of a peer exactly when it enters the lock with the attempts used up. */
  lemma {:induction false} LossIsExact(cfg: Config, steps: seq<Step>, s: State, step: Step, p: PeerID)
    requires s == Run(cfg, steps)
    ensures NewestIn(cfg, s, step) == Some(Lost(p)) <==> LosesAt(cfg, s, step, p)
  {
    AttemptsFollowHistory(cfg, steps);
    ReachableOk(cfg, steps);
    if step.Advance? && step.i < |s.tasks| {
      SchedulingLoses(cfg, s, step.i, step.answer, p);
    }
  }

  /** Some step of a run met the condition. */
  ghost predicate MetLoss(cfg: Config, steps: seq<Step>, p: PeerID) {
    exists k: nat :: k < |steps| && LosesAt(cfg, Run(cfg, steps[..k]), steps[k], p)
  }

  lemma MetLossStep(cfg: Config, front: seq<Step>, step: Step, p: PeerID)
    ensures MetLoss(cfg, front + [step], p) <==> MetLoss(cfg, front, p) || LosesAt(cfg, Run(cfg, front), step, p)
  {
    var steps := front + [step];
    assert forall k: nat :: k <= |front| ==> steps[..k] == front[..k];
    assert steps[..|front|] == front;
    if MetLoss(cfg, front, p) {
      var k: nat :| k < |front| && LosesAt(cfg, Run(cfg, front[..k]), front[k], p);
      assert LosesAt(cfg, Run(cfg, steps[..k]), steps[k], p);
    }
    if LosesAt(cfg, Run(cfg, front), step, p) {
      assert LosesAt(cfg, Run(cfg, steps[..|front|]), steps[|front|], p);
    }
  }

  /**
   * In every run, for every setting of Max and under every interleaving, a failure of a peer has
   * vanished exactly when some step of the run met the condition.
   */
  lemma {:induction false} FailuresVanishExactly(cfg: Config, steps: seq<Step>, p: PeerID)
    ensures Lost(p) in Run(cfg, steps).sh.log <==> MetLoss(cfg, steps, p)
  {
    if steps != [] {
      var front, step := steps[..|steps| - 1], steps[|steps| - 1];
      FailuresVanishExactly(cfg, front, p);
      LossIsExact(cfg, front, Run(cfg, front), step, p);
      StepGrows(cfg, Run(cfg, front), step);
      assert steps == front + [step];
      MetLossStep(cfg, front, step, p);
    }
  }

  // ----- What must happen between the tracker read and the lock -----

  /** The step in which a goroutine's handler call for a peer read the tracker and found attempts left. */
  ghost predicate ReadAt(cfg: Config, steps: seq<Step>, r: nat, i: nat, p: PeerID) {
    && r < |steps| && steps[r].Advance? && steps[r].i == i
    && var s := Run(cfg, steps[..r]);
    && i < |s.tasks| && s.tasks[i].Failing? && s.tasks[i].p == p
    && Next(cfg, s, steps[r]).tasks[i].Looking?
    && !Exhausted(cfg, s.sh, p)
  }

  predicate IsCount(e: Option<Event>, p: PeerID) {
    e.Some? && (e.value.Scheduled? || e.value.Dropped?) && e.value.peer == p
  }

  /** Whether a step is another goroutine's and counts an attempt of the peer. */
  predicate CountsForOther(cfg: Config, s: State, step: Step, i: nat, p: PeerID) {
    step.Advance? && step.i != i && IsCount(NewestIn(cfg, s, step), p)
  }

  /** How many attempts of a peer other goroutines counted from a step of a run on. */
  function CountedByOthers(cfg: Config, steps: seq<Step>, from: nat, i: nat, p: PeerID): nat {
    if |steps| <= from then 0
    else
      var front := steps[..|steps| - 1];
      CountedByOthers(cfg, front, from, i, p)
      + if CountsForOther(cfg, Run(cfg, front), steps[|steps| - 1], i, p) then 1 else 0
  }

  /** A call between its tracker read and the scheduler's lock. */
  predicate Pending(s: State, i: nat, p: PeerID) {
    i < |s.tasks| && (s.tasks[i].Looking? || s.tasks[i].Scheduling?) && s.tasks[i].p == p
  }

  /** What such a call can rely on: when it read the tracker, and who counted since. */
  ghost predicate HeldSince(cfg: Config, steps: seq<Step>, r: nat, i: nat, p: PeerID) {
    && ReadAt(cfg, steps, r, i, p)
    && Run(cfg, steps).sh.Attempts(p) <= Run(cfg, steps[..r]).sh.Attempts(p) + CountedByOthers(cfg, steps, r, i, p)
    && (Alone(cfg, steps, p) ==> CountedByOthers(cfg, steps, r, i, p) == 0)
  }

  /** A step that leaves a pending call alone raises the attempts only by what it counts. */
  lemma OtherStepCounts(cfg: Config, s: State, step: Step, i: nat, p: PeerID)
    requires StateOk(cfg, s) && i < |s.tasks| && !(step.Advance? && step.i == i)
    ensures Next(cfg, s, step).sh.Attempts(p)
            <= s.sh.Attempts(p) + if CountsForOther(cfg, s, step, i, p) then 1 else 0
    ensures CountsForOther(cfg, s, step, i, p) ==> step.i < |s.tasks| && MidOf(p)(s.tasks[step.i]) == 1
  {
    StepTells(cfg, s, step);
    NeverNegative(cfg, s, p);
    TellingCounts(s.sh, Next(cfg, s, step).sh, p);
    if IsCount(NewestIn(cfg, s, step), p) {
      CountsInScheduling(cfg, s, step, p);
    }
  }

  lemma TellingCounts(sh: Shared, sh': Shared, p: PeerID)
    requires Tells(sh, sh') && 0 <= sh.Attempts(p)
    ensures sh'.Attempts(p) <= sh.Attempts(p) + if IsCount(Newest(sh.log, sh'.log), p) then 1 else 0
  {
    if sh'.log != sh.log {
      var e :| sh'.log == sh.log + [e] && TellsOne(sh, sh', e);
      assert Newest(sh.log, sh'.log) == Some(e);
    } else {
      assert sh'.tracker == sh.tracker;
    }
  }

  lemma NeverNegative(cfg: Config, s: State, p: PeerID)
    requires StateOk(cfg, s)
    ensures 0 <= s.sh.Attempts(p) && (cfg.maxRetryAttempts >= 0 ==> s.sh.Attempts(p) <= cfg.maxRetryAttempts)
  {
  }

  lemma SectionCounts(cfg: Config, sh: Shared, task: Task, answer: Answer, p: PeerID)
    requires IsCount(Newest(sh.log, Section(cfg, sh, task, answer).0.log), p)
    ensures task.Scheduling? && task.p == p
  {
  }

  /** Only the scheduler's section counts attempts. */
  lemma CountsInScheduling(cfg: Config, s: State, step: Step, p: PeerID)
    requires IsCount(NewestIn(cfg, s, step), p)
    ensures step.Advance? && step.i < |s.tasks| && s.tasks[step.i].Scheduling? && s.tasks[step.i].p == p
  {
    if step.Advance? && step.i < |s.tasks| {
      SectionCounts(cfg, s.sh, s.tasks[step.i], step.answer, p);
    }
  }

  lemma OwnReadCounts(cfg: Config, s: State, i: nat, answer: Answer, p: PeerID)
    requires i < |s.tasks| && Pending(Next(cfg, s, Advance(i, answer)), i, p)
    ensures Next(cfg, s, Advance(i, answer)).sh.Attempts(p) == s.sh.Attempts(p)
    ensures if s.tasks[i].Failing? then s.tasks[i].p == p && !Exhausted(cfg, s.sh, p)
                                        && Next(cfg, s, Advance(i, answer)).tasks[i].Looking?
            else Pending(s, i, p)
  {
  }

  lemma OthersStayPending(cfg: Config, s: State, step: Step, i: nat, p: PeerID)
    requires Pending(Next(cfg, s, step), i, p) && !(step.Advance? && step.i == i)
    ensures Pending(s, i, p)
  {
  }

  lemma ReadEarlier(cfg: Config, front: seq<Step>, steps: seq<Step>, r: nat, i: nat, p: PeerID)
    requires steps != [] && front == steps[..|steps| - 1] && ReadAt(cfg, front, r, i, p)
    ensures ReadAt(cfg, steps, r, i, p) && steps[..r] == front[..r]
  {
    assert steps[..r] == front[..r] && steps[r] == front[r];
  }

  lemma StartsNow(cfg: Config, front: seq<Step>, steps: seq<Step>, i: nat, answer: Answer, p: PeerID)
    requires steps == front + [Advance(i, answer)]
    requires Pending(Run(cfg, steps), i, p) && i < |Run(cfg, front).tasks| && Run(cfg, front).tasks[i].Failing?
    ensures HeldSince(cfg, steps, |front|, i, p)
  {
    assert steps[..|front|] == front;
    OwnReadCounts(cfg, Run(cfg, front), i, answer, p);
  }

  lemma GoesOn(cfg: Config, front: seq<Step>, steps: seq<Step>, r: nat, i: nat, answer: Answer, p: PeerID)
    requires steps == front + [Advance(i, answer)] && HeldSince(cfg, front, r, i, p)
    requires Run(cfg, steps).sh.Attempts(p) == Run(cfg, front).sh.Attempts(p)
    ensures HeldSince(cfg, steps, r, i, p)
  {
    assert steps[..|steps| - 1] == front;
    ReadEarlier(cfg, front, steps, r, i, p);
  }

  /** Another goroutine's step, as far as a pending call can see it. */
  lemma OtherStep(cfg: Config, front: seq<Step>, s: State, step: Step, i: nat, p: PeerID)
    requires s == Run(cfg, front) && Pending(s, i, p) && !(step.Advance? && step.i == i)
    ensures Next(cfg, s, step).sh.Attempts(p)
            <= s.sh.Attempts(p) + if CountsForOther(cfg, s, step, i, p) then 1 else 0
    ensures Sum(s.tasks, MidOf(p)) <= 1 ==> !CountsForOther(cfg, s, step, i, p)
  {
    ReachableOk(cfg, front);
    OtherStepCounts(cfg, s, step, i, p);
    if Sum(s.tasks, MidOf(p)) <= 1 {
      NobodyElse(s.tasks, i, p);
    }
  }

  lemma CountedStep(cfg: Config, front: seq<Step>, steps: seq<Step>, r: nat, i: nat, step: Step, p: PeerID)
    requires steps == front + [step] && r <= |front|
    ensures Run(cfg, steps) == Next(cfg, Run(cfg, front), step)
    ensures Alone(cfg, steps, p) ==> Alone(cfg, front, p) && Sum(Run(cfg, front).tasks, MidOf(p)) <= 1
    ensures CountedByOthers(cfg, steps, r, i, p)
            == CountedByOthers(cfg, front, r, i, p) + if CountsForOther(cfg, Run(cfg, front), step, i, p) then 1 else 0
  {
    assert steps[..|steps| - 1] == front;
  }

  lemma OthersGoOn(cfg: Config, front: seq<Step>, steps: seq<Step>, r: nat, i: nat, step: Step, p: PeerID)
    requires steps == front + [step] && !(step.Advance? && step.i == i)
    requires HeldSince(cfg, front, r, i, p) && Pending(Run(cfg, front), i, p)
    ensures HeldSince(cfg, steps, r, i, p)
  {
    assert steps[..|steps| - 1] == front;
    ReadEarlier(cfg, front, steps, r, i, p);
    CountedStep(cfg, front, steps, r, i, step, p);
    OtherStep(cfg, front, Run(cfg, front), step, i, p);
  }

  lemma NobodyElse(tasks: seq<Task>, i: nat, p: PeerID)
    requires i < |tasks| && Sum(tasks, MidOf(p)) <= 1
    requires (tasks[i].Looking? || tasks[i].Scheduling?) && tasks[i].p == p
    ensures forall j :: 0 <= j < |tasks| && j != i ==> MidOf(p)(tasks[j]) == 0
  {
    OnlyOne(tasks, i, p);
  }

  lemma {:induction false} PendingSince(cfg: Config, steps: seq<Step>, i: nat, p: PeerID) returns (r: nat)
    requires Pending(Run(cfg, steps), i, p)
    ensures HeldSince(cfg, steps, r, i, p)
  {
    var front, step := steps[..|steps| - 1], steps[|steps| - 1];
    assert steps == front + [step];
    var s := Run(cfg, front);
    if step.Advance? && step.i == i {
      OwnReadCounts(cfg, s, i, step.answer, p);
      if s.tasks[i].Failing? {
        r := |front|;
        StartsNow(cfg, front, steps, i, step.answer, p);
      } else {
        r := PendingSince(cfg, front, i, p);
        GoesOn(cfg, front, steps, r, i, step.answer, p);
      }
    } else {
      OthersStayPending(cfg, s, step, i, p);
      r := PendingSince(cfg, front, i, p);
      OthersGoOn(cfg, front, steps, r, i, step, p);
    }
  }

  /**
   * With Max not negative, a failure vanishes only in a race: between the call's tracker read, which
   * found a attempts and a < Max, and its lock, other calls counted at least Max - a more.
   */
  lemma {:induction false} LossNeedsARace(cfg: Config, steps: seq<Step>, s: State, step: Step, p: PeerID)
    requires s == Run(cfg, steps) && 0 <= cfg.maxRetryAttempts && LosesAt(cfg, s, step, p)
    ensures exists r: nat :: ReadAt(cfg, steps, r, step.i, p)
              && Run(cfg, steps[..r]).sh.Attempts(p) < cfg.maxRetryAttempts
              && CountedByOthers(cfg, steps, r, step.i, p)
                 >= cfg.maxRetryAttempts - Run(cfg, steps[..r]).sh.Attempts(p)
    ensures !Alone(cfg, steps, p)
  {
    var r := PendingSince(cfg, steps, step.i, p);
    AttemptsFollowHistory(cfg, steps);
    ReachableOk(cfg, steps);
    ReachableOk(cfg, steps[..r]);
    NeverNegative(cfg, Run(cfg, steps[..r]), p);
    assert TaskOk(cfg, s.tasks[step.i]);
  }

  lemma {:induction false} AlonePrefix(cfg: Config, steps: seq<Step>, k: nat, p: PeerID)
    requires Alone(cfg, steps, p) && k <= |steps|
    ensures Alone(cfg, steps[..k], p)
  {
    if k < |steps| {
      AlonePrefix(cfg, steps[..|steps| - 1], k, p);
      assert steps[..|steps| - 1][..k] == steps[..k];
    } else {
      assert steps[..k] == steps;
    }
  }

  /**
   * No silent loss: while a peer's handling is serialised and Max is not negative, no race is
   * possible, so every handler call reports, queues or drops.
   */
  lemma {:induction false} SerialLosesNothing(cfg: Config, steps: seq<Step>, p: PeerID)
    requires Alone(cfg, steps, p) && 0 <= cfg.maxRetryAttempts
    ensures Lost(p) !in Run(cfg, steps).sh.log
  {
    FailuresVanishExactly(cfg, steps, p);
    forall k: nat | k < |steps| ensures !LosesAt(cfg, Run(cfg, steps[..k]), steps[k], p) {
      AlonePrefix(cfg, steps, k, p);
      if LosesAt(cfg, Run(cfg, steps[..k]), steps[k], p) {
        LossNeedsARace(cfg, steps[..k], Run(cfg, steps[..k]), steps[k], p);
      }
    }
  }
}
