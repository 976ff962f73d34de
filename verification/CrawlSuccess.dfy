/** Successes under every interleaving: what the goroutine that reports one has been through. */
module CrawlSuccess {
  import opened Common
  import opened CrawlErrors
  import opened CrawlState
  import opened CrawlMachine
  import opened CrawlAccounting

  datatype Stage = Admission | Identification | Requests | Confirmation

  /** A goroutine for a peer gets through a stage of the connect callback with this section. */
  predicate Passes(sh: Shared, task: Task, answer: Answer, p: PeerID, stage: Stage) {
    match stage
    case Admission => task == Accepting(p) && !sh.stopping && p !in sh.recent
    case Identification => task == Identifying(p) && !answer.Cancelled? && !answer.IdentifyTimedOut?
    case Requests =>
      && task == Requesting(p)
      && !answer.Cancelled? && !answer.StatusFailed? && !answer.ForkMismatch? && !answer.MetadataFailed?
    case Confirmation => task == Reporting(p) && !answer.NotConnected? && p in sh.enrs
  }

  predicate PassesAt(s: State, step: Step, i: nat, p: PeerID, stage: Stage) {
    step.Advance? && step.i == i && i < |s.tasks| && Passes(s.sh, s.tasks[i], step.answer, p, stage)
  }

  /** Goroutine i got through a stage for the peer at some point of a run. */
  predicate Passed(cfg: Config, steps: seq<Step>, i: nat, p: PeerID, stage: Stage) {
    steps != [] &&
      var front := steps[..|steps| - 1];
      Passed(cfg, front, i, p, stage) || PassesAt(Run(cfg, front), steps[|steps| - 1], i, p, stage)
  }

  /** The stages a goroutine must be through to stand where it stands. */
  predicate Needs(task: Task, p: PeerID, stage: Stage) {
    match stage
    case Admission => task in {Identifying(p), Requesting(p), Clearing(p), Reporting(p), Departing(p)}
    case Identification => task in {Requesting(p), Clearing(p), Reporting(p), Departing(p)}
    case Requests => task in {Clearing(p), Reporting(p), Departing(p)}
    case Confirmation => task == Departing(p)
  }

  lemma SectionNeeds(cfg: Config, sh: Shared, task: Task, answer: Answer, p: PeerID, stage: Stage)
    requires Needs(Section(cfg, sh, task, answer).1, p, stage)
    ensures Needs(task, p, stage) || Passes(sh, task, answer, p, stage)
  {
  }

  lemma StepNeeds(cfg: Config, s: State, step: Step, s': State, i: nat, p: PeerID, stage: Stage)
    requires s' == Next(cfg, s, step) && i < |s'.tasks| && Needs(s'.tasks[i], p, stage)
    ensures (i < |s.tasks| && Needs(s.tasks[i], p, stage)) || PassesAt(s, step, i, p, stage)
  {
    if step.Advance? && step.i < |s.tasks| && step.i == i {
      SectionNeeds(cfg, s.sh, s.tasks[i], step.answer, p, stage);
    }
  }

  lemma {:induction false} EveryStageIsPassed(cfg: Config, steps: seq<Step>, i: nat, p: PeerID, stage: Stage)
    requires i < |Run(cfg, steps).tasks| && Needs(Run(cfg, steps).tasks[i], p, stage)
    ensures Passed(cfg, steps, i, p, stage)
  {
    if steps != [] {
      var front, step := steps[..|steps| - 1], steps[|steps| - 1];
      var s := Run(cfg, front);
      StepNeeds(cfg, s, step, Run(cfg, steps), i, p, stage);
      if !PassesAt(s, step, i, p, stage) {
        EveryStageIsPassed(cfg, front, i, p, stage);
      }
    }
  }

  /** A step reports a success exactly when it confirms the peer, and then with the ENR stored in that state. */
  lemma ConfirmedIsReported(cfg: Config, s: State, step: Step, p: PeerID, n: Node)
    ensures Newest(s.sh.log, Next(cfg, s, step).sh.log) == Some(SuccessfulCrawl(p, n))
            <==> step.Advance? && PassesAt(s, step, step.i, p, Confirmation) && s.sh.enrs[p] == n
  {
    if step.Advance? && step.i < |s.tasks| {
      SectionReports(cfg, s.sh, s.tasks[step.i], step.answer, p, n);
    }
  }

  lemma SectionReports(cfg: Config, sh: Shared, task: Task, answer: Answer, p: PeerID, n: Node)
    ensures Newest(sh.log, Section(cfg, sh, task, answer).0.log) == Some(SuccessfulCrawl(p, n))
            <==> Passes(sh, task, answer, p, Confirmation) && sh.enrs[p] == n
  {
  }

  /** One goroutine was admitted, saw the peer identify itself and answer both requests, and confirmed it. */
  predicate Earned(cfg: Config, steps: seq<Step>, i: nat, p: PeerID) {
    && Passed(cfg, steps, i, p, Admission) && Passed(cfg, steps, i, p, Identification)
    && Passed(cfg, steps, i, p, Requests) && Passed(cfg, steps, i, p, Confirmation)
  }

  ghost predicate EarnedBySome(cfg: Config, steps: seq<Step>, p: PeerID) {
    exists i: nat :: Earned(cfg, steps, i, p)
  }

  lemma {:induction false} ConfirmedIsEarned(cfg: Config, front: seq<Step>, step: Step, i: nat, p: PeerID)
    requires PassesAt(Run(cfg, front), step, i, p, Confirmation)
    ensures Earned(cfg, front + [step], i, p)
  {
    assert (front + [step])[..|front|] == front;
    EveryStageIsPassed(cfg, front, i, p, Admission);
    EveryStageIsPassed(cfg, front, i, p, Identification);
    EveryStageIsPassed(cfg, front, i, p, Requests);
  }

  /**
   * In every run a success is reported for a peer exactly when some goroutine was admitted while the
   * crawler was not stopping and the peer not in its cool-off, then saw it identify itself, then had
   * both requests answered, and at last found it connected with a stored ENR, whatever ran in between.
   */
  lemma {:induction false} SuccessIsEarned(cfg: Config, steps: seq<Step>, p: PeerID)
    ensures (exists n: Node :: SuccessfulCrawl(p, n) in Run(cfg, steps).sh.log) <==> EarnedBySome(cfg, steps, p)
  {
    if steps == [] {
      assert forall i: nat :: !Passed(cfg, [], i, p, Confirmation);
    } else {
      var front, step := steps[..|steps| - 1], steps[|steps| - 1];
      assert steps == front + [step];
      SuccessIsEarned(cfg, front, p);
      OneMoreStep(cfg, front, step, p);
    }
  }

  lemma OneMoreStep(cfg: Config, front: seq<Step>, step: Step, p: PeerID)
    requires (exists n: Node :: SuccessfulCrawl(p, n) in Run(cfg, front).sh.log) <==> EarnedBySome(cfg, front, p)
    ensures (exists n: Node :: SuccessfulCrawl(p, n) in Run(cfg, front + [step]).sh.log)
            <==> EarnedBySome(cfg, front + [step], p)
  {
    var steps := front + [step];
    var (s, s') := (Run(cfg, front), Run(cfg, steps));
    assert steps[..|front|] == front;
    StepGrows(cfg, s, step);
    forall n: Node
      ensures Newest(s.sh.log, s'.sh.log) == Some(SuccessfulCrawl(p, n))
              <==> step.Advance? && PassesAt(s, step, step.i, p, Confirmation) && s.sh.enrs[p] == n
    {
      ConfirmedIsReported(cfg, s, step, p, n);
    }
    if EarnedBySome(cfg, front, p) {
      var i: nat :| Earned(cfg, front, i, p);
      assert Earned(cfg, steps, i, p);
    }
    if step.Advance? && PassesAt(s, step, step.i, p, Confirmation) {
      ConfirmedIsEarned(cfg, front, step, step.i, p);
      assert SuccessfulCrawl(p, s.sh.enrs[p]) in s'.sh.log;
    } else {
      forall i: nat | Earned(cfg, steps, i, p) ensures EarnedBySome(cfg, front, p) {
        StillEarned(cfg, front, step, i, p);
      }
    }
  }

  lemma StillEarned(cfg: Config, front: seq<Step>, step: Step, i: nat, p: PeerID)
    requires Earned(cfg, front + [step], i, p)
    requires !PassesAt(Run(cfg, front), step, i, p, Confirmation)
    ensures Earned(cfg, front, i, p)
  {
    assert (front + [step])[..|front|] == front;
    LastStageImpliesAll(cfg, front, i, p);
  }

  /** A goroutine that got through the last stage got through all of them. */
  lemma {:induction false} LastStageImpliesAll(cfg: Config, steps: seq<Step>, i: nat, p: PeerID)
    requires Passed(cfg, steps, i, p, Confirmation)
    ensures Earned(cfg, steps, i, p)
  {
    var front, step := steps[..|steps| - 1], steps[|steps| - 1];
    assert steps == front + [step];
    if PassesAt(Run(cfg, front), step, i, p, Confirmation) {
      ConfirmedIsEarned(cfg, front, step, i, p);
    } else {
      LastStageImpliesAll(cfg, front, i, p);
    }
  }
}
