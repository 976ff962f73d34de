/**
 * What the crawler's queues and maps hold in any state of any run, read off the steps that led
 * there: peers are dialled in the order in which they were queued, a scheduled retry comes back
 * once and in its turn, nothing new begins after Stop, and ENRs and cool-offs follow their history.
 */
module CrawlQueues {
  import opened Common
  import opened CrawlErrors
  import opened CrawlState
  import opened CrawlMachine
  import opened CrawlAccounting

  // ----- What a step moves -----

  /** The retry that a step brings back to the dial queue: the one waited for, if there is room. */
  function Back(s: State, step: Step): seq<RetryInfo> {
    if step.Requeue? && !step.cancelled && s.waiting.Some? && |s.sh.dialQueue| < 10000 then [s.waiting.value] else []
  }

  /** The retry that a step gives up: the worker is cancelled, or takes it after Stop. */
  function GivenUp(s: State, step: Step): seq<RetryInfo> {
    if step.Requeue? && step.cancelled then Listed(s.waiting)
    else if step.TakeRetry? && s.sh.stopping && s.waiting.None? && s.sh.retryQueue != [] then [s.sh.retryQueue[0]]
    else []
  }

  /** The node that a step discovers and queues: one on our network that yields a peer, before Stop. */
  function Found(s: State, step: Step): seq<ConnectablePeer> {
    match step
    case Discover(node, true) =>
      if node.peer.Some? && !s.sh.stopping && |s.sh.dialQueue| < 10000 then
        [ConnectablePeer(node.peer.value, node)]
      else []
    case _ => []
  }

  function Peers(infos: seq<RetryInfo>): seq<ConnectablePeer> {
    seq(|infos|, i requires 0 <= i < |infos| => infos[i].peer)
  }

  /** All peers ever put in the dial queue, in order. */
  function Joined(cfg: Config, steps: seq<Step>): seq<ConnectablePeer> {
    if steps == [] then []
    else
      var s, step := Run(cfg, steps[..|steps| - 1]), steps[|steps| - 1];
      Joined(cfg, steps[..|steps| - 1]) + Found(s, step) + Peers(Back(s, step))
  }

  /** All retries the worker has finished with, in order. */
  function Finished(cfg: Config, steps: seq<Step>): seq<RetryInfo> {
    if steps == [] then []
    else
      var s, step := Run(cfg, steps[..|steps| - 1]), steps[|steps| - 1];
      Finished(cfg, steps[..|steps| - 1]) + Back(s, step) + GivenUp(s, step)
  }

  /** All retries that came back to the dial queue, in order. */
  function Returned(cfg: Config, steps: seq<Step>): seq<RetryInfo> {
    if steps == [] then []
    else
      var s, step := Run(cfg, steps[..|steps| - 1]), steps[|steps| - 1];
      Returned(cfg, steps[..|steps| - 1]) + Back(s, step)
  }

  // ----- What the log says of it -----

  function DialOf(e: Event): seq<PeerID> {
    match e
    case Dialed(p) => [p]
    case _ => []
  }

  function DialsIn(log: seq<Event>): seq<PeerID> {
    if log == [] then [] else DialsIn(log[..|log| - 1]) + DialOf(log[|log| - 1])
  }

  function RetryOf(e: Event): seq<(PeerID, int)> {
    match e
    case Scheduled(p, attempt) => [(p, attempt)]
    case _ => []
  }

  function RetriesIn(log: seq<Event>): seq<(PeerID, int)> {
    if log == [] then [] else RetriesIn(log[..|log| - 1]) + RetryOf(log[|log| - 1])
  }

  function Ids(peers: seq<ConnectablePeer>): seq<PeerID> {
    seq(|peers|, i requires 0 <= i < |peers| => peers[i].id)
  }

  function Turns(infos: seq<RetryInfo>): seq<(PeerID, int)> {
    seq(|infos|, i requires 0 <= i < |infos| => (infos[i].peer.id, infos[i].attempts))
  }

  lemma LogGrows(log: seq<Event>, log': seq<Event>)
    requires Grows(log, log')
    ensures var e := Newest(log, log');
            && DialsIn(log') == DialsIn(log) + (if e.Some? then DialOf(e.value) else [])
            && RetriesIn(log') == RetriesIn(log) + (if e.Some? then RetryOf(e.value) else [])
  {
    if Newest(log, log').Some? {
      assert log'[..|log|] == log;
    } else {
      assert log' == log;
    }
  }

  // ----- Dials -----

  /** The dial queue is the end of what joined it, and before Stop what left it was dialled. */
  ghost predicate DialsOk(joined: seq<ConnectablePeer>, sh: Shared) {
    && |sh.dialQueue| <= |joined| && joined[|joined| - |sh.dialQueue|..] == sh.dialQueue
    && DialsIn(sh.log) <= Ids(joined[..|joined| - |sh.dialQueue|])
    && (!sh.stopping ==> DialsIn(sh.log) == Ids(joined[..|joined| - |sh.dialQueue|]))
  }

  lemma SectionDialsNothing(cfg: Config, sh: Shared, task: Task, answer: Answer)
    ensures var sh' := Section(cfg, sh, task, answer).0;
            && sh'.dialQueue == sh.dialQueue && sh'.stopping == sh.stopping
            && (Grows(sh.log, sh'.log) && Newest(sh.log, sh'.log).Some? ==>
                  !Newest(sh.log, sh'.log).value.Dialed?)
  {
  }

  lemma TakingKeepsDials(joined: seq<ConnectablePeer>, sh: Shared, sh': Shared)
    requires DialsOk(joined, sh) && sh.dialQueue != [] && sh'.dialQueue == sh.dialQueue[1..]
    requires sh'.stopping == sh.stopping
    requires sh'.log == if sh.stopping then sh.log else sh.log + [Dialed(sh.dialQueue[0].id)]
    ensures DialsOk(joined, sh')
  {
    var n := |joined| - |sh.dialQueue|;
    EndMovesOn(joined, n, sh.dialQueue);
    IdsAppend(joined[..n], sh.dialQueue[0]);
    assert (sh.log + [Dialed(sh.dialQueue[0].id)])[..|sh.log|] == sh.log;
  }

  lemma EndMovesOn<T>(s: seq<T>, n: nat, end: seq<T>)
    requires n < |s| && s[n..] == end
    ensures s[n + 1..] == end[1..] && s[..n + 1] == s[..n] + [end[0]]
  {
    assert s[n..][0] == s[n];
  }

  lemma IdsAppend(peers: seq<ConnectablePeer>, cp: ConnectablePeer)
    ensures Ids(peers + [cp]) == Ids(peers) + [cp.id]
  {
  }

  lemma JoiningKeepsDials(joined: seq<ConnectablePeer>, more: seq<ConnectablePeer>, sh: Shared, sh': Shared)
    requires DialsOk(joined, sh) && sh'.dialQueue == sh.dialQueue + more
    requires sh.stopping ==> sh'.stopping
    requires DialsIn(sh'.log) == DialsIn(sh.log)
    ensures DialsOk(joined + more, sh')
  {
    var n := |joined| - |sh.dialQueue|;
    assert (joined + more)[n..] == joined[n..] + more;
    assert (joined + more)[..n] == joined[..n];
  }

  lemma StepJoins(cfg: Config, s: State, step: Step, sh': Shared)
    requires sh' == Next(cfg, s, step).sh && !step.TakeDial?
    ensures sh'.dialQueue == s.sh.dialQueue + (Found(s, step) + Peers(Back(s, step)))
    ensures DialsIn(sh'.log) == DialsIn(s.sh.log)
    ensures s.sh.stopping ==> sh'.stopping
  {
    StepGrows(cfg, s, step);
    LogGrows(s.sh.log, sh'.log);
    if step.Advance? {
      if step.i < |s.tasks| {
        SectionDialsNothing(cfg, s.sh, s.tasks[step.i], step.answer);
      }
      assert Found(s, step) + Peers(Back(s, step)) == [];
    } else {
      OthersJoin(cfg, s, step, sh');
    }
  }

  lemma OthersJoin(cfg: Config, s: State, step: Step, sh': Shared)
    requires sh' == Next(cfg, s, step).sh && !step.TakeDial? && !step.Advance?
    ensures sh'.dialQueue == s.sh.dialQueue + (Found(s, step) + Peers(Back(s, step)))
    ensures var e := Newest(s.sh.log, sh'.log); e.Some? ==> !e.value.Dialed?
    ensures s.sh.stopping ==> sh'.stopping
  {
  }

  /**
   * Peers are dialled in the order in which they were queued, each as often as it was queued: in
   * every run, what joined the dial queue is what was dialled followed by what is still in it, except
   * that after Stop some of what leaves it is dialled no more.
   */
  lemma {:induction false} DialsInOrder(cfg: Config, steps: seq<Step>)
    ensures DialsOk(Joined(cfg, steps), Run(cfg, steps).sh)
  {
    if steps != [] {
      var front, step := steps[..|steps| - 1], steps[|steps| - 1];
      var s, sh' := Run(cfg, front), Run(cfg, steps).sh;
      var joined := Joined(cfg, front);
      DialsInOrder(cfg, front);
      assert joined + [] + [] == joined;
      if !step.TakeDial? {
        StepJoins(cfg, s, step, sh');
        JoiningKeepsDials(joined, Found(s, step) + Peers(Back(s, step)), s.sh, sh');
        assert joined + (Found(s, step) + Peers(Back(s, step))) == Joined(cfg, steps);
      } else if s.sh.dialQueue != [] {
        TakingKeepsDials(joined, s.sh, sh');
      }
    }
  }

  // ----- Retries -----

  /** What the retry worker still has to do, in order. */
  function Pending(s: State): seq<RetryInfo> {
    Listed(s.waiting) + s.sh.retryQueue
  }

  lemma ScheduleQueues(cfg: Config, sh: Shared, p: PeerID, cp: ConnectablePeer, enr: Node, err: CrawlError)
    requires SharedOk(cfg, sh) && cp.id == p
    ensures var sh' := ScheduleRetry(cfg, sh, p, cp, enr, err);
            var e := Newest(sh.log, sh'.log);
            && Grows(sh.log, sh'.log) && e.Some?
            && sh'.retryQueue == sh.retryQueue + (if e.value.Scheduled? then [sh'.retryQueue[|sh.retryQueue|]] else [])
            && Turns(sh'.retryQueue[|sh.retryQueue|..]) == RetryOf(e.value)
  {
  }

  lemma SectionQueues(cfg: Config, sh: Shared, task: Task, answer: Answer)
    requires SharedOk(cfg, sh) && TaskOk(cfg, task)
    ensures var sh' := Section(cfg, sh, task, answer).0;
            var e := Newest(sh.log, sh'.log);
            && sh.retryQueue <= sh'.retryQueue
            && Turns(sh'.retryQueue[|sh.retryQueue|..]) == (if e.Some? then RetryOf(e.value) else [])
  {
    if task.Scheduling? {
      ScheduleQueues(cfg, sh, task.p, task.peer, task.enr, task.err);
    }
  }

  lemma TurnsConcat(a: seq<RetryInfo>, b: seq<RetryInfo>)
    ensures Turns(a + b) == Turns(a) + Turns(b)
  {
  }

  /** A step moves the pending retries on: the one it finishes with leaves at the front, a scheduled one joins. */
  ghost predicate Moves(s: State, step: Step, s': State) {
    var e := Newest(s.sh.log, s'.sh.log);
    Turns(Pending(s)) + (if e.Some? then RetryOf(e.value) else [])
    == Turns(Back(s, step) + GivenUp(s, step)) + Turns(Pending(s'))
  }

  lemma AdvancePends(cfg: Config, s: State, i: nat, answer: Answer, s': State)
    requires StateOk(cfg, s) && i < |s.tasks| && s' == Next(cfg, s, Advance(i, answer))
    ensures Moves(s, Advance(i, answer), s')
  {
    var n := |s.sh.retryQueue|;
    SectionQueues(cfg, s.sh, s.tasks[i], answer);
    assert s'.sh.retryQueue == s.sh.retryQueue + s'.sh.retryQueue[n..];
    assert Pending(s') == Pending(s) + s'.sh.retryQueue[n..];
    TurnsConcat(Pending(s), s'.sh.retryQueue[n..]);
    assert Turns([]) + Turns(Pending(s')) == Turns(Pending(s'));
  }

  lemma WorkerTakes(cfg: Config, s: State, step: Step, s': State)
    requires (step.TakeRetry? || step.Requeue?) && s' == Next(cfg, s, step)
    ensures Pending(s) == (Back(s, step) + GivenUp(s, step)) + Pending(s') && s'.sh.log == s.sh.log
  {
  }

  lemma WorkerPends(cfg: Config, s: State, step: Step, s': State)
    requires (step.TakeRetry? || step.Requeue?) && s' == Next(cfg, s, step)
    ensures Moves(s, step, s')
  {
    var done := Back(s, step) + GivenUp(s, step);
    WorkerTakes(cfg, s, step, s');
    TurnsConcat(done, Pending(s'));
    assert Turns(Pending(s)) + [] == Turns(Pending(s));
  }

  lemma StepPends(cfg: Config, s: State, step: Step, s': State)
    requires StateOk(cfg, s) && s' == Next(cfg, s, step)
    ensures Moves(s, step, s')
  {
    if step.Advance? && step.i < |s.tasks| {
      AdvancePends(cfg, s, step.i, step.answer, s');
    } else if step.TakeRetry? || step.Requeue? {
      WorkerPends(cfg, s, step, s');
    } else {
      assert Pending(s') == Pending(s);
      assert Turns(Pending(s)) + [] == Turns([]) + Turns(Pending(s));
    }
  }

  lemma StillInOrder(finished: seq<RetryInfo>, s: State, step: Step, s': State, finished': seq<RetryInfo>)
    requires RetriesIn(s.sh.log) == Turns(finished) + Turns(Pending(s)) && Moves(s, step, s')
    requires finished' == finished + Back(s, step) + GivenUp(s, step)
    requires var e := Newest(s.sh.log, s'.sh.log);
             RetriesIn(s'.sh.log) == RetriesIn(s.sh.log) + (if e.Some? then RetryOf(e.value) else [])
    ensures RetriesIn(s'.sh.log) == Turns(finished') + Turns(Pending(s'))
  {
    var done := Back(s, step) + GivenUp(s, step);
    var e := Newest(s.sh.log, s'.sh.log);
    TurnsConcat(finished, done);
    assert finished' == finished + done;
    Regroup(Turns(finished), Turns(Pending(s)), if e.Some? then RetryOf(e.value) else [], Turns(done),
      Turns(Pending(s')));
  }

  lemma Regroup<T>(a: seq<T>, b: seq<T>, c: seq<T>, d: seq<T>, e: seq<T>)
    requires b + c == d + e
    ensures (a + b) + c == (a + d) + e
  {
    assert (a + b) + c == a + (b + c);
    assert (a + d) + e == a + (d + e);
  }

  /**
   * No scheduled retry is lost, doubled or overtaken: in every run the retries scheduled so far are,
   * in order, those the worker has finished with, the one it waits for and those in its queue.
   */
  lemma {:induction false} RetriesInOrder(cfg: Config, steps: seq<Step>, s: State)
    requires s == Run(cfg, steps)
    ensures RetriesIn(s.sh.log) == Turns(Finished(cfg, steps)) + Turns(Pending(s))
  {
    if steps == [] {
      assert Pending(s) == [];
    } else {
      var front, step := steps[..|steps| - 1], steps[|steps| - 1];
      var before := Run(cfg, front);
      RetriesInOrder(cfg, front, before);
      ReachableOk(cfg, front);
      StepPends(cfg, before, step, s);
      StepGrows(cfg, before, step);
      LogGrows(before.sh.log, s.sh.log);
      StillInOrder(Finished(cfg, front), before, step, s, Finished(cfg, steps));
    }
  }

  lemma StoppingStays(cfg: Config, s: State, step: Step)
    ensures s.sh.stopping ==> Next(cfg, s, step).sh.stopping
    ensures !s.sh.stopping && Next(cfg, s, step).sh.stopping ==> step.Stop?
  {
    if step.Advance? && step.i < |s.tasks| {
      SectionDialsNothing(cfg, s.sh, s.tasks[step.i], step.answer);
    }
  }

  /** The crawler is stopping exactly once Stop has run. */
  lemma {:induction false} StoppedExactly(cfg: Config, steps: seq<Step>)
    ensures Run(cfg, steps).sh.stopping <==> Step.Stop in steps
  {
    if steps != [] {
      var front, step := steps[..|steps| - 1], steps[|steps| - 1];
      assert steps == front + [step];
      StoppedExactly(cfg, front);
      StoppingStays(cfg, Run(cfg, front), step);
    }
  }

  /** Before Stop the worker finishes with a retry, unless it is cancelled, only by bringing it back. */
  lemma {:induction false} RetriesComeBack(cfg: Config, steps: seq<Step>)
    requires !Run(cfg, steps).sh.stopping && Requeue(true) !in steps
    ensures Finished(cfg, steps) == Returned(cfg, steps)
  {
    if steps != [] {
      var front, step := steps[..|steps| - 1], steps[|steps| - 1];
      assert steps == front + [step];
      StoppingStays(cfg, Run(cfg, front), step);
      RetriesComeBack(cfg, front);
    }
  }

  // ----- After Stop -----

  /** What can still happen after Stop: nothing is dialled or scheduled, and a new callback only looks and ends. */
  ghost predicate WoundDown(s: State, t: State) {
    && t.sh.stopping
    && DialsIn(t.sh.log) == DialsIn(s.sh.log) && RetriesIn(t.sh.log) == RetriesIn(s.sh.log)
    && |s.tasks| <= |t.tasks|
    && (forall i :: |s.tasks| <= i < |t.tasks| ==> t.tasks[i].Accepting? || t.tasks[i].Done?)
    && (s.waiting.None? ==> t.waiting.None?)
  }

  lemma StoppedSection(cfg: Config, sh: Shared, task: Task, answer: Answer)
    requires sh.stopping
    ensures var (sh', task') := Section(cfg, sh, task, answer);
            && sh'.stopping && Grows(sh.log, sh'.log)
            && (var e := Newest(sh.log, sh'.log); e.Some? ==> !e.value.Dialed? && !e.value.Scheduled?)
            && (task.Accepting? || task.Done? ==> task'.Done?)
  {
  }

  /** One step after Stop, on what a run leaves behind. */
  ghost predicate Quiet(t: State, t': State) {
    && t'.sh.stopping && Grows(t.sh.log, t'.sh.log)
    && (var e := Newest(t.sh.log, t'.sh.log); e.Some? ==> !e.value.Dialed? && !e.value.Scheduled?)
    && |t.tasks| <= |t'.tasks|
    && (forall i :: 0 <= i < |t.tasks| ==>
          t'.tasks[i] == t.tasks[i] || (t.tasks[i].Accepting? || t.tasks[i].Done? ==> t'.tasks[i].Done?))
    && (forall i :: |t.tasks| <= i < |t'.tasks| ==> t'.tasks[i].Accepting?)
  }

  lemma StoppedAdvance(cfg: Config, t: State, i: nat, answer: Answer, t': State)
    requires t.sh.stopping && i < |t.tasks| && t' == Next(cfg, t, Advance(i, answer))
    ensures Quiet(t, t') && t'.waiting == t.waiting
  {
    StoppedSection(cfg, t.sh, t.tasks[i], answer);
  }

  lemma StoppedOther(cfg: Config, t: State, step: Step, t': State)
    requires t.sh.stopping && !(step.Advance? && step.i < |t.tasks|) && t' == Next(cfg, t, step)
    ensures Quiet(t, t')
    ensures t.waiting.None? ==> t'.waiting.None?
    ensures Back(t, step) != [] ==> t'.waiting.None?
  {
  }

  lemma QuietKeepsWoundDown(s: State, t: State, t': State)
    requires WoundDown(s, t) && Quiet(t, t') && (t.waiting.None? ==> t'.waiting.None?)
    ensures WoundDown(s, t')
  {
    LogGrows(t.sh.log, t'.sh.log);
    var e := Newest(t.sh.log, t'.sh.log);
    assert e.Some? ==> DialOf(e.value) == [] && RetryOf(e.value) == [];
  }

  lemma StoppedStep(cfg: Config, s: State, t: State, step: Step, t': State)
    requires s.sh.stopping && WoundDown(s, t) && t' == Next(cfg, t, step)
    ensures WoundDown(s, t')
    ensures Found(t, step) == [] && (t.waiting.None? ==> Back(t, step) == [])
    ensures Back(t, step) != [] ==> t'.waiting.None?
    ensures t.waiting.None? ==> t'.waiting.None?
  {
    if step.Advance? && step.i < |t.tasks| {
      StoppedAdvance(cfg, t, step.i, step.answer, t');
    } else {
      StoppedOther(cfg, t, step, t');
    }
    QuietKeepsWoundDown(s, t, t');
  }

  /** After Stop nothing joins the dial queue but the one retry waited for, and then the worker waits for no other. */
  ghost predicate NothingJoins(s: State, t: State, before: seq<ConnectablePeer>, after: seq<ConnectablePeer>) {
    || after == before
    || (s.waiting.Some? && t.waiting.None? && exists last: ConnectablePeer :: after == before + [last])
  }

  lemma StoppedJoins(s: State, t: State, step: Step, t': State, before: seq<ConnectablePeer>,
      after: seq<ConnectablePeer>, after': seq<ConnectablePeer>)
    requires NothingJoins(s, t, before, after) && (s.waiting.None? ==> t.waiting.None?)
    requires t.waiting.None? ==> t'.waiting.None? && Back(t, step) == []
    requires Back(t, step) != [] ==> t'.waiting.None?
    requires after' == after + [] + Peers(Back(t, step))
    ensures NothingJoins(s, t', before, after')
  {
    if Back(t, step) == [] {
      assert after' == after;
    } else {
      assert after' == before + [Back(t, step)[0].peer];
    }
  }

  /**
   * Stop is final: whatever happens afterwards, no peer is dialled, no retry is scheduled, no
   * connection is handled, and all that can still join the dial queue is the one retry waited for.
   */
  lemma {:induction false} StopIsFinal(cfg: Config, steps: seq<Step>, more: seq<Step>)
    requires Run(cfg, steps).sh.stopping
    ensures var (s, t) := (Run(cfg, steps), Run(cfg, steps + more));
            WoundDown(s, t) && NothingJoins(s, t, Joined(cfg, steps), Joined(cfg, steps + more))
  {
    if more == [] {
      assert steps + more == steps;
    } else {
      var front, step := more[..|more| - 1], more[|more| - 1];
      var (s, t, t') := (Run(cfg, steps), Run(cfg, steps + front), Run(cfg, steps + more));
      assert (steps + more)[..|steps + more| - 1] == steps + front;
      StopIsFinal(cfg, steps, front);
      StoppedStep(cfg, s, t, step, t');
      StoppedJoins(s, t, step, t', Joined(cfg, steps), Joined(cfg, steps + front), Joined(cfg, steps + more));
    }
  }

  // ----- The stored ENRs and the cool-off -----

  /** What a step makes of a peer's stored ENR: a dial stores it, a departure or a wipe deletes it. */
  function EnrAfter(s: State, step: Step, p: PeerID, enr: Option<Node>): Option<Node> {
    match step
    case Disconnected(q) => if q == p then None else enr
    case Wipe => if s.sh.stopping then None else enr
    case Advance(i, answer) =>
      if i < |s.tasks| && s.tasks[i].Storing? && s.tasks[i].dialed.id == p then Some(s.tasks[i].dialed.enode)
      else if i < |s.tasks| && s.tasks[i] == Departing(p) && !answer.NotConnected? then None
      else enr
    case _ => enr
  }

  /** Whether a peer is in its cool-off after a step: identified now, or before and neither expired nor freed. */
  function CooledAfter(s: State, step: Step, e: Option<Event>, p: PeerID, cooled: bool): bool {
    if step == Expire(p) then false
    else if step.Advance? && step.i < |s.tasks| && s.tasks[step.i] == Identifying(p) then
      cooled || !(step.answer.Cancelled? || step.answer.IdentifyTimedOut?)
    else if e.Some? && ((e.value.Scheduled? && e.value.peer == p)
                        || (e.value.Dropped? && e.value.peer == p && e.value.cause == QueueFull)) then false
    else cooled
  }

  function EnrIn(cfg: Config, steps: seq<Step>, p: PeerID): Option<Node> {
    if steps == [] then None
    else
      var front := steps[..|steps| - 1];
      EnrAfter(Run(cfg, front), steps[|steps| - 1], p, EnrIn(cfg, front, p))
  }

  function CooledIn(cfg: Config, steps: seq<Step>, p: PeerID): bool {
    if steps == [] then false
    else
      var front := steps[..|steps| - 1];
      CooledAfter(Run(cfg, front), steps[|steps| - 1],
        Newest(Run(cfg, front).sh.log, Run(cfg, steps).sh.log), p, CooledIn(cfg, front, p))
  }

  lemma SectionRemembers(cfg: Config, s: State, i: nat, answer: Answer, p: PeerID)
    requires i < |s.tasks|
    ensures var sh' := Section(cfg, s.sh, s.tasks[i], answer).0;
            && sh'.Enr(p) == EnrAfter(s, Advance(i, answer), p, s.sh.Enr(p))
            && (p in sh'.recent
                <==> CooledAfter(s, Advance(i, answer), Newest(s.sh.log, sh'.log), p, p in s.sh.recent))
  {
    var task := s.tasks[i];
    if task.Scheduling? {
      ScheduleRemembers(cfg, s.sh, task.p, task.peer, task.enr, task.err, p);
    } else {
      OtherEnrs(cfg, s.sh, task, answer, p);
      OtherCooloffs(cfg, s.sh, task, answer, p);
    }
  }

  lemma OtherEnrs(cfg: Config, sh: Shared, task: Task, answer: Answer, p: PeerID)
    requires !task.Scheduling?
    ensures var sh' := Section(cfg, sh, task, answer).0;
            sh'.Enr(p) == if task.Storing? && task.dialed.id == p then Some(task.dialed.enode)
                          else if task == Departing(p) && !answer.NotConnected? then None
                          else sh.Enr(p)
  {
  }

  lemma OtherCooloffs(cfg: Config, sh: Shared, task: Task, answer: Answer, p: PeerID)
    requires !task.Scheduling?
    ensures var sh' := Section(cfg, sh, task, answer).0;
            var e := Newest(sh.log, sh'.log);
            && (e.Some? ==> !e.value.Scheduled? && !e.value.Dropped?)
            && (p in sh'.recent <==>
                p in sh.recent || (task == Identifying(p) && !answer.Cancelled? && !answer.IdentifyTimedOut?))
  {
  }

  lemma ScheduleRemembers(cfg: Config, sh: Shared, q: PeerID, cp: ConnectablePeer, enr: Node, err: CrawlError,
      p: PeerID)
    ensures var sh' := ScheduleRetry(cfg, sh, q, cp, enr, err);
            var e := Newest(sh.log, sh'.log);
            && sh'.enrs == sh.enrs && e.Some? && !e.value.SuccessfulCrawl?
            && (p in sh'.recent <==>
                p in sh.recent && !(e.value.Scheduled? && e.value.peer == p)
                && !(e.value.Dropped? && e.value.peer == p && e.value.cause == QueueFull))
  {
  }

  lemma StepRemembers(cfg: Config, s: State, step: Step, s': State, p: PeerID)
    requires s' == Next(cfg, s, step)
    ensures s'.sh.Enr(p) == EnrAfter(s, step, p, s.sh.Enr(p))
    ensures p in s'.sh.recent <==> CooledAfter(s, step, Newest(s.sh.log, s'.sh.log), p, p in s.sh.recent)
  {
    if step.Advance? && step.i < |s.tasks| {
      SectionRemembers(cfg, s, step.i, step.answer, p);
    }
  }

  /**
   * In every run a peer's stored ENR is that of its last dial, unless it has left since, and it is in
   * its cool-off exactly when it identified itself and has neither expired nor been freed since.
   */
  lemma {:induction false} MapsFollowHistory(cfg: Config, steps: seq<Step>, p: PeerID)
    ensures Run(cfg, steps).sh.Enr(p) == EnrIn(cfg, steps, p)
    ensures p in Run(cfg, steps).sh.recent <==> CooledIn(cfg, steps, p)
  {
    if steps != [] {
      MapsFollowHistory(cfg, steps[..|steps| - 1], p);
      StepRemembers(cfg, Run(cfg, steps[..|steps| - 1]), steps[|steps| - 1], Run(cfg, steps), p);
    }
  }
}
