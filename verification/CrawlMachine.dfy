/**
 * The crawler as an interleaved machine: any goroutine may run its next section at any time,
 * between any two of them discovery may queue a node, a peer may connect or disconnect, a cache
 * entry may expire and Stop may run. A run is an arbitrary sequence of steps.
 */
module CrawlMachine {
  import opened Common
  import opened CrawlErrors
  import opened CrawlState

  /** `waiting` is the retry worker's copy while it sleeps; `tasks` are all goroutines ever started. */
  datatype State = State(sh: Shared, tasks: seq<Task>, waiting: Option<RetryInfo>)

  datatype Step =
    | Discover(node: Node, onNetwork: bool)
    | TakeDial
    | TakeRetry
    | Requeue(cancelled: bool)
    | Inbound(peer: PeerID)
    | Advance(i: nat, answer: Answer)
    | Disconnected(peer: PeerID)
    | Expire(peer: PeerID)
    | Stop
    | Wipe

  const START := State(INITIAL, [], None)

  /** One step; a step that is not enabled changes nothing. */
  function Next(cfg: Config, s: State, step: Step): State {
    var sh := s.sh;
    match step
    case Discover(node, onNetwork) =>
      (match DeriveDetails(node)
       case None => s
       case Some(cp) =>
         if sh.stopping || !onNetwork || |sh.dialQueue| >= DIAL_QUEUE_CAPACITY then s
         else s.(sh := sh.(dialQueue := sh.dialQueue + [cp]).Note(Arrived(cp.id))))
    case TakeDial =>
      if sh.dialQueue == [] then s
      else
        var cp, rest := sh.dialQueue[0], sh.(dialQueue := sh.dialQueue[1..]);
        if sh.stopping then s.(sh := rest)
        else s.(sh := rest.Note(Dialed(cp.id)), tasks := s.tasks + [Dialing(cp)])
    case TakeRetry =>
      if sh.retryQueue == [] || s.waiting.Some? then s
      else
        var rest := sh.(retryQueue := sh.retryQueue[1..]);
        s.(sh := rest, waiting := if sh.stopping then None else Some(sh.retryQueue[0]))
    case Requeue(cancelled) =>
      (match s.waiting
       case None => s
       case Some(info) =>
         if cancelled then s.(waiting := None)
         else if |sh.dialQueue| >= DIAL_QUEUE_CAPACITY then s
         else s.(sh := sh.(dialQueue := sh.dialQueue + [info.peer]), waiting := None))
    case Inbound(p) =>
      s.(sh := sh.Note(Arrived(p)), tasks := s.tasks + [Accepting(p)])
    case Advance(i, answer) =>
      if i >= |s.tasks| then s
      else
        var (sh', task') := Section(cfg, sh, s.tasks[i], answer);
        s.(sh := sh', tasks := s.tasks[i := task'])
    case Disconnected(p) => s.(sh := sh.(enrs := sh.enrs - {p}))
    case Expire(p) => s.(sh := sh.(recent := sh.recent - {p}))
    case Stop => s.(sh := sh.(stopping := true))
    case Wipe =>
      if sh.stopping then s.(sh := sh.(enrs := map[], tracker := map[]).Note(Wiped)) else s
  }

  function Run(cfg: Config, steps: seq<Step>): State {
    if steps == [] then START
    else Next(cfg, Run(cfg, steps[..|steps| - 1]), steps[|steps| - 1])
  }

  /** Running further from a given state. */
  function Play(cfg: Config, s: State, steps: seq<Step>): State
    decreases |steps|
  {
    if steps == [] then s else Play(cfg, Next(cfg, s, steps[0]), steps[1..])
  }

  lemma {:induction false} PlayIsRun(cfg: Config, done: seq<Step>, steps: seq<Step>)
    ensures Play(cfg, Run(cfg, done), steps) == Run(cfg, done + steps)
    decreases |steps|
  {
    if steps == [] {
      assert done + steps == done;
    } else {
      RunOneMore(cfg, done, steps[0]);
      FirstJoins(done, steps);
      PlayIsRun(cfg, done + [steps[0]], steps[1..]);
    }
  }

  lemma FirstJoins<T>(done: seq<T>, steps: seq<T>)
    requires steps != []
    ensures (done + [steps[0]]) + steps[1..] == done + steps
  {
  }

  lemma RunOneMore(cfg: Config, done: seq<Step>, step: Step)
    ensures Run(cfg, done + [step]) == Next(cfg, Run(cfg, done), step)
  {
    assert (done + [step])[..|done|] == done;
  }

  /** One goroutine running section after section with nothing in between. */
  function Drive(cfg: Config, sh: Shared, task: Task, answers: seq<Answer>): (Shared, Task)
    decreases |answers|
  {
    if answers == [] then (sh, task)
    else
      var (sh', task') := Section(cfg, sh, task, answers[0]);
      Drive(cfg, sh', task', answers[1..])
  }

  function Advances(i: nat, answers: seq<Answer>): seq<Step> {
    if answers == [] then [] else [Advance(i, answers[0])] + Advances(i, answers[1..])
  }

  /** An uninterrupted goroutine is a special case of the interleaved machine. */
  lemma {:induction false} DriveIsPlay(cfg: Config, s: State, i: nat, answers: seq<Answer>)
    requires i < |s.tasks|
    ensures var (sh', task') := Drive(cfg, s.sh, s.tasks[i], answers);
            Play(cfg, s, Advances(i, answers)) == s.(sh := sh', tasks := s.tasks[i := task'])
    decreases |answers|
  {
    if answers == [] {
      assert s.tasks[i := s.tasks[i]] == s.tasks;
    } else {
      var s' := Next(cfg, s, Advance(i, answers[0]));
      DriveIsPlay(cfg, s', i, answers[1..]);
      assert s.tasks[i := s'.tasks[i]][i := Drive(cfg, s.sh, s.tasks[i], answers).1]
          == s.tasks[i := Drive(cfg, s.sh, s.tasks[i], answers).1];
    }
  }

  /** Every section that is not the last brings its goroutine closer to its end. */
  lemma SectionsEnd(cfg: Config, sh: Shared, task: Task, answer: Answer)
    ensures task.Done? || Rank(Section(cfg, sh, task, answer).1) < Rank(task)
  {
  }

  // ----- What every reachable state satisfies -----

  predicate InfoOk(cfg: Config, p: PeerID, info: RetryInfo) {
    && DeriveDetails(info.enr) == Some(info.peer)
    && info.peer.id == p
    && 1 <= info.attempts <= cfg.maxRetryAttempts
    && info.backoffDelay == cfg.retryBackoff * info.attempts
  }

  predicate PeerOk(cp: ConnectablePeer) {
    DeriveDetails(cp.enode) == Some(cp)
  }

  predicate TaskOk(cfg: Config, task: Task) {
    match task
    case Dialing(cp) => PeerOk(cp)
    case Storing(cp) => PeerOk(cp)
    case Exhausting(_, err) => IsRetryable(err) && cfg.maxRetryAttempts != 0
    case Looking(_, err) => IsRetryable(err) && cfg.maxRetryAttempts != 0
    case Scheduling(p, cp, enr, err) =>
      IsRetryable(err) && cfg.maxRetryAttempts != 0 && DeriveDetails(enr) == Some(cp) && cp.id == p
    case Emitting(_, err, reason) =>
      match reason {
        case NotRetryable => !IsRetryable(err)
        case RetriesDisabled => IsRetryable(err) && cfg.maxRetryAttempts == 0
        case Underivable => false
        case _ => IsRetryable(err) && cfg.maxRetryAttempts != 0
      }
    case _ => true
  }

  ghost predicate SharedOk(cfg: Config, sh: Shared) {
    && (forall p <- sh.tracker :: InfoOk(cfg, p, sh.tracker[p]))
    && (forall p <- sh.enrs :: DeriveDetails(sh.enrs[p]) == Some(ConnectablePeer(p, sh.enrs[p])))
    && (forall info <- sh.retryQueue :: InfoOk(cfg, info.peer.id, info))
    && (forall cp <- sh.dialQueue :: PeerOk(cp))
    && |sh.dialQueue| <= DIAL_QUEUE_CAPACITY
    && |sh.retryQueue| <= RETRY_QUEUE_CAPACITY
  }

  ghost predicate StateOk(cfg: Config, s: State) {
    && SharedOk(cfg, s.sh)
    && (forall i :: 0 <= i < |s.tasks| ==> TaskOk(cfg, s.tasks[i]))
    && (s.waiting.Some? ==> InfoOk(cfg, s.waiting.value.peer.id, s.waiting.value))
  }

  lemma ScheduleKeepsOk(cfg: Config, sh: Shared, p: PeerID, cp: ConnectablePeer, enr: Node, err: CrawlError)
    requires SharedOk(cfg, sh) && DeriveDetails(enr) == Some(cp) && cp.id == p
    ensures SharedOk(cfg, ScheduleRetry(cfg, sh, p, cp, enr, err))
  {
    var info := if p in sh.tracker then sh.tracker[p] else RetryInfo(cp, enr, 0, cfg.retryBackoff);
    var attempt := info.attempts + 1;
    var next := info.(attempts := attempt, backoffDelay := cfg.retryBackoff * attempt);
    if info.attempts < cfg.maxRetryAttempts {
      assert InfoOk(cfg, p, next);
    }
  }

  lemma SectionKeepsOk(cfg: Config, sh: Shared, task: Task, answer: Answer)
    requires SharedOk(cfg, sh) && TaskOk(cfg, task)
    ensures var (sh', task') := Section(cfg, sh, task, answer); SharedOk(cfg, sh') && TaskOk(cfg, task')
  {
    if task.Scheduling? {
      ScheduleKeepsOk(cfg, sh, task.p, task.peer, task.enr, task.err);
    } else {
      assert Section(cfg, sh, task, answer).0.retryQueue == sh.retryQueue;
    }
  }

  lemma StepKeepsOk(cfg: Config, s: State, step: Step)
    requires StateOk(cfg, s)
    ensures StateOk(cfg, Next(cfg, s, step))
  {
    if step.Advance? && step.i < |s.tasks| {
      SectionKeepsOk(cfg, s.sh, s.tasks[step.i], step.answer);
    }
  }

  /**
   * In every reachable state each tracker entry and each queued or waiting retry carries between
   * 1 and Max attempts and a delay proportional to them, belongs to the peer it is filed under,
   * and every stored ENR yields exactly that peer.
   */
  lemma {:induction false} ReachableOk(cfg: Config, steps: seq<Step>)
    ensures StateOk(cfg, Run(cfg, steps))
  {
    if steps != [] {
      ReachableOk(cfg, steps[..|steps| - 1]);
      StepKeepsOk(cfg, Run(cfg, steps[..|steps| - 1]), steps[|steps| - 1]);
    }
  }
}
