/**
 The background task manager on an event loop.  Tasks finish, time out and are cancelled at any
 moment; a finished task's callbacks are queued and run one by one, first in, first out; a shutdown
 cancels everything, then waits for what is tracked and still runs, in several steps between which
 anything else may happen.
 */
module TaskManager {
  import opened Prelude

  type Task = nat

  datatype Outcome = Completed | Cancelled | Failed

  datatype Status = Running | Done(outcome: Outcome)

  datatype Metadata = Metadata(name: string, timeout: Option<real>)

  /** The manager's own callback on a task, and the one of the shutdown that waits for it. */
  datatype Callback = ManagerCallback(task: Task) | WaiterCallback(task: Task)

  /**
   Where the shutdown stands.  Of the tasks it gathered, `early` had already finished and `awaited` had
   not; `waitingFor` is what is still missing of the latter; `timedOut` says that the wait was cancelled,
   which cancels the awaited tasks but still waits for them to end.
   */
  datatype Phase =
    | Open
    | Cancelling
    | Waiting(early: set<Task>, awaited: set<Task>, waitingFor: set<Task>, timedOut: bool)
    | Reported(completed: bool, remaining: nat)

  datatype Metrics = Metrics(created: nat, completed: nat, cancelled: nat, failed: nat, timedOut: nat)

  /**
   The event loop's side (`status`, `queue`, `timers`, `cancelRequested`), the manager's own fields, and
   the tasks created after the shutdown began.
   */
  datatype State = State(
    status: map<Task, Status>, queue: seq<Callback>, timers: set<Task>, cancelRequested: set<Task>,
    tasks: set<Task>, metadata: map<Task, Metadata>, metrics: Metrics, phase: Phase, late: set<Task>)

  datatype Step =
    | Create(task: Task, meta: Metadata)
    | Finish(task: Task, outcome: Outcome)
    | RunCallback
    | Timeout(task: Task)
    | CancelAll
    | BeginShutdown
    | Gather
    | WaitTimesOut
    | ReportCompleted
    | ReportTimeout
    | ShutdownAgain

  const Fresh := State(map[], [], {}, {}, {}, map[], Metrics(0, 0, 0, 0, 0), Open, {})

  predicate IsRunning(s: State, t: Task) {
    t in s.status && s.status[t] == Running
  }

  predicate IsDone(s: State, t: Task) {
    t in s.status && s.status[t].Done?
  }

  /** The tracked tasks that have not finished. */
  function RunningTasks(s: State): set<Task> {
    set t | t in s.tasks && IsRunning(s, t)
  }

  /** An absent or zero timeout sets no timer. */
  predicate HasTimer(meta: Metadata) {
    meta.timeout.Some? && meta.timeout.value != 0.0
  }

  predicate Enabled(s: State, step: Step) {
    match step
    case Create(t, _) => t !in s.status
    case Finish(t, _) => IsRunning(s, t)
    case RunCallback => s.queue != []
    case Timeout(t) => t in s.timers
    case CancelAll => true
    case BeginShutdown => s.phase == Open
    case Gather => s.phase == Cancelling
    case WaitTimesOut => s.phase.Waiting? && !s.phase.timedOut
    case ReportCompleted => s.phase.Waiting? && s.phase.waitingFor == {} && !s.phase.timedOut
    case ReportTimeout => s.phase.Waiting? && s.phase.waitingFor == {} && s.phase.timedOut
    case ShutdownAgain => s.phase.Reported?
  }

  function Count(m: Metrics, o: Outcome): Metrics {
    match o
    case Completed => m.(completed := m.completed + 1)
    case Cancelled => m.(cancelled := m.cancelled + 1)
    case Failed => m.(failed := m.failed + 1)
  }

  /** The callback of a finished task. */
  function HandleDone(s: State, t: Task): State {
    s.(tasks := s.tasks - {t}, metadata := s.metadata - {t},
       metrics := if IsDone(s, t) then Count(s.metrics, s.status[t].outcome) else s.metrics)
  }

  function RequestCancels(s: State): State {
    s.(cancelRequested := s.cancelRequested + RunningTasks(s))
  }

  /**
   A shutdown that finds nothing tracked neither sleeps nor waits, and one that finds nothing running when
   it gathers does not wait: both report in the same stretch of code.
   */
  function Next(s: State, step: Step): State
    requires Enabled(s, step)
  {
    match step
    case Create(t, meta) =>
      s.(status := s.status[t := Running], tasks := s.tasks + {t}, metadata := s.metadata[t := meta],
         metrics := s.metrics.(created := s.metrics.created + 1),
         timers := if HasTimer(meta) then s.timers + {t} else s.timers,
         late := if s.phase.Open? then s.late else s.late + {t})
    case Finish(t, o) =>
      s.(status := s.status[t := Done(o)],
         queue := s.queue + [ManagerCallback(t)]
                  + if s.phase.Waiting? && t in s.phase.awaited then [WaiterCallback(t)] else [])
    case RunCallback =>
      var rest := s.(queue := s.queue[1..]);
      (match s.queue[0]
       case ManagerCallback(t) => HandleDone(rest, t)
       case WaiterCallback(t) =>
         if s.phase.Waiting? then rest.(phase := s.phase.(waitingFor := s.phase.waitingFor - {t})) else rest)
    case Timeout(t) =>
      var fired := s.(timers := s.timers - {t});
      if IsRunning(s, t) then
        fired.(cancelRequested := s.cancelRequested + {t},
               metrics := s.metrics.(timedOut := s.metrics.timedOut + 1))
      else fired
    case CancelAll => RequestCancels(s)
    case BeginShutdown =>
      if s.tasks == {} then s.(phase := Reported(true, 0)) else RequestCancels(s).(phase := Cancelling)
    case Gather =>
      var running := RunningTasks(s);
      s.(phase := if running == {} then Reported(true, |s.tasks|)
                  else Waiting(s.tasks - running, running, running, false))
    case WaitTimesOut =>
      s.(cancelRequested := s.cancelRequested + (set t | t in s.phase.awaited && IsRunning(s, t)),
         phase := s.phase.(timedOut := true))
    case ReportCompleted => s.(phase := Reported(true, |s.tasks|))
    case ReportTimeout => RequestCancels(s).(phase := Reported(false, |s.tasks|))
    case ShutdownAgain => s
  }

  // ----- The invariant -----

  /** The registries agree, and no created task is unaccounted for. */
  ghost predicate Books(s: State) {
    && s.tasks == s.metadata.Keys
    && s.tasks <= s.status.Keys && s.timers <= s.status.Keys
    && (forall t :: IsRunning(s, t) ==> t in s.tasks)
    && s.metrics.created == s.metrics.completed + s.metrics.cancelled + s.metrics.failed + |s.tasks|
    && s.metrics.timedOut + |s.timers| <= s.metrics.created
  }

  /** The tasks that ended in a given way and whose callback has run. */
  ghost function Handled(s: State, o: Outcome): set<Task> {
    set t | t in s.status && t !in s.tasks && s.status[t] == Done(o)
  }

  function Counter(m: Metrics, o: Outcome): nat {
    match o
    case Completed => m.completed
    case Cancelled => m.cancelled
    case Failed => m.failed
  }

  /** Each outcome's counter counts exactly the tasks that ended that way. */
  ghost predicate CountsExact(s: State) {
    forall o :: Counter(s.metrics, o) == |Handled(s, o)|
  }

  /** A tracked task that has finished has its callback queued, once, and only such tasks do. */
  ghost predicate CallbacksPending(s: State) {
    && (forall t :: t in s.tasks && IsDone(s, t) ==> ManagerCallback(t) in s.queue)
    && (forall i :: 0 <= i < |s.queue| && s.queue[i].ManagerCallback? ==>
          s.queue[i].task in s.tasks && IsDone(s, s.queue[i].task))
    && (forall i, j :: 0 <= i < j < |s.queue| && s.queue[i].ManagerCallback? ==> s.queue[i] != s.queue[j])
  }

  /**
   The shutdown hears of a task only after the manager has dropped it, and of its first one only after
   the manager has dropped every task that finished early.
   */
  ghost predicate WaitersFollow(s: State) {
    && (forall i :: 0 <= i < |s.queue| && s.queue[i].WaiterCallback? ==>
          IsDone(s, s.queue[i].task) && !s.phase.Open? && !s.phase.Cancelling?)
    && (forall i, j :: 0 <= i < j < |s.queue| && s.queue[i].WaiterCallback? && s.queue[j].ManagerCallback? ==>
          s.queue[j].task != s.queue[i].task && (s.phase.Waiting? ==> s.queue[j].task !in s.phase.early))
  }

  /**
   While a shutdown waits, each tracked task is late, still waited for, or finished early, and then no
   awaited task has been heard of yet.
   */
  ghost predicate ShutdownCovers(s: State) {
    s.phase.Waiting? ==>
      && s.phase.awaited != {} && s.phase.awaited <= s.status.Keys
      && (forall t :: t in s.phase.early ==> IsDone(s, t))
      && (forall t :: t in s.tasks ==>
            || t in s.late
            || t in s.phase.waitingFor
            || (t in s.phase.early && s.phase.waitingFor == s.phase.awaited))
  }

  ghost predicate CancelledOrLate(s: State) {
    !s.phase.Open? ==> forall t :: t in s.tasks && IsRunning(s, t) ==> t in s.late || t in s.cancelRequested
  }

  ghost predicate Inv(s: State) {
    Books(s) && CallbacksPending(s) && WaitersFollow(s) && ShutdownCovers(s) && CancelledOrLate(s)
  }

  /** Dropping a task counts it under its own outcome and no other. */
  lemma DroppingCountsOne(s: State, t: Task, o: Outcome)
    requires t in s.tasks && IsDone(s, t)
    ensures |Handled(HandleDone(s, t), o)| == |Handled(s, o)| + if s.status[t] == Done(o) then 1 else 0
  {
    if s.status[t] == Done(o) {
      assert Handled(HandleDone(s, t), o) == Handled(s, o) + {t};
    } else {
      assert Handled(HandleDone(s, t), o) == Handled(s, o);
    }
  }

  lemma DroppingCounts(s: State, t: Task)
    requires CountsExact(s) && t in s.tasks && IsDone(s, t)
    ensures CountsExact(HandleDone(s, t))
  {
    hide Handled;
    forall o
      ensures Counter(HandleDone(s, t).metrics, o) == |Handled(HandleDone(s, t), o)|
    {
      DroppingCountsOne(s, t, o);
    }
  }

  lemma SameHandledCounts(s: State, s': State)
    requires CountsExact(s)
    requires forall o :: Handled(s', o) == Handled(s, o) && Counter(s'.metrics, o) == Counter(s.metrics, o)
    ensures CountsExact(s')
  {
  }

  /** A new task, or the end of a tracked one, is not yet anybody's count. */
  lemma TrackedChangesNoCount(s: State, s': State, t: Task)
    requires CountsExact(s) && (t in s.tasks || t !in s.status) && s'.tasks == s.tasks + {t}
    requires t in s'.status && s'.status == s.status[t := s'.status[t]]
    requires forall o :: Counter(s'.metrics, o) == Counter(s.metrics, o)
    ensures CountsExact(s')
  {
    forall o
      ensures Handled(s', o) == Handled(s, o)
    {
    }
    SameHandledCounts(s, s');
  }

  lemma UntouchedCounts(s: State, s': State)
    requires CountsExact(s) && s'.tasks == s.tasks && s'.status == s.status
    requires forall o :: Counter(s'.metrics, o) == Counter(s.metrics, o)
    ensures CountsExact(s')
  {
    assert forall o :: Handled(s', o) == Handled(s, o);
  }

  lemma StepKeepsCounts(s: State, step: Step)
    requires Inv(s) && CountsExact(s) && Enabled(s, step)
    ensures CountsExact(Next(s, step))
  {
    assert step.Finish? ==> step.task in s.tasks;
    assert step.RunCallback? && s.queue[0].ManagerCallback? ==>
        s.queue[0].task in s.tasks && IsDone(s, s.queue[0].task);
    hide CallbacksPending, WaitersFollow, ShutdownCovers, CountsExact, Books, Inv, Handled;
    var s' := Next(s, step);
    if step.RunCallback? && s.queue[0].ManagerCallback? {
      var rest := s.(queue := s.queue[1..]);
      UntouchedCounts(s, rest);
      DroppingCounts(rest, s.queue[0].task);
    } else if step.Create? || step.Finish? {
      assert step.Finish? ==> s.tasks + {step.task} == s.tasks;
      TrackedChangesNoCount(s, s', step.task);
    } else {
      UntouchedCounts(s, s');
    }
  }

  /** The phases agree but for what is still waited for. */
  ghost predicate SamePhase(s: State, s': State) {
    if s.phase.Waiting? then s'.phase.Waiting? && s'.phase.early == s.phase.early else s'.phase == s.phase
  }

  lemma CreateKeepsQueueFacts(s: State, s': State, t: Task)
    requires CallbacksPending(s) && WaitersFollow(s) && t !in s.status && s.tasks <= s.status.Keys
    requires s'.queue == s.queue && s'.status == s.status[t := Running] && s'.tasks == s.tasks + {t}
    requires s'.phase == s.phase
    ensures CallbacksPending(s') && WaitersFollow(s')
  {
  }

  lemma CreateKeepsBooks(s: State, t: Task, meta: Metadata)
    requires Books(s) && Enabled(s, Create(t, meta))
    ensures Books(Next(s, Create(t, meta)))
  {
  }

  lemma CreateKeepsCovers(s: State, t: Task, meta: Metadata)
    requires ShutdownCovers(s) && CancelledOrLate(s) && Enabled(s, Create(t, meta))
    ensures ShutdownCovers(Next(s, Create(t, meta))) && CancelledOrLate(Next(s, Create(t, meta)))
  {
  }

  lemma CreateKeepsInv(s: State, t: Task, meta: Metadata)
    requires Inv(s) && Enabled(s, Create(t, meta))
    ensures Inv(Next(s, Create(t, meta)))
  {
    assert s.tasks <= s.status.Keys;
    hide CallbacksPending, WaitersFollow, Books, ShutdownCovers, CancelledOrLate;
    CreateKeepsBooks(s, t, meta);
    CreateKeepsQueueFacts(s, Next(s, Create(t, meta)), t);
    CreateKeepsCovers(s, t, meta);
  }

  lemma FinishKeepsCallbacks(s: State, t: Task, o: Outcome)
    requires Books(s) && CallbacksPending(s) && Enabled(s, Finish(t, o))
    ensures CallbacksPending(Next(s, Finish(t, o)))
  {
    hide Books;
    var s' := Next(s, Finish(t, o));
    assert ManagerCallback(t) !in s.queue;
    assert s'.queue[|s.queue|] == ManagerCallback(t);
    assert t in s.tasks by {
      TrackedIfRunning(s, t);
    }
    forall u | u in s'.tasks && IsDone(s', u)
      ensures ManagerCallback(u) in s'.queue
    {
      assert u != t ==> ManagerCallback(u) in s.queue;
    }
  }

  lemma TrackedIfRunning(s: State, t: Task)
    requires Books(s) && IsRunning(s, t)
    ensures t in s.tasks
  {
  }

  lemma FinishKeepsWaiters(s: State, t: Task, o: Outcome)
    requires WaitersFollow(s) && ShutdownCovers(s) && Enabled(s, Finish(t, o))
    ensures WaitersFollow(Next(s, Finish(t, o)))
  {
  }

  lemma FinishKeepsBooks(s: State, t: Task, o: Outcome)
    requires Books(s) && Enabled(s, Finish(t, o))
    ensures Books(Next(s, Finish(t, o)))
  {
  }

  lemma FinishKeepsCovers(s: State, t: Task, o: Outcome)
    requires ShutdownCovers(s) && CancelledOrLate(s) && Enabled(s, Finish(t, o))
    ensures ShutdownCovers(Next(s, Finish(t, o))) && CancelledOrLate(Next(s, Finish(t, o)))
  {
  }

  lemma FinishKeepsInv(s: State, t: Task, o: Outcome)
    requires Inv(s) && Enabled(s, Finish(t, o))
    ensures Inv(Next(s, Finish(t, o)))
  {
    hide CallbacksPending, WaitersFollow, Books, ShutdownCovers, CancelledOrLate, Next;
    FinishKeepsBooks(s, t, o);
    FinishKeepsCallbacks(s, t, o);
    FinishKeepsWaiters(s, t, o);
    FinishKeepsCovers(s, t, o);
  }

  /** Taking the front callback off the queue, and its task off the books if it is the manager's. */
  lemma PopKeepsQueueFacts(s: State, s': State)
    requires CallbacksPending(s) && WaitersFollow(s) && s.queue != []
    requires s'.queue == s.queue[1..] && s'.status == s.status
    requires s'.tasks == if s.queue[0].ManagerCallback? then s.tasks - {s.queue[0].task} else s.tasks
    requires SamePhase(s, s')
    ensures CallbacksPending(s') && WaitersFollow(s')
  {
    forall u | u in s'.tasks && IsDone(s', u)
      ensures ManagerCallback(u) in s'.queue
    {
      assert ManagerCallback(u) in s.queue && s.queue[0] != ManagerCallback(u);
    }
  }

  lemma DroppingKeepsBooks(s: State, t: Task)
    requires Books(s) && t in s.tasks && IsDone(s, t)
    ensures Books(HandleDone(s, t))
  {
  }

  lemma ManagerCallbackKeepsInv(s: State, t: Task)
    requires Inv(s) && s.queue != [] && s.queue[0] == ManagerCallback(t)
    ensures Inv(Next(s, RunCallback))
  {
    var s' := Next(s, RunCallback);
    PopKeepsQueueFacts(s, s');
    assert t in s.tasks && IsDone(s, t);
    DroppingKeepsBooks(s.(queue := s.queue[1..]), t);
    hide CallbacksPending, WaitersFollow, Books;
    assert ShutdownCovers(s');
  }

  lemma FirstWaiterFollows(s: State, t: Task)
    requires CallbacksPending(s) && WaitersFollow(s) && s.queue != [] && s.queue[0] == WaiterCallback(t)
    ensures t !in s.tasks
    ensures s.phase.Waiting? ==> forall u :: u in s.tasks && IsDone(s, u) ==> u !in s.phase.early
  {
    assert forall j :: 0 <= j < |s.queue| ==> s.queue[j] != ManagerCallback(t);
    assert IsDone(s, t) && ManagerCallback(t) !in s.queue;
    if s.phase.Waiting? {
      forall u | u in s.tasks && IsDone(s, u)
        ensures u !in s.phase.early
      {
        assert ManagerCallback(u) in s.queue && s.queue[0] != ManagerCallback(u);
      }
    }
  }

  lemma SameBooks(s: State, s': State)
    requires Books(s) && s'.tasks == s.tasks && s'.status == s.status && s'.metadata == s.metadata
    requires s'.timers == s.timers && s'.metrics == s.metrics
    ensures Books(s')
  {
  }

  lemma WaiterKeepsCovers(s: State, s': State, t: Task)
    requires ShutdownCovers(s) && CancelledOrLate(s) && t !in s.tasks
    requires s.phase.Waiting? ==> forall u :: u in s.tasks && IsDone(s, u) ==> u !in s.phase.early
    requires s' == s.(queue := s'.queue,
                      phase := if s.phase.Waiting? then s.phase.(waitingFor := s.phase.waitingFor - {t}) else s.phase)
    ensures ShutdownCovers(s') && CancelledOrLate(s')
  {
  }

  lemma WaiterCallbackKeepsInv(s: State, t: Task)
    requires Inv(s) && s.queue != [] && s.queue[0] == WaiterCallback(t)
    ensures Inv(Next(s, RunCallback))
  {
    var s' := Next(s, RunCallback);
    hide CallbacksPending, WaitersFollow, Books, ShutdownCovers, CancelledOrLate;
    PopKeepsQueueFacts(s, s');
    FirstWaiterFollows(s, t);
    SameBooks(s, s');
    WaiterKeepsCovers(s, s', t);
  }

  lemma GatherKeepsInv(s: State)
    requires Inv(s) && Enabled(s, Gather)
    ensures Inv(Next(s, Gather))
  {
    var s' := Next(s, Gather);
    SameQueue(s, s');
    assert RunningTasks(s') == RunningTasks(s);
    forall t | t in s.tasks - RunningTasks(s)
      ensures IsDone(s, t)
    {
      assert !IsRunning(s, t);
    }
    assert Books(s');
    hide CallbacksPending, WaitersFollow, Books;
    assert ShutdownCovers(s');
  }

  lemma TimeoutKeepsInv(s: State, t: Task)
    requires Inv(s) && Enabled(s, Timeout(t))
    ensures Inv(Next(s, Timeout(t)))
  {
    hide CallbacksPending, WaitersFollow;
    SameQueue(s, Next(s, Timeout(t)));
  }

  lemma OtherStepsKeepInv(s: State, step: Step)
    requires Inv(s) && Enabled(s, step)
    requires !step.Create? && !step.Finish? && !step.RunCallback? && !step.Gather? && !step.Timeout?
    ensures Inv(Next(s, step))
  {
    hide CallbacksPending, WaitersFollow;
    SameQueue(s, Next(s, step));
    match step
    case CancelAll =>
    case BeginShutdown =>
    case WaitTimesOut =>
    case ReportCompleted =>
    case ReportTimeout =>
    case ShutdownAgain =>
  }

  lemma SameQueue(s: State, s': State)
    requires CallbacksPending(s) && WaitersFollow(s)
    requires s'.queue == s.queue && s'.status == s.status && s'.tasks == s.tasks
    requires SamePhase(s, s') || s.phase.Open? || s.phase.Cancelling? || s'.phase.Reported?
    ensures CallbacksPending(s') && WaitersFollow(s')
  {
  }

  lemma StepKeepsInv(s: State, step: Step)
    requires Inv(s) && Enabled(s, step)
    ensures Inv(Next(s, step))
  {
    hide Inv, Next;
    match step
    case Create(t, meta) => CreateKeepsInv(s, t, meta);
    case Finish(t, o) => FinishKeepsInv(s, t, o);
    case RunCallback =>
      if s.queue[0].ManagerCallback? {
        ManagerCallbackKeepsInv(s, s.queue[0].task);
      } else {
        WaiterCallbackKeepsInv(s, s.queue[0].task);
      }
    case Gather => GatherKeepsInv(s);
    case Timeout(t) => TimeoutKeepsInv(s, t);
    case _ => OtherStepsKeepInv(s, step);
  }

  // ----- Runs -----

  /** A run lists the states it passes through. */
  ghost predicate IsRun(states: seq<State>, steps: seq<Step>) {
    && |states| == |steps| + 1 && states[0] == Fresh
    && forall i :: 0 <= i < |steps| ==> Enabled(states[i], steps[i]) && states[i + 1] == Next(states[i], steps[i])
  }

  lemma {:induction false} Reachable(states: seq<State>, steps: seq<Step>, n: nat)
    requires IsRun(states, steps) && n < |states|
    ensures Inv(states[n]) && CountsExact(states[n])
    decreases n
  {
    hide Inv, Next, Enabled, CountsExact;
    if n == 0 {
      FreshInv();
    } else {
      Reachable(states, steps, n - 1);
      StepKeepsInv(states[n - 1], steps[n - 1]);
      StepKeepsCounts(states[n - 1], steps[n - 1]);
    }
  }

  lemma FreshInv()
    ensures Inv(Fresh) && CountsExact(Fresh)
  {
    assert forall o :: Handled(Fresh, o) == {};
  }

  // ----- Main results -----

  /**
   In every interleaving the two registries agree, every task ever created is completed, cancelled,
   failed or still tracked, and each counter counts the tasks that ended its way.
   */
  lemma Bookkeeping(states: seq<State>, steps: seq<Step>, n: nat)
    requires IsRun(states, steps) && n < |states|
    ensures var s := states[n];
            && s.tasks == s.metadata.Keys
            && s.metrics.created == s.metrics.completed + s.metrics.cancelled + s.metrics.failed + |s.tasks|
            && (forall o :: Counter(s.metrics, o) == |Handled(s, o)|)
            && s.metrics.timedOut <= s.metrics.created
  {
    Reachable(states, steps, n);
  }

  /** Once nothing runs and no callback is left, nothing is tracked: the manager keeps no finished task. */
  lemma NothingLeaks(states: seq<State>, steps: seq<Step>, n: nat)
    requires IsRun(states, steps) && n < |states|
    requires states[n].queue == [] && forall t :: !IsRunning(states[n], t)
    ensures states[n].tasks == {}
  {
    var s := states[n];
    Reachable(states, steps, n);
    forall t | t in s.tasks
      ensures IsDone(s, t)
    {
      assert !IsRunning(s, t);
    }
    assert forall t :: t in s.tasks ==> ManagerCallback(t) in s.queue;
  }

  /** The step that makes the shutdown report, completion or a timeout. */
  ghost predicate ReportsAt(states: seq<State>, steps: seq<Step>, n: nat)
    requires IsRun(states, steps) && n < |steps|
  {
    !states[n].phase.Reported? && states[n + 1].phase.Reported?
  }

  lemma WaitedForLeavesOnlyLate(s: State)
    requires Inv(s) && s.phase.Waiting? && s.phase.waitingFor == {}
    ensures s.tasks <= s.late
  {
  }

  lemma FinishedHaveCallbacks(s: State)
    requires Inv(s) && RunningTasks(s) == {}
    ensures forall t :: t in s.tasks ==> IsDone(s, t) && ManagerCallback(t) in s.queue
  {
    hide WaitersFollow, ShutdownCovers, CancelledOrLate;
    forall t | t in s.tasks
      ensures IsDone(s, t)
    {
      assert t !in RunningTasks(s);
    }
  }

  /** Four steps report; each leaves the registry and the queue alone and says how many tasks are tracked. */
  lemma ReportingStep(s: State, step: Step)
    requires Enabled(s, step) && !s.phase.Reported? && Next(s, step).phase.Reported?
    ensures var s' := Next(s, step);
            && s'.tasks == s.tasks && s'.late == s.late && s'.queue == s.queue && s'.status == s.status
            && s'.phase.remaining == |s.tasks|
    ensures || step == ReportCompleted || (step == ReportTimeout && !Next(s, step).phase.completed)
            || (step == BeginShutdown && s.tasks == {}) || (step == Gather && RunningTasks(s) == {})
    ensures step != ReportTimeout ==> Next(s, step).phase.completed
    ensures step == ReportCompleted || step == ReportTimeout ==> s.phase.Waiting? && s.phase.waitingFor == {}
  {
    hide RunningTasks;
  }

  /**
   What a shutdown still tracks as it reports was created after it began, or has finished and has its
   callback queued; after a timeout only the former.
   */
  lemma ShutdownLeaves(states: seq<State>, steps: seq<Step>, n: nat)
    requires IsRun(states, steps) && n < |steps| && ReportsAt(states, steps, n)
    ensures var s := states[n + 1];
            && s.phase.remaining == |s.tasks|
            && (!s.phase.completed ==> s.tasks <= s.late)
            && (steps[n] == BeginShutdown ==> s.tasks == {})
            && forall t :: t in s.tasks ==> t in s.late || (IsDone(s, t) && ManagerCallback(t) in s.queue)
  {
    var s, step := states[n], steps[n];
    assert Enabled(s, step) && states[n + 1] == Next(s, step);
    Reachable(states, steps, n);
    ReportingStep(s, step);
    hide Next, Enabled, Inv;
    if step == ReportCompleted || step == ReportTimeout {
      WaitedForLeavesOnlyLate(s);
    } else if step == Gather {
      FinishedHaveCallbacks(s);
    }
  }

  function Rank(p: Phase): nat {
    match p
    case Open => 0
    case Cancelling => 1
    case Waiting(_, _, _, _) => 2
    case Reported(_, _) => 3
  }

  lemma PhaseAdvances(s: State, step: Step)
    requires Enabled(s, step)
    ensures Rank(s.phase) <= Rank(Next(s, step).phase)
    ensures s.phase.Reported? ==> Next(s, step).phase == s.phase
  {
    hide RunningTasks, HasTimer, Count;
  }

  /** A shutdown never goes back. */
  lemma {:induction false} PhasesAdvance(states: seq<State>, steps: seq<Step>, n: nat, m: nat)
    requires IsRun(states, steps) && n <= m < |states|
    ensures Rank(states[n].phase) <= Rank(states[m].phase)
    ensures states[n].phase.Reported? ==> states[m].phase == states[n].phase
    decreases m
  {
    hide Next, Enabled;
    if n < m {
      PhasesAdvance(states, steps, n, m - 1);
      PhaseAdvances(states[m - 1], steps[m - 1]);
    }
  }

  /**
   A shutdown that has reported leaves only late tasks exactly when, as it gathered, some tracked task still ran
   or all that was tracked was late: with nothing left to wait for it does not let the finished tasks'
   callbacks run.
   */
  lemma ShutdownLeavesOnlyLateIff(states: seq<State>, steps: seq<Step>, g: nat, n: nat)
    requires IsRun(states, steps) && g <= n < |steps| && steps[g] == Gather && ReportsAt(states, steps, n)
    ensures states[n + 1].tasks <= states[n + 1].late
            <==> RunningTasks(states[g]) != {} || states[g].tasks <= states[g].late
  {
    assert states[g + 1] == Next(states[g], Gather) && Enabled(states[g], Gather);
    assert states[n + 1] == Next(states[n], steps[n]) && Enabled(states[n], steps[n]);
    if g < n {
      Reachable(states, steps, n);
      PhasesAdvance(states, steps, g + 1, n);
      WaitedForLeavesOnlyLate(states[n]);
    }
  }

  ghost predicate CreatesAfterBegin(steps: seq<Step>, n: nat)
    requires n <= |steps|
  {
    exists i, j :: 0 <= i < j < n && steps[i] == BeginShutdown && steps[j].Create?
  }

  /** Only a task created after the shutdown began is late. */
  lemma {:induction false} LateMeansLate(states: seq<State>, steps: seq<Step>, n: nat)
    requires IsRun(states, steps) && n <= |steps| && !CreatesAfterBegin(steps, n)
    ensures states[n].late == {}
    ensures states[n].phase.Open? || exists i :: 0 <= i < n && steps[i] == BeginShutdown
    decreases n
  {
    if n > 0 {
      LateMeansLate(states, steps, n - 1);
      assert states[n] == Next(states[n - 1], steps[n - 1]);
      if !states[n - 1].phase.Open? {
        var i :| 0 <= i < n - 1 && steps[i] == BeginShutdown;
        assert !steps[n - 1].Create?;
      } else if steps[n - 1] == BeginShutdown {
      }
    }
  }

  /** If no task was created after it began: nothing is left exactly if nothing was tracked or something still ran. */
  lemma ShutdownLeavesNothingIff(states: seq<State>, steps: seq<Step>, g: nat, n: nat)
    requires IsRun(states, steps) && g <= n < |steps| && steps[g] == Gather && ReportsAt(states, steps, n)
    requires !CreatesAfterBegin(steps, n + 1)
    ensures states[n + 1].tasks == {} <==> RunningTasks(states[g]) != {} || states[g].tasks == {}
    ensures states[n + 1].tasks == {} <==> states[n + 1].phase.remaining == 0
  {
    LateMeansLate(states, steps, g);
    LateMeansLate(states, steps, n + 1);
    ShutdownLeavesOnlyLateIff(states, steps, g, n);
    ShutdownLeaves(states, steps, n);
  }

  /** The task ends in the loop turn in which the shutdown wakes: its callback has not run when the count is taken. */
  lemma FinishedTaskIsLeft(t: Task, meta: Metadata) returns (states: seq<State>, steps: seq<Step>)
    ensures IsRun(states, steps) && !CreatesAfterBegin(steps, |steps|)
    ensures var s := states[|steps|];
            s.phase == Reported(true, 1) && s.tasks == {t} && s.late == {} && s.queue == [ManagerCallback(t)]
  {
    steps := [Create(t, meta), BeginShutdown, Finish(t, Cancelled), Gather];
    var s1 := Next(Fresh, steps[0]);
    var s2 := Next(s1, steps[1]);
    var s3 := Next(s2, steps[2]);
    assert RunningTasks(s3) == {};
    states := [Fresh, s1, s2, s3, Next(s3, steps[3])];
  }

  /** From the moment a shutdown begins, whatever still runs was asked to stop or came later. */
  lemma ShutdownCancelsEverything(states: seq<State>, steps: seq<Step>, n: nat, t: Task)
    requires IsRun(states, steps) && n < |states| && !states[n].phase.Open?
    requires IsRunning(states[n], t) && t !in states[n].late
    ensures t in states[n].cancelRequested
  {
    Reachable(states, steps, n);
    assert t in RunningTasks(states[n]);
  }

  /** Once a shutdown has reported, its report stands for good and later shutdowns change nothing at all. */
  lemma LaterShutdownsChangeNothing(states: seq<State>, steps: seq<Step>, n: nat, m: nat)
    requires IsRun(states, steps) && n <= m < |steps| && states[n].phase.Reported?
    ensures states[m + 1].phase == states[n].phase
    ensures steps[m] == ShutdownAgain ==> states[m + 1] == states[m]
    ensures steps[m] != BeginShutdown && steps[m] != Gather
  {
    PhasesAdvance(states, steps, n, m);
    PhasesAdvance(states, steps, n, m + 1);
    assert Enabled(states[m], steps[m]) && states[m + 1] == Next(states[m], steps[m]);
  }

  // ----- The report -----

  /** Whether the wait of the shutdown timed out before step `n`. */
  ghost predicate WaitTimedOut(steps: seq<Step>, n: nat)
    requires n <= |steps|
  {
    exists k :: 0 <= k < n && steps[k] == WaitTimesOut
  }

  lemma PhaseOutcome(s: State, step: Step)
    requires Enabled(s, step)
    ensures step == WaitTimesOut ==> s.phase.Waiting? && Next(s, step).phase == s.phase.(timedOut := true)
    ensures step != WaitTimesOut && s.phase.Waiting? ==>
              || (Next(s, step).phase.Waiting? && Next(s, step).phase.timedOut == s.phase.timedOut)
              || (Next(s, step).phase.Reported? && Next(s, step).phase.completed == !s.phase.timedOut)
    ensures step != WaitTimesOut && Rank(s.phase) < 2 ==>
              match Next(s, step).phase
              case Waiting(_, _, _, timedOut) => !timedOut
              case Reported(completed, _) => completed
              case _ => true
    ensures s.phase.Reported? ==> Next(s, step).phase == s.phase
  {
  }

  /** The shutdown is known to have timed out exactly if the timeout of its wait struck. */
  lemma {:induction false} WaitOutcome(states: seq<State>, steps: seq<Step>, n: nat)
    requires IsRun(states, steps) && n <= |steps|
    ensures match states[n].phase
            case Waiting(_, _, _, timedOut) => timedOut <==> WaitTimedOut(steps, n)
            case Reported(completed, _) => !completed <==> WaitTimedOut(steps, n)
            case _ => !WaitTimedOut(steps, n)
    decreases n
  {
    hide Next, Enabled;
    if n > 0 {
      WaitOutcome(states, steps, n - 1);
      PhaseOutcome(states[n - 1], steps[n - 1]);
      PhaseAdvances(states[n - 1], steps[n - 1]);
      assert WaitTimedOut(steps, n) <==> WaitTimedOut(steps, n - 1) || steps[n - 1] == WaitTimesOut;
    }
  }

  /**
   A shutdown reports exactly when it finds nothing tracked as it begins or nothing running as it gathers,
   or when all it waited for has ended; it reports a timeout exactly if the wait timed out.
   */
  lemma ReportsIff(states: seq<State>, steps: seq<Step>, n: nat)
    requires IsRun(states, steps) && n < |steps|
    ensures ReportsAt(states, steps, n) <==>
            || (steps[n] == BeginShutdown && states[n].tasks == {})
            || (steps[n] == Gather && forall t :: t in states[n].tasks ==> !IsRunning(states[n], t))
            || steps[n] == ReportCompleted || steps[n] == ReportTimeout
    ensures ReportsAt(states, steps, n) ==>
              && states[n + 1].phase.remaining == |states[n + 1].tasks|
              && (states[n + 1].phase.completed <==> !WaitTimedOut(steps, n + 1))
  {
    var s := states[n];
    assert states[n + 1] == Next(s, steps[n]) && Enabled(s, steps[n]);
    assert forall t :: t in RunningTasks(s) <==> t in s.tasks && IsRunning(s, t);
    WaitOutcome(states, steps, n + 1);
  }

  /** What the shutdown still waits for runs, or its news of it is queued. */
  ghost predicate NewsComes(s: State) {
    s.phase.Waiting? ==>
      && s.phase.waitingFor <= s.phase.awaited
      && forall t :: t in s.phase.waitingFor ==> IsRunning(s, t) || WaiterCallback(t) in s.queue
  }

  lemma NewsStep(s: State, step: Step)
    requires NewsComes(s) && Enabled(s, step)
    ensures NewsComes(Next(s, step))
  {
    var s' := Next(s, step);
    if step.RunCallback? {
      assert s.queue == [s.queue[0]] + s.queue[1..];
      assert forall c :: c in s.queue && c != s.queue[0] ==> c in s.queue[1..];
    } else if step.Finish? {
      assert s'.queue[..|s.queue|] == s.queue;
      assert forall c :: c in s.queue ==> c in s'.queue;
    }
  }

  lemma {:induction false} NewsAlwaysComes(states: seq<State>, steps: seq<Step>, n: nat)
    requires IsRun(states, steps) && n <= |steps|
    ensures NewsComes(states[n])
    decreases n
  {
    hide Next, Enabled, NewsComes;
    if n == 0 {
      NoNewsYet();
    } else {
      NewsAlwaysComes(states, steps, n - 1);
      NewsStep(states[n - 1], steps[n - 1]);
    }
  }

  lemma NoNewsYet()
    ensures NewsComes(Fresh)
  {
  }

  /** A shutdown cannot be stuck: once what it awaits has ended and the callbacks have run, it can report. */
  lemma WaitEnds(states: seq<State>, steps: seq<Step>, n: nat)
    requires IsRun(states, steps) && n <= |steps| && states[n].phase.Waiting?
    requires states[n].queue == [] && forall t :: t in states[n].phase.awaited ==> !IsRunning(states[n], t)
    ensures Enabled(states[n], if WaitTimedOut(steps, n) then ReportTimeout else ReportCompleted)
  {
    NewsAlwaysComes(states, steps, n);
    WaitOutcome(states, steps, n);
  }

  // ----- Cancellation and timers -----

  /** The step asks task `t`, which has not finished, to stop. */
  ghost predicate AsksToStop(s: State, step: Step, t: Task) {
    && IsRunning(s, t)
    && match step
       case Timeout(u) => u == t
       case CancelAll => t in s.tasks
       case BeginShutdown => t in s.tasks
       case ReportTimeout => t in s.tasks
       case WaitTimesOut => s.phase.Waiting? && t in s.phase.awaited
       case _ => false
  }

  lemma AskedStep(s: State, step: Step, t: Task)
    requires Enabled(s, step)
    ensures t in Next(s, step).cancelRequested <==> t in s.cancelRequested || AsksToStop(s, step, t)
  {
  }

  /** A task was asked to stop exactly if a step did so while it ran: its timeout, a cancellation or a shutdown. */
  lemma {:induction false} AskedIff(states: seq<State>, steps: seq<Step>, n: nat, t: Task)
    requires IsRun(states, steps) && n < |states|
    ensures t in states[n].cancelRequested <==> exists i :: 0 <= i < n && AsksToStop(states[i], steps[i], t)
    decreases n
  {
    hide AsksToStop, Next, Enabled;
    if n > 0 {
      AskedIff(states, steps, n - 1, t);
      AskedStep(states[n - 1], steps[n - 1], t);
    }
  }

  /** Whether step `i` is a timer that fires on a task that runs. */
  ghost predicate TimesOut(states: seq<State>, steps: seq<Step>, i: nat)
    requires IsRun(states, steps) && i < |steps|
  {
    steps[i].Timeout? && IsRunning(states[i], steps[i].task)
  }

  ghost function TimeoutsSoFar(states: seq<State>, steps: seq<Step>, n: nat): nat
    requires IsRun(states, steps) && n <= |steps|
  {
    if n == 0 then 0 else TimeoutsSoFar(states, steps, n - 1) + if TimesOut(states, steps, n - 1) then 1 else 0
  }

  lemma TimeoutStep(s: State, step: Step)
    requires Enabled(s, step)
    ensures Next(s, step).metrics.timedOut
            == s.metrics.timedOut + if step.Timeout? && IsRunning(s, step.task) then 1 else 0
  {
  }

  /** The timeout counter counts exactly the timers that fired on tasks that still ran. */
  lemma {:induction false} TimeoutsAreCounted(states: seq<State>, steps: seq<Step>, n: nat)
    requires IsRun(states, steps) && n <= |steps|
    ensures states[n].metrics.timedOut == TimeoutsSoFar(states, steps, n)
    decreases n
  {
    hide Next, Enabled;
    if n > 0 {
      TimeoutsAreCounted(states, steps, n - 1);
      TimeoutStep(states[n - 1], steps[n - 1]);
    }
  }

  /** A timer that fires asks its task to stop for good and is counted, unless the task has ended already. */
  lemma TimeoutStopsTask(states: seq<State>, steps: seq<Step>, i: nat, m: nat, t: Task)
    requires IsRun(states, steps) && i < m < |states| && steps[i] == Timeout(t)
    ensures t !in states[i + 1].timers
    ensures IsRunning(states[i], t) ==>
              && t in states[m].cancelRequested
              && states[i + 1].metrics.timedOut == states[i].metrics.timedOut + 1
    ensures !IsRunning(states[i], t) ==> states[i + 1] == states[i].(timers := states[i].timers - {t})
  {
    assert states[i + 1] == Next(states[i], steps[i]) && Enabled(states[i], steps[i]);
    if IsRunning(states[i], t) {
      assert AsksToStop(states[i], steps[i], t);
      AskedIff(states, steps, m, t);
    }
  }

  lemma TimerStep(s: State, step: Step, t: Task)
    requires Inv(s) && Enabled(s, step) && t in s.status
    ensures t in Next(s, step).status
    ensures t in Next(s, step).timers <==> t in s.timers && step != Timeout(t)
  {
    hide CallbacksPending, WaitersFollow, ShutdownCovers, CancelledOrLate, Books;
  }

  /** A task has a timer exactly if it was created with a timeout other than zero and the timer has not fired. */
  lemma {:induction false} TimerIff(states: seq<State>, steps: seq<Step>, i: nat, m: nat, t: Task, meta: Metadata)
    requires IsRun(states, steps) && i < m < |states| && steps[i] == Create(t, meta)
    ensures t in states[m].status
    ensures t in states[m].timers <==>
            && meta.timeout.Some? && meta.timeout.value != 0.0
            && forall k :: i < k < m ==> steps[k] != Timeout(t)
    decreases m
  {
    hide Inv;
    assert states[i + 1] == Next(states[i], steps[i]) && Enabled(states[i], steps[i]);
    Reachable(states, steps, m - 1);
    if i == m - 1 {
      UncreatedHasNoTimer(states[i], t);
    } else {
      hide Next, Enabled;
      TimerIff(states, steps, i, m - 1, t, meta);
      TimerStep(states[m - 1], steps[m - 1], t);
    }
  }

  lemma UncreatedHasNoTimer(s: State, t: Task)
    requires Inv(s) && t !in s.status
    ensures t !in s.timers
  {
  }

  /** The step runs the manager's callback on the task. */
  ghost predicate Drops(s: State, step: Step, t: Task) {
    step.RunCallback? && s.queue != [] && s.queue[0] == ManagerCallback(t)
  }

  /** What is on a tracked task's record, and how a finished one ended, never changes. */
  lemma RecordStep(s: State, step: Step, t: Task)
    requires Books(s) && Enabled(s, step) && t in s.status
    ensures t in Next(s, step).tasks <==> t in s.tasks && !Drops(s, step, t)
    ensures t in Next(s, step).tasks ==>
              t in s.metadata && t in Next(s, step).metadata && Next(s, step).metadata[t] == s.metadata[t]
    ensures IsDone(s, t) ==> t in Next(s, step).status && Next(s, step).status[t] == s.status[t]
  {
  }

  lemma CreateStep(s: State, t: Task, meta: Metadata)
    requires Enabled(s, Create(t, meta))
    ensures var s' := Next(s, Create(t, meta)); t in s'.tasks && t in s'.metadata && s'.metadata[t] == meta
  {
  }

  /** A task keeps the record it was created with, and is tracked exactly until the manager's callback on it runs. */
  lemma {:induction false} TrackedIff(states: seq<State>, steps: seq<Step>, i: nat, m: nat, t: Task, meta: Metadata)
    requires IsRun(states, steps) && i < m < |states| && steps[i] == Create(t, meta)
    ensures t in states[m].tasks ==> t in states[m].metadata && states[m].metadata[t] == meta
    ensures t in states[m].tasks <==> forall k :: i < k < m ==> !Drops(states[k], steps[k], t)
    decreases m
  {
    hide Next, Enabled, Drops, CallbacksPending, WaitersFollow, ShutdownCovers, CancelledOrLate, Books;
    CreateStep(states[i], t, meta);
    if i < m - 1 {
      TimerIff(states, steps, i, m - 1, t, meta);
      TrackedIff(states, steps, i, m - 1, t, meta);
      Reachable(states, steps, m - 1);
      RecordStep(states[m - 1], steps[m - 1], t);
    }
  }

  /** A task ends once, and the way it ended stands. */
  lemma {:induction false} OutcomeStands(states: seq<State>, steps: seq<Step>, i: nat, m: nat, t: Task, o: Outcome)
    requires IsRun(states, steps) && i < m < |states| && steps[i] == Finish(t, o)
    ensures t in states[m].status && states[m].status[t] == Done(o)
    decreases m
  {
    assert states[i + 1] == Next(states[i], steps[i]) && Enabled(states[i], steps[i]);
    if i < m - 1 {
      OutcomeStands(states, steps, i, m - 1, t, o);
      Reachable(states, steps, m - 1);
      hide Next, CallbacksPending, WaitersFollow, ShutdownCovers, CancelledOrLate;
      RecordStep(states[m - 1], steps[m - 1], t);
    }
  }

  // ----- The manager object -----

  /** The manager with the part of the event loop it sees; each method is one uninterrupted stretch of code. */
  class BackgroundTaskManager {
    var status: map<Task, Status>
    var queue: seq<Callback>
    var timers: set<Task>
    var cancelRequested: set<Task>
    var tasks: set<Task>
    var metadata: map<Task, Metadata>
    var metrics: Metrics
    var phase: Phase
    ghost var late: set<Task>

    constructor ()
      ensures View() == Fresh
    {
      status, queue, timers, cancelRequested := map[], [], {}, {};
      tasks, metadata, metrics, phase, late := {}, map[], Metrics(0, 0, 0, 0, 0), Open, {};
    }

    ghost function View(): State
      reads this
    {
      State(status, queue, timers, cancelRequested, tasks, metadata, metrics, phase, late)
    }

    method CreateTask(t: Task, meta: Metadata)
      requires Enabled(View(), Create(t, meta))
      modifies this
      ensures View() == Next(old(View()), Create(t, meta))
    {
      metrics := metrics.(created := metrics.created + 1);
      status := status[t := Running];
      tasks := tasks + {t};
      metadata := metadata[t := meta];
      if meta.timeout.Some? && meta.timeout.value != 0.0 {
        timers := timers + {t};
      }
      if !phase.Open? {
        late := late + {t};
      }
    }

    /** The loop finishes a task and queues its callbacks in the order they were registered. */
    method FinishTask(t: Task, o: Outcome)
      requires Enabled(View(), Finish(t, o))
      modifies this
      ensures View() == Next(old(View()), Finish(t, o))
    {
      status := status[t := Done(o)];
      queue := queue + [ManagerCallback(t)];
      if phase.Waiting? && t in phase.awaited {
        queue := queue + [WaiterCallback(t)];
      }
    }

    method TaskDoneCallback(t: Task)
      requires t in status && status[t].Done?
      modifies this
      ensures View() == HandleDone(old(View()), t)
    {
      metadata := metadata - {t};
      tasks := tasks - {t};
      match status[t].outcome
      case Completed => metrics := metrics.(completed := metrics.completed + 1);
      case Cancelled => metrics := metrics.(cancelled := metrics.cancelled + 1);
      case Failed => metrics := metrics.(failed := metrics.failed + 1);
    }

    method RunNextCallback()
      requires Enabled(View(), RunCallback) && Inv(View())
      modifies this
      ensures View() == Next(old(View()), RunCallback)
    {
      var front := queue[0];
      queue := queue[1..];
      match front
      case ManagerCallback(t) =>
        TaskDoneCallback(t);
      case WaiterCallback(t) =>
        if phase.Waiting? {
          phase := phase.(waitingFor := phase.waitingFor - {t});
        }
    }

    method TimeoutFires(t: Task)
      requires Enabled(View(), Timeout(t))
      modifies this
      ensures View() == Next(old(View()), Timeout(t))
    {
      timers := timers - {t};
      if t in status && status[t] == Running {
        cancelRequested := cancelRequested + {t};
        metrics := metrics.(timedOut := metrics.timedOut + 1);
      }
    }

    /** Asks every tracked task that has not finished to stop. */
    method RequestAll()
      modifies this`cancelRequested
      ensures View() == RequestCancels(old(View()))
    {
      var rest := tasks;
      while rest != {}
        invariant rest <= tasks
        invariant cancelRequested == old(cancelRequested) + (RunningTasks(View()) - rest)
        invariant View() == old(View()).(cancelRequested := cancelRequested)
      {
        var t :| t in rest;
        rest := rest - {t};
        if t in status && status[t] == Running {
          cancelRequested := cancelRequested + {t};
        }
      }
    }

    /** Cancelling everything by hand. */
    method CancelAll()
      modifies this`cancelRequested
      ensures View() == Next(old(View()), Step.CancelAll)
    {
      RequestAll();
    }

    /**
     The first stretch of a shutdown.  A second shutdown stops here, and so does one that finds nothing
     tracked, which reports completion.
     */
    method StartShutdown() returns (first: bool, goesOn: bool)
      requires phase.Open? || phase.Reported?
      modifies this
      ensures first <==> old(phase).Open?
      ensures goesOn <==> first && tasks != {}
      ensures View() == Next(old(View()), if first then BeginShutdown else ShutdownAgain)
    {
      first, goesOn := phase.Open?, false;
      if first {
        if tasks == {} {
          phase := Reported(true, 0);
        } else {
          goesOn := true;
          phase := Cancelling;
          RequestAll();
        }
      }
    }

    /** The second stretch: sort what is tracked into finished and still running, and wait only for the latter. */
    method GatherTasks() returns (reported: bool)
      requires phase == Cancelling
      modifies this`phase
      ensures reported <==> forall t :: t in tasks ==> !IsRunning(View(), t)
      ensures View() == Next(old(View()), Gather)
    {
      var early, awaited: set<Task>, rest := {}, {}, tasks;
      while rest != {}
        invariant rest <= tasks && View() == old(View())
        invariant awaited == RunningTasks(View()) - rest && early == tasks - rest - awaited
      {
        var t :| t in rest;
        rest := rest - {t};
        if t in status && status[t] == Running {
          awaited := awaited + {t};
        } else {
          early := early + {t};
        }
      }
      reported := awaited == {};
      phase := if reported then Reported(true, |tasks|) else Waiting(early, awaited, awaited, false);
      assert awaited == RunningTasks(old(View()));
      assert early == tasks - awaited;
    }

    /** The timeout of the wait: the awaited tasks are asked to stop, and are waited for all the same. */
    method WaitTimesOut()
      requires Enabled(View(), Step.WaitTimesOut)
      modifies this`cancelRequested, this`phase
      ensures View() == Next(old(View()), Step.WaitTimesOut)
    {
      var rest := phase.awaited;
      while rest != {}
        invariant phase == old(phase) && rest <= phase.awaited
        invariant cancelRequested
                  == old(cancelRequested) + (set t | t in phase.awaited - rest && IsRunning(View(), t))
        invariant View() == old(View()).(cancelRequested := cancelRequested)
      {
        var t :| t in rest;
        rest := rest - {t};
        if t in status && status[t] == Running {
          cancelRequested := cancelRequested + {t};
        }
      }
      phase := phase.(timedOut := true);
    }

    /** The last stretch, once everything awaited has ended; after a timeout what is left is asked to stop again. */
    method EndShutdown() returns (completed: bool, remaining: nat)
      requires phase.Waiting? && phase.waitingFor == {}
      modifies this
      ensures completed <==> !old(phase).timedOut
      ensures remaining == |tasks|
      ensures View() == Next(old(View()), if completed then ReportCompleted else ReportTimeout)
    {
      completed, remaining := !phase.timedOut, |tasks|;
      phase := Reported(completed, remaining);
      if !completed {
        RequestAll();
      }
    }
  }
}
