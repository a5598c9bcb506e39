/**
 * Start, accept loop and shutdown of the gateway: the main thread, the Bluetooth and server threads and any number of
 * detached WiFi workers, all sharing the upstream queue, the device manager and the group that counts the workers.
 */
module GatewayLoop {
  import opened Text
  import opened MessageQueue
  import Q = QueueMonitor

  type ThreadId = Q.ThreadId

  const SERVER: ThreadId := 0
  const BLUETOOTH: ThreadId := 1

  datatype Resource = Group | UpstreamQueue | Devices

  const EVERYTHING := {Group, UpstreamQueue, Devices}

  /** Where the main thread stands in gateway_loop_run. */
  datatype Pc =
    | StartServer
    | StartBluetooth
    | FailShutdown             // the Bluetooth thread could not be created
    | FailJoin
    | Accepting
    | Added(t: ThreadId)       // wifi_worker_group_add done, the worker t not yet created
    | Undoing                  // the worker could not be created
    | Closed                   // left the loop, listening socket closed
    | JoinBluetooth
    | Waiting                  // holds the group's mutex in wifi_worker_group_wait
    | Asleep                   // waits on all_stopped
    | JoinServer
    | Destroying(rest: seq<Resource>)

  /** A WiFi worker that has left still has to take itself off the group. */
  datatype Life = Running | Left

  datatype State = State(
    pc: Pc,
    running: bool,
    activeWorkers: nat,
    live: map<ThreadId, Life>,
    queue: Q.State,
    alive: set<Resource>)

  datatype Step =
    | Stop                                // the signal handler clears the flag
    | Main(ok: bool, t: ThreadId)         // the main thread's next step; ok is what pthread_create answers
    | SpuriousWake
    | UseQueue(step: Q.Step)
    | UseDevices(t: ThreadId)
    | Leave(t: ThreadId)
    | Remove(t: ThreadId)

  ghost predicate MainEnabled(s: State, t: ThreadId) {
    match s.pc
    case Accepting => !s.running || (t > BLUETOOTH && t !in s.live && t in s.queue.threads)
    case JoinBluetooth => BLUETOOTH !in s.live
    case JoinServer => SERVER !in s.live
    case FailJoin => SERVER !in s.live
    case Asleep => false
    case Destroying(rest) => rest != []
    case _ => true
  }

  /** The thread that takes a step of the queue. */
  function Actor(step: Q.Step): Option<ThreadId> {
    match step
    case StartPush(t, _) => Some(t)
    case TurnPush(t, _) => Some(t)
    case TryPop(t, _) => Some(t)
    case Spurious(t) => Some(t)
    case _ => None
  }

  /** A live thread pushes, the server thread polls; nobody else touches the queue and nobody blocks in pop. */
  ghost predicate QueueEnabled(s: State, step: Q.Step) {
    && Q.Enabled(s.queue, step)
    && Actor(step).Some?
    && Actor(step).value in s.live && s.live[Actor(step).value] == Running
    && (step.TryPop? <==> Actor(step).value == SERVER)
  }

  ghost predicate Enabled(s: State, step: Step) {
    match step
    case Stop => true
    case Main(_, t) => MainEnabled(s, t)
    case SpuriousWake => s.pc.Asleep?
    case UseQueue(q) => QueueEnabled(s, q)
    case UseDevices(t) => t in s.live && s.live[t] == Running
    case Leave(t) =>
      && t in s.live && s.live[t] == Running && t in s.queue.threads && s.queue.threads[t].Outside?
      && (t == BLUETOOTH ==> !s.running)
      && (t == SERVER ==> !s.running || (s.queue.queue.shuttingDown && s.queue.queue.items == []))
    case Remove(t) => t in s.live && s.live[t] == Left
  }

  function NextMain(s: State, ok: bool, t: ThreadId): State {
    match s.pc
    case StartServer =>
      if ok then s.(pc := StartBluetooth, live := s.live[SERVER := Running])
      else s.(pc := Destroying([UpstreamQueue, Group, Devices]))
    case StartBluetooth =>
      if ok then s.(pc := Accepting, live := s.live[BLUETOOTH := Running]) else s.(pc := FailShutdown)
    case FailShutdown => s.(pc := FailJoin, queue := Q.Next(s.queue, Q.Shutdown))
    case FailJoin => s.(pc := Destroying([UpstreamQueue, Group]))
    case Accepting =>
      if t > BLUETOOTH && t !in s.live && t in s.queue.threads && ok
      then s.(pc := Added(t), activeWorkers := s.activeWorkers + 1)
      else if s.running then s else s.(pc := Closed)
    case Added(w) => if ok then s.(pc := Accepting, live := s.live[w := Running]) else s.(pc := Undoing)
    case Undoing => s.(pc := Accepting, activeWorkers := if s.activeWorkers > 0 then s.activeWorkers - 1 else 0)
    case Closed => s.(pc := JoinBluetooth, queue := Q.Next(s.queue, Q.Shutdown))
    case JoinBluetooth => s.(pc := Waiting)
    case Waiting => s.(pc := if s.activeWorkers == 0 then JoinServer else Asleep)
    case Asleep => s
    case JoinServer => s.(pc := Destroying([Group, UpstreamQueue, Devices]))
    case Destroying(rest) => if rest == [] then s else s.(pc := Destroying(rest[1..]), alive := s.alive - {rest[0]})
  }

  function Next(s: State, step: Step): State {
    match step
    case Stop => s.(running := false)
    case Main(ok, t) => NextMain(s, ok, t)
    case SpuriousWake => s.(pc := Waiting)
    case UseQueue(q) => s.(queue := Q.Next(s.queue, q))
    case UseDevices(t) => s
    case Leave(t) => s.(live := if t > BLUETOOTH then s.live[t := Left] else s.live - {t})
    case Remove(t) =>
      var left := if s.activeWorkers > 0 then s.activeWorkers - 1 else 0;
      s.(live := s.live - {t}, activeWorkers := left, pc := if left == 0 && s.pc.Asleep? then Waiting else s.pc)
  }

  ghost predicate Reaches(init: State, steps: seq<Step>, s: State)
    decreases |steps|
  {
    if steps == [] then s == init
    else Enabled(init, steps[0]) && Reaches(Next(init, steps[0]), steps[1..], s)
  }

  ghost predicate Initial(s: State) {
    && s.pc.StartServer? && s.activeWorkers == 0 && s.live == map[] && s.alive == EVERYTHING
    && Q.Initial(s.queue) && SERVER in s.queue.threads && BLUETOOTH in s.queue.threads
  }

  ghost predicate Returned(s: State) {
    s.pc == Destroying([])
  }

  // ---------------------------------------------------------------- the invariant

  /** The WiFi workers between wifi_worker_group_add and wifi_worker_group_remove that exist as threads. */
  function Members(live: map<ThreadId, Life>): set<ThreadId> {
    set t | t in live && t > BLUETOOTH
  }

  /** active_workers counts exactly the workers added and not yet removed. */
  ghost predicate Counted(s: State) {
    && s.activeWorkers == |Members(s.live)| + (if s.pc.Added? || s.pc.Undoing? then 1 else 0)
    && (s.pc.Asleep? ==> s.activeWorkers > 0)
    && (s.pc.Added? ==> s.pc.t > BLUETOOTH && s.pc.t !in s.live && s.pc.t in s.queue.threads)
  }

  ghost predicate Early(pc: Pc) {
    pc.StartServer? || pc.StartBluetooth? || pc.FailShutdown? || pc.FailJoin?
  }

  /** Which threads the main thread has already seen the end of, or not yet started. */
  ghost predicate Lives(s: State) {
    && s.live.Keys <= s.queue.threads.Keys
    && SERVER in s.queue.threads && BLUETOOTH in s.queue.threads
    && (forall t :: t in s.live && s.live[t] == Left ==> t > BLUETOOTH)
    && (Early(s.pc) ==> s.live.Keys <= {SERVER} && s.queue.queue.items == [])
    && (s.pc.StartServer? || s.pc.Destroying? ==> s.live == map[])
    && (s.pc.Waiting? || s.pc.Asleep? || s.pc.JoinServer? ==> BLUETOOTH !in s.live)
    && (s.pc.JoinServer? ==> Members(s.live) == {})
  }

  /** Only a running thread other than the server's is ever inside the queue, and only to push. */
  ghost predicate Pushing(s: State) {
    forall t :: t in s.queue.threads && !s.queue.threads[t].Outside? ==>
      && t in s.live && s.live[t] == Running && t != SERVER
      && !s.queue.threads[t].ReadyPop? && !s.queue.threads[t].AsleepPop? && !s.queue.threads[t].WokenPop?
  }

  ghost predicate Resources(s: State) {
    && (!s.pc.Destroying? ==> s.alive == EVERYTHING)
    && (s.pc.Destroying? ==> |s.pc.rest| <= 3 && Distinct(s.pc.rest) && forall i :: 0 <= i < |s.pc.rest| ==> s.pc.rest[i] in s.alive)
  }

  ghost predicate Distinct(rest: seq<Resource>) {
    forall i, j :: 0 <= i < j < |rest| ==> rest[i] != rest[j]
  }

  ghost predicate Signalled(s: State) {
    s.pc.FailJoin? || s.pc.JoinBluetooth? || s.pc.Waiting? || s.pc.Asleep? || s.pc.JoinServer? ==> s.queue.queue.shuttingDown
  }

  ghost predicate Inv(s: State) {
    Q.Inv(s.queue) && Counted(s) && Lives(s) && Pushing(s) && Resources(s) && Signalled(s)
  }

  lemma MembersWith(live: map<ThreadId, Life>, t: ThreadId, life: Life)
    ensures |Members(live[t := life])| == |Members(live)| + if t > BLUETOOTH && t !in live then 1 else 0
  {
    if t > BLUETOOTH {
      assert Members(live[t := life]) == Members(live) + {t};
    } else {
      assert Members(live[t := life]) == Members(live);
    }
  }

  lemma MembersWithout(live: map<ThreadId, Life>, t: ThreadId)
    ensures |Members(live)| == |Members(live - {t})| + if t > BLUETOOTH && t in live then 1 else 0
  {
    if t > BLUETOOTH && t in live {
      assert Members(live) == Members(live - {t}) + {t};
    } else {
      assert Members(live - {t}) == Members(live);
    }
  }

  // ---------------------------------------------------------------- every step keeps it

  lemma QueueStepKeeps(s: State, step: Q.Step)
    requires Inv(s) && QueueEnabled(s, step)
    ensures Inv(Next(s, UseQueue(step)))
  {
    hide Q.Inv;
    Q.StepKeeps(s.queue, step);
    QueueStepThreads(s, step);
  }

  /** Only the acting thread enters the queue. */
  lemma QueueStepThreads(s: State, step: Q.Step)
    requires Pushing(s) && Lives(s) && QueueEnabled(s, step)
    ensures var q := Q.Next(s.queue, step);
            && q.threads.Keys == s.queue.threads.Keys
            && q.queue.shuttingDown == s.queue.queue.shuttingDown
            && Pushing(s.(queue := q))
            && (s.live.Keys <= {SERVER} && s.queue.queue.items == [] ==> q.queue.items == [])
  {
    var t := Actor(step).value;
    assert Pushing(s) ==> s.queue.threads[SERVER].Outside?;
  }

  lemma LeaveKeeps(s: State, t: ThreadId)
    requires Inv(s) && Enabled(s, Leave(t))
    ensures Inv(Next(s, Leave(t)))
  {
    hide Q.Inv;
    MembersWith(s.live, t, Left);
    MembersWithout(s.live, t);
    assert !s.pc.JoinServer? || t !in Members(s.live);
    assert s.pc.JoinServer? ==> Members(Next(s, Leave(t)).live) == {};
  }

  lemma RemoveKeeps(s: State, t: ThreadId)
    requires Inv(s) && Enabled(s, Remove(t))
    ensures Inv(Next(s, Remove(t)))
  {
    hide Q.Inv;
    MembersWithout(s.live, t);
    assert t in Members(s.live);
  }

  lemma ShutdownKeeps(s: State, pc: Pc)
    requires Inv(s) && ((s.pc.FailShutdown? && pc.FailJoin?) || (s.pc.Closed? && pc.JoinBluetooth?))
    ensures Inv(s.(pc := pc, queue := Q.Next(s.queue, Q.Shutdown)))
  {
    hide Q.Inv;
    Q.StepKeeps(s.queue, Q.Shutdown);
  }

  lemma MainKeeps(s: State, ok: bool, t: ThreadId)
    requires Inv(s) && MainEnabled(s, t)
    ensures Inv(NextMain(s, ok, t))
  {
    hide Q.Inv;
    match s.pc {
      case FailShutdown => ShutdownKeeps(s, FailJoin);
      case Closed => ShutdownKeeps(s, JoinBluetooth);
      case StartServer => StartKeeps(s, ok, t);
      case StartBluetooth => StartKeeps(s, ok, t);
      case Accepting => AcceptKeeps(s, ok, t);
      case Added(_) => AcceptKeeps(s, ok, t);
      case Undoing => AcceptKeeps(s, ok, t);
      case _ => JoinKeeps(s, ok, t);
    }
  }

  lemma StartKeeps(s: State, ok: bool, t: ThreadId)
    requires Inv(s) && MainEnabled(s, t) && (s.pc.StartServer? || s.pc.StartBluetooth?)
    ensures Inv(NextMain(s, ok, t))
  {
    hide Q.Inv;
    MembersWith(s.live, SERVER, Running);
    MembersWith(s.live, BLUETOOTH, Running);
  }

  lemma AcceptKeeps(s: State, ok: bool, t: ThreadId)
    requires Inv(s) && MainEnabled(s, t) && (s.pc.Accepting? || s.pc.Added? || s.pc.Undoing?)
    ensures Inv(NextMain(s, ok, t))
  {
    hide Q.Inv;
    if s.pc.Added? {
      MembersWith(s.live, s.pc.t, Running);
    }
  }

  lemma JoinKeeps(s: State, ok: bool, t: ThreadId)
    requires Inv(s) && MainEnabled(s, t)
    requires s.pc.FailJoin? || s.pc.JoinBluetooth? || s.pc.Waiting? || s.pc.JoinServer? || s.pc.Destroying?
    ensures Inv(NextMain(s, ok, t))
  {
    hide Q.Inv;
    assert s.activeWorkers == 0 ==> Members(s.live) == {};
    if (s.pc.JoinServer? || s.pc.FailJoin?) && SERVER !in s.live {
      assert forall w :: w in s.live && w > BLUETOOTH ==> w in Members(s.live);
      assert s.live == map[];
    }
  }

  lemma StepKeeps(s: State, step: Step)
    requires Inv(s) && Enabled(s, step)
    ensures Inv(Next(s, step))
  {
    hide Q.Inv;
    match step {
      case Stop =>
      case Main(ok, t) => MainKeeps(s, ok, t);
      case SpuriousWake =>
      case UseQueue(q) => QueueStepKeeps(s, q);
      case UseDevices(t) =>
      case Leave(t) => LeaveKeeps(s, t);
      case Remove(t) => RemoveKeeps(s, t);
    }
  }

  lemma {:induction false} RunsKeepInv(init: State, steps: seq<Step>, s: State)
    requires Inv(init) && Reaches(init, steps, s)
    ensures Inv(s)
    decreases |steps|
  {
    hide Inv, Enabled, Next;
    if steps != [] {
      StepKeeps(init, steps[0]);
      RunsKeepInv(Next(init, steps[0]), steps[1..], s);
    }
  }

  // ---------------------------------------------------------------- what it means

  /** The shared objects a step uses. */
  function Touches(s: State, step: Step): set<Resource> {
    match step
    case UseQueue(_) => {UpstreamQueue}
    case UseDevices(_) => {Devices}
    case Remove(_) => {Group}
    case SpuriousWake => {Group}
    case Main(ok, _) =>
      (match s.pc
       case Accepting => if ok then {Group} else {}
       case Undoing => {Group}
       case Waiting => {Group}
       case FailShutdown => {UpstreamQueue}
       case Closed => {UpstreamQueue}
       case Destroying(rest) => if rest == [] then {} else {rest[0]}
       case _ => {})
    case _ => {}
  }

  lemma InitialInv(init: State)
    requires Initial(init)
    ensures Inv(init)
  {
    assert Members(init.live) == {};
  }

  /** No thread ever uses, and nobody ever destroys, an object that is already destroyed. */
  lemma NothingUsedAfterDestroy(init: State, steps: seq<Step>, s: State, step: Step)
    requires Initial(init) && Reaches(init, steps, s) && Enabled(s, step)
    ensures Touches(s, step) <= s.alive
  {
    InitialInv(init);
    RunsKeepInv(init, steps, s);
    hide Q.Inv, Reaches, Q.Enabled;
  }

  /** active_workers is always the number of WiFi workers added and not removed; nothing is live when destruction starts. */
  lemma WorkersCounted(init: State, steps: seq<Step>, s: State)
    requires Initial(init) && Reaches(init, steps, s)
    ensures s.activeWorkers == |Members(s.live)| + (if s.pc.Added? || s.pc.Undoing? then 1 else 0)
    ensures s.alive != EVERYTHING || s.pc.Destroying? ==> s.live == map[]
    ensures s.pc.Asleep? ==> s.activeWorkers > 0
  {
    InitialInv(init);
    RunsKeepInv(init, steps, s);
  }

  /** Once the main thread has signalled shutdown nobody sleeps in push, and whoever is inside returns at its next turn. */
  lemma NobodyStuckInPush(init: State, steps: seq<Step>, s: State, t: ThreadId)
    requires Initial(init) && Reaches(init, steps, s)
    requires s.queue.queue.shuttingDown && t in s.queue.threads && !s.queue.threads[t].Outside?
    ensures Enabled(s, UseQueue(Q.TurnPush(t, None)))
    ensures Next(s, UseQueue(Q.TurnPush(t, None))).queue.threads == s.queue.threads[t := Q.Outside]
  {
    InitialInv(init);
    RunsKeepInv(init, steps, s);
    PushReturns(s, t);
  }

  lemma PushReturns(s: State, t: ThreadId)
    requires Inv(s) && s.queue.queue.shuttingDown && t in s.queue.threads && !s.queue.threads[t].Outside?
    ensures Enabled(s, UseQueue(Q.TurnPush(t, None)))
    ensures Next(s, UseQueue(Q.TurnPush(t, None))) == s.(queue := s.queue.(threads := s.queue.threads[t := Q.Outside]))
  {
    assert !Q.ProducerSleeps(s.queue);
    Q.ShutdownUnblocks(s.queue, t, None);
  }

  // ---------------------------------------------------------------- shutdown can always complete

  /** Shutdown has begun: the flag is cleared, or the Bluetooth thread could not be created. */
  ghost predicate Ending(s: State) {
    !s.running || s.pc.FailShutdown? || s.pc.FailJoin? || s.pc.Destroying?
  }

  function Rank(pc: Pc): nat {
    match pc
    case StartServer => 16
    case StartBluetooth => 15
    case FailShutdown => 14
    case FailJoin => 13
    case Added(_) => 12
    case Undoing => 11
    case Accepting => 10
    case Closed => 9
    case JoinBluetooth => 8
    case Waiting => 6
    case Asleep => 6
    case JoinServer => 5
    case Destroying(rest) => if |rest| < 5 then |rest| else 4
  }

  function Inside(s: State): set<ThreadId> {
    set t | t in s.queue.threads && !s.queue.threads[t].Outside?
  }

  function RunningThreads(s: State): set<ThreadId> {
    set t | t in s.live && s.live[t] == Running
  }

  ghost predicate Closer(s: State, s': State) {
    || Rank(s'.pc) < Rank(s.pc)
    || (Rank(s'.pc) == Rank(s.pc) &&
        (|| |s'.live| < |s.live|
         || (|s'.live| == |s.live| &&
             (|| |RunningThreads(s')| < |RunningThreads(s)|
              || (|RunningThreads(s')| == |RunningThreads(s)| && |Inside(s')| < |Inside(s)|)))))
  }

  /** Some thread can always take a step that brings the end closer. */
  lemma Progress(s: State) returns (step: Step)
    requires Inv(s) && Ending(s) && !Returned(s)
    ensures Enabled(s, step) && Closer(s, Next(s, step)) && Ending(Next(s, step))
  {
    hide Q.Inv;
    if s.live == map[] || !s.queue.queue.shuttingDown {
      step := Main(false, SERVER);
      MainMovesOn(s);
    } else if t :| t in s.queue.threads && !s.queue.threads[t].Outside? {
      step := UseQueue(Q.TurnPush(t, None));
      PushReturns(s, t);
      assert Inside(Next(s, step)) == Inside(s) - {t};
      Smaller(Inside(Next(s, step)), Inside(s));
    } else {
      var t :| t in s.live;
      step := if s.live[t] == Left then Remove(t) else Leave(t);
      WorkerMovesOn(s, t);
    }
  }

  lemma Smaller(a: set<ThreadId>, b: set<ThreadId>)
    requires a < b
    ensures |a| < |b|
  {
    assert b == a + (b - a);
  }

  lemma MainMovesOn(s: State)
    requires Inv(s) && Ending(s) && !Returned(s) && (s.live == map[] || !s.queue.queue.shuttingDown)
    ensures Enabled(s, Main(false, SERVER)) && Closer(s, Next(s, Main(false, SERVER))) && Ending(Next(s, Main(false, SERVER)))
  {
    assert s.live == map[] ==> Members(s.live) == {};
    hide Q.Inv, Q.Next;
  }

  lemma WorkerMovesOn(s: State, t: ThreadId)
    requires Inv(s) && Ending(s) && s.queue.queue.shuttingDown && t in s.live
    requires forall w :: w in s.queue.threads ==> s.queue.threads[w].Outside?
    ensures var step := if s.live[t] == Left then Remove(t) else Leave(t);
            Enabled(s, step) && Closer(s, Next(s, step)) && Ending(Next(s, step))
  {
    hide Q.Inv;
    var step := if s.live[t] == Left then Remove(t) else Leave(t);
    var s' := Next(s, step);
    if s.live[t] == Running && t > BLUETOOTH {
      assert s'.live.Keys == s.live.Keys;
      assert |s'.live| == |s.live|;
      assert t in RunningThreads(s) && t !in RunningThreads(s');
      Smaller(RunningThreads(s'), RunningThreads(s));
    } else {
      assert s.live.Keys == s'.live.Keys + {t};
      assert |s'.live| < |s.live|;
    }
  }

  /** One schedule that ends: drain the threads that are inside, let them leave, then let the main thread go on. */
  lemma {:induction false} ShutdownCompletes(s: State) returns (steps: seq<Step>, end: State)
    requires Inv(s) && Ending(s)
    ensures Reaches(s, steps, end) && Returned(end)
    decreases Rank(s.pc), |s.live|, |RunningThreads(s)|, |Inside(s)|
  {
    if Returned(s) {
      steps, end := [], s;
    } else {
      hide Inv, Enabled, Next, Ending, Rank, RunningThreads, Inside;
      var step := Progress(s);
      StepKeeps(s, step);
      steps, end := ShutdownCompletes(Next(s, step));
      assert ([step] + steps)[1..] == steps;
      steps := [step] + steps;
    }
  }

  /** From every reachable state in which shutdown has begun, the gateway can still be led to its end. */
  lemma AlwaysCompletes(init: State, steps: seq<Step>, s: State) returns (more: seq<Step>, end: State)
    requires Initial(init) && Reaches(init, steps, s) && Ending(s)
    ensures Reaches(s, more, end) && Returned(end)
  {
    InitialInv(init);
    RunsKeepInv(init, steps, s);
    more, end := ShutdownCompletes(s);
  }

  /** While the gateway accepts, a connection gets its worker: counted first, then live. */
  lemma ConnectionGetsWorker(s: State, t: ThreadId)
    requires Inv(s) && s.pc.Accepting? && t > BLUETOOTH && t !in s.live && t in s.queue.threads
    ensures Enabled(s, Main(true, t)) && Enabled(Next(s, Main(true, t)), Main(true, t))
    ensures var s' := Next(Next(s, Main(true, t)), Main(true, t));
            s' == s.(activeWorkers := s.activeWorkers + 1, live := s.live[t := Running])
  {
    hide Inv;
  }
}
