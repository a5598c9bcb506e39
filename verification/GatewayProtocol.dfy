/** All interleavings of routing, worker threads, takeovers and disconnects. */
module GatewayProtocol {
  import opened Text
  import opened FrameFormat
  import opened FrameBuilder
  import opened JsonMessage
  import opened FrameDecoder
  import JsonRelay
  import opened DeviceManager

  // ---------------------------------------------------------------- state

  /** One acceptance of a command by enqueue_command; the number tells repeated commands apart. */
  datatype Ticket = Ticket(number: nat, command: Command)

  datatype Reason = TransportReplaced | TransportDisconnected | EncodeFailed | SendFailed

  /** A refusal the gateway pushed upstream: which node it names, for which command, and why. */
  datatype Refusal = Refusal(node: string, ticket: Ticket, reason: Reason)

  datatype Phase =
    | Receiving                                                  // in the receive loop
    | Binding(node: string, replaced: seq<Ticket>)               // bound in the registry, refusing what it replaced
    | Sending(ticket: Ticket)                                    // dequeued, not yet encoded and written
    | Failing(ticket: Ticket, reason: Reason, leave: bool)       // about to push the refusal
    | Leaving                                                    // receive loop left, before the disconnect call
    | Draining(pending: seq<Ticket>)                             // disconnected, refusing what was pending
    | Closing                                                    // about to close the descriptor
    | Closed                                                     // descriptor closed, thread still running

  /** bound is the node this connection has identified itself as, empty before that. */
  datatype Worker = Worker(transport: Transport, thread: nat, fd: int, bound: string, phase: Phase)

  type WorkerId = nat

  datatype State = State(
    table: Table<Ticket>, workers: map<WorkerId, Worker>, accepted: seq<Ticket>,
    taken: map<string, seq<Ticket>>,   // per node, what has left its queue, in order
    written: seq<Ticket>, refused: seq<Refusal>)

  datatype Step =
    | Accept(w: WorkerId, fd: int, thread: nat)
    | StartBluetooth(w: WorkerId, thread: nat)
    | Reopen(w: WorkerId, fd: int)
    | Route(command: Command)
    | Hear(w: WorkerId, node: string)
    | FinishBinding(w: WorkerId)
    | Poll(w: WorkerId)
    | Transmit(w: WorkerId, ok: bool)
    | PushRefusal(w: WorkerId)
    | Lose(w: WorkerId)
    | LeaveRegistry(w: WorkerId)
    | FinishDraining(w: WorkerId)
    | CloseFd(w: WorkerId)
    | Exit(w: WorkerId)

  /** Whether the worker's encoder can print the command into its 256 byte buffer. */
  predicate Encodable(transport: Transport, c: Command) {
    match transport
    case Bluetooth => Buildable(FRAME_MAX_LEN, c.sender, c.sequence, "CMD", c.fields)
    case Wifi => |CommandText(c)| < 256
  }

  function Taken(s: State, node: string): seq<Ticket> {
    if node in s.taken then s.taken[node] else []
  }

  function QueueOf(s: State, node: string): seq<Ticket> {
    if node in s.table then s.table[node].queue else []
  }

  predicate FdFree(s: State, fd: int) {
    forall w :: w in s.workers ==> s.workers[w].phase.Closed? || s.workers[w].fd != fd
  }

  predicate ThreadFree(s: State, thread: nat) {
    forall w :: w in s.workers ==> s.workers[w].thread != thread
  }

  /** What the operating system and each worker's program counter allow. */
  predicate Enabled(s: State, step: Step) {
    match step
    case Accept(w, fd, thread) => w !in s.workers && fd >= 0 && FdFree(s, fd) && ThreadFree(s, thread)
    case StartBluetooth(w, thread) => w !in s.workers && ThreadFree(s, thread)
    case Reopen(w, fd) =>
      w in s.workers && s.workers[w].phase.Closed? && s.workers[w].transport == Bluetooth && fd >= 0 && FdFree(s, fd)
    case Route(_) => true
    case Hear(w, _) => w in s.workers && s.workers[w].phase.Receiving?
    case FinishBinding(w) => w in s.workers && s.workers[w].phase.Binding? && s.workers[w].phase.replaced == []
    case Poll(w) => w in s.workers && s.workers[w].phase.Receiving?
    case Transmit(w, _) => w in s.workers && s.workers[w].phase.Sending?
    case PushRefusal(w) =>
      && w in s.workers
      && var p := s.workers[w].phase;
         (p.Binding? && p.replaced != []) || p.Failing? || (p.Draining? && p.pending != [])
    case Lose(w) => w in s.workers && s.workers[w].phase.Receiving?
    case LeaveRegistry(w) => w in s.workers && s.workers[w].phase.Leaving?
    case FinishDraining(w) => w in s.workers && s.workers[w].phase.Draining? && s.workers[w].phase.pending == []
    case CloseFd(w) => w in s.workers && s.workers[w].phase.Closing?
    case Exit(w) => w in s.workers && s.workers[w].phase.Closed?
  }

  // ---------------------------------------------------------------- steps

  function To(s: State, w: WorkerId, phase: Phase): State
    requires w in s.workers
  {
    s.(workers := s.workers[w := s.workers[w].(phase := phase)])
  }

  /** gateway_app_on_tcp_line: what cannot be queued is answered on the server link and never accepted. */
  function RouteStep(s: State, c: Command): State {
    var t := Ticket(|s.accepted|, c);
    var (table, status) := Enqueue(s.table, c.target, c.target, t);
    if status == Ok then s.(table := table, accepted := s.accepted + [t]) else s
  }

  /** gateway_app_touch_device: the first message binds, later ones only have to agree. */
  function HearStep(s: State, w: WorkerId, node: string): State
    requires w in s.workers
  {
    var worker := s.workers[w];
    if worker.bound != "" then s else
      var r := Bind(s.table, node, worker.transport, worker.fd, worker.thread, Some(DEVICE_COMMAND_QUEUE_CAPACITY));
      if r.status != Ok then s.(table := r.table) else
        To(s, w, Binding(node, r.commands)).(table := r.table, taken := s.taken[node := Taken(s, node) + r.commands])
  }

  /** The head of the receive loop: take one command if there is one. */
  function PollStep(s: State, w: WorkerId): State
    requires w in s.workers
  {
    var worker := s.workers[w];
    if worker.bound == "" then s else
      var r := TryDequeue(s.table, worker.bound, worker.fd, worker.thread);
      if r.status == Ok then
        To(s, w, Sending(r.commands[0])).(table := r.table, taken := s.taken[worker.bound := Taken(s, worker.bound) + r.commands])
      else if r.status == Conflict then To(s, w, Leaving)
      else s
  }

  function TransmitStep(s: State, w: WorkerId, ok: bool): State
    requires w in s.workers && s.workers[w].phase.Sending?
  {
    var worker := s.workers[w];
    var t := worker.phase.ticket;
    if !Encodable(worker.transport, t.command) then To(s, w, Failing(t, EncodeFailed, false))
    else if ok then To(s, w, Receiving).(written := s.written + [t])
    else To(s, w, Failing(t, SendFailed, true))
  }

  function RefusalStep(s: State, w: WorkerId): State
    requires Enabled(s, PushRefusal(w))
  {
    var worker := s.workers[w];
    match worker.phase
    case Binding(node, replaced) =>
      To(s, w, Binding(node, replaced[1..]))
        .(refused := s.refused + [Refusal(replaced[0].command.target, replaced[0], TransportReplaced)])
    case Failing(t, reason, leave) =>
      To(s, w, if leave then Leaving else Receiving).(refused := s.refused + [Refusal(worker.bound, t, reason)])
    case Draining(pending) =>
      To(s, w, Draining(pending[1..]))
        .(refused := s.refused + [Refusal(pending[0].command.target, pending[0], TransportDisconnected)])
  }

  /** The disconnect call at the end of a connection; a superseded worker gets a conflict and takes nothing. */
  function LeaveStep(s: State, w: WorkerId): State
    requires w in s.workers
  {
    var worker := s.workers[w];
    if worker.bound == "" then To(s, w, Closing) else
      var r := Disconnect(s.table, worker.bound, worker.fd, worker.thread, Some(DEVICE_COMMAND_QUEUE_CAPACITY));
      if r.status != Ok then To(s, w, Closing) else
        To(s, w, Draining(r.commands)).(table := r.table, taken := s.taken[worker.bound := Taken(s, worker.bound) + r.commands])
  }

  function Next(s: State, step: Step): State
    requires Enabled(s, step)
  {
    match step
    case Accept(w, fd, thread) => s.(workers := s.workers[w := Worker(Wifi, thread, fd, "", Receiving)])
    case StartBluetooth(w, thread) => s.(workers := s.workers[w := Worker(Bluetooth, thread, -1, "", Closed)])
    case Reopen(w, fd) => s.(workers := s.workers[w := s.workers[w].(fd := fd, phase := Receiving)])
    case Route(c) => RouteStep(s, c)
    case Hear(w, node) => HearStep(s, w, node)
    case FinishBinding(w) =>
      s.(workers := s.workers[w := s.workers[w].(bound := s.workers[w].phase.node, phase := Receiving)])
    case Poll(w) => PollStep(s, w)
    case Transmit(w, ok) => TransmitStep(s, w, ok)
    case PushRefusal(w) => RefusalStep(s, w)
    case Lose(w) => To(s, w, Leaving)
    case LeaveRegistry(w) => LeaveStep(s, w)
    case FinishDraining(w) => To(s, w, Closing)
    case CloseFd(w) => s.(workers := s.workers[w := s.workers[w].(bound := "", phase := Closed)])
    case Exit(w) => s.(workers := s.workers - {w})
  }

  const INITIAL := State(map[], map[], [], map[], [], [])

  /** s' is reached from s by some interleaving. */
  ghost predicate Reaches(s: State, steps: seq<Step>, s': State)
    decreases |steps|
  {
    if steps == [] then s' == s
    else Enabled(s, steps[0]) && Reaches(Next(s, steps[0]), steps[1..], s')
  }

  // ---------------------------------------------------------------- ownership

  /** The worker has bound node and not yet called disconnect for it. */
  predicate Attached(worker: Worker, node: string) {
    || (worker.bound == node && node != ""
        && (worker.phase.Receiving? || worker.phase.Sending? || worker.phase.Failing? || worker.phase.Leaving?))
    || (worker.phase.Binding? && worker.phase.node == node)
  }

  predicate Owns(worker: Worker, node: string, d: Device<Ticket>) {
    d.online && worker.fd == d.fd && worker.thread == d.thread && Attached(worker, node)
  }

  ghost predicate DeviceInv(s: State, node: string)
    requires node in s.table
  {
    var d := s.table[node];
    && node != "" && |d.queue| <= DEVICE_COMMAND_QUEUE_CAPACITY
    && (d.online ==> exists w :: w in s.workers && Owns(s.workers[w], node, d))
    && (!d.online ==> d.fd == -1 && d.queue == [])
  }

  ghost predicate WorkerInv(s: State, w: WorkerId)
    requires w in s.workers
  {
    var worker := s.workers[w];
    && (!worker.phase.Closed? ==> worker.fd >= 0)
    && (worker.phase.Closed? || worker.phase.Binding? ==> worker.bound == "")
    && (worker.phase.Sending? || worker.phase.Failing? || worker.phase.Draining? ==> worker.bound != "")
    && (worker.bound != "" ==> worker.bound in s.table && s.table[worker.bound].transport == worker.transport)
    && (worker.phase.Binding? ==>
          worker.phase.node in s.table && s.table[worker.phase.node].transport == worker.transport)
  }

  /** Running threads have their own ids, open connections their own descriptors. */
  ghost predicate Distinct(s: State) {
    forall v, w :: v in s.workers && w in s.workers && v != w ==>
      && s.workers[v].thread != s.workers[w].thread
      && (s.workers[v].phase.Closed? || s.workers[w].phase.Closed? || s.workers[v].fd != s.workers[w].fd)
  }

  ghost predicate Ownership(s: State) {
    && Distinct(s)
    && (forall node :: node in s.table ==> DeviceInv(s, node))
    && (forall w :: w in s.workers ==> WorkerInv(s, w))
  }

  /** The worker that owns an online node is unique, and it is the only one the registry's thread check lets through. */
  lemma OwnerByThread(s: State, node: string, w: WorkerId)
    requires Ownership(s) && node in s.table && s.table[node].online && w in s.workers
    requires s.workers[w].thread == s.table[node].thread
    ensures Owns(s.workers[w], node, s.table[node])
  {
    assert DeviceInv(s, node);
  }

  /** A step of one worker that leaves the registry alone and keeps its attachment. */
  lemma WorkerMoves(s: State, s': State, w: WorkerId, v: Worker)
    requires Ownership(s) && w in s.workers
    requires s'.table == s.table && s'.workers == s.workers[w := v]
    requires v.transport == s.workers[w].transport && v.thread == s.workers[w].thread && v.fd == s.workers[w].fd
    requires s.workers[w].phase.Closed? ==> v.phase.Closed?
    requires forall node :: Attached(s.workers[w], node) ==> Attached(v, node)
    requires WorkerInv(s', w)
    ensures Ownership(s')
  {
    forall node | node in s'.table ensures DeviceInv(s', node) {
      assert DeviceInv(s, node);
      if s.table[node].online {
        var o :| o in s.workers && Owns(s.workers[o], node, s.table[node]);
        assert Owns(s'.workers[o], node, s'.table[node]);
      }
    }
    forall u | u in s'.workers ensures WorkerInv(s', u) {
      if u != w {
        assert WorkerInv(s, u);
      }
    }
  }

  /** A change to one device's record; the others keep their owners. */
  lemma DeviceChanges(s: State, s': State, node: string, d: Device<Ticket>, w: WorkerId, v: Worker)
    requires Ownership(s) && w in s.workers
    requires s'.table == s.table[node := d] && s'.workers == s.workers[w := v]
    requires v.transport == s.workers[w].transport && v.thread == s.workers[w].thread && v.fd == s.workers[w].fd
    requires s.workers[w].phase.Closed? ==> v.phase.Closed?
    requires forall n :: n != node && Attached(s.workers[w], n) ==> Attached(v, n)
    requires DeviceInv(s', node) && WorkerInv(s', w)
    requires node in s.table ==> s.table[node].transport == d.transport
    ensures Ownership(s')
  {
    forall n | n in s'.table ensures DeviceInv(s', n) {
      if n != node {
        assert DeviceInv(s, n);
        if s.table[n].online {
          var o :| o in s.workers && Owns(s.workers[o], n, s.table[n]);
          assert Owns(s'.workers[o], n, s'.table[n]);
        }
      }
    }
    forall u | u in s'.workers ensures WorkerInv(s', u) {
      if u != w {
        assert WorkerInv(s, u);
      }
    }
  }

  lemma NewWorker(s: State, w: WorkerId, v: Worker)
    requires Ownership(s) && w !in s.workers && ThreadFree(s, v.thread)
    requires v.bound == "" && (v.phase.Closed? || (v.phase.Receiving? && v.fd >= 0 && FdFree(s, v.fd)))
    ensures Ownership(s.(workers := s.workers[w := v]))
  {
    var s' := s.(workers := s.workers[w := v]);
    forall node | node in s'.table ensures DeviceInv(s', node) {
      assert DeviceInv(s, node);
      if s.table[node].online {
        var o :| o in s.workers && Owns(s.workers[o], node, s.table[node]);
        assert Owns(s'.workers[o], node, s'.table[node]);
      }
    }
    forall u | u in s'.workers ensures WorkerInv(s', u) {
      if u != w {
        assert WorkerInv(s, u);
      }
    }
  }

  lemma ReopenKeeps(s: State, w: WorkerId, fd: int)
    requires Ownership(s) && Enabled(s, Reopen(w, fd))
    ensures Ownership(Next(s, Reopen(w, fd)))
  {
    var s' := Next(s, Reopen(w, fd));
    assert WorkerInv(s, w);
    forall node | node in s'.table ensures DeviceInv(s', node) {
      assert DeviceInv(s, node);
      if s.table[node].online {
        var o :| o in s.workers && Owns(s.workers[o], node, s.table[node]);
        assert o != w && Owns(s'.workers[o], node, s'.table[node]);
      }
    }
    forall u | u in s'.workers ensures WorkerInv(s', u) {
      assert WorkerInv(s, u);
    }
  }

  lemma ExitKeeps(s: State, w: WorkerId)
    requires Ownership(s) && Enabled(s, Exit(w))
    ensures Ownership(Next(s, Exit(w)))
  {
    var s' := Next(s, Exit(w));
    forall node | node in s'.table ensures DeviceInv(s', node) {
      assert DeviceInv(s, node);
      if s.table[node].online {
        var o :| o in s.workers && Owns(s.workers[o], node, s.table[node]);
        assert WorkerInv(s, w);
        assert o != w && Owns(s'.workers[o], node, s'.table[node]);
      }
    }
    forall u | u in s'.workers ensures WorkerInv(s', u) {
      assert WorkerInv(s, u);
    }
  }

  lemma RouteKeeps(s: State, c: Command)
    requires Ownership(s)
    ensures Ownership(RouteStep(s, c))
  {
    var s' := RouteStep(s, c);
    forall node | node in s'.table ensures DeviceInv(s', node) {
      assert DeviceInv(s, node);
      if s.table[node].online {
        var o :| o in s.workers && Owns(s.workers[o], node, s.table[node]);
        assert Owns(s'.workers[o], node, s'.table[node]);
      }
    }
    forall u | u in s'.workers ensures WorkerInv(s', u) {
      assert WorkerInv(s, u);
    }
  }

  lemma HearKeeps(s: State, w: WorkerId, node: string)
    requires Ownership(s) && Enabled(s, Hear(w, node))
    ensures Ownership(HearStep(s, w, node))
  {
    var worker := s.workers[w];
    assert WorkerInv(s, w);
    if worker.bound == "" {
      var r := Bind(s.table, node, worker.transport, worker.fd, worker.thread, Some(DEVICE_COMMAND_QUEUE_CAPACITY));
      if r.status == Ok {
        var s' := HearStep(s, w, node);
        var v := worker.(phase := Binding(node, r.commands));
        assert Owns(v, node, r.table[node]);
        assert s'.workers[w] == v;
        if node in s.table && r.table == s.table {
          WorkerMoves(s, s', w, v);
        } else {
          DeviceChanges(s, s', node, r.table[node], w, v);
        }
      }
    }
  }

  lemma PollKeeps(s: State, w: WorkerId)
    requires Ownership(s) && Enabled(s, Poll(w))
    ensures Ownership(PollStep(s, w))
  {
    var worker := s.workers[w];
    assert WorkerInv(s, w);
    if worker.bound != "" {
      var node := worker.bound;
      var r := TryDequeue(s.table, node, worker.fd, worker.thread);
      var s' := PollStep(s, w);
      assert DeviceInv(s, node);
      if r.status == Ok {
        OwnerByThread(s, node, w);
        var v := worker.(phase := Sending(r.commands[0]));
        assert Owns(v, node, r.table[node]) && s'.workers[w] == v;
        DeviceChanges(s, s', node, r.table[node], w, v);
      } else if r.status == Conflict {
        WorkerMoves(s, s', w, worker.(phase := Leaving));
      }
    }
  }

  lemma LeaveKeeps(s: State, w: WorkerId)
    requires Ownership(s) && Enabled(s, LeaveRegistry(w))
    ensures Ownership(LeaveStep(s, w))
  {
    var worker := s.workers[w];
    var s' := LeaveStep(s, w);
    assert WorkerInv(s, w);
    if worker.bound == "" {
      WorkerMoves(s, s', w, worker.(phase := Closing));
    } else {
      var node := worker.bound;
      assert DeviceInv(s, node);
      var d := s.table[node];
      var r := Disconnect(s.table, node, worker.fd, worker.thread, Some(DEVICE_COMMAND_QUEUE_CAPACITY));
      if r.status == Ok {
        DeviceChanges(s, s', node, r.table[node], w, worker.(phase := Draining(r.commands)));
      } else {
        assert s'.table == s.table[node := d];
        if d.online {
          var o :| o in s.workers && Owns(s.workers[o], node, d);
          assert Owns(s'.workers[o], node, d);
        }
        DeviceChanges(s, s', node, d, w, worker.(phase := Closing));
      }
    }
  }

  lemma NodesHaveNames(s: State)
    requires Ownership(s)
    ensures "" !in s.table
  {
    forall node | node in s.table ensures node != "" {
      assert DeviceInv(s, node);
    }
  }

  /** Steps that only move a worker along. */
  predicate MovesWorker(step: Step) {
    step.FinishBinding? || step.Transmit? || step.PushRefusal? || step.Lose? || step.FinishDraining? || step.CloseFd?
  }

  lemma MovingKeeps(s: State, step: Step)
    requires Ownership(s) && Enabled(s, step) && MovesWorker(step)
    ensures Ownership(Next(s, step))
  {
    hide Distinct, DeviceInv, Encodable;
    NodesHaveNames(s);
    var s' := Next(s, step);
    assert WorkerInv(s, step.w);
    WorkerMoves(s, s', step.w, s'.workers[step.w]);
  }

  lemma StepKeepsOwnership(s: State, step: Step)
    requires Ownership(s) && Enabled(s, step)
    ensures Ownership(Next(s, step))
  {
    hide Ownership, HearStep, PollStep, LeaveStep, RouteStep;
    match step {
      case Accept(w, fd, thread) => NewWorker(s, w, Worker(Wifi, thread, fd, "", Receiving));
      case StartBluetooth(w, thread) => NewWorker(s, w, Worker(Bluetooth, thread, -1, "", Closed));
      case Reopen(w, fd) => ReopenKeeps(s, w, fd);
      case Route(c) => RouteKeeps(s, c);
      case Hear(w, node) => HearKeeps(s, w, node);
      case Poll(w) => PollKeeps(s, w);
      case LeaveRegistry(w) => LeaveKeeps(s, w);
      case Exit(w) => ExitKeeps(s, w);
      case _ => MovingKeeps(s, step);
    }
  }

  // ---------------------------------------------------------------- conservation

  /** Where a command instance can be. */
  datatype Place = AtDevice(node: string) | InHands(w: WorkerId) | Written | Refused

  function Hands(phase: Phase): seq<Ticket> {
    match phase
    case Binding(_, replaced) => replaced
    case Sending(t) => [t]
    case Failing(t, _, _) => [t]
    case Draining(pending) => pending
    case _ => []
  }

  function TicketsOf(refused: seq<Refusal>): (tickets: seq<Ticket>)
    ensures |tickets| == |refused|
    ensures forall i :: 0 <= i < |refused| ==> tickets[i] == refused[i].ticket
  {
    seq(|refused|, i requires 0 <= i < |refused| => refused[i].ticket)
  }

  function Contents(s: State, p: Place): seq<Ticket> {
    match p
    case AtDevice(node) => QueueOf(s, node)
    case InHands(w) => if w in s.workers then Hands(s.workers[w].phase) else []
    case Written => s.written
    case Refused => TicketsOf(s.refused)
  }

  /** The k-th command at place p is t. */
  ghost predicate Holds(c: Place -> seq<Ticket>, p: Place, k: nat, t: Ticket) {
    k < |c(p)| && c(p)[k] == t
  }

  ghost predicate IsAccepted(accepted: seq<Ticket>, t: Ticket) {
    t.number < |accepted| && accepted[t.number] == t
  }

  ghost predicate Somewhere(c: Place -> seq<Ticket>, t: Ticket) {
    exists p: Place, k: nat :: Holds(c, p, k, t)
  }

  /** Every accepted command is held at exactly one position of exactly one place, and nothing else is held. */
  ghost predicate Conserved(c: Place -> seq<Ticket>, accepted: seq<Ticket>) {
    && (forall i :: 0 <= i < |accepted| ==> accepted[i].number == i && Somewhere(c, accepted[i]))
    && (forall p: Place, k: nat, t: Ticket :: Holds(c, p, k, t) ==> IsAccepted(accepted, t))
    && (forall p: Place, j: nat, q: Place, k: nat, t: Ticket :: Holds(c, p, j, t) && Holds(c, q, k, t) ==> p == q && j == k)
  }

  /** Commands from the front of one place go to the end of another. */
  ghost predicate Moved(c: Place -> seq<Ticket>, d: Place -> seq<Ticket>, from: Place, to: Place, n: nat) {
    && from != to && n <= |c(from)|
    && d(from) == c(from)[n..] && d(to) == c(to) + c(from)[..n]
    && forall p :: p != from && p != to ==> d(p) == c(p)
  }

  /** Where position k of place p in d was before the move. */
  lemma MoveBack(c: Place -> seq<Ticket>, d: Place -> seq<Ticket>, from: Place, to: Place, n: nat, p: Place, k: nat, t: Ticket)
      returns (p0: Place, k0: nat)
    requires Moved(c, d, from, to, n) && Holds(d, p, k, t)
    ensures Holds(c, p0, k0, t)
    ensures p0 == (if p == to && k >= |c(to)| then from else p)
    ensures k0 == if p == from then k + n else if p == to && k >= |c(to)| then k - |c(to)| else k
  {
    p0 := if p == to && k >= |c(to)| then from else p;
    k0 := if p == from then k + n else if p == to && k >= |c(to)| then k - |c(to)| else k;
  }

  lemma MoveForward(c: Place -> seq<Ticket>, d: Place -> seq<Ticket>, from: Place, to: Place, n: nat, t: Ticket)
    requires Moved(c, d, from, to, n) && Somewhere(c, t)
    ensures Somewhere(d, t)
  {
    var p: Place, k: nat :| Holds(c, p, k, t);
    if p == from && k < n {
      assert Holds(d, to, |c(to)| + k, t);
    } else if p == from {
      assert Holds(d, from, k - n, t);
    } else {
      assert Holds(d, p, k, t);
    }
  }

  lemma MoveConserves(c: Place -> seq<Ticket>, d: Place -> seq<Ticket>, accepted: seq<Ticket>, from: Place, to: Place, n: nat)
    requires Conserved(c, accepted) && Moved(c, d, from, to, n)
    ensures Conserved(d, accepted)
  {
    forall i | 0 <= i < |accepted| ensures accepted[i].number == i && Somewhere(d, accepted[i]) {
      MoveForward(c, d, from, to, n, accepted[i]);
    }
    forall p: Place, k: nat, t: Ticket | Holds(d, p, k, t) ensures IsAccepted(accepted, t) {
      var p0, k0 := MoveBack(c, d, from, to, n, p, k, t);
    }
    forall p: Place, j: nat, q: Place, k: nat, t: Ticket | Holds(d, p, j, t) && Holds(d, q, k, t) ensures p == q && j == k {
      var p0, j0 := MoveBack(c, d, from, to, n, p, j, t);
      var q0, k0 := MoveBack(c, d, from, to, n, q, k, t);
      assert p0 == q0 && j0 == k0;
    }
  }

  /** A freshly accepted command joins the end of a place. */
  lemma ArrivalConserves(c: Place -> seq<Ticket>, d: Place -> seq<Ticket>, accepted: seq<Ticket>, to: Place, t: Ticket)
    requires Conserved(c, accepted) && t.number == |accepted|
    requires d(to) == c(to) + [t] && forall p :: p != to ==> d(p) == c(p)
    ensures Conserved(d, accepted + [t])
  {
    var all := accepted + [t];
    forall i | 0 <= i < |all| ensures all[i].number == i && Somewhere(d, all[i]) {
      if i < |accepted| {
        var p: Place, k: nat :| Holds(c, p, k, accepted[i]);
        assert Holds(d, p, k, all[i]);
      } else {
        assert Holds(d, to, |c(to)|, t);
      }
    }
    forall p: Place, k: nat, u: Ticket | Holds(d, p, k, u) ensures IsAccepted(all, u) {
      assert Holds(c, p, k, u) || u == t;
    }
    forall p: Place, j: nat, q: Place, k: nat, u: Ticket | Holds(d, p, j, u) && Holds(d, q, k, u) ensures p == q && j == k {
      assert Holds(c, p, j, u) || (p == to && j == |c(to)| && u == t);
      assert Holds(c, q, k, u) || (q == to && k == |c(to)| && u == t);
      assert u == t ==> !IsAccepted(accepted, u);
    }
  }

  function ContentsOf(s: State): Place -> seq<Ticket> {
    p => Contents(s, p)
  }

  lemma SameContents(c: Place -> seq<Ticket>, d: Place -> seq<Ticket>, accepted: seq<Ticket>)
    requires Conserved(c, accepted) && forall p :: d(p) == c(p)
    ensures Conserved(d, accepted)
  {
    assert Moved(c, d, Written, Place.Refused, 0);
    MoveConserves(c, d, accepted, Written, Place.Refused, 0);
  }

  ghost predicate Conservation(s: State) {
    Conserved(ContentsOf(s), s.accepted)
  }

  /** What has left a node's queue, followed by what is still in it, is what was routed to the node, in order. */
  function Routed(accepted: seq<Ticket>, node: string): seq<Ticket> {
    if accepted == [] then [] else
      var init := Routed(accepted[..|accepted| - 1], node);
      var last := accepted[|accepted| - 1];
      if last.command.target == node then init + [last] else init
  }

  ghost predicate Fifo(s: State) {
    forall node :: Taken(s, node) + QueueOf(s, node) == Routed(s.accepted, node)
  }

  /** Refusals, and what a worker is about to send, concern the node they name. */
  ghost predicate Targeted(s: State) {
    && (forall i :: 0 <= i < |s.refused| ==> s.refused[i].node == s.refused[i].ticket.command.target)
    && (forall w :: w in s.workers && (s.workers[w].phase.Sending? || s.workers[w].phase.Failing?) ==>
          s.workers[w].phase.ticket.command.target == s.workers[w].bound)
  }

  ghost predicate Inv(s: State) {
    Ownership(s) && Conservation(s) && Fifo(s) && Targeted(s)
  }

  lemma {:induction false} RoutedTargets(accepted: seq<Ticket>, node: string)
    ensures forall i :: 0 <= i < |Routed(accepted, node)| ==> Routed(accepted, node)[i].command.target == node
    decreases |accepted|
  {
    if accepted != [] {
      RoutedTargets(accepted[..|accepted| - 1], node);
    }
  }

  /** Every queued command targets its own device. */
  lemma QueuedTargets(s: State, node: string, k: nat)
    requires Fifo(s) && k < |QueueOf(s, node)|
    ensures QueueOf(s, node)[k].command.target == node
  {
    RoutedTargets(s.accepted, node);
    assert Routed(s.accepted, node)[|Taken(s, node)| + k] == QueueOf(s, node)[k];
  }

  // ---------------------------------------------------------------- every step keeps the books

  /** n commands leave the queue of node into the hands of w. */
  ghost predicate TakesOver(s: State, s': State, node: string, w: WorkerId, n: nat) {
    && n <= |QueueOf(s, node)| && w in s.workers && w in s'.workers
    && Hands(s.workers[w].phase) == [] && Hands(s'.workers[w].phase) == QueueOf(s, node)[..n]
    && QueueOf(s', node) == QueueOf(s, node)[n..]
    && (forall m :: m != node ==> QueueOf(s', m) == QueueOf(s, m))
    && s'.workers.Keys == s.workers.Keys && (forall v :: v in s.workers && v != w ==> s'.workers[v] == s.workers[v])
    && s'.accepted == s.accepted && s'.written == s.written && s'.refused == s.refused
    && s'.taken == s.taken[node := Taken(s, node) + QueueOf(s, node)[..n]]
  }

  lemma TakingConserves(s: State, s': State, node: string, w: WorkerId, n: nat)
    requires Conservation(s) && Fifo(s) && TakesOver(s, s', node, w, n)
    ensures Conservation(s') && Fifo(s')
  {
    TakingFifo(s, s', node, w, n);
    hide Fifo, Routed;
    var c, d := ContentsOf(s), ContentsOf(s');
    assert d(InHands(w)) == c(InHands(w)) + c(AtDevice(node))[..n];
    forall p | p != AtDevice(node) && p != InHands(w) ensures d(p) == c(p) {
    }
    MoveConserves(c, d, s.accepted, AtDevice(node), InHands(w), n);
  }

  lemma TakingFifo(s: State, s': State, node: string, w: WorkerId, n: nat)
    requires Fifo(s) && TakesOver(s, s', node, w, n)
    ensures Fifo(s')
  {
    hide Routed, QueueOf;
    forall m ensures Taken(s', m) + QueueOf(s', m) == Routed(s'.accepted, m) {
      assert Taken(s, m) + QueueOf(s, m) == Routed(s.accepted, m);
      TakenFrom(s, s', node, w, n, m);
    }
  }

  lemma TakenFrom(s: State, s': State, node: string, w: WorkerId, n: nat, m: string)
    requires TakesOver(s, s', node, w, n)
    ensures Taken(s', m) + QueueOf(s', m) == Taken(s, m) + QueueOf(s, m)
  {
    hide QueueOf;
    var queue := QueueOf(s, node);
    assert queue == queue[..n] + queue[n..];
    assert Taken(s, node) + queue[..n] + queue[n..] == Taken(s, node) + (queue[..n] + queue[n..]);
  }

  /** What w is about to send or refuse still concerns its node. */
  lemma TargetsKept(s: State, s': State, w: WorkerId)
    requires Targeted(s) && w in s'.workers && s'.refused == s.refused
    requires s'.workers == s.workers[w := s'.workers[w]]
    requires s'.workers[w].phase.Sending? || s'.workers[w].phase.Failing? ==>
               s'.workers[w].phase.ticket.command.target == s'.workers[w].bound
    ensures Targeted(s')
  {
  }

  lemma HearMoves(s: State, w: WorkerId, node: string)
    requires Enabled(s, Hear(w, node)) && s.workers[w].bound == "" && HearStep(s, w, node).workers[w].phase.Binding?
    ensures var s' := HearStep(s, w, node); TakesOver(s, s', node, w, |Hands(s'.workers[w].phase)|)
    ensures HearStep(s, w, node).workers == s.workers[w := HearStep(s, w, node).workers[w]]
  {
    var worker := s.workers[w];
    var r := Bind(s.table, node, worker.transport, worker.fd, worker.thread, Some(DEVICE_COMMAND_QUEUE_CAPACITY));
    assert r.commands == QueueOf(s, node)[..|r.commands|];
  }

  lemma HearTakes(s: State, w: WorkerId, node: string)
    requires Inv(s) && Enabled(s, Hear(w, node))
    ensures Inv(HearStep(s, w, node))
  {
    HearKeeps(s, w, node);
    var s' := HearStep(s, w, node);
    if s.workers[w].bound == "" && s'.workers[w].phase.Binding? {
      hide Ownership, Conservation, Fifo, Targeted, HearStep, TakesOver;
      HearMoves(s, w, node);
      TakingConserves(s, s', node, w, |Hands(s'.workers[w].phase)|);
      TargetsKept(s, s', w);
    } else {
      assert s' == s;
    }
  }

  lemma PollMoves(s: State, w: WorkerId)
    requires Fifo(s) && Enabled(s, Poll(w)) && PollStep(s, w).workers[w].phase.Sending?
    ensures var s' := PollStep(s, w);
            && TakesOver(s, s', s.workers[w].bound, w, 1) && s'.workers == s.workers[w := s'.workers[w]]
            && s'.workers[w].phase.ticket.command.target == s'.workers[w].bound
  {
    hide Fifo;
    var node := s.workers[w].bound;
    assert [QueueOf(s, node)[0]] == QueueOf(s, node)[..1];
    QueuedTargets(s, node, 0);
  }

  lemma PollTakes(s: State, w: WorkerId)
    requires Inv(s) && Enabled(s, Poll(w))
    ensures Inv(PollStep(s, w))
  {
    PollKeeps(s, w);
    var s' := PollStep(s, w);
    if s'.workers[w].phase.Sending? {
      hide Ownership, Conservation, Fifo, Targeted, PollStep, TakesOver;
      PollMoves(s, w);
      TakingConserves(s, s', s.workers[w].bound, w, 1);
      TargetsKept(s, s', w);
    } else if s'.workers[w].phase.Leaving? {
      hide Ownership, Conservation, Fifo, Targeted;
      StandingStill(s, s', w);
    } else {
      assert s' == s;
    }
  }

  lemma LeaveMoves(s: State, w: WorkerId)
    requires Enabled(s, LeaveRegistry(w)) && LeaveStep(s, w).workers[w].phase.Draining?
    ensures var s' := LeaveStep(s, w);
            && TakesOver(s, s', s.workers[w].bound, w, |Hands(s'.workers[w].phase)|)
            && s'.workers == s.workers[w := s'.workers[w]]
  {
    var worker := s.workers[w];
    var r := Disconnect(s.table, worker.bound, worker.fd, worker.thread, Some(DEVICE_COMMAND_QUEUE_CAPACITY));
    assert r.commands == QueueOf(s, worker.bound)[..|r.commands|];
  }

  lemma LeaveTakes(s: State, w: WorkerId)
    requires Inv(s) && Enabled(s, LeaveRegistry(w))
    ensures Inv(LeaveStep(s, w))
  {
    LeaveKeeps(s, w);
    var s' := LeaveStep(s, w);
    if s'.workers[w].phase.Draining? {
      hide Ownership, Conservation, Fifo, Targeted, LeaveStep, TakesOver;
      LeaveMoves(s, w);
      TakingConserves(s, s', s.workers[w].bound, w, |Hands(s'.workers[w].phase)|);
      TargetsKept(s, s', w);
    } else {
      hide Ownership, Conservation, Fifo, Targeted;
      StandingStill(s, s', w);
    }
  }

  /** Nothing is held before or after. */
  lemma StandingStill(s: State, s': State, w: WorkerId)
    requires Conservation(s) && Fifo(s) && Targeted(s) && w in s.workers && w in s'.workers
    requires s'.table == s.table && s'.accepted == s.accepted && s'.taken == s.taken
    requires s'.written == s.written && s'.refused == s.refused
    requires s'.workers == s.workers[w := s'.workers[w]]
    requires Hands(s.workers[w].phase) == [] && Hands(s'.workers[w].phase) == []
    ensures Conservation(s') && Fifo(s') && Targeted(s')
  {
    SameHands(s, s', w);
    TargetsKept(s, s', w);
  }

  lemma RouteConserves(s: State, c: Command)
    requires Conservation(s) && RouteStep(s, c) != s
    ensures Conservation(RouteStep(s, c))
  {
    var s' := RouteStep(s, c);
    var t := Ticket(|s.accepted|, c);
    forall p | p != AtDevice(c.target) ensures ContentsOf(s')(p) == ContentsOf(s)(p) {
    }
    assert ContentsOf(s')(AtDevice(c.target)) == ContentsOf(s)(AtDevice(c.target)) + [t];
    hide RouteStep;
    ArrivalConserves(ContentsOf(s), ContentsOf(s'), s.accepted, AtDevice(c.target), t);
  }

  lemma RouteFifo(s: State, c: Command)
    requires Fifo(s) && RouteStep(s, c) != s
    ensures Fifo(RouteStep(s, c))
  {
    var s' := RouteStep(s, c);
    forall m ensures Taken(s', m) + QueueOf(s', m) == Routed(s'.accepted, m) {
      assert Taken(s, m) + QueueOf(s, m) == Routed(s.accepted, m);
      assert s'.accepted[..|s'.accepted| - 1] == s.accepted;
    }
  }

  lemma RouteAccounts(s: State, c: Command)
    requires Inv(s)
    ensures Inv(RouteStep(s, c))
  {
    hide Ownership, Conservation, Fifo;
    RouteKeeps(s, c);
    if RouteStep(s, c) != s {
      RouteConserves(s, c);
      RouteFifo(s, c);
    }
  }

  /** The command at the head of a worker's hands goes to a log. */
  ghost predicate Logs(s: State, s': State, w: WorkerId, to: Place) {
    && (to == Written || to == Place.Refused) && w in s.workers && w in s'.workers
    && Hands(s.workers[w].phase) != [] && Hands(s'.workers[w].phase) == Hands(s.workers[w].phase)[1..]
    && s'.table == s.table && s'.accepted == s.accepted && s'.taken == s.taken
    && s'.workers == s.workers[w := s'.workers[w]]
    && s'.written == (if to == Written then s.written + [Hands(s.workers[w].phase)[0]] else s.written)
    && TicketsOf(s'.refused)
       == (if to == Place.Refused then TicketsOf(s.refused) + [Hands(s.workers[w].phase)[0]] else TicketsOf(s.refused))
  }

  lemma LoggingConserves(s: State, s': State, w: WorkerId, to: Place)
    requires Conservation(s) && Fifo(s) && Logs(s, s', w, to)
    ensures Conservation(s') && Fifo(s')
  {
    var c, d := ContentsOf(s), ContentsOf(s');
    assert d(to) == c(to) + c(InHands(w))[..1];
    forall p | p != InHands(w) && p != to ensures d(p) == c(p) {
    }
    MoveConserves(c, d, s.accepted, InHands(w), to, 1);
    forall m ensures Taken(s', m) + QueueOf(s', m) == Routed(s'.accepted, m) {
      assert Taken(s, m) + QueueOf(s, m) == Routed(s.accepted, m);
    }
  }

  /** The same commands are in the same hands. */
  lemma SameHands(s: State, s': State, w: WorkerId)
    requires Conservation(s) && Fifo(s) && w in s.workers && w in s'.workers
    requires s'.table == s.table && s'.accepted == s.accepted && s'.taken == s.taken
    requires s'.written == s.written && s'.refused == s.refused
    requires s'.workers == s.workers[w := s'.workers[w]]
    requires Hands(s'.workers[w].phase) == Hands(s.workers[w].phase)
    ensures Conservation(s') && Fifo(s')
  {
    forall p ensures ContentsOf(s')(p) == ContentsOf(s)(p) {
    }
    SameContents(ContentsOf(s), ContentsOf(s'), s.accepted);
    forall m ensures Taken(s', m) + QueueOf(s', m) == Routed(s'.accepted, m) {
      assert Taken(s, m) + QueueOf(s, m) == Routed(s.accepted, m);
    }
  }

  lemma TransmitAccounts(s: State, w: WorkerId, ok: bool)
    requires Inv(s) && Enabled(s, Transmit(w, ok))
    ensures Conservation(TransmitStep(s, w, ok)) && Fifo(TransmitStep(s, w, ok)) && Targeted(TransmitStep(s, w, ok))
  {
    hide Encodable, Ownership, Conservation, Fifo;
    var s' := TransmitStep(s, w, ok);
    TargetsKept(s, s', w);
    if s'.workers[w].phase.Receiving? {
      LoggingConserves(s, s', w, Written);
    } else {
      SameHands(s, s', w);
    }
  }

  lemma RefusalAccounts(s: State, w: WorkerId)
    requires Inv(s) && Enabled(s, PushRefusal(w))
    ensures var s' := RefusalStep(s, w); Conservation(s') && Fifo(s') && Targeted(s')
  {
    hide Ownership;
    var s' := RefusalStep(s, w);
    var r := s'.refused[|s.refused|];
    hide Conservation, Fifo;
    assert s'.refused == s.refused + [r];
    assert TicketsOf(s'.refused) == TicketsOf(s.refused) + [r.ticket];
    assert Logs(s, s', w, Place.Refused);
    LoggingConserves(s, s', w, Place.Refused);
  }

  /** Workers that come and go carry nothing. */
  lemma EmptyHandedConserves(s: State, s': State)
    requires Conservation(s) && Fifo(s) && Targeted(s)
    requires s'.table == s.table && s'.accepted == s.accepted && s'.taken == s.taken
    requires s'.written == s.written && s'.refused == s.refused
    requires forall w :: w in s.workers && w in s'.workers && s.workers[w] != s'.workers[w] ==>
               Hands(s.workers[w].phase) == [] && Hands(s'.workers[w].phase) == []
    requires forall w :: w in s.workers && w !in s'.workers ==> Hands(s.workers[w].phase) == []
    requires forall w :: w !in s.workers && w in s'.workers ==> Hands(s'.workers[w].phase) == []
    ensures Conservation(s') && Fifo(s') && Targeted(s')
  {
    forall p ensures ContentsOf(s')(p) == ContentsOf(s)(p) {
    }
    SameContents(ContentsOf(s), ContentsOf(s'), s.accepted);
    forall m ensures Taken(s', m) + QueueOf(s', m) == Routed(s'.accepted, m) {
      assert Taken(s, m) + QueueOf(s, m) == Routed(s.accepted, m);
    }
  }

  lemma StepKeepsInv(s: State, step: Step)
    requires Inv(s) && Enabled(s, step)
    ensures Inv(Next(s, step))
  {
    hide Ownership, Conservation, Fifo, Targeted, HearStep, PollStep, LeaveStep, RouteStep, TransmitStep, RefusalStep;
    StepKeepsOwnership(s, step);
    match step {
      case Route(c) => RouteAccounts(s, c);
      case Hear(w, node) => HearTakes(s, w, node);
      case Poll(w) => PollTakes(s, w);
      case LeaveRegistry(w) => LeaveTakes(s, w);
      case Transmit(w, ok) => TransmitAccounts(s, w, ok);
      case PushRefusal(w) => RefusalAccounts(s, w);
      case _ => EmptyHandedConserves(s, Next(s, step));
    }
  }

  // ---------------------------------------------------------------- over all runs

  lemma InitiallyInv()
    ensures Inv(INITIAL)
  {
    forall p: Place, k: nat, t: Ticket ensures !Holds(ContentsOf(INITIAL), p, k, t) {
      assert Contents(INITIAL, p) == [];
    }
  }

  lemma {:induction false} RunsKeepInv(s: State, steps: seq<Step>, s': State)
    requires Inv(s) && Reaches(s, steps, s')
    ensures Inv(s')
    decreases |steps|
  {
    hide Inv, Next, Enabled;
    if steps != [] {
      StepKeepsInv(s, steps[0]);
      RunsKeepInv(Next(s, steps[0]), steps[1..], s');
    }
  }

  /** In every reachable state an accepted command is in one queue, one worker's hands, the written log or one refusal. */
  lemma ExactlyOnce(steps: seq<Step>, s: State, i: nat)
    requires Reaches(INITIAL, steps, s) && i < |s.accepted|
    ensures exists p: Place, k: nat :: Holds(ContentsOf(s), p, k, s.accepted[i])
    ensures forall p: Place, j: nat, q: Place, k: nat :: Holds(ContentsOf(s), p, j, s.accepted[i]) && Holds(ContentsOf(s), q, k, s.accepted[i])
                                 ==> p == q && j == k
  {
    InitiallyInv();
    RunsKeepInv(INITIAL, steps, s);
    assert Somewhere(ContentsOf(s), s.accepted[i]);
  }

  /** Nothing is ever sent or refused that was not accepted. */
  lemma NothingInvented(steps: seq<Step>, s: State, i: nat)
    requires Reaches(INITIAL, steps, s)
    ensures i < |s.written| ==> s.written[i] in s.accepted
    ensures i < |s.refused| ==> s.refused[i].ticket in s.accepted && s.refused[i].node == s.refused[i].ticket.command.target
  {
    InitiallyInv();
    RunsKeepInv(INITIAL, steps, s);
    var c := ContentsOf(s);
    if i < |s.written| {
      assert Holds(c, Written, i, s.written[i]);
    }
    if i < |s.refused| {
      assert Holds(c, Place.Refused, i, s.refused[i].ticket);
    }
  }

  /** Commands leave each node's queue in the order they were routed to it. */
  lemma QueuesAreFifo(steps: seq<Step>, s: State, node: string)
    requires Reaches(INITIAL, steps, s)
    ensures Taken(s, node) <= Routed(s.accepted, node)
    ensures Taken(s, node) + QueueOf(s, node) == Routed(s.accepted, node)
  {
    InitiallyInv();
    RunsKeepInv(INITIAL, steps, s);
    assert Taken(s, node) + QueueOf(s, node) == Routed(s.accepted, node);
  }

  /** The registry compares only the thread on dequeue, and still no reachable worker dequeues from another's connection. */
  lemma DequeuerOwns(steps: seq<Step>, s: State, w: WorkerId)
    requires Reaches(INITIAL, steps, s) && Enabled(s, Poll(w)) && s.workers[w].bound != ""
    requires var worker := s.workers[w];
             TryDequeue(s.table, worker.bound, worker.fd, worker.thread).status == Ok
    ensures Owns(s.workers[w], s.workers[w].bound, s.table[s.workers[w].bound])
  {
    InitiallyInv();
    RunsKeepInv(INITIAL, steps, s);
    OwnerByThread(s, s.workers[w].bound, w);
  }

  /** A worker whose node has another owner, or none, changes nothing in the registry any more. */
  lemma SupersededIsHarmless(steps: seq<Step>, s: State, w: WorkerId, step: Step)
    requires Reaches(INITIAL, steps, s) && w in s.workers && s.workers[w].bound != ""
    requires s.workers[w].bound in s.table && !Owns(s.workers[w], s.workers[w].bound, s.table[s.workers[w].bound])
    requires step == Poll(w) || step == LeaveRegistry(w)
    requires Enabled(s, step)
    ensures Next(s, step).table == s.table
  {
    InitiallyInv();
    RunsKeepInv(INITIAL, steps, s);
    var worker := s.workers[w];
    var d := s.table[worker.bound];
    assert WorkerInv(s, w) && DeviceInv(s, worker.bound);
    if d.online && d.thread == worker.thread {
      OwnerByThread(s, worker.bound, w);
    }
  }

  /** An offline node has no descriptor and no commands, and every queued command targets its own device. */
  lemma RegistryShape(steps: seq<Step>, s: State, node: string)
    requires Reaches(INITIAL, steps, s) && node in s.table
    ensures !s.table[node].online ==> s.table[node].fd == -1 && s.table[node].queue == []
    ensures |s.table[node].queue| <= DEVICE_COMMAND_QUEUE_CAPACITY
    ensures forall k :: 0 <= k < |s.table[node].queue| ==> s.table[node].queue[k].command.target == node
  {
    InitiallyInv();
    RunsKeepInv(INITIAL, steps, s);
    assert DeviceInv(s, node);
    forall k | 0 <= k < |s.table[node].queue| ensures s.table[node].queue[k].command.target == node {
      QueuedTargets(s, node, k);
    }
  }

  /** The workers' arrays of eight commands are always large enough. */
  lemma EightSlotsSuffice(steps: seq<Step>, s: State, node: string, transport: Transport, fd: int, thread: nat)
    requires Reaches(INITIAL, steps, s)
    ensures Bind(s.table, node, transport, fd, thread, Some(DEVICE_COMMAND_QUEUE_CAPACITY)).status != BufferTooSmall
    ensures Disconnect(s.table, node, fd, thread, Some(DEVICE_COMMAND_QUEUE_CAPACITY)).status != BufferTooSmall
  {
    if node in s.table {
      RegistryShape(steps, s, node);
    }
  }

  // ---------------------------------------------------------------- refusals are always printed

  /** The texts the gateway writes into its refusals. */
  function ReasonText(reason: Reason): NodeId {
    match reason
    case TransportReplaced => "transport_replaced"
    case TransportDisconnected => "transport_disconnected"
    case EncodeFailed => "cmd_encode_failed"
    case SendFailed => "transport_send_failed"
  }

  /** Every routed command came out of the decoder, whose sequence is a uint32_t. */
  ghost predicate DecodedRoutes(steps: seq<Step>) {
    forall k :: 0 <= k < |steps| && steps[k].Route? ==>
      exists line :: DecodeCommandLine(line).Accepted? && DecodeCommandLine(line).message == steps[k].command
  }

  ghost predicate AcceptedFit(s: State) {
    forall i :: 0 <= i < |s.accepted| ==> s.accepted[i].command.sequence < UINT32_RANGE
  }

  lemma StepKeepsAccepted(s: State, step: Step)
    requires Enabled(s, step) && !step.Route?
    ensures Next(s, step).accepted == s.accepted
  {
    hide Encodable;
  }

  lemma {:induction false} AcceptedAreDecoded(s: State, steps: seq<Step>, s': State)
    requires AcceptedFit(s) && Reaches(s, steps, s') && DecodedRoutes(steps)
    ensures AcceptedFit(s')
    decreases |steps|
  {
    if steps != [] {
      hide Enabled, Next, DecodeCommandLine;
      var step := steps[0];
      if step.Route? {
        var line :| DecodeCommandLine(line).Accepted? && DecodeCommandLine(line).message == step.command;
        JsonRelay.DecodedSequenceFits(line);
        RouteAccepts(s, step.command);
      } else {
        StepKeepsAccepted(s, step);
      }
      assert forall k :: 0 <= k < |steps[1..]| ==> steps[1..][k] == steps[k + 1];
      AcceptedAreDecoded(Next(s, step), steps[1..], s');
    }
  }

  lemma RouteAccepts(s: State, c: Command)
    ensures Enabled(s, Route(c))
    ensures var after := Next(s, Route(c)).accepted;
            after == s.accepted || after == s.accepted + [Ticket(|s.accepted|, c)]
  {
  }

  /** In every reachable state each refusal's line fits the 256 bytes it is printed into. */
  lemma RefusalsFit(steps: seq<Step>, s: State, i: nat)
    requires Reaches(INITIAL, steps, s) && DecodedRoutes(steps) && i < |s.refused|
    ensures |s.refused[i].node| < NODE_ID_SIZE && '\0' !in s.refused[i].node
    ensures |NackLine(NackMessage(s.refused[i].node, s.refused[i].ticket.command.sequence, ReasonText(s.refused[i].reason)))| < 256
  {
    hide NackObject, Reaches, DecodedRoutes;
    NothingInvented(steps, s, i);
    AcceptedAreDecoded(INITIAL, steps, s);
    NackAlwaysFits(NackMessage(s.refused[i].node, s.refused[i].ticket.command.sequence, ReasonText(s.refused[i].reason)));
  }
}
