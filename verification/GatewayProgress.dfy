/** What the gateway can always go on to do: nodes get bound, commands get accepted, and waiting commands go out in order. */
module GatewayProgress {
  import opened Text
  import opened FrameFormat
  import opened FrameBuilder
  import opened JsonMessage
  import opened DeviceManager
  import opened GatewayProtocol

  // ---------------------------------------------------------------- schedules

  lemma {:induction false} ReachesConcat(s: State, a: seq<Step>, t: State, b: seq<Step>, u: State)
    requires Reaches(s, a, t) && Reaches(t, b, u)
    ensures Reaches(s, a + b, u)
    decreases |a|
  {
    if a == [] {
      assert a + b == b;
    } else {
      assert (a + b)[0] == a[0] && (a + b)[1..] == a[1..] + b;
      ReachesConcat(Next(s, a[0]), a[1..], t, b, u);
    }
  }

  lemma OneStep(s: State, step: Step)
    requires Enabled(s, step)
    ensures Reaches(s, [step], Next(s, step))
  {
    assert [step][1..] == [];
    assert Reaches(Next(s, step), [], Next(s, step));
  }

  // ---------------------------------------------------------------- states

  /** Worker w serves node: bound to it, in its receive loop, and the registry has recorded its connection. */
  ghost predicate Serves(s: State, w: WorkerId, node: string) {
    && w in s.workers && s.workers[w].phase == Receiving && s.workers[w].bound == node && node != ""
    && node in s.table && s.table[node].online
    && s.table[node].fd == s.workers[w].fd && s.table[node].thread == s.workers[w].thread
  }

  /** The encoder of the node's transport prints the command into 256 bytes. */
  predicate Printable(transport: Transport, c: Command) {
    if transport == Bluetooth then Buildable(FRAME_MAX_LEN, c.sender, c.sequence, "CMD", c.fields)
    else |CommandText(c)| < 256
  }

  function Refusals(node: string, tickets: seq<Ticket>, reason: Reason): (r: seq<Refusal>)
    ensures |r| == |tickets| && forall i :: 0 <= i < |r| ==> r[i] == Refusal(node, tickets[i], reason)
  {
    seq(|tickets|, i requires 0 <= i < |tickets| => Refusal(node, tickets[i], reason))
  }

  lemma RefusalsSplit(node: string, tickets: seq<Ticket>, reason: Reason)
    requires tickets != []
    ensures Refusals(node, tickets, reason) == [Refusal(node, tickets[0], reason)] + Refusals(node, tickets[1..], reason)
  {
  }

  lemma ServerIsOnlineOwner(s: State, w: WorkerId, node: string)
    requires Inv(s) && Serves(s, w, node)
    ensures s.workers[w].fd >= 0 && |s.table[node].queue| <= DEVICE_COMMAND_QUEUE_CAPACITY
    ensures s.table[node].transport == s.workers[w].transport
    ensures forall k :: 0 <= k < |s.table[node].queue| ==> s.table[node].queue[k].command.target == node
  {
    assert WorkerInv(s, w) && DeviceInv(s, node);
    forall k | 0 <= k < |s.table[node].queue|
      ensures s.table[node].queue[k].command.target == node
    {
      QueuedTargets(s, node, k);
    }
  }

  // ---------------------------------------------------------------- routing

  /** A command is accepted if and only if its node is online and fewer than eight wait for it; else nothing changes. */
  lemma RouteAcceptedIff(s: State, c: Command)
    requires Inv(s)
    ensures var s' := Next(s, Route(c));
            var t := Ticket(|s.accepted|, c);
            if c.target in s.table && s.table[c.target].online && |s.table[c.target].queue| < 8 then
              && s' == s.(accepted := s.accepted + [t],
                          table := s.table[c.target := s.table[c.target].(queue := s.table[c.target].queue + [t])])
            else s' == s
  {
    if c.target in s.table {
      assert DeviceInv(s, c.target);
      if s.table[c.target].online {
        var o :| o in s.workers && Owns(s.workers[o], c.target, s.table[c.target]);
        assert WorkerInv(s, o);
      }
    }
    hide Inv;
  }

  // ---------------------------------------------------------------- serving

  /** Poll hands the serving worker the command at the head of the queue, or finds nothing when the queue is empty. */
  lemma PollHandsOut(s: State, w: WorkerId, node: string)
    requires Inv(s) && Serves(s, w, node)
    ensures Enabled(s, Poll(w))
    ensures var queue := s.table[node].queue;
            var s' := Next(s, Poll(w));
            if queue == [] then s' == s else
              && s'.workers == s.workers[w := s.workers[w].(phase := Sending(queue[0]))]
              && s'.table == s.table[node := s.table[node].(queue := queue[1..])]
              && s'.accepted == s.accepted && s'.written == s.written && s'.refused == s.refused
  {
    ServerIsOnlineOwner(s, w, node);
    hide Inv;
  }

  /** A printable command is written, or refused with the connection given up when the write fails. */
  lemma TransmitDecides(s: State, w: WorkerId, ok: bool)
    requires w in s.workers && s.workers[w].phase.Sending?
    ensures Enabled(s, Transmit(w, ok))
    ensures var t := s.workers[w].phase.ticket;
            Next(s, Transmit(w, ok))
            == if !Printable(s.workers[w].transport, t.command)
               then s.(workers := s.workers[w := s.workers[w].(phase := Failing(t, EncodeFailed, false))])
               else if ok then s.(workers := s.workers[w := s.workers[w].(phase := Receiving)], written := s.written + [t])
               else s.(workers := s.workers[w := s.workers[w].(phase := Failing(t, SendFailed, true))])
  {
    hide Buildable, CommandText;
  }

  lemma FailureIsRefused(s: State, w: WorkerId)
    requires w in s.workers && s.workers[w].phase.Failing?
    ensures Enabled(s, PushRefusal(w))
    ensures var worker := s.workers[w];
            Next(s, PushRefusal(w))
            == s.(workers := s.workers[w := worker.(phase := if worker.phase.leave then Leaving else Receiving)],
                  refused := s.refused + [Refusal(worker.bound, worker.phase.ticket, worker.phase.reason)])
  {
  }

  /** What serving one command leaves. */
  ghost predicate ServedOne(s: State, s': State, w: WorkerId, node: string)
    requires node in s.table && s.table[node].queue != [] && w in s.workers
  {
    var t := s.table[node].queue[0];
    && s'.workers == s.workers && s'.accepted == s.accepted
    && s'.table == s.table[node := s.table[node].(queue := s.table[node].queue[1..])]
    && s'.written == (if Printable(s.workers[w].transport, t.command) then s.written + [t] else s.written)
    && s'.refused == if Printable(s.workers[w].transport, t.command) then s.refused
                     else s.refused + [Refusal(node, t, EncodeFailed)]
  }

  lemma ServeOne(s: State, w: WorkerId, node: string) returns (steps: seq<Step>, s': State)
    requires Inv(s) && Serves(s, w, node) && s.table[node].queue != []
    ensures Reaches(s, steps, s') && Inv(s') && ServedOne(s, s', w, node) && Serves(s', w, node)
  {
    hide Inv, Enabled, Next, Printable, Reaches;
    var t := s.table[node].queue[0];
    PollHandsOut(s, w, node);
    var s1 := Next(s, Poll(w));
    OneStep(s, Poll(w));
    TransmitDecides(s1, w, true);
    var s2 := Next(s1, Transmit(w, true));
    OneStep(s1, Transmit(w, true));
    ReachesConcat(s, [Poll(w)], s1, [Transmit(w, true)], s2);
    steps, s' := [Poll(w)] + [Transmit(w, true)], s2;
    if !Printable(s.workers[w].transport, t.command) {
      FailureIsRefused(s2, w);
      s' := Next(s2, PushRefusal(w));
      OneStep(s2, PushRefusal(w));
      ReachesConcat(s, steps, s2, [PushRefusal(w)], s');
      steps := steps + [PushRefusal(w)];
    }
    assert s'.workers == s.workers;
    RunsKeepInv(s, steps, s');
  }

  function Printed(transport: Transport, queue: seq<Ticket>): seq<Ticket> {
    if queue == [] then []
    else (if Printable(transport, queue[0].command) then [queue[0]] else []) + Printed(transport, queue[1..])
  }

  function Unprinted(transport: Transport, queue: seq<Ticket>): seq<Ticket> {
    if queue == [] then []
    else (if Printable(transport, queue[0].command) then [] else [queue[0]]) + Unprinted(transport, queue[1..])
  }

  /** What serving the whole queue leaves. */
  ghost predicate ServedAll(s: State, s': State, w: WorkerId, node: string)
    requires node in s.table && w in s.workers
  {
    var queue := s.table[node].queue;
    && s'.workers == s.workers && s'.accepted == s.accepted
    && s'.table == s.table[node := s.table[node].(queue := [])]
    && s'.written == s.written + Printed(s.workers[w].transport, queue)
    && s'.refused == s.refused + Refusals(node, Unprinted(s.workers[w].transport, queue), EncodeFailed)
  }

  lemma ServedStep(s: State, s1: State, s': State, w: WorkerId, node: string)
    requires node in s.table && s.table[node].queue != [] && w in s.workers
    requires ServedOne(s, s1, w, node) && ServedAll(s1, s', w, node)
    ensures ServedAll(s, s', w, node)
  {
    hide Printable, Printed, Unprinted, Refusals;
    var queue := s.table[node].queue;
    assert s1.table[node].queue == queue[1..];
    PrintedStep(s.workers[w].transport, queue, s.written);
    UnprintedStep(node, s.workers[w].transport, queue, s.refused);
  }

  lemma PrintedStep(transport: Transport, queue: seq<Ticket>, before: seq<Ticket>)
    requires queue != []
    ensures before + Printed(transport, queue)
            == (if Printable(transport, queue[0].command) then before + [queue[0]] else before) + Printed(transport, queue[1..])
  {
    hide Printable;
  }

  lemma UnprintedStep(node: string, transport: Transport, queue: seq<Ticket>, before: seq<Refusal>)
    requires queue != []
    ensures before + Refusals(node, Unprinted(transport, queue), EncodeFailed)
            == (if Printable(transport, queue[0].command) then before else before + [Refusal(node, queue[0], EncodeFailed)])
               + Refusals(node, Unprinted(transport, queue[1..]), EncodeFailed)
  {
    hide Printable, Refusals, Unprinted;
    var rest := Unprinted(transport, queue[1..]);
    UnprintedFirst(transport, queue);
    if !Printable(transport, queue[0].command) {
      FirstRefusal(node, queue[0], rest, EncodeFailed, before);
    }
  }

  lemma UnprintedFirst(transport: Transport, queue: seq<Ticket>)
    requires queue != []
    ensures Unprinted(transport, queue)
            == if Printable(transport, queue[0].command) then Unprinted(transport, queue[1..])
               else [queue[0]] + Unprinted(transport, queue[1..])
  {
    hide Printable;
  }

  lemma FirstRefusal(node: string, t: Ticket, rest: seq<Ticket>, reason: Reason, before: seq<Refusal>)
    ensures before + Refusals(node, [t] + rest, reason) == before + [Refusal(node, t, reason)] + Refusals(node, rest, reason)
  {
    assert ([t] + rest)[1..] == rest;
    RefusalsSplit(node, [t] + rest, reason);
    hide Refusals;
  }

  /**
   * From any state that keeps the invariant, a serving worker can take its whole queue: what the encoder prints is
   * written in order, the rest refused in order as not encodable, and nothing is left.
   */
  lemma {:induction false} QueueGoesOut(s: State, w: WorkerId, node: string) returns (steps: seq<Step>, s': State)
    requires Inv(s) && Serves(s, w, node)
    ensures Reaches(s, steps, s') && Inv(s') && ServedAll(s, s', w, node) && Serves(s', w, node)
    decreases |s.table[node].queue|
  {
    hide Inv, Reaches, ServedOne, ServedAll;
    if s.table[node].queue == [] {
      steps, s' := [], s;
      NothingToServe(s, w, node);
    } else {
      var first, s1 := ServeOne(s, w, node);
      var w1 := s1.table[node];
      ShorterQueue(s, s1, w, node);
      steps, s' := QueueGoesOut(s1, w, node);
      ReachesConcat(s, first, s1, steps, s');
      ServedStep(s, s1, s', w, node);
      steps := first + steps;
    }
  }

  lemma NothingToServe(s: State, w: WorkerId, node: string)
    requires node in s.table && w in s.workers && s.table[node].queue == []
    ensures Reaches(s, [], s) && ServedAll(s, s, w, node)
  {
    assert s.table == s.table[node := s.table[node].(queue := [])];
  }

  lemma ShorterQueue(s: State, s1: State, w: WorkerId, node: string)
    requires node in s.table && s.table[node].queue != [] && w in s.workers && ServedOne(s, s1, w, node)
    ensures node in s1.table && |s1.table[node].queue| < |s.table[node].queue| && w in s1.workers
  {
  }

  // ---------------------------------------------------------------- refusing what is in a worker's hands

  /** The commands a worker still has to refuse, and why. */
  ghost predicate Refusing(s: State, w: WorkerId, node: string, tickets: seq<Ticket>, reason: Reason) {
    && w in s.workers
    && s.workers[w].phase == (if reason == TransportReplaced then Binding(node, tickets) else Draining(tickets))
    && (reason == TransportReplaced || reason == TransportDisconnected)
    && forall i :: 0 <= i < |tickets| ==> tickets[i].command.target == node
  }

  lemma {:induction false} RefuseAll(s: State, w: WorkerId, node: string, tickets: seq<Ticket>, reason: Reason)
    returns (steps: seq<Step>, s': State)
    requires Inv(s) && Refusing(s, w, node, tickets, reason)
    ensures Reaches(s, steps, s') && Inv(s') && Refusing(s', w, node, [], reason)
    ensures s' == s.(workers := s.workers[w := s.workers[w].(phase := s'.workers[w].phase)],
                     refused := s.refused + Refusals(node, tickets, reason))
    decreases |tickets|
  {
    if tickets == [] {
      steps, s' := [], s;
      assert s.workers == s.workers[w := s.workers[w].(phase := s.workers[w].phase)];
      assert s.refused + Refusals(node, [], reason) == s.refused;
    } else {
      hide Inv, Reaches, Enabled, Next;
      RefusedOne(s, w, node, tickets, reason);
      var s1 := Next(s, PushRefusal(w));
      OneStep(s, PushRefusal(w));
      RunsKeepInv(s, [PushRefusal(w)], s1);
      steps, s' := RefuseAll(s1, w, node, tickets[1..], reason);
      ReachesConcat(s, [PushRefusal(w)], s1, steps, s');
      RefusedTwice(s, s1, s', w, node, tickets, reason);
      steps := [PushRefusal(w)] + steps;
    }
  }

  lemma RefusedTwice(s: State, s1: State, s': State, w: WorkerId, node: string, tickets: seq<Ticket>, reason: Reason)
    requires w in s.workers && w in s1.workers && w in s'.workers && tickets != []
    requires s1 == s.(workers := s.workers[w := s.workers[w].(phase := s1.workers[w].phase)],
                      refused := s.refused + [Refusal(node, tickets[0], reason)])
    requires s' == s1.(workers := s1.workers[w := s1.workers[w].(phase := s'.workers[w].phase)],
                       refused := s1.refused + Refusals(node, tickets[1..], reason))
    ensures s' == s.(workers := s.workers[w := s.workers[w].(phase := s'.workers[w].phase)],
                     refused := s.refused + Refusals(node, tickets, reason))
  {
    hide Refusals;
    RefusalsSplit(node, tickets, reason);
    assert s1.workers[w := s1.workers[w].(phase := s'.workers[w].phase)]
        == s.workers[w := s.workers[w].(phase := s'.workers[w].phase)];
  }

  lemma RefusedOne(s: State, w: WorkerId, node: string, tickets: seq<Ticket>, reason: Reason)
    requires Refusing(s, w, node, tickets, reason) && tickets != []
    ensures Enabled(s, PushRefusal(w))
    ensures var s1 := Next(s, PushRefusal(w));
            && Refusing(s1, w, node, tickets[1..], reason)
            && s1 == s.(workers := s.workers[w := s.workers[w].(phase := s1.workers[w].phase)],
                        refused := s.refused + [Refusal(node, tickets[0], reason)])
  {
  }

  // ---------------------------------------------------------------- binding and taking over

  /** A connection whose first message has not come yet. */
  ghost predicate Unidentified(s: State, w: WorkerId) {
    w in s.workers && s.workers[w].phase == Receiving && s.workers[w].bound == ""
  }

  /** Whether the registry takes the node on this transport: known with it, or new with a free slot. */
  predicate Bindable(s: State, transport: Transport, node: string) {
    && 0 < |node| < 32
    && if node in s.table then s.table[node].transport == transport else |s.table| < 16
  }

  /** The first message binds the connection if and only if the node is bindable; the old queue comes along to be refused. */
  lemma HearBindsIff(s: State, w: WorkerId, node: string)
    requires Inv(s) && Unidentified(s, w)
    ensures Enabled(s, Hear(w, node))
    ensures var s' := Next(s, Hear(w, node));
            var worker := s.workers[w];
            if Bindable(s, worker.transport, node) then
              && s'.workers == s.workers[w := worker.(phase := Binding(node, QueueOf(s, node)))]
              && s'.table == s.table[node := Device(worker.transport, worker.fd, true, worker.thread, [])]
              && s'.accepted == s.accepted && s'.written == s.written && s'.refused == s.refused
            else s' == s
  {
    hide Conservation, Fifo, Targeted;
    assert WorkerInv(s, w);
    if node in s.table {
      assert DeviceInv(s, node);
      if s.table[node].online && s.table[node].thread == s.workers[w].thread {
        OwnerByThread(s, node, w);
      }
    }
    hide Inv;
  }

  lemma BoundServes(s: State, w: WorkerId, node: string)
    requires Refusing(s, w, node, [], TransportReplaced) && node != "" && node in s.table && s.table[node].online
    requires s.table[node].fd == s.workers[w].fd && s.table[node].thread == s.workers[w].thread
    ensures Enabled(s, FinishBinding(w))
    ensures var s' := Next(s, FinishBinding(w));
            && s' == s.(workers := s.workers[w := s.workers[w].(bound := node, phase := Receiving)])
            && Serves(s', w, node)
  {
  }

  /**
   * Binding runs to its end: the commands that waited for the node's old connection are refused in order, and the
   * worker serves the node with an empty queue.
   */
  lemma NodeGetsBound(s: State, w: WorkerId, node: string) returns (steps: seq<Step>, s': State)
    requires Inv(s) && Unidentified(s, w) && Bindable(s, s.workers[w].transport, node)
    ensures Reaches(s, steps, s') && Inv(s') && Serves(s', w, node) && s'.table[node].queue == []
    ensures s'.workers[w].transport == s.workers[w].transport
    ensures s'.accepted == s.accepted && s'.written == s.written
    ensures s'.refused == s.refused + Refusals(node, QueueOf(s, node), TransportReplaced)
    ensures forall n :: n in s.table && n != node ==> n in s'.table && s'.table[n] == s.table[n]
  {
    hide Inv, Reaches, Enabled, Next;
    HearBindsIff(s, w, node);
    var s1 := Next(s, Hear(w, node));
    OneStep(s, Hear(w, node));
    RunsKeepInv(s, [Hear(w, node)], s1);
    QueueTargets(s, node);
    var more, s2 := RefuseAll(s1, w, node, QueueOf(s, node), TransportReplaced);
    ReachesConcat(s, [Hear(w, node)], s1, more, s2);
    BoundServes(s2, w, node);
    s' := Next(s2, FinishBinding(w));
    OneStep(s2, FinishBinding(w));
    ReachesConcat(s, [Hear(w, node)] + more, s2, [FinishBinding(w)], s');
    steps := [Hear(w, node)] + more + [FinishBinding(w)];
    RunsKeepInv(s, steps, s');
  }

  lemma QueueTargets(s: State, node: string)
    requires Inv(s)
    ensures forall i :: 0 <= i < |QueueOf(s, node)| ==> QueueOf(s, node)[i].command.target == node
  {
    forall i | 0 <= i < |QueueOf(s, node)|
      ensures QueueOf(s, node)[i].command.target == node
    {
      QueuedTargets(s, node, i);
    }
  }

  // ---------------------------------------------------------------- leaving

  /** The owner's disconnect takes the node offline and refuses its whole queue, in order. */
  lemma LeavingRefusesAll(s: State, w: WorkerId, node: string) returns (steps: seq<Step>, s': State)
    requires Inv(s) && Serves(s, w, node)
    ensures Reaches(s, steps, s') && Inv(s')
    ensures s'.table == s.table[node := s.table[node].(online := false, fd := -1, queue := [])]
    ensures s'.accepted == s.accepted && s'.written == s.written
    ensures s'.refused == s.refused + Refusals(node, s.table[node].queue, TransportDisconnected)
  {
    hide Inv, Reaches;
    ServerIsOnlineOwner(s, w, node);
    var s1 := Next(s, Lose(w));
    OneStep(s, Lose(w));
    var s2 := Next(s1, LeaveRegistry(w));
    OneStep(s1, LeaveRegistry(w));
    ReachesConcat(s, [Lose(w)], s1, [LeaveRegistry(w)], s2);
    RunsKeepInv(s, [Lose(w)] + [LeaveRegistry(w)], s2);
    LeftOwner(s, s1, s2, w, node);
    hide Enabled, Next;
    var more;
    more, s' := RefuseAll(s2, w, node, s.table[node].queue, TransportDisconnected);
    steps := [Lose(w)] + [LeaveRegistry(w)] + more;
    ReachesConcat(s, [Lose(w)] + [LeaveRegistry(w)], s2, more, s');
  }

  lemma LeftOwner(s: State, s1: State, s2: State, w: WorkerId, node: string)
    requires Serves(s, w, node) && s.workers[w].fd >= 0 && |s.table[node].queue| <= DEVICE_COMMAND_QUEUE_CAPACITY
    requires forall k :: 0 <= k < |s.table[node].queue| ==> s.table[node].queue[k].command.target == node
    requires Enabled(s, Lose(w)) && s1 == Next(s, Lose(w)) && Enabled(s1, LeaveRegistry(w)) && s2 == Next(s1, LeaveRegistry(w))
    ensures Refusing(s2, w, node, s.table[node].queue, TransportDisconnected)
    ensures s2.table == s.table[node := s.table[node].(online := false, fd := -1, queue := [])]
    ensures s2.accepted == s.accepted && s2.written == s.written && s2.refused == s.refused
  {
  }

  // ---------------------------------------------------------------- the whole way

  /** Tickets numbered from n on. */
  function Numbered(n: nat, commands: seq<Command>): (tickets: seq<Ticket>)
    ensures |tickets| == |commands| && forall i :: 0 <= i < |tickets| ==> tickets[i] == Ticket(n + i, commands[i])
  {
    seq(|commands|, i requires 0 <= i < |commands| => Ticket(n + i, commands[i]))
  }

  /** Up to eight commands can always be routed to a served node with an empty queue. */
  lemma {:induction false} CommandsAreAccepted(s: State, w: WorkerId, node: string, commands: seq<Command>)
    returns (steps: seq<Step>, s': State)
    requires Inv(s) && Serves(s, w, node) && |s.table[node].queue| + |commands| <= 8
    requires forall i :: 0 <= i < |commands| ==> commands[i].target == node
    ensures Reaches(s, steps, s') && Inv(s') && Serves(s', w, node)
    ensures s' == s.(accepted := s.accepted + Numbered(|s.accepted|, commands),
                     table := s.table[node := s.table[node].(queue := s.table[node].queue + Numbered(|s.accepted|, commands))])
    decreases |commands|
  {
    hide Inv, Reaches;
    if commands == [] {
      steps, s' := [], s;
      NothingRouted(s, node);
    } else {
      RouteAcceptedIff(s, commands[0]);
      var s1 := Next(s, Route(commands[0]));
      OneStep(s, Route(commands[0]));
      RunsKeepInv(s, [Route(commands[0])], s1);
      hide Enabled, Next;
      steps, s' := CommandsAreAccepted(s1, w, node, commands[1..]);
      ReachesConcat(s, [Route(commands[0])], s1, steps, s');
      steps := [Route(commands[0])] + steps;
      NumberedSplit(|s.accepted|, commands, s.accepted);
      NumberedSplit(|s.accepted|, commands, s.table[node].queue);
    }
  }

  lemma NothingRouted(s: State, node: string)
    requires node in s.table
    ensures Reaches(s, [], s)
    ensures s == s.(accepted := s.accepted + Numbered(|s.accepted|, []),
                    table := s.table[node := s.table[node].(queue := s.table[node].queue + Numbered(|s.accepted|, []))])
  {
    assert s.accepted + [] == s.accepted && s.table[node].queue + [] == s.table[node].queue;
    assert s.table == s.table[node := s.table[node]];
  }

  lemma NumberedSplit(n: nat, commands: seq<Command>, before: seq<Ticket>)
    requires commands != []
    ensures before + Numbered(n, commands) == before + [Ticket(n, commands[0])] + Numbered(n + 1, commands[1..])
  {
    NumberedFirst(n, commands);
    hide Numbered;
    var rest := Numbered(n + 1, commands[1..]);
    assert before + ([Ticket(n, commands[0])] + rest) == before + [Ticket(n, commands[0])] + rest;
  }

  lemma NumberedFirst(n: nat, commands: seq<Command>)
    requires commands != []
    ensures Numbered(n, commands) == [Ticket(n, commands[0])] + Numbered(n + 1, commands[1..])
  {
    var all, rest := Numbered(n, commands), Numbered(n + 1, commands[1..]);
    assert forall i :: 0 < i < |all| ==> all[i] == rest[i - 1];
  }

  /**
   * From every reachable state with a connection that has not identified itself: when its first message names a
   * bindable node, up to eight commands for that node can be accepted and every one of them is then written in order,
   * or refused as not encodable.
   */
  lemma CommandsGoOut(history: seq<Step>, s: State, w: WorkerId, node: string, commands: seq<Command>)
    returns (steps: seq<Step>, s': State)
    requires Reaches(INITIAL, history, s) && Unidentified(s, w) && Bindable(s, s.workers[w].transport, node)
    requires |commands| <= 8 && forall i :: 0 <= i < |commands| ==> commands[i].target == node
    ensures Reaches(s, steps, s') && Serves(s', w, node) && s'.table[node].queue == []
    ensures var tickets := Numbered(|s.accepted|, commands);
            var transport := s.workers[w].transport;
            && s'.accepted == s.accepted + tickets
            && s'.written == s.written + Printed(transport, tickets)
            && s'.refused == s.refused + Refusals(node, QueueOf(s, node), TransportReplaced)
                             + Refusals(node, Unprinted(transport, tickets), EncodeFailed)
  {
    hide Inv, Reaches, QueueOf;
    InitiallyInv();
    RunsKeepInv(INITIAL, history, s);
    var a, s1 := NodeGetsBound(s, w, node);
    var b, s2 := CommandsAreAccepted(s1, w, node, commands);
    ReachesConcat(s, a, s1, b, s2);
    var c;
    c, s' := QueueGoesOut(s2, w, node);
    ReachesConcat(s, a + b, s2, c, s');
    steps := a + b + c;
    assert [] + Numbered(|s.accepted|, commands) == Numbered(|s.accepted|, commands);
  }
}
