/** What the gateway does with one line from the server: queue the command for its node, or refuse it with a reason. */
module CommandRouting {
  import opened Text
  import opened FrameFormat
  import opened FrameDecoder
  import opened JsonMessage
  import opened JsonRelay
  import opened DeviceManager

  /** The reason a command cannot be queued, and None when it can: the registry is asked in this order. */
  function RouteRefusal(table: Table<Command>, c: Command): Option<NodeId> {
    if c.target == "" then Some("route_internal")
    else if c.target !in table then Some("route_not_found")
    else if !table[c.target].online || table[c.target].fd < 0 then Some("route_offline")
    else if |table[c.target].queue| >= 8 then Some("route_queue_full")
    else None
  }

  function ReasonFor(status: Status): NodeId {
    match status
    case NotFound => "route_not_found"
    case Offline => "route_offline"
    case QueueFull => "route_queue_full"
    case _ => "route_internal"
  }

  lemma StatusMeansReason(table: Table<Command>, c: Command)
    ensures var (after, status) := Enqueue(table, c.target, c.target, c);
            match RouteRefusal(table, c)
            case Some(reason) => after == table && status != Ok && ReasonFor(status) == reason
            case None =>
              status == Ok && c.target in table
              && after == table[c.target := table[c.target].(queue := table[c.target].queue + [c])]
  {
  }

  /**
   * gateway_app_on_tcp_line: the decoded command, and the refusal line written back on the link. A command that is not
   * refused waits at the end of its node's queue; a refused one, or a line that is no command, changes nothing.
   */
  method OnTcpLine(manager: DeviceManager, line: string) returns (decoded: Option<Command>, refusal: Option<string>)
    requires manager.Valid()
    modifies manager.devices, manager`table
    ensures manager.Valid()
    ensures DecodeCommandLine(line).Rejected? ==> decoded == None && refusal == None && manager.table == old(manager.table)
    ensures DecodeCommandLine(line).Accepted? ==>
              var c := DecodeCommandLine(line).message;
              var table := old(manager.table);
              && decoded == Some(c)
              && match RouteRefusal(table, c)
                 case Some(reason) =>
                   && refusal == Some(NackLine(NackMessage(c.target, c.sequence, reason)))
                   && manager.table == table
                 case None =>
                   && refusal == None && c.target in table
                   && manager.table == table[c.target := table[c.target].(queue := table[c.target].queue + [c])]
  {
    hide DecodeCommandLine, NackLine, RouteRefusal, Enqueue, ReasonFor;
    var d := MessageJsonDecodeCommand(line);
    if d.Rejected? {
      return None, None;
    }
    var c := d.message;
    StatusMeansReason(manager.table, c);
    decoded, refusal := Some(c), None;
    var status := manager.EnqueueCommand(c.target, c);
    if status == Ok {
      return;
    }
    refusal := RefusalLine(c, status);
    DecodedSequenceFits(line);
    NackAlwaysFits(NackMessage(c.target, c.sequence, ReasonFor(status)));
  }

  /** gateway_app_send_route_nack, up to the write: the switch over the status and the line it prints. */
  method RefusalLine(c: Command, status: Status) returns (line: Option<string>)
    ensures var text := NackLine(NackMessage(c.target, c.sequence, ReasonFor(status)));
            line == if |text| < 256 then Some(text) else None
  {
    hide NackLine;
    var reason: NodeId;
    match status {
      case NotFound => reason := "route_not_found";
      case Offline => reason := "route_offline";
      case QueueFull => reason := "route_queue_full";
      case _ => reason := "route_internal";
    }
    line := BuildNackLine(256, NackMessage(c.target, c.sequence, reason));
  }

  /** Every line the server can send is answered: the command waits for its node, or the refusal fits and names it. */
  lemma RefusalNamesCommand(table: Table<Command>, line: string)
    requires DecodeCommandLine(line).Accepted?
    ensures var c := DecodeCommandLine(line).message;
            match RouteRefusal(table, c)
            case Some(reason) => reason != "" && |NackLine(NackMessage(c.target, c.sequence, reason))| < 256
            case None => c.target in table && table[c.target].online && |table[c.target].queue| < 8
  {
    hide DecodeCommandLine, NackObject;
    DecodedSequenceFits(line);
    var c := DecodeCommandLine(line).message;
    match RouteRefusal(table, c) {
      case Some(reason) => NackAlwaysFits(NackMessage(c.target, c.sequence, reason));
      case None =>
    }
  }

  // ---------------------------------------------------------------- who a connection is

  /** The registry already records this very connection for the node. */
  predicate SameConnection(table: Table<Command>, node: string, fd: int, thread: nat) {
    node in table && table[node].online && table[node].fd == fd && table[node].thread == thread
  }

  /** A node can be bound when it is known on this transport and its queue fits the caller's array, or new with room left. */
  predicate CanBind(table: Table<Command>, node: string, transport: Transport, fd: int, thread: nat) {
    && node != "" && fd >= 0
    && if node in table
       then table[node].transport == transport && (SameConnection(table, node, fd, thread) || |table[node].queue| <= 8)
       else |table| < 16
  }

  lemma BindMeans(table: Table<Command>, node: NodeId, transport: Transport, fd: int, thread: nat)
    ensures var r := Bind(table, node, transport, fd, thread, Some(8));
            && (r.status == Ok <==> CanBind(table, node, transport, fd, thread))
            && r.table == (if CanBind(table, node, transport, fd, thread) && !SameConnection(table, node, fd, thread)
                           then table[node := Device(transport, fd, true, thread, [])] else table)
            && r.commands == (if r.status == Ok && node in table && !SameConnection(table, node, fd, thread)
                              then table[node].queue else [])
  {
  }

  /**
   * gateway_app_touch_device: a connection's first accepted message binds it for good and takes over the node, the
   * commands queued for the old connection handed back to be refused; later messages must name the same node.
   */
  method TouchDevice(manager: DeviceManager, bound: string, node: NodeId, transport: Transport, fd: int, thread: nat)
      returns (accepted: bool, nowBound: string, replaced: seq<Command>)
    requires manager.Valid()
    modifies manager.devices, manager`count, manager`table
    ensures manager.Valid()
    ensures bound == "" ==>
              var table := old(manager.table);
              var taken := CanBind(table, node, transport, fd, thread);
              var moves := taken && !SameConnection(table, node, fd, thread);
              && accepted == taken && nowBound == (if taken then node else "")
              && manager.table == (if moves then table[node := Device(transport, fd, true, thread, [])] else table)
              && replaced == (if moves && node in table then table[node].queue else [])
    ensures bound != "" ==>
              && accepted == (node == bound && node in old(manager.table)) && nowBound == bound
              && manager.table == old(manager.table) && replaced == []
  {
    nowBound, replaced := bound, [];
    if bound == "" {
      hide Bind, CanBind, SameConnection;
      BindMeans(manager.table, node, transport, fd, thread);
      var status;
      status, replaced := manager.BindConnectionCollectCommands(node, transport, fd, thread, Some(8));
      accepted := status == Ok;
      if accepted {
        nowBound := node;
      }
    } else if node != bound {
      accepted := false;
    } else {
      var index := manager.FindIndex(node);
      accepted := index < manager.count;
    }
  }
}
