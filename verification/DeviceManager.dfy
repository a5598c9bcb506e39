/** Who owns which node, and the commands waiting for it. */
module DeviceManager {
  import opened Text
  import opened FrameFormat
  import opened JsonMessage

  const DEVICE_MANAGER_MAX_DEVICES := 16
  const DEVICE_COMMAND_QUEUE_CAPACITY := 8

  datatype Transport = Bluetooth | Wifi

  datatype Status = Ok | Error | NotFound | Full | Conflict | Offline | QueueFull | BufferTooSmall | QueueEmpty

  // ---------------------------------------------------------------- the registry as a map

  /** One registered node; C is the type of the queued commands. */
  datatype Device<C> = Device(transport: Transport, fd: int, online: bool, thread: nat, queue: seq<C>)

  type Table<C> = map<string, Device<C>>

  datatype Collected<C> = Collected(table: Table<C>, status: Status, commands: seq<C>)

  /** capacity is the size of the caller's array, None when the caller wants no commands back. */
  function Bind<C>(table: Table<C>, node: string, transport: Transport, fd: int, thread: nat, capacity: Option<nat>)
    : Collected<C>
  {
    if node == "" || fd < 0 || |node| >= NODE_ID_SIZE then Collected(table, Error, [])
    else if node !in table then
      if |table| >= DEVICE_MANAGER_MAX_DEVICES then Collected(table, Full, [])
      else Collected(table[node := Device(transport, fd, true, thread, [])], Ok, [])
    else
      var d := table[node];
      if d.transport != transport then Collected(table, Conflict, [])
      else if d.online && d.fd == fd && d.thread == thread then Collected(table, Ok, [])
      else if capacity.Some? && capacity.value < |d.queue| then Collected(table, BufferTooSmall, [])
      else Collected(table[node := Device(transport, fd, true, thread, [])], Ok, if capacity.Some? then d.queue else [])
  }

  function Disconnect<C>(table: Table<C>, node: string, fd: int, thread: nat, capacity: Option<nat>): Collected<C> {
    if node == "" || fd < 0 then Collected(table, Error, [])
    else if node !in table then Collected(table, NotFound, [])
    else
      var d := table[node];
      if d.fd != fd || d.thread != thread then Collected(table, Conflict, [])
      else if capacity.Some? && capacity.value < |d.queue| then Collected(table, BufferTooSmall, [])
      else Collected(table[node := d.(online := false, fd := -1, queue := [])], Ok,
                     if capacity.Some? then d.queue else [])
  }

  function Enqueue<C>(table: Table<C>, node: string, target: string, command: C): (r: (Table<C>, Status)) {
    if node == "" || target != node then (table, Error)
    else if node !in table then (table, NotFound)
    else
      var d := table[node];
      if !d.online || d.fd < 0 then (table, Offline)
      else if |d.queue| >= DEVICE_COMMAND_QUEUE_CAPACITY then (table, QueueFull)
      else (table[node := d.(queue := d.queue + [command])], Ok)
  }

  /** The fd is only checked for being non-negative: ownership is decided by the thread. */
  function TryDequeue<C>(table: Table<C>, node: string, fd: int, thread: nat): Collected<C> {
    if node == "" || fd < 0 then Collected(table, Error, [])
    else if node !in table then Collected(table, NotFound, [])
    else
      var d := table[node];
      if !d.online || d.fd < 0 || d.thread != thread then Collected(table, Conflict, [])
      else if d.queue == [] then Collected(table, QueueEmpty, [])
      else Collected(table[node := d.(queue := d.queue[1..])], Ok, [d.queue[0]])
  }

  // ---------------------------------------------------------------- the array implementation

  /** device_t: a record with its ring of commands. */
  datatype Record = Record(nodeId: NodeId, transport: Transport, fd: int, online: bool, thread: nat,
                           ring: seq<Command>, head: nat, tail: nat, count: nat)

  const NO_COMMAND := Command("", "", 0, [])
  const NO_RING := [NO_COMMAND, NO_COMMAND, NO_COMMAND, NO_COMMAND, NO_COMMAND, NO_COMMAND, NO_COMMAND, NO_COMMAND]

  ghost predicate ValidRecord(r: Record) {
    && |r.ring| == DEVICE_COMMAND_QUEUE_CAPACITY && r.count <= DEVICE_COMMAND_QUEUE_CAPACITY
    && r.head < DEVICE_COMMAND_QUEUE_CAPACITY && r.tail == (r.head + r.count) % DEVICE_COMMAND_QUEUE_CAPACITY
  }

  function Pending(r: Record): (queue: seq<Command>)
    requires ValidRecord(r)
    ensures |queue| == r.count
  {
    seq(r.count, i requires 0 <= i < r.count => r.ring[(r.head + i) % DEVICE_COMMAND_QUEUE_CAPACITY])
  }

  function DeviceOf(r: Record): Device<Command>
    requires ValidRecord(r)
  {
    Device(r.transport, r.fd, r.online, r.thread, Pending(r))
  }

  lemma SlotsDiffer(head: nat, i: nat, count: nat)
    requires head < DEVICE_COMMAND_QUEUE_CAPACITY && i < count < DEVICE_COMMAND_QUEUE_CAPACITY
    ensures (head + i) % DEVICE_COMMAND_QUEUE_CAPACITY != (head + count) % DEVICE_COMMAND_QUEUE_CAPACITY
  {
  }

  lemma PushedPending(r: Record, p: Record, command: Command)
    requires ValidRecord(r) && r.count < DEVICE_COMMAND_QUEUE_CAPACITY && ValidRecord(p)
    requires p.ring == r.ring[r.tail := command] && p.head == r.head && p.count == r.count + 1
    ensures Pending(p) == Pending(r) + [command]
  {
    forall i | 0 <= i < r.count
      ensures Pending(p)[i] == Pending(r)[i]
    {
      SlotsDiffer(r.head, i, r.count);
    }
    assert Pending(p)[r.count] == command;
  }

  /** Storing a command at the tail. */
  function Pushed(r: Record, command: Command): (p: Record)
    requires ValidRecord(r) && r.count < DEVICE_COMMAND_QUEUE_CAPACITY
    ensures ValidRecord(p) && p.nodeId == r.nodeId
    ensures DeviceOf(p) == DeviceOf(r).(queue := DeviceOf(r).queue + [command])
  {
    var p := r.(ring := r.ring[r.tail := command],
                tail := (r.tail + 1) % DEVICE_COMMAND_QUEUE_CAPACITY, count := r.count + 1);
    PushedPending(r, p, command);
    p
  }

  lemma PoppedPending(r: Record, p: Record)
    requires ValidRecord(r) && r.count > 0 && ValidRecord(p)
    requires p.ring == r.ring && p.head == (r.head + 1) % DEVICE_COMMAND_QUEUE_CAPACITY && p.count == r.count - 1
    ensures Pending(p) == Pending(r)[1..] && Pending(r)[0] == r.ring[r.head]
  {
    forall i | 0 <= i < p.count
      ensures Pending(p)[i] == Pending(r)[i + 1]
    {
      assert (p.head + i) % DEVICE_COMMAND_QUEUE_CAPACITY == (r.head + (i + 1)) % DEVICE_COMMAND_QUEUE_CAPACITY;
    }
  }

  /** Taking the command at the head. */
  function Popped(r: Record): (p: Record)
    requires ValidRecord(r) && r.count > 0
    ensures ValidRecord(p) && p.nodeId == r.nodeId
    ensures DeviceOf(p) == DeviceOf(r).(queue := DeviceOf(r).queue[1..])
    ensures DeviceOf(r).queue[0] == r.ring[r.head]
  {
    var p := r.(head := (r.head + 1) % DEVICE_COMMAND_QUEUE_CAPACITY, count := r.count - 1);
    PoppedPending(r, p);
    p
  }

  /** An empty queue under a new connection state. */
  function Emptied(r: Record, fd: int, online: bool, thread: nat): (p: Record)
    requires ValidRecord(r)
    ensures ValidRecord(p) && p.nodeId == r.nodeId
    ensures DeviceOf(p) == Device(r.transport, fd, online, thread, [])
  {
    r.(fd := fd, online := online, thread := thread, head := 0, tail := 0, count := 0)
  }

  /** The first slots of the array hold exactly the registered nodes. */
  ghost predicate Represents(records: seq<Record>, table: Table<Command>) {
    |table| == |records| && Matching(records, table) && DistinctNodes(records) && Covering(records, table)
  }

  ghost predicate Matching(records: seq<Record>, table: Table<Command>) {
    forall i :: 0 <= i < |records| ==>
      && ValidRecord(records[i]) && records[i].nodeId in table
      && table[records[i].nodeId] == DeviceOf(records[i])
  }

  ghost predicate DistinctNodes(records: seq<Record>) {
    forall i, j :: 0 <= i < j < |records| ==> records[i].nodeId != records[j].nodeId
  }

  ghost predicate Covering(records: seq<Record>, table: Table<Command>) {
    forall n :: n in table ==> exists i :: 0 <= i < |records| && records[i].nodeId == n
  }

  lemma RepresentsUpdate(records: seq<Record>, table: Table<Command>, i: nat, r: Record)
    requires Represents(records, table) && i < |records| && ValidRecord(r) && r.nodeId == records[i].nodeId
    ensures Represents(records[i := r], table[r.nodeId := DeviceOf(r)])
  {
    hide ValidRecord, DeviceOf;
    var after, t := records[i := r], table[r.nodeId := DeviceOf(r)];
    assert t.Keys == table.Keys && |t| == |table|;
    assert Matching(after, t) && DistinctNodes(after);
    hide Matching, DistinctNodes;
    forall n | n in t ensures exists k :: 0 <= k < |after| && after[k].nodeId == n {
      var k :| 0 <= k < |records| && records[k].nodeId == n;
      assert after[k].nodeId == n;
    }
  }

  lemma RepresentsAppend(records: seq<Record>, table: Table<Command>, r: Record)
    requires Represents(records, table) && ValidRecord(r) && r.nodeId !in table
    ensures Represents(records + [r], table[r.nodeId := DeviceOf(r)])
  {
    hide ValidRecord, DeviceOf, Matching, DistinctNodes, Covering;
    var t := table[r.nodeId := DeviceOf(r)];
    assert t.Keys == table.Keys + {r.nodeId} && |t| == |table| + 1;
    AppendMatching(records, table, r);
    AppendDistinct(records, table, r);
    AppendCovering(records, table, r);
  }

  lemma AppendMatching(records: seq<Record>, table: Table<Command>, r: Record)
    requires Matching(records, table) && ValidRecord(r) && r.nodeId !in table
    ensures Matching(records + [r], table[r.nodeId := DeviceOf(r)])
  {
    hide DeviceOf, ValidRecord;
    var after, t := records + [r], table[r.nodeId := DeviceOf(r)];
    forall i | 0 <= i < |after|
      ensures ValidRecord(after[i]) && after[i].nodeId in t && t[after[i].nodeId] == DeviceOf(after[i])
    {
      if i < |records| {
        assert after[i] == records[i];
      }
    }
  }

  lemma AppendDistinct(records: seq<Record>, table: Table<Command>, r: Record)
    requires Matching(records, table) && DistinctNodes(records) && r.nodeId !in table
    ensures DistinctNodes(records + [r])
  {
    hide ValidRecord, DeviceOf;
  }

  lemma AppendCovering(records: seq<Record>, table: Table<Command>, r: Record)
    requires Covering(records, table) && ValidRecord(r)
    ensures Covering(records + [r], table[r.nodeId := DeviceOf(r)])
  {
    hide DeviceOf;
    var after, t := records + [r], table[r.nodeId := DeviceOf(r)];
    forall n | n in t ensures exists k :: 0 <= k < |after| && after[k].nodeId == n {
      if n == r.nodeId {
        assert after[|records|].nodeId == n;
      } else {
        var k :| 0 <= k < |records| && records[k].nodeId == n;
        assert after[k].nodeId == n;
      }
    }
  }

  class DeviceManager {
    const devices: array<Record>
    var count: nat
    ghost var table: Table<Command>

    ghost predicate Valid()
      reads this, devices
    {
      && devices.Length == DEVICE_MANAGER_MAX_DEVICES && count <= DEVICE_MANAGER_MAX_DEVICES
      && Represents(devices[..count], table)
    }

    constructor ()
      ensures Valid() && fresh(devices) && table == map[]
    {
      devices := new Record[DEVICE_MANAGER_MAX_DEVICES](_ => Record("", Bluetooth, -1, false, 0, NO_RING, 0, 0, 0));
      count := 0;
      table := map[];
    }

    /** device_manager_find_index_locked, with count for a node that is not registered. */
    method FindIndex(node: string) returns (index: nat)
      requires Valid()
      ensures index <= count
      ensures index < count ==>
                && ValidRecord(devices[index]) && devices[index].nodeId == node
                && node in table && table[node] == DeviceOf(devices[index])
      ensures index == count ==> node !in table
    {
      hide ValidRecord, DeviceOf;
      ghost var records := devices[..count];
      index := 0;
      while index < count
        invariant index <= count
        invariant forall i :: 0 <= i < index ==> records[i].nodeId != node
      {
        assert records[index] == devices[index];
        if devices[index].nodeId == node {
          return;
        }
        index := index + 1;
      }
    }

    /** Stores a record back in its slot. */
    method Store(index: nat, record: Record)
      requires Valid() && index < count && ValidRecord(record) && record.nodeId == devices[index].nodeId
      modifies devices, this`table
      ensures Valid() && table == old(table)[record.nodeId := DeviceOf(record)]
    {
      ghost var before := devices[..count];
      RepresentsUpdate(before, table, index, record);
      devices[index] := record;
      assert devices[..count] == before[index := record];
      table := table[record.nodeId := DeviceOf(record)];
    }

    /** A node seen for the first time gets the next slot. */
    method Append(record: Record)
      requires Valid() && count < DEVICE_MANAGER_MAX_DEVICES && record.nodeId !in table && ValidRecord(record)
      modifies this`count, this`table, devices
      ensures Valid() && table == old(table)[record.nodeId := DeviceOf(record)]
    {
      ghost var before := devices[..count];
      RepresentsAppend(before, table, record);
      devices[count] := record;
      count := count + 1;
      assert devices[..count] == before + [record];
      table := table[record.nodeId := DeviceOf(record)];
    }

    /** The loop that copies a queue in FIFO order. */
    method CopyQueue(record: Record) returns (commands: seq<Command>)
      requires ValidRecord(record)
      ensures commands == DeviceOf(record).queue
    {
      commands := [];
      for i := 0 to record.count
        invariant commands == Pending(record)[..i]
      {
        commands := commands + [record.ring[(record.head + i) % DEVICE_COMMAND_QUEUE_CAPACITY]];
      }
    }

    method BindConnectionCollectCommands(node: CStr, transport: Transport, fd: int, thread: nat, capacity: Option<nat>)
        returns (status: Status, commands: seq<Command>)
      requires Valid()
      modifies this`count, this`table, devices
      ensures Valid()
      ensures Collected(table, status, commands) == Bind(old(table), node, transport, fd, thread, capacity)
    {
      hide Represents, Pending;
      if node == "" || fd < 0 || |node| >= NODE_ID_SIZE {
        return Error, [];
      }
      var index := FindIndex(node);
      assert count == |table| by { CountIsSize(devices[..count], table); }
      if index == count {
        if count >= DEVICE_MANAGER_MAX_DEVICES {
          return Full, [];
        }
        var record := Record(node, transport, fd, true, thread, NO_RING, 0, 0, 0);
        assert Pending(record) == [];
        Append(record);
        return Ok, [];
      }
      var device := devices[index];
      if device.transport != transport {
        return Conflict, [];
      }
      if device.online && device.fd == fd && device.thread == thread {
        return Ok, [];
      }
      if capacity.Some? && capacity.value < device.count {
        return BufferTooSmall, [];
      }
      commands := [];
      if capacity.Some? {
        commands := CopyQueue(device);
      }
      Store(index, Emptied(device, fd, true, thread));
      return Ok, commands;
    }

    method DisconnectCollectCommands(node: string, fd: int, thread: nat, capacity: Option<nat>)
        returns (status: Status, commands: seq<Command>)
      requires Valid()
      modifies devices, this`table
      ensures Valid()
      ensures Collected(table, status, commands) == Disconnect(old(table), node, fd, thread, capacity)
    {
      hide Represents, Pending;
      if node == "" || fd < 0 {
        return Error, [];
      }
      var index := FindIndex(node);
      if index == count {
        return NotFound, [];
      }
      var device := devices[index];
      if device.fd != fd || device.thread != thread {
        return Conflict, [];
      }
      if capacity.Some? && capacity.value < device.count {
        return BufferTooSmall, [];
      }
      commands := [];
      if capacity.Some? {
        commands := CopyQueue(device);
      }
      Store(index, Emptied(device, -1, false, thread));
      return Ok, commands;
    }

    method EnqueueCommand(node: string, command: Command) returns (status: Status)
      requires Valid()
      modifies devices, this`table
      ensures Valid()
      ensures (table, status) == Enqueue(old(table), node, command.target, command)
    {
      hide Represents, Pending;
      if node == "" {
        return Error;
      }
      if command.target == "" || command.target != node {
        return Error;
      }
      var index := FindIndex(node);
      if index == count {
        return NotFound;
      }
      var device := devices[index];
      if !device.online || device.fd < 0 {
        return Offline;
      }
      if device.count >= DEVICE_COMMAND_QUEUE_CAPACITY {
        return QueueFull;
      }
      Store(index, Pushed(device, command));
      return Ok;
    }

    method TryDequeueCommand(node: string, fd: int, thread: nat) returns (status: Status, commands: seq<Command>)
      requires Valid()
      modifies devices, this`table
      ensures Valid()
      ensures Collected(table, status, commands) == TryDequeue(old(table), node, fd, thread)
    {
      hide Represents, Pending;
      if node == "" || fd < 0 {
        return Error, [];
      }
      var index := FindIndex(node);
      if index == count {
        return NotFound, [];
      }
      var device := devices[index];
      if !device.online || device.fd < 0 || device.thread != thread {
        return Conflict, [];
      }
      if device.count == 0 {
        return QueueEmpty, [];
      }
      var command := device.ring[device.head];
      Store(index, Popped(device));
      return Ok, [command];
    }
  }

  lemma CountIsSize(records: seq<Record>, table: Table<Command>)
    requires Represents(records, table)
    ensures |records| == |table|
  {
  }

  // ---------------------------------------------------------------- who may take commands out

  /** Descriptor and thread of the caller are the ones recorded for the node. */
  predicate Recorded<C>(table: Table<C>, node: string, fd: int, thread: nat) {
    node in table && table[node].fd == fd && table[node].thread == thread
  }

  /**
   * Only the recorded connection takes a node offline, and only if its whole queue fits the caller's array; then it gets
   * the whole queue. In every other case nothing changes.
   */
  lemma DisconnectTakesIff<C>(table: Table<C>, node: string, fd: int, thread: nat, capacity: Option<nat>)
    ensures var r := Disconnect(table, node, fd, thread, capacity);
            var fits := node in table && (capacity.Some? ==> |table[node].queue| <= capacity.value);
            && (r.status == Ok <==> node != "" && fd >= 0 && Recorded(table, node, fd, thread) && fits)
            && (r.status == Ok ==>
                  && r.table == table[node := table[node].(online := false, fd := -1, queue := [])]
                  && r.commands == if capacity.Some? then table[node].queue else [])
            && (r.status != Ok ==> r.table == table && r.commands == [])
            && (r.status == NotFound <==> node != "" && fd >= 0 && node !in table)
            && (r.status == Conflict <==> node != "" && fd >= 0 && node in table && !Recorded(table, node, fd, thread))
  {
  }

  /** The recorded thread of an online node gets the oldest command, if there is one; whatever descriptor it names. */
  lemma DequeueTakesIff<C>(table: Table<C>, node: string, fd: int, thread: nat)
    ensures var r := TryDequeue(table, node, fd, thread);
            var serves := node != "" && fd >= 0 && node in table && table[node].online && table[node].fd >= 0
                          && table[node].thread == thread;
            && (r.status == Ok <==> serves && table[node].queue != [])
            && (r.status == QueueEmpty <==> serves && table[node].queue == [])
            && (r.status == Ok ==> r.commands + r.table[node].queue == table[node].queue && |r.commands| == 1
                                   && r.table == table[node := table[node].(queue := r.table[node].queue)])
            && (r.status != Ok ==> r.table == table && r.commands == [])
  {
    if node in table && table[node].queue != [] {
      assert [table[node].queue[0]] + table[node].queue[1..] == table[node].queue;
    }
  }
}
