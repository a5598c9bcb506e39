/** The bounded upstream queue: ring buffer, monitor and shutdown. */
module MessageQueue {
  import opened Text

  const MESSAGE_QUEUE_CAPACITY := 32
  const GATEWAY_MESSAGE_MAX_SIZE := 256

  // ---------------------------------------------------------------- one turn inside the mutex

  type Message = m: string | |m| <= GATEWAY_MESSAGE_MAX_SIZE witness ""

  datatype Queue = Queue(items: seq<Message>, shuttingDown: bool)

  /** What one pass through a wait loop ends in. */
  datatype Turn = Finished(item: Message) | MustWait | ShutDown | TooLarge

  function PushTurn(q: Queue, m: Message): (r: (Queue, Turn)) {
    if q.shuttingDown then (q, ShutDown)
    else if |q.items| == MESSAGE_QUEUE_CAPACITY then (q, MustWait)
    else (q.(items := q.items + [m]), Finished(m))
  }

  function PopTurn(q: Queue): (r: (Queue, Turn)) {
    if q.items != [] then (q.(items := q.items[1..]), Finished(q.items[0]))
    else (q, if q.shuttingDown then ShutDown else MustWait)
  }

  /** The ring buffer behind the queue. */
  class MessageRing {
    const items: array<Message>
    var head: nat
    var tail: nat
    var count: nat
    var shuttingDown: bool

    ghost predicate Valid()
      reads this
    {
      && items.Length == MESSAGE_QUEUE_CAPACITY && count <= MESSAGE_QUEUE_CAPACITY
      && head < MESSAGE_QUEUE_CAPACITY && tail == (head + count) % MESSAGE_QUEUE_CAPACITY
    }

    ghost function View(): Queue
      reads this, items
      requires Valid()
    {
      Queue(seq(count, i requires 0 <= i < count reads this, items requires Valid() =>
                  items[(head + i) % MESSAGE_QUEUE_CAPACITY]), shuttingDown)
    }

    constructor ()
      ensures Valid() && fresh(items)
      ensures View() == Queue([], false)
    {
      items := new Message[MESSAGE_QUEUE_CAPACITY](_ => "");
      head, tail, count, shuttingDown := 0, 0, 0, false;
    }

    /** message_queue_push from a held mutex up to its next wait or return. */
    method Push(message: string) returns (turn: Turn)
      requires Valid()
      modifies this, items
      ensures Valid()
      ensures (View(), turn) == if |message| > GATEWAY_MESSAGE_MAX_SIZE then (old(View()), TooLarge)
                                else PushTurn(old(View()), message)
    {
      if |message| > GATEWAY_MESSAGE_MAX_SIZE {
        return TooLarge;
      }
      if count == MESSAGE_QUEUE_CAPACITY && !shuttingDown {
        return MustWait;
      }
      if shuttingDown {
        return ShutDown;
      }
      items[tail] := message;
      tail := (tail + 1) % MESSAGE_QUEUE_CAPACITY;
      count := count + 1;
      assert View().items == old(View()).items + [message];
      return Finished(message);
    }

    method Dequeue() returns (message: Message)
      requires Valid() && count > 0
      modifies this`head, this`count
      ensures Valid()
      ensures View() == Queue(old(View()).items[1..], shuttingDown) && message == old(View()).items[0]
    {
      message := items[head];
      head := (head + 1) % MESSAGE_QUEUE_CAPACITY;
      count := count - 1;
      assert View().items == old(View()).items[1..];
    }

    /** message_queue_pop from a held mutex up to its next wait or return. */
    method Pop() returns (turn: Turn)
      requires Valid()
      modifies this`head, this`count
      ensures Valid()
      ensures (View(), turn) == PopTurn(old(View()))
    {
      if count == 0 && !shuttingDown {
        return MustWait;
      }
      if count == 0 && shuttingDown {
        return ShutDown;
      }
      var message := Dequeue();
      return Finished(message);
    }

    /** message_queue_try_pop: the same turn, with an empty queue reported instead of waited for. */
    method TryPop() returns (turn: Turn)
      requires Valid()
      modifies this`head, this`count
      ensures Valid()
      ensures (View(), turn) == PopTurn(old(View()))
    {
      if count == 0 {
        return if shuttingDown then ShutDown else MustWait;
      }
      var message := Dequeue();
      return Finished(message);
    }

    method Shutdown()
      requires Valid()
      modifies this`shuttingDown
      ensures Valid() && View() == old(View()).(shuttingDown := true)
    {
      shuttingDown := true;
    }
  }
}
