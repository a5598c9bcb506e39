/** The queue as a monitor: threads, two condition variables and every interleaving of their turns. */
module QueueMonitor {
  import opened Text
  import opened MessageQueue

  type ThreadId = nat

  datatype Phase =
    | Outside
    | ReadyPush(message: Message)  // about to enter, or re-enter, the push loop
    | AsleepPush(message: Message)  // waiting on not_full
    | WokenPush(message: Message)   // woken from not_full, mutex not yet held again
    | ReadyPop
    | AsleepPop
    | WokenPop

  datatype State = State(queue: Queue, threads: map<ThreadId, Phase>, accepted: seq<Message>, popped: seq<Message>)

  datatype Step =
    | StartPush(t: ThreadId, message: string) // refused at once when too large
    | StartPop(t: ThreadId)
    | TurnPush(t: ThreadId, woken: Option<ThreadId>)
    | TurnPop(t: ThreadId, woken: Option<ThreadId>)
    | TryPop(t: ThreadId, woken: Option<ThreadId>)
    | Spurious(t: ThreadId)
    | Shutdown

  function Wake(p: Phase): Phase {
    match p
    case AsleepPush(m) => WokenPush(m)
    case AsleepPop => WokenPop
    case _ => p
  }

  /** pthread_cond_signal wakes a waiter when there is one. */
  ghost predicate Signals(threads: map<ThreadId, Phase>, woken: Option<ThreadId>, producers: bool) {
    match woken
    case Some(w) => w in threads && (if producers then threads[w].AsleepPush? else threads[w].AsleepPop?)
    case None => forall w :: w in threads ==> if producers then !threads[w].AsleepPush? else !threads[w].AsleepPop?
  }

  function WakeOne(threads: map<ThreadId, Phase>, woken: Option<ThreadId>): map<ThreadId, Phase> {
    if woken.Some? && woken.value in threads then threads[woken.value := Wake(threads[woken.value])] else threads
  }

  ghost predicate Enabled(s: State, step: Step) {
    match step
    case StartPush(t, m) => t in s.threads && s.threads[t].Outside?
    case StartPop(t) => t in s.threads && s.threads[t].Outside?
    case TurnPush(t, woken) =>
      && t in s.threads && (s.threads[t].ReadyPush? || s.threads[t].WokenPush?)
      && (PushTurn(s.queue, s.threads[t].message).1.Finished? ==> Signals(s.threads, woken, false))
    case TurnPop(t, woken) =>
      && t in s.threads && (s.threads[t].ReadyPop? || s.threads[t].WokenPop?)
      && (PopTurn(s.queue).1.Finished? ==> Signals(s.threads, woken, true))
    case TryPop(t, woken) =>
      && t in s.threads && s.threads[t].Outside?
      && (PopTurn(s.queue).1.Finished? ==> Signals(s.threads, woken, true))
    case Spurious(t) => t in s.threads && (s.threads[t].AsleepPush? || s.threads[t].AsleepPop?)
    case Shutdown => true
  }

  function Next(s: State, step: Step): State {
    match step
    case StartPush(t, m) => if |m| > GATEWAY_MESSAGE_MAX_SIZE then s else s.(threads := s.threads[t := ReadyPush(m)])
    case StartPop(t) => s.(threads := s.threads[t := ReadyPop])
    case TurnPush(t, woken) =>
      if t !in s.threads || !(s.threads[t].ReadyPush? || s.threads[t].WokenPush?) then s else
        var m := s.threads[t].message;
        var (queue, turn) := PushTurn(s.queue, m);
        if turn.Finished? then
          State(queue, WakeOne(s.threads[t := Outside], woken), s.accepted + [m], s.popped)
        else if turn.MustWait? then s.(threads := s.threads[t := AsleepPush(m)])
        else s.(threads := s.threads[t := Outside])
    case TurnPop(t, woken) =>
      var (queue, turn) := PopTurn(s.queue);
      if turn.Finished? then
        State(queue, WakeOne(s.threads[t := Outside], woken), s.accepted, s.popped + [turn.item])
      else if turn.MustWait? then s.(threads := s.threads[t := AsleepPop])
      else s.(threads := s.threads[t := Outside])
    case TryPop(t, woken) =>
      var (queue, turn) := PopTurn(s.queue);
      if turn.Finished? then State(queue, WakeOne(s.threads, woken), s.accepted, s.popped + [turn.item]) else s
    case Spurious(t) =>
      if t in s.threads then s.(threads := s.threads[t := Wake(s.threads[t])]) else s
    case Shutdown =>
      s.(queue := s.queue.(shuttingDown := true), threads := map t | t in s.threads :: Wake(s.threads[t]))
  }

  /** s is reached from init by some interleaving. */
  ghost predicate Reaches(init: State, steps: seq<Step>, s: State)
    decreases |steps|
  {
    if steps == [] then s == init
    else Enabled(init, steps[0]) && Reaches(Next(init, steps[0]), steps[1..], s)
  }

  ghost predicate Initial(s: State) {
    && s.queue == Queue([], false) && s.accepted == [] && s.popped == []
    && forall t :: t in s.threads ==> s.threads[t].Outside?
  }

  // ---------------------------------------------------------------- the invariant

  function WokenProducers(threads: map<ThreadId, Phase>): set<ThreadId> {
    set t | t in threads && threads[t].WokenPush?
  }

  function WokenConsumers(threads: map<ThreadId, Phase>): set<ThreadId> {
    set t | t in threads && threads[t].WokenPop?
  }

  ghost predicate ProducerSleeps(s: State) {
    exists t :: t in s.threads && s.threads[t].AsleepPush?
  }

  ghost predicate ConsumerSleeps(s: State) {
    exists t :: t in s.threads && s.threads[t].AsleepPop?
  }

  ghost predicate Inv(s: State) {
    && s.accepted == s.popped + s.queue.items
    && |s.queue.items| <= MESSAGE_QUEUE_CAPACITY
    && (ProducerSleeps(s) ==> MESSAGE_QUEUE_CAPACITY - |s.queue.items| <= |WokenProducers(s.threads)|)
    && (ConsumerSleeps(s) ==> |s.queue.items| <= |WokenConsumers(s.threads)|)
    && (s.queue.shuttingDown ==> !ProducerSleeps(s) && !ConsumerSleeps(s))
  }

  lemma Without(threads: set<ThreadId>, t: ThreadId)
    ensures |threads| == |threads - {t}| + if t in threads then 1 else 0
  {
    if t in threads {
      assert threads == (threads - {t}) + {t};
    } else {
      assert threads - {t} == threads;
    }
  }

  lemma OneMemberChanges(before: set<ThreadId>, after: set<ThreadId>, t: ThreadId)
    requires before - {t} == after - {t}
    ensures |after| == |before| - (if t in before then 1 else 0) + if t in after then 1 else 0
  {
    Without(before, t);
    Without(after, t);
  }

  /** Changing one thread's phase changes the woken sets by at most that thread. */
  lemma OneThreadChanges(threads: map<ThreadId, Phase>, t: ThreadId, p: Phase)
    requires t in threads
    ensures |WokenProducers(threads[t := p])|
            == |WokenProducers(threads)| - (if threads[t].WokenPush? then 1 else 0) + (if p.WokenPush? then 1 else 0)
    ensures |WokenConsumers(threads[t := p])|
            == |WokenConsumers(threads)| - (if threads[t].WokenPop? then 1 else 0) + (if p.WokenPop? then 1 else 0)
  {
    var after := threads[t := p];
    OneMemberChanges(WokenProducers(threads), WokenProducers(after), t);
    OneMemberChanges(WokenConsumers(threads), WokenConsumers(after), t);
  }

  lemma WakeOneCounts(threads: map<ThreadId, Phase>, woken: Option<ThreadId>, producers: bool)
    requires Signals(threads, woken, producers)
    ensures |WokenProducers(WakeOne(threads, woken))|
            == |WokenProducers(threads)| + if producers && woken.Some? then 1 else 0
    ensures |WokenConsumers(WakeOne(threads, woken))|
            == |WokenConsumers(threads)| + if !producers && woken.Some? then 1 else 0
  {
    if woken.Some? {
      OneThreadChanges(threads, woken.value, Wake(threads[woken.value]));
    }
  }

  lemma SignalsAfterLeaving(threads: map<ThreadId, Phase>, t: ThreadId, woken: Option<ThreadId>, producers: bool)
    requires t in threads && !threads[t].AsleepPush? && !threads[t].AsleepPop?
    requires Signals(threads, woken, producers)
    ensures Signals(threads[t := Outside], woken, producers)
  {
  }

  lemma PushKeeps(s: State, t: ThreadId, woken: Option<ThreadId>)
    requires Inv(s) && Enabled(s, TurnPush(t, woken))
    ensures Inv(Next(s, TurnPush(t, woken)))
  {
    var m := s.threads[t].message;
    var left := s.threads[t := Outside];
    var s' := Next(s, TurnPush(t, woken));
    OneThreadChanges(s.threads, t, Outside);
    if PushTurn(s.queue, m).1.Finished? {
      SignalsAfterLeaving(s.threads, t, woken, false);
      WakeOneCounts(left, woken, false);
      assert s'.accepted == s'.popped + s'.queue.items;
      assert ProducerSleeps(s') ==> ProducerSleeps(s);
      assert ConsumerSleeps(s') ==> ConsumerSleeps(s) && woken.Some?;
    } else if PushTurn(s.queue, m).1.MustWait? {
      OneThreadChanges(s.threads, t, AsleepPush(m));
      assert ConsumerSleeps(s') ==> ConsumerSleeps(s);
    } else {
      assert ProducerSleeps(s') ==> ProducerSleeps(s);
      assert ConsumerSleeps(s') ==> ConsumerSleeps(s);
    }
  }

  lemma PopKeeps(s: State, t: ThreadId, woken: Option<ThreadId>)
    requires Inv(s) && Enabled(s, TurnPop(t, woken))
    ensures Inv(Next(s, TurnPop(t, woken)))
  {
    var left := s.threads[t := Outside];
    var s' := Next(s, TurnPop(t, woken));
    OneThreadChanges(s.threads, t, Outside);
    if PopTurn(s.queue).1.Finished? {
      SignalsAfterLeaving(s.threads, t, woken, true);
      WakeOneCounts(left, woken, true);
      assert s'.accepted == s'.popped + s'.queue.items;
      assert ConsumerSleeps(s') ==> ConsumerSleeps(s);
      assert ProducerSleeps(s') ==> ProducerSleeps(s) && woken.Some?;
    } else if PopTurn(s.queue).1.MustWait? {
      OneThreadChanges(s.threads, t, AsleepPop);
      assert ProducerSleeps(s') ==> ProducerSleeps(s);
    } else {
      assert ProducerSleeps(s') ==> ProducerSleeps(s);
      assert ConsumerSleeps(s') ==> ConsumerSleeps(s);
    }
  }

  lemma TryPopKeeps(s: State, t: ThreadId, woken: Option<ThreadId>)
    requires Inv(s) && Enabled(s, TryPop(t, woken))
    ensures Inv(Next(s, TryPop(t, woken)))
  {
    if PopTurn(s.queue).1.Finished? {
      var s' := Next(s, TryPop(t, woken));
      WakeOneCounts(s.threads, woken, true);
      assert s'.accepted == s'.popped + s'.queue.items;
      assert ConsumerSleeps(s') ==> ConsumerSleeps(s);
      assert ProducerSleeps(s') ==> ProducerSleeps(s) && woken.Some?;
    }
  }

  lemma StepKeeps(s: State, step: Step)
    requires Inv(s) && Enabled(s, step)
    ensures Inv(Next(s, step))
  {
    var s' := Next(s, step);
    match step {
      case StartPush(t, m) =>
        if |m| <= GATEWAY_MESSAGE_MAX_SIZE {
          OneThreadChanges(s.threads, t, ReadyPush(m));
          assert ProducerSleeps(s') ==> ProducerSleeps(s);
          assert ConsumerSleeps(s') ==> ConsumerSleeps(s);
        }
      case StartPop(t) =>
        OneThreadChanges(s.threads, t, ReadyPop);
        assert ProducerSleeps(s') ==> ProducerSleeps(s);
        assert ConsumerSleeps(s') ==> ConsumerSleeps(s);
      case TurnPush(t, woken) => PushKeeps(s, t, woken);
      case TurnPop(t, woken) => PopKeeps(s, t, woken);
      case TryPop(t, woken) => TryPopKeeps(s, t, woken);
      case Spurious(t) =>
        OneThreadChanges(s.threads, t, Wake(s.threads[t]));
        assert ProducerSleeps(s') ==> ProducerSleeps(s);
        assert ConsumerSleeps(s') ==> ConsumerSleeps(s);
      case Shutdown =>
        assert !ProducerSleeps(s') && !ConsumerSleeps(s');
    }
  }

  // ---------------------------------------------------------------- over all interleavings

  /**
   * Whatever the interleaving: what was popped is a prefix of what was accepted and the rest is in the
   * queue; a producer sleeps only while every free slot has a woken producer coming for it, a consumer
   * only while every stored item has a woken consumer coming for it; after shutdown nobody sleeps.
   */
  lemma {:induction false} MonitorSafe(init: State, steps: seq<Step>, s: State)
    requires Inv(init) && Reaches(init, steps, s)
    ensures Inv(s)
    decreases |steps|
  {
    if steps != [] {
      StepKeeps(init, steps[0]);
      MonitorSafe(Next(init, steps[0]), steps[1..], s);
    }
  }

  lemma InitialIsSafe(init: State, steps: seq<Step>, s: State)
    requires Initial(init) && Reaches(init, steps, s)
    ensures s.popped <= s.accepted && s.accepted == s.popped + s.queue.items
    ensures ProducerSleeps(s) && |s.queue.items| < MESSAGE_QUEUE_CAPACITY ==> WokenProducers(s.threads) != {}
    ensures ConsumerSleeps(s) && s.queue.items != [] ==> WokenConsumers(s.threads) != {}
    ensures s.queue.shuttingDown ==> !ProducerSleeps(s) && !ConsumerSleeps(s)
  {
    assert Inv(init);
    MonitorSafe(init, steps, s);
  }

  /** Once shutdown is signalled, a producer's next turn returns, full queue or not. */
  lemma ShutdownUnblocks(s: State, t: ThreadId, woken: Option<ThreadId>)
    requires s.queue.shuttingDown && Enabled(s, TurnPush(t, woken))
    ensures Next(s, TurnPush(t, woken)) == s.(threads := s.threads[t := Outside])
  {
  }

  lemma ShutdownStep(s: State, step: Step)
    requires s.queue.shuttingDown && Enabled(s, step)
    ensures var s' := Next(s, step);
            && s'.queue.shuttingDown && s'.accepted == s.accepted
            && (|| (s'.queue.items == s.queue.items && s'.popped == s.popped)
                || (s.queue.items != [] && s'.queue.items == s.queue.items[1..]
                    && s'.popped == s.popped + [s.queue.items[0]]))
  {
  }

  /** What is popped from now on: n items from the front. */
  ghost predicate Drained(s: State, s': State, n: nat) {
    n <= |s.queue.items| && s'.queue.items == s.queue.items[n..] && s'.popped == s.popped + s.queue.items[..n]
  }

  /** After shutdown no message is accepted any more, and what is stored comes out in order. */
  lemma {:induction false} ShutdownDrains(s: State, steps: seq<Step>, s': State) returns (n: nat)
    requires s.queue.shuttingDown && Reaches(s, steps, s')
    ensures s'.queue.shuttingDown && s'.accepted == s.accepted
    ensures Drained(s, s', n)
    decreases |steps|
  {
    if steps == [] {
      n := 0;
    } else {
      hide Enabled, Next;
      ShutdownStep(s, steps[0]);
      var next := Next(s, steps[0]);
      n := ShutdownDrains(next, steps[1..], s');
      if next.queue.items != s.queue.items || next.popped != s.popped {
        var items := s.queue.items;
        assert items[1..][n..] == items[n + 1..];
        assert [items[0]] + items[1..][..n] == items[..n + 1];
        assert s'.popped == s.popped + items[..n + 1];
        n := n + 1;
      }
    }
  }

  // ---------------------------------------------------------------- what is stored can be taken

  /** Some thread can be signalled, or nobody waits. */
  lemma SomeSignal(threads: map<ThreadId, Phase>) returns (woken: Option<ThreadId>)
    ensures Signals(threads, woken, true)
  {
    if w :| w in threads && threads[w].AsleepPush? {
      woken := Some(w);
    } else {
      woken := None;
    }
  }

  lemma TryPopTakesOldest(s: State, t: ThreadId, woken: Option<ThreadId>)
    requires t in s.threads && s.threads[t].Outside? && s.queue.items != [] && Signals(s.threads, woken, true)
    ensures Enabled(s, TryPop(t, woken))
    ensures var s' := Next(s, TryPop(t, woken));
            && s'.queue == s.queue.(items := s.queue.items[1..]) && s'.popped == s.popped + [s.queue.items[0]]
            && s'.accepted == s.accepted && t in s'.threads && s'.threads[t].Outside?
  {
  }

  /** A thread that polls takes every stored message, oldest first, whether or not the queue has been shut down. */
  lemma {:induction false} StoredComeOut(s: State, t: ThreadId) returns (steps: seq<Step>, s': State)
    requires t in s.threads && s.threads[t].Outside?
    ensures Reaches(s, steps, s') && s'.queue.items == [] && s'.popped == s.popped + s.queue.items
    ensures s'.accepted == s.accepted
    decreases |s.queue.items|
  {
    if s.queue.items == [] {
      steps, s' := [], s;
    } else {
      hide Enabled, Next, Signals;
      var woken := SomeSignal(s.threads);
      var step := TryPop(t, woken);
      TryPopTakesOldest(s, t, woken);
      steps, s' := StoredComeOut(Next(s, step), t);
      assert ([step] + steps)[1..] == steps;
      steps := [step] + steps;
      assert s.popped + s.queue.items == s.popped + [s.queue.items[0]] + s.queue.items[1..];
    }
  }

  /** A producer's turn stores the message if and only if the queue is open and holds fewer than 32. */
  lemma PushStoresIff(s: State, t: ThreadId, woken: Option<ThreadId>)
    requires Enabled(s, TurnPush(t, woken)) && |s.queue.items| <= 32
    ensures var s' := Next(s, TurnPush(t, woken));
            var m := s.threads[t].message;
            && s'.queue.items == (if !s.queue.shuttingDown && |s.queue.items| < 32 then s.queue.items + [m] else s.queue.items)
            && (s'.threads[t].AsleepPush? <==> !s.queue.shuttingDown && |s.queue.items| == 32)
  {
  }
}
