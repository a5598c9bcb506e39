/**
 * Whole runs of the server's command table: sends, replies and timeout checks in any order.
 * Slot i, once used, tracks the command with sequence i + 1 for good.
 */
module CommandRuns {
  import opened Text
  import opened FrameFormat
  import opened CommandManager

  type Verdict = s: CommandState | s == Acked || s == Nacked witness Acked

  datatype Limits = Limits(timeout: nat, maxRetries: nat)

  datatype Op =
    | Send(target: CStr, sender: CStr, fields: seq<Field>, at: int)
    | Reply(sequence: nat, node: string, verdict: Verdict)
    | Check(at: int)

  function Apply(m: Manager, op: Op, limits: Limits): Manager {
    match op
    case Send(target, sender, fields, at) => Sent(m, target, sender, fields, at).0
    case Reply(sequence, node, verdict) => Replied(m, sequence, node, verdict).0
    case Check(at) => m.(entries := CheckedAll(m.entries, at, limits.timeout, limits.maxRetries))
  }

  function Run(ops: seq<Op>, limits: Limits): Manager {
    if ops == [] then Created() else Apply(Run(ops[..|ops| - 1], limits), ops[|ops| - 1], limits)
  }

  /** The first nextSequence - 1 slots are in use, slot i by the command with sequence i + 1. */
  ghost predicate Tidy(m: Manager) {
    && |m.entries| == COMMAND_MANAGER_MAX_COMMANDS
    && 1 <= m.nextSequence <= COMMAND_MANAGER_MAX_COMMANDS + 1
    && forall i: nat :: i < COMMAND_MANAGER_MAX_COMMANDS ==> SlotTidy(m, i)
  }

  ghost predicate SlotTidy(m: Manager, i: nat)
    requires i < |m.entries|
  {
    if i + 1 < m.nextSequence then m.entries[i].state != Free && m.entries[i].sequence == i + 1
    else m.entries[i] == FREE_ENTRY
  }

  /** Slot i of the table after n steps of a run. */
  function Slot(ops: seq<Op>, limits: Limits, n: nat, i: nat): Entry
    requires n <= |ops| && i < COMMAND_MANAGER_MAX_COMMANDS
  {
    var m := Run(ops[..n], limits);
    if i < |m.entries| then m.entries[i] else FREE_ENTRY
  }

  predicate Sendable(op: Op)
    requires op.Send?
  {
    && op.sender != "" && op.target != "" && |op.fields| <= FRAME_DATA_MAX_FIELDS
    && |op.sender| < NODE_ID_SIZE && |op.target| < NODE_ID_SIZE
  }

  predicate Answers(op: Op, e: Entry) {
    op.Reply? && op.sequence == e.sequence && op.node == e.target && e.state != Free
  }

  /** What one step does to one slot. */
  ghost predicate SlotStep(m: Manager, op: Op, limits: Limits, i: nat, before: Entry, after: Entry) {
    match op
    case Send(target, sender, fields, at) =>
      after == if i + 1 == m.nextSequence && Sendable(op) then Entry(Waiting, i + 1, sender, target, fields, at, 0) else before
    case Reply(sequence, node, verdict) =>
      after == if Answers(op, before) && before.state == Waiting then before.(state := verdict) else before
    case Check(at) =>
      after == Checked(before, at, limits.timeout, limits.maxRetries)
  }

  // ---------------------------------------------------------------- one step, slot by slot

  lemma FirstFreeIsNext(m: Manager)
    requires Tidy(m)
    ensures FirstFree(m.entries) == m.nextSequence - 1
  {
    var i := FirstFree(m.entries);
    if i < |m.entries| {
      assert SlotTidy(m, i);
    }
    if m.nextSequence <= COMMAND_MANAGER_MAX_COMMANDS {
      assert SlotTidy(m, m.nextSequence - 1);
    }
  }

  lemma FindIsSlot(m: Manager, sequence: nat)
    requires Tidy(m)
    ensures FindSequence(m.entries, sequence)
            == if 1 <= sequence < m.nextSequence then sequence - 1 else COMMAND_MANAGER_MAX_COMMANDS
  {
    var i := FindSequence(m.entries, sequence);
    if i < |m.entries| {
      assert SlotTidy(m, i);
    }
    if 1 <= sequence < m.nextSequence {
      assert SlotTidy(m, sequence - 1);
    }
  }

  lemma SendStep(m: Manager, op: Op, limits: Limits)
    requires Tidy(m) && op.Send?
    ensures var r := Sent(m, op.target, op.sender, op.fields, op.at);
            && Tidy(r.0)
            && (r.1.Some? <==> m.nextSequence <= COMMAND_MANAGER_MAX_COMMANDS && Sendable(op))
            && (r.1.Some? ==> r.1.value == m.nextSequence && r.0.nextSequence == m.nextSequence + 1)
            && (r.1.None? ==> r.0 == m)
    ensures forall i: nat :: i < COMMAND_MANAGER_MAX_COMMANDS ==>
              SlotStep(m, op, limits, i, m.entries[i], Apply(m, op, limits).entries[i])
  {
    FirstFreeIsNext(m);
    var r := Sent(m, op.target, op.sender, op.fields, op.at);
    forall i: nat | i < COMMAND_MANAGER_MAX_COMMANDS
      ensures SlotTidy(r.0, i)
    {
      assert SlotTidy(m, i);
    }
  }

  lemma ReplyStep(m: Manager, op: Op, limits: Limits)
    requires Tidy(m) && op.Reply?
    ensures Tidy(Apply(m, op, limits)) && Apply(m, op, limits).nextSequence == m.nextSequence
    ensures forall i: nat :: i < COMMAND_MANAGER_MAX_COMMANDS ==>
              SlotStep(m, op, limits, i, m.entries[i], Apply(m, op, limits).entries[i])
  {
    FindIsSlot(m, op.sequence);
    var after := Apply(m, op, limits);
    forall i: nat | i < COMMAND_MANAGER_MAX_COMMANDS
      ensures SlotTidy(after, i) && SlotStep(m, op, limits, i, m.entries[i], after.entries[i])
    {
      assert SlotTidy(m, i);
    }
  }

  lemma CheckStep(m: Manager, op: Op, limits: Limits)
    requires Tidy(m) && op.Check?
    ensures Tidy(Apply(m, op, limits)) && Apply(m, op, limits).nextSequence == m.nextSequence
    ensures forall i: nat :: i < COMMAND_MANAGER_MAX_COMMANDS ==>
              SlotStep(m, op, limits, i, m.entries[i], Apply(m, op, limits).entries[i])
  {
    var after := Apply(m, op, limits);
    forall i: nat | i < COMMAND_MANAGER_MAX_COMMANDS
      ensures SlotTidy(after, i)
    {
      assert SlotTidy(m, i);
    }
  }

  // ---------------------------------------------------------------- every run

  lemma {:induction false} RunsAreTidy(ops: seq<Op>, limits: Limits)
    ensures Tidy(Run(ops, limits))
  {
    if ops != [] {
      var op := ops[|ops| - 1];
      var m := Run(ops[..|ops| - 1], limits);
      RunsAreTidy(ops[..|ops| - 1], limits);
      match op
      case Send(_, _, _, _) => SendStep(m, op, limits);
      case Reply(_, _, _) => ReplyStep(m, op, limits);
      case Check(_) => CheckStep(m, op, limits);
    }
  }

  lemma StepAt(ops: seq<Op>, limits: Limits, n: nat, i: nat)
    requires n < |ops| && i < COMMAND_MANAGER_MAX_COMMANDS
    ensures Tidy(Run(ops[..n], limits)) && Tidy(Run(ops[..n + 1], limits))
    ensures SlotStep(Run(ops[..n], limits), ops[n], limits, i, Slot(ops, limits, n, i), Slot(ops, limits, n + 1, i))
    ensures Slot(ops, limits, n, i).state != Free <==> i + 1 < Run(ops[..n], limits).nextSequence
    ensures Slot(ops, limits, n, i).state != Free ==> Slot(ops, limits, n, i).sequence == i + 1
    ensures Slot(ops, limits, n, i).state == Free ==> Slot(ops, limits, n, i) == FREE_ENTRY
  {
    RunsAreTidy(ops[..n], limits);
    RunsAreTidy(ops[..n + 1], limits);
    assert ops[..n + 1][..n] == ops[..n];
    var m := Run(ops[..n], limits);
    assert SlotTidy(m, i);
    match ops[n]
    case Send(_, _, _, _) => SendStep(m, ops[n], limits);
    case Reply(_, _, _) => ReplyStep(m, ops[n], limits);
    case Check(_) => CheckStep(m, ops[n], limits);
  }

  /** What an entry keeps from one moment of a run to any later one. */
  ghost predicate Evolves(before: Entry, after: Entry) {
    before.state != Free ==>
      && after.state != Free
      && after.(state := before.state, retries := before.retries, sentTime := before.sentTime) == before
      && before.retries <= after.retries
      && (before.state != Waiting ==> after == before)
  }

  /** Identity never changes, and a final state is final. */
  lemma {:induction false} EntriesEvolve(ops: seq<Op>, limits: Limits, n: nat, m: nat, i: nat)
    requires n <= m <= |ops| && i < COMMAND_MANAGER_MAX_COMMANDS
    ensures Evolves(Slot(ops, limits, n, i), Slot(ops, limits, m, i))
    decreases m - n
  {
    if n < m {
      hide Slot;
      EntriesEvolve(ops, limits, n, m - 1, i);
      StepAt(ops, limits, m - 1, i);
    }
  }

  /** Tracked sequences are pairwise distinct, nonzero and too small to be changed by the six-digit serial field. */
  lemma SequencesIdentify(ops: seq<Op>, limits: Limits)
    ensures var es := Run(ops, limits).entries;
            && |es| == COMMAND_MANAGER_MAX_COMMANDS
            && (forall i: nat, j: nat :: i < j < |es| && es[i].state != Free && es[j].state != Free ==>
                  es[i].sequence % 1000000 != es[j].sequence % 1000000)
            && (forall i: nat :: i < |es| && es[i].state != Free ==> es[i].sequence != 0 && es[i].sequence % 1000000 == es[i].sequence)
  {
    hide Run;
    RunsAreTidy(ops, limits);
    var m := Run(ops, limits);
    forall i: nat | i < |m.entries| && m.entries[i].state != Free
      ensures m.entries[i].sequence == i + 1 && m.entries[i].sequence % 1000000 == i + 1
    {
      assert SlotTidy(m, i);
    }
  }

  predicate Accepted(ops: seq<Op>, limits: Limits, n: nat)
    requires n < |ops|
  {
    ops[n].Send? && Sent(Run(ops[..n], limits), ops[n].target, ops[n].sender, ops[n].fields, ops[n].at).1.Some?
  }

  function AcceptedCount(ops: seq<Op>, limits: Limits, n: nat): nat
    requires n <= |ops|
  {
    if n == 0 then 0 else AcceptedCount(ops, limits, n - 1) + if Accepted(ops, limits, n - 1) then 1 else 0
  }

  lemma {:induction false} NextCountsAccepted(ops: seq<Op>, limits: Limits, n: nat)
    requires n <= |ops|
    ensures Run(ops[..n], limits).nextSequence == AcceptedCount(ops, limits, n) + 1
  {
    if n > 0 {
      NextCountsAccepted(ops, limits, n - 1);
      assert ops[..n][..n - 1] == ops[..n - 1];
      RunsAreTidy(ops[..n - 1], limits);
      var m := Run(ops[..n - 1], limits);
      match ops[n - 1]
      case Send(_, _, _, _) => SendStep(m, ops[n - 1], limits);
      case Reply(_, _, _) => ReplyStep(m, ops[n - 1], limits);
      case Check(_) => CheckStep(m, ops[n - 1], limits);
    }
  }

  /** The k-th accepted send gets sequence k; well-formed sends are refused only after 64 were accepted. */
  lemma SendsAreNumbered(ops: seq<Op>, limits: Limits, n: nat)
    requires n < |ops| && ops[n].Send?
    ensures Accepted(ops, limits, n) <==>
            Sendable(ops[n]) && AcceptedCount(ops, limits, n) < COMMAND_MANAGER_MAX_COMMANDS
    ensures Accepted(ops, limits, n) ==>
              var k := AcceptedCount(ops, limits, n);
              && Sent(Run(ops[..n], limits), ops[n].target, ops[n].sender, ops[n].fields, ops[n].at).1 == Some(k + 1)
              && Slot(ops, limits, n, k) == FREE_ENTRY
              && Slot(ops, limits, n + 1, k)
                 == Entry(Waiting, k + 1, ops[n].sender, ops[n].target, ops[n].fields, ops[n].at, 0)
  {
    RunsAreTidy(ops[..n], limits);
    NextCountsAccepted(ops, limits, n);
    SendStep(Run(ops[..n], limits), ops[n], limits);
    var k := AcceptedCount(ops, limits, n);
    if k < COMMAND_MANAGER_MAX_COMMANDS {
      StepAt(ops, limits, n, k);
      assert SlotTidy(Run(ops[..n], limits), k);
    }
  }

  // ---------------------------------------------------------------- replies pair with commands

  /** Step j is a reply to the command of slot i, which was being tracked by then. */
  ghost predicate Matching(ops: seq<Op>, limits: Limits, j: nat, i: nat) {
    && j < |ops| && i < COMMAND_MANAGER_MAX_COMMANDS
    && Answers(ops[j], Slot(ops, limits, j, i))
  }

  /** Step j is the first reply to the command of slot i, it says so, and the command had not timed out. */
  ghost predicate Settles(ops: seq<Op>, limits: Limits, j: nat, i: nat, verdict: Verdict) {
    && Matching(ops, limits, j, i)
    && ops[j].verdict == verdict
    && Slot(ops, limits, j, i).state != TimedOut
    && forall k: nat :: k < j ==> !Matching(ops, limits, k, i)
  }

  lemma MatchedIsOver(ops: seq<Op>, limits: Limits, j: nat, i: nat, n: nat)
    requires Matching(ops, limits, j, i) && j < n <= |ops|
    ensures Slot(ops, limits, n, i).state !in {Free, Waiting}
  {
    hide Slot;
    StepAt(ops, limits, j, i);
    EntriesEvolve(ops, limits, j + 1, n, i);
  }

  lemma {:induction false} RepliedOnce(ops: seq<Op>, limits: Limits, n: nat, i: nat)
    requires n <= |ops| && i < COMMAND_MANAGER_MAX_COMMANDS
    requires Slot(ops, limits, n, i).state in {Acked, Nacked}
    ensures exists j: nat :: j < n && Settles(ops, limits, j, i, Slot(ops, limits, n, i).state)
  {
    hide Slot;
    SlotAtStart(ops, limits, i);
    if n > 0 {
      StepAt(ops, limits, n - 1, i);
      var e := Slot(ops, limits, n - 1, i);
      if e.state in {Acked, Nacked} {
        assert Slot(ops, limits, n, i) == e;
        RepliedOnce(ops, limits, n - 1, i);
      } else {
        assert ops[n - 1].Reply? && Answers(ops[n - 1], e) && e.state == Waiting;
        forall k: nat | k < n - 1
          ensures !Matching(ops, limits, k, i)
        {
          if Matching(ops, limits, k, i) {
            MatchedIsOver(ops, limits, k, i, n - 1);
          }
        }
        assert Settles(ops, limits, n - 1, i, Slot(ops, limits, n, i).state);
      }
    }
  }

  lemma SlotAtStart(ops: seq<Op>, limits: Limits, i: nat)
    requires i < COMMAND_MANAGER_MAX_COMMANDS
    ensures Slot(ops, limits, 0, i) == FREE_ENTRY
  {
    assert ops[..0] == [];
  }

  /** A command that no reply matched is Waiting or TimedOut while it is tracked. */
  lemma {:induction false} UnansweredIsOpen(ops: seq<Op>, limits: Limits, n: nat, i: nat)
    requires n <= |ops| && i < COMMAND_MANAGER_MAX_COMMANDS
    requires forall k: nat :: k < n ==> !Matching(ops, limits, k, i)
    ensures Slot(ops, limits, n, i).state in {Free, Waiting, TimedOut}
  {
    hide Slot;
    if n == 0 {
      SlotAtStart(ops, limits, i);
    } else {
      UnansweredIsOpen(ops, limits, n - 1, i);
      StepAt(ops, limits, n - 1, i);
      assert !Matching(ops, limits, n - 1, i);
    }
  }

  /** A command ends ACKED (NACKED) exactly when the first reply that matched it said so before it timed out. */
  lemma AnsweredIff(ops: seq<Op>, limits: Limits, i: nat, verdict: Verdict)
    requires i < COMMAND_MANAGER_MAX_COMMANDS
    ensures Slot(ops, limits, |ops|, i).state == verdict <==>
            exists j: nat :: j < |ops| && Settles(ops, limits, j, i, verdict)
  {
    hide Slot;
    if Slot(ops, limits, |ops|, i).state == verdict {
      RepliedOnce(ops, limits, |ops|, i);
    }
    if exists j: nat :: j < |ops| && Settles(ops, limits, j, i, verdict) {
      var j: nat :| j < |ops| && Settles(ops, limits, j, i, verdict);
      UnansweredIsOpen(ops, limits, j, i);
      StepAt(ops, limits, j, i);
      EntriesEvolve(ops, limits, j + 1, |ops|, i);
    }
  }

  lemma TrackedSequence(ops: seq<Op>, limits: Limits, i: nat)
    requires i < COMMAND_MANAGER_MAX_COMMANDS
    ensures var e := Slot(ops, limits, |ops|, i);
            e.state != Free ==> e.sequence == i + 1
  {
    RunsAreTidy(ops[..|ops|], limits);
    assert SlotTidy(Run(ops[..|ops|], limits), i);
  }

  lemma SixDigits(n: nat)
    requires n < 1000000
    ensures n % 1000000 == n
  {
  }

  lemma SlotOfLonger(ops: seq<Op>, op: Op, limits: Limits, i: nat)
    requires i < COMMAND_MANAGER_MAX_COMMANDS
    ensures Slot(ops + [op], limits, |ops|, i) == Slot(ops, limits, |ops|, i)
  {
    assert (ops + [op])[..|ops|] == ops[..|ops|];
  }

  /** A reply whose sequence travelled through the six-digit serial field settles the command it was meant for. */
  lemma SerialReplyPairs(ops: seq<Op>, limits: Limits, i: nat, node: string, verdict: Verdict, j: nat)
    requires i < COMMAND_MANAGER_MAX_COMMANDS && Slot(ops, limits, |ops|, i).state == Waiting
    requires j < COMMAND_MANAGER_MAX_COMMANDS
    ensures var e := Slot(ops, limits, |ops|, i);
            Slot(ops + [Reply(e.sequence % 1000000, node, verdict)], limits, |ops| + 1, j)
            == if j == i && node == e.target then e.(state := verdict) else Slot(ops, limits, |ops|, j)
  {
    hide Slot, Tidy, Run;
    var reply := Reply(Slot(ops, limits, |ops|, i).sequence % 1000000, node, verdict);
    SlotOfLonger(ops, reply, limits, i);
    SlotOfLonger(ops, reply, limits, j);
    StepAt(ops + [reply], limits, |ops|, i);
    SixDigits(i + 1);
    assert reply.sequence == i + 1;
    StepAt(ops + [reply], limits, |ops|, j);
  }

  // ---------------------------------------------------------------- resends are bounded

  /** Every resend that became due during the first n steps. */
  function Resends(ops: seq<Op>, limits: Limits, n: nat): seq<Retry>
    requires n <= |ops|
  {
    if n == 0 then [] else
      Resends(ops, limits, n - 1)
      + if ops[n - 1].Check? then Due(Run(ops[..n - 1], limits).entries, ops[n - 1].at, limits.timeout, limits.maxRetries) else []
  }

  function ResendsOf(records: seq<Retry>, sequence: nat): seq<Retry> {
    if records == [] then [] else
      var rest := ResendsOf(records[..|records| - 1], sequence);
      var r := records[|records| - 1];
      if r.sequence == sequence then rest + [r] else rest
  }

  lemma {:induction false} ResendsOfConcat(a: seq<Retry>, b: seq<Retry>, sequence: nat)
    ensures ResendsOf(a + b, sequence) == ResendsOf(a, sequence) + ResendsOf(b, sequence)
  {
    if b == [] {
      assert a + b == a;
    } else {
      assert (a + b)[..|a + b| - 1] == a + b[..|b| - 1];
      ResendsOfConcat(a, b[..|b| - 1], sequence);
    }
  }

  /** The resend a check makes due for the entry, if any. */
  function OwnResend(e: Entry, now: int, limits: Limits): seq<Retry> {
    if Expired(e, now, limits.timeout) && e.retries < limits.maxRetries then [Retry(e.sequence, e.target, e.fields)] else []
  }

  /** One check makes at most one resend due for a sequence: the record of its own slot. */
  lemma {:induction false} DueOf(entries: seq<Entry>, k: nat, i: nat, now: int, limits: Limits)
    requires k <= |entries| && i < |entries|
    requires forall j: nat :: j < |entries| && entries[j].state != Free ==> entries[j].sequence == j + 1
    ensures ResendsOf(Due(entries[..k], now, limits.timeout, limits.maxRetries), i + 1)
            == if i < k then OwnResend(entries[i], now, limits) else []
  {
    hide Due, ResendsOf;
    if k == 0 {
      NothingDue(entries, now, limits, i + 1);
    } else {
      DueOf(entries, k - 1, i, now, limits);
      DueStep(entries, k - 1, now, limits.timeout, limits.maxRetries);
      var due := Due(entries[..k - 1], now, limits.timeout, limits.maxRetries);
      ResendsOfConcat(due, OwnResend(entries[k - 1], now, limits), i + 1);
      OwnRecord(entries[k - 1], k, i + 1, now, limits);
      hide OwnResend;
    }
  }

  lemma OwnRecord(e: Entry, own: nat, sequence: nat, now: int, limits: Limits)
    requires e.state != Free ==> e.sequence == own
    ensures ResendsOf(OwnResend(e, now, limits), sequence) == if own == sequence then OwnResend(e, now, limits) else []
  {
    OneRecord(OwnResend(e, now, limits), sequence);
    hide ResendsOf;
  }

  lemma NothingDue(entries: seq<Entry>, now: int, limits: Limits, sequence: nat)
    ensures ResendsOf(Due(entries[..0], now, limits.timeout, limits.maxRetries), sequence) == []
  {
  }

  lemma OneRecord(last: seq<Retry>, sequence: nat)
    requires |last| <= 1
    ensures ResendsOf(last, sequence) == if last != [] && last[0].sequence == sequence then last else []
  {
    if last != [] {
      assert last[..0] == [];
    }
  }

  /** The resends of a command are exactly its retries, and each carries the command's own node and fields. */
  lemma {:induction false} RetriesAreResends(ops: seq<Op>, limits: Limits, n: nat, i: nat)
    requires n <= |ops| && i < COMMAND_MANAGER_MAX_COMMANDS
    ensures var e := Slot(ops, limits, n, i);
            var records := ResendsOf(Resends(ops, limits, n), i + 1);
            && |records| == e.retries <= limits.maxRetries
            && forall k :: 0 <= k < |records| ==> records[k] == Retry(i + 1, e.target, e.fields)
  {
    if n == 0 {
      SlotAtStart(ops, limits, i);
    } else {
      RetriesAreResends(ops, limits, n - 1, i);
      StepAt(ops, limits, n - 1, i);
      ResendsStep(ops, limits, n, i);
      hide *;
    }
  }

  lemma ResendsStep(ops: seq<Op>, limits: Limits, n: nat, i: nat)
    requires 0 < n <= |ops| && i < COMMAND_MANAGER_MAX_COMMANDS
    ensures ResendsOf(Resends(ops, limits, n), i + 1)
            == ResendsOf(Resends(ops, limits, n - 1), i + 1)
               + if ops[n - 1].Check? then OwnResend(Slot(ops, limits, n - 1, i), ops[n - 1].at, limits) else []
  {
    var m := Run(ops[..n - 1], limits);
    RunsAreTidy(ops[..n - 1], limits);
    hide Run, Due, ResendsOf;
    assert Resends(ops, limits, n - 1) + [] == Resends(ops, limits, n - 1);
    if ops[n - 1].Check? {
      var due := Due(m.entries, ops[n - 1].at, limits.timeout, limits.maxRetries);
      assert m.entries[..COMMAND_MANAGER_MAX_COMMANDS] == m.entries;
      forall j: nat | j < |m.entries| && m.entries[j].state != Free
        ensures m.entries[j].sequence == j + 1
      {
        assert SlotTidy(m, j);
      }
      DueOf(m.entries, COMMAND_MANAGER_MAX_COMMANDS, i, ops[n - 1].at, limits);
      ResendsOfConcat(Resends(ops, limits, n - 1), due, i + 1);
    }
  }

  // ---------------------------------------------------------------- waiting ends

  ghost predicate Timed(op: Op) {
    op.Send? || op.Check?
  }

  ghost predicate ClockAdvances(ops: seq<Op>) {
    forall a: nat, b: nat :: a < b < |ops| && Timed(ops[a]) && Timed(ops[b]) ==> ops[a].at <= ops[b].at
  }

  /** An entry was last sent no later than any timed step still to come. */
  lemma {:induction false} SentByNow(ops: seq<Op>, limits: Limits, n: nat, i: nat, j: nat)
    requires ClockAdvances(ops) && n <= j < |ops| && Timed(ops[j]) && i < COMMAND_MANAGER_MAX_COMMANDS
    requires Slot(ops, limits, n, i).state != Free
    ensures Slot(ops, limits, n, i).sentTime <= ops[j].at
  {
    hide Slot;
    if n == 0 {
      SlotAtStart(ops, limits, i);
    } else {
      StepAt(ops, limits, n - 1, i);
      if Slot(ops, limits, n - 1, i).state != Free {
        SentByNow(ops, limits, n - 1, i, j);
      }
      assert Timed(ops[n - 1]) ==> ops[n - 1].at <= ops[j].at;
    }
  }

  /** Until the next resend an entry keeps its time; a resend raises its count. */
  lemma {:induction false} TimeOrRetry(ops: seq<Op>, limits: Limits, n: nat, m: nat, i: nat)
    requires n <= m <= |ops| && i < COMMAND_MANAGER_MAX_COMMANDS && Slot(ops, limits, n, i).state != Free
    ensures var a := Slot(ops, limits, n, i);
            var b := Slot(ops, limits, m, i);
            b.state != Free && (b.retries > a.retries || (b.retries == a.retries && b.sentTime == a.sentTime))
    decreases m - n
  {
    if n < m {
      hide Slot;
      TimeOrRetry(ops, limits, n, m - 1, i);
      StepAt(ops, limits, m - 1, i);
    }
  }

  /** checks are steps after step n that check, the first at least one timeout after the send, the rest a timeout apart. */
  ghost predicate Spaced(ops: seq<Op>, limits: Limits, n: nat, sent: int, checks: seq<nat>) {
    && (forall k: nat :: k < |checks| ==> n <= checks[k] < |ops| && ops[checks[k]].Check?)
    && (forall k: nat :: k + 1 < |checks| ==>
          checks[k] < checks[k + 1] && ops[checks[k + 1]].at - ops[checks[k]].at >= limits.timeout)
    && (|checks| > 0 ==> ops[checks[0]].at - sent >= limits.timeout)
  }

  lemma {:induction false} ChecksUseRetries(ops: seq<Op>, limits: Limits, n: nat, i: nat, checks: seq<nat>, k: nat)
    requires ClockAdvances(ops) && n <= |ops| && i < COMMAND_MANAGER_MAX_COMMANDS
    requires Slot(ops, limits, n, i).state != Free && Spaced(ops, limits, n, Slot(ops, limits, n, i).sentTime, checks)
    requires k < |checks|
    ensures Slot(ops, limits, checks[k] + 1, i).state == Waiting ==> Slot(ops, limits, checks[k] + 1, i).retries > k
    ensures Slot(ops, limits, checks[k] + 1, i).state != Free
    ensures Slot(ops, limits, checks[k] + 1, i).sentTime <= ops[checks[k]].at
  {
    hide Slot;
    var c := checks[k];
    var start := if k == 0 then n else checks[k - 1] + 1;
    if k > 0 {
      ChecksUseRetries(ops, limits, n, i, checks, k - 1);
      assert checks[k - 1] < checks[k - 1 + 1];
    }
    TimeOrRetry(ops, limits, start, c, i);
    EntriesEvolve(ops, limits, start, c, i);
    SentByNow(ops, limits, c, i, c);
    StepAt(ops, limits, c, i);
  }

  /** After max_retries + 1 checks a timeout apart, a command is no longer waiting, whatever else happened. */
  lemma WaitingEnds(ops: seq<Op>, limits: Limits, n: nat, i: nat, checks: seq<nat>)
    requires ClockAdvances(ops) && n <= |ops| && i < COMMAND_MANAGER_MAX_COMMANDS
    requires Slot(ops, limits, n, i).state != Free && Spaced(ops, limits, n, Slot(ops, limits, n, i).sentTime, checks)
    requires |checks| == limits.maxRetries + 1
    ensures Slot(ops, limits, |ops|, i).state in {Acked, Nacked, TimedOut}
  {
    hide Slot;
    var c := checks[limits.maxRetries];
    ChecksUseRetries(ops, limits, n, i, checks, limits.maxRetries);
    RetriesAreResends(ops, limits, c + 1, i);
    EntriesEvolve(ops, limits, c + 1, |ops|, i);
  }

  /** A command times out only after max_retries resends and a whole timeout of silence after the last. */
  lemma {:induction false} TimedOutMeans(ops: seq<Op>, limits: Limits, n: nat, i: nat)
    requires n <= |ops| && i < COMMAND_MANAGER_MAX_COMMANDS && Slot(ops, limits, n, i).state == TimedOut
    ensures |ResendsOf(Resends(ops, limits, n), i + 1)| == limits.maxRetries
    ensures forall k: nat :: k < n ==> !Matching(ops, limits, k, i) || Slot(ops, limits, k, i).state == TimedOut
    ensures exists j: nat :: j < n && ops[j].Check? && ops[j].at - Slot(ops, limits, n, i).sentTime >= limits.timeout
  {
    hide Slot, Resends, ResendsOf, Run, Tidy;
    RetriesAreResends(ops, limits, n, i);
    if n == 0 {
      SlotAtStart(ops, limits, i);
    } else {
      StepAt(ops, limits, n - 1, i);
      var e := Slot(ops, limits, n - 1, i);
      if e.state == TimedOut {
        TimedOutMeans(ops, limits, n - 1, i);
        RetriesAreResends(ops, limits, n - 1, i);
      } else {
        assert ops[n - 1].Check?;
        forall k: nat | k < n
          ensures !Matching(ops, limits, k, i)
        {
          if k < n - 1 && Matching(ops, limits, k, i) {
            MatchedIsOver(ops, limits, k, i, n - 1);
          }
        }
      }
    }
  }

  // ---------------------------------------------------------------- a node that stays silent

  /** One command, then max_retries + 1 checks a timeout apart and no reply. */
  function SilentRun(send: Op, limits: Limits): (ops: seq<Op>)
    requires send.Send?
    ensures |ops| == limits.maxRetries + 2 && ops[0] == send
    ensures forall k: nat :: 0 < k < |ops| ==> ops[k] == Check(send.at + k * limits.timeout)
  {
    [send] + seq(limits.maxRetries + 1, k requires 0 <= k => Check(send.at + (k + 1) * limits.timeout))
  }

  lemma SilentClock(send: Op, limits: Limits, a: nat, b: nat)
    requires send.Send? && a < b < limits.maxRetries + 2
    ensures var ops := SilentRun(send, limits); ops[a].at <= ops[b].at && ops[b].at - ops[a].at >= (b - a) * limits.timeout
  {
    assert b * limits.timeout - a * limits.timeout == (b - a) * limits.timeout;
  }

  /** Any well-formed command that nobody answers ends TIMEOUT after exactly max_retries resends. */
  lemma SilentNodeTimesOut(send: Op, limits: Limits)
    requires send.Send? && Sendable(send)
    ensures var ops := SilentRun(send, limits);
            && Slot(ops, limits, |ops|, 0).state == TimedOut
            && |ResendsOf(Resends(ops, limits, |ops|), 1)| == limits.maxRetries
  {
    hide Slot, Resends, ResendsOf, Tidy;
    var ops := SilentRun(send, limits);
    var checks := seq(limits.maxRetries + 1, k requires 0 <= k => k + 1);
    forall a: nat, b: nat | a < b < |ops|
      ensures ops[a].at <= ops[b].at && ops[b].at - ops[a].at >= (b - a) * limits.timeout
    {
      SilentClock(send, limits, a, b);
    }
    assert ClockAdvances(ops);
    StepAt(ops, limits, 0, 0);
    SlotAtStart(ops, limits, 0);
    assert Run(ops[..0], limits).nextSequence == 1;
    assert Slot(ops, limits, 1, 0).state == Waiting && Slot(ops, limits, 1, 0).sentTime == send.at;
    assert Spaced(ops, limits, 1, send.at, checks);
    WaitingEnds(ops, limits, 1, 0, checks);
    UnansweredIsOpen(ops, limits, |ops|, 0);
    TimedOutMeans(ops, limits, |ops|, 0);
  }

  // ---------------------------------------------------------------- what the server really sends again

  /** The resends reported to the server's main loop during the first n steps, at most CMD_RETRY_TABLE per check. */
  function Reports(ops: seq<Op>, limits: Limits, n: nat): seq<Retry>
    requires n <= |ops|
  {
    if n == 0 then [] else
      Reports(ops, limits, n - 1)
      + if ops[n - 1].Check?
        then Take(Due(Run(ops[..n - 1], limits).entries, ops[n - 1].at, limits.timeout, limits.maxRetries), CMD_RETRY_TABLE)
        else []
  }

  /** Step n is a check in which slot i falls due while fewer than CMD_RETRY_TABLE slots before it do. */
  predicate ReportedAt(ops: seq<Op>, limits: Limits, n: nat, i: nat)
    requires n < |ops| && i < COMMAND_MANAGER_MAX_COMMANDS
  {
    && ops[n].Check?
    && IsDue(Slot(ops, limits, n, i), ops[n].at, limits.timeout, limits.maxRetries)
    && i <= |Run(ops[..n], limits).entries|
    && |Due(Run(ops[..n], limits).entries[..i], ops[n].at, limits.timeout, limits.maxRetries)| < CMD_RETRY_TABLE
  }

  function ReportCount(ops: seq<Op>, limits: Limits, n: nat, i: nat): nat
    requires n <= |ops| && i < COMMAND_MANAGER_MAX_COMMANDS
  {
    if n == 0 then 0 else ReportCount(ops, limits, n - 1, i) + if ReportedAt(ops, limits, n - 1, i) then 1 else 0
  }

  lemma {:induction false} NoneOf(records: seq<Retry>, sequence: nat)
    ensures ResendsOf(records, sequence) == [] <==> forall k :: 0 <= k < |records| ==> records[k].sequence != sequence
  {
    if records != [] {
      NoneOf(records[..|records| - 1], sequence);
    }
  }

  lemma TakeNone(records: seq<Retry>, n: nat, sequence: nat)
    requires ResendsOf(records, sequence) == []
    ensures ResendsOf(Take(records, n), sequence) == []
  {
    NoneOf(records, sequence);
    NoneOf(Take(records, n), sequence);
    hide ResendsOf;
  }

  lemma TakeConcat(a: seq<Retry>, own: seq<Retry>, b: seq<Retry>, n: nat)
    requires |own| <= 1
    ensures |a| >= n ==> Take(a + own + b, n) == Take(a, n)
    ensures |a| < n ==> Take(a + own + b, n) == a + own + Take(b, n - |a| - |own|)
  {
  }

  lemma TakeOwn(a: seq<Retry>, own: seq<Retry>, b: seq<Retry>, n: nat, sequence: nat)
    requires |own| <= 1 && ResendsOf(a, sequence) == [] && ResendsOf(own, sequence) == own
    requires ResendsOf(a + own + b, sequence) == own
    ensures ResendsOf(Take(a + own + b, n), sequence) == if |a| < n then own else []
  {
    hide ResendsOf, Take;
    ResendsOfConcat(a + own, b, sequence);
    ResendsOfConcat(a, own, sequence);
    assert [] + own == own;
    assert |ResendsOf(b, sequence)| == 0;
    TakeConcat(a, own, b, n);
    if |a| < n {
      TakeNone(b, n - |a| - |own|, sequence);
      ResendsOfConcat(a + own, Take(b, n - |a| - |own|), sequence);
      assert own + [] == own;
    } else {
      TakeNone(a, n, sequence);
    }
  }

  /** The reported part of one check holds the resend of slot i exactly when it is due early enough in the table. */
  lemma ReportOf(entries: seq<Entry>, i: nat, now: int, limits: Limits)
    requires i < |entries|
    requires forall j: nat :: j < |entries| && entries[j].state != Free ==> entries[j].sequence == j + 1
    ensures ResendsOf(Take(Due(entries, now, limits.timeout, limits.maxRetries), CMD_RETRY_TABLE), i + 1)
            == if |Due(entries[..i], now, limits.timeout, limits.maxRetries)| < CMD_RETRY_TABLE
               then OwnResend(entries[i], now, limits) else []
  {
    hide Due, ResendsOf, Take;
    var own := OwnResend(entries[i], now, limits);
    assert entries[..|entries|] == entries;
    var a := Due(entries[..i], now, limits.timeout, limits.maxRetries);
    var due := Due(entries, now, limits.timeout, limits.maxRetries);
    DueStep(entries, i, now, limits.timeout, limits.maxRetries);
    DueGrows(entries, i + 1, |entries|, now, limits.timeout, limits.maxRetries);
    var b := due[|a + own|..];
    assert due == a + own + b;
    DueOf(entries, i, i, now, limits);
    DueOf(entries, |entries|, i, now, limits);
    OwnRecord(entries[i], i + 1, i + 1, now, limits);
    hide OwnResend;
    TakeOwn(a, own, b, CMD_RETRY_TABLE, i + 1);
  }

  /** Over a run a command is really sent again exactly in the checks that report it, each time as itself. */
  lemma {:induction false} ReportsCounted(ops: seq<Op>, limits: Limits, n: nat, i: nat)
    requires n <= |ops| && i < COMMAND_MANAGER_MAX_COMMANDS
    ensures var e := Slot(ops, limits, n, i);
            var records := ResendsOf(Reports(ops, limits, n), i + 1);
            && |records| == ReportCount(ops, limits, n, i) <= e.retries
            && forall k :: 0 <= k < |records| ==> records[k] == Retry(i + 1, e.target, e.fields)
  {
    if n == 0 {
      SlotAtStart(ops, limits, i);
    } else {
      ReportsCounted(ops, limits, n - 1, i);
      StepAt(ops, limits, n - 1, i);
      ReportsStep(ops, limits, n, i);
      hide Slot, Reports, ResendsOf, Run, Due, Tidy;
    }
  }

  lemma ReportsStep(ops: seq<Op>, limits: Limits, n: nat, i: nat)
    requires 0 < n <= |ops| && i < COMMAND_MANAGER_MAX_COMMANDS
    ensures ResendsOf(Reports(ops, limits, n), i + 1)
            == ResendsOf(Reports(ops, limits, n - 1), i + 1)
               + if ReportedAt(ops, limits, n - 1, i)
                 then OwnResend(Slot(ops, limits, n - 1, i), ops[n - 1].at, limits) else []
    ensures ReportedAt(ops, limits, n - 1, i) ==> |OwnResend(Slot(ops, limits, n - 1, i), ops[n - 1].at, limits)| == 1
  {
    var m := Run(ops[..n - 1], limits);
    RunsAreTidy(ops[..n - 1], limits);
    hide Run, Due, ResendsOf, Take;
    assert Reports(ops, limits, n - 1) + [] == Reports(ops, limits, n - 1);
    if ops[n - 1].Check? {
      var now := ops[n - 1].at;
      forall j: nat | j < |m.entries| && m.entries[j].state != Free
        ensures m.entries[j].sequence == j + 1
      {
        assert SlotTidy(m, j);
      }
      ReportOf(m.entries, i, now, limits);
      ResendsOfConcat(Reports(ops, limits, n - 1),
        Take(Due(m.entries, now, limits.timeout, limits.maxRetries), CMD_RETRY_TABLE), i + 1);
      assert ResendsOf(Reports(ops, limits, n - 1), i + 1) + [] == ResendsOf(Reports(ops, limits, n - 1), i + 1);
    }
  }

  // ---------------------------------------------------------------- a crowd of commands

  /** Well-formed commands sent within one second, then max_retries + 1 checks a timeout apart and no reply. */
  function CrowdRun(sends: seq<Op>, at: int, limits: Limits): (ops: seq<Op>)
    ensures |ops| == |sends| + limits.maxRetries + 1
    ensures forall k: nat :: k < |sends| ==> ops[k] == sends[k]
    ensures forall k: nat :: |sends| <= k < |ops| ==> ops[k] == Check(at + (k - |sends| + 1) * limits.timeout)
  {
    sends + seq(limits.maxRetries + 1, k requires 0 <= k => Check(at + (k + 1) * limits.timeout))
  }

  ghost predicate Crowd(sends: seq<Op>, at: int) {
    && |sends| <= COMMAND_MANAGER_MAX_COMMANDS
    && forall k: nat :: k < |sends| ==> sends[k].Send? && Sendable(sends[k]) && sends[k].at == at
  }

  lemma {:induction false} CrowdFills(sends: seq<Op>, at: int, limits: Limits, n: nat, i: nat)
    requires Crowd(sends, at) && n <= |sends| && i < COMMAND_MANAGER_MAX_COMMANDS
    ensures Slot(CrowdRun(sends, at, limits), limits, n, i)
            == if i < n then Entry(Waiting, i + 1, sends[i].sender, sends[i].target, sends[i].fields, at, 0) else FREE_ENTRY
  {
    var ops := CrowdRun(sends, at, limits);
    hide Slot, Tidy, CrowdRun;
    if n == 0 {
      SlotAtStart(ops, limits, i);
    } else {
      CrowdFills(sends, at, limits, n - 1, i);
      CrowdFills(sends, at, limits, n - 1, n - 1);
      StepAt(ops, limits, n - 1, i);
      StepAt(ops, limits, n - 1, n - 1);
      if n > 1 {
        CrowdFills(sends, at, limits, n - 1, n - 2);
        StepAt(ops, limits, n - 1, n - 2);
      }
    }
  }

  lemma CheckedWaiter(e: Entry, now: int, limits: Limits)
    requires e.state == Waiting && now - e.sentTime == limits.timeout && e.retries <= limits.maxRetries
    ensures var after := Checked(e, now, limits.timeout, limits.maxRetries);
            if e.retries < limits.maxRetries
            then after.state == Waiting && after.retries == e.retries + 1 && after.sentTime == now
            else after.state == TimedOut
  {
  }

  lemma CrowdClock(sends: seq<Op>, at: int, limits: Limits, k: nat)
    requires k <= limits.maxRetries
    ensures CrowdRun(sends, at, limits)[|sends| + k] == Check(at + (k + 1) * limits.timeout)
    ensures (at + (k + 1) * limits.timeout) - (at + k * limits.timeout) == limits.timeout
  {
    var ops := CrowdRun(sends, at, limits);
    assert ops[|sends| + k] == Check(at + (|sends| + k - |sends| + 1) * limits.timeout);
  }

  /** After k checks every command of the crowd has used k retries; the check after the last retry gives it up. */
  lemma {:induction false} CrowdWaits(sends: seq<Op>, at: int, limits: Limits, k: nat, i: nat)
    requires Crowd(sends, at) && k <= limits.maxRetries + 1 && i < |sends|
    ensures var e := Slot(CrowdRun(sends, at, limits), limits, |sends| + k, i);
            if k <= limits.maxRetries then e.state == Waiting && e.retries == k && e.sentTime == at + k * limits.timeout
            else e.state == TimedOut
  {
    var ops := CrowdRun(sends, at, limits);
    if k == 0 {
      CrowdFills(sends, at, limits, |sends|, i);
    } else {
      hide Slot, Tidy, CrowdRun, Run, Checked, Crowd;
      CrowdWaits(sends, at, limits, k - 1, i);
      StepAt(ops, limits, |sends| + k - 1, i);
      CrowdClock(sends, at, limits, k - 1);
      CheckedWaiter(Slot(ops, limits, |sends| + k - 1, i), at + k * limits.timeout, limits);
    }
  }

  lemma CrowdDue(sends: seq<Op>, at: int, limits: Limits, k: nat, i: nat)
    requires Crowd(sends, at) && k <= limits.maxRetries && i < |sends|
    ensures ReportedAt(CrowdRun(sends, at, limits), limits, |sends| + k, i) <==> k < limits.maxRetries && i < CMD_RETRY_TABLE
  {
    var ops := CrowdRun(sends, at, limits);
    var now := at + (k + 1) * limits.timeout;
    CrowdClock(sends, at, limits, k);
    hide CrowdRun;
    RunsAreTidy(ops[..|sends| + k], limits);
    var entries := Run(ops[..|sends| + k], limits).entries;
    forall j | 0 <= j <= i
      ensures k < limits.maxRetries ==> IsDue(entries[j], now, limits.timeout, limits.maxRetries)
      ensures k == limits.maxRetries ==> !IsDue(entries[j], now, limits.timeout, limits.maxRetries)
    {
      CrowdWaits(sends, at, limits, k, j);
    }
    if k < limits.maxRetries {
      hide Run, Due, Tidy;
      AllDue(entries, i, now, limits.timeout, limits.maxRetries);
    }
  }

  lemma {:induction false} CrowdCount(sends: seq<Op>, at: int, limits: Limits, k: nat, i: nat)
    requires Crowd(sends, at) && k <= limits.maxRetries + 1 && i < |sends|
    ensures ReportCount(CrowdRun(sends, at, limits), limits, |sends| + k, i)
            == if i >= CMD_RETRY_TABLE then 0 else if k <= limits.maxRetries then k else limits.maxRetries
  {
    var ops := CrowdRun(sends, at, limits);
    hide ReportedAt;
    if k == 0 {
      NothingReported(sends, at, limits, |sends|, i);
    } else {
      CrowdCount(sends, at, limits, k - 1, i);
      CrowdDue(sends, at, limits, k - 1, i);
    }
  }

  lemma {:induction false} NothingReported(sends: seq<Op>, at: int, limits: Limits, n: nat, i: nat)
    requires Crowd(sends, at) && n <= |sends| && i < COMMAND_MANAGER_MAX_COMMANDS
    ensures ReportCount(CrowdRun(sends, at, limits), limits, n, i) == 0
  {
    if n > 0 {
      NothingReported(sends, at, limits, n - 1, i);
      assert CrowdRun(sends, at, limits)[n - 1].Send?;
      hide Slot, Due, Run;
    }
  }

  /**
   * Up to 64 unanswered commands of one second: each ends TIMEOUT, the first sixteen after max_retries real resends,
   * every later one without ever having been sent again.
   */
  lemma CrowdTimesOut(sends: seq<Op>, at: int, limits: Limits, i: nat)
    requires Crowd(sends, at) && i < |sends|
    ensures var ops := CrowdRun(sends, at, limits);
            && Slot(ops, limits, |ops|, i).state == TimedOut
            && |ResendsOf(Reports(ops, limits, |ops|), i + 1)| == if i < CMD_RETRY_TABLE then limits.maxRetries else 0
  {
    hide Slot, Reports, ResendsOf, ReportedAt;
    var ops := CrowdRun(sends, at, limits);
    CrowdWaits(sends, at, limits, limits.maxRetries + 1, i);
    CrowdCount(sends, at, limits, limits.maxRetries + 1, i);
    ReportsCounted(ops, limits, |ops|, i);
  }
}
