/** Tracking commands at the server: replies, retries and timeouts. */
module CommandManager {
  import opened Text
  import opened FrameFormat

  const COMMAND_MANAGER_MAX_COMMANDS := 64

  datatype CommandState = Free | Waiting | Acked | Nacked | TimedOut

  datatype Entry = Entry(state: CommandState, sequence: nat, sender: NodeId, target: NodeId, fields: seq<Field>,
                         sentTime: int, retries: nat)

  const FREE_ENTRY := Entry(Free, 0, "", "", [], 0, 0)

  /** What check_timeouts hands back for one resend. */
  datatype Retry = Retry(sequence: nat, target: NodeId, fields: seq<Field>)

  // ---------------------------------------------------------------- the table as a value

  datatype Manager = Manager(entries: seq<Entry>, nextSequence: nat)

  /** The table command_manager_create makes. */
  function Created(): (m: Manager)
    ensures |m.entries| == COMMAND_MANAGER_MAX_COMMANDS && forall i :: 0 <= i < |m.entries| ==> m.entries[i] == FREE_ENTRY
  {
    Manager(seq(COMMAND_MANAGER_MAX_COMMANDS, _ => FREE_ENTRY), 1)
  }

  function FirstFree(entries: seq<Entry>): (i: nat)
    ensures i <= |entries| && (i < |entries| ==> entries[i].state == Free)
    ensures forall k :: 0 <= k < i ==> entries[k].state != Free
  {
    if entries == [] || entries[0].state == Free then 0 else
      var i := FirstFree(entries[1..]);
      assert forall k :: 0 < k < i + 1 ==> entries[k] == entries[1..][k - 1];
      i + 1
  }

  /** command_manager_find: the first tracked entry with this sequence, or the length. */
  function FindSequence(entries: seq<Entry>, sequence: nat): (i: nat)
    ensures i <= |entries|
    ensures i < |entries| ==> entries[i].state != Free && entries[i].sequence == sequence
    ensures forall k :: 0 <= k < i ==> entries[k].state == Free || entries[k].sequence != sequence
  {
    if entries == [] || (entries[0].state != Free && entries[0].sequence == sequence) then 0 else
      var i := FindSequence(entries[1..], sequence);
      assert forall k :: 0 < k < i + 1 ==> entries[k] == entries[1..][k - 1];
      i + 1
  }

  function Sent(m: Manager, target: string, sender: string, fields: seq<Field>, now: int): (r: (Manager, Option<nat>)) {
    var i := FirstFree(m.entries);
    if sender == "" || target == "" || |fields| > FRAME_DATA_MAX_FIELDS || i == |m.entries|
       || |sender| >= NODE_ID_SIZE || |target| >= NODE_ID_SIZE || '\0' in sender || '\0' in target then (m, None)
    else
      var next := (m.nextSequence + 1) % UINT32_RANGE;
      (Manager(m.entries[i := Entry(Waiting, m.nextSequence, sender, target, fields, now, 0)],
               if next == 0 then 1 else next), Some(m.nextSequence))
  }

  /** on_ack and on_nack: the table afterwards and whether the reply matched a tracked command of that node. */
  function Replied(m: Manager, sequence: nat, node: string, verdict: CommandState): (r: (Manager, bool)) {
    var i := FindSequence(m.entries, sequence);
    if i == |m.entries| || m.entries[i].target != node then (m, false)
    else if m.entries[i].state != Waiting then (m, true)
    else (m.(entries := m.entries[i := m.entries[i].(state := verdict)]), true)
  }

  predicate Expired(e: Entry, now: int, timeout: nat) {
    e.state == Waiting && now - e.sentTime >= timeout
  }

  function Checked(e: Entry, now: int, timeout: nat, maxRetries: nat): Entry {
    if !Expired(e, now, timeout) then e
    else if e.retries < maxRetries then e.(retries := e.retries + 1, sentTime := now)
    else e.(state := TimedOut)
  }

  function CheckedAll(entries: seq<Entry>, now: int, timeout: nat, maxRetries: nat): (after: seq<Entry>)
    ensures |after| == |entries|
    ensures forall i :: 0 <= i < |entries| ==> after[i] == Checked(entries[i], now, timeout, maxRetries)
  {
    seq(|entries|, i requires 0 <= i < |entries| => Checked(entries[i], now, timeout, maxRetries))
  }

  /** The resends that become due, in table order; only as many as fit are reported. */
  function Due(entries: seq<Entry>, now: int, timeout: nat, maxRetries: nat): seq<Retry> {
    if entries == [] then [] else
      var due := Due(entries[..|entries| - 1], now, timeout, maxRetries);
      var e := entries[|entries| - 1];
      if Expired(e, now, timeout) && e.retries < maxRetries then due + [Retry(e.sequence, e.target, e.fields)] else due
  }

  function GivenUp(entries: seq<Entry>, now: int, timeout: nat, maxRetries: nat): seq<nat> {
    if entries == [] then [] else
      var up := GivenUp(entries[..|entries| - 1], now, timeout, maxRetries);
      var e := entries[|entries| - 1];
      if Expired(e, now, timeout) && e.retries >= maxRetries then up + [e.sequence] else up
  }

  function Take<T>(s: seq<T>, n: nat): seq<T> {
    if |s| <= n then s else s[..n]
  }

  // ---------------------------------------------------------------- the implementation

  class CommandTable {
    const entries: array<Entry>
    var nextSequence: nat

    ghost predicate Valid()
      reads this
    {
      entries.Length == COMMAND_MANAGER_MAX_COMMANDS
    }

    ghost function View(): Manager
      reads this, entries
    {
      Manager(entries[..], nextSequence)
    }

    constructor ()
      ensures Valid() && fresh(entries)
      ensures View() == Created()
    {
      entries := new Entry[COMMAND_MANAGER_MAX_COMMANDS](_ => FREE_ENTRY);
      nextSequence := 1;
      new;
      assert entries[..] == Created().entries;
    }

    method Send(target: CStr, sender: CStr, fields: seq<Field>, now: int) returns (sequence: Option<nat>)
      requires Valid()
      modifies this, entries
      ensures Valid() && (View(), sequence) == Sent(old(View()), target, sender, fields, now)
    {
      if sender == "" || target == "" {
        return None;
      }
      if |fields| > FRAME_DATA_MAX_FIELDS {
        return None;
      }
      var i := 0;
      while i < entries.Length && entries[i].state != Free
        invariant i <= entries.Length
        invariant forall k :: 0 <= k < i ==> entries[k].state != Free
      {
        i := i + 1;
      }
      assert i == FirstFree(entries[..]);
      if i == entries.Length {
        return None;
      }
      if |sender| >= NODE_ID_SIZE || |target| >= NODE_ID_SIZE {
        return None;
      }
      sequence := Some(nextSequence);
      entries[i] := Entry(Waiting, nextSequence, sender, target, fields, now, 0);
      nextSequence := (nextSequence + 1) % UINT32_RANGE;
      if nextSequence == 0 {
        nextSequence := 1;
      }
    }

    method Find(sequence: nat) returns (i: nat)
      ensures i == FindSequence(entries[..], sequence)
    {
      i := 0;
      while i < entries.Length
        invariant i <= entries.Length
        invariant forall k :: 0 <= k < i ==> entries[k].state == Free || entries[k].sequence != sequence
      {
        if entries[i].state != Free && entries[i].sequence == sequence {
          return;
        }
        i := i + 1;
      }
    }

    /** command_manager_on_ack and command_manager_on_nack. */
    method OnReply(sequence: nat, node: string, verdict: CommandState) returns (matched: bool)
      requires Valid()
      modifies entries
      ensures (View(), matched) == Replied(old(View()), sequence, node, verdict)
    {
      var i := Find(sequence);
      if i == entries.Length {
        return false;
      }
      if entries[i].target != node {
        return false;
      }
      if entries[i].state != Waiting {
        return true;
      }
      entries[i] := entries[i].(state := verdict);
      return true;
    }

    method Query(sequence: nat) returns (state: Option<CommandState>)
      ensures var i := FindSequence(entries[..], sequence);
              state == if i == entries.Length then None else Some(entries[i].state)
    {
      var i := Find(sequence);
      if i == entries.Length {
        return None;
      }
      return Some(entries[i].state);
    }

    /** A resend is consumed even when there is no room to report it. */
    method CheckTimeouts(now: int, timeout: nat, maxRetries: nat, retryCapacity: nat, timeoutCapacity: nat)
        returns (retries: seq<Retry>, timeouts: seq<nat>)
      requires Valid()
      modifies entries
      ensures Valid() && nextSequence == old(nextSequence)
      ensures entries[..] == CheckedAll(old(entries[..]), now, timeout, maxRetries)
      ensures retries == Take(Due(old(entries[..]), now, timeout, maxRetries), retryCapacity)
      ensures timeouts == Take(GivenUp(old(entries[..]), now, timeout, maxRetries), timeoutCapacity)
    {
      ghost var before := entries[..];
      retries, timeouts := [], [];
      for i := 0 to entries.Length
        invariant forall k :: i <= k < entries.Length ==> entries[k] == before[k]
        invariant forall k :: 0 <= k < i ==> entries[k] == Checked(before[k], now, timeout, maxRetries)
        invariant retries == Take(Due(before[..i], now, timeout, maxRetries), retryCapacity)
        invariant timeouts == Take(GivenUp(before[..i], now, timeout, maxRetries), timeoutCapacity)
      {
        hide Due, GivenUp, CheckedAll, Take, Checked, Expired;
        var retry, given := CheckEntry(i, now, timeout, maxRetries);
        DueStep(before, i, now, timeout, maxRetries);
        TakeOneMore(Due(before[..i], now, timeout, maxRetries), retry, retryCapacity);
        TakeOneMore(GivenUp(before[..i], now, timeout, maxRetries), given, timeoutCapacity);
        if retry.Some? && |retries| < retryCapacity {
          retries := retries + [retry.value];
        }
        if given.Some? && |timeouts| < timeoutCapacity {
          timeouts := timeouts + [given.value];
        }
      }
      assert before[..|before|] == before;
      assert entries[..] == CheckedAll(before, now, timeout, maxRetries);
    }

    /** One turn of the loop: the entry after the check, and the resend or the timeout it causes. */
    method CheckEntry(i: nat, now: int, timeout: nat, maxRetries: nat) returns (retry: Option<Retry>, given: Option<nat>)
      requires i < entries.Length
      modifies entries
      ensures entries[i] == Checked(old(entries[i]), now, timeout, maxRetries)
      ensures forall k :: 0 <= k < entries.Length && k != i ==> entries[k] == old(entries[k])
      ensures var e := old(entries[i]);
              && AsSeq(retry) == (if Expired(e, now, timeout) && e.retries < maxRetries
                                  then [Retry(e.sequence, e.target, e.fields)] else [])
              && AsSeq(given) == (if Expired(e, now, timeout) && e.retries >= maxRetries then [e.sequence] else [])
    {
      var e := entries[i];
      retry, given := None, None;
      if e.state != Waiting || now - e.sentTime < timeout {
        return;
      }
      if e.retries < maxRetries {
        entries[i] := e.(retries := e.retries + 1, sentTime := now);
        retry := Some(Retry(e.sequence, e.target, e.fields));
      } else {
        entries[i] := e.(state := TimedOut);
        given := Some(e.sequence);
      }
    }
  }

  function AsSeq<T>(x: Option<T>): seq<T> {
    match x
    case None => []
    case Some(value) => [value]
  }

  lemma TakeOneMore<T>(s: seq<T>, x: Option<T>, n: nat)
    ensures Take(s + AsSeq(x), n) == if x.Some? && |Take(s, n)| < n then Take(s, n) + AsSeq(x) else Take(s, n)
  {
    assert s + [] == s;
  }

  lemma DueStep(entries: seq<Entry>, i: nat, now: int, timeout: nat, maxRetries: nat)
    requires i < |entries|
    ensures var e := entries[i];
            Due(entries[..i + 1], now, timeout, maxRetries)
            == Due(entries[..i], now, timeout, maxRetries)
               + (if Expired(e, now, timeout) && e.retries < maxRetries then [Retry(e.sequence, e.target, e.fields)] else [])
    ensures var e := entries[i];
            GivenUp(entries[..i + 1], now, timeout, maxRetries)
            == GivenUp(entries[..i], now, timeout, maxRetries)
               + (if Expired(e, now, timeout) && e.retries >= maxRetries then [e.sequence] else [])
  {
    assert entries[..i + 1][..i] == entries[..i];
  }

  // ---------------------------------------------------------------- which resends are reported

  predicate IsDue(e: Entry, now: int, timeout: nat, maxRetries: nat) {
    Expired(e, now, timeout) && e.retries < maxRetries
  }

  lemma {:induction false} DueGrows(entries: seq<Entry>, i: nat, k: nat, now: int, timeout: nat, maxRetries: nat)
    requires i <= k <= |entries|
    ensures Due(entries[..i], now, timeout, maxRetries) <= Due(entries[..k], now, timeout, maxRetries)
  {
    if i < k {
      DueGrows(entries, i, k - 1, now, timeout, maxRetries);
      DueStep(entries, k - 1, now, timeout, maxRetries);
    }
  }

  /** Which entry the record at position p belongs to. */
  lemma {:induction false} DueAt(entries: seq<Entry>, k: nat, p: nat, now: int, timeout: nat, maxRetries: nat) returns (j: nat)
    requires k <= |entries| && p < |Due(entries[..k], now, timeout, maxRetries)|
    ensures j < k && IsDue(entries[j], now, timeout, maxRetries)
    ensures p == |Due(entries[..j], now, timeout, maxRetries)|
    ensures Due(entries[..k], now, timeout, maxRetries)[p] == Retry(entries[j].sequence, entries[j].target, entries[j].fields)
  {
    assert entries[..0] == [];
    DueStep(entries, k - 1, now, timeout, maxRetries);
    hide Due;
    if p < |Due(entries[..k - 1], now, timeout, maxRetries)| {
      j := DueAt(entries, k - 1, p, now, timeout, maxRetries);
    } else {
      j := k - 1;
    }
  }

  /**
   * A check reports the resend of an entry exactly when it falls due and fewer resends than fit fall due before
   * it in the table. A resend that is not reported uses up a retry all the same.
   */
  lemma ReportedIff(entries: seq<Entry>, i: nat, now: int, timeout: nat, maxRetries: nat, capacity: nat)
    requires i < |entries| && entries[i].state != Free
    requires forall a, b :: 0 <= a < b < |entries| && entries[a].state != Free && entries[b].state != Free ==>
               entries[a].sequence != entries[b].sequence
    ensures (exists r :: r in Take(Due(entries, now, timeout, maxRetries), capacity) && r.sequence == entries[i].sequence)
            <==> IsDue(entries[i], now, timeout, maxRetries) && |Due(entries[..i], now, timeout, maxRetries)| < capacity
  {
    hide Due;
    assert entries[..|entries|] == entries;
    var due := Due(entries, now, timeout, maxRetries);
    var before := |Due(entries[..i], now, timeout, maxRetries)|;
    if r :| r in Take(due, capacity) && r.sequence == entries[i].sequence {
      var p: nat :| p < |Take(due, capacity)| && Take(due, capacity)[p] == r;
      assert due[p] == r;
      var j := DueAt(entries, |entries|, p, now, timeout, maxRetries);
      assert j == i;
    }
    if IsDue(entries[i], now, timeout, maxRetries) && before < capacity {
      DueStep(entries, i, now, timeout, maxRetries);
      DueGrows(entries, i + 1, |entries|, now, timeout, maxRetries);
      assert due[before] == Retry(entries[i].sequence, entries[i].target, entries[i].fields);
      assert due[before] == Take(due, capacity)[before];
    }
  }

  lemma {:induction false} AllDue(entries: seq<Entry>, k: nat, now: int, timeout: nat, maxRetries: nat)
    requires k <= |entries| && forall j :: 0 <= j < k ==> IsDue(entries[j], now, timeout, maxRetries)
    ensures |Due(entries[..k], now, timeout, maxRetries)| == k
  {
    if k > 0 {
      AllDue(entries, k - 1, now, timeout, maxRetries);
      DueStep(entries, k - 1, now, timeout, maxRetries);
    }
  }

  /** The server asks for at most this many resends per check. */
  const CMD_RETRY_TABLE := 16

  /** When more commands than that fall due together, the later ones lose a retry without being sent again. */
  lemma CrowdedOut(entries: seq<Entry>, i: nat, now: int, timeout: nat, maxRetries: nat)
    requires CMD_RETRY_TABLE <= i < |entries| && forall j :: 0 <= j <= i ==> IsDue(entries[j], now, timeout, maxRetries)
    requires forall a, b :: 0 <= a < b < |entries| && entries[a].state != Free && entries[b].state != Free ==>
               entries[a].sequence != entries[b].sequence
    ensures CheckedAll(entries, now, timeout, maxRetries)[i].retries == entries[i].retries + 1
    ensures forall r :: r in Take(Due(entries, now, timeout, maxRetries), CMD_RETRY_TABLE) ==> r.sequence != entries[i].sequence
  {
    assert IsDue(entries[i], now, timeout, maxRetries);
    hide Due;
    AllDue(entries, i, now, timeout, maxRetries);
    ReportedIff(entries, i, now, timeout, maxRetries, CMD_RETRY_TABLE);
  }

  // ---------------------------------------------------------------- which timeouts are reported

  lemma {:induction false} GivenUpGrows(entries: seq<Entry>, i: nat, k: nat, now: int, timeout: nat, maxRetries: nat)
    requires i <= k <= |entries|
    ensures GivenUp(entries[..i], now, timeout, maxRetries) <= GivenUp(entries[..k], now, timeout, maxRetries)
  {
    if i < k {
      GivenUpGrows(entries, i, k - 1, now, timeout, maxRetries);
      DueStep(entries, k - 1, now, timeout, maxRetries);
    }
  }

  lemma {:induction false} GivenUpAt(entries: seq<Entry>, k: nat, p: nat, now: int, timeout: nat, maxRetries: nat) returns (j: nat)
    requires k <= |entries| && p < |GivenUp(entries[..k], now, timeout, maxRetries)|
    ensures j < k && entries[j].state == Waiting && Checked(entries[j], now, timeout, maxRetries).state == TimedOut
    ensures p == |GivenUp(entries[..j], now, timeout, maxRetries)|
    ensures GivenUp(entries[..k], now, timeout, maxRetries)[p] == entries[j].sequence
  {
    assert entries[..0] == [];
    DueStep(entries, k - 1, now, timeout, maxRetries);
    hide GivenUp;
    if p < |GivenUp(entries[..k - 1], now, timeout, maxRetries)| {
      j := GivenUpAt(entries, k - 1, p, now, timeout, maxRetries);
    } else {
      j := k - 1;
    }
  }

  /**
   * A check reports the timeout of a waiting entry exactly when it ends the entry's waiting and fewer timeouts than fit
   * stand before it in the table.
   */
  lemma TimeoutReportedIff(entries: seq<Entry>, i: nat, now: int, timeout: nat, maxRetries: nat, capacity: nat)
    requires i < |entries| && entries[i].state != Free
    requires forall a, b :: 0 <= a < b < |entries| && entries[a].state != Free && entries[b].state != Free ==>
               entries[a].sequence != entries[b].sequence
    ensures entries[i].sequence in Take(GivenUp(entries, now, timeout, maxRetries), capacity)
            <==> && entries[i].state == Waiting && CheckedAll(entries, now, timeout, maxRetries)[i].state == TimedOut
                 && |GivenUp(entries[..i], now, timeout, maxRetries)| < capacity
  {
    hide GivenUp;
    assert entries[..|entries|] == entries;
    var up := GivenUp(entries, now, timeout, maxRetries);
    var before := |GivenUp(entries[..i], now, timeout, maxRetries)|;
    if entries[i].sequence in Take(up, capacity) {
      var p: nat :| p < |Take(up, capacity)| && Take(up, capacity)[p] == entries[i].sequence;
      assert up[p] == entries[i].sequence;
      var j := GivenUpAt(entries, |entries|, p, now, timeout, maxRetries);
      assert j == i;
    }
    if entries[i].state == Waiting && Checked(entries[i], now, timeout, maxRetries).state == TimedOut && before < capacity {
      DueStep(entries, i, now, timeout, maxRetries);
      GivenUpGrows(entries, i + 1, |entries|, now, timeout, maxRetries);
      assert up[before] == entries[i].sequence;
      assert up[before] == Take(up, capacity)[before];
    }
  }
}
