/** The server's table of the latest data of each node, which evicts the node it heard from longest ago. */
module NodeStore {
  import opened Text
  import opened FrameFormat
  import opened FrameDecoder

  datatype Slot = Slot(used: bool, lastUpdate: int, data: KvMessage)

  const UNUSED := Slot(false, 0, KvMessage("", 0, []))

  function FindNode(s: seq<Slot>, id: string): (i: nat)
    ensures i <= |s|
    ensures i < |s| ==> s[i].used && s[i].data.id == id
    ensures forall k :: 0 <= k < i ==> !(s[k].used && s[k].data.id == id)
  {
    if s == [] || (s[0].used && s[0].data.id == id) then 0 else
      var i := FindNode(s[1..], id);
      assert forall k :: 0 < k < i + 1 ==> s[k] == s[1..][k - 1];
      i + 1
  }

  /** The data stored for a node. */
  function Lookup(s: seq<Slot>, id: string): (data: Option<KvMessage>)
    ensures data.Some? ==> FindNode(s, id) < |s| && data.value.id == id != ""
  {
    var i := FindNode(s, id);
    if id == "" || i == |s| then None else Some(s[i].data)
  }

  /** The first of the slots updated longest ago. */
  ghost predicate IsOldest(s: seq<Slot>, i: nat) {
    && i < |s|
    && (forall k :: 0 <= k < i ==> s[i].lastUpdate < s[k].lastUpdate)
    && (forall k :: i <= k < |s| ==> s[i].lastUpdate <= s[k].lastUpdate)
  }

  function Oldest(s: seq<Slot>): (i: nat)
    requires s != []
    ensures IsOldest(s, i)
  {
    if |s| == 1 then 0 else
      var i := Oldest(s[..|s| - 1]);
      if s[|s| - 1].lastUpdate < s[i].lastUpdate then |s| - 1 else i
  }

  function Updated(s: seq<Slot>, capacity: nat, data: KvMessage, now: int): (t: seq<Slot>)
    requires capacity > 0
  {
    var slot := Slot(true, now, data);
    var i := FindNode(s, data.id);
    if data.id == "" then s
    else if i < |s| then s[i := s[i].(data := data, lastUpdate := now)]
    else if |s| < capacity then s + [slot]
    else s[Oldest(s) := slot]
  }

  // ---------------------------------------------------------------- the implementation

  class Store {
    const entries: array<Slot>
    var count: nat

    ghost predicate Valid()
      reads this, entries
    {
      && 0 < entries.Length && count <= entries.Length
      && forall i :: 0 <= i < count ==> entries[i].used
    }

    ghost function View(): seq<Slot>
      requires Valid()
      reads this, entries
    {
      entries[..count]
    }

    constructor (maxNodes: nat)
      requires maxNodes > 0
      ensures Valid() && View() == [] && entries.Length == maxNodes && fresh(entries)
    {
      entries := new Slot[maxNodes](_ => UNUSED);
      count := 0;
    }

    method Find(id: string) returns (i: nat)
      requires Valid()
      ensures i == FindNode(View(), id)
    {
      i := 0;
      while i < count
        invariant i <= count
        invariant forall k :: 0 <= k < i ==> entries[k].data.id != id
      {
        if entries[i].used && entries[i].data.id == id {
          return;
        }
        i := i + 1;
      }
    }

    method FindOldest() returns (oldest: nat)
      requires Valid() && count > 0
      ensures oldest == Oldest(View())
    {
      oldest := 0;
      for i := 1 to count
        invariant IsOldest(entries[..i], oldest)
      {
        if entries[i].lastUpdate < entries[oldest].lastUpdate {
          oldest := i;
        }
      }
      assert IsOldest(View(), Oldest(View()));
    }

    method Update(report: KvMessage, now: int) returns (ok: bool)
      requires Valid()
      modifies this`count, entries
      ensures Valid() && ok == (report.id != "")
      ensures View() == Updated(old(View()), entries.Length, report, now)
    {
      if report.id == "" {
        return false;
      }
      var i := Find(report.id);
      if i < count {
        entries[i] := entries[i].(data := report, lastUpdate := now);
        return true;
      }
      if count < entries.Length {
        count := count + 1;
      } else {
        i := FindOldest();
      }
      entries[i] := Slot(true, now, report);
      return true;
    }

    method Query(id: string) returns (found: Option<KvMessage>)
      requires Valid()
      ensures found == Lookup(View(), id)
    {
      if id == "" {
        return None;
      }
      var i := Find(id);
      return if i < count then Some(entries[i].data) else None;
    }

    method IsOnline(id: string, timeout: int, now: int) returns (online: Option<bool>)
      requires Valid()
      ensures timeout < 0 || Lookup(View(), id).None? ==> online.None?
      ensures timeout >= 0 && Lookup(View(), id).Some? ==>
                online == Some(now - View()[FindNode(View(), id)].lastUpdate < timeout)
    {
      if id == "" || timeout < 0 {
        return None;
      }
      var i := Find(id);
      return if i < count then Some(now - entries[i].lastUpdate < timeout) else None;
    }
  }

  // ---------------------------------------------------------------- whole update histories

  datatype Report = Report(data: KvMessage, at: int)

  function History(h: seq<Report>, capacity: nat): seq<Slot>
    requires capacity > 0
  {
    if h == [] then [] else
      Updated(History(h[..|h| - 1], capacity), capacity, h[|h| - 1].data, h[|h| - 1].at)
  }

  /** The last report of a node, if it ever sent one. */
  function LastReport(h: seq<Report>, id: string): (i: Option<nat>)
    ensures i.Some? ==> i.value < |h| && h[i.value].data.id == id
    ensures forall k: nat :: (i.Some? ==> i.value < k) && k < |h| ==> h[k].data.id != id
  {
    if h == [] then None
    else if h[|h| - 1].data.id == id then Some(|h| - 1)
    else LastReport(h[..|h| - 1], id)
  }

  ghost predicate Holds(s: seq<Slot>, id: string) {
    exists i: nat :: i < |s| && s[i].data.id == id
  }

  ghost predicate NonDecreasing(h: seq<Report>) {
    forall i: nat, j: nat :: i < j < |h| ==> h[i].at <= h[j].at
  }

  ghost predicate Increasing(h: seq<Report>) {
    forall i: nat, j: nat :: i < j < |h| ==> h[i].at < h[j].at
  }

  /** Slot i carries the last report of its node. */
  ghost predicate Latest(h: seq<Report>, e: Slot) {
    && e.used && e.data.id != ""
    && LastReport(h, e.data.id).Some?
    && e == Slot(true, h[LastReport(h, e.data.id).value].at, h[LastReport(h, e.data.id).value].data)
  }

  ghost predicate Distinct(s: seq<Slot>) {
    forall i: nat, j: nat :: i < j < |s| ==> s[i].data.id != s[j].data.id
  }

  /** Distinct nodes, each with its latest data, and no more of them than there is room for. */
  lemma {:induction false} HoldsLatest(h: seq<Report>, capacity: nat)
    requires capacity > 0
    ensures var s := History(h, capacity);
            |s| <= capacity && Distinct(s) && forall i: nat :: i < |s| ==> Latest(h, s[i])
  {
    if h != [] {
      var r := h[|h| - 1];
      var before := History(h[..|h| - 1], capacity);
      var after := History(h, capacity);
      HoldsLatest(h[..|h| - 1], capacity);
      forall i: nat | i < |after|
        ensures Latest(h, after[i])
      {
        if i < |before| {
          assert Latest(h[..|h| - 1], before[i]);
        }
      }
    }
  }

  /** A query is answered with the node's last report, or not at all. */
  lemma LookupIsLatest(h: seq<Report>, capacity: nat, id: string)
    requires capacity > 0
    ensures Lookup(History(h, capacity), id).Some? <==> id != "" && Holds(History(h, capacity), id)
    ensures Lookup(History(h, capacity), id).Some? ==>
              LastReport(h, id).Some? && Lookup(History(h, capacity), id) == Some(h[LastReport(h, id).value].data)
  {
    HoldsLatest(h, capacity);
    var s := History(h, capacity);
    hide History;
    if id != "" && Holds(s, id) {
      var k: nat :| k < |s| && s[k].data.id == id;
      assert Latest(h, s[k]);
    }
    var i := FindNode(s, id);
    assert i < |s| ==> Latest(h, s[i]);
  }

  ghost predicate Forgotten(h: seq<Report>, s: seq<Slot>, id: string) {
    id != "" && LastReport(h, id).Some? && !Holds(s, id)
  }

  /** A forgotten node was last heard from no later than every node still held, and the table is full. */
  lemma {:induction false} ForgetsTheOldest(h: seq<Report>, capacity: nat, id: string)
    requires capacity > 0 && NonDecreasing(h) && Forgotten(h, History(h, capacity), id)
    ensures var s := History(h, capacity);
            |s| == capacity && forall i: nat :: i < |s| ==> h[LastReport(h, id).value].at <= s[i].lastUpdate
  {
    var r := h[|h| - 1];
    var before := History(h[..|h| - 1], capacity);
    var after := History(h, capacity);
    assert h == h[..|h| - 1] + [r];
    LastReportAppend(h[..|h| - 1], r, id);
    hide LastReport;
    HoldsLatest(h[..|h| - 1], capacity);
    if r.data.id == id {
      NewestIsHeld(before, capacity, r);
      assert false;
    }
    if Holds(before, id) {
      var k: nat :| k < |before| && before[k].data.id == id;
      assert Latest(h[..|h| - 1], before[k]);
      assert k < |after| && after[k].data.id == id ==> Holds(after, id);
    } else {
      ForgetsTheOldest(h[..|h| - 1], capacity, id);
    }
  }

  lemma NewestIsHeld(s: seq<Slot>, capacity: nat, r: Report)
    requires capacity > 0 && r.data.id != ""
    ensures Holds(Updated(s, capacity, r.data, r.at), r.data.id)
  {
    var t := Updated(s, capacity, r.data, r.at);
    var i := FindNode(s, r.data.id);
    assert t[if i < |s| then i else if |s| < capacity then |s| else Oldest(s)].data.id == r.data.id;
  }

  // ---------------------------------------------------------------- a strictly increasing clock

  /** The nodes heard from after the node's last report. */
  function Newer(h: seq<Report>, id: string): (ids: set<string>)
    ensures forall x :: x in ids <==>
              x != "" && x != id && LastReport(h, x).Some? && LastReport(h, id).Some? && LastReport(h, x).value > LastReport(h, id).value
  {
    set i: nat | i < |h| && h[i].data.id != "" && h[i].data.id != id && LastReport(h, id).Some? && i > LastReport(h, id).value :: h[i].data.id
  }

  function Ids(s: seq<Slot>): set<string> {
    set i: nat | i < |s| :: s[i].data.id
  }

  lemma {:induction false} DistinctIds(s: seq<Slot>)
    requires Distinct(s)
    ensures |Ids(s)| == |s|
  {
    if s != [] {
      var t := s[..|s| - 1];
      DistinctIds(t);
      assert Ids(s) == Ids(t) + {s[|s| - 1].data.id};
      assert s[|s| - 1].data.id !in Ids(t);
    }
  }

  lemma SubsetSize<T>(a: set<T>, b: set<T>)
    requires a <= b
    ensures |a| <= |b|
  {
    assert b == a + (b - a);
  }

  lemma NewerIsHeld(h: seq<Report>, capacity: nat, id: string, x: string)
    requires capacity > 0 && Increasing(h) && x in Newer(h, id) && Holds(History(h, capacity), id)
    ensures x in Ids(History(h, capacity))
  {
    hide History, Newer;
    var s := History(h, capacity);
    HoldsLatest(h, capacity);
    var k: nat :| k < |s| && s[k].data.id == id;
    assert Latest(h, s[k]);
    if !Holds(s, x) {
      ForgetsTheOldest(h, capacity, x);
    }
  }

  lemma HeldIsNewer(h: seq<Report>, capacity: nat, id: string, x: string)
    requires capacity > 0 && Increasing(h) && x in Ids(History(h, capacity)) && Forgotten(h, History(h, capacity), id)
    ensures x in Newer(h, id)
  {
    hide History, Newer;
    var s := History(h, capacity);
    HoldsLatest(h, capacity);
    ForgetsTheOldest(h, capacity, id);
    var k: nat :| k < |s| && s[k].data.id == x;
    assert Latest(h, s[k]);
  }

  /** The store holds exactly the capacity most recently updated nodes. */
  lemma HoldsMostRecentIff(h: seq<Report>, capacity: nat, id: string)
    requires capacity > 0 && Increasing(h) && id != "" && LastReport(h, id).Some?
    ensures Holds(History(h, capacity), id) <==> |Newer(h, id)| < capacity
  {
    hide History, Newer, LastReport;
    var s := History(h, capacity);
    HoldsLatest(h, capacity);
    DistinctIds(s);
    if Holds(s, id) {
      forall x | x in Newer(h, id)
        ensures x in Ids(s)
      {
        NewerIsHeld(h, capacity, id, x);
      }
      SubsetSize(Newer(h, id) + {id}, Ids(s));
    } else {
      ForgetsTheOldest(h, capacity, id);
      forall x | x in Ids(s)
        ensures x in Newer(h, id)
      {
        HeldIsNewer(h, capacity, id, x);
      }
      SubsetSize(Ids(s), Newer(h, id));
    }
  }

  // ---------------------------------------------------------------- what eviction does when times are equal

  /** A report that makes a full store forget a node. */
  ghost predicate Evicts(s: seq<Slot>, capacity: nat, id: string) {
    id != "" && s != [] && |s| == capacity && FindNode(s, id) == |s|
  }

  /** The node in slot i reported no later than the nodes in all slots that satisfy the test on their time. */
  ghost predicate ReportedFirst(h: seq<Report>, s: seq<Slot>, i: nat, atMost: int)
    requires i < |s| && LastReport(h, s[i].data.id).Some?
  {
    forall k: nat :: k < |s| && s[k].lastUpdate <= atMost && LastReport(h, s[k].data.id).Some? ==>
      LastReport(h, s[i].data.id).value <= LastReport(h, s[k].data.id).value
  }

  /** The node in slot i reported longest ago of all nodes held. */
  ghost predicate LeastRecent(h: seq<Report>, s: seq<Slot>, i: nat)
    requires i < |s| && LastReport(h, s[i].data.id).Some?
  {
    forall k: nat :: k < |s| && LastReport(h, s[k].data.id).Some? ==>
      LastReport(h, s[i].data.id).value <= LastReport(h, s[k].data.id).value
  }

  /**
   * With a clock that does not go back, the slot a full store gives up is that of the node heard from longest ago if
   * and only if, among the slots that carry the oldest time, the first one's node reported first.
   */
  lemma EvictsLeastRecentIff(h: seq<Report>, capacity: nat, r: Report)
    requires capacity > 0 && NonDecreasing(h) && Evicts(History(h, capacity), capacity, r.data.id)
    ensures var s := History(h, capacity);
            var i := Oldest(s);
            && Updated(s, capacity, r.data, r.at) == s[i := Slot(true, r.at, r.data)]
            && LastReport(h, s[i].data.id).Some?
            && (LeastRecent(h, s, i) <==> ReportedFirst(h, s, i, s[i].lastUpdate))
  {
    HoldsLatest(h, capacity);
    var s := History(h, capacity);
    var i := Oldest(s);
    hide History, LastReport;
    assert Latest(h, s[i]);
    forall k: nat | k < |s| && s[k].lastUpdate > s[i].lastUpdate
      ensures LastReport(h, s[k].data.id).Some?
      ensures LastReport(h, s[i].data.id).value <= LastReport(h, s[k].data.id).value
    {
      assert Latest(h, s[k]);
    }
  }

  /** In particular it is right whenever no two held nodes share the oldest time. */
  lemma UniqueOldestIsLeastRecent(h: seq<Report>, capacity: nat, r: Report)
    requires capacity > 0 && NonDecreasing(h) && Evicts(History(h, capacity), capacity, r.data.id)
    requires var s := History(h, capacity);
             forall k: nat :: k < |s| && s[k].lastUpdate == s[Oldest(s)].lastUpdate ==> k == Oldest(s)
    ensures var s := History(h, capacity);
            LastReport(h, s[Oldest(s)].data.id).Some? && LeastRecent(h, s, Oldest(s))
  {
    EvictsLeastRecentIff(h, capacity, r);
    hide History, LastReport;
  }

  // ---------------------------------------------------------------- whole histories with equal times

  ghost predicate Reported(h: seq<Report>, id: string) {
    id != "" && LastReport(h, id).Some?
  }

  /** The store holds exactly the capacity most recently updated nodes. */
  ghost predicate MostRecent(h: seq<Report>, capacity: nat)
    requires capacity > 0
  {
    forall id :: Reported(h, id) ==> (Holds(History(h, capacity), id) <==> |Newer(h, id)| < capacity)
  }

  /** If the report evicts, then of the nodes with the oldest time the one in the first slot reported first. */
  ghost predicate TieInOrder(h: seq<Report>, capacity: nat, r: Report)
    requires capacity > 0
  {
    var s := History(h, capacity);
    Evicts(s, capacity, r.data.id) ==>
      LastReport(h, s[Oldest(s)].data.id).Some? && ReportedFirst(h, s, Oldest(s), s[Oldest(s)].lastUpdate)
  }

  lemma NewerAppend(h: seq<Report>, r: Report, id: string)
    requires Reported(h, id) && r.data.id != id
    ensures Newer(h + [r], id) == Newer(h, id) + if r.data.id == "" then {} else {r.data.id}
  {
    LastReportAppend(h, r, id);
    forall x
      ensures x in Newer(h + [r], id) <==> x in Newer(h, id) || (x == r.data.id && x != "")
    {
      LastReportAppend(h, r, x);
    }
    hide Newer, LastReport;
  }

  lemma NewestHasNoNewer(h: seq<Report>, r: Report)
    ensures Newer(h + [r], r.data.id) == {}
  {
    LastReportAppend(h, r, r.data.id);
  }

  /** Whoever reported after a newer node also reported after the older one. */
  lemma NewerNested(h: seq<Report>, id: string, later: string)
    requires Reported(h, id) && later in Newer(h, id)
    ensures Newer(h, later) + {later} <= Newer(h, id) && |Newer(h, later)| < |Newer(h, id)|
  {
    hide LastReport;
    assert Newer(h, later) + {later} <= Newer(h, id);
    SubsetSize(Newer(h, later) + {later}, Newer(h, id));
  }

  /** Where the store is right, whatever is newer than a held node is held. */
  lemma NewerAreHeld(h: seq<Report>, capacity: nat, id: string)
    requires capacity > 0 && MostRecent(h, capacity) && Reported(h, id) && Holds(History(h, capacity), id)
    ensures Newer(h, id) <= Ids(History(h, capacity)) - {id}
  {
    hide History, LastReport;
    forall x | x in Newer(h, id)
      ensures x in Ids(History(h, capacity)) - {id}
    {
      assert Reported(h, x);
      NewerNested(h, id, x);
    }
  }

  lemma HeldIsReported(h: seq<Report>, capacity: nat, id: string)
    requires capacity > 0 && id in Ids(History(h, capacity))
    ensures Reported(h, id) && Holds(History(h, capacity), id)
  {
    HoldsLatest(h, capacity);
    var s := History(h, capacity);
    var k: nat :| k < |s| && s[k].data.id == id;
    assert Latest(h, s[k]);
  }

  lemma OverwriteKeepsMostRecent(h: seq<Report>, capacity: nat, r: Report)
    requires capacity > 0 && MostRecent(h, capacity)
    requires r.data.id == "" || FindNode(History(h, capacity), r.data.id) < |History(h, capacity)|
    ensures MostRecent(h + [r], capacity)
  {
    hide History, LastReport, FindNode, Newer;
    var s, y := History(h, capacity), r.data.id;
    HistoryAppend(h, r, capacity);
    var t := History(h + [r], capacity);
    forall x
      ensures Holds(t, x) <==> Holds(s, x)
    {
      SameNodes(s, capacity, r, x);
    }
    forall x | Reported(h + [r], x)
      ensures Holds(t, x) <==> |Newer(h + [r], x)| < capacity
    {
      LastReportAppend(h, r, x);
      if x == y {
        NewestHasNoNewer(h, r);
        NewestIsHeld(s, capacity, r);
      } else {
        NewerAppend(h, r, x);
        if y != "" && y !in Newer(h, x) {
          HeldIsReported(h, capacity, y);
          OlderHeldLeavesRoom(h, capacity, x, y);
        } else {
          assert Newer(h + [r], x) == Newer(h, x);
        }
      }
    }
  }

  lemma SameNodes(s: seq<Slot>, capacity: nat, r: Report, x: string)
    requires capacity > 0 && (r.data.id == "" || FindNode(s, r.data.id) < |s|)
    ensures Holds(Updated(s, capacity, r.data, r.at), x) <==> Holds(s, x)
    ensures r.data.id != "" ==> r.data.id in Ids(s)
  {
    var t := Updated(s, capacity, r.data, r.at);
    assert |t| == |s| && forall k: nat :: k < |s| ==> t[k].data.id == s[k].data.id;
  }

  lemma OlderHeldLeavesRoom(h: seq<Report>, capacity: nat, x: string, y: string)
    requires capacity > 0 && MostRecent(h, capacity) && Reported(h, x) && x != y
    requires Reported(h, y) && Holds(History(h, capacity), y) && y !in Newer(h, x)
    ensures |Newer(h, x) + {y}| < capacity && |Newer(h, x)| < capacity
  {
    hide History;
    DifferentReports(h, x, y);
    assert x in Newer(h, y);
    NewerNested(h, y, x);
    hide LastReport;
  }

  lemma DifferentReports(h: seq<Report>, x: string, y: string)
    requires x != y && Reported(h, x) && Reported(h, y)
    ensures LastReport(h, x).value != LastReport(h, y).value
  {
  }

  lemma AppendKeepsMostRecent(h: seq<Report>, capacity: nat, r: Report)
    requires capacity > 0 && NonDecreasing(h) && |History(h, capacity)| < capacity
    requires r.data.id != "" && FindNode(History(h, capacity), r.data.id) == |History(h, capacity)|
    ensures MostRecent(h + [r], capacity)
  {
    hide LastReport, History, Newer;
    var s, y := History(h, capacity), r.data.id;
    HistoryAppend(h, r, capacity);
    var t := History(h + [r], capacity);
    assert t == s + [Slot(true, r.at, r.data)];
    HoldsLatest(h + [r], capacity);
    DistinctIds(t);
    forall x | Reported(h + [r], x)
      ensures Holds(t, x)
    {
      LastReportAppend(h, r, x);
      if x == y {
        assert t[|s|].data.id == x;
      } else {
        if !Holds(s, x) {
          ForgetsTheOldest(h, capacity, x);
        }
        var k: nat :| k < |s| && s[k].data.id == x;
        assert t[k].data.id == x;
      }
    }
    forall x | Reported(h + [r], x)
      ensures |Newer(h + [r], x)| < capacity
    {
      assert forall z :: z in Newer(h + [r], x) + {x} ==> Reported(h + [r], z);
      SubsetSize(Newer(h + [r], x) + {x}, Ids(t));
    }
  }

  /** What an eviction leaves. */
  lemma EvictedNodes(s: seq<Slot>, capacity: nat, r: Report, x: string)
    requires capacity > 0 && Distinct(s) && Evicts(s, capacity, r.data.id)
    ensures Holds(Updated(s, capacity, r.data, r.at), x)
            <==> x == r.data.id || (Holds(s, x) && x != s[Oldest(s)].data.id)
  {
    var i := Oldest(s);
    var t := Updated(s, capacity, r.data, r.at);
    assert t == s[i := Slot(true, r.at, r.data)];
    assert t[i].data.id == r.data.id;
    assert forall k: nat :: k < |s| && k != i ==> t[k] == s[k];
    hide FindNode, Updated;
  }

  lemma EvictionKeepsMostRecent(h: seq<Report>, capacity: nat, r: Report)
    requires capacity > 0 && MostRecent(h, capacity) && Evicts(History(h, capacity), capacity, r.data.id)
    requires var s := History(h, capacity);
             LastReport(h, s[Oldest(s)].data.id).Some? && LeastRecent(h, s, Oldest(s))
    ensures MostRecent(h + [r], capacity)
  {
    hide History, LastReport, Newer, FindNode, LeastRecent;
    var s, y := History(h, capacity), r.data.id;
    HistoryAppend(h, r, capacity);
    HoldsLatest(h, capacity);
    forall x | Reported(h + [r], x)
      ensures Holds(History(h + [r], capacity), x) <==> |Newer(h + [r], x)| < capacity
    {
      LastReportAppend(h, r, x);
      EvictedNodes(s, capacity, r, x);
      if x == y {
        NewestHasNoNewer(h, r);
      } else {
        NewerAppend(h, r, x);
        SubsetSize(Newer(h, x), Newer(h, x) + {y});
        if Holds(s, x) {
          HeldThenEvicted(h, capacity, r, x);
        }
      }
    }
  }

  lemma NotHeldIsAbsent(s: seq<Slot>, id: string)
    requires FindNode(s, id) == |s| && forall k: nat :: k < |s| ==> s[k].used
    ensures !Holds(s, id) && id !in Ids(s)
  {
  }

  /** A held node has fewer than capacity newer ones after the eviction exactly when it is not the least recent one. */
  lemma HeldThenEvicted(h: seq<Report>, capacity: nat, r: Report, x: string)
    requires capacity > 0 && MostRecent(h, capacity) && Evicts(History(h, capacity), capacity, r.data.id)
    requires var s := History(h, capacity);
             LastReport(h, s[Oldest(s)].data.id).Some? && LeastRecent(h, s, Oldest(s))
    requires Reported(h, x) && Holds(History(h, capacity), x) && x != r.data.id
    ensures var s := History(h, capacity);
            |Newer(h, x) + {r.data.id}| < capacity <==> x != s[Oldest(s)].data.id
  {
    hide History, LastReport, FindNode;
    var s, y := History(h, capacity), r.data.id;
    var least := s[Oldest(s)].data.id;
    HoldsLatest(h, capacity);
    DistinctIds(s);
    assert forall k: nat :: k < |s| ==> Latest(h, s[k]);
    NotHeldIsAbsent(s, y);
    NewerAreHeld(h, capacity, x);
    assert least in Ids(s) && x in Ids(s);
    if x == least {
      forall z | z in Ids(s) - {x}
        ensures z in Newer(h, x)
      {
        LeastIsOlder(h, s, z);
      }
      assert Newer(h, x) == Ids(s) - {x};
    } else {
      LeastIsOlder(h, s, x);
      assert Newer(h, x) <= Ids(s) - {x, least};
      SubsetSize(Newer(h, x), Ids(s) - {x, least});
    }
    hide Newer;
  }

  lemma LeastIsOlder(h: seq<Report>, s: seq<Slot>, z: string)
    requires s != [] && (forall k: nat :: k < |s| ==> Latest(h, s[k])) && z in Ids(s) && z != s[Oldest(s)].data.id
    requires LastReport(h, s[Oldest(s)].data.id).Some? && LeastRecent(h, s, Oldest(s))
    ensures z in Newer(h, s[Oldest(s)].data.id) && s[Oldest(s)].data.id !in Newer(h, z)
  {
    var k: nat :| k < |s| && s[k].data.id == z;
    assert Latest(h, s[k]) && Latest(h, s[Oldest(s)]);
    DifferentReports(h, z, s[Oldest(s)].data.id);
    hide LastReport;
  }

  /** Conversely, when the store is still right after an eviction, it was the least recent node that went. */
  lemma RightEvictionIsLeastRecent(h: seq<Report>, capacity: nat, r: Report)
    requires capacity > 0 && MostRecent(h, capacity) && MostRecent(h + [r], capacity)
    requires Evicts(History(h, capacity), capacity, r.data.id)
    ensures var s := History(h, capacity);
            LastReport(h, s[Oldest(s)].data.id).Some? && LeastRecent(h, s, Oldest(s))
  {
    hide History, LastReport, FindNode;
    var s, y := History(h, capacity), r.data.id;
    var gone := s[Oldest(s)].data.id;
    HoldsLatest(h, capacity);
    DistinctIds(s);
    assert forall k: nat :: k < |s| ==> Latest(h, s[k]);
    assert Latest(h, s[Oldest(s)]);
    NotHeldIsAbsent(s, y);
    HistoryAppend(h, r, capacity);
    EvictedNodes(s, capacity, r, gone);
    LastReportAppend(h, r, gone);
    NewerAppend(h, r, gone);
    NewerAreHeld(h, capacity, gone);
    assert |Newer(h, gone)| >= capacity - 1;
    assert |Ids(s) - {gone}| == capacity - 1;
    SameSize(Newer(h, gone), Ids(s) - {gone});
    forall k: nat | k < |s| && LastReport(h, s[k].data.id).Some?
      ensures LastReport(h, gone).value <= LastReport(h, s[k].data.id).value
    {
      assert s[k].data.id in Ids(s);
    }
  }

  lemma SameSize<T>(a: set<T>, b: set<T>)
    requires a <= b && |a| >= |b|
    ensures a == b
  {
    assert b == a + (b - a);
  }

  lemma StepHoldsMostRecentIff(h: seq<Report>, capacity: nat, r: Report)
    requires capacity > 0 && NonDecreasing(h) && MostRecent(h, capacity)
    ensures MostRecent(h + [r], capacity) <==> TieInOrder(h, capacity, r)
  {
    hide MostRecent, History, FindNode, LeastRecent, ReportedFirst, LastReport;
    var s := History(h, capacity);
    HoldsLatest(h, capacity);
    if r.data.id == "" || FindNode(s, r.data.id) < |s| {
      OverwriteKeepsMostRecent(h, capacity, r);
    } else if |s| < capacity {
      AppendKeepsMostRecent(h, capacity, r);
    } else {
      EvictsLeastRecentIff(h, capacity, r);
      if TieInOrder(h, capacity, r) {
        EvictionKeepsMostRecent(h, capacity, r);
      }
      if MostRecent(h + [r], capacity) {
        RightEvictionIsLeastRecent(h, capacity, r);
      }
    }
  }

  /**
   * With a clock that does not go back, the store holds exactly the capacity most recently updated nodes at every
   * moment if and only if no eviction ever met equal oldest times in the wrong order.
   */
  lemma {:induction false} AlwaysMostRecentIff(h: seq<Report>, capacity: nat)
    requires capacity > 0 && NonDecreasing(h)
    ensures (forall n: nat :: n <= |h| ==> MostRecent(h[..n], capacity))
            <==> (forall n: nat :: n < |h| ==> TieInOrder(h[..n], capacity, h[n]))
  {
    hide MostRecent, TieInOrder;
    if h == [] {
      NothingReported(capacity);
      assert h[..0] == [];
    } else {
      var init, r := h[..|h| - 1], h[|h| - 1];
      AlwaysMostRecentIff(init, capacity);
      assert forall n: nat :: n <= |init| ==> init[..n] == h[..n];
      assert h[..|h|] == h == init + [r];
      assert init[..|init|] == init == h[..|h| - 1];
      if MostRecent(init, capacity) {
        StepHoldsMostRecentIff(init, capacity, r);
      }
    }
  }

  lemma NothingReported(capacity: nat)
    requires capacity > 0
    ensures MostRecent([], capacity)
  {
  }

  // ---------------------------------------------------------------- a history on which it is wrong

  /** The number of nodes the server keeps. */
  const NODE_STORE_MAX_NODES := 64

  ghost predicate DistinctNodes(nodes: seq<KvMessage>) {
    && (forall i :: 0 <= i < |nodes| ==> nodes[i].id != "")
    && forall i, j :: 0 <= i < j < |nodes| ==> nodes[i].id != nodes[j].id
  }

  /** All the nodes report at the same time, in order. */
  function Roll(nodes: seq<KvMessage>, at: int): (h: seq<Report>)
    ensures |h| == |nodes| && forall i :: 0 <= i < |h| ==> h[i] == Report(nodes[i], at)
  {
    seq(|nodes|, i requires 0 <= i < |nodes| => Report(nodes[i], at))
  }

  function RollSlots(nodes: seq<KvMessage>, at: int): (s: seq<Slot>)
    ensures |s| == |nodes| && forall i :: 0 <= i < |s| ==> s[i] == Slot(true, at, nodes[i])
  {
    seq(|nodes|, i requires 0 <= i < |nodes| => Slot(true, at, nodes[i]))
  }

  lemma {:induction false} RollFills(nodes: seq<KvMessage>, at: int, capacity: nat)
    requires capacity > 0 && |nodes| <= capacity && DistinctNodes(nodes)
    ensures History(Roll(nodes, at), capacity) == RollSlots(nodes, at)
  {
    if nodes != [] {
      var init := nodes[..|nodes| - 1];
      RollFills(init, at, capacity);
      assert Roll(nodes, at)[..|nodes| - 1] == Roll(init, at);
      assert FindNode(RollSlots(init, at), nodes[|nodes| - 1].id) == |init|;
      assert RollSlots(nodes, at) == RollSlots(init, at) + [Slot(true, at, nodes[|nodes| - 1])];
    }
  }

  lemma HistoryAppend(h: seq<Report>, r: Report, capacity: nat)
    requires capacity > 0
    ensures History(h + [r], capacity) == Updated(History(h, capacity), capacity, r.data, r.at)
  {
    assert (h + [r])[..|h|] == h;
  }

  lemma LastReportAppend(h: seq<Report>, r: Report, id: string)
    ensures LastReport(h + [r], id) == if r.data.id == id then Some(|h|) else LastReport(h, id)
  {
    assert (h + [r])[..|h|] == h;
  }

  lemma {:induction false} RollReports(nodes: seq<KvMessage>, at: int, i: nat)
    requires i < |nodes| && DistinctNodes(nodes)
    ensures LastReport(Roll(nodes, at), nodes[i].id) == Some(i)
  {
    var h := Roll(nodes, at);
    var last := LastReport(h, nodes[i].id);
    assert h[i].data.id == nodes[i].id;
  }

  lemma DistinctParts(nodes: seq<KvMessage>, c: KvMessage)
    requires DistinctNodes(nodes + [c])
    ensures DistinctNodes(nodes) && c.id != "" && forall i :: 0 <= i < |nodes| ==> nodes[i].id != c.id
  {
    var all := nodes + [c];
    assert all[|nodes|] == c && forall i :: 0 <= i < |nodes| ==> nodes[i] == all[i];
  }

  /**
   * A full store of at least two nodes that all reported in the same second: the first of them reports once more in
   * that second, and still it is the one a new node replaces, although the second node is older.
   */
  lemma TiesForgetTheWrongNode(nodes: seq<KvMessage>, c: KvMessage, at: int)
    requires |nodes| >= 2 && DistinctNodes(nodes + [c])
    ensures var h := Roll(nodes, at) + [Report(nodes[0], at)];
            && NonDecreasing(h) && !TieInOrder(h, |nodes|, Report(c, at))
            && LastReport(h, nodes[0].id) == Some(|nodes|) && LastReport(h, nodes[1].id) == Some(1)
            && History(h + [Report(c, at)], |nodes|) == RollSlots([c] + nodes[1..], at)
  {
    hide History, LastReport, Updated, FindNode, DistinctNodes;
    DistinctParts(nodes, c);
    var roll, again := Roll(nodes, at), Report(nodes[0], at);
    var h := roll + [again];
    RollFills(nodes, at, |nodes|);
    RollReports(nodes, at, 1);
    RollAgain(nodes, c, at);
    HistoryAppend(roll, again, |nodes|);
    HistoryAppend(h, Report(c, at), |nodes|);
    LastReportAppend(roll, again, nodes[0].id);
    LastReportAppend(roll, again, nodes[1].id);
    assert nodes[0].id != nodes[1].id by { FirstTwo(nodes); }
    var s := RollSlots(nodes, at);
    assert s[1].data == nodes[1] && s[1].lastUpdate == at;
  }

  lemma FirstTwo(nodes: seq<KvMessage>)
    requires |nodes| >= 2 && DistinctNodes(nodes)
    ensures nodes[0].id != nodes[1].id
  {
  }

  lemma RollAgain(nodes: seq<KvMessage>, c: KvMessage, at: int)
    requires |nodes| >= 2 && DistinctNodes(nodes) && c.id != "" && forall i :: 0 <= i < |nodes| ==> nodes[i].id != c.id
    ensures Updated(RollSlots(nodes, at), |nodes|, nodes[0], at) == RollSlots(nodes, at)
    ensures FindNode(RollSlots(nodes, at), c.id) == |nodes| && Oldest(RollSlots(nodes, at)) == 0
    ensures Updated(RollSlots(nodes, at), |nodes|, c, at) == RollSlots([c] + nodes[1..], at)
  {
    var s := RollSlots(nodes, at);
    assert FindNode(s, nodes[0].id) == 0;
    assert FindNode(s, c.id) == |s|;
    assert Oldest(s) == 0;
    assert s[0 := Slot(true, at, c)] == RollSlots([c] + nodes[1..], at);
  }

  /** n nodes with the one-character ids '0', '1', ... */
  function Fleet(n: nat): (nodes: seq<KvMessage>)
    requires n <= 100
    ensures |nodes| == n && DistinctNodes(nodes)
  {
    var nodes := seq(n, i requires 0 <= i < n => KvMessage([('0' as int + i) as char], i, []));
    assert forall i, j :: 0 <= i < j < n ==> nodes[i].id[0] != nodes[j].id[0];
    nodes
  }

  /** The same with the server's own capacity. */
  lemma TiesAtServerCapacity(at: int)
    ensures var nodes := Fleet(NODE_STORE_MAX_NODES);
            var c := Fleet(NODE_STORE_MAX_NODES + 1)[NODE_STORE_MAX_NODES];
            var h := Roll(nodes, at) + [Report(nodes[0], at)];
            && NonDecreasing(h) && !TieInOrder(h, NODE_STORE_MAX_NODES, Report(c, at))
            && !Holds(History(h + [Report(c, at)], NODE_STORE_MAX_NODES), nodes[0].id)
            && LastReport(h, nodes[0].id) == Some(NODE_STORE_MAX_NODES) && LastReport(h, nodes[1].id) == Some(1)
  {
    var nodes := Fleet(NODE_STORE_MAX_NODES);
    var all := Fleet(NODE_STORE_MAX_NODES + 1);
    var c := all[NODE_STORE_MAX_NODES];
    assert nodes + [c] == all;
    hide Fleet, History, TieInOrder, LastReport;
    TiesForgetTheWrongNode(nodes, c, at);
    FirstIsGone(nodes, c, at);
  }

  lemma FirstIsGone(nodes: seq<KvMessage>, c: KvMessage, at: int)
    requires |nodes| >= 2 && DistinctNodes(nodes + [c])
    ensures !Holds(RollSlots([c] + nodes[1..], at), nodes[0].id)
  {
    DistinctParts(nodes, c);
    assert forall k :: 0 < k < |nodes| ==> ([c] + nodes[1..])[k] == nodes[k];
  }
}
