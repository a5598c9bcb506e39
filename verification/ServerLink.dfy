/** Upstream delivery over a connection that breaks, and what the server's line parser sees of it. */
module ServerLink {
  import opened Text
  import opened MessageQueue
  import opened LineParser

  // ---------------------------------------------------------------- one send

  /** What poll and send report for one attempt. */
  datatype Attempt = Wrote(n: nat) | TryAgain | Broken

  /** How many bytes the socket takes before it breaks, takes nothing more or is given up on. */
  function Room(attempts: seq<Attempt>): nat {
    if attempts == [] then 0 else
      match attempts[0]
      case Wrote(n) => if n == 0 then 0 else n + Room(attempts[1..])
      case TryAgain => Room(attempts[1..])
      case Broken => 0
  }

  function Min(a: nat, b: nat): nat {
    if a <= b then a else b
  }

  /**
   * tcp_client_send_all over a socket that answers with the given attempts; running out of attempts
   * stands for the send timeout. written is what reached the connection.
   */
  method SendAll(data: string, attempts: seq<Attempt>) returns (ok: bool, written: string)
    ensures ok <==> Room(attempts) >= |data|
    ensures written == data[..Min(Room(attempts), |data|)]
  {
    var total: nat, i: nat := 0, 0;
    while total < |data|
      invariant total <= |data| && i <= |attempts|
      invariant total < |data| ==> Room(attempts) == total + Room(attempts[i..])
      invariant total == |data| ==> Room(attempts) >= |data|
      decreases |attempts| - i
    {
      if i == |attempts| {
        return false, data[..total];
      }
      assert attempts[i..][1..] == attempts[i + 1..];
      match attempts[i] {
        case Wrote(n) =>
          if n == 0 {
            return false, data[..total];
          }
          total := total + if n <= |data| - total then n else |data| - total;
        case TryAgain =>
        case Broken =>
          return false, data[..total];
      }
      i := i + 1;
    }
    return true, data;
  }

  // ---------------------------------------------------------------- what goes onto connections

  /** A non-empty text, its line feed at the end and nowhere else, no carriage return before it. */
  predicate IsLine(m: string) {
    |m| >= 2 && m[|m| - 1] == '\n' && '\n' !in m[..|m| - 1] && m[|m| - 2] != '\r'
  }

  function Body(m: string): string
    requires IsLine(m)
  {
    m[..|m| - 1]
  }

  type Line = m: string | IsLine(m) witness "x\n"

  /** A completely written line, or the part of one that was written before the write failed. */
  datatype Segment = Whole(line: Line, upstream: bool) | Torn(part: string)

  function SegmentBytes(segment: Segment): string {
    match segment
    case Whole(line, _) => line
    case Torn(part) => part
  }

  function Bytes(segments: seq<Segment>): string {
    if segments == [] then "" else SegmentBytes(segments[0]) + Bytes(segments[1..])
  }

  /** The lines that were written completely, without their line feeds. */
  function Bodies(segments: seq<Segment>): seq<string> {
    if segments == [] then [] else
      (match segments[0] case Whole(line, _) => [Body(line)] case Torn(_) => []) + Bodies(segments[1..])
  }

  /** The queue messages among them. */
  function Upstream(segments: seq<Segment>): seq<string> {
    if segments == [] then [] else
      (match segments[0] case Whole(line, upstream) => (if upstream then [line] else []) case Torn(_) => [])
      + Upstream(segments[1..])
  }

  // ---------------------------------------------------------------- the link thread

  datatype Link = Link(
    queue: Queue, accepted: seq<Message>, pending: Option<Message>, connected: bool,
    current: seq<Segment>, past: seq<seq<Segment>>, sent: seq<string>)

  datatype Step =
    | Push(m: Message)                        // a worker's successful push
    | Pop                                     // try_pop, only while nothing is pending
    | Connect
    | Send(attempts: nat)                     // pending message: how much of it the connection takes
    | RouteNack(line: Line, attempts: nat)    // a routing refusal written by the same thread
    | Lose                                    // poll, recv or peer ended the connection
    | Shutdown

  ghost predicate Enabled(s: Link, step: Step) {
    match step
    case Push(m) => IsLine(m)
    case Pop => s.pending.None?
    case Connect => !s.connected
    case Send(_) => s.connected && s.pending.Some?
    case RouteNack(_, _) => s.connected
    case Lose => s.connected
    case Shutdown => true
  }

  /** server_link_disconnect: the pending message is kept. */
  function Drop(s: Link): Link {
    s.(connected := false, past := s.past + [s.current], current := [])
  }

  function Next(s: Link, step: Step): Link {
    match step
    case Push(m) =>
      var (queue, turn) := PushTurn(s.queue, m);
      if turn.Finished? then s.(queue := queue, accepted := s.accepted + [m]) else s
    case Pop =>
      var (queue, turn) := PopTurn(s.queue);
      if turn.Finished? then s.(queue := queue, pending := Some(turn.item)) else s
    case Connect => s.(connected := true, current := [])
    case Send(n) =>
      if s.pending.None? then s else
        var m := s.pending.value;
        if n < |m| then Drop(s.(current := s.current + [Torn(m[..n])]))
        else if IsLine(m) then
          s.(current := s.current + [Whole(m, true)], sent := s.sent + [m], pending := None)
        else s
    case RouteNack(line, n) =>
      if n < |line| then s.(current := s.current + [Torn(line[..n])])
      else s.(current := s.current + [Whole(line, false)])
    case Lose => Drop(s)
    case Shutdown => s.(queue := s.queue.(shuttingDown := true))
  }

  const IDLE := Link(Queue([], false), [], None, false, [], [], [])

  ghost predicate Reaches(s: Link, steps: seq<Step>, s': Link)
    decreases |steps|
  {
    if steps == [] then s' == s
    else Enabled(s, steps[0]) && Reaches(Next(s, steps[0]), steps[1..], s')
  }

  function Waiting(s: Link): seq<Message> {
    (if s.pending.Some? then [s.pending.value] else []) + s.queue.items
  }

  function UpstreamAll(connections: seq<seq<Segment>>): seq<string> {
    if connections == [] then [] else UpstreamAll(connections[..|connections| - 1]) + Upstream(connections[|connections| - 1])
  }

  ghost predicate Inv(s: Link) {
    && s.accepted == s.sent + Waiting(s)
    && s.sent == UpstreamAll(s.past) + Upstream(s.current)
    && (!s.connected ==> s.current == [])
    && (forall i :: 0 <= i < |s.accepted| ==> IsLine(s.accepted[i]))
  }

  lemma {:induction false} UpstreamAppend(segments: seq<Segment>, last: Segment)
    ensures Upstream(segments + [last]) == Upstream(segments) + Upstream([last])
    decreases |segments|
  {
    if segments != [] {
      assert (segments + [last])[1..] == segments[1..] + [last];
      UpstreamAppend(segments[1..], last);
    } else {
      assert segments + [last] == [last];
    }
  }

  lemma DropKeeps(s: Link)
    requires Inv(s)
    ensures Inv(Drop(s))
  {
    assert (s.past + [s.current])[..|s.past|] == s.past;
    assert Upstream([]) == [];
  }

  lemma SendKeeps(s: Link, n: nat)
    requires Inv(s) && Enabled(s, Send(n))
    ensures Inv(Next(s, Send(n)))
  {
    hide UpstreamAll, Upstream;
    var m := s.pending.value;
    assert s.accepted[|s.sent|] == m;
    if n < |m| {
      UpstreamAppend(s.current, Torn(m[..n]));
      TornIsNothing(m[..n]);
      DropKeeps(s.(current := s.current + [Torn(m[..n])]));
    } else {
      UpstreamAppend(s.current, Whole(m, true));
      WholeIsItself(m);
      assert s.sent + ([m] + s.queue.items) == (s.sent + [m]) + ([] + s.queue.items);
    }
  }

  lemma TornIsNothing(part: string)
    ensures Upstream([Torn(part)]) == []
  {
    assert [Torn(part)][1..] == [];
  }

  lemma WholeIsItself(m: Line)
    ensures Upstream([Whole(m, true)]) == [m] && Upstream([Whole(m, false)]) == []
  {
    assert [Whole(m, true)][1..] == [] && [Whole(m, false)][1..] == [];
  }

  lemma PushKeeps(s: Link, m: Message)
    requires Inv(s) && Enabled(s, Push(m))
    ensures Inv(Next(s, Push(m)))
  {
    hide UpstreamAll, Upstream, IsLine;
    assert s.sent + Waiting(s) + [m] == s.sent + (Waiting(s) + [m]);
  }

  lemma PopKeeps(s: Link)
    requires Inv(s) && Enabled(s, Pop)
    ensures Inv(Next(s, Pop))
  {
    hide UpstreamAll, Upstream, IsLine;
    if PopTurn(s.queue).1.Finished? {
      assert s.queue.items == [s.queue.items[0]] + s.queue.items[1..];
    }
  }

  lemma StepKeeps(s: Link, step: Step)
    requires Inv(s) && Enabled(s, step)
    ensures Inv(Next(s, step))
  {
    hide UpstreamAll, IsLine;
    match step {
      case Push(m) => PushKeeps(s, m);
      case Pop => PopKeeps(s);
      case Send(n) => SendKeeps(s, n);
      case RouteNack(line, n) =>
        if n < |line| { TornIsNothing(line[..n]); } else { WholeIsItself(line); }
        UpstreamAppend(s.current, if n < |line| then Torn(line[..n]) else Whole(line, false));
      case Lose => DropKeeps(s);
      case Connect =>
      case Shutdown =>
    }
  }

  lemma {:induction false} RunsKeepInv(s: Link, steps: seq<Step>, s': Link)
    requires Inv(s) && Reaches(s, steps, s')
    ensures Inv(s')
    decreases |steps|
  {
    if steps != [] {
      StepKeeps(s, steps[0]);
      RunsKeepInv(Next(s, steps[0]), steps[1..], s');
    }
  }

  /**
   * Over any pushes, partial sends, failures and reconnects: every accepted message is fully sent, pending
   * or queued, in acceptance order; and what was fully sent was written whole exactly once, in that order.
   */
  lemma DeliveredInOrder(steps: seq<Step>, s: Link)
    requires Reaches(IDLE, steps, s)
    ensures s.accepted == s.sent + Waiting(s)
    ensures s.sent == UpstreamAll(s.past) + Upstream(s.current)
  {
    RunsKeepInv(IDLE, steps, s);
  }

  lemma {:induction false} BytesAppend(segments: seq<Segment>, last: Segment)
    ensures Bytes(segments + [last]) == Bytes(segments) + SegmentBytes(last)
    decreases |segments|
  {
    if segments != [] {
      assert (segments + [last])[1..] == segments[1..] + [last];
      BytesAppend(segments[1..], last);
    } else {
      assert segments + [last] == [last];
    }
  }

  /** The send step of the link is what the send loop does: the same bytes go out, and only success ends the pending state. */
  lemma SendIsSendAll(s: Link, attempts: seq<Attempt>)
    requires Inv(s) && Enabled(s, Send(Room(attempts)))
    ensures var m := s.pending.value;
            var s' := Next(s, Send(Room(attempts)));
            var sent := m[..Min(Room(attempts), |m|)];
            if Room(attempts) >= |m| then
              && s'.pending.None? && s'.sent == s.sent + [m] && s'.connected
              && s'.past == s.past && Bytes(s'.current) == Bytes(s.current) + sent
            else
              && s'.pending == s.pending && s'.sent == s.sent && !s'.connected && s'.current == []
              && |s'.past| == |s.past| + 1 && Bytes(s'.past[|s.past|]) == Bytes(s.current) + sent
  {
    hide Bytes, IsLine, Upstream, UpstreamAll;
    var m := s.pending.value;
    assert s.accepted[|s.sent|] == m;
    if Room(attempts) >= |m| {
      BytesAppend(s.current, Whole(m, true));
    } else {
      BytesAppend(s.current, Torn(m[..Room(attempts)]));
    }
  }

  // ---------------------------------------------------------------- what the server parses

  /** The lines the parser forms when carry has been received before the segments. */
  function Formed(carry: string, segments: seq<Segment>): seq<string>
    decreases segments
  {
    if segments == [] then [] else
      match segments[0]
      case Whole(line, _) => [carry + Body(line)] + Formed("", segments[1..])
      case Torn(part) => Formed(carry + part, segments[1..])
  }

  /** Torn parts contain no line feed. */
  ghost predicate Sane(segments: seq<Segment>) {
    forall i :: 0 <= i < |segments| && segments[i].Torn? ==> '\n' !in segments[i].part
  }

  lemma LineFormed(carry: string, line: Line, rest: string)
    requires '\n' !in carry
    ensures Lines(carry + line + rest) == [Strip(carry + Body(line))] + Lines(rest)
  {
    var s := carry + line + rest;
    var k := |carry| + |line| - 1;
    assert s[..k] == carry + Body(line) && s[k + 1..] == rest;
    FindUnique(s, '\n', k);
  }

  function Stripped(lines: seq<string>): seq<string> {
    if lines == [] then [] else [Strip(lines[0])] + Stripped(lines[1..])
  }

  lemma SaneRest(segments: seq<Segment>)
    requires Sane(segments) && segments != []
    ensures Sane(segments[1..])
  {
    assert forall i :: 0 <= i < |segments[1..]| ==> segments[1..][i] == segments[i + 1];
  }

  lemma WholeForms(carry: string, line: Line, upstream: bool, rest: seq<Segment>)
    requires '\n' !in carry
    ensures Lines(carry + Bytes([Whole(line, upstream)] + rest)) == [Strip(carry + Body(line))] + Lines(Bytes(rest))
    ensures Stripped(Formed(carry, [Whole(line, upstream)] + rest)) == [Strip(carry + Body(line))] + Stripped(Formed("", rest))
  {
    hide Lines, Strip;
    var segments := [Whole(line, upstream)] + rest;
    assert segments[1..] == rest;
    assert carry + Bytes(segments) == carry + line + Bytes(rest);
    LineFormed(carry, line, Bytes(rest));
    assert Formed(carry, segments) == [carry + Body(line)] + Formed("", rest);
    assert Formed(carry, segments)[1..] == Formed("", rest);
  }

  lemma TornForms(carry: string, part: string, rest: seq<Segment>)
    ensures carry + Bytes([Torn(part)] + rest) == (carry + part) + Bytes(rest)
    ensures Formed(carry, [Torn(part)] + rest) == Formed(carry + part, rest)
  {
    var segments := [Torn(part)] + rest;
    assert segments[1..] == rest;
  }

  lemma {:induction false} SegmentsForm(carry: string, segments: seq<Segment>)
    requires '\n' !in carry && Sane(segments)
    ensures Lines(carry + Bytes(segments)) == Stripped(Formed(carry, segments))
    decreases |segments|
  {
    hide Lines, Strip, Formed, Bytes;
    if segments == [] {
      EmptyForms(carry);
    } else {
      var rest := segments[1..];
      assert segments == [segments[0]] + rest;
      SaneRest(segments);
      match segments[0] {
        case Whole(line, upstream) =>
          WholeForms(carry, line, upstream, rest);
          assert "" + Bytes(rest) == Bytes(rest);
          SegmentsForm("", rest);
        case Torn(part) =>
          TornForms(carry, part, rest);
          SegmentsForm(carry + part, rest);
      }
    }
  }

  lemma EmptyForms(carry: string)
    requires '\n' !in carry
    ensures Lines(carry + Bytes([])) == Stripped(Formed(carry, []))
  {
    assert carry + "" == carry;
    NoFeed(carry);
  }

  /** A torn part is only harmless when nothing complete follows it on the same connection, or when it is empty. */
  ghost predicate TornLast(segments: seq<Segment>) {
    forall i, j :: 0 <= i < j < |segments| && segments[i].Torn? && segments[j].Whole? ==> segments[i].part == ""
  }

  /** Whether a carried part will meet a complete line. */
  ghost predicate NoWhole(segments: seq<Segment>) {
    forall i :: 0 <= i < |segments| ==> segments[i].Torn?
  }

  lemma {:induction false} FormedIff(carry: string, segments: seq<Segment>)
    ensures Formed(carry, segments) == Bodies(segments) <==> TornLast(segments) && (carry == "" || NoWhole(segments))
    decreases |segments|
  {
    if segments != [] {
      var rest := segments[1..];
      assert forall i :: 0 <= i < |rest| ==> rest[i] == segments[i + 1];
      assert TornLast(segments) <==>
             TornLast(rest) && (segments[0].Torn? ==> segments[0].part == "" || NoWhole(rest)) by {
        TornLastStep(segments);
      }
      match segments[0] {
        case Whole(line, _) =>
          FormedIff("", rest);
          assert Formed(carry, segments)[0] == carry + Body(line) && Bodies(segments)[0] == Body(line);
          assert Formed(carry, segments)[1..] == Formed("", rest) && Bodies(segments)[1..] == Bodies(rest);
          if carry != "" {
            assert |carry + Body(line)| != |Body(line)|;
          } else {
            assert carry + Body(line) == Body(line);
          }
        case Torn(part) =>
          FormedIff(carry + part, rest);
          assert [] + Bodies(rest) == Bodies(rest);
          assert NoWhole(segments) <==> NoWhole(rest) by {
            assert segments == [segments[0]] + rest;
          }
      }
    }
  }

  lemma TornLastStep(segments: seq<Segment>)
    requires segments != []
    ensures TornLast(segments) <==>
              && TornLast(segments[1..])
              && (segments[0].Torn? ==> segments[0].part == "" || NoWhole(segments[1..]))
  {
    var rest := segments[1..];
    assert forall i :: 0 <= i < |rest| ==> rest[i] == segments[i + 1];
    if TornLast(rest) && (segments[0].Torn? ==> segments[0].part == "" || NoWhole(rest)) {
      forall i, j | 0 <= i < j < |segments| && segments[i].Torn? && segments[j].Whole?
        ensures segments[i].part == ""
      {
        assert rest[j - 1].Whole?;
        if i > 0 {
          assert rest[i - 1].Torn?;
        }
      }
    }
    if TornLast(segments) && segments[0].Torn? && segments[0].part != "" {
      forall i | 0 <= i < |rest| ensures rest[i].Torn? {
        assert segments[i + 1] == rest[i];
      }
    }
  }

  lemma {:induction false} FormedAreStripped(carry: string, segments: seq<Segment>)
    ensures Stripped(Formed(carry, segments)) == Formed(carry, segments)
    decreases |segments|
  {
    if segments != [] {
      match segments[0] {
        case Whole(line, _) =>
          FormedAreStripped("", segments[1..]);
          var first := carry + Body(line);
          assert Strip(first) == first;
          assert ([first] + Formed("", segments[1..]))[1..] == Formed("", segments[1..]);
        case Torn(part) =>
          FormedAreStripped(carry + part, segments[1..]);
      }
    }
  }

  /**
   * The server parses exactly the lines that were written completely if and only if no part of a torn line
   * stands in front of a complete one on the same connection.
   */
  lemma ServerParsesWholeLinesIff(segments: seq<Segment>)
    requires Sane(segments)
    ensures Lines(Bytes(segments)) == Bodies(segments) <==> TornLast(segments)
  {
    assert "" + Bytes(segments) == Bytes(segments);
    SegmentsForm("", segments);
    FormedAreStripped("", segments);
    FormedIff("", segments);
  }

  /** A connection that delivers only the first n bytes delivers only the first lines. */
  lemma {:induction false} PrefixDelivers(stream: string, n: nat)
    requires n <= |stream|
    ensures Lines(stream[..n]) <= Lines(stream)
  {
    assert stream == stream[..n] + stream[n..];
    LinesResume(stream[..n], stream[n..]);
  }

  // ---------------------------------------------------------------- where torn lines come from

  /** Segments in which a torn line ends the connection. */
  ghost predicate TornEnds(segments: seq<Segment>) {
    forall i :: 0 <= i < |segments| - 1 ==> segments[i].Whole?
  }

  /** Runs in which every routing refusal is written completely. */
  ghost predicate NacksComplete(steps: seq<Step>) {
    forall i :: 0 <= i < |steps| && steps[i].RouteNack? ==> steps[i].attempts >= |steps[i].line|
  }

  ghost predicate SmallTorn(segments: seq<Segment>) {
    forall i :: 0 <= i < |segments| && segments[i].Torn? ==> |segments[i].part| <= GATEWAY_MESSAGE_MAX_SIZE
  }

  ghost predicate Tidy(s: Link) {
    && (forall i :: 0 <= i < |s.current| ==> s.current[i].Whole?)
    && (forall c :: 0 <= c < |s.past| ==> TornEnds(s.past[c]) && Sane(s.past[c]) && SmallTorn(s.past[c]))
  }

  lemma StepKeepsTidy(s: Link, step: Step)
    requires Inv(s) && Tidy(s) && Enabled(s, step)
    requires step.RouteNack? ==> step.attempts >= |step.line|
    ensures Tidy(Next(s, step))
  {
    if step.Send? && s.pending.Some? && step.attempts < |s.pending.value| {
      var m := s.pending.value;
      assert s.accepted[|s.sent|] == m;
      var part := m[..step.attempts];
      assert '\n' !in part by {
        assert forall i :: 0 <= i < |part| ==> part[i] == m[..|m| - 1][i];
      }
      assert TornEnds(s.current + [Torn(part)]) && Sane(s.current + [Torn(part)]);
      assert SmallTorn(s.current + [Torn(part)]);
    }
  }

  lemma {:induction false} RunsKeepTidy(s: Link, steps: seq<Step>, s': Link)
    requires Inv(s) && Tidy(s) && Reaches(s, steps, s') && NacksComplete(steps)
    ensures Inv(s') && Tidy(s')
    decreases |steps|
  {
    if steps != [] {
      assert NacksComplete(steps[1..]) by {
        assert forall i :: 0 <= i < |steps[1..]| ==> steps[1..][i] == steps[i + 1];
      }
      StepKeeps(s, steps[0]);
      StepKeepsTidy(s, steps[0]);
      RunsKeepTidy(Next(s, steps[0]), steps[1..], s');
    }
  }

  /** Every connection of a run, the open one last. */
  function Connections(s: Link): (connections: seq<seq<Segment>>)
    ensures |connections| == |s.past| + 1
  {
    s.past + [s.current]
  }

  lemma TidyConnection(s: Link, c: nat)
    requires Tidy(s) && c < |Connections(s)|
    ensures TornEnds(Connections(s)[c]) && Sane(Connections(s)[c]) && SmallTorn(Connections(s)[c])
    ensures TornLast(Connections(s)[c])
  {
  }

  ghost predicate AllSane(s: Link) {
    forall c: nat :: c < |Connections(s)| ==> Sane(Connections(s)[c])
  }

  lemma SaneAppend(segments: seq<Segment>, line: string, n: nat)
    requires Sane(segments) && IsLine(line) && n < |line|
    ensures Sane(segments + [Torn(line[..n])])
  {
    var part := line[..n];
    assert forall i :: 0 <= i < |part| ==> part[i] == line[..|line| - 1][i];
  }

  lemma StepKeepsSane(s: Link, step: Step)
    requires Inv(s) && AllSane(s) && Enabled(s, step)
    ensures AllSane(Next(s, step))
  {
    var s' := Next(s, step);
    assert Sane(Connections(s)[|s.past|]) && Connections(s)[|s.past|] == s.current;
    assert forall c: nat :: c < |s.past| ==> Connections(s)[c] == s.past[c];
    if step.Send? && s.pending.Some? {
      assert s.accepted[|s.sent|] == s.pending.value;
      if step.attempts < |s.pending.value| {
        SaneAppend(s.current, s.pending.value, step.attempts);
      }
    } else if step.RouteNack? && step.attempts < |step.line| {
      SaneAppend(s.current, step.line, step.attempts);
    }
    hide IsLine, Upstream, UpstreamAll;
  }

  lemma {:induction false} RunsAreSane(s: Link, steps: seq<Step>, s': Link)
    requires Inv(s) && AllSane(s) && Reaches(s, steps, s')
    ensures Inv(s') && AllSane(s')
    decreases |steps|
  {
    hide Inv, AllSane, Next, Enabled;
    if steps != [] {
      StepKeeps(s, steps[0]);
      StepKeepsSane(s, steps[0]);
      RunsAreSane(Next(s, steps[0]), steps[1..], s');
    }
  }

  /**
   * Over every run, torn routing refusals included: the server parses exactly the lines that were written completely
   * on a connection if and only if no part of a torn line stands in front of a complete one there.
   */
  lemma RunParsesWholeLinesIff(steps: seq<Step>, s: Link, c: nat)
    requires Reaches(IDLE, steps, s) && c < |Connections(s)|
    ensures Lines(Bytes(Connections(s)[c])) == Bodies(Connections(s)[c]) <==> TornLast(Connections(s)[c])
  {
    hide Lines, Bytes, Bodies, TornLast, Reaches;
    assert AllSane(IDLE);
    RunsAreSane(IDLE, steps, s);
    ServerParsesWholeLinesIff(Connections(s)[c]);
  }

  /**
   * When all routing refusals are written completely, every connection, cut off after any number of bytes,
   * gives the server a prefix of the lines written whole on it: nothing torn, nothing twice, nothing reordered.
   */
  lemma NothingTornArrives(steps: seq<Step>, s: Link, c: nat, n: nat)
    requires Reaches(IDLE, steps, s) && NacksComplete(steps)
    requires c < |Connections(s)| && n <= |Bytes(Connections(s)[c])|
    ensures Lines(Bytes(Connections(s)[c])) == Bodies(Connections(s)[c])
    ensures Lines(Bytes(Connections(s)[c])[..n]) <= Bodies(Connections(s)[c])
  {
    hide Lines, Bytes, Bodies, Reaches;
    RunsKeepTidy(IDLE, steps, s);
    TidyConnection(s, c);
    ServerParsesWholeLinesIff(Connections(s)[c]);
    PrefixDelivers(Bytes(Connections(s)[c]), n);
  }

  // ---------------------------------------------------------------- at most once, over all connections

  /** The segments that lie within the first n bytes. */
  function Complete(segments: seq<Segment>, n: nat): (done: seq<Segment>)
    ensures done <= segments
  {
    if segments == [] || |SegmentBytes(segments[0])| > n then [] else
      [segments[0]] + Complete(segments[1..], n - |SegmentBytes(segments[0])|)
  }

  lemma {:induction false} CutLines(segments: seq<Segment>, n: nat)
    requires TornEnds(segments) && Sane(segments) && n <= |Bytes(segments)|
    ensures Lines(Bytes(segments)[..n]) == Bodies(Complete(segments, n))
    decreases |segments|
  {
    var s := Bytes(segments);
    if segments == [] {
    } else if segments[0].Torn? {
      assert segments[1..] == [] && s == segments[0].part;
      NoFeed(s[..n]);
      assert Complete(segments, n) == [] || Complete(segments, n) == segments;
    } else {
      CutWhole(segments, n);
    }
  }

  lemma {:induction false} CutWhole(segments: seq<Segment>, n: nat)
    requires segments != [] && segments[0].Whole?
    requires TornEnds(segments) && Sane(segments) && n <= |Bytes(segments)|
    ensures Lines(Bytes(segments)[..n]) == Bodies(Complete(segments, n))
    decreases |segments|, 0
  {
    hide Bytes, Lines, Complete, Bodies, IsLine, TornEnds, Sane, Strip;
    var line, rest := segments[0].line, segments[1..];
    CutBytes(segments, n);
    if n < |line| {
      PartHasNoFeed(line, n);
      NoFeed(line[..n]);
    } else {
      SaneRest(segments);
      TornEndsRest(segments);
      CutLines(rest, n - |line|);
      var tail := Bytes(rest)[..n - |line|];
      LineFormed("", line, tail);
      assert "" + line + tail == line + tail && "" + Body(line) == Body(line);
      BodyIsStripped(line);
    }
  }

  lemma PartHasNoFeed(line: Line, n: nat)
    requires n < |line|
    ensures '\n' !in line[..n]
  {
    assert forall i :: 0 <= i < n ==> line[..n][i] == line[..|line| - 1][i];
  }

  lemma TornEndsRest(segments: seq<Segment>)
    requires segments != [] && TornEnds(segments)
    ensures TornEnds(segments[1..])
  {
    assert forall i :: 0 <= i < |segments[1..]| ==> segments[1..][i] == segments[i + 1];
  }

  lemma BodyIsStripped(line: Line)
    ensures Strip(Body(line)) == Body(line)
  {
  }

  lemma CutBytes(segments: seq<Segment>, n: nat)
    requires segments != [] && segments[0].Whole? && n <= |Bytes(segments)|
    ensures var line, rest := segments[0].line, segments[1..];
            && (n < |line| ==> Bytes(segments)[..n] == line[..n] && Bodies(Complete(segments, n)) == [])
            && (n >= |line| ==>
                  && n - |line| <= |Bytes(rest)|
                  && Bytes(segments)[..n] == line + Bytes(rest)[..n - |line|]
                  && Bodies(Complete(segments, n)) == [Body(line)] + Bodies(Complete(rest, n - |line|)))
  {
    var line, rest := segments[0].line, segments[1..];
    assert Bytes(segments) == line + Bytes(rest);
    if n >= |line| {
      var done := Complete(segments, n);
      assert done == [segments[0]] + Complete(rest, n - |line|);
      assert done[1..] == Complete(rest, n - |line|);
    }
  }

  /** The queue messages that arrive when connection c delivers its first cuts[c] bytes. */
  function Arrived(connections: seq<seq<Segment>>, cuts: seq<nat>): seq<string>
    requires |cuts| == |connections|
  {
    if connections == [] then [] else
      Arrived(connections[..|connections| - 1], cuts[..|connections| - 1])
      + Upstream(Complete(connections[|connections| - 1], cuts[|connections| - 1]))
  }

  /** a consists of the elements of b at the given positions, which increase. */
  ghost predicate PickedInOrder(a: seq<string>, b: seq<string>, positions: seq<nat>) {
    && |positions| == |a|
    && (forall i :: 0 <= i < |a| ==> positions[i] < |b| && b[positions[i]] == a[i])
    && forall i, j :: 0 <= i < j < |a| ==> positions[i] < positions[j]
  }

  lemma {:induction false} UpstreamOfPrefix(segments: seq<Segment>, done: seq<Segment>)
    requires done <= segments
    ensures Upstream(done) <= Upstream(segments)
    decreases |segments|
  {
    if done != [] {
      assert done[1..] <= segments[1..];
      UpstreamOfPrefix(segments[1..], done[1..]);
    }
  }

  lemma PickMore(a: seq<string>, b: seq<string>, positions: seq<nat>, more: seq<string>, all: seq<string>) returns (extended: seq<nat>)
    requires PickedInOrder(a, b, positions) && more <= all
    ensures PickedInOrder(a + more, b + all, extended)
  {
    extended := positions + seq(|more|, i requires 0 <= i < |more| => |b| + i);
  }

  lemma {:induction false} ArrivedInOrder(connections: seq<seq<Segment>>, cuts: seq<nat>) returns (positions: seq<nat>)
    requires |cuts| == |connections|
    ensures PickedInOrder(Arrived(connections, cuts), UpstreamAll(connections), positions)
  {
    if connections == [] {
      positions := [];
    } else {
      var n := |connections| - 1;
      positions := ArrivedInOrder(connections[..n], cuts[..n]);
      UpstreamOfPrefix(connections[n], Complete(connections[n], cuts[n]));
      positions := PickMore(Arrived(connections[..n], cuts[..n]), UpstreamAll(connections[..n]), positions,
        Upstream(Complete(connections[n], cuts[n])), Upstream(connections[n]));
    }
  }

  /**
   * Over any run in which routing refusals are written completely, whatever prefix of each connection's bytes arrives:
   * what the server parses on a connection are the bodies of its first lines, and the queue messages among all of
   * them are accepted messages in acceptance order, none of them twice.
   */
  lemma AtMostOnceInOrder(steps: seq<Step>, s: Link, cuts: seq<nat>) returns (positions: seq<nat>)
    requires Reaches(IDLE, steps, s) && NacksComplete(steps)
    requires |cuts| == |Connections(s)|
    requires forall c: nat :: c < |cuts| ==> cuts[c] <= |Bytes(Connections(s)[c])|
    ensures forall c: nat :: c < |cuts| ==>
              Lines(Bytes(Connections(s)[c])[..cuts[c]]) == Bodies(Complete(Connections(s)[c], cuts[c]))
    ensures PickedInOrder(Arrived(Connections(s), cuts), s.accepted, positions)
  {
    hide Lines, Bytes, Bodies, Reaches, Complete;
    RunsKeepTidy(IDLE, steps, s);
    forall c: nat | c < |cuts|
      ensures Lines(Bytes(Connections(s)[c])[..cuts[c]]) == Bodies(Complete(Connections(s)[c], cuts[c]))
    {
      TidyConnection(s, c);
      CutLines(Connections(s)[c], cuts[c]);
    }
    positions := ArrivedInOrder(Connections(s), cuts);
    assert Connections(s)[..|s.past|] == s.past;
    assert UpstreamAll(Connections(s)) == s.sent;
    assert s.sent <= s.accepted;
  }

  /** A whole or torn line of at most limit bytes in front keeps lines short. */
  lemma {:induction false} BytesAreShort(segments: seq<Segment>, limit: nat)
    requires TornEnds(segments) && Sane(segments)
    requires forall i :: 0 <= i < |segments| ==>
               match segments[i] case Whole(line, _) => |line| <= limit case Torn(part) => |part| <= limit
    ensures ShortLines(Bytes(segments), limit)
    decreases |segments|
  {
    hide ShortLines, IsLine;
    if segments == [] || segments[0].Torn? {
      assert segments != [] ==> segments[1..] == [] && Bytes(segments) == segments[0].part;
      FeedlessIsShort(Bytes(segments), limit);
    } else {
      var line, rest := segments[0].line, segments[1..];
      SaneRest(segments);
      TornEndsRest(segments);
      assert forall i :: 0 <= i < |rest| ==> rest[i] == segments[i + 1];
      BytesAreShort(rest, limit);
      assert Bytes(segments) == line + Bytes(rest);
      LineIsShort(line, Bytes(rest), limit);
    }
  }

  lemma FeedlessIsShort(s: string, limit: nat)
    requires '\n' !in s && |s| <= limit
    ensures ShortLines(s, limit)
  {
    NoFeed(s);
  }

  lemma LineIsShort(line: Line, rest: string, limit: nat)
    requires |line| <= limit && ShortLines(rest, limit)
    ensures ShortLines(line + rest, limit)
  {
    var s := line + rest;
    assert s[..|line| - 1] == Body(line) && s[|line|..] == rest;
    FindUnique(s, '\n', |line| - 1);
  }

  lemma {:induction false} PrefixIsShort(s: string, n: nat, limit: nat)
    requires n <= |s| && ShortLines(s, limit)
    ensures ShortLines(s[..n], limit)
    decreases |s|
  {
    var k := Find(s, '\n');
    if k < n {
      assert s[..n][..k] == s[..k] && s[..n][k + 1..] == s[k + 1..][..n - k - 1];
      FindUnique(s[..n], '\n', k);
      PrefixIsShort(s[k + 1..], n - k - 1, limit);
    } else {
      assert forall i :: 0 <= i < n ==> s[i] == s[..k][i];
      NoFeed(s[..n]);
    }
  }

  /**
   * The server's own buffer of 4096 bytes, filled by reads of at most 256, never overflows on a connection whose
   * whole lines are at most 256 bytes long, however the bytes that arrive are cut into reads.
   */
  lemma ServerBufferSuffices(steps: seq<Step>, s: Link, c: nat, n: nat, chunks: seq<string>)
    requires Reaches(IDLE, steps, s) && NacksComplete(steps)
    requires c < |Connections(s)| && n <= |Bytes(Connections(s)[c])| && Joined(chunks) == Bytes(Connections(s)[c])[..n]
    requires forall i :: 0 <= i < |chunks| ==> |chunks[i]| <= 256
    requires forall i :: 0 <= i < |Connections(s)[c]| && Connections(s)[c][i].Whole? ==> |Connections(s)[c][i].line| <= 256
    ensures ReceiveAll(4096, "", chunks).1 == Lines(Bytes(Connections(s)[c])[..n])
  {
    hide Lines, Bytes, Remainder, ReceiveAll, Reaches, NacksComplete;
    RunsKeepTidy(IDLE, steps, s);
    TidyConnection(s, c);
    BytesAreShort(Connections(s)[c], 3840);
    PrefixIsShort(Bytes(Connections(s)[c]), n, 3840);
    assert "" + Joined(chunks) == Joined(chunks);
    ShortLinesArrive(4096, 256, "", chunks);
  }

  // ---------------------------------------------------------------- everything accepted can be sent

  lemma {:induction false} ReachesConcat(s: Link, a: seq<Step>, t: Link, b: seq<Step>, u: Link)
    requires Reaches(s, a, t) && Reaches(t, b, u)
    ensures Reaches(s, a + b, u)
    decreases |a|
  {
    if a == [] {
      assert a + b == b;
    } else {
      assert (a + b)[0] == a[0] && (a + b)[1..] == a[1..] + b;
      ReachesConcat(Next(s, a[0]), a[1..], t, b, u);
    }
  }

  lemma OneStep(s: Link, step: Step)
    requires Enabled(s, step)
    ensures Reaches(s, [step], Next(s, step))
  {
    assert [step][1..] == [];
    assert Reaches(Next(s, step), [], Next(s, step));
  }

  /** A push is accepted if and only if the queue is open and holds fewer than 32 messages. */
  lemma PushAcceptedIff(s: Link, m: Message)
    requires Inv(s) && IsLine(m)
    ensures Next(s, Push(m)).accepted
            == if !s.queue.shuttingDown && |s.queue.items| < 32 then s.accepted + [m] else s.accepted
    requires |s.queue.items| <= 32
  {
    hide IsLine, Upstream, UpstreamAll;
  }

  lemma SendPending(s: Link) returns (steps: seq<Step>, s': Link)
    requires Inv(s) && s.connected && s.pending.Some?
    ensures Reaches(s, steps, s') && Inv(s') && s'.connected && s'.accepted == s.accepted
    ensures s'.queue == s.queue && s'.pending == None && s'.sent == s.sent + [s.pending.value]
  {
    hide Inv, Reaches;
    var step := Send(|s.pending.value|);
    steps, s' := [step], Next(s, step);
    OneStep(s, step);
    RunsKeepInv(s, steps, s');
    PendingIsLine(s);
  }

  lemma PendingIsLine(s: Link)
    requires Inv(s) && s.pending.Some?
    ensures IsLine(s.pending.value)
  {
    assert s.accepted[|s.sent|] == s.pending.value;
  }

  /**
   * From every state a run can reach, connected or not, the link can send everything that was accepted: in order, after
   * the messages sent so far, with nothing left pending or queued, shutdown or not.
   */
  lemma {:induction false} EverythingGoesOut(s: Link) returns (steps: seq<Step>, s': Link)
    requires Inv(s)
    ensures Reaches(s, steps, s') && Inv(s') && s'.connected && s'.accepted == s.accepted
    ensures s'.sent == s'.accepted && s'.pending == None && s'.queue.items == []
    decreases !s.connected, |s.queue.items|, s.pending.Some?
  {
    hide Inv, Reaches;
    if !s.connected {
      var s1 := Next(s, Connect);
      OneStep(s, Connect);
      RunsKeepInv(s, [Connect], s1);
      steps, s' := EverythingGoesOut(s1);
      ReachesConcat(s, [Connect], s1, steps, s');
      steps := [Connect] + steps;
    } else if s.pending.Some? {
      var first, s1 := SendPending(s);
      steps, s' := EverythingGoesOut(s1);
      ReachesConcat(s, first, s1, steps, s');
      steps := first + steps;
    } else if s.queue.items != [] {
      var s1 := Next(s, Pop);
      OneStep(s, Pop);
      RunsKeepInv(s, [Pop], s1);
      steps, s' := EverythingGoesOut(s1);
      ReachesConcat(s, [Pop], s1, steps, s');
      steps := [Pop] + steps;
    } else {
      steps, s' := [], s;
      AllSent(s);
    }
  }

  lemma AllSent(s: Link)
    requires Inv(s) && s.pending.None? && s.queue.items == []
    ensures Reaches(s, [], s) && s.sent == s.accepted
  {
    assert s.sent + ([] + []) == s.sent;
  }

  /** A routing refusal puts as much of its line on the open connection as it takes, and changes nothing else. */
  lemma RouteNackWrites(s: Link, line: Line, attempts: seq<Attempt>)
    requires Enabled(s, RouteNack(line, Room(attempts)))
    ensures var s' := Next(s, RouteNack(line, Room(attempts)));
            && Bytes(s'.current) == Bytes(s.current) + line[..Min(Room(attempts), |line|)]
            && s' == s.(current := s'.current)
  {
    hide Bytes, IsLine;
    if Room(attempts) < |line| {
      BytesAppend(s.current, Torn(line[..Room(attempts)]));
    } else {
      BytesAppend(s.current, Whole(line, false));
    }
  }
}
