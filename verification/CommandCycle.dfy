/** The whole way of one command: sent by the server, answered by its node or refused by the gateway, settled. */
module CommandCycle {
  import opened Text
  import opened FrameFormat
  import opened FrameBuilder
  import opened FrameDecoder
  import opened FrameParser
  import opened FrameStream
  import opened FrameRoundTrip
  import opened JsonScan
  import opened JsonMessage
  import opened JsonRoundTrip
  import opened JsonRelay
  import opened ServerDispatch
  import opened GatewayRelay
  import opened CommandManager
  import opened CommandRuns

  /** Every reason the gateway writes into a refusal. */
  const REASONS := ["route_not_found", "route_offline", "route_queue_full", "route_internal", "transport_replaced",
    "transport_disconnected", "cmd_encode_failed", "transport_send_failed"]

  /** Text that the builders, which never escape, print so that it reads back as itself. */
  predicate Plain(t: string) {
    '"' !in t && '\\' !in t
  }

  lemma ReasonsArePlain(reason: string)
    requires reason in REASONS
    ensures Plain(reason) && reason != "" && |reason| < NODE_ID_SIZE && '\0' !in reason
  {
    assert forall i: nat :: i < |REASONS| ==> REASONS[i] != "" && |REASONS[i]| < NODE_ID_SIZE;
    assert forall i: nat, k: nat :: i < |REASONS| && k < |REASONS[i]| ==> '_' <= REASONS[i][k] <= 'z';
  }

  /** The server's step on what the gateway pushed. */
  ghost function Replies(pushed: Option<string>): seq<Op> {
    match ServerHears(pushed)
    case AckEvent(ack) => [Reply(ack.sequence, ack.id, Acked)]
    case NackEvent(nack) => [Reply(nack.sequence, nack.nodeId, Nacked)]
    case _ => []
  }

  /** After the replies only slot i is changed, by the verdict and only when reached holds. */
  ghost predicate Outcome(ops: seq<Op>, limits: Limits, i: nat, replies: seq<Op>, reached: bool, verdict: CommandRuns.Verdict)
    requires i < COMMAND_MANAGER_MAX_COMMANDS
  {
    forall j: nat :: j < COMMAND_MANAGER_MAX_COMMANDS ==>
      Slot(ops + replies, limits, |ops + replies|, j)
      == if j == i && reached then Slot(ops, limits, |ops|, i).(state := verdict) else Slot(ops, limits, |ops|, j)
  }

  lemma ReplySettles(ops: seq<Op>, limits: Limits, i: nat, verdict: CommandRuns.Verdict)
    requires i < COMMAND_MANAGER_MAX_COMMANDS && Slot(ops, limits, |ops|, i).state == Waiting
    ensures var e := Slot(ops, limits, |ops|, i);
            e.sequence == i + 1 && e.sequence % 1000000 == e.sequence
            && Outcome(ops, limits, i, [Reply(e.sequence, e.target, verdict)], true, verdict)
            && Outcome(ops, limits, i, [], false, verdict)
  {
    hide Slot;
    var e := Slot(ops, limits, |ops|, i);
    TrackedSequence(ops, limits, i);
    SixDigits(i + 1);
    assert ops + [] == ops;
    var reply := Reply(e.sequence, e.target, verdict);
    forall j: nat | j < COMMAND_MANAGER_MAX_COMMANDS
      ensures Slot(ops + [reply], limits, |ops + [reply]|, j)
              == if j == i then Slot(ops, limits, |ops|, i).(state := verdict) else Slot(ops, limits, |ops|, j)
    {
      SerialReplyPairs(ops, limits, i, e.target, verdict, j);
    }
  }

  /** The gateway's refusal of a waiting command always fits, is heard by the server as it was meant, and settles it. */
  lemma RefusalSettles(ops: seq<Op>, limits: Limits, i: nat, reason: NodeId)
    requires i < COMMAND_MANAGER_MAX_COMMANDS && Slot(ops, limits, |ops|, i).state == Waiting
    requires Plain(Slot(ops, limits, |ops|, i).target) && reason in REASONS
    ensures var e := Slot(ops, limits, |ops|, i);
            var nack := NackMessage(e.target, e.sequence, reason);
            && |NackLine(nack)| < JSON_SIZE
            && ServerHears(Some(NackLine(nack))) == NackEvent(nack)
            && Outcome(ops, limits, i, Replies(Some(NackLine(nack))), true, Nacked)
  {
    hide Slot, Outcome, NackObject, ServerReads;
    var e := Slot(ops, limits, |ops|, i);
    var nack := NackMessage(e.target, e.sequence, reason);
    ReplySettles(ops, limits, i, Nacked);
    ReasonsArePlain(reason);
    PlainIsBalanced(reason);
    PlainIsBalanced(e.target);
    NackAlwaysFits(nack);
    PlainNackReachesManager(nack);
    PushedIsHeard(UpNack(nack), true);
  }

  /** The JSON of an acknowledgement fits the buffer it is built in. */
  predicate AckFits(ack: KvMessage) {
    |UpstreamText(UpAck(ack))| < JSON_SIZE
  }

  /**
   * The gateway's parser delivers one new frame for the chunks; the server's table afterwards is changed by what the
   * gateway pushes for it in slot i only, and there if and only if the identity is accepted and the JSON fits.
   */
  ghost predicate AckDecided(p: Progress, chunks: seq<string>, ops: seq<Op>, limits: Limits, i: nat, ack: KvMessage,
                             identityAccepted: bool)
    requires i < COMMAND_MANAGER_MAX_COMMANDS
  {
    exists f: ParsedFrame ::
      && RunChunks(p, chunks).frames == p.frames + [f]
      && FrameDecode(f.payload) == Some(UpAck(ack))
      && Outcome(ops, limits, i, Replies(FramePush(f.payload, identityAccepted)), identityAccepted && AckFits(ack), Acked)
  }

  /**
   * A node answers a waiting command with the six-digit sequence it was given: however the serial line cuts the
   * frame up and whatever the gateway's parser was doing, the server marks exactly that command ACKED if the gateway
   * accepts the node's identity and the JSON fits, and otherwise changes nothing.
   */
  lemma AckSettles(ops: seq<Op>, limits: Limits, i: nat, fields: seq<Field>, p: Progress, chunks: seq<string>,
                   identityAccepted: bool)
    requires i < COMMAND_MANAGER_MAX_COMMANDS && Slot(ops, limits, |ops|, i).state == Waiting
    requires var e := Slot(ops, limits, |ops|, i);
             && Plain(e.target) && FieldsSurvive(fields) && Collectable(p.partial)
             && Buildable(FRAME_MAX_LEN, e.target, e.sequence % 1000000, "ACK", fields)
             && Joined(chunks) == Seal(PayloadText(e.target, e.sequence % 1000000, "ACK", fields))
    ensures var e := Slot(ops, limits, |ops|, i);
            AckDecided(p, chunks, ops, limits, i, KvMessage(e.target, e.sequence, fields), identityAccepted)
  {
    hide Slot, Outcome, ServerReads, RunChunks, Buildable, Seal, PayloadText, DecodeKv, MessageTypeOf, UpstreamObject;
    var e := Slot(ops, limits, |ops|, i);
    var ack := KvMessage(e.target, e.sequence, fields);
    ReplySettles(ops, limits, i, Acked);
    KvFrameRoundTrip(p, e.target, e.sequence % 1000000, "ACK", fields, chunks);
    var f: ParsedFrame :| RunChunks(p, chunks).frames == p.frames + [f]
      && MessageTypeOf(f.payload) == TypeOfKind("ACK")
      && DecodeKv(f.payload, "ACK") == Some(KvMessage(e.target, e.sequence % 1000000 % 1000000, fields));
    assert FrameDecode(f.payload) == Some(UpAck(ack));
    PlainIsBalanced(e.target);
    AckHeard(ack, identityAccepted);
    hide FrameDecode;
    assert Outcome(ops, limits, i, Replies(FramePush(f.payload, identityAccepted)), identityAccepted && AckFits(ack), Acked);
  }

  lemma AckHeard(ack: KvMessage, identityAccepted: bool)
    requires KvSurvives(ack)
    ensures Replies(Pushed(Some(UpAck(ack)), identityAccepted))
            == if identityAccepted && AckFits(ack) then [Reply(ack.sequence, ack.id, Acked)] else []
  {
    hide ServerReads, UpstreamText, UpstreamObject, ServerHears;
    PushedIsHeard(UpAck(ack), identityAccepted);
    ServerAgreesIff(UpAck(ack));
  }

  /** An acknowledgement the node can frame but the gateway cannot print: the command stays as it is. */
  lemma LongAckSettlesNothing(ops: seq<Op>, limits: Limits, i: nat, ack: KvMessage)
    requires i < COMMAND_MANAGER_MAX_COMMANDS
    requires IdValid(ack.id) && |ack.id| <= 8 && ack.sequence < 1000000 && ack.fields == LongFields()
    ensures Buildable(FRAME_MAX_LEN, ack.id, ack.sequence, "ACK", ack.fields)
    ensures Outcome(ops, limits, i, Replies(FramePush(PayloadText(ack.id, ack.sequence, "ACK", ack.fields), true)), false, Acked)
  {
    hide Buildable, PayloadText, FramePush, IdValid;
    LongAckIsDropped(ack);
    assert ops + [] == ops;
  }

  /**
   * Command and answer together: what the node receives is the waiting command, and its answer settles that command if
   * and only if the identity is accepted and the answer fits.
   */
  lemma RoundTripSettles(ops: seq<Op>, limits: Limits, i: nat, node: Progress, down: seq<string>, answer: seq<Field>,
                         gateway: Progress, up: seq<string>, identityAccepted: bool)
    requires i < COMMAND_MANAGER_MAX_COMMANDS && Slot(ops, limits, |ops|, i).state == Waiting
    requires Collectable(node.partial) && Collectable(gateway.partial)
    requires var e := Slot(ops, limits, |ops|, i);
             && Plain(e.target) && Balanced(e.sender) && FieldsSurvive(e.fields) && FieldsSurvive(answer)
             && DownlinkFrame(Command(e.target, e.sender, e.sequence, e.fields)) == Some(Joined(down))
             && Buildable(FRAME_MAX_LEN, e.target, e.sequence % 1000000, "ACK", answer)
             && Joined(up) == Seal(PayloadText(e.target, e.sequence % 1000000, "ACK", answer))
    ensures var e := Slot(ops, limits, |ops|, i);
            && NodeReceives(node, down, e.sender, e.sequence % 1000000, e.fields)
            && AckDecided(gateway, up, ops, limits, i, KvMessage(e.target, e.sequence, answer), identityAccepted)
  {
    hide Slot, AckDecided, NodeReceives, Buildable, Seal, PayloadText, DownlinkFrame, FieldsSurvive, Balanced;
    var e := Slot(ops, limits, |ops|, i);
    TrackedSequence(ops, limits, i);
    PlainIsBalanced(e.target);
    CommandEndToEnd(Command(e.target, e.sender, e.sequence, e.fields), node, down);
    AckSettles(ops, limits, i, answer, gateway, up, identityAccepted);
  }

  /** The same for a refusal: the parser's one new frame, and a table changed in slot i if the identity is accepted. */
  ghost predicate NackDecided(p: Progress, chunks: seq<string>, ops: seq<Op>, limits: Limits, i: nat, nack: NackMessage,
                              identityAccepted: bool)
    requires i < COMMAND_MANAGER_MAX_COMMANDS
  {
    exists f: ParsedFrame ::
      && RunChunks(p, chunks).frames == p.frames + [f]
      && FrameDecode(f.payload) == Some(UpNack(nack))
      && Outcome(ops, limits, i, Replies(FramePush(f.payload, identityAccepted)), identityAccepted, Nacked)
  }

  /**
   * A node refuses a waiting command with the six-digit sequence it was given: the server marks exactly that command
   * NACKED if the gateway accepts the node's identity, and otherwise changes nothing; the JSON always fits.
   */
  lemma NackSettles(ops: seq<Op>, limits: Limits, i: nat, error: NodeId, p: Progress, chunks: seq<string>, identityAccepted: bool)
    requires i < COMMAND_MANAGER_MAX_COMMANDS && Slot(ops, limits, |ops|, i).state == Waiting
    requires var e := Slot(ops, limits, |ops|, i);
             && Plain(e.target) && Plain(error) && IdValid(e.target) && IdValid(error) && Collectable(p.partial)
             && Joined(chunks) == Seal(NackText(e.target, e.sequence % 1000000, error))
    ensures var e := Slot(ops, limits, |ops|, i);
            NackDecided(p, chunks, ops, limits, i, NackMessage(e.target, e.sequence, error), identityAccepted)
  {
    hide Slot, Outcome, ServerReads, RunChunks, Seal, NackText, DecodeNack, MessageTypeOf, UpstreamObject, IdValid;
    var e := Slot(ops, limits, |ops|, i);
    var nack := NackMessage(e.target, e.sequence, error);
    ReplySettles(ops, limits, i, Nacked);
    NackFrameRoundTrip(p, e.target, e.sequence % 1000000, error, chunks);
    var f: ParsedFrame :| RunChunks(p, chunks).frames == p.frames + [f]
      && MessageTypeOf(f.payload) == NackType
      && DecodeNack(f.payload) == Some(NackMessage(e.target, e.sequence % 1000000 % 1000000, error));
    assert FrameDecode(f.payload) == Some(UpNack(nack));
    NackHeard(nack, identityAccepted);
    hide FrameDecode;
    assert Outcome(ops, limits, i, Replies(FramePush(f.payload, identityAccepted)), identityAccepted, Nacked);
  }

  lemma NackHeard(nack: NackMessage, identityAccepted: bool)
    requires nack.sequence < UINT32_RANGE && Plain(nack.nodeId) && Plain(nack.error) && IdValid(nack.error)
    ensures Replies(Pushed(Some(UpNack(nack)), identityAccepted))
            == if identityAccepted then [Reply(nack.sequence, nack.nodeId, Nacked)] else []
  {
    hide ServerReads, NackObject, ServerHears;
    assert nack.error != "";
    PlainIsBalanced(nack.nodeId);
    PlainIsBalanced(nack.error);
    NackAlwaysFits(nack);
    PlainNackReachesManager(nack);
    PushedIsHeard(UpNack(nack), identityAccepted);
  }
}
