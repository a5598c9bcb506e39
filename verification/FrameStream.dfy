/** What the stream parser delivers, stated on the whole byte stream. */
module FrameStream {
  import opened Text
  import opened FrameFormat
  import opened FrameParser
  import Crc16

  // ---------------------------------------------------------------- the declarative reading of a stream

  predicate Delimiter(c: char) {
    c == '@' || c == '\n'
  }

  /** The first delimiter at or after position i, or the end of the stream. */
  function NextDelimiter(s: string, i: nat): (e: nat)
    requires i <= |s|
    ensures i <= e <= |s|
    ensures forall k :: i <= k < e ==> !Delimiter(s[k])
    ensures e < |s| ==> Delimiter(s[e])
    decreases |s| - i
  {
    if i == |s| || Delimiter(s[i]) then i else NextDelimiter(s, i + 1)
  }

  /** The frame that starts with the first byte of s, if there is one and it is acceptable. */
  function FrameAtStart(s: string): seq<ParsedFrame> {
    if s == "" || s[0] != '@' then [] else
      var e := NextDelimiter(s, 1);
      if e < |s| && s[e] == '\n' && Judge(s[..e + 1]).Good? then [Judge(s[..e + 1]).frame] else []
  }

  function Delivered(s: string): seq<ParsedFrame> {
    if s == "" then [] else FrameAtStart(s) + Delivered(s[1..])
  }

  /** s[i..j] runs from an '@' to the line feed that is the next delimiter, and is an intact frame. */
  ghost predicate FrameSpan(s: string, i: nat, j: nat) {
    && i < j <= |s|
    && s[i] == '@' && s[j - 1] == '\n'
    && (forall k :: i < k < j - 1 ==> !Delimiter(s[k]))
    && Judge(s[i..j]).Good?
  }

  lemma {:induction false} NextDelimiterUnique(s: string, i: nat, e: nat)
    requires i <= e <= |s|
    requires forall k :: i <= k < e ==> !Delimiter(s[k])
    requires e < |s| ==> Delimiter(s[e])
    ensures NextDelimiter(s, i) == e
    decreases e - i
  {
    if i < e {
      NextDelimiterUnique(s, i + 1, e);
    }
  }

  lemma FrameAtStartIff(s: string, f: ParsedFrame)
    ensures FrameAtStart(s) == [f] <==> exists j: nat :: FrameSpan(s, 0, j) && f == Judge(s[0..j]).frame
    ensures FrameAtStart(s) != [] <==> exists j: nat :: FrameSpan(s, 0, j)
  {
    hide Judge;
    if s != "" && s[0] == '@' {
      var e := NextDelimiter(s, 1);
      if e < |s| {
        assert s[0..e + 1] == s[..e + 1];
      }
      assert FrameAtStart(s) != [] ==> FrameSpan(s, 0, e + 1);
      forall j: nat | FrameSpan(s, 0, j)
        ensures j == e + 1
      {
        SpanEndsAtDelimiter(s, j);
      }
    }
  }

  lemma SpanEndsAtDelimiter(s: string, j: nat)
    requires FrameSpan(s, 0, j)
    ensures 1 <= |s| && j == NextDelimiter(s, 1) + 1
  {
    hide Judge;
    NextDelimiterUnique(s, 1, j - 1);
  }

  lemma FrameSpanShift(s: string, i: nat, j: nat)
    requires 0 < i < j <= |s|
    ensures FrameSpan(s, i, j) <==> FrameSpan(s[1..], i - 1, j - 1)
    ensures s[i..j] == s[1..][i - 1..j - 1]
  {
    hide Judge;
    SliceShift(s, i, j);
    assert forall k :: 0 < k < |s| ==> s[k] == s[1..][k - 1];
  }

  lemma SliceShift(s: string, i: nat, j: nat)
    requires 0 < i < j <= |s|
    ensures s[i..j] == s[1..][i - 1..j - 1]
  {
    var a, b := s[i..j], s[1..][i - 1..j - 1];
    assert |a| == |b| && forall k :: 0 <= k < |a| ==> a[k] == b[k];
  }

  ghost predicate Contains(s: string, f: ParsedFrame) {
    exists i: nat, j: nat :: FrameSpan(s, i, j) && f == Judge(s[i..j]).frame
  }

  lemma ContainsStep(s: string, f: ParsedFrame)
    requires s != ""
    ensures Contains(s, f) <==> FrameAtStart(s) == [f] || Contains(s[1..], f)
  {
    hide Judge;
    FrameAtStartIff(s, f);
    if FrameAtStart(s) == [f] {
      var j: nat :| FrameSpan(s, 0, j) && f == Judge(s[0..j]).frame;
    }
    if Contains(s[1..], f) {
      var i: nat, j: nat :| FrameSpan(s[1..], i, j) && f == Judge(s[1..][i..j]).frame;
      SpanBounds(s[1..], i, j);
      FrameSpanShift(s, i + 1, j + 1);
    }
    if Contains(s, f) {
      var i: nat, j: nat :| FrameSpan(s, i, j) && f == Judge(s[i..j]).frame;
      SpanBounds(s, i, j);
      if i > 0 {
        FrameSpanShift(s, i, j);
        assert FrameSpan(s[1..], i - 1, j - 1);
      }
    }
  }

  lemma SpanBounds(s: string, i: nat, j: nat)
    requires FrameSpan(s, i, j)
    ensures i < j <= |s| && Judge(s[i..j]).Good?
  {
  }

  /** A frame is delivered exactly when some span of the stream is that frame. */
  lemma {:induction false} DeliveredIffContained(s: string, f: ParsedFrame)
    ensures f in Delivered(s) <==> Contains(s, f)
    decreases s
  {
    hide Judge;
    if s == "" {
    } else {
      ContainsStep(s, f);
      DeliveredIffContained(s[1..], f);
      assert f in FrameAtStart(s) <==> FrameAtStart(s) == [f];
    }
  }

  // ---------------------------------------------------------------- the parser meets it

  lemma {:induction false} SkipUndelimited(a: string, b: string)
    requires '@' !in a
    ensures Delivered(a + b) == Delivered(b)
    decreases a
  {
    if a == "" {
      assert a + b == b;
    } else {
      assert (a + b)[1..] == a[1..] + b;
      assert a[0] in a;
      SkipUndelimited(a[1..], b);
    }
  }

  lemma TailHasNoAt(partial: string)
    requires partial != "" && Collectable(partial)
    ensures '@' !in partial[1..]
  {
    var tail := partial[1..];
    forall i | 0 <= i < |tail| ensures tail[i] != '@' { assert tail[i] == partial[i + 1]; }
  }

  /** Once the head of s cannot start an acceptable frame, the whole collected part is passed over. */
  lemma DropPartial(partial: string, ch: char, rest: string)
    requires partial != "" && Collectable(partial)
    ensures Delivered(partial + [ch] + rest)
            == FrameAtStart(partial + [ch] + rest) + Delivered(if ch == '@' then [ch] + rest else rest)
  {
    hide FrameAtStart;
    var s := partial + [ch] + rest;
    TailHasNoAt(partial);
    assert s[1..] == partial[1..] + ([ch] + rest);
    SkipUndelimited(partial[1..], [ch] + rest);
    if ch != '@' {
      SkipUndelimited([ch], rest);
    }
  }

  /** What a stream still delivers when the bytes of partial have been collected already. */
  lemma DelimiterMeetsPartial(partial: string, ch: char, rest: string)
    requires partial != "" && Collectable(partial) && Delimiter(ch)
    ensures FrameAtStart(partial + [ch] + rest)
            == if ch == '\n' && Judge(partial + [ch]).Good? then [Judge(partial + [ch]).frame] else []
  {
    hide Judge;
    var s := partial + [ch] + rest;
    assert forall k :: 0 <= k < |partial| ==> s[k] == partial[k];
    NextDelimiterUnique(s, 1, |partial|);
    assert s[..|partial| + 1] == partial + [ch];
  }

  lemma LongPartialFails(partial: string, ch: char, rest: string)
    requires |partial| >= FRAME_MAX_LEN - 1 && Collectable(partial) && !Delimiter(ch)
    ensures FrameAtStart(partial + [ch] + rest) == []
  {
    var s := partial + [ch] + rest;
    var e := NextDelimiter(s, 1);
    assert forall k :: 0 <= k < |partial| ==> s[k] == partial[k];
    assert s[|partial|] == ch;
    assert e > |partial|;
  }

  lemma PartialAlone(partial: string)
    requires Collectable(partial)
    ensures Delivered(partial) == []
  {
    if partial != "" {
      NextDelimiterUnique(partial, 1, |partial|);
      var tail := partial[1..];
      assert '@' !in tail by {
        forall i | 0 <= i < |tail| ensures tail[i] != '@' { assert tail[i] == partial[i + 1]; }
      }
      SkipUndelimited(tail, "");
      assert tail + "" == tail;
    }
  }

  lemma TooLongIsMalformed(raw: string)
    ensures |raw| >= FRAME_MAX_LEN ==> Judge(raw) == Malformed
  {
  }

  lemma StepDelivers(p: Progress, ch: char, rest: string)
    requires Collectable(p.partial)
    ensures Step(p, ch).frames + Delivered(Step(p, ch).partial + rest)
            == p.frames + Delivered(p.partial + [ch] + rest)
  {
    hide Judge, FrameAtStart;
    assert "" + rest == rest;
    if p.partial == "" {
      assert p.partial + [ch] + rest == [ch] + rest;
      if ch != '@' {
        SkipUndelimited([ch], rest);
      }
    } else {
      DropPartial(p.partial, ch, rest);
      if Delimiter(ch) {
        DelimiterMeetsPartial(p.partial, ch, rest);
        var verdict := Judge(p.partial + [ch]);
        TooLongIsMalformed(p.partial + [ch]);
        if ch == '\n' && verdict.Good? {
          assert p.frames + [verdict.frame] + Delivered(rest) == p.frames + ([verdict.frame] + Delivered(rest));
        }
      } else if |p.partial| >= FRAME_MAX_LEN - 1 {
        LongPartialFails(p.partial, ch, rest);
      }
    }
  }

  /** From any parser state, the callbacks are exactly the frames the stream contains, in order. */
  lemma {:induction false} ParserDeliversStream(p: Progress, data: string)
    requires Collectable(p.partial)
    ensures Run(p, data).frames == p.frames + Delivered(p.partial + data)
    ensures Collectable(Run(p, data).partial)
    decreases data
  {
    if data == "" {
      assert p.partial + data == p.partial;
      PartialAlone(p.partial);
    } else {
      hide Step, Delivered, Collectable;
      var ch, rest := data[0], data[1..];
      assert p.partial + data == p.partial + [ch] + rest;
      StepKeepsCollectable(p, ch);
      ParserDeliversStream(Step(p, ch), rest);
      StepDelivers(p, ch, rest);
    }
  }

  /** Cutting the stream into chunks changes nothing, statistics included. */
  lemma {:induction false} ChunksCompose(p: Progress, a: string, b: string)
    ensures Run(p, a + b) == Run(Run(p, a), b)
    decreases a
  {
    if a == "" {
      assert a + b == b;
    } else {
      assert (a + b)[1..] == a[1..] + b;
      ChunksCompose(Step(p, a[0]), a[1..], b);
    }
  }

  function RunChunks(p: Progress, chunks: seq<string>): Progress
    decreases chunks
  {
    if chunks == [] then p else RunChunks(Run(p, chunks[0]), chunks[1..])
  }

  lemma {:induction false} AnyChunking(p: Progress, chunks: seq<string>)
    ensures RunChunks(p, chunks) == Run(p, Joined(chunks))
    decreases chunks
  {
    if chunks == [] {
    } else {
      AnyChunking(Run(p, chunks[0]), chunks[1..]);
      ChunksCompose(p, chunks[0], Joined(chunks[1..]));
    }
  }

  // ---------------------------------------------------------------- accounting

  function Ats(s: string): nat {
    if s == "" then 0 else (if s[0] == '@' then 1 else 0) + Ats(s[1..])
  }

  function Accounted(p: Progress): nat {
    p.stats.valid + p.stats.crc + p.stats.format + p.stats.overflow + if p.partial == "" then 0 else 1
  }

  /** Every '@' ends up in exactly one counter or is the frame being collected; callbacks match valid_frames. */
  lemma {:induction false} EveryAtAccounted(p: Progress, data: string)
    ensures Accounted(Run(p, data)) == Accounted(p) + Ats(data)
    ensures |Run(p, data).frames| - |p.frames| == Run(p, data).stats.valid - p.stats.valid
    decreases data
  {
    hide Judge;
    if data == "" {
    } else {
      EveryAtAccounted(Step(p, data[0]), data[1..]);
    }
  }

  // ---------------------------------------------------------------- intact and damaged frames

  ghost predicate Payload(payload: string) {
    payload != "" && '\0' !in payload && '@' !in payload && '\n' !in payload
  }

  lemma HexIsPlain(s: string)
    requires IsHex(s)
    ensures '@' !in s && '\n' !in s && '*' !in s
  {
    forall i | 0 <= i < |s| ensures s[i] != '@' && s[i] != '\n' && s[i] != '*' {
      assert HexValue(s[i]) >= 0;
    }
  }

  /** A frame-shaped byte string is one span of the stream, whatever came before it. */
  lemma OneFrameStream(partial: string, raw: string)
    requires Collectable(partial)
    requires |raw| >= 2 && raw[0] == '@' && raw[|raw| - 1] == '\n'
    requires forall k :: 0 < k < |raw| - 1 ==> !Delimiter(raw[k])
    ensures Delivered(partial + raw) == if Judge(raw).Good? then [Judge(raw).frame] else []
  {
    hide Judge;
    var body := raw[1..];
    assert '@' !in body by {
      forall i | 0 <= i < |body| ensures body[i] != '@' { assert body[i] == raw[i + 1]; }
    }
    RawAlone(raw, body);
    if partial == "" {
      assert partial + raw == raw;
    } else {
      hide Delivered, FrameAtStart;
      assert raw == [raw[0]] + body;
      assert partial + raw == partial + [raw[0]] + body;
      DropPartial(partial, raw[0], body);
      DelimiterMeetsPartial(partial, raw[0], body);
    }
  }

  lemma RawAlone(raw: string, body: string)
    requires |raw| >= 2 && raw[0] == '@' && raw[|raw| - 1] == '\n' && body == raw[1..] && '@' !in body
    requires forall k :: 0 < k < |raw| - 1 ==> !Delimiter(raw[k])
    ensures Delivered(raw) == if Judge(raw).Good? then [Judge(raw).frame] else []
  {
    hide Judge;
    NextDelimiterUnique(raw, 1, |raw| - 1);
    assert raw[..|raw|] == raw;
    SkipUndelimited(body, "");
    assert body + "" == body;
    assert Delivered(raw) == FrameAtStart(raw) + Delivered(body);
  }

  lemma SealIsOneSpan(payload: string, digits: string)
    requires Payload(payload) && |digits| == 4 && IsHex(digits)
    ensures var raw := "@" + payload + "*" + digits + "\r\n";
            raw[0] == '@' && raw[|raw| - 1] == '\n' && forall k :: 0 < k < |raw| - 1 ==> !Delimiter(raw[k])
  {
    HexIsPlain(digits);
  }

  /** An intact frame gives exactly one callback, from any parser state and in any chunking. */
  lemma IntactFrameDelivered(p: Progress, payload: string, chunks: seq<string>)
    requires Collectable(p.partial) && Payload(payload)
    requires |Seal(payload)| < FRAME_MAX_LEN
    requires Joined(chunks) == Seal(payload)
    ensures RunChunks(p, chunks).frames
            == p.frames + [ParsedFrame(Seal(payload), payload, Crc(payload), Crc(payload))]
  {
    AnyChunking(p, chunks);
    ParserDeliversStream(p, Seal(payload));
    SealIsOneSpan(payload, Hex4(Crc(payload)));
    OneFrameStream(p.partial, Seal(payload));
    SealAccepted(payload);
  }

  /** The damaged payload differs within 16 consecutive bits, or in an odd number of bits. */
  ghost predicate CertainlyDetected(payload: string, damaged: string)
    requires |payload| == |damaged|
  {
    var d := Crc16.Difference(Crc16.Bits(Octets(payload)), Crc16.Bits(Octets(damaged)));
    || (payload != damaged && exists k :: Crc16.WithinBurst(d, k))
    || Crc16.Ones(d) % 2 == 1
  }

  lemma DamageChangesCrc(payload: string, damaged: string)
    requires |payload| == |damaged| && IsBytes(payload) && IsBytes(damaged)
    requires CertainlyDetected(payload, damaged)
    ensures Crc(payload) != Crc(damaged)
  {
    hide Crc16.Checksum, Octet;
    var p, q := Octets(payload), Octets(damaged);
    CrcDistinguishes(payload, damaged);
    if Crc16.Ones(Crc16.Difference(Crc16.Bits(p), Crc16.Bits(q))) % 2 == 1 {
      Crc16.DetectsOddFlips(p, q);
    } else {
      var k :| Crc16.WithinBurst(Crc16.Difference(Crc16.Bits(p), Crc16.Bits(q)), k);
      if p == q {
        forall i | 0 <= i < |payload| ensures payload[i] == damaged[i] {
          OctetInjective(payload[i], damaged[i]);
        }
      }
      Crc16.DetectsBurst(p, q, k);
    }
  }

  /** Such damage to the payload of a frame is never delivered and is counted as exactly one CRC error. */
  lemma DamagedFrameCounted(p: Progress, payload: string, damaged: string)
    requires Collectable(p.partial)
    requires |payload| == |damaged| && IsBytes(payload) && IsBytes(damaged)
    requires Payload(payload) && Payload(damaged) && |Seal(payload)| < FRAME_MAX_LEN
    requires CertainlyDetected(payload, damaged)
    ensures var q := Run(p, "@" + damaged + "*" + Hex4(Crc(payload)) + "\r\n");
            && q.frames == p.frames && q.partial == ""
            && q.stats.crc == p.stats.crc + 1 && q.stats.valid == p.stats.valid
            && q.stats.overflow == p.stats.overflow
            && q.stats.format == p.stats.format + if p.partial == "" then 0 else 1
  {
    hide CertainlyDetected, Crc16.Checksum;
    var digits := Hex4(Crc(payload));
    var raw := "@" + damaged + "*" + digits + "\r\n";
    DamageChangesCrc(payload, damaged);
    Hex4RoundTrip(Crc(payload));
    assert '\0' !in digits by {
      forall i | 0 <= i < |digits| ensures digits[i] != '\0' { assert HexValue(digits[i]) >= 0; }
    }
    assert Encloses(raw, damaged, digits);
    EnclosesIffWellFormed(raw, damaged, digits);
    assert Judge(raw) == BadCrc;
    SealIsOneSpan(damaged, digits);
    assert raw[..|raw| - 1] + "\n" == raw;
    var first := Step(p, '@');
    assert raw == "@" + raw[1..];
    assert raw[1..] == raw[1..|raw| - 1] + "\n";
    Collects(first, raw[1..|raw| - 1]);
    ChunksCompose(first, raw[1..|raw| - 1], "\n");
    var full := Run(first, raw[1..|raw| - 1]);
    assert full.partial + "\n" == raw;
    assert Run(full, "\n") == Run(Step(full, '\n'), "\n"[1..]) == Step(full, '\n');
  }

  lemma {:induction false} Collects(p: Progress, body: string)
    requires p.partial != "" && |p.partial| + |body| < FRAME_MAX_LEN
    requires forall k :: 0 <= k < |body| ==> !Delimiter(body[k])
    ensures Run(p, body) == p.(partial := p.partial + body)
    decreases body
  {
    if body == "" {
      assert p.partial + body == p.partial;
    } else {
      Collects(Step(p, body[0]), body[1..]);
      assert p.partial + [body[0]] + body[1..] == p.partial + body;
    }
  }

  // ---------------------------------------------------------------- which counter

  /** While hunting, every byte other than '@' is discarded and counted as such. */
  lemma {:induction false} HuntingDiscards(p: Progress, s: string)
    requires p.partial == "" && '@' !in s
    ensures Run(p, s) == p.(stats := p.stats.(discarded := p.stats.discarded + |s|))
    decreases s
  {
    if s != "" {
      HuntingDiscards(Step(p, s[0]), s[1..]);
    }
  }

  /** What a line of '@' and undelimited bytes leaves in the counters: one of the four, and discarded bytes if too long. */
  function LineStats(stats: Stats, body: string): Stats {
    if |body| <= 253 then
      match Judge("@" + body + "\n")
      case Good(_) => stats.(valid := stats.valid + 1)
      case BadCrc => stats.(crc := stats.crc + 1)
      case Malformed => stats.(format := stats.format + 1)
    else stats.(overflow := stats.overflow + 1, discarded := stats.discarded + (|body| - 254))
  }

  /**
   * An '@', undelimited bytes and a line feed, from hunting: up to 253 bytes are judged as a frame; from 254 on the line is
   * one overflow, its 256th byte, be it the line feed, is dropped with it and every later byte is discarded.
   */
  lemma LineCounted(p: Progress, body: string)
    requires p.partial == "" && forall i :: 0 <= i < |body| ==> !Delimiter(body[i])
    ensures var q := Run(p, "@" + body + "\n"); q.partial == "" && q.stats == LineStats(p.stats, body)
  {
    hide Judge;
    var started := p.(partial := "@");
    var all := body + "\n";
    assert "@" + body + "\n" == "@" + all;
    ChunksCompose(p, "@", all);
    assert Run(p, "@") == started by { OneByte(p, '@'); }
    if |body| <= 254 {
      Collects(started, body);
      ChunksCompose(started, body, "\n");
      OneByte(started.(partial := "@" + body), '\n');
    } else {
      OverlongBody(started, body);
      ChunksCompose(started, body, "\n");
      OneByte(Run(started, body), '\n');
    }
  }

  lemma OneByte(p: Progress, ch: char)
    ensures Run(p, [ch]) == Step(p, ch)
  {
    assert [ch][1..] == "";
  }

  lemma OverlongBody(p: Progress, body: string)
    requires p.partial == "@" && |body| >= 255 && forall i :: 0 <= i < |body| ==> !Delimiter(body[i])
    ensures Run(p, body) == p.(partial := "", stats := p.stats.(overflow := p.stats.overflow + 1,
                                                              discarded := p.stats.discarded + (|body| - 255)))
  {
    var a, b, c := body[..254], [body[254]], body[255..];
    assert body == a + (b + c);
    ChunksCompose(p, a, b + c);
    Collects(p, a);
    var full := p.(partial := "@" + a);
    ChunksCompose(full, b, c);
    OneByte(full, body[254]);
    var dropped := Step(full, body[254]);
    assert '@' !in c by {
      assert forall i :: 0 <= i < |c| ==> c[i] == body[i + 255];
    }
    HuntingDiscards(dropped, c);
  }

  /** An '@' inside a frame counts it as malformed and starts the next one, however much had been collected. */
  lemma RestartCounted(p: Progress)
    requires p.partial != ""
    ensures Run(p, "@") == p.(partial := "@", stats := p.stats.(format := p.stats.format + 1))
  {
    OneByte(p, '@');
  }
}
