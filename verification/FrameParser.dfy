/** The resynchronising byte stream parser and what it delivers. */
module FrameParser {
  import opened Text
  import opened FrameFormat
  import Crc16

  // ---------------------------------------------------------------- one byte at a time

  datatype Stats = Stats(valid: nat, crc: nat, format: nat, overflow: nat, discarded: nat)

  const NO_STATS := Stats(0, 0, 0, 0, 0)

  /** partial is the frame being collected, empty while hunting for '@'; frames is what the callback has seen. */
  datatype Progress = Progress(partial: string, stats: Stats, frames: seq<ParsedFrame>)

  function Restart(p: Progress): Progress {
    p.(partial := "")
  }

  function Count(p: Progress, verdict: Verdict): Progress {
    match verdict
    case Good(frame) => p.(stats := p.stats.(valid := p.stats.valid + 1), frames := p.frames + [frame])
    case BadCrc => p.(stats := p.stats.(crc := p.stats.crc + 1))
    case Malformed => p.(stats := p.stats.(format := p.stats.format + 1))
  }

  function Step(p: Progress, ch: char): Progress {
    if p.partial == "" then
      if ch == '@' then p.(partial := "@")
      else p.(stats := p.stats.(discarded := p.stats.discarded + 1))
    else if ch == '@' then
      p.(partial := "@", stats := p.stats.(format := p.stats.format + 1))
    else if |p.partial| >= FRAME_MAX_LEN - 1 then
      Restart(p.(stats := p.stats.(overflow := p.stats.overflow + 1)))
    else if ch == '\n' then
      Restart(Count(p, Judge(p.partial + [ch])))
    else
      p.(partial := p.partial + [ch])
  }

  function Run(p: Progress, data: string): Progress
    decreases data
  {
    if data == "" then p else Run(Step(p, data[0]), data[1..])
  }

  ghost predicate Collectable(partial: string) {
    partial != "" ==>
      && partial[0] == '@' && |partial| < FRAME_MAX_LEN
      && forall i :: 0 < i < |partial| ==> partial[i] != '@' && partial[i] != '\n'
  }

  lemma StepKeepsCollectable(p: Progress, ch: char)
    requires Collectable(p.partial)
    ensures Collectable(Step(p, ch).partial)
  {
  }

  // ---------------------------------------------------------------- the implementation

  class FrameParser {
    var buffer: array<char>
    var length: nat
    var collecting: bool
    var stats: Stats

    ghost predicate Valid()
      reads this, buffer
    {
      && buffer.Length == FRAME_MAX_LEN && length < FRAME_MAX_LEN
      && buffer[length] == '\0'
      && collecting == (length > 0)
      && Collectable(buffer[..length])
    }

    ghost function Now(frames: seq<ParsedFrame>): Progress
      reads this, buffer
      requires length <= buffer.Length
    {
      Progress(buffer[..length], stats, frames)
    }

    constructor ()
      ensures Valid() && fresh(buffer)
      ensures Now([]) == Progress("", NO_STATS, [])
    {
      buffer := new char[FRAME_MAX_LEN](_ => '\0');
      length := 0;
      collecting := false;
      stats := NO_STATS;
    }

    method Reset()
      requires buffer.Length == FRAME_MAX_LEN
      modifies this`length, this`collecting, buffer
      ensures Valid() && !collecting
    {
      length := 0;
      collecting := false;
      buffer[0] := '\0';
    }

    /** strrchr(buffer, '*'): the last star of the C string, or -1. */
    method LastStar() returns (star: int)
      requires buffer.Length == FRAME_MAX_LEN && length < FRAME_MAX_LEN && buffer[length] == '\0'
      ensures -1 <= star < length
      ensures star >= 0 ==> buffer[star] == '*' && '\0' !in buffer[..star]
      ensures forall k :: star < k < length && buffer[k] == '*' ==> '\0' in buffer[..k]
    {
      star := -1;
      var i := 0;
      while buffer[i] != '\0'
        invariant 0 <= i <= length
        invariant '\0' !in buffer[..i]
        invariant -1 <= star < i
        invariant star >= 0 ==> buffer[star] == '*' && '\0' !in buffer[..star]
        invariant forall k :: star < k < i ==> buffer[k] != '*'
        decreases length - i
      {
        if buffer[i] == '*' {
          star := i;
        }
        i := i + 1;
      }
      forall k | star < k < length && buffer[k] == '*'
        ensures '\0' in buffer[..k]
      {
        assert k > i;
        assert buffer[..k][i] == '\0';
      }
    }

    /** The checks on a collected frame; length counts the line feed that completed it. */
    method ValidateFrame() returns (verdict: Verdict)
      requires buffer.Length == FRAME_MAX_LEN && length < FRAME_MAX_LEN && buffer[length] == '\0'
      ensures verdict == Judge(buffer[..length])
    {
      hide Crc16.Checksum, Octets, HexNumber, HexValue;
      ghost var raw := buffer[..length];
      if length < 8 {
        return Malformed;
      }
      if buffer[0] != '@' || buffer[length - 2] != '\r' || buffer[length - 1] != '\n' {
        return Malformed;
      }
      var star := LastStar();
      if star < 0 || star + 7 != length || star <= 1 {
        if WellFormed(raw) {
          assert buffer[length - 7] == '*';
          assert buffer[..length - 7] == raw[..length - 7];
          LaterStar(raw, star);
        }
        return Malformed;
      }
      var received := ParseCrc4(buffer[star + 1..star + 5]);
      assert raw[length - 6..length - 2] == buffer[star + 1..star + 5];
      if received.None? {
        return Malformed;
      }
      NoNulAround(raw);
      var crc := Crc16.Crc16CcittFalse(Octets(buffer[1..star]));
      var calculated := crc as int;
      assert star == length - 7 && raw == buffer[..length];
      assert buffer[1..star] == raw[1..star];
      assert buffer[1..star] == PayloadOf(raw);
      if calculated != received.value {
        return BadCrc;
      }
      return Good(ParsedFrame(buffer[..length], buffer[1..star], received.value, calculated));
    }

    /** Judges the collected frame and starts hunting again. */
    method CompleteFrame() returns (verdict: Verdict)
      requires buffer.Length == FRAME_MAX_LEN && length < FRAME_MAX_LEN && buffer[length] == '\0'
      modifies this, buffer
      ensures Valid() && buffer == old(buffer) && !collecting
      ensures verdict == Judge(old(buffer[..length]))
      ensures stats == Count(old(Now([])), verdict).stats
    {
      verdict := ValidateFrame();
      match verdict {
        case Good(_) => stats := stats.(valid := stats.valid + 1);
        case BadCrc => stats := stats.(crc := stats.crc + 1);
        case Malformed => stats := stats.(format := stats.format + 1);
      }
      Reset();
    }

    /** One byte through the state machine. */
    method FeedByte(ch: char, frames: seq<ParsedFrame>) returns (delivered: seq<ParsedFrame>)
      requires Valid()
      modifies this, buffer
      ensures Valid() && buffer == old(buffer)
      ensures Now(delivered) == Step(old(Now(frames)), ch)
    {
      hide Judge;
      delivered := frames;
      ghost var before := Now(frames);
      StepKeepsCollectable(before, ch);
      if !collecting {
        if ch == '@' {
          collecting := true;
          length := 1;
          buffer[0] := '@';
          buffer[1] := '\0';
          assert buffer[..length] == "@";
        } else {
          stats := stats.(discarded := stats.discarded + 1);
        }
        return;
      }
      if ch == '@' {
        stats := stats.(format := stats.format + 1);
        length := 1;
        buffer[0] := '@';
        buffer[1] := '\0';
        assert buffer[..length] == "@";
        return;
      }
      if length >= FRAME_MAX_LEN - 1 {
        stats := stats.(overflow := stats.overflow + 1);
        Reset();
        return;
      }
      buffer[length] := ch;
      length := length + 1;
      buffer[length] := '\0';
      assert buffer[..length] == before.partial + [ch];
      if ch == '\n' {
        var verdict := CompleteFrame();
        if verdict.Good? {
          delivered := delivered + [verdict.frame];
        }
      }
    }

    /** Feeds a chunk; frames lists the frames handed to the callback, in order. */
    method Feed(data: seq<char>) returns (validCount: nat, frames: seq<ParsedFrame>)
      requires Valid()
      modifies this, buffer
      ensures Valid() && buffer == old(buffer)
      ensures Now(frames) == Run(old(Now([])), data)
      ensures validCount == |frames|
    {
      frames := [];
      for i := 0 to |data|
        invariant Valid() && buffer == old(buffer)
        invariant Run(Now(frames), data[i..]) == Run(old(Now([])), data)
      {
        assert data[i..][1..] == data[i + 1..];
        frames := FeedByte(data[i], frames);
      }
      validCount := |frames|;
    }
  }

  /** Four hexadecimal digits as a number. */
  method ParseCrc4(text: seq<char>) returns (value: Option<nat>)
    requires |text| == 4
    ensures value == if IsHex(text) then Some(HexNumber(text)) else None
  {
    var number := 0;
    for i := 0 to 4
      invariant IsHex(text[..i]) && number == HexNumber(text[..i])
    {
      var digit := HexValue(text[i]);
      if digit < 0 {
        return None;
      }
      assert text[..i + 1][..i] == text[..i];
      number := number * 16 + digit;
    }
    assert text[..4] == text;
    return Some(number);
  }

  lemma LaterStar(raw: string, star: int)
    requires WellFormed(raw)
    requires -1 <= star < |raw|
    requires star >= 0 ==> raw[star] == '*'
    requires forall k :: star < k < |raw| && raw[k] == '*' ==> '\0' in raw[..k]
    ensures star == |raw| - 7
  {
    assert forall k :: 0 <= k < |raw| ==> ('\0' in raw[..k] ==> '\0' in raw);
    assert star >= |raw| - 7;
    var digits := raw[|raw| - 6..|raw| - 2];
    assert HexValue('*') == -1;
    assert forall j :: 0 <= j < 4 ==> digits[j] == raw[|raw| - 6 + j];
    assert forall k :: |raw| - 7 < k < |raw| - 2 ==> raw[k] == digits[k - (|raw| - 6)];
  }

  lemma NoNulAround(raw: string)
    requires 9 <= |raw| && '\0' !in raw[..|raw| - 7]
    requires raw[|raw| - 7] == '*' && raw[|raw| - 2] == '\r' && raw[|raw| - 1] == '\n'
    requires IsHex(raw[|raw| - 6..|raw| - 2])
    ensures '\0' !in raw
  {
    var digits := raw[|raw| - 6..|raw| - 2];
    assert HexValue('\0') == -1;
    assert forall k :: 0 <= k < |raw| - 7 ==> raw[k] == raw[..|raw| - 7][k];
    assert forall k :: |raw| - 7 < k < |raw| - 2 ==> raw[k] == digits[k - (|raw| - 6)];
  }
}
