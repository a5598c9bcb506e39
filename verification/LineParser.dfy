/** Splitting a TCP byte stream into lines inside a bounded buffer. */
module LineParser {
  import opened Text

  // ---------------------------------------------------------------- lines of a stream

  function Strip(line: string): string {
    if line != "" && line[|line| - 1] == '\r' then line[..|line| - 1] else line
  }

  /** The completed lines, without line feed and one carriage return. */
  function Lines(s: string): seq<string>
    decreases |s|
  {
    var k := Find(s, '\n');
    if k == |s| then [] else [Strip(s[..k])] + Lines(s[k + 1..])
  }

  /** What follows the last line feed. */
  function Remainder(s: string): (rest: string)
    ensures '\n' !in rest && |rest| <= |s|
    decreases |s|
  {
    var k := Find(s, '\n');
    if k == |s| then s else Remainder(s[k + 1..])
  }

  lemma FindBeyond(a: string, b: string)
    ensures '\n' in a ==> Find(a + b, '\n') == Find(a, '\n') < |a|
  {
    if '\n' in a {
      var k := Find(a, '\n');
      assert (a + b)[..k] == a[..k];
      assert a[..|a|] == a;
      FindUnique(a + b, '\n', k);
    }
  }

  lemma NoFeed(s: string)
    requires '\n' !in s
    ensures Find(s, '\n') == |s| && Lines(s) == [] && Remainder(s) == s
  {
    FindUnique(s, '\n', |s|);
  }

  /** Splitting can be resumed from the remainder. */
  lemma {:induction false} LinesResume(a: string, b: string)
    ensures Lines(a + b) == Lines(a) + Lines(Remainder(a) + b)
    ensures Remainder(a + b) == Remainder(Remainder(a) + b)
    decreases |a|
  {
    if '\n' in a {
      FindBeyond(a, b);
      var k := Find(a, '\n');
      assert (a + b)[..k] == a[..k] && (a + b)[k + 1..] == a[k + 1..] + b;
      LinesResume(a[k + 1..], b);
      LineStep(a);
      LineStep(a + b);
      hide Lines, Remainder, Strip, Find;
    } else {
      NoFeed(a);
    }
  }

  lemma LineStep(s: string)
    requires Find(s, '\n') < |s|
    ensures var k := Find(s, '\n');
            Lines(s) == [Strip(s[..k])] + Lines(s[k + 1..]) && Remainder(s) == Remainder(s[k + 1..])
  {
  }

  // ---------------------------------------------------------------- the lines, byte by byte

  /** How many line feeds there are. */
  function Feeds(s: string): nat {
    if s == "" then 0 else (if s[0] == '\n' then 1 else 0) + Feeds(s[1..])
  }

  /** s[i..j] stands between a line feed, or the beginning, and the next line feed, which ends line number k. */
  ghost predicate LineSpan(s: string, k: nat, i: nat, j: nat) {
    && i <= j < |s| && s[j] == '\n' && '\n' !in s[i..j]
    && (i > 0 ==> s[i - 1] == '\n')
    && Feeds(s[..i]) == k
  }

  /** The bytes of the span, without a carriage return in front of the line feed. */
  function WithoutReturn(s: string, i: nat, j: nat): string
    requires i <= j <= |s|
  {
    if i < j && s[j - 1] == '\r' then s[i..j - 1] else s[i..j]
  }

  lemma {:induction false} FeedsConcat(a: string, b: string)
    ensures Feeds(a + b) == Feeds(a) + Feeds(b)
    decreases |a|
  {
    if a == "" {
      assert a + b == b;
    } else {
      assert (a + b)[1..] == a[1..] + b;
      FeedsConcat(a[1..], b);
    }
  }

  lemma {:induction false} NoFeeds(s: string)
    requires '\n' !in s
    ensures Feeds(s) == 0
    decreases |s|
  {
    if s != "" {
      NoFeeds(s[1..]);
    }
  }

  lemma FeedFirst(t: string)
    ensures Feeds("\n" + t) == 1 + Feeds(t)
  {
    assert ("\n" + t)[1..] == t;
  }

  lemma SplitAtFeed(s: string, k: nat, n: nat)
    requires k < n <= |s| && s[k] == '\n'
    ensures s[..n] == s[..k] + ("\n" + s[k + 1..][..n - k - 1])
  {
  }

  lemma FeedsPast(s: string, k: nat, n: nat)
    requires k < n <= |s| && s[k] == '\n' && '\n' !in s[..k]
    ensures Feeds(s[..n]) == 1 + Feeds(s[k + 1..][..n - k - 1])
  {
    hide Feeds;
    SplitAtFeed(s, k, n);
    NoFeeds(s[..k]);
    FeedsConcat(s[..k], "\n" + s[k + 1..][..n - k - 1]);
    FeedFirst(s[k + 1..][..n - k - 1]);
  }

  /** There are as many lines as line feeds. */
  lemma {:induction false} LinesPerFeed(s: string)
    ensures |Lines(s)| == Feeds(s)
    decreases |s|
  {
    var k := Find(s, '\n');
    assert s[..|s|] == s;
    if k == |s| {
      NoFeeds(s);
    } else {
      LinesPerFeed(s[k + 1..]);
      FeedsPast(s, k, |s|);
      assert s[k + 1..][..|s| - k - 1] == s[k + 1..];
    }
  }

  /** Line number k is the text between its line feeds, a carriage return at its end taken off. */
  lemma {:induction false} LineIsSpan(s: string, k: nat) returns (i: nat, j: nat)
    requires k < |Lines(s)|
    ensures i <= j <= |s| && LineSpan(s, k, i, j) && Lines(s)[k] == WithoutReturn(s, i, j)
    decreases |s|
  {
    hide Lines, Feeds, Strip, WithoutReturn, LineSpan, Find;
    var f := Find(s, '\n');
    SomeLine(s, k);
    LineNumber(s, k);
    if k == 0 {
      i, j := 0, f;
      FirstSpan(s);
    } else {
      i, j := LineIsSpan(s[f + 1..], k - 1);
      LaterSpan(s, f, k, i, j);
      i, j := f + 1 + i, f + 1 + j;
    }
  }

  lemma LineNumber(s: string, k: nat)
    requires k < |Lines(s)| && Find(s, '\n') < |s|
    ensures var f := Find(s, '\n');
            if k == 0 then Lines(s)[k] == Strip(s[..f])
            else k - 1 < |Lines(s[f + 1..])| && Lines(s)[k] == Lines(s[f + 1..])[k - 1]
  {
    hide Lines, Find, Strip, Remainder;
    LineStep(s);
    var f := Find(s, '\n');
    FirstAndRest(Strip(s[..f]), Lines(s[f + 1..]), k);
  }

  lemma FirstAndRest(first: string, rest: seq<string>, k: nat)
    requires k < |[first] + rest|
    ensures if k == 0 then ([first] + rest)[k] == first else k - 1 < |rest| && ([first] + rest)[k] == rest[k - 1]
  {
  }

  lemma LaterSpan(s: string, f: nat, k: nat, i: nat, j: nat)
    requires f < |s| && s[f] == '\n' && '\n' !in s[..f] && k > 0
    requires i <= j <= |s| - f - 1 && LineSpan(s[f + 1..], k - 1, i, j)
    ensures f + 1 + i <= f + 1 + j <= |s| && LineSpan(s, k, f + 1 + i, f + 1 + j)
    ensures WithoutReturn(s, f + 1 + i, f + 1 + j) == WithoutReturn(s[f + 1..], i, j)
  {
    hide Feeds, WithoutReturn;
    SpanShift(s, f + 1, k, i, j);
    FeedsPast(s, f, f + 1 + i);
  }

  lemma SomeLine(s: string, k: nat)
    requires k < |Lines(s)|
    ensures Find(s, '\n') < |s|
  {
  }

  lemma FirstSpan(s: string)
    requires Find(s, '\n') < |s|
    ensures LineSpan(s, 0, 0, Find(s, '\n')) && Strip(s[..Find(s, '\n')]) == WithoutReturn(s, 0, Find(s, '\n'))
  {
    var f := Find(s, '\n');
    assert s[0..f] == s[..f] && s[..0] == "";
    if f > 0 {
      assert s[..f][..f - 1] == s[0..f - 1];
    }
  }

  lemma SpanShift(s: string, n: nat, k: nat, i: nat, j: nat)
    requires 0 < n <= |s| && s[n - 1] == '\n' && k > 0 && LineSpan(s[n..], k - 1, i, j)
    ensures n + j < |s| && s[n + j] == '\n' && s[n + i..n + j] == s[n..][i..j] && s[n + i - 1] == '\n'
    ensures WithoutReturn(s[n..], i, j) == WithoutReturn(s, n + i, n + j)
  {
    assert s[n + i..n + j] == s[n..][i..j];
    if i < j {
      assert s[n + i..n + j - 1] == s[n..][i..j - 1];
    }
  }

  // ---------------------------------------------------------------- the in-place loop

  /** Delivers every complete line and moves what is left to the front of the buffer. */
  method LineParserFeed(buffer: array<char>, initialLength: nat) returns (length: nat, lines: seq<string>)
    requires initialLength <= buffer.Length
    modifies buffer
    ensures length <= initialLength
    ensures lines == Lines(old(buffer[..initialLength]))
    ensures buffer[..length] == Remainder(old(buffer[..initialLength]))
  {
    hide Lines, Remainder, Find;
    ghost var stream := buffer[..initialLength];
    length := initialLength;
    lines := [];
    while length > 0
      invariant length <= initialLength
      invariant lines + Lines(buffer[..length]) == Lines(stream)
      invariant Remainder(buffer[..length]) == Remainder(stream)
    {
      var newline := MemChr(buffer, length);
      ghost var before := buffer[..length];
      if newline == length {
        NoFeed(before);
        return;
      }
      LineStep(before);
      var lineLength := newline;
      if lineLength > 0 && buffer[lineLength - 1] == '\r' {
        lineLength := lineLength - 1;
      }
      assert before[..newline] == buffer[..newline];
      assert buffer[..lineLength] == Strip(before[..newline]);
      hide Strip;
      ghost var rest := Lines(before[newline + 1..]);
      assert lines + ([buffer[..lineLength]] + rest) == lines + [buffer[..lineLength]] + rest;
      lines := lines + [buffer[..lineLength]];
      var consumed := newline + 1;
      MemMove(buffer, consumed, length - consumed);
      length := length - consumed;
      assert buffer[..length] == before[newline + 1..];
    }
    NoFeed(buffer[..length]);
  }

  /** memchr(buffer, '\n', length), with length when there is none. */
  method MemChr(buffer: array<char>, length: nat) returns (i: nat)
    requires length <= buffer.Length
    ensures i == Find(buffer[..length], '\n')
  {
    i := 0;
    while i < length && buffer[i] != '\n'
      invariant i <= length && '\n' !in buffer[..i]
    {
      i := i + 1;
    }
    assert buffer[..length][..i] == buffer[..i];
    FindUnique(buffer[..length], '\n', i);
  }

  /** memmove(buffer, buffer + from, count). */
  method MemMove(buffer: array<char>, from: nat, count: nat)
    requires from + count <= buffer.Length
    modifies buffer
    ensures buffer[..count] == old(buffer[from..from + count])
  {
    for i := 0 to count
      invariant forall k :: 0 <= k < i ==> buffer[k] == old(buffer[from + k])
      invariant forall k :: i <= k < buffer.Length ==> buffer[k] == old(buffer[k])
    {
      buffer[i] := buffer[from + i];
    }
  }

  // ---------------------------------------------------------------- receive buffers

  /** What one read leaves in the buffer and delivers; a read that does not fit empties the buffer. */
  function Receive(capacity: nat, rest: string, chunk: string): (r: (string, seq<string>)) {
    if |rest| + |chunk| > capacity then ("", [])
    else (Remainder(rest + chunk), Lines(rest + chunk))
  }

  function ReceiveAll(capacity: nat, rest: string, chunks: seq<string>): (r: (string, seq<string>))
    decreases |chunks|
  {
    if chunks == [] then (rest, []) else
      var (next, lines) := Receive(capacity, rest, chunks[0]);
      var (last, more) := ReceiveAll(capacity, next, chunks[1..]);
      (last, lines + more)
  }

  /** The buffer of a connection, as server_link_worker and wifi_client_worker keep it. */
  class LineReceiver {
    const buffer: array<char>
    var length: nat

    ghost predicate Valid()
      reads this
    {
      length <= buffer.Length
    }

    ghost function Rest(): string
      reads this, buffer
      requires Valid()
    {
      buffer[..length]
    }

    constructor (capacity: nat)
      ensures Valid() && fresh(buffer) && buffer.Length == capacity && Rest() == ""
    {
      buffer := new char[capacity](_ => '\0');
      length := 0;
    }

    method OnRead(chunk: string) returns (lines: seq<string>)
      requires Valid()
      modifies this, buffer
      ensures Valid()
      ensures (Rest(), lines) == Receive(buffer.Length, old(Rest()), chunk)
    {
      if length + |chunk| > buffer.Length {
        length := 0;
        return [];
      }
      for i := 0 to |chunk|
        invariant length == old(length)
        invariant buffer[..length] == old(buffer[..length])
        invariant forall k :: 0 <= k < i ==> buffer[length + k] == chunk[k]
      {
        buffer[length + i] := chunk[i];
      }
      assert buffer[..length + |chunk|] == old(Rest()) + chunk;
      length, lines := LineParserFeed(buffer, length + |chunk|);
    }

    /** A new connection starts with an empty buffer. */
    method Clear()
      modifies this
      ensures Valid() && Rest() == ""
    {
      length := 0;
    }
  }

  /** No line, finished or not, has more than limit bytes before its line feed. */
  predicate ShortLines(s: string, limit: nat)
    decreases |s|
  {
    var k := Find(s, '\n');
    k <= limit && (k == |s| || ShortLines(s[k + 1..], limit))
  }

  lemma {:induction false} ShortLinesResume(a: string, b: string, limit: nat)
    requires ShortLines(a + b, limit)
    ensures |Remainder(a)| <= limit && ShortLines(Remainder(a) + b, limit)
    decreases |a|
  {
    if '\n' in a {
      FindBeyond(a, b);
      var k := Find(a, '\n');
      assert (a + b)[k + 1..] == a[k + 1..] + b;
      ShortLinesResume(a[k + 1..], b, limit);
    } else {
      NoFeed(a);
      var k := Find(a + b, '\n');
      assert forall i :: 0 <= i < |a| ==> (a + b)[i] == a[i];
      assert |a| <= k;
    }
  }

  /** Short enough lines never overflow the buffer and arrive whole, whatever the sizes of the reads. */
  lemma {:induction false} ShortLinesArrive(capacity: nat, readSize: nat, rest: string, chunks: seq<string>)
    requires readSize <= capacity && '\n' !in rest
    requires forall i :: 0 <= i < |chunks| ==> |chunks[i]| <= readSize
    requires ShortLines(rest + Joined(chunks), capacity - readSize)
    ensures ReceiveAll(capacity, rest, chunks) == (Remainder(rest + Joined(chunks)), Lines(rest + Joined(chunks)))
    decreases |chunks|
  {
    hide Lines, Remainder, ShortLines;
    if chunks == [] {
      assert rest + "" == rest;
      NoFeed(rest);
    } else {
      var chunk, later := chunks[0], Joined(chunks[1..]);
      assert rest + Joined(chunks) == rest + chunk + later;
      assert rest + Joined(chunks) == rest + (chunk + later);
      ShortLinesResume(rest, chunk + later, capacity - readSize);
      NoFeed(rest);
      ShortLinesResume(rest + chunk, later, capacity - readSize);
      LinesResume(rest + chunk, later);
      ShortLinesArrive(capacity, readSize, Remainder(rest + chunk), chunks[1..]);
    }
  }

  /** The gateway's own numbers: 1024 byte buffers, reads of at most 256 bytes, lines of at most 769. */
  lemma GatewayLinesArrive(chunks: seq<string>)
    requires forall i :: 0 <= i < |chunks| ==> |chunks[i]| <= 256
    requires ShortLines(Joined(chunks), 768)
    ensures ReceiveAll(1024, "", chunks) == (Remainder(Joined(chunks)), Lines(Joined(chunks)))
  {
    assert "" + Joined(chunks) == Joined(chunks);
    ShortLinesArrive(1024, 256, "", chunks);
  }

  /** The bound is exact: one byte more and a full read loses the line and everything read with it. */
  lemma LongerLineIsLost(body: string, chunk: string)
    requires |body| == 769 && '\n' !in body && |chunk| == 256 && chunk[0] == '\n'
    ensures Receive(1024, body, chunk) == ("", [])
    ensures Lines(body + chunk) != [] && Lines(body + chunk)[0] == Strip(body)
  {
    assert (body + chunk)[..769] == body;
    FindUnique(body + chunk, '\n', 769);
  }

  // ---------------------------------------------------------------- exactly which lines are safe

  ghost predicate Reads(chunks: seq<string>, readSize: nat) {
    forall i :: 0 <= i < |chunks| ==> |chunks[i]| <= readSize
  }

  /** Whatever the sizes of the reads and whatever beginning of a next line they bring along, the line is delivered. */
  ghost predicate AlwaysArrives(capacity: nat, readSize: nat, body: string) {
    forall chunks, tail :: Reads(chunks, readSize) && '\n' !in tail && |tail| < readSize && Joined(chunks) == body + "\n" + tail ==>
      ReceiveAll(capacity, "", chunks).1 == [Strip(body)]
  }

  lemma OneLine(body: string, tail: string, limit: nat)
    requires '\n' !in body && '\n' !in tail
    ensures Lines(body + "\n" + tail) == [Strip(body)]
    ensures |body| <= limit && |tail| <= limit ==> ShortLines(body + "\n" + tail, limit)
  {
    var s := body + "\n" + tail;
    assert s[..|body|] == body && s[|body| + 1..] == tail;
    FindUnique(s, '\n', |body|);
    NoFeed(tail);
  }

  /** A carriage return in front of the line feed is not part of the line; any other one is. */
  lemma ReturnIsTaken(body: string)
    requires '\n' !in body
    ensures Lines(body + "\r\n") == [body]
    ensures !(body != "" && body[|body| - 1] == '\r') ==> Lines(body + "\n") == [body]
  {
    hide Lines, ShortLines;
    OneLine(body + "\r", "", 0);
    OneLine(body, "", 0);
    assert body + "\r" + "\n" + "" == body + "\r\n" && body + "\n" + "" == body + "\n";
    assert (body + "\r")[..|body|] == body;
  }

  /** Reads of one byte each. */
  function Bytewise(s: string): (chunks: seq<string>) {
    if s == "" then [] else [[s[0]]] + Bytewise(s[1..])
  }

  lemma {:induction false} BytewiseReads(s: string, last: string, readSize: nat)
    requires 1 <= readSize && |last| <= readSize
    ensures Reads(Bytewise(s) + [last], readSize) && Joined(Bytewise(s) + [last]) == s + last
    decreases |s|
  {
    if s == "" {
      JoinedFirst(last, []);
      assert Bytewise(s) + [last] == [last] + [] && last + "" == s + last;
    } else {
      BytewiseReads(s[1..], last, readSize);
      var rest := Bytewise(s[1..]) + [last];
      assert Bytewise(s) + [last] == [[s[0]]] + rest;
      hide Bytewise, Joined;
      JoinedFirst([s[0]], rest);
      assert [s[0]] + (s[1..] + last) == s + last;
    }
  }

  lemma JoinedFirst(first: string, rest: seq<string>)
    ensures Joined([first] + rest) == first + Joined(rest)
  {
    assert ([first] + rest)[1..] == rest;
  }

  /** Bytes of an unfinished line pile up in the buffer as long as they fit. */
  lemma {:induction false} BytewiseFills(capacity: nat, rest: string, s: string, last: string)
    requires '\n' !in rest && '\n' !in s && |rest| + |s| <= capacity
    ensures ReceiveAll(capacity, rest, Bytewise(s) + [last]).1 == Receive(capacity, rest + s, last).1
    decreases |s|
  {
    hide Receive, Lines, Remainder;
    if s == "" {
      assert Bytewise(s) + [last] == [last] && rest + s == rest && [last][1..] == [];
      assert ReceiveAll(capacity, Receive(capacity, rest, last).0, []).1 == [];
    } else {
      var all, chunk := Bytewise(s) + [last], [s[0]];
      assert all[0] == chunk && all[1..] == Bytewise(s[1..]) + [last];
      UnfinishedByte(capacity, rest, s[0]);
      hide Bytewise;
      BytewiseFills(capacity, rest + chunk, s[1..], last);
      assert rest + chunk + s[1..] == rest + s;
      var tail := ReceiveAll(capacity, rest + chunk, all[1..]);
      assert [] + tail.1 == tail.1;
    }
  }

  lemma UnfinishedByte(capacity: nat, rest: string, byte: char)
    requires '\n' !in rest && byte != '\n' && |rest| < capacity
    ensures Receive(capacity, rest, [byte]) == (rest + [byte], [])
  {
    NoFeed(rest + [byte]);
  }

  lemma {:induction false} LinesAreShorter(s: string, k: nat)
    requires k < |Lines(s)|
    ensures |Lines(s)[k]| < |s|
    decreases |s|
  {
    if k > 0 {
      LinesAreShorter(s[Find(s, '\n') + 1..], k - 1);
    }
  }

  /** No line as long as the buffer is ever delivered. */
  lemma {:induction false} DeliveredAreShort(capacity: nat, rest: string, chunks: seq<string>, k: nat)
    requires k < |ReceiveAll(capacity, rest, chunks).1|
    ensures |ReceiveAll(capacity, rest, chunks).1[k]| < capacity
    decreases |chunks|
  {
    hide Lines;
    var (next, lines) := Receive(capacity, rest, chunks[0]);
    if k < |lines| {
      LinesAreShorter(rest + chunks[0], k);
    } else {
      DeliveredAreShort(capacity, next, chunks[1..], k - |lines|);
    }
  }

  lemma LongLineFails(capacity: nat, readSize: nat, body: string)
    requires '\n' !in body && 1 <= readSize && 2 * readSize <= capacity && |body| + readSize > capacity
    ensures !AlwaysArrives(capacity, readSize, body)
  {
    var tail := seq(readSize - 1, _ => 'x');
    var last := "\n" + tail;
    var chunks := Bytewise(body) + [last];
    BytewiseReads(body, last, readSize);
    assert body + last == body + "\n" + tail;
    if |body| <= capacity {
      BytewiseFills(capacity, "", body, last);
      assert "" + body == body;
      assert ReceiveAll(capacity, "", chunks).1 == [];
    } else if |ReceiveAll(capacity, "", chunks).1| > 0 {
      DeliveredAreShort(capacity, "", chunks, 0);
    }
    hide ReceiveAll, Bytewise, Joined;
  }

  /** A line survives every way of reading it if and only if it leaves room for one more full read. */
  lemma AlwaysArrivesIff(capacity: nat, readSize: nat, body: string)
    requires '\n' !in body && 1 <= readSize && 2 * readSize <= capacity
    ensures AlwaysArrives(capacity, readSize, body) <==> |body| + readSize <= capacity
  {
    if |body| + readSize <= capacity {
      forall chunks, tail | Reads(chunks, readSize) && '\n' !in tail && |tail| < readSize && Joined(chunks) == body + "\n" + tail
        ensures ReceiveAll(capacity, "", chunks).1 == [Strip(body)]
      {
        OneLine(body, tail, capacity - readSize);
        assert "" + Joined(chunks) == Joined(chunks);
        hide Lines, ShortLines, ReceiveAll;
        ShortLinesArrive(capacity, readSize, "", chunks);
      }
    } else {
      LongLineFails(capacity, readSize, body);
    }
  }
}
