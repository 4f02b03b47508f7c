/** Decoding a container's log: internal/adapters/docker/logs.go. The framed form is the
    "Stream format" of ContainerAttach in the Docker Engine API. */
module Logs {
  import opened Domain

  type Byte = b: int | 0 <= b < 256

  const NEWLINE: Byte := 10
  const SPACE: Byte := 32
  const HEADER_SIZE: nat := 8

  datatype LogStream = Stdout | Stderr

  /** The time of a line that carried no timestamp. */
  const ZERO_TIME: int := 0

  datatype LogLine = LogLine(at: int, stream: LogStream, text: seq<Byte>)

  /** How a reader runs out: at the end of the stream, or by failing. */
  datatype End = Eof | Broken(error: string)

  datatype Decoded = Decoded(lines: seq<LogLine>, error: Option<string>)

  /** Parsing of an RFC 3339 timestamp. */
  type Parser = seq<Byte> -> Option<int>

  // ----- lines -------------------------------------------------------------------------

  function StreamOf(kind: Byte): LogStream {
    if kind == 2 then Stderr else Stdout
  }

  /** The part of a line in front of its first space, and the part after it. */
  function Cut(line: seq<Byte>): Option<(seq<Byte>, seq<Byte>)> {
    if line == [] then None
    else if line[0] == SPACE then Some(([], line[1..]))
    else
      match Cut(line[1..])
      case None => None
      case Some((before, after)) => Some(([line[0]] + before, after))
  }

  /** A line without a timestamp in front is kept whole. */
  function SplitTimestamp(line: seq<Byte>, parse: Parser): (int, seq<Byte>) {
    match Cut(line)
    case None => (ZERO_TIME, line)
    case Some((stamp, rest)) =>
      match parse(stamp)
      case None => (ZERO_TIME, line)
      case Some(at) => (at, rest)
  }

  lemma {:induction false} CutAtFirstSpace(stamp: seq<Byte>, rest: seq<Byte>)
    requires SPACE !in stamp
    ensures Cut(stamp) == None && Cut(stamp + [SPACE] + rest) == Some((stamp, rest))
  {
    var line := stamp + [SPACE] + rest;
    if stamp == [] {
      assert line[0] == SPACE && line[1..] == rest;
    } else {
      CutAtFirstSpace(stamp[1..], rest);
      assert line[1..] == stamp[1..] + [SPACE] + rest;
      assert [stamp[0]] + stamp[1..] == stamp;
    }
  }

  /** A timestamp in front of a line is taken off; anything else is kept whole, with no time. */
  lemma TimestampIsTakenOff(stamp: seq<Byte>, text: seq<Byte>, parse: Parser)
    requires 32 !in stamp
    ensures var line := stamp + [32] + text;
            SplitTimestamp(line, parse) == if parse(stamp).Some? then (parse(stamp).value, text) else (ZERO_TIME, line)
    ensures SplitTimestamp(stamp, parse) == (ZERO_TIME, stamp)
  {
    CutAtFirstSpace(stamp, text);
  }

  /** `strings.Split` at newlines: always at least one part. */
  function Split(s: seq<Byte>): (parts: seq<seq<Byte>>)
    ensures parts != []
  {
    if s == [] then [[]]
    else
      var rest := Split(s[1..]);
      if s[0] == NEWLINE then [[]] + rest else [[s[0]] + rest[0]] + rest[1..]
  }

  function TrimNewline(payload: seq<Byte>): seq<Byte> {
    if payload != [] && payload[|payload| - 1] == NEWLINE then payload[..|payload| - 1] else payload
  }

  /** The lines of a payload before timestamps are taken off. */
  function RawLines(payload: seq<Byte>): seq<seq<Byte>> {
    var trimmed := TrimNewline(payload);
    if trimmed == [] then [] else Split(trimmed)
  }

  function Stamp(raw: seq<seq<Byte>>, stream: LogStream, parse: Parser): (lines: seq<LogLine>)
    ensures |lines| == |raw|
  {
    if raw == [] then []
    else
      var (at, text) := SplitTimestamp(raw[|raw| - 1], parse);
      Stamp(raw[..|raw| - 1], stream, parse) + [LogLine(at, stream, text)]
  }

  function LinesOf(payload: seq<Byte>, stream: LogStream, parse: Parser): seq<LogLine> {
    Stamp(RawLines(payload), stream, parse)
  }

  method SplitLines(payload: seq<Byte>, stream: LogStream, parse: Parser) returns (lines: seq<LogLine>)
    ensures lines == LinesOf(payload, stream, parse)
  {
    var trimmed := TrimNewline(payload);
    if trimmed == [] {
      return [];
    }
    var parts := Split(trimmed);
    lines := [];
    for i := 0 to |parts|
      invariant lines == Stamp(parts[..i], stream, parse)
    {
      var (at, text) := SplitTimestamp(parts[i], parse);
      lines := lines + [LogLine(at, stream, text)];
      assert parts[..i + 1][..i] == parts[..i];
    }
    assert parts[..|parts|] == parts;
  }

  method ReadTTYLog(bytes: seq<Byte>, end: End, parse: Parser) returns (decoded: Decoded)
    ensures decoded == (match end
                        case Eof => Decoded(LinesOf(bytes, Stdout, parse), None)
                        case Broken(error) => Decoded([], Some(error)))
  {
    match end
    case Broken(error) =>
      decoded := Decoded([], Some(error));
    case Eof =>
      var lines := SplitLines(bytes, Stdout, parse);
      decoded := Decoded(lines, None);
  }

  // ----- frames ------------------------------------------------------------------------

  function ReadUint32(b: seq<Byte>): nat
    requires |b| == 4
  {
    var n: int := b[0];
    ((n * 0x100 + b[1]) * 0x100 + b[2]) * 0x100 + b[3]
  }

  /** What a reader of `bytes` that then ends so makes of them. */
  function Decode(bytes: seq<Byte>, end: End, parse: Parser): Decoded {
    if |bytes| < HEADER_SIZE then
      match end
      case Eof => Decoded([], None)
      case Broken(error) => Decoded([], Some(error))
    else
      var size := ReadUint32(bytes[4..HEADER_SIZE]);
      var rest := bytes[HEADER_SIZE..];
      if size == 0 then Decode(rest, end, parse)
      else if |rest| < size then
        match end
        case Eof => Decoded(LinesOf(rest, StreamOf(bytes[0]), parse), None)
        case Broken(error) => Decoded([], Some(error))
      else
        var after := Decode(rest[size..], end, parse);
        Decoded(LinesOf(rest[..size], StreamOf(bytes[0]), parse) + after.lines, after.error)
  }

  /** One turn of the loop: a frame that is there whole, or the end of the bytes within one. */
  lemma {:induction false} DecodeTurn(bytes: seq<Byte>, size: nat, rest: seq<Byte>, end: End, parse: Parser)
    requires |bytes| >= HEADER_SIZE && size == ReadUint32(bytes[4..HEADER_SIZE]) && rest == bytes[HEADER_SIZE..]
    ensures Decode(bytes, end, parse)
            == if size == 0 then Decode(rest, end, parse)
               else if |rest| < size then
                 (match end
                  case Eof => Decoded(LinesOf(rest, StreamOf(bytes[0]), parse), None)
                  case Broken(error) => Decoded([], Some(error)))
               else
                 var after := Decode(rest[size..], end, parse);
                 Decoded(LinesOf(rest[..size], StreamOf(bytes[0]), parse) + after.lines, after.error)
  {
  }

  /** The lines there were, with those that are still to be decoded. */
  function Joined(lines: seq<LogLine>, after: Decoded): Decoded {
    Decoded(lines + after.lines, after.error)
  }

  lemma JoinedTwice(a: seq<LogLine>, b: seq<LogLine>, after: Decoded)
    ensures Joined(a, Joined(b, after)) == Joined(a + b, after)
    ensures Joined(a, Decoded([], after.error)) == Decoded(a, after.error)
  {
    assert a + (b + after.lines) == a + b + after.lines;
    assert a + [] == a;
  }

  method ReadMultiplexedLog(bytes: seq<Byte>, end: End, parse: Parser) returns (decoded: Decoded)
    ensures decoded == Decode(bytes, end, parse)
  {
    var lines: seq<LogLine> := [];
    var unread := bytes;
    assert Joined([], Decode(bytes, end, parse)) == Decode(bytes, end, parse);
    while true
      invariant Decode(bytes, end, parse) == Joined(lines, Decode(unread, end, parse))
      decreases |unread|
    {
      if |unread| < HEADER_SIZE {
        JoinedTwice(lines, [], Decode(unread, end, parse));
        match end
        case Eof => return Decoded(lines, None);
        case Broken(error) => return Decoded(lines, Some(error));
      }
      var header := unread[..HEADER_SIZE];
      assert unread[4..HEADER_SIZE] == header[4..];
      var size := ReadUint32(header[4..]);
      DecodeTurn(unread, size, unread[HEADER_SIZE..], end, parse);
      unread := unread[HEADER_SIZE..];
      if size == 0 {
        continue;
      }
      if |unread| < size {
        match end
        case Eof =>
          var arrived := SplitLines(unread, StreamOf(header[0]), parse);
          return Decoded(lines + arrived, None);
        case Broken(error) =>
          JoinedTwice(lines, [], Decoded([], Some(error)));
          return Decoded(lines, Some(error));
      }
      var payload := SplitLines(unread[..size], StreamOf(header[0]), parse);
      unread := unread[size..];
      JoinedTwice(lines, payload, Decode(unread, end, parse));
      lines := lines + payload;
    }
  }

  // ----- round trip and truncation -----------------------------------------------------

  /** One frame as the runtime sends it: a length fits in four bytes. */
  datatype LogFrame = LogFrame(kind: Byte, payload: seq<Byte>)

  predicate Sendable(f: LogFrame) {
    |f.payload| < 0x1_0000_0000
  }

  function WriteUint32(n: nat): seq<Byte>
    requires n < 0x1_0000_0000
  {
    [n / 0x1000000, n / 0x10000 % 0x100, n / 0x100 % 0x100, n % 0x100]
  }

  lemma Uint32RoundTrip(n: nat)
    requires n < 0x1_0000_0000
    ensures ReadUint32(WriteUint32(n)) == n
  {
  }

  function Encode(f: LogFrame): (bytes: seq<Byte>)
    requires Sendable(f)
    ensures |bytes| == HEADER_SIZE + |f.payload|
  {
    [f.kind, 0, 0, 0] + WriteUint32(|f.payload|) + f.payload
  }

  function EncodeAll(frames: seq<LogFrame>): seq<Byte>
    requires forall f :: f in frames ==> Sendable(f)
  {
    if frames == [] then [] else Encode(frames[0]) + EncodeAll(frames[1..])
  }

  /** What a frame carries: the lines of its payload, on stderr if its first byte is 2, and on stdout
      whatever else it is. */
  function LinesIn(kind: Byte, payload: seq<Byte>, parse: Parser): seq<LogLine> {
    LinesOf(payload, if kind == 2 then Stderr else Stdout, parse)
  }

  /** The lines of the frames that arrived whole within `count` bytes and, if the stream just
      ended there, of exactly those payload bytes of the next frame that arrived. */
  function Arrived(frames: seq<LogFrame>, count: nat, end: End, parse: Parser): seq<LogLine> {
    if frames == [] then []
    else
      var f := frames[0];
      if count >= HEADER_SIZE + |f.payload| then
        LinesIn(f.kind, f.payload, parse)
        + Arrived(frames[1..], count - HEADER_SIZE - |f.payload|, end, parse)
      else if count >= HEADER_SIZE && end.Eof? then
        LinesIn(f.kind, f.payload[..count - HEADER_SIZE], parse)
      else []
  }

  lemma EncodedParts(f: LogFrame)
    requires Sendable(f)
    ensures var bytes := Encode(f);
            && |bytes| == HEADER_SIZE + |f.payload| && bytes[0] == f.kind
            && ReadUint32(bytes[4..HEADER_SIZE]) == |f.payload| && bytes[HEADER_SIZE..] == f.payload
  {
    Uint32RoundTrip(|f.payload|);
    assert Encode(f)[4..HEADER_SIZE] == WriteUint32(|f.payload|);
  }

  lemma {:induction false} DecodeWholeFrame(f: LogFrame, rest: seq<Byte>, bytes: seq<Byte>, end: End, parse: Parser)
    requires Sendable(f) && bytes == Encode(f) + rest
    ensures var after := Decode(rest, end, parse);
            Decode(bytes, end, parse)
            == Decoded(LinesIn(f.kind, f.payload, parse) + after.lines, after.error)
  {
    EncodedParts(f);
    assert bytes[4..HEADER_SIZE] == Encode(f)[4..HEADER_SIZE];
    assert bytes[HEADER_SIZE..] == f.payload + rest;
    if f.payload == [] {
      assert f.payload + rest == rest;
    } else {
      assert (f.payload + rest)[..|f.payload|] == f.payload && (f.payload + rest)[|f.payload|..] == rest;
    }
  }

  lemma {:induction false} DecodeCutFrame(f: LogFrame, count: nat, bytes: seq<Byte>, end: End, parse: Parser)
    requires Sendable(f) && count < HEADER_SIZE + |f.payload| && bytes == Encode(f)[..count]
    ensures Decode(bytes, end, parse).lines
            == if count >= HEADER_SIZE && end.Eof?
               then LinesIn(f.kind, f.payload[..count - HEADER_SIZE], parse) else []
  {
    EncodedParts(f);
    if count >= HEADER_SIZE {
      assert bytes[4..HEADER_SIZE] == Encode(f)[4..HEADER_SIZE];
      assert bytes[HEADER_SIZE..] == f.payload[..count - HEADER_SIZE];
    }
  }

  lemma TakeFromConcat(a: seq<Byte>, b: seq<Byte>, count: nat)
    requires count <= |a + b|
    ensures (a + b)[..count] == if count >= |a| then a + b[..count - |a|] else a[..count]
  {
  }

  lemma {:induction false} TruncatedLines(frames: seq<LogFrame>, count: nat, end: End, parse: Parser)
    requires forall f :: f in frames ==> Sendable(f)
    requires count <= |EncodeAll(frames)|
    ensures Decode(EncodeAll(frames)[..count], end, parse).lines == Arrived(frames, count, end, parse)
  {
    if frames != [] {
      var f, tail := frames[0], EncodeAll(frames[1..]);
      var n := HEADER_SIZE + |f.payload|;
      TakeFromConcat(Encode(f), tail, count);
      if count >= n {
        TruncatedLines(frames[1..], count - n, end, parse);
        DecodeWholeFrame(f, tail[..count - n], EncodeAll(frames)[..count], end, parse);
      } else {
        DecodeCutFrame(f, count, EncodeAll(frames)[..count], end, parse);
      }
    }
  }

  /** Cut the bytes of any frames anywhere, and end or break there: what is decoded is what had
      arrived, and the error, if any, is the reader's. */
  lemma {:induction false} TruncatedLog(frames: seq<LogFrame>, count: nat, end: End, parse: Parser)
    requires forall f :: f in frames ==> Sendable(f)
    requires count <= |EncodeAll(frames)|
    ensures Decode(EncodeAll(frames)[..count], end, parse)
            == Decoded(Arrived(frames, count, end, parse), if end.Broken? then Some(end.error) else None)
  {
    TruncatedLines(frames, count, end, parse);
    DecodeReportsEnd(EncodeAll(frames)[..count], end, parse);
  }

  lemma {:induction false} DecodeReportsEnd(bytes: seq<Byte>, end: End, parse: Parser)
    ensures Decode(bytes, end, parse).error == if end.Broken? then Some(end.error) else None
    decreases |bytes|
  {
    if |bytes| >= HEADER_SIZE {
      var size := ReadUint32(bytes[4..HEADER_SIZE]);
      var rest := bytes[HEADER_SIZE..];
      if size <= |rest| {
        DecodeReportsEnd(rest[size..], end, parse);
        assert rest[0..] == rest;
      }
    }
  }

  function FrameLines(frames: seq<LogFrame>, parse: Parser): seq<LogLine> {
    if frames == [] then []
    else LinesIn(frames[0].kind, frames[0].payload, parse) + FrameLines(frames[1..], parse)
  }

  /** Decoding inverts framing: each payload's lines, with its stream, in order. */
  lemma {:induction false} FramedLogRoundTrip(frames: seq<LogFrame>, parse: Parser)
    requires forall f :: f in frames ==> Sendable(f)
    ensures Decode(EncodeAll(frames), Eof, parse) == Decoded(FrameLines(frames, parse), None)
  {
    if frames != [] {
      FramedLogRoundTrip(frames[1..], parse);
      DecodeWholeFrame(frames[0], EncodeAll(frames[1..]), EncodeAll(frames), Eof, parse);
    }
  }

  // ----- splitting inverts joining -------------------------------------------------------

  /** Lines, each ended by a newline. */
  function Unlines(lines: seq<seq<Byte>>): seq<Byte> {
    if lines == [] then [] else lines[0] + [10] + Unlines(lines[1..])
  }

  predicate NewlineFree(lines: seq<seq<Byte>>) {
    forall i :: 0 <= i < |lines| ==> 10 !in lines[i]
  }

  lemma {:induction false} SplitFirst(line: seq<Byte>, rest: seq<Byte>)
    requires NEWLINE !in line
    ensures Split(line) == [line]
    ensures Split(line + [NEWLINE] + rest) == [line] + Split(rest)
  {
    var whole := line + [NEWLINE] + rest;
    if line == [] {
      assert whole[0] == NEWLINE && whole[1..] == rest;
    } else {
      SplitFirst(line[1..], rest);
      assert whole[1..] == line[1..] + [NEWLINE] + rest;
      assert [line[0]] + line[1..] == line;
    }
  }

  lemma {:induction false} UnlinesEnds(lines: seq<seq<Byte>>)
    requires lines != []
    ensures Unlines(lines) != [] && Unlines(lines)[|Unlines(lines)| - 1] == NEWLINE
  {
    if |lines| > 1 {
      UnlinesEnds(lines[1..]);
    } else {
      assert Unlines(lines[1..]) == [];
    }
  }

  lemma {:induction false} SplitInvertsUnlines(lines: seq<seq<Byte>>)
    requires lines != [] && NewlineFree(lines)
    ensures Split(TrimNewline(Unlines(lines))) == lines
  {
    var first, rest := lines[0], lines[1..];
    UnlinesEnds(lines);
    if rest == [] {
      assert Unlines(lines) == first + [NEWLINE];
      assert TrimNewline(Unlines(lines)) == first;
      SplitFirst(first, []);
    } else {
      UnlinesEnds(rest);
      assert TrimNewline(Unlines(lines)) == first + [NEWLINE] + TrimNewline(Unlines(rest));
      SplitFirst(first, TrimNewline(Unlines(rest)));
      SplitInvertsUnlines(rest);
    }
  }

  /** Splitting a payload gives back the lines joined in it, unless that was one empty line. */
  lemma {:induction false} LinesInvertJoining(lines: seq<seq<Byte>>)
    requires NewlineFree(lines)
    ensures RawLines(Unlines(lines)) == lines <==> lines != [[]]
  {
    if lines != [] {
      UnlinesEnds(lines);
      SplitInvertsUnlines(lines);
      if TrimNewline(Unlines(lines)) == [] {
        assert lines == [[]];
      }
    }
  }

  lemma {:induction false} UnlinesInvertsSplit(s: seq<Byte>)
    ensures Unlines(Split(s)) == s + [NEWLINE]
    ensures NewlineFree(Split(s))
  {
    if s == [] {
      OneEmptyLine();
    } else {
      var rest := Split(s[1..]);
      UnlinesInvertsSplit(s[1..]);
      assert s + [NEWLINE] == [s[0]] + (s[1..] + [NEWLINE]);
      if s[0] == NEWLINE {
        assert ([[]] + rest)[1..] == rest;
      } else {
        var first := [s[0]] + rest[0];
        assert ([first] + rest[1..])[1..] == rest[1..];
        assert first + [NEWLINE] + Unlines(rest[1..]) == [s[0]] + (rest[0] + [NEWLINE] + Unlines(rest[1..]));
      }
    }
  }

  // ----- what was logged is what is read -----------------------------------------------------

  /** One line of a log as the runtime sends it: its timestamp, a space, and what was written. */
  datatype Entry = Entry(stamp: seq<Byte>, text: seq<Byte>)

  /** The lines one output wrote that were sent in one frame. */
  datatype Burst = Burst(kind: Byte, entries: seq<Entry>)

  predicate IsEntry(e: Entry, parse: Parser) {
    32 !in e.stamp && parse(e.stamp).Some? && 10 !in e.stamp && 10 !in e.text
  }

  predicate AreEntries(entries: seq<Entry>, parse: Parser) {
    forall i :: 0 <= i < |entries| ==> IsEntry(entries[i], parse)
  }

  function SentLines(entries: seq<Entry>): seq<seq<Byte>> {
    seq(|entries|, i requires 0 <= i < |entries| => entries[i].stamp + [32] + entries[i].text)
  }

  function FrameOf(burst: Burst): LogFrame {
    LogFrame(burst.kind, Unlines(SentLines(burst.entries)))
  }

  function FramesOf(bursts: seq<Burst>): seq<LogFrame> {
    seq(|bursts|, i requires 0 <= i < |bursts| => FrameOf(bursts[i]))
  }

  /** The lines as they are to be shown. */
  function Logged(burst: Burst, parse: Parser): seq<LogLine>
    requires AreEntries(burst.entries, parse)
  {
    seq(|burst.entries|, i requires 0 <= i < |burst.entries| =>
      LogLine(parse(burst.entries[i].stamp).value, if burst.kind == 2 then Stderr else Stdout, burst.entries[i].text))
  }

  function AllLogged(bursts: seq<Burst>, parse: Parser): seq<LogLine>
    requires forall i :: 0 <= i < |bursts| ==> AreEntries(bursts[i].entries, parse)
  {
    if bursts == [] then [] else Logged(bursts[0], parse) + AllLogged(bursts[1..], parse)
  }

  lemma {:induction false} StampAt(raw: seq<seq<Byte>>, i: nat, stream: LogStream, parse: Parser)
    requires i < |raw|
    ensures var (at, text) := SplitTimestamp(raw[i], parse);
            Stamp(raw, stream, parse)[i] == LogLine(at, stream, text)
  {
    if i < |raw| - 1 { StampAt(raw[..|raw| - 1], i, stream, parse); }
  }

  lemma SentAreRaw(entries: seq<Entry>, parse: Parser)
    requires AreEntries(entries, parse)
    ensures RawLines(Unlines(SentLines(entries))) == SentLines(entries)
  {
    var lines := SentLines(entries);
    forall i | 0 <= i < |lines| ensures 10 !in lines[i] && lines[i] != [] {
      assert IsEntry(entries[i], parse);
    }
    LinesInvertJoining(lines);
  }

  lemma BurstIsRead(burst: Burst, parse: Parser)
    requires AreEntries(burst.entries, parse)
    ensures LinesIn(burst.kind, FrameOf(burst).payload, parse) == Logged(burst, parse)
  {
    var entries, raw := burst.entries, SentLines(burst.entries);
    var stream := if burst.kind == 2 then Stderr else Stdout;
    SentAreRaw(entries, parse);
    forall i | 0 <= i < |entries| ensures Stamp(raw, stream, parse)[i] == Logged(burst, parse)[i] {
      StampAt(raw, i, stream, parse);
      assert IsEntry(entries[i], parse);
      TimestampIsTakenOff(entries[i].stamp, entries[i].text, parse);
    }
  }

  lemma {:induction false} FrameThenRest(f: LogFrame, rest: seq<LogFrame>, parse: Parser)
    ensures FrameLines([f] + rest, parse) == LinesIn(f.kind, f.payload, parse) + FrameLines(rest, parse)
  {
    assert ([f] + rest)[1..] == rest;
  }

  lemma {:induction false} BurstsAreRead(bursts: seq<Burst>, parse: Parser)
    requires forall i :: 0 <= i < |bursts| ==> AreEntries(bursts[i].entries, parse)
    ensures FrameLines(FramesOf(bursts), parse) == AllLogged(bursts, parse)
  {
    if bursts != [] {
      var first, rest := bursts[0], bursts[1..];
      assert FramesOf(bursts) == [FrameOf(first)] + FramesOf(rest);
      BurstIsRead(first, parse);
      BurstsAreRead(rest, parse);
      FrameThenRest(FrameOf(first), FramesOf(rest), parse);
    }
  }

  /** Every line two outputs wrote is read back with the time it was given, its output and its text,
      in the order the lines were written in, however they were spread over frames. */
  lemma {:induction false} LoggedIsRead(bursts: seq<Burst>, parse: Parser)
    requires forall i :: 0 <= i < |bursts| ==> AreEntries(bursts[i].entries, parse)
    requires forall f :: f in FramesOf(bursts) ==> Sendable(f)
    ensures Decode(EncodeAll(FramesOf(bursts)), Eof, parse) == Decoded(AllLogged(bursts, parse), None)
  {
    FramedLogRoundTrip(FramesOf(bursts), parse);
    BurstsAreRead(bursts, parse);
  }

  // ----- framing is invisible at line ends -------------------------------------------------

  /** A payload the runtime ends at the end of a line, or one with nothing in it. */
  predicate WholeLines(payload: seq<Byte>) {
    payload == [] || payload[|payload| - 1] == 10
  }

  function Concat(payloads: seq<seq<Byte>>): seq<Byte> {
    if payloads == [] then [] else payloads[0] + Concat(payloads[1..])
  }

  /** The lines ended in a payload, a lone newline ending one empty line. */
  function EndedLines(payload: seq<Byte>): seq<seq<Byte>> {
    if payload == [] then [] else Split(TrimNewline(payload))
  }

  function AllEnded(payloads: seq<seq<Byte>>): seq<seq<Byte>> {
    if payloads == [] then [] else EndedLines(payloads[0]) + AllEnded(payloads[1..])
  }

  function AllRaw(payloads: seq<seq<Byte>>): seq<seq<Byte>> {
    if payloads == [] then [] else RawLines(payloads[0]) + AllRaw(payloads[1..])
  }

  lemma {:induction false} UnlinesConcat(a: seq<seq<Byte>>, b: seq<seq<Byte>>)
    ensures Unlines(a + b) == Unlines(a) + Unlines(b)
  {
    if a == [] {
      assert a + b == b;
    } else {
      assert (a + b)[1..] == a[1..] + b;
      UnlinesConcat(a[1..], b);
    }
  }

  lemma EndedLinesMean(payload: seq<Byte>)
    requires WholeLines(payload)
    ensures Unlines(EndedLines(payload)) == payload && NewlineFree(EndedLines(payload))
    ensures EndedLines(payload) == [[]] <==> payload == [NEWLINE]
    ensures RawLines(payload) == if payload == [NEWLINE] then [] else EndedLines(payload)
  {
    if payload != [] {
      UnlinesInvertsSplit(TrimNewline(payload));
      assert TrimNewline(payload) + [NEWLINE] == payload;
      OneEmptyLine();
    }
  }

  lemma {:induction false} AllEndedMeans(payloads: seq<seq<Byte>>)
    requires forall p :: p in payloads ==> WholeLines(p)
    ensures Unlines(AllEnded(payloads)) == Concat(payloads) && NewlineFree(AllEnded(payloads))
    ensures [NEWLINE] !in payloads ==> AllRaw(payloads) == AllEnded(payloads)
    ensures |AllRaw(payloads)| <= |AllEnded(payloads)|
    ensures [NEWLINE] in payloads ==> |AllRaw(payloads)| < |AllEnded(payloads)|
  {
    if payloads != [] {
      var first, rest := payloads[0], payloads[1..];
      EndedLinesMean(first);
      AllEndedMeans(rest);
      UnlinesConcat(EndedLines(first), AllEnded(rest));
      assert payloads == [first] + rest;
    }
  }

  function Payloads(frames: seq<LogFrame>): seq<seq<Byte>> {
    if frames == [] then [] else [frames[0].payload] + Payloads(frames[1..])
  }

  /** The times and texts of lines, without their streams. */
  function Texts(lines: seq<LogLine>): (texts: seq<(int, seq<Byte>)>)
    ensures |texts| == |lines|
  {
    if lines == [] then []
    else Texts(lines[..|lines| - 1]) + [(lines[|lines| - 1].at, lines[|lines| - 1].text)]
  }

  lemma {:induction false} TextsConcat(a: seq<LogLine>, b: seq<LogLine>)
    ensures Texts(a + b) == Texts(a) + Texts(b)
  {
    if b == [] {
      assert a + b == a;
    } else {
      assert (a + b)[..|a + b| - 1] == a + b[..|b| - 1];
      TextsConcat(a, b[..|b| - 1]);
    }
  }

  lemma {:induction false} StampConcat(a: seq<seq<Byte>>, b: seq<seq<Byte>>, stream: LogStream, parse: Parser)
    ensures Stamp(a + b, stream, parse) == Stamp(a, stream, parse) + Stamp(b, stream, parse)
  {
    if b == [] {
      assert a + b == a;
    } else {
      assert (a + b)[..|a + b| - 1] == a + b[..|b| - 1];
      StampConcat(a, b[..|b| - 1], stream, parse);
    }
  }

  /** The times and texts of raw lines are the same whatever stream they came on. */
  lemma {:induction false} StreamsDoNotShow(raw: seq<seq<Byte>>, s: LogStream, t: LogStream, parse: Parser)
    ensures Texts(Stamp(raw, s, parse)) == Texts(Stamp(raw, t, parse))
  {
    if raw != [] {
      var (at, text) := SplitTimestamp(raw[|raw| - 1], parse);
      var init := raw[..|raw| - 1];
      StreamsDoNotShow(init, s, t, parse);
      TextsConcat(Stamp(init, s, parse), [LogLine(at, s, text)]);
      TextsConcat(Stamp(init, t, parse), [LogLine(at, t, text)]);
    }
  }

  lemma {:induction false} FrameTexts(frames: seq<LogFrame>, parse: Parser)
    ensures Texts(FrameLines(frames, parse)) == Texts(Stamp(AllRaw(Payloads(frames)), Stdout, parse))
  {
    if frames != [] {
      var f, rest := frames[0], frames[1..];
      FrameTexts(rest, parse);
      TextsConcat(LinesIn(f.kind, f.payload, parse), FrameLines(rest, parse));
      StampConcat(RawLines(f.payload), AllRaw(Payloads(rest)), Stdout, parse);
      StreamsDoNotShow(RawLines(f.payload), if f.kind == 2 then Stderr else Stdout, Stdout, parse);
      TextsConcat(LinesOf(f.payload, Stdout, parse), Stamp(AllRaw(Payloads(rest)), Stdout, parse));
    }
  }

  lemma {:induction false} PayloadsOfFrames(frames: seq<LogFrame>)
    ensures forall f :: f in frames ==> f.payload in Payloads(frames)
    ensures forall p :: p in Payloads(frames) ==> exists f :: f in frames && f.payload == p
  {
    if frames != [] {
      PayloadsOfFrames(frames[1..]);
      assert frames == [frames[0]] + frames[1..];
    }
  }

  /** For frames that hold whole lines, decoding them gives the times and texts a terminal's log
      of the same bytes would, exactly when no frame is a lone newline (or that is all there is). */
  lemma {:induction false} FramingIsInvisible(frames: seq<LogFrame>, parse: Parser)
    requires forall f :: f in frames ==> Sendable(f) && WholeLines(f.payload)
    ensures var all := Concat(Payloads(frames));
            Texts(Decode(EncodeAll(frames), Eof, parse).lines) == Texts(LinesOf(all, Stdout, parse))
            <==> [10] !in Payloads(frames) || all == [10]
  {
    var payloads := Payloads(frames);
    var all := Concat(payloads);
    FramedLogRoundTrip(frames, parse);
    FrameTexts(frames, parse);
    PayloadsOfFrames(frames);
    RawLinesOfAll(payloads);
    if [NEWLINE] !in payloads || all == [NEWLINE] {
      assert RawLines(all) == AllRaw(payloads);
    } else {
      assert |RawLines(all)| != |AllRaw(payloads)|;
    }
  }

  lemma OneEmptyLine()
    ensures Unlines([[]]) == [NEWLINE]
  {
    var lines: seq<seq<Byte>> := [[]];
    assert lines[1..] == [];
  }

  lemma {:induction false} RawLinesOfAll(payloads: seq<seq<Byte>>)
    requires forall p :: p in payloads ==> WholeLines(p)
    ensures var all := Concat(payloads);
            if [NEWLINE] !in payloads || all == [NEWLINE] then RawLines(all) == AllRaw(payloads)
            else |RawLines(all)| > |AllRaw(payloads)|
  {
    var all := Concat(payloads);
    AllEndedMeans(payloads);
    OneEmptyLine();
    if all == [NEWLINE] {
      LoneNewline(payloads);
    } else {
      LinesInvertJoining(AllEnded(payloads));
    }
  }

  lemma {:induction false} LoneNewline(payloads: seq<seq<Byte>>)
    requires Concat(payloads) == [NEWLINE]
    ensures AllRaw(payloads) == [] && RawLines([NEWLINE]) == []
  {
    if payloads[0] == [] {
      LoneNewline(payloads[1..]);
    } else {
      assert |payloads[0]| == 1 && Concat(payloads[1..]) == [];
      assert payloads[0][0] == Concat(payloads)[0];
      NothingRaw(payloads[1..]);
    }
  }

  lemma {:induction false} NothingRaw(payloads: seq<seq<Byte>>)
    requires Concat(payloads) == []
    ensures AllRaw(payloads) == []
  {
    if payloads != [] { NothingRaw(payloads[1..]); }
  }
}
