/** The text of an event stream: what `writeEvent` and the keep-alive print
    (internal/adapters/realtime/handler.go), and how a browser reads it, by section 9.2.6
    of the WHATWG HTML Standard. */
module EventStreams {

  // ----- writing -----------------------------------------------------------------------

  datatype Item = Named(name: string, data: string) | KeepAlive

  function Print(item: Item): string {
    match item
    case Named(name, data) => "event: " + name + "\ndata: " + data + "\n\n"
    case KeepAlive => ": keep-alive\n\n"
  }

  function PrintAll(items: seq<Item>): string {
    if items == [] then "" else Print(items[0]) + PrintAll(items[1..])
  }

  // ----- reading -----------------------------------------------------------------------

  const CR: char := '\r'
  const LF: char := '\n'
  const BOM: char := '\U{FEFF}'

  predicate IsBreak(c: char) {
    c == CR || c == LF
  }

  predicate NoBreaks(s: string) {
    forall i :: 0 <= i < |s| ==> !IsBreak(s[i])
  }

  function BreakAt(s: string): (n: nat)
    ensures n <= |s| && NoBreaks(s[..n]) && (n < |s| ==> IsBreak(s[n]))
  {
    if s == [] || IsBreak(s[0]) then 0 else 1 + BreakAt(s[1..])
  }

  /** The lines that have ended: by a carriage return, a line feed, or both in that order. */
  function Lines(s: string): seq<string> {
    var n := BreakAt(s);
    if n == |s| then []
    else if s[n] == CR && n + 1 < |s| && s[n + 1] == LF then [s[..n]] + Lines(s[n + 2..])
    else [s[..n]] + Lines(s[n + 1..])
  }

  datatype Message = Message(name: string, data: string, lastID: string)

  /** The three buffers, and the events dispatched so far. */
  datatype Reader = Reader(data: string, kind: string, lastID: string, messages: seq<Message>)

  const START := Reader("", "", "", [])

  function Dispatch(r: Reader): Reader {
    if r.data == "" then r.(kind := "")
    else
      var data := if r.data[|r.data| - 1] == LF then r.data[..|r.data| - 1] else r.data;
      var kind := if r.kind == "" then "message" else r.kind;
      r.(data := "", kind := "", messages := r.messages + [Message(kind, data, r.lastID)])
  }

  /** The reconnection time that a "retry" field sets is not part of any event. */
  function TakeField(r: Reader, name: string, value: string): Reader {
    if name == "event" then r.(kind := value)
    else if name == "data" then r.(data := r.data + value + [LF])
    else if name == "id" && '\0' !in value then r.(lastID := value)
    else r
  }

  function ColonAt(line: string): (n: nat)
    ensures n <= |line|
  {
    if line == [] || line[0] == ':' then 0 else 1 + ColonAt(line[1..])
  }

  /** The value of a field: what follows its colon, without one leading space. */
  function Value(rest: string): (value: string)
    ensures |value| <= |rest|
  {
    if rest == "" then ""
    else if |rest| > 1 && rest[1] == ' ' then rest[2..]
    else rest[1..]
  }

  function TakeLine(r: Reader, line: string): Reader {
    if line == "" then Dispatch(r)
    else if line[0] == ':' then r
    else TakeField(r, line[..ColonAt(line)], Value(line[ColonAt(line)..]))
  }

  function TakeLines(r: Reader, lines: seq<string>): Reader
    decreases |lines|
  {
    if lines == [] then r else TakeLines(TakeLine(r, lines[0]), lines[1..])
  }

  /** The events a browser dispatches for a stream that has arrived so far. What has not been
      followed by a blank line is never dispatched. */
  function Interpret(s: string): seq<Message> {
    TakeLines(START, Lines(if s != "" && s[0] == BOM then s[1..] else s)).messages
  }

  // ----- lines ---------------------------------------------------------------------------

  lemma {:induction false} BreakIsFirst(line: string, rest: string)
    requires NoBreaks(line) && (rest == "" || IsBreak(rest[0]))
    ensures BreakAt(line + rest) == |line|
  {
    if line == "" {
      assert line + rest == rest;
    } else {
      assert (line + rest)[1..] == line[1..] + rest;
      BreakIsFirst(line[1..], rest);
    }
  }

  lemma {:induction false} FirstLine(line: string, rest: string)
    requires NoBreaks(line)
    ensures Lines(line + ([LF] + rest)) == [line] + Lines(rest)
  {
    var s := line + ([LF] + rest);
    BreakIsFirst(line, [LF] + rest);
    assert s[..|line|] == line && s[|line|] == LF && s[|line| + 1..] == rest;
  }

  lemma {:induction false} NoLine(s: string)
    requires NoBreaks(s)
    ensures Lines(s) == []
  {
    BreakIsFirst(s, "");
    assert s + "" == s;
  }

  /** A block of lines and the blank line that ends it. */
  function Block(lines: seq<string>): string {
    if lines == [] then [LF] else lines[0] + ([LF] + Block(lines[1..]))
  }

  ghost predicate Proper(lines: seq<string>) {
    forall i :: 0 <= i < |lines| ==> lines[i] != "" && NoBreaks(lines[i])
  }

  lemma BlockThen(line: string, block: string, rest: string)
    ensures line + ([LF] + block) + rest == line + ([LF] + (block + rest))
  {
  }

  lemma FirstThen<T>(s: seq<T>, rest: seq<T>)
    requires s != []
    ensures [s[0]] + (s[1..] + rest) == s + rest
  {
  }

  lemma {:induction false} BlockLines(lines: seq<string>, rest: string)
    requires Proper(lines)
    ensures Lines(Block(lines) + rest) == lines + ([""] + Lines(rest))
    decreases |lines|
  {
    if lines == [] {
      FirstLine("", rest);
      assert Block(lines) + rest == "" + ([LF] + rest);
    } else {
      var tail := Block(lines[1..]);
      BlockLines(lines[1..], rest);
      BlockThen(lines[0], tail, rest);
      FirstLine(lines[0], tail + rest);
      FirstThen(lines, [""] + Lines(rest));
    }
  }

  lemma CutThen(line: string, block: string, k: nat)
    requires |line| < k <= |line| + 1 + |block|
    ensures (line + ([LF] + block))[..k] == line + ([LF] + block[..k - |line| - 1])
  {
  }

  lemma CutWithin(line: string, rest: string, k: nat)
    requires k <= |line|
    ensures (line + rest)[..k] == line[..k]
  {
  }

  lemma PrependProper(line: string, lines: seq<string>)
    requires line != "" && NoBreaks(line) && Proper(lines)
    ensures Proper([line] + lines)
  {
  }

  /** The lines of a block that was cut: a blank one is not among them. */
  lemma {:induction false} CutBlockLines(lines: seq<string>, k: nat)
    requires Proper(lines) && k < |Block(lines)|
    ensures Proper(Lines(Block(lines)[..k]))
    decreases |lines|
  {
    if lines == [] {
      NoLine(Block(lines)[..k]);
    } else {
      var tail := Block(lines[1..]);
      if k <= |lines[0]| {
        CutWithin(lines[0], [LF] + tail, k);
        NoLine(lines[0][..k]);
      } else {
        var rest := k - |lines[0]| - 1;
        CutBlockLines(lines[1..], rest);
        CutThen(lines[0], tail, k);
        FirstLine(lines[0], tail[..rest]);
        PrependProper(lines[0], Lines(tail[..rest]));
      }
    }
  }

  // ----- frames --------------------------------------------------------------------------

  /** The event is named, and neither its name nor its data breaks the line. */
  ghost predicate Writable(item: Item) {
    item.Named? ==> item.name != "" && NoBreaks(item.name) && NoBreaks(item.data)
  }

  ghost predicate AllWritable(items: seq<Item>) {
    forall i :: 0 <= i < |items| ==> Writable(items[i])
  }

  function FieldLine(name: string, value: string): string {
    name + (": " + value)
  }

  function ItemLines(item: Item): seq<string> {
    match item
    case Named(name, data) => [FieldLine("event", name), FieldLine("data", data)]
    case KeepAlive => [": keep-alive"]
  }

  lemma TwoLineBlock(first: string, second: string)
    ensures Block([first, second]) == first + ([LF] + (second + [LF, LF]))
  {
    assert [first, second][1..] == [second];
    assert [second][1..] == [];
    assert [LF] + Block([]) == [LF, LF];
  }

  lemma PrintIsBlock(item: Item)
    ensures Print(item) == Block(ItemLines(item))
  {
    match item
    case Named(name, data) =>
      TwoLineBlock(FieldLine("event", name), FieldLine("data", data));
      assert "event: " + name + "\ndata: " + data + "\n\n"
          == ("event" + (": " + name)) + ([LF] + (("data" + (": " + data)) + [LF, LF]));
    case KeepAlive =>
      assert [": keep-alive"][1..] == [];
  }

  lemma ItemLinesAreProper(item: Item)
    requires Writable(item)
    ensures Proper(ItemLines(item))
  {
  }

  lemma {:induction false} ColonIsFirst(name: string, rest: string)
    requires ':' !in name && rest != "" && rest[0] == ':'
    ensures ColonAt(name + rest) == |name|
  {
    if name == "" {
      assert name + rest == rest;
    } else {
      assert (name + rest)[1..] == name[1..] + rest;
      ColonIsFirst(name[1..], rest);
    }
  }

  lemma TakeFieldLine(r: Reader, name: string, value: string)
    requires name != "" && ':' !in name
    ensures TakeLine(r, FieldLine(name, value)) == TakeField(r, name, value)
  {
    var line := FieldLine(name, value);
    ColonIsFirst(name, ": " + value);
    assert line[0] == name[0];
    assert line[..|name|] == name && line[|name|..] == ": " + value;
    assert (": " + value)[2..] == value;
  }

  function MessagesOf(items: seq<Item>): seq<Message> {
    if items == [] then []
    else (if items[0].Named? then [Message(items[0].name, items[0].data, "")] else []) + MessagesOf(items[1..])
  }

  ghost predicate Idle(r: Reader) {
    r.data == "" && r.kind == "" && r.lastID == ""
  }

  /** A frame read whole: its event, or nothing for a comment, and the buffers are empty again. */
  function AfterItem(r: Reader, item: Item): Reader {
    if item.Named? then r.(messages := r.messages + [Message(item.name, item.data, "")]) else r
  }

  lemma DispatchNamed(r: Reader, name: string, data: string)
    requires Idle(r) && name != ""
    ensures Dispatch(r.(kind := name, data := data + [LF])) == r.(messages := r.messages + [Message(name, data, "")])
  {
    assert (data + [LF])[..|data|] == data;
  }

  lemma {:induction false} TakeOne(r: Reader, line: string, more: seq<string>)
    ensures TakeLines(r, [line] + more) == TakeLines(TakeLine(r, line), more)
  {
    assert ([line] + more)[1..] == more;
  }

  lemma {:induction false} TakeThree(r: Reader, a: string, b: string, more: seq<string>)
    ensures TakeLines(r, [a, b] + ([""] + more)) == TakeLines(Dispatch(TakeLine(TakeLine(r, a), b)), more)
  {
    assert [a, b] + ([""] + more) == [a] + ([b] + ([""] + more));
    TakeOne(r, a, [b] + ([""] + more));
    TakeOne(TakeLine(r, a), b, [""] + more);
    TakeOne(TakeLine(TakeLine(r, a), b), "", more);
  }

  lemma {:induction false} TakeComment(r: Reader, a: string, more: seq<string>)
    requires a != "" && a[0] == ':' && Idle(r)
    ensures TakeLines(r, [a] + ([""] + more)) == TakeLines(r, more)
  {
    TakeOne(r, a, [""] + more);
    TakeOne(r, "", more);
  }

  lemma {:induction false} TakeItem(r: Reader, item: Item, more: seq<string>)
    requires Idle(r) && Writable(item)
    ensures TakeLines(r, ItemLines(item) + ([""] + more)) == TakeLines(AfterItem(r, item), more)
  {
    match item
    case Named(name, data) =>
      TakeThree(r, FieldLine("event", name), FieldLine("data", data), more);
      TakeFieldLine(r, "event", name);
      TakeFieldLine(r.(kind := name), "data", data);
      DispatchNamed(r, name, data);
      assert "" + data + [LF] == data + [LF];
    case KeepAlive =>
      TakeComment(r, ": keep-alive", more);
  }

  lemma {:induction false} ProperLinesDispatchNothing(r: Reader, lines: seq<string>)
    requires Proper(lines)
    ensures TakeLines(r, lines).messages == r.messages
    decreases |lines|
  {
    if lines != [] {
      ProperLinesDispatchNothing(TakeLine(r, lines[0]), lines[1..]);
    }
  }

  // ----- the round trip, cut anywhere ------------------------------------------------------

  /** How many frames the first `k` characters hold whole. */
  function Whole(items: seq<Item>, k: nat): (n: nat)
    ensures n <= |items|
  {
    if items == [] || k < |Print(items[0])| then 0 else 1 + Whole(items[1..], k - |Print(items[0])|)
  }

  lemma {:induction false} AllAreWhole(items: seq<Item>)
    ensures Whole(items, |PrintAll(items)|) == |items|
  {
    if items != [] { AllAreWhole(items[1..]); }
  }

  /** What a cut stream has dispatched is the events of the frames that arrived whole. */
  ghost predicate ReadsWhole(r: Reader, items: seq<Item>, k: nat)
    requires k <= |PrintAll(items)|
  {
    TakeLines(r, Lines(PrintAll(items)[..k])).messages == r.messages + MessagesOf(items[..Whole(items, k)])
  }

  lemma {:induction false} NoneWhole(r: Reader, items: seq<Item>, k: nat)
    requires items != [] && Writable(items[0]) && k < |Print(items[0])| <= |PrintAll(items)|
    ensures ReadsWhole(r, items, k)
  {
    assert PrintAll(items)[..k] == Print(items[0])[..k];
    CutFrameRead(r, items[0], k);
    assert MessagesOf(items[..0]) == [];
  }

  lemma CutAfterFirst(items: seq<Item>, k: nat, rest: nat)
    requires items != [] && k == |Print(items[0])| + rest && k <= |PrintAll(items)|
    ensures rest <= |PrintAll(items[1..])|
    ensures PrintAll(items)[..k] == Print(items[0]) + PrintAll(items[1..])[..rest]
    ensures Whole(items, k) == 1 + Whole(items[1..], rest)
  {
  }

  lemma FirstIsRead(r: Reader, items: seq<Item>, k: nat, rest: nat)
    requires items != [] && Idle(r) && Writable(items[0])
    requires k == |Print(items[0])| + rest && k <= |PrintAll(items)| && rest <= |PrintAll(items[1..])|
    ensures TakeLines(r, Lines(PrintAll(items)[..k]))
            == TakeLines(AfterItem(r, items[0]), Lines(PrintAll(items[1..])[..rest]))
  {
    CutAfterFirst(items, k, rest);
    FrameRead(r, items[0], PrintAll(items[1..])[..rest]);
  }

  lemma OneMoreWhole(r: Reader, items: seq<Item>, k: nat, rest: nat)
    requires items != [] && Idle(r) && Writable(items[0]) && k == |Print(items[0])| + rest
    requires k <= |PrintAll(items)| && rest <= |PrintAll(items[1..])|
    requires ReadsWhole(AfterItem(r, items[0]), items[1..], rest)
    ensures ReadsWhole(r, items, k)
  {
    FirstIsRead(r, items, k, rest);
    CutAfterFirst(items, k, rest);
    FirstMessage(r, items, Whole(items[1..], rest));
  }

  lemma {:induction false} CutFramesRead(r: Reader, items: seq<Item>, k: nat)
    requires Idle(r) && AllWritable(items) && k <= |PrintAll(items)|
    ensures ReadsWhole(r, items, k)
    decreases |items|
  {
    if items == [] {
      assert PrintAll(items)[..k] == "";
    } else if k < |Print(items[0])| {
      NoneWhole(r, items, k);
    } else {
      var rest := k - |Print(items[0])|;
      CutAfterFirst(items, k, rest);
      CutFramesRead(AfterItem(r, items[0]), items[1..], rest);
      OneMoreWhole(r, items, k, rest);
    }
  }

  lemma {:induction false} CutFrameRead(r: Reader, item: Item, k: nat)
    requires Writable(item) && k < |Print(item)|
    ensures TakeLines(r, Lines(Print(item)[..k])).messages == r.messages
  {
    PrintIsBlock(item);
    ItemLinesAreProper(item);
    CutBlockLines(ItemLines(item), k);
    ProperLinesDispatchNothing(r, Lines(Print(item)[..k]));
  }

  lemma {:induction false} FrameRead(r: Reader, item: Item, rest: string)
    requires Idle(r) && Writable(item)
    ensures TakeLines(r, Lines(Print(item) + rest)) == TakeLines(AfterItem(r, item), Lines(rest))
  {
    PrintIsBlock(item);
    ItemLinesAreProper(item);
    BlockLines(ItemLines(item), rest);
    TakeItem(r, item, Lines(rest));
  }

  lemma FirstMessage(r: Reader, items: seq<Item>, n: nat)
    requires n < |items|
    ensures r.messages + MessagesOf(items[..n + 1])
            == AfterItem(r, items[0]).messages + MessagesOf(items[1..][..n])
  {
    assert items[..n + 1][1..] == items[1..][..n];
  }

  lemma {:induction false} NoMark(items: seq<Item>, k: nat)
    requires k <= |PrintAll(items)|
    ensures var s := PrintAll(items)[..k]; s == "" || s[0] != BOM
  {
    if items != [] && k > 0 {
      assert PrintAll(items)[..k][0] == Print(items[0])[0];
    }
  }

  /** A stream that breaks off anywhere gives the events of the frames that arrived whole, in
      order, and nothing for the comments or for the frame that was cut. */
  lemma {:induction false} CutStream(items: seq<Item>, k: nat)
    requires AllWritable(items) && k <= |PrintAll(items)|
    ensures Interpret(PrintAll(items)[..k]) == MessagesOf(items[..Whole(items, k)])
  {
    NoMark(items, k);
    CutFramesRead(START, items, k);
  }

  /** Reading what was written gives exactly the events written. */
  lemma {:induction false} StreamRoundTrip(items: seq<Item>)
    requires AllWritable(items)
    ensures Interpret(PrintAll(items)) == MessagesOf(items)
  {
    AllAreWhole(items);
    CutStream(items, |PrintAll(items)|);
    assert PrintAll(items)[..|PrintAll(items)|] == PrintAll(items);
    assert items[..|items|] == items;
  }

  // ----- why the data has to be kept to one line ---------------------------------------------

  /** What a reader can hold: names are never empty, nothing read holds a carriage return, and
      only data holds a line feed, the last of it one of the reader's own. */
  ghost predicate Readable(r: Reader) {
    && NoBreaks(r.kind) && CR !in r.data && (r.data != "" ==> r.data[|r.data| - 1] == LF)
    && forall i :: 0 <= i < |r.messages| ==>
         r.messages[i].name != "" && NoBreaks(r.messages[i].name) && CR !in r.messages[i].data
  }

  /** The data read so far, with one more for every event. */
  function Weight(messages: seq<Message>): nat {
    if messages == [] then 0
    else Weight(messages[..|messages| - 1]) + |messages[|messages| - 1].data| + 1
  }

  lemma LineIsRead(r: Reader, line: string)
    requires Readable(r) && NoBreaks(line)
    ensures var after := TakeLine(r, line);
            && Readable(after)
            && |after.data| + Weight(after.messages)
               <= |r.data| + Weight(r.messages) + if line == "" then 0 else |line| - 1
  {
    var after := TakeLine(r, line);
    if line == "" {
      if r.data != "" {
        assert after.messages[..|r.messages|] == r.messages;
        assert NoBreaks("message");
      }
    } else if line[0] != ':' {
      var name, value := line[..ColonAt(line)], Value(line[ColonAt(line)..]);
      assert NoBreaks(value);
      FieldIsRead(r, name, value);
      assert name == "data" ==> |value| <= |line| - 4 && (value != "" ==> |value| < |line| - 4);
    }
  }

  lemma FieldIsRead(r: Reader, name: string, value: string)
    requires Readable(r) && NoBreaks(value)
    ensures Readable(TakeField(r, name, value))
    ensures TakeField(r, name, value).messages == r.messages
    ensures |TakeField(r, name, value).data| == |r.data| + if name == "data" then |value| + 1 else 0
  {
    assert CR !in value;
  }

  lemma {:induction false} TextIsRead(r: Reader, s: string)
    requires Readable(r)
    ensures var after := TakeLines(r, Lines(s));
            && Readable(after)
            && |after.data| + Weight(after.messages) + |Lines(s)| <= |r.data| + Weight(r.messages) + |s|
    decreases |s|
  {
    var n := BreakAt(s);
    if n < |s| {
      var rest := if s[n] == CR && n + 1 < |s| && s[n + 1] == LF then s[n + 2..] else s[n + 1..];
      assert Lines(s) == [s[..n]] + Lines(rest);
      LineIsRead(r, s[..n]);
      TakeOne(r, s[..n], Lines(rest));
      TextIsRead(TakeLine(r, s[..n]), rest);
    }
  }

  lemma {:induction false} EndingTwice(x: string)
    requires CR !in x
    ensures |Lines(x + [LF, LF])| >= 2
    decreases |x|
  {
    var s, n := x + [LF, LF], BreakAt(x);
    BreakIsFirst(x[..n], s[n..]);
    assert s == x[..n] + s[n..];
    if n < |x| {
      EndingTwice(x[n + 1..]);
      assert s[n + 1..] == x[n + 1..] + [LF, LF];
    } else {
      FirstLine("", "");
      assert s[n + 1..] == "" + ([LF] + "");
    }
  }

  lemma PrintFrom(name: string, data: string, n: nat, rest: string)
    requires n <= |data| && data[n..] + [LF, LF] == [LF] + rest
    ensures Print(Named(name, data))
            == FieldLine("event", name) + ([LF] + (FieldLine("data", data[..n]) + ([LF] + rest)))
  {
    PrintIsBlock(Named(name, data));
    TwoLineBlock(FieldLine("event", name), FieldLine("data", data));
    assert FieldLine("data", data) + [LF, LF] == FieldLine("data", data[..n]) + (data[n..] + [LF, LF]);
  }

  lemma {:induction false} TwoLinesThen(r: Reader, a: string, b: string, rest: string)
    requires NoBreaks(a) && NoBreaks(b)
    ensures TakeLines(r, Lines(a + ([LF] + (b + ([LF] + rest))))) == TakeLines(TakeLine(TakeLine(r, a), b), Lines(rest))
  {
    FirstLine(a, b + ([LF] + rest));
    FirstLine(b, rest);
    TakeOne(r, a, Lines(b + ([LF] + rest)));
    TakeOne(TakeLine(r, a), b, Lines(rest));
  }

  lemma TakeNameAndData(name: string, data: string)
    ensures TakeLine(TakeLine(START, FieldLine("event", name)), FieldLine("data", data))
            == START.(kind := name, data := data + [LF])
  {
    TakeFieldLine(START, "event", name);
    TakeFieldLine(START.(kind := name), "data", data);
    assert "" + data + [LF] == data + [LF];
  }

  lemma {:induction false} FirstTwoLines(name: string, data: string, n: nat, rest: string)
    requires NoBreaks(name) && name != "" && n <= |data| && NoBreaks(data[..n]) && data[n..] + [LF, LF] == [LF] + rest
    ensures TakeLines(START, Lines(Print(Named(name, data))))
            == TakeLines(START.(kind := name, data := data[..n] + [LF]), Lines(rest))
  {
    PrintFrom(name, data, n, rest);
    TwoLinesThen(START, FieldLine("event", name), FieldLine("data", data[..n]), rest);
    TakeNameAndData(name, data[..n]);
  }

  lemma BrokenDataIsNotRead(name: string, data: string)
    requires NoBreaks(name) && name != "" && CR !in data && !NoBreaks(data)
    ensures Weight(Interpret(Print(Named(name, data)))) <= |data|
  {
    var n := BreakAt(data);
    assert n < |data| by { assert data[..|data|] == data; }
    var rest := data[n + 1..] + [LF, LF];
    assert data[n..] + [LF, LF] == [LF] + rest;
    FirstTwoLines(name, data, n, rest);
    EndingTwice(data[n + 1..]);
    TextIsRead(START.(kind := name, data := data[..n] + [LF]), rest);
  }

  /** A frame is read back as the one event it was written for exactly when the event has a name
      and neither the name nor the data breaks the line. */
  lemma FrameIsOneEventExactly(name: string, data: string)
    ensures Interpret(Print(Named(name, data))) == [Message(name, data, "")] <==> Writable(Named(name, data))
  {
    var item, text := Named(name, data), Print(Named(name, data));
    assert PrintAll([item]) == text;
    if Writable(item) {
      StreamRoundTrip([item]);
    } else {
      NoMark([item], |text|);
      TextIsRead(START, text);
      if name != "" && NoBreaks(name) && CR !in data {
        BrokenDataIsNotRead(name, data);
        assert Weight([Message(name, data, "")]) == |data| + 1;
      }
    }
  }
}
