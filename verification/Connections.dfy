/** One page's connection, from its first frame to its last: `stream` in
    internal/adapters/realtime/handler.go. */
module Connections {
  import opened Domain
  import opened EventStreams
  import opened Pages
  import opened Scripts
  import LivePages

  /** What the loop of a connection can be woken by. */
  datatype Happening = Arrived(event: Event) | KeepAliveDue | HubClosed | ClientGone

  // ----- what is to be written ---------------------------------------------------------------

  function NameOf(payload: Payload): string {
    if payload.SyncPayload? then "sync" else "change"
  }

  /** A payload as it is written, encoded. */
  function ItemOf(payload: Payload, encode: Payload -> string): Item {
    Named(NameOf(payload), encode(payload))
  }

  predicate Ends(happening: Happening) {
    happening.HubClosed? || happening.ClientGone?
  }

  /** A frame for a change that can be drawn, and a comment for a silence. */
  function ItemFor(happening: Happening, encode: Payload -> string, draw: Renderer): seq<Item> {
    match happening
    case Arrived(e) => if CanDraw(e, draw) then [ItemOf(PayloadOf(Change(e), draw), encode)] else []
    case KeepAliveDue => [KeepAlive]
    case _ => []
  }

  /** Until the hub closes or the client goes away. */
  function Written(happenings: seq<Happening>, encode: Payload -> string, draw: Renderer): seq<Item> {
    if happenings == [] || Ends(happenings[0]) then []
    else ItemFor(happenings[0], encode, draw) + Written(happenings[1..], encode, draw)
  }

  function Items(
      services: seq<Service>, happenings: seq<Happening>, encode: Payload -> string, draw: Renderer): seq<Item>
  {
    [ItemOf(PayloadOf(Sync(services), draw), encode)] + Written(happenings, encode, draw)
  }

  // ----- what gets out -----------------------------------------------------------------------

  /** A response: what has been written, how many more characters there is room for, and how many
      more flushes succeed. */
  datatype Pipe = Pipe(body: string, room: nat, flushes: nat)

  /** The write and the flush that follows it both succeed. */
  predicate Accepts(p: Pipe, item: Item) {
    |Print(item)| <= p.room && p.flushes > 0
  }

  /** A write that fails may have got some of its text out. */
  function SendOne(p: Pipe, item: Item): Pipe {
    var text := Print(item);
    if |text| > p.room then Pipe(p.body + text[..p.room], 0, p.flushes)
    else Pipe(p.body + text, p.room - |text|, if p.flushes == 0 then 0 else p.flushes - 1)
  }

  /** The connection ends at the first write or flush that fails. */
  function SendAll(p: Pipe, items: seq<Item>): Pipe
    decreases |items|
  {
    if items == [] then p
    else if Accepts(p, items[0]) then SendAll(SendOne(p, items[0]), items[1..])
    else SendOne(p, items[0])
  }

  lemma {:induction false} SendFirst(p: Pipe, item: Item, rest: seq<Item>)
    ensures SendAll(p, [item] + rest) == if Accepts(p, item) then SendAll(SendOne(p, item), rest) else SendOne(p, item)
  {
    assert ([item] + rest)[1..] == rest;
  }

  function Sent(items: seq<Item>, room: nat, flushes: nat): string {
    SendAll(Pipe("", room, flushes), items).body
  }

  lemma {:induction false} SendAllIsPrefix(p: Pipe, items: seq<Item>)
    ensures SendAll(p, items).body <= p.body + PrintAll(items)
    ensures |PrintAll(items)| <= p.room && |items| <= p.flushes ==> SendAll(p, items).body == p.body + PrintAll(items)
    decreases |items|
  {
    if items != [] {
      var q, rest := SendOne(p, items[0]), PrintAll(items[1..]);
      assert p.body + (Print(items[0]) + rest) == p.body + Print(items[0]) + rest;
      if Accepts(p, items[0]) { SendAllIsPrefix(q, items[1..]); }
    }
  }

  /** What gets out is the beginning of what was to be written, and all of it if nothing fails. */
  lemma {:induction false} SentIsPrefix(items: seq<Item>, room: nat, flushes: nat)
    ensures Sent(items, room, flushes) <= PrintAll(items)
    ensures |PrintAll(items)| <= room && |items| <= flushes ==> Sent(items, room, flushes) == PrintAll(items)
  {
    SendAllIsPrefix(Pipe("", room, flushes), items);
    assert "" + PrintAll(items) == PrintAll(items);
  }

  /** The response, as the handler writes to it. */
  class ResponseWriter {
    var body: string
    var room: nat
    var flushes: nat

    ghost function State(): Pipe
      reads this
    {
      Pipe(body, room, flushes)
    }

    constructor (room: nat, flushes: nat)
      ensures State() == Pipe("", room, flushes)
    {
      body := "";
      this.room, this.flushes := room, flushes;
    }

    method Write(text: string) returns (ok: bool)
      modifies this`body, this`room
      ensures ok <==> |text| <= old(room)
      ensures body == old(body) + if ok then text else text[..old(room)]
      ensures room == if ok then old(room) - |text| else 0
    {
      ok := |text| <= room;
      if ok {
        body, room := body + text, room - |text|;
      } else {
        body, room := body + text[..room], 0;
      }
    }

    method Flush() returns (ok: bool)
      modifies this`flushes
      ensures ok <==> old(flushes) > 0
      ensures flushes == if ok then old(flushes) - 1 else 0
    {
      ok := flushes > 0;
      if ok {
        flushes := flushes - 1;
      }
    }

    /** Writes an item and pushes it out. */
    method Send(item: Item) returns (ok: bool)
      modifies this
      ensures State() == SendOne(old(State()), item) && ok == Accepts(old(State()), item)
    {
      ok := Write(Print(item));
      if ok {
        ok := Flush();
      }
    }
  }

  method RenderRows(services: seq<Service>, draw: Renderer) returns (rows: seq<RowPayload>)
    ensures rows == RowPayloads(services, draw)
  {
    rows := [];
    for i := 0 to |services|
      invariant rows == RowPayloads(services[..i], draw)
    {
      var html := draw(services[i]);
      if html.Some? {
        rows := rows + [RowPayload(services[i].containerID, html.value)];
      }
      assert services[..i + 1][..i] == services[..i];
    }
    assert services[..|services|] == services;
  }

  /** A read that fails is answered with an error. Otherwise the whole listing is the first frame,
      and then changes and keep-alives are written as they come, as far as they get out. */
  method Stream(
      listing: Result<seq<Service>, string>, happenings: seq<Happening>, encode: Payload -> string, draw: Renderer,
      response: ResponseWriter)
    returns (available: bool)
    modifies response
    ensures available <==> listing.Success?
    ensures response.State()
            == if available then SendAll(old(response.State()), Items(listing.value, happenings, encode, draw))
               else old(response.State())
  {
    if listing.Failure? {
      return false;
    }
    available := true;
    var rows := RenderRows(listing.value, draw);
    var sync := ItemOf(SyncPayload(rows), encode);
    SendFirst(response.State(), sync, Written(happenings, encode, draw));
    var ok := response.Send(sync);
    if ok {
      SendChanges(happenings, encode, draw, response);
    }
  }

  lemma WrittenFrom(happenings: seq<Happening>, i: nat, encode: Payload -> string, draw: Renderer)
    requires i < |happenings| && !Ends(happenings[i])
    ensures Written(happenings[i..], encode, draw)
            == ItemFor(happenings[i], encode, draw) + Written(happenings[i + 1..], encode, draw)
    ensures ItemFor(happenings[i], encode, draw) == [] ==>
              Written(happenings[i..], encode, draw) == Written(happenings[i + 1..], encode, draw)
  {
    assert happenings[i..][1..] == happenings[i + 1..];
  }

  method SendChanges(happenings: seq<Happening>, encode: Payload -> string, draw: Renderer, response: ResponseWriter)
    modifies response
    ensures response.State() == SendAll(old(response.State()), Written(happenings, encode, draw))
  {
    ghost var whole := SendAll(response.State(), Written(happenings, encode, draw));
    var i := 0;
    assert happenings[0..] == happenings;
    while i < |happenings| && !Ends(happenings[i])
      invariant i <= |happenings|
      invariant whole == SendAll(response.State(), Written(happenings[i..], encode, draw))
    {
      WrittenFrom(happenings, i, encode, draw);
      if happenings[i].Arrived? && !CanDraw(happenings[i].event, draw) {
        i := i + 1;
        continue;
      }
      var item := KeepAlive;
      if happenings[i].Arrived? {
        item := ItemOf(PayloadOf(Change(happenings[i].event), draw), encode);
      }
      SendFirst(response.State(), item, Written(happenings[i + 1..], encode, draw));
      var ok := response.Send(item);
      if !ok {
        return;
      }
      i := i + 1;
    }
  }

  // ----- what the page reads ---------------------------------------------------------------

  /** The events that reach a connection before it ends. */
  function Received(happenings: seq<Happening>): seq<Event> {
    if happenings == [] || Ends(happenings[0]) then []
    else (if happenings[0].Arrived? then [happenings[0].event] else []) + Received(happenings[1..])
  }

  function DrawnOf(events: seq<Event>, draw: Renderer): seq<Event> {
    if events == [] then []
    else (if CanDraw(events[0], draw) then [events[0]] else []) + DrawnOf(events[1..], draw)
  }

  /** The frames of a connection: what can be drawn of the listing, and of every event received. */
  function FramesFor(listing: seq<Service>, happenings: seq<Happening>, draw: Renderer): seq<Frame> {
    [Sync(Drawable(InDisplayOrder(listing), draw))] + LivePages.Changes(DrawnOf(Received(happenings), draw))
  }

  /** When everything can be drawn, these are the frames of the protocol. */
  lemma {:induction false} AllFrames(listing: seq<Service>, happenings: seq<Happening>, draw: Renderer)
    requires forall s :: draw(s).Some?
    ensures FramesFor(listing, happenings, draw) == LivePages.Frames(listing, Received(happenings))
  {
    AllRender(InDisplayOrder(listing), draw);
    AllDrawn(Received(happenings), draw);
  }

  lemma {:induction false} AllRender(services: seq<Service>, draw: Renderer)
    requires forall s :: draw(s).Some?
    ensures Drawable(services, draw) == services
  {
    if services != [] { AllRender(services[..|services| - 1], draw); }
  }

  lemma {:induction false} AllDrawn(events: seq<Event>, draw: Renderer)
    requires forall s :: draw(s).Some?
    ensures DrawnOf(events, draw) == events
  {
    if events != [] { AllDrawn(events[1..], draw); }
  }

  /** Encoded payloads stay on one line, and the page decodes what the service encoded. */
  ghost predicate Faithful(encode: Payload -> string, decode: string -> Option<Payload>) {
    forall p {:trigger encode(p)} :: NoBreaks(encode(p)) && decode(encode(p)) == Some(p)
  }

  /** What a message tells the script: it has a listener for "sync" and one for "change", each of which
      can only use a payload of its own form; a message of any other name reaches nothing. */
  function Heard(message: Message, decode: string -> Option<Payload>): seq<Payload> {
    match decode(message.data)
    case Some(SyncPayload(services)) => if message.name == "sync" then [SyncPayload(services)] else []
    case Some(ChangePayload(action, id, name, html, notable)) =>
      if message.name == "change" then [ChangePayload(action, id, name, html, notable)] else []
    case None => []
  }

  /** A payload reaches the script through a message of the right name, and through no other. */
  lemma HeardByName(message: Message, decode: string -> Option<Payload>, p: Payload)
    ensures p in Heard(message, decode) <==>
              decode(message.data) == Some(p) && message.name == if p.SyncPayload? then "sync" else "change"
  {
  }

  function Decoded(messages: seq<Message>, decode: string -> Option<Payload>): seq<Payload> {
    if messages == [] then [] else Heard(messages[0], decode) + Decoded(messages[1..], decode)
  }

  lemma {:induction false} DecodedPrefix(messages: seq<Message>, n: nat, decode: string -> Option<Payload>)
    requires n <= |messages|
    ensures Decoded(messages[..n], decode) <= Decoded(messages, decode)
  {
    if n > 0 {
      DecodedPrefix(messages[1..], n - 1, decode);
      assert messages[..n][1..] == messages[1..][..n - 1];
    }
  }

  lemma {:induction false} MessagesPrefix(items: seq<Item>, n: nat)
    requires n <= |items|
    ensures |MessagesOf(items[..n])| <= |MessagesOf(items)|
    ensures MessagesOf(items[..n]) == MessagesOf(items)[..|MessagesOf(items[..n])|]
  {
    if n > 0 {
      MessagesPrefix(items[1..], n - 1);
      assert items[..n][1..] == items[1..][..n - 1];
    }
  }

  lemma {:induction false} ChangesFromFirst(events: seq<Event>)
    requires events != []
    ensures LivePages.Changes(events) == [Change(events[0])] + LivePages.Changes(events[1..])
  {
    var init := events[..|events| - 1];
    if init == [] {
      assert events[1..] == [];
    } else {
      ChangesFromFirst(init);
      assert events[1..][..|events| - 2] == init[1..];
    }
  }

  lemma {:induction false} DecodeFirst(
      payload: Payload, items: seq<Item>, encode: Payload -> string, decode: string -> Option<Payload>)
    requires Faithful(encode, decode)
    ensures Decoded(MessagesOf([ItemOf(payload, encode)] + items), decode)
            == [payload] + Decoded(MessagesOf(items), decode)
  {
    var message := Message(NameOf(payload), encode(payload), "");
    assert ([ItemOf(payload, encode)] + items)[1..] == items;
    assert ([message] + MessagesOf(items))[1..] == MessagesOf(items);
  }

  lemma {:induction false} CommentIsSilent(items: seq<Item>)
    ensures MessagesOf([KeepAlive] + items) == MessagesOf(items)
  {
    assert ([KeepAlive] + items)[1..] == items;
  }

  lemma PayloadsFirst(frame: Frame, rest: seq<Frame>, draw: Renderer)
    ensures PayloadsOf([frame] + rest, draw) == [PayloadOf(frame, draw)] + PayloadsOf(rest, draw)
  {
  }

  /** The payloads of the changes that can be drawn. */
  function ChangePayloads(events: seq<Event>, draw: Renderer): seq<Payload> {
    PayloadsOf(LivePages.Changes(DrawnOf(events, draw)), draw)
  }

  lemma FirstIsDrawn(event: Event, rest: seq<Event>, draw: Renderer)
    ensures ChangePayloads([event] + rest, draw)
            == (if CanDraw(event, draw) then [PayloadOf(Change(event), draw)] else []) + ChangePayloads(rest, draw)
  {
    var drawn := DrawnOf(rest, draw);
    assert ([event] + rest)[1..] == rest;
    if CanDraw(event, draw) {
      ChangesFromFirst([event] + drawn);
      assert ([event] + drawn)[1..] == drawn;
      PayloadsFirst(Change(event), LivePages.Changes(drawn), draw);
    } else {
      assert DrawnOf([event] + rest, draw) == drawn;
    }
  }

  lemma {:induction false} WrittenDecodes(
      happenings: seq<Happening>, encode: Payload -> string, draw: Renderer, decode: string -> Option<Payload>)
    requires Faithful(encode, decode)
    ensures Decoded(MessagesOf(Written(happenings, encode, draw)), decode) == ChangePayloads(Received(happenings), draw)
  {
    if happenings != [] && !Ends(happenings[0]) {
      var written := Written(happenings[1..], encode, draw);
      WrittenDecodes(happenings[1..], encode, draw, decode);
      assert [] + written == written;
      match happenings[0]
      case Arrived(e) =>
        assert Received(happenings) == [e] + Received(happenings[1..]);
        FirstIsDrawn(e, Received(happenings[1..]), draw);
        DecodeFirst(PayloadOf(Change(e), draw), written, encode, decode);
      case KeepAliveDue =>
        CommentIsSilent(written);
        assert Received(happenings) == Received(happenings[1..]);
    }
  }

  lemma NamesAreThere(payload: Payload, encode: Payload -> string, decode: string -> Option<Payload>)
    requires Faithful(encode, decode)
    ensures Writable(ItemOf(payload, encode))
  {
  }

  lemma {:induction false} WrittenIsWritable(
      happenings: seq<Happening>, encode: Payload -> string, draw: Renderer, decode: string -> Option<Payload>)
    requires Faithful(encode, decode)
    ensures AllWritable(Written(happenings, encode, draw))
  {
    if happenings != [] && !Ends(happenings[0]) {
      WrittenIsWritable(happenings[1..], encode, draw, decode);
      if happenings[0].Arrived? { NamesAreThere(PayloadOf(Change(happenings[0].event), draw), encode, decode); }
    }
  }

  /** The payloads a page decodes from a text. */
  function PayloadsRead(text: string, decode: string -> Option<Payload>): seq<Payload> {
    Decoded(Interpret(text), decode)
  }

  /** The payloads of a connection, one for each of its frames. */
  function PayloadsFor(listing: seq<Service>, happenings: seq<Happening>, draw: Renderer): seq<Payload> {
    PayloadsOf(FramesFor(listing, happenings, draw), draw)
  }

  lemma ItemsDecode(
      listing: seq<Service>, happenings: seq<Happening>, encode: Payload -> string, draw: Renderer,
      decode: string -> Option<Payload>)
    requires Faithful(encode, decode)
    ensures var items := Items(InDisplayOrder(listing), happenings, encode, draw);
            && AllWritable(items)
            && Decoded(MessagesOf(items), decode) == PayloadsFor(listing, happenings, draw)
  {
    var ordered := InDisplayOrder(listing);
    var sync := PayloadOf(Sync(ordered), draw);
    DrawableCanBeDrawn(ordered, draw);
    WrittenIsWritable(happenings, encode, draw, decode);
    NamesAreThere(sync, encode, decode);
    DecodeFirst(sync, Written(happenings, encode, draw), encode, decode);
    WrittenDecodes(happenings, encode, draw, decode);
    PayloadsFirst(Sync(Drawable(ordered, draw)), LivePages.Changes(DrawnOf(Received(happenings), draw)), draw);
  }

  /** However much gets out of a connection and however much of that arrives, the page reads the
      connection's payloads in order, none of them twice or in part; and all of them from all of it. */
  lemma PageReadsThePayloads(
      listing: seq<Service>, happenings: seq<Happening>, encode: Payload -> string, draw: Renderer,
      room: nat, flushes: nat, k: nat, decode: string -> Option<Payload>)
    requires Faithful(encode, decode)
    requires k <= |Sent(Items(InDisplayOrder(listing), happenings, encode, draw), room, flushes)|
    ensures var items := Items(InDisplayOrder(listing), happenings, encode, draw);
            var read := PayloadsRead(Sent(items, room, flushes)[..k], decode);
            && read <= PayloadsFor(listing, happenings, draw)
            && (k == |PrintAll(items)| ==> read == PayloadsFor(listing, happenings, draw))
  {
    var items := Items(InDisplayOrder(listing), happenings, encode, draw);
    SentIsPrefix(items, room, flushes);
    assert Sent(items, room, flushes)[..k] == PrintAll(items)[..k];
    ItemsDecode(listing, happenings, encode, draw, decode);
    CutStream(items, k);
    MessagesPrefix(items, Whole(items, k));
    DecodedPrefix(MessagesOf(items), |MessagesOf(items[..Whole(items, k)])|, decode);
    if k == |PrintAll(items)| {
      AllAreWhole(items);
      assert items[..|items|] == items;
    }
  }

  lemma {:induction false} WholeAtLeast(items: seq<Item>, n: nat, k: nat)
    requires n <= |items| && |PrintAll(items[..n])| <= k
    ensures n <= Whole(items, k)
  {
    if n > 0 {
      assert items[..n][1..] == items[1..][..n - 1];
      WholeAtLeast(items[1..], n - 1, k - |Print(items[0])|);
    }
  }

  lemma {:induction false} WrittenPrefix(
      happenings: seq<Happening>, j: nat, encode: Payload -> string, draw: Renderer)
    requires j <= |happenings|
    ensures Written(happenings[..j], encode, draw) <= Written(happenings, encode, draw)
  {
    if j > 0 && !Ends(happenings[0]) {
      WrittenPrefix(happenings[1..], j - 1, encode, draw);
      assert happenings[..j][1..] == happenings[1..][..j - 1];
    }
  }

  lemma {:induction false} DecodedSoFar(items: seq<Item>, past: seq<Item>, k: nat, decode: string -> Option<Payload>)
    requires AllWritable(items) && past <= items && |PrintAll(past)| <= k <= |PrintAll(items)|
    ensures Decoded(MessagesOf(past), decode) <= PayloadsRead(PrintAll(items)[..k], decode)
  {
    var n := |past|;
    assert items[..n] == past;
    WholeAtLeast(items, n, k);
    CutStream(items, k);
    var arrived := items[..Whole(items, k)];
    assert arrived[..n] == past;
    MessagesPrefix(arrived, n);
    DecodedPrefix(MessagesOf(arrived), |MessagesOf(past)|, decode);
  }

  /** Nothing is held back: the page reads the payloads of all that has happened once the text
      written for it has arrived. */
  lemma WhatArrivedIsRead(
      listing: seq<Service>, happenings: seq<Happening>, encode: Payload -> string, draw: Renderer,
      room: nat, flushes: nat, j: nat, k: nat, decode: string -> Option<Payload>)
    requires Faithful(encode, decode) && j <= |happenings|
    requires |PrintAll(Items(InDisplayOrder(listing), happenings[..j], encode, draw))| <= k
             <= |Sent(Items(InDisplayOrder(listing), happenings, encode, draw), room, flushes)|
    ensures var sent := Sent(Items(InDisplayOrder(listing), happenings, encode, draw), room, flushes);
            PayloadsFor(listing, happenings[..j], draw) <= PayloadsRead(sent[..k], decode)
  {
    var items := Items(InDisplayOrder(listing), happenings, encode, draw);
    var past := Items(InDisplayOrder(listing), happenings[..j], encode, draw);
    SentIsPrefix(items, room, flushes);
    assert Sent(items, room, flushes)[..k] == PrintAll(items)[..k];
    ItemsDecode(listing, happenings, encode, draw, decode);
    ItemsDecode(listing, happenings[..j], encode, draw, decode);
    WrittenPrefix(happenings, j, encode, draw);
    DecodedSoFar(items, past, k, decode);
  }
}
