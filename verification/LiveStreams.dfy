/** From a run of the protocol to the text a browser reads and the page it makes of it. */
module LiveStreams {
  import opened Domain
  import opened Snapshots
  import opened Hubs
  import opened SortKeys
  import opened Rows
  import opened Pages
  import opened Scripts
  import opened LiveUpdates
  import opened Convergence
  import opened SerialUpdates
  import opened LivePages
  import opened News
  import Connections
  import EventStreams

  /** The events a run delivers to a connection, one for each step that finds one waiting. */
  ghost function Arrivals(steps: seq<Step>, c: nat): seq<Event> {
    if steps == [] then []
    else Arrivals(steps[..|steps| - 1], c) + Delivered(Run(steps[..|steps| - 1]), steps[|steps| - 1], c)
  }

  ghost function Delivered(s: System, step: Step, c: nat): seq<Event> {
    if step == Deliver(c) && c in s.connections && s.connections[c].Live?
       && c < |s.hub.chans| && s.hub.chans[c].buffer != []
    then [s.hub.chans[c].buffer[0]]
    else []
  }

  lemma OpReceives(s: HubState, op: Op, h: nat)
    requires WellKept(s) && h < |HubStep(s, op).chans|
    ensures HubStep(s, op).chans[h].received
            == if h >= |s.chans| then []
               else s.chans[h].received
                    + if op == Receive(h) && s.chans[h].buffer != [] then [s.chans[h].buffer[0]] else []
  {
    if h < |s.chans| {
      assert s.chans[h].received + [] == s.chans[h].received;
    }
  }

  lemma StepDelivers(s: System, step: Step, c: nat)
    requires HubInv(s.hub) && c < |Next(s, step).hub.chans|
    ensures Next(s, step).hub.chans[c].received
            == (if c < |s.hub.chans| then s.hub.chans[c].received else []) + Delivered(s, step, c)
  {
    var ops := HubOps(s, step);
    if ops != [] {
      assert Next(s, step).hub == HubStep(s.hub, ops[0]);
      OpReceives(s.hub, ops[0], c);
    } else {
      assert Next(s, step).hub == s.hub;
      assert s.hub.chans[c].received + [] == s.hub.chans[c].received;
    }
  }

  lemma ChansStay(s: System, step: Step)
    ensures |s.hub.chans| <= |Next(s, step).hub.chans|
  {
    if HubOps(s, step) != [] {
      assert Next(s, step).hub == HubStep(s.hub, HubOps(s, step)[0]);
    }
  }

  lemma {:induction false} ArrivalsAreReceived(steps: seq<Step>, c: nat)
    ensures Arrivals(steps, c) == if c < |Run(steps).hub.chans| then Run(steps).hub.chans[c].received else []
  {
    if steps != [] {
      var init, step := steps[..|steps| - 1], steps[|steps| - 1];
      ArrivalsAreReceived(init, c);
      RunIsAttached(init);
      ChansStay(Run(init), step);
      if c < |Run(steps).hub.chans| {
        StepDelivers(Run(init), step, c);
      }
    }
  }

  /** A connection's loop was woken by the events the run delivered to it, and by any number of
      keep-alives besides. */
  ghost predicate Records(happenings: seq<Connections.Happening>, steps: seq<Step>, c: nat) {
    Connections.Received(happenings) == Arrivals(steps, c)
  }

  /** A row that is drawn of a service, or of what it was when the page last had reason to redraw it. */
  ghost predicate LooksLike(row: Row<string>, service: Service, draw: Renderer) {
    && row.id == service.containerID && row.key == SortKey(service) && row.online == service.Online()
    && exists shown :: SameRow(Some(shown), Some(service)) && row.content == Html(shown, draw)
  }

  /** What is drawn of a service is what is compared of it, so that a row need not be redrawn while
      that stays the same. */
  ghost predicate DrawsOnlyCompared(draw: Renderer) {
    forall x, y :: SameRow(Some(x), Some(y)) ==> draw(x) == draw(y)
  }

  /** A page shows the services of a listing, in order, and totals that are right. */
  ghost predicate LooksAsListed(page: PageState<string>, listing: seq<Service>, draw: Renderer, runningOnly: bool) {
    var ordered := InDisplayOrder(listing);
    && |page.rows| == |listing| == |ordered|
    && (forall i :: 0 <= i < |page.rows| ==> LooksLike(page.rows[i], ordered[i], draw))
    && page.online == CountOnline(listing) && page.online + page.offline == |listing|
    && (page.emptyHidden <==> if runningOnly then CountOnline(listing) > 0 else listing != [])
  }

  lemma SameLookIsDrawn(row: Row<Service>, service: Service, draw: Renderer)
    requires SameLook(row, RenderRow(service))
    ensures LooksLike(DrawRow(row, draw), service, draw)
    ensures DrawsOnlyCompared(draw) ==> DrawRow(row, draw) == DrawRow(RenderRow(service), draw)
  {
    assert SameRow(Some(row.content), Some(service));
  }

  lemma SameLooksAreDrawn(rows: seq<Row<Service>>, services: seq<Service>, draw: Renderer)
    requires |rows| == |services| && forall i :: 0 <= i < |rows| ==> SameLook(rows[i], RenderRow(services[i]))
    ensures forall i :: 0 <= i < |rows| ==> LooksLike(DrawRows(rows, draw)[i], services[i], draw)
  {
    forall i | 0 <= i < |rows| ensures LooksLike(DrawRows(rows, draw)[i], services[i], draw) {
      SameLookIsDrawn(rows[i], services[i], draw);
    }
  }

  lemma {:induction false} SameLooksAreTheSame(rows: seq<Row<Service>>, services: seq<Service>, draw: Renderer)
    requires |rows| == |services| && forall i :: 0 <= i < |rows| ==> SameLook(rows[i], RenderRow(services[i]))
    requires DrawsOnlyCompared(draw)
    ensures DrawRows(rows, draw) == DrawRows(RenderAll(services), draw)
  {
  }

  /** End to end, over the wire: once a connection that kept the last event about each container has
      caught up, a page that reads all of its text shows the current snapshot, whatever it showed
      before: the rows a reload would draw, each as it was when last there was reason to redraw it,
      and the same totals. If nothing else is drawn than is compared, the rows are those of a reload
      exactly. */
  lemma {:induction false} StreamedPageShowsSnapshot(
      steps: seq<Step>, c: nat, page: PageState<string>, runningOnly: bool, current: seq<Service>,
      happenings: seq<Connections.Happening>, draw: Renderer, parse: Parser, encode: Payload -> string,
      decode: string -> Option<Payload>)
    requires CaughtUp(Run(steps), c) && (forall id :: SerialFor(steps, id))
    requires forall id :: LastKept(Run(steps).hub.chans[c], id)
    requires forall id :: ListedAsSince(Run(steps), c, id)
    requires var listing := Run(steps).connections[c].listing;
             DistinctIDs(listing) && forall s :: s in listing ==> Placeable(s)
    requires forall e :: e in Run(steps).hub.chans[c].received ==> Placeable(e.service)
    requires DistinctIDs(current) && Index(current) == Run(steps).snapshot
    requires forall s :: s in current ==> Placeable(s)
    requires Records(happenings, steps, c) && (forall s :: draw(s).Some?)
    requires Draws(draw, parse) && Connections.Faithful(encode, decode)
    ensures var listing := InDisplayOrder(Run(steps).connections[c].listing);
            var body := EventStreams.PrintAll(Connections.Items(listing, happenings, encode, draw));
            var after := PageAfterPayloads(page, Connections.PayloadsRead(body, decode), parse, runningOnly);
            && LooksAsListed(after, current, draw, runningOnly)
            && (DrawsOnlyCompared(draw) ==> after.rows == DrawRows(RenderAll(InDisplayOrder(current)), draw))
  {
    var listing := Run(steps).connections[c].listing;
    var model := PageState([], 0, 0, false);
    ArrivalsAreReceived(steps, c);
    WholeBodyIsPayloads(listing, happenings, draw, encode, decode);
    PageDraws(page, model, Frames(listing, Connections.Received(happenings)), draw, parse, runningOnly);
    PageComesToShowSnapshot(steps, c, model, runningOnly, current);
    var after := PageAfter(model, Frames(listing, Run(steps).hub.chans[c].received), runningOnly);
    SameLooksAreDrawn(after.rows, InDisplayOrder(current), draw);
    if DrawsOnlyCompared(draw) { SameLooksAreTheSame(after.rows, InDisplayOrder(current), draw); }
  }

  lemma {:induction false} WholeBodyIsPayloads(
      listing: seq<Service>, happenings: seq<Connections.Happening>, draw: Renderer, encode: Payload -> string,
      decode: string -> Option<Payload>)
    requires (forall s :: draw(s).Some?) && Connections.Faithful(encode, decode)
    ensures var items := Connections.Items(InDisplayOrder(listing), happenings, encode, draw);
            var frames := Frames(listing, Connections.Received(happenings));
            && Connections.PayloadsRead(EventStreams.PrintAll(items), decode) == PayloadsOf(frames, draw)
            && forall f :: f in frames ==> IsDrawable(f, draw)
  {
    forall f: Frame ensures IsDrawable(f, draw) {}
    var items := Connections.Items(InDisplayOrder(listing), happenings, encode, draw);
    var body := EventStreams.PrintAll(items);
    Connections.SentIsPrefix(items, |body|, |items|);
    Connections.PageReadsThePayloads(listing, happenings, encode, draw, |body|, |items|, |body|, decode);
    Connections.AllFrames(listing, happenings, draw);
    assert body[..|body|] == body;
  }

  // ----- what is told is news ------------------------------------------------------------------

  /** The payload tells what happened to its container between snapshot `i` and the one after it. */
  ghost predicate TellsAt(history: seq<Snapshot>, p: Payload, i: int, draw: Renderer) {
    && 0 <= i < |history| && p.ChangePayload?
    && Tells(p, Lookup(Latest(history[..i]), p.id), Lookup(Latest(history[..i + 1]), p.id), draw)
  }

  lemma {:induction false} DrawnWasReceived(events: seq<Event>, e: Event, draw: Renderer)
    requires e in Connections.DrawnOf(events, draw)
    ensures e in events && CanDraw(e, draw)
  {
    if e in Connections.DrawnOf(events[1..], draw) { DrawnWasReceived(events[1..], e, draw); }
  }

  lemma {:induction false} ChangesAre(events: seq<Event>, f: Frame)
    requires f in Changes(events)
    ensures f.Change? && f.event in events
  {
    if f in Changes(events[..|events| - 1]) { ChangesAre(events[..|events| - 1], f); }
  }

  /** A payload that is a change is that of an event received, which could be drawn. */
  lemma PayloadIsOfEvent(
      listing: seq<Service>, happenings: seq<Connections.Happening>, draw: Renderer, p: Payload) returns (e: Event)
    requires p in Connections.PayloadsFor(listing, happenings, draw) && p.ChangePayload?
    ensures p == PayloadOf(Change(e), draw) && e in Connections.Received(happenings) && CanDraw(e, draw)
  {
    var frames := Connections.FramesFor(listing, happenings, draw);
    var k :| 0 <= k < |frames| && p == PayloadOf(frames[k], draw);
    var drawn := Connections.DrawnOf(Connections.Received(happenings), draw);
    assert frames[k] in frames && frames[k] in Changes(drawn);
    ChangesAre(drawn, frames[k]);
    e := frames[k].event;
    DrawnWasReceived(Connections.Received(happenings), e, draw);
  }

  lemma ReadIsOfConnection(read: seq<Payload>, all: seq<Payload>, p: Payload)
    requires read <= all && p in read
    ensures p in all
  {
  }

  /** However much gets out of a connection and arrives, every change its page decodes tells what
      happened to a container between two snapshots that followed each other: that it came or went, or
      how it is now, with something of it to be redrawn; and it is notable exactly when more than the
      status differs. */
  lemma {:induction false} EveryPayloadIsNews(
      steps: seq<Step>, c: nat, listing: seq<Service>, happenings: seq<Connections.Happening>, draw: Renderer,
      encode: Payload -> string, room: nat, flushes: nat, text: string, decode: string -> Option<Payload>, p: Payload)
    requires Records(happenings, steps, c) && Connections.Faithful(encode, decode)
    requires text <= Connections.Sent(
                       Connections.Items(InDisplayOrder(listing), happenings, encode, draw), room, flushes)
    requires p in Connections.PayloadsRead(text, decode) && p.ChangePayload?
    ensures exists i :: TellsAt(Run(steps).history, p, i, draw)
  {
    var sent := Connections.Sent(
      Connections.Items(InDisplayOrder(listing), happenings, encode, draw), room, flushes);
    assert sent[..|text|] == text;
    Connections.PageReadsThePayloads(listing, happenings, encode, draw, room, flushes, |text|, decode);
    ReadIsOfConnection(Connections.PayloadsRead(text, decode), Connections.PayloadsFor(listing, happenings, draw), p);
    var e := PayloadIsOfEvent(listing, happenings, draw, p);
    PayloadIsNews(steps, c, e, draw);
  }

  lemma {:induction false} PayloadIsNews(steps: seq<Step>, c: nat, e: Event, draw: Renderer)
    requires e in Arrivals(steps, c) && CanDraw(e, draw)
    ensures exists i :: TellsAt(Run(steps).history, PayloadOf(Change(e), draw), i, draw)
  {
    ArrivalsAreReceived(steps, c);
    ReceivedIsNews(steps, c, e);
    var history := Run(steps).history;
    var i :| SaysAt(history, e, i);
    PayloadTells(e, Lookup(Latest(history[..i]), ID(e)), Lookup(Latest(history[..i + 1]), ID(e)), draw);
    assert TellsAt(history, PayloadOf(Change(e), draw), i, draw);
  }

  /** Between snapshot `i` and the one after it, the container came, or more than its status changed. */
  ghost predicate Noteworthy(history: seq<Snapshot>, id: string, i: int) {
    && 0 <= i < |history| && id in Latest(history[..i + 1])
    && (id in Latest(history[..i]) ==> !OnlyStatus(Latest(history[..i])[id], Latest(history[..i + 1])[id]))
  }

  lemma FlashIsNoteworthy(history: seq<Snapshot>, p: Payload, i: int, draw: Renderer, parse: Parser)
    requires TellsAt(history, p, i, draw) && Draws(draw, parse)
    requires p.action != "removed" && p.notable && parse(p.html).Some?
    ensures Noteworthy(history, parse(p.html).value.id, i)
  {
    var after := Lookup(Latest(history[..i + 1]), p.id);
    assert draw(after.value) == Some(p.html);
  }

  /** A row only ever flashes for what happened to its container, and never because the clock moved
      on under it. */
  lemma {:induction false} FlashesAreNews(
      steps: seq<Step>, c: nat, listing: seq<Service>, happenings: seq<Connections.Happening>, draw: Renderer,
      encode: Payload -> string, room: nat, flushes: nat, text: string, decode: string -> Option<Payload>,
      parse: Parser, id: string)
    requires Records(happenings, steps, c) && Connections.Faithful(encode, decode) && Draws(draw, parse)
    requires text <= Connections.Sent(
                       Connections.Items(InDisplayOrder(listing), happenings, encode, draw), room, flushes)
    requires id in Flashes(Connections.PayloadsRead(text, decode), parse)
    ensures exists i :: Noteworthy(Run(steps).history, id, i)
  {
    var read := Connections.PayloadsRead(text, decode);
    FlashIsOfPayload(read, parse, id);
    var p :| p in read && p.ChangePayload? && p.action != "removed" && p.notable
             && parse(p.html).Some? && parse(p.html).value.id == id;
    EveryPayloadIsNews(steps, c, listing, happenings, draw, encode, room, flushes, text, decode, p);
    var i :| TellsAt(Run(steps).history, p, i, draw);
    FlashIsNoteworthy(Run(steps).history, p, i, draw, parse);
  }
}
