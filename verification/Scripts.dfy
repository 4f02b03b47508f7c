/** What is sent of a service, and what the script of a page makes of it: the payloads of
    internal/adapters/realtime/handler.go, and the listeners of
    internal/adapters/web/static/handlers/files/js/app.js. */
module Scripts {
  import opened Domain
  import opened Snapshots
  import opened SortKeys
  import opened Rows
  import opened Pages

  // ----- payloads ------------------------------------------------------------------------

  datatype RowPayload = RowPayload(id: string, html: string)

  /** A removal carries no markup: the row is only being taken away. */
  datatype Payload =
    | SyncPayload(services: seq<RowPayload>)
    | ChangePayload(action: string, id: string, name: string, html: string, notable: bool)

  /** Draws a service for the page a connection belongs to, or fails to. */
  type Renderer = Service -> Option<string>

  function Html(service: Service, draw: Renderer): string {
    match draw(service)
    case Some(html) => html
    case None => ""
  }

  /** A service that cannot be drawn is left out of a listing. */
  function RowPayloads(services: seq<Service>, draw: Renderer): seq<RowPayload> {
    if services == [] then []
    else
      var last := services[|services| - 1];
      RowPayloads(services[..|services| - 1], draw)
      + if draw(last).Some? then [RowPayload(last.containerID, draw(last).value)] else []
  }

  function PayloadOf(frame: Frame, draw: Renderer): Payload {
    match frame
    case Sync(services) => SyncPayload(RowPayloads(services, draw))
    case Change(e) =>
      var html := if e.action.Removed? then "" else Html(e.service, draw);
      ChangePayload(ActionText(e.action), ID(e), e.service.name, html, e.notable)
  }

  function PayloadsOf(frames: seq<Frame>, draw: Renderer): seq<Payload> {
    seq(|frames|, i requires 0 <= i < |frames| => PayloadOf(frames[i], draw))
  }

  // ----- what the listeners do with them ----------------------------------------------------

  /** Markup made into a row, if there is an element in it. */
  type Parser = string -> Option<Row<string>>

  function ParseRows(payloads: seq<RowPayload>, parse: Parser): seq<Row<string>> {
    if payloads == [] then []
    else
      var row := parse(payloads[|payloads| - 1].html);
      ParseRows(payloads[..|payloads| - 1], parse) + if row.Some? then [row.value] else []
  }

  function Upsert(rows: seq<Row<string>>, id: string, html: string, parse: Parser): seq<Row<string>> {
    match parse(html)
    case None => rows
    case Some(row) => InsertRow(RemoveRow(rows, id), row)
  }

  function RowsAfterPayload(rows: seq<Row<string>>, payload: Payload, parse: Parser): seq<Row<string>> {
    match payload
    case SyncPayload(services) => ParseRows(services, parse)
    case ChangePayload(action, id, _, html, _) =>
      if action == "removed" then RemoveRow(rows, id) else Upsert(rows, id, html, parse)
  }

  function OnPayload(page: PageState<string>, payload: Payload, parse: Parser, runningOnly: bool): PageState<string> {
    Recounted(RowsAfterPayload(page.rows, payload, parse), runningOnly)
  }

  function PageAfterPayloads(
      page: PageState<string>, payloads: seq<Payload>, parse: Parser, runningOnly: bool): PageState<string>
  {
    if payloads == [] then page
    else
      var before := PageAfterPayloads(page, payloads[..|payloads| - 1], parse, runningOnly);
      OnPayload(before, payloads[|payloads| - 1], parse, runningOnly)
  }

  /** The row an upsert flashes, by its ID: only a notable one does. */
  function Flashed(html: string, notable: bool, parse: Parser): seq<string> {
    if parse(html).Some? && notable then [parse(html).value.id] else []
  }

  /** The rows that flash as payloads arrive. */
  function Flashes(payloads: seq<Payload>, parse: Parser): seq<string> {
    if payloads == [] then []
    else
      Flashes(payloads[..|payloads| - 1], parse)
      + match payloads[|payloads| - 1]
        case SyncPayload(_) => []
        case ChangePayload(action, _, _, html, notable) =>
          if action == "removed" then [] else Flashed(html, notable, parse)
  }

  /** What a payload tells of a container that was as in one snapshot and is as in the next. */
  ghost predicate Tells(p: Payload, before: Option<Service>, after: Option<Service>, draw: Renderer) {
    && p.ChangePayload?
    && match (before, after)
       case (None, Some(y)) =>
         p.action == "added" && p.id == y.containerID && p.name == y.name && draw(y) == Some(p.html) && p.notable
       case (Some(x), Some(y)) =>
         && p.action == "updated" && p.id == y.containerID && p.name == y.name && draw(y) == Some(p.html)
         && !Unredrawn(x, y) && (p.notable <==> !OnlyStatus(x, y))
       case (Some(x), None) =>
         p.action == "removed" && p.id == x.containerID && p.name == x.name && p.html == "" && p.notable
       case _ => false
  }

  lemma PayloadTells(e: Event, before: Option<Service>, after: Option<Service>, draw: Renderer)
    requires Says(e, before, after) && CanDraw(e, draw)
    ensures Tells(PayloadOf(Change(e), draw), before, after, draw)
  {
  }

  /** The containers that come or are updated notably, in turn. */
  function Noticed(frames: seq<Frame>): seq<string> {
    if frames == [] then []
    else
      Noticed(frames[..|frames| - 1])
      + match frames[|frames| - 1]
        case Sync(_) => []
        case Change(e) => if e.notable && !e.action.Removed? then [ID(e)] else []
  }

  lemma FrameFlashes(frame: Frame, draw: Renderer, parse: Parser)
    requires Draws(draw, parse) && IsDrawable(frame, draw)
    ensures Flashes([PayloadOf(frame, draw)], parse) == Noticed([frame])
  {
    assert [PayloadOf(frame, draw)][..0] == [] && [frame][..0] == [];
  }

  lemma {:induction false} FlashesInTurn(init: seq<Payload>, last: Payload, parse: Parser)
    ensures Flashes(init + [last], parse) == Flashes(init, parse) + Flashes([last], parse)
  {
    assert (init + [last])[..|init|] == init && [last][..0] == [];
  }

  lemma {:induction false} NoticedInTurn(init: seq<Frame>, last: Frame)
    ensures Noticed(init + [last]) == Noticed(init) + Noticed([last])
  {
    assert (init + [last])[..|init|] == init && [last][..0] == [];
  }

  /** Exactly the rows of notable upserts flash, each as it arrives; those of a listing do not. */
  lemma {:induction false} FlashesExactly(frames: seq<Frame>, draw: Renderer, parse: Parser)
    requires Draws(draw, parse) && forall f :: f in frames ==> IsDrawable(f, draw)
    ensures Flashes(PayloadsOf(frames, draw), parse) == Noticed(frames)
  {
    if frames != [] {
      var init, last := frames[..|frames| - 1], frames[|frames| - 1];
      assert frames == init + [last];
      assert PayloadsOf(frames, draw) == PayloadsOf(init, draw) + [PayloadOf(last, draw)];
      FlashesExactly(init, draw, parse);
      FlashesInTurn(PayloadsOf(init, draw), PayloadOf(last, draw), parse);
      FrameFlashes(last, draw, parse);
      NoticedInTurn(init, last);
    }
  }

  lemma {:induction false} FlashIsOfPayload(payloads: seq<Payload>, parse: Parser, id: string)
    requires id in Flashes(payloads, parse)
    ensures exists p :: p in payloads && p.ChangePayload? && p.action != "removed" && p.notable
                        && parse(p.html).Some? && parse(p.html).value.id == id
  {
    var init, last := payloads[..|payloads| - 1], payloads[|payloads| - 1];
    if id in Flashes(init, parse) {
      FlashIsOfPayload(init, parse, id);
    } else {
      assert last in payloads;
    }
  }

  // ----- the script --------------------------------------------------------------------------

  class Page {
    const runningOnly: bool
    const parse: Parser
    var rows: seq<Row<string>>
    var countOnline: nat
    var countOffline: nat
    var emptyHidden: bool
    var flashes: seq<string>

    ghost function State(): PageState<string>
      reads this
    {
      PageState(rows, countOnline, countOffline, emptyHidden)
    }

    /** The page as the server rendered it. */
    constructor (page: PageState<string>, parse: Parser, runningOnly: bool)
      ensures this.parse == parse && this.runningOnly == runningOnly && State() == page && flashes == []
    {
      flashes := [];
      this.parse, this.runningOnly := parse, runningOnly;
      rows, countOnline, countOffline, emptyHidden := page.rows, page.online, page.offline, page.emptyHidden;
    }

    /** The first row with the ID, as `querySelector` finds it. */
    method Find(id: string) returns (found: Option<nat>)
      ensures found.Some? ==> FirstWithID(rows, id, found.value)
      ensures found.None? ==> forall j :: 0 <= j < |rows| ==> rows[j].id != id
    {
      for i := 0 to |rows|
        invariant forall j :: 0 <= j < i ==> rows[j].id != id
      {
        if rows[i].id == id {
          return Some(i);
        }
      }
      found := None;
    }

    method Remove(id: string)
      modifies this`rows
      ensures rows == RemoveRow(old(rows), id)
    {
      var existing := Find(id);
      RemoveRowMeans(rows, id);
      if existing.Some? {
        rows := rows[..existing.value] + rows[existing.value + 1..];
      }
    }

    method Insert(row: Row<string>)
      modifies this`rows
      ensures rows == InsertRow(old(rows), row)
    {
      var i := 0;
      while i < |rows|
        invariant i <= |rows| && rows == old(rows)
        invariant InsertRow(rows, row) == rows[..i] + InsertRow(rows[i..], row)
      {
        InsertFrom(rows, row, i);
        if JsAfter(rows[i].key, row.key) {
          rows := rows[..i] + ([row] + rows[i..]);
          return;
        }
        i := i + 1;
      }
      assert rows[..i] == rows;
      rows := rows + [row];
    }

    method Upserts(id: string, html: string, notable: bool)
      modifies this`rows, this`flashes
      ensures rows == Upsert(old(rows), id, html, parse)
      ensures flashes == old(flashes) + Flashed(html, notable, parse)
    {
      var row := parse(html);
      if row.None? {
        return;
      }
      Remove(id);
      Insert(row.value);
      if notable {
        flashes := flashes + [row.value.id];
      }
    }

    method Recount()
      modifies this`countOnline, this`countOffline, this`emptyHidden
      ensures State() == Recounted(rows, runningOnly)
    {
      var online := 0;
      for i := 0 to |rows|
        invariant online == OnlineRows(rows[..i])
      {
        if rows[i].online {
          online := online + 1;
        }
        assert rows[..i + 1][..i] == rows[..i];
      }
      assert rows[..|rows|] == rows;
      OnlineRowsAreRows(rows);
      countOnline := online;
      countOffline := |rows| - online;
      emptyHidden := (if runningOnly then online else |rows|) > 0;
    }

    /** The `sync` listener. */
    method OnSync(services: seq<RowPayload>)
      modifies this
      ensures State() == OnPayload(old(State()), SyncPayload(services), parse, runningOnly)
      ensures flashes == old(flashes)
    {
      rows := [];
      for i := 0 to |services|
        invariant rows == ParseRows(services[..i], parse) && flashes == old(flashes)
      {
        var row := parse(services[i].html);
        if row.Some? {
          rows := rows + [row.value];
        }
        assert services[..i + 1][..i] == services[..i];
      }
      assert services[..|services|] == services;
      Recount();
    }

    /** The `change` listener: any action but one is an upsert. */
    method OnChange(action: string, id: string, name: string, html: string, notable: bool)
      modifies this
      ensures State() == OnPayload(old(State()), ChangePayload(action, id, name, html, notable), parse, runningOnly)
      ensures flashes == old(flashes) + Flashes([ChangePayload(action, id, name, html, notable)], parse)
    {
      if action == "removed" {
        Remove(id);
      } else {
        Upserts(id, html, notable);
      }
      Recount();
    }
  }

  // ----- the script does to drawn rows what frames do to services ------------------------------

  /** Markup that is drawn of a service is a row with that service's attributes. */
  ghost predicate Draws(draw: Renderer, parse: Parser) {
    forall s {:trigger draw(s)} :: draw(s).Some? ==>
      parse(draw(s).value) == Some(Row(s.containerID, SortKey(s), s.Online(), draw(s).value))
  }

  function DrawRow(row: Row<Service>, draw: Renderer): Row<string> {
    Row(row.id, row.key, row.online, Html(row.content, draw))
  }

  function DrawRows(rows: seq<Row<Service>>, draw: Renderer): seq<Row<string>> {
    seq(|rows|, i requires 0 <= i < |rows| => DrawRow(rows[i], draw))
  }

  function DrawPage(page: PageState<Service>, draw: Renderer): PageState<string> {
    PageState(DrawRows(page.rows, draw), page.online, page.offline, page.emptyHidden)
  }

  /** The services of a listing that can be drawn. */
  function Drawable(services: seq<Service>, draw: Renderer): seq<Service> {
    if services == [] then []
    else
      var last := services[|services| - 1];
      Drawable(services[..|services| - 1], draw) + if draw(last).Some? then [last] else []
  }

  predicate CanDraw(event: Event, draw: Renderer) {
    event.action.Removed? || draw(event.service).Some?
  }

  /** A frame of which everything can be drawn. */
  predicate IsDrawable(frame: Frame, draw: Renderer) {
    match frame
    case Sync(services) => forall i :: 0 <= i < |services| ==> draw(services[i]).Some?
    case Change(e) => CanDraw(e, draw)
  }

  lemma {:induction false} OneMoreService(services: seq<Service>, last: Service, draw: Renderer)
    requires draw(last).Some?
    ensures RowPayloads(services + [last], draw)
            == RowPayloads(services, draw) + [RowPayload(last.containerID, draw(last).value)]
  {
    assert (services + [last])[..|services|] == services;
  }

  lemma {:induction false} DrawableCanBeDrawn(services: seq<Service>, draw: Renderer)
    ensures IsDrawable(Sync(Drawable(services, draw)), draw)
    ensures RowPayloads(Drawable(services, draw), draw) == RowPayloads(services, draw)
  {
    if services != [] {
      var init, last := services[..|services| - 1], services[|services| - 1];
      DrawableCanBeDrawn(init, draw);
      if draw(last).Some? {
        OneMoreService(Drawable(init, draw), last, draw);
      } else {
        assert Drawable(services, draw) == Drawable(init, draw);
        assert RowPayloads(services, draw) == RowPayloads(init, draw);
      }
    }
  }

  lemma {:induction false} RemoveDrawn(rows: seq<Row<Service>>, id: string, draw: Renderer)
    ensures RemoveRow(DrawRows(rows, draw), id) == DrawRows(RemoveRow(rows, id), draw)
  {
    if rows != [] {
      assert DrawRows(rows, draw)[1..] == DrawRows(rows[1..], draw);
      if rows[0].id != id {
        RemoveDrawn(rows[1..], id, draw);
        DrawFirst(rows[0], RemoveRow(rows[1..], id), draw);
      }
    }
  }

  lemma DrawFirst(row: Row<Service>, rows: seq<Row<Service>>, draw: Renderer)
    ensures DrawRows([row] + rows, draw) == [DrawRow(row, draw)] + DrawRows(rows, draw)
  {
  }

  lemma {:induction false} InsertDrawn(rows: seq<Row<Service>>, row: Row<Service>, draw: Renderer)
    ensures InsertRow(DrawRows(rows, draw), DrawRow(row, draw)) == DrawRows(InsertRow(rows, row), draw)
  {
    if rows == [] {
      assert DrawRows([row], draw) == [DrawRow(row, draw)];
    } else {
      assert DrawRows(rows, draw)[1..] == DrawRows(rows[1..], draw);
      if JsAfter(rows[0].key, row.key) {
        DrawFirst(row, rows, draw);
      } else {
        InsertDrawn(rows[1..], row, draw);
        DrawFirst(rows[0], InsertRow(rows[1..], row), draw);
      }
    }
  }

  lemma {:induction false} OneMoreRow(payloads: seq<RowPayload>, last: RowPayload, row: Row<string>, parse: Parser)
    requires parse(last.html) == Some(row)
    ensures ParseRows(payloads + [last], parse) == ParseRows(payloads, parse) + [row]
  {
    assert (payloads + [last])[..|payloads|] == payloads;
  }

  lemma {:induction false} RenderLast(services: seq<Service>, last: Service)
    ensures RenderAll(services + [last]) == RenderAll(services) + [RenderRow(last)]
  {
    if services != [] {
      assert (services + [last])[1..] == services[1..] + [last];
      RenderLast(services[1..], last);
    }
  }

  lemma DrawLast(rows: seq<Row<Service>>, last: Row<Service>, draw: Renderer)
    ensures DrawRows(rows + [last], draw) == DrawRows(rows, draw) + [DrawRow(last, draw)]
  {
  }

  lemma DrawnIsParsed(service: Service, draw: Renderer, parse: Parser)
    requires Draws(draw, parse) && draw(service).Some?
    ensures parse(draw(service).value) == Some(DrawRow(RenderRow(service), draw))
  {
  }

  ghost predicate ListedAsDrawn(services: seq<Service>, draw: Renderer, parse: Parser) {
    ParseRows(RowPayloads(services, draw), parse) == DrawRows(RenderAll(services), draw)
  }

  lemma NothingListed(draw: Renderer, parse: Parser)
    ensures ListedAsDrawn([], draw, parse)
  {
  }

  lemma ListingDrawnOnce(services: seq<Service>, last: Service, draw: Renderer, parse: Parser)
    requires Draws(draw, parse) && draw(last).Some?
    requires ListedAsDrawn(services, draw, parse)
    ensures ListedAsDrawn(services + [last], draw, parse)
  {
    var row := RenderRow(last);
    DrawnIsParsed(last, draw, parse);
    OneMoreService(services, last, draw);
    OneMoreRow(RowPayloads(services, draw), RowPayload(last.containerID, draw(last).value), DrawRow(row, draw), parse);
    RenderLast(services, last);
    DrawLast(RenderAll(services), row, draw);
  }

  lemma {:induction false} ListingDrawn(services: seq<Service>, draw: Renderer, parse: Parser)
    requires Draws(draw, parse) && IsDrawable(Sync(services), draw)
    ensures ListedAsDrawn(services, draw, parse)
  {
    if services == [] {
      NothingListed(draw, parse);
    } else {
      var init, last := services[..|services| - 1], services[|services| - 1];
      assert services == init + [last];
      ListingDrawn(init, draw, parse);
      ListingDrawnOnce(init, last, draw, parse);
    }
  }

  /** A listener does to the rows drawn of some services what its frame does to the services. */
  lemma PayloadDraws(rows: seq<Row<Service>>, frame: Frame, draw: Renderer, parse: Parser)
    requires Draws(draw, parse) && IsDrawable(frame, draw)
    ensures RowsAfterPayload(DrawRows(rows, draw), PayloadOf(frame, draw), parse)
            == DrawRows(RowsAfter(rows, frame), draw)
  {
    match frame
    case Sync(services) => ListingDrawn(services, draw, parse);
    case Change(e) =>
      RemoveDrawn(rows, ID(e), draw);
      if !e.action.Removed? {
        InsertDrawn(RemoveRow(rows, ID(e)), RenderRow(e.service), draw);
      }
  }

  lemma {:induction false} CountDrawn(rows: seq<Row<Service>>, draw: Renderer)
    ensures OnlineRows(DrawRows(rows, draw)) == OnlineRows(rows)
  {
    if rows != [] {
      CountDrawn(rows[..|rows| - 1], draw);
      assert DrawRows(rows, draw)[..|rows| - 1] == DrawRows(rows[..|rows| - 1], draw);
    }
  }

  lemma FrameDraws(page: PageState<string>, rows: seq<Row<Service>>, frame: Frame, draw: Renderer, parse: Parser,
                   runningOnly: bool)
    requires Draws(draw, parse) && IsDrawable(frame, draw) && (frame.Sync? || page.rows == DrawRows(rows, draw))
    ensures OnPayload(page, PayloadOf(frame, draw), parse, runningOnly)
            == DrawPage(Recounted(RowsAfter(rows, frame), runningOnly), draw)
  {
    PayloadDraws(rows, frame, draw, parse);
    CountDrawn(RowsAfter(rows, frame), draw);
  }

  /** Whatever a page showed before, from its first `sync` on it shows what is drawn of the services
      the frames leave. */
  lemma {:induction false} PageDraws(
      page: PageState<string>, model: PageState<Service>, frames: seq<Frame>, draw: Renderer, parse: Parser,
      runningOnly: bool)
    requires Draws(draw, parse) && forall f :: f in frames ==> IsDrawable(f, draw)
    requires frames != [] && frames[0].Sync?
    ensures PageAfterPayloads(page, PayloadsOf(frames, draw), parse, runningOnly)
            == DrawPage(PageAfter(model, frames, runningOnly), draw)
  {
    var init, last := frames[..|frames| - 1], frames[|frames| - 1];
    var payloads := PayloadsOf(frames, draw);
    assert payloads[..|payloads| - 1] == PayloadsOf(init, draw);
    if init != [] { PageDraws(page, model, init, draw, parse, runningOnly); }
    var before := PageAfterPayloads(page, PayloadsOf(init, draw), parse, runningOnly);
    FrameDraws(before, PageAfter(model, init, runningOnly).rows, last, draw, parse, runningOnly);
  }

  /** After any payloads that start with a whole listing, the page is what a reload would draw of
      any listing of the services it was sent. */
  lemma {:induction false} ScriptedPageIsFullRender(
      page: PageState<string>, m: Snapshot, frames: seq<Frame>, draw: Renderer, parse: Parser, runningOnly: bool,
      listing: seq<Service>)
    requires Draws(draw, parse) && forall f :: f in frames ==> IsDrawable(f, draw) && WellFormed(f)
    requires frames != [] && frames[0].Sync?
    requires DistinctIDs(listing) && Index(listing) == Held(m, frames)
    ensures var after := PageAfterPayloads(page, PayloadsOf(frames, draw), parse, runningOnly);
            && after.rows == DrawRows(RenderAll(InDisplayOrder(listing)), draw)
            && after.online == CountOnline(listing) && after.online + after.offline == |listing|
            && (after.emptyHidden <==> if runningOnly then CountOnline(listing) > 0 else listing != [])
  {
    var model := PageState([], 0, 0, false);
    PageDraws(page, model, frames, draw, parse, runningOnly);
    IncrementalPageIsFullRender(model, m, frames, runningOnly, listing);
  }
}
