/** The table of services as frame after frame changes it: what the script of
    internal/adapters/web/static/handlers/files/js/app.js does, with services for rows. */
module Pages {
  import opened Ordering
  import opened Domain
  import opened Snapshots
  import opened SortKeys
  import opened Rows

  function RenderRow(service: Service): Row<Service> {
    Row(service.containerID, SortKey(service), service.Online(), service)
  }

  function RenderAll(services: seq<Service>): (rows: seq<Row<Service>>)
    ensures |rows| == |services|
    ensures forall i :: 0 <= i < |rows| ==> rows[i] == RenderRow(services[i])
  {
    if services == [] then [] else [RenderRow(services[0])] + RenderAll(services[1..])
  }

  /** What a connection sends: the whole listing once, then one change at a time. */
  datatype Frame = Sync(services: seq<Service>) | Change(event: Event)

  function RowsAfter(rows: seq<Row<Service>>, frame: Frame): seq<Row<Service>> {
    match frame
    case Sync(services) => RenderAll(services)
    case Change(e) =>
      if e.action.Removed? then RemoveRow(rows, ID(e))
      else InsertRow(RemoveRow(rows, ID(e)), RenderRow(e.service))
  }

  function OnFrame(page: PageState<Service>, frame: Frame, runningOnly: bool): PageState<Service> {
    Recounted(RowsAfter(page.rows, frame), runningOnly)
  }

  function PageAfter(page: PageState<Service>, frames: seq<Frame>, runningOnly: bool): PageState<Service> {
    if frames == [] then page
    else OnFrame(PageAfter(page, frames[..|frames| - 1], runningOnly), frames[|frames| - 1], runningOnly)
  }

  // ----- the incremental page refines the full render ----------------------------------

  /** What a frame may carry: a listing in display order, and services a key can place. */
  ghost predicate WellFormed(frame: Frame) {
    match frame
    case Sync(services) =>
      && DistinctIDs(services) && StrictlySorted(services, CompareServices)
      && forall s :: s in services ==> Placeable(s)
    case Change(e) => Placeable(e.service)
  }

  /** The services a page has been told of, row order aside. */
  function Held(m: Snapshot, frames: seq<Frame>): Snapshot {
    if frames == [] then m
    else
      match frames[|frames| - 1]
      case Sync(services) => Index(services)
      case Change(e) => Apply(Held(m, frames[..|frames| - 1]), e)
  }

  function ServicesOf(rows: seq<Row<Service>>): seq<Service> {
    seq(|rows|, i requires 0 <= i < |rows| => rows[i].content)
  }

  /** The services of `m` and no others, each in a single row, in strict display order. */
  ghost predicate Lists(services: seq<Service>, m: Snapshot) {
    && StrictlySorted(services, CompareServices)
    && (forall s :: s in services ==> Placeable(s))
    && forall s {:trigger s in services} :: s in services <==> s.containerID in m && m[s.containerID] == s
  }

  ghost predicate Shows(rows: seq<Row<Service>>, m: Snapshot) {
    rows == RenderAll(ServicesOf(rows)) && Lists(ServicesOf(rows), m)
  }

  function Without(services: seq<Service>, id: string): seq<Service> {
    if services == [] then []
    else if services[0].containerID == id then services[1..]
    else [services[0]] + Without(services[1..], id)
  }

  lemma {:induction false} RemoveRenders(services: seq<Service>, id: string)
    ensures RemoveRow(RenderAll(services), id) == RenderAll(Without(services, id))
  {
    var rows := RenderAll(services);
    if services != [] {
      assert rows[1..] == RenderAll(services[1..]);
      RemoveRenders(services[1..], id);
    }
  }

  /** Placing a row by its key is placing its service in display order. */
  lemma {:induction false} InsertRenders(services: seq<Service>, service: Service)
    requires Placeable(service) && forall s :: s in services ==> Placeable(s)
    ensures InsertRow(RenderAll(services), RenderRow(service))
            == RenderAll(Insert(service, services, CompareServices))
  {
    var rows := RenderAll(services);
    if services != [] {
      var first, rest := services[0], services[1..];
      assert JsAfter(SortKey(first), SortKey(service)) <==> CompareServices(first, service) > 0 by {
        KeysEmbedOrder(first, service);
      }
      if CompareServices(first, service) > 0 {
        assert ([service] + services)[1..] == services;
      } else {
        InsertRenders(rest, service);
        var placed := Insert(service, rest, CompareServices);
        assert ([first] + placed)[1..] == placed;
      }
    }
  }

  /** Taking a container out of a list of distinct ones leaves all the others, in order. */
  lemma {:induction false} WithoutTakesOut(services: seq<Service>, id: string)
    requires DistinctIDs(services) && StrictlySorted(services, CompareServices)
    ensures StrictlySorted(Without(services, id), CompareServices)
    ensures forall s :: s in Without(services, id) <==> s in services && s.containerID != id
  {
    if services != [] {
      var first, rest := services[0], services[1..];
      WithoutTakesOut(rest, id);
      assert services == [first] + rest;
      if first.containerID == id {
        assert Without(services, id) == rest;
      } else {
        forall j | 0 <= j < |Without(rest, id)| ensures CompareServices(first, Without(rest, id)[j]) < 0 {
          assert Without(rest, id)[j] in rest;
        }
        PrependStrictlySorted(first, Without(rest, id), CompareServices);
      }
    }
  }

  lemma ListedOnce(services: seq<Service>, m: Snapshot)
    requires Lists(services, m)
    ensures DistinctIDs(services)
  {
    forall i, j | 0 <= i < j < |services| ensures services[i].containerID != services[j].containerID {
      assert services[i] in services && services[j] in services;
      CompareServicesFlips(services[i], services[i]);
    }
  }

  lemma {:induction false} RemovalListed(services: seq<Service>, m: Snapshot, id: string)
    requires Lists(services, m)
    ensures Lists(Without(services, id), m - {id})
  {
    ListedOnce(services, m);
    WithoutTakesOut(services, id);
  }

  lemma {:induction false} UpsertListed(services: seq<Service>, m: Snapshot, service: Service)
    requires Lists(services, m) && service.containerID !in m && Placeable(service)
    ensures Lists(Insert(service, services, CompareServices), m[service.containerID := service])
  {
    ServicesAreOrdered();
    forall i | 0 <= i < |services| ensures CompareServices(services[i], service) != 0 {
      assert services[i] in services;
      CompareServicesFlips(services[i], service);
    }
    InsertSortsStrictly(service, services, CompareServices);
    InsertMembers(service, services, CompareServices);
  }

  lemma {:induction false} ListedIsShown(services: seq<Service>, m: Snapshot)
    requires Lists(services, m)
    ensures Shows(RenderAll(services), m)
  {
    assert ServicesOf(RenderAll(services)) == services;
  }

  lemma {:induction false} SyncKeepsShowing(services: seq<Service>)
    requires WellFormed(Sync(services))
    ensures Shows(RenderAll(services), Index(services))
  {
    IndexHoldsThemAll(services);
    ListedIsShown(services, Index(services));
  }

  lemma {:induction false} RemovalKeepsShowing(rows: seq<Row<Service>>, m: Snapshot, id: string)
    requires Shows(rows, m)
    ensures Shows(RemoveRow(rows, id), m - {id})
  {
    var services := ServicesOf(rows);
    RemovalListed(services, m, id);
    RemoveRenders(services, id);
    ListedIsShown(Without(services, id), m - {id});
  }

  lemma {:induction false} InsertKeepsShowing(rows: seq<Row<Service>>, m: Snapshot, service: Service)
    requires Shows(rows, m) && service.containerID !in m && Placeable(service)
    ensures Shows(InsertRow(rows, RenderRow(service)), m[service.containerID := service])
  {
    var services := ServicesOf(rows);
    InsertRenders(services, service);
    UpsertIsShown(services, m, service);
  }

  lemma {:induction false} UpsertIsShown(services: seq<Service>, m: Snapshot, service: Service)
    requires Lists(services, m) && service.containerID !in m && Placeable(service)
    ensures Shows(RenderAll(Insert(service, services, CompareServices)), m[service.containerID := service])
  {
    UpsertListed(services, m, service);
    ListedIsShown(Insert(service, services, CompareServices), m[service.containerID := service]);
  }

  lemma PutBack(m: Snapshot, service: Service)
    ensures (m - {service.containerID})[service.containerID := service] == m[service.containerID := service]
  {
  }

  lemma FrameKeepsShowing(rows: seq<Row<Service>>, m: Snapshot, frame: Frame)
    requires Shows(rows, m) && WellFormed(frame)
    ensures Shows(RowsAfter(rows, frame), match frame case Sync(l) => Index(l) case Change(e) => Apply(m, e))
  {
    match frame
    case Sync(services) =>
      SyncKeepsShowing(services);
    case Change(e) =>
      RemovalKeepsShowing(rows, m, ID(e));
      if !e.action.Removed? {
        InsertKeepsShowing(RemoveRow(rows, ID(e)), m - {ID(e)}, e.service);
        PutBack(m, e.service);
      }
  }

  /** Whatever frames arrive, the page shows the services it holds, as one sorted row each. A
      `sync` makes up for anything the page showed before it. */
  lemma {:induction false} PageShowsWhatItHolds(
      page: PageState<Service>, m: Snapshot, frames: seq<Frame>, runningOnly: bool)
    requires Shows(page.rows, m) || (frames != [] && frames[0].Sync?)
    requires forall f :: f in frames ==> WellFormed(f)
    ensures Shows(PageAfter(page, frames, runningOnly).rows, Held(m, frames))
  {
    if frames != [] {
      var init, last := frames[..|frames| - 1], frames[|frames| - 1];
      assert WellFormed(last);
      if last.Sync? {
        SyncKeepsShowing(last.services);
      } else {
        PageShowsWhatItHolds(page, m, init, runningOnly);
        FrameKeepsShowing(PageAfter(page, init, runningOnly).rows, Held(m, init), last);
      }
    }
  }

  /** There is one way to show a set of services, and it is a full render of any listing of them. */
  lemma {:induction false} ShowingIsFullRender(rows: seq<Row<Service>>, m: Snapshot, listing: seq<Service>)
    requires Shows(rows, m)
    requires DistinctIDs(listing) && Index(listing) == m
    ensures rows == RenderAll(InDisplayOrder(listing))
  {
    ServicesAreOrdered();
    DisplayOrderIsStrict(listing);
    IndexHoldsThemAll(listing);
    StrictlySortedIsUnique(ServicesOf(rows), InDisplayOrder(listing), CompareServices);
  }

  lemma {:induction false} OnlineRowsCountServices(services: seq<Service>)
    ensures OnlineRows(RenderAll(services)) == CountOnline(services)
  {
    if services != [] {
      var init := services[..|services| - 1];
      OnlineRowsCountServices(init);
      assert RenderAll(services)[..|services| - 1] == RenderAll(init);
    }
  }

  /** After any frames, the page is what a reload would draw of any listing of the services it
      holds: rows in the same places, and the totals `Summarize` gives for that listing. The message
      that there is nothing to show is hidden exactly when there is something. */
  lemma {:induction false} IncrementalPageIsFullRender(
      page: PageState<Service>, m: Snapshot, frames: seq<Frame>, runningOnly: bool, listing: seq<Service>)
    requires frames != []
    requires Shows(page.rows, m) || frames[0].Sync?
    requires forall f :: f in frames ==> WellFormed(f)
    requires DistinctIDs(listing) && Index(listing) == Held(m, frames)
    ensures var after := PageAfter(page, frames, runningOnly);
            && after.rows == RenderAll(InDisplayOrder(listing))
            && after.online == CountOnline(listing)
            && after.online + after.offline == |listing|
            && (after.emptyHidden <==> if runningOnly then CountOnline(listing) > 0 else listing != [])
  {
    PageShowsWhatItHolds(page, m, frames, runningOnly);
    var after := PageAfter(page, frames, runningOnly);
    ShowingIsFullRender(after.rows, Held(m, frames), listing);
    OnlineRowsCountServices(InDisplayOrder(listing));
    CountIgnoresOrder(listing);
  }

  lemma {:induction false} CountConcat(a: seq<Service>, b: seq<Service>)
    ensures CountOnline(a + b) == CountOnline(a) + CountOnline(b)
  {
    if b == [] {
      assert a + b == a;
    } else {
      assert (a + b)[..|a + b| - 1] == a + b[..|b| - 1];
      CountConcat(a, b[..|b| - 1]);
    }
  }

  lemma {:induction false} CountInsert(x: Service, s: seq<Service>)
    ensures CountOnline(Insert(x, s, CompareServices)) == CountOnline(s) + if x.Online() then 1 else 0
  {
    assert CountOnline([x]) == if x.Online() then 1 else 0;
    if s != [] {
      CountConcat([x], s);
      CountConcat([s[0]], s[1..]);
      assert s == [s[0]] + s[1..];
      CountInsert(x, s[1..]);
      CountConcat([s[0]], Insert(x, s[1..], CompareServices));
    }
  }

  lemma {:induction false} CountIgnoresOrder(s: seq<Service>)
    ensures CountOnline(InDisplayOrder(s)) == CountOnline(s)
  {
    if s != [] {
      CountIgnoresOrder(s[..|s| - 1]);
      CountInsert(s[|s| - 1], InDisplayOrder(s[..|s| - 1]));
    }
  }
}
