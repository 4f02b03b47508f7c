/** What the live-update protocol comes to on the page: rows in place and totals that add up; and
    why it needs refreshes that do not overlap. */
module LivePages {
  import opened Ordering
  import opened Domain
  import opened Snapshots
  import opened Hubs
  import opened SortKeys
  import opened Rows
  import opened Pages
  import opened LiveUpdates
  import opened Convergence
  import opened SerialUpdates

  // ----- the frames of a connection ----------------------------------------------------------

  function Changes(events: seq<Event>): (frames: seq<Frame>)
    ensures |frames| == |events|
  {
    if events == [] then [] else Changes(events[..|events| - 1]) + [Change(events[|events| - 1])]
  }

  /** The listing in display order, then every event received. */
  function Frames(listing: seq<Service>, received: seq<Event>): seq<Frame> {
    [Sync(InDisplayOrder(listing))] + Changes(received)
  }

  lemma {:induction false} OrderKeepsIndex(listing: seq<Service>)
    requires DistinctIDs(listing)
    ensures Index(InDisplayOrder(listing)) == Index(listing)
    ensures DistinctIDs(InDisplayOrder(listing))
  {
    var ordered := InDisplayOrder(listing);
    DisplayOrderIsStrict(listing);
    OrderedIDs(listing);
    IndexHoldsThemAll(listing);
    IndexHoldsThemAll(ordered);
    var m, n := Index(ordered), Index(listing);
    forall id ensures id in m <==> id in n {
      if id in m { assert m[id] in ordered; }
      if id in n { assert n[id] in listing; }
    }
    forall id | id in m ensures m[id] == n[id] {
      assert m[id] in ordered && m[id] in listing;
    }
  }

  lemma OrderedIDs(listing: seq<Service>)
    requires DistinctIDs(listing)
    ensures DistinctIDs(InDisplayOrder(listing))
  {
    var ordered := InDisplayOrder(listing);
    DisplayOrderIsStrict(listing);
    forall i, j | 0 <= i < j < |ordered| ensures ordered[i].containerID != ordered[j].containerID {
      assert ordered[i] in listing && ordered[j] in listing;
      CompareServicesFlips(ordered[i], ordered[i]);
    }
  }

  lemma {:induction false} FramesHold(m: Snapshot, listing: seq<Service>, received: seq<Event>)
    requires DistinctIDs(listing)
    ensures Held(m, Frames(listing, received)) == ApplyAll(Index(listing), received)
  {
    var frames := Frames(listing, received);
    if received == [] {
      OrderKeepsIndex(listing);
    } else {
      var init := received[..|received| - 1];
      FramesHold(m, listing, init);
      assert frames[..|frames| - 1] == Frames(listing, init);
    }
  }

  lemma {:induction false} FramesAreWellFormed(listing: seq<Service>, received: seq<Event>)
    requires DistinctIDs(listing) && forall s :: s in listing ==> Placeable(s)
    requires forall e :: e in received ==> Placeable(e.service)
    ensures forall f :: f in Frames(listing, received) ==> WellFormed(f)
  {
    if received == [] {
      DisplayOrderIsStrict(listing);
      OrderedIDs(listing);
    } else {
      var init, last := received[..|received| - 1], received[|received| - 1];
      FramesAreWellFormed(listing, init);
      assert Frames(listing, received) == Frames(listing, init) + [Change(last)];
      assert last in received;
    }
  }

  // ----- agreeing listings look the same -------------------------------------------------------

  /** Two rows in the same place, with nothing between them to redraw. */
  predicate SameLook(x: Row<Service>, y: Row<Service>) {
    x.id == y.id && x.key == y.key && x.online == y.online && SameRow(Some(x.content), Some(y.content))
  }

  lemma FirstsMatch(a: seq<Service>, b: seq<Service>, m: Snapshot, n: Snapshot)
    requires Lists(a, m) && Lists(b, n) && Agree(m, n) && a != [] && b != []
    ensures SameRow(Some(a[0]), Some(b[0]))
  {
    var x, y := a[0].containerID, b[0].containerID;
    assert a[0] in a && b[0] in b;
    assert SameRow(Lookup(m, x), Lookup(n, x)) && SameRow(Lookup(m, y), Lookup(n, y));
    assert n[x] in b && m[y] in a;
    FirstIsLeast(a, m[y]);
    FirstIsLeast(b, n[x]);
    CompareServicesFlips(a[0], b[0]);
    assert CompareServices(a[0], b[0]) == CompareServices(a[0], m[y]);
    assert CompareServices(b[0], a[0]) == CompareServices(b[0], n[x]);
  }

  lemma FirstIsLeast(services: seq<Service>, s: Service)
    requires StrictlySorted(services, CompareServices) && s in services
    ensures CompareServices(services[0], s) <= 0
  {
    CompareServicesFlips(s, s);
  }

  lemma {:induction false} AgreeingListsMatch(a: seq<Service>, b: seq<Service>, m: Snapshot, n: Snapshot)
    requires Lists(a, m) && Lists(b, n) && Agree(m, n)
    ensures |a| == |b|
    ensures forall i :: 0 <= i < |a| ==> SameRow(Some(a[i]), Some(b[i]))
  {
    BothEmpty(a, b, m, n);
    if a != [] {
      var id := a[0].containerID;
      FirstsMatch(a, b, m, n);
      RemovalListed(a, m, id);
      RemovalListed(b, n, id);
      forall k ensures SameRow(Lookup(m - {id}, k), Lookup(n - {id}, k)) {
        assert SameRow(Lookup(m, k), Lookup(n, k));
      }
      AgreeingListsMatch(a[1..], b[1..], m - {id}, n - {id});
    }
  }

  lemma NothingListed(a: seq<Service>, m: Snapshot)
    requires Lists(a, m)
    ensures a == [] <==> m.Keys == {}
  {
    forall id ensures id in m ==> a != [] {
      assert id in m ==> m[id] in a;
    }
    assert a != [] ==> a[0] in a && a[0].containerID in m.Keys;
  }

  lemma BothEmpty(a: seq<Service>, b: seq<Service>, m: Snapshot, n: Snapshot)
    requires Lists(a, m) && Lists(b, n) && Agree(m, n)
    ensures a == [] <==> b == []
  {
    NothingListed(a, m);
    NothingListed(b, n);
    AgreeMeansSameKeys(m, n);
  }

  lemma {:induction false} MatchingCounts(a: seq<Service>, b: seq<Service>)
    requires |a| == |b| && forall i :: 0 <= i < |a| ==> a[i].Online() == b[i].Online()
    ensures CountOnline(a) == CountOnline(b)
  {
    if a != [] { MatchingCounts(a[..|a| - 1], b[..|b| - 1]); }
  }

  /** A page showing one snapshot looks as a full render of any other that agrees with it. */
  lemma {:induction false} AgreeingPagesLookTheSame(
      rows: seq<Row<Service>>, m: Snapshot, n: Snapshot, listing: seq<Service>)
    requires Shows(rows, m) && Agree(m, n)
    requires DistinctIDs(listing) && Index(listing) == n && forall s :: s in listing ==> Placeable(s)
    ensures |rows| == |listing| == |InDisplayOrder(listing)|
    ensures forall i :: 0 <= i < |rows| ==> SameLook(rows[i], RenderRow(InDisplayOrder(listing)[i]))
    ensures OnlineRows(rows) == CountOnline(listing)
  {
    var a, b := ServicesOf(rows), InDisplayOrder(listing);
    assert Lists(b, n) by {
      DisplayOrderIsStrict(listing);
      IndexHoldsThemAll(listing);
    }
    AgreeingListsMatch(a, b, m, n);
    MatchingRows(a, b);
    assert OnlineRows(rows) == CountOnline(listing) by {
      MatchingCounts(a, b);
      OnlineRowsCountServices(a);
      CountIgnoresOrder(listing);
    }
  }

  lemma MatchingRows(a: seq<Service>, b: seq<Service>)
    requires |a| == |b| && forall i :: 0 <= i < |a| ==> SameRow(Some(a[i]), Some(b[i]))
    ensures forall i :: 0 <= i < |a| ==> SameLook(RenderRow(a[i]), RenderRow(b[i]))
  {
  }

  /** End to end: once a connection that kept the last event about each container has caught up, its
      page, whatever it showed before, looks as a reload from the current snapshot would: the same
      rows in the same places, and the same totals. */
  lemma {:induction false} PageComesToShowSnapshot(
      steps: seq<Step>, c: nat, page: PageState<Service>, runningOnly: bool, current: seq<Service>)
    requires CaughtUp(Run(steps), c) && (forall id :: SerialFor(steps, id))
    requires forall id :: LastKept(Run(steps).hub.chans[c], id)
    requires forall id :: ListedAsSince(Run(steps), c, id)
    requires var listing := Run(steps).connections[c].listing;
             DistinctIDs(listing) && forall s :: s in listing ==> Placeable(s)
    requires forall e :: e in Run(steps).hub.chans[c].received ==> Placeable(e.service)
    requires DistinctIDs(current) && Index(current) == Run(steps).snapshot
    requires forall s :: s in current ==> Placeable(s)
    ensures var s := Run(steps);
            var after := PageAfter(page, Frames(s.connections[c].listing, s.hub.chans[c].received), runningOnly);
            && |after.rows| == |current| == |InDisplayOrder(current)|
            && (forall i :: 0 <= i < |after.rows| ==> SameLook(after.rows[i], RenderRow(InDisplayOrder(current)[i])))
            && after.online == CountOnline(current) && after.online + after.offline == |current|
            && (after.emptyHidden <==> if runningOnly then CountOnline(current) > 0 else current != [])
  {
    var s := Run(steps);
    var listing, received := s.connections[c].listing, s.hub.chans[c].received;
    var frames := Frames(listing, received);
    Converges(steps, c);
    FramesHold(map[], listing, received);
    FramesAreWellFormed(listing, received);
    PageShowsWhatItHolds(page, map[], frames, runningOnly);
    AgreeingPagesLookTheSame(PageAfter(page, frames, runningOnly).rows, View(s, c), s.snapshot, current);
  }

  // ----- overlapping refreshes -------------------------------------------------------------------

  lemma OnlyEventIsDiff(previous: Snapshot, next: Snapshot, id: string, e: Event)
    requires EventFor(previous, next, id) == Some(e)
    requires forall k :: k != id ==> k !in previous && k !in next
    ensures Diff(previous, next) == [e]
  {
    EventForSettles(previous, next, id);
    forall f ensures f in [e] <==> EventFor(previous, next, ID(f)) == Some(f) {
      assert ID(f) != id ==> EventFor(previous, next, ID(f)) == None;
    }
    DiffIsUnique(previous, next, [e]);
  }

  lemma DiffOfOne(a: Service)
    ensures Index([a]) == map[a.containerID := a]
    ensures Diff(map[], Index([a])) == [Event(Added, a, true)]
    ensures Diff(Index([a]), map[]) == [Event(Removed, a, true)]
  {
    assert [a][..0] == [];
    assert Index([a]) == map[a.containerID := a];
    OnlyEventIsDiff(map[], Index([a]), a.containerID, Event(Added, a, true));
    OnlyEventIsDiff(Index([a]), map[], a.containerID, Event(Removed, a, true));
  }

  /** Two refreshes overlap: the first reads container `a` and swaps, the second reads that it is
      gone, and is about to swap. */
  function BothUnderway(a: Service): seq<Step> {
    [Connect] + [ListServices(0, [])]
    + [ReadProject(0, [a])] + [SwapSnapshot(0)] + [ReadProject(1, [])]
  }

  /** It swaps, and publishes first. */
  function Overlapping(a: Service): seq<Step> {
    BothUnderway(a) + [SwapSnapshot(1)] + [PublishNext(1)] + [PublishNext(0)] + [Deliver(0)] + [Deliver(0)]
  }

  lemma FirstIsUnderway(a: Service)
    ensures var s := Run(BothUnderway(a));
            && s.snapshot == Index([a]) && s.connections == map[0 := Live(0, 0, [])]
            && s.refreshes == map[0 := Publishing([Event(Added, a, true)]), 1 := Listed(map[])]
            && s.hub == HubState(map[0 := 0], 1, false, [NewChan(0, true)])
  {
    var t2 := [Connect] + [ListServices(0, [])];
    var t4 := t2 + [ReadProject(0, [a])] + [SwapSnapshot(0)];
    ConnectedFirst();
    DiffOfOne(a);
    RunOneMore(t2, ReadProject(0, [a]));
    RunOneMore(t2 + [ReadProject(0, [a])], SwapSnapshot(0));
    assert Run(t4).refreshes == map[0 := Publishing([Event(Added, a, true)])];
    RunOneMore(t4, ReadProject(1, []));
  }

  lemma ConnectedFirst()
    ensures var s := Run([Connect] + [ListServices(0, [])]);
            && s.snapshot == map[] && s.refreshes == map[] && s.connections == map[0 := Live(0, 0, [])]
            && s.hub == HubState(map[0 := 0], 1, false, [NewChan(0, true)])
  {
    RunOneMore([], Connect);
    assert [] + [Connect] == [Connect];
    RunOneMore([Connect], ListServices(0, []));
  }

  lemma SecondIsUnderway(a: Service)
    ensures var s := Run(BothUnderway(a) + [SwapSnapshot(1)]);
            && s.snapshot == map[] && s.connections == map[0 := Live(0, 0, [])]
            && s.refreshes == map[0 := Publishing([Event(Added, a, true)]), 1 := Publishing([Event(Removed, a, true)])]
            && s.hub == HubState(map[0 := 0], 1, false, [NewChan(0, true)])
  {
    FirstIsUnderway(a);
    DiffOfOne(a);
    RunOneMore(BothUnderway(a), SwapSnapshot(1));
  }

  lemma OverlapIsNotSerial(a: Service)
    ensures !SerialFor(Overlapping(a), a.containerID)
  {
    FirstIsUnderway(a);
    DiffOfOne(a);
    var s := Run(BothUnderway(a));
    assert StillToCome(s, 0, 0, a.containerID);
    assert WillAnnounce(s, 1, a.containerID);
    var swapped := BothUnderway(a) + [SwapSnapshot(1)];
    assert swapped[..|swapped| - 1] == BothUnderway(a);
    assert Overlapping(a)[..|swapped|] == swapped;
    if SerialFor(Overlapping(a), a.containerID) {
      SerialSoFar(Overlapping(a), a.containerID, |swapped|);
    }
  }

  /** Then a client that was offered every event, dropped none and caught up still shows a
      container the snapshot no longer has. */
  lemma OverlapLeavesPageStale(a: Service)
    ensures !SerialFor(Overlapping(a), a.containerID)
    ensures var s := Run(Overlapping(a));
            && CaughtUp(s, 0) && false !in s.hub.chans[0].kept
            && (forall id :: ListedAsSince(s, 0, id))
            && s.snapshot == map[] && View(s, 0) == map[a.containerID := a]
  {
    OverlapIsNotSerial(a);
    SecondIsUnderway(a);
    PublishedOutOfOrder(a, BothUnderway(a) + [SwapSnapshot(1)]);
  }

  /** A client that connected before there was anything to list listed it right. */
  lemma NothingWasListed(s: System)
    requires s.connections == map[0 := Live(0, 0, [])]
    ensures forall id :: ListedAsSince(s, 0, id)
  {
    forall id ensures ListedAsSince(s, 0, id) {
      assert s.history[..0] == [];
      assert SameRow(Lookup(Index([]), id), Lookup(Latest(s.history[..0]), id));
    }
  }

  lemma PublishToOnly(c: Chan, e: Event)
    ensures HubStep(HubState(map[0 := 0], 1, false, [c]), Publish(e)) == HubState(map[0 := 0], 1, false, [Offer(c, e)])
  {
    var s := HubState(map[0 := 0], 1, false, [c]);
    assert 0 in s.subs && s.subs[0] in Registered(s);
  }

  /** One event of refresh `r` is published to the only channel there is. */
  lemma PublishFrom(s: System, r: nat, c: Chan)
    requires Unfinished(s, r) && s.hub == HubState(map[0 := 0], 1, false, [c])
    ensures var t := Next(s, PublishNext(r));
            && t.snapshot == s.snapshot && t.connections == s.connections
            && t.refreshes == s.refreshes[r := Publishing(s.refreshes[r].rest[1..])]
            && t.hub == HubState(map[0 := 0], 1, false, [Offer(c, s.refreshes[r].rest[0])])
  {
    PublishToOnly(c, s.refreshes[r].rest[0]);
  }

  lemma {:induction false} PublishedOutOfOrder(a: Service, t6: seq<Step>)
    requires var s := Run(t6);
             && s.snapshot == map[] && s.connections == map[0 := Live(0, 0, [])]
             && s.refreshes == map[0 := Publishing([Event(Added, a, true)]), 1 := Publishing([Event(Removed, a, true)])]
             && s.hub == HubState(map[0 := 0], 1, false, [NewChan(0, true)])
    ensures var s := Run(t6 + [PublishNext(1)] + [PublishNext(0)] + [Deliver(0)] + [Deliver(0)]);
            && CaughtUp(s, 0) && false !in s.hub.chans[0].kept
            && (forall id :: ListedAsSince(s, 0, id))
            && s.snapshot == map[] && View(s, 0) == map[a.containerID := a]
  {
    var added, removed := Event(Added, a, true), Event(Removed, a, true);
    var t7 := t6 + [PublishNext(1)];
    assert [removed][1..] == [] && [added][1..] == [];
    RunOneMore(t6, PublishNext(1));
    PublishFrom(Run(t6), 1, NewChan(0, true));
    RunOneMore(t7, PublishNext(0));
    PublishFrom(Run(t7), 0, Offer(NewChan(0, true), removed));
    assert Run(t7 + [PublishNext(0)]).refreshes == map[0 := Publishing([]), 1 := Publishing([])];
    DeliveredInTurn(a, t7 + [PublishNext(0)]);
  }

  lemma DeliverOnly(s: System, c: Chan)
    requires s.connections == map[0 := Live(0, 0, [])] && s.hub.chans == [c]
    ensures Next(s, Deliver(0)) == s.(hub := s.hub.(chans := [Take(c)]))
  {
    assert s.hub.chans[0 := Take(c)] == [Take(c)];
  }

  lemma {:induction false} DeliveredInTurn(a: Service, t8: seq<Step>)
    requires var s := Run(t8);
             && s.snapshot == map[] && s.connections == map[0 := Live(0, 0, [])]
             && s.refreshes == map[0 := Publishing([]), 1 := Publishing([])]
             && s.hub.chans == [Offer(Offer(NewChan(0, true), Event(Removed, a, true)), Event(Added, a, true))]
    ensures var s := Run(t8 + [Deliver(0)] + [Deliver(0)]);
            && CaughtUp(s, 0) && false !in s.hub.chans[0].kept
            && (forall id :: ListedAsSince(s, 0, id))
            && s.snapshot == map[] && View(s, 0) == map[a.containerID := a]
  {
    var removed, added := Event(Removed, a, true), Event(Added, a, true);
    var c := Offer(Offer(NewChan(0, true), removed), added);
    RunOneMore(t8, Deliver(0));
    DeliverOnly(Run(t8), c);
    RunOneMore(t8 + [Deliver(0)], Deliver(0));
    DeliverOnly(Run(t8 + [Deliver(0)]), Take(c));
    TakenInTurn(removed, added);
    RemovedThenAdded(a);
    NothingWasListed(Run(t8 + [Deliver(0)] + [Deliver(0)]));
  }

  lemma TakenInTurn(d: Event, e: Event)
    ensures Take(Take(Offer(Offer(NewChan(0, true), d), e)))
            == Chan(0, true, false, [], [d, e], [d, e], [true, true])
  {
    assert [d, e][1..] == [e];
  }

  lemma RemovedThenAdded(a: Service)
    ensures ApplyAll(map[], [Event(Removed, a, true), Event(Added, a, true)]) == map[a.containerID := a]
  {
    var removed, added := Event(Removed, a, true), Event(Added, a, true);
    assert [removed, added][..1] == [removed] && [removed][..0] == [];
    assert ApplyAll(map[], [removed]) == map[];
  }
}
