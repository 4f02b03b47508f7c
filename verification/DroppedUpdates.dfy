/** Why a page can fall behind for good while it stays connected: the buffer of
    internal/adapters/realtime/hub.go holds 16 events, and the last one about a container may be the
    one that finds it full. */
module DroppedUpdates {
  import opened Domain
  import opened Snapshots
  import opened Hubs
  import opened LiveUpdates
  import opened Convergence
  import opened SerialUpdates
  import opened LivePages

  // ----- a container that comes and goes -----------------------------------------------------

  function Listing(a: Service, n: nat): seq<Service> {
    if n % 2 == 1 then [a] else []
  }

  function Flip(a: Service, n: nat): Event {
    Event(if n % 2 == 1 then Added else Removed, a, true)
  }

  /** One refresh, from its read to its last publish. */
  function Cycle(steps: seq<Step>, listing: seq<Service>): seq<Step> {
    steps + [ReadProject(0, listing)] + [SwapSnapshot(0)] + [PublishNext(0)] + [Finish(0)]
  }

  /** A client connects and reads nothing, while the container comes and goes `n` times. */
  function Flapping(a: Service, n: nat): seq<Step> {
    if n == 0 then [Connect] + [ListServices(0, [])] else Cycle(Flapping(a, n - 1), Listing(a, n))
  }

  function Flips(a: Service, n: nat): seq<Event> {
    if n == 0 then [] else Flips(a, n - 1) + [Flip(a, n)]
  }

  function Offered(c: Chan, events: seq<Event>): Chan {
    if events == [] then c else Offer(Offered(c, events[..|events| - 1]), events[|events| - 1])
  }

  ghost predicate Flapped(s: System, a: Service, n: nat) {
    && s.snapshot == Index(Listing(a, n)) && s.refreshes == map[]
    && s.hub == HubState(map[0 := 0], 1, false, [Offered(NewChan(0, true), Flips(a, n))])
    && s.connections == map[0 := Live(0, 0, [])]
  }

  lemma DiffOfFlip(a: Service, n: nat)
    requires n > 0
    ensures Diff(Index(Listing(a, n - 1)), Index(Listing(a, n))) == [Flip(a, n)]
  {
    DiffOfOne(a);
  }

  lemma {:induction false} OfferLast(c: Chan, events: seq<Event>, e: Event)
    ensures Offered(c, events + [e]) == Offer(Offered(c, events), e)
  {
    assert (events + [e])[..|events|] == events;
  }

  lemma {:induction false} SerialOneMore(steps: seq<Step>, step: Step)
    requires Serial(steps) && (step.SwapSnapshot? ==> Quiet(Run(steps)))
    ensures Serial(steps + [step])
  {
    assert (steps + [step])[..|steps|] == steps;
  }

  lemma {:induction false} ReadOne(s: System, listing: seq<Service>)
    requires s.refreshes == map[]
    ensures Next(s, ReadProject(0, listing)) == s.(refreshes := map[0 := Listed(Index(listing))])
  {
  }

  lemma SwapOne(s: System, next: Snapshot, e: Event)
    requires s.refreshes == map[0 := Listed(next)] && Diff(s.snapshot, next) == [e]
    ensures var t := Next(s, SwapSnapshot(0));
            && t.snapshot == next && t.refreshes == map[0 := Publishing([e])]
            && t.hub == s.hub && t.connections == s.connections
  {
  }

  lemma FinishOne(s: System)
    requires s.refreshes == map[0 := Publishing([])]
    ensures Next(s, Finish(0)) == s.(refreshes := map[])
  {
    assert s.refreshes - {0} == map[];
  }

  lemma PublishOne(s: System, c: Chan, e: Event)
    requires s.refreshes == map[0 := Publishing([e])] && s.hub == HubState(map[0 := 0], 1, false, [c])
    ensures var t := Next(s, PublishNext(0));
            && t.snapshot == s.snapshot && t.refreshes == map[0 := Publishing([])]
            && t.hub == HubState(map[0 := 0], 1, false, [Offer(c, e)]) && t.connections == s.connections
  {
    PublishFrom(s, 0, c);
    assert [e][1..] == [];
  }

  lemma {:induction false} CycleRuns(steps: seq<Step>, listing: seq<Service>)
    ensures Run(Cycle(steps, listing))
            == Next(Next(Next(Next(Run(steps), ReadProject(0, listing)), SwapSnapshot(0)), PublishNext(0)), Finish(0))
  {
    var t1 := steps + [ReadProject(0, listing)];
    RunOneMore(steps, ReadProject(0, listing));
    RunOneMore(t1, SwapSnapshot(0));
    RunOneMore(t1 + [SwapSnapshot(0)], PublishNext(0));
    RunOneMore(t1 + [SwapSnapshot(0)] + [PublishNext(0)], Finish(0));
  }

  lemma {:induction false} CycleIsSerial(steps: seq<Step>, listing: seq<Service>)
    requires Serial(steps) && Run(steps).refreshes == map[]
    ensures Serial(Cycle(steps, listing))
  {
    var t1 := steps + [ReadProject(0, listing)];
    RunOneMore(steps, ReadProject(0, listing));
    SerialOneMore(steps, ReadProject(0, listing));
    SerialOneMore(t1, SwapSnapshot(0));
    SerialOneMore(t1 + [SwapSnapshot(0)], PublishNext(0));
    SerialOneMore(t1 + [SwapSnapshot(0)] + [PublishNext(0)], Finish(0));
  }

  lemma FlapOnce(s: System, a: Service, n: nat)
    requires n > 0 && Flapped(s, a, n - 1)
    ensures Flapped(
              Next(Next(Next(Next(s, ReadProject(0, Listing(a, n))), SwapSnapshot(0)), PublishNext(0)), Finish(0)),
              a, n)
  {
    var next, e := Index(Listing(a, n)), Flip(a, n);
    DiffOfFlip(a, n);
    var s1 := Next(s, ReadProject(0, Listing(a, n)));
    ReadOne(s, Listing(a, n));
    SwapOne(s1, next, e);
    PublishOne(Next(s1, SwapSnapshot(0)), Offered(NewChan(0, true), Flips(a, n - 1)), e);
    FinishOne(Next(Next(s1, SwapSnapshot(0)), PublishNext(0)));
    OfferLast(NewChan(0, true), Flips(a, n - 1), e);
  }

  lemma ConnectingIsSerial()
    ensures Serial([Connect] + [ListServices(0, [])])
  {
    assert [] + [Connect] == [Connect];
    SerialOneMore([], Connect);
    SerialOneMore([Connect], ListServices(0, []));
  }

  lemma {:induction false} NotYetFlapped(a: Service)
    ensures Serial(Flapping(a, 0)) && Flapped(Run(Flapping(a, 0)), a, 0)
  {
    ConnectedFirst();
    ConnectingIsSerial();
  }

  lemma FlappedAgain(a: Service, n: nat)
    requires n > 0 && Serial(Flapping(a, n - 1)) && Flapped(Run(Flapping(a, n - 1)), a, n - 1)
    ensures Serial(Flapping(a, n)) && Flapped(Run(Flapping(a, n)), a, n)
  {
    var before := Flapping(a, n - 1);
    CycleIsSerial(before, Listing(a, n));
    CycleRuns(before, Listing(a, n));
    FlapOnce(Run(before), a, n);
  }

  lemma {:induction false} FlappingRuns(a: Service, n: nat)
    ensures Serial(Flapping(a, n)) && Flapped(Run(Flapping(a, n)), a, n)
  {
    if n == 0 {
      NotYetFlapped(a);
    } else {
      FlappingRuns(a, n - 1);
      FlappedAgain(a, n);
    }
  }

  // ----- the client catches up -----------------------------------------------------------------

  function Draining(steps: seq<Step>, k: nat): seq<Step> {
    steps + seq(k, i => Deliver(0))
  }

  lemma DrainOneMore(steps: seq<Step>, k: nat)
    requires k > 0
    ensures Draining(steps, k) == Draining(steps, k - 1) + [Deliver(0)]
  {
  }

  function Taken(c: Chan, k: nat): Chan
    requires k <= |c.buffer|
  {
    c.(received := c.received + c.buffer[..k], buffer := c.buffer[k..])
  }

  lemma TakenOnce(c: Chan, k: nat)
    requires 0 < k <= |c.buffer|
    ensures Take(Taken(c, k - 1)) == Taken(c, k)
  {
    assert c.buffer[k - 1..][1..] == c.buffer[k..];
    assert c.received + c.buffer[..k - 1] + [c.buffer[k - 1]] == c.received + c.buffer[..k];
  }

  lemma {:induction false} DrainingIsSerial(steps: seq<Step>, k: nat)
    requires Serial(steps)
    ensures Serial(Draining(steps, k))
  {
    if k == 0 {
      assert Draining(steps, 0) == steps;
    } else {
      DrainOneMore(steps, k);
      DrainingIsSerial(steps, k - 1);
      SerialOneMore(Draining(steps, k - 1), Deliver(0));
    }
  }

  lemma {:induction false} DrainingRuns(steps: seq<Step>, c: Chan, k: nat)
    requires Run(steps).connections == map[0 := Live(0, 0, [])] && Run(steps).hub.chans == [c] && k <= |c.buffer|
    ensures Run(Draining(steps, k)) == Run(steps).(hub := Run(steps).hub.(chans := [Taken(c, k)]))
  {
    if k == 0 {
      assert Taken(c, 0) == c && Draining(steps, 0) == steps;
    } else {
      var before := Draining(steps, k - 1);
      DrainingRuns(steps, c, k - 1);
      DrainOneMore(steps, k);
      RunOneMore(before, Deliver(0));
      DeliverOnly(Run(before), Taken(c, k - 1));
      TakenOnce(c, k);
    }
  }

  lemma {:induction false} FlipAt(a: Service, n: nat)
    ensures |Flips(a, n)| == n
    ensures forall i :: 0 <= i < n ==> Flips(a, n)[i] == Flip(a, i + 1)
  {
    if n > 0 { FlipAt(a, n - 1); }
  }

  /** How many of `n` events a channel that nobody reads from keeps. */
  function Fitting(n: nat): nat {
    if n < 16 then n else 16
  }

  lemma OfferFits(c: Chan, events: seq<Event>, e: Event)
    requires c.buffer == events[..Fitting(|events|)]
    ensures Offer(c, e).buffer == (events + [e])[..Fitting(|events| + 1)]
    ensures Offer(c, e).open == c.open && Offer(c, e).received == c.received
  {
    if |events| < 16 {
      assert events[..|events|] == events;
    }
  }

  /** As many events as fit are kept, in order, and the rest are skipped. */
  lemma {:induction false} FirstOnesFit(c: Chan, events: seq<Event>)
    requires c.buffer == []
    ensures var d := Offered(c, events);
            d.buffer == events[..Fitting(|events|)] && d.open == c.open && d.received == c.received
  {
    if events != [] {
      var init, last := events[..|events| - 1], events[|events| - 1];
      FirstOnesFit(c, init);
      OfferFits(Offered(c, init), init, last);
      assert init + [last] == events;
    }
  }

  /** When the container has come and gone, the client reads all that its channel has kept. */
  function CatchingUp(a: Service, n: nat): seq<Step> {
    Draining(Flapping(a, n), Fitting(n))
  }

  lemma {:induction false} CaughtUpAtLast(a: Service, n: nat)
    ensures Serial(CatchingUp(a, n))
    ensures var s := Run(CatchingUp(a, n));
            && s.refreshes == map[] && s.snapshot == Index(Listing(a, n)) && s.connections == map[0 := Live(0, 0, [])]
            && |s.hub.chans| == 1 && s.hub.chans[0].open && s.hub.chans[0].buffer == []
            && |Flips(a, n)| == n && s.hub.chans[0].received == Flips(a, n)[..Fitting(n)]
  {
    var c := Offered(NewChan(0, true), Flips(a, n));
    FlappingRuns(a, n);
    FlipAt(a, n);
    FirstOnesFit(NewChan(0, true), Flips(a, n));
    DrainingRuns(Flapping(a, n), c, Fitting(n));
    DrainingIsSerial(Flapping(a, n), Fitting(n));
    assert [] + c.buffer[..Fitting(n)] == c.buffer && c.buffer[Fitting(n)..] == [];
  }

  /** After some of the flips, the container is there if the last of them was a coming. */
  lemma {:induction false} AfterFlips(a: Service, n: nat, k: nat)
    requires k <= n == |Flips(a, n)|
    ensures Lookup(ApplyAll(map[], Flips(a, n)[..k]), a.containerID) == if k % 2 == 1 then Some(a) else None
  {
    var events := Flips(a, n)[..k];
    LastEventDecides(map[], events, a.containerID);
    FlipAt(a, n);
    if k > 0 {
      assert events[|events| - 1] == Flip(a, k);
    }
  }

  lemma ListedAfter(a: Service, n: nat)
    ensures Lookup(Index(Listing(a, n)), a.containerID) == if n % 2 == 1 then Some(a) else None
  {
    DiffOfOne(a);
  }

  lemma ShownAtLast(a: Service, n: nat)
    ensures CaughtUp(Run(CatchingUp(a, n)), 0)
    ensures var s := Run(CatchingUp(a, n));
            && Lookup(View(s, 0), a.containerID) == (if Fitting(n) % 2 == 1 then Some(a) else None)
            && Lookup(s.snapshot, a.containerID) == (if n % 2 == 1 then Some(a) else None)
  {
    var s := Run(CatchingUp(a, n));
    CaughtUpAtLast(a, n);
    AfterFlips(a, n, Fitting(n));
    ListedAfter(a, n);
    assert View(s, 0) == ApplyAll(map[], Flips(a, n)[..Fitting(n)]);
  }

  /** No refresh overlaps another, and the listing was right. Once it has caught up, the client's
      page is behind exactly when more than 16 events came and the last of them was a coming: the
      17th is enough. */
  lemma SkippedEventsLeavePageStale(a: Service, n: nat)
    ensures Serial(CatchingUp(a, n)) && CaughtUp(Run(CatchingUp(a, n)), 0)
    ensures forall id :: ListedAsSince(Run(CatchingUp(a, n)), 0, id)
    ensures var s := Run(CatchingUp(a, n));
            !SameRow(Lookup(View(s, 0), a.containerID), Lookup(s.snapshot, a.containerID))
            <==> n > 16 && n % 2 == 1
  {
    CaughtUpAtLast(a, n);
    NothingWasListed(Run(CatchingUp(a, n)));
    ShownAtLast(a, n);
  }
}
