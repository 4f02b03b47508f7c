/** The live-update protocol: how every open page comes to show the latest snapshot.

    Refreshes of the monitor (internal/app/monitor_service.go), the hub, and any number of
    connections (internal/adapters/realtime/handler.go) take steps in any order. A refresh lists,
    swaps the snapshot under a mutex, and publishes its events with the mutex released. A
    connection subscribes, then lists, then sends the listing and every event it receives. */
module LiveUpdates {
  import opened Domain
  import opened Snapshots
  import opened Hubs

  /** A refresh in progress, in the watch loop or in an action's handler. */
  datatype Refresh = Listed(next: Snapshot) | Publishing(rest: seq<Event>)

  /** A connection. `since` is how many snapshots there had been when it subscribed, and `from` how
      many events had been published; `listing` is what it then read. */
  datatype Connection =
    | Subscribed(since: nat, from: nat)
    | Live(since: nat, from: nat, listing: seq<Service>)

  /** `snapshot` is the monitor's; `history` (every snapshot read, in turn), `announced` (the batches in
      the order the mutex was taken) and `published` (what reached the hub, in order) record the run. */
  datatype System = System(
    snapshot: Snapshot,
    refreshes: map<nat, Refresh>,
    hub: HubState,
    connections: map<nat, Connection>,
    history: seq<Snapshot>,
    announced: seq<Event>,
    published: seq<Event>)

  ghost const START := System(map[], map[], NEW_HUB, map[], [], [], [])

  datatype Step =
    | ReadProject(refresh: nat, services: seq<Service>)
    | ReadFails(refresh: nat)
    | SwapSnapshot(refresh: nat)
    | PublishNext(refresh: nat)
    | Finish(refresh: nat)
    | Connect
    | ListServices(connection: nat, services: seq<Service>)
    | ListFails(connection: nat)
    | Deliver(connection: nat)
    | Disconnect(connection: nat)
    | CloseHub

  /** A step that is not possible in a state leaves it as it is. */
  ghost function Next(s: System, step: Step): System {
    match step
    case ReadProject(r, services) =>
      if r in s.refreshes then s else s.(refreshes := s.refreshes[r := Listed(Index(services))])
    case ReadFails(r) => s
    case SwapSnapshot(r) =>
      if r in s.refreshes && s.refreshes[r].Listed? then
        var next := s.refreshes[r].next;
        var events := Diff(s.snapshot, next);
        s.(snapshot := next, refreshes := s.refreshes[r := Publishing(events)],
           history := s.history + [next], announced := s.announced + events)
      else s
    case PublishNext(r) =>
      if r in s.refreshes && s.refreshes[r].Publishing? && s.refreshes[r].rest != [] then
        var rest := s.refreshes[r].rest;
        s.(hub := HubStep(s.hub, Publish(rest[0])), published := s.published + [rest[0]],
           refreshes := s.refreshes[r := Publishing(rest[1..])])
      else s
    case Finish(r) =>
      if r in s.refreshes && s.refreshes[r] == Publishing([]) then s.(refreshes := s.refreshes - {r}) else s
    case Connect =>
      s.(hub := HubStep(s.hub, Subscribe),
         connections := s.connections[|s.hub.chans| := Subscribed(|s.history|, |s.published|)])
    case ListServices(c, services) =>
      if c in s.connections && s.connections[c].Subscribed? then
        var since, from := s.connections[c].since, s.connections[c].from;
        s.(connections := s.connections[c := Live(since, from, services)])
      else s
    case ListFails(c) =>
      if c in s.connections && s.connections[c].Subscribed? then
        s.(hub := HubStep(s.hub, Unsubscribe(c)), connections := s.connections - {c})
      else s
    case Deliver(c) =>
      if c in s.connections && s.connections[c].Live? then s.(hub := HubStep(s.hub, Receive(c))) else s
    case Disconnect(c) =>
      if c in s.connections then
        s.(hub := HubStep(s.hub, Unsubscribe(c)), connections := s.connections - {c})
      else s
    case CloseHub => s.(hub := HubStep(s.hub, Close))
  }

  ghost function Run(steps: seq<Step>): System {
    if steps == [] then START else Next(Run(steps[..|steps| - 1]), steps[|steps| - 1])
  }

  lemma {:induction false} RunOneMore(steps: seq<Step>, step: Step)
    ensures Run(steps + [step]) == Next(Run(steps), step)
  {
    assert (steps + [step])[..|steps|] == steps;
  }

  // ----- the snapshot chain, under any interleaving ------------------------------------------

  /** The monitor starts from an empty snapshot. */
  ghost function Latest(history: seq<Snapshot>): Snapshot {
    if history == [] then map[] else history[|history| - 1]
  }

  /** The events of each snapshot against the one before it, one batch after another. */
  ghost function Batches(history: seq<Snapshot>): seq<Event> {
    if history == [] then []
    else
      var init := history[..|history| - 1];
      Batches(init) + Diff(Latest(init), Latest(history))
  }

  ghost predicate Chained(s: System) {
    s.snapshot == Latest(s.history) && s.announced == Batches(s.history)
  }

  lemma {:induction false} BatchesAppend(history: seq<Snapshot>, next: Snapshot)
    ensures Latest(history + [next]) == next
    ensures Batches(history + [next]) == Batches(history) + Diff(Latest(history), next)
  {
    assert (history + [next])[..|history|] == history;
  }

  lemma ChainedStep(s: System, step: Step)
    requires Chained(s)
    ensures Chained(Next(s, step))
  {
    if step.SwapSnapshot? && Next(s, step) != s {
      BatchesAppend(s.history, s.refreshes[step.refresh].next);
    }
  }

  lemma {:induction false} RunIsChained(steps: seq<Step>)
    ensures Chained(Run(steps))
  {
    if steps != [] {
      RunIsChained(steps[..|steps| - 1]);
      ChainedStep(Run(steps[..|steps| - 1]), steps[|steps| - 1]);
    }
  }

  lemma SameRowTransitive(x: Option<Service>, y: Option<Service>, z: Option<Service>)
    requires SameRow(x, y) && SameRow(y, z)
    ensures SameRow(x, z)
  {
  }

  lemma {:induction false} BatchesTelescope(history: seq<Snapshot>, id: string)
    ensures SameRow(Lookup(ApplyAll(map[], Batches(history)), id), Lookup(Latest(history), id))
  {
    if history != [] {
      var init := history[..|history| - 1];
      BatchesTelescope(init, id);
      RowAfterBatch(Batches(init), Latest(init), Latest(history), id);
    }
  }

  /** A page that agrees about a container before a batch agrees about it after. */
  lemma {:induction false} RowAfterBatch(earlier: seq<Event>, previous: Snapshot, next: Snapshot, id: string)
    requires SameRow(Lookup(ApplyAll(map[], earlier), id), Lookup(previous, id))
    ensures SameRow(Lookup(ApplyAll(map[], earlier + Diff(previous, next)), id), Lookup(next, id))
  {
    var log := earlier + Diff(previous, next);
    LastForBatch(earlier, previous, next, id);
    assert LastFor(log, id) == if EventFor(previous, next, id).Some? then EventFor(previous, next, id)
                               else LastFor(earlier, id);
    LastEventDecides(map[], earlier, id);
    LastEventDecides(map[], log, id);
    EventForSettles(previous, next, id);
  }

  lemma {:induction false} LastForBatch(earlier: seq<Event>, previous: Snapshot, next: Snapshot, id: string)
    ensures LastFor(earlier + Diff(previous, next), id)
            == if EventFor(previous, next, id).Some? then EventFor(previous, next, id) else LastFor(earlier, id)
  {
    LastForConcat(earlier, Diff(previous, next), id);
    LastForIsEventFor(previous, next, Diff(previous, next), id);
  }

  /** However refreshes overlap and whatever they list, the batches in the order the mutex was
      taken lead an empty page to the current snapshot. */
  lemma {:induction false} Telescoping(steps: seq<Step>)
    ensures Agree(ApplyAll(map[], Run(steps).announced), Run(steps).snapshot)
  {
    var s := Run(steps);
    RunIsChained(steps);
    forall id ensures SameRow(Lookup(ApplyAll(map[], s.announced), id), Lookup(s.snapshot, id)) {
      BatchesTelescope(s.history, id);
    }
  }

  // ----- what has been announced since a snapshot -------------------------------------------------

  /** The batches of the snapshots after the first `k`. */
  ghost function BatchesSince(history: seq<Snapshot>, k: nat): seq<Event> {
    if k >= |history| then []
    else
      var init := history[..|history| - 1];
      BatchesSince(init, k) + Diff(Latest(init), Latest(history))
  }

  /** A container's row has not differed since there were `k` snapshots. */
  ghost predicate Unchanging(history: seq<Snapshot>, k: nat, id: string) {
    forall j :: k <= j <= |history| ==>
      SameRow(Lookup(Latest(history[..j]), id), Lookup(Latest(history), id))
  }

  /** Every change is announced: with no event about it, a container's row has not differed. */
  lemma {:induction false} NoEventNoChange(history: seq<Snapshot>, k: nat, id: string)
    requires k <= |history| && LastFor(BatchesSince(history, k), id).None?
    ensures Unchanging(history, k, id)
  {
    assert history[..|history|] == history;
    if k < |history| {
      var init := history[..|history| - 1];
      LastForBatch(BatchesSince(init, k), Latest(init), Latest(history), id);
      EventForSettles(Latest(init), Latest(history), id);
      NoEventNoChange(init, k, id);
      UnchangingStill(history, k, id);
    }
  }

  lemma UnchangingStill(history: seq<Snapshot>, k: nat, id: string)
    requires k < |history| && Unchanging(history[..|history| - 1], k, id)
    requires SameRow(Lookup(Latest(history[..|history| - 1]), id), Lookup(Latest(history), id))
    ensures Unchanging(history, k, id)
  {
    var init := history[..|history| - 1];
    forall j | k <= j <= |history|
      ensures SameRow(Lookup(Latest(history[..j]), id), Lookup(Latest(history), id))
    {
      if j < |history| {
        assert init[..j] == history[..j];
        SameRowTransitive(Lookup(Latest(init[..j]), id), Lookup(Latest(init), id), Lookup(Latest(history), id));
      } else {
        assert history[..j] == history;
      }
    }
  }

  // ----- what is still to be published -----------------------------------------------------------

  /** Refresh `r` has events still to publish. */
  ghost predicate Unfinished(s: System, r: nat) {
    r in s.refreshes && s.refreshes[r].Publishing? && s.refreshes[r].rest != []
  }

  ghost predicate Quiet(s: System) {
    forall r :: !Unfinished(s, r)
  }

  // ----- what a connection has been sent ----------------------------------------------------------

  /** An open channel has been offered exactly what was published since it was subscribed. */
  ghost predicate Attached(s: System, c: nat) {
    c in s.connections ==>
      && c < |s.hub.chans| && s.connections[c].from <= |s.published|
      && (s.hub.chans[c].open ==> s.hub.chans[c].offered == s.published[s.connections[c].from..])
  }

  /** What a step asks of the hub. */
  ghost function HubOps(s: System, step: Step): seq<Op> {
    match step
    case PublishNext(r) =>
      if r in s.refreshes && s.refreshes[r].Publishing? && s.refreshes[r].rest != []
      then [Publish(s.refreshes[r].rest[0])] else []
    case Connect => [Subscribe]
    case ListFails(c) =>
      if c in s.connections && s.connections[c].Subscribed? then [Unsubscribe(c)] else []
    case Deliver(c) => if c in s.connections && s.connections[c].Live? then [Receive(c)] else []
    case Disconnect(c) => if c in s.connections then [Unsubscribe(c)] else []
    case CloseHub => [Close]
    case _ => []
  }

  lemma HubInRun(s: System, step: Step)
    requires HubInv(s.hub)
    ensures HubInv(Next(s, step).hub)
  {
    if HubOps(s, step) != [] {
      assert Next(s, step).hub == HubStep(s.hub, HubOps(s, step)[0]);
      HubStepIsSafe(s.hub, HubOps(s, step)[0]);
    }
  }

  lemma AttachedStep(s: System, step: Step, c: nat)
    requires HubInv(s.hub) && (forall d :: Attached(s, d))
    ensures Attached(Next(s, step), c)
  {
    var t := Next(s, step);
    assert Attached(s, c);
    if c in t.connections && HubOps(s, step) != [] {
      var op := HubOps(s, step)[0];
      assert t.hub == HubStep(s.hub, op);
      if c in s.connections {
        StepOffers(s.hub, op, c);
        if step.PublishNext? && t.hub.chans[c].open {
          var from := s.connections[c].from;
          assert t.published[from..] == s.published[from..] + [op.event];
        }
      }
    }
  }

  lemma {:induction false} RunIsAttached(steps: seq<Step>)
    ensures HubInv(Run(steps).hub)
    ensures forall c :: Attached(Run(steps), c)
  {
    if steps != [] {
      var s, step := Run(steps[..|steps| - 1]), steps[|steps| - 1];
      RunIsAttached(steps[..|steps| - 1]);
      HubInRun(s, step);
      forall c ensures Attached(Run(steps), c) {
        AttachedStep(s, step, c);
      }
    }
  }

  // ----- every announced event is on its way --------------------------------------------------------

  ghost predicate Underway(s: System, e: Event) {
    exists r :: Unfinished(s, r) && e in s.refreshes[r].rest
  }

  /** What has been announced since a connection subscribed has been published since, or will be. */
  ghost predicate NothingMissing(s: System, c: nat) {
    c in s.connections ==>
      && s.connections[c].since <= |s.history| && s.connections[c].from <= |s.published|
      && forall e :: e in BatchesSince(s.history, s.connections[c].since) ==>
           e in s.published[s.connections[c].from..] || Underway(s, e)
  }

  /** A publish takes one event from what is under way to what is published. */
  lemma PublishMovesOne(s: System, r: nat, e: Event)
    requires Unfinished(s, r) && Underway(s, e)
    ensures e == s.refreshes[r].rest[0] || Underway(Next(s, PublishNext(r)), e)
  {
    var t := Next(s, PublishNext(r));
    var q: nat :| Unfinished(s, q) && e in s.refreshes[q].rest;
    if e != s.refreshes[r].rest[0] {
      var rest := s.refreshes[r].rest;
      assert rest == [rest[0]] + rest[1..];
      assert Unfinished(t, q) && e in t.refreshes[q].rest;
    }
  }

  lemma UnderwayStays(s: System, step: Step, e: Event)
    requires Underway(s, e) && !step.PublishNext?
    ensures Underway(Next(s, step), e)
  {
    var t := Next(s, step);
    var q: nat :| Unfinished(s, q) && e in s.refreshes[q].rest;
    assert Unfinished(t, q) && e in t.refreshes[q].rest;
  }

  lemma AnnouncedIsUnderway(s: System, r: nat, e: Event)
    requires r in s.refreshes && s.refreshes[r].Listed? && e in Diff(s.snapshot, s.refreshes[r].next)
    ensures Underway(Next(s, SwapSnapshot(r)), e)
  {
    assert Unfinished(Next(s, SwapSnapshot(r)), r);
  }

  lemma NothingMissingAfterSwap(s: System, r: nat, c: nat)
    requires Chained(s) && NothingMissing(s, c)
    ensures NothingMissing(Next(s, SwapSnapshot(r)), c)
  {
    var t := Next(s, SwapSnapshot(r));
    if t != s && c in s.connections {
      var since, events := s.connections[c].since, Diff(s.snapshot, s.refreshes[r].next);
      assert t.history[..|t.history| - 1] == s.history;
      assert BatchesSince(t.history, since) == BatchesSince(s.history, since) + events;
      forall e | e in BatchesSince(t.history, since)
        ensures e in t.published[s.connections[c].from..] || Underway(t, e)
      {
        if e in events {
          AnnouncedIsUnderway(s, r, e);
        } else if Underway(s, e) {
          UnderwayStays(s, SwapSnapshot(r), e);
        }
      }
    }
  }

  lemma NothingMissingAfterPublish(s: System, r: nat, c: nat)
    requires NothingMissing(s, c)
    ensures NothingMissing(Next(s, PublishNext(r)), c)
  {
    var t := Next(s, PublishNext(r));
    if t != s && c in s.connections {
      var from, first := s.connections[c].from, s.refreshes[r].rest[0];
      assert t.published[from..] == s.published[from..] + [first];
      forall e | e in BatchesSince(t.history, s.connections[c].since)
        ensures e in t.published[from..] || Underway(t, e)
      {
        if Underway(s, e) { PublishMovesOne(s, r, e); }
      }
    }
  }

  lemma NothingMissingOtherwise(s: System, step: Step, c: nat)
    requires NothingMissing(s, c) && !step.SwapSnapshot? && !step.PublishNext?
    ensures NothingMissing(Next(s, step), c)
  {
    var t := Next(s, step);
    if c in s.connections {
      forall e | Underway(s, e) ensures Underway(t, e) {
        UnderwayStays(s, step, e);
      }
    }
  }

  lemma NothingMissingStep(s: System, step: Step, c: nat)
    requires Chained(s) && NothingMissing(s, c)
    ensures NothingMissing(Next(s, step), c)
  {
    if step.SwapSnapshot? {
      NothingMissingAfterSwap(s, step.refresh, c);
    } else if step.PublishNext? {
      NothingMissingAfterPublish(s, step.refresh, c);
    } else {
      NothingMissingOtherwise(s, step, c);
    }
  }

  lemma {:induction false} RunMissesNothing(steps: seq<Step>, c: nat)
    ensures NothingMissing(Run(steps), c)
  {
    if steps != [] {
      RunMissesNothing(steps[..|steps| - 1], c);
      RunIsChained(steps[..|steps| - 1]);
      NothingMissingStep(Run(steps[..|steps| - 1]), steps[|steps| - 1], c);
    }
  }

  // ----- a connection that ends leaves nothing behind ------------------------------------------------

  /** The connection could not list, or its client went away. */
  ghost predicate Leaves(s: System, step: Step, c: nat) {
    c in s.connections && (step == Disconnect(c) || (step == ListFails(c) && s.connections[c].Subscribed?))
  }

  ghost predicate Gone(s: System, c: nat) {
    c !in s.connections && c < |s.hub.chans| && !s.hub.chans[c].open
  }

  lemma LeavingIsGone(s: System, step: Step, c: nat)
    requires HubInv(s.hub) && Attached(s, c) && ReleasedIsShut(s.hub) && Leaves(s, step, c)
    ensures Gone(Next(s, step), c)
  {
    assert Next(s, step).hub == HubStep(s.hub, Unsubscribe(c));
    if c < s.hub.nextID && !s.hub.chans[c].released { UnsubscribeMeans(s.hub, c); }
  }

  lemma StaysGone(s: System, step: Step, c: nat)
    requires HubInv(s.hub) && Gone(s, c)
    ensures Gone(Next(s, step), c)
  {
    if HubOps(s, step) != [] {
      assert Next(s, step).hub == HubStep(s.hub, HubOps(s, step)[0]);
      StepOffers(s.hub, HubOps(s, step)[0], c);
    }
  }

  lemma StillShut(s: System, step: Step)
    requires HubInv(s.hub) && ReleasedIsShut(s.hub)
    ensures ReleasedIsShut(Next(s, step).hub)
  {
    if HubOps(s, step) != [] {
      assert Next(s, step).hub == HubStep(s.hub, HubOps(s, step)[0]);
      ReleasedStaysShut(s.hub, HubOps(s, step)[0]);
    }
  }

  lemma {:induction false} ReleasedAreShut(steps: seq<Step>)
    ensures ReleasedIsShut(Run(steps).hub)
  {
    if steps != [] {
      ReleasedAreShut(steps[..|steps| - 1]);
      RunIsAttached(steps[..|steps| - 1]);
      StillShut(Run(steps[..|steps| - 1]), steps[|steps| - 1]);
    }
  }

  lemma {:induction false} LeftIsGone(steps: seq<Step>, step: Step, c: nat)
    requires Leaves(Run(steps), step, c)
    ensures Gone(Next(Run(steps), step), c)
  {
    RunIsAttached(steps);
    ReleasedAreShut(steps);
    assert Attached(Run(steps), c);
    LeavingIsGone(Run(steps), step, c);
  }

  lemma {:induction false} GoneStays(steps: seq<Step>, step: Step, c: nat)
    requires Gone(Run(steps), c)
    ensures Gone(Run(steps + [step]), c)
  {
    RunIsAttached(steps);
    StaysGone(Run(steps), step, c);
    RunOneMore(steps, step);
  }

  /** However a connection ends, it is unsubscribed: from then on, whatever else happens, its channel
      is closed, and it is no connection again. */
  lemma {:induction false} EndedIsGone(steps: seq<Step>, step: Step, more: seq<Step>, c: nat)
    requires Leaves(Run(steps), step, c)
    ensures Gone(Run(steps + [step] + more), c)
  {
    if more == [] {
      LeftIsGone(steps, step, c);
      RunOneMore(steps, step);
      assert steps + [step] + [] == steps + [step];
    } else {
      var k := |more| - 1;
      EndedIsGone(steps, step, more[..k], c);
      GoneStays(steps + [step] + more[..k], more[k], c);
      assert steps + [step] + more[..k] + [more[k]] == steps + [step] + more;
    }
  }
}
