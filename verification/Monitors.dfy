/** The service that keeps the last observation and announces what changed:
    internal/app/monitor_service.go. */
module Monitors {
  import opened Ordering
  import opened Domain
  import opened Snapshots
  import opened Hubs

  /** Every open channel has been offered some more events, in order, and is still open. */
  ghost predicate Reached(before: HubState, after: HubState, events: seq<Event>) {
    forall h :: 0 <= h < |before.chans| && before.chans[h].open ==>
      h < |after.chans| && after.chans[h].open && after.chans[h].offered == before.chans[h].offered + events
  }

  lemma {:induction false} EachIsReached(s: HubState, events: seq<Event>)
    requires WellKept(s)
    ensures Reached(s, PublishAll(s, events), events)
  {
    forall h | 0 <= h < |s.chans| && s.chans[h].open
      ensures var t := PublishAll(s, events);
              h < |t.chans| && t.chans[h].open && t.chans[h].offered == s.chans[h].offered + events
    {
      PublishAllReaches(s, events, h);
    }
  }

  class MonitorService {
    const hub: Hub
    var snapshot: Snapshot

    constructor (hub: Hub)
      ensures this.hub == hub && snapshot == map[]
    {
      this.hub := hub;
      snapshot := map[];
    }

    /** `listing` is what the source answers: the runtime's containers, or an error. */
    method List(listing: Result<seq<Service>, string>) returns (services: Result<seq<Service>, string>)
      ensures services.Success? <==> listing.Success?
      ensures services.Success? ==> Sorted(services.value, CompareServices)
                                    && multiset(services.value) == multiset(listing.value)
      ensures services.Success? && DistinctIDs(listing.value) ==> services.value == InDisplayOrder(listing.value)
    {
      match listing
      case Failure(error) =>
        services := Failure("listing services: " + error);
      case Success(found) =>
        var slice := new Service[|found|](i requires 0 <= i < |found| => found[i]);
        assert slice[..] == found;
        SortServices(slice);
        services := Success(slice[..]);
    }

    /** The section of `refresh` under the mutex: one observation takes the place of the last. */
    method Swap(next: Snapshot) returns (events: seq<Event>)
      modifies this`snapshot
      ensures snapshot == next && events == Diff(old(snapshot), next)
    {
      events := DiffSnapshots(snapshot, next);
      snapshot := next;
    }

    /** A read that fails changes nothing. One that succeeds replaces the snapshot by what was
        read, and puts on the hub, in display order, exactly the events that take the old
        snapshot to the new one. */
    method Refresh(listing: Result<seq<Service>, string>) returns (error: Option<string>)
      requires hub.Valid()
      modifies this`snapshot, hub.handed
      ensures hub.Valid() && error.Some? == listing.Failure?
      ensures listing.Failure? ==> snapshot == old(snapshot) && hub.Abs() == old(hub.Abs())
      ensures listing.Success? ==>
                && snapshot == Index(listing.value)
                && hub.Abs() == PublishAll(old(hub.Abs()), Diff(old(snapshot), snapshot))
                && Reached(old(hub.Abs()), hub.Abs(), Diff(old(snapshot), snapshot))
    {
      if listing.Failure? {
        return Some("listing services: " + listing.error);
      }
      var next := IndexServices(listing.value);
      var events := Swap(next);
      PublishEach(events);
      error := None;
    }

    /** The loop of `refresh`, with the mutex released: one event at a time. */
    method PublishEach(events: seq<Event>)
      requires hub.Valid()
      modifies hub.handed
      ensures hub.Valid() && hub.Abs() == PublishAll(old(hub.Abs()), events)
      ensures Reached(old(hub.Abs()), hub.Abs(), events)
    {
      ghost var start := hub.Abs();
      for i := 0 to |events|
        invariant hub.Valid()
        invariant hub.Abs() == PublishAll(start, events[..i])
      {
        ghost var so := hub.Abs();
        hub.Publish(events[i]);
        assert events[..i + 1][..i] == events[..i];
        assert PublishAll(start, events[..i + 1]) == HubStep(so, Publish(events[i]));
      }
      assert events[..|events|] == events;
      EachIsReached(start, events);
    }
  }
}
