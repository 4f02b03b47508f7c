/** Comparing observations of the project: internal/app/monitor_service.go. */
module Snapshots {
  import opened Ordering
  import opened Domain

  /** The two observations differ in more than how long the container has been as it is. */
  predicate Notable(before: Service, after: Service) {
    || before.name != after.name
    || before.number != after.number
    || before.containerName != after.containerName
    || before.image != after.image
    || before.state != after.state
    || before.statusKind != after.statusKind
    || before.health != after.health
    || before.ports != after.ports
  }

  /** The row has to be redrawn. */
  predicate Changed(before: Service, after: Service) {
    Notable(before, after) || before.status != after.status
  }

  /** An observation of the project, keyed by container ID. */
  type Snapshot = m: map<string, Service> | Keyed(m) witness map[]

  predicate Keyed(m: map<string, Service>) {
    forall id :: id in m ==> m[id].containerID == id
  }

  function Lookup(m: Snapshot, id: string): Option<Service> {
    if id in m then Some(m[id]) else None
  }

  /** Both absent, or both there with nothing on the page to redraw. */
  predicate SameRow(x: Option<Service>, y: Option<Service>) {
    match (x, y)
    case (None, None) => true
    case (Some(a), Some(b)) => a.containerID == b.containerID && !Changed(a, b)
    case _ => false
  }

  ghost predicate Agree(m: Snapshot, n: Snapshot) {
    forall id :: SameRow(Lookup(m, id), Lookup(n, id))
  }

  /** Snapshots agree exactly when they hold the same containers, none of them changed. */
  lemma AgreeMeansSameKeys(m: Snapshot, n: Snapshot)
    ensures Agree(m, n) <==> m.Keys == n.Keys && forall id :: id in m && id in n ==> !Changed(m[id], n[id])
  {
    if Agree(m, n) {
      forall id ensures id in m <==> id in n {
        assert SameRow(Lookup(m, id), Lookup(n, id));
      }
      forall id | id in m && id in n ensures !Changed(m[id], n[id]) {
        assert SameRow(Lookup(m, id), Lookup(n, id));
      }
    } else {
      var id :| !SameRow(Lookup(m, id), Lookup(n, id));
      assert id in m || id in n;
      assert id in m.Keys <==> id in m;
      assert id in n.Keys <==> id in n;
    }
  }

  // ----- indexing --------------------------------------------------------------------

  function Index(services: seq<Service>): Snapshot {
    if services == [] then map[]
    else
      var last := services[|services| - 1];
      Index(services[..|services| - 1])[last.containerID := last]
  }

  method IndexServices(services: seq<Service>) returns (indexed: Snapshot)
    ensures indexed == Index(services)
  {
    indexed := map[];
    for i := 0 to |services|
      invariant indexed == Index(services[..i])
    {
      indexed := indexed[services[i].containerID := services[i]];
      assert services[..i + 1][..i] == services[..i];
    }
    assert services[..|services|] == services;
  }

  /** Position `i` of a listing is the last one about container `id`. */
  ghost predicate LastListed(services: seq<Service>, id: string, i: int) {
    && 0 <= i < |services| && services[i].containerID == id
    && forall j :: i < j < |services| ==> services[j].containerID != id
  }

  /** The index holds the last observation of every container listed, and nothing else. */
  lemma {:induction false} IndexHoldsTheLast(services: seq<Service>, id: string)
    ensures id in Index(services) ==>
              exists i :: LastListed(services, id, i) && services[i] == Index(services)[id]
    ensures id !in Index(services) ==> forall i :: 0 <= i < |services| ==> services[i].containerID != id
  {
    if services != [] {
      var init, k := services[..|services| - 1], |services| - 1;
      IndexHoldsTheLast(init, id);
      if services[k].containerID == id {
        assert LastListed(services, id, k);
      } else if id in Index(init) {
        var i :| LastListed(init, id, i) && init[i] == Index(init)[id];
        assert LastListed(services, id, i);
      } else {
        forall i | 0 <= i < |services| ensures services[i].containerID != id {
          if i < k { assert init[i] == services[i]; }
        }
      }
    }
  }

  /** When containers are listed once, the index holds exactly what was listed. */
  lemma {:induction false} IndexHoldsThemAll(services: seq<Service>)
    requires DistinctIDs(services)
    ensures forall s :: s in services <==> s.containerID in Index(services) && Index(services)[s.containerID] == s
  {
    forall s ensures s in services <==> s.containerID in Index(services) && Index(services)[s.containerID] == s {
      IndexHoldsTheLast(services, s.containerID);
      if s in services {
        var i :| 0 <= i < |services| && services[i] == s;
        var j :| LastListed(services, s.containerID, j) && services[j] == Index(services)[s.containerID];
        assert i == j;
      }
    }
  }

  // ----- events as patches -----------------------------------------------------------

  function ID(e: Event): string { e.service.containerID }

  /** What the row of an event's container is once the event has been applied. */
  function Outcome(e: Event): Option<Service> {
    if e.action.Removed? then None else Some(e.service)
  }

  /** A page takes added and updated as the same upsert, and removed as a delete. */
  function Apply(m: Snapshot, e: Event): Snapshot {
    if e.action.Removed? then m - {ID(e)} else m[ID(e) := e.service]
  }

  function ApplyAll(m: Snapshot, events: seq<Event>): Snapshot {
    if events == [] then m else Apply(ApplyAll(m, events[..|events| - 1]), events[|events| - 1])
  }

  /** The last event of a list that is about a given container. */
  function LastFor(events: seq<Event>, id: string): (r: Option<Event>)
    ensures r.Some? ==> r.value in events && ID(r.value) == id
    ensures r.None? <==> forall e :: e in events ==> ID(e) != id
  {
    if events == [] then None
    else if ID(events[|events| - 1]) == id then Some(events[|events| - 1])
    else
      assert forall e :: e in events <==> e in events[..|events| - 1] || e == events[|events| - 1];
      LastFor(events[..|events| - 1], id)
  }

  /** Events carry whole services, so only the last one about a container matters. */
  lemma {:induction false} LastEventDecides(m: Snapshot, events: seq<Event>, id: string)
    ensures Lookup(ApplyAll(m, events), id)
            == (match LastFor(events, id) case None => Lookup(m, id) case Some(e) => Outcome(e))
  {
    if events != [] {
      LastEventDecides(m, events[..|events| - 1], id);
    }
  }

  lemma {:induction false} LastForConcat(a: seq<Event>, b: seq<Event>, id: string)
    ensures LastFor(a + b, id) == if LastFor(b, id).Some? then LastFor(b, id) else LastFor(a, id)
  {
    if b == [] {
      assert a + b == a;
    } else {
      assert (a + b)[..|a + b| - 1] == a + b[..|b| - 1];
      LastForConcat(a, b[..|b| - 1], id);
    }
  }

  // ----- the difference of two snapshots ---------------------------------------------

  /** The one event two snapshots call for about a container, if any. */
  function EventFor(previous: Snapshot, next: Snapshot, id: string): Option<Event> {
    if id in next then
      if id !in previous then Some(Event(Added, next[id], true))
      else if Changed(previous[id], next[id]) then
        Some(Event(Updated, next[id], Notable(previous[id], next[id])))
      else None
    else if id in previous then Some(Event(Removed, previous[id], true))
    else None
  }

  /** Exactly the events called for. */
  ghost predicate AllCalledFor(previous: Snapshot, next: Snapshot, events: seq<Event>) {
    forall e {:trigger e in events} :: e in events <==> EventFor(previous, next, ID(e)) == Some(e)
  }

  /** Exactly the events called for, in strict display order. */
  ghost predicate IsDiff(previous: Snapshot, next: Snapshot, events: seq<Event>) {
    StrictlySorted(events, CompareEvents) && AllCalledFor(previous, next, events)
  }

  /** An event is called for when the row differs, and settles it. */
  lemma EventForSettles(previous: Snapshot, next: Snapshot, id: string)
    ensures match EventFor(previous, next, id)
            case None => SameRow(Lookup(previous, id), Lookup(next, id))
            case Some(e) =>
              && ID(e) == id && Outcome(e) == Lookup(next, id)
              && !SameRow(Lookup(previous, id), Lookup(next, id))
  {
  }

  lemma {:induction false} LastForIsEventFor(previous: Snapshot, next: Snapshot, events: seq<Event>, id: string)
    requires AllCalledFor(previous, next, events)
    ensures LastFor(events, id) == EventFor(previous, next, id)
  {
    EventForSettles(previous, next, id);
    var wanted := EventFor(previous, next, id);
    if wanted.Some? {
      assert wanted.value in events;
    }
  }

  ghost predicate OneEach(events: seq<Event>) {
    forall i, j :: 0 <= i < j < |events| ==> ID(events[i]) != ID(events[j])
  }

  /** The events for the containers in `ids`, in no particular order. */
  ghost predicate Collected(previous: Snapshot, next: Snapshot, ids: set<string>, events: seq<Event>) {
    && OneEach(events)
    && forall e {:trigger e in events} :: e in events <==> ID(e) in ids && EventFor(previous, next, ID(e)) == Some(e)
  }

  lemma CollectOne(previous: Snapshot, next: Snapshot, ids: set<string>, events: seq<Event>, id: string)
    requires Collected(previous, next, ids, events) && id !in ids
    ensures match EventFor(previous, next, id)
            case None => Collected(previous, next, ids + {id}, events)
            case Some(e) => Collected(previous, next, ids + {id}, events + [e])
  {
    EventForSettles(previous, next, id);
    if EventFor(previous, next, id).Some? {
      forall i | 0 <= i < |events| ensures ID(events[i]) != id {
        assert events[i] in events;
      }
    }
  }

  ghost function Collect(previous: Snapshot, next: Snapshot, ids: set<string>): (events: seq<Event>)
    ensures Collected(previous, next, ids, events)
  {
    if ids == {} then []
    else
      var id :| id in ids;
      var rest := Collect(previous, next, ids - {id});
      CollectOne(previous, next, ids - {id}, rest, id);
      assert ids - {id} + {id} == ids;
      match EventFor(previous, next, id)
      case None => rest
      case Some(e) => rest + [e]
  }

  lemma SortedCollectionIsDiff(previous: Snapshot, next: Snapshot, collected: seq<Event>, events: seq<Event>)
    requires Collected(previous, next, previous.Keys + next.Keys, collected)
    requires Sorted(events, CompareEvents) && multiset(events) == multiset(collected)
    ensures IsDiff(previous, next, events)
  {
    ServicesAreOrdered();
    SameMembers(events, collected);
    forall i, j | 0 <= i < j < |collected| ensures CompareEvents(collected[i], collected[j]) != 0 {
      CompareServicesFlips(collected[i].service, collected[j].service);
    }
    SortSortsStrictly(collected, CompareEvents);
    SortedPermutationIsStrict(events, collected, CompareEvents);
  }

  lemma DiffExists(previous: Snapshot, next: Snapshot)
    ensures exists events :: IsDiff(previous, next, events)
  {
    var collected := Collect(previous, next, previous.Keys + next.Keys);
    ServicesAreOrdered();
    SortSorts(collected, CompareEvents);
    SortedCollectionIsDiff(previous, next, collected, Sort(collected, CompareEvents));
  }

  /** What changed from one snapshot to the next, as `DiffSnapshots` reports it. */
  ghost function Diff(previous: Snapshot, next: Snapshot): (events: seq<Event>)
    ensures IsDiff(previous, next, events)
  {
    DiffExists(previous, next);
    var events :| IsDiff(previous, next, events);
    events
  }

  /** Map iteration order cannot show: there is only one such list of events. */
  lemma DiffIsUnique(previous: Snapshot, next: Snapshot, events: seq<Event>)
    requires IsDiff(previous, next, events)
    ensures events == Diff(previous, next)
  {
    ServicesAreOrdered();
    StrictlySortedIsUnique(events, Diff(previous, next), CompareEvents);
  }

  method SortEvents(events: seq<Event>) returns (sorted: seq<Event>)
    ensures Sorted(sorted, CompareEvents)
    ensures multiset(sorted) == multiset(events)
  {
    var slice := new Event[|events|](i requires 0 <= i < |events| => events[i]);
    assert slice[..] == events;
    ServicesAreOrdered();
    SortFunc(slice, CompareEvents);
    sorted := slice[..];
  }

  /** The first loop of `DiffSnapshots`: what appeared and what changed. */
  method CollectPresent(previous: Snapshot, next: Snapshot) returns (events: seq<Event>)
    ensures Collected(previous, next, next.Keys, events)
  {
    events := [];
    var left := next.Keys;
    while left != {}
      invariant left <= next.Keys
      invariant Collected(previous, next, next.Keys - left, events)
      decreases left
    {
      var id :| id in left;
      var service := next[id];
      CollectOne(previous, next, next.Keys - left, events, id);
      assert next.Keys - left + {id} == next.Keys - (left - {id});
      if id !in previous {
        events := events + [Event(Added, service, true)];
      } else if Changed(previous[id], service) {
        events := events + [Event(Updated, service, Notable(previous[id], service))];
      }
      left := left - {id};
    }
    assert next.Keys - left == next.Keys;
  }

  /** Its second loop: what is gone. */
  method CollectGone(previous: Snapshot, next: Snapshot, present: seq<Event>) returns (events: seq<Event>)
    requires Collected(previous, next, next.Keys, present)
    ensures Collected(previous, next, previous.Keys + next.Keys, events)
  {
    events := present;
    var left := previous.Keys;
    ghost var covered := next.Keys;
    while left != {}
      invariant left <= previous.Keys
      invariant covered == next.Keys + (previous.Keys - left)
      invariant Collected(previous, next, covered, events)
      decreases left
    {
      var id :| id in left;
      if id in next {
        assert covered == next.Keys + (previous.Keys - (left - {id}));
      } else {
        CollectOne(previous, next, covered, events, id);
        events := events + [Event(Removed, previous[id], true)];
        assert covered + {id} == next.Keys + (previous.Keys - (left - {id}));
        covered := covered + {id};
      }
      left := left - {id};
    }
    assert covered == previous.Keys + next.Keys;
  }

  method DiffSnapshots(previous: Snapshot, next: Snapshot) returns (events: seq<Event>)
    ensures events == Diff(previous, next)
  {
    var present := CollectPresent(previous, next);
    var collected := CollectGone(previous, next, present);
    events := SortEvents(collected);
    SortedCollectionIsDiff(previous, next, collected, events);
    DiffIsUnique(previous, next, events);
  }

  // ----- the diff is a correct and minimal patch --------------------------------------

  ghost predicate Permutation(a: seq<Event>, b: seq<Event>) {
    multiset(a) == multiset(b)
  }

  lemma {:induction false} CalledForPatches(previous: Snapshot, next: Snapshot, events: seq<Event>, id: string)
    requires AllCalledFor(previous, next, events)
    ensures SameRow(Lookup(ApplyAll(previous, events), id), Lookup(next, id))
  {
    LastForIsEventFor(previous, next, events, id);
    LastEventDecides(previous, events, id);
    EventForSettles(previous, next, id);
  }

  /** Applying the events to the old snapshot, in any order at all, gives the new one. */
  lemma {:induction false} DiffPatchesInAnyOrder(previous: Snapshot, next: Snapshot, events: seq<Event>)
    requires Permutation(events, Diff(previous, next))
    ensures Agree(ApplyAll(previous, events), next)
  {
    assert AllCalledFor(previous, next, events) by { SameMembers(events, Diff(previous, next)); }
    forall id ensures SameRow(Lookup(ApplyAll(previous, events), id), Lookup(next, id)) {
      CalledForPatches(previous, next, events, id);
    }
  }

  /** There is one event for a container whose row differs, and none for any other. */
  lemma OneEventPerDifference(previous: Snapshot, next: Snapshot)
    ensures OneEach(Diff(previous, next))
    ensures forall id :: id in IDs(Diff(previous, next)) <==> !SameRow(Lookup(previous, id), Lookup(next, id))
  {
    var events := Diff(previous, next);
    forall i, j | 0 <= i < j < |events| ensures ID(events[i]) != ID(events[j]) {
      assert events[i] in events && events[j] in events;
      CompareServicesFlips(events[i].service, events[i].service);
    }
    forall id ensures id in IDs(events) <==> !SameRow(Lookup(previous, id), Lookup(next, id)) {
      LastForIsEventFor(previous, next, events, id);
      EventForSettles(previous, next, id);
    }
  }

  lemma NoEventsMeansAgree(previous: Snapshot, next: Snapshot)
    ensures Diff(previous, next) == [] <==> Agree(previous, next)
  {
    var events := Diff(previous, next);
    OneEventPerDifference(previous, next);
    if events != [] {
      assert events[0] in events;
      assert ID(events[0]) in IDs(events);
    }
  }

  /** Nothing but the texts no row is redrawn for: what the image and the routing say, how long the
      container has been as it is, and when it was made. */
  predicate Unredrawn(before: Service, after: Service) {
    after == before.(title := after.title, description := after.description, url := after.url,
                     elapsed := after.elapsed, created := after.created)
  }

  /** Besides those, only the status reads differently. */
  predicate OnlyStatus(before: Service, after: Service) {
    Unredrawn(before.(status := after.status), after)
  }

  /** What an event says of a container that was as in one snapshot and is as in the next. */
  predicate Says(e: Event, before: Option<Service>, after: Option<Service>) {
    match (e.action, before, after)
    case (Added, None, Some(y)) => e.service == y && e.notable
    case (Updated, Some(x), Some(y)) => e.service == y && !Unredrawn(x, y) && (e.notable <==> !OnlyStatus(x, y))
    case (Removed, Some(x), None) => e.service == x && e.notable
    case _ => false
  }

  lemma ComparedExactly(x: Service, y: Service)
    requires x.containerID == y.containerID
    ensures Changed(x, y) <==> !Unredrawn(x, y)
    ensures Notable(x, y) <==> !OnlyStatus(x, y)
  {
  }

  /** The events are exactly those that say what happened to a container: it came, it went, or
      anything but the texts no row is redrawn for differs; and an update is notable exactly when
      more than the status does. */
  lemma {:induction false} DiffSays(previous: Snapshot, next: Snapshot, e: Event)
    ensures e in Diff(previous, next) <==> Says(e, Lookup(previous, ID(e)), Lookup(next, ID(e)))
  {
    var id := ID(e);
    if id in previous && id in next { ComparedExactly(previous[id], next[id]); }
  }

  /** A container in both snapshots has no event exactly when none of it is to be redrawn. */
  lemma SilentExactly(previous: Snapshot, next: Snapshot, id: string)
    requires id in previous && id in next
    ensures (forall e :: e in Diff(previous, next) ==> ID(e) != id) <==> Unredrawn(previous[id], next[id])
  {
    var e := Event(Updated, next[id], !OnlyStatus(previous[id], next[id]));
    DiffSays(previous, next, e);
    forall f | f in Diff(previous, next) && ID(f) == id ensures !Unredrawn(previous[id], next[id]) {
      DiffSays(previous, next, f);
    }
  }

  /** Snapshots that agree hold the same containers, none of which is to be redrawn. */
  lemma AgreeExactly(m: Snapshot, n: Snapshot)
    ensures Agree(m, n) <==> m.Keys == n.Keys && forall id :: id in m && id in n ==> Unredrawn(m[id], n[id])
  {
    AgreeMeansSameKeys(m, n);
    forall id | id in m && id in n ensures Changed(m[id], n[id]) <==> !Unredrawn(m[id], n[id]) {
      ComparedExactly(m[id], n[id]);
    }
  }

  ghost function IDs(events: seq<Event>): set<string> {
    set e | e in events :: ID(e)
  }

  lemma {:induction false} IDsAreAtMost(events: seq<Event>)
    ensures |IDs(events)| <= |events|
    ensures OneEach(events) ==> |IDs(events)| == |events|
  {
    if events != [] {
      var init, last := events[..|events| - 1], events[|events| - 1];
      IDsAreAtMost(init);
      assert events == init + [last];
      assert IDs(events) == IDs(init) + {ID(last)};
      if OneEach(events) {
        assert ID(last) !in IDs(init);
      }
    }
  }

  /** No shorter list of events makes the same patch. */
  lemma {:induction false} DiffIsMinimal(previous: Snapshot, next: Snapshot, events: seq<Event>)
    requires Agree(ApplyAll(previous, events), next)
    ensures |Diff(previous, next)| <= |events|
  {
    var diff := Diff(previous, next);
    OneEventPerDifference(previous, next);
    forall id | id in IDs(diff) ensures id in IDs(events) {
      LastEventDecides(previous, events, id);
      assert SameRow(Lookup(ApplyAll(previous, events), id), Lookup(next, id));
    }
    IDsAreAtMost(diff);
    IDsAreAtMost(events);
    SubsetIsSmaller(IDs(diff), IDs(events));
  }

  lemma {:induction false} SubsetIsSmaller<T>(a: set<T>, b: set<T>)
    requires a <= b
    ensures |a| <= |b|
  {
    assert |b| == |a| + |b - a| by { assert b == a + (b - a); }
  }

  // ----- summaries -------------------------------------------------------------------

  function CountOnline(services: seq<Service>): nat {
    if services == [] then 0
    else CountOnline(services[..|services| - 1]) + if services[|services| - 1].Online() then 1 else 0
  }

  method Summarize(services: seq<Service>) returns (summary: Summary)
    ensures summary.total == |services|
    ensures summary.online == CountOnline(services)
    ensures summary.online + summary.offline == summary.total
  {
    var online, offline := 0, 0;
    for i := 0 to |services|
      invariant online == CountOnline(services[..i])
      invariant online + offline == i
    {
      if services[i].Online() {
        online := online + 1;
      } else {
        offline := offline + 1;
      }
      assert services[..i + 1][..i] == services[..i];
    }
    assert services[..|services|] == services;
    summary := Summary(|services|, online, offline);
  }
}
