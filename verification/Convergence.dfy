/** What a page that has caught up shows, for any overlap of refreshes: exactly when it is the latest
    snapshot. */
module Convergence {
  import opened Domain
  import opened Snapshots
  import opened Hubs
  import opened LiveUpdates

  // ----- what a page shows ------------------------------------------------------------------------

  /** The services connection `c` has told its page of: the listing, then what was received. */
  ghost function View(s: System, c: nat): Snapshot
    requires c in s.connections && s.connections[c].Live? && c < |s.hub.chans|
  {
    ApplyAll(Index(s.connections[c].listing), s.hub.chans[c].received)
  }

  /** The connection is open and has passed on everything in its buffer, and every event of every
      refresh has been published. */
  ghost predicate CaughtUp(s: System, c: nat) {
    && c in s.connections && s.connections[c].Live?
    && c < |s.hub.chans| && s.hub.chans[c].open && s.hub.chans[c].buffer == []
    && Quiet(s)
  }

  // ----- when a row is settled ----------------------------------------------------------------------

  /** What a refresh has still to publish. */
  ghost function Rest(s: System, r: nat): seq<Event> {
    if r in s.refreshes && s.refreshes[r].Publishing? then s.refreshes[r].rest else []
  }

  /** Event `i` of that is about container `id`. */
  ghost predicate StillToCome(s: System, r: nat, i: int, id: string) {
    0 <= i < |Rest(s, r)| && ID(Rest(s, r)[i]) == id
  }

  ghost predicate QuietFor(s: System, id: string) {
    forall r: nat, i :: !StillToCome(s, r, i, id)
  }

  lemma QuietIsQuietForAll(s: System, id: string)
    requires Quiet(s)
    ensures QuietFor(s, id)
  {
    forall r: nat, i ensures !StillToCome(s, r, i, id) {
      assert !Unfinished(s, r);
    }
  }

  /** The connection is open, and no event about container `id` is in its buffer or still to be
      published. */
  ghost predicate RowSettled(s: System, c: nat, id: string) {
    && c in s.connections && s.connections[c].Live?
    && c < |s.hub.chans| && s.hub.chans[c].open && LastFor(s.hub.chans[c].buffer, id).None?
    && QuietFor(s, id)
  }

  lemma CaughtUpIsSettled(s: System, c: nat, id: string)
    requires CaughtUp(s, c)
    ensures RowSettled(s, c, id)
  {
    QuietIsQuietForAll(s, id);
  }

  lemma NoneUnderway(s: System, e: Event)
    requires QuietFor(s, ID(e))
    ensures !Underway(s, e)
  {
    if Underway(s, e) {
      var r: nat :| Unfinished(s, r) && e in s.refreshes[r].rest;
      var i :| 0 <= i < |Rest(s, r)| && Rest(s, r)[i] == e;
      assert StillToCome(s, r, i, ID(e));
    }
  }

  /** The last event about a container was kept. */
  ghost predicate LastIsKept(events: seq<Event>, mask: seq<bool>, id: string) {
    exists k :: 0 <= k < |events| && k < |mask| && IsLast(events, id, k) && mask[k]
  }

  ghost predicate IsLast(events: seq<Event>, id: string, k: int)
    requires 0 <= k < |events|
  {
    ID(events[k]) == id && forall j :: k < j < |events| ==> ID(events[j]) != id
  }

  lemma {:induction false} LastIsAt(events: seq<Event>, id: string, k: nat)
    requires k < |events| && IsLast(events, id, k)
    ensures LastFor(events, id) == Some(events[k])
  {
    if k < |events| - 1 {
      assert IsLast(events[..|events| - 1], id, k);
      LastIsAt(events[..|events| - 1], id, k);
    }
  }

  lemma {:induction false} SelectKeepsLast(events: seq<Event>, mask: seq<bool>, id: string, k: nat)
    requires |events| == |mask| && k < |events| && IsLast(events, id, k) && mask[k]
    ensures LastFor(Select(events, mask), id) == Some(events[k])
  {
    var n := |events| - 1;
    var rest := Select(events[..n], mask[..n]);
    if k == n {
      LastForConcat(rest, [events[n]], id);
    } else {
      assert IsLast(events[..n], id, k);
      SelectKeepsLast(events[..n], mask[..n], id, k);
      LastForConcat(rest, if mask[n] then [events[n]] else [], id);
    }
  }

  /** Of the events about a container, the last one published to a channel was kept, if any was. */
  ghost predicate LastKept(chan: Chan, id: string) {
    LastFor(chan.offered, id).Some? ==> LastIsKept(chan.offered, chan.kept, id)
  }

  lemma {:induction false} LastKeptIsReceived(events: seq<Event>, mask: seq<bool>, id: string)
    requires |events| == |mask| && LastIsKept(events, mask, id)
    ensures LastFor(Select(events, mask), id) == LastFor(events, id) && LastFor(events, id).Some?
  {
    var k :| 0 <= k < |events| && k < |mask| && IsLast(events, id, k) && mask[k];
    LastIsAt(events, id, k);
    SelectKeepsLast(events, mask, id, k);
  }

  lemma {:induction false} SomeIsLast(events: seq<Event>, id: string)
    requires LastFor(events, id).Some?
    ensures exists k :: 0 <= k < |events| && IsLast(events, id, k)
  {
    var n := |events| - 1;
    if ID(events[n]) == id {
      assert IsLast(events, id, n);
    } else {
      SomeIsLast(events[..n], id);
      var k :| 0 <= k < |events[..n]| && IsLast(events[..n], id, k);
      assert IsLast(events, id, k);
    }
  }

  /** When nothing is dropped, every last event is kept. */
  lemma NothingDroppedLastKept(chan: Chan, id: string)
    requires |chan.offered| == |chan.kept| && false !in chan.kept
    ensures LastKept(chan, id)
  {
    if LastFor(chan.offered, id).Some? {
      SomeIsLast(chan.offered, id);
    }
  }

  // ----- what it shows --------------------------------------------------------------------------------

  /** What the events announced last say about a container. */
  ghost function AnnouncedRow(s: System, id: string): Option<Service> {
    match LastFor(s.announced, id)
    case Some(e) => Outcome(e)
    case None => None
  }

  /** What the events a page received say about a container; failing those, its listing. */
  ghost function ReceivedRow(s: System, c: nat, id: string): Option<Service>
    requires c in s.connections && s.connections[c].Live? && c < |s.hub.chans|
  {
    match LastFor(s.hub.chans[c].received, id)
    case Some(e) => Outcome(e)
    case None => Lookup(Index(s.connections[c].listing), id)
  }

  /** The listing had container `id` as some snapshot since the subscription did. */
  ghost predicate ListedAsSince(s: System, c: nat, id: string)
    requires c in s.connections && s.connections[c].Live?
  {
    exists j :: s.connections[c].since <= j <= |s.history|
      && SameRow(Lookup(Index(s.connections[c].listing), id), Lookup(Latest(s.history[..j]), id))
  }

  lemma {:induction false} SnapshotIsAnnounced(steps: seq<Step>, id: string)
    ensures SameRow(AnnouncedRow(Run(steps), id), Lookup(Run(steps).snapshot, id))
  {
    Telescoping(steps);
    LastEventDecides(map[], Run(steps).announced, id);
  }

  /** A container about which nothing was published since the subscription has not changed since. */
  lemma {:induction false} NothingOfferedNothingChanged(steps: seq<Step>, c: nat, id: string)
    requires RowSettled(Run(steps), c, id) && LastFor(Run(steps).hub.chans[c].offered, id).None?
    ensures Unchanging(Run(steps).history, Run(steps).connections[c].since, id)
  {
    var s := Run(steps);
    var batches := BatchesSince(s.history, s.connections[c].since);
    RunMissesNothing(steps, c);
    RunIsAttached(steps);
    assert Attached(s, c) && NothingMissing(s, c);
    forall e | e in batches ensures ID(e) != id {
      if ID(e) == id { NoneUnderway(s, e); }
    }
    NoEventNoChange(s.history, s.connections[c].since, id);
  }

  /** What was received last about the container is what was kept last. */
  lemma {:induction false} ReceivedIsKept(steps: seq<Step>, c: nat, id: string)
    requires RowSettled(Run(steps), c, id)
    ensures var chan := Run(steps).hub.chans[c];
            && |chan.offered| == |chan.kept|
            && LastFor(chan.received, id) == LastFor(Select(chan.offered, chan.kept), id)
            && (LastKept(chan, id) ==> LastFor(chan.received, id) == LastFor(chan.offered, id))
  {
    var chan := Run(steps).hub.chans[c];
    RunIsAttached(steps);
    assert Accounted(chan);
    LastForConcat(chan.received, chan.buffer, id);
    if LastFor(chan.offered, id).None? {
      SelectAddsNothing(chan.offered, chan.kept, id);
    } else if LastIsKept(chan.offered, chan.kept, id) {
      LastKeptIsReceived(chan.offered, chan.kept, id);
    }
  }

  /** However refreshes overlapped and whatever was dropped, a row is current exactly when nothing
      was published about its container since the subscription, or what was received last (failing
      that, the listing) says what was announced last. */
  lemma {:induction false} RowIsCurrentExactly(steps: seq<Step>, c: nat, id: string)
    requires RowSettled(Run(steps), c, id) && ListedAsSince(Run(steps), c, id)
    ensures var s := Run(steps);
            SameRow(Lookup(View(s, c), id), Lookup(s.snapshot, id))
            <==> || LastFor(s.hub.chans[c].offered, id).None?
                 || SameRow(ReceivedRow(s, c, id), AnnouncedRow(s, id))
  {
    var s := Run(steps);
    var chan, conn := s.hub.chans[c], s.connections[c];
    LastEventDecides(Index(conn.listing), chan.received, id);
    SnapshotIsAnnounced(steps, id);
    SameRowEither(ReceivedRow(s, c, id), AnnouncedRow(s, id), Lookup(s.snapshot, id));
    if LastFor(chan.offered, id).None? {
      ReceivedIsKept(steps, c, id);
      NothingOfferedNothingChanged(steps, c, id);
      RunIsChained(steps);
      NoEventKeepsListing(s, c, id);
    }
  }

  lemma SameRowEither(x: Option<Service>, y: Option<Service>, z: Option<Service>)
    requires SameRow(y, z)
    ensures SameRow(x, y) <==> SameRow(x, z)
  {
  }

  lemma NoEventKeepsListing(s: System, c: nat, id: string)
    requires c in s.connections && s.connections[c].Live? && ListedAsSince(s, c, id)
    requires Unchanging(s.history, s.connections[c].since, id) && s.snapshot == Latest(s.history)
    ensures SameRow(Lookup(Index(s.connections[c].listing), id), Lookup(s.snapshot, id))
  {
    var j :| s.connections[c].since <= j <= |s.history|
      && SameRow(Lookup(Index(s.connections[c].listing), id), Lookup(Latest(s.history[..j]), id));
    SameRowTransitive(
      Lookup(Index(s.connections[c].listing), id), Lookup(Latest(s.history[..j]), id), Lookup(s.snapshot, id));
  }

  lemma {:induction false} SelectAddsNothing(events: seq<Event>, mask: seq<bool>, id: string)
    requires |events| == |mask| && LastFor(events, id).None?
    ensures LastFor(Select(events, mask), id).None?
  {
    if events != [] {
      var n := |events| - 1;
      SelectAddsNothing(events[..n], mask[..n], id);
      LastForConcat(Select(events[..n], mask[..n]), if mask[n] then [events[n]] else [], id);
    }
  }

  /** The last event about a container to be published says what the last one announced does. */
  ghost predicate LastInTurn(s: System, c: nat, id: string)
    requires c < |s.hub.chans|
  {
    match LastFor(s.hub.chans[c].offered, id)
    case Some(e) => SameRow(Outcome(e), AnnouncedRow(s, id))
    case None => true
  }

  /** When the event about its container that was published last was kept, a row is current exactly
      when that event, if any, says what the one announced last does. */
  lemma {:induction false} RowIsCurrentInTurn(steps: seq<Step>, c: nat, id: string)
    requires RowSettled(Run(steps), c, id) && ListedAsSince(Run(steps), c, id)
    requires LastKept(Run(steps).hub.chans[c], id)
    ensures SameRow(Lookup(View(Run(steps), c), id), Lookup(Run(steps).snapshot, id))
            <==> LastInTurn(Run(steps), c, id)
  {
    ReceivedIsKept(steps, c, id);
    RowIsCurrentExactly(steps, c, id);
  }

  /** Convergence, exactly: wherever in the run a client subscribed and listed, however refreshes
      overlapped, and whatever was dropped but the last event about a container, once it has caught
      up its page agrees with the current snapshot if and only if every row's last event was
      published in turn. */
  lemma {:induction false} ConvergesExactly(steps: seq<Step>, c: nat)
    requires CaughtUp(Run(steps), c) && forall id :: LastKept(Run(steps).hub.chans[c], id)
    requires forall id :: ListedAsSince(Run(steps), c, id)
    ensures Agree(View(Run(steps), c), Run(steps).snapshot) <==> forall id :: LastInTurn(Run(steps), c, id)
  {
    var s := Run(steps);
    forall id ensures SameRow(Lookup(View(s, c), id), Lookup(s.snapshot, id)) <==> LastInTurn(s, c, id) {
      CaughtUpIsSettled(s, c, id);
      RowIsCurrentInTurn(steps, c, id);
    }
  }
}
