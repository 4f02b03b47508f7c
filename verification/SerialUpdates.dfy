/** Runs whose refreshes do not overlap, or not about one container: in them a page always comes
    to show the latest snapshot. */
module SerialUpdates {
  import opened Domain
  import opened Snapshots
  import opened LiveUpdates
  import opened Convergence

  // ----- refreshes that do not overlap -------------------------------------------------------

  /** A snapshot is swapped only when the events of the one before it have all been published. */
  ghost predicate Serial(steps: seq<Step>) {
    steps == []
    || (Serial(steps[..|steps| - 1])
        && (steps[|steps| - 1].SwapSnapshot? ==> Quiet(Run(steps[..|steps| - 1]))))
  }

  /** The hub has been given a prefix of the batches; one refresh has what remains. */
  ghost predicate InOrder(s: System) {
    && s.published <= s.announced
    && (forall r :: Unfinished(s, r) ==> s.refreshes[r].rest == s.announced[|s.published|..])
    && (forall r, q :: Unfinished(s, r) && Unfinished(s, q) ==> r == q)
    && (Quiet(s) ==> s.published == s.announced)
  }

  lemma InOrderSwap(s: System, r: nat)
    requires Chained(s) && InOrder(s) && Quiet(s)
    ensures InOrder(Next(s, SwapSnapshot(r)))
  {
    var t := Next(s, SwapSnapshot(r));
    if t != s {
      var events := t.refreshes[r].rest;
      assert t.announced[|s.published|..] == events;
      forall q | Unfinished(t, q) ensures q == r {
        assert !Unfinished(s, q);
      }
      if Quiet(t) {
        assert !Unfinished(t, r);
        assert t.announced == s.announced;
      }
    }
  }

  lemma InOrderPublish(s: System, r: nat)
    requires InOrder(s)
    ensures InOrder(Next(s, PublishNext(r)))
  {
    var t := Next(s, PublishNext(r));
    if t != s {
      var rest, left := s.refreshes[r].rest, s.announced[|s.published|..];
      assert Unfinished(s, r) && rest == left;
      assert s.announced == s.published + rest;
      assert s.announced == t.published + rest[1..];
      forall q | Unfinished(t, q) ensures q == r {
        assert Unfinished(s, q);
      }
      assert !Unfinished(t, r) ==> rest[1..] == [];
    }
  }

  /** Every other step leaves the refreshes with events to publish as they are. */
  lemma InOrderOtherwise(s: System, step: Step)
    requires InOrder(s) && !step.SwapSnapshot? && !step.PublishNext?
    ensures InOrder(Next(s, step))
  {
    var t := Next(s, step);
    forall q ensures Unfinished(t, q) <==> Unfinished(s, q) {}
  }

  lemma InOrderStep(s: System, step: Step)
    requires Chained(s) && InOrder(s)
    requires step.SwapSnapshot? ==> Quiet(s)
    ensures InOrder(Next(s, step))
  {
    if step.SwapSnapshot? {
      InOrderSwap(s, step.refresh);
    } else if step.PublishNext? {
      InOrderPublish(s, step.refresh);
    } else {
      InOrderOtherwise(s, step);
    }
  }

  lemma {:induction false} SerialRunIsInOrder(steps: seq<Step>)
    requires Serial(steps)
    ensures InOrder(Run(steps))
  {
    if steps != [] {
      SerialRunIsInOrder(steps[..|steps| - 1]);
      RunIsChained(steps[..|steps| - 1]);
      InOrderStep(Run(steps[..|steps| - 1]), steps[|steps| - 1]);
    }
  }

  // ----- refreshes that do not overlap about a container ------------------------------------------------

  /** Swapping the snapshot will announce an event about container `id`. */
  ghost predicate WillAnnounce(s: System, r: nat, id: string) {
    r in s.refreshes && s.refreshes[r].Listed? && EventFor(s.snapshot, s.refreshes[r].next, id).Some?
  }

  /** An event about container `id` is announced only when the one before it has been published.
      Refreshes may overlap as they like about other containers. */
  ghost predicate SerialFor(steps: seq<Step>, id: string) {
    steps == []
    || (SerialFor(steps[..|steps| - 1], id)
        && AnnouncesInTurn(Run(steps[..|steps| - 1]), steps[|steps| - 1], id))
  }

  ghost predicate AnnouncesInTurn(s: System, step: Step, id: string) {
    step.SwapSnapshot? && WillAnnounce(s, step.refresh, id) ==> QuietFor(s, id)
  }

  lemma {:induction false} SerialIsSerialForAll(steps: seq<Step>, id: string)
    requires Serial(steps)
    ensures SerialFor(steps, id)
  {
    if steps != [] {
      var init := steps[..|steps| - 1];
      SerialIsSerialForAll(init, id);
      if Quiet(Run(init)) { QuietIsQuietForAll(Run(init), id); }
    }
  }

  lemma {:induction false} SerialSoFar(steps: seq<Step>, id: string, k: nat)
    requires SerialFor(steps, id) && k <= |steps|
    ensures SerialFor(steps[..k], id)
  {
    if k == |steps| {
      assert steps[..k] == steps;
    } else {
      SerialSoFar(steps[..|steps| - 1], id, k);
      assert steps[..|steps| - 1][..k] == steps[..k];
    }
  }

  /** At most one event about the container is still to come, and it is the one announced last;
      when none is, the one announced last has been published last. */
  ghost predicate InTurn(s: System, id: string) {
    && (forall r: nat, i, q: nat, j :: StillToCome(s, r, i, id) && StillToCome(s, q, j, id) ==> r == q && i == j)
    && (forall r: nat, i :: StillToCome(s, r, i, id) ==> LastFor(s.announced, id) == Some(Rest(s, r)[i]))
    && (QuietFor(s, id) ==> LastFor(s.published, id) == LastFor(s.announced, id))
  }

  lemma OnlyInBatch(previous: Snapshot, next: Snapshot, i: int, id: string)
    requires 0 <= i < |Diff(previous, next)| && ID(Diff(previous, next)[i]) == id
    ensures EventFor(previous, next, id) == Some(Diff(previous, next)[i])
  {
    assert Diff(previous, next)[i] in Diff(previous, next);
  }

  /** Where a batch has its one event about a container. */
  ghost predicate IsPlace(previous: Snapshot, next: Snapshot, id: string, i: int) {
    var batch := Diff(previous, next);
    && 0 <= i < |batch| && ID(batch[i]) == id && EventFor(previous, next, id) == Some(batch[i])
    && forall j :: 0 <= j < |batch| && ID(batch[j]) == id ==> j == i
  }

  lemma OnePlaceInBatch(previous: Snapshot, next: Snapshot, id: string)
    ensures EventFor(previous, next, id).Some? ==> exists i :: IsPlace(previous, next, id, i)
  {
    OneEventPerDifference(previous, next);
    EventForSettles(previous, next, id);
    var e := EventFor(previous, next, id);
    if e.Some? {
      assert e.value in Diff(previous, next);
      var i :| 0 <= i < |Diff(previous, next)| && Diff(previous, next)[i] == e.value;
      assert IsPlace(previous, next, id, i);
    }
  }

  /** Event `i` of refresh `r` is the only one about the container still to come. */
  ghost predicate OnlyToCome(s: System, r: nat, i: int, id: string) {
    StillToCome(s, r, i, id) && forall q: nat, j :: StillToCome(s, q, j, id) ==> q == r && j == i
  }

  lemma {:induction false} OnlyOneIsInTurn(s: System, r: nat, i: int, id: string)
    requires OnlyToCome(s, r, i, id)
    ensures LastFor(s.announced, id) == Some(Rest(s, r)[i]) ==> InTurn(s, id)
  {
  }

  lemma InTurnAfterAnnouncing(s: System, r: nat, id: string)
    requires WillAnnounce(s, r, id) && QuietFor(s, id)
    ensures InTurn(Next(s, SwapSnapshot(r)), id)
  {
    var t, previous, next := Next(s, SwapSnapshot(r)), s.snapshot, s.refreshes[r].next;
    LastForBatch(s.announced, previous, next, id);
    OnePlaceInBatch(previous, next, id);
    var i :| IsPlace(previous, next, id, i);
    assert Rest(t, r) == Diff(previous, next);
    forall q: nat, j | StillToCome(t, q, j, id) ensures q == r && j == i {
      assert Rest(t, q) == if q == r then Diff(previous, next) else Rest(s, q);
      assert !StillToCome(s, q, j, id);
    }
    OnlyOneIsInTurn(t, r, i, id);
  }

  lemma NothingNewToCome(s: System, r: nat, q: nat, i: int, id: string)
    requires r in s.refreshes && s.refreshes[r].Listed? && !WillAnnounce(s, r, id)
    ensures var t := Next(s, SwapSnapshot(r));
            && (StillToCome(t, q, i, id) <==> StillToCome(s, q, i, id))
            && (StillToCome(t, q, i, id) ==> Rest(t, q)[i] == Rest(s, q)[i])
  {
    var t := Next(s, SwapSnapshot(r));
    assert Rest(t, q) == if q == r then Diff(s.snapshot, s.refreshes[r].next) else Rest(s, q);
    if q == r && StillToCome(t, q, i, id) {
      OnlyInBatch(s.snapshot, s.refreshes[r].next, i, id);
    }
  }

  lemma InTurnAfterSwap(s: System, r: nat, id: string)
    requires InTurn(s, id) && (WillAnnounce(s, r, id) ==> QuietFor(s, id))
    ensures InTurn(Next(s, SwapSnapshot(r)), id)
  {
    var t := Next(s, SwapSnapshot(r));
    if WillAnnounce(s, r, id) {
      InTurnAfterAnnouncing(s, r, id);
    } else if t != s {
      LastForBatch(s.announced, s.snapshot, s.refreshes[r].next, id);
      forall q: nat, i
        ensures StillToCome(t, q, i, id) <==> StillToCome(s, q, i, id)
        ensures StillToCome(t, q, i, id) ==> Rest(t, q)[i] == Rest(s, q)[i]
      {
        NothingNewToCome(s, r, q, i, id);
      }
      SameToComeSameTurn(s, t, id);
    }
  }

  lemma {:induction false} SameToComeSameTurn(s: System, t: System, id: string)
    requires InTurn(s, id) && LastFor(t.announced, id) == LastFor(s.announced, id) && t.published == s.published
    requires forall q: nat, i :: StillToCome(t, q, i, id) <==> StillToCome(s, q, i, id)
    requires forall q: nat, i :: StillToCome(t, q, i, id) ==> Rest(t, q)[i] == Rest(s, q)[i]
    ensures InTurn(t, id)
  {
  }

  /** Publishing moves what a refresh has still to publish up by one. */
  lemma RestMovesUp(s: System, r: nat, q: nat, i: int, id: string)
    requires Unfinished(s, r) && i >= 0
    ensures var t, k := Next(s, PublishNext(r)), if q == r then i + 1 else i;
            && (StillToCome(t, q, i, id) <==> StillToCome(s, q, k, id))
            && (StillToCome(t, q, i, id) ==> Rest(t, q)[i] == Rest(s, q)[k])
  {
  }

  lemma InTurnAfterPublish(s: System, r: nat, id: string)
    requires InTurn(s, id) && Unfinished(s, r)
    ensures InTurn(Next(s, PublishNext(r)), id)
  {
    var t, first := Next(s, PublishNext(r)), Rest(s, r)[0];
    LastForConcat(s.published, [first], id);
    forall q: nat, i | StillToCome(t, q, i, id)
      ensures StillToCome(s, q, if q == r then i + 1 else i, id)
      ensures Rest(t, q)[i] == Rest(s, q)[if q == r then i + 1 else i]
    {
      RestMovesUp(s, r, q, i, id);
    }
    if ID(first) == id {
      assert StillToCome(s, r, 0, id);
    } else {
      forall q: nat, i | StillToCome(s, q, i, id) ensures !QuietFor(t, id) {
        var k := if q == r then i - 1 else i;
        assert k >= 0;
        RestMovesUp(s, r, q, k, id);
        assert StillToCome(t, q, k, id);
      }
    }
  }

  lemma RestStays(s: System, step: Step, q: nat)
    requires !step.SwapSnapshot? && !step.PublishNext?
    ensures Rest(Next(s, step), q) == Rest(s, q)
  {
  }

  lemma InTurnOtherwise(s: System, step: Step, id: string)
    requires InTurn(s, id) && !step.SwapSnapshot? && !step.PublishNext?
    ensures InTurn(Next(s, step), id)
  {
    var t := Next(s, step);
    forall q: nat ensures Rest(t, q) == Rest(s, q) {
      RestStays(s, step, q);
    }
    SameToComeSameTurn(s, t, id);
  }

  lemma {:induction false} SerialRunIsInTurn(steps: seq<Step>, id: string)
    requires SerialFor(steps, id)
    ensures InTurn(Run(steps), id)
  {
    if steps != [] {
      var init, step := steps[..|steps| - 1], steps[|steps| - 1];
      SerialRunIsInTurn(init, id);
      if step.SwapSnapshot? {
        InTurnAfterSwap(Run(init), step.refresh, id);
      } else if step.PublishNext? {
        if Unfinished(Run(init), step.refresh) { InTurnAfterPublish(Run(init), step.refresh, id); }
      } else {
        InTurnOtherwise(Run(init), step, id);
      }
    }
  }

  lemma {:induction false} LastOfSuffix(events: seq<Event>, k: nat, id: string)
    requires k <= |events| && LastFor(events[k..], id).Some?
    ensures LastFor(events, id) == LastFor(events[k..], id)
  {
    assert events == events[..k] + events[k..];
    LastForConcat(events[..k], events[k..], id);
  }

  /** Then what a connection was offered last about the container is what was announced last. */
  lemma {:induction false} LastOfferIsLastAnnounced(steps: seq<Step>, c: nat, id: string)
    requires SerialFor(steps, id) && RowSettled(Run(steps), c, id)
    requires LastFor(Run(steps).hub.chans[c].offered, id).Some?
    ensures LastFor(Run(steps).announced, id) == LastFor(Run(steps).hub.chans[c].offered, id)
  {
    var s := Run(steps);
    SerialRunIsInTurn(steps, id);
    RunIsAttached(steps);
    assert Attached(s, c);
    LastOfSuffix(s.published, s.connections[c].from, id);
  }

  /** What a connection was offered last about a container is what the snapshot says of it. */
  lemma {:induction false} LastOfferIsCurrent(steps: seq<Step>, c: nat, id: string)
    requires SerialFor(steps, id) && RowSettled(Run(steps), c, id)
    requires LastFor(Run(steps).hub.chans[c].offered, id).Some?
    ensures var s := Run(steps);
            SameRow(Outcome(LastFor(s.hub.chans[c].offered, id).value), Lookup(s.snapshot, id))
  {
    LastOfferIsLastAnnounced(steps, c, id);
    SnapshotIsAnnounced(steps, id);
  }

  /** Drops do not accumulate: a row is current exactly when there was no event about its container,
      or the last one was kept, whatever became of earlier ones, or what was kept last (failing that,
      the listing) says the same as the last one. */
  lemma {:induction false} RowIsCurrent(steps: seq<Step>, c: nat, id: string)
    requires SerialFor(steps, id) && RowSettled(Run(steps), c, id)
    requires LastFor(Run(steps).hub.chans[c].offered, id).None? ==> ListedAsSince(Run(steps), c, id)
    ensures var s := Run(steps);
            var chan := s.hub.chans[c];
            SameRow(Lookup(View(s, c), id), Lookup(s.snapshot, id))
            <==> || LastFor(chan.offered, id).None?
                 || LastIsKept(chan.offered, chan.kept, id)
                 || SameRow(ReceivedRow(s, c, id), Outcome(LastFor(chan.offered, id).value))
  {
    var s := Run(steps);
    var chan := s.hub.chans[c];
    if LastFor(chan.offered, id).None? {
      RowIsCurrentExactly(steps, c, id);
    } else {
      ReceivedIsKept(steps, c, id);
      LastOfferIsCurrent(steps, c, id);
      LastEventDecides(Index(s.connections[c].listing), chan.received, id);
      SameRowEither(ReceivedRow(s, c, id), Outcome(LastFor(chan.offered, id).value), Lookup(s.snapshot, id));
    }
  }

  /** With its last event kept, a row is current exactly when some event was published about its
      container since the subscription, or the listing already had it as it is now. */
  lemma {:induction false} WithoutDropsExactly(steps: seq<Step>, c: nat, id: string)
    requires SerialFor(steps, id) && RowSettled(Run(steps), c, id)
    requires LastKept(Run(steps).hub.chans[c], id)
    ensures var s := Run(steps);
            SameRow(Lookup(View(s, c), id), Lookup(s.snapshot, id))
            <==> || LastFor(s.hub.chans[c].offered, id).Some?
                 || SameRow(Lookup(Index(s.connections[c].listing), id), Lookup(s.snapshot, id))
  {
    var s := Run(steps);
    var chan := s.hub.chans[c];
    ReceivedIsKept(steps, c, id);
    LastEventDecides(Index(s.connections[c].listing), chan.received, id);
    if LastFor(chan.offered, id).Some? { LastOfferIsCurrent(steps, c, id); }
  }

  /** Convergence: when no two refreshes overlap about one container, a client that has caught up
      agrees with the current snapshot, provided the last event about every container was kept, and
      every container it listed (or did not) was as some snapshot since the subscription had it. */
  lemma {:induction false} Converges(steps: seq<Step>, c: nat)
    requires CaughtUp(Run(steps), c) && (forall id :: SerialFor(steps, id))
    requires forall id :: LastKept(Run(steps).hub.chans[c], id)
    requires forall id :: ListedAsSince(Run(steps), c, id)
    ensures Agree(View(Run(steps), c), Run(steps).snapshot)
  {
    var s := Run(steps);
    ConvergesExactly(steps, c);
    forall id ensures LastInTurn(s, c, id) {
      CaughtUpIsSettled(s, c, id);
      if LastFor(s.hub.chans[c].offered, id).Some? {
        LastOfferIsLastAnnounced(steps, c, id);
      }
      SnapshotIsAnnounced(steps, id);
    }
  }
}
