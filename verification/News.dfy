/** What the monitor tells is news: every event a connection receives says what happened to its
    container between two snapshots that followed each other. */
module News {
  import opened Domain
  import opened Snapshots
  import opened Hubs
  import opened LiveUpdates

  /** The event is one of those that took the project from one snapshot to the next. */
  ghost predicate TellsOf(history: seq<Snapshot>, e: Event, i: int) {
    0 <= i < |history| && e in Diff(Latest(history[..i]), Latest(history[..i + 1]))
  }

  ghost predicate IsNews(history: seq<Snapshot>, e: Event) {
    exists i :: TellsOf(history, e, i)
  }

  lemma NewsStays(history: seq<Snapshot>, next: Snapshot, e: Event)
    requires IsNews(history, e)
    ensures IsNews(history + [next], e)
  {
    var i :| TellsOf(history, e, i);
    assert (history + [next])[..i] == history[..i] && (history + [next])[..i + 1] == history[..i + 1];
    assert TellsOf(history + [next], e, i);
  }

  lemma DifferenceIsNews(history: seq<Snapshot>, next: Snapshot, e: Event)
    requires e in Diff(Latest(history), next)
    ensures IsNews(history + [next], e)
  {
    var k := |history|;
    assert (history + [next])[..k] == history && (history + [next])[..k + 1] == history + [next];
    assert TellsOf(history + [next], e, k);
  }

  /** Whatever is to be published, has been, or was offered to a channel. */
  ghost predicate OnlyNews(s: System) {
    && s.snapshot == Latest(s.history)
    && (forall e :: Underway(s, e) ==> IsNews(s.history, e))
    && (forall h, e :: 0 <= h < |s.hub.chans| && e in s.hub.chans[h].offered ==> IsNews(s.history, e))
  }

  lemma SwapAddsNews(s: System, r: nat, e: Event)
    requires OnlyNews(s) && Underway(Next(s, SwapSnapshot(r)), e)
    ensures IsNews(Next(s, SwapSnapshot(r)).history, e)
  {
    var t := Next(s, SwapSnapshot(r));
    var q: nat :| Unfinished(t, q) && e in t.refreshes[q].rest;
    if t == s || q != r {
      assert Unfinished(s, q) && e in s.refreshes[q].rest;
    }
    if t != s {
      var next := s.refreshes[r].next;
      if q == r {
        DifferenceIsNews(s.history, next, e);
      } else {
        NewsStays(s.history, next, e);
      }
    }
  }

  lemma UnderwayIsNews(s: System, step: Step, e: Event)
    requires OnlyNews(s) && Underway(Next(s, step), e)
    ensures IsNews(Next(s, step).history, e)
  {
    if step.SwapSnapshot? {
      SwapAddsNews(s, step.refresh, e);
    } else {
      var t := Next(s, step);
      var q: nat :| Unfinished(t, q) && e in t.refreshes[q].rest;
      assert Unfinished(s, q) && e in s.refreshes[q].rest;
    }
  }

  lemma OfferedIsNews(s: System, step: Step, h: nat, e: Event)
    requires HubInv(s.hub) && OnlyNews(s)
    requires h < |Next(s, step).hub.chans| && e in Next(s, step).hub.chans[h].offered
    ensures IsNews(Next(s, step).history, e)
  {
    var t := Next(s, step);
    if step.SwapSnapshot? {
      if t != s { NewsStays(s.history, s.refreshes[step.refresh].next, e); }
    } else if HubOps(s, step) != [] {
      var op := HubOps(s, step)[0];
      assert t.hub == HubStep(s.hub, op) && t.history == s.history;
      if h < |s.hub.chans| {
        StepOffers(s.hub, op, h);
        if e !in s.hub.chans[h].offered {
          assert Unfinished(s, step.refresh) && e in s.refreshes[step.refresh].rest;
        }
      } else {
        NothingOfferedYet(s.hub, op, h);
      }
    }
  }

  lemma NextTellsOnlyNews(s: System, step: Step)
    requires HubInv(s.hub) && OnlyNews(s)
    ensures OnlyNews(Next(s, step))
  {
    var t := Next(s, step);
    forall e | Underway(t, e) ensures IsNews(t.history, e) {
      UnderwayIsNews(s, step, e);
    }
    forall h, e | 0 <= h < |t.hub.chans| && e in t.hub.chans[h].offered ensures IsNews(t.history, e) {
      OfferedIsNews(s, step, h, e);
    }
  }

  lemma {:induction false} RunTellsOnlyNews(steps: seq<Step>)
    ensures OnlyNews(Run(steps))
  {
    if steps != [] {
      RunTellsOnlyNews(steps[..|steps| - 1]);
      RunIsAttached(steps[..|steps| - 1]);
      NextTellsOnlyNews(Run(steps[..|steps| - 1]), steps[|steps| - 1]);
    }
  }

  lemma {:induction false} SelectedWasThere(events: seq<Event>, mask: seq<bool>, e: Event)
    requires |events| == |mask| && e in Select(events, mask)
    ensures e in events
  {
    var k := |events| - 1;
    if e in Select(events[..k], mask[..k]) { SelectedWasThere(events[..k], mask[..k], e); }
  }

  /** The event says what happened to its container between snapshot `i` and the one after it. */
  ghost predicate SaysAt(history: seq<Snapshot>, e: Event, i: int) {
    && 0 <= i < |history|
    && Says(e, Lookup(Latest(history[..i]), ID(e)), Lookup(Latest(history[..i + 1]), ID(e)))
  }

  lemma NewsSays(history: seq<Snapshot>, e: Event)
    requires IsNews(history, e)
    ensures exists i :: SaysAt(history, e, i)
  {
    var i :| TellsOf(history, e, i);
    DiffSays(Latest(history[..i]), Latest(history[..i + 1]), e);
    assert SaysAt(history, e, i);
  }

  lemma ReceivedWasOffered(chan: Chan, e: Event)
    requires Accounted(chan) && e in chan.received
    ensures e in chan.offered
  {
    assert e in chan.received + chan.buffer;
    SelectedWasThere(chan.offered, chan.kept, e);
  }

  /** Whatever refreshes overlap, whoever comes and goes and whatever is dropped, an event that a
      connection receives says what happened to its container between some snapshot and the one after
      it. */
  lemma {:induction false} ReceivedIsNews(steps: seq<Step>, c: nat, e: Event)
    requires c < |Run(steps).hub.chans| && e in Run(steps).hub.chans[c].received
    ensures exists i :: SaysAt(Run(steps).history, e, i)
  {
    var s := Run(steps);
    RunTellsOnlyNews(steps);
    RunIsAttached(steps);
    ReceivedWasOffered(s.hub.chans[c], e);
    assert IsNews(s.history, e);
    NewsSays(s.history, e);
  }
}
