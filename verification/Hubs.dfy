/** The fan-out of events to connected clients: internal/adapters/realtime/hub.go. */
module Hubs {
  import opened Domain

  /** The slots of a subscriber's channel. */
  const CAPACITY: nat := 16

  // ----- one subscriber's channel ------------------------------------------------------

  /** A channel as it was handed out, with the ID its unsubscribe function knows it by and whether
      that function has done its work. `buffer` is what the channel holds; the rest is its history:
      what was `received` from it, what was published to it (`offered`), and which of those it `kept`. */
  datatype Chan = Chan(
    id: int, open: bool, released: bool, buffer: seq<Event>,
    received: seq<Event>, offered: seq<Event>, kept: seq<bool>)

  function NewChan(id: int, open: bool): Chan {
    Chan(id, open, false, [], [], [], [])
  }

  /** A send that does not wait: a full buffer skips the event. */
  function Offer(c: Chan, e: Event): Chan {
    if |c.buffer| < CAPACITY then
      c.(buffer := c.buffer + [e], offered := c.offered + [e], kept := c.kept + [true])
    else
      c.(offered := c.offered + [e], kept := c.kept + [false])
  }

  function Take(c: Chan): Chan {
    if c.buffer == [] then c else c.(buffer := c.buffer[1..], received := c.received + [c.buffer[0]])
  }

  function Shut(c: Chan): Chan {
    c.(open := false)
  }

  function Release(c: Chan): Chan {
    c.(released := true)
  }

  // ----- the hub -----------------------------------------------------------------------

  /** `chans` holds every channel ever handed out; a handle is an index into it. `subs` maps
      the IDs registered to handles. */
  datatype HubState = HubState(subs: map<int, nat>, nextID: nat, closed: bool, chans: seq<Chan>)

  const NEW_HUB := HubState(map[], 0, false, [])

  datatype Op = Publish(event: Event) | Subscribe | Unsubscribe(handle: nat) | Close | Receive(handle: nat)

  /** The handles of the channels the hub holds. */
  function Registered(s: HubState): set<nat> {
    set id | id in s.subs :: s.subs[id]
  }

  function OfferTo(chans: seq<Chan>, which: set<nat>, e: Event): seq<Chan> {
    seq(|chans|, i requires 0 <= i < |chans| => if i in which then Offer(chans[i], e) else chans[i])
  }

  function ShutAll(chans: seq<Chan>, which: set<nat>): seq<Chan> {
    seq(|chans|, i requires 0 <= i < |chans| => if i in which then Shut(chans[i]) else chans[i])
  }

  function HubStep(s: HubState, op: Op): HubState {
    match op
    case Publish(e) =>
      if s.closed then s else s.(chans := OfferTo(s.chans, Registered(s), e))
    case Subscribe =>
      if s.closed then s.(chans := s.chans + [NewChan(-1, false)])
      else s.(subs := s.subs[s.nextID := |s.chans|], nextID := s.nextID + 1,
              chans := s.chans + [NewChan(s.nextID, true)])
    case Unsubscribe(h) =>
      if h >= |s.chans| || s.chans[h].id < 0 || s.chans[h].released then s
      else
        var id, chans := s.chans[h].id, s.chans[h := Release(s.chans[h])];
        if id in s.subs then s.(subs := s.subs - {id}, chans := ShutAll(chans, {s.subs[id]}))
        else s.(chans := chans)
    case Close =>
      if s.closed then s else s.(closed := true, subs := map[], chans := ShutAll(s.chans, Registered(s)))
    case Receive(h) =>
      if h < |s.chans| then s.(chans := s.chans[h := Take(s.chans[h])]) else s
  }

  /** Every operation holds the hub's mutex, so a run is a sequence of them. */
  function HubRun(ops: seq<Op>): HubState {
    if ops == [] then NEW_HUB else HubStep(HubRun(ops[..|ops| - 1]), ops[|ops| - 1])
  }

  function PublishAll(s: HubState, events: seq<Event>): HubState {
    if events == [] then s
    else HubStep(PublishAll(s, events[..|events| - 1]), Publish(events[|events| - 1]))
  }

  // ----- safety over every run ----------------------------------------------------------

  /** The events of a list that a mask lets through. */
  function Select(events: seq<Event>, mask: seq<bool>): seq<Event>
    requires |events| == |mask|
  {
    if events == [] then []
    else
      var k := |events| - 1;
      Select(events[..k], mask[..k]) + if mask[k] then [events[k]] else []
  }

  function Count(mask: seq<bool>, value: bool): nat {
    if mask == [] then 0
    else Count(mask[..|mask| - 1], value) + if mask[|mask| - 1] == value then 1 else 0
  }

  /** What came out of a channel and what is in it are, in order, the events it kept. */
  ghost predicate Accounted(c: Chan) {
    && |c.kept| == |c.offered|
    && c.received + c.buffer == Select(c.offered, c.kept)
    && |c.buffer| <= 16
  }

  /** An ID is its handle, and never given twice; a channel is open exactly while it is
      registered under its ID; a closed hub has no subscribers left. */
  ghost predicate WellKept(s: HubState) {
    && s.nextID <= |s.chans| && (!s.closed ==> s.nextID == |s.chans|)
    && (forall i :: 0 <= i < |s.chans| ==> s.chans[i].id == if i < s.nextID then i else -1)
    && (forall id :: id in s.subs ==> 0 <= id < s.nextID && s.subs[id] == id)
    && (forall i :: 0 <= i < |s.chans| ==> (s.chans[i].open <==> i in s.subs))
    && (s.closed ==> s.subs == map[])
  }

  ghost predicate AllAccounted(s: HubState) {
    forall i :: 0 <= i < |s.chans| ==> Accounted(s.chans[i])
  }

  ghost predicate HubInv(s: HubState) {
    WellKept(s) && AllAccounted(s)
  }

  lemma RegisteredHandles(s: HubState)
    requires WellKept(s)
    ensures forall i: nat :: i in Registered(s) <==> i in s.subs
  {
    forall i: nat ensures i in Registered(s) <==> i in s.subs {
      if i in s.subs { assert s.subs[i] == i; }
    }
  }

  lemma OfferAccounts(c: Chan, e: Event)
    requires Accounted(c)
    ensures Accounted(Offer(c, e))
  {
    var d := Offer(c, e);
    assert d.offered[..|d.offered| - 1] == c.offered && d.kept[..|d.kept| - 1] == c.kept;
  }

  lemma TakeAccounts(c: Chan)
    requires Accounted(c)
    ensures Accounted(Take(c))
  {
    if c.buffer != [] {
      assert c.buffer == [c.buffer[0]] + c.buffer[1..];
      assert Take(c).received + Take(c).buffer == c.received + c.buffer;
    }
  }

  /** The first call of an unsubscribe function touches its own channel alone. */
  lemma UnsubscribeMeans(s: HubState, h: nat)
    requires WellKept(s) && h < s.nextID && !s.chans[h].released
    ensures var c := Release(s.chans[h]);
            HubStep(s, Unsubscribe(h))
            == s.(subs := s.subs - {h}, chans := s.chans[h := if h in s.subs then Shut(c) else c])
  {
    if h in s.subs {
      assert s.subs[h] == h;
      assert HubStep(s, Unsubscribe(h)).chans == s.chans[h := Shut(Release(s.chans[h]))];
    } else {
      assert s.subs - {h} == s.subs;
    }
  }

  lemma PublishKeepsHub(s: HubState, e: Event)
    requires WellKept(s)
    ensures WellKept(HubStep(s, Publish(e)))
  {
    RegisteredHandles(s);
  }

  lemma UnsubscribeKeepsHub(s: HubState, h: nat)
    requires WellKept(s)
    ensures WellKept(HubStep(s, Unsubscribe(h)))
  {
    if h < s.nextID && !s.chans[h].released {
      UnsubscribeMeans(s, h);
    }
  }

  lemma CloseKeepsHub(s: HubState)
    requires WellKept(s)
    ensures WellKept(HubStep(s, Close))
  {
    RegisteredHandles(s);
  }

  lemma StepKeepsHub(s: HubState, op: Op)
    requires WellKept(s)
    ensures WellKept(HubStep(s, op))
  {
    match op
    case Publish(e) => PublishKeepsHub(s, e);
    case Unsubscribe(h) => UnsubscribeKeepsHub(s, h);
    case Close => CloseKeepsHub(s);
    case _ =>
  }

  lemma StepAccounts(s: HubState, op: Op)
    requires AllAccounted(s)
    ensures AllAccounted(HubStep(s, op))
  {
    var t := HubStep(s, op);
    forall i | 0 <= i < |t.chans| ensures Accounted(t.chans[i]) {
      if i < |s.chans| {
        assert Accounted(s.chans[i]);
        if op.Publish? { OfferAccounts(s.chans[i], op.event); }
        TakeAccounts(s.chans[i]);
      }
    }
  }

  lemma HubStepIsSafe(s: HubState, op: Op)
    requires HubInv(s)
    ensures HubInv(HubStep(s, op))
  {
    StepKeepsHub(s, op);
    StepAccounts(s, op);
  }

  lemma {:induction false} HubRunIsSafe(ops: seq<Op>)
    ensures HubInv(HubRun(ops))
  {
    if ops != [] {
      HubRunIsSafe(ops[..|ops| - 1]);
      HubStepIsSafe(HubRun(ops[..|ops| - 1]), ops[|ops| - 1]);
    }
  }

  /** After a close, every channel ever handed out is closed, whatever came before it and
      whatever unsubscribes, subscribes and closes come after. */
  lemma {:induction false} ClosedHubLeavesNothingOpen(ops: seq<Op>)
    ensures Close in ops <==> HubRun(ops).closed
    ensures Close in ops ==> forall i :: 0 <= i < |HubRun(ops).chans| ==> !HubRun(ops).chans[i].open
  {
    HubRunIsSafe(ops);
    if ops != [] {
      assert ops == ops[..|ops| - 1] + [ops[|ops| - 1]];
      ClosedHubLeavesNothingOpen(ops[..|ops| - 1]);
    }
  }

  // ----- delivery accounting -------------------------------------------------------------

  /** `part` is `whole` with some of its elements left out. */
  ghost predicate Subsequence(part: seq<Event>, whole: seq<Event>) {
    exists mask: seq<bool> :: |mask| == |whole| && part == Select(whole, mask)
  }

  lemma {:induction false} SelectCounts(events: seq<Event>, mask: seq<bool>)
    requires |events| == |mask|
    ensures |Select(events, mask)| == Count(mask, true)
    ensures Count(mask, true) + Count(mask, false) == |mask|
    ensures false !in mask ==> Select(events, mask) == events
  {
    if events != [] {
      var k := |events| - 1;
      SelectCounts(events[..k], mask[..k]);
      assert events == events[..k] + [events[k]];
    }
  }

  /** What was published while channel `h` was subscribed. */
  function Heard(ops: seq<Op>, h: nat): seq<Event> {
    if ops == [] then []
    else
      var before := ops[..|ops| - 1];
      match ops[|ops| - 1]
      case Publish(e) =>
        if h < |HubRun(before).chans| && HubRun(before).chans[h].open then Heard(before, h) + [e]
        else Heard(before, h)
      case _ => Heard(before, h)
  }

  /** Publishing one event after another offers an open channel all of them, in order, and leaves it
      open. */
  lemma {:induction false} PublishAllReaches(s: HubState, events: seq<Event>, h: nat)
    requires WellKept(s) && h < |s.chans| && s.chans[h].open
    ensures WellKept(PublishAll(s, events)) && h < |PublishAll(s, events).chans|
    ensures var c := PublishAll(s, events).chans[h]; c.open && c.offered == s.chans[h].offered + events
  {
    if events != [] {
      var k := |events| - 1;
      PublishAllReaches(s, events[..k], h);
      PublishReaches(PublishAll(s, events[..k]), events[k], h);
      StepKeepsHub(PublishAll(s, events[..k]), Publish(events[k]));
      assert events[..k] + [events[k]] == events;
    }
  }

  lemma PublishReaches(s: HubState, e: Event, h: nat)
    requires WellKept(s) && h < |s.chans| && s.chans[h].open
    ensures h < |HubStep(s, Publish(e)).chans|
    ensures var c := HubStep(s, Publish(e)).chans[h]; c.open && c.offered == s.chans[h].offered + [e]
  {
    RegisteredHandles(s);
  }

  /** At some point of the run, an event was published while channel `h` was subscribed with a
      full buffer. */
  ghost predicate EverFull(ops: seq<Op>, h: nat) {
    exists k :: 0 <= k < |ops| && ops[k].Publish? && FullAt(ops, k, h)
  }

  ghost predicate FullAt(ops: seq<Op>, k: int, h: nat)
    requires 0 <= k < |ops|
  {
    var s := HubRun(ops[..k]);
    h < |s.chans| && s.chans[h].open && |s.chans[h].buffer| == 16
  }

  /** One step adds to what a channel was offered exactly what a publish reaches it with. */
  lemma StepOffers(s: HubState, op: Op, h: nat)
    requires WellKept(s) && h < |s.chans|
    ensures h < |HubStep(s, op).chans|
    ensures HubStep(s, op).chans[h].open ==> s.chans[h].open
    ensures var c, d := s.chans[h], HubStep(s, op).chans[h];
            if op.Publish? && c.open then
              d.offered == c.offered + [op.event] && d.kept == c.kept + [|c.buffer| < 16]
            else d.offered == c.offered && d.kept == c.kept
  {
    RegisteredHandles(s);
  }

  lemma {:induction false} HeardMore(ops: seq<Op>, op: Op, h: nat)
    ensures var s := HubRun(ops);
            Heard(ops + [op], h)
            == if op.Publish? && h < |s.chans| && s.chans[h].open then Heard(ops, h) + [op.event] else Heard(ops, h)
  {
    assert (ops + [op])[..|ops|] == ops;
  }

  lemma NothingOfferedYet(s: HubState, op: Op, h: nat)
    requires |s.chans| <= h < |HubStep(s, op).chans|
    ensures HubStep(s, op).chans[h].offered == [] && HubStep(s, op).chans[h].kept == []
    ensures !op.Publish?
  {
  }

  lemma {:induction false} OfferedIsHeard(ops: seq<Op>, h: nat)
    requires h < |HubRun(ops).chans|
    ensures HubRun(ops).chans[h].offered == Heard(ops, h)
  {
    var before, op := ops[..|ops| - 1], ops[|ops| - 1];
    assert ops == before + [op];
    HeardMore(before, op, h);
    HubRunIsSafe(before);
    if h < |HubRun(before).chans| {
      OfferedIsHeard(before, h);
      StepOffers(HubRun(before), op, h);
    } else {
      NothingOfferedYet(HubRun(before), op, h);
      NothingHeardBefore(before, h);
    }
  }

  lemma FullStaysFull(ops: seq<Op>, op: Op, h: nat)
    requires EverFull(ops, h)
    ensures EverFull(ops + [op], h)
  {
    var k :| 0 <= k < |ops| && ops[k].Publish? && FullAt(ops, k, h);
    assert (ops + [op])[..k] == ops[..k];
    assert (ops + [op])[k].Publish? && FullAt(ops + [op], k, h);
  }

  lemma {:induction false} SkippedNow(ops: seq<Op>, op: Op, h: nat)
    requires h < |HubRun(ops).chans| && false !in HubRun(ops).chans[h].kept
    requires h < |HubStep(HubRun(ops), op).chans| && false in HubStep(HubRun(ops), op).chans[h].kept
    ensures EverFull(ops + [op], h)
  {
    var s, k := HubRun(ops), |ops|;
    HubRunIsSafe(ops);
    assert Accounted(s.chans[h]);
    StepOffers(s, op, h);
    assert (ops + [op])[..k] == ops;
    assert FullAt(ops + [op], k, h);
  }

  lemma {:induction false} SkippedWhenFull(ops: seq<Op>, h: nat)
    requires h < |HubRun(ops).chans| && false in HubRun(ops).chans[h].kept
    ensures EverFull(ops, h)
  {
    var before, op := ops[..|ops| - 1], ops[|ops| - 1];
    var s := HubRun(before);
    assert ops == before + [op];
    if h >= |s.chans| {
      NothingOfferedYet(s, op, h);
    } else if false in s.chans[h].kept {
      SkippedWhenFull(before, h);
      FullStaysFull(before, op, h);
    } else {
      SkippedNow(before, op, h);
    }
  }

  lemma {:induction false} HandlesStay(ops: seq<Op>)
    requires ops != []
    ensures |HubRun(ops[..|ops| - 1]).chans| <= |HubRun(ops).chans|
  {
  }

  lemma {:induction false} NothingHeardBefore(ops: seq<Op>, h: nat)
    requires h >= |HubRun(ops).chans|
    ensures Heard(ops, h) == []
  {
    if ops != [] {
      HandlesStay(ops);
      NothingHeardBefore(ops[..|ops| - 1], h);
    }
  }

  /** A subscriber gets, in order, a subsequence of what was published while it was subscribed;
      all of it when its buffer was never full at a publish; and every event is accounted for. */
  lemma {:induction false} DeliveryIsAccounted(ops: seq<Op>, h: nat)
    requires h < |HubRun(ops).chans|
    ensures var c := HubRun(ops).chans[h];
            && Subsequence(c.received + c.buffer, Heard(ops, h))
            && (!EverFull(ops, h) ==> c.received + c.buffer == Heard(ops, h))
            && |c.received| + |c.buffer| + Count(c.kept, false) == |Heard(ops, h)|
  {
    var c := HubRun(ops).chans[h];
    HubRunIsSafe(ops);
    assert Accounted(c);
    OfferedIsHeard(ops, h);
    SelectCounts(c.offered, c.kept);
    if !EverFull(ops, h) && false in c.kept {
      SkippedWhenFull(ops, h);
    }
  }

  // ----- no subscriber depends on another --------------------------------------------------

  /** One channel without the others: of them only their number is known, and only until this one
      is handed out. */
  datatype Lone = Lone(handles: nat, closed: bool, chan: Option<Chan>)

  function AloneStep(l: Lone, op: Op, h: nat): Lone {
    match op
    case Publish(e) => if l.chan.Some? && l.chan.value.open then l.(chan := Some(Offer(l.chan.value, e))) else l
    case Subscribe =>
      var chan := if l.handles == h then Some(NewChan(if l.closed then -1 else h, !l.closed)) else l.chan;
      l.(handles := l.handles + 1, chan := chan)
    case Unsubscribe(k) =>
      if k == h && l.chan.Some? && l.chan.value.id >= 0 then l.(chan := Some(Shut(Release(l.chan.value)))) else l
    case Close => l.(closed := true, chan := if l.chan.Some? then Some(Shut(l.chan.value)) else None)
    case Receive(k) => if k == h && l.chan.Some? then l.(chan := Some(Take(l.chan.value))) else l
  }

  /** What becomes of channel `h` in a run, made of the publishes, the close, and its own
      subscriber's calls alone. */
  function Alone(ops: seq<Op>, h: nat): Lone {
    if ops == [] then Lone(0, false, None) else AloneStep(Alone(ops[..|ops| - 1], h), ops[|ops| - 1], h)
  }

  ghost predicate IsAlone(l: Lone, s: HubState, h: nat) {
    && l.handles == |s.chans| && l.closed == s.closed
    && l.chan == if h < |s.chans| then Some(s.chans[h]) else None
  }

  /** A released channel is shut. */
  ghost predicate ReleasedIsShut(s: HubState) {
    forall i :: 0 <= i < |s.chans| && s.chans[i].released ==> !s.chans[i].open
  }

  lemma ReleasedStaysShut(s: HubState, op: Op)
    requires WellKept(s) && ReleasedIsShut(s)
    ensures ReleasedIsShut(HubStep(s, op))
  {
    RegisteredHandles(s);
  }

  lemma StepIsAlone(l: Lone, s: HubState, op: Op, h: nat)
    requires WellKept(s) && ReleasedIsShut(s) && IsAlone(l, s, h)
    ensures IsAlone(AloneStep(l, op, h), HubStep(s, op), h)
  {
    RegisteredHandles(s);
  }

  lemma {:induction false} RunReleasesShut(ops: seq<Op>)
    ensures ReleasedIsShut(HubRun(ops))
  {
    if ops != [] {
      RunReleasesShut(ops[..|ops| - 1]);
      HubRunIsSafe(ops[..|ops| - 1]);
      ReleasedStaysShut(HubRun(ops[..|ops| - 1]), ops[|ops| - 1]);
    }
  }

  /** However many other clients there are, whenever they come and go, and however slowly they
      read, a subscriber's channel is what it would be without them. */
  lemma {:induction false} OthersDoNotShow(ops: seq<Op>, h: nat)
    ensures IsAlone(Alone(ops, h), HubRun(ops), h)
  {
    if ops != [] {
      var before := ops[..|ops| - 1];
      OthersDoNotShow(before, h);
      HubRunIsSafe(before);
      RunReleasesShut(before);
      StepIsAlone(Alone(before, h), HubRun(before), ops[|ops| - 1], h);
    }
  }

  // ----- the implementation ------------------------------------------------------------

  lemma SomeID(ids: set<int>)
    requires ids != {}
    ensures exists id :: id in ids
  {
    assert (forall id :: id !in ids) ==> ids == {};
  }

  /** What `Subscribe` hands out: a Go channel of events, and the function that unregisters it.
      Sending on a closed channel panics, and so does closing it again. */
  class Subscription {
    const id: int
    var buffer: seq<Event>
    var open: bool
    var released: bool
    ghost var received: seq<Event>
    ghost var offered: seq<Event>
    ghost var kept: seq<bool>

    constructor (id: int, open: bool)
      ensures State() == NewChan(id, open)
    {
      this.id := id;
      buffer := [];
      this.open, released := open, false;
      received, offered, kept := [], [], [];
    }

    ghost function State(): Chan
      reads this
    {
      Chan(id, open, released, buffer, received, offered, kept)
    }

    method TrySend(event: Event)
      requires open
      modifies this
      ensures State() == Offer(old(State()), event)
    {
      if |buffer| < CAPACITY {
        buffer := buffer + [event];
        kept := kept + [true];
      } else {
        kept := kept + [false];
      }
      offered := offered + [event];
    }

    method CloseChannel()
      requires open
      modifies this
      ensures State() == Shut(old(State()))
    {
      open := false;
    }

    /** What is buffered can be received even after the channel is closed. */
    method TakeOne() returns (event: Option<Event>)
      modifies this
      ensures State() == Take(old(State()))
      ensures event == if old(buffer) == [] then None else Some(old(buffer)[0])
    {
      if buffer == [] {
        event := None;
      } else {
        event := Some(buffer[0]);
        received := received + [buffer[0]];
        buffer := buffer[1..];
      }
    }
  }

  class Hub {
    var subs: map<int, Subscription>
    var nextID: nat
    var closed: bool
    ghost var handed: seq<Subscription>

    /** Handles are told apart, and an ID is registered to its handle. */
    ghost predicate Wired()
      reads this
    {
      && (forall i, j :: 0 <= i < j < |handed| ==> handed[i] != handed[j])
      && (forall id :: id in subs ==> 0 <= id < |handed| && subs[id] == handed[id])
    }

    ghost predicate Valid()
      reads this, handed
    {
      Wired() && WellKept(Abs())
    }

    static ghost function States(handed: seq<Subscription>): seq<Chan>
      reads handed
    {
      seq(|handed|, i requires 0 <= i < |handed| reads handed => handed[i].State())
    }

    ghost function Abs(): HubState
      reads this, handed
    {
      HubState(map id | id in subs && id >= 0 :: id as nat, nextID, closed, States(handed))
    }

    /** Field by field, the hub is as `s` says. */
    lemma IsNow(s: HubState)
      requires Wired() && WellKept(s)
      requires subs.Keys == s.subs.Keys && nextID == s.nextID && closed == s.closed && States(handed) == s.chans
      ensures Valid() && Abs() == s
    {
      assert Abs().subs == s.subs;
    }

    constructor ()
      ensures Valid() && Abs() == NEW_HUB && handed == []
    {
      subs := map[];
      nextID := 0;
      closed := false;
      handed := [];
    }

    static lemma OneStateChanged(handed: seq<Subscription>, was: seq<Chan>, k: int)
      requires |was| == |handed| && 0 <= k < |handed|
      requires forall i :: 0 <= i < |handed| && i != k ==> handed[i].State() == was[i]
      ensures States(handed) == was[k := handed[k].State()]
    {
    }

    /** One turn of the loop of `Publish`. */
    method SendTo(id: int, event: Event)
      requires Wired() && id in subs && subs[id].open
      modifies subs[id]
      ensures Wired() && States(handed) == old(States(handed))[id := Offer(old(States(handed))[id], event)]
    {
      ghost var was := States(handed);
      subs[id].TrySend(event);
      OneStateChanged(handed, was, id);
    }

    /** That loop, over the subscribers in whatever order the map gives them. */
    method SendToEach(event: Event)
      requires Wired() && forall id :: id in subs ==> States(handed)[id].open
      modifies handed
      ensures Wired() && |States(handed)| == |old(States(handed))|
      ensures forall i :: 0 <= i < |handed| ==>
        States(handed)[i] == if i in subs then Offer(old(States(handed))[i], event) else old(States(handed))[i]
    {
      ghost var was, chans := States(handed), States(handed);
      var left := subs.Keys;
      while left != {}
        invariant left <= subs.Keys && Wired() && States(handed) == chans && |chans| == |was|
        invariant forall i :: 0 <= i < |chans| ==>
          chans[i] == if i in subs && i !in left then Offer(was[i], event) else was[i]
        decreases left
      {
        SomeID(left);
        var id :| id in left;
        assert subs[id].State() == chans[id] == was[id];
        SendTo(id, event);
        chans := chans[id := Offer(chans[id], event)];
        left := left - {id};
      }
    }

    method Publish(event: Event)
      requires Valid()
      modifies handed
      ensures Valid() && Abs() == HubStep(old(Abs()), Op.Publish(event))
    {
      ghost var after := HubStep(Abs(), Op.Publish(event));
      StepKeepsHub(Abs(), Op.Publish(event));
      if closed {
        return;
      }
      RegisteredHandles(Abs());
      forall id | id in subs ensures States(handed)[id].open {
        assert Abs().chans[id].open;
      }
      SendToEach(event);
      assert States(handed) == after.chans;
      IsNow(after);
    }

    lemma OneMore(was: seq<Chan>)
      requires handed != [] && was == States(handed[..|handed| - 1])
      ensures States(handed) == was + [handed[|handed| - 1].State()]
    {
    }

    ghost method Remember(sub: Subscription)
      requires Wired() && sub !in handed
      modifies this`handed
      ensures Wired() && handed == old(handed) + [sub]
      ensures States(handed) == old(States(handed)) + [sub.State()]
    {
      ghost var was := States(handed);
      handed := handed + [sub];
      OneMore(was);
    }

    method Subscribe() returns (sub: Subscription)
      requires Valid()
      modifies this
      ensures Valid() && Abs() == HubStep(old(Abs()), Op.Subscribe)
      ensures fresh(sub) && handed == old(handed) + [sub]
    {
      ghost var after := HubStep(Abs(), Op.Subscribe);
      StepKeepsHub(Abs(), Op.Subscribe);
      if closed {
        sub := new Subscription(-1, false);
        Remember(sub);
      } else {
        sub := new Subscription(nextID, true);
        Remember(sub);
        subs := subs[nextID := sub];
        nextID := nextID + 1;
      }
      assert States(handed) == after.chans;
      IsNow(after);
    }

    /** What the unsubscribe function does the first time. */
    method ReleaseOnce(sub: Subscription)
      requires Wired() && 0 <= sub.id < |handed| && handed[sub.id] == sub
      requires sub.id in subs ==> sub.open
      modifies this`subs, sub
      ensures Wired() && subs == old(subs) - {sub.id}
      ensures sub.State() == if sub.id in old(subs) then Shut(Release(old(sub.State()))) else Release(old(sub.State()))
    {
      sub.released := true;
      if sub.id in subs {
        var channel := subs[sub.id];
        subs := subs - {sub.id};
        channel.CloseChannel();
      }
    }

    /** The function `Subscribe` returns with a channel; calling it again does nothing. */
    method Unsubscribe(sub: Subscription, ghost handle: nat)
      requires Valid() && handle < |handed| && handed[handle] == sub
      modifies this`subs, sub
      ensures Valid() && Abs() == HubStep(old(Abs()), Op.Unsubscribe(handle))
    {
      ghost var before, after := Abs(), HubStep(Abs(), Op.Unsubscribe(handle));
      StepKeepsHub(before, Op.Unsubscribe(handle));
      assert before.chans[handle] == sub.State();
      if sub.id < 0 || sub.released {
        return;
      }
      UnsubscribeMeans(before, handle);
      ReleaseOnce(sub);
      OneStateChanged(handed, before.chans, handle);
      IsNow(after);
    }

    /** One turn of the loop of `Close`, which takes a subscriber out before closing its channel. */
    method TakeOut(id: int)
      requires Wired() && id in subs && subs[id].open
      modifies this`subs, subs[id]
      ensures Wired() && subs == old(subs) - {id}
      ensures States(handed) == old(States(handed))[id := Shut(old(States(handed))[id])]
    {
      ghost var was := States(handed);
      var sub := subs[id];
      subs := subs - {id};
      sub.CloseChannel();
      OneStateChanged(handed, was, id);
    }

    method CloseEach()
      requires Wired() && forall id :: id in subs ==> States(handed)[id].open
      modifies this`subs, handed
      ensures subs == map[] && |States(handed)| == |old(States(handed))|
      ensures forall i :: 0 <= i < |handed| ==>
        States(handed)[i] == if i in old(subs) then Shut(old(States(handed))[i]) else old(States(handed))[i]
    {
      ghost var was, chans, had := States(handed), States(handed), subs.Keys;
      while subs.Keys != {}
        invariant subs.Keys <= had && Wired() && States(handed) == chans && |chans| == |was|
        invariant forall i :: 0 <= i < |chans| ==>
          chans[i] == if i in had && i !in subs then Shut(was[i]) else was[i]
        decreases subs.Keys
      {
        SomeID(subs.Keys);
        var id :| id in subs.Keys;
        assert subs[id].State() == chans[id] == was[id];
        TakeOut(id);
        chans := chans[id := Shut(chans[id])];
      }
    }

    method Close()
      requires Valid()
      modifies this`subs, this`closed, handed
      ensures Valid() && Abs() == HubStep(old(Abs()), Op.Close)
    {
      ghost var after := HubStep(Abs(), Op.Close);
      StepKeepsHub(Abs(), Op.Close);
      if closed {
        return;
      }
      RegisteredHandles(Abs());
      closed := true;
      forall id | id in subs ensures States(handed)[id].open {
        assert Abs().chans[id].open;
      }
      CloseEach();
      assert States(handed) == after.chans;
      IsNow(after);
    }
  }
}
