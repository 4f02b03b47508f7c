/** What the steps of a run lead to: every message, change and tick is read for, a stream that breaks
    is followed again, and a monitor that is cancelled can always come to its end. */
module Wakeups {
  import opened Triggers

  // ----- ticks -----------------------------------------------------------------------------------

  predicate TakesTick(s: Trigger, step: Step) {
    step == Looper(TakeTick) && s.loop.phase.Selecting? && s.loop.ticked
  }

  /** The loop acts at once on what it took. */
  predicate IsAtOnce(s: Trigger, step: Step) {
    step.Pass? && step.duration > 0.0 ==> !Took(s.loop.phase)
  }

  ghost predicate AtOnce(steps: seq<Step>, debounce: real) {
    steps == []
    || (AtOnce(steps[..|steps| - 1], debounce)
        && IsAtOnce(After(steps[..|steps| - 1], debounce), steps[|steps| - 1]))
  }

  lemma {:induction false} AttentiveIsAtOnce(steps: seq<Step>, debounce: real, reading: real)
    requires Attentive(steps, debounce, reading)
    ensures AtOnce(steps, debounce)
  {
    if steps != [] { AttentiveIsAtOnce(steps[..|steps| - 1], debounce, reading); }
  }

  /** The tick taken at a mark is the cause of the very next read, or that read is about to begin. */
  predicate TickServed(s: Trigger, mark: Mark, atOnce: bool) {
    if mark.before < |s.log.begun| then
      var read := s.log.begun[mark.before];
      read.cause == Tick && mark.at <= read.at && (atOnce ==> read.at == mark.at)
    else
      && mark.before == |s.log.begun| && s.loop.phase.TookTick?
      && mark.at <= s.now && (atOnce ==> s.now == mark.at)
  }

  lemma TickStaysServed(s: Trigger, step: Step, debounce: real, mark: Mark, atOnce: bool)
    requires TickServed(s, mark, atOnce) && (atOnce ==> IsAtOnce(s, step))
    ensures TickServed(Next(s, step, debounce), mark, atOnce)
  {
  }

  lemma TickIsTaken(s: Trigger, step: Step, debounce: real, atOnce: bool)
    requires TakesTick(s, step)
    ensures TickServed(Next(s, step, debounce), Now(s), atOnce)
  {
  }

  lemma {:induction false} TickIsServed(steps: seq<Step>, debounce: real, k: nat, atOnce: bool)
    requires k < |steps| && TakesTick(After(steps[..k], debounce), steps[k])
    requires atOnce ==> AtOnce(steps, debounce)
    ensures TickServed(After(steps, debounce), Now(After(steps[..k], debounce)), atOnce)
  {
    var init, n := steps[..|steps| - 1], |steps| - 1;
    if k < n {
      assert init[..k] == steps[..k];
      TickIsServed(init, debounce, k, atOnce);
      TickStaysServed(After(init, debounce), steps[n], debounce, Now(After(steps[..k], debounce)), atOnce);
    } else {
      TickIsTaken(After(init, debounce), steps[n], debounce, atOnce);
    }
  }

  /** Every tick taken is read for: the next read to begin is a read for it. */
  lemma {:induction false} TicksAreReadFor(steps: seq<Step>, debounce: real, k: nat)
    requires k < |steps| && TakesTick(After(steps[..k], debounce), steps[k])
    ensures var s, mark := After(steps, debounce), Now(After(steps[..k], debounce));
            if mark.before == |s.log.begun| then s.loop.phase.TookTick?
            else
              && mark.before < |s.log.begun| && s.log.begun[mark.before].cause == Tick
              && mark.at <= s.log.begun[mark.before].at
  {
    TickIsServed(steps, debounce, k, false);
  }

  /** A loop that takes at once what is waiting reads for a tick at the instant it was taken. */
  lemma {:induction false} TicksAreReadAtOnce(steps: seq<Step>, debounce: real, reading: real, k: nat)
    requires Attentive(steps, debounce, reading)
    requires k < |steps| && TakesTick(After(steps[..k], debounce), steps[k])
    ensures var s, mark := After(steps, debounce), Now(After(steps[..k], debounce));
            if mark.before == |s.log.begun| then s.loop.phase.TookTick? && s.now == mark.at
            else mark.before < |s.log.begun| && s.log.begun[mark.before] == Read(mark.at, Tick)
  {
    AttentiveIsAtOnce(steps, debounce, reading);
    TickIsServed(steps, debounce, k, true);
  }

  /** Two ticks have two reads. */
  lemma {:induction false} TicksHaveTheirOwn(steps: seq<Step>, debounce: real, k: nat, j: nat)
    requires k < j < |steps|
    requires TakesTick(After(steps[..k], debounce), steps[k]) && TakesTick(After(steps[..j], debounce), steps[j])
    ensures |After(steps[..k], debounce).log.begun| < |After(steps[..j], debounce).log.begun|
  {
    var init := steps[..j];
    assert init[..k] == steps[..k];
    TicksAreReadFor(init, debounce, k);
  }

  /** The ticker fired at a mark: its tick is held, has been taken, or has been read for. */
  ghost predicate TockKept(s: Trigger, mark: Mark) {
    || s.loop.ticked || s.loop.phase.TookTick?
    || exists j :: mark.before <= j < |s.log.begun| && s.log.begun[j].cause == Tick
  }

  lemma TockStaysKept(s: Trigger, step: Step, debounce: real, mark: Mark)
    requires TockKept(s, mark) && mark.before <= |s.log.begun|
    ensures TockKept(Next(s, step, debounce), mark) && mark.before <= |Next(s, step, debounce).log.begun|
  {
    var n := Next(s, step, debounce);
    if exists j :: mark.before <= j < |s.log.begun| && s.log.begun[j].cause == Tick {
      var j :| mark.before <= j < |s.log.begun| && s.log.begun[j].cause == Tick;
      assert n.log.begun[j] == s.log.begun[j];
    } else if s.loop.phase.TookTick? && n.log.begun != s.log.begun {
      assert n.log.begun[|s.log.begun|].cause == Tick;
    }
  }

  lemma TockIsHeld(s: Trigger, debounce: real)
    requires Started(s.loop)
    ensures TockKept(Next(s, Looper(Tock), debounce), Now(s))
    ensures Next(s, Looper(Tock), debounce).log == s.log
  {
  }

  /** No tick is lost: a read for it, or for a later one, has begun since, unless the loop still has
      to come to it. */
  lemma {:induction false} TocksAreKept(steps: seq<Step>, debounce: real, k: nat)
    requires k < |steps| && steps[k] == Looper(Tock) && Started(After(steps[..k], debounce).loop)
    ensures TockKept(After(steps, debounce), Now(After(steps[..k], debounce)))
    ensures |After(steps[..k], debounce).log.begun| <= |After(steps, debounce).log.begun|
  {
    var init, n := steps[..|steps| - 1], |steps| - 1;
    if k < n {
      assert init[..k] == steps[..k];
      TocksAreKept(init, debounce, k);
      TockStaysKept(After(init, debounce), steps[n], debounce, Now(After(steps[..k], debounce)));
    } else {
      TockIsHeld(After(init, debounce), debounce);
    }
  }

  /** And no time passes while a tick can be taken. */
  ghost predicate TakesTicks(steps: seq<Step>, debounce: real, reading: real) {
    steps == []
    || (TakesTicks(steps[..|steps| - 1], debounce, reading)
        && IsTaking(After(steps[..|steps| - 1], debounce), steps[|steps| - 1], reading))
  }

  predicate IsTaking(s: Trigger, step: Step, reading: real) {
    IsAttentive(s, step, reading)
    && (step.Pass? && step.duration > 0.0 ==> !(s.loop.phase.Selecting? && s.loop.ticked))
  }

  /** A read has begun soon enough after the ticker fired, or will. */
  predicate TockHeeded(s: Trigger, mark: Mark, reading: real) {
    if mark.before < |s.log.begun| then mark.at <= s.log.begun[mark.before].at <= mark.at + reading
    else
      && mark.before == |s.log.begun| && LastRead(s.log) <= mark.at <= s.now && Started(s.loop)
      && (s.loop.phase.Stopped? || (s.now <= mark.at + reading && (s.loop.ticked || s.loop.phase.TookTick?)))
  }

  lemma TockStaysHeeded(s: Trigger, step: Step, debounce: real, reading: real, mark: Mark)
    requires TockHeeded(s, mark, reading) && IsTaking(s, step, reading) && reading >= 0.0
    ensures TockHeeded(Next(s, step, debounce), mark, reading)
  {
  }

  lemma {:induction false} TockIsHeeded(steps: seq<Step>, debounce: real, reading: real, k: nat)
    requires k < |steps| && steps[k] == Looper(Tock) && Started(After(steps[..k], debounce).loop)
    requires reading >= 0.0 && TakesTicks(steps, debounce, reading)
    ensures TockHeeded(After(steps, debounce), Now(After(steps[..k], debounce)), reading)
  {
    var init, n := steps[..|steps| - 1], |steps| - 1;
    if k < n {
      assert init[..k] == steps[..k];
      TockIsHeeded(init, debounce, reading, k);
      TockStaysHeeded(After(init, debounce), steps[n], debounce, reading, Now(After(steps[..k], debounce)));
    } else {
      AlwaysInOrder(init, debounce);
    }
  }

  /** The ticker is a backstop: whatever became of the stream of events, a read begins after every
      tick, and no later than the time one read takes. */
  lemma {:induction false} TicksAreABackstop(steps: seq<Step>, debounce: real, reading: real, k: nat)
    requires k < |steps| && steps[k] == Looper(Tock) && Started(After(steps[..k], debounce).loop)
    requires reading >= 0.0 && TakesTicks(steps, debounce, reading)
    ensures var s, mark := After(steps, debounce), Now(After(steps[..k], debounce));
            !s.loop.phase.Stopped? && s.now > mark.at + reading ==>
              mark.before < |s.log.begun| && mark.at <= s.log.begun[mark.before].at <= mark.at + reading
  {
    TockIsHeeded(steps, debounce, reading, k);
  }

  // ----- messages and changes ----------------------------------------------------------------------

  predicate Hears(s: Trigger, step: Step) {
    step == Watcher(Message) && s.watch.watcher.Streaming?
  }

  predicate TakesChange(s: Trigger, step: Step) {
    step == Looper(TakeChange) && s.loop.phase.Selecting? && s.loop.listening && s.channel.token
  }

  lemma LogGrows(s: Trigger, step: Step, debounce: real)
    ensures var n := Next(s, step, debounce);
            s.log.heard <= n.log.heard && s.log.taken <= n.log.taken && s.log.begun <= n.log.begun
  {
  }

  /** What came is in the log of the run, for good. */
  lemma {:induction false} WhatCameIsLogged(steps: seq<Step>, debounce: real, k: nat)
    requires k < |steps|
    ensures var s, now := After(steps[..k], debounce), Now(After(steps[..k], debounce));
            && (Hears(s, steps[k]) ==> now in After(steps, debounce).log.heard)
            && (TakesChange(s, steps[k]) ==> now in After(steps, debounce).log.taken)
  {
    var init, n := steps[..|steps| - 1], |steps| - 1;
    if k < n {
      assert init[..k] == steps[..k];
      WhatCameIsLogged(init, debounce, k);
      LogGrows(After(init, debounce), steps[n], debounce);
    }
  }

  /** In every run, a message that no read has begun after is on its way to one, unless the loop has
      stopped. */
  lemma {:induction false} NoMessageIsLost(steps: seq<Step>, debounce: real, k: nat)
    requires k < |steps| && Hears(After(steps[..k], debounce), steps[k])
    ensures var s := After(steps, debounce);
            || s.loop.phase.Stopped? || WakeUpPending(s)
            || |After(steps[..k], debounce).log.begun| < |s.log.begun|
  {
    NoWakeUpIsLost(steps, debounce);
    BegunStays(steps, debounce, k);
    if |After(steps[..k], debounce).log.begun| == |After(steps, debounce).log.begun| {
      StillDirty(steps, debounce, k);
    }
  }

  lemma {:induction false} AlwaysInOrder(steps: seq<Step>, debounce: real)
    ensures MarksInOrder(After(steps, debounce))
  {
    if steps != [] {
      AlwaysInOrder(steps[..|steps| - 1], debounce);
      NextKeepsOrder(After(steps[..|steps| - 1], debounce), steps[|steps| - 1], debounce);
    }
  }

  /** From the message on: while the loop takes what is waiting, the first read to begin after a
      message begins within the time one read takes and a debounce, however many more come. */
  lemma {:induction false} EveryMessageIsReadFor(steps: seq<Step>, debounce: real, reading: real, k: nat)
    requires debounce >= 0.0 && reading >= 0.0 && Attentive(steps, debounce, reading)
    requires k < |steps| && Hears(After(steps[..k], debounce), steps[k])
    ensures var s, mark := After(steps, debounce), Now(After(steps[..k], debounce));
            var limit := mark.at + reading + debounce;
            !s.loop.phase.Stopped? && s.now > limit ==>
              mark.before < |s.log.begun| && mark.at <= s.log.begun[mark.before].at <= limit
  {
    var s, mark := After(steps, debounce), Now(After(steps[..k], debounce));
    WhatCameIsLogged(steps, debounce, k);
    var i :| 0 <= i < |s.log.heard| && s.log.heard[i] == mark;
    MessagesAreReadFor(steps, debounce, reading, i);
  }

  /** Every change the loop takes is read for within a debounce and the loop's slack, even if changes
      never stop. */
  lemma {:induction false} EveryChangeIsReadFor(steps: seq<Step>, debounce: real, slack: real, k: nat)
    requires debounce >= 0.0 && slack >= 0.0 && Prompt(steps, debounce, slack)
    requires k < |steps| && TakesChange(After(steps[..k], debounce), steps[k])
    ensures var s, mark := After(steps, debounce), Now(After(steps[..k], debounce));
            s.now > mark.at + debounce + slack ==> ReadFor(s.log.begun, mark, mark.at + debounce + slack)
  {
    var s, mark := After(steps, debounce), Now(After(steps[..k], debounce));
    WhatCameIsLogged(steps, debounce, k);
    var i :| 0 <= i < |s.log.taken| && s.log.taken[i] == mark;
    ChangesAreNotStarved(steps, debounce, slack, i);
  }

  // ----- the monitor is never stuck ----------------------------------------------------------------

  lemma {:induction false} OneMore(steps: seq<Step>, step: Step, debounce: real)
    ensures After(steps + [step], debounce) == Next(After(steps, debounce), step, debounce)
  {
    assert (steps + [step])[..|steps|] == steps;
  }

  /** The loop finishes what it is at, and finds the context cancelled. */
  function LoopEnding(steps: seq<Step>): seq<Step> {
    steps + [Cancel] + [Looper(BeginRead)] + [Looper(Arm)] + [Looper(EndRead)] + [Looper(Stop)]
  }

  function WatchEnding(steps: seq<Step>, error: string): seq<Step> {
    steps + [Watcher(Signal)] + [Watcher(Break(ContextDone(error)))] + [Watcher(GiveUp)]
  }

  lemma {:induction false} LoopEnds(steps: seq<Step>, debounce: real)
    ensures var s := After(LoopEnding(steps), debounce);
            s.loop.phase.Stopped? && s.cancelled && s.now == After(steps, debounce).now
  {
    var a := steps + [Cancel];
    OneMore(steps, Cancel, debounce);
    OneMore(a, Looper(BeginRead), debounce);
    OneMore(a + [Looper(BeginRead)], Looper(Arm), debounce);
    OneMore(a + [Looper(BeginRead)] + [Looper(Arm)], Looper(EndRead), debounce);
    OneMore(a + [Looper(BeginRead)] + [Looper(Arm)] + [Looper(EndRead)], Looper(Stop), debounce);
  }

  lemma {:induction false} WatchEnds(steps: seq<Step>, debounce: real, error: string)
    requires After(steps, debounce).loop.phase.Stopped? && After(steps, debounce).cancelled
    ensures var s := After(WatchEnding(steps, error), debounce);
            && s.loop.phase.Stopped? && s.watch.watcher.Finished? && s.channel.closed
            && s.now == After(steps, debounce).now
  {
    AlwaysSafe(steps, debounce);
    var a := steps + [Watcher(Signal)];
    OneMore(steps, Watcher(Signal), debounce);
    OneMore(a, Watcher(Break(ContextDone(error))), debounce);
    OneMore(a + [Watcher(Break(ContextDone(error)))], Watcher(GiveUp), debounce);
  }

  /** Wherever a run has come to, cancelling it lets the loop stop and the watcher close the channel,
      without any time passing. */
  lemma {:induction false} CancellingEndsIt(steps: seq<Step>, debounce: real, error: string)
    ensures var s := After(WatchEnding(LoopEnding(steps), error), debounce);
            && s.loop.phase.Stopped? && s.watch.watcher.Finished? && s.channel.closed
            && s.now == After(steps, debounce).now
  {
    LoopEnds(steps, debounce);
    WatchEnds(LoopEnding(steps), debounce, error);
  }

  lemma StepCancels(s: Trigger, step: Step, debounce: real)
    ensures Next(s, step, debounce).cancelled <==> s.cancelled || step == Cancel
    ensures Next(s, step, debounce).loop.phase.Stopped? ==> s.loop.phase.Stopped? || s.cancelled
  {
  }

  /** Neither stops before: the loop stops, and the channel is closed, only when the run has been
      cancelled. */
  lemma {:induction false} OnlyCancellingEndsIt(steps: seq<Step>, debounce: real)
    ensures After(steps, debounce).cancelled <==> Cancel in steps
    ensures After(steps, debounce).loop.phase.Stopped? ==> Cancel in steps
    ensures After(steps, debounce).channel.closed ==> Cancel in steps
  {
    if steps != [] {
      var init, last := steps[..|steps| - 1], steps[|steps| - 1];
      OnlyCancellingEndsIt(init, debounce);
      StepCancels(After(init, debounce), last, debounce);
      assert steps == init + [last];
    }
    AlwaysSafe(steps, debounce);
  }

  /** The loop finishes what it is at. */
  function Settling(steps: seq<Step>): seq<Step> {
    steps + [Watcher(Signal)] + [Looper(BeginRead)] + [Looper(Arm)] + [Looper(EndRead)]
  }

  /** It takes up a signal, waits for as long as it has to, and reads. */
  function TakingUp(steps: seq<Step>, wait: real): seq<Step> {
    steps + [Looper(TakeChange)] + [Looper(Arm)] + [Pass(wait)] + [Looper(Fire)] + [Looper(TakeExpiry)]
    + [Looper(BeginRead)]
  }

  lemma SettlesFrom(s: Trigger, debounce: real)
    requires !s.loop.phase.Stopped?
    ensures var t := Next(Next(Next(s, Looper(BeginRead), debounce), Looper(Arm), debounce), Looper(EndRead), debounce);
            && t.loop.phase.Selecting? && s.log.heard == t.log.heard
            && (!s.watch.watcher.Signalling? ==> !t.watch.watcher.Signalling?)
  {
    var a := Next(s, Looper(BeginRead), debounce);
    assert a.loop.phase.Selecting? || a.loop.phase.TookChange? || a.loop.phase.Reading?;
    var b := Next(a, Looper(Arm), debounce);
    assert b.loop.phase.Selecting? || b.loop.phase.Reading?;
  }

  lemma {:induction false} Settles(steps: seq<Step>, debounce: real)
    requires !After(steps, debounce).loop.phase.Stopped?
    ensures var s, t := After(steps, debounce), After(Settling(steps), debounce);
            t.loop.phase.Selecting? && !t.watch.watcher.Signalling? && s.log.heard == t.log.heard
  {
    var a := steps + [Watcher(Signal)];
    OneMore(steps, Watcher(Signal), debounce);
    OneMore(a, Looper(BeginRead), debounce);
    OneMore(a + [Looper(BeginRead)], Looper(Arm), debounce);
    OneMore(a + [Looper(BeginRead)] + [Looper(Arm)], Looper(EndRead), debounce);
    SettlesFrom(After(a, debounce), debounce);
  }

  /** With the loop selecting and a message unread, the timer is set, or a signal is there to set it. */
  lemma {:induction false} TimerIsSet(steps: seq<Step>, debounce: real)
    requires debounce >= 0.0
    requires After(steps, debounce).loop.phase.Selecting? && Dirty(After(steps, debounce).log)
    requires !After(steps, debounce).watch.watcher.Signalling?
    ensures var s := After(steps + [Looper(TakeChange)] + [Looper(Arm)], debounce);
            && s.loop.phase.Selecting? && !s.loop.timer.Idle? && s.log.begun == After(steps, debounce).log.begun
            && (s.loop.timer.Pending? ==> s.loop.timer.due <= s.now + debounce)
  {
    AlwaysSafe(steps, debounce);
    AlwaysDueSoon(steps, debounce);
    OneMore(steps, Looper(TakeChange), debounce);
    OneMore(steps + [Looper(TakeChange)], Looper(Arm), debounce);
  }

  lemma {:induction false} AlwaysDueSoon(steps: seq<Step>, debounce: real)
    requires debounce >= 0.0
    ensures DueSoon(After(steps, debounce), debounce)
  {
    if steps != [] {
      AlwaysSafe(steps[..|steps| - 1], debounce);
      AlwaysDueSoon(steps[..|steps| - 1], debounce);
      NextIsDueSoon(After(steps[..|steps| - 1], debounce), steps[|steps| - 1], debounce);
    }
  }

  lemma TimerIsRead(s: Trigger, debounce: real)
    requires s.loop.phase.Selecting? && !s.loop.timer.Idle?
    requires s.loop.timer.Pending? ==> s.loop.timer.due <= s.now
    ensures var a := Next(Next(s, Looper(Fire), debounce), Looper(TakeExpiry), debounce);
            Next(a, Looper(BeginRead), debounce).log.begun == s.log.begun + [Read(s.now, Change)]
  {
    var a := Next(s, Looper(Fire), debounce);
    assert a.loop.timer.Expired? && a.loop.phase.Selecting? && a.log == s.log && a.now == s.now;
    assert Next(a, Looper(TakeExpiry), debounce).loop.phase.TookExpiry?;
  }

  lemma TimerLeadsToRead(steps: seq<Step>, debounce: real) returns (wait: real)
    requires debounce >= 0.0
    requires var s := After(steps, debounce);
             && s.loop.phase.Selecting? && !s.loop.timer.Idle?
             && (s.loop.timer.Pending? ==> s.loop.timer.due <= s.now + debounce)
    ensures 0.0 <= wait <= debounce
    ensures var more := steps + [Pass(wait)] + [Looper(Fire)] + [Looper(TakeExpiry)] + [Looper(BeginRead)];
            After(more, debounce).log.begun
            == After(steps, debounce).log.begun + [Read(After(steps, debounce).now + wait, Change)]
  {
    var s := After(steps, debounce);
    wait := if s.loop.timer.Pending? && s.loop.timer.due > s.now then s.loop.timer.due - s.now else 0.0;
    var a := steps + [Pass(wait)];
    OneMore(steps, Pass(wait), debounce);
    assert After(a, debounce) == s.(now := s.now + wait);
    OneMore(a, Looper(Fire), debounce);
    OneMore(a + [Looper(Fire)], Looper(TakeExpiry), debounce);
    OneMore(a + [Looper(Fire)] + [Looper(TakeExpiry)], Looper(BeginRead), debounce);
    TimerIsRead(After(a, debounce), debounce);
  }

  lemma {:induction false} BegunStays(steps: seq<Step>, debounce: real, n: nat)
    requires n <= |steps|
    ensures |After(steps[..n], debounce).log.begun| <= |After(steps, debounce).log.begun|
  {
    if n == |steps| {
      assert steps[..n] == steps;
    } else {
      var init := steps[..|steps| - 1];
      assert init[..n] == steps[..n];
      BegunStays(init, debounce, n);
      LogGrows(After(init, debounce), steps[|steps| - 1], debounce);
    }
  }

  /** A message none has read for leaves the log of any later state dirty. */
  lemma {:induction false} StillDirty(steps: seq<Step>, debounce: real, k: nat)
    requires k < |steps| && Hears(After(steps[..k], debounce), steps[k])
    requires |After(steps[..k], debounce).log.begun| == |After(steps, debounce).log.begun|
    ensures Dirty(After(steps, debounce).log)
  {
    var s, mark := After(steps, debounce), Now(After(steps[..k], debounce));
    WhatCameIsLogged(steps, debounce, k);
    AlwaysInOrder(steps, debounce);
    var i :| 0 <= i < |s.log.heard| && s.log.heard[i] == mark;
    assert mark.before <= s.log.heard[|s.log.heard| - 1].before;
  }

  lemma UnreadCanBeRead(steps: seq<Step>, debounce: real) returns (wait: real)
    requires debounce >= 0.0
    requires After(steps, debounce).loop.phase.Selecting? && Dirty(After(steps, debounce).log)
    requires !After(steps, debounce).watch.watcher.Signalling?
    ensures 0.0 <= wait <= debounce
    ensures |After(steps, debounce).log.begun| < |After(TakingUp(steps, wait), debounce).log.begun|
  {
    TimerIsSet(steps, debounce);
    wait := TimerLeadsToRead(steps + [Looper(TakeChange)] + [Looper(Arm)], debounce);
  }

  /** Wherever a run has come to, while the loop has not stopped, a message can be read for within a
      debounce: no state is a dead end. */
  lemma ReadingIsPossible(steps: seq<Step>, debounce: real, k: nat) returns (wait: real)
    requires debounce >= 0.0 && !After(steps, debounce).loop.phase.Stopped?
    requires k < |steps| && Hears(After(steps[..k], debounce), steps[k])
    ensures 0.0 <= wait <= debounce
    ensures |After(steps[..k], debounce).log.begun| < |After(TakingUp(Settling(steps), wait), debounce).log.begun|
  {
    var settled := Settling(steps);
    assert settled[..k] == steps[..k] && settled[k] == steps[k];
    BegunStays(settled, debounce, k);
    Settles(steps, debounce);
    if |After(steps[..k], debounce).log.begun| < |After(settled, debounce).log.begun| {
      wait := 0.0;
      assert TakingUp(settled, wait)[..|settled|] == settled;
      BegunStays(TakingUp(settled, wait), debounce, |settled|);
    } else {
      StillDirty(settled, debounce, k);
      wait := UnreadCanBeRead(settled, debounce);
    }
  }

  // ----- a stream that breaks ------------------------------------------------------------------------

  /** The runtime ended the stream, or it failed, and nothing was cancelled. */
  predicate Breaks(s: Trigger, step: Step) {
    && step.Watcher? && step.watching.Break? && !step.watching.end.ContextDone?
    && s.watch.watcher.Streaming? && !s.cancelled
  }

  /** Step `j` follows the stream again by a time, or gives it up because the run was cancelled. */
  ghost predicate ResumesAt(steps: seq<Step>, debounce: real, j: int, limit: real)
    requires 0 <= j < |steps|
  {
    var before, after := After(steps[..j], debounce), After(steps[..j + 1], debounce);
    && before.now <= limit
    && if steps[j] == Watcher(Reconnect) then after.watch.watcher.Streaming?
       else steps[j] == Watcher(GiveUp) && before.cancelled && after.watch.watcher.Finished?
  }

  lemma BreakWaits(s: Trigger, step: Step, debounce: real)
    requires Breaks(s, step) && BackedOff(s)
    ensures var w := Next(s, step, debounce).watch.watcher;
            w.Waiting? && w.until == s.now + Waits(s.watch.interruptions)
  {
    BackoffIs(s.watch.interruptions);
  }

  lemma {:induction false} WaitWasUntil(steps: seq<Step>, debounce: real, k: nat, w: Watcher)
    requires Punctual(steps, debounce) && k <= |steps|
    requires w.Waiting? && After(steps[..k], debounce).watch.watcher == w
    ensures After(steps, debounce).now > w.until ==>
              exists j :: k <= j < |steps| && ResumesAt(steps, debounce, j, w.until)
  {
    BrokenStreamIsTriedAgain(steps, debounce, k);
    if After(steps, debounce).now > w.until {
      var j :| k <= j < |steps| && WaitEndsAt(steps, debounce, j, w);
      assert ResumesAt(steps, debounce, j, w.until);
    }
  }

  lemma BreakIsAWait(steps: seq<Step>, debounce: real, k: nat) returns (w: Watcher)
    requires k < |steps| && Breaks(After(steps[..k], debounce), steps[k])
    ensures w.Waiting? && After(steps[..k + 1], debounce).watch.watcher == w
    ensures var s := After(steps[..k], debounce); w.until == s.now + Waits(s.watch.interruptions)
  {
    AlwaysBackedOff(steps[..k], debounce);
    BreakWaits(After(steps[..k], debounce), steps[k], debounce);
    assert steps[..k + 1] == steps[..k] + [steps[k]];
    OneMore(steps[..k], steps[k], debounce);
    w := After(steps[..k + 1], debounce).watch.watcher;
  }

  /** However often a stream has broken, when its watcher is woken on time it is followed again (or
      given up, if the run is cancelled in the meantime) within 1, 2, 4, 8, 16 and then 30 seconds. */
  lemma {:induction false} EveryBreakIsTriedAgain(steps: seq<Step>, debounce: real, k: nat)
    requires Punctual(steps, debounce) && k < |steps| && Breaks(After(steps[..k], debounce), steps[k])
    ensures var limit := After(steps[..k], debounce).now + Waits(After(steps[..k], debounce).watch.interruptions);
            After(steps, debounce).now > limit ==>
              exists j :: k < j < |steps| && ResumesAt(steps, debounce, j, limit)
  {
    var w := BreakIsAWait(steps, debounce, k);
    WaitWasUntil(steps, debounce, k + 1, w);
  }

  /** And it always can be: a wait comes to its end by letting its time pass. */
  lemma {:induction false} ResumingIsPossible(steps: seq<Step>, debounce: real)
    requires After(steps, debounce).watch.watcher.Waiting?
    ensures exists wait :: 0.0 <= wait <= 30.0
              && After(steps + [Pass(wait)] + [Watcher(Reconnect)], debounce).watch.watcher.Streaming?
  {
    var s := After(steps, debounce);
    AlwaysBackedOff(steps, debounce);
    BackoffGrows(s.watch.interruptions, s.watch.interruptions);
    var wait := if s.watch.watcher.until > s.now then s.watch.watcher.until - s.now else 0.0;
    OneMore(steps, Pass(wait), debounce);
    assert After(steps + [Pass(wait)], debounce) == s.(now := s.now + wait);
    OneMore(steps + [Pass(wait)], Watcher(Reconnect), debounce);
    assert After(steps + [Pass(wait)] + [Watcher(Reconnect)], debounce).watch.watcher.Streaming?;
  }

  // ----- nothing is read without a cause -------------------------------------------------------------

  function Reads(begun: seq<Read>, cause: Cause): nat {
    if begun == [] then 0
    else Reads(begun[..|begun| - 1], cause) + if begun[|begun| - 1].cause == cause then 1 else 0
  }

  function One(b: bool): nat {
    if b then 1 else 0
  }

  /** How often the ticker fired, which it does once the first read is over. */
  function Tocks(steps: seq<Step>, debounce: real): nat {
    if steps == [] then 0
    else
      var init, step := steps[..|steps| - 1], steps[|steps| - 1];
      Tocks(init, debounce) + One(TickerFires(After(init, debounce), step))
  }

  function Messages(steps: seq<Step>): nat {
    if steps == [] then 0
    else Messages(steps[..|steps| - 1]) + One(steps[|steps| - 1] == Watcher(Message))
  }

  /** What the loop has still to read for. */
  function TicksLeft(s: Trigger): nat {
    One(s.loop.ticked) + One(s.loop.phase.TookTick?)
  }

  function ChangesLeft(s: Trigger): nat {
    One(s.watch.watcher.Signalling?) + One(s.channel.token) + One(s.loop.phase.TookChange?) + One(s.loop.armed)
  }

  lemma {:induction false} OneMoreRead(begun: seq<Read>, read: Read, cause: Cause)
    ensures Reads(begun + [read], cause) == Reads(begun, cause) + One(read.cause == cause)
  {
    assert (begun + [read])[..|begun|] == begun;
  }

  predicate TickerFires(s: Trigger, step: Step) {
    step == Looper(Tock) && !s.loop.phase.Opening? && s.loop.phase != Reading(true)
  }

  /** A read that begins takes away what there was to read for. */
  lemma BeginTakes(s: Trigger, debounce: real)
    requires ArmedRight(s.loop)
    ensures var n := NextLoop(s, BeginRead, debounce);
            if s.loop.phase.Opening? then
              && n.log.begun == s.log.begun + [Read(s.now, Initial)] && !n.loop.phase.Opening?
              && TicksLeft(n) == TicksLeft(s) && ChangesLeft(n) == ChangesLeft(s)
            else if s.loop.phase.TookExpiry? then
              && n.log.begun == s.log.begun + [Read(s.now, Change)] && !n.loop.phase.Opening?
              && TicksLeft(n) == TicksLeft(s) && ChangesLeft(n) + 1 == ChangesLeft(s)
            else if s.loop.phase.TookTick? then
              && n.log.begun == s.log.begun + [Read(s.now, Tick)] && !n.loop.phase.Opening?
              && TicksLeft(n) + 1 == TicksLeft(s) && ChangesLeft(n) == ChangesLeft(s)
            else n == s
  {
  }

  lemma BeginCauses(s: Trigger, debounce: real)
    requires ArmedRight(s.loop)
    ensures var n := NextLoop(s, BeginRead, debounce);
            && Reads(n.log.begun, Tick) + TicksLeft(n) <= Reads(s.log.begun, Tick) + TicksLeft(s)
            && Reads(n.log.begun, Change) + ChangesLeft(n) <= Reads(s.log.begun, Change) + ChangesLeft(s)
            && Reads(n.log.begun, Initial) + One(n.loop.phase.Opening?)
               <= Reads(s.log.begun, Initial) + One(s.loop.phase.Opening?)
  {
    BeginTakes(s, debounce);
    forall cause: Cause, read
      ensures Reads(s.log.begun + [read], cause) == Reads(s.log.begun, cause) + One(read.cause == cause)
    {
      OneMoreRead(s.log.begun, read, cause);
    }
  }

  /** Any other step makes no more to read for than what it brings. */
  lemma LoopBrings(s: Trigger, step: LoopStep, debounce: real)
    requires !step.BeginRead?
    ensures var n := NextLoop(s, step, debounce);
            && n.log.begun == s.log.begun && ChangesLeft(n) <= ChangesLeft(s)
            && TicksLeft(n) <= TicksLeft(s) + One(TickerFires(s, Looper(step)))
            && (n.loop.phase.Opening? ==> s.loop.phase.Opening?)
  {
  }

  lemma WatchBrings(s: Trigger, step: WatchStep)
    ensures var n := NextWatch(s, step);
            && n.log.begun == s.log.begun && n.loop == s.loop
            && ChangesLeft(n) <= ChangesLeft(s) + One(step == Message)
  {
  }

  lemma StepCauses(s: Trigger, step: Step, debounce: real)
    requires ArmedRight(s.loop)
    ensures var n := Next(s, step, debounce);
            && Reads(n.log.begun, Tick) + TicksLeft(n)
               <= Reads(s.log.begun, Tick) + TicksLeft(s) + One(TickerFires(s, step))
            && Reads(n.log.begun, Change) + ChangesLeft(n)
               <= Reads(s.log.begun, Change) + ChangesLeft(s) + One(step == Watcher(Message))
            && Reads(n.log.begun, Initial) + One(n.loop.phase.Opening?)
               <= Reads(s.log.begun, Initial) + One(s.loop.phase.Opening?)
  {
    match step
    case Looper(BeginRead) => BeginCauses(s, debounce);
    case Looper(l) => LoopBrings(s, l, debounce);
    case Watcher(w) => WatchBrings(s, w);
    case _ =>
  }

  /** The project is read once to begin with, and otherwise never more often than the ticker fired
      and messages came. */
  lemma {:induction false} ReadsAreCaused(steps: seq<Step>, debounce: real)
    ensures var s := After(steps, debounce);
            && Reads(s.log.begun, Tick) + TicksLeft(s) <= Tocks(steps, debounce)
            && Reads(s.log.begun, Change) + ChangesLeft(s) <= Messages(steps)
            && Reads(s.log.begun, Initial) + One(s.loop.phase.Opening?) <= 1
  {
    if steps != [] {
      var init := steps[..|steps| - 1];
      ReadsAreCaused(init, debounce);
      AlwaysSafe(init, debounce);
      StepCauses(After(init, debounce), steps[|steps| - 1], debounce);
    }
  }

  // ----- what is given up stays given up --------------------------------------------------------------

  lemma StepGivesUp(s: Trigger, step: Step, debounce: real)
    ensures !s.loop.listening ==> !Next(s, step, debounce).loop.listening
    ensures s.cancelled && !s.watch.watcher.Waiting? ==> !Next(s, step, debounce).watch.watcher.Waiting?
    ensures s.cancelled ==> Next(s, step, debounce).cancelled
  {
  }

  /** A channel found closed and empty is not received from again. */
  lemma {:induction false} ClosedIsGivenUp(steps: seq<Step>, debounce: real, k: nat)
    requires k < |steps| && steps[k] == Looper(TakeChange)
    requires var s := After(steps[..k], debounce); s.loop.phase.Selecting? && s.channel == Channel(false, true)
    ensures !After(steps, debounce).loop.listening
  {
    var init, n := steps[..|steps| - 1], |steps| - 1;
    if k < n {
      assert init[..k] == steps[..k];
      ClosedIsGivenUp(init, debounce, k);
      StepGivesUp(After(init, debounce), steps[n], debounce);
    }
  }

  /** A watcher that was not waiting when the run was cancelled never waits again. */
  lemma {:induction false} CancelledNeverWaits(steps: seq<Step>, debounce: real, k: nat)
    requires k <= |steps|
    requires After(steps[..k], debounce).cancelled && !After(steps[..k], debounce).watch.watcher.Waiting?
    ensures After(steps, debounce).cancelled && !After(steps, debounce).watch.watcher.Waiting?
  {
    if k < |steps| {
      var init := steps[..|steps| - 1];
      assert init[..k] == steps[..k];
      CancelledNeverWaits(init, debounce, k);
      StepGivesUp(After(init, debounce), steps[|steps| - 1], debounce);
    } else {
      assert steps[..k] == steps;
    }
  }
}