/** When the project is read: the signal of internal/adapters/docker/client.go and the loop of
    internal/app/monitor_service.go, as one timed machine. A step is what one goroutine, the
    runtime or the clock does between two points where the others can come in. */
module Triggers {
  import opened Domain

  // ----- the event stream and its delays -------------------------------------------------

  const MIN_DELAY: real := 1.0
  const MAX_DELAY: real := 30.0

  /** Why `stream` stopped following the runtime's events. */
  datatype StreamEnd = ContextDone(error: string) | ErrorReceived(received: Option<string>) | MessagesClosed

  /** The error `stream` returns. */
  function StreamError(end: StreamEnd): Option<string> {
    match end
    case ContextDone(error) => Some(error)
    case ErrorReceived(None) => Some("event stream closed")
    case ErrorReceived(Some(error)) => Some("reading event stream: " + error)
    case MessagesClosed => Some("event stream closed")
  }

  function Min(a: real, b: real): real {
    if a <= b then a else b
  }

  /** The delay after the next interruption. */
  function NextDelay(delay: real, error: Option<string>): real {
    if error.None? then MIN_DELAY else Min(delay * 2.0, MAX_DELAY)
  }

  /** The delay after a number of interruptions. */
  function Backoff(interruptions: nat): real {
    if interruptions == 0 then MIN_DELAY else Min(Backoff(interruptions - 1) * 2.0, MAX_DELAY)
  }

  /** The delay only ever grows: a stream that ran for long does not get the short one back. */
  lemma {:induction false} BackoffGrows(m: nat, n: nat)
    requires m <= n
    ensures 1.0 <= Backoff(m) <= Backoff(n) <= 30.0
    decreases n
  {
    if m < n {
      BackoffGrows(m, n - 1);
    } else if n > 0 {
      BackoffGrows(m - 1, n - 1);
    }
  }

  /** How long the watcher waits after a number of interruptions, in seconds. */
  function Waits(interruptions: nat): real {
    match interruptions
    case 0 => 1.0
    case 1 => 2.0
    case 2 => 4.0
    case 3 => 8.0
    case 4 => 16.0
    case _ => 30.0
  }

  lemma {:induction false} BackoffIs(interruptions: nat)
    ensures Backoff(interruptions) == Waits(interruptions)
  {
    if interruptions > 0 { BackoffIs(interruptions - 1); }
  }

  // ----- the machine -----------------------------------------------------------------------

  datatype Cause = Initial | Change | Tick

  datatype Read = Read(at: real, cause: Cause)

  datatype Timer = Idle | Pending(due: real) | Expired(due: real)

  /** Where `Run` is. What it took are the cases it has left the select for and not yet acted on. */
  datatype Phase =
    | Opening
    | Selecting
    | TookChange
    | TookExpiry(due: real)
    | TookTick
    | Reading(first: bool)
    | Stopped

  /** `Run`: its timer, its ticker's channel, and whether it still has the channel of changes. */
  datatype Loop = Loop(phase: Phase, armed: bool, timer: Timer, listening: bool, ticked: bool)

  /** Where the goroutine of `Watch` is. */
  datatype Watcher =
    | NotStarted
    | Streaming
    | Signalling
    | Waiting(since: real, until: real, error: Option<string>)
    | Finished

  datatype Watch = Watch(watcher: Watcher, delay: real, interruptions: nat)

  /** The one-slot channel between the two. */
  datatype Channel = Channel(token: bool, closed: bool)

  /** When something came, and how many reads had begun by then. */
  datatype Mark = Mark(at: real, before: nat)

  /** What has happened: the messages that came, the changes taken from the channel, and the reads. */
  datatype Log = Log(heard: seq<Mark>, taken: seq<Mark>, begun: seq<Read>)

  datatype Trigger = Trigger(now: real, cancelled: bool, loop: Loop, watch: Watch, channel: Channel, log: Log)

  const START := Trigger(
    now := 0.0, cancelled := false,
    loop := Loop(phase := Opening, armed := false, timer := Idle, listening := true, ticked := false),
    watch := Watch(watcher := NotStarted, delay := MIN_DELAY, interruptions := 0),
    channel := Channel(token := false, closed := false),
    log := Log(heard := [], taken := [], begun := []))

  datatype WatchStep = Message | Signal | Break(end: StreamEnd) | Reconnect | GiveUp

  datatype LoopStep = Fire | Tock | TakeChange | Arm | TakeExpiry | TakeTick | BeginRead | EndRead | Stop

  datatype Step = Pass(duration: real) | Cancel | Watcher(watching: WatchStep) | Looper(looping: LoopStep)

  function Now(s: Trigger): Mark {
    Mark(s.now, |s.log.begun|)
  }

  function Shut(s: Trigger): Trigger {
    s.(watch := s.watch.(watcher := Finished), channel := s.channel.(closed := true))
  }

  /** A step that cannot be taken leaves the state as it is, here and below. */
  function NextWatch(s: Trigger, step: WatchStep): Trigger {
    var w := s.watch;
    match step
    case Message =>
      if w.watcher.Streaming?
      then s.(watch := w.(watcher := Signalling), log := s.log.(heard := s.log.heard + [Now(s)])) else s
    case Signal =>
      if w.watcher.Signalling? then s.(watch := w.(watcher := Streaming), channel := s.channel.(token := true)) else s
    case Break(end) =>
      if !w.watcher.Streaming? || (end.ContextDone? && !s.cancelled) then s
      else if s.cancelled then Shut(s)
      else s.(watch := w.(watcher := Waiting(s.now, s.now + w.delay, StreamError(end))))
    case Reconnect =>
      if !w.watcher.Waiting? || s.now < w.watcher.until then s
      else s.(watch := Watch(Streaming, NextDelay(w.delay, w.watcher.error), w.interruptions + 1))
    case GiveUp =>
      if w.watcher.Waiting? && s.cancelled then Shut(s) else s
  }

  /** The first read is over: the source is watched, and the ticker runs. */
  predicate Started(l: Loop) {
    !l.phase.Opening? && l.phase != Reading(true)
  }

  function Begin(s: Trigger, loop: Loop, cause: Cause): Trigger {
    s.(loop := loop.(phase := Reading(cause.Initial?)),
       log := s.log.(begun := s.log.begun + [Read(s.now, cause)]))
  }

  function NextLoop(s: Trigger, step: LoopStep, debounce: real): Trigger {
    var l := s.loop;
    match step
    case Fire => if l.timer.Pending? && l.timer.due <= s.now then s.(loop := l.(timer := Expired(l.timer.due))) else s
    case Tock => if Started(l) then s.(loop := l.(ticked := true)) else s
    case TakeChange =>
      if !l.phase.Selecting? || !l.listening then s
      else if s.channel.token then
        var log := s.log.(taken := s.log.taken + [Now(s)]);
        s.(loop := l.(phase := TookChange), channel := s.channel.(token := false), log := log)
      else if s.channel.closed then s.(loop := l.(listening := false))
      else s
    case Arm =>
      if !l.phase.TookChange? then s
      else if l.armed then s.(loop := l.(phase := Selecting))
      else s.(loop := l.(phase := Selecting, armed := true, timer := Pending(s.now + debounce)))
    case TakeExpiry =>
      if l.phase.Selecting? && l.timer.Expired?
      then s.(loop := l.(phase := TookExpiry(l.timer.due), timer := Idle)) else s
    case TakeTick =>
      if l.phase.Selecting? && l.ticked then s.(loop := l.(phase := TookTick, ticked := false)) else s
    case BeginRead =>
      if l.phase.Opening? then Begin(s, l, Initial)
      else if l.phase.TookExpiry? then Begin(s, l.(armed := false), Change)
      else if l.phase.TookTick? then Begin(s, l, Tick)
      else s
    case EndRead =>
      if !l.phase.Reading? then s
      else if l.phase.first then s.(loop := l.(phase := Selecting), watch := s.watch.(watcher := Streaming))
      else s.(loop := l.(phase := Selecting))
    case Stop => if l.phase.Selecting? && s.cancelled then s.(loop := l.(phase := Stopped)) else s
  }

  function Next(s: Trigger, step: Step, debounce: real): Trigger {
    match step
    case Pass(duration) => if duration > 0.0 then s.(now := s.now + duration) else s
    case Cancel => s.(cancelled := true)
    case Watcher(w) => NextWatch(s, w)
    case Looper(l) => NextLoop(s, l, debounce)
  }

  function After(steps: seq<Step>, debounce: real): Trigger {
    if steps == [] then START else Next(After(steps[..|steps| - 1], debounce), steps[|steps| - 1], debounce)
  }

  // ----- no wake-up is lost ------------------------------------------------------------------

  /** A message has come that no read has begun after. */
  predicate Dirty(log: Log) {
    log.heard != [] && log.heard[|log.heard| - 1].before == |log.begun|
  }

  predicate Took(phase: Phase) {
    phase.TookChange? || phase.TookExpiry? || phase.TookTick?
  }

  predicate TimerPending(l: Loop) {
    l.armed && !l.timer.Idle?
  }

  /** The next read is on its way. */
  predicate WakeUpPending(s: Trigger) {
    || (s.channel.token && s.loop.listening) || s.watch.watcher.Signalling?
    || TimerPending(s.loop) || Took(s.loop.phase)
  }

  /** The timer runs exactly while the loop believes it does. */
  predicate ArmedRight(l: Loop) {
    && (l.timer.Idle? <==> !l.armed || l.phase.TookExpiry?)
    && (l.phase.TookExpiry? ==> l.armed)
  }

  /** The channel is closed by a watcher that was cancelled, and only then given up. */
  predicate ChannelRight(s: Trigger) {
    && (s.channel.closed <==> s.watch.watcher.Finished?)
    && (s.channel.closed ==> s.cancelled)
    && (!s.loop.listening ==> s.channel.closed && !s.channel.token)
    && (s.watch.watcher.NotStarted? <==> s.loop.phase.Opening? || s.loop.phase == Reading(true))
    && (s.watch.watcher.NotStarted? ==> s.log.heard == [] && !s.channel.token)
  }

  /** Marks count no more reads than have begun. */
  predicate MarksRight(log: Log) {
    log.heard != [] ==> log.heard[|log.heard| - 1].before <= |log.begun|
  }

  predicate Awake(s: Trigger) {
    Dirty(s.log) && !s.loop.phase.Stopped? ==> WakeUpPending(s)
  }

  predicate Safe(s: Trigger) {
    ArmedRight(s.loop) && ChannelRight(s) && MarksRight(s.log) && Awake(s)
  }

  lemma WatchIsSafe(s: Trigger, step: WatchStep)
    requires Safe(s)
    ensures Safe(NextWatch(s, step))
  {
  }

  lemma LoopIsSafe(s: Trigger, step: LoopStep, debounce: real)
    requires Safe(s)
    ensures Safe(NextLoop(s, step, debounce))
  {
  }

  lemma NextIsSafe(s: Trigger, step: Step, debounce: real)
    requires Safe(s)
    ensures Safe(Next(s, step, debounce))
  {
    match step
    case Watcher(w) => WatchIsSafe(s, w);
    case Looper(l) => LoopIsSafe(s, l, debounce);
    case _ =>
  }

  lemma {:induction false} AlwaysSafe(steps: seq<Step>, debounce: real)
    ensures Safe(After(steps, debounce))
  {
    if steps != [] {
      AlwaysSafe(steps[..|steps| - 1], debounce);
      NextIsSafe(After(steps[..|steps| - 1], debounce), steps[|steps| - 1], debounce);
    }
  }

  /** While the loop waits, a message that no read has followed is held by the channel, is about
      to be put there, or has armed the timer. */
  lemma {:induction false} NoWakeUpIsLost(steps: seq<Step>, debounce: real)
    ensures var s := After(steps, debounce);
            s.loop.phase.Selecting? && Dirty(s.log) ==>
              s.channel.token || s.watch.watcher.Signalling? || TimerPending(s.loop)
    ensures var s := After(steps, debounce);
            !s.loop.phase.Stopped? && Dirty(s.log) ==> WakeUpPending(s)
  {
    AlwaysSafe(steps, debounce);
  }

  /** Until the context is cancelled the channel stays open and the loop keeps listening; and it
      never gives up a channel that still holds a signal. */
  lemma {:induction false} ChannelOutlastsTheLoop(steps: seq<Step>, debounce: real)
    ensures var s := After(steps, debounce);
            && (!s.cancelled ==> !s.channel.closed && s.loop.listening)
            && (s.channel.token ==> s.loop.listening)
  {
    AlwaysSafe(steps, debounce);
  }

  // ----- reads are kept apart ------------------------------------------------------------------

  function Due(l: Loop): Option<real> {
    if l.phase.TookExpiry? then Some(l.phase.due)
    else if l.timer.Idle? then None
    else Some(l.timer.due)
  }

  ghost predicate Apart(begun: seq<Read>, debounce: real) {
    forall i, j :: 0 <= i < j < |begun| && begun[i].cause.Change? && begun[j].cause.Change? ==>
                     begun[i].at + debounce <= begun[j].at
  }

  ghost predicate NoneSince(begun: seq<Read>, time: real) {
    forall i :: 0 <= i < |begun| && begun[i].cause.Change? ==> begun[i].at <= time
  }

  ghost predicate Spaced(now: real, l: Loop, begun: seq<Read>, debounce: real) {
    && Apart(begun, debounce)
    && NoneSince(begun, now)
    && (Due(l).Some? ==> NoneSince(begun, Due(l).value - debounce))
    && (l.timer.Expired? || l.phase.TookExpiry? ==> Due(l).value <= now)
  }

  ghost predicate SpacedIn(s: Trigger, debounce: real) {
    Spaced(s.now, s.loop, s.log.begun, debounce)
  }

  lemma OneMoreApart(begun: seq<Read>, read: Read, debounce: real)
    requires Apart(begun, debounce) && (read.cause.Change? ==> NoneSince(begun, read.at - debounce))
    ensures Apart(begun + [read], debounce)
  {
  }

  lemma OneMoreSince(begun: seq<Read>, read: Read, time: real)
    requires NoneSince(begun, time) && (read.cause.Change? ==> read.at <= time)
    ensures NoneSince(begun + [read], time)
  {
  }

  lemma BeginKeepsSpaced(s: Trigger, debounce: real)
    requires ArmedRight(s.loop) && SpacedIn(s, debounce) && debounce >= 0.0
    ensures SpacedIn(NextLoop(s, BeginRead, debounce), debounce)
  {
    var n := NextLoop(s, BeginRead, debounce);
    if n.log.begun != s.log.begun {
      var read := n.log.begun[|s.log.begun|];
      if read.cause.Change? {
        assert NoneSince(s.log.begun, s.now - debounce);
      } else if Due(s.loop).Some? {
        OneMoreSince(s.log.begun, read, Due(s.loop).value - debounce);
      }
      OneMoreApart(s.log.begun, read, debounce);
      OneMoreSince(s.log.begun, read, s.now);
    }
  }

  lemma LoopKeepsSpaced(s: Trigger, step: LoopStep, debounce: real)
    requires ArmedRight(s.loop) && SpacedIn(s, debounce) && debounce >= 0.0
    ensures SpacedIn(NextLoop(s, step, debounce), debounce)
  {
    if step.BeginRead? {
      BeginKeepsSpaced(s, debounce);
    } else {
      assert NextLoop(s, step, debounce).log.begun == s.log.begun;
    }
  }

  lemma NextKeepsSpaced(s: Trigger, step: Step, debounce: real)
    requires ArmedRight(s.loop) && SpacedIn(s, debounce) && debounce >= 0.0
    ensures SpacedIn(Next(s, step, debounce), debounce)
  {
    match step
    case Looper(l) => LoopKeepsSpaced(s, l, debounce);
    case _ =>
  }

  lemma {:induction false} AlwaysSpaced(steps: seq<Step>, debounce: real)
    requires debounce >= 0.0
    ensures SpacedIn(After(steps, debounce), debounce)
  {
    if steps != [] {
      AlwaysSpaced(steps[..|steps| - 1], debounce);
      AlwaysSafe(steps[..|steps| - 1], debounce);
      NextKeepsSpaced(After(steps[..|steps| - 1], debounce), steps[|steps| - 1], debounce);
    }
  }

  /** Reads that follow a change begin at least a debounce apart, in every run. */
  lemma {:induction false} ReadsAreApart(steps: seq<Step>, debounce: real)
    requires debounce >= 0.0
    ensures Apart(After(steps, debounce).log.begun, debounce)
  {
    AlwaysSpaced(steps, debounce);
  }

  /** How many of the reads followed a change and began between two instants. */
  function ChangeReads(begun: seq<Read>, first: real, last: real): nat {
    if begun == [] then 0
    else
      var read := begun[|begun| - 1];
      ChangeReads(begun[..|begun| - 1], first, last) + if read.cause.Change? && first <= read.at <= last then 1 else 0
  }

  /** The time that a number of intervals takes. */
  function Times(n: nat, interval: real): real {
    if n == 0 then 0.0 else Times(n - 1, interval) + interval
  }

  lemma {:induction false} NoneAfter(begun: seq<Read>, first: real, last: real, end: real)
    requires NoneSince(begun, end) && end <= last
    ensures ChangeReads(begun, first, last) == ChangeReads(begun, first, end)
  {
    if begun != [] {
      var init := begun[..|begun| - 1];
      forall i | 0 <= i < |init| ensures init[i] == begun[i] {}
      NoneAfter(init, first, last, end);
    }
  }

  lemma EarlierReads(begun: seq<Read>, debounce: real)
    requires begun != [] && Apart(begun, debounce)
    ensures var init, read := begun[..|begun| - 1], begun[|begun| - 1];
            Apart(init, debounce) && (read.cause.Change? ==> NoneSince(init, read.at - debounce))
  {
    var init := begun[..|begun| - 1];
    forall i | 0 <= i < |init| ensures init[i] == begun[i] {}
  }

  lemma {:induction false} ApartReadsAreFew(begun: seq<Read>, debounce: real, first: real, last: real)
    requires Apart(begun, debounce) && debounce >= 0.0
    ensures var n := ChangeReads(begun, first, last); n > 0 ==> first + Times(n - 1, debounce) <= last
  {
    if begun != [] {
      var init, read := begun[..|begun| - 1], begun[|begun| - 1];
      EarlierReads(begun, debounce);
      if read.cause.Change? && first <= read.at <= last {
        NoneAfter(init, first, last, read.at - debounce);
        ApartReadsAreFew(init, debounce, first, read.at - debounce);
      } else {
        ApartReadsAreFew(init, debounce, first, last);
      }
    }
  }

  /** However many changes there are in a burst, the reads a run makes for them between any two
      instants are few: so many of them take that many intervals but one. */
  lemma {:induction false} BurstsCollapse(steps: seq<Step>, debounce: real, first: real, last: real)
    requires debounce >= 0.0
    ensures var n := ChangeReads(After(steps, debounce).log.begun, first, last);
            n > 0 ==> first + Times(n - 1, debounce) <= last
  {
    ReadsAreApart(steps, debounce);
    ApartReadsAreFew(After(steps, debounce).log.begun, debounce, first, last);
  }

  // ----- changes are not starved -----------------------------------------------------------------

  /** The loop acts at once on what it took, and leaves an expiry unhandled for at most `slack`. */
  predicate IsPrompt(s: Trigger, step: Step, slack: real) {
    step.Pass? && step.duration > 0.0 ==>
      !Took(s.loop.phase) && (Due(s.loop).Some? ==> s.now + step.duration <= Due(s.loop).value + slack)
  }

  ghost predicate Prompt(steps: seq<Step>, debounce: real, slack: real) {
    steps == []
    || (Prompt(steps[..|steps| - 1], debounce, slack)
        && IsPrompt(After(steps[..|steps| - 1], debounce), steps[|steps| - 1], slack))
  }

  /** A read that began after the change was taken, and not too long after. */
  ghost predicate ReadFor(begun: seq<Read>, mark: Mark, limit: real) {
    exists i :: mark.before <= i < |begun| && begun[i].cause.Change? && mark.at <= begun[i].at <= limit
  }

  /** The change taken at a mark has been read for, or the timer will see to it. */
  ghost predicate Served(s: Trigger, mark: Mark, debounce: real, slack: real) {
    || ReadFor(s.log.begun, mark, mark.at + debounce + slack)
    || (s.loop.phase.TookChange? && mark.at == s.now)
    || (Due(s.loop).Some? && Due(s.loop).value <= mark.at + debounce)
  }

  predicate Past(s: Trigger, mark: Mark) {
    mark.at <= s.now && mark.before <= |s.log.begun|
  }

  /** The timer is set no further ahead than a debounce, and is overdue by no more than `slack`. */
  predicate OnTime(s: Trigger, debounce: real, slack: real) {
    Due(s.loop).Some? ==> Due(s.loop).value <= s.now + debounce && s.now <= Due(s.loop).value + slack
  }

  ghost predicate AllServed(s: Trigger, debounce: real, slack: real) {
    forall i :: 0 <= i < |s.log.taken| ==> Past(s, s.log.taken[i]) && Served(s, s.log.taken[i], debounce, slack)
  }

  lemma ReadStays(begun: seq<Read>, read: Read, mark: Mark, limit: real)
    ensures ReadFor(begun, mark, limit) ==> ReadFor(begun + [read], mark, limit)
    ensures read.cause.Change? && mark.at <= read.at <= limit && mark.before <= |begun| ==>
              ReadFor(begun + [read], mark, limit)
  {
    assert (begun + [read])[|begun|] == read;
    if ReadFor(begun, mark, limit) {
      var i :| mark.before <= i < |begun| && begun[i].cause.Change? && mark.at <= begun[i].at <= limit;
      assert (begun + [read])[i] == begun[i];
    }
  }

  lemma BeginKeepsServed(s: Trigger, debounce: real, slack: real, mark: Mark)
    requires ArmedRight(s.loop) && OnTime(s, debounce, slack)
    requires Past(s, mark) && Served(s, mark, debounce, slack)
    ensures Served(NextLoop(s, BeginRead, debounce), mark, debounce, slack)
  {
    var n := NextLoop(s, BeginRead, debounce);
    if n.log.begun != s.log.begun {
      ReadStays(s.log.begun, n.log.begun[|s.log.begun|], mark, mark.at + debounce + slack);
    }
  }

  lemma LoopKeepsServed(s: Trigger, step: LoopStep, debounce: real, slack: real, mark: Mark)
    requires ArmedRight(s.loop) && OnTime(s, debounce, slack)
    requires Past(s, mark) && Served(s, mark, debounce, slack)
    ensures Served(NextLoop(s, step, debounce), mark, debounce, slack)
  {
    if step.BeginRead? {
      BeginKeepsServed(s, debounce, slack, mark);
    } else {
      assert NextLoop(s, step, debounce).log.begun == s.log.begun;
    }
  }

  lemma NextKeepsServed(s: Trigger, step: Step, debounce: real, slack: real, mark: Mark)
    requires ArmedRight(s.loop) && OnTime(s, debounce, slack) && IsPrompt(s, step, slack)
    requires Past(s, mark) && Served(s, mark, debounce, slack)
    ensures Served(Next(s, step, debounce), mark, debounce, slack)
  {
    match step
    case Looper(l) => LoopKeepsServed(s, l, debounce, slack, mark);
    case _ =>
  }

  lemma NextIsOnTime(s: Trigger, step: Step, debounce: real, slack: real)
    requires ArmedRight(s.loop) && OnTime(s, debounce, slack) && IsPrompt(s, step, slack)
    requires debounce >= 0.0 && slack >= 0.0
    ensures OnTime(Next(s, step, debounce), debounce, slack)
  {
  }

  lemma NextServesAll(s: Trigger, step: Step, debounce: real, slack: real)
    requires ArmedRight(s.loop) && OnTime(s, debounce, slack) && IsPrompt(s, step, slack)
    requires AllServed(s, debounce, slack)
    ensures AllServed(Next(s, step, debounce), debounce, slack)
  {
    var n := Next(s, step, debounce);
    forall i | 0 <= i < |n.log.taken| ensures Past(n, n.log.taken[i]) && Served(n, n.log.taken[i], debounce, slack) {
      if i < |s.log.taken| {
        assert n.log.taken[i] == s.log.taken[i];
        NextKeepsServed(s, step, debounce, slack, s.log.taken[i]);
      }
    }
  }

  lemma {:induction false} AlwaysServed(steps: seq<Step>, debounce: real, slack: real)
    requires debounce >= 0.0 && slack >= 0.0 && Prompt(steps, debounce, slack)
    ensures AllServed(After(steps, debounce), debounce, slack)
    ensures OnTime(After(steps, debounce), debounce, slack)
  {
    if steps != [] {
      var init, step := steps[..|steps| - 1], steps[|steps| - 1];
      AlwaysServed(init, debounce, slack);
      AlwaysSafe(init, debounce);
      NextServesAll(After(init, debounce), step, debounce, slack);
      NextIsOnTime(After(init, debounce), step, debounce, slack);
    }
  }

  /** Every change taken from the channel is followed by a read within a debounce, however many
      more come in the meantime: by the time that is up, the read has begun. */
  lemma {:induction false} ChangesAreNotStarved(steps: seq<Step>, debounce: real, slack: real, i: nat)
    requires debounce >= 0.0 && slack >= 0.0 && Prompt(steps, debounce, slack)
    requires i < |After(steps, debounce).log.taken|
    ensures var s := After(steps, debounce);
            var mark := s.log.taken[i];
            s.now > mark.at + debounce + slack ==> ReadFor(s.log.begun, mark, mark.at + debounce + slack)
  {
    AlwaysServed(steps, debounce, slack);
    var s := After(steps, debounce);
    assert Served(s, s.log.taken[i], debounce, slack);
  }

  // ----- every message is read for ----------------------------------------------------------------

  function LastRead(log: Log): real {
    if log.begun == [] then 0.0 else log.begun[|log.begun| - 1].at
  }

  /** No time passes while anything can be taken that a message has led to, or that was taken and
      not acted on; and no read lasts for longer than `reading`. */
  predicate IsAttentive(s: Trigger, step: Step, reading: real) {
    var l := s.loop;
    step.Pass? && step.duration > 0.0 ==>
      && !Took(l.phase) && !s.watch.watcher.Signalling?
      && (l.phase.Selecting? ==> !s.channel.token && !l.timer.Expired?)
      && (l.phase.Selecting? && l.timer.Pending? ==> s.now + step.duration <= l.timer.due)
      && (l.phase.Reading? ==> s.now + step.duration <= LastRead(s.log) + reading)
  }

  ghost predicate Attentive(steps: seq<Step>, debounce: real, reading: real) {
    steps == []
    || (Attentive(steps[..|steps| - 1], debounce, reading)
        && IsAttentive(After(steps[..|steps| - 1], debounce), steps[|steps| - 1], reading))
  }

  /** The read that will follow a message is coming, and not too late. */
  predicate Coming(s: Trigger, mark: Mark, debounce: real, reading: real) {
    var l, limit := s.loop, mark.at + reading + debounce;
    || s.now <= mark.at + reading
    || ((l.phase.Selecting? || l.phase.TookChange?) && Due(l).Some? && s.now <= Due(l).value <= limit)
    || ((l.phase.TookExpiry? || l.phase.TookTick?) && s.now <= limit)
  }

  /** A message has been read for in time, or the read is coming. */
  predicate Heeded(s: Trigger, mark: Mark, debounce: real, reading: real) {
    if mark.before < |s.log.begun| then
      mark.at <= s.log.begun[mark.before].at <= mark.at + reading + debounce
    else
      && mark.before == |s.log.begun| && mark.at <= s.now && LastRead(s.log) <= mark.at
      && (s.loop.phase.Stopped? || Coming(s, mark, debounce, reading))
  }

  ghost predicate AllHeeded(s: Trigger, debounce: real, reading: real) {
    forall i :: 0 <= i < |s.log.heard| ==> Heeded(s, s.log.heard[i], debounce, reading)
  }

  /** What an unread message leaves the loop to wait for. */
  ghost predicate Alert(s: Trigger, mark: Mark, debounce: real) {
    && Safe(s) && debounce >= 0.0 && LastRead(s.log) <= s.now
    && (Due(s.loop).Some? ==> Due(s.loop).value <= s.now + debounce)
    && (mark.before == |s.log.begun| ==> Dirty(s.log))
    && !s.watch.watcher.NotStarted?
  }

  lemma PassHeeds(s: Trigger, step: Step, debounce: real, reading: real, mark: Mark)
    requires Alert(s, mark, debounce) && Heeded(s, mark, debounce, reading) && reading >= 0.0
    requires step.Pass? && IsAttentive(s, step, reading)
    ensures Heeded(Next(s, step, debounce), mark, debounce, reading)
  {
  }

  lemma BeginHeeds(s: Trigger, debounce: real, reading: real, mark: Mark)
    requires Alert(s, mark, debounce) && Heeded(s, mark, debounce, reading) && reading >= 0.0
    ensures Heeded(NextLoop(s, BeginRead, debounce), mark, debounce, reading)
  {
  }

  lemma LoopHeeds(s: Trigger, step: LoopStep, debounce: real, reading: real, mark: Mark)
    requires Alert(s, mark, debounce) && Heeded(s, mark, debounce, reading) && reading >= 0.0
    ensures Heeded(NextLoop(s, step, debounce), mark, debounce, reading)
  {
    if step.BeginRead? {
      BeginHeeds(s, debounce, reading, mark);
    } else {
      assert NextLoop(s, step, debounce).log.begun == s.log.begun;
    }
  }

  lemma NextHeeds(s: Trigger, step: Step, debounce: real, reading: real, mark: Mark)
    requires Alert(s, mark, debounce) && Heeded(s, mark, debounce, reading) && reading >= 0.0
    requires IsAttentive(s, step, reading)
    ensures Heeded(Next(s, step, debounce), mark, debounce, reading)
  {
    match step
    case Pass(_) => PassHeeds(s, step, debounce, reading, mark);
    case Looper(l) => LoopHeeds(s, l, debounce, reading, mark);
    case _ =>
  }

  /** Marks are made in order, and the last of them is the most recent. */
  ghost predicate MarksInOrder(s: Trigger) {
    && LastRead(s.log) <= s.now
    && forall i, j :: 0 <= i <= j < |s.log.heard| ==> s.log.heard[i].before <= s.log.heard[j].before <= |s.log.begun|
  }

  predicate DueSoon(s: Trigger, debounce: real) {
    Due(s.loop).Some? ==> Due(s.loop).value <= s.now + debounce
  }

  lemma NextKeepsOrder(s: Trigger, step: Step, debounce: real)
    requires MarksInOrder(s)
    ensures MarksInOrder(Next(s, step, debounce))
  {
    var n := Next(s, step, debounce);
    assert n.log.heard == s.log.heard || n.log.heard == s.log.heard + [Now(s)];
  }

  lemma NextIsDueSoon(s: Trigger, step: Step, debounce: real)
    requires ArmedRight(s.loop) && DueSoon(s, debounce) && debounce >= 0.0
    ensures DueSoon(Next(s, step, debounce), debounce)
  {
  }

  lemma NextHeedsAll(s: Trigger, step: Step, debounce: real, reading: real)
    requires Safe(s) && MarksInOrder(s) && DueSoon(s, debounce) && AllHeeded(s, debounce, reading)
    requires debounce >= 0.0 && reading >= 0.0 && IsAttentive(s, step, reading)
    ensures AllHeeded(Next(s, step, debounce), debounce, reading)
  {
    var n := Next(s, step, debounce);
    assert n.log.heard == s.log.heard || n.log.heard == s.log.heard + [Now(s)];
    forall i | 0 <= i < |n.log.heard| ensures Heeded(n, n.log.heard[i], debounce, reading) {
      if i < |s.log.heard| {
        assert n.log.heard[i] == s.log.heard[i];
        NextHeeds(s, step, debounce, reading, s.log.heard[i]);
      }
    }
  }

  lemma {:induction false} AlwaysHeeded(steps: seq<Step>, debounce: real, reading: real)
    requires debounce >= 0.0 && reading >= 0.0 && Attentive(steps, debounce, reading)
    ensures var s := After(steps, debounce);
            MarksInOrder(s) && DueSoon(s, debounce) && AllHeeded(s, debounce, reading)
  {
    if steps != [] {
      var init, step := steps[..|steps| - 1], steps[|steps| - 1];
      AlwaysHeeded(init, debounce, reading);
      AlwaysSafe(init, debounce);
      NextHeedsAll(After(init, debounce), step, debounce, reading);
      NextKeepsOrder(After(init, debounce), step, debounce);
      NextIsDueSoon(After(init, debounce), step, debounce);
    }
  }

  /** From the message to the read: while the loop runs, the first read to begin after a message
      begins within the time one read takes and a debounce, however many more messages come. */
  lemma {:induction false} MessagesAreReadFor(steps: seq<Step>, debounce: real, reading: real, i: nat)
    requires debounce >= 0.0 && reading >= 0.0 && Attentive(steps, debounce, reading)
    requires i < |After(steps, debounce).log.heard|
    ensures var s := After(steps, debounce);
            var mark, limit := s.log.heard[i], s.log.heard[i].at + reading + debounce;
            !s.loop.phase.Stopped? && s.now > limit ==>
              mark.before < |s.log.begun| && mark.at <= s.log.begun[mark.before].at <= limit
  {
    AlwaysHeeded(steps, debounce, reading);
    var s := After(steps, debounce);
    assert Heeded(s, s.log.heard[i], debounce, reading);
  }

  // ----- the delay in every run --------------------------------------------------------------------

  predicate BackedOff(s: Trigger) {
    var w := s.watch;
    && w.delay == Backoff(w.interruptions)
    && (w.watcher.Waiting? ==>
          w.watcher.error.Some? && w.watcher.since <= s.now && w.watcher.until == w.watcher.since + w.delay)
  }

  lemma NextBacksOff(s: Trigger, step: Step, debounce: real)
    requires BackedOff(s)
    ensures BackedOff(Next(s, step, debounce))
  {
    BackoffGrows(s.watch.interruptions, s.watch.interruptions);
    BackoffGrows(s.watch.interruptions, s.watch.interruptions + 1);
  }

  lemma {:induction false} AlwaysBackedOff(steps: seq<Step>, debounce: real)
    ensures BackedOff(After(steps, debounce))
  {
    if steps != [] {
      AlwaysBackedOff(steps[..|steps| - 1], debounce);
      NextBacksOff(After(steps[..|steps| - 1], debounce), steps[|steps| - 1], debounce);
    }
  }

  /** The delay depends on the number of interruptions alone, so the branch that would give a
      stream the short one back is never taken: 1, 2, 4, 8, 16 and then 30 seconds. */
  lemma {:induction false} DelayOnlyGrows(steps: seq<Step>, debounce: real)
    ensures var w := After(steps, debounce).watch;
            w.delay == Waits(w.interruptions)
  {
    AlwaysBackedOff(steps, debounce);
    BackoffIs(After(steps, debounce).watch.interruptions);
  }

  /** A watcher that is woken when its delay is over follows the stream again at once. */
  predicate IsPunctual(s: Trigger, step: Step) {
    step.Pass? && s.watch.watcher.Waiting? ==> s.now + step.duration <= s.watch.watcher.until
  }

  ghost predicate Punctual(steps: seq<Step>, debounce: real) {
    steps == []
    || (Punctual(steps[..|steps| - 1], debounce)
        && IsPunctual(After(steps[..|steps| - 1], debounce), steps[|steps| - 1]))
  }

  predicate NotOverdue(s: Trigger) {
    s.watch.watcher.Waiting? ==> s.now <= s.watch.watcher.until
  }

  lemma NextIsNotOverdue(s: Trigger, step: Step, debounce: real)
    requires BackedOff(s) && NotOverdue(s) && IsPunctual(s, step)
    ensures NotOverdue(Next(s, step, debounce))
  {
    BackoffGrows(s.watch.interruptions, s.watch.interruptions);
  }

  /** Step `j` ends the wait `w`, no later than its delay is over: the stream is followed again, or a
      cancelled watcher gives it up. */
  ghost predicate WaitEndsAt(steps: seq<Step>, debounce: real, j: int, w: Watcher)
    requires 0 <= j < |steps| && w.Waiting?
  {
    var before, after := After(steps[..j], debounce), After(steps[..j + 1], debounce);
    && before.watch.watcher == w && before.now <= w.until
    && if steps[j] == Watcher(Reconnect) then after.watch.watcher.Streaming?
       else steps[j] == Watcher(GiveUp) && before.cancelled && after.watch.watcher.Finished?
  }

  /** One step either leaves a wait as it is or ends it. */
  lemma WaitGoesOn(s: Trigger, step: Step, debounce: real)
    requires Safe(s) && s.watch.watcher.Waiting?
    ensures var n := Next(s, step, debounce).watch.watcher;
            if step == Watcher(Reconnect) && n != s.watch.watcher then n.Streaming?
            else if step == Watcher(GiveUp) && n != s.watch.watcher then s.cancelled && n.Finished?
            else n == s.watch.watcher
  {
  }

  lemma {:induction false} StillWaiting(steps: seq<Step>, debounce: real, k: nat)
    requires k <= |steps| && After(steps[..k], debounce).watch.watcher.Waiting? && Punctual(steps, debounce)
    ensures var w := After(steps[..k], debounce).watch.watcher;
            || After(steps, debounce).watch.watcher == w
            || exists j :: k <= j < |steps| && WaitEndsAt(steps, debounce, j, w)
  {
    var n, w := |steps| - 1, After(steps[..k], debounce).watch.watcher;
    if k == |steps| {
      assert steps[..k] == steps;
    } else {
      var init := steps[..n];
      assert init[..k] == steps[..k];
      StillWaiting(init, debounce, k);
      if After(init, debounce).watch.watcher == w {
        AlwaysSafe(init, debounce);
        NeverOverdue(init, debounce);
        WaitGoesOn(After(init, debounce), steps[n], debounce);
        assert steps[..n + 1] == steps;
        assert After(steps, debounce).watch.watcher != w ==> WaitEndsAt(steps, debounce, n, w);
      } else {
        var j :| k <= j < n && WaitEndsAt(init, debounce, j, w);
        assert init[..j] == steps[..j] && init[..j + 1] == steps[..j + 1];
        assert WaitEndsAt(steps, debounce, j, w);
      }
    }
  }

  /** Then once its delay is over, a stream that broke has been followed again, or given up by a
      watcher that was cancelled: there was a step that did it, in time. */
  lemma {:induction false} BrokenStreamIsTriedAgain(steps: seq<Step>, debounce: real, k: nat)
    requires Punctual(steps, debounce) && k <= |steps|
    requires After(steps[..k], debounce).watch.watcher.Waiting?
    ensures var w := After(steps[..k], debounce).watch.watcher;
            After(steps, debounce).now > w.until ==>
              exists j :: k <= j < |steps| && WaitEndsAt(steps, debounce, j, w)
  {
    StillWaiting(steps, debounce, k);
    NeverOverdue(steps, debounce);
  }

  /** And its delay is never longer than half a minute. */
  lemma {:induction false} DelayIsBounded(steps: seq<Step>, debounce: real)
    ensures var w := After(steps, debounce).watch;
            w.watcher.Waiting? ==>
              w.watcher.since <= After(steps, debounce).now && w.watcher.until <= w.watcher.since + 30.0
  {
    AlwaysBackedOff(steps, debounce);
    DelayOnlyGrows(steps, debounce);
  }

  lemma {:induction false} NeverOverdue(steps: seq<Step>, debounce: real)
    requires Punctual(steps, debounce)
    ensures NotOverdue(After(steps, debounce))
  {
    if steps != [] {
      var init := steps[..|steps| - 1];
      NeverOverdue(init, debounce);
      AlwaysBackedOff(init, debounce);
      NextIsNotOverdue(After(init, debounce), steps[|steps| - 1], debounce);
    }
  }
}
