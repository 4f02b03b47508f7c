/** The loop of `Run` and the goroutine of `Watch`, over the channel they share:
    internal/app/monitor_service.go and internal/adapters/docker/client.go. Each method is what one
    of them does between two points where the other can come in. */
module Runners {
  import opened Triggers

  datatype Received = Nothing | Signalled | Closed

  /** A Go channel with one slot. Sending on a closed channel panics, and so does closing it again. */
  class Slot {
    var token: bool
    var closed: bool

    ghost function State(): Channel
      reads this
    {
      Channel(token, closed)
    }

    constructor ()
      ensures State() == Channel(false, false)
    {
      token, closed := false, false;
    }

    /** A send that does not block: a second signal finds the slot taken, and is dropped. */
    method TrySend()
      requires !closed
      modifies this
      ensures State() == Channel(true, false)
    {
      if !token {
        token := true;
      }
    }

    /** What is in the slot can be received even after the channel is closed. */
    method TryReceive() returns (received: Received)
      modifies this
      ensures State() == Channel(false, old(closed))
      ensures received == if old(token) then Signalled else if closed then Closed else Nothing
    {
      if token {
        token := false;
        received := Signalled;
      } else {
        received := if closed then Closed else Nothing;
      }
    }

    method CloseChannel()
      requires !closed
      modifies this
      ensures State() == Channel(old(token), true)
    {
      closed := true;
    }
  }

  class Runner {
    const debounce: real
    const changes: Slot

    // What `Run` keeps.
    var phase: Phase
    var armed: bool
    var timer: Timer
    var listening: bool
    var ticked: bool

    // What `Watch` keeps.
    var watcher: Watcher
    var delay: real
    var interruptions: nat

    // The time, the context, and what has happened.
    var now: real
    var cancelled: bool
    var log: Log

    ghost function Abs(): Trigger
      reads this, changes
    {
      Trigger(now, cancelled, Loop(phase, armed, timer, listening, ticked),
              Watch(watcher, delay, interruptions), changes.State(), log)
    }

    /** No wake-up is lost; and the channel is closed once the watcher is finished, and not before. */
    ghost predicate Valid()
      reads this, changes
    {
      Safe(Abs())
    }

    constructor (debounce: real)
      ensures this.debounce == debounce && Valid() && Abs() == START && fresh(changes)
    {
      this.debounce := debounce;
      changes := new Slot();
      phase, armed, timer, listening, ticked := Opening, false, Idle, true, false;
      watcher, delay, interruptions := NotStarted, MIN_DELAY, 0;
      now, cancelled, log := 0.0, false, Log([], [], []);
    }

    // ----- the loop ------------------------------------------------------------------------

    /** A receive from the channel of changes. A closed one is given up for good. */
    method TakeChange()
      requires Valid()
      modifies this`listening, this`phase, this`log, changes
      ensures Valid() && Abs() == NextLoop(old(Abs()), LoopStep.TakeChange, debounce)
    {
      LoopIsSafe(Abs(), LoopStep.TakeChange, debounce);
      if phase.Selecting? && listening {
        var received := changes.TryReceive();
        match received
        case Signalled =>
          phase := Phase.TookChange;
          log := log.(taken := log.taken + [Mark(now, |log.begun|)]);
        case Closed => listening := false;
        case Nothing =>
      }
    }

    /** The timer is not set again while it is armed. */
    method Arm()
      modifies this`timer, this`armed, this`phase
      ensures Abs() == NextLoop(old(Abs()), LoopStep.Arm, debounce)
    {
      if phase.TookChange? {
        if !armed {
          timer := Pending(now + debounce);
          armed := true;
        }
        phase := Selecting;
      }
    }

    method TakeExpiry()
      modifies this`phase, this`timer
      ensures Abs() == NextLoop(old(Abs()), LoopStep.TakeExpiry, debounce)
    {
      if phase.Selecting? && timer.Expired? {
        phase := Phase.TookExpiry(timer.due);
        timer := Idle;
      }
    }

    method TakeTick()
      modifies this`phase, this`ticked
      ensures Abs() == NextLoop(old(Abs()), LoopStep.TakeTick, debounce)
    {
      if phase.Selecting? && ticked {
        phase := Phase.TookTick;
        ticked := false;
      }
    }

    method BeginRead()
      modifies this`phase, this`armed, this`log
      ensures Abs() == NextLoop(old(Abs()), LoopStep.BeginRead, debounce)
    {
      if phase.Opening? {
        Begin(Initial);
      } else if phase.TookExpiry? {
        armed := false;
        Begin(Change);
      } else if phase.TookTick? {
        Begin(Tick);
      }
    }

    method Begin(cause: Cause)
      modifies this`phase, this`log
      ensures Abs() == Triggers.Begin(old(Abs()), old(Abs()).loop, cause)
    {
      phase := Reading(cause.Initial?);
      log := log.(begun := log.begun + [Read(now, cause)]);
    }

    /** After the first read the source is watched; after any, the loop waits again. */
    method EndRead()
      modifies this`phase, this`watcher
      ensures Abs() == NextLoop(old(Abs()), LoopStep.EndRead, debounce)
    {
      if phase.Reading? {
        if phase.first {
          watcher := Streaming;
        }
        phase := Selecting;
      }
    }

    method Loops(step: LoopStep)
      requires Valid()
      modifies this, changes
      ensures Valid() && Abs() == NextLoop(old(Abs()), step, debounce)
    {
      LoopIsSafe(Abs(), step, debounce);
      match step
      case Fire =>
        if timer.Pending? && timer.due <= now {
          timer := Expired(timer.due);
        }
      case Tock =>
        if !phase.Opening? && phase != Reading(true) {
          ticked := true;
        }
      case TakeChange => TakeChange();
      case Arm => Arm();
      case TakeExpiry => TakeExpiry();
      case TakeTick => TakeTick();
      case BeginRead => BeginRead();
      case EndRead => EndRead();
      case Stop =>
        if phase.Selecting? && cancelled {
          phase := Stopped;
        }
    }

    // ----- the watcher ----------------------------------------------------------------------

    method Message()
      modifies this`watcher, this`log
      ensures Abs() == NextWatch(old(Abs()), WatchStep.Message)
    {
      if watcher.Streaming? {
        watcher := Signalling;
        log := log.(heard := log.heard + [Mark(now, |log.begun|)]);
      }
    }

    /** The channel the signal goes to is still open. */
    method Signal()
      requires Valid()
      modifies this`watcher, changes
      ensures Abs() == NextWatch(old(Abs()), WatchStep.Signal)
    {
      if watcher.Signalling? {
        changes.TrySend();
        watcher := Streaming;
      }
    }

    /** The channel is closed when the goroutine ends, and only then. */
    method Finish()
      requires Valid() && !watcher.Finished?
      modifies this`watcher, changes
      ensures Abs() == Shut(old(Abs()))
    {
      changes.CloseChannel();
      watcher := Finished;
    }

    method Break(end: StreamEnd)
      requires Valid()
      modifies this`watcher, changes
      ensures Abs() == NextWatch(old(Abs()), WatchStep.Break(end))
    {
      if watcher.Streaming? && (end.ContextDone? ==> cancelled) {
        var error := StreamError(end);
        if cancelled {
          Finish();
        } else {
          watcher := Waiting(now, now + delay, error);
        }
      }
    }

    method Reconnect()
      modifies this`watcher, this`delay, this`interruptions
      ensures Abs() == NextWatch(old(Abs()), WatchStep.Reconnect)
    {
      if watcher.Waiting? && watcher.until <= now {
        delay := Min(delay * 2.0, MAX_DELAY);
        if watcher.error.None? {
          delay := MIN_DELAY;
        }
        watcher := Streaming;
        interruptions := interruptions + 1;
      }
    }

    method Watches(step: WatchStep)
      requires Valid()
      modifies this, changes
      ensures Valid() && Abs() == NextWatch(old(Abs()), step)
    {
      WatchIsSafe(Abs(), step);
      match step
      case Message => Message();
      case Signal => Signal();
      case Break(end) => Break(end);
      case Reconnect => Reconnect();
      case GiveUp =>
        if watcher.Waiting? && cancelled {
          Finish();
        }
    }

    // ----- the two of them ---------------------------------------------------------------------

    method Take(step: Step)
      requires Valid()
      modifies this, changes
      ensures Valid() && Abs() == Next(old(Abs()), step, debounce)
    {
      NextIsSafe(Abs(), step, debounce);
      match step
      case Pass(duration) =>
        if duration > 0.0 {
          now := now + duration;
        }
      case Cancel => cancelled := true;
      case Watcher(w) => Watches(w);
      case Looper(l) => Loops(l);
    }

    /** Any interleaving of the two, from the start: the machine the properties are proved of. In
        none of them is the channel sent on after it was closed, or closed twice. */
    method Play(steps: seq<Step>)
      requires Valid() && Abs() == START
      modifies this, changes
      ensures Valid() && Abs() == After(steps, debounce)
    {
      for i := 0 to |steps|
        invariant Valid() && Abs() == After(steps[..i], debounce)
      {
        Take(steps[i]);
        assert steps[..i + 1][..i] == steps[..i];
      }
      assert steps[..|steps|] == steps;
    }
  }
}
