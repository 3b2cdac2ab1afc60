/** The breathing timer as the component holds it: three mutable pieces of
    state, updated in place by the start and stop handlers and by each firing
    of the per-second interval. */
module Controller {
  import opened Phases
  import opened Session

  class Timer {
    var phase: Phase
    var isStarted: bool
    var countdown: int

    /** The fields as a `Session.State` value. */
    function Value(): State
      reads this
    {
      State(phase, countdown, isStarted)
    }

    ghost predicate Valid()
      reads this
    {
      Inv(Value())
    }

    /** The component's initial state: inhale, not started, countdown 4. */
    constructor ()
      ensures Valid() && Value() == Idle
    {
      phase := Inhale;
      isStarted := false;
      countdown := 4;
    }

    /** The effect body: when running, load the current phase's duration
        into the countdown; when stopped, do nothing. */
    method Reseed()
      requires Valid() || isStarted
      modifies this`countdown
      ensures Value() == Effect(old(Value()))
      ensures Valid()
    {
      if !isStarted {
        return;
      }
      countdown := Duration(phase);
    }

    /** Start: mark the timer running and the phase inhale. The effect
        re-runs only when one of its dependencies changed. */
    method Start()
      requires Valid()
      modifies this
      ensures Valid()
      ensures isStarted && phase == Inhale
      ensures !old(isStarted) ==> countdown == Duration(Inhale)
      ensures Value() == StartFrom(old(Value()))
    {
      var oldPhase, wasStarted := phase, isStarted;
      isStarted := true;
      phase := Inhale;
      if phase != oldPhase || isStarted != wasStarted {
        Reseed();
      }
    }

    /** Stop: back to the idle display whatever the previous state. */
    method Stop()
      modifies this
      ensures Valid()
      ensures !isStarted && phase == Inhale && countdown == 4
      ensures Value() == Idle
    {
      isStarted := false;
      phase := Inhale;
      countdown := 4;
    }

    /** One firing of the interval. While stopped there is no interval, so
        nothing changes. Otherwise the countdown update runs, and when it moved
        to the next phase the effect re-runs on the new phase and re-seeds
        the countdown. */
    method Tick()
      requires Valid()
      modifies this
      ensures Valid()
      ensures !old(isStarted) ==> unchanged(this)
      ensures old(isStarted) && old(countdown) > 1 ==>
        isStarted && phase == old(phase) && countdown == old(countdown) - 1
      ensures old(isStarted) && old(countdown) <= 1 ==>
        isStarted && phase == Next(old(phase)) && countdown == Duration(phase)
      ensures Value() == Step(old(Value()))
    {
      if !isStarted {
        return;
      }
      var before := phase;
      if countdown <= 1 {
        var next := Next(phase);
        phase := next;
        countdown := Duration(next);
      } else {
        countdown := countdown - 1;
      }
      if phase != before {
        ReseedAfterTransitionIsIdempotent(old(Value()));
        Reseed();
      }
    }
  }

  /** A client run: start, three ticks show inhale/1, a fourth shows hold/7,
      and stop returns to the idle display. */
  method Scenario() returns (shown: seq<State>)
    ensures shown == [State(Inhale, 1, true), State(Hold, 7, true), Idle]
  {
    var t := new Timer();
    t.Start();
    t.Tick();
    t.Tick();
    t.Tick();
    var first := t.Value();
    t.Tick();
    var second := t.Value();
    t.Stop();
    shown := [first, second, t.Value()];
  }
}
