/** The timer's state as a value, and the pure transitions on it: the
    per-second countdown update, the effect that seeds the countdown from the
    phase table, the start and stop handlers, and iteration of ticks. */
module Session {
  import opened Phases

  /** The three pieces of component state: the current phase, the whole
      seconds left in it, and whether the timer is running. */
  datatype State = State(phase: Phase, countdown: int, started: bool)

  /** The initial and the stopped state: not running, inhale, four seconds. */
  const Idle: State := State(Inhale, 4, false)

  /** The states a timer can be in. While running, the countdown lies in
      [1, duration of the phase]; while stopped, the state is `Idle`. */
  ghost predicate Inv(s: State)
  {
    if s.started then 1 <= s.countdown <= Duration(s.phase) else s == Idle
  }

  /** The effect body: when running, the countdown is (re)seeded with the
      current phase's duration; when stopped it returns before doing anything. */
  function Effect(s: State): (t: State)
    ensures t.phase == s.phase && t.started == s.started
    ensures s.started ==> Inv(t) && t.countdown == Duration(t.phase)
    ensures !s.started ==> t == s
  {
    if s.started then s.(countdown := Duration(s.phase)) else s
  }

  /** One firing of the per-second interval. No interval exists while the
      timer is stopped, so nothing changes then. Otherwise a countdown of at
      most 1 moves to the next phase and loads that phase's full duration, and
      a larger countdown goes down by one. */
  function Step(s: State): (t: State)
    ensures t.started == s.started
    ensures !s.started ==> t == s
    ensures s.started ==> t.countdown >= 1
    ensures t.phase == s.phase || t.phase == Next(s.phase)
    ensures Inv(s) ==> Inv(t)
  {
    if !s.started then s
    else if s.countdown <= 1 then State(Next(s.phase), Duration(Next(s.phase)), true)
    else s.(countdown := s.countdown - 1)
  }

  /** The start handler: set running and inhale; the effect then re-runs,
      and seeds the countdown, only if one of its two dependencies (phase,
      running) actually changed. */
  function StartFrom(s: State): (t: State)
    ensures t.started && t.phase == Inhale
    ensures Inv(s) ==> Inv(t)
    ensures !s.started ==> t.countdown == Duration(Inhale)
  {
    var u := s.(phase := Inhale, started := true);
    if u.phase != s.phase || u.started != s.started then Effect(u) else u
  }

  /** `n` consecutive interval firings. */
  function Iterate(s: State, n: nat): (t: State)
    ensures t.started == s.started
    decreases n
  {
    if n == 0 then s else Iterate(Step(s), n - 1)
  }

  /** Re-seeding after a phase change is a no-op: the transition has already
      stored the new phase's duration, so when the effect re-runs on the new
      phase it writes the value that is there. A tick changes the phase
      exactly when the countdown was at most 1. */
  lemma {:induction false} ReseedAfterTransitionIsIdempotent(s: State)
    requires s.started
    ensures Step(s).phase != s.phase <==> s.countdown <= 1
    ensures Step(s).phase != s.phase ==> Effect(Step(s)) == Step(s)
  {
  }

  /** The invariant holds after any number of ticks. */
  lemma {:induction false} IterateKeepsInv(s: State, n: nat)
    requires Inv(s)
    ensures Inv(Iterate(s, n))
    decreases n
  {
    if n > 0 {
      IterateKeepsInv(Step(s), n - 1);
    }
  }

  /** Ticks while stopped change nothing. */
  lemma {:induction false} IterateStopped(s: State, n: nat)
    requires !s.started
    ensures Iterate(s, n) == s
    decreases n
  {
    if n > 0 {
      IterateStopped(Step(s), n - 1);
    }
  }

  /** Ticking `m` then `n` times is ticking `m + n` times. */
  lemma {:induction false} IterateAdd(s: State, m: nat, n: nat)
    ensures Iterate(Iterate(s, m), n) == Iterate(s, m + n)
    decreases m
  {
    if m > 0 {
      IterateAdd(Step(s), m - 1, n);
    }
  }

  // ---------------------------------------------------------------------------
  // An independent reference for the running timer: the state `k` seconds
  // into the 19-second cycle, written out as a schedule.

  /** The running state `k` seconds after the cycle began at inhale/4:
      seconds 0-3 are inhale 4..1, seconds 4-10 hold 7..1, seconds 11-18
      exhale 8..1. */
  function StateAt(k: int): (s: State)
    requires 0 <= k < Cycle
    ensures s.started
  {
    if k < 4 then State(Inhale, 4 - k, true)
    else if k < 11 then State(Hold, 11 - k, true)
    else State(Exhale, 19 - k, true)
  }

  /** Seconds elapsed in the cycle for a running state: where its phase
      begins plus how much of the phase has been consumed. */
  function Offset(s: State): int
  {
    PhaseStart(s.phase) + Duration(s.phase) - s.countdown
  }

  /** Every scheduled state is a running state of the invariant, and
      `Offset` reads its position back. */
  lemma {:induction false} StateAtIsRunning(k: int)
    requires 0 <= k < Cycle
    ensures Inv(StateAt(k)) && Offset(StateAt(k)) == k
  {
  }

  /** Every running state of the invariant is in the schedule, at the
      position `Offset` gives; with `StateAtIsRunning`, `StateAt` and
      `Offset` are inverse maps between positions and running states. */
  lemma {:induction false} OffsetIsInverse(s: State)
    requires Inv(s) && s.started
    ensures 0 <= Offset(s) < Cycle && StateAt(Offset(s)) == s
  {
    match s.phase
    case Inhale => assert 0 <= Offset(s) < 4;
    case Hold => assert 4 <= Offset(s) < 11;
    case Exhale => assert 11 <= Offset(s) < 19;
  }

  /** One tick advances the schedule by one second, wrapping after 19. */
  lemma {:induction false} StepAdvancesSchedule(k: int)
    requires 0 <= k < Cycle
    ensures Step(StateAt(k)) == StateAt((k + 1) % Cycle)
  {
    if k == Cycle - 1 {
      assert (k + 1) % Cycle == 0;
    } else {
      assert (k + 1) % Cycle == k + 1;
    }
  }

  /** Moving one position and then `n - 1` more is moving `n` positions. */
  lemma ShiftPosition(k: int, n: nat)
    requires 0 <= k < Cycle && n > 0
    ensures ((k + 1) % Cycle + (n - 1)) % Cycle == (k + n) % Cycle
  {
    if k == Cycle - 1 {
      assert (k + 1) % Cycle == 0;
      assert k + n == (n - 1) + Cycle;
    } else {
      assert (k + 1) % Cycle == k + 1;
    }
  }

  /** `n` ticks advance the schedule by `n` seconds, modulo the cycle. */
  lemma {:induction false} IterateAdvancesSchedule(k: int, n: nat)
    requires 0 <= k < Cycle
    ensures Iterate(StateAt(k), n) == StateAt((k + n) % Cycle)
    decreases n
  {
    if n == 0 {
      assert (k + n) % Cycle == k;
    } else {
      StepAdvancesSchedule(k);
      IterateAdvancesSchedule((k + 1) % Cycle, n - 1);
      ShiftPosition(k, n);
    }
  }

  /** After `n` ticks a running timer is at its position plus `n` in the
      schedule. */
  lemma {:induction false} IterateRunning(s: State, n: nat)
    requires Inv(s) && s.started
    ensures Iterate(s, n) == StateAt((Offset(s) + n) % Cycle)
  {
    OffsetIsInverse(s);
    IterateAdvancesSchedule(Offset(s), n);
  }

  /** A position plus one full cycle is the same position. */
  lemma WrapCycle(k: int)
    requires 0 <= k < Cycle
    ensures (k + Cycle) % Cycle == k
  {
  }

  /** Period 19: from any state of the invariant, 19 ticks give back the
      same state. */
  lemma {:induction false} PeriodIsCycle(s: State)
    requires Inv(s)
    ensures Iterate(s, Cycle) == s
  {
    if s.started {
      OffsetIsInverse(s);
      var k := Offset(s);
      IterateAdvancesSchedule(k, Cycle);
      WrapCycle(k);
    } else {
      IterateStopped(s, Cycle);
    }
  }

  /** Moving between 1 and 18 positions never lands on the start. */
  lemma ShiftMoves(k: int, n: int)
    requires 0 <= k < Cycle && 0 < n < Cycle
    ensures (k + n) % Cycle != k
  {
    if k + n < Cycle {
      assert (k + n) % Cycle == k + n;
    } else {
      assert (k + n) % Cycle == k + n - Cycle;
    }
  }

  /** No shorter positive number of ticks brings a running timer back to
      the same state, so 19 is the least period. */
  lemma {:induction false} PeriodIsMinimal(s: State, n: nat)
    requires Inv(s) && s.started
    requires 0 < n < Cycle
    ensures Iterate(s, n) != s
  {
    IterateRunning(s, n);
    OffsetIsInverse(s);
    var k := Offset(s);
    ShiftMoves(k, n);
    StateAtIsRunning((k + n) % Cycle);
  }

  /** Starting from idle runs inhale with its full duration, the top of the
      schedule. */
  lemma {:induction false} StartFromIdle(s: State)
    requires Inv(s) && !s.started
    ensures StartFrom(s) == State(Inhale, 4, true) == StateAt(0)
  {
  }

  /** After start, 3 ticks show inhale/1, 4 ticks hold/7, 11 ticks exhale/8,
      and 19 ticks inhale/4 again. */
  lemma {:induction false} TicksAfterStart()
    ensures Iterate(StartFrom(Idle), 3) == State(Inhale, 1, true)
    ensures Iterate(StartFrom(Idle), 4) == State(Hold, 7, true)
    ensures Iterate(StartFrom(Idle), 11) == State(Exhale, 8, true)
    ensures Iterate(StartFrom(Idle), 19) == State(Inhale, 4, true)
  {
    StartFromIdle(Idle);
    IterateAdvancesSchedule(0, 3);
    IterateAdvancesSchedule(0, 4);
    IterateAdvancesSchedule(0, 11);
    IterateAdvancesSchedule(0, 19);
  }

  // ---------------------------------------------------------------------------
  // Everything that can happen to the timer: the two buttons and the interval.

  datatype Event = StartPressed | StopPressed | IntervalFired

  function Apply(s: State, e: Event): (t: State)
    ensures Inv(s) ==> Inv(t)
  {
    match e
    case StartPressed => StartFrom(s)
    case StopPressed => Idle
    case IntervalFired => Step(s)
  }

  function Run(s: State, es: seq<Event>): (t: State)
    decreases |es|
  {
    if es == [] then s else Run(Apply(s, es[0]), es[1..])
  }

  /** Every state reached from the initial state by any sequence of button
      presses and interval firings satisfies the invariant, so the displayed
      countdown is always within [1, duration of the phase] while running. */
  lemma {:induction false} RunKeepsInv(s: State, es: seq<Event>)
    requires Inv(s)
    ensures Inv(Run(s, es))
    decreases |es|
  {
    if es != [] {
      RunKeepsInv(Apply(s, es[0]), es[1..]);
    }
  }

  /** `n` interval firings as events. */
  function Ticks(n: nat): (es: seq<Event>)
    ensures |es| == n && forall i :: 0 <= i < n ==> es[i] == IntervalFired
  {
    if n == 0 then [] else [IntervalFired] + Ticks(n - 1)
  }

  lemma {:induction false} RunTicks(s: State, n: nat)
    ensures Run(s, Ticks(n)) == Iterate(s, n)
    decreases n
  {
    if n > 0 {
      assert Ticks(n)[1..] == Ticks(n - 1);
      RunTicks(Step(s), n - 1);
    }
  }

  /** The reachable states are exactly `Idle` and the 19 scheduled running
      states: each scheduled state is reached by start followed by `k` ticks,
      and every reachable running state is one of them. */
  lemma {:induction false} ReachableStates(es: seq<Event>, k: int)
    requires 0 <= k < Cycle
    ensures Run(Idle, [StartPressed] + Ticks(k)) == StateAt(k)
    ensures var s := Run(Idle, es); s == Idle || (0 <= Offset(s) < Cycle && s == StateAt(Offset(s)))
  {
    assert ([StartPressed] + Ticks(k))[1..] == Ticks(k);
    StartFromIdle(Idle);
    RunTicks(StateAt(0), k);
    IterateAdvancesSchedule(0, k);
    RunKeepsInv(Idle, es);
    if Run(Idle, es).started {
      OffsetIsInverse(Run(Idle, es));
    }
  }
}
