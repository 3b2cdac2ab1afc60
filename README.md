# zen-breath: the 4-7-8 breathing timer

The zen-breath widget guides a user through the 4-7-8 breathing cycle: inhale
for 4 seconds, hold for 7, exhale for 8, then start again. The only logic in the
component is a small timer state machine. Its state has three parts: the
current `phase`, whether the timer `isStarted`, and the whole seconds left in
the phase (`countdown`). Four pieces of code drive it: a fixed phase table, a
per-second interval callback, the start handler and the stop handler.

The model has three modules:

- `Phases` (`phases.dfy`) is the phase table. It has a `Phase` datatype and the
  `Duration`, `Next` and `Text` functions. It also proves that the successor
  relation is one 3-cycle and that the durations 4, 7 and 8 tile a 19-second
  cycle.
- `Session` (`session.dfy`) models the state as a value and the transitions as
  pure functions:
  - `Step` is one firing of the interval.
  - `Effect` is the effect body that seeds the countdown from the table.
  - `StartFrom` is the start handler, followed by the effect when its
    dependencies changed.
  - `Iterate` is `n` ticks, and `Run` is any sequence of button presses and
    interval firings.

  `StateAt` is an independent reference for the running timer: the state
  `k` seconds into the cycle, written out as a schedule. `Offset` maps a state
  back to its position. The lemmas cover the invariant, "after n ticks",
  period 19 and its minimality, and the set of reachable states.
- `Controller` (`timer.dfy`) is the component as mutable state: class `Timer`
  with fields `phase`, `isStarted` and `countdown`. The methods `Start`, `Stop`
  and `Tick` update those fields in place, and `Reseed` is the effect body.
  Each method is proved against the matching `Session` function.

How React runs this code is modelled as follows:

- Each call to `Tick` is one firing of the interval. No interval exists while
  the timer is stopped.
- The effect depends on `phase` and `isStarted`. It re-runs when either of them
  changes. So `Start` runs the effect only when it changed one of them, and
  `Tick` runs it after a phase change. The interval callback reads the `phase`
  of its effect run. Because the effect re-runs on every phase change, that is
  always the current phase.
- Each handler and each tick is one atomic update.

Two points where the code may not do what one would expect:

- One might expect start while running to restart the cycle from inhale. In
  the code, `handleStart` on a timer that is running in inhale changes neither
  dependency, so the effect does not re-run and the countdown keeps going.
  `StartFrom` and `Timer.Start` model that. The Start button is only rendered
  while the timer is stopped (zen-breath/src/App.jsx:166), so the difference
  cannot be seen in the widget.
- The move to the next phase is not limited to a countdown of exactly 1. The
  code tests `countdown <= 1`, and `Step` does the same.

## Model

| member | source | states |
|---|---|---|
| Phases.Duration | zen-breath/src/App.jsx:9-13 | every phase's duration is at least one second, so a countdown loaded from the table is never 0 |
| Phases.Next | zen-breath/src/App.jsx:9-13 | the next phase always differs from the current one |
| Phases.Text | zen-breath/src/App.jsx:9-13 | every phase has a non-empty label |
| Phases.PhaseStart | zen-breath/src/App.jsx:9-13 | each phase begins at a point in the cycle that leaves room for its whole duration |
| Phases.NextIsThreeCycle | zen-breath/src/App.jsx:9-13 | the successor of inhale is hold, of hold is exhale and of exhale is inhale; this single 3-cycle covers every phase |
| Phases.DurationsSumToCycle | zen-breath/src/App.jsx:9-13 | the durations are 4, 7 and 8 and add up to the 19-second cycle |
| Phases.PhasesTileCycle | zen-breath/src/App.jsx:9-13 | each phase ends where its successor begins, and exhale ends at 19 |
| Phases.TextIsInjective | zen-breath/src/App.jsx:9-13 | two phases have the same label exactly when they are the same phase |
| Session.Effect | zen-breath/src/App.jsx:15-18 | when running, the effect leaves the phase alone and sets the countdown to that phase's duration; when stopped, it changes nothing |
| Session.Step | zen-breath/src/App.jsx:20-28 | a tick never changes the running flag or shows a countdown below 1; the phase stays or advances to its successor; the invariant is preserved; while stopped, nothing changes |
| Session.StartFrom | zen-breath/src/App.jsx:65-68 | after start, the timer runs in inhale; from stopped, the countdown is 4; the invariant is preserved |
| Session.Iterate | zen-breath/src/App.jsx:20-28 | repeated ticks never change the running flag |
| Session.ReseedAfterTransitionIsIdempotent | zen-breath/src/App.jsx:15-31 | a tick changes the phase exactly when the countdown was at most 1; after such a change, re-seeding from the new phase leaves the state as it is |
| Session.IterateKeepsInv | zen-breath/src/App.jsx:18-28 | while running, the countdown stays in [1, duration of the phase] after any number of ticks |
| Session.IterateStopped | zen-breath/src/App.jsx:16 | any number of ticks while stopped changes nothing |
| Session.IterateAdd | zen-breath/src/App.jsx:20-28 | m ticks followed by n ticks are m + n ticks |
| Session.StateAt | zen-breath/src/App.jsx:9-13 | every scheduled state is a running state |
| Session.StateAtIsRunning | zen-breath/src/App.jsx:18-28 | every scheduled state is a running state of the invariant, and Offset gives back its position |
| Session.OffsetIsInverse | zen-breath/src/App.jsx:18-28 | every running state of the invariant is the scheduled state at its Offset; with StateAtIsRunning, the 19 scheduled states are exactly the running states |
| Session.StepAdvancesSchedule | zen-breath/src/App.jsx:21-27 | one tick moves from schedule position k to position (k + 1) mod 19 |
| Session.IterateAdvancesSchedule | zen-breath/src/App.jsx:20-28 | n ticks move from schedule position k to position (k + n) mod 19 |
| Session.IterateRunning | zen-breath/src/App.jsx:20-28 | after n ticks, any running state of the invariant is at its own position plus n, mod 19 |
| Session.PeriodIsCycle | zen-breath/src/App.jsx:20-28 | 19 ticks return any state of the invariant to itself |
| Session.PeriodIsMinimal | zen-breath/src/App.jsx:20-28 | no number of ticks between 1 and 18 returns a running timer to the same state |
| Session.StartFromIdle | zen-breath/src/App.jsx:65-68 | start from the stopped state gives running inhale/4, the first schedule position |
| Session.TicksAfterStart | zen-breath/src/App.jsx:15-68 | after start, 3 ticks give inhale/1, 4 give hold/7, 11 give exhale/8, and 19 give inhale/4 |
| Session.Apply | zen-breath/src/App.jsx:15-74 | start, stop and a tick each preserve the invariant |
| Session.RunKeepsInv | zen-breath/src/App.jsx:15-74 | the invariant holds after any sequence of button presses and interval firings |
| Session.Ticks | zen-breath/src/App.jsx:20-28 | n interval firings as a sequence of n tick events |
| Session.RunTicks | zen-breath/src/App.jsx:20-28 | running n tick events is n ticks |
| Session.ReachableStates | zen-breath/src/App.jsx:5-74 | from the initial state, the reachable states are exactly the stopped state and the 19 scheduled running states; start followed by k ticks reaches position k |
| Controller.Timer.constructor | zen-breath/src/App.jsx:5-7 | the component starts stopped, in inhale, with countdown 4 |
| Controller.Timer.Reseed | zen-breath/src/App.jsx:15-18 | when running, the countdown is set to the current phase's duration; when stopped, nothing changes |
| Controller.Timer.Start | zen-breath/src/App.jsx:65-68 | the timer runs in inhale; from stopped, the countdown is 4; the effect re-runs only when phase or running changed |
| Controller.Timer.Stop | zen-breath/src/App.jsx:70-74 | from any state, with no precondition: stopped, inhale, countdown 4, and the invariant holds |
| Controller.Timer.Tick | zen-breath/src/App.jsx:15-31 | while stopped, nothing changes. Above 1, the countdown goes down by exactly 1 and phase and running stay the same. At 1 or below, the phase becomes its successor and the countdown that successor's duration. The invariant is kept |
| Controller.Scenario | zen-breath/src/App.jsx:15-74 | start then three ticks shows inhale/1; a fourth tick shows hold/7; stop shows the idle state |

## Left out

- Rendering is not modelled: the JSX, Tailwind classes, inline styles and CSS keyframes (zen-breath/src/App.jsx:76-322). This includes showing the countdown and label only while running. It is presentation only.
- The framer-motion `circleVariants` and `pulseVariants` are not modelled (zen-breath/src/App.jsx:33-63). They are cosmetic and use floating-point values.
- Real time is not modelled: the 1000 ms period of `setInterval`, `clearInterval` in the effect cleanup, and the timer churn when the effect re-runs. A call to `Tick` stands for one firing of the interval. The model does not capture that a fresh interval after a phase change fires a full second after the change.
- React's batching of `setPhase` and `setCountdown` is not modelled. Each handler and each tick is one atomic update.
- React's development-mode (Strict Mode) extra runs are not modelled. The extra effect setup and cleanup happens once at mount, while the timer is stopped, so the effect returns before doing anything. Strict Mode also calls the `setCountdown` updater twice, which calls `setPhase` twice with the same value.
