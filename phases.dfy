/** The fixed 4-7-8 phase table: each breathing phase has a duration in whole
    seconds, a label shown under the countdown, and the phase that follows it. */
module Phases {

  datatype Phase = Inhale | Hold | Exhale

  /** Seconds spent in a phase. Every duration is at least one second, so a
      countdown loaded from the table is never 0. */
  function Duration(p: Phase): (d: int)
    ensures d >= 1
  {
    match p
    case Inhale => 4
    case Hold => 7
    case Exhale => 8
  }

  /** The phase that follows `p`; it is never `p` itself. */
  function Next(p: Phase): (q: Phase)
    ensures q != p
  {
    match p
    case Inhale => Hold
    case Hold => Exhale
    case Exhale => Inhale
  }

  /** The instruction shown while a phase is running. */
  function Text(p: Phase): (t: string)
    ensures |t| > 0
  {
    match p
    case Inhale => "Breathe In"
    case Hold => "Hold"
    case Exhale => "Breathe Out"
  }

  /** Length of one full breathing cycle in seconds (4 + 7 + 8). */
  const Cycle: int := 19

  /** Seconds into the cycle at which a phase begins. */
  function PhaseStart(p: Phase): (k: int)
    ensures 0 <= k && k + Duration(p) <= Cycle
  {
    match p
    case Inhale => 0
    case Hold => Duration(Inhale)
    case Exhale => Duration(Inhale) + Duration(Hold)
  }

  /** The successor relation is one 3-cycle through all phases, starting
      at Inhale: Inhale, Hold, Exhale, Inhale. */
  lemma NextIsThreeCycle(p: Phase)
    ensures Next(Inhale) == Hold && Next(Hold) == Exhale && Next(Exhale) == Inhale
    ensures Next(Next(p)) != p
    ensures Next(Next(Next(p))) == p
    ensures p == Inhale || p == Next(Inhale) || p == Next(Next(Inhale))
  {
  }

  /** The three durations are 4, 7 and 8 and add up to the cycle length. */
  lemma DurationsSumToCycle()
    ensures Duration(Inhale) == 4 && Duration(Hold) == 7 && Duration(Exhale) == 8
    ensures Duration(Inhale) + Duration(Next(Inhale)) + Duration(Next(Next(Inhale))) == Cycle
  {
  }

  /** The phases tile the cycle: each one ends where its successor begins,
      and the last one ends at the cycle length. */
  lemma PhasesTileCycle(p: Phase)
    ensures PhaseStart(p) + Duration(p) == if p == Exhale then Cycle else PhaseStart(Next(p))
  {
  }

  /** Each phase has its own label, so the label identifies the phase. */
  lemma TextIsInjective(p: Phase, q: Phase)
    ensures Text(p) == Text(q) <==> p == q
  {
    if p != q {
      assert |Text(p)| != |Text(q)|;
    }
  }
}
