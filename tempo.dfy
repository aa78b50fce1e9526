/** The tempo control: clamping of the BPM input and the delay to the next tick. */
module Tempo {

  const MinBpm: int := 40
  const MaxBpm: int := 240

  /** Tempo at start-up. */
  const DefaultBpm: int := 120

  /** Length of a step's highlight, in milliseconds (`timeOutBuffer`). */
  const HighlightMs: real := 150.0

  const MsPerMinute: real := 60000.0

  /** The tempo `handleBPMChange` stores for a requested value. */
  function ClampBpm(requested: int): (bpm: int)
    ensures MinBpm <= bpm <= MaxBpm
    ensures MinBpm <= requested <= MaxBpm ==> bpm == requested
    ensures requested < MinBpm ==> bpm == MinBpm
    ensures requested > MaxBpm ==> bpm == MaxBpm
  {
    if requested < MinBpm then MinBpm
    else if requested > MaxBpm then MaxBpm
    else requested
  }

  function Distance(a: int, b: int): (d: nat)
  {
    if a <= b then b - a else a - b
  }

  /** The stored tempo is the allowed tempo nearest to the request. */
  lemma ClampIsNearestAllowed(requested: int, other: int)
    requires MinBpm <= other <= MaxBpm
    ensures Distance(ClampBpm(requested), requested) <= Distance(other, requested)
  {
  }

  /** Clamping an already clamped tempo changes nothing. */
  lemma ClampIdempotent(requested: int)
    ensures ClampBpm(ClampBpm(requested)) == ClampBpm(requested)
  {
  }

  /** A larger request never yields a slower tempo. */
  lemma ClampMonotone(a: int, b: int)
    requires a <= b
    ensures ClampBpm(a) <= ClampBpm(b)
  {
  }

  /**
   * The delay, in milliseconds, with which `playLoop` schedules the next tick:
   * one beat at `bpm` less the highlight time.
   */
  function StepDelay(bpm: int): (delay: real)
    requires bpm > 0
    ensures (delay + HighlightMs) * bpm as real == MsPerMinute
  {
    MsPerMinute / bpm as real - HighlightMs
  }

  /** For every tempo the clamp admits, the next tick is 100 to 1350 ms away. */
  lemma StepDelayInRange(bpm: int)
    requires MinBpm <= bpm <= MaxBpm
    ensures 100.0 <= StepDelay(bpm) <= 1350.0
    ensures StepDelay(MinBpm) == 1350.0 && StepDelay(MaxBpm) == 100.0
  {
  }

  /** A faster tempo never waits longer for its next tick. */
  lemma StepDelayShrinksAsTempoRises(slow: int, fast: int)
    requires 0 < slow <= fast
    ensures StepDelay(fast) <= StepDelay(slow)
  {
  }
}
