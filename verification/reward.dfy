/** The reward rule: one request's outcome, its HTTP status and the time it
    took, becomes a scalar in [0, 1]. A non-200 answer earns nothing; a 200
    answer earns one minus the elapsed seconds, clamped to [0, 1], where the
    elapsed time is first truncated to whole milliseconds. */
module Reward {

  /** The HTTP status that counts as success. */
  const StatusOK: int := 200

  /** Nanoseconds in a millisecond; a Go duration counts nanoseconds. */
  const NanosPerMilli: int := 1_000_000

  /** Go's `Duration.Milliseconds`: integer division of the nanosecond count
      by one million, truncating toward zero (not Dafny's Euclidean `/`). */
  function Milliseconds(d: int): (ms: int)
    ensures d >= 0 ==> 0 <= ms && ms * NanosPerMilli <= d < (ms + 1) * NanosPerMilli
    ensures d < 0 ==> ms <= 0 && (ms - 1) * NanosPerMilli < d <= ms * NanosPerMilli
  {
    if d >= 0 then d / NanosPerMilli else -((-d) / NanosPerMilli)
  }

  /** Truncation keeps the order of durations. */
  lemma MillisecondsMonotone(d1: int, d2: int)
    requires d1 <= d2
    ensures Milliseconds(d1) <= Milliseconds(d2)
  {
  }

  /** `max(0, min(1, x))`. */
  function Clamp(x: real): (c: real)
    ensures 0.0 <= c <= 1.0
    ensures 0.0 <= x <= 1.0 ==> c == x
    ensures x < 0.0 ==> c == 0.0
    ensures x > 1.0 ==> c == 1.0
  {
    if x > 1.0 then 1.0 else if x < 0.0 then 0.0 else x
  }

  /** The reward for a status and a whole number of elapsed milliseconds. */
  function Reward(status: int, ms: int): (r: real)
    ensures 0.0 <= r <= 1.0
    ensures status != StatusOK ==> r == 0.0
    ensures status == StatusOK && ms <= 0 ==> r == 1.0
    ensures status == StatusOK && ms >= 1000 ==> r == 0.0
    ensures status == StatusOK && 0 <= ms <= 1000 ==> r == 1.0 - ms as real / 1000.0
  {
    if status == StatusOK then Clamp(1.0 - ms as real / 1000.0) else 0.0
  }

  /** A slower answer never earns more. */
  lemma RewardMonotone(status: int, ms1: int, ms2: int)
    requires ms1 <= ms2
    ensures Reward(status, ms2) <= Reward(status, ms1)
  {
    if status == StatusOK {
      assert ms1 as real / 1000.0 <= ms2 as real / 1000.0;
    }
  }

  /** The reward the request step computes from a status code and an
      elapsed duration in nanoseconds. Against the exact elapsed seconds,
      truncating to milliseconds can only raise a successful answer's reward,
      and by less than a thousandth. */
  function OutcomeReward(status: int, elapsed: int): (r: real)
    ensures 0.0 <= r <= 1.0
    ensures status != StatusOK ==> r == 0.0
    ensures status == StatusOK && 0 <= elapsed < NanosPerMilli ==> r == 1.0
    ensures status == StatusOK && elapsed >= 1000 * NanosPerMilli ==> r == 0.0
    ensures status == StatusOK && elapsed >= 0 ==>
              Clamp(1.0 - elapsed as real / 1_000_000_000.0) <= r
              && r < Clamp(1.0 - elapsed as real / 1_000_000_000.0) + 0.001
  {
    TruncationGap(elapsed);
    Reward(status, Milliseconds(elapsed))
  }

  /** Whole milliseconds, read as seconds, fall short of the exact seconds
      of a non-negative duration by less than a thousandth. */
  lemma TruncationGap(d: int)
    ensures d >= 0 ==>
              Milliseconds(d) as real / 1000.0 <= d as real / 1_000_000_000.0
              && d as real / 1_000_000_000.0 < Milliseconds(d) as real / 1000.0 + 0.001
  {
    if d >= 0 {
      var ms := Milliseconds(d);
      assert (ms * NanosPerMilli) as real <= d as real < ((ms + 1) * NanosPerMilli) as real;
    }
  }

  /** The step's reward is non-increasing in the elapsed duration. */
  lemma OutcomeRewardMonotone(status: int, d1: int, d2: int)
    requires d1 <= d2
    ensures OutcomeReward(status, d2) <= OutcomeReward(status, d1)
  {
    MillisecondsMonotone(d1, d2);
    RewardMonotone(status, Milliseconds(d1), Milliseconds(d2));
  }
}
