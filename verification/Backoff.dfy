/** The retry schedule: how long to wait before an attempt, and when to give up. */
module Backoffs {
  import opened Options

  /** Times in seconds. `jitter` is the fraction of a delay that is drawn. */
  datatype Schedule = Schedule(base: real, factor: real, maxDelay: real, maxAttempts: nat, jitter: real)

  /** Durations are not negative. */
  predicate IsSchedule(s: Schedule) {
    s.base >= 0.0 && s.maxDelay >= 0.0
  }

  function Least(a: real, b: real): real {
    if a < b then a else b
  }

  function Growth(factor: real, n: nat): real {
    if n == 0 then 1.0 else factor * Growth(factor, n - 1)
  }

  /** The backoff before attempt `attempt + 1`, jitter and cap aside. */
  function Uncapped(s: Schedule, attempt: nat): real
    requires attempt >= 1
  {
    s.base * Growth(s.factor, attempt - 1)
  }

  /** The backoff before attempt `attempt + 1`, jitter aside. */
  function Longest(s: Schedule, attempt: nat): real
    requires attempt >= 1
  {
    Least(Uncapped(s, attempt), s.maxDelay)
  }

  function Clamped(jitter: real): real {
    if jitter < 0.0 then 0.0 else if jitter > 1.0 then 1.0 else jitter
  }

  /** The part of a backoff that is not drawn. */
  function Shortest(s: Schedule, attempt: nat): real
    requires attempt >= 1
  {
    Longest(s, attempt) * (1.0 - Clamped(s.jitter))
  }

  /** Milliseconds to wait after so many attempts; `draw` is what the random source
      gave, between zero and one. None once the attempts are used up. */
  function Delay(s: Schedule, attempt: nat, draw: real): Option<nat>
    requires IsSchedule(s) && 0.0 <= draw <= 1.0
  {
    if attempt == 0 then Some(0)
    else if attempt >= s.maxAttempts then None
    else
      var spread := Longest(s, attempt) - Shortest(s, attempt);
      var chosen := Shortest(s, attempt) + if spread > 0.0 then draw * spread else 0.0;
      Some((if chosen > 0.0 then chosen * 1000.0 else 0.0).Floor)
  }

  lemma {:induction false} GrowthIsPositive(factor: real, n: nat)
    requires factor >= 0.0
    ensures Growth(factor, n) >= 0.0
  {
    if n > 0 {
      GrowthIsPositive(factor, n - 1);
    }
  }

  lemma UncappedIsPositive(s: Schedule, attempt: nat)
    requires IsSchedule(s) && s.factor >= 0.0 && attempt >= 1
    ensures Uncapped(s, attempt) >= 0.0
  {
    GrowthIsPositive(s.factor, attempt - 1);
  }

  lemma ShareIsLess(x: real, part: real)
    requires x >= 0.0 && 0.0 <= part <= 1.0
    ensures 0.0 <= x * part <= x
  {
  }

  lemma LongestIsDelay(s: Schedule, attempt: nat)
    requires IsSchedule(s) && s.factor >= 0.0 && attempt >= 1
    ensures 0.0 <= Shortest(s, attempt) <= Longest(s, attempt) <= s.maxDelay
  {
    UncappedIsPositive(s, attempt);
    hide Uncapped;
    ShareIsLess(Longest(s, attempt), 1.0 - Clamped(s.jitter));
  }

  lemma DrawIsBetween(spread: real, draw: real)
    requires spread >= 0.0 && 0.0 <= draw <= 1.0
    ensures 0.0 <= draw * spread <= spread
  {
    ShareIsLess(spread, draw);
    assert draw * spread == spread * draw;
  }

  lemma FloorGrows(a: real, b: real)
    requires a <= b
    ensures a.Floor <= b.Floor
  {
  }

  /** There is no delay exactly when the attempts are used up. One there is lies
      between the undrawn part and the whole of the backoff, which is never over
      its cap. */
  lemma DelayIsBounded(s: Schedule, attempt: nat, draw: real)
    requires IsSchedule(s) && 0.0 <= draw <= 1.0 && attempt >= 1
    ensures Delay(s, attempt, draw).None? <==> attempt >= s.maxAttempts
    ensures Delay(s, attempt, draw).Some? && s.factor >= 0.0 ==>
              && (Shortest(s, attempt) * 1000.0).Floor <= Delay(s, attempt, draw).value
              && Delay(s, attempt, draw).value as real <= Longest(s, attempt) * 1000.0
              && Longest(s, attempt) <= s.maxDelay
  {
    hide Longest, Shortest;
    if attempt < s.maxAttempts && s.factor >= 0.0 {
      LongestIsDelay(s, attempt);
      var low, high := Shortest(s, attempt), Longest(s, attempt);
      var spread := high - low;
      DrawIsBetween(spread, draw);
      var chosen := low + if spread > 0.0 then draw * spread else 0.0;
      FloorGrows(low * 1000.0, if chosen > 0.0 then chosen * 1000.0 else 0.0);
    }
  }

  /** The first retry waits for the base, each further one `factor` times as long,
      up to the cap. */
  lemma BackoffGrows(s: Schedule, attempt: nat)
    requires IsSchedule(s) && attempt >= 1
    ensures Longest(s, 1) == Least(s.base, s.maxDelay)
    ensures s.factor >= 1.0 ==>
              Longest(s, attempt + 1) == Least(Longest(s, attempt) * s.factor, s.maxDelay)
  {
    UncappedStarts(s);
    hide Uncapped;
    if s.factor >= 1.0 {
      UncappedGrows(s, attempt);
      UncappedIsPositive(s, attempt);
      CapIsKept(Uncapped(s, attempt), s.factor, s.maxDelay);
    }
  }

  lemma UncappedStarts(s: Schedule)
    ensures Uncapped(s, 1) == s.base
  {
    assert Growth(s.factor, 0) == 1.0;
  }

  lemma UncappedGrows(s: Schedule, attempt: nat)
    requires attempt >= 1
    ensures Uncapped(s, attempt + 1) == Uncapped(s, attempt) * s.factor
  {
    var growth := Growth(s.factor, attempt - 1);
    assert Growth(s.factor, attempt) == s.factor * growth;
    hide Growth;
    assert s.base * (s.factor * growth) == s.base * growth * s.factor;
  }

  lemma CapIsKept(x: real, factor: real, cap: real)
    requires x >= 0.0 && factor >= 1.0 && cap >= 0.0
    ensures Least(x * factor, cap) == Least(Least(x, cap) * factor, cap)
  {
    if x >= cap {
      ScaledIsMore(x, factor);
      ScaledIsMore(cap, factor);
    }
  }

  lemma ScaledIsMore(x: real, factor: real)
    requires x >= 0.0 && factor >= 1.0
    ensures x * factor >= x
  {
    assert x * factor == x + x * (factor - 1.0);
  }

  /** Without jitter the delay is the backoff; with full jitter any delay up to it
      is drawn. */
  lemma JitterIsTheDrawnPart(s: Schedule, attempt: nat)
    requires IsSchedule(s) && attempt >= 1
    ensures s.jitter <= 0.0 ==> Shortest(s, attempt) == Longest(s, attempt)
    ensures s.jitter >= 1.0 ==> Shortest(s, attempt) == 0.0
  {
  }
}
