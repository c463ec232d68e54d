// security/lockout_policy.py: escalating lockout after repeated failures, and
// the rate at which guesses can be made against it.

module Lockout {
  import opened Results

  const MAX_FAILED_ATTEMPTS: nat := 5
  const BASE_LOCKOUT_SECONDS: nat := 30
  const MAX_LOCKOUT_SECONDS: nat := 3600

  /** The two counters a lockout decision depends on. */
  datatype LockState = LockState(failures: nat, lockedUntil: Option<Instant>)

  const Clear := LockState(0, None)

  function Pow2(n: nat): (p: nat)
    ensures p >= 1
  {
    if n == 0 then 1 else 2 * Pow2(n - 1)
  }

  function LockoutSeconds(failures: nat): nat
    requires failures >= MAX_FAILED_ATTEMPTS
  {
    var doubled := BASE_LOCKOUT_SECONDS * Pow2(failures - MAX_FAILED_ATTEMPTS);
    if doubled < MAX_LOCKOUT_SECONDS then doubled else MAX_LOCKOUT_SECONDS
  }

  predicate Locked(s: LockState, now: Instant) {
    s.lockedUntil.Some? && now < s.lockedUntil.value
  }

  function SecondsRemaining(s: LockState, now: Instant): nat {
    if Locked(s, now) then (s.lockedUntil.value - now) / SECOND else 0
  }

  function AfterFailure(s: LockState, now: Instant): LockState {
    var n := s.failures + 1;
    if n >= MAX_FAILED_ATTEMPTS
    then LockState(n, Some(now + LockoutSeconds(n) * SECOND))
    else LockState(n, s.lockedUntil)
  }

  // ---- Histories of guesses against one counter ---------------------------

  /** One guess: the lock is read at checkedAt and, if it lets the guess through,
      the result is recorded at recordedAt. */
  datatype Guess = Guess(checkedAt: Instant, recordedAt: Instant, correct: bool)

  /** The clock never runs backwards, within a guess or between guesses. */
  ghost predicate Clocked(h: seq<Guess>) {
    && (forall i :: 0 <= i < |h| ==> h[i].checkedAt <= h[i].recordedAt)
    && (forall i, j :: 0 <= i < j < |h| ==> h[i].recordedAt <= h[j].checkedAt)
  }

  function Step(s: LockState, g: Guess): LockState {
    if Locked(s, g.checkedAt) then s
    else if g.correct then Clear
    else AfterFailure(s, g.recordedAt)
  }

  function Run(h: seq<Guess>): LockState {
    if h == [] then Clear else Step(Run(h[..|h| - 1]), h[|h| - 1])
  }

  /** When each failure since the last success was counted; rejected guesses are not. */
  function FailureTimes(h: seq<Guess>): seq<Instant> {
    if h == [] then []
    else
      var before, g := h[..|h| - 1], h[|h| - 1];
      if Locked(Run(before), g.checkedAt) then FailureTimes(before)
      else if g.correct then []
      else FailureTimes(before) + [g.recordedAt]
  }

  // ---- The guess-rate bound -----------------------------------------------

  ghost predicate Spaced(t: seq<Instant>) {
    forall i :: MAX_FAILED_ATTEMPTS <= i < |t| ==> t[i - 1] + LockoutSeconds(i) * SECOND <= t[i]
  }

  lemma SpacedAppend(t: seq<Instant>, x: Instant)
    requires Spaced(t)
    requires |t| >= MAX_FAILED_ATTEMPTS ==> t[|t| - 1] + LockoutSeconds(|t|) * SECOND <= x
    ensures Spaced(t + [x])
  {}

  /** The counters are exactly what the counted failures say, and each counted
      failure waited out the lockout the one before it set. */
  lemma {:induction false} CountersFollowFailures(h: seq<Guess>)
    requires Clocked(h)
    ensures var s, t := Run(h), FailureTimes(h);
            && s.failures == |t|
            && (|t| < MAX_FAILED_ATTEMPTS ==> s.lockedUntil == None)
            && (|t| >= MAX_FAILED_ATTEMPTS ==>
                  s.lockedUntil == Some(t[|t| - 1] + LockoutSeconds(|t|) * SECOND))
            && Spaced(t)
  {
    if h != [] {
      var before, g := h[..|h| - 1], h[|h| - 1];
      CountersFollowFailures(before);
      if !Locked(Run(before), g.checkedAt) && !g.correct {
        SpacedAppend(FailureTimes(before), g.recordedAt);
      }
    }
  }

  lemma {:induction false} DoublingSum(n: nat)
    requires 5 <= n <= 12
    ensures n < 12 ==> LockoutSeconds(n) == 30 * Pow2(n - 5)
    ensures n == 12 ==> 30 * (Pow2(7) - 1) == 3810
  {
    assert Pow2(7) == 128 by { assert Pow2(3) == 8; assert Pow2(5) == 32; }
    if n > 5 { DoublingSum(n - 1); }
    if n < 12 { Pow2Grows(n - 5, 6); assert Pow2(6) == 64 by { assert Pow2(3) == 8; } }
  }

  lemma {:induction false} Pow2Grows(a: nat, b: nat)
    requires a <= b
    ensures Pow2(a) <= Pow2(b)
  {
    if a < b { Pow2Grows(a, b - 1); }
  }

  lemma {:induction false} CappedAtOneHour(n: nat)
    requires n >= 12
    ensures LockoutSeconds(n) == MAX_LOCKOUT_SECONDS
  {
    Pow2Grows(7, n - 5);
    DoublingSum(12);
    assert Pow2(7) >= 128;
  }

  /** Least number of seconds between the fifth and the n-th counted failure. */
  function LeastGap(n: nat): nat
    requires n >= 5
  {
    if n <= 12 then 30 * (Pow2(n - 5) - 1) else 3810 + 3600 * (n - 12)
  }

  lemma LeastGapStep(n: nat)
    requires n >= 5
    ensures LeastGap(n + 1) == LeastGap(n) + LockoutSeconds(n)
  {
    if n < 12 { DoublingSum(n); } else { CappedAtOneHour(n); DoublingSum(12); }
  }

  lemma {:induction false} SpacedBound(t: seq<Instant>, n: nat)
    requires Spaced(t) && 5 <= n <= |t|
    ensures t[4] + LeastGap(n) * SECOND <= t[n - 1]
  {
    if n > 5 {
      SpacedBound(t, n - 1);
      LeastGapStep(n - 1);
    }
  }

  /** However guesses are timed, the n-th failure since the last success is counted at
      least 30*(2^(n-5)-1) seconds after the fifth (n <= 12), and at least
      3810 + 3600*(n-12) seconds after it from the twelfth on. */
  lemma GuessRateBound(h: seq<Guess>, n: nat)
    requires Clocked(h) && 5 <= n <= |FailureTimes(h)|
    ensures var t := FailureTimes(h);
            && (n <= 12 ==> t[4] + 30 * (Pow2(n - 5) - 1) * SECOND <= t[n - 1])
            && (n >= 12 ==> t[4] + (3810 + 3600 * (n - 12)) * SECOND <= t[n - 1])
  {
    CountersFollowFailures(h);
    SpacedBound(FailureTimes(h), n);
    DoublingSum(12);
  }

  // ---- The bound is attained ----------------------------------------------

  /** Microseconds after the start at which a relentless guesser makes guess n. */
  function Due(n: nat): nat {
    if n <= 5 then 0 else LeastGap(n) * SECOND
  }

  /** A guesser who tries again at the very instant each lockout ends. */
  function RelentlessGuesses(start: Instant, n: nat): seq<Guess> {
    if n == 0 then []
    else RelentlessGuesses(start, n - 1) + [Guess(start + Due(n), start + Due(n), false)]
  }

  lemma DueStep(n: nat)
    ensures Due(n) <= Due(n + 1)
    ensures n >= 5 ==> Due(n + 1) == Due(n) + LockoutSeconds(n) * SECOND
  {
    if n >= 5 { LeastGapStep(n); }
  }

  lemma {:induction false} RelentlessIsClocked(start: Instant, n: nat)
    ensures var h := RelentlessGuesses(start, n);
            && |h| == n && Clocked(h)
            && (forall i :: 0 <= i < n ==> h[i].recordedAt <= start + Due(n))
  {
    if n > 0 {
      RelentlessIsClocked(start, n - 1);
      DueStep(n - 1);
    }
  }

  lemma CountedIfUnlocked(h: seq<Guess>, g: Guess)
    requires !Locked(Run(h), g.checkedAt) && !g.correct
    ensures FailureTimes(h + [g]) == FailureTimes(h) + [g.recordedAt]
  {
    assert (h + [g])[..|h|] == h;
  }

  /** Every one of those guesses is counted, the n-th exactly at the bound. */
  lemma {:induction false} BoundIsTight(start: Instant, n: nat)
    ensures var h := RelentlessGuesses(start, n);
            && Clocked(h) && |FailureTimes(h)| == n
            && (n >= 1 ==> FailureTimes(h)[n - 1] == start + Due(n))
  {
    hide LeastGap, LockoutSeconds, Pow2;
    RelentlessIsClocked(start, n);
    if n > 0 {
      BoundIsTight(start, n - 1);
      DueStep(n - 1);
      var before := RelentlessGuesses(start, n - 1);
      CountersFollowFailures(before);
      CountedIfUnlocked(before, Guess(start + Due(n), start + Due(n), false));
    }
  }
}
