// security/device_mismatch_throttle.py: the lockout policy again, kept per
// protected file in one in-memory dictionary.

module Throttle {
  import opened Results
  import opened Lockout

  type Counters = map<string, LockState>

  /** A file never seen has the counters of a fresh account. */
  function StateOf(c: Counters, fileId: string): LockState {
    if fileId in c then c[fileId] else Clear
  }

  function AfterMismatch(c: Counters, fileId: string, now: Instant): Counters {
    c[fileId := AfterFailure(StateOf(c, fileId), now)]
  }

  function AfterMatch(c: Counters, fileId: string): Counters {
    if fileId in c then c[fileId := Clear] else c
  }

  class DeviceMismatchThrottle {
    var state: Counters

    constructor ()
      ensures state == map[]
    {
      state := map[];
    }

    method IsLocked(fileId: string, now: Instant) returns (locked: bool)
      ensures locked == Locked(StateOf(state, fileId), now)
    {
      if fileId !in state || state[fileId].lockedUntil == None {
        return false;
      }
      return now < state[fileId].lockedUntil.value;
    }

    method RemainingSeconds(fileId: string, now: Instant) returns (seconds: nat)
      ensures seconds == SecondsRemaining(StateOf(state, fileId), now)
      ensures fileId in state && state[fileId].lockedUntil.Some? && now <= state[fileId].lockedUntil.value ==>
                seconds * SECOND <= state[fileId].lockedUntil.value - now < (seconds + 1) * SECOND
      ensures fileId !in state || state[fileId].lockedUntil.None? ==> seconds == 0
    {
      if fileId !in state || state[fileId].lockedUntil == None {
        return 0;
      }
      var until := state[fileId].lockedUntil.value;
      if until < now {
        return 0;
      }
      return (until - now) / SECOND;
    }

    method RegisterMismatch(fileId: string, now: Instant)
      modifies this
      ensures state == AfterMismatch(old(state), fileId, now)
      ensures state - {fileId} == old(state) - {fileId}
    {
      if fileId !in state {
        state := state[fileId := Clear];
      }
      var s := state[fileId];
      s := s.(failures := s.failures + 1);
      if s.failures >= MAX_FAILED_ATTEMPTS {
        s := s.(lockedUntil := Some(now + LockoutSeconds(s.failures) * SECOND));
      }
      state := state[fileId := s];
    }

    method RegisterSuccess(fileId: string)
      modifies this
      ensures state == AfterMatch(old(state), fileId)
      ensures state.Keys == old(state).Keys && state - {fileId} == old(state) - {fileId}
    {
      if fileId in state {
        state := state[fileId := Clear];
      }
    }
  }

  // ---- Refinement: per file, the throttle is the account lockout ----------

  /** What one access attempt does to the throttle: its lock is read, and an attempt
      let through is either a mismatch or a match, or fails for another reason. */
  datatype Event = Event(fileId: string, checkedAt: Instant, recordedAt: Instant, verdict: Verdict)
  datatype Verdict = Mismatch | Match | Unrelated

  function Apply(c: Counters, e: Event): Counters {
    if Locked(StateOf(c, e.fileId), e.checkedAt) then c
    else match e.verdict
      case Mismatch => AfterMismatch(c, e.fileId, e.recordedAt)
      case Match => AfterMatch(c, e.fileId)
      case Unrelated => c
  }

  function Replay(h: seq<Event>): Counters {
    if h == [] then map[] else Apply(Replay(h[..|h| - 1]), h[|h| - 1])
  }

  /** The guesses one file's events amount to. */
  function GuessesFor(h: seq<Event>, fileId: string): seq<Guess> {
    if h == [] then []
    else
      var before, e := GuessesFor(h[..|h| - 1], fileId), h[|h| - 1];
      if e.fileId != fileId || e.verdict == Unrelated then before
      else before + [Guess(e.checkedAt, e.recordedAt, e.verdict == Match)]
  }

  /** After any interleaving of events over any files, the state kept for a file is
      that of the account lockout run on this file's own matches and mismatches. */
  lemma {:induction false} ThrottleRefinesLockout(h: seq<Event>, fileId: string)
    ensures StateOf(Replay(h), fileId) == Run(GuessesFor(h, fileId))
  {
    if h != [] {
      var before, e := h[..|h| - 1], h[|h| - 1];
      ThrottleRefinesLockout(before, fileId);
      var g := GuessesFor(h, fileId);
      if e.fileId == fileId && e.verdict != Unrelated {
        assert g[..|g| - 1] == GuessesFor(before, fileId);
      }
    }
  }

  ghost predicate ClockedEvents(h: seq<Event>) {
    && (forall i :: 0 <= i < |h| ==> h[i].checkedAt <= h[i].recordedAt)
    && (forall i, j :: 0 <= i < j < |h| ==> h[i].recordedAt <= h[j].checkedAt)
  }

  lemma {:induction false} GuessesAreClocked(h: seq<Event>, fileId: string)
    requires ClockedEvents(h)
    ensures Clocked(GuessesFor(h, fileId))
    ensures forall g :: g in GuessesFor(h, fileId) ==> exists i :: 0 <= i < |h| && h[i].recordedAt == g.recordedAt
  {
    if h != [] {
      var before, e := h[..|h| - 1], h[|h| - 1];
      GuessesAreClocked(before, fileId);
      var g := GuessesFor(before, fileId);
      forall i | 0 <= i < |g| ensures g[i].recordedAt <= e.checkedAt {
        assert g[i] in g;
      }
    }
  }

  /** Hence probing one file with many devices obeys the same guess-rate bound,
      whatever is attempted on other files in between. */
  lemma ProbeRateBound(h: seq<Event>, fileId: string, n: nat)
    requires ClockedEvents(h) && 5 <= n <= |FailureTimes(GuessesFor(h, fileId))|
    ensures var t := FailureTimes(GuessesFor(h, fileId));
            && t[4] + LeastGap(n) * SECOND <= t[n - 1]
            && (n >= 12 ==> t[4] + (3810 + 3600 * (n - 12)) * SECOND <= t[n - 1])
  {
    GuessesAreClocked(h, fileId);
    CountersFollowFailures(GuessesFor(h, fileId));
    SpacedBound(FailureTimes(GuessesFor(h, fileId)), n);
    DoublingSum(12);
  }
}
