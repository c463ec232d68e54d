// metadata/controller.py: reading a record, enforcing its policy, and counting
// accesses.

module Controller {
  import opened Results
  import opened ByteStrings
  import opened DeviceIdentity
  import opened MacInputs
  import opened Metadata
  import opened Validation

  datatype MetadataError = NotFound | Tampered | Invalid | PolicyViolation

  function ReadFrom(row: Option<Envelope>, keys: ProtectionKeys): Result<Record, MetadataError> {
    if row.None? then Failure(NotFound)
    else match Unprotect(keys, row.value)
      case None => Failure(Tampered)
      case Some(m) => if StructurallyValid(m) then Success(m) else Failure(Invalid)
  }

  predicate PolicyAllows(m: Record, now: Instant) {
    && !(m.expiry.expiresAt.Some? && now > m.expiry.expiresAt.value)
    && !(m.expiry.maxAccessCount.Some? && m.accessCount >= m.expiry.maxAccessCount.value)
    && !(m.oneTimeAccess && m.accessCount >= 1)
  }

  /** The record after one counted access; the policy and the stamp read the clock separately. */
  function Accessed(m: Record, policyAt: Instant, stampedAt: Instant): Result<Record, MetadataError> {
    if !PolicyAllows(m, policyAt) then Failure(PolicyViolation)
    else
      var n := m.(accessCount := m.accessCount + 1, lastAccessedAt := Some(stampedAt));
      if StructurallyValid(n) then Success(n) else Failure(Invalid)
  }

  class MetadataController {
    const repository: MetadataRepository
    const keys: ProtectionKeys

    constructor (repository: MetadataRepository, keys: ProtectionKeys)
      ensures this.repository == repository && this.keys == keys
    {
      this.repository := repository;
      this.keys := keys;
    }

    method Read(fileId: string) returns (r: Result<Record, MetadataError>)
      ensures r == ReadFrom(Lookup(repository.rows, fileId), keys)
    {
      var row := repository.Load(fileId);
      if row.None? {
        return Failure(NotFound);
      }
      var m := Unprotect(keys, row.value);
      if m.None? {
        return Failure(Tampered);
      }
      return if StructurallyValid(m.value) then Success(m.value) else Failure(Invalid);
    }

    /** Nothing is saved unless the access is allowed and the new record is valid. */
    method RecordAccess(fileId: string, policyAt: Instant, stampedAt: Instant)
      returns (r: Result<Record, MetadataError>)
      modifies repository
      ensures var before := old(ReadFrom(Lookup(repository.rows, fileId), keys));
              && r == (if before.Failure? then before else Accessed(before.value, policyAt, stampedAt))
              && repository.rows ==
                 (if r.Success? then old(repository.rows)[r.value.fileId := Protect(keys, r.value)]
                  else old(repository.rows))
    {
      r := Read(fileId);
      if r.Failure? {
        return;
      }
      var m := r.value;
      if !PolicyAllows(m, policyAt) {
        return Failure(PolicyViolation);
      }
      m := m.(accessCount := m.accessCount + 1);
      m := m.(lastAccessedAt := Some(stampedAt));
      if !StructurallyValid(m) {
        return Failure(Invalid);
      }
      repository.Save(Protect(keys, m));
      return Success(m);
    }
  }

  /** At the same instant, the read-only engine's three policy checks all pass exactly when
      enforcing the policy raises nothing. */
  lemma EngineAndControllerAgree(m: Record, bytes: FileBytes, r: Reading, now: Instant)
    ensures var c := RecordChecks(m, bytes, r, now);
            c[Expiry] && c[AccessCount] && c[ReusedAccess] <==> PolicyAllows(m, now)
  {
    DeviceChecksAreDeviceChecks(m.binding, r);
  }

  /** Exactly when counting an access to a valid record succeeds, what it changes, and which
      error it is otherwise. */
  lemma AccessSucceedsExactly(m: Record, policyAt: Instant, stampedAt: Instant)
    requires StructurallyValid(m)
    ensures var r := Accessed(m, policyAt, stampedAt);
            var allowed := && (m.expiry.expiresAt.Some? ==> policyAt <= m.expiry.expiresAt.value)
                           && (m.expiry.maxAccessCount.Some? ==> m.accessCount < m.expiry.maxAccessCount.value)
                           && (m.oneTimeAccess ==> m.accessCount == 0);
            && (r.Success? <==> allowed && stampedAt >= m.createdAt)
            && (r == Failure(PolicyViolation) <==> !allowed)
            && (r == Failure(Invalid) <==> allowed && stampedAt < m.createdAt)
            && (r.Success? ==>
                  r.value == m.(accessCount := r.value.accessCount, lastAccessedAt := Some(stampedAt))
                  && r.value.accessCount == m.accessCount + 1)
  {}

  // ---- Any sequence of accesses ---------------------------------------------------

  datatype Clocks = Clocks(policyAt: Instant, stampedAt: Instant)

  /** The record after these calls, and how many of them succeeded. */
  function AfterAccesses(m: Record, calls: seq<Clocks>): (r: (Record, nat)) {
    if calls == [] then (m, 0)
    else
      var (before, successes) := AfterAccesses(m, calls[..|calls| - 1]);
      var c := calls[|calls| - 1];
      match Accessed(before, c.policyAt, c.stampedAt)
      case Success(n) => (n, successes + 1)
      case Failure(_) => (before, successes)
  }

  /** From a new record, any sequence of calls keeps the count equal to the number of
      successes, never above the limit and never above one for a one-time file; nothing but
      the count and the stamp changes. */
  lemma {:induction false} CountIsExact(m: Record, calls: seq<Clocks>)
    requires m.accessCount == 0
    ensures var (n, successes) := AfterAccesses(m, calls);
            && n == m.(accessCount := successes, lastAccessedAt := n.lastAccessedAt)
            && (m.expiry.maxAccessCount.Some? && successes > 0 ==> successes <= m.expiry.maxAccessCount.value)
            && (m.oneTimeAccess ==> successes <= 1)
            && (successes == |calls| > 0 ==> n.lastAccessedAt == Some(calls[|calls| - 1].stampedAt))
            && (successes == 0 ==> n.lastAccessedAt == m.lastAccessedAt)
            && successes <= |calls|
  {
    if calls != [] {
      CountIsExact(m, calls[..|calls| - 1]);
    }
  }

  /** A record protected under some keys reads back under those alone, and only while valid. */
  lemma ReadsOwnRecords(m: Record, keys: ProtectionKeys, other: ProtectionKeys)
    ensures ReadFrom(None, other) == Failure(NotFound)
    ensures ReadFrom(Some(Protect(keys, m)), other) ==
            if other != keys then Failure(Tampered) else if StructurallyValid(m) then Success(m) else Failure(Invalid)
  {}

  /** How many accesses the record's rules allow at all; none means no limit. */
  function Limit(m: Record): Option<int> {
    if m.oneTimeAccess then
      Some(if m.expiry.maxAccessCount.Some? && m.expiry.maxAccessCount.value < 1 then m.expiry.maxAccessCount.value else 1)
    else m.expiry.maxAccessCount
  }

  /** Before expiry and under a sane clock every call succeeds until the limit is reached, and
      none after: the count is exactly the smaller of the calls and the limit. */
  lemma {:induction false} CountReachesTheLimit(m: Record, calls: seq<Clocks>)
    requires m.accessCount == 0 && StructurallyValid(m)
    requires forall c :: c in calls ==>
               (m.expiry.expiresAt.Some? ==> c.policyAt <= m.expiry.expiresAt.value) && c.stampedAt >= m.createdAt
    ensures AfterAccesses(m, calls).1 ==
            if Limit(m).None? || |calls| <= Limit(m).value then |calls|
            else if Limit(m).value > 0 then Limit(m).value else 0
    ensures StructurallyValid(AfterAccesses(m, calls).0)
  {
    if calls != [] {
      var before := calls[..|calls| - 1];
      assert calls[|calls| - 1] in calls && forall c :: c in before ==> c in calls;
      CountReachesTheLimit(m, before);
      CountIsExact(m, before);
    }
  }
}
