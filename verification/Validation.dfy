// validation/validation_engine.py, the trigger mapping of
// usb/secure_access_service.py and the policy side of metadata/controller.py.

module Validation {
  import opened Results
  import opened ByteStrings
  import opened KeyWrapping
  import opened DeviceIdentity
  import opened MacInputs
  import opened Metadata

  function WithinExpiry(m: Record, now: Instant): bool {
    m.expiry.expiresAt.Some? ==> now <= m.expiry.expiresAt.value
  }

  function WithinCount(m: Record): bool {
    m.expiry.maxAccessCount.Some? ==> m.accessCount < m.expiry.maxAccessCount.value
  }

  function NotReused(m: Record): bool {
    m.oneTimeAccess ==> m.accessCount < 1
  }

  const CONTENT_NAMES: set<Check> :=
    {MetadataPresent, Hmac, MetadataIntegrity, FileIntegrity, Expiry, AccessCount, ReusedAccess}

  /** The checks on a readable record that do not concern the device or machine. */
  function ContentChecks(m: Record, bytes: FileBytes, now: Instant): (c: Checks)
    ensures c.Keys == CONTENT_NAMES
  {
    map[MetadataPresent := true,
        Hmac := true,
        MetadataIntegrity := StructurallyValid(m),
        FileIntegrity := m.integrityHash == Sha256(bytes),
        Expiry := WithinExpiry(m, now),
        AccessCount := WithinCount(m),
        ReusedAccess := NotReused(m)]
  }

  /** Every check run on a record that could be read. */
  function RecordChecks(m: Record, bytes: FileBytes, r: Reading, now: Instant): Checks {
    ContentChecks(m, bytes, now) + DeviceChecks(m.binding, r)
  }

  /** The checks a validation reports for a stored row, under the keys presented. */
  function ChecksFor(row: Option<Envelope>, keys: ProtectionKeys, bytes: FileBytes, r: Reading, now: Instant): Checks {
    if row.None? then map[MetadataPresent := false]
    else match Unprotect(keys, row.value)
      case None => map[MetadataPresent := true, Hmac := false]
      case Some(m) => RecordChecks(m, bytes, r, now)
  }

  function RecordIn(row: Option<Envelope>, keys: ProtectionKeys): Option<Record> {
    if row.None? then None else Unprotect(keys, row.value)
  }

  class ValidationReport {
    var ok: bool
    var checks: Checks
    var metadata: FileMetadata?

    constructor ()
      ensures ok == AllTrue(checks) && checks == map[] && metadata == null
    {
      ok := true;
      checks := map[];
      metadata := null;
    }

    method Add(name: Check, passed: bool)
      modifies this`ok, this`checks
      ensures checks == old(checks)[name := passed] && ok == (old(ok) && passed)
      ensures name !in old(checks) && old(ok) == AllTrue(old(checks)) ==> ok == AllTrue(checks)
    {
      if name !in checks {
        OneMoreCheck(checks, name, passed);
      }
      checks := checks[name := passed];
      if !passed {
        ok := false;
      }
    }
  }

  class ValidationEngine {
    const repository: MetadataRepository
    const keys: ProtectionKeys
    const validator: DeviceBindingValidator

    constructor (repository: MetadataRepository, keys: ProtectionKeys)
      ensures this.repository == repository && this.keys == keys
    {
      this.repository := repository;
      this.keys := keys;
      this.validator := new DeviceBindingValidator();
    }

    /** Runs every check; the report is ok exactly when every recorded check is true. */
    method Validate(fileId: string, bytes: FileBytes, r: Reading, now: Instant) returns (report: ValidationReport)
      ensures fresh(report) && (report.metadata != null ==> fresh(report.metadata))
      ensures report.checks == ChecksFor(Lookup(repository.rows, fileId), keys, bytes, r, now)
      ensures report.ok == AllTrue(report.checks)
      ensures var m := RecordIn(Lookup(repository.rows, fileId), keys);
              (report.metadata != null <==> m.Some?) && (m.Some? ==> report.metadata.data == m.value)
    {
      hide DeviceChecks, ContentChecks, StructurallyValid, AllTrue;
      report := new ValidationReport();
      var row := repository.Load(fileId);
      if row.None? {
        report.Add(MetadataPresent, false);
        return;
      }
      report.Add(MetadataPresent, true);
      var m := Unprotect(keys, row.value);
      if m.None? {
        report.Add(Hmac, false);
        return;
      }
      report.Add(Hmac, true);
      report.metadata := new FileMetadata(m.value);
      ValidateContent(report, m.value, bytes, now);
      var binding := validator.Validate(m.value.binding, r);
      DeviceChecksAreDeviceChecks(m.value.binding, r);
      CopyChecks(report, binding);
    }

    method ValidateContent(report: ValidationReport, m: Record, bytes: FileBytes, now: Instant)
      requires report.checks == map[MetadataPresent := true, Hmac := true]
      requires report.ok == AllTrue(report.checks)
      modifies report`ok, report`checks
      ensures report.checks == ContentChecks(m, bytes, now)
      ensures report.ok == AllTrue(report.checks)
    {
      report.Add(MetadataIntegrity, StructurallyValid(m));
      report.Add(FileIntegrity, m.integrityHash == Sha256(bytes));
      ValidatePolicy(report, m, now);
    }

    method ValidatePolicy(report: ValidationReport, m: Record, now: Instant)
      requires report.ok == AllTrue(report.checks)
      requires report.checks.Keys !! {Expiry, AccessCount, ReusedAccess}
      modifies report`ok, report`checks
      ensures report.checks == old(report.checks)[Expiry := WithinExpiry(m, now)][AccessCount := WithinCount(m)]
                                                 [ReusedAccess := NotReused(m)]
      ensures report.ok == AllTrue(report.checks)
    {
      if m.expiry.expiresAt.Some? {
        report.Add(Expiry, !(now > m.expiry.expiresAt.value));
      } else {
        report.Add(Expiry, true);
      }
      if m.expiry.maxAccessCount.Some? {
        report.Add(AccessCount, m.accessCount < m.expiry.maxAccessCount.value);
      } else {
        report.Add(AccessCount, true);
      }
      if m.oneTimeAccess {
        report.Add(ReusedAccess, m.accessCount < 1);
      } else {
        report.Add(ReusedAccess, true);
      }
    }

    method CopyChecks(report: ValidationReport, binding: DeviceBindingResult)
      requires report.ok == AllTrue(report.checks)
      requires report.checks.Keys !! binding.checks.Keys
      modifies report`ok, report`checks
      ensures report.checks == old(report.checks) + binding.checks
      ensures report.ok == AllTrue(report.checks)
    {
      var pending := binding.checks.Keys;
      while pending != {}
        invariant pending <= binding.checks.Keys
        invariant report.checks == old(report.checks) + (binding.checks - pending)
        invariant report.ok == AllTrue(report.checks)
      {
        var n :| n in pending;
        report.Add(n, binding.checks[n]);
        pending := pending - {n};
      }
    }
  }

  // ---- What validation accepts -------------------------------------------------

  /** The conditions under which a readable record lets an access through. */
  predicate Admits(m: Record, bytes: FileBytes, r: Reading, now: Instant) {
    && StructurallyValid(m) && m.integrityHash == Sha256(bytes)
    && WithinExpiry(m, now) && WithinCount(m) && NotReused(m)
    && Accepts(m.binding, r)
  }

  lemma DeviceChecksAreDeviceChecks(b: DeviceBinding, r: Reading)
    ensures DeviceChecks(b, r).Keys !! CONTENT_NAMES
    ensures DeviceChecks(b, r).Keys <=
            {BindingHolds, UnauthorizedDevice, ClonedUsb, UsbIdentifier, MachineFingerprint, Hardware}
  {}

  lemma PassesIffAdmitted(
    row: Option<Envelope>, keys: ProtectionKeys, bytes: FileBytes, r: Reading, now: Instant)
    ensures AllTrue(ChecksFor(row, keys, bytes, r, now)) <==>
            RecordIn(row, keys).Some? && Admits(RecordIn(row, keys).value, bytes, r, now)
  {
    var c := ChecksFor(row, keys, bytes, r, now);
    if RecordIn(row, keys).None? {
      assert Fails(c, MetadataPresent) || Fails(c, Hmac);
    } else {
      var m := RecordIn(row, keys).value;
      var d := DeviceChecks(m.binding, r);
      DeviceChecksAreDeviceChecks(m.binding, r);
      ChecksPassIffAccepted(m.binding, r);
      assert forall n :: n in d ==> n in c && c[n] == d[n];
      if AllTrue(c) {
        assert c[MetadataIntegrity] && c[FileIntegrity] && c[Expiry] && c[AccessCount] && c[ReusedAccess];
      }
    }
  }

  // ---- Which deception a failed validation triggers ----------------------------

  datatype Trigger = WrongCredentials | AccessAlreadyUsed | DeviceMismatch | MetadataTampering | IntegrityFailure

  function TriggerOf(c: Checks): Trigger {
    if Fails(c, MetadataPresent) || Fails(c, Hmac) || Fails(c, MetadataIntegrity) then MetadataTampering
    else if Fails(c, FileIntegrity) then IntegrityFailure
    else if Fails(c, Expiry) || Fails(c, AccessCount) || Fails(c, ReusedAccess) then AccessAlreadyUsed
    else if Fails(c, BindingHolds) || Fails(c, UnauthorizedDevice) || Fails(c, ClonedUsb) || Fails(c, UsbIdentifier)
            || Fails(c, MachineFingerprint) || Fails(c, Hardware) then DeviceMismatch
    else IntegrityFailure
  }

  /** For every report that fails, exactly which trigger it maps to: tampering when the record
      is missing, unreadable or malformed; then an integrity failure when the bytes are not its
      own, so the final fallback is never taken; then a used-up access when a rule was broken;
      and a device mismatch exactly when nothing but the device conditions failed. */
  lemma FailuresAreExplained(
    row: Option<Envelope>, keys: ProtectionKeys, bytes: FileBytes, r: Reading, now: Instant)
    requires !AllTrue(ChecksFor(row, keys, bytes, r, now))
    ensures var c, m := ChecksFor(row, keys, bytes, r, now), RecordIn(row, keys);
            && (TriggerOf(c) == MetadataTampering <==> m.None? || !StructurallyValid(m.value))
            && (TriggerOf(c) == IntegrityFailure <==>
                  m.Some? && StructurallyValid(m.value) && m.value.integrityHash != Sha256(bytes))
            && (TriggerOf(c) == AccessAlreadyUsed <==>
                  && m.Some? && StructurallyValid(m.value) && m.value.integrityHash == Sha256(bytes)
                  && !(WithinExpiry(m.value, now) && WithinCount(m.value) && NotReused(m.value)))
            && (TriggerOf(c) == DeviceMismatch <==>
                  && m.Some? && !Accepts(m.value.binding, r)
                  && StructurallyValid(m.value) && m.value.integrityHash == Sha256(bytes)
                  && WithinExpiry(m.value, now) && WithinCount(m.value) && NotReused(m.value))
            && TriggerOf(c) != WrongCredentials
  {
    if RecordIn(row, keys).Some? {
      ReadableFailuresAreExplained(RecordIn(row, keys).value, bytes, r, now);
    }
  }

  lemma ReadableFailuresAreExplained(m: Record, bytes: FileBytes, r: Reading, now: Instant)
    requires !AllTrue(RecordChecks(m, bytes, r, now))
    ensures var c := RecordChecks(m, bytes, r, now);
            && (TriggerOf(c) == MetadataTampering <==> !StructurallyValid(m))
            && (TriggerOf(c) == IntegrityFailure <==> StructurallyValid(m) && m.integrityHash != Sha256(bytes))
            && (TriggerOf(c) == AccessAlreadyUsed <==>
                  && StructurallyValid(m) && m.integrityHash == Sha256(bytes)
                  && !(WithinExpiry(m, now) && WithinCount(m) && NotReused(m)))
            && (TriggerOf(c) == DeviceMismatch <==>
                  && !Accepts(m.binding, r)
                  && StructurallyValid(m) && m.integrityHash == Sha256(bytes)
                  && WithinExpiry(m, now) && WithinCount(m) && NotReused(m))
            && TriggerOf(c) != WrongCredentials
  {
    hide DeviceChecks, Accepts, StructurallyValid, WithinExpiry, WithinCount, NotReused;
    var c, d := RecordChecks(m, bytes, r, now), DeviceChecks(m.binding, r);
    DeviceChecksAreDeviceChecks(m.binding, r);
    ChecksPassIffAccepted(m.binding, r);
    DeviceFailuresShow(ContentChecks(m, bytes, now), d);
    assert ContentChecks(m, bytes, now) + d == c;
  }

  /** In the combined checks a device check fails exactly when it failed on its own. */
  lemma DeviceFailuresShow(content: Checks, d: Checks)
    requires d.Keys !! content.Keys
    ensures forall n :: Fails(content + d, n) <==> Fails(content, n) || Fails(d, n)
    ensures AllTrue(content + d) <==> AllTrue(content) && AllTrue(d)
  {
    var c := content + d;
    forall n ensures Fails(c, n) <==> Fails(content, n) || Fails(d, n) {
      assert n in c <==> n in content || n in d;
    }
    NoFailures(c);
    NoFailures(content);
    NoFailures(d);
  }
}
