// usb/secure_access_service.py: one attempt to view a protected file, with
// every exit, and what it does to each store it touches.

module Access {
  import opened Results
  import opened ByteStrings
  import opened KeyWrapping
  import opened DeviceIdentity
  import opened MacInputs
  import opened Metadata
  import opened SecureMemory
  import opened FileCrypto
  import opened Validation
  import opened OneTime
  import opened Lockout
  import opened Throttle
  import opened Tracking
  import opened Storage

  /** The arguments of one attempt, the clock as it is read along the way, the keys a burn
      would draw, and how the caller's view, a burn's key wrapping and the final deletion
      turn out. */
  datatype Attempt = Attempt(
    fileId: string,
    bytes: FileBytes,
    wrapper: KeyWrapper,
    keys: ProtectionKeys,
    reading: Reading,
    user: Option<string>,
    forceDeception: bool,
    containerPath: Option<string>,
    deletable: bool,
    viewerRaises: bool,
    wrapRaises: bool,
    draws: Draws,
    sessionId: string,
    lockReadAt: Instant,
    startedAt: Instant,
    validatedAt: Instant,
    recordedAt: Instant)

  /** How an attempt ends. */
  datatype Ending =
    | Decoy
    | Throttled
    | Refused(trigger: Trigger)
    | Unparsable
    | Undecryptable
    | Raised(metadata: Record, content: Bytes)
    | Unburned(metadata: Record, content: Bytes)
    | Viewed(metadata: Record, content: Bytes)

  /** The device layer applies to files bound to a device and to no machine. */
  function AttemptWrapper(m: Record, a: Attempt): KeyWrapper {
    if DeviceOnly(m.binding)
    then DeviceBound(a.wrapper, DeviceKey(Material(a.reading.usbId, a.reading.descriptor)))
    else a.wrapper
  }

  /** The container presented, with the record's wrapped key in place of its own. */
  function FileToOpen(m: Record, a: Attempt): StoredFile
    requires a.bytes.Encoded?
  {
    a.bytes.file.(wrappedKey := m.wrappedKey)
  }

  function AttemptChecks(row: Option<Envelope>, a: Attempt): Checks {
    ChecksFor(row, a.keys, a.bytes, a.reading, a.validatedAt)
  }

  function EndingOf(row: Option<Envelope>, throttle: Counters, a: Attempt): Ending {
    if a.forceDeception then Decoy
    else if Locked(StateOf(throttle, a.fileId), a.lockReadAt) then Throttled
    else if !AllTrue(AttemptChecks(row, a)) then Refused(TriggerOf(AttemptChecks(row, a)))
    else if RecordIn(row, a.keys).None? then Unparsable
    else EndingAfterValidation(RecordIn(row, a.keys).value, a)
  }

  /** A view that raises, and a one-time view whose burn raises, let the exception out. */
  function EndingAfterValidation(m: Record, a: Attempt): (e: Ending)
    ensures e.Unparsable? || e.Undecryptable? || (Shows(e) && e.metadata == m)
  {
    if a.bytes.Unreadable? then Unparsable else
    match Opened(FileToOpen(m, a), AttemptWrapper(m, a))
    case Failure(_) => Undecryptable
    case Success(content) =>
      if a.viewerRaises then Raised(m, content)
      else if m.oneTimeAccess && a.wrapRaises then Unburned(m, content)
      else Viewed(m, content)
  }

  /** The content was handed to the caller. */
  predicate Shows(e: Ending) {
    e.Viewed? || e.Raised? || e.Unburned?
  }

  // ---- What each ending leaves behind -------------------------------------------

  function ThrottleAfter(e: Ending, c: Counters, a: Attempt): Counters {
    match e
    case Decoy => c
    case Throttled => c
    case Refused(trigger) => if trigger == DeviceMismatch then AfterMismatch(c, a.fileId, a.recordedAt) else c
    case _ => AfterMatch(c, a.fileId)
  }

  /** The envelope a completed one-time view writes to every copy. */
  function BurnEnvelope(m: Record, a: Attempt): Envelope {
    Protect(RotatedKeys(a.draws), Burned(m, AttemptWrapper(m, a), a.draws.decoy))
  }

  predicate Burns(e: Ending) {
    e.Viewed? && e.metadata.oneTimeAccess
  }

  function TableAfter(e: Ending, t: Table, a: Attempt): Table {
    if Burns(e) then Saved(t, BurnEnvelope(e.metadata, a)) else t
  }

  function ShownBy(e: Ending, a: Attempt): seq<Viewing> {
    if Shows(e) then [Viewing(a.fileId, e.content)] else []
  }

  function ContainersAfter(e: Ending, c: map<string, StoredContainer>, a: Attempt): map<string, StoredContainer> {
    if Burns(e) && a.containerPath.Some? && a.deletable then c - {a.containerPath.value} else c
  }

  datatype Answer =
    | Granted(fileId: string, keys: ProtectionKeys)
    | Deceived(fileId: string, trigger: Trigger)
    | Escaped

  function AnswerOf(e: Ending, a: Attempt): Answer {
    match e
    case Decoy => Deceived(a.fileId, WrongCredentials)
    case Throttled => Deceived(a.fileId, DeviceMismatch)
    case Refused(trigger) => Deceived(a.fileId, trigger)
    case Undecryptable => Deceived(a.fileId, AccessAlreadyUsed)
    case Viewed(m, _) => Granted(a.fileId, if m.oneTimeAccess then RotatedKeys(a.draws) else a.keys)
    case Unparsable => Escaped
    case Raised(_, _) => Escaped
    case Unburned(_, _) => Escaped
  }

  /** A missing or empty name. */
  function OrUnknown(name: Option<string>): string {
    if name.Some? && name.value != "" then name.value else "unknown"
  }

  function StartedSession(a: Attempt): UsageData {
    NewSession(a.sessionId, OrUnknown(a.user), OrUnknown(a.reading.machine),
               a.fileId, a.reading.usbId, a.startedAt).(authenticated := Some(true))
  }

  function RefusedSession(s: UsageData, trigger: Trigger): UsageData {
    s.(validated := Some(false),
       tamperingEvents := s.tamperingEvents
                          + if trigger == MetadataTampering || trigger == IntegrityFailure then 1 else 0)
  }

  function OpenedSession(s: UsageData, a: Attempt): UsageData {
    s.(validated := Some(true), openedAt := Some(a.recordedAt))
  }

  /** The usage record of the session as the attempt leaves it: none before validation, and
      none handed back when an exception escapes. */
  function SessionAfter(e: Ending, a: Attempt): Option<UsageData> {
    var s := StartedSession(a);
    match e
    case Refused(trigger) => Some(RefusedSession(s, trigger))
    case Undecryptable => Some(OpenedSession(s, a))
    case Viewed(_, _) => Some(OpenedSession(s, a))
    case _ => None
  }

  datatype AccessOutcome = AccessOutcome(answer: Answer, session: UsageRecord?)

  // ---- What the answer is worth --------------------------------------------------

  /** Whatever is checked, this row under these keys passes and fails what that one does. */
  ghost predicate SameChecks(
    row: Option<Envelope>, keys: ProtectionKeys, other: Option<Envelope>, otherKeys: ProtectionKeys)
  {
    forall bytes, r, now :: ChecksFor(row, keys, bytes, r, now) == ChecksFor(other, otherKeys, bytes, r, now)
  }

  /** The record the attempt reads carries the id it is stored under. */
  predicate OwnId(row: Option<Envelope>, a: Attempt) {
    RecordIn(row, a.keys).Some? ==> RecordIn(row, a.keys).value.fileId == a.fileId
  }

  /** The keys handed out with a grant open the row that stands for the file afterwards, in the
      primary table and, after a one-time view, in every mirror; and every later validation of
      it under them goes as before the attempt. */
  lemma GrantedKeysOpenTheRow(p: Table, throttle: Counters, a: Attempt, t: Table)
    requires OwnId(Lookup(p, a.fileId), a)
    requires var e := EndingOf(Lookup(p, a.fileId), throttle, a);
             AnswerOf(e, a).Granted? && (t == p || e.metadata.oneTimeAccess)
    ensures var e := EndingOf(Lookup(p, a.fileId), throttle, a);
            var row, keys := Lookup(TableAfter(e, t, a), a.fileId), AnswerOf(e, a).keys;
            && AnswerOf(e, a).fileId == a.fileId && RecordIn(row, keys).Some?
            && SameChecks(row, keys, Lookup(p, a.fileId), a.keys)
  {
    hide AllTrue, ChecksFor, Opened, Material, Accepts, StructurallyValid, Wrap;
    var e := EndingOf(Lookup(p, a.fileId), throttle, a);
    PassesIffAdmitted(Lookup(p, a.fileId), a.keys, a.bytes, a.reading, a.validatedAt);
    if e.metadata.oneTimeAccess {
      GrantAfterBurn(Lookup(p, a.fileId), e.metadata, a);
    }
  }

  lemma GrantAfterBurn(row: Option<Envelope>, m: Record, a: Attempt)
    requires RecordIn(row, a.keys) == Some(m) && m.oneTimeAccess && StructurallyValid(m) && NotReused(m)
    ensures BurnEnvelope(m, a).fileId == m.fileId
    ensures RecordIn(Some(BurnEnvelope(m, a)), RotatedKeys(a.draws)).Some?
    ensures SameChecks(Some(BurnEnvelope(m, a)), RotatedKeys(a.draws), row, a.keys)
  {
    hide StructurallyValid, RecordChecks, AttemptWrapper;
    forall bytes, r, now
      ensures ChecksFor(Some(BurnEnvelope(m, a)), RotatedKeys(a.draws), bytes, r, now) == ChecksFor(row, a.keys, bytes, r, now)
    {
      BurnLeavesChecksUnchanged(m, a.keys, AttemptWrapper(m, a), a.draws, bytes, r, now);
    }
  }

  // ---- The world one attempt acts on ----------------------------------------------

  /** All repositories that exist, the throttle, everything ever shown, and the containers
      on the device. R names repositories. */
  datatype World<!R> = World(
    tables: map<R, Table>, throttle: Counters, shown: seq<Viewing>, containers: map<string, StoredContainer>)

  function TableOf<R>(w: World<R>, r: R): Table {
    if r in w.tables then w.tables[r] else map[]
  }

  function EndingIn<R>(w: World<R>, primary: R, a: Attempt): Ending {
    EndingOf(Lookup(TableOf(w, primary), a.fileId), w.throttle, a)
  }

  function AfterAttempt<R>(w: World<R>, primary: R, mirrors: seq<R>, a: Attempt): World<R> {
    var e := EndingIn(w, primary, a);
    World(
      map r | r in w.tables :: if r == primary || r in mirrors then TableAfter(e, w.tables[r], a) else w.tables[r],
      ThrottleAfter(e, w.throttle, a),
      w.shown + ShownBy(e, a),
      ContainersAfter(e, w.containers, a))
  }

  ghost function Snapshot(
    registry: set<MetadataRepository>, throttle: DeviceMismatchThrottle, viewer: Viewer, device: Device)
    : World<MetadataRepository>
    reads registry, throttle, viewer, device
  {
    World(map r | r in registry :: r.rows, throttle.state, viewer.shown, device.containers)
  }

  class SecureAccessService {
    const repository: MetadataRepository
    const mirrors: seq<MetadataRepository>
    const throttle: DeviceMismatchThrottle
    const tracker: UsageTracker?
    const decryptor: SecureDecryptor
    const enforcer: OneTimeAccessEnforcer

    constructor (
      repository: MetadataRepository, mirrors: seq<MetadataRepository>, throttle: DeviceMismatchThrottle,
      tracker: UsageTracker?)
      ensures Valid()
      ensures this.repository == repository && this.mirrors == mirrors
      ensures this.throttle == throttle && this.tracker == tracker
    {
      this.repository := repository;
      this.mirrors := mirrors;
      this.throttle := throttle;
      this.tracker := tracker;
      this.decryptor := new SecureDecryptor();
      this.enforcer := new OneTimeAccessEnforcer(repository, mirrors);
    }

    ghost predicate Valid() {
      enforcer.repository == repository && enforcer.mirrors == mirrors
    }

    /** The whole effect of an attempt is that of the step function, for every repository
        there is; every key and plaintext buffer made along the way is gone. */
    method AttemptAccess(
      a: Attempt, viewer: Viewer, device: Device, ledger: Ledger, ghost registry: set<MetadataRepository>)
      returns (outcome: AccessOutcome)
      requires Valid() && ledger.AllWiped()
      requires repository in registry && forall m :: m in mirrors ==> m in registry
      modifies throttle, repository, mirrors, viewer, device, ledger
      ensures ledger.AllWiped()
      ensures Snapshot(registry, throttle, viewer, device)
           == AfterAttempt(old(Snapshot(registry, throttle, viewer, device)), repository, mirrors, a)
      ensures var e := EndingOf(old(Lookup(repository.rows, a.fileId)), old(throttle.state), a);
              && outcome.answer == AnswerOf(e, a)
              && (outcome.session != null <==> tracker != null && SessionAfter(e, a).Some?)
              && (outcome.session != null ==>
                    fresh(outcome.session) && Some(outcome.session.data) == SessionAfter(e, a))
      ensures outcome.answer.Granted? && OwnId(old(Lookup(repository.rows, a.fileId)), a) ==>
                && outcome.answer.fileId == a.fileId
                && RecordIn(Lookup(repository.rows, a.fileId), outcome.answer.keys).Some?
                && SameChecks(Lookup(repository.rows, a.fileId), outcome.answer.keys,
                              old(Lookup(repository.rows, a.fileId)), a.keys)
    {
      hide AllTrue, AttemptChecks, EndingAfterValidation, SessionAfter, TableAfter, ShownBy, ContainersAfter, AnswerOf,
        SameChecks, OwnId;
      ghost var before := Snapshot(registry, throttle, viewer, device);
      ghost var e := EndingOf(Lookup(repository.rows, a.fileId), throttle.state, a);
      var locked := throttle.IsLocked(a.fileId, a.lockReadAt);
      if a.forceDeception {
        outcome := AccessOutcome(Deceived(a.fileId, WrongCredentials), null);
      } else if locked {
        outcome := AccessOutcome(Deceived(a.fileId, DeviceMismatch), null);
      } else {
        outcome := CheckedAccess(a, viewer, device, ledger);
      }
      NothingBurned(e, a);
      if AnswerOf(e, a).Granted? && OwnId(Lookup(before.tables[repository], a.fileId), a) {
        GrantedKeysOpenTheRow(before.tables[repository], before.throttle, a, before.tables[repository]);
      }
      SnapshotFollows(before, Snapshot(registry, throttle, viewer, device), a);
    }

    /** An ending that burns nothing leaves tables and containers alone. */
    lemma NothingBurned(e: Ending, a: Attempt)
      ensures !Burns(e) ==> forall t: Table :: TableAfter(e, t, a) == t
      ensures !Burns(e) ==> forall c: map<string, StoredContainer> :: ContainersAfter(e, c, a) == c
      ensures !Shows(e) ==> ShownBy(e, a) == []
      ensures e.Decoy? || e.Throttled? ==> SessionAfter(e, a) == None && AnswerOf(e, a).Deceived?
      ensures e.Decoy? ==> AnswerOf(e, a) == Deceived(a.fileId, WrongCredentials)
      ensures e.Throttled? ==> AnswerOf(e, a) == Deceived(a.fileId, DeviceMismatch)
    {}

    lemma SnapshotFollows(before: World<MetadataRepository>, after: World<MetadataRepository>, a: Attempt)
      requires repository in before.tables && before.tables.Keys == after.tables.Keys
      requires var e := EndingIn(before, repository, a);
               && after.throttle == ThrottleAfter(e, before.throttle, a)
               && after.shown == before.shown + ShownBy(e, a)
               && after.containers == ContainersAfter(e, before.containers, a)
               && forall r :: r in before.tables ==>
                    after.tables[r] == if r == repository || r in mirrors then TableAfter(e, before.tables[r], a)
                                       else before.tables[r]
      ensures after == AfterAttempt(before, repository, mirrors, a)
    {}

    /** An attempt that is neither forced into deception nor throttled. */
    method CheckedAccess(a: Attempt, viewer: Viewer, device: Device, ledger: Ledger)
      returns (outcome: AccessOutcome)
      requires Valid() && ledger.AllWiped()
      requires !a.forceDeception && !Locked(StateOf(throttle.state, a.fileId), a.lockReadAt)
      modifies throttle, repository, mirrors, viewer, device, ledger
      ensures ledger.AllWiped()
      ensures var e := EndingOf(old(Lookup(repository.rows, a.fileId)), old(throttle.state), a);
              && outcome.answer == AnswerOf(e, a)
              && throttle.state == ThrottleAfter(e, old(throttle.state), a)
              && viewer.shown == old(viewer.shown) + ShownBy(e, a)
              && device.containers == ContainersAfter(e, old(device.containers), a)
              && repository.rows == TableAfter(e, old(repository.rows), a)
              && (forall m :: m in mirrors ==> m.rows == TableAfter(e, old(m.rows), a))
              && (outcome.session != null <==> tracker != null && SessionAfter(e, a).Some?)
              && (outcome.session != null ==>
                    fresh(outcome.session) && Some(outcome.session.data) == SessionAfter(e, a))
    {
      hide AllTrue, ChecksFor, Opened, Material, TriggerOf, Unprotect, StartedSession, RefusedSession, TableAfter,
        ContainersAfter, ShownBy, EndingAfterValidation, Ledger.AllWiped, Ledger.WipedBut;
      ghost var row := Lookup(repository.rows, a.fileId);
      var session := OpenSession(a);
      var engine := new ValidationEngine(repository, a.keys);
      var report := engine.Validate(a.fileId, a.bytes, a.reading, a.validatedAt);
      NothingBurned(EndingOf(row, throttle.state, a), a);
      if !report.ok {
        outcome := Refuse(a, TriggerOf(report.checks), session);
        return;
      }
      PassesIffAdmitted(row, a.keys, a.bytes, a.reading, a.validatedAt);
      assert EndingOf(row, old(throttle.state), a) == EndingAfterValidation(report.metadata.data, a);
      outcome := GrantedAccess(a, report.metadata, session, viewer, device, ledger);
    }

    /** An attempt that passed validation: its mismatches are forgotten and the file is opened. */
    method GrantedAccess(
      a: Attempt, metadata: FileMetadata, session: UsageRecord?, viewer: Viewer, device: Device, ledger: Ledger)
      returns (outcome: AccessOutcome)
      requires Valid() && ledger.AllWiped()
      requires session != null ==> tracker != null && session.data == StartedSession(a)
      modifies metadata, session, throttle, repository, mirrors, viewer, device, ledger
      ensures ledger.AllWiped()
      ensures throttle.state == AfterMatch(old(throttle.state), a.fileId)
      ensures var e := EndingAfterValidation(old(metadata.data), a);
              && outcome.answer == AnswerOf(e, a)
              && viewer.shown == old(viewer.shown) + ShownBy(e, a)
              && device.containers == ContainersAfter(e, old(device.containers), a)
              && repository.rows == TableAfter(e, old(repository.rows), a)
              && (forall m :: m in mirrors ==> m.rows == TableAfter(e, old(m.rows), a))
              && outcome.session == (if SessionAfter(e, a).Some? then session else null)
              && (outcome.session != null ==> Some(outcome.session.data) == SessionAfter(e, a))
    {
      hide Opened, TableAfter, ContainersAfter, StartedSession, Ledger.AllWiped, Ledger.WipedBut;
      if session != null {
        tracker.RecordValidationResult(session, true);
      }
      throttle.RegisterSuccess(a.fileId);
      if a.bytes.Unreadable? {
        NothingBurned(EndingAfterValidation(metadata.data, a), a);
        return AccessOutcome(Escaped, null);
      }
      outcome := ViewAndBurn(a, metadata, session, viewer, device, ledger);
    }

    method OpenSession(a: Attempt) returns (session: UsageRecord?)
      ensures session != null <==> tracker != null
      ensures session != null ==> fresh(session) && session.data == StartedSession(a)
    {
      session := null;
      if tracker != null {
        session := tracker.StartSession(
          a.sessionId, OrUnknown(a.user), OrUnknown(a.reading.machine), a.fileId, a.reading.usbId, a.startedAt);
        tracker.RecordAuthenticationResult(session, true);
      }
    }

    /** A failed validation: count a device mismatch, note tampering, and deceive. */
    method Refuse(a: Attempt, trigger: Trigger, session: UsageRecord?) returns (outcome: AccessOutcome)
      requires session != null ==> tracker != null
      modifies throttle, session
      ensures throttle.state == ThrottleAfter(Refused(trigger), old(throttle.state), a)
      ensures outcome == AccessOutcome(AnswerOf(Refused(trigger), a), session)
      ensures session != null ==> session.data == RefusedSession(old(session.data), trigger)
    {
      if trigger == DeviceMismatch {
        throttle.RegisterMismatch(a.fileId, a.recordedAt);
      }
      if session != null {
        tracker.RecordValidationResult(session, false);
        if trigger == MetadataTampering || trigger == IntegrityFailure {
          tracker.RecordTamperingEvent(session);
        }
      }
      return AccessOutcome(Deceived(a.fileId, trigger), session);
    }

    /** After validation: decrypt into a scoped buffer, show it, and burn a one-time file. */
    method ViewAndBurn(
      a: Attempt, metadata: FileMetadata, session: UsageRecord?, viewer: Viewer, device: Device, ledger: Ledger)
      returns (outcome: AccessOutcome)
      requires Valid() && ledger.AllWiped() && a.bytes.Encoded?
      requires session != null ==> tracker != null
      modifies metadata, session, repository, mirrors, viewer, device, ledger
      ensures ledger.AllWiped()
      ensures var e := EndingAfterValidation(old(metadata.data), a);
              && outcome.answer == AnswerOf(e, a)
              && viewer.shown == old(viewer.shown) + ShownBy(e, a)
              && device.containers == ContainersAfter(e, old(device.containers), a)
              && repository.rows == TableAfter(e, old(repository.rows), a)
              && (forall m :: m in mirrors ==> m.rows == TableAfter(e, old(m.rows), a))
              && outcome.session == (if e.Raised? || e.Unburned? then null else session)
      ensures session != null ==> session.data == old(session.data).(openedAt := Some(a.recordedAt))
    {
      hide Opened, Material, SessionAfter, TableAfter, ContainersAfter, Ledger.AllWiped, Ledger.WipedBut;
      var m := metadata.data;
      var file := a.bytes.file.(wrappedKey := m.wrappedKey);
      var effective := a.wrapper;
      if m.binding.bound && m.binding.machineFingerprint.None? {
        effective := DeviceBound(a.wrapper, DeviceKey(Material(a.reading.usbId, a.reading.descriptor)));
      }
      if session != null {
        tracker.RecordOpen(session, a.recordedAt);
      }
      NothingBurned(EndingAfterValidation(m, a), a);
      var viewed := decryptor.OpenDecrypted(file, effective, a.fileId, viewer, a.viewerRaises, ledger);
      if viewed == Failure(CallbackRaised) {
        return AccessOutcome(Escaped, null);
      }
      if viewed.Failure? {
        return AccessOutcome(Deceived(a.fileId, AccessAlreadyUsed), session);
      }
      var newKeys := BurnAndDelete(a, metadata, effective, viewed.value, device, ledger);
      if newKeys.None? {
        return AccessOutcome(Escaped, null);
      }
      return AccessOutcome(Granted(a.fileId, newKeys.value), session);
    }

    /** After a completed view: a one-time file is burned everywhere and its container deleted.
        None stands for the key-wrapping error, which leaves everything as it was. */
    method BurnAndDelete(
      a: Attempt, metadata: FileMetadata, effective: KeyWrapper, ghost content: Bytes, device: Device, ledger: Ledger)
      returns (newKeys: Option<ProtectionKeys>)
      requires Valid() && ledger.AllWiped() && effective == AttemptWrapper(metadata.data, a)
      modifies metadata, repository, mirrors, device, ledger
      ensures ledger.AllWiped()
      ensures var m := old(metadata.data);
              var e := if m.oneTimeAccess && a.wrapRaises then Unburned(m, content) else Viewed(m, content);
              && (newKeys.None? <==> e.Unburned?)
              && AnswerOf(e, a) == (if newKeys.None? then Escaped else Granted(a.fileId, newKeys.value))
              && device.containers == ContainersAfter(e, old(device.containers), a)
              && repository.rows == TableAfter(e, old(repository.rows), a)
              && (forall m :: m in mirrors ==> m.rows == TableAfter(e, old(m.rows), a))
    {
      hide Ledger.AllWiped, Ledger.WipedBut;
      newKeys := Some(a.keys);
      if metadata.data.oneTimeAccess {
        var session := new SessionKeys(a.keys);
        var burned := enforcer.Burn(metadata, effective, session, a.draws, a.wrapRaises, ledger);
        if burned.Failure? {
          return None;
        }
        newKeys := Some(burned.value);
        if a.containerPath.Some? && a.deletable {
          device.containers := device.containers - {a.containerPath.value};
        }
      }
    }
  }

}
