// Whole runs of storing, viewing, rebinding and tampering: what no sequence of
// them can break.

module AccessRuns {
  import opened Results
  import opened ByteStrings
  import opened KeyWrapping
  import opened DeviceIdentity
  import opened MacInputs
  import opened Metadata
  import opened FileCrypto
  import opened SecureMemory
  import opened Validation
  import opened OneTime
  import opened Lockout
  import opened Throttle
  import opened Storage
  import opened Access
  import Rebind

  // ---- A single attempt ---------------------------------------------------------

  /** Content is shown only when the record admits the attempt, and for a device-only file
      only to a device deriving the very key its layer was made with. */
  lemma {:induction false} ShownOnlyToTheRightDevice(row: Option<Envelope>, throttle: Counters, a: Attempt)
    requires Shows(EndingOf(row, throttle, a))
    ensures var e := EndingOf(row, throttle, a);
            && !a.forceDeception && !Locked(StateOf(throttle, a.fileId), a.lockReadAt)
            && RecordIn(row, a.keys) == Some(e.metadata)
            && Admits(e.metadata, a.bytes, a.reading, a.validatedAt)
            && a.bytes == Encoded(a.bytes.file)
            && (DeviceOnly(e.metadata.binding) ==>
                  && e.metadata.wrappedKey.DeviceLayer?
                  && e.metadata.wrappedKey.deviceKey == DeviceKey(Material(a.reading.usbId, a.reading.descriptor)))
            && a.bytes.file.content.Sealed? && a.bytes.file.content.plaintext == e.content
            && CarriedKey(e.metadata.wrappedKey) == Some(a.bytes.file.content.key)
  {
    PassesIffAdmitted(row, a.keys, a.bytes, a.reading, a.validatedAt);
    var m := EndingOf(row, throttle, a).metadata;
    UnwrapFindsCarriedKey(AttemptWrapper(m, a), m.wrappedKey);
  }

  /** Exactly when a freshly stored file is shown, and that what is shown is the plaintext:
      the reading, keys, bytes and private key of its storing, before expiry, with some access
      allowed, through a file not throttled. */
  lemma StoredFileShownExactly(o: Order, throttle: Counters, a: Attempt, keys: ProtectionKeys)
    requires Recorded(o) && !a.viewerRaises && (o.oneTimeAccess ==> !a.wrapRaises)
    ensures EndingOf(Some(Protect(keys, RecordOf(o))), throttle, a) == Viewed(RecordOf(o), o.plaintext) <==>
            && !a.forceDeception && !Locked(StateOf(throttle, a.fileId), a.lockReadAt)
            && a.keys == keys && a.bytes == Encoded(FileOf(o))
            && o.fileId != "" && o.ownerId != ""
            && WithinExpiry(RecordOf(o), a.validatedAt)
            && (o.expiry.maxAccessCount.Some? ==> o.expiry.maxAccessCount.value > 0)
            && Accepts(BindingOf(o), a.reading)
            && Opens(AttemptWrapper(RecordOf(o), a), EffectiveWrapper(o))
  {
    var row, m := Some(Protect(keys, RecordOf(o))), RecordOf(o);
    PassesIffAdmitted(row, a.keys, a.bytes, a.reading, a.validatedAt);
    AlgorithmNamed(EffectiveWrapper(o));
    assert m.wrappedKey != Foreign([]);
    if a.bytes == Encoded(FileOf(o)) {
      assert FileToOpen(m, a) == FileOf(o);
      OpensOwnFiles(o.plaintext, o.fek, EffectiveWrapper(o), AttemptWrapper(m, a));
    }
  }

  lemma {:induction false} AlgorithmNamed(w: KeyWrapper)
    ensures Algorithm(w) != ""
  {
    if w.DeviceBound? { AlgorithmNamed(w.inner); }
  }

  /** End to end, over what storing leaves behind: the file read back from the path in the
      result, attempted with the keys in the result and the same private key, on the device it
      was bound to if it was and the machine asked for if one was, before expiry and with any
      limit above zero, is granted and shown unchanged, for every plaintext under every
      combination of the two binding axes. Its portable copy grants the same under its keys. */
  lemma {:induction false} StoreThenView(
    o: Order, t: Table, c: map<string, StoredContainer>, throttle: Counters, a: Attempt)
    requires StoreOutcome(o, c).Success? && Paired(o.wrapper) && o.fileId != "" && o.ownerId != ""
    requires var w, now := StoreOutcome(o, c).value, ContainersAfterStore(c, o);
             && a.fileId == w.fileId && a.wrapper == o.wrapper
             && w.path in now && a.bytes == Encoded(now[w.path].file)
    requires o.bindDevice ==> a.reading.usbId == Some(o.device.usbId) && a.reading.descriptor == o.device.descriptor
    requires OnMachine(o, a.reading.machine)
    requires !a.forceDeception && !a.viewerRaises && (o.oneTimeAccess ==> !a.wrapRaises)
    requires !Locked(StateOf(throttle, a.fileId), a.lockReadAt)
    requires o.expiry.expiresAt.Some? ==> a.validatedAt <= o.expiry.expiresAt.value
    requires o.expiry.maxAccessCount.Some? ==> o.expiry.maxAccessCount.value > 0
    ensures var w := StoreOutcome(o, c).value;
            a.keys == w.keys ==> GrantedWith(Lookup(TableAfterStore(t, o), a.fileId), throttle, a, o.plaintext)
    ensures var s := ContainersAfterStore(c, o)[StoreOutcome(o, c).value.path];
            o.portableKeys == Some(a.keys) ==>
              s.portable.Some? && GrantedWith(Some(s.portable.value.protected), throttle, a, o.plaintext)
  {
    hide EffectiveWrapper, BindingOf, RecordOf, Algorithm, Opened, AllTrue, ChecksFor, Locked, StateOf, Opens, Accepts, FileOf;
    BindingAccepts(o, a.reading);
    PairedOpensItself(EffectiveWrapper(o));
    AttemptWrapsAsStored(o, a);
    StoredFileShownExactly(o, throttle, a, a.keys);
    RecordKeepsId(o);
  }

  /** The attempt shows exactly this content and answers with a grant for this file. */
  predicate GrantedWith(row: Option<Envelope>, throttle: Counters, a: Attempt, content: Bytes) {
    var e := EndingOf(row, throttle, a);
    e.Viewed? && e.content == content && AnswerOf(e, a).Granted? && AnswerOf(e, a).fileId == a.fileId
  }

  lemma BindingAccepts(o: Order, r: Reading)
    requires GoodArguments(o) && OnMachine(o, r.machine)
    requires o.bindDevice ==> r.usbId == Some(o.device.usbId) && r.descriptor == o.device.descriptor
    ensures Accepts(BindingOf(o), r)
  {}

  lemma AttemptWrapsAsStored(o: Order, a: Attempt)
    requires GoodArguments(o) && a.wrapper == o.wrapper
    requires o.bindDevice ==> a.reading.usbId == Some(o.device.usbId) && a.reading.descriptor == o.device.descriptor
    ensures AttemptWrapper(RecordOf(o), a) == EffectiveWrapper(o)
    ensures WithinExpiry(RecordOf(o), a.validatedAt) <==>
              (o.expiry.expiresAt.Some? ==> a.validatedAt <= o.expiry.expiresAt.value)
  {}

  lemma RecordKeepsId(o: Order)
    ensures RecordOf(o).fileId == o.fileId && RecordOf(o).oneTimeAccess == o.oneTimeAccess
  {}

  /** Exactly which answer an attempt gets: a decoy session a deception for wrong credentials; a
      throttled one a device mismatch; one that fails validation the trigger of its failure; one
      whose key does not open the content a used-up access; and a completed view a grant. */
  lemma AnswersExplained(row: Option<Envelope>, throttle: Counters, a: Attempt)
    ensures var e := EndingOf(row, throttle, a);
            var answer, m := AnswerOf(e, a), RecordIn(row, a.keys);
            var throttled := a.fileId in throttle && throttle[a.fileId].lockedUntil.Some?
                             && a.lockReadAt < throttle[a.fileId].lockedUntil.value;
            var admitted := m.Some? && Admits(m.value, a.bytes, a.reading, a.validatedAt);
            && (a.forceDeception ==> answer == Deceived(a.fileId, WrongCredentials))
            && (!a.forceDeception && throttled ==> answer == Deceived(a.fileId, DeviceMismatch))
            && (!a.forceDeception && !throttled && !admitted ==>
                  answer == Deceived(a.fileId, TriggerOf(ChecksFor(row, a.keys, a.bytes, a.reading, a.validatedAt))))
            && (!a.forceDeception && !throttled && admitted && a.bytes.Encoded? ==>
                  var plaintext := Opened(FileToOpen(m.value, a), AttemptWrapper(m.value, a));
                  && (plaintext.Failure? ==> answer == Deceived(a.fileId, AccessAlreadyUsed))
                  && (plaintext.Success? ==>
                        (answer.Granted? <==> !a.viewerRaises && (m.value.oneTimeAccess ==> !a.wrapRaises))
                        && (answer.Granted? || answer == Escaped)))
            && (answer.Granted? ==>
                  && answer.fileId == a.fileId
                  && answer.keys == (if m.value.oneTimeAccess then ProtectionKeys(a.draws.encryption, a.draws.hmac)
                                     else a.keys))
  {
    hide AllTrue, ChecksFor, Opened, AttemptWrapper, TriggerOf, Admits;
    PassesIffAdmitted(row, a.keys, a.bytes, a.reading, a.validatedAt);
  }

  /** A readable record that is malformed in any of these ways, and only such a one, is reported
      as tampering. */
  lemma MalformedMeansTampering(row: Option<Envelope>, throttle: Counters, a: Attempt)
    requires RecordIn(row, a.keys).Some? && !a.forceDeception && !Locked(StateOf(throttle, a.fileId), a.lockReadAt)
    ensures var m := RecordIn(row, a.keys).value;
            AnswerOf(EndingOf(row, throttle, a), a) == Deceived(a.fileId, MetadataTampering) <==>
              || m.fileId == "" || m.ownerId == "" || m.wrappedKey == Foreign([]) || m.wrapAlgorithm == ""
              || m.integrityHash.NotADigest? || m.accessCount < 0 || m.version != 1
              || (m.lastAccessedAt.Some? && m.lastAccessedAt.value < m.createdAt)
  {
    hide AllTrue, ChecksFor, Opened, TriggerOf, Accepts;
    PassesIffAdmitted(row, a.keys, a.bytes, a.reading, a.validatedAt);
    if !AllTrue(ChecksFor(row, a.keys, a.bytes, a.reading, a.validatedAt)) {
      FailuresAreExplained(row, a.keys, a.bytes, a.reading, a.validatedAt);
    }
  }

  /** What the usage record of an attempt says: who tried what from where and when, that it was
      refused and whether that was tampering, or that it was opened and when. */
  lemma SessionsRecordTheAttempt(e: Ending, a: Attempt)
    ensures SessionAfter(e, a).Some? <==> e.Refused? || e.Undecryptable? || e.Viewed?
    ensures SessionAfter(e, a).Some? ==>
              var u := SessionAfter(e, a).value;
              && u.sessionId == a.sessionId && u.fileId == a.fileId && u.usbId == a.reading.usbId
              && u.user == (if a.user.Some? && a.user.value != "" then a.user.value else "unknown")
              && u.machineId == (if a.reading.machine.Some? && a.reading.machine.value != ""
                                 then a.reading.machine.value else "unknown")
              && u.loginAt == Some(a.startedAt) && u.authenticated == Some(true) && u.eventType == "access"
              && u.closedAt == None && u.duration == None && u.screenCaptures == 0 && u.previousUsbId == None
              && u.validated == Some(!e.Refused?)
              && u.openedAt == (if e.Refused? then None else Some(a.recordedAt))
              && u.tamperingEvents == (if e == Refused(MetadataTampering) || e == Refused(IntegrityFailure) then 1 else 0)
  {}

  /** An attempt removes a container exactly when it completed a one-time view with a path given
      and the file deletable, and then only that one. */
  lemma OnlyACompletedBurnDeletes<R>(w: World<R>, primary: R, mirrors: seq<R>, a: Attempt, path: string)
    requires path in w.containers
    ensures var e, v := EndingIn(w, primary, a), AfterAttempt(w, primary, mirrors, a);
            && (path in v.containers ==> v.containers[path] == w.containers[path])
            && (path !in v.containers <==>
                  e.Viewed? && e.metadata.oneTimeAccess && a.containerPath == Some(path) && a.deletable)
  {
    hide EndingOf;
  }

  // ---- Steps ----------------------------------------------------------------------

  /** Tampering stores an envelope under its own file id, as every store of records does. */
  datatype Step<!R> =
    | Store(order: Order, local: Option<R>, portable: Option<R>)
    | View(primary: R, mirrors: seq<R>, attempt: Attempt)
    | Move(primary: R, mirrors: seq<R>, fileId: string, keys: ProtectionKeys, request: Rebind.Request)
    | Corrupt(repository: R, envelope: Envelope)
    | Erase(repository: R, fileId: string)

  /** The world, with what has been stored, the devices each file may now be enrolled on, the
      file keys and decoys drawn, and the throttle events so far. */
  datatype State<!R> = State(
    world: World<R>, stored: map<string, Order>, enrolled: map<string, set<Probe>>, used: set<Key>, events: seq<Event>)

  function Put<R>(tables: map<R, Table>, targets: set<R>, e: Envelope): map<R, Table> {
    map r | r in tables :: if r in targets then Saved(tables[r], e) else tables[r]
  }

  /** Whatever StoreFile leaves in the local repository and on the device; the portable
      section of a container that was written is a repository too. */
  function AfterStore<R>(w: World<R>, o: Order, local: Option<R>, portable: Option<R>): World<R> {
    var t1 := map r | r in w.tables :: if Some(r) == local then TableAfterStore(w.tables[r], o) else w.tables[r];
    var t2 := if StoreOutcome(o, w.containers).Success? && portable.Some? && o.portableKeys.Some?
              then Put(t1, {portable.value}, Protect(o.portableKeys.value, RecordOf(o))) else t1;
    w.(tables := t2, containers := ContainersAfterStore(w.containers, o))
  }

  /** A rebind of the record as it is now stored in the primary repository. */
  function AfterMove<R>(
    w: World<R>, primary: R, mirrors: seq<R>, fileId: string, keys: ProtectionKeys, q: Rebind.Request): World<R>
  {
    var m := RecordIn(Lookup(TableOf(w, primary), fileId), keys);
    if m.None? then w
    else w.(tables := map r | r in w.tables :: if r == primary || r in mirrors
                                               then Rebind.TableAfterRebind(w.tables[r], m.value, q, keys)
                                               else w.tables[r])
  }

  /** The record a rebind step writes, if it succeeds. */
  function MovedRecord<R>(w: World<R>, primary: R, fileId: string, keys: ProtectionKeys, q: Rebind.Request): Option<Record> {
    var m := RecordIn(Lookup(TableOf(w, primary), fileId), keys);
    if m.Some? && Rebind.Rebound(m.value, q).Success? then Some(Rebind.Rebound(m.value, q).value) else None
  }

  /** What a non-decoy attempt is to the throttle. */
  function EventOf(e: Ending, a: Attempt): Event {
    Event(a.fileId, a.lockReadAt, a.recordedAt,
          if e.Refused? then if e.trigger == DeviceMismatch then Mismatch else Unrelated else Match)
  }

  /** Every copy of the record is the primary or a mirror of the operation. */
  ghost predicate Mirrored<R>(w: World<R>, primary: R, mirrors: seq<R>, fileId: string) {
    forall r :: r in w.tables && fileId in w.tables[r] ==> r == primary || r in mirrors
  }

  /** The devices some copy of the file's record names, if it is bound to a device. */
  function DevicesOf<R>(s: State<R>, fileId: string): set<Probe> {
    if fileId in s.enrolled then s.enrolled[fileId] else {}
  }

  /** A rebind that reaches every copy leaves the new device alone; another adds it. */
  ghost function Enrolment<R>(s: State<R>, step: Step<R>): map<string, set<Probe>>
    requires step.Move?
  {
    if MovedRecord(s.world, step.primary, step.fileId, step.keys, step.request).None? then s.enrolled
    else
      var stale := if Mirrored(s.world, step.primary, step.mirrors, step.fileId) then {} else DevicesOf(s, step.fileId);
      s.enrolled[step.fileId := stale + {step.request.newDevice}]
  }

  ghost function Next<R>(s: State<R>, step: Step<R>): State<R> {
    match step
    case Store(o, local, portable) =>
      s.(world := AfterStore(s.world, o, local, portable),
         stored := if Recorded(o) then s.stored[o.fileId := o] else s.stored,
         enrolled := if Recorded(o) then s.enrolled[o.fileId := {o.device}] else s.enrolled,
         used := s.used + {o.fek})
    case View(primary, mirrors, a) =>
      var e := EndingIn(s.world, primary, a);
      s.(world := AfterAttempt(s.world, primary, mirrors, a),
         used := s.used + {a.draws.decoy},
         events := if e.Decoy? then s.events else s.events + [EventOf(e, a)])
    case Move(primary, mirrors, fileId, keys, q) =>
      s.(world := AfterMove(s.world, primary, mirrors, fileId, keys, q), enrolled := Enrolment(s, step))
    case Corrupt(r, e) =>
      s.(world := s.world.(tables := s.world.tables[r := Saved(TableOf(s.world, r), e)]))
    case Erase(r, fileId) =>
      s.(world := s.world.(tables := s.world.tables[r := TableOf(s.world, r) - {fileId}]))
  }

  /** The tag is one computed over the envelope's own fields. */
  predicate Openable(e: Envelope) {
    e.body.Encrypted? && e.tag.Mac? && e.tag == Mac(e.tag.key, e.fileId, e.version, e.body)
  }

  lemma OpenableByItsOwnKeys(e: Envelope)
    ensures Openable(e) <==> exists keys :: Unprotect(keys, e).Some?
  {
    if Openable(e) {
      assert Unprotect(ProtectionKeys(e.body.key, e.tag.key), e).Some?;
    }
  }

  /** Some repository now holds exactly this envelope under its file id. */
  ghost predicate Standing<R>(w: World<R>, e: Envelope) {
    exists r :: r in w.tables && e.fileId in w.tables[r] && w.tables[r][e.fileId] == e
  }

  /** File ids and keys are drawn fresh, and a one-time view completes and reaches every copy.
      Whoever tampers can write noise, relabel a genuine body or tag, copy a row between
      repositories and delete one, but cannot forge a tag or bring an earlier row back. */
  ghost predicate Allowed<R>(s: State<R>, step: Step<R>) {
    match step
    case Store(o, local, portable) =>
      o.fileId !in s.stored && o.fek !in s.used
    case View(primary, mirrors, a) =>
      && a.draws.decoy !in s.used
      && var e := EndingIn(s.world, primary, a);
         && (Burns(e) ==> Mirrored(s.world, primary, mirrors, a.fileId))
         && (Shows(e) && e.metadata.oneTimeAccess ==> Burns(e))
    case Move(_, _, _, _, _) => true
    case Corrupt(r, e) => r in s.world.tables && (Openable(e) ==> Standing(s.world, e))
    case Erase(r, _) => r in s.world.tables
  }

  function Times(shown: seq<Viewing>, fileId: string): nat {
    if shown == [] then 0
    else Times(shown[..|shown| - 1], fileId) + if shown[|shown| - 1].fileId == fileId then 1 else 0
  }

  predicate Spent<R>(s: State<R>, fileId: string) {
    fileId in s.stored && s.stored[fileId].oneTimeAccess && Times(s.world.shown, fileId) > 0
  }

  // ---- The invariant ----------------------------------------------------------------

  /** The binding of the file stored as o once it has been moved to p. */
  function BindingOn(o: Order, p: Probe): DeviceBinding {
    if o.bindDevice then BindTo(p, MachineOf(o)) else BindingOf(o)
  }

  /** Its own key, wrapped for its owner and, for a device-only file, for p. */
  function WrappedFor(o: Order, p: Probe): WrappedKey {
    if o.bindDevice && o.machineBinding == NoMachine
    then DeviceLayer(Rebind.DeviceKeyOf(p), Wrap(o.wrapper, o.fek))
    else Wrap(o.wrapper, o.fek)
  }

  predicate HasDevice(m: Record, o: Order, spent: bool, p: Probe) {
    m.binding == BindingOn(o, p) && (!spent ==> m.wrappedKey == WrappedFor(o, p))
  }

  /** m is the record the file was stored with, but for the device it is enrolled on, which is
      one of these, and the key it carries: its own until a one-time view has spent it, and
      never after. */
  ghost predicate RecordOfFile(m: Record, o: Order, spent: bool, devices: set<Probe>) {
    && m == RecordOf(o).(wrappedKey := m.wrappedKey, binding := m.binding)
    && CarriedKey(m.wrappedKey).Some? && (spent ==> CarriedKey(m.wrappedKey) != Some(o.fek))
    && exists p :: p in devices && HasDevice(m, o, spent, p)
  }

  ghost predicate RowGood<R>(s: State<R>, f: string, e: Envelope) {
    Openable(e) ==>
      f in s.stored && RecordOfFile(e.body.record, s.stored[f], Spent(s, f), DevicesOf(s, f))
  }

  ghost predicate TablesGood<R>(s: State<R>, tables: map<R, Table>) {
    forall r, f :: r in tables && f in tables[r] ==> RowGood(s, f, tables[r][f])
  }

  ghost predicate ShownGood<R>(s: State<R>) {
    && (forall v :: v in s.world.shown ==>
          v.fileId in s.stored && v.content == s.stored[v.fileId].plaintext)
    && (forall f :: f in s.stored && s.stored[f].oneTimeAccess ==> Times(s.world.shown, f) <= 1)
  }

  ghost predicate StoredGood<R>(s: State<R>) {
    forall f :: f in s.stored ==> s.stored[f].fileId == f && s.stored[f].fek in s.used && Recorded(s.stored[f])
  }

  ghost predicate Inv<R>(s: State<R>) {
    TablesGood(s, s.world.tables) && ShownGood(s) && StoredGood(s) && s.world.throttle == Replay(s.events)
  }

  // ---- Every step keeps the invariant ---------------------------------------------

  lemma TimesAppend(shown: seq<Viewing>, v: Viewing, fileId: string)
    ensures Times(shown + [v], fileId) == Times(shown, fileId) + if v.fileId == fileId then 1 else 0
  {
    assert (shown + [v])[..|shown|] == shown;
  }

  lemma {:induction false} NeverShown(shown: seq<Viewing>, fileId: string)
    requires forall v :: v in shown ==> v.fileId != fileId
    ensures Times(shown, fileId) == 0
  {
    if shown != [] {
      var last := shown[|shown| - 1];
      assert last in shown;
      NeverShown(shown[..|shown| - 1], fileId);
    }
  }

  /** A row opened with these keys, and what the invariant says of its record. */
  lemma ReadableRow<R>(s: State<R>, r: R, fileId: string, keys: ProtectionKeys) returns (p: Probe)
    requires Inv(s) && RecordIn(Lookup(TableOf(s.world, r), fileId), keys).Some?
    ensures fileId in s.stored && p in DevicesOf(s, fileId)
    ensures var m, o := RecordIn(Lookup(TableOf(s.world, r), fileId), keys).value, s.stored[fileId];
            RecordOfFile(m, o, Spent(s, fileId), DevicesOf(s, fileId)) && HasDevice(m, o, Spent(s, fileId), p)
  {
    var e := s.world.tables[r][fileId];
    assert RowGood(s, fileId, e) && Openable(e);
    p :| p in DevicesOf(s, fileId) && HasDevice(e.body.record, s.stored[fileId], Spent(s, fileId), p);
  }

  lemma FreshRecordIsGood(o: Order)
    requires Recorded(o)
    ensures RecordOfFile(RecordOf(o), o, false, {o.device})
  {
    WrapCarries(EffectiveWrapper(o), o.fek);
    assert HasDevice(RecordOf(o), o, false, o.device);
  }

  /** What storing leaves under the new file id: the row that stood there, or the new record. */
  lemma StoreWrites<R>(w: World<R>, step: Step<R>, r: R)
    requires step.Store? && r in w.tables
    requires step.order.fileId in AfterStore(w, step.order, step.local, step.portable).tables[r]
    ensures var o, f := step.order, step.order.fileId;
            var e := AfterStore(w, o, step.local, step.portable).tables[r][f];
            (f in w.tables[r] && e == w.tables[r][f])
            || (Recorded(o) && e.body.Encrypted? && e.body.record == RecordOf(o))
  {
    hide RecordOf, ContainersAfterStore;
    assert RecordOf(step.order).fileId == step.order.fileId by { RecordKeepsId(step.order); }
  }

  /** A row with nothing behind it yet opens under no keys, so only the new record does. */
  lemma StoredRowIsGood<R>(s: State<R>, step: Step<R>, r: R)
    requires Inv(s) && step.Store? && Allowed(s, step)
    requires r in s.world.tables && step.order.fileId in Next(s, step).world.tables[r]
    ensures RowGood(Next(s, step), step.order.fileId, Next(s, step).world.tables[r][step.order.fileId])
  {
    hide RecordOf, RecordOfFile, AfterStore, Recorded, Openable;
    var f, t := step.order.fileId, Next(s, step);
    StoreSpendsNothing(s, step, f);
    StoreShowsNothing(s.world, step);
    StoreWrites(s.world, step, r);
    if f in s.world.tables[r] && t.world.tables[r][f] == s.world.tables[r][f] {
      assert RowGood(s, f, s.world.tables[r][f]);
    } else {
      FreshRecordIsGood(step.order);
    }
  }

  lemma StoreSpendsNothing<R>(s: State<R>, step: Step<R>, f: string)
    requires Inv(s) && step.Store? && Allowed(s, step)
    ensures Spent(Next(s, step), f) <==> Spent(s, f)
    ensures Times(s.world.shown, step.order.fileId) == 0
  {
    hide AfterStore, TablesGood;
    assert Next(s, step).world.shown == s.world.shown by { StoreShowsNothing(s.world, step); }
    NeverShown(s.world.shown, step.order.fileId);
  }

  lemma StoreShowsNothing<R>(w: World<R>, step: Step<R>)
    requires step.Store?
    ensures var v := AfterStore(w, step.order, step.local, step.portable);
            v.shown == w.shown && v.throttle == w.throttle && v.tables.Keys == w.tables.Keys
    ensures var v := AfterStore(w, step.order, step.local, step.portable);
            forall r, f :: r in w.tables && f != step.order.fileId ==> Lookup(v.tables[r], f) == Lookup(w.tables[r], f)
  {}

  lemma StoreKeepsInv<R>(s: State<R>, step: Step<R>)
    requires Inv(s) && step.Store? && Allowed(s, step)
    ensures Inv(Next(s, step))
  {
    hide AfterStore, RecordOfFile, Spent, Recorded;
    var t := Next(s, step);
    StoreShowsNothing(s.world, step);
    StoreSpendsNothing(s, step, step.order.fileId);
    forall r, f | r in t.world.tables && f in t.world.tables[r] ensures RowGood(t, f, t.world.tables[r][f]) {
      StoreSpendsNothing(s, step, f);
      if f == step.order.fileId {
        StoredRowIsGood(s, step, r);
      } else {
        assert Lookup(t.world.tables[r], f) == Lookup(s.world.tables[r], f);
        assert RowGood(s, f, s.world.tables[r][f]);
      }
    }
  }

  lemma TamperKeepsTheRest<R>(s: State<R>, step: Step<R>)
    requires step.Corrupt? || step.Erase?
    ensures forall f :: (Spent(Next(s, step), f) <==> Spent(s, f)) && DevicesOf(Next(s, step), f) == DevicesOf(s, f)
  {
    hide Times;
  }

  lemma TamperKeepsInv<R>(s: State<R>, step: Step<R>)
    requires Inv(s) && (step.Corrupt? || step.Erase?) && Allowed(s, step)
    ensures Inv(Next(s, step))
  {
    hide RecordOfFile, Openable, DevicesOf, Spent;
    var t := Next(s, step);
    assert forall f :: (Spent(t, f) <==> Spent(s, f)) && DevicesOf(t, f) == DevicesOf(s, f) by { TamperKeepsTheRest(s, step); }
    forall r, f | r in t.world.tables && f in t.world.tables[r] ensures RowGood(t, f, t.world.tables[r][f]) {
      var e := t.world.tables[r][f];
      if f in s.world.tables[r] && s.world.tables[r][f] == e {
        assert RowGood(s, f, e);
      } else if Openable(e) {
        var q :| q in s.world.tables && f in s.world.tables[q] && s.world.tables[q][f] == e;
        assert RowGood(s, f, s.world.tables[q][f]);
      }
    }
  }

  /** Showing content means the row is the stored file's, that its own key was still there,
      and that the device presented passes for one the file is enrolled on: by every recorded
      field, on the machine it is bound to and, for a device-only file, by its fingerprint. */
  lemma {:induction false} ShownMeansOwnContent<R>(s: State<R>, primary: R, a: Attempt) returns (p: Probe)
    requires Inv(s) && Shows(EndingIn(s.world, primary, a))
    ensures a.fileId in s.stored && !Spent(s, a.fileId) && p in DevicesOf(s, a.fileId)
    ensures var e, o := EndingIn(s.world, primary, a), s.stored[a.fileId];
            && RecordOfFile(e.metadata, o, false, DevicesOf(s, a.fileId)) && HasDevice(e.metadata, o, false, p)
            && RecordIn(Lookup(TableOf(s.world, primary), a.fileId), a.keys) == Some(e.metadata)
            && e.content == o.plaintext && (o.expiry.expiresAt.Some? ==> a.validatedAt <= o.expiry.expiresAt.value)
            && PresentedAs(o, p, a.reading)
  {
    hide RecordOf, StructurallyValid;
    var e := EndingIn(s.world, primary, a);
    ShownOnlyToTheRightDevice(Lookup(TableOf(s.world, primary), a.fileId), s.world.throttle, a);
    p := ReadableRow(s, primary, a.fileId, a.keys);
    WrapCarries(s.stored[a.fileId].wrapper, s.stored[a.fileId].fek);
    AcceptedOnMachine(s.stored[a.fileId], p, a.reading);
    OwnContent(e.metadata, s.stored[a.fileId], Spent(s, a.fileId), a);
  }

  /** The reading is from the machine asked for, is accepted as p if the file is bound to a
      device and, if to no machine besides, derives p's device key. */
  predicate PresentedAs(o: Order, p: Probe, r: Reading) {
    && OnMachine(o, r.machine)
    && (o.bindDevice ==> Accepts(BindTo(p, None), r))
    && (o.bindDevice && o.machineBinding == NoMachine ==>
          Material(r.usbId, r.descriptor) == Material(Some(p.usbId), p.descriptor))
  }

  lemma AcceptedOnMachine(o: Order, p: Probe, r: Reading)
    requires GoodArguments(o)
    ensures Accepts(BindingOn(o, p), r) <==> OnMachine(o, r.machine) && (o.bindDevice ==> Accepts(BindTo(p, None), r))
  {}

  lemma OwnContent(m: Record, o: Order, spent: bool, a: Attempt)
    requires m == RecordOf(o).(wrappedKey := m.wrappedKey, binding := m.binding)
    requires m.integrityHash == Sha256(a.bytes) && a.bytes.Encoded? && a.bytes.file.content.Sealed?
    requires CarriedKey(m.wrappedKey) == Some(a.bytes.file.content.key)
    requires spent ==> CarriedKey(m.wrappedKey) != Some(o.fek)
    ensures !spent && a.bytes.file.content.plaintext == o.plaintext
    ensures m.expiry == o.expiry
  {}

  lemma BurnedRecordIsSpent<R>(s: State<R>, m: Record, p: Probe, a: Attempt)
    requires Inv(s) && a.fileId in s.stored && a.draws.decoy !in s.used && p in DevicesOf(s, a.fileId)
    requires m == RecordOf(s.stored[a.fileId]).(wrappedKey := m.wrappedKey, binding := m.binding)
    requires HasDevice(m, s.stored[a.fileId], false, p)
    ensures RecordOfFile(BurnEnvelope(m, a).body.record, s.stored[a.fileId], true, DevicesOf(s, a.fileId))
    ensures BurnEnvelope(m, a).fileId == a.fileId
  {
    hide Material, TablesGood;
    WrapCarries(AttemptWrapper(m, a), a.draws.decoy);
    assert HasDevice(BurnEnvelope(m, a).body.record, s.stored[a.fileId], true, p);
  }

  lemma AttemptIsThrottleEvent(row: Option<Envelope>, c: Counters, a: Attempt)
    ensures var e := EndingOf(row, c, a);
            !e.Decoy? ==> ThrottleAfter(e, c, a) == Throttle.Apply(c, EventOf(e, a))
    ensures EndingOf(row, c, a).Decoy? ==> ThrottleAfter(EndingOf(row, c, a), c, a) == c
  {}

  lemma ViewKeepsThrottle<R>(s: State<R>, step: Step<R>)
    requires Inv(s) && step.View?
    ensures Next(s, step).world.throttle == Replay(Next(s, step).events)
  {
    var a, t := step.attempt, Next(s, step);
    AttemptIsThrottleEvent(Lookup(TableOf(s.world, step.primary), a.fileId), s.world.throttle, a);
    if t.events != s.events {
      assert t.events[..|t.events| - 1] == s.events;
    }
  }

  lemma ViewKeepsShownGood<R>(s: State<R>, step: Step<R>)
    requires Inv(s) && step.View? && Allowed(s, step)
    ensures ShownGood(Next(s, step))
    ensures var e := EndingIn(s.world, step.primary, step.attempt);
            forall f :: Spent(Next(s, step), f) <==> Spent(s, f) || (Burns(e) && f == step.attempt.fileId)
  {
    hide EndingOf, RecordOfFile, TableAfter, PresentedAs;
    var a, t := step.attempt, Next(s, step);
    var e := EndingIn(s.world, step.primary, a);
    if Shows(e) {
      var p := ShownMeansOwnContent(s, step.primary, a);
      OneTimeAsStored(e.metadata, s.stored[a.fileId], DevicesOf(s, a.fileId));
      forall f ensures Times(t.world.shown, f) == Times(s.world.shown, f) + if f == a.fileId then 1 else 0 {
        TimesAppend(s.world.shown, Viewing(a.fileId, e.content), f);
      }
    } else {
      assert t.world.shown == s.world.shown;
    }
  }

  lemma OneTimeAsStored(m: Record, o: Order, devices: set<Probe>)
    requires RecordOfFile(m, o, false, devices)
    ensures m.oneTimeAccess == o.oneTimeAccess && m.fileId == o.fileId
  {}

  /** What an attempt writes, if anything, is the burned record, to every repository it names. */
  lemma AttemptWrites<R>(w: World<R>, primary: R, mirrors: seq<R>, a: Attempt, r: R, f: string)
    requires r in w.tables && f in AfterAttempt(w, primary, mirrors, a).tables[r]
    ensures var e, v := EndingIn(w, primary, a), AfterAttempt(w, primary, mirrors, a);
            || (f in w.tables[r] && v.tables[r][f] == w.tables[r][f]
                && !(Burns(e) && f == BurnEnvelope(e.metadata, a).fileId && (r == primary || r in mirrors)))
            || (Burns(e) && f == BurnEnvelope(e.metadata, a).fileId && v.tables[r][f] == BurnEnvelope(e.metadata, a))
  {
    hide EndingOf, BurnEnvelope;
  }

  lemma {:induction false} ViewKeepsTablesGood<R>(s: State<R>, step: Step<R>)
    requires Inv(s) && step.View? && Allowed(s, step)
    ensures TablesGood(Next(s, step), Next(s, step).world.tables)
  {
    hide EndingOf, BurnEnvelope, RecordOfFile, Spent, PresentedAs, Openable;
    var a, t := step.attempt, Next(s, step);
    var e := EndingIn(s.world, step.primary, a);
    ViewKeepsShownGood(s, step);
    if Burns(e) { BurnIsGood(s, step); }
    forall r, f | r in t.world.tables && f in t.world.tables[r] ensures RowGood(t, f, t.world.tables[r][f]) {
      AttemptWrites(s.world, step.primary, step.mirrors, a, r, f);
      if f in s.world.tables[r] { assert RowGood(s, f, s.world.tables[r][f]); }
    }
  }

  lemma BurnIsGood<R>(s: State<R>, step: Step<R>)
    requires Inv(s) && step.View? && Allowed(s, step) && Burns(EndingIn(s.world, step.primary, step.attempt))
    ensures var a, m := step.attempt, EndingIn(s.world, step.primary, step.attempt).metadata;
            && BurnEnvelope(m, a).fileId == a.fileId && a.fileId in s.stored
            && RecordOfFile(BurnEnvelope(m, a).body.record, s.stored[a.fileId], true, DevicesOf(s, a.fileId))
  {
    hide EndingOf, BurnEnvelope, PresentedAs;
    var p := ShownMeansOwnContent(s, step.primary, step.attempt);
    BurnedRecordIsSpent(s, EndingIn(s.world, step.primary, step.attempt).metadata, p, step.attempt);
  }

  /** A rebind puts the same key under the new device, and changes nothing else. */
  lemma MovedRecordIsGood(m: Record, o: Order, spent: bool, p: Probe, devices: set<Probe>, q: Rebind.Request)
    requires Recorded(o) && RecordOfFile(m, o, spent, devices) && HasDevice(m, o, spent, p)
    requires Rebind.Rebound(m, q).Success? && q.newDevice in devices
    ensures var n := Rebind.Rebound(m, q).value;
            RecordOfFile(n, o, spent, devices) && HasDevice(n, o, spent, q.newDevice)
  {
    hide Material, RecordOf;
    var n, kp := Rebind.Rebound(m, q).value, q.keyFile.keyPair;
    UnwrapFindsCarriedKey(Rebind.OldWrapper(m, q), m.wrappedKey);
    WrapCarries(Rebind.WrapperFor(kp, m.binding, q.newDevice), CarriedKey(m.wrappedKey).value);
    assert o.bindDevice;
    if !spent {
      WrapCarries(o.wrapper, o.fek);
      assert Unwrap(Rebind.PlainWrapper(kp), Wrap(o.wrapper, o.fek)).Some?;
      assert Wrap(Rebind.PlainWrapper(kp), o.fek) == Wrap(o.wrapper, o.fek);
    }
    assert HasDevice(n, o, spent, q.newDevice);
  }

  lemma MoreDevices(m: Record, o: Order, spent: bool, few: set<Probe>, many: set<Probe>)
    requires RecordOfFile(m, o, spent, few) && few <= many
    ensures RecordOfFile(m, o, spent, many)
  {
    var p :| p in few && HasDevice(m, o, spent, p);
    assert p in many;
  }

  /** What a rebind step writes, if anything, is the moved record, to every repository it names. */
  lemma MoveWrites<R>(s: State<R>, step: Step<R>, r: R, f: string)
    requires step.Move? && r in s.world.tables && f in Next(s, step).world.tables[r]
    ensures var n, t := MovedRecord(s.world, step.primary, step.fileId, step.keys, step.request), Next(s, step);
            || (f in s.world.tables[r] && t.world.tables[r][f] == s.world.tables[r][f]
                && (n.None? || f != n.value.fileId || !(r == step.primary || r in step.mirrors)))
            || (n.Some? && f == n.value.fileId && t.world.tables[r][f] == Protect(step.keys, n.value))
  {
    hide Rebind.Rebound, RecordIn, Protect, Mirrored;
    assert forall m :: Protect(step.keys, m).fileId == m.fileId by { ProtectKeepsId(step.keys); }
  }

  lemma ProtectKeepsId(keys: ProtectionKeys)
    ensures forall m :: Protect(keys, m).fileId == m.fileId && Protect(keys, m).body == Encrypted(keys.encryption, m)
  {}

  lemma MoveKeepsTablesGood<R>(s: State<R>, step: Step<R>)
    requires Inv(s) && step.Move?
    requires MovedRecord(s.world, step.primary, step.fileId, step.keys, step.request).Some?
    ensures TablesGood(Next(s, step), Next(s, step).world.tables)
  {
    hide Rebind.Rebound, RecordOfFile, RecordIn, AfterMove, Protect, Spent, HasDevice;
    var t, f' := Next(s, step), step.fileId;
    var m := RecordIn(Lookup(TableOf(s.world, step.primary), f'), step.keys).value;
    var p := ReadableRow(s, step.primary, f', step.keys);
    var o, spent, devices := s.stored[f'], Spent(s, f'), DevicesOf(s, f');
    MoreDevices(m, o, spent, devices, devices + {step.request.newDevice});
    MovedRecordIsGood(m, o, spent, p, devices + {step.request.newDevice}, step.request);
    var n := Rebind.Rebound(m, step.request).value;
    OnlyOn(n, o, spent, step.request.newDevice, devices + {step.request.newDevice}, DevicesOf(t, f'));
    ProtectKeepsId(step.keys);
    KeepsItsId(n, o, spent, DevicesOf(t, f'));
    MoveSpendsNothing(s, step);
    forall r, f | r in t.world.tables && f in t.world.tables[r] ensures RowGood(t, f, t.world.tables[r][f]) {
      MoveWrites(s, step, r, f);
      if f in s.world.tables[r] && t.world.tables[r][f] == s.world.tables[r][f] {
        assert RowGood(s, f, s.world.tables[r][f]);
        if f == f' && Openable(s.world.tables[r][f]) && !Mirrored(s.world, step.primary, step.mirrors, f') {
          MoreDevices(s.world.tables[r][f].body.record, o, spent, devices, DevicesOf(t, f'));
        }
      }
    }
  }

  lemma KeepsItsId(m: Record, o: Order, spent: bool, devices: set<Probe>)
    requires RecordOfFile(m, o, spent, devices)
    ensures m.fileId == o.fileId
  {}

  lemma OnlyOn(m: Record, o: Order, spent: bool, p: Probe, many: set<Probe>, few: set<Probe>)
    requires RecordOfFile(m, o, spent, many) && HasDevice(m, o, spent, p) && p in few
    ensures RecordOfFile(m, o, spent, few)
  {}

  lemma MoveSpendsNothing<R>(s: State<R>, step: Step<R>)
    requires step.Move?
    ensures var t := Next(s, step);
            t.world.shown == s.world.shown && t.world.throttle == s.world.throttle && t.stored == s.stored
            && t.used == s.used && t.events == s.events && t.world.tables.Keys == s.world.tables.Keys
    ensures forall f :: Spent(Next(s, step), f) <==> Spent(s, f)
  {
    hide Rebind.TableAfterRebind, Enrolment;
  }

  lemma MoveKeepsInv<R>(s: State<R>, step: Step<R>)
    requires Inv(s) && step.Move?
    ensures Inv(Next(s, step))
  {
    hide Rebind.Rebound, RowGood, RecordIn;
    MoveSpendsNothing(s, step);
    if MovedRecord(s.world, step.primary, step.fileId, step.keys, step.request).Some? {
      MoveKeepsTablesGood(s, step);
    } else {
      assert Next(s, step).world.tables == s.world.tables;
      assert Next(s, step) == s;
    }
  }

  lemma {:induction false} StepKeepsInv<R>(s: State<R>, step: Step<R>)
    requires Inv(s) && Allowed(s, step)
    ensures Inv(Next(s, step))
  {
    hide Allowed, TablesGood, ShownGood, AfterStore, AfterMove, AfterAttempt, EndingOf, Enrolment;
    match step
    case Store(_, _, _) => StoreKeepsInv(s, step);
    case View(_, _, _) =>
      ViewKeepsThrottle(s, step);
      ViewKeepsShownGood(s, step);
      ViewKeepsTablesGood(s, step);
    case Move(_, _, _, _, _) => MoveKeepsInv(s, step);
    case Corrupt(_, _) => TamperKeepsInv(s, step);
    case Erase(_, _) => TamperKeepsInv(s, step);
  }

  // ---- The steps are what the services do (a view is AttemptAccess itself) ----------

  method StoreInWorld(
    service: SecureStorageService, o: Order, local: MetadataRepository, device: Device, ledger: Ledger,
    ghost throttle: DeviceMismatchThrottle, ghost viewer: Viewer, ghost registry: set<MetadataRepository>)
    returns (r: Result<WriteResult, StoreError>)
    requires ledger.AllWiped() && local in registry
    modifies local, device, ledger
    ensures ledger.AllWiped() && r == StoreOutcome(o, old(device.containers))
    ensures Snapshot(registry, throttle, viewer, device)
         == AfterStore(old(Snapshot(registry, throttle, viewer, device)), o, Some(local), None)
  {
    hide StoreOutcome, TableAfterStore, Ledger.AllWiped, Ledger.WipedBut;
    r := service.StoreFile(o, local, device, ledger);
  }

  /** The rebind of a file's record as it is stored now; None when no record opens. */
  method RebindInWorld(
    service: Rebind.DeviceRebindService, fileId: string, keys: ProtectionKeys, q: Rebind.Request, ledger: Ledger,
    ghost throttle: DeviceMismatchThrottle, ghost viewer: Viewer, ghost device: Device,
    ghost registry: set<MetadataRepository>) returns (r: Option<Result<(), Rebind.RebindError>>)
    requires ledger.AllWiped()
    requires service.repository in registry && forall m :: m in service.mirrors ==> m in registry
    modifies service.repository, service.mirrors, ledger
    ensures ledger.AllWiped()
    ensures Snapshot(registry, throttle, viewer, device)
         == AfterMove(old(Snapshot(registry, throttle, viewer, device)), service.repository, service.mirrors, fileId, keys, q)
  {
    hide Rebind.TableAfterRebind, Unprotect, Ledger.AllWiped, Ledger.WipedBut;
    var row := service.repository.Load(fileId);
    if row.None? {
      return None;
    }
    var m := Unprotect(keys, row.value);
    if m.None? {
      return None;
    }
    var metadata := new FileMetadata(m.value);
    var rebound := service.RebindDevice(metadata, q, keys, ledger);
    return Some(rebound);
  }

  // ---- Runs ------------------------------------------------------------------------

  function Initial<R>(repositories: set<R>): State<R> {
    State(World(map r | r in repositories :: map[], map[], [], map[]), map[], map[], {}, [])
  }

  ghost function Exec<R>(repositories: set<R>, steps: seq<Step<R>>): State<R> {
    if steps == [] then Initial(repositories)
    else Next(Exec(repositories, steps[..|steps| - 1]), steps[|steps| - 1])
  }

  ghost predicate AllowedRun<R>(repositories: set<R>, steps: seq<Step<R>>) {
    forall i :: 0 <= i < |steps| ==> Allowed(Exec(repositories, steps[..i]), steps[i])
  }

  lemma AllowedPrefix<R>(repositories: set<R>, steps: seq<Step<R>>)
    requires steps != [] && AllowedRun(repositories, steps)
    ensures AllowedRun(repositories, steps[..|steps| - 1])
    ensures Allowed(Exec(repositories, steps[..|steps| - 1]), steps[|steps| - 1])
  {
    hide Allowed, Exec;
    var before := steps[..|steps| - 1];
    forall i | 0 <= i < |before| ensures Allowed(Exec(repositories, before[..i]), before[i]) {
      assert before[..i] == steps[..i];
    }
  }

  lemma {:induction false} RunKeepsInv<R>(repositories: set<R>, steps: seq<Step<R>>)
    requires AllowedRun(repositories, steps)
    ensures Inv(Exec(repositories, steps))
  {
    hide AllowedRun, Allowed, Next;
    if steps != [] {
      AllowedPrefix(repositories, steps);
      RunKeepsInv(repositories, steps[..|steps| - 1]);
      StepKeepsInv(Exec(repositories, steps[..|steps| - 1]), steps[|steps| - 1]);
    }
  }

  /** In every run, a one-time file's content is shown at most once, whatever keys, devices
      or copies later attempts use; and nothing is ever shown for a file but its own stored
      plaintext. */
  lemma {:induction false} ViewedAtMostOnce<R>(repositories: set<R>, steps: seq<Step<R>>, fileId: string)
    requires AllowedRun(repositories, steps)
    ensures var s := Exec(repositories, steps);
            && (fileId in s.stored && s.stored[fileId].oneTimeAccess ==> Times(s.world.shown, fileId) <= 1)
            && forall v :: v in s.world.shown ==> v.fileId in s.stored && v.content == s.stored[v.fileId].plaintext
  {
    RunKeepsInv(repositories, steps);
  }

  /** In every run, whatever was stored, viewed, moved, copied or tampered with before, content
      is shown only for an unspent file before its own expiry, on the machine it was bound to,
      to a reading that passes for a device the file is enrolled on; for a device-only file
      that device's whole fingerprint is the same. */
  lemma {:induction false} ShownToTheRightDeviceOnly<R>(
    repositories: set<R>, steps: seq<Step<R>>, primary: R, a: Attempt) returns (p: Probe)
    requires AllowedRun(repositories, steps)
    requires Shows(EndingIn(Exec(repositories, steps).world, primary, a))
    ensures var s := Exec(repositories, steps);
            && a.fileId in s.stored && p in DevicesOf(s, a.fileId) && !Spent(s, a.fileId)
            && var o := s.stored[a.fileId];
               && EndingIn(s.world, primary, a).content == o.plaintext
               && (o.machineBinding == CurrentMachine ==> a.reading.machine == Some(o.currentMachine))
               && (o.machineBinding == SpecificMachine ==> o.targetMachine.Some? && a.reading.machine == o.targetMachine)
               && (o.expiry.expiresAt.Some? ==> a.validatedAt <= o.expiry.expiresAt.value)
               && (o.bindDevice ==> Accepts(BindTo(p, None), a.reading))
               && (o.bindDevice && o.machineBinding == NoMachine ==>
                     Material(a.reading.usbId, a.reading.descriptor) == Material(Some(p.usbId), p.descriptor))
  {
    hide Exec, EndingOf, HardwareMatches, Material, RecordOfFile, HasDevice, Spent;
    RunKeepsInv(repositories, steps);
    p := ShownMeansOwnContent(Exec(repositories, steps), primary, a);
  }

  /** Exactly when an attempt in a run is shown a row its keys open: the file unspent, the bytes
      its own, the reading that of a device it is enrolled on, and the owner's private key. */
  lemma {:induction false} ShownExactly<R>(repositories: set<R>, steps: seq<Step<R>>, primary: R, a: Attempt)
    returns (p: Probe)
    requires AllowedRun(repositories, steps)
    requires RecordIn(Lookup(TableOf(Exec(repositories, steps).world, primary), a.fileId), a.keys).Some?
    ensures var s := Exec(repositories, steps);
            && a.fileId in s.stored && p in DevicesOf(s, a.fileId)
            && var o := s.stored[a.fileId];
               Shows(EndingIn(s.world, primary, a)) <==>
                 && !a.forceDeception && !Locked(StateOf(s.world.throttle, a.fileId), a.lockReadAt)
                 && !Spent(s, a.fileId)
                 && a.bytes == Encoded(FileOf(o)) && o.fileId != "" && o.ownerId != ""
                 && (o.expiry.expiresAt.Some? ==> a.validatedAt <= o.expiry.expiresAt.value)
                 && (o.expiry.maxAccessCount.Some? ==> o.expiry.maxAccessCount.value > 0)
                 && PresentedAs(o, p, a.reading) && Opens(a.wrapper, o.wrapper)
  {
    hide Exec, PresentedAs, RecordOfFile, Spent;
    RunKeepsInv(repositories, steps);
    var s := Exec(repositories, steps);
    p := ReadableRow(s, primary, a.fileId, a.keys);
    var m, o := RecordIn(Lookup(TableOf(s.world, primary), a.fileId), a.keys).value, s.stored[a.fileId];
    if Spent(s, a.fileId) {
      if Shows(EndingIn(s.world, primary, a)) { var q := ShownMeansOwnContent(s, primary, a); }
    } else {
      UnspentShownExactly(Lookup(TableOf(s.world, primary), a.fileId), s.world.throttle, a, m, o, DevicesOf(s, a.fileId), p);
    }
  }

  lemma UnspentShownExactly(
    row: Option<Envelope>, throttle: Counters, a: Attempt, m: Record, o: Order, devices: set<Probe>, p: Probe)
    requires RecordIn(row, a.keys) == Some(m) && Recorded(o)
    requires RecordOfFile(m, o, false, devices) && HasDevice(m, o, false, p)
    ensures Shows(EndingOf(row, throttle, a)) <==>
              && !a.forceDeception && !Locked(StateOf(throttle, a.fileId), a.lockReadAt)
              && a.bytes == Encoded(FileOf(o)) && o.fileId != "" && o.ownerId != ""
              && (o.expiry.expiresAt.Some? ==> a.validatedAt <= o.expiry.expiresAt.value)
              && (o.expiry.maxAccessCount.Some? ==> o.expiry.maxAccessCount.value > 0)
              && PresentedAs(o, p, a.reading) && Opens(a.wrapper, o.wrapper)
  {
    hide AllTrue, ChecksFor, Accepts, Material, EffectiveWrapper, Locked, StateOf;
    PassesIffAdmitted(row, a.keys, a.bytes, a.reading, a.validatedAt);
    AdmittedExactly(m, o, devices, p, a);
    AcceptedOnMachine(o, p, a.reading);
    if a.bytes == Encoded(FileOf(o)) { OpensForOwnDevice(m, o, p, a); }
  }

  lemma AdmittedExactly(m: Record, o: Order, devices: set<Probe>, p: Probe, a: Attempt)
    requires Recorded(o) && RecordOfFile(m, o, false, devices) && HasDevice(m, o, false, p)
    ensures Admits(m, a.bytes, a.reading, a.validatedAt) <==>
              && a.bytes == Encoded(FileOf(o)) && o.fileId != "" && o.ownerId != ""
              && (o.expiry.expiresAt.Some? ==> a.validatedAt <= o.expiry.expiresAt.value)
              && (o.expiry.maxAccessCount.Some? ==> o.expiry.maxAccessCount.value > 0)
              && Accepts(BindingOn(o, p), a.reading)
  {
    hide Accepts, EffectiveWrapper, BindingOf, BindTo;
    AlgorithmNamed(EffectiveWrapper(o));
    assert m.wrappedKey != Foreign([]);
  }

  lemma OpensForOwnDevice(m: Record, o: Order, p: Probe, a: Attempt)
    requires Recorded(o) && HasDevice(m, o, false, p) && a.bytes == Encoded(FileOf(o))
    ensures Opened(FileToOpen(m, a), AttemptWrapper(m, a)).Success? <==>
              && Opens(a.wrapper, o.wrapper)
              && (o.bindDevice && o.machineBinding == NoMachine ==>
                    Material(a.reading.usbId, a.reading.descriptor) == Material(Some(p.usbId), p.descriptor))
  {
    hide Material, EffectiveWrapper, Algorithm;
    UnwrapExactly(a.wrapper, o.wrapper, o.fek);
  }

  /** Once a one-time file has been shown, every further attempt on it, through any
      repository and with any arguments, is refused and shows nothing; one that passes every
      check is told the access was already used. */
  lemma {:induction false} SpentFilesStayClosed<R>(repositories: set<R>, steps: seq<Step<R>>, primary: R, a: Attempt)
    requires AllowedRun(repositories, steps) && Spent(Exec(repositories, steps), a.fileId)
    ensures var e := EndingIn(Exec(repositories, steps).world, primary, a);
            && !Shows(e)
            && (e.Decoy? || e.Throttled? || e.Refused? || e == Undecryptable)
            && AnswerOf(e, a).Deceived?
            && (e == Undecryptable ==> AnswerOf(e, a) == Deceived(a.fileId, AccessAlreadyUsed))
  {
    hide EndingOf, Exec, RecordOfFile, TablesGood;
    RunKeepsInv(repositories, steps);
    var s := Exec(repositories, steps);
    if Shows(EndingIn(s.world, primary, a)) {
      var p := ShownMeansOwnContent(s, primary, a);
      assert false;
    }
    AttemptsAlwaysParse(repositories, steps, primary, a);
  }

  /** In every run, the keys an attempt is granted open the row that then stands for the file,
      in the primary and, after a one-time view, in every mirror; and every later validation of
      it under them reports what it reported before the attempt under the keys presented. */
  lemma {:induction false} GrantedKeysOpenWhatStands<R>(
    repositories: set<R>, steps: seq<Step<R>>, primary: R, mirrors: seq<R>, a: Attempt, r: R)
    requires AllowedRun(repositories, steps)
    requires var s := Exec(repositories, steps);
             && AnswerOf(EndingIn(s.world, primary, a), a).Granted? && a.fileId in s.stored
             && r in s.world.tables && (r == primary || (s.stored[a.fileId].oneTimeAccess && r in mirrors))
    ensures var s := Exec(repositories, steps);
            var row := Lookup(AfterAttempt(s.world, primary, mirrors, a).tables[r], a.fileId);
            var answer := AnswerOf(EndingIn(s.world, primary, a), a);
            && answer.fileId == a.fileId && RecordIn(row, answer.keys).Some?
            && SameChecks(row, answer.keys, Lookup(TableOf(s.world, primary), a.fileId), a.keys)
  {
    hide EndingOf, AnswerOf, TableAfter, SameChecks, RecordIn, RecordOfFile, Exec, PresentedAs, Spent, HasDevice;
    RunKeepsInv(repositories, steps);
    var s := Exec(repositories, steps);
    GrantsShow(EndingIn(s.world, primary, a), a);
    var p := ShownMeansOwnContent(s, primary, a);
    OneTimeAsStored(EndingIn(s.world, primary, a).metadata, s.stored[a.fileId], DevicesOf(s, a.fileId));
    GrantedKeysOpenTheRow(TableOf(s.world, primary), s.world.throttle, a, s.world.tables[r]);
  }

  lemma GrantsShow(e: Ending, a: Attempt)
    ensures AnswerOf(e, a).Granted? <==> e.Viewed?
  {}

  /** In every run, bytes that pass validation parse: no attempt escapes with a parse error. */
  lemma AttemptsAlwaysParse<R>(repositories: set<R>, steps: seq<Step<R>>, primary: R, a: Attempt)
    requires AllowedRun(repositories, steps)
    ensures EndingIn(Exec(repositories, steps).world, primary, a) != Unparsable
  {
    hide AllTrue, ChecksFor, Accepts, Exec, Opened;
    RunKeepsInv(repositories, steps);
    var s := Exec(repositories, steps);
    var row := Lookup(TableOf(s.world, primary), a.fileId);
    PassesIffAdmitted(row, a.keys, a.bytes, a.reading, a.validatedAt);
    if EndingIn(s.world, primary, a) == Unparsable {
      var p := ReadableRow(s, primary, a.fileId, a.keys);
    }
  }

  /** In any run, every copy of a reusable file that some keys open still carries the file's
      own key, and all of its record but the key's wrapping and the device it is enrolled on is
      as it was stored. */
  lemma {:induction false} ReusableFilesKeepTheirKey<R>(repositories: set<R>, steps: seq<Step<R>>, r: R, fileId: string)
    requires AllowedRun(repositories, steps)
    requires var s := Exec(repositories, steps);
             && fileId in s.stored && !s.stored[fileId].oneTimeAccess
             && r in s.world.tables && fileId in s.world.tables[r] && Openable(s.world.tables[r][fileId])
    ensures var s := Exec(repositories, steps);
            var m := s.world.tables[r][fileId].body.record;
            && CarriedKey(m.wrappedKey) == Some(s.stored[fileId].fek)
            && m == RecordOf(s.stored[fileId]).(wrappedKey := m.wrappedKey, binding := m.binding)
            && NamesMachine(s.stored[fileId], m.binding.machineFingerprint)
  {
    hide Exec;
    RunKeepsInv(repositories, steps);
    var s := Exec(repositories, steps);
    assert RowGood(s, fileId, s.world.tables[r][fileId]);
    WrapCarries(s.stored[fileId].wrapper, s.stored[fileId].fek);
  }

  /** Which devices a file is enrolled on changes only by a rebind of that file that succeeds. */
  /** The step rebinds this file, and succeeds. */
  ghost predicate Rebinds<R>(s: State<R>, step: Step<R>, fileId: string) {
    step.Move? && step.fileId == fileId
    && MovedRecord(s.world, step.primary, step.fileId, step.keys, step.request).Some?
  }

  /** None of these steps, taken after the ones before, rebinds this file. */
  ghost predicate NotRebound<R>(repositories: set<R>, before: seq<Step<R>>, later: seq<Step<R>>, fileId: string) {
    forall i :: 0 <= i < |later| ==> !Rebinds(Exec(repositories, before + later[..i]), later[i], fileId)
  }

  lemma NotReboundPrefix<R>(repositories: set<R>, before: seq<Step<R>>, later: seq<Step<R>>, fileId: string)
    requires later != [] && NotRebound(repositories, before, later, fileId)
    ensures NotRebound(repositories, before, later[..|later| - 1], fileId)
    ensures !Rebinds(Exec(repositories, before + later[..|later| - 1]), later[|later| - 1], fileId)
  {
    hide Exec, Rebinds;
    var fewer := later[..|later| - 1];
    forall i | 0 <= i < |fewer| ensures !Rebinds(Exec(repositories, before + fewer[..i]), fewer[i], fileId) {
      assert fewer[..i] == later[..i];
    }
  }

  lemma StepKeepsEnrolment<R>(s: State<R>, step: Step<R>, fileId: string)
    requires Allowed(s, step) && fileId in s.stored && !Rebinds(s, step, fileId)
    ensures fileId in Next(s, step).stored && DevicesOf(Next(s, step), fileId) == DevicesOf(s, fileId)
  {
    hide AfterStore, AfterMove, AfterAttempt, EndingOf, Recorded, MovedRecord, Mirrored;
  }

  lemma {:induction false} EnrolmentLasts<R>(repositories: set<R>, before: seq<Step<R>>, later: seq<Step<R>>, fileId: string)
    requires AllowedRun(repositories, before + later) && fileId in Exec(repositories, before).stored
    requires NotRebound(repositories, before, later, fileId)
    ensures fileId in Exec(repositories, before + later).stored
    ensures DevicesOf(Exec(repositories, before + later), fileId) == DevicesOf(Exec(repositories, before), fileId)
  {
    hide AllowedRun, Allowed, Next, DevicesOf, NotRebound, Rebinds;
    var steps := before + later;
    if later == [] {
      assert steps == before;
    } else {
      AllowedPrefix(repositories, steps);
      NotReboundPrefix(repositories, before, later, fileId);
      assert steps[..|steps| - 1] == before + later[..|later| - 1];
      assert steps[|steps| - 1] == later[|later| - 1];
      EnrolmentLasts(repositories, before, later[..|later| - 1], fileId);
      StepKeepsEnrolment(Exec(repositories, steps[..|steps| - 1]), steps[|steps| - 1], fileId);
    }
  }

  /** After a rebind that reached every copy, until a rebind of the file succeeds again, its content is
      shown only to a reading that passes for the new device: the old one is locked out. */
  lemma {:induction false} OnlyTheNewDevice<R>(
    repositories: set<R>, before: seq<Step<R>>, move: Step<R>, later: seq<Step<R>>, primary: R, a: Attempt)
    requires AllowedRun(repositories, before + [move] + later) && move.Move?
    requires NotRebound(repositories, before + [move], later, a.fileId)
    requires var s := Exec(repositories, before);
             Rebinds(s, move, a.fileId) && Mirrored(s.world, move.primary, move.mirrors, move.fileId)
    requires Shows(EndingIn(Exec(repositories, before + [move] + later).world, primary, a))
    ensures a.fileId in Exec(repositories, before + [move] + later).stored
    ensures PresentedAs(Exec(repositories, before + [move] + later).stored[a.fileId], move.request.newDevice, a.reading)
  {
    hide AllowedRun, EndingOf, PresentedAs, AfterMove, MovedRecord, Mirrored, RecordOfFile, Spent, HasDevice, NotRebound;
    var steps := before + [move] + later;
    RunKeepsInv(repositories, steps);
    var p := ShownMeansOwnContent(Exec(repositories, steps), primary, a);
    assert (before + [move])[..|before|] == before;
    assert before + ([move] + later) == steps;
    AllowedInitial(repositories, before, [move] + later);
    StoredWhenMoved(repositories, before, move);
    EnrolmentLasts(repositories, before + [move], later, a.fileId);
  }

  lemma {:induction false} AllowedInitial<R>(repositories: set<R>, before: seq<Step<R>>, later: seq<Step<R>>)
    requires AllowedRun(repositories, before + later)
    ensures AllowedRun(repositories, before)
  {
    hide Allowed, Exec;
    forall i | 0 <= i < |before| ensures Allowed(Exec(repositories, before[..i]), before[i]) {
      assert (before + later)[..i] == before[..i] && (before + later)[i] == before[i];
    }
  }

  lemma StoredWhenMoved<R>(repositories: set<R>, before: seq<Step<R>>, move: Step<R>)
    requires AllowedRun(repositories, before) && move.Move?
    requires MovedRecord(Exec(repositories, before).world, move.primary, move.fileId, move.keys, move.request).Some?
    ensures move.fileId in Exec(repositories, before).stored
  {
    hide Exec, RecordOfFile, Rebind.Rebound, AllowedRun;
    RunKeepsInv(repositories, before);
    var p := ReadableRow(Exec(repositories, before), move.primary, move.fileId, move.keys);
  }

  /** In every run, the throttle's counters for a file are those of the account lockout run on
      the mismatches and matches of attempts on that file; attempts made while it was locked,
      and failures that were no device mismatch, left no trace. */
  lemma {:induction false} ThrottleCountsMismatchesOnly<R>(repositories: set<R>, steps: seq<Step<R>>, fileId: string)
    requires AllowedRun(repositories, steps)
    ensures var s := Exec(repositories, steps);
            StateOf(s.world.throttle, fileId) == Lockout.Run(GuessesFor(s.events, fileId))
  {
    RunKeepsInv(repositories, steps);
    ThrottleRefinesLockout(Exec(repositories, steps).events, fileId);
  }

  // ---- Why a one-time view must complete, reach every copy and not be rolled back ----

  lemma UnlockedAfterMatch(c: Counters, fileId: string, now: Instant)
    ensures !Locked(StateOf(AfterMatch(c, fileId), fileId), now)
  {
    assert StateOf(AfterMatch(c, fileId), fileId) == Clear;
  }

  /** If the caller's view raises, or wrapping the decoy does, nothing is burned: the content
      was shown, and the same attempt is shown it again. */
  lemma UnfinishedViewIsRepeatable<R>(w: World<R>, primary: R, mirrors: seq<R>, a: Attempt)
    requires primary in w.tables && (EndingIn(w, primary, a).Raised? || EndingIn(w, primary, a).Unburned?)
    ensures var v := AfterAttempt(w, primary, mirrors, a);
            && v.tables == w.tables && v.containers == w.containers
            && EndingIn(v, primary, a) == EndingIn(w, primary, a)
            && Times(v.shown, a.fileId) == Times(w.shown, a.fileId) + 1
  {
    hide AllTrue, AttemptChecks, EndingAfterValidation, StateOf, AfterMatch, Locked, Times;
    var e := EndingIn(w, primary, a);
    TimesAppend(w.shown, Viewing(a.fileId, e.content), a.fileId);
    UnlockedAfterMatch(w.throttle, a.fileId, a.lockReadAt);
  }

  /** If a copy is neither the primary nor a mirror, it still shows the file afterwards. */
  lemma UnmirroredCopyStillOpens<R>(w: World<R>, primary: R, mirrors: seq<R>, a: Attempt, other: R, b: Attempt)
    requires Burns(EndingIn(w, primary, a))
    requires other in w.tables && other != primary && other !in mirrors
    requires EndingIn(w, other, b).Viewed? && a.fileId == b.fileId
    ensures EndingIn(AfterAttempt(w, primary, mirrors, a), other, b) == EndingIn(w, other, b)
  {
    hide AllTrue, AttemptChecks, EndingAfterValidation, StateOf, AfterMatch, Locked;
    UnlockedAfterMatch(w.throttle, a.fileId, b.lockReadAt);
  }

  /** If the row that stood before the burn is put back, the same attempt is shown again. */
  lemma RolledBackRowOpensAgain<R>(w: World<R>, primary: R, mirrors: seq<R>, a: Attempt)
    requires primary in w.tables && Burns(EndingIn(w, primary, a))
    ensures a.fileId in w.tables[primary]
    ensures var v := AfterAttempt(w, primary, mirrors, a);
            var rolledBack := v.(tables := v.tables[primary := v.tables[primary][a.fileId := w.tables[primary][a.fileId]]]);
            EndingIn(rolledBack, primary, a) == EndingIn(w, primary, a)
  {
    hide AllTrue, EndingAfterValidation, BurnEnvelope, StateOf, AfterMatch, Locked;
    PassesIffAdmitted(Lookup(TableOf(w, primary), a.fileId), a.keys, a.bytes, a.reading, a.validatedAt);
    UnlockedAfterMatch(w.throttle, a.fileId, a.lockReadAt);
  }
}
