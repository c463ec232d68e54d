// usb/secure_storage_service.py: encrypting a file, recording it, and writing
// its container to a device.

module Storage {
  import opened Results
  import opened ByteStrings
  import opened KeyWrapping
  import opened DeviceIdentity
  import opened MacInputs
  import opened Metadata
  import opened SecureMemory
  import opened FileCrypto

  datatype MachineBindingMode = NoMachine | CurrentMachine | SpecificMachine

  /** A container on a device: the encrypted file with its own and its portable record. */
  datatype StoredContainer = StoredContainer(
    fileId: string, file: StoredFile, metadata: Envelope, portable: Option<PortableCopy>)
  datatype PortableCopy = PortableCopy(salt: Bytes, protected: Envelope)

  class Device {
    var containers: map<string, StoredContainer>

    constructor ()
      ensures containers == map[]
    {
      containers := map[];
    }
  }

  /** What the caller asks for, with the readings and random draws of this call. */
  datatype Order = Order(
    plaintext: Bytes,
    device: Probe,
    wrapper: KeyWrapper,
    ownerId: string,
    overwrite: bool,
    protectionKeys: Option<ProtectionKeys>,
    expiry: ExpiryRules,
    oneTimeAccess: bool,
    bindDevice: bool,
    machineBinding: MachineBindingMode,
    currentMachine: string,
    targetMachine: Option<string>,
    portableKeys: Option<ProtectionKeys>,
    portableSalt: Option<Bytes>,
    fek: Key,
    drawnKeys: ProtectionKeys,
    fileId: string,
    now: Instant,
    wrapRaises: bool,
    writeFails: bool)

  datatype StoreError = BadArguments | EncryptionError | KeyWrappingError | WouldOverwrite | WriteFailed

  function MachineOf(o: Order): Option<string> {
    match o.machineBinding
    case NoMachine => None
    case CurrentMachine => Some(o.currentMachine)
    case SpecificMachine => o.targetMachine
  }

  function BindingOf(o: Order): DeviceBinding {
    if o.bindDevice then BindTo(o.device, MachineOf(o)) else Unbound.(machineFingerprint := MachineOf(o))
  }

  function EffectiveWrapper(o: Order): KeyWrapper {
    if o.bindDevice && o.machineBinding == NoMachine
    then DeviceBound(o.wrapper, DeviceKey(Material(Some(o.device.usbId), o.device.descriptor)))
    else o.wrapper
  }

  predicate GoodArguments(o: Order) {
    && (o.portableKeys.None? <==> o.portableSalt.None?)
    && (o.machineBinding == SpecificMachine ==> o.targetMachine.Some?)
  }

  function FileOf(o: Order): StoredFile {
    EncryptedWith(o.plaintext, o.fek, EffectiveWrapper(o))
  }

  function RecordOf(o: Order): Record {
    Record(o.fileId, o.ownerId, FileOf(o).wrappedKey, FileOf(o).wrapAlgorithm, Sha256(Encoded(FileOf(o))),
           o.now, None, 0, o.expiry, BindingOf(o), o.oneTimeAccess, CURRENT_VERSION)
  }

  function KeysOf(o: Order): ProtectionKeys {
    if o.protectionKeys.Some? then o.protectionKeys.value else o.drawnKeys
  }

  function ContainerOf(o: Order): StoredContainer {
    StoredContainer(
      o.fileId, FileOf(o), Protect(KeysOf(o), RecordOf(o)),
      if o.portableKeys.Some? && o.portableSalt.Some?
      then Some(PortableCopy(o.portableSalt.value, Protect(o.portableKeys.value, RecordOf(o)))) else None)
  }

  function PathOf(fileId: string): string {
    fileId + ".cusc"
  }

  datatype WriteResult = WriteResult(fileId: string, path: string, keys: ProtectionKeys, portableEmbedded: bool)

  /** The machine a record names is the one the order asks for. */
  predicate NamesMachine(o: Order, recorded: Option<string>) {
    && (o.machineBinding == NoMachine ==> recorded == None)
    && (o.machineBinding == CurrentMachine ==> recorded == Some(o.currentMachine))
    && (o.machineBinding == SpecificMachine ==> recorded == o.targetMachine)
  }

  /** The machine presented is the one the order asks for; with no machine asked for, any is. */
  predicate OnMachine(o: Order, presented: Option<string>) {
    && (o.machineBinding == CurrentMachine ==> presented == Some(o.currentMachine))
    && (o.machineBinding == SpecificMachine ==> presented == o.targetMachine)
  }

  /** The binding says what the order asks, field by field. */
  predicate BoundAsOrdered(o: Order, b: DeviceBinding) {
    && NamesMachine(o, b.machineFingerprint)
    && b.bound == o.bindDevice
    && (o.bindDevice ==>
          && b.deviceId == Some(o.device.device.deviceId) && b.volumeLabel == Some(o.device.device.volumeLabel)
          && b.usbSerial == Some(o.device.usbId)
          && (o.device.descriptor.Some? ==>
                && b.vendorId == o.device.descriptor.value.vendorId
                && b.productId == o.device.descriptor.value.productId
                && b.hardwareSerial == o.device.descriptor.value.hardwareSerial)
          && (o.device.descriptor.None? ==> b.vendorId == b.productId == b.hardwareSerial == None))
    && (!o.bindDevice ==>
          && b.deviceId == b.volumeLabel == b.usbSerial == None
          && b.vendorId == b.productId == b.hardwareSerial == None)
  }

  /** The record says what the order asks, for a file encrypted as these bytes. */
  predicate RecordedAsOrdered(o: Order, m: Record, bytes: FileBytes) {
    && m.fileId == o.fileId && m.ownerId == o.ownerId && m.expiry == o.expiry && m.oneTimeAccess == o.oneTimeAccess
    && m.createdAt == o.now && m.lastAccessedAt == None && m.accessCount == 0 && m.version == 1
    && bytes.Encoded? && m.integrityHash == Sha256(bytes)
    && m.wrappedKey == bytes.file.wrappedKey && m.wrapAlgorithm == bytes.file.wrapAlgorithm
    && BoundAsOrdered(o, m.binding)
  }

  /** The record of this order exists, whatever becomes of its container. */
  predicate Recorded(o: Order) {
    GoodArguments(o) && |o.fek| == KEY_SIZE && !o.wrapRaises
  }

  function StoreOutcome(o: Order, containers: map<string, StoredContainer>): Result<WriteResult, StoreError> {
    if !GoodArguments(o) then Failure(BadArguments)
    else if |o.fek| != KEY_SIZE then Failure(EncryptionError)
    else if o.wrapRaises then Failure(KeyWrappingError)
    else if PathOf(o.fileId) in containers && !o.overwrite then Failure(WouldOverwrite)
    else if o.writeFails then Failure(WriteFailed)
    else Success(WriteResult(o.fileId, PathOf(o.fileId), KeysOf(o), o.portableKeys.Some?))
  }

  function TableAfterStore(t: Table, o: Order): Table {
    if Recorded(o) then Saved(t, Protect(KeysOf(o), RecordOf(o))) else t
  }

  function ContainersAfterStore(c: map<string, StoredContainer>, o: Order): map<string, StoredContainer> {
    if StoreOutcome(o, c).Success? then c[PathOf(o.fileId) := ContainerOf(o)] else c
  }

  lemma KeptUnderItsKeys(o: Order)
    ensures Unprotect(KeysOf(o), Protect(KeysOf(o), RecordOf(o))) == Some(RecordOf(o))
    ensures Protect(KeysOf(o), RecordOf(o)).fileId == o.fileId
  {}

  class SecureStorageService {
    const encryptor: FileEncryptor

    constructor () {
      encryptor := new FileEncryptor();
    }

    /** The binding names exactly the machine asked for: the target, this one, or none. */
    static method DeviceBindingAndWrapper(o: Order) returns (r: Option<(DeviceBinding, KeyWrapper)>)
      ensures r.None? <==> o.machineBinding == SpecificMachine && o.targetMachine.None?
      ensures r.Some? ==> BoundAsOrdered(o, r.value.0)
      ensures r.Some? && !(o.bindDevice && o.machineBinding == NoMachine) ==> r.value.1 == o.wrapper
      ensures r == if o.machineBinding == SpecificMachine && o.targetMachine.None? then None
                   else Some((BindingOf(o), EffectiveWrapper(o)))
    {
      if o.machineBinding == SpecificMachine && o.targetMachine.None? {
        return None;
      }
      var machineFingerprint: Option<string> := None;
      if o.machineBinding == CurrentMachine {
        machineFingerprint := Some(o.currentMachine);
      } else if o.machineBinding == SpecificMachine {
        machineFingerprint := o.targetMachine;
      }
      if !o.bindDevice {
        return Some((Unbound.(machineFingerprint := machineFingerprint), o.wrapper));
      }
      var effective := o.wrapper;
      if o.machineBinding == NoMachine {
        effective := DeviceBound(o.wrapper, DeviceKey(Material(Some(o.device.usbId), o.device.descriptor)));
      }
      return Some((BindTo(o.device, machineFingerprint), effective));
    }

    /** The record is saved before the container is written: a failed write leaves it behind. */
    method StoreFile(o: Order, repository: MetadataRepository?, device: Device, ledger: Ledger)
      returns (r: Result<WriteResult, StoreError>)
      requires ledger.AllWiped()
      modifies repository, device, ledger
      ensures ledger.AllWiped()
      ensures r == StoreOutcome(o, old(device.containers))
      ensures r.Success? && repository != null ==>
                && r.value.fileId in repository.rows && Unprotect(r.value.keys, repository.rows[r.value.fileId]).Some?
                && (o.protectionKeys.Some? ==> r.value.keys == o.protectionKeys.value)
      ensures device.containers == ContainersAfterStore(old(device.containers), o)
      ensures repository != null ==> repository.rows == TableAfterStore(old(repository.rows), o)
    {
      hide Ledger.AllWiped, Ledger.WipedBut, Protect, Unprotect, BoundAsOrdered, EffectiveWrapper, BindingOf;
      KeptUnderItsKeys(o);
      if o.portableKeys.None? != o.portableSalt.None? {
        return Failure(BadArguments);
      }
      var binding := DeviceBindingAndWrapper(o);
      if binding.None? {
        return Failure(BadArguments);
      }
      var file := encryptor.EncryptBytes(o.plaintext, o.fek, binding.value.1, o.wrapRaises, ledger);
      if file.Failure? {
        return Failure(if file.error == WrappingFailed then KeyWrappingError else EncryptionError);
      }
      var m := Record(
        o.fileId, o.ownerId, file.value.wrappedKey, file.value.wrapAlgorithm, Sha256(Encoded(file.value)),
        o.now, None, 0, o.expiry, binding.value.0, o.oneTimeAccess, CURRENT_VERSION);
      var keys := KeysOf(o);
      var protected := Protect(keys, m);
      if repository != null {
        repository.Save(protected);
      }
      var portable: Option<PortableCopy> := None;
      if o.portableKeys.Some? {
        portable := Some(PortableCopy(o.portableSalt.value, Protect(o.portableKeys.value, m)));
      }
      var path := PathOf(o.fileId);
      if path in device.containers && !o.overwrite {
        return Failure(WouldOverwrite);
      }
      if o.writeFails {
        return Failure(WriteFailed);
      }
      device.containers := device.containers[path := StoredContainer(o.fileId, file.value, protected, portable)];
      return Success(WriteResult(o.fileId, path, keys, portable.Some?));
    }

    /** The file id and encrypted bytes in the form an access attempt expects. */
    method ReadEncryptedFileBytes(device: Device, path: string) returns (r: Option<(string, FileBytes)>)
      ensures r == if path in device.containers
                   then Some((device.containers[path].fileId, Encoded(device.containers[path].file))) else None
    {
      if path !in device.containers {
        return None;
      }
      var c := device.containers[path];
      return Some((c.fileId, Encoded(c.file)));
    }

    /** Deep-verifies a stored container under the binding arguments presented. */
    method VerifyStoredFile(
      device: Device, path: string, wrapper: KeyWrapper, keys: ProtectionKeys, presented: Option<Probe>,
      bindDevice: bool, mode: MachineBindingMode, ledger: Ledger) returns (ok: bool)
      requires ledger.AllWiped()
      modifies ledger
      ensures ledger.AllWiped()
      ensures ok <==>
                && path in device.containers
                && (bindDevice && mode == NoMachine ==> presented.Some?)
                && Opened(device.containers[path].file, VerifierWrapper(wrapper, presented, bindDevice, mode)).Success?
                && Unprotect(keys, device.containers[path].metadata).Some?
    {
      if bindDevice && mode == NoMachine && presented.None? {
        return false;
      }
      if path !in device.containers {
        return false;
      }
      var c := device.containers[path];
      var effective := VerifierWrapper(wrapper, presented, bindDevice, mode);
      var r := VerifyContainerDeep(c.file, c.metadata, effective, keys, ledger);
      return r == Success(true);
    }
  }

  function VerifierWrapper(
    wrapper: KeyWrapper, presented: Option<Probe>, bindDevice: bool, mode: MachineBindingMode): KeyWrapper
  {
    if bindDevice && mode == NoMachine && presented.Some?
    then DeviceBound(wrapper, DeviceKey(Material(Some(presented.value.usbId), presented.value.descriptor)))
    else wrapper
  }

  /** Exactly when storing succeeds and which error comes first otherwise. */
  lemma StoresExactly(o: Order, c: map<string, StoredContainer>)
    ensures var r, taken := StoreOutcome(o, c), o.fileId + ".cusc" in c;
            var bad := (o.portableKeys.Some? != o.portableSalt.Some?)
                       || (o.machineBinding == SpecificMachine && o.targetMachine.None?);
            && (r.Success? <==>
                  !bad && |o.fek| == 32 && !o.wrapRaises && (taken ==> o.overwrite) && !o.writeFails)
            && (r == Failure(BadArguments) <==> bad)
            && (r == Failure(EncryptionError) <==> !bad && |o.fek| != 32)
            && (r == Failure(KeyWrappingError) <==> !bad && |o.fek| == 32 && o.wrapRaises)
            && (r == Failure(WouldOverwrite) <==> !bad && |o.fek| == 32 && !o.wrapRaises && taken && !o.overwrite)
  {}

  /** After a successful store, the file named in the result stands at the path named in it, and
      the keys named in it, the caller's own if it gave any, open one and the same record in the
      repository and in the container; its portable copy opens under the portable keys. Nothing
      else changed. A failed write leaves the record behind and the containers alone. */
  lemma StoreIsReadable(o: Order, t: Table, c: map<string, StoredContainer>)
    ensures var r, rows, now := StoreOutcome(o, c), TableAfterStore(t, o), ContainersAfterStore(c, o);
            && rows - {o.fileId} == t - {o.fileId}
            && (r.Failure? ==> now == c)
            && (r.Failure? && r.error in {BadArguments, EncryptionError, KeyWrappingError} ==> rows == t)
            && (r.Success? ==>
                  && r.value.fileId == o.fileId && r.value.portableEmbedded == o.portableKeys.Some?
                  && (o.protectionKeys.Some? ==> r.value.keys == o.protectionKeys.value)
                  && (o.protectionKeys.None? ==> r.value.keys == o.drawnKeys)
                  && r.value.path in now && now - {r.value.path} == c - {r.value.path}
                  && now[r.value.path].fileId == o.fileId && o.fileId in rows
                  && var s := now[r.value.path];
                     var m := Unprotect(r.value.keys, rows[o.fileId]);
                     && m.Some? && RecordedAsOrdered(o, m.value, Encoded(s.file))
                     && Unprotect(r.value.keys, s.metadata) == m
                     && s.file.content.Sealed? && s.file.content.plaintext == o.plaintext
                     && s.portable.Some? == o.portableKeys.Some?
                     && (o.portableKeys.Some? ==>
                           && s.portable.value.salt == o.portableSalt.value
                           && Unprotect(o.portableKeys.value, s.portable.value.protected) == m))
            && (r == Failure(WouldOverwrite) || r == Failure(WriteFailed) ==>
                  o.fileId in rows
                  && var keys := if o.protectionKeys.Some? then o.protectionKeys.value else o.drawnKeys;
                     Unprotect(keys, rows[o.fileId]).Some?)
  {
    hide EffectiveWrapper, Algorithm, Wrap;
    BindingAsOrdered(o);
  }

  lemma BindingAsOrdered(o: Order)
    ensures BoundAsOrdered(o, BindingOf(o))
  {}

  /** A stored container deep-verifies under the arguments it was stored with, and for a
      device-only file under no device that derives another fingerprint. */
  lemma StoredContainerVerifies(o: Order, presented: Option<Probe>)
    requires GoodArguments(o) && |o.fek| == KEY_SIZE && Paired(o.wrapper)
    ensures presented == Some(o.device) ==>
              && Opened(ContainerOf(o).file, VerifierWrapper(o.wrapper, presented, o.bindDevice, o.machineBinding))
                 == Success(o.plaintext)
              && Unprotect(KeysOf(o), ContainerOf(o).metadata) == Some(RecordOf(o))
    ensures o.bindDevice && o.machineBinding == NoMachine && presented.Some?
            && Material(Some(presented.value.usbId), presented.value.descriptor)
               != Material(Some(o.device.usbId), o.device.descriptor)
            ==> Opened(ContainerOf(o).file, VerifierWrapper(o.wrapper, presented, o.bindDevice, o.machineBinding)).Failure?
  {
    PairedOpensItself(EffectiveWrapper(o));
    OpensOwnFiles(o.plaintext, o.fek, EffectiveWrapper(o),
                  VerifierWrapper(o.wrapper, presented, o.bindDevice, o.machineBinding));
  }

  /** A binding the service builds accepts the readings it was built from, on the machine it
      names or, naming none, on any. */
  lemma StoredBindingAccepted(o: Order, machine: Option<string>)
    requires OnMachine(o, machine)
    ensures Accepts(BindingOf(o), ReadingOf(o.device, machine))
    ensures GoodArguments(o) ==> (DeviceOnly(BindingOf(o)) <==> o.bindDevice && o.machineBinding == NoMachine)
  {}
}
