// metadata/device_rebind.py: moving a bound file to a newly presented device.

module Rebind {
  import opened Results
  import opened ByteStrings
  import opened KeyWrapping
  import opened DeviceIdentity
  import opened MacInputs
  import opened Metadata
  import opened SecureMemory
  import opened FileCrypto

  datatype RebindError = NotBound | WrongPassphrase | OldDeviceRequired | CannotUnwrap | CannotWrap

  /** An exported private key: it loads with its own passphrase only. */
  datatype KeyFile = KeyFile(keyPair: nat, passphrase: Bytes)

  function PlainWrapper(keyPair: nat): KeyWrapper {
    RsaOaep(keyPair, Some(keyPair))
  }

  function DeviceKeyOf(p: Probe): DeviceKey {
    DeviceKey(Material(Some(p.usbId), p.descriptor))
  }

  /** The wrapper a file with this binding needs when p is the presented device. */
  function WrapperFor(keyPair: nat, b: DeviceBinding, p: Probe): KeyWrapper {
    if DeviceOnly(b) then DeviceBound(PlainWrapper(keyPair), DeviceKeyOf(p)) else PlainWrapper(keyPair)
  }

  /** What the caller supplies besides the record, and whether wrapping for the new device raises. */
  datatype Request = Request(
    keyFile: KeyFile, passphrase: Bytes, newDevice: Probe, oldDevice: Option<Probe>, wrapRaises: bool)

  function OldWrapper(m: Record, q: Request): KeyWrapper
    requires DeviceOnly(m.binding) ==> q.oldDevice.Some?
  {
    if DeviceOnly(m.binding) then DeviceBound(PlainWrapper(q.keyFile.keyPair), DeviceKeyOf(q.oldDevice.value))
    else PlainWrapper(q.keyFile.keyPair)
  }

  function Rebound(m: Record, q: Request): Result<Record, RebindError> {
    if !m.binding.bound then Failure(NotBound)
    else if q.passphrase != q.keyFile.passphrase then Failure(WrongPassphrase)
    else if DeviceOnly(m.binding) && q.oldDevice.None? then Failure(OldDeviceRequired)
    else match Unwrap(OldWrapper(m, q), m.wrappedKey)
      case None => Failure(CannotUnwrap)
      case Some(fek) =>
        match TryWrap(WrapperFor(q.keyFile.keyPair, m.binding, q.newDevice), fek, q.wrapRaises)
        case None => Failure(CannotWrap)
        case Some(wrapped) =>
          Success(m.(wrappedKey := wrapped, binding := BindTo(q.newDevice, m.binding.machineFingerprint)))
  }

  /** A table after the rebind of record m: the rebound record saved, or nothing. */
  function TableAfterRebind(t: Table, m: Record, q: Request, keys: ProtectionKeys): Table {
    var r := Rebound(m, q);
    if r.Success? then Saved(t, Protect(keys, r.value)) else t
  }

  /** The repository holds this record, and these keys open it. */
  ghost predicate SavedUnder(repository: MetadataRepository, m: Record, keys: ProtectionKeys)
    reads repository
  {
    m.fileId in repository.rows && Unprotect(keys, repository.rows[m.fileId]) == Some(m)
  }

  class DeviceRebindService {
    const repository: MetadataRepository
    const mirrors: seq<MetadataRepository>

    constructor (repository: MetadataRepository, mirrors: seq<MetadataRepository>)
      ensures this.repository == repository && this.mirrors == mirrors
    {
      this.repository := repository;
      this.mirrors := mirrors;
    }

    /** A rebind that fails changes neither the record nor any repository, even if it fails
        after the file key was unwrapped; one that succeeds saves the rebound record to all of
        them. Whenever the key was unwrapped, its buffer was made and is destroyed. */
    method RebindDevice(metadata: FileMetadata, q: Request, keys: ProtectionKeys, ledger: Ledger)
      returns (r: Result<(), RebindError>)
      requires ledger.AllWiped()
      modifies metadata, repository, mirrors, ledger
      ensures ledger.AllWiped()
      ensures r.Success? || r == Failure(CannotWrap) ==> old(ledger.buffers) < ledger.buffers
      ensures r.Failure? ==> Rebound(old(metadata.data), q) == Failure(r.error) && metadata.data == old(metadata.data)
      ensures r.Failure? ==> repository.rows == old(repository.rows) && forall x :: x in mirrors ==> x.rows == old(x.rows)
      ensures r == Failure(NotBound) <==> !old(metadata.data).binding.bound
      ensures r == Failure(WrongPassphrase) <==>
                old(metadata.data).binding.bound && q.passphrase != q.keyFile.passphrase
      ensures r.Success? ==> SavedUnder(repository, metadata.data, keys)
      ensures r.Success? ==> forall x :: x in mirrors ==> SavedUnder(x, metadata.data, keys)
      ensures r.Success? ==> Rebound(old(metadata.data), q) == Success(metadata.data)
      ensures repository.rows == TableAfterRebind(old(repository.rows), old(metadata.data), q, keys)
      ensures forall x :: x in mirrors ==> x.rows == TableAfterRebind(old(x.rows), old(metadata.data), q, keys)
    {
      hide Ledger.AllWiped, Ledger.WipedBut, Material;
      if !metadata.data.binding.bound {
        return Failure(NotBound);
      }
      var deviceOnly := metadata.data.binding.machineFingerprint.None?;
      if q.passphrase != q.keyFile.passphrase {
        return Failure(WrongPassphrase);
      }
      var keyWrapper := PlainWrapper(q.keyFile.keyPair);
      var effective := keyWrapper;
      if deviceOnly {
        if q.oldDevice.None? {
          return Failure(OldDeviceRequired);
        }
        effective := DeviceBound(keyWrapper, DeviceKeyOf(q.oldDevice.value));
      }
      var unwrapped := Unwrap(effective, metadata.data.wrappedKey);
      if unwrapped.None? {
        return Failure(CannotUnwrap);
      }
      var newWrapper := keyWrapper;
      if deviceOnly {
        newWrapper := DeviceBound(keyWrapper, DeviceKeyOf(q.newDevice));
      }
      var wrapped := WrapAndDestroy(unwrapped.value, newWrapper, q.wrapRaises, ledger);
      if wrapped.None? {
        return Failure(CannotWrap);
      }
      metadata.data := metadata.data.(wrappedKey := wrapped.value);
      metadata.data := metadata.data.(binding := BindTo(q.newDevice, metadata.data.binding.machineFingerprint));
      SaveEverywhere(repository, mirrors, Protect(keys, metadata.data));
      return Success(());
    }
  }

  // ---- Any sequence of rebinds ---------------------------------------------------

  /** The record after these requests, a failed one changing nothing. */
  function AfterRebinds(m: Record, qs: seq<Request>): Record {
    if qs == [] then m
    else
      var before := AfterRebinds(m, qs[..|qs| - 1]);
      var r := Rebound(before, qs[|qs| - 1]);
      if r.Success? then r.value else before
  }

  /** The device of the last request that succeeded, or the one enrolled to begin with. */
  function NewestDevice(m: Record, enrolled: Probe, qs: seq<Request>): Probe {
    if qs == [] then enrolled
    else if Rebound(AfterRebinds(m, qs[..|qs| - 1]), qs[|qs| - 1]).Success? then qs[|qs| - 1].newDevice
    else NewestDevice(m, enrolled, qs[..|qs| - 1])
  }

  /** m is bound to p and its file key is wrapped for p and this key pair. */
  predicate EnrolledOn(m: Record, p: Probe, keyPair: nat, fek: Key) {
    && m.binding == BindTo(p, m.binding.machineFingerprint)
    && m.wrappedKey == Wrap(WrapperFor(keyPair, m.binding, p), fek)
  }

  /** Exactly when a rebind of an enrolled record succeeds: the key file's own passphrase, the
      owner's key pair, wrapping that does not raise and, for a device-only file, the enrolled
      fingerprint presented; and which error comes first otherwise. */
  lemma RebindSucceedsExactly(m: Record, p: Probe, keyPair: nat, fek: Key, q: Request)
    requires EnrolledOn(m, p, keyPair, fek)
    ensures var deviceOnly := m.binding.machineFingerprint.None?;
            var presented := q.oldDevice.Some?
                             && Material(Some(q.oldDevice.value.usbId), q.oldDevice.value.descriptor)
                                == Material(Some(p.usbId), p.descriptor);
            && (Rebound(m, q).Success? <==>
                  && q.passphrase == q.keyFile.passphrase && q.keyFile.keyPair == keyPair && !q.wrapRaises
                  && (deviceOnly ==> presented))
            && (Rebound(m, q) == Failure(WrongPassphrase) <==> q.passphrase != q.keyFile.passphrase)
            && (Rebound(m, q) == Failure(OldDeviceRequired) <==>
                  q.passphrase == q.keyFile.passphrase && deviceOnly && q.oldDevice.None?)
            && (Rebound(m, q) == Failure(CannotUnwrap) <==>
                  && q.passphrase == q.keyFile.passphrase && (deviceOnly ==> q.oldDevice.Some?)
                  && (q.keyFile.keyPair != keyPair || (deviceOnly && !presented)))
  {
    hide Material;
    if DeviceOnly(m.binding) ==> q.oldDevice.Some? {
      UnwrapExactly(OldWrapper(m, q), WrapperFor(keyPair, m.binding, p), fek);
    }
  }

  lemma OneRebind(m: Record, p: Probe, keyPair: nat, fek: Key, q: Request)
    requires EnrolledOn(m, p, keyPair, fek) && Rebound(m, q).Success?
    ensures var n := Rebound(m, q).value;
            && EnrolledOn(n, q.newDevice, keyPair, fek)
            && n == m.(wrappedKey := n.wrappedKey, binding := n.binding)
            && n.binding.machineFingerprint == m.binding.machineFingerprint
            && (DeviceOnly(m.binding) ==> DeviceKeyOf(q.oldDevice.value) == DeviceKeyOf(p))
  {
    UnwrapExactly(OldWrapper(m, q), WrapperFor(keyPair, m.binding, p), fek);
  }

  /** A device-only file moves only in the presence of its enrolled device. A caller that
      presents one device as both the old and the new one, as the page's rebind button does,
      can only re-enroll a device with the enrolled fingerprint. */
  lemma OneDevicePresentedTwiceMovesNothing(m: Record, p: Probe, keyPair: nat, fek: Key, q: Request)
    requires EnrolledOn(m, p, keyPair, fek) && DeviceOnly(m.binding)
    requires q.oldDevice == Some(q.newDevice) && Rebound(m, q).Success?
    ensures DeviceKeyOf(q.newDevice) == DeviceKeyOf(p)
    ensures Rebound(m, q).value.wrappedKey == m.wrappedKey
  {
    UnwrapExactly(OldWrapper(m, q), WrapperFor(keyPair, m.binding, p), fek);
  }

  /** However many rebinds succeed or fail, the file key and everything else in the record
      stay as stored, the machine binding included, and the record is enrolled on the device
      of the last success. */
  lemma {:induction false} RebindsKeepTheKey(m: Record, enrolled: Probe, keyPair: nat, fek: Key, qs: seq<Request>)
    requires EnrolledOn(m, enrolled, keyPair, fek)
    ensures var n, p := AfterRebinds(m, qs), NewestDevice(m, enrolled, qs);
            && EnrolledOn(n, p, keyPair, fek)
            && n == m.(wrappedKey := n.wrappedKey, binding := n.binding)
            && n.binding.machineFingerprint == m.binding.machineFingerprint
  {
    if qs != [] {
      RebindsKeepTheKey(m, enrolled, keyPair, fek, qs[..|qs| - 1]);
      var before, last := AfterRebinds(m, qs[..|qs| - 1]), NewestDevice(m, enrolled, qs[..|qs| - 1]);
      if Rebound(before, qs[|qs| - 1]).Success? {
        OneRebind(before, last, keyPair, fek, qs[|qs| - 1]);
      }
    }
  }

  /** Afterwards the newest device is accepted on the bound machine and its wrapper reaches
      the original file key; for a file bound to no machine, a device deriving another
      fingerprint reaches nothing. */
  lemma NewestDeviceOpens(
    m: Record, enrolled: Probe, keyPair: nat, fek: Key, qs: seq<Request>, machine: Option<string>, other: Probe)
    requires EnrolledOn(m, enrolled, keyPair, fek)
    requires FieldMatches(m.binding.machineFingerprint, machine)
    ensures var n, p := AfterRebinds(m, qs), NewestDevice(m, enrolled, qs);
            && Accepts(n.binding, ReadingOf(p, machine))
            && Unwrap(WrapperFor(keyPair, n.binding, p), n.wrappedKey) == Some(fek)
            && (DeviceOnly(n.binding) && DeviceKeyOf(other) != DeviceKeyOf(p) ==>
                  Unwrap(WrapperFor(keyPair, n.binding, other), n.wrappedKey) == None)
  {
    RebindsKeepTheKey(m, enrolled, keyPair, fek, qs);
    var n, p := AfterRebinds(m, qs), NewestDevice(m, enrolled, qs);
    BoundDeviceAccepted(p, n.binding.machineFingerprint, machine);
    UnwrapExactly(WrapperFor(keyPair, n.binding, p), WrapperFor(keyPair, n.binding, p), fek);
    UnwrapExactly(WrapperFor(keyPair, n.binding, other), WrapperFor(keyPair, n.binding, p), fek);
  }
}
