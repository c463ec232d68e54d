// usb/secure_storage_service.py over usb/storage_writer.py: the containers a
// device holds as terms, and the bytes on its volume that stand for them.

module StoredBytes {
  import opened Results
  import opened ByteStrings
  import opened FileContainer
  import opened SecureContainer
  import opened StorageWriter
  import PortableEnvelope
  import Metadata
  import Storage

  type FileTerm = Metadata.StoredFile
  type EnvelopeTerm = Metadata.Envelope
  type EnvelopeBytes = PortableEnvelope.ProtectedMetadata

  /** Which bytes each ciphertext, wrapped key and tag is, as real cryptography would have it. */
  datatype Coding = Coding(
    file: FileTerm -> EncryptedContainer,
    fileTerm: EncryptedContainer -> FileTerm,
    envelope: EnvelopeTerm -> EnvelopeBytes,
    envelopeTerm: EnvelopeBytes -> EnvelopeTerm)

  /** Distinct terms have distinct bytes, nonces have their size, and file ids stay readable. */
  ghost predicate Faithful(coding: Coding) {
    && (forall f :: coding.fileTerm(coding.file(f)) == f && |coding.file(f).nonce| == NONCE_SIZE)
    && (forall e :: coding.envelopeTerm(coding.envelope(e)) == e && coding.envelope(e).fileId == e.fileId)
  }

  function ToContainer(coding: Coding, s: Storage.StoredContainer): Container {
    Container(s.fileId, coding.file(s.file), coding.envelope(s.metadata),
              if s.portable.None? then None
              else Some(PortableEnvelope.Envelope(s.portable.value.salt, coding.envelope(s.portable.value.protected))))
  }

  function FromContainer(coding: Coding, c: Container): Storage.StoredContainer {
    Storage.StoredContainer(c.fileId, coding.fileTerm(c.file), coding.envelopeTerm(c.metadata),
                            if c.portable.None? then None
                            else Some(Storage.PortableCopy(
                                        c.portable.value.salt, coding.envelopeTerm(c.portable.value.protected))))
  }

  /** The container some bytes stand for, if they parse. */
  function ReadStored(coding: Coding, data: Bytes, sha: HashFunction): Option<Storage.StoredContainer> {
    match DeserializeContainer(data, sha)
    case Failure(_) => None
    case Success(c) => Some(FromContainer(coding, c))
  }

  lemma ThereAndBack(coding: Coding, s: Storage.StoredContainer)
    requires Faithful(coding)
    ensures FromContainer(coding, ToContainer(coding, s)) == s
  {}

  /** Whatever the storage service builds and can be serialized reads back as it was. */
  lemma StoredReadsBack(coding: Coding, s: Storage.StoredContainer, sha: HashFunction)
    requires Faithful(coding) && s.metadata.fileId == s.fileId
    requires SerializeContainer(ToContainer(coding, s), sha).Success?
    ensures WellFormed(ToContainer(coding, s))
    ensures ReadStored(coding, SerializeContainer(ToContainer(coding, s), sha).value, sha) == Some(s)
  {
    hide DeserializeContainer, ContainerLayout;
    RoundTrip(ToContainer(coding, s), sha);
    ThereAndBack(coding, s);
  }

  /** Every container stands on the volume under its own name. */
  ghost predicate Holds(
    coding: Coding, sha: HashFunction, files: Files, containers: map<string, Storage.StoredContainer>)
  {
    forall path :: path in containers ==>
      && path == Storage.PathOf(containers[path].fileId) && path in files
      && ReadStored(coding, files[path], sha) == Some(containers[path])
  }

  lemma TempIsNoContainer(destination: string, suffix: string, fileId: string)
    ensures TempName(destination, suffix) != Storage.PathOf(fileId)
  {
    var temp, path := TempName(destination, suffix), Storage.PathOf(fileId);
    assert temp[|temp| - 1] == 'p' && path[|path| - 1] == 'c';
  }

  /** Writing a container to the volume does to the containers it stands for what the storage
      service says it does: the new one is there after a success, and a failure leaves every
      one as it was unless the medium did not keep what was written. */
  method WriteStored(
    coding: Coding, s: Storage.StoredContainer, ghost containers: map<string, Storage.StoredContainer>,
    volume: Volume, deviceOk: bool, overwrite: bool, suffix: string, faults: Faults, sha: HashFunction)
    returns (r: Result<string, WriteError>)
    requires Faithful(coding) && s.metadata.fileId == s.fileId && s.fileId != ""
    requires volume.Valid() && Holds(coding, sha, volume.files, containers)
    modifies volume
    ensures volume.Valid()
    ensures Storage.PathOf(s.fileId) in containers && !overwrite ==> r.Failure? && volume.files == old(volume.files)
    ensures r.Success? ==> Holds(coding, sha, volume.files, containers[Storage.PathOf(s.fileId) := s])
    ensures r.Failure? && r.error != VerificationFailed ==> Holds(coding, sha, volume.files, containers)
    ensures r == Failure(VerificationFailed) ==> faults.mediumStores.Some?
  {
    hide DeserializeContainer, SerializeContainer, ReadStored, CrashSafe, AllOldOrNew, WellFormed;
    ghost var c, path := ToContainer(coding, s), Storage.PathOf(s.fileId);
    forall p | p in containers ensures p != TempName(path, suffix) {
      TempIsNoContainer(path, suffix, containers[p].fileId);
    }
    if SerializeContainer(c, sha).Success? { StoredReadsBack(coding, s, sha); }
    ghost var settled := volume.files - {TempName(path, suffix)};
    r := WriteContainer(
      ToContainer(coding, s), volume, deviceOk, Some(Storage.PathOf(s.fileId)), overwrite, suffix, faults, sha);
    if r.Failure? && r.error != VerificationFailed {
      forall p | p in containers ensures p in volume.files && volume.files[p] == old(volume.files)[p] {
        assert p in settled && p in volume.files - {TempName(path, suffix)};
      }
    }
  }
}
