// metadata/one_time_access.py: burning a one-time file's record after its one
// view, in every copy at once.

module OneTime {
  import opened Results
  import opened ByteStrings
  import opened KeyWrapping
  import opened DeviceIdentity
  import opened MacInputs
  import opened Metadata
  import opened SecureMemory
  import opened FileCrypto
  import opened Validation

  /** The random keys one burn draws. */
  datatype Draws = Draws(decoy: Key, encryption: Key, hmac: Key)

  function RotatedKeys(d: Draws): ProtectionKeys {
    ProtectionKeys(d.encryption, d.hmac)
  }

  /** The record after a burn: a decoy key in place of the file's own. */
  function Burned(m: Record, wrapper: KeyWrapper, decoy: Key): Record {
    m.(wrappedKey := Wrap(wrapper, decoy), accessCount := 0)
  }

  /** The session's protection keys as the objects the caller holds. */
  class SessionKeys {
    const encryption: array<Byte>
    const hmac: array<Byte>

    constructor (keys: ProtectionKeys)
      ensures fresh(encryption) && fresh(hmac) && Value() == keys
    {
      encryption := new Byte[|keys.encryption|](i requires 0 <= i < |keys.encryption| => keys.encryption[i]);
      hmac := new Byte[|keys.hmac|](i requires 0 <= i < |keys.hmac| => keys.hmac[i]);
      new;
      assert encryption[..] == keys.encryption && hmac[..] == keys.hmac;
    }

    ghost function Value(): ProtectionKeys
      reads encryption, hmac
    {
      ProtectionKeys(encryption[..], hmac[..])
    }
  }

  /** Wiping a buffer made from a key clears the buffer and leaves the key as it was. */
  method WipeCopy(material: array<Byte>, ledger: Ledger)
    requires ledger.AllWiped()
    modifies ledger
    ensures ledger.AllWiped() && old(ledger.buffers) < ledger.buffers
    ensures material[..] == old(material[..])
  {
    var copy := new SecureBytes(material[..], ledger);
    copy.Destroy();
  }

  datatype BurnError = NotOneTime | DecoyNotWrapped

  class OneTimeAccessEnforcer {
    const repository: MetadataRepository
    const mirrors: seq<MetadataRepository>

    constructor (repository: MetadataRepository, mirrors: seq<MetadataRepository>)
      ensures this.repository == repository && this.mirrors == mirrors
    {
      this.repository := repository;
      this.mirrors := mirrors;
    }

    /** A file not marked for one-time access is refused, and an error while wrapping the decoy
        passes through; either way nothing changes. The session keys are copied into buffers
        that are wiped; the keys the caller holds stay as they were. */
    method Burn(
      metadata: FileMetadata, wrapper: KeyWrapper, sessionKeys: SessionKeys, draws: Draws, wrapRaises: bool,
      ledger: Ledger) returns (r: Result<ProtectionKeys, BurnError>)
      requires ledger.AllWiped()
      modifies metadata, repository, mirrors, ledger
      ensures ledger.AllWiped() && sessionKeys.Value() == old(sessionKeys.Value())
      ensures r.Failure? ==>
                && metadata.data == old(metadata.data)
                && repository.rows == old(repository.rows)
                && forall x :: x in mirrors ==> x.rows == old(x.rows)
      ensures r.Failure? <==> !old(metadata.data).oneTimeAccess || wrapRaises
      ensures r.Failure? ==> r.error == (if old(metadata.data).oneTimeAccess then DecoyNotWrapped else NotOneTime)
      ensures old(metadata.data).oneTimeAccess ==> old(ledger.buffers) < ledger.buffers
      ensures r.Success? ==>
                && r.value == RotatedKeys(draws)
                && metadata.data == Burned(old(metadata.data), wrapper, draws.decoy)
                && var e := Protect(RotatedKeys(draws), metadata.data);
                   && repository.rows == Saved(old(repository.rows), e)
                   && forall x :: x in mirrors ==> x.rows == Saved(old(x.rows), e)
    {
      hide Ledger.AllWiped, Ledger.WipedBut, Saved, Protect;
      if !metadata.data.oneTimeAccess {
        return Failure(NotOneTime);
      }
      var decoy := WrapAndDestroy(draws.decoy, wrapper, wrapRaises, ledger);
      if decoy.None? {
        return Failure(DecoyNotWrapped);
      }
      metadata.data := metadata.data.(wrappedKey := decoy.value);
      metadata.data := metadata.data.(accessCount := 0);
      var newKeys := ProtectionKeys(draws.encryption, draws.hmac);
      WipeCopy(sessionKeys.encryption, ledger);
      WipeCopy(sessionKeys.hmac, ledger);
      SaveEverywhere(repository, mirrors, Protect(newKeys, metadata.data));
      return Success(newKeys);
    }
  }

  /** With the rotated keys, a burned record passes and fails exactly the checks the record
      passed and failed before, for any later attempt: nothing shows it was used. */
  lemma BurnLeavesChecksUnchanged(
    m: Record, keys: ProtectionKeys, wrapper: KeyWrapper, draws: Draws, bytes: FileBytes, r: Reading, now: Instant)
    requires m.oneTimeAccess && StructurallyValid(m) && NotReused(m)
    ensures ChecksFor(Some(Protect(RotatedKeys(draws), Burned(m, wrapper, draws.decoy))), RotatedKeys(draws), bytes, r, now)
         == ChecksFor(Some(Protect(keys, m)), keys, bytes, r, now)
  {
    var b := Burned(m, wrapper, draws.decoy);
    assert m.accessCount == 0 && b.wrappedKey != Foreign([]);
    assert RecordChecks(b, bytes, r, now) == RecordChecks(m, bytes, r, now);
  }

  /** With any keys but the rotated ones, it looks like a tampered record. */
  lemma OldKeysSeeTampering(
    m: Record, keys: ProtectionKeys, wrapper: KeyWrapper, draws: Draws, bytes: FileBytes, r: Reading, now: Instant)
    requires keys != RotatedKeys(draws)
    ensures var c := ChecksFor(Some(Protect(RotatedKeys(draws), Burned(m, wrapper, draws.decoy))), keys, bytes, r, now);
            !AllTrue(c) && TriggerOf(c) == MetadataTampering
  {
    PassesIffAdmitted(Some(Protect(RotatedKeys(draws), Burned(m, wrapper, draws.decoy))), keys, bytes, r, now);
  }

  /** The record no longer opens the content it belongs to, whatever wrapper is presented. */
  lemma BurnedRecordNeverOpens(
    m: Record, maker: KeyWrapper, decoy: Key, content: Cipher, algorithm: string, opener: KeyWrapper)
    requires content.Sealed? ==> content.key != decoy
    ensures Opened(StoredFile(algorithm, Burned(m, maker, decoy).wrappedKey, content), opener).Failure?
  {
    UnwrapExactly(opener, maker, decoy);
  }
}
