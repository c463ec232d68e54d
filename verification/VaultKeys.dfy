// app/protection_keys.py: protection keys wrapped under a vault master key,
// itself wrapped in a password slot and a recovery slot.

module VaultKeys {
  import opened Results
  import opened ByteStrings

  /** Key material as terms: drawn at random, or stretched from a secret under a salt. */
  datatype Secret =
    | Random(id: nat)
    | Scrypt(secret: string, salt: nat)
    | ScryptKey(keyPair: nat, passphrase: Bytes, salt: nat)

  datatype Slot =
    | PasswordSlot | RecoverySlot
    | MetadataEncryption | MetadataHmac | TrackingEncryption | TrackingHmac

  /** Each slot is two rows of the app_meta table. */
  datatype Row = NonceOf(slot: Slot) | CiphertextOf(slot: Slot)
  datatype Cell = Nonce(n: nat) | Wrapped(under: Secret, nonce: nat, value: Secret)
  type Meta = map<Row, Cell>

  /** None when a row is missing or the key does not open it. */
  function LoadWrapped(m: Meta, slot: Slot, key: Secret): Option<Secret> {
    if NonceOf(slot) !in m || CiphertextOf(slot) !in m then None
    else match (m[NonceOf(slot)], m[CiphertextOf(slot)])
      case (Nonce(n), Wrapped(under, nonce, value)) => if under == key && nonce == n then Some(value) else None
      case _ => None
  }

  function SaveWrapped(m: Meta, slot: Slot, value: Secret, key: Secret, nonce: nat): Meta {
    m[NonceOf(slot) := Nonce(nonce)][CiphertextOf(slot) := Wrapped(key, nonce, value)]
  }

  lemma SavedSlot(m: Meta, slot: Slot, value: Secret, key: Secret, nonce: nat)
    ensures forall k :: LoadWrapped(SaveWrapped(m, slot, value, key, nonce), slot, k) == if k == key then Some(value) else None
    ensures forall s, k :: s != slot ==> LoadWrapped(SaveWrapped(m, slot, value, key, nonce), s, k) == LoadWrapped(m, s, k)
  {}

  /** The rows of two different saves do not open together. */
  lemma MixedRowsStayShut(m: Meta, slot: Slot, value: Secret, key: Secret, nonce: nat, other: nat)
    requires other != nonce
    ensures LoadWrapped(SaveWrapped(m, slot, value, key, nonce)[NonceOf(slot) := Nonce(other)], slot, key) == None
  {}

  /** The two pairs of keys wrapped under the master key. */
  datatype Purpose = ForMetadata | ForTracking
  datatype KeyPair = KeyPair(encryption: Secret, hmac: Secret)

  function EncryptionSlot(p: Purpose): Slot {
    if p == ForMetadata then MetadataEncryption else TrackingEncryption
  }

  function HmacSlot(p: Purpose): Slot {
    if p == ForMetadata then MetadataHmac else TrackingHmac
  }

  /** The random values one call may consume. */
  datatype Draws = Draws(
    vmk: nat, passwordNonce: nat, recoveryNonce: nat,
    encryption: nat, encryptionNonce: nat, hmac: nat, hmacNonce: nat)

  function MasterKeyFor(m: Meta, vaultKey: Secret, d: Draws): Secret {
    var existing := LoadWrapped(m, PasswordSlot, vaultKey);
    if existing.Some? then existing.value else Random(d.vmk)
  }

  function WithMasterKey(m: Meta, vaultKey: Secret, d: Draws): Meta {
    if LoadWrapped(m, PasswordSlot, vaultKey).Some? then m
    else SaveWrapped(m, PasswordSlot, Random(d.vmk), vaultKey, d.passwordNonce)
  }

  function Established(m: Meta, vaultKey: Secret, recoveryKey: Secret, d: Draws): Meta {
    SaveWrapped(WithMasterKey(m, vaultKey, d), RecoverySlot, MasterKeyFor(m, vaultKey, d), recoveryKey, d.recoveryNonce)
  }

  function StoredPair(m: Meta, p: Purpose, vmk: Secret): Option<KeyPair> {
    var e, h := LoadWrapped(m, EncryptionSlot(p), vmk), LoadWrapped(m, HmacSlot(p), vmk);
    if e.Some? && h.Some? then Some(KeyPair(e.value, h.value)) else None
  }

  function WithPair(m: Meta, p: Purpose, vmk: Secret, d: Draws): Meta {
    SaveWrapped(
      SaveWrapped(m, EncryptionSlot(p), Random(d.encryption), vmk, d.encryptionNonce),
      HmacSlot(p), Random(d.hmac), vmk, d.hmacNonce)
  }

  /** load_or_create_*_protection_keys: the keys returned and the rows afterwards. */
  function LoadKeys(m: Meta, p: Purpose, vaultKey: Secret, d: Draws): (Meta, KeyPair) {
    var n, vmk := WithMasterKey(m, vaultKey, d), MasterKeyFor(m, vaultKey, d);
    if StoredPair(n, p, vmk).Some? then (n, StoredPair(n, p, vmk).value)
    else (WithPair(n, p, vmk, d), KeyPair(Random(d.encryption), Random(d.hmac)))
  }

  /** The app_meta table and the functions that read and rewrite it. */
  class AppMeta {
    var rows: Meta

    constructor ()
      ensures rows == map[]
    {
      rows := map[];
    }

    method Load(slot: Slot, key: Secret) returns (value: Option<Secret>)
      ensures value == LoadWrapped(rows, slot, key)
    {
      if NonceOf(slot) !in rows || CiphertextOf(slot) !in rows {
        return None;
      }
      match (rows[NonceOf(slot)], rows[CiphertextOf(slot)])
      case (Nonce(n), Wrapped(under, nonce, v)) =>
        return if under == key && nonce == n then Some(v) else None;
      case _ =>
        return None;
    }

    method Save(slot: Slot, value: Secret, key: Secret, nonce: nat)
      modifies this
      ensures rows == SaveWrapped(old(rows), slot, value, key, nonce)
    {
      rows := rows[NonceOf(slot) := Nonce(nonce)];
      rows := rows[CiphertextOf(slot) := Wrapped(key, nonce, value)];
    }

    method LoadOrCreateMasterKey(vaultKey: Secret, d: Draws) returns (vmk: Secret)
      modifies this
      ensures rows == WithMasterKey(old(rows), vaultKey, d) && vmk == MasterKeyFor(old(rows), vaultKey, d)
    {
      var existing := Load(PasswordSlot, vaultKey);
      if existing.Some? {
        return existing.value;
      }
      vmk := Random(d.vmk);
      Save(PasswordSlot, vmk, vaultKey, d.passwordNonce);
    }

    method EstablishMasterKey(vaultKey: Secret, recoveryKey: Secret, d: Draws) returns (vmk: Secret)
      modifies this
      ensures rows == Established(old(rows), vaultKey, recoveryKey, d) && vmk == MasterKeyFor(old(rows), vaultKey, d)
    {
      vmk := LoadOrCreateMasterKey(vaultKey, d);
      Save(RecoverySlot, vmk, recoveryKey, d.recoveryNonce);
    }

    method LoadOrCreateProtectionKeys(p: Purpose, vaultKey: Secret, d: Draws) returns (keys: KeyPair)
      modifies this
      ensures (rows, keys) == LoadKeys(old(rows), p, vaultKey, d)
    {
      var vmk := LoadOrCreateMasterKey(vaultKey, d);
      var encryption := Load(EncryptionSlot(p), vmk);
      var hmac := Load(HmacSlot(p), vmk);
      if encryption.Some? && hmac.Some? {
        return KeyPair(encryption.value, hmac.value);
      }
      keys := KeyPair(Random(d.encryption), Random(d.hmac));
      Save(EncryptionSlot(p), keys.encryption, vmk, d.encryptionNonce);
      Save(HmacSlot(p), keys.hmac, vmk, d.hmacNonce);
    }
  }

  // ---- What a load keeps -----------------------------------------------------------

  /** Both slots unwrap to this master key under these keys. */
  predicate Reaches(m: Meta, vaultKey: Secret, recoveryKey: Secret, vmk: Secret) {
    LoadWrapped(m, PasswordSlot, vaultKey) == Some(vmk) && LoadWrapped(m, RecoverySlot, recoveryKey) == Some(vmk)
  }

  /** A load keeps the master key reachable exactly when the vault key presented opens the
      password slot; a stale one silently replaces the slot by a new master key. */
  lemma LoadKeepsMasterKey(
    m: Meta, p: Purpose, presented: Secret, vaultKey: Secret, recoveryKey: Secret, vmk: Secret, d: Draws)
    requires Reaches(m, vaultKey, recoveryKey, vmk)
    ensures Reaches(LoadKeys(m, p, presented, d).0, vaultKey, recoveryKey, vmk) <==> presented == vaultKey
    ensures presented != vaultKey ==> LoadWrapped(LoadKeys(m, p, presented, d).0, PasswordSlot, vaultKey) == None
  {
    var n := WithMasterKey(m, presented, d);
    SavedSlot(m, PasswordSlot, Random(d.vmk), presented, d.passwordNonce);
    PairSlots(n, p, MasterKeyFor(m, presented, d), d);
    assert LoadWrapped(m, PasswordSlot, presented).Some? <==> presented == vaultKey by { OneOpener(m, PasswordSlot, presented, vaultKey); }
  }

  lemma OneOpener(m: Meta, slot: Slot, a: Secret, b: Secret)
    requires LoadWrapped(m, slot, b).Some?
    ensures LoadWrapped(m, slot, a).Some? <==> a == b
  {}

  lemma PairSlots(m: Meta, p: Purpose, vmk: Secret, d: Draws)
    ensures StoredPair(WithPair(m, p, vmk, d), p, vmk) == Some(KeyPair(Random(d.encryption), Random(d.hmac)))
    ensures forall s, k :: s != EncryptionSlot(p) && s != HmacSlot(p) ==>
              LoadWrapped(WithPair(m, p, vmk, d), s, k) == LoadWrapped(m, s, k)
  {
    var first := SaveWrapped(m, EncryptionSlot(p), Random(d.encryption), vmk, d.encryptionNonce);
    SavedSlot(m, EncryptionSlot(p), Random(d.encryption), vmk, d.encryptionNonce);
    SavedSlot(first, HmacSlot(p), Random(d.hmac), vmk, d.hmacNonce);
  }

  /** After a load with the right vault key the pair it returned is stored under the master
      key, and pairs for the other purpose are untouched. */
  lemma LoadStoresPair(m: Meta, p: Purpose, vaultKey: Secret, vmk: Secret, d: Draws, q: Purpose)
    requires LoadWrapped(m, PasswordSlot, vaultKey) == Some(vmk)
    ensures StoredPair(LoadKeys(m, p, vaultKey, d).0, p, vmk) == Some(LoadKeys(m, p, vaultKey, d).1)
    ensures q != p || StoredPair(m, p, vmk).Some? ==>
              StoredPair(LoadKeys(m, p, vaultKey, d).0, q, vmk) == StoredPair(m, q, vmk)
    ensures StoredPair(m, p, vmk).None? ==>
              LoadKeys(m, p, vaultKey, d).1 == KeyPair(Random(d.encryption), Random(d.hmac))
  {
    PairSlots(m, p, vmk, d);
  }
}
