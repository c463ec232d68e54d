// crypto/key_wrapper.py and crypto/aes_cipher.py over terms: a ciphertext is
// the key and the plaintext it was made from, and opens under that key only.

module KeyWrapping {
  import opened Results
  import opened ByteStrings

  type Key = Bytes

  const KEY_SIZE: nat := 32

  /** AES-GCM output, or bytes no key opens. */
  datatype Cipher = Sealed(key: Key, plaintext: Bytes) | Damaged

  function Decrypt(c: Cipher, key: Key): Option<Bytes> {
    if |key| == KEY_SIZE && c.Sealed? && c.key == key then Some(c.plaintext) else None
  }

  /** The AES key HKDF derives from a device's fingerprint material. */
  datatype DeviceKey = DeviceKey(material: Bytes)

  /** RSA key pairs are numbered; a wrapper may lack the private half or hold another one. */
  datatype KeyWrapper =
    | RsaOaep(publicKey: nat, privateKey: Option<nat>)
    | DeviceBound(inner: KeyWrapper, deviceKey: DeviceKey)

  datatype WrappedKey =
    | Oaep(publicKey: nat, key: Key)
    | DeviceLayer(deviceKey: DeviceKey, inner: WrappedKey)
    | Foreign(bytes: Bytes)

  function Algorithm(w: KeyWrapper): string {
    match w
    case RsaOaep(_, _) => "RSA-OAEP"
    case DeviceBound(inner, _) => Algorithm(inner) + "+DEVICE-BOUND-AES-GCM"
  }

  function Wrap(w: KeyWrapper, key: Key): WrappedKey {
    match w
    case RsaOaep(publicKey, _) => Oaep(publicKey, key)
    case DeviceBound(inner, deviceKey) => DeviceLayer(deviceKey, Wrap(inner, key))
  }

  /** None stands for a key-wrapping error: the library underneath may raise on any call. */
  function TryWrap(w: KeyWrapper, key: Key, raises: bool): Option<WrappedKey> {
    if raises then None else Some(Wrap(w, key))
  }

  /** None stands for a key-unwrapping error. */
  function Unwrap(w: KeyWrapper, b: WrappedKey): Option<Key> {
    match w
    case RsaOaep(_, privateKey) =>
      if privateKey.Some? && b.Oaep? && b.publicKey == privateKey.value then Some(b.key) else None
    case DeviceBound(inner, deviceKey) =>
      if b.DeviceLayer? && b.deviceKey == deviceKey then Unwrap(inner, b.inner) else None
  }

  /** The file key at the heart of a wrapped key, whoever can or cannot reach it. */
  function CarriedKey(b: WrappedKey): Option<Key> {
    match b
    case Oaep(_, key) => Some(key)
    case DeviceLayer(_, inner) => CarriedKey(inner)
    case Foreign(_) => None
  }

  /** opener can undo what maker wrapped: the same device layers in the same order around
      the private half of maker's public key. */
  predicate Opens(opener: KeyWrapper, maker: KeyWrapper) {
    match (opener, maker)
    case (RsaOaep(_, privateKey), RsaOaep(publicKey, _)) => privateKey == Some(publicKey)
    case (DeviceBound(inner, k), DeviceBound(inner', k')) => k == k' && Opens(inner, inner')
    case _ => false
  }

  lemma {:induction false} UnwrapFindsCarriedKey(w: KeyWrapper, b: WrappedKey)
    requires Unwrap(w, b).Some?
    ensures CarriedKey(b) == Unwrap(w, b)
  {
    if w.DeviceBound? { UnwrapFindsCarriedKey(w.inner, b.inner); }
  }

  lemma {:induction false} WrapCarries(w: KeyWrapper, key: Key)
    ensures CarriedKey(Wrap(w, key)) == Some(key)
  {
    if w.DeviceBound? { WrapCarries(w.inner, key); }
  }

  /** Unwrapping recovers the key exactly for a matching stack of wrappers, and otherwise
      recovers nothing at all. */
  lemma {:induction false} UnwrapExactly(opener: KeyWrapper, maker: KeyWrapper, key: Key)
    ensures Unwrap(opener, Wrap(maker, key)) == if Opens(opener, maker) then Some(key) else None
  {
    if opener.DeviceBound? && maker.DeviceBound? {
      UnwrapExactly(opener.inner, maker.inner, key);
    }
  }

  /** A wrapper holding the private half of its own public key. */
  predicate Paired(w: KeyWrapper) {
    match w
    case RsaOaep(publicKey, privateKey) => privateKey == Some(publicKey)
    case DeviceBound(inner, _) => Paired(inner)
  }

  lemma {:induction false} PairedOpensItself(w: KeyWrapper)
    ensures Opens(w, w) <==> Paired(w)
  {
    if w.DeviceBound? { PairedOpensItself(w.inner); }
  }
}
