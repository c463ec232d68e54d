// crypto/file_encryptor.py, crypto/secure_decryptor.py and the deep check of
// usb/secure_container.py: every key and plaintext buffer they create is
// destroyed on every way out.

module FileCrypto {
  import opened Results
  import opened ByteStrings
  import opened KeyWrapping
  import opened SecureMemory
  import opened MacInputs
  import opened Metadata

  datatype CryptoError =
    | EncryptionFailed | WrappingFailed | UnwrappingFailed | DecryptionFailed | MetadataTampered | CallbackRaised

  /** Decryption of a container, as a function of the wrapper presented. */
  function Opened(file: StoredFile, wrapper: KeyWrapper): (r: Result<Bytes, CryptoError>)
    ensures r.Failure? ==> r.error == UnwrappingFailed || r.error == DecryptionFailed
  {
    match Unwrap(wrapper, file.wrappedKey)
    case None => Failure(UnwrappingFailed)
    case Some(key) =>
      match KeyWrapping.Decrypt(file.content, key)
      case None => Failure(DecryptionFailed)
      case Some(plaintext) => Success(plaintext)
  }

  function EncryptedWith(plaintext: Bytes, fek: Key, wrapper: KeyWrapper): StoredFile {
    StoredFile(Algorithm(wrapper), Wrap(wrapper, fek), Sealed(fek, plaintext))
  }

  /** Decrypting with a paired wrapper gives back what was encrypted under it; any other
      wrapper, in particular one with another device key, fails to unwrap. */
  lemma OpensOwnFiles(plaintext: Bytes, fek: Key, maker: KeyWrapper, opener: KeyWrapper)
    ensures Opened(EncryptedWith(plaintext, fek, maker), opener) ==
            if !Opens(opener, maker) then Failure(UnwrappingFailed)
            else if |fek| == KEY_SIZE then Success(plaintext) else Failure(DecryptionFailed)
  {
    UnwrapExactly(opener, maker, fek);
  }

  /** A key in its buffer, wrapped, and destroyed whether wrapping returns or raises: what a burn
      does with its decoy and a rebind with the file key. */
  method WrapAndDestroy(material: Key, wrapper: KeyWrapper, wrapRaises: bool, ledger: Ledger)
    returns (wrapped: Option<WrappedKey>)
    requires ledger.AllWiped()
    modifies ledger
    ensures ledger.AllWiped() && old(ledger.buffers) < ledger.buffers
    ensures wrapped == TryWrap(wrapper, material, wrapRaises)
  {
    var key := new ManagedKey(material, ledger);
    var live := key.Material();
    wrapped := TryWrap(wrapper, live.value, wrapRaises);
    key.Destroy();
  }

  class FileEncryptor {
    constructor () {}

    /** fek is the drawn file key; a key of the wrong size is the cipher's error. Every exit
        comes after the key's buffer was made, and leaves it destroyed. */
    method EncryptBytes(plaintext: Bytes, fek: Key, wrapper: KeyWrapper, wrapRaises: bool, ledger: Ledger)
      returns (r: Result<StoredFile, CryptoError>)
      requires ledger.AllWiped()
      modifies ledger
      ensures ledger.AllWiped() && old(ledger.buffers) < ledger.buffers
      ensures r == if |fek| != KEY_SIZE then Failure(EncryptionFailed)
                   else if wrapRaises then Failure(WrappingFailed)
                   else Success(EncryptedWith(plaintext, fek, wrapper))
    {
      var key := new ManagedKey(fek, ledger);
      var material := key.Material();
      if |material.value| != KEY_SIZE {
        key.Destroy();
        return Failure(EncryptionFailed);
      }
      var content := Sealed(material.value, plaintext);
      var wrappedKey := TryWrap(wrapper, material.value, wrapRaises);
      key.Destroy();
      if wrappedKey.None? {
        return Failure(WrappingFailed);
      }
      return Success(StoredFile(Algorithm(wrapper), wrappedKey.value, content));
    }

    method DecryptBytes(file: StoredFile, wrapper: KeyWrapper, ledger: Ledger)
      returns (r: Result<Bytes, CryptoError>)
      requires ledger.AllWiped()
      modifies ledger
      ensures ledger.AllWiped() && old(ledger.buffers) <= ledger.buffers
      ensures r != Failure(UnwrappingFailed) ==> old(ledger.buffers) < ledger.buffers
      ensures r == Opened(file, wrapper)
    {
      var unwrapped := Unwrap(wrapper, file.wrappedKey);
      if unwrapped.None? {
        return Failure(UnwrappingFailed);
      }
      var key := new ManagedKey(unwrapped.value, ledger);
      var material := key.Material();
      var plaintext := KeyWrapping.Decrypt(file.content, material.value);
      key.Destroy();
      if plaintext.None? {
        return Failure(DecryptionFailed);
      }
      return Success(plaintext.value);
    }
  }

  /** What a granted callback was shown. */
  datatype Viewing = Viewing(fileId: string, content: Bytes)

  /** The caller's on_granted: it reads the live buffer, and may raise. */
  class Viewer {
    var shown: seq<Viewing>

    constructor ()
      ensures shown == []
    {
      shown := [];
    }

    method OnGranted(buffer: SecureBytes, fileId: string)
      requires !buffer.destroyed
      modifies this
      ensures shown == old(shown) + [Viewing(fileId, buffer.buffer[..])]
    {
      var content := buffer.Reveal();
      shown := shown + [Viewing(fileId, content.value)];
    }
  }

  class SecureDecryptor {
    const encryptor: FileEncryptor

    constructor () {
      encryptor := new FileEncryptor();
    }

    /** The scope of open_decrypted around the callback: the buffer is alive inside it only,
        and is destroyed whether the callback returns or raises. */
    method OpenDecrypted(
      file: StoredFile, wrapper: KeyWrapper, fileId: string, viewer: Viewer, viewerRaises: bool, ledger: Ledger)
      returns (r: Result<Bytes, CryptoError>)
      requires ledger.AllWiped()
      modifies ledger, viewer
      ensures ledger.AllWiped() && old(ledger.buffers) <= ledger.buffers
      ensures Opened(file, wrapper).Success? ==>
                viewer.shown == old(viewer.shown) + [Viewing(fileId, Opened(file, wrapper).value)]
      ensures Opened(file, wrapper).Failure? ==> viewer.shown == old(viewer.shown)
      ensures r == if Opened(file, wrapper).Success? && viewerRaises then Failure(CallbackRaised) else Opened(file, wrapper)
    {
      var plaintext := encryptor.DecryptBytes(file, wrapper, ledger);
      if plaintext.Failure? {
        return plaintext;
      }
      var buffer := new SecureBytes(plaintext.value, ledger);
      viewer.OnGranted(buffer, fileId);
      buffer.Destroy();
      return if viewerRaises then Failure(CallbackRaised) else plaintext;
    }
  }

  /** Unwraps, decrypts and unprotects entirely in memory: the plaintext ends up zeroed, and
      success means both the content and the record open under the keys presented. */
  method VerifyContainerDeep(
    file: StoredFile, metadata: Envelope, wrapper: KeyWrapper, keys: ProtectionKeys, ledger: Ledger)
    returns (r: Result<bool, CryptoError>)
    requires ledger.AllWiped()
    modifies ledger
    ensures ledger.AllWiped()
    ensures r == Success(true) <==> Opened(file, wrapper).Success? && Unprotect(keys, metadata).Some?
    ensures r.Failure? <==> r != Success(true)
    ensures r == Failure(MetadataTampered) ==> Opened(file, wrapper).Success?
  {
    var unwrapped := Unwrap(wrapper, file.wrappedKey);
    if unwrapped.None? {
      return Failure(UnwrappingFailed);
    }
    var key := new ManagedKey(unwrapped.value, ledger);
    var material := key.Material();
    var decrypted := KeyWrapping.Decrypt(file.content, material.value);
    if decrypted.None? {
      key.Destroy();
      return Failure(DecryptionFailed);
    }
    var content := decrypted.value;
    var plaintext := new Byte[|content|](i requires 0 <= i < |content| => content[i]);
    ledger.scratch := ledger.scratch + {plaintext};
    key.Destroy();
    ZeroInPlace(plaintext);
    if Unprotect(keys, metadata).None? {
      return Failure(MetadataTampered);
    }
    return Success(true);
  }
}
