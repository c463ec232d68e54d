// The idealised primitives of the byte-level modules, and the '|'-joined
// strings their authentication tags are computed over.

module MacInputs {
  import opened Results
  import opened ByteStrings
  import opened Text
  import opened SecureContainer

  /** HMAC-SHA256 and AES-256-GCM as arbitrary functions. */
  datatype Primitives = Primitives(
    hmac: (Bytes, Bytes) -> Digest,
    seal: (Bytes, Bytes, Bytes) -> Bytes,
    unseal: (Bytes, Bytes, Bytes) -> Option<Bytes>)

  const AES_KEY_SIZE: nat := 32
  const AES_NONCE_SIZE: nat := 12

  /** Decryption undoes encryption under the same key and nonce. */
  ghost predicate Correct(p: Primitives) {
    forall k, n, x :: p.unseal(k, n, p.seal(k, n, x)) == Some(x)
  }

  /** crypto/aes_cipher.py: keys and nonces of the wrong size never decrypt. */
  function Decrypt(p: Primitives, nonce: Bytes, ciphertext: Bytes, key: Bytes): Option<Bytes> {
    if |key| != AES_KEY_SIZE || |nonce| != AES_NONCE_SIZE then None else p.unseal(key, nonce, ciphertext)
  }

  /** The two independent keys of an encrypt-then-MAC envelope. */
  datatype ProtectionKeys = ProtectionKeys(encryption: Bytes, hmac: Bytes)

  const BAR: Byte := 124

  predicate BarFree(b: Bytes) {
    forall i :: 0 <= i < |b| ==> b[i] != BAR
  }

  /** left|right */
  function Joined(left: Bytes, right: Bytes): Bytes {
    left + ([BAR] + right)
  }

  lemma SameLengthSplits(a: Bytes, b: Bytes, c: Bytes, d: Bytes)
    requires Joined(a, b) == Joined(c, d) && |a| == |c|
    ensures a == c && b == d
  {
    assert Joined(a, b)[..|a|] == a && Joined(c, d)[..|c|] == c;
    assert Joined(a, b)[|a| + 1..] == b && Joined(c, d)[|c| + 1..] == d;
  }

  lemma FirstBar(a: Bytes, b: Bytes)
    requires BarFree(a)
    ensures |a| < |Joined(a, b)| && Joined(a, b)[|a|] == BAR
    ensures forall i :: 0 <= i < |a| ==> Joined(a, b)[i] != BAR
  {}

  /** A first part without the separator is determined by the joined string. */
  lemma BarFreeSplits(a: Bytes, b: Bytes, c: Bytes, d: Bytes)
    requires Joined(a, b) == Joined(c, d) && BarFree(a) && BarFree(c)
    ensures a == c && b == d
  {
    FirstBar(a, b);
    FirstBar(c, d);
    SameLengthSplits(a, b, c, d);
  }

  lemma {:induction false} EncodingIsBarFree(s: string)
    requires '|' !in s
    ensures BarFree(Encode(s))
  {
    if s != "" {
      EncodingIsBarFree(s[1..]);
      assert s[0] != '|' && s[0] in s;
      var e := EncodeChar(s[0]);
      assert forall i :: 0 <= i < |e| ==> e[i] != BAR;
    }
  }
}
