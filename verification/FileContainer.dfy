// crypto/file_encryptor.py: the binary envelope of one encrypted file.

module FileContainer {
  import opened Results
  import opened ByteStrings
  import opened Text

  /** Why printing or parsing fails; OutOfRange, BadText and Overflow are the source
      language's own errors, which its format modules do not translate. */
  datatype FormatError =
    | BadMagic | UnsupportedVersion | TooLong | TooShort | HashMismatch
    | OutOfRange | BadText | Overflow
    | InvalidFile(cause: FormatError) | InvalidPortable(cause: FormatError)

  const MAGIC: Bytes := [67, 85, 83, 66] // CUSB
  const FORMAT_VERSION: Byte := 1
  const NONCE_SIZE: nat := 12

  datatype EncryptedContainer =
    EncryptedContainer(wrapAlgorithm: string, wrappedKey: Bytes, nonce: Bytes, ciphertext: Bytes)

  /** The containers serialize accepts. */
  predicate Printable(c: EncryptedContainer) {
    IsAscii(c.wrapAlgorithm) && |c.wrapAlgorithm| <= 255 && |c.wrappedKey| <= 65535
  }

  function Layout(c: EncryptedContainer): Bytes
    requires Printable(c)
  {
    Widths();
    Headed(MAGIC, FORMAT_VERSION, EncodeAscii(c.wrapAlgorithm),
           Prefixed(c.wrappedKey, 2) + (c.nonce + c.ciphertext))
  }

  function Serialize(c: EncryptedContainer): Result<Bytes, FormatError> {
    if !IsAscii(c.wrapAlgorithm) then Failure(BadText)
    else if |c.wrapAlgorithm| > 255 || |c.wrappedKey| > 65535 then Failure(TooLong)
    else Success(Layout(c))
  }

  function Deserialize(data: Bytes): Result<EncryptedContainer, FormatError> {
    if Slice(data, 0, 4) != MAGIC then Failure(BadMagic)
    else if |data| <= 4 then Failure(OutOfRange)
    else if data[4] != FORMAT_VERSION then Failure(UnsupportedVersion)
    else if |data| <= 5 then Failure(OutOfRange)
    else
      var (algorithm, offset1) := ReadPrefixed(data, 5, 1);
      match DecodeAscii(algorithm)
      case None => Failure(BadText)
      case Some(wrapAlgorithm) =>
        var (wrappedKey, offset2) := ReadPrefixed(data, offset1, 2);
        Success(EncryptedContainer(
                  wrapAlgorithm, wrappedKey,
                  Slice(data, offset2, offset2 + NONCE_SIZE),
                  Slice(data, offset2 + NONCE_SIZE, |data|)))
  }

  /** What parsing recovers from a printed container: the nonce field carries no length,
      so the parser takes the first twelve bytes that follow the wrapped key. */
  lemma ParsesPrinted(c: EncryptedContainer)
    requires Printable(c)
    ensures var tail := c.nonce + c.ciphertext;
            Deserialize(Layout(c)) ==
            Success(c.(nonce := Slice(tail, 0, NONCE_SIZE), ciphertext := Slice(tail, NONCE_SIZE, |tail|)))
  {
    hide FromBigEndian, BigEndian, Pow256, Headed, ReadPrefixed, At, Slice, EncodeAscii, DecodeAscii;
    Widths();
    var data, tail := Layout(c), c.nonce + c.ciphertext;
    var algorithm := EncodeAscii(c.wrapAlgorithm);
    HeaderReads(MAGIC, FORMAT_VERSION, algorithm, Prefixed(c.wrappedKey, 2) + tail);
    AsciiRoundTrip(c.wrapAlgorithm);
    var offset1 := 6 + |algorithm|;
    ReadsFieldThenRest(data, offset1, c.wrappedKey, 2, tail);
    TailSlices(data, offset1 + 2 + |c.wrappedKey|, tail);
  }

  lemma TailSlices(data: Bytes, offset: nat, tail: Bytes)
    requires At(data, offset, tail) && |data| == offset + |tail|
    ensures Slice(data, offset, offset + NONCE_SIZE) == Slice(tail, 0, NONCE_SIZE)
    ensures Slice(data, offset + NONCE_SIZE, |data|) == Slice(tail, NONCE_SIZE, |tail|)
  {
    assert data[offset..] == tail;
  }

  /** Parsing gives a printed container back exactly when its nonce has twelve bytes
      (or is a shorter one followed by nothing, which no cipher produces). */
  lemma RoundTripExactly(c: EncryptedContainer)
    requires Printable(c)
    ensures Deserialize(Layout(c)) == Success(c) <==>
            |c.nonce| == NONCE_SIZE || (|c.nonce| < NONCE_SIZE && c.ciphertext == [])
  {
    ParsesPrinted(c);
    var tail := c.nonce + c.ciphertext;
    if |c.nonce| == NONCE_SIZE {
      assert Slice(tail, 0, NONCE_SIZE) == c.nonce && Slice(tail, NONCE_SIZE, |tail|) == c.ciphertext;
    } else if |c.nonce| < NONCE_SIZE {
      if c.ciphertext == [] {
        assert tail == c.nonce;
      } else {
        assert |Slice(tail, 0, NONCE_SIZE)| > |c.nonce|;
      }
    } else {
      assert |Slice(tail, 0, NONCE_SIZE)| == NONCE_SIZE;
    }
  }

  /** Exactly which bytes parse: the magic, version 1, a length byte, and an ASCII name as far
      as the bytes go. */
  lemma FileAcceptsExactly(data: Bytes)
    ensures Deserialize(data).Success? <==>
              && |data| > 5 && data[..4] == [67, 85, 83, 66] && data[4] == 1
              && forall i :: 6 <= i < |data| && i - 6 < data[5] ==> data[i] < 0x80
  {
    if |data| > 5 {
      OneByteLength(data, 5);
      var name := ReadPrefixed(data, 5, 1).0;
      assert forall i :: 0 <= i < |name| ==> name[i] == data[6 + i];
      if forall i :: 0 <= i < |name| ==> name[i] < 0x80 {
        forall i | 6 <= i < |data| && i - 6 < data[5] ensures data[i] < 0x80 {
          assert name[i - 6] == data[i];
        }
      }
    }
  }

  /** Where each field of a printed container stands: the name behind one length byte, the
      wrapped key behind two, then the nonce and the ciphertext. */
  lemma FileFields(c: EncryptedContainer)
    requires Printable(c)
    ensures var b, a, k := Layout(c), |c.wrapAlgorithm|, |c.wrappedKey|;
            && |b| == 8 + a + k + |c.nonce| + |c.ciphertext|
            && b[..4] == [67, 85, 83, 66] && b[4] == 1 && b[5] == a && At(b, 6, EncodeAscii(c.wrapAlgorithm))
            && At(b, 6 + a, [k / 256, k % 256]) && At(b, 8 + a, c.wrappedKey)
            && At(b, 8 + a + k, c.nonce) && At(b, 8 + a + k + |c.nonce|, c.ciphertext)
  {
    hide At, Headed, BigEndian, Pow256, EncodeAscii;
    Widths();
    var b, a := Layout(c), |c.wrapAlgorithm|;
    HeaderFields(MAGIC, FORMAT_VERSION, EncodeAscii(c.wrapAlgorithm), Prefixed(c.wrappedKey, 2) + (c.nonce + c.ciphertext));
    PrefixedParts(b, 6 + a, c.wrappedKey, 2, c.nonce + c.ciphertext);
    TwoBytes(|c.wrappedKey|);
    AtSplit(b, 8 + a + |c.wrappedKey|, c.nonce, c.ciphertext);
  }
}
