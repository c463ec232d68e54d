// metadata/portable_envelope.py, and the record layout it shares with
// usb/secure_container.py's own metadata section.

module PortableEnvelope {
  import opened Results
  import opened ByteStrings
  import opened Text
  import opened FileContainer

  /** metadata/protection.py: the stored envelope of one metadata record. */
  datatype ProtectedMetadata =
    ProtectedMetadata(fileId: string, version: int, nonce: Bytes, ciphertext: Bytes, tag: Bytes)

  // ---- Version, nonce, tag and ciphertext: common to both sections ---------

  predicate RecordPrintable(p: ProtectedMetadata) {
    && 0 <= p.version < Pow256(4)
    && |p.nonce| < Pow256(2) && |p.tag| < Pow256(2) && |p.ciphertext| < Pow256(8)
  }

  function RecordLayout(p: ProtectedMetadata): Bytes
    requires RecordPrintable(p)
  {
    BigEndian(p.version, 4)
    + (Prefixed(p.nonce, 2)
    + (Prefixed(p.tag, 2)
    + Prefixed(p.ciphertext, 8)))
  }

  function ReadRecord(data: Bytes, offset: nat, fileId: string): ProtectedMetadata {
    var version := FromBigEndian(Slice(data, offset, offset + 4));
    var (nonce, offset1) := ReadPrefixed(data, offset + 4, 2);
    var (tag, offset2) := ReadPrefixed(data, offset1, 2);
    var (ciphertext, _) := ReadPrefixed(data, offset2, 8);
    ProtectedMetadata(fileId, version, nonce, ciphertext, tag)
  }

  lemma ReadsPrintedRecord(data: Bytes, offset: nat, p: ProtectedMetadata, fileId: string)
    requires RecordPrintable(p) && At(data, offset, RecordLayout(p))
    ensures ReadRecord(data, offset, fileId) == p.(fileId := fileId)
  {
    hide FromBigEndian, BigEndian, Pow256, ReadPrefixed, Slice, At;
    var afterTag := Prefixed(p.ciphertext, 8);
    var afterNonce := Prefixed(p.tag, 2) + afterTag;
    var version := BigEndian(p.version, 4);
    AtSplit(data, offset, version, Prefixed(p.nonce, 2) + afterNonce);
    SliceOfPiece(data, offset, version);
    BigEndianRoundTrip(p.version, 4);
    AtSplit(data, offset + 4, Prefixed(p.nonce, 2), afterNonce);
    ReadsWhatWasPrefixed(data, offset + 4, p.nonce, 2);
    var offset1 := offset + 4 + 2 + |p.nonce|;
    AtSplit(data, offset1, Prefixed(p.tag, 2), afterTag);
    ReadsWhatWasPrefixed(data, offset1, p.tag, 2);
    ReadsWhatWasPrefixed(data, offset1 + 2 + |p.tag|, p.ciphertext, 8);
  }

  /** Where each field of a printed record stands: version, nonce, tag and ciphertext, the last
      three behind their lengths of two, two and eight bytes. */
  lemma RecordFields(p: ProtectedMetadata)
    requires RecordPrintable(p)
    ensures var b, n, t, c := RecordLayout(p), |p.nonce|, |p.tag|, |p.ciphertext|;
            && |b| == 16 + n + t + c
            && At(b, 0, BigEndian(p.version, 4))
            && At(b, 4, BigEndian(n, 2)) && At(b, 6, p.nonce)
            && At(b, 6 + n, BigEndian(t, 2)) && At(b, 8 + n, p.tag)
            && At(b, 8 + n + t, BigEndian(c, 8)) && At(b, 16 + n + t, p.ciphertext)
  {
    hide At, BigEndian, Pow256;
    var b := RecordLayout(p);
    var afterTag := Prefixed(p.ciphertext, 8);
    var afterNonce := Prefixed(p.tag, 2) + afterTag;
    AtSelf(b);
    AtSplit(b, 0, BigEndian(p.version, 4), Prefixed(p.nonce, 2) + afterNonce);
    PrefixedParts(b, 4, p.nonce, 2, afterNonce);
    PrefixedParts(b, 6 + |p.nonce|, p.tag, 2, afterTag);
    assert afterTag + [] == afterTag;
    PrefixedParts(b, 8 + |p.nonce| + |p.tag|, p.ciphertext, 8, []);
  }

  // ---- The portable section -----------------------------------------------

  const PORTABLE_MAGIC: Bytes := [67, 85, 80, 77] // CUPM
  const PORTABLE_VERSION: Byte := 1

  datatype Envelope = Envelope(salt: Bytes, protected: ProtectedMetadata)

  predicate EnvelopePrintable(e: Envelope) {
    |Encode(e.protected.fileId)| <= 255 && |e.salt| <= 255 && RecordPrintable(e.protected)
  }

  function EnvelopeLayout(e: Envelope): (b: Bytes)
    requires EnvelopePrintable(e)
    ensures b != []
  {
    Widths();
    Headed(PORTABLE_MAGIC, PORTABLE_VERSION, Encode(e.protected.fileId),
           Prefixed(e.salt, 1) + RecordLayout(e.protected))
  }

  function SerializeEnvelope(e: Envelope): Result<Bytes, FormatError> {
    if |Encode(e.protected.fileId)| > 255 || |e.salt| > 255 then Failure(TooLong)
    else if !RecordPrintable(e.protected) then Failure(Overflow)
    else Success(EnvelopeLayout(e))
  }

  function DeserializeEnvelope(data: Bytes): Result<Envelope, FormatError> {
    if Slice(data, 0, 4) != PORTABLE_MAGIC then Failure(BadMagic)
    else if |data| <= 4 then Failure(OutOfRange)
    else if data[4] != PORTABLE_VERSION then Failure(UnsupportedVersion)
    else if |data| <= 5 then Failure(OutOfRange)
    else
      var (id, offset1) := ReadPrefixed(data, 5, 1);
      match Decode(id)
      case None => Failure(BadText)
      case Some(fileId) =>
        if |data| <= offset1 then Failure(OutOfRange)
        else
          var (salt, offset2) := ReadPrefixed(data, offset1, 1);
          Success(Envelope(salt, ReadRecord(data, offset2, fileId)))
  }

  lemma EnvelopeRoundTrip(e: Envelope)
    requires EnvelopePrintable(e)
    ensures DeserializeEnvelope(EnvelopeLayout(e)) == Success(e)
  {
    hide BigEndian, Pow256, Headed, Slice, ReadPrefixed, ReadRecord, RecordLayout, Encode, Decode;
    Widths();
    var data, id := EnvelopeLayout(e), Encode(e.protected.fileId);
    var record := RecordLayout(e.protected);
    HeaderReads(PORTABLE_MAGIC, PORTABLE_VERSION, id, Prefixed(e.salt, 1) + record);
    DecodesWhatWasEncoded(e.protected.fileId);
    var offset1 := 6 + |id|;
    ReadsFieldThenRest(data, offset1, e.salt, 1, record);
    ReadsPrintedRecord(data, offset1 + 1 + |e.salt|, e.protected, e.protected.fileId);
  }

  /** Exactly which bytes parse: the magic, version 1, a strict UTF-8 file id, and at least one
      byte after it for the length of the salt. */
  lemma EnvelopeAcceptsExactly(data: Bytes)
    ensures DeserializeEnvelope(data).Success? <==>
              && |data| > 5 && data[..4] == [67, 85, 80, 77] && data[4] == 1
              && |data| - 6 > data[5] && Decode(data[6..][..data[5]]).Some?
  {
    hide Decode, ReadRecord, FromBigEndian;
    if |data| > 5 {
      OneByteLength(data, 5);
      if |data| - 6 > data[5] {
        assert Slice(data, 6, 6 + (data[5] as int)) == data[6..][..data[5]];
      }
    }
  }

  /** Where each part of a printed envelope stands. */
  lemma EnvelopeFields(e: Envelope)
    requires EnvelopePrintable(e)
    ensures var b, id, s := EnvelopeLayout(e), Encode(e.protected.fileId), |e.salt|;
            && |b| == 7 + |id| + s + |RecordLayout(e.protected)|
            && b[..4] == [67, 85, 80, 77] && b[4] == 1 && b[5] == |id| && At(b, 6, id)
            && b[6 + |id|] == s && At(b, 7 + |id|, e.salt) && At(b, 7 + |id| + s, RecordLayout(e.protected))
  {
    hide BigEndian, Pow256, RecordLayout, Encode;
    Widths();
    var b, id := EnvelopeLayout(e), Encode(e.protected.fileId);
    var tail := Prefixed(e.salt, 1) + RecordLayout(e.protected);
    HeaderFields(PORTABLE_MAGIC, PORTABLE_VERSION, id, tail);
    PrefixedParts(b, 6 + |id|, e.salt, 1, RecordLayout(e.protected));
    OneByte(|e.salt|);
  }
}
