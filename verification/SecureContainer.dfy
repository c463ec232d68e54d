// usb/secure_container.py: the .cusc payload, an outer hash around three
// nested sections, in two format versions.

module SecureContainer {
  import opened Results
  import opened ByteStrings
  import opened Text
  import opened FileContainer
  import opened PortableEnvelope

  const CUSC: Bytes := [67, 85, 83, 67]
  const CONTAINER_VERSION: Byte := 2
  const HASH_SIZE: nat := 32

  /** A digest, and the outer hash as an arbitrary function into digests. */
  type Digest = d: Bytes | |d| == 32 witness seq(32, _ => 0)
  type HashFunction = Bytes -> Digest

  datatype Container = Container(
    fileId: string,
    file: EncryptedContainer,
    metadata: ProtectedMetadata,
    portable: Option<Envelope>)

  function PortableBlob(portable: Option<Envelope>): Bytes
    requires portable.Some? ==> EnvelopePrintable(portable.value)
  {
    if portable.Some? then EnvelopeLayout(portable.value) else []
  }

  /** The containers serialize accepts: every field fits the width of its length. */
  predicate ContainerPrintable(c: Container) {
    && |Encode(c.fileId)| <= 255
    && Printable(c.file) && |Layout(c.file)| < Pow256(8)
    && RecordPrintable(c.metadata) && |RecordLayout(c.metadata)| < Pow256(8)
    && (c.portable.Some? ==> EnvelopePrintable(c.portable.value))
    && |PortableBlob(c.portable)| < Pow256(8)
  }

  function PortableSection(portable: Option<Envelope>, version: Byte): Bytes
    requires portable.Some? ==> EnvelopePrintable(portable.value)
    requires |PortableBlob(portable)| < Pow256(8)
  {
    if version >= 2 then Prefixed(PortableBlob(portable), 8) else []
  }

  /** Everything before the outer hash, as version 1 or version 2 lays it out. */
  function Body(c: Container, version: Byte): Bytes
    requires ContainerPrintable(c)
  {
    Widths();
    Headed(CUSC, version, Encode(c.fileId),
           Prefixed(Layout(c.file), 8)
           + (Prefixed(RecordLayout(c.metadata), 8)
           + PortableSection(c.portable, version)))
  }

  function ContainerLayout(c: Container, version: Byte, sha: HashFunction): Bytes
    requires ContainerPrintable(c)
  {
    Body(c, version) + sha(Body(c, version))
  }

  function SerializeContainer(c: Container, sha: HashFunction): Result<Bytes, FormatError> {
    if |Encode(c.fileId)| > 255 then Failure(TooLong)
    else if Serialize(c.file).Failure? then Failure(Serialize(c.file).error)
    else if !RecordPrintable(c.metadata) then Failure(Overflow)
    else if c.portable.Some? && SerializeEnvelope(c.portable.value).Failure?
    then Failure(SerializeEnvelope(c.portable.value).error)
    else if !ContainerPrintable(c) then Failure(Overflow)
    else Success(ContainerLayout(c, CONTAINER_VERSION, sha))
  }

  /** Only the errors the envelope parser itself raises are reported as a bad container;
      the language's own errors pass through. */
  function ParsePortable(blob: Bytes): Result<Option<Envelope>, FormatError> {
    if blob == [] then Success(None)
    else match DeserializeEnvelope(blob)
      case Success(e) => Success(Some(e))
      case Failure(cause) =>
        Failure(if cause.BadMagic? || cause.UnsupportedVersion? then InvalidPortable(cause) else cause)
  }

  function DeserializeContainer(data: Bytes, sha: HashFunction): Result<Container, FormatError> {
    if |data| < 4 + 1 + 1 + HASH_SIZE then Failure(TooShort)
    else
      var body, checksum := data[..|data| - HASH_SIZE], data[|data| - HASH_SIZE..];
      if sha(body) != checksum then Failure(HashMismatch)
      else if body[..4] != CUSC then Failure(BadMagic)
      else if body[4] < 1 || body[4] > CONTAINER_VERSION then Failure(UnsupportedVersion)
      else
        var (id, offset1) := ReadPrefixed(body, 5, 1);
        match Decode(id)
        case None => Failure(BadText)
        case Some(fileId) => ParseSections(body, offset1, fileId)
  }

  function ParseSections(body: Bytes, offset1: nat, fileId: string): Result<Container, FormatError>
    requires |body| > 4
  {
    var (fileBlob, offset2) := ReadPrefixed(body, offset1, 8);
    var (metaBlob, offset3) := ReadPrefixed(body, offset2, 8);
    var (portableBlob, _) := if body[4] >= 2 then ReadPrefixed(body, offset3, 8) else ([], offset3);
    ParseBlobs(fileBlob, metaBlob, portableBlob, fileId)
  }

  function ParseBlobs(fileBlob: Bytes, metaBlob: Bytes, portableBlob: Bytes, fileId: string)
    : Result<Container, FormatError>
  {
    match ParsePortable(portableBlob)
    case Failure(error) => Failure(error)
    case Success(portable) =>
      match Deserialize(fileBlob)
      case Failure(cause) =>
        Failure(if cause.BadMagic? || cause.UnsupportedVersion? then InvalidFile(cause) else cause)
      case Success(file) =>
        Success(Container(fileId, file, ReadRecord(metaBlob, 0, fileId), portable))
  }

  // ---- Round trip ---------------------------------------------------------

  /** What either format version of a container parses to: the embedded record takes the
      container's own file id, and version 1 has no portable section. */
  function Recovered(c: Container, file: EncryptedContainer, version: Byte): Container {
    Container(c.fileId, file, c.metadata.(fileId := c.fileId), if version >= 2 then c.portable else None)
  }

  lemma PortableBlobParses(portable: Option<Envelope>)
    requires portable.Some? ==> EnvelopePrintable(portable.value)
    ensures ParsePortable(PortableBlob(portable)) == Success(portable)
  {
    if portable.Some? { EnvelopeRoundTrip(portable.value); }
  }

  function BlobOf(portable: Option<Envelope>, version: Byte): Bytes
    requires portable.Some? ==> EnvelopePrintable(portable.value)
  {
    if version >= 2 then PortableBlob(portable) else []
  }

  lemma BlobsParse(c: Container, version: Byte)
    requires ContainerPrintable(c)
    ensures Deserialize(Layout(c.file)).Success?
    ensures ParseBlobs(Layout(c.file), RecordLayout(c.metadata), BlobOf(c.portable, version), c.fileId)
         == Success(Recovered(c, Deserialize(Layout(c.file)).value, version))
  {
    hide Encode, Layout, RecordLayout, PortableBlob, Deserialize, DeserializeEnvelope, ReadRecord, BigEndian, Pow256;
    PortableBlobParses(c.portable);
    ParsesPrinted(c.file);
    ReadsPrintedRecord(RecordLayout(c.metadata), 0, c.metadata, c.fileId);
  }

  /** Where the three sections stand behind the header, and that each is read back. */
  lemma SectionsRead(body: Bytes, offset: nat, file: Bytes, meta: Bytes, portable: Bytes)
    requires |file| < Pow256(8) && |meta| < Pow256(8)
    requires At(body, offset, Prefixed(file, 8) + (Prefixed(meta, 8) + portable))
    ensures ReadPrefixed(body, offset, 8) == (file, offset + 8 + |file|)
    ensures ReadPrefixed(body, offset + 8 + |file|, 8) == (meta, offset + 16 + |file| + |meta|)
    ensures At(body, offset + 16 + |file| + |meta|, portable)
  {
    hide At, Prefixed, ReadPrefixed, Pow256;
    ReadsFieldThenRest(body, offset, file, 8, Prefixed(meta, 8) + portable);
    ReadsFieldThenRest(body, offset + 8 + |file|, meta, 8, portable);
  }

  lemma BodyReads(c: Container, version: Byte)
    requires ContainerPrintable(c)
    ensures var body, id := Body(c, version), Encode(c.fileId);
            && |body| > 5 && body[..4] == CUSC && body[4] == version
            && ReadPrefixed(body, 5, 1) == (id, 6 + |id|)
            && At(body, 6 + |id|, Prefixed(Layout(c.file), 8)
                                  + (Prefixed(RecordLayout(c.metadata), 8) + PortableSection(c.portable, version)))
  {
    hide Headed, At, Prefixed, ReadPrefixed, RecordLayout, Encode, Layout, PortableSection, Pow256;
    Widths();
    HeaderReads(CUSC, version, Encode(c.fileId),
                Prefixed(Layout(c.file), 8) + (Prefixed(RecordLayout(c.metadata), 8) + PortableSection(c.portable, version)));
    assert Body(c, version)[..4] == Slice(Body(c, version), 0, 4);
  }

  lemma SectionsParse(c: Container, version: Byte)
    requires ContainerPrintable(c) && 1 <= version <= 2
    ensures Deserialize(Layout(c.file)).Success?
    ensures ParseSections(Body(c, version), 6 + |Encode(c.fileId)|, c.fileId)
         == Success(Recovered(c, Deserialize(Layout(c.file)).value, version))
  {
    hide Body, ReadPrefixed, RecordLayout, Encode, Layout, PortableBlob, ParseBlobs, Recovered, Deserialize, Pow256, At;
    var body, offset := Body(c, version), 6 + |Encode(c.fileId)|;
    var file, meta := Layout(c.file), RecordLayout(c.metadata);
    BodyReads(c, version);
    SectionsRead(body, offset, file, meta, PortableSection(c.portable, version));
    if version == 2 {
      ReadsWhatWasPrefixed(body, offset + 16 + |file| + |meta|, PortableBlob(c.portable), 8);
    }
    BlobsParse(c, version);
  }

  /** Both format versions of any container that can be printed parse again. */
  lemma BothVersionsParse(c: Container, version: Byte, sha: HashFunction)
    requires ContainerPrintable(c) && 1 <= version <= 2
    ensures Deserialize(Layout(c.file)).Success?
    ensures DeserializeContainer(ContainerLayout(c, version, sha), sha)
         == Success(Recovered(c, Deserialize(Layout(c.file)).value, version))
  {
    hide Body, ParseSections, ReadPrefixed, Encode, Decode, Layout, Recovered, Deserialize, Pow256, At;
    var body, data := Body(c, version), ContainerLayout(c, version, sha);
    BodyReads(c, version);
    SectionsParse(c, version);
    assert data[..|data| - HASH_SIZE] == body && data[|data| - HASH_SIZE..] == sha(body);
    DecodesWhatWasEncoded(c.fileId);
  }

  /** A container within the field widths: what the storage service builds. */
  predicate WellFormed(c: Container) {
    ContainerPrintable(c) && |c.file.nonce| == NONCE_SIZE && c.metadata.fileId == c.fileId
  }

  /** Printing and parsing again is the identity, through every nested section. */
  lemma RoundTrip(c: Container, sha: HashFunction)
    requires WellFormed(c)
    ensures SerializeContainer(c, sha).Success?
    ensures DeserializeContainer(SerializeContainer(c, sha).value, sha) == Success(c)
  {
    BothVersionsParse(c, CONTAINER_VERSION, sha);
    RoundTripExactly(c.file);
  }

  /** For a container that prints at all, the two extra conditions are exactly what the
      round trip needs. */
  lemma RoundTripNeeds(c: Container, sha: HashFunction)
    requires ContainerPrintable(c)
    ensures DeserializeContainer(ContainerLayout(c, CONTAINER_VERSION, sha), sha) == Success(c) <==>
            && c.metadata.fileId == c.fileId
            && (|c.file.nonce| == NONCE_SIZE || (|c.file.nonce| < NONCE_SIZE && c.file.ciphertext == []))
  {
    BothVersionsParse(c, CONTAINER_VERSION, sha);
    RoundTripExactly(c.file);
  }

  /** A container written before the portable section existed still parses. */
  lemma OldVersionParses(c: Container, sha: HashFunction)
    requires WellFormed(c)
    ensures DeserializeContainer(ContainerLayout(c, 1, sha), sha) == Success(c.(portable := None))
  {
    BothVersionsParse(c, 1, sha);
    RoundTripExactly(c.file);
  }

  lemma SerializationInjective(c: Container, d: Container, sha: HashFunction)
    requires WellFormed(c) && WellFormed(d)
    requires SerializeContainer(c, sha) == SerializeContainer(d, sha)
    ensures c == d
  {
    RoundTrip(c, sha);
    RoundTrip(d, sha);
  }

  /** Where each section of a printed container stands, each behind its length of eight bytes,
      an absent portable section as a length of zero, and the hash of all that at the end. */
  lemma ContainerFields(c: Container, sha: HashFunction)
    requires ContainerPrintable(c)
    ensures var b, id := ContainerLayout(c, 2, sha), Encode(c.fileId);
            var file, meta, portable := Layout(c.file), RecordLayout(c.metadata), PortableBlob(c.portable);
            var end := 30 + |id| + |file| + |meta| + |portable|;
            && |b| == end + 32 && b[end..] == sha(b[..end])
            && b[..4] == [67, 85, 83, 67] && b[4] == 2 && b[5] == |id| && At(b, 6, id)
            && At(b, 6 + |id|, BigEndian(|file|, 8)) && At(b, 14 + |id|, file)
            && At(b, 14 + |id| + |file|, BigEndian(|meta|, 8)) && At(b, 22 + |id| + |file|, meta)
            && At(b, 22 + |id| + |file| + |meta|, BigEndian(|portable|, 8)) && At(b, 30 + |id| + |file| + |meta|, portable)
            && (c.portable.None? <==> portable == [])
  {
    hide Body, Headed, BigEndian, Pow256, Encode, Layout, RecordLayout, EnvelopeLayout;
    BodyFields(c);
    var b, body := ContainerLayout(c, 2, sha), Body(c, 2);
    assert b[..|body|] == body;
    forall offset: nat, piece | At(body, offset, piece) ensures At(b, offset, piece) { Extends(body, offset, piece, sha(body)); }
  }

  lemma Extends(body: Bytes, offset: nat, piece: Bytes, more: Bytes)
    requires At(body, offset, piece)
    ensures At(body + more, offset, piece)
  {}

  lemma BodyFields(c: Container)
    requires ContainerPrintable(c)
    ensures var b, id := Body(c, 2), Encode(c.fileId);
            var file, meta, portable := Layout(c.file), RecordLayout(c.metadata), PortableBlob(c.portable);
            && |b| == 30 + |id| + |file| + |meta| + |portable|
            && b[..4] == CUSC && b[4] == 2 && b[5] == |id| && At(b, 6, id)
            && At(b, 6 + |id|, BigEndian(|file|, 8)) && At(b, 14 + |id|, file)
            && At(b, 14 + |id| + |file|, BigEndian(|meta|, 8)) && At(b, 22 + |id| + |file|, meta)
            && At(b, 22 + |id| + |file| + |meta|, BigEndian(|portable|, 8)) && At(b, 30 + |id| + |file| + |meta|, portable)
  {
    hide Headed, At, BigEndian, Pow256, Encode, Layout, RecordLayout, PortableBlob;
    Widths();
    var b, id := Body(c, 2), Encode(c.fileId);
    var file, meta, portable := Layout(c.file), RecordLayout(c.metadata), PortableBlob(c.portable);
    HeaderFields(CUSC, 2, id, Prefixed(file, 8) + (Prefixed(meta, 8) + Prefixed(portable, 8)));
    PrefixedParts(b, 6 + |id|, file, 8, Prefixed(meta, 8) + Prefixed(portable, 8));
    PrefixedParts(b, 14 + |id| + |file|, meta, 8, Prefixed(portable, 8));
    assert Prefixed(portable, 8) + [] == Prefixed(portable, 8);
    PrefixedParts(b, 22 + |id| + |file| + |meta|, portable, 8, []);
  }

  // ---- What the parser rejects ----------------------------------------------

  /** Exactly which bytes parse, and why others do not: a body of at least six bytes under its
      own hash, the magic, version 1 or 2, and sections that parse. */
  lemma ContainerAcceptsExactly(data: Bytes, sha: HashFunction)
    ensures |data| < 38 <==> DeserializeContainer(data, sha) == Failure(TooShort)
    ensures |data| >= 38 ==>
              var body := data[..|data| - 32];
              && (sha(body) != data[|data| - 32..] <==> DeserializeContainer(data, sha) == Failure(HashMismatch))
              && (DeserializeContainer(data, sha).Success? <==>
                    && sha(body) == data[|data| - 32..] && data[..4] == [67, 85, 83, 67] && 1 <= data[4] <= 2
                    && Decode(ReadPrefixed(body, 5, 1).0).Some?
                    && ParseSections(body, ReadPrefixed(body, 5, 1).1, Decode(ReadPrefixed(body, 5, 1).0).value).Success?)
  {
    hide ReadPrefixed, Decode, ParseBlobs;
    if |data| >= 38 {
      var body := data[..|data| - 32];
      assert body[..4] == data[..4] && body[4] == data[4];
      SectionErrors(body, ReadPrefixed(body, 5, 1).1);
    }
  }

  /** Sections fail with errors of their own. */
  lemma SectionErrors(body: Bytes, offset: nat)
    requires |body| > 4
    ensures forall id :: ParseSections(body, offset, id).Failure? ==>
              ParseSections(body, offset, id).error !in {TooShort, HashMismatch}
  {
    hide ReadPrefixed, Decode, ReadRecord, DecodeAscii;
  }

  /** A printed container whose body or whose checksum was changed is rejected, unless two
      bodies collide under the hash. */
  lemma DamageIsDetected(c: Container, version: Byte, data: Bytes, sha: HashFunction)
    requires ContainerPrintable(c) && 1 <= version <= 2
    requires |data| >= 38 && data != ContainerLayout(c, version, sha)
    requires data[..|data| - 32] == Body(c, version) || data[|data| - 32..] == sha(Body(c, version))
    requires sha(data[..|data| - 32]) == sha(Body(c, version)) ==> data[..|data| - 32] == Body(c, version)
    ensures DeserializeContainer(data, sha) == Failure(HashMismatch)
  {
    hide Body, DeserializeContainer;
    assert data == data[..|data| - 32] + data[|data| - 32..];
    ContainerAcceptsExactly(data, sha);
  }

  /** So, without a collision, the one payload that parses under a printed container's
      checksum is that container's. */
  lemma ChecksumNamesThePayload(c: Container, version: Byte, data: Bytes, sha: HashFunction)
    requires ContainerPrintable(c) && 1 <= version <= 2 && DeserializeContainer(data, sha).Success?
    requires |data| >= 32 && data[|data| - 32..] == sha(Body(c, version))
    requires sha(data[..|data| - 32]) == sha(Body(c, version)) ==> data[..|data| - 32] == Body(c, version)
    ensures data == ContainerLayout(c, version, sha)
  {
    hide Body, ContainerLayout, DeserializeContainer;
    ContainerAcceptsExactly(data, sha);
    if data != ContainerLayout(c, version, sha) {
      DamageIsDetected(c, version, data, sha);
    }
  }

  /** Serializing succeeds exactly for containers whose fields fit their widths. */
  lemma SerializesExactly(c: Container, sha: HashFunction)
    ensures SerializeContainer(c, sha).Success? <==>
              && |Encode(c.fileId)| <= 255
              && IsAscii(c.file.wrapAlgorithm) && |c.file.wrapAlgorithm| <= 255 && |c.file.wrappedKey| <= 65535
              && |Layout(c.file)| < Pow256(8)
              && RecordPrintable(c.metadata) && |RecordLayout(c.metadata)| < Pow256(8)
              && (c.portable.Some? ==>
                    && |Encode(c.portable.value.protected.fileId)| <= 255 && |c.portable.value.salt| <= 255
                    && RecordPrintable(c.portable.value.protected)
                    && |EnvelopeLayout(c.portable.value)| < Pow256(8))
  {
    hide Encode, Layout, RecordLayout, EnvelopeLayout, RecordPrintable, ContainerLayout;
    Widths();
  }
}
