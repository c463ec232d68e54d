// metadata/protection.py: encrypt-then-MAC of metadata records, at the level
// of the bytes the tag is computed over.

module RecordProtection {
  import opened Results
  import opened ByteStrings
  import opened Text
  import opened Decimal
  import opened PortableEnvelope
  import opened MacInputs

  /** A metadata record: the two fields its envelope repeats, and the rest. */
  datatype Record = Record(fileId: string, version: int, details: Bytes)

  /** The record's JSON encoding. */
  datatype Codec = Codec(encode: Record -> Bytes, decode: Bytes -> Option<Record>)

  ghost predicate Faithful(codec: Codec) {
    forall m :: codec.decode(codec.encode(m)) == Some(m)
  }

  /** MalformedPayload is the decoder's own error, which unprotect does not translate. */
  datatype ProtectionError = Tampered | MalformedPayload

  function MacInput(fileId: string, version: int, nonce: Bytes, ciphertext: Bytes): Bytes {
    Joined(Encode(fileId), Joined(Signed(version), Joined(nonce, ciphertext)))
  }

  function Protect(p: Primitives, codec: Codec, keys: ProtectionKeys, m: Record, nonce: Bytes): ProtectedMetadata {
    var ciphertext := p.seal(keys.encryption, nonce, codec.encode(m));
    ProtectedMetadata(m.fileId, m.version, nonce, ciphertext,
                      p.hmac(keys.hmac, MacInput(m.fileId, m.version, nonce, ciphertext)))
  }

  function EnvelopeInput(e: ProtectedMetadata): Bytes {
    MacInput(e.fileId, e.version, e.nonce, e.ciphertext)
  }

  function Unprotect(p: Primitives, codec: Codec, keys: ProtectionKeys, e: ProtectedMetadata)
    : Result<Record, ProtectionError>
  {
    if p.hmac(keys.hmac, EnvelopeInput(e)) != e.tag then Failure(Tampered)
    else match Decrypt(p, e.nonce, e.ciphertext, keys.encryption)
      case None => Failure(Tampered)
      case Some(payload) =>
        match codec.decode(payload)
        case None => Failure(MalformedPayload)
        case Some(m) => Success(m)
  }

  lemma UnprotectsWhatWasProtected(p: Primitives, codec: Codec, keys: ProtectionKeys, m: Record, nonce: Bytes)
    requires Correct(p) && Faithful(codec)
    requires |keys.encryption| == AES_KEY_SIZE && |nonce| == AES_NONCE_SIZE
    ensures Unprotect(p, codec, keys, Protect(p, codec, keys, m, nonce)) == Success(m)
  {
    assert codec.decode(codec.encode(m)) == Some(m);
  }

  /** One call of protect. */
  datatype Issue = Issue(record: Record, nonce: Bytes)

  function Issued(p: Primitives, codec: Codec, keys: ProtectionKeys, i: Issue): ProtectedMetadata {
    Protect(p, codec, keys, i.record, i.nonce)
  }

  /** Whoever presented e has not forged a tag: if it verifies, it is over an input that
      some call of protect was computed over. */
  ghost predicate Unforged(
    p: Primitives, codec: Codec, keys: ProtectionKeys, issues: set<Issue>, e: ProtectedMetadata)
  {
    p.hmac(keys.hmac, EnvelopeInput(e)) == e.tag ==>
      exists i :: i in issues && EnvelopeInput(Issued(p, codec, keys, i)) == EnvelopeInput(e)
  }

  lemma InputDeterminesEnvelope(e: ProtectedMetadata, f: ProtectedMetadata)
    requires EnvelopeInput(e) == EnvelopeInput(f)
    requires '|' !in e.fileId && '|' !in f.fileId && |e.nonce| == |f.nonce|
    ensures e == f.(tag := e.tag)
  {
    EncodingIsBarFree(e.fileId);
    EncodingIsBarFree(f.fileId);
    BarFreeSplits(Encode(e.fileId), Joined(Signed(e.version), Joined(e.nonce, e.ciphertext)),
                  Encode(f.fileId), Joined(Signed(f.version), Joined(f.nonce, f.ciphertext)));
    EncodeInjective(e.fileId, f.fileId);
    BarFreeSplits(Signed(e.version), Joined(e.nonce, e.ciphertext), Signed(f.version), Joined(f.nonce, f.ciphertext));
    SignedInjective(e.version, f.version);
    SameLengthSplits(e.nonce, e.ciphertext, f.nonce, f.ciphertext);
  }

  /** Whatever unprotect accepts is an envelope protect issued, field for field, and the
      record it returns is the one that was protected; so the record's own file id and
      version are the envelope's. */
  lemma AcceptedWasIssued(
    p: Primitives, codec: Codec, keys: ProtectionKeys, issues: set<Issue>, e: ProtectedMetadata)
    returns (i: Issue)
    requires Correct(p) && Faithful(codec)
    requires forall j :: j in issues ==> '|' !in j.record.fileId && |j.nonce| == AES_NONCE_SIZE
    requires '|' !in e.fileId
    requires Unforged(p, codec, keys, issues, e)
    requires Unprotect(p, codec, keys, e).Success?
    ensures i in issues && e == Issued(p, codec, keys, i)
    ensures Unprotect(p, codec, keys, e) == Success(i.record)
    ensures i.record.fileId == e.fileId && i.record.version == e.version
  {
    i :| i in issues && EnvelopeInput(Issued(p, codec, keys, i)) == EnvelopeInput(e);
    InputDeterminesEnvelope(e, Issued(p, codec, keys, i));
    UnprotectsWhatWasProtected(p, codec, keys, i.record, i.nonce);
  }

  /** A record moved to another file id or version is rejected. */
  lemma MovedRecordsAreRejected(
    p: Primitives, codec: Codec, keys: ProtectionKeys, issues: set<Issue>, i: Issue, fileId: string, version: int)
    requires Correct(p) && Faithful(codec)
    requires forall j :: j in issues ==> '|' !in j.record.fileId && |j.nonce| == AES_NONCE_SIZE
    requires i in issues && '|' !in fileId
    requires fileId != i.record.fileId || version != i.record.version
    requires Unforged(p, codec, keys, issues, Issued(p, codec, keys, i).(fileId := fileId, version := version))
    ensures Unprotect(p, codec, keys, Issued(p, codec, keys, i).(fileId := fileId, version := version)).Failure?
  {
    var moved := Issued(p, codec, keys, i).(fileId := fileId, version := version);
    if Unprotect(p, codec, keys, moved).Success? {
      var j := AcceptedWasIssued(p, codec, keys, issues, moved);
    }
  }

  /** Why file ids must not contain the separator: from any envelope whose nonce holds one in
      the right place, another with a different id, version, nonce and ciphertext passes the
      same tag, so that only the cipher's own authentication can still reject it. */
  lemma SeparatorInIdIsAmbiguous(
    p: Primitives, codec: Codec, keys: ProtectionKeys, fileId: string, nonce: Bytes, ciphertext: Bytes, tag: Bytes)
    requires |nonce| == AES_NONCE_SIZE && nonce[10] == BAR
    ensures var e := ProtectedMetadata(fileId + "|1", 2, nonce, ciphertext, tag);
            var f := ProtectedMetadata(fileId, 1, [50, BAR] + nonce[..10], nonce[11..] + [BAR] + ciphertext, tag);
            && EnvelopeInput(e) == EnvelopeInput(f) && |f.nonce| == AES_NONCE_SIZE
            && (p.hmac(keys.hmac, EnvelopeInput(e)) == tag ==>
                  (Unprotect(p, codec, keys, f) == Failure(Tampered) <==>
                   Decrypt(p, f.nonce, f.ciphertext, keys.encryption).None?))
  {
    var f := ProtectedMetadata(fileId, 1, [50, BAR] + nonce[..10], nonce[11..] + [BAR] + ciphertext, tag);
    EncodeAppend(fileId, "|1");
    assert Encode("|1") == [BAR, 49] by { assert "|1"[1..] == "1" && "1"[1..] == ""; }
    assert Signed(1) == [49] && Signed(2) == [50];
    SeparatorsRegroup(Encode(fileId), nonce, ciphertext);
  }

  lemma SeparatorsRegroup(id: Bytes, nonce: Bytes, ciphertext: Bytes)
    requires |nonce| == AES_NONCE_SIZE && nonce[10] == BAR
    ensures Joined(id + [BAR, 49], Joined([50], Joined(nonce, ciphertext)))
         == Joined(id, Joined([49], Joined([50, BAR] + nonce[..10], nonce[11..] + [BAR] + ciphertext)))
  {
    var rest := Joined(nonce, ciphertext);
    NonceResplits(nonce, ciphertext);
    FrontRegroups(id, rest);
  }

  lemma NonceResplits(nonce: Bytes, ciphertext: Bytes)
    requires |nonce| == AES_NONCE_SIZE && nonce[10] == BAR
    ensures Joined([50, BAR] + nonce[..10], nonce[11..] + [BAR] + ciphertext) == [50, BAR] + Joined(nonce, ciphertext)
  {
    assert nonce == nonce[..10] + ([BAR] + nonce[11..]);
  }

  lemma FrontRegroups(id: Bytes, rest: Bytes)
    ensures Joined(id + [BAR, 49], Joined([50], rest)) == Joined(id, Joined([49], [50, BAR] + rest))
  {}
}
