// metadata/models.py, metadata/protection.py and metadata/repository.py over
// terms: a file's record, its protected envelope, and where envelopes are kept.

module Metadata {
  import opened Results
  import opened ByteStrings
  import opened KeyWrapping
  import opened DeviceIdentity
  import opened MacInputs

  const CURRENT_VERSION: int := 1

  /** crypto/file_encryptor.py's container as a term. */
  datatype StoredFile = StoredFile(wrapAlgorithm: string, wrappedKey: WrappedKey, content: Cipher)

  /** The bytes presented as an encrypted file: a container's, or bytes that do not parse. */
  datatype FileBytes = Encoded(file: StoredFile) | Unreadable(bytes: Bytes)

  /** A SHA-256 hex digest stands for the bytes it was taken of; other text is no digest. */
  datatype IntegrityHash = Sha256(of: FileBytes) | NotADigest(text: string)

  datatype ExpiryRules = ExpiryRules(expiresAt: Option<Instant>, maxAccessCount: Option<int>)

  datatype Record = Record(
    fileId: string,
    ownerId: string,
    wrappedKey: WrappedKey,
    wrapAlgorithm: string,
    integrityHash: IntegrityHash,
    createdAt: Instant,
    lastAccessedAt: Option<Instant>,
    accessCount: int,
    expiry: ExpiryRules,
    binding: DeviceBinding,
    oneTimeAccess: bool,
    version: int)

  /** The structural rules of MetadataController.validate. */
  predicate StructurallyValid(m: Record) {
    && m.fileId != "" && m.ownerId != ""
    && m.wrappedKey != Foreign([]) && m.wrapAlgorithm != ""
    && m.integrityHash.Sha256?
    && m.accessCount >= 0
    && m.version == CURRENT_VERSION
    && (m.lastAccessedAt.Some? ==> m.lastAccessedAt.value >= m.createdAt)
  }

  /** The mutable record object the services pass around and update in place. */
  class FileMetadata {
    var data: Record

    constructor (data: Record)
      ensures this.data == data
    {
      this.data := data;
    }
  }

  // ---- Protected envelopes ----------------------------------------------------

  datatype Body = Encrypted(key: Key, record: Record) | Noise
  datatype Tag = Mac(key: Key, fileId: string, version: int, body: Body) | NoTag
  datatype Envelope = Envelope(fileId: string, version: int, body: Body, tag: Tag)

  function Protect(keys: ProtectionKeys, m: Record): Envelope {
    var body := Encrypted(keys.encryption, m);
    Envelope(m.fileId, m.version, body, Mac(keys.hmac, m.fileId, m.version, body))
  }

  /** None stands for the tamper error. */
  function Unprotect(keys: ProtectionKeys, e: Envelope): Option<Record> {
    if e.tag != Mac(keys.hmac, e.fileId, e.version, e.body) then None
    else if e.body.Encrypted? && e.body.key == keys.encryption then Some(e.body.record)
    else None
  }

  lemma UnprotectExactly(keys: ProtectionKeys, other: ProtectionKeys, m: Record)
    ensures Unprotect(other, Protect(keys, m)) == if other == keys then Some(m) else None
  {}

  // ---- Repositories -------------------------------------------------------------

  type Table = map<string, Envelope>

  function Lookup(t: Table, fileId: string): Option<Envelope> {
    if fileId in t then Some(t[fileId]) else None
  }

  /** The table with the envelope stored under its own file id. */
  function Saved(t: Table, e: Envelope): Table {
    t[e.fileId := e]
  }

  class MetadataRepository {
    var rows: Table

    constructor ()
      ensures rows == map[]
    {
      rows := map[];
    }

    method Load(fileId: string) returns (e: Option<Envelope>)
      ensures e == Lookup(rows, fileId)
    {
      e := if fileId in rows then Some(rows[fileId]) else None;
    }

    method Save(e: Envelope)
      modifies this
      ensures rows == old(rows)[e.fileId := e]
    {
      rows := rows[e.fileId := e];
    }
  }

  /** Saves the same envelope to the primary repository and then to every mirror. */
  method SaveEverywhere(primary: MetadataRepository, mirrors: seq<MetadataRepository>, e: Envelope)
    modifies primary, mirrors
    ensures primary.rows == Saved(old(primary.rows), e)
    ensures forall r :: r in mirrors ==> r.rows == Saved(old(r.rows), e)
  {
    primary.Save(e);
    for i := 0 to |mirrors|
      invariant primary.rows == Saved(old(primary.rows), e)
      invariant forall r :: r in mirrors[..i] ==> r.rows == Saved(old(r.rows), e)
      invariant forall r :: r in mirrors && r !in mirrors[..i] && r != primary ==> r.rows == old(r.rows)
    {
      mirrors[i].Save(e);
      assert mirrors[..i + 1] == mirrors[..i] + [mirrors[i]];
    }
    assert mirrors[..|mirrors|] == mirrors;
  }
}
