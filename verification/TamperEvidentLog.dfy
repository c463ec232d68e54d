// tracking/tamper_evident_log.py: usage records sealed into a hash chain.

module TamperEvidentLog {
  import opened Results
  import opened ByteStrings
  import opened SecureContainer
  import opened MacInputs

  const GENESIS: Digest := Zeros(32)

  function Zeros(n: nat): Bytes { seq(n, _ => 0) }

  /** The stored form of one record, and its JSON encoding. */
  datatype Entry = Entry(nonce: Bytes, ciphertext: Bytes, prev: Bytes, mac: Bytes)
  datatype Codec<!R> = Codec(encode: R -> Bytes, decode: Bytes -> Option<R>)

  ghost predicate Faithful<R(!new)>(codec: Codec<R>) {
    forall r :: codec.decode(codec.encode(r)) == Some(r)
  }

  function ChainInput(prev: Bytes, nonce: Bytes, ciphertext: Bytes): Bytes {
    Joined(prev, Joined(nonce, ciphertext))
  }

  function InputOf(e: Entry): Bytes {
    ChainInput(e.prev, e.nonce, e.ciphertext)
  }

  function Seal<R>(p: Primitives, codec: Codec<R>, keys: ProtectionKeys, r: R, nonce: Bytes, prev: Bytes): Entry {
    var ciphertext := p.seal(keys.encryption, nonce, codec.encode(r));
    Entry(nonce, ciphertext, prev, p.hmac(keys.hmac, ChainInput(prev, nonce, ciphertext)))
  }

  predicate Verifies(p: Primitives, keys: ProtectionKeys, e: Entry) {
    p.hmac(keys.hmac, InputOf(e)) == e.mac
  }

  function Open<R>(p: Primitives, codec: Codec<R>, keys: ProtectionKeys, e: Entry): Option<R> {
    if !Verifies(p, keys, e) then None
    else match Decrypt(p, e.nonce, e.ciphertext, keys.encryption)
      case None => None
      case Some(payload) => codec.decode(payload)
  }

  function LastMac(entries: seq<Entry>): Bytes {
    if entries == [] then GENESIS else entries[|entries| - 1].mac
  }

  /** Entry i verifies and follows from the entry before it. */
  predicate Linked(p: Primitives, keys: ProtectionKeys, entries: seq<Entry>, i: nat)
    requires i < |entries|
  {
    entries[i].prev == LastMac(entries[..i]) && Verifies(p, keys, entries[i])
  }

  ghost predicate Intact(p: Primitives, keys: ProtectionKeys, entries: seq<Entry>) {
    forall i :: 0 <= i < |entries| ==> Linked(p, keys, entries, i)
  }

  datatype Verdict = Verdict(ok: bool, verifiedCount: nat)

  /** Walks the log and stops at the first broken link or invalid tag. */
  method VerifyChain(p: Primitives, keys: ProtectionKeys, entries: seq<Entry>) returns (v: Verdict)
    ensures v.ok <==> Intact(p, keys, entries)
    ensures v.verifiedCount <= |entries|
    ensures Intact(p, keys, entries[..v.verifiedCount])
    ensures v.verifiedCount < |entries| ==> !Linked(p, keys, entries, v.verifiedCount)
    ensures v.ok ==> v.verifiedCount == |entries|
  {
    var expected: Bytes := GENESIS;
    for i := 0 to |entries|
      invariant expected == LastMac(entries[..i])
      invariant forall j :: 0 <= j < i ==> Linked(p, keys, entries, j)
    {
      if entries[i].prev != expected || !Verifies(p, keys, entries[i]) {
        PrefixIntact(p, keys, entries, i);
        assert !Linked(p, keys, entries, i);
        return Verdict(false, i);
      }
      expected := entries[i].mac;
    }
    assert entries[..|entries|] == entries;
    return Verdict(true, |entries|);
  }

  lemma PrefixIntact(p: Primitives, keys: ProtectionKeys, entries: seq<Entry>, n: nat)
    requires n <= |entries| && forall j :: 0 <= j < n ==> Linked(p, keys, entries, j)
    ensures Intact(p, keys, entries[..n])
  {
    forall i | 0 <= i < n ensures Linked(p, keys, entries[..n], i) {
      assert Linked(p, keys, entries, i) && entries[..n][..i] == entries[..i];
    }
  }

  // ---- Logs the tracker builds ---------------------------------------------

  /** One sealed record and the nonce drawn for it. */
  datatype Sealed<R> = Sealed(record: R, nonce: Bytes)

  /** The log that sealing these records in turn builds. */
  function Log<R>(p: Primitives, codec: Codec<R>, keys: ProtectionKeys, items: seq<Sealed<R>>): (log: seq<Entry>)
    ensures |log| == |items|
  {
    if items == [] then []
    else
      var before := Log(p, codec, keys, items[..|items| - 1]);
      before + [Seal(p, codec, keys, items[|items| - 1].record, items[|items| - 1].nonce, LastMac(before))]
  }

  lemma {:induction false} LogEntries<R>(
    p: Primitives, codec: Codec<R>, keys: ProtectionKeys, items: seq<Sealed<R>>, i: nat)
    requires i < |items|
    ensures var log := Log(p, codec, keys, items);
            log[i] == Seal(p, codec, keys, items[i].record, items[i].nonce, LastMac(log[..i]))
  {
    var log, before := Log(p, codec, keys, items), Log(p, codec, keys, items[..|items| - 1]);
    assert log[..|items| - 1] == before;
    if i < |items| - 1 {
      LogEntries(p, codec, keys, items[..|items| - 1], i);
      assert log[..i] == before[..i];
    }
  }

  ghost predicate GoodNonces<R>(items: seq<Sealed<R>>) {
    forall i :: 0 <= i < |items| ==> |items[i].nonce| == AES_NONCE_SIZE
  }

  /** Every log the tracker builds verifies and reads back the sealed records in order. */
  lemma HonestLogReadsBack<R(!new)>(p: Primitives, codec: Codec<R>, keys: ProtectionKeys, items: seq<Sealed<R>>)
    requires Correct(p) && Faithful(codec) && GoodNonces(items) && |keys.encryption| == AES_KEY_SIZE
    ensures var log := Log(p, codec, keys, items);
            && Intact(p, keys, log)
            && forall i :: 0 <= i < |log| ==> Open(p, codec, keys, log[i]) == Some(items[i].record)
  {
    var log := Log(p, codec, keys, items);
    forall i | 0 <= i < |log|
      ensures Linked(p, keys, log, i) && Open(p, codec, keys, log[i]) == Some(items[i].record)
    {
      LogEntries(p, codec, keys, items, i);
      assert codec.decode(codec.encode(items[i].record)) == Some(items[i].record);
    }
  }

  // ---- What an accepted log can be ------------------------------------------

  /** No two tags of the log coincide and none is the chain root. */
  ghost predicate TagsDistinct(log: seq<Entry>) {
    && (forall i, j :: 0 <= i < j < |log| ==> log[i].mac != log[j].mac)
    && (forall i :: 0 <= i < |log| ==> log[i].mac != GENESIS)
  }

  /** Whoever wrote the entries has forged no tag: one that verifies is over an input the
      tracker itself computed a tag over. */
  ghost predicate NoForgery(p: Primitives, keys: ProtectionKeys, log: seq<Entry>, entries: seq<Entry>) {
    forall i :: 0 <= i < |entries| && Verifies(p, keys, entries[i]) ==> InputWasLogged(log, entries[i])
  }

  ghost predicate InputWasLogged(log: seq<Entry>, e: Entry) {
    exists j :: 0 <= j < |log| && InputOf(log[j]) == InputOf(e)
  }

  /** Chain links and tags of a log are digests. */
  lemma LogTagsAreDigests<R>(p: Primitives, codec: Codec<R>, keys: ProtectionKeys, items: seq<Sealed<R>>, i: nat)
    requires i < |items|
    ensures var e := Log(p, codec, keys, items)[i];
            |e.prev| == 32 && |e.mac| == 32 && e.nonce == items[i].nonce && Verifies(p, keys, e)
            && e.prev == LastMac(Log(p, codec, keys, items)[..i])
  {
    LogEntries(p, codec, keys, items, i);
    if i > 0 { LogEntries(p, codec, keys, items, i - 1); }
  }

  lemma AcceptedEntryIsLogged<R>(
    p: Primitives, codec: Codec<R>, keys: ProtectionKeys, items: seq<Sealed<R>>, entries: seq<Entry>, i: nat)
    requires GoodNonces(items) && TagsDistinct(Log(p, codec, keys, items))
    requires NoForgery(p, keys, Log(p, codec, keys, items), entries)
    requires i < |entries| && i <= |items|
    requires entries[..i] == Log(p, codec, keys, items)[..i]
    requires Linked(p, keys, entries, i) && |entries[i].nonce| == AES_NONCE_SIZE
    ensures i < |items| && entries[i] == Log(p, codec, keys, items)[i]
  {
    hide Log, Seal;
    var log, e := Log(p, codec, keys, items), entries[i];
    assert InputWasLogged(log, e);
    var j :| 0 <= j < |log| && InputOf(log[j]) == InputOf(e);
    LogTagsAreDigests(p, codec, keys, items, j);
    if i > 0 { LogTagsAreDigests(p, codec, keys, items, i - 1); }
    SameLengthSplits(e.prev, Joined(e.nonce, e.ciphertext), log[j].prev, Joined(log[j].nonce, log[j].ciphertext));
    SameLengthSplits(e.nonce, e.ciphertext, log[j].nonce, log[j].ciphertext);
    assert e == log[j];
    assert LastMac(log[..i]) == LastMac(log[..j]);
  }

  lemma {:induction false} AcceptedUpTo<R>(
    p: Primitives, codec: Codec<R>, keys: ProtectionKeys, items: seq<Sealed<R>>, entries: seq<Entry>, n: nat)
    requires GoodNonces(items) && TagsDistinct(Log(p, codec, keys, items))
    requires NoForgery(p, keys, Log(p, codec, keys, items), entries)
    requires Intact(p, keys, entries) && n <= |entries|
    requires forall e :: e in entries ==> |e.nonce| == AES_NONCE_SIZE
    ensures n <= |items| && entries[..n] == Log(p, codec, keys, items)[..n]
  {
    if n > 0 {
      AcceptedUpTo(p, codec, keys, items, entries, n - 1);
      AcceptedEntryIsLogged(p, codec, keys, items, entries, n - 1);
      var log := Log(p, codec, keys, items);
      assert entries[..n] == entries[..n - 1] + [entries[n - 1]];
      assert log[..n] == log[..n - 1] + [log[n - 1]];
    }
  }

  ghost predicate Accepted<R>(p: Primitives, codec: Codec<R>, keys: ProtectionKeys, entries: seq<Entry>) {
    Intact(p, keys, entries) && forall e :: e in entries ==> Open(p, codec, keys, e).Some?
  }

  /** A list of entries verifies and opens throughout exactly when it is a prefix of the log
      the tracker built: changing, inserting, reordering or deleting before the end is always
      caught, and cutting off the end never is. */
  lemma AcceptedIffPrefix<R(!new)>(
    p: Primitives, codec: Codec<R>, keys: ProtectionKeys, items: seq<Sealed<R>>, entries: seq<Entry>)
    requires Correct(p) && Faithful(codec) && GoodNonces(items) && |keys.encryption| == AES_KEY_SIZE
    requires TagsDistinct(Log(p, codec, keys, items))
    requires NoForgery(p, keys, Log(p, codec, keys, items), entries)
    ensures Accepted(p, codec, keys, entries) <==> entries <= Log(p, codec, keys, items)
  {
    var log := Log(p, codec, keys, items);
    HonestLogReadsBack(p, codec, keys, items);
    if Accepted(p, codec, keys, entries) {
      AcceptedUpTo(p, codec, keys, items, entries, |entries|);
      assert entries[..|entries|] == entries;
    }
    if entries <= log {
      PrefixIntact(p, keys, log, |entries|);
      assert log[..|entries|] == entries;
      assert forall i :: 0 <= i < |entries| ==> entries[i] == log[i];
    }
  }

  /** The chain check without opening the entries needs one more fact for the same guarantee:
      that every nonce presented has twelve bytes. */
  lemma ChainAloneIffPrefix<R(!new)>(
    p: Primitives, codec: Codec<R>, keys: ProtectionKeys, items: seq<Sealed<R>>, entries: seq<Entry>)
    requires Correct(p) && Faithful(codec) && GoodNonces(items) && |keys.encryption| == AES_KEY_SIZE
    requires TagsDistinct(Log(p, codec, keys, items))
    requires NoForgery(p, keys, Log(p, codec, keys, items), entries)
    ensures Intact(p, keys, entries) && (forall e :: e in entries ==> |e.nonce| == AES_NONCE_SIZE)
            <==> entries <= Log(p, codec, keys, items)
  {
    var log := Log(p, codec, keys, items);
    AcceptedIffPrefix(p, codec, keys, items, entries);
    if Intact(p, keys, entries) && forall e :: e in entries ==> |e.nonce| == AES_NONCE_SIZE {
      AcceptedUpTo(p, codec, keys, items, entries, |entries|);
      assert entries[..|entries|] == entries;
    }
    if entries <= log {
      forall i | 0 <= i < |entries| ensures |entries[i].nonce| == AES_NONCE_SIZE {
        LogEntries(p, codec, keys, items, i);
      }
    }
  }

  /** The same bytes under the tag, split differently between nonce and ciphertext. */
  function Resplit(e: Entry, k: nat): Entry
    requires k < |e.ciphertext|
  {
    e.(nonce := Joined(e.nonce, e.ciphertext[..k]), ciphertext := e.ciphertext[k + 1..])
  }

  lemma ResplitJoinsTheSame(e: Entry, k: nat)
    requires k < |e.ciphertext| && e.ciphertext[k] == BAR
    ensures var f := Resplit(e, k);
            Joined(f.nonce, f.ciphertext) == Joined(e.nonce, e.ciphertext) && |f.nonce| > |e.nonce|
  {
    assert e.ciphertext == e.ciphertext[..k] + ([BAR] + e.ciphertext[k + 1..]);
  }

  /** Without that fact it does not hold: wherever a ciphertext contains the separator byte,
      the chain check alone also accepts a changed entry, which only opening rejects. */
  lemma ChainAloneMissesResplit<R>(
    p: Primitives, codec: Codec<R>, keys: ProtectionKeys, entries: seq<Entry>, i: nat, k: nat)
    requires Intact(p, keys, entries) && i < |entries| && |entries[i].nonce| == AES_NONCE_SIZE
    requires k < |entries[i].ciphertext| && entries[i].ciphertext[k] == BAR
    ensures var changed := entries[i := Resplit(entries[i], k)];
            && changed != entries && Intact(p, keys, changed)
            && Open(p, codec, keys, changed[i]).None?
  {
    hide Joined;
    var e, f := entries[i], Resplit(entries[i], k);
    var changed := entries[i := f];
    ResplitJoinsTheSame(e, k);
    assert changed[i] != entries[i];
    forall j | 0 <= j < |changed| ensures Linked(p, keys, changed, j) {
      assert Linked(p, keys, entries, j);
      assert j > 0 ==> changed[..j][j - 1] == changed[j - 1] && entries[..j][j - 1] == entries[j - 1];
    }
  }
}
