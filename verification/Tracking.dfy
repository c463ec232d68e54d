// tracking/tracking_service.py and tracking/repository.py: usage records,
// mutated over a session and appended to the tamper-evident log when it ends.

module Tracking {
  import opened Results
  import opened ByteStrings
  import opened MacInputs
  import TamperEvidentLog

  type Sealed = TamperEvidentLog.Sealed<UsageData>
  type RecordCodec = TamperEvidentLog.Codec<UsageData>

  datatype UsageData = UsageData(
    sessionId: string,
    user: string,
    machineId: string,
    fileId: string,
    usbId: Option<string>,
    loginAt: Option<Instant>,
    openedAt: Option<Instant>,
    closedAt: Option<Instant>,
    duration: Option<int>,
    authenticated: Option<bool>,
    validated: Option<bool>,
    screenCaptures: nat,
    tamperingEvents: nat,
    eventType: string,
    previousUsbId: Option<string>)

  function NewSession(
    sessionId: string, user: string, machineId: string, fileId: string, usbId: Option<string>, now: Instant): UsageData
  {
    UsageData(sessionId, user, machineId, fileId, usbId, Some(now), None, None, None, None, None, 0, 0, "access", None)
  }

  function Closed(d: UsageData, now: Instant): UsageData {
    d.(closedAt := Some(now),
       duration := if d.openedAt.Some? then Some(now - d.openedAt.value) else d.duration)
  }

  /** The record object one session's callbacks share and update. */
  class UsageRecord {
    var data: UsageData

    constructor (data: UsageData)
      ensures this.data == data
    {
      this.data := data;
    }
  }

  /** The append-only table of sealed entries, in insertion order. */
  class TrackingRepository {
    var entries: seq<TamperEvidentLog.Entry>

    constructor ()
      ensures entries == []
    {
      entries := [];
    }

    method LastEntryMac() returns (mac: Bytes)
      ensures mac == TamperEvidentLog.LastMac(entries)
    {
      mac := if entries == [] then TamperEvidentLog.GENESIS else entries[|entries| - 1].mac;
    }

    method Append(e: TamperEvidentLog.Entry)
      modifies this
      ensures entries == old(entries) + [e]
    {
      entries := entries + [e];
    }

    method Clear() returns (deleted: nat)
      modifies this
      ensures entries == [] && deleted == |old(entries)|
    {
      deleted := |entries|;
      entries := [];
    }
  }

  class UsageTracker {
    const p: Primitives
    const codec: RecordCodec
    const keys: ProtectionKeys
    const repository: TrackingRepository
    /** What has been sealed so far, with the nonces drawn. */
    ghost var items: seq<Sealed>

    /** The table holds exactly the chain of what this tracker sealed. */
    ghost predicate Valid()
      reads this, repository
    {
      repository.entries == TamperEvidentLog.Log(p, codec, keys, items)
    }

    constructor (p: Primitives, codec: RecordCodec, keys: ProtectionKeys, repository: TrackingRepository)
      requires repository.entries == []
      ensures Valid() && items == []
      ensures this.p == p && this.codec == codec && this.keys == keys && this.repository == repository
    {
      this.p := p;
      this.codec := codec;
      this.keys := keys;
      this.repository := repository;
      this.items := [];
    }

    method StartSession(
      sessionId: string, user: string, machineId: string, fileId: string, usbId: Option<string>, now: Instant)
      returns (r: UsageRecord)
      ensures fresh(r) && r.data == NewSession(sessionId, user, machineId, fileId, usbId, now)
      ensures r.data == UsageData(
                sessionId, user, machineId, fileId, usbId, Some(now), None, None, None, None, None, 0, 0, "access", None)
    {
      r := new UsageRecord(NewSession(sessionId, user, machineId, fileId, usbId, now));
    }

    method RecordAuthenticationResult(r: UsageRecord, success: bool)
      modifies r
      ensures r.data == old(r.data).(authenticated := Some(success))
    {
      r.data := r.data.(authenticated := Some(success));
    }

    method RecordValidationResult(r: UsageRecord, success: bool)
      modifies r
      ensures r.data == old(r.data).(validated := Some(success))
    {
      r.data := r.data.(validated := Some(success));
    }

    method RecordOpen(r: UsageRecord, now: Instant)
      modifies r
      ensures r.data == old(r.data).(openedAt := Some(now))
    {
      r.data := r.data.(openedAt := Some(now));
    }

    method RecordScreenCaptureAttempt(r: UsageRecord)
      modifies r
      ensures r.data == old(r.data).(screenCaptures := old(r.data).screenCaptures + 1)
    {
      r.data := r.data.(screenCaptures := r.data.screenCaptures + 1);
    }

    method RecordTamperingEvent(r: UsageRecord)
      modifies r
      ensures r.data == old(r.data).(tamperingEvents := old(r.data).tamperingEvents + 1)
    {
      r.data := r.data.(tamperingEvents := r.data.tamperingEvents + 1);
    }

    /** Completes the record and appends it, chained onto the last entry. */
    method RecordClose(r: UsageRecord, now: Instant, nonce: Bytes)
      requires Valid()
      modifies this, r, repository
      ensures Valid() && r.data == Closed(old(r.data), now)
      ensures r.data.closedAt == Some(now)
      ensures r.data.duration ==
              if old(r.data).openedAt.Some? then Some(now - old(r.data).openedAt.value) else old(r.data).duration
      ensures r.data == old(r.data).(closedAt := r.data.closedAt, duration := r.data.duration)
      ensures items == old(items) + [TamperEvidentLog.Sealed(r.data, nonce)]
    {
      hide TamperEvidentLog.Log;
      r.data := r.data.(closedAt := Some(now));
      if r.data.openedAt.Some? {
        r.data := r.data.(duration := Some(now - r.data.openedAt.value));
      }
      AppendSealed(r.data, nonce);
    }

    /** A rebind is one instantaneous entry of its own. */
    method RecordDeviceRebind(
      sessionId: string, user: string, machineId: string, fileId: string,
      previousUsbId: Option<string>, newUsbId: Option<string>, now: Instant, nonce: Bytes) returns (r: UsageRecord)
      requires Valid()
      modifies this, repository
      ensures Valid() && fresh(r)
      ensures items == old(items) + [TamperEvidentLog.Sealed(r.data, nonce)]
      ensures r.data == UsageData(
                sessionId, user, machineId, fileId, newUsbId, Some(now), None, Some(now), Some(0), Some(true), None,
                0, 0, "device_rebind", previousUsbId)
    {
      var data := NewSession(sessionId, user, machineId, fileId, newUsbId, now);
      r := new UsageRecord(data.(
        previousUsbId := previousUsbId, closedAt := Some(now), duration := Some(0),
        authenticated := Some(true), eventType := "device_rebind"));
      AppendSealed(r.data, nonce);
    }

    method AppendSealed(data: UsageData, nonce: Bytes)
      requires Valid()
      modifies this, repository
      ensures Valid()
      ensures items == old(items) + [TamperEvidentLog.Sealed(data, nonce)]
    {
      var prev := repository.LastEntryMac();
      repository.Append(TamperEvidentLog.Seal(p, codec, keys, data, nonce, prev));
      items := items + [TamperEvidentLog.Sealed(data, nonce)];
      assert items[..|items| - 1] == old(items);
    }

    /** Working primitives, and nonces of the drawn size. */
    ghost predicate Working()
      reads this
    {
      && Correct(p) && TamperEvidentLog.Faithful(codec)
      && TamperEvidentLog.GoodNonces(items) && |keys.encryption| == AES_KEY_SIZE
    }

    /** None stands for the tamper error of an entry that does not open. */
    method ReadAllRecords() returns (records: Option<seq<UsageData>>)
      ensures records.Some? ==> |records.value| == |repository.entries|
      ensures records.Some? ==> forall i :: 0 <= i < |repository.entries| ==>
                TamperEvidentLog.Open(p, codec, keys, repository.entries[i]) == Some(records.value[i])
      ensures records.None? ==> !TamperEvidentLog.Accepted(p, codec, keys, repository.entries)
      ensures Valid() && Working() ==>
                records.Some? && forall i :: 0 <= i < |items| ==> records.value[i] == items[i].record
    {
      if Valid() && Working() {
        TamperEvidentLog.HonestLogReadsBack(p, codec, keys, items);
      }
      var found: seq<UsageData> := [];
      for i := 0 to |repository.entries|
        invariant |found| == i
        invariant forall j :: 0 <= j < i ==>
                    TamperEvidentLog.Open(p, codec, keys, repository.entries[j]) == Some(found[j])
      {
        var r := TamperEvidentLog.Open(p, codec, keys, repository.entries[i]);
        if r.None? {
          assert repository.entries[i] in repository.entries;
          return None;
        }
        found := found + [r.value];
      }
      return Some(found);
    }

    method VerifyLogIntegrity() returns (v: TamperEvidentLog.Verdict)
      ensures v.ok <==> TamperEvidentLog.Intact(p, keys, repository.entries)
      ensures Valid() && Working() ==> v.ok && v.verifiedCount == |items|
    {
      v := TamperEvidentLog.VerifyChain(p, keys, repository.entries);
      if Valid() && Working() {
        TamperEvidentLog.HonestLogReadsBack(p, codec, keys, items);
      }
    }
  }
}
