// usb/storage_writer.py: writing a container by temporary file, sync and
// replace, with every intermediate state of the volume kept in a history.

module StorageWriter {
  import opened Results
  import opened ByteStrings
  import opened FileContainer
  import opened SecureContainer

  type Files = map<string, Bytes>

  /** One state of the volume: what reads see, and which names hold data that was never
      synced and may be lost or torn by a crash. */
  datatype Snapshot = Snapshot(files: Files, unsynced: set<string>)

  /** image agrees with s on every name whose content was settled. */
  ghost predicate Keeps(s: Snapshot, image: Files) {
    forall n :: n !in s.unsynced ==> (n in image <==> n in s.files) && (n in s.files ==> image[n] == s.files[n])
  }

  /** What a volume may hold after a crash: renames are atomic but not forced out, so any
      state passed through may be the one found, with its unsynced files arbitrary. */
  ghost predicate CrashImage(history: seq<Snapshot>, image: Files) {
    exists i :: 0 <= i < |history| && Keeps(history[i], image)
  }

  /** The failures one write may meet. */
  datatype Faults = Faults(
    openFails: bool,
    writeStopsAt: Option<nat>,
    syncFails: bool,
    replaceFails: bool,
    removeFails: bool,
    mediumStores: Option<Bytes>)

  /** The bytes the medium really keeps for a payload: the payload, unless it silently
      stores something else. */
  function Landed(payload: Bytes, faults: Faults): Bytes {
    if faults.mediumStores.Some? then faults.mediumStores.value else payload
  }

  class Volume {
    var files: Files
    var unsynced: set<string>
    ghost var history: seq<Snapshot>

    ghost predicate Valid()
      reads this
    {
      history != [] && history[|history| - 1] == Now()
    }

    ghost function Now(): Snapshot
      reads this
    {
      Snapshot(files, unsynced)
    }

    constructor (initial: Files)
      ensures Valid() && files == initial && unsynced == {} && history == [Snapshot(initial, {})]
    {
      files := initial;
      unsynced := {};
      history := [Snapshot(initial, {})];
    }

    method Create(name: string)
      modifies this
      ensures files == old(files)[name := []] && unsynced == old(unsynced) + {name}
      ensures history == old(history) + [Now()]
    {
      files := files[name := []];
      unsynced := unsynced + {name};
      history := history + [Now()];
    }

    method Append(name: string, data: Bytes)
      requires name in files
      modifies this
      ensures files == old(files)[name := old(files)[name] + data] && unsynced == old(unsynced)
      ensures history == old(history) + [Now()]
    {
      files := files[name := files[name] + data];
      history := history + [Now()];
    }

    method Sync(name: string, faults: Faults)
      requires name in files
      modifies this
      ensures files == old(files)[name := Landed(old(files)[name], faults)]
      ensures unsynced == old(unsynced) - {name}
      ensures history == old(history) + [Now()]
    {
      files := files[name := Landed(files[name], faults)];
      unsynced := unsynced - {name};
      history := history + [Now()];
    }

    method Replace(from: string, to: string)
      requires from in files && from !in unsynced && from != to
      modifies this
      ensures files == (old(files) - {from})[to := old(files)[from]] && unsynced == old(unsynced) - {to}
      ensures history == old(history) + [Now()]
    {
      files := (files - {from})[to := files[from]];
      unsynced := unsynced - {to};
      history := history + [Now()];
    }

    method Remove(name: string)
      modifies this
      ensures files == old(files) - {name} && unsynced == old(unsynced) - {name}
      ensures history == old(history) + [Now()]
    {
      files := files - {name};
      unsynced := unsynced - {name};
      history := history + [Now()];
    }
  }

  function TempName(destination: string, suffix: string): (t: string)
    ensures t != destination
  {
    var t := "." + destination + "." + suffix + ".tmp";
    assert |t| > |destination|;
    t
  }

  /** s differs from the state before the write only at the temporary name and, once
      replaced, at the destination, which is settled and holds all of the new bytes. */
  ghost predicate OldOrNew(before: Snapshot, s: Snapshot, destination: string, temp: string, landed: Bytes) {
    && (forall n :: n != temp && n != destination ==>
          && (n in s.files <==> n in before.files)
          && (n in s.files ==> s.files[n] == before.files[n])
          && (n in s.unsynced <==> n in before.unsynced))
    && (|| (destination in s.files && s.files[destination] == landed && destination !in s.unsynced)
        || (&& (destination in s.files <==> destination in before.files)
            && (destination in s.files ==> s.files[destination] == before.files[destination])
            && (destination in s.unsynced <==> destination in before.unsynced)))
  }

  /** Every state the volume passed through since the history had this length. */
  ghost predicate AllOldOrNew(
    history: seq<Snapshot>, start: nat, before: Snapshot, destination: string, temp: string, landed: Bytes)
  {
    forall i :: start <= i < |history| ==> OldOrNew(before, history[i], destination, temp, landed)
  }

  /** The write stops before the whole payload is written. */
  predicate StopsShort(faults: Faults, payload: Bytes) {
    faults.writeStopsAt.Some? && faults.writeStopsAt.value < |payload|
  }

  /** Creates, fills and syncs the temporary file; stops where the first fault strikes. */
  method FillTemp(
    volume: Volume, ghost destination: string, temp: string, payload: Bytes, faults: Faults) returns (ok: bool)
    requires volume.Valid() && temp != destination
    modifies volume
    ensures volume.Valid()
    ensures volume.files - {temp} == old(volume.files) - {temp}
    ensures volume.unsynced - {temp} == old(volume.unsynced) - {temp}
    ensures ok ==> temp in volume.files && volume.files[temp] == Landed(payload, faults) && temp !in volume.unsynced
    ensures ok <==> !faults.openFails && !StopsShort(faults, payload) && !faults.syncFails
    ensures old(volume.history) <= volume.history
    ensures AllOldOrNew(volume.history, |old(volume.history)|, old(volume.Now()), destination, temp,
                        Landed(payload, faults))
  {
    hide OldOrNew, AllOldOrNew;
    ghost var before, start, landed := volume.Now(), |volume.history|, Landed(payload, faults);
    NothingYet(volume.history, before, destination, temp, landed);
    if faults.openFails {
      return false;
    }
    OnlyTempDiffers(volume.Now(), temp, []);
    volume.Create(temp);
    TempStep(volume.history, start, before, destination, temp, landed);
    if faults.writeStopsAt.Some? && faults.writeStopsAt.value < |payload| {
      OnlyTempDiffers(volume.Now(), temp, volume.files[temp] + payload[..faults.writeStopsAt.value]);
      volume.Append(temp, payload[..faults.writeStopsAt.value]);
      TempStep(volume.history, start, before, destination, temp, landed);
      return false;
    }
    OnlyTempDiffers(volume.Now(), temp, volume.files[temp] + payload);
    volume.Append(temp, payload);
    TempStep(volume.history, start, before, destination, temp, landed);
    if faults.syncFails {
      return false;
    }
    assert volume.files[temp] == [] + payload == payload;
    OnlyTempDiffers(volume.Now(), temp, Landed(volume.files[temp], faults));
    volume.Sync(temp, faults);
    TempStep(volume.history, start, before, destination, temp, landed);
    return true;
  }

  lemma OnlyTempDiffers(s: Snapshot, temp: string, data: Bytes)
    ensures s.files[temp := data] - {temp} == s.files - {temp}
    ensures s.unsynced + {temp} - {temp} == s.unsynced - {temp} - {temp} == s.unsynced - {temp}
  {}

  lemma NothingYet(history: seq<Snapshot>, before: Snapshot, destination: string, temp: string, landed: Bytes)
    ensures AllOldOrNew(history, |history|, before, destination, temp, landed)
  {}

  lemma OneMore(
    history: seq<Snapshot>, start: nat, before: Snapshot, destination: string, temp: string, landed: Bytes)
    requires start < |history|
    requires AllOldOrNew(history[..|history| - 1], start, before, destination, temp, landed)
    requires OldOrNew(before, history[|history| - 1], destination, temp, landed)
    ensures AllOldOrNew(history, start, before, destination, temp, landed)
  {}

  /** A step that touched nothing but the temporary file. */
  lemma TempStep(
    history: seq<Snapshot>, start: nat, before: Snapshot, destination: string, temp: string, landed: Bytes)
    requires temp != destination && start < |history|
    requires AllOldOrNew(history[..|history| - 1], start, before, destination, temp, landed)
    requires history[|history| - 1].files - {temp} == before.files - {temp}
    requires history[|history| - 1].unsynced - {temp} == before.unsynced - {temp}
    ensures AllOldOrNew(history, start, before, destination, temp, landed)
  {
    SameElsewhere(before, history[|history| - 1], destination, temp, landed);
  }

  lemma ReplacedIsNew(
    before: Snapshot, synced: Snapshot, s: Snapshot, destination: string, temp: string, landed: Bytes)
    requires temp != destination
    requires synced.files - {temp} == before.files - {temp}
    requires synced.unsynced - {temp} == before.unsynced - {temp} && temp !in synced.unsynced
    requires s.files == (synced.files - {temp})[destination := landed]
    requires s.unsynced == synced.unsynced - {destination}
    ensures OldOrNew(before, s, destination, temp, landed)
    ensures s.files == (before.files - {temp})[destination := landed]
  {
    forall n | n != temp ensures n in s.unsynced <==> n in before.unsynced - {destination} {
      assert n in synced.unsynced - {temp} <==> n in before.unsynced - {temp};
    }
    forall n | n != temp && n != destination
      ensures (n in s.files <==> n in before.files) && (n in s.files ==> s.files[n] == before.files[n])
    {
      assert n in s.files <==> n in before.files - {temp};
    }
  }

  lemma SameElsewhere(before: Snapshot, s: Snapshot, destination: string, temp: string, landed: Bytes)
    requires temp != destination
    requires s.files - {temp} == before.files - {temp}
    requires s.unsynced - {temp} == before.unsynced - {temp}
    ensures OldOrNew(before, s, destination, temp, landed)
  {
    forall n | n != temp
      ensures (n in s.files <==> n in before.files) && (n in s.files ==> s.files[n] == before.files[n])
      ensures n in s.unsynced <==> n in before.unsynced
    {
      assert n in s.files <==> n in s.files - {temp};
      assert n in before.files <==> n in before.files - {temp};
      assert n in s.unsynced <==> n in s.unsynced - {temp};
      assert n in before.unsynced <==> n in before.unsynced - {temp};
    }
  }

  /** Temp file, write, sync, replace; on any failure the temp file is removed if it can be. */
  method PutAtomically(volume: Volume, destination: string, suffix: string, payload: Bytes, faults: Faults)
    returns (ok: bool)
    requires volume.Valid()
    modifies volume
    ensures volume.Valid()
    ensures ok ==> volume.files ==
                   (old(volume.files) - {TempName(destination, suffix)})[destination := Landed(payload, faults)]
    ensures !ok ==> volume.files - {TempName(destination, suffix)} == old(volume.files) - {TempName(destination, suffix)}
    ensures ok <==> !faults.openFails && !StopsShort(faults, payload) && !faults.syncFails && !faults.replaceFails
    ensures !faults.removeFails ==> TempName(destination, suffix) !in volume.files
    ensures old(volume.history) <= volume.history
    ensures AllOldOrNew(volume.history, |old(volume.history)|, old(volume.Now()), destination,
                        TempName(destination, suffix), Landed(payload, faults))
  {
    hide OldOrNew, AllOldOrNew;
    ghost var before, start, landed := volume.Now(), |volume.history|, Landed(payload, faults);
    var temp := TempName(destination, suffix);
    ok := FillTemp(volume, destination, temp, payload, faults);
    if ok && !faults.replaceFails {
      ghost var synced := volume.Now();
      volume.Replace(temp, destination);
      ReplacedIsNew(before, synced, volume.Now(), destination, temp, landed);
      OneMore(volume.history, start, before, destination, temp, landed);
      return true;
    }
    if temp in volume.files && !faults.removeFails {
      volume.Remove(temp);
      TempStep(volume.history, start, before, destination, temp, landed);
    }
    return false;
  }

  // ---- Crashes -------------------------------------------------------------

  /** image, found after a crash, has at the destination its old bytes or exactly the new
      ones, and every other settled file but the temporary one as it was. */
  ghost predicate ImageOldOrNew(before: Snapshot, image: Files, destination: string, temp: string, landed: Bytes) {
    && (destination !in before.unsynced ==>
          || (destination in image && image[destination] == landed)
          || (destination in image && destination in before.files && image[destination] == before.files[destination])
          || (destination !in image && destination !in before.files))
    && (forall n :: n != temp && n != destination && n !in before.unsynced ==>
          (n in image <==> n in before.files) && (n in image ==> image[n] == before.files[n]))
  }

  /** A crash at any instant from the start of a write on. */
  ghost predicate CrashSafe(
    history: seq<Snapshot>, start: nat, before: Snapshot, destination: string, temp: string, landed: Bytes)
    requires 0 < start <= |history|
  {
    forall image :: CrashImage(history[start - 1..], image) ==> ImageOldOrNew(before, image, destination, temp, landed)
  }

  lemma SafeStateSafeImage(
    before: Snapshot, s: Snapshot, image: Files, destination: string, temp: string, landed: Bytes)
    requires OldOrNew(before, s, destination, temp, landed) && Keeps(s, image)
    ensures ImageOldOrNew(before, image, destination, temp, landed)
  {}

  /** Whatever instant of a write the machine stops at, and whatever the volume then loses, the
      destination holds exactly its old bytes or exactly the new ones, and every other file
      but the temporary one is as it was. */
  lemma CrashLeavesOldOrNew(
    history: seq<Snapshot>, start: nat, before: Snapshot, destination: string, temp: string, landed: Bytes)
    requires 0 < start <= |history| && history[start - 1] == before
    requires AllOldOrNew(history, start, before, destination, temp, landed)
    ensures CrashSafe(history, start, before, destination, temp, landed)
  {
    hide OldOrNew, ImageOldOrNew, Keeps;
    var since := history[start - 1..];
    forall image | CrashImage(since, image) ensures ImageOldOrNew(before, image, destination, temp, landed) {
      var i :| 0 <= i < |since| && Keeps(since[i], image);
      NotYetStarted(before, destination, temp, landed);
      assert since[i] == history[start - 1 + i];
      assert OldOrNew(before, since[i], destination, temp, landed);
      SafeStateSafeImage(before, since[i], image, destination, temp, landed);
    }
  }

  lemma NotYetStarted(before: Snapshot, destination: string, temp: string, landed: Bytes)
    ensures OldOrNew(before, before, destination, temp, landed)
  {}

  // ---- The operations the rest of the program calls ------------------------

  datatype WriteError =
    | Unprintable(cause: FormatError) | DeviceInvalid | InvalidName
    | WouldOverwrite | WriteFailed | VerificationFailed

  /** A name without a directory part or a drive, as paths are read on Windows. */
  predicate PlainName(name: string) {
    '/' !in name && '\\' !in name && !(|name| >= 2 && name[1] == ':') && name != "." && name != ".."
  }

  function DestinationName(c: Container, filename: Option<string>): string {
    if filename.Some? && filename.value != "" then filename.value else c.fileId + ".cusc"
  }

  /** The bytes a write of this container would leave; none if it cannot be serialized. */
  function LandedPayload(c: Container, sha: HashFunction, faults: Faults): Bytes {
    if SerializeContainer(c, sha).Success? then Landed(SerializeContainer(c, sha).value, faults) else []
  }

  lemma NothingWrittenIsSafe(history: seq<Snapshot>, destination: string, temp: string, landed: Bytes)
    requires history != []
    ensures CrashSafe(history, |history|, history[|history| - 1], destination, temp, landed)
  {
    NothingYet(history, history[|history| - 1], destination, temp, landed);
    CrashLeavesOldOrNew(history, |history|, history[|history| - 1], destination, temp, landed);
  }

  /** Structural validity, outer hash and a byte-for-byte match with what was written. */
  method VerifyContainer(volume: Volume, name: string, expected: Bytes, sha: HashFunction) returns (ok: bool)
    ensures ok <==> name in volume.files && volume.files[name] == expected
                    && DeserializeContainer(expected, sha).Success?
  {
    if name !in volume.files || volume.files[name] != expected {
      return false;
    }
    return DeserializeContainer(volume.files[name], sha).Success?;
  }

  /** The temporary file cannot be filled, synced and put in place. */
  predicate CannotPut(faults: Faults, payload: Bytes) {
    faults.openFails || StopsShort(faults, payload) || faults.syncFails || faults.replaceFails
  }

  /** How a write ends, the checks coming in this order. */
  function WriteOutcome(
    c: Container, taken: bool, deviceOk: bool, filename: Option<string>, overwrite: bool, faults: Faults,
    sha: HashFunction): Result<string, WriteError>
  {
    var name := DestinationName(c, filename);
    match SerializeContainer(c, sha)
    case Failure(cause) => Failure(Unprintable(cause))
    case Success(payload) =>
      if !deviceOk then Failure(DeviceInvalid)
      else if !PlainName(name) then Failure(InvalidName)
      else if taken && !overwrite then Failure(WouldOverwrite)
      else if CannotPut(faults, payload) then Failure(WriteFailed)
      else if Landed(payload, faults) != payload || DeserializeContainer(payload, sha).Failure?
      then Failure(VerificationFailed)
      else Success(name)
  }

  /** A write succeeds exactly for a container that serializes, on a valid device, under a name
      that stays in its directory, replacing only what it may, with no fault on the way and the
      payload found again and parsing; a well-formed container needs no more than that. */
  lemma WriteSucceedsExactly(
    c: Container, taken: bool, deviceOk: bool, filename: Option<string>, overwrite: bool, faults: Faults,
    sha: HashFunction)
    ensures var r := WriteOutcome(c, taken, deviceOk, filename, overwrite, faults, sha);
            var name := if filename.Some? && filename.value != "" then filename.value else c.fileId + ".cusc";
            && (r.Success? ==> r.value == name)
            && (WellFormed(c) ==>
                  (r.Success? <==>
                     && deviceOk && (taken ==> overwrite)
                     && '/' !in name && '\\' !in name && !(|name| >= 2 && name[1] == ':') && name != "." && name != ".."
                     && !faults.openFails && !faults.syncFails && !faults.replaceFails
                     && (faults.writeStopsAt.Some? ==> faults.writeStopsAt.value >= |SerializeContainer(c, sha).value|)
                     && (faults.mediumStores.Some? ==> faults.mediumStores.value == SerializeContainer(c, sha).value)))
  {
    hide SerializeContainer, DeserializeContainer, WellFormed;
    if WellFormed(c) { RoundTrip(c, sha); }
  }

  /** A failed write leaves every file other than the temporary one alone, unless it failed
      only at the final check; an existing file is replaced only when asked; and a normal
      return means the bytes on the volume are the whole payload and parse. */
  method WriteContainer(
    c: Container, volume: Volume, deviceOk: bool, filename: Option<string>, overwrite: bool,
    suffix: string, faults: Faults, sha: HashFunction) returns (r: Result<string, WriteError>)
    requires volume.Valid()
    modifies volume
    ensures volume.Valid()
    ensures SerializeContainer(c, sha).Failure? ==>
              && r == Failure(Unprintable(SerializeContainer(c, sha).error))
              && volume.files == old(volume.files) && volume.history == old(volume.history)
    ensures var name := DestinationName(c, filename);
            && (name in old(volume.files) && !overwrite ==>
                  r.Failure? && volume.files == old(volume.files) && volume.history == old(volume.history))
            && (r.Success? ==>
                  && r.value == name && SerializeContainer(c, sha).Success?
                  && volume.files == (old(volume.files) - {TempName(name, suffix)})
                                     [name := SerializeContainer(c, sha).value]
                  && DeserializeContainer(volume.files[name], sha).Success?
                  && (WellFormed(c) ==> DeserializeContainer(volume.files[name], sha) == Success(c)))
            && (r.Failure? && r.error != VerificationFailed ==>
                  volume.files - {TempName(name, suffix)} == old(volume.files) - {TempName(name, suffix)})
            && (r == Failure(VerificationFailed) && WellFormed(c) ==> faults.mediumStores.Some?)
    ensures SerializeContainer(c, sha).Success? && !faults.removeFails && volume.history != old(volume.history) ==>
              TempName(DestinationName(c, filename), suffix) !in volume.files
    ensures r == WriteOutcome(c, DestinationName(c, filename) in old(volume.files), deviceOk, filename, overwrite, faults, sha)
    ensures old(volume.history) <= volume.history
    ensures volume.history != old(volume.history) ==>
              && SerializeContainer(c, sha).Success?
              && AllOldOrNew(volume.history, |old(volume.history)|, old(volume.Now()), DestinationName(c, filename),
                             TempName(DestinationName(c, filename), suffix), LandedPayload(c, sha, faults))
    ensures CrashSafe(volume.history, |old(volume.history)|, old(volume.Now()), DestinationName(c, filename),
                      TempName(DestinationName(c, filename), suffix), LandedPayload(c, sha, faults))
  {
    hide CrashSafe, OldOrNew, AllOldOrNew, CrashImage, SerializeContainer, DeserializeContainer, WellFormed, PlainName, TempName;
    NothingWrittenIsSafe(volume.history, DestinationName(c, filename), TempName(DestinationName(c, filename), suffix),
                         LandedPayload(c, sha, faults));
    var payload := SerializeContainer(c, sha);
    if payload.Failure? {
      return Failure(Unprintable(payload.error));
    }
    if !deviceOk {
      return Failure(DeviceInvalid);
    }
    var name := DestinationName(c, filename);
    if !PlainName(name) {
      return Failure(InvalidName);
    }
    if name in volume.files && !overwrite {
      return Failure(WouldOverwrite);
    }
    ghost var start, before := |volume.history|, volume.Now();
    var written := PutAtomically(volume, name, suffix, payload.value, faults);
    CrashLeavesOldOrNew(volume.history, start, before, name, TempName(name, suffix), Landed(payload.value, faults));
    if !written {
      return Failure(WriteFailed);
    }
    if WellFormed(c) { RoundTrip(c, sha); }
    var ok := VerifyContainer(volume, name, payload.value, sha);
    if !ok {
      return Failure(VerificationFailed);
    }
    return Success(name);
  }

  /** The same atomic replacement without the device, overwrite and read-back checks. */
  method RewriteInPlace(c: Container, volume: Volume, name: string, suffix: string, faults: Faults, sha: HashFunction)
    returns (r: Result<string, WriteError>)
    requires volume.Valid()
    modifies volume
    ensures volume.Valid()
    ensures SerializeContainer(c, sha).Failure? ==>
              && r == Failure(Unprintable(SerializeContainer(c, sha).error))
              && volume.files == old(volume.files) && volume.history == old(volume.history)
    ensures r.Success? ==>
              && SerializeContainer(c, sha).Success?
              && volume.files == (old(volume.files) - {TempName(name, suffix)})
                                 [name := Landed(SerializeContainer(c, sha).value, faults)]
    ensures r.Failure? ==> volume.files - {TempName(name, suffix)} == old(volume.files) - {TempName(name, suffix)}
    ensures SerializeContainer(c, sha).Success? && !faults.removeFails ==> TempName(name, suffix) !in volume.files
    ensures SerializeContainer(c, sha).Success? ==> (r.Success? <==> !CannotPut(faults, SerializeContainer(c, sha).value))
    ensures old(volume.history) <= volume.history
    ensures volume.history != old(volume.history) ==>
              && SerializeContainer(c, sha).Success?
              && AllOldOrNew(volume.history, |old(volume.history)|, old(volume.Now()), name, TempName(name, suffix),
                             LandedPayload(c, sha, faults))
    ensures CrashSafe(volume.history, |old(volume.history)|, old(volume.Now()), name, TempName(name, suffix),
                      LandedPayload(c, sha, faults))
  {
    hide CrashSafe, OldOrNew, AllOldOrNew, CrashImage;
    NothingWrittenIsSafe(volume.history, name, TempName(name, suffix), LandedPayload(c, sha, faults));
    var payload := SerializeContainer(c, sha);
    if payload.Failure? {
      return Failure(Unprintable(payload.error));
    }
    ghost var start, before := |volume.history|, volume.Now();
    var written := PutAtomically(volume, name, suffix, payload.value, faults);
    CrashLeavesOldOrNew(volume.history, start, before, name, TempName(name, suffix), Landed(payload.value, faults));
    return if written then Success(name) else Failure(WriteFailed);
  }
}
