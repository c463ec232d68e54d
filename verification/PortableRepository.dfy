// metadata/portable_repository.py: a metadata repository over the portable
// section of one container file.

module PortableRepository {
  import opened Results
  import opened ByteStrings
  import opened FileContainer
  import opened PortableEnvelope
  import opened SecureContainer
  import opened StorageWriter

  /** The container with its portable record replaced and its salt kept. */
  function WithRecord(c: Container, p: ProtectedMetadata): Container
    requires c.portable.Some?
  {
    c.(portable := Some(Envelope(c.portable.value.salt, p)))
  }

  function LoadFrom(c: Container, fileId: string): Option<ProtectedMetadata> {
    if c.portable.None? || c.portable.value.protected.fileId != fileId then None
    else Some(c.portable.value.protected)
  }

  class PortableMetadataRepository {
    var container: Container
    const path: string
    const volume: Volume

    constructor (container: Container, path: string, volume: Volume)
      ensures this.container == container && this.path == path && this.volume == volume
    {
      this.container := container;
      this.path := path;
      this.volume := volume;
    }

    method Load(fileId: string) returns (r: Option<ProtectedMetadata>)
      ensures r == LoadFrom(container, fileId)
    {
      if container.portable.None? || container.portable.value.protected.fileId != fileId {
        return None;
      }
      return Some(container.portable.value.protected);
    }

    /** The object's own container changes even when the rewrite fails. */
    method Save(p: ProtectedMetadata, suffix: string, faults: Faults, sha: HashFunction)
      returns (r: Result<string, WriteError>)
      requires volume.Valid() && container.portable.Some?
      modifies this, volume
      ensures volume.Valid() && container == WithRecord(old(container), p)
      ensures r.Success? ==>
                && SerializeContainer(container, sha).Success?
                && volume.files == (old(volume.files) - {TempName(path, suffix)})
                                   [path := Landed(SerializeContainer(container, sha).value, faults)]
      ensures r.Failure? ==> volume.files - {TempName(path, suffix)} == old(volume.files) - {TempName(path, suffix)}
    {
      container := container.(portable := Some(Envelope(container.portable.value.salt, p)));
      r := RewriteInPlace(container, volume, path, suffix, faults, sha);
    }
  }

  // ---- Any number of saves --------------------------------------------------

  /** The container after saving these records, one after the other. */
  function AfterSaves(c: Container, records: seq<ProtectedMetadata>): (d: Container)
    requires c.portable.Some?
    ensures d.portable.Some?
  {
    if records == [] then c else WithRecord(AfterSaves(c, records[..|records| - 1]), records[|records| - 1])
  }

  /** After any sequence of saves that fit, the file on disk parses to the same file id,
      encrypted content, local record and salt, with the last record saved as the
      portable one: so loading returns it, and the hash of the content still matches. */
  lemma {:induction false} SavesChangeOnlyTheRecord(c: Container, records: seq<ProtectedMetadata>, sha: HashFunction)
    requires WellFormed(c) && c.portable.Some?
    requires |records| > 0 ==> ContainerPrintable(WithRecord(c, records[|records| - 1]))
    ensures var d := AfterSaves(c, records);
            && d.fileId == c.fileId && d.file == c.file && d.metadata == c.metadata
            && d.portable.value.salt == c.portable.value.salt
            && SerializeContainer(d, sha).Success?
            && DeserializeContainer(SerializeContainer(d, sha).value, sha) == Success(d)
            && Serialize(d.file) == Serialize(c.file)
            && (records != [] ==>
                  LoadFrom(d, c.fileId) ==
                  (if records[|records| - 1].fileId == c.fileId then Some(records[|records| - 1]) else None))
  {
    OnlyTheLastSaveShows(c, records);
    RoundTrip(AfterSaves(c, records), sha);
  }

  lemma {:induction false} OnlyTheLastSaveShows(c: Container, records: seq<ProtectedMetadata>)
    requires c.portable.Some?
    ensures AfterSaves(c, records) == if records == [] then c else WithRecord(c, records[|records| - 1])
  {
    if records != [] {
      OnlyTheLastSaveShows(c, records[..|records| - 1]);
    }
  }

  // ---- The file on the volume after any number of saves, some of which fail ---------

  datatype SaveCall = SaveCall(record: ProtectedMetadata, suffix: string, faults: Faults)

  /** How many calls there were up to the last that succeeded. */
  function LastSaved(saved: seq<bool>): (k: nat)
    ensures k <= |saved| && (k > 0 ==> saved[k - 1]) && forall i :: k <= i < |saved| ==> !saved[i]
  {
    if saved == [] then 0
    else if saved[|saved| - 1] then |saved|
    else LastSaved(saved[..|saved| - 1])
  }

  /** The container the file holds after these calls. */
  function SavedContainer(c: Container, calls: seq<SaveCall>, saved: seq<bool>): Container
    requires c.portable.Some? && |saved| == |calls|
  {
    var k := LastSaved(saved);
    if k == 0 then c else WithRecord(c, calls[k - 1].record)
  }

  /** The medium kept what the last successful save wrote. */
  predicate MediumHonest(calls: seq<SaveCall>, saved: seq<bool>)
    requires |saved| == |calls|
  {
    LastSaved(saved) > 0 ==> calls[LastSaved(saved) - 1].faults.mediumStores.None?
  }

  /** A save that serialized did so as a well-formed container. */
  lemma SavedParses(c: Container, p: ProtectedMetadata, sha: HashFunction)
    requires WellFormed(c) && c.portable.Some? && SerializeContainer(WithRecord(c, p), sha).Success?
    ensures DeserializeContainer(SerializeContainer(WithRecord(c, p), sha).value, sha) == Success(WithRecord(c, p))
  {
    hide DeserializeContainer, ContainerLayout;
    RoundTrip(WithRecord(c, p), sha);
  }

  lemma NothingSaved(c: Container)
    requires c.portable.Some?
    ensures SavedContainer(c, [], []) == c
  {}

  lemma OneMoreSave(c: Container, calls: seq<SaveCall>, saved: seq<bool>, call: SaveCall, ok: bool)
    requires c.portable.Some? && |saved| == |calls|
    ensures SavedContainer(c, calls + [call], saved + [ok]) ==
            if ok then WithRecord(c, call.record) else SavedContainer(c, calls, saved)
    ensures MediumHonest(calls + [call], saved + [ok]) <==>
            if ok then call.faults.mediumStores.None? else MediumHonest(calls, saved)
  {
    assert (saved + [ok])[..|saved|] == saved;
  }

  /** Whichever of the saves fail, and wherever, the file on the volume parses to the container
      it held, with the record of the last save that succeeded as its portable one. */
  method SaveInTurn(repository: PortableMetadataRepository, calls: seq<SaveCall>, sha: HashFunction)
    returns (saved: seq<bool>)
    requires repository.volume.Valid() && repository.container.portable.Some? && WellFormed(repository.container)
    requires repository.path in repository.volume.files
    requires DeserializeContainer(repository.volume.files[repository.path], sha) == Success(repository.container)
    modifies repository, repository.volume
    ensures repository.volume.Valid() && |saved| == |calls| && repository.path in repository.volume.files
    ensures MediumHonest(calls, saved) ==>
              DeserializeContainer(repository.volume.files[repository.path], sha)
              == Success(SavedContainer(old(repository.container), calls, saved))
  {
    hide DeserializeContainer, SerializeContainer, SavedContainer, MediumHonest, WellFormed;
    ghost var c := repository.container;
    NothingSaved(c);
    saved := [];
    assert calls[..0] == [];
    for i := 0 to |calls|
      invariant repository.volume.Valid() && |saved| == i && repository.path in repository.volume.files
      invariant repository.container.portable.Some?
      invariant forall p :: WithRecord(repository.container, p) == WithRecord(c, p)
      invariant MediumHonest(calls[..i], saved) ==>
                  DeserializeContainer(repository.volume.files[repository.path], sha)
                  == Success(SavedContainer(c, calls[..i], saved))
    {
      ghost var file, temp := repository.volume.files[repository.path], TempName(repository.path, calls[i].suffix);
      ghost var settled := repository.volume.files - {temp};
      assert repository.path in settled && settled[repository.path] == file;
      var r := repository.Save(calls[i].record, calls[i].suffix, calls[i].faults, sha);
      OneMoreSave(c, calls[..i], saved, calls[i], r.Success?);
      assert calls[..i + 1] == calls[..i] + [calls[i]];
      if r.Success? {
        SavedParses(c, calls[i].record, sha);
      } else {
        assert repository.volume.files - {temp} == settled;
        assert repository.path in repository.volume.files - {temp};
      }
      saved := saved + [r.Success?];
    }
    assert calls[..|calls|] == calls;
  }
}
