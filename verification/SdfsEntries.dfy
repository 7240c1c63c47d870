/** What the guest's root directory says of a pending file: the length of its
    finished entry, if there is one. */
module SdfsEntries {
  import opened ByteBits
  import opened Options
  import opened SdfsMap
  import opened SdfsDisk
  import opened SdfsDirectory
  import opened SdfsNames

  /** The directory's bytes, up to its own length or the end of its sectors. */
  function RootBytes(d: Disk): (b: seq<byte>)
    requires Shape(d)
    ensures |b| == SECTOR * |d.rootData|
  {
    Gathered(ViewOf(d), d.sectors, d.rootData)
  }

  function RootLength(dir: seq<byte>): (n: nat)
    requires |dir| >= SECTOR
    ensures n <= |dir|
  {
    if Get24(dir, 3) < |dir| then Get24(dir, 3) else |dir|
  }

  /** Entry k is finished, and that of this map and name. */
  predicate IsFinished(dir: seq<byte>, k: nat, mapSector: sector, name: seq<byte>)
    requires RECORD * (k + 2) <= |dir|
  {
    var o := RECORD * (k + 1);
    dir[o] == 8 && Get16(dir, o + 1) == mapSector && Visible(dir[o + 6..o + 17]) == name
  }

  /** How many entries there are. */
  function EntryCount(dir: seq<byte>): (n: nat)
    requires |dir| >= SECTOR
    ensures RECORD * (n + 1) <= |dir|
  {
    if RootLength(dir) < RECORD then 0 else (RootLength(dir) - RECORD) / RECORD
  }

  /** The first finished one from entry k on. */
  function FinishedFrom(dir: seq<byte>, k: nat, mapSector: sector, name: seq<byte>): (r: Option<nat>)
    requires |dir| >= SECTOR && k <= EntryCount(dir)
    decreases EntryCount(dir) - k
  {
    if k == EntryCount(dir) then None
    else if IsFinished(dir, k, mapSector, name) then Some(Get24(dir, RECORD * (k + 1) + 3))
    else FinishedFrom(dir, k + 1, mapSector, name)
  }

  function Finished(d: Disk, mapSector: sector, name: seq<byte>): Option<nat>
    requires Shape(d)
  {
    if d.rootData == [] then None else FinishedFrom(RootBytes(d), 0, mapSector, name)
  }

  /** It is the length in the first such entry, or there is none. */
  lemma {:induction false} FinishedMeans(dir: seq<byte>, from: nat, mapSector: sector, name: seq<byte>)
    requires |dir| >= SECTOR && from <= EntryCount(dir)
    ensures match FinishedFrom(dir, from, mapSector, name)
      case None => forall k: nat | from <= k < EntryCount(dir) :: !IsFinished(dir, k, mapSector, name)
      case Some(length) => exists k: nat ::
        && from <= k < EntryCount(dir) && IsFinished(dir, k, mapSector, name)
        && length == Get24(dir, RECORD * (k + 1) + 3)
        && forall j: nat | from <= j < k :: !IsFinished(dir, j, mapSector, name)
    decreases EntryCount(dir) - from
  {
    if from < EntryCount(dir) && !IsFinished(dir, from, mapSector, name) {
      FinishedMeans(dir, from + 1, mapSector, name);
    }
  }

  /** finalizedDirectoryEntry(): the loop over the entries. */
  method FindFinished(dir: seq<byte>, mapSector: sector, name: seq<byte>) returns (r: Option<nat>)
    requires |dir| >= SECTOR
    ensures r == FinishedFrom(dir, 0, mapSector, name)
    ensures r.None? ==> forall k: nat | k < EntryCount(dir) :: !IsFinished(dir, k, mapSector, name)
    ensures r.Some? ==> exists k: nat ::
      && k < EntryCount(dir) && IsFinished(dir, k, mapSector, name) && r.value == Get24(dir, RECORD * (k + 1) + 3)
      && forall j: nat | j < k :: !IsFinished(dir, j, mapSector, name)
  {
    FinishedMeans(dir, 0, mapSector, name);
    var length := RootLength(dir);
    var offset, k := RECORD, 0;
    while offset + RECORD <= length
      invariant offset == RECORD * (k + 1) && k <= EntryCount(dir)
      invariant FinishedFrom(dir, k, mapSector, name) == FinishedFrom(dir, 0, mapSector, name)
    {
      if dir[offset] == 8 && Get16(dir, offset + 1) == mapSector && Visible(dir[offset + 6..offset + 17]) == name {
        return Some(Get24(dir, offset + 3));
      }
      offset := offset + RECORD;
      k := k + 1;
    }
    r := None;
  }
}
