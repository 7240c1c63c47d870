/** The synthesized SDFS disk: host files behind data sectors, generated
    metadata, and the overlay of sectors that the guest has written. */
module SdfsDisk {
  import opened ByteBits
  import opened SdfsMap

  /** A host file, and its name in the guest's directory. */
  datatype File = File(name: string, atari: seq<byte>, length: nat, data: seq<sector>, maps: seq<sector>)

  /** Which file, and which of its sectors. */
  datatype Ref = Ref(file: nat, index: nat)

  /** rootData and rootMaps: the root directory's data and map sectors. */
  datatype Disk = Disk(sectors: nat, bitmapStart: nat, bitmapSectors: nat, rootData: seq<sector>,
                       rootMaps: seq<sector>, inUse: seq<bool>, useCount: int, refs: map<sector, Ref>,
                       bitmap: seq<byte>, meta: Metadata, pending: Metadata, files: seq<File>,
                       host: map<string, seq<byte>>)

  /** The first three sectors are short. */
  function Size(s: sector): nat {
    if s <= 3 then 128 else SECTOR
  }

  /** As many bytes as asked for, with zeros for what is missing. */
  function Fit(b: seq<byte>, n: nat): (r: seq<byte>)
    ensures |r| == n && (|b| == n ==> r == b)
    ensures forall k | 0 <= k < n :: r[k] == if k < |b| then b[k] else 0
  {
    if |b| >= n then b[..n] else b + seq(n - |b|, _ => 0)
  }

  /** Sector index of a content, cut off at its end. */
  function Part(content: seq<byte>, index: nat): (r: seq<byte>)
    ensures |r| == SECTOR
    ensures forall k | 0 <= k < SECTOR ::
      r[k] == if SECTOR * index + k < |content| then content[SECTOR * index + k] else 0
  {
    Fit(if SECTOR * index <= |content| then content[SECTOR * index..] else [], SECTOR)
  }

  predicate InRoot(d: Disk, s: sector) {
    s in d.rootData || s in d.rootMaps
  }

  predicate InBitmap(d: Disk, s: sector) {
    d.bitmapStart <= s < d.bitmapStart + d.bitmapSectors
  }

  function BitmapSector(d: Disk, s: sector): (r: seq<byte>)
    requires InBitmap(d, s) && |d.bitmap| == SECTOR * d.bitmapSectors
    ensures |r| == SECTOR
  {
    d.bitmap[SECTOR * (s - d.bitmapStart)..SECTOR * (s - d.bitmapStart) + SECTOR]
  }

  /** Not deleted: a deleted file has neither data nor maps. */
  predicate Live(f: File) {
    f.length > 0 || f.maps != []
  }

  predicate FileOk(d: Disk, f: File) {
    Live(f) ==> f.name in d.host && |d.host[f.name]| == f.length
  }

  predicate Shape(d: Disk) {
    && d.sectors < 0x1_0000 && 4 <= d.bitmapStart && d.bitmapStart + d.bitmapSectors <= d.sectors
    && |d.inUse| == d.sectors + 1 && |d.bitmap| == SECTOR * d.bitmapSectors
    && (forall s | s in d.pending :: 1 <= s <= d.sectors && |d.pending[s]| == Size(s))
    && (forall s | s in d.meta :: 1 <= s <= d.sectors)
    && (forall s | s in d.refs :: d.refs[s].file < |d.files|)
    && OnDisk(d.rootData, d.sectors) && (forall i | 0 <= i < |d.files| :: |d.files[i].atari| == 11)
    && (forall i | 0 <= i < |d.files| :: FileOk(d, d.files[i]))
  }

  /** What of its host file a data sector shows. */
  function HostSector(d: Disk, ref: Ref): (r: seq<byte>)
    requires Shape(d) && ref.file < |d.files|
    ensures |r| == SECTOR
  {
    var f := d.files[ref.file];
    if SECTOR * ref.index < f.length then Part(d.host[f.name], ref.index) else Fit([], SECTOR)
  }

  /** read(): the overlay first, then bitmap, metadata and host files. */
  function ReadSector(d: Disk, s: sector): (r: seq<byte>)
    requires Shape(d) && 1 <= s <= d.sectors
    ensures |r| == Size(s)
  {
    if s in d.pending then Fit(d.pending[s], Size(s))
    else if InBitmap(d, s) then Fit(BitmapSector(d, s), Size(s))
    else if s in d.meta then Fit(d.meta[s], Size(s))
    else if s in d.refs then Fit(HostSector(d, d.refs[s]), Size(s))
    else Fit([], Size(s))
  }

  /** The guest's view, in whole sectors. */
  function Whole(d: Disk, s: sector): (r: seq<byte>)
    requires Shape(d) && 1 <= s <= d.sectors
    ensures |r| == SECTOR
  {
    Fit(ReadSector(d, s), SECTOR)
  }

  function ViewOf(d: Disk): (v: View)
    requires Shape(d)
    ensures IsView(v, d.sectors)
    ensures forall s: sector | 1 <= s <= d.sectors :: v(s) == Whole(d, s)
  {
    (s: sector) => if 1 <= s <= d.sectors && Shape(d) then Whole(d, s) else []
  }

  // ---- A file as the guest sees it ----

  /** The data sectors one after the other. */
  function Gathered(view: View, sectors: nat, data: seq<sector>): (c: seq<byte>)
    requires IsView(view, sectors) && OnDisk(data, sectors)
    ensures |c| == SECTOR * |data|
  {
    if data == [] then []
    else Gathered(view, sectors, data[..|data| - 1]) + view(data[|data| - 1])
  }

  /** The guest follows the chain from the file's first map, and takes length
      bytes of the data sectors listed there. */
  ghost predicate GuestFile(view: View, sectors: nat, first: sector, length: nat, content: seq<byte>)
    requires IsView(view, sectors)
  {
    exists maps: seq<sector>, data: seq<sector> :: IsGuestFile(view, sectors, first, maps, data, length, content)
  }

  ghost predicate IsGuestFile(view: View, sectors: nat, first: sector, maps: seq<sector>, data: seq<sector>,
                              length: nat, content: seq<byte>)
    requires IsView(view, sectors)
  {
    && IsChain(view, sectors, first, maps, data) && OnDisk(data, sectors)
    && length <= SECTOR * |data| && content == Gathered(view, sectors, data)[..length]
  }

  /** Two views with the same maps and data sectors show the same file. */
  lemma SameFile(v: View, w: View, sectors: nat, first: sector, maps: seq<sector>, data: seq<sector>,
                 length: nat, content: seq<byte>)
    requires IsView(v, sectors) && IsView(w, sectors)
    requires IsGuestFile(v, sectors, first, maps, data, length, content)
    requires forall s | s in maps || s in data :: v(s) == w(s)
    ensures IsGuestFile(w, sectors, first, maps, data, length, content)
  {
    SameEntries(v, w, sectors, maps);
    SameGathered(v, w, sectors, data);
    forall i: nat | i < |maps| ensures v(maps[i]) == w(maps[i]) {
      assert maps[i] in maps;
    }
  }

  lemma {:induction false} SameEntries(v: View, w: View, sectors: nat, maps: seq<sector>)
    requires IsView(v, sectors) && IsView(w, sectors) && OnDisk(maps, sectors)
    requires forall s | s in maps :: v(s) == w(s)
    ensures AllEntries(v, sectors, maps) == AllEntries(w, sectors, maps)
  {
    if maps != [] {
      SameEntries(v, w, sectors, maps[..|maps| - 1]);
    }
  }

  lemma {:induction false} SameGathered(v: View, w: View, sectors: nat, data: seq<sector>)
    requires IsView(v, sectors) && IsView(w, sectors) && OnDisk(data, sectors)
    requires forall s | s in data :: v(s) == w(s)
    ensures Gathered(v, sectors, data) == Gathered(w, sectors, data)
  {
    if data != [] {
      SameGathered(v, w, sectors, data[..|data| - 1]);
    }
  }

  // ---- What a commit may change ----

  /** Every sector reads as before, but for those in gone. */
  ghost predicate SameReads(d: Disk, d': Disk, gone: set<sector>)
    requires Shape(d) && Shape(d') && d'.sectors == d.sectors
  {
    forall s: sector | 1 <= s <= d.sectors && s !in gone :: ReadSector(d', s) == ReadSector(d, s)
  }

  /** So every file that uses none of those sectors reads as before. */
  lemma OthersUnchanged(d: Disk, d': Disk, gone: set<sector>, first: sector, maps: seq<sector>, data: seq<sector>,
                        length: nat, content: seq<byte>)
    requires Shape(d) && Shape(d') && d'.sectors == d.sectors && SameReads(d, d', gone)
    requires IsGuestFile(ViewOf(d), d.sectors, first, maps, data, length, content)
    requires forall s | s in gone :: s !in maps && s !in data
    ensures IsGuestFile(ViewOf(d'), d.sectors, first, maps, data, length, content)
  {
    forall s | s in maps || s in data ensures ViewOf(d)(s) == ViewOf(d')(s) {
      assert 1 <= s <= d.sectors;
      assert ReadSector(d', s) == ReadSector(d, s);
    }
    SameFile(ViewOf(d), ViewOf(d'), d.sectors, first, maps, data, length, content);
  }
}
