/** Conservation: after initialize() every sector has exactly one role, and the
    guest's bitmap and free count say the same as the allocator. */
module SdfsRoles {
  import opened ByteBits
  import opened SdfsMap
  import opened SdfsDisk
  import opened SdfsCreate
  import opened SdfsAlloc
  import opened SdfsDirectory
  import opened SdfsInit
  import opened SdfsFormat
  import opened SdfsParse

  /** What each file owns, one file after the other. */
  function FileSectors(files: seq<File>): seq<sector> {
    if files == [] then []
    else FileSectors(files[..|files| - 1]) + (files[|files| - 1].data + files[|files| - 1].maps)
  }

  lemma {:induction false} FilesInARow(files: seq<File>, start: nat, hosts: seq<HostFile>, refs: map<sector, Ref>,
                                       meta: Metadata, n: nat)
    requires n <= |files| == |hosts| && FilesBuilt(files, start, hosts, refs, meta)
    ensures start <= Cursor(start, hosts, n) && (n > 0 ==> Cursor(start, hosts, n) <= 0x1_0000)
    ensures n > 0 || start <= 0x1_0000 ==>
      FileSectors(files[..n]) == Range(start, Cursor(start, hosts, n) - start)
  {
    if n > 0 {
      FilesInARow(files, start, hosts, refs, meta, n - 1);
      assert Built(files, start, hosts, refs, meta, n - 1);
      OneMoreFile(files, start, hosts, refs, meta, n);
    }
  }

  lemma OneMoreFile(files: seq<File>, start: nat, hosts: seq<HostFile>, refs: map<sector, Ref>, meta: Metadata, n: nat)
    requires 0 < n <= |files| == |hosts| && Built(files, start, hosts, refs, meta, n - 1)
    requires start <= Cursor(start, hosts, n - 1) <= 0x1_0000
    requires FileSectors(files[..n - 1]) == Range(start, Cursor(start, hosts, n - 1) - start)
    ensures start <= Cursor(start, hosts, n) <= 0x1_0000
    ensures FileSectors(files[..n]) == Range(start, Cursor(start, hosts, n) - start)
  {
    assert files[..n][..n - 1] == files[..n - 1];
    var c, len := Cursor(start, hosts, n - 1), |hosts[n - 1].content|;
    OneFile(files[n - 1], c, len);
    RangeSplit(start, c - start, FileSize(len));
  }

  lemma OneFile(file: File, c: nat, length: nat)
    requires c + FileSize(length) <= 0x1_0000
    requires file.data == Range(c, Needed(length)) && file.maps == Range(c + Needed(length), MapCount(Needed(length)))
    ensures file.data + file.maps == Range(c, FileSize(length))
  {
    RangeSplit(c, Needed(length), MapCount(Needed(length)));
  }

  /** Boot sectors, bitmap, root data, root maps and each file's data and maps, in
      this order, are the used sectors: none is missing, none comes twice. */
  lemma OneRole(d: Disk, hosts: seq<HostFile>, volume: seq<byte>, rootData: seq<sector>, rootMaps: seq<sector>)
    requires AreHosts(hosts) && |volume| == 8 && IsImage(d, hosts, volume, rootData, rootMaps)
    ensures d.bitmapStart + d.bitmapSectors <= 0x1_0000 && 0 <= d.useCount <= d.sectors
    ensures Range(1, 3) + Range(d.bitmapStart, d.bitmapSectors) + rootData + rootMaps + FileSectors(d.files)
            == Range(1, d.useCount)
  {
    var n, start := DirectorySectors(|hosts|), FilesStart(d.sectors, |hosts|);
    EndOf(d, hosts, volume, rootData, rootMaps);
    FilesRow(d, hosts, volume, rootData, rootMaps);
    RootRow(d, hosts, volume, rootData, rootMaps);
    RolesInARow(d, rootData, rootMaps, n, start);
  }

  lemma FilesRow(d: Disk, hosts: seq<HostFile>, volume: seq<byte>, rootData: seq<sector>, rootMaps: seq<sector>)
    requires AreHosts(hosts) && |volume| == 8 && IsImage(d, hosts, volume, rootData, rootMaps)
    ensures var start := FilesStart(d.sectors, |hosts|);
      start <= d.useCount + 1 <= 0x1_0000 && FileSectors(d.files) == Range(start, d.useCount + 1 - start)
  {
    EndOf(d, hosts, volume, rootData, rootMaps);
    FilesInARow(d.files, FilesStart(d.sectors, |hosts|), hosts, d.refs, d.meta, |hosts|);
    assert d.files[..|hosts|] == d.files;
  }

  lemma RootRow(d: Disk, hosts: seq<HostFile>, volume: seq<byte>, rootData: seq<sector>, rootMaps: seq<sector>)
    requires AreHosts(hosts) && |volume| == 8 && IsImage(d, hosts, volume, rootData, rootMaps)
    ensures var n := DirectorySectors(|hosts|);
      && d.bitmapStart == 4 && FilesStart(d.sectors, |hosts|) == 4 + d.bitmapSectors + n + MapCount(n) <= 0x1_0000
      && rootData == Range(4 + d.bitmapSectors, n) && rootMaps == Range(4 + d.bitmapSectors + n, MapCount(n))
  {
    ImageRoot(d, hosts, volume, rootData, rootMaps);
    RootPlaces(d.sectors, |hosts|, rootData, rootMaps, d.meta);
  }

  lemma ImageRoot(d: Disk, hosts: seq<HostFile>, volume: seq<byte>, rootData: seq<sector>, rootMaps: seq<sector>)
    requires AreHosts(hosts) && |volume| == 8 && IsImage(d, hosts, volume, rootData, rootMaps)
    ensures RootBuilt(d.sectors, |hosts|, rootData, rootMaps, d.meta)
    ensures d.bitmapStart == 4 && d.bitmapSectors == BitmapSectors(d.sectors)
  {
  }

  lemma RootPlaces(sectors: nat, files: nat, rootData: seq<sector>, rootMaps: seq<sector>, meta: Metadata)
    requires RootBuilt(sectors, files, rootData, rootMaps, meta)
    ensures var b, n := BitmapSectors(sectors), DirectorySectors(files);
      && FilesStart(sectors, files) == 4 + b + n + MapCount(n) <= 0x1_0000
      && rootData == Range(4 + b, n) && rootMaps == Range(4 + b + n, MapCount(n))
  {
  }

  lemma RolesInARow(d: Disk, rootData: seq<sector>, rootMaps: seq<sector>, n: nat, start: nat)
    requires d.bitmapStart == 4 && start == 4 + d.bitmapSectors + n + MapCount(n) <= d.useCount + 1 <= 0x1_0000
    requires rootData == Range(4 + d.bitmapSectors, n) && rootMaps == Range(4 + d.bitmapSectors + n, MapCount(n))
    requires FileSectors(d.files) == Range(start, d.useCount + 1 - start)
    ensures Range(1, 3) + Range(d.bitmapStart, d.bitmapSectors) + rootData + rootMaps + FileSectors(d.files)
            == Range(1, d.useCount)
  {
    InARow(d.bitmapSectors, n, MapCount(n), d.useCount + 1);
  }

  lemma UsedSectors(d: Disk, hosts: seq<HostFile>, volume: seq<byte>, rootData: seq<sector>, rootMaps: seq<sector>)
    requires AreHosts(hosts) && |volume| == 8 && IsImage(d, hosts, volume, rootData, rootMaps)
    ensures 0 <= d.useCount <= d.sectors
    ensures forall s: sector | 1 <= s <= d.sectors :: d.inUse[s] <==> s in Range(1, d.useCount)
  {
    EndOf(d, hosts, volume, rootData, rootMaps);
    RangeFacts(1, d.useCount, d.sectors);
  }

  lemma EndOf(d: Disk, hosts: seq<HostFile>, volume: seq<byte>, rootData: seq<sector>, rootMaps: seq<sector>)
    requires AreHosts(hosts) && |volume| == 8 && IsImage(d, hosts, volume, rootData, rootMaps)
    ensures RootData(d.sectors) <= FilesStart(d.sectors, |hosts|) <= d.useCount + 1 <= d.sectors + 1 <= 0x1_0000
    ensures d.useCount + 1 == Cursor(FilesStart(d.sectors, |hosts|), hosts, |hosts|)
  {
    CursorGrows(FilesStart(d.sectors, |hosts|), hosts, 0, |hosts|);
  }

  lemma InARow(b: nat, n: nat, m: nat, end: nat)
    requires 4 + b + n + m <= end <= 0x1_0000
    ensures Range(1, 3) + Range(4, b) + Range(4 + b, n) + Range(4 + b + n, m)
            + Range(4 + b + n + m, end - (4 + b + n + m)) == Range(1, end - 1)
  {
    RangeSplit(1, 3, b);
    RangeSplit(1, 3 + b, n);
    RangeSplit(1, 3 + b + n, m);
    RangeSplit(1, 3 + b + n + m, end - (4 + b + n + m));
  }

  /** The guest reads sector s as free in the bitmap. */
  predicate GuestFree(d: Disk, s: nat)
    requires Shape(d) && 4 <= d.bitmapStart && s < 8 * (SECTOR * d.bitmapSectors)
  {
    Bit(ReadSector(d, d.bitmapStart + s / 8 / SECTOR)[s / 8 % SECTOR], s % 8)
  }

  lemma BitmapByte(d: Disk, k: nat)
    requires Shape(d) && d.pending == map[] && k < SECTOR * d.bitmapSectors
    ensures k / SECTOR < d.bitmapSectors
    ensures ReadSector(d, d.bitmapStart + k / SECTOR)[k % SECTOR] == d.bitmap[k]
  {
    ByteAt(k, d.bitmapSectors);
    assert InBitmap(d, d.bitmapStart + k / SECTOR);
  }

  /** The guest's bitmap says of each sector what the allocator says, and the boot
      sector's free count is the number of free sectors. */
  lemma BooksAgree(d: Disk, hosts: seq<HostFile>, volume: seq<byte>, rootData: seq<sector>, rootMaps: seq<sector>)
    requires AreHosts(hosts) && |volume| == 8 && IsImage(d, hosts, volume, rootData, rootMaps)
    ensures Shape(d) && d.sectors + 1 <= 8 * (SECTOR * d.bitmapSectors)
    ensures forall s: sector | 1 <= s <= d.sectors :: GuestFree(d, s) <==> !d.inUse[s]
    ensures Get16(ReadSector(d, 1), 13) == |set s: nat | 1 <= s <= d.sectors && !d.inUse[s]|
    ensures Get16(ReadSector(d, 1), 11) == d.sectors
  {
    ImageShape(d, hosts, volume, rootData, rootMaps);
    BitmapFits(d.sectors);
    forall s: sector | 1 <= s <= d.sectors ensures GuestFree(d, s) <==> !d.inUse[s] {
      BitmapByte(d, s / 8);
      assert FreeBit(d.bitmap, s) <==> s != 0 && !d.inUse[s];
    }
    assert ReadSector(d, 1) == d.meta[1];
    EndOf(d, hosts, volume, rootData, rootMaps);
    FreeCount(d.inUse, d.useCount + 1, d.sectors);
  }

  lemma FreeCount(inUse: seq<bool>, end: nat, sectors: nat)
    requires |inUse| == sectors + 1 && 1 <= end <= sectors + 1
    requires forall s: nat | s < |inUse| :: inUse[s] <==> 1 <= s < end
    ensures |set s: nat | 1 <= s <= sectors && !inUse[s]| == sectors + 1 - end
  {
    var free := set s: nat | 1 <= s <= sectors && !inUse[s];
    assert free == Numbers(sectors) - Numbers(end - 1);
    assert Numbers(end - 1) <= Numbers(sectors);
  }
}
