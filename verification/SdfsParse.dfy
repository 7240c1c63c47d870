/** Parsing the synthesized image from the boot sector down yields the host files;
    and every sector has exactly one use. */
module SdfsParse {
  import opened ByteBits
  import opened SdfsMap
  import opened SdfsDisk
  import opened SdfsCreate
  import opened SdfsAlloc
  import opened SdfsDirectory
  import opened SdfsInit
  import opened SdfsFormat
  import opened SdfsAppend
  import opened SdfsApart

  // ---- The image is a disk whose files own their sectors ----

  lemma FileAt(d: Disk, hosts: seq<HostFile>, volume: seq<byte>, rootData: seq<sector>, rootMaps: seq<sector>, i: nat)
    requires AreHosts(hosts) && |volume| == 8 && IsImage(d, hosts, volume, rootData, rootMaps) && i < |hosts|
    ensures var c := Cursor(FilesStart(d.sectors, |hosts|), hosts, i);
      RootData(d.sectors) <= c && c + FileSize(|hosts[i].content|) <= d.sectors + 1
      && BuiltFile(d.files[i], hosts[i], c, i, d.refs, d.meta)
  {
    var start := FilesStart(d.sectors, |hosts|);
    assert Built(d.files, start, hosts, d.refs, d.meta, i);
    CursorGrows(start, hosts, 0, i);
    CursorGrows(start, hosts, i + 1, |hosts|);
  }

  lemma ImageShape(d: Disk, hosts: seq<HostFile>, volume: seq<byte>, rootData: seq<sector>, rootMaps: seq<sector>)
    requires AreHosts(hosts) && |volume| == 8 && IsImage(d, hosts, volume, rootData, rootMaps)
    ensures Shape(d)
  {
    BitmapFits(d.sectors);
    forall i: nat | i < |d.files| ensures FileOk(d, d.files[i]) && |d.files[i].atari| == 11 {
      FileAt(d, hosts, volume, rootData, rootMaps, i);
      HostMapAt(hosts, i);
      assert IsHost(hosts[i]);
    }
    CursorGrows(FilesStart(d.sectors, |hosts|), hosts, 0, |hosts|);
    RangeFacts(RootData(d.sectors), DirectorySectors(|hosts|), d.sectors);
  }

  lemma ImageOwned(d: Disk, hosts: seq<HostFile>, volume: seq<byte>, rootData: seq<sector>, rootMaps: seq<sector>)
    requires AreHosts(hosts) && |volume| == 8 && IsImage(d, hosts, volume, rootData, rootMaps)
    ensures Owned(d)
  {
    BitmapFits(d.sectors);
    forall i: nat | i < |d.files| ensures FileOwns(d, i) && d.files[i].name == hosts[i].hostName {
      FileOwnsAt(d, hosts, volume, rootData, rootMaps, i);
    }
    forall s | s in d.refs ensures RefOwned(d, s) {
      assert RefBack(d.refs[s], s, d.files);
    }
  }

  lemma FileOwnsAt(d: Disk, hosts: seq<HostFile>, volume: seq<byte>, rootData: seq<sector>, rootMaps: seq<sector>,
                   i: nat)
    requires AreHosts(hosts) && |volume| == 8 && IsImage(d, hosts, volume, rootData, rootMaps) && i < |hosts|
    ensures FileOwns(d, i) && d.files[i].name == hosts[i].hostName
  {
    FileAt(d, hosts, volume, rootData, rootMaps, i);
    var c, n := Cursor(FilesStart(d.sectors, |hosts|), hosts, i), Needed(|hosts[i].content|);
    RangeFacts(c, n, d.sectors);
    forall s | s in d.files[i].maps ensures s !in d.refs {
      var k: nat :| k < |d.files[i].maps| && d.files[i].maps[k] == s;
      assert HoldsMap(d.meta, d.files[i].maps, d.files[i].data, k);
    }
  }

  /** And no sector of the image has two uses: the commits start from a sound disk. */
  lemma ImageSound(d: Disk, hosts: seq<HostFile>, volume: seq<byte>, rootData: seq<sector>, rootMaps: seq<sector>)
    requires AreHosts(hosts) && |volume| == 8 && IsImage(d, hosts, volume, rootData, rootMaps)
    ensures Sound(d)
  {
    ImageShape(d, hosts, volume, rootData, rootMaps);
    ImageOwned(d, hosts, volume, rootData, rootMaps);
    BitmapFits(d.sectors);
    CursorGrows(FilesStart(d.sectors, |hosts|), hosts, 0, |hosts|);
    assert Reserved(d);
    forall f: nat | f < |d.files| ensures MapsKept(d, f) {
      forall s | s in d.files[f].maps ensures OwnMap(d, s) {
        MapPlace(d, hosts, volume, rootData, rootMaps, f, s);
      }
    }
    forall f: nat, g: nat | f < |d.files| && g < |d.files| && f != g ensures MapsApart(d, f, g) {
      forall s | s in d.files[f].maps ensures s !in d.files[g].maps {
        if s in d.files[g].maps {
          MapPlace(d, hosts, volume, rootData, rootMaps, f, s);
          MapPlace(d, hosts, volume, rootData, rootMaps, g, s);
          var start := FilesStart(d.sectors, |hosts|);
          if f < g {
            CursorGrows(start, hosts, f + 1, g);
          } else {
            CursorGrows(start, hosts, g + 1, f);
          }
          assert false;
        }
      }
    }
    RootPlace(d, hosts, volume, rootData, rootMaps);
  }

  lemma RootPlace(d: Disk, hosts: seq<HostFile>, volume: seq<byte>, rootData: seq<sector>, rootMaps: seq<sector>)
    requires AreHosts(hosts) && |volume| == 8 && IsImage(d, hosts, volume, rootData, rootMaps)
    ensures RootApart(d)
  {
    forall s | s in rootMaps ensures s in d.meta {
      var i: nat :| i < |rootMaps| && rootMaps[i] == s;
      assert HoldsMap(d.meta, rootMaps, rootData, i);
    }
    forall s | s in rootData ensures s in d.meta {
      var i: nat :| i < |rootData| && rootData[i] == s;
    }
  }

  lemma MapPlace(d: Disk, hosts: seq<HostFile>, volume: seq<byte>, rootData: seq<sector>, rootMaps: seq<sector>,
                 f: nat, s: sector)
    requires AreHosts(hosts) && |volume| == 8 && IsImage(d, hosts, volume, rootData, rootMaps) && f < |hosts|
    requires s in d.files[f].maps
    ensures OwnMap(d, s)
    ensures var start := FilesStart(d.sectors, |hosts|); Cursor(start, hosts, f) <= s < Cursor(start, hosts, f + 1)
  {
    FileAt(d, hosts, volume, rootData, rootMaps, f);
    var start := FilesStart(d.sectors, |hosts|);
    var c, n := Cursor(start, hosts, f), Needed(|hosts[f].content|);
    BitmapFits(d.sectors);
    CursorGrows(start, hosts, 0, f);
    RangeFacts(c + n, MapCount(n), d.sectors);
    RangeFacts(RootData(d.sectors), DirectorySectors(|hosts|), d.sectors);
    var k: nat :| k < |d.files[f].maps| && d.files[f].maps[k] == s;
    assert HoldsMap(d.meta, d.files[f].maps, d.files[f].data, k);
  }

  // ---- Each chain reads back ----

  /** Chains in the metadata, above the bitmap, are what the guest reads. */
  lemma ChainReads(d: Disk, first: nat, mid: nat, n: nat)
    requires Shape(d) && d.pending == map[] && d.bitmapStart + d.bitmapSectors <= first && first + n <= d.sectors + 1
    requires d.bitmapStart + d.bitmapSectors <= mid && mid + MapCount(n) <= d.sectors + 1
    requires var data, maps := Range(first, n), Range(mid, MapCount(n));
      forall k: nat | k < |maps| :: HoldsMap(d.meta, maps, data, k)
    ensures IsChain(ViewOf(d), d.sectors, FirstOf(Range(mid, MapCount(n))), Range(mid, MapCount(n)), Range(first, n))
  {
    var data, maps := Range(first, n), Range(mid, MapCount(n));
    RangeFacts(first, n, d.sectors);
    RangeFacts(mid, MapCount(n), d.sectors);
    forall k: nat | k < |maps| ensures ShowsMap(ViewOf(d), maps, data, k) {
      assert HoldsMap(d.meta, maps, data, k);
      MetaReads(d, maps[k]);
    }
    BuiltIsChain(ViewOf(d), d.sectors, maps, data);
  }

  lemma MetaReads(d: Disk, s: sector)
    requires Shape(d) && d.pending == map[] && d.bitmapStart + d.bitmapSectors <= s <= d.sectors
    requires s in d.meta && |d.meta[s]| == SECTOR
    ensures ViewOf(d)(s) == d.meta[s]
  {
  }

  /** Data sectors that show a content's parts make it up. */
  lemma PartsMakeUp(view: View, sectors: nat, data: seq<sector>, content: seq<byte>)
    requires IsView(view, sectors) && OnDisk(data, sectors) && |data| == Needed(|content|)
    requires forall k: nat | k < |data| :: view(data[k]) == Part(content, k)
    ensures |content| <= SECTOR * |data| && Gathered(view, sectors, data)[..|content|] == content
  {
    NeededFits(|content|, |data|);
    forall x: nat | x < |content| ensures Gathered(view, sectors, data)[x] == content[x] {
      ByteAt(x, |data|);
      GatheredByte(view, sectors, data, x / SECTOR, x % SECTOR);
    }
  }

  lemma FileReads(d: Disk, hosts: seq<HostFile>, volume: seq<byte>, rootData: seq<sector>, rootMaps: seq<sector>,
                  i: nat)
    requires AreHosts(hosts) && |volume| == 8 && IsImage(d, hosts, volume, rootData, rootMaps) && i < |hosts|
    ensures Shape(d)
    ensures IsGuestFile(ViewOf(d), d.sectors, FirstOf(d.files[i].maps), d.files[i].maps, d.files[i].data,
                        |hosts[i].content|, hosts[i].content)
  {
    ImageShape(d, hosts, volume, rootData, rootMaps);
    FileAt(d, hosts, volume, rootData, rootMaps, i);
    HostMapAt(hosts, i);
    BuiltReads(d, hosts[i], i, Cursor(FilesStart(d.sectors, |hosts|), hosts, i));
  }

  lemma BuiltReads(d: Disk, h: HostFile, i: nat, c: nat)
    requires Shape(d) && d.pending == map[] && i < |d.files| && (forall s | s in d.refs :: s !in d.meta)
    requires d.bitmapStart + d.bitmapSectors <= c && c + FileSize(|h.content|) <= d.sectors + 1
    requires BuiltFile(d.files[i], h, c, i, d.refs, d.meta) && h.hostName in d.host && d.host[h.hostName] == h.content
    ensures IsGuestFile(ViewOf(d), d.sectors, FirstOf(d.files[i].maps), d.files[i].maps, d.files[i].data,
                        |h.content|, h.content)
  {
    var n := Needed(|h.content|);
    ChainReads(d, c, c + n, n);
    DataReads(d, i, h.content, c);
    PartsMakeUp(ViewOf(d), d.sectors, d.files[i].data, h.content);
  }

  lemma DataReads(d: Disk, i: nat, content: seq<byte>, c: nat)
    requires Shape(d) && d.pending == map[] && i < |d.files| && (forall s | s in d.refs :: s !in d.meta)
    requires d.bitmapStart + d.bitmapSectors <= c && c + Needed(|content|) <= d.sectors + 1
    requires d.files[i].data == Range(c, Needed(|content|)) && d.files[i].length == |content|
    requires d.files[i].name in d.host && d.host[d.files[i].name] == content
    requires forall k: nat | k < |d.files[i].data| ::
      d.files[i].data[k] in d.refs && d.refs[d.files[i].data[k]] == Ref(i, k)
    ensures OnDisk(d.files[i].data, d.sectors)
    ensures forall k: nat | k < |d.files[i].data| :: ViewOf(d)(d.files[i].data[k]) == Part(content, k)
  {
    var data := d.files[i].data;
    RangeFacts(c, Needed(|content|), d.sectors);
    NeededFits(|content|, |data|);
    forall k: nat | k < |data| ensures ViewOf(d)(data[k]) == Part(content, k) {
      assert data[k] in d.refs;
    }
  }

  // ---- The root directory ----

  lemma RootReads(d: Disk, hosts: seq<HostFile>, volume: seq<byte>, rootData: seq<sector>, rootMaps: seq<sector>)
    requires AreHosts(hosts) && |volume| == 8 && IsImage(d, hosts, volume, rootData, rootMaps)
    ensures Shape(d)
    ensures var dir := Directory(hosts, Firsts(d.files), |hosts|);
      IsGuestFile(ViewOf(d), d.sectors, Get16(ReadSector(d, 1), 9), rootMaps, rootData, |dir|, dir)
  {
    ImageShape(d, hosts, volume, rootData, rootMaps);
    var n, dir := DirectorySectors(|hosts|), Directory(hosts, Firsts(d.files), |hosts|);
    CursorGrows(FilesStart(d.sectors, |hosts|), hosts, 0, |hosts|);
    ChainReads(d, RootData(d.sectors), RootMaps(d.sectors, |hosts|), n);
    RangeFacts(RootData(d.sectors), n, d.sectors);
    forall k: nat | k < |rootData| ensures ViewOf(d)(rootData[k]) == Part(dir, k) {
      MetaReads(d, rootData[k]);
    }
    PartsMakeUp(ViewOf(d), d.sectors, rootData, dir);
    assert ReadSector(d, 1) == d.meta[1];
  }

  /** The entry e is this host file's, and leads to its contents. */
  ghost predicate EntryReads(d: Disk, h: HostFile, e: seq<byte>)
    requires Shape(d) && |e| == RECORD
  {
    && e[0] == 8 && e[6..14] == h.name && e[14..17] == h.extension && Get24(e, 3) == |h.content|
    && GuestFile(ViewOf(d), d.sectors, Get16(e, 1), Get24(e, 3), h.content)
  }

  lemma EntryRoundTrip(d: Disk, hosts: seq<HostFile>, volume: seq<byte>, rootData: seq<sector>,
                       rootMaps: seq<sector>, i: nat)
    requires AreHosts(hosts) && |volume| == 8 && IsImage(d, hosts, volume, rootData, rootMaps) && i < |hosts|
    ensures Shape(d)
    ensures var dir := Directory(hosts, Firsts(d.files), |hosts|);
      EntryReads(d, hosts[i], dir[RECORD * (i + 1)..RECORD * (i + 2)])
  {
    var firsts, h := Firsts(d.files), hosts[i];
    var e := Directory(hosts, firsts, |hosts|)[RECORD * (i + 1)..RECORD * (i + 2)];
    DirectoryRecord(hosts, firsts, |hosts|, i);
    RecordFields(e, 8, firsts[i], |h.content|, h.name, h.extension);
    FileReads(d, hosts, volume, rootData, rootMaps, i);
  }

  ghost predicate EntryAt(d: Disk, hosts: seq<HostFile>, dir: seq<byte>, i: nat)
    requires Shape(d) && i < |hosts| && |dir| == RECORD * (|hosts| + 1)
  {
    EntryReads(d, hosts[i], dir[RECORD * (i + 1)..RECORD * (i + 2)])
  }

  lemma EntriesRead(d: Disk, hosts: seq<HostFile>, volume: seq<byte>, rootData: seq<sector>, rootMaps: seq<sector>,
                    dir: seq<byte>)
    requires AreHosts(hosts) && |volume| == 8 && IsImage(d, hosts, volume, rootData, rootMaps) && Shape(d)
    requires dir == Directory(hosts, Firsts(d.files), |hosts|) && |dir| == RECORD * (|hosts| + 1)
    ensures forall i: nat | i < |hosts| :: EntryAt(d, hosts, dir, i)
  {
    forall i: nat | i < |hosts| ensures EntryAt(d, hosts, dir, i) {
      EntryRoundTrip(d, hosts, volume, rootData, rootMaps, i);
    }
  }

  /** Parsing the image gives back the host files: from the boot sector to the root
      directory, from each entry by its chain to the contents. */
  lemma ImageRoundTrip(d: Disk, hosts: seq<HostFile>, volume: seq<byte>, rootData: seq<sector>, rootMaps: seq<sector>)
    returns (dir: seq<byte>)
    requires AreHosts(hosts) && |volume| == 8 && IsImage(d, hosts, volume, rootData, rootMaps)
    ensures Shape(d) && |dir| == RECORD * (|hosts| + 1) == Get24(dir, 3)
    ensures GuestFile(ViewOf(d), d.sectors, Get16(ReadSector(d, 1), 9), |dir|, dir)
    ensures forall i: nat | i < |hosts| :: EntryAt(d, hosts, dir, i)
  {
    dir := Directory(hosts, Firsts(d.files), |hosts|);
    RootReads(d, hosts, volume, rootData, rootMaps);
    DirectoryLength(hosts, Firsts(d.files), RECORD * (|hosts| + 1), |hosts|);
    EntriesRead(d, hosts, volume, rootData, rootMaps, dir);
  }
}
