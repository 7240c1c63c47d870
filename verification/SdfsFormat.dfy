/** The whole image, and what a guest that parses it finds: the host files. */
module SdfsFormat {
  import opened ByteBits
  import opened SdfsMap
  import opened SdfsDisk
  import opened SdfsAlloc
  import opened SdfsDirectory
  import opened SdfsInit

  function HostMap(hosts: seq<HostFile>): (m: map<string, seq<byte>>) {
    if hosts == [] then map[]
    else HostMap(hosts[..|hosts| - 1])[hosts[|hosts| - 1].hostName := hosts[|hosts| - 1].content]
  }

  lemma {:induction false} HostMapAt(hosts: seq<HostFile>, i: nat)
    requires i < |hosts| && forall j, k | 0 <= j < k < |hosts| :: hosts[j].hostName != hosts[k].hostName
    ensures hosts[i].hostName in HostMap(hosts) && HostMap(hosts)[hosts[i].hostName] == hosts[i].content
  {
    if i < |hosts| - 1 {
      HostMapAt(hosts[..|hosts| - 1], i);
    }
  }

  function Firsts(files: seq<File>): (fs: seq<sector>)
    ensures |fs| == |files|
  {
    seq(|files|, i requires 0 <= i < |files| => FirstOf(files[i].maps))
  }

  /** Which sectors are used, in the allocation's and the guest's books. */
  ghost predicate UseOk(d: Disk, end: nat) {
    && |d.inUse| == d.sectors + 1 && end <= d.sectors + 1
    && (forall s: nat | s < |d.inUse| :: d.inUse[s] <==> 1 <= s < end) && d.useCount == end - 1
    && |d.bitmap| == SECTOR * d.bitmapSectors && |d.inUse| <= 8 * |d.bitmap| && IsBitmap(d.bitmap, d.inUse)
  }

  ghost predicate DirectoryOk(d: Disk, hosts: seq<HostFile>, rootData: seq<sector>)
    requires AreHosts(hosts) && |d.files| == |hosts|
  {
    forall i: nat | i < |rootData| ::
      rootData[i] in d.meta && d.meta[rootData[i]] == Part(Directory(hosts, Firsts(d.files), |hosts|), i)
  }

  ghost predicate KeysApart(d: Disk, end: nat) {
    && (forall s | s in d.refs :: RootData(d.sectors) <= s < end && s !in d.meta && d.refs[s].file < |d.files|)
    && (forall s | s in d.meta :: s == 1 || RootData(d.sectors) <= s < end)
  }

  ghost predicate IsImage(d: Disk, hosts: seq<HostFile>, volume: seq<byte>, rootData: seq<sector>,
                          rootMaps: seq<sector>)
    requires AreHosts(hosts) && |volume| == 8
  {
    var n, end := |hosts|, Cursor(FilesStart(d.sectors, |hosts|), hosts, |hosts|);
    && 64 <= d.sectors <= 65535 && d.bitmapStart == BITMAP_START && d.bitmapSectors == BitmapSectors(d.sectors)
    && d.rootData == rootData && d.rootMaps == rootMaps
    && d.pending == map[] && d.host == HostMap(hosts) && |d.files| == n
    && UseOk(d, end) && KeysApart(d, end)
    && RootBuilt(d.sectors, n, rootData, rootMaps, d.meta) && DirectoryOk(d, hosts, rootData)
    && FilesBuilt(d.files, FilesStart(d.sectors, n), hosts, d.refs, d.meta) && RefsBack(d.refs, d.files)
    && 1 in d.meta
    && IsBoot(d.meta[1], FirstOf(rootMaps), d.sectors, d.sectors - (end - 1), d.bitmapSectors, BITMAP_START,
              if end <= d.sectors then end else 1, volume)
  }

  lemma BitmapFits(sectors: nat)
    requires 64 <= sectors <= 65535
    ensures 0 < BitmapSectors(sectors) < 256 && RootData(sectors) <= sectors
    ensures sectors + 1 <= 8 * (SECTOR * BitmapSectors(sectors))
  {
  }

  method Initialize(sectors: nat, hosts: seq<HostFile>, volume: seq<byte>)
    returns (ok: bool, d: Disk, rootData: seq<sector>, rootMaps: seq<sector>)
    requires AreHosts(hosts) && |volume| == 8
    ensures ok <==> 64 <= sectors <= 65535 && Cursor(FilesStart(sectors, |hosts|), hosts, |hosts|) <= sectors + 1
    ensures ok ==> d.sectors == sectors && IsImage(d, hosts, volume, rootData, rootMaps)
  {
    rootData, rootMaps := [], [];
    d := Disk(sectors, 0, 0, [], [], [], 0, map[], [], map[], map[], [], map[]);
    if sectors < 64 || sectors > 65535 {
      return false, d, rootData, rootMaps;
    }
    BitmapFits(sectors);
    CursorGrows(FilesStart(sectors, |hosts|), hosts, 0, |hosts|);
    var a := new Allocator(sectors, RootData(sectors));
    ok, rootData := a.AllocateSectors(DirectorySectors(|hosts|));
    if !ok {
      return;
    }
    ok, rootMaps := a.AllocateMap(rootData);
    if !ok {
      return;
    }
    var files;
    ok, files := Files(a, hosts, rootData, rootMaps);
    if ok {
      d := Assemble(a, hosts, volume, rootData, rootMaps, files);
    }
  }

  method Files(a: Allocator, hosts: seq<HostFile>, ghost rootData: seq<sector>, ghost rootMaps: seq<sector>)
    returns (ok: bool, files: seq<File>)
    requires a.Filled() && a.searchStart == FilesStart(a.sectors, |hosts|) && a.refs == map[]
    requires RootBuilt(a.sectors, |hosts|, rootData, rootMaps, a.meta) && forall s | s in a.meta :: s in rootMaps
    modifies a
    ensures a.Filled() && (ok <==> Cursor(FilesStart(a.sectors, |hosts|), hosts, |hosts|) <= a.sectors + 1)
    ensures ok ==>
      && |files| == |hosts| && a.searchStart == Cursor(FilesStart(a.sectors, |hosts|), hosts, |hosts|)
      && FilesBuilt(files, FilesStart(a.sectors, |hosts|), hosts, a.refs, a.meta) && RefsBack(a.refs, files)
      && KeysOk(a.refs, a.meta, RootMaps(a.sectors, |hosts|), FilesStart(a.sectors, |hosts|), a.searchStart, |hosts|)
      && RootBuilt(a.sectors, |hosts|, rootData, rootMaps, a.meta)
  {
    RootKeys(a.sectors, |hosts|, rootData, rootMaps, a.meta);
    ghost var meta := a.meta;
    ok, files := AllocateFiles(a, hosts, RootMaps(a.sectors, |hosts|));
    if ok {
      RootKept(a.sectors, |hosts|, rootData, rootMaps, meta, a.meta);
    }
  }

  lemma RootKeys(sectors: nat, files: nat, rootData: seq<sector>, rootMaps: seq<sector>, meta: Metadata)
    requires RootBuilt(sectors, files, rootData, rootMaps, meta) && forall s | s in meta :: s in rootMaps
    ensures forall s | s in meta :: RootMaps(sectors, files) <= s < FilesStart(sectors, files)
  {
    forall s | s in meta ensures RootMaps(sectors, files) <= s < FilesStart(sectors, files) {
      var i: nat :| i < |rootMaps| && rootMaps[i] == s;
    }
  }

  lemma FilesKept(files: seq<File>, start: nat, hosts: seq<HostFile>, refs: map<sector, Ref>, meta: Metadata,
                  meta': Metadata)
    requires |files| == |hosts| && FilesBuilt(files, start, hosts, refs, meta) && Extends(meta, meta')
    ensures FilesBuilt(files, start, hosts, refs, meta')
  {
    forall i: nat | i < |files| ensures Built(files, start, hosts, refs, meta', i) {
      assert Built(files, start, hosts, refs, meta, i);
      BuiltKept(files[i], hosts[i], Cursor(start, hosts, i), i, refs, meta, refs, meta');
    }
  }

  /** The directory's sectors lie before all that is in the metadata so far. */
  lemma DirectoryApart(sectors: nat, files: nat, rootData: seq<sector>, rootMaps: seq<sector>, meta: Metadata,
                       refs: map<sector, Ref>, end: nat)
    requires 64 <= sectors <= 65535 && RootBuilt(sectors, files, rootData, rootMaps, meta)
    requires KeysOk(refs, meta, RootMaps(sectors, files), FilesStart(sectors, files), end, files)
    requires FilesStart(sectors, files) <= end <= sectors + 1
    ensures NoDup(rootData) && forall s | s in rootData :: RootData(sectors) <= s < end && s !in meta && s !in refs
  {
    BitmapFits(sectors);
    RangeFacts(RootData(sectors), DirectorySectors(files), sectors);
  }

  /** Directory, bitmap and boot sector. */
  method Assemble(a: Allocator, hosts: seq<HostFile>, volume: seq<byte>, rootData: seq<sector>, rootMaps: seq<sector>,
                  files: seq<File>) returns (d: Disk)
    requires a.Filled() && AreHosts(hosts) && |volume| == 8 && 64 <= a.sectors <= 65535
    requires |files| == |hosts| && a.searchStart == Cursor(FilesStart(a.sectors, |hosts|), hosts, |hosts|)
    requires FilesBuilt(files, FilesStart(a.sectors, |hosts|), hosts, a.refs, a.meta) && RefsBack(a.refs, files)
    requires KeysOk(a.refs, a.meta, RootMaps(a.sectors, |hosts|), FilesStart(a.sectors, |hosts|), a.searchStart,
                    |hosts|)
    requires RootBuilt(a.sectors, |hosts|, rootData, rootMaps, a.meta)
    ensures d.sectors == a.sectors && IsImage(d, hosts, volume, rootData, rootMaps)
  {
    BitmapFits(a.sectors);
    CursorGrows(FilesStart(a.sectors, |hosts|), hosts, 0, |hosts|);
    DirectoryApart(a.sectors, |hosts|, rootData, rootMaps, a.meta, a.refs, a.searchStart);
    var bitmap := BuildBitmap(BitmapSectors(a.sectors), a.inUse);
    var search := if a.searchStart <= a.sectors then a.searchStart else 1;
    var boot := Boot(FirstOf(rootMaps), a.sectors, a.sectors - a.useCount, BitmapSectors(a.sectors), BITMAP_START,
                     search, volume);
    var meta := FillMetadata(a, hosts, rootData, rootMaps, files, boot);
    d := Disk(a.sectors, BITMAP_START, BitmapSectors(a.sectors), rootData, rootMaps, a.inUse, a.useCount, a.refs,
              bitmap, meta, map[], files, HostMap(hosts));
  }

  method FillMetadata(a: Allocator, hosts: seq<HostFile>, rootData: seq<sector>, rootMaps: seq<sector>,
                      files: seq<File>, boot: seq<byte>) returns (meta: Metadata)
    requires AreHosts(hosts) && |files| == |hosts| && NoDup(rootData) && RootData(a.sectors) > 1
    requires FilesBuilt(files, FilesStart(a.sectors, |hosts|), hosts, a.refs, a.meta)
    requires KeysOk(a.refs, a.meta, RootMaps(a.sectors, |hosts|), FilesStart(a.sectors, |hosts|), a.searchStart,
                    |hosts|)
    requires RootBuilt(a.sectors, |hosts|, rootData, rootMaps, a.meta)
    requires forall s | s in rootData :: RootData(a.sectors) <= s < a.searchStart && s !in a.meta && s !in a.refs
    ensures FilesBuilt(files, FilesStart(a.sectors, |hosts|), hosts, a.refs, meta)
    ensures RootBuilt(a.sectors, |hosts|, rootData, rootMaps, meta)
    ensures forall i: nat | i < |rootData| ::
      rootData[i] in meta && meta[rootData[i]] == Part(Directory(hosts, Firsts(files), |hosts|), i)
    ensures forall s | s in a.refs :: s !in meta && RootData(a.sectors) <= s < a.searchStart && a.refs[s].file < |files|
    ensures forall s | s in meta :: s == 1 || RootData(a.sectors) <= s < a.searchStart
    ensures 1 in meta && meta[1] == boot
  {
    var directory := BuildDirectory(hosts, Firsts(files));
    meta := PutDirectory(a.meta, rootData, directory);
    assert 1 !in rootData && 1 !in a.meta;
    meta := meta[1 := boot];
    assert Extends(a.meta, meta);
    FilesKept(files, FilesStart(a.sectors, |hosts|), hosts, a.refs, a.meta, meta);
    RootKept(a.sectors, |hosts|, rootData, rootMaps, a.meta, meta);
  }

  method PutDirectory(meta: Metadata, rootData: seq<sector>, directory: seq<byte>) returns (out: Metadata)
    requires NoDup(rootData) && forall s | s in rootData :: s !in meta
    ensures forall i: nat | i < |rootData| :: rootData[i] in out && out[rootData[i]] == Part(directory, i)
    ensures forall s | s !in rootData :: (s in out <==> s in meta) && (s in out ==> out[s] == meta[s])
  {
    out := meta;
    for i := 0 to |rootData|
      invariant forall k: nat | k < i :: rootData[k] in out && out[rootData[k]] == Part(directory, k)
      invariant forall s | s !in rootData :: (s in out <==> s in meta) && (s in out ==> out[s] == meta[s])
    {
      out := out[rootData[i] := Part(directory, i)];
    }
  }
}
