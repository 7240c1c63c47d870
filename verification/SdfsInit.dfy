/** initialize(): the whole image from the host files. */
module SdfsInit {
  import opened SdfsMap
  import opened SdfsDisk
  import opened SdfsCreate
  import opened SdfsAlloc
  import opened SdfsDirectory

  // ---- The layout ----

  const BITMAP_START: nat := 4

  function BitmapSectors(sectors: nat): nat {
    ((sectors + 8) / 8 + SECTOR - 1) / SECTOR
  }

  function DirectorySectors(files: nat): nat {
    Needed(RECORD * (files + 1))
  }

  function RootData(sectors: nat): nat {
    BITMAP_START + BitmapSectors(sectors)
  }

  function RootMaps(sectors: nat, files: nat): nat {
    RootData(sectors) + DirectorySectors(files)
  }

  /** Where the first file begins. */
  function FilesStart(sectors: nat, files: nat): nat {
    RootMaps(sectors, files) + MapCount(DirectorySectors(files))
  }

  /** n units hold so much, and no fewer do. */
  predicate JustHolds(n: nat, unit: nat, total: nat) {
    total <= unit * n && (n > 0 ==> unit * (n - 1) < total)
  }

  /** How the image is laid out: a bit for each sector from 0 on, 23 bytes for each file
      and the header, 126 data sectors to a map. */
  lemma LayoutIs(sectors: nat, files: nat, length: nat)
    ensures JustHolds(RootData(sectors) - 4, 8 * 256, sectors + 1)
    ensures JustHolds(RootMaps(sectors, files) - RootData(sectors), 256, 23 * (files + 1))
    ensures JustHolds(FilesStart(sectors, files) - RootMaps(sectors, files), 126,
                      RootMaps(sectors, files) - RootData(sectors))
    ensures JustHolds(Needed(length), 256, length) && JustHolds(FileSize(length) - Needed(length), 126, Needed(length))
  {
  }

  /** Where file i begins, behind the files before. */
  function Cursor(start: nat, hosts: seq<HostFile>, i: nat): nat
    requires i <= |hosts|
  {
    if i == 0 then start else Cursor(start, hosts, i - 1) + FileSize(|hosts[i - 1].content|)
  }

  lemma {:induction false} CursorGrows(start: nat, hosts: seq<HostFile>, i: nat, j: nat)
    requires i <= j <= |hosts|
    ensures Cursor(start, hosts, i) <= Cursor(start, hosts, j)
  {
    if i < j {
      CursorGrows(start, hosts, i, j - 1);
    }
  }

  ghost predicate AreHosts(hosts: seq<HostFile>) {
    && RECORD * (|hosts| + 1) <= 0xff_ffff
    && (forall i | 0 <= i < |hosts| :: IsHost(hosts[i]))
    && (forall i, j | 0 <= i < j < |hosts| :: hosts[i].hostName != hosts[j].hostName)
  }

  /** File i as entered: its ranges, its references and its maps. */
  ghost predicate BuiltFile(file: File, h: HostFile, cursor: nat, i: nat, refs: map<sector, Ref>, meta: Metadata) {
    var n := Needed(|h.content|);
    && cursor + FileSize(|h.content|) <= 0x1_0000
    && file == File(h.hostName, h.name + h.extension, |h.content|, Range(cursor, n), Range(cursor + n, MapCount(n)))
    && (forall k: nat | k < |file.data| :: file.data[k] in refs && refs[file.data[k]] == Ref(i, k))
    && (forall k: nat | k < |file.maps| :: HoldsMap(meta, file.maps, file.data, k))
  }

  ghost predicate Built(files: seq<File>, start: nat, hosts: seq<HostFile>, refs: map<sector, Ref>, meta: Metadata,
                        i: nat)
    requires i < |files| && i < |hosts|
  {
    BuiltFile(files[i], hosts[i], Cursor(start, hosts, i), i, refs, meta)
  }

  ghost predicate FilesBuilt(files: seq<File>, start: nat, hosts: seq<HostFile>, refs: map<sector, Ref>, meta: Metadata)
    requires |files| <= |hosts|
  {
    forall i: nat | i < |files| :: Built(files, start, hosts, refs, meta, i)
  }

  /** References and metadata so far: apart, and below the next free sector. */
  ghost predicate KeysOk(refs: map<sector, Ref>, meta: Metadata, from: nat, mid: nat, end: nat, files: nat) {
    && (forall s | s in refs :: mid <= s < end && s !in meta && refs[s].file < files)
    && (forall s | s in meta :: from <= s < end)
  }

  ghost predicate RootBuilt(sectors: nat, files: nat, rootData: seq<sector>, rootMaps: seq<sector>, meta: Metadata)
  {
    var n := DirectorySectors(files);
    && RootMaps(sectors, files) + MapCount(n) <= 0x1_0000
    && rootData == Range(RootData(sectors), n) && rootMaps == Range(RootMaps(sectors, files), MapCount(n))
    && forall i: nat | i < |rootMaps| :: HoldsMap(meta, rootMaps, rootData, i)
  }

  /** Every reference is to its own place in a file. */
  ghost predicate RefsBack(refs: map<sector, Ref>, files: seq<File>) {
    forall s | s in refs :: RefBack(refs[s], s, files)
  }

  ghost predicate RefBack(r: Ref, s: sector, files: seq<File>) {
    r.file < |files| && r.index < |files[r.file].data| && files[r.file].data[r.index] == s
  }

  /** What one more file adds. */
  lemma OneMore(refs: map<sector, Ref>, meta: Metadata, refs': map<sector, Ref>, meta': Metadata,
                from: nat, mid: nat, c: nat, data: seq<sector>, maps: seq<sector>, end: nat, i: nat)
    requires KeysOk(refs, meta, from, mid, c, i) && from <= mid <= c <= end
    requires forall s | s in data :: c <= s < end && s !in maps
    requires forall s | s in maps :: c <= s < end
    requires forall s | s !in maps :: (s in meta' <==> s in meta) && (s in meta' ==> meta'[s] == meta[s])
    requires forall s | s !in data :: (s in refs' <==> s in refs) && (s in refs' ==> refs'[s] == refs[s])
    requires forall s | s in data && s in refs' :: refs'[s].file == i
    ensures KeysOk(refs', meta', from, mid, end, i + 1)
    ensures forall s | s in refs :: s in refs' && refs'[s] == refs[s]
    ensures forall s | s in meta :: s in meta' && meta'[s] == meta[s]
  {
  }

  method AllocateOne(a: Allocator, h: HostFile, i: nat, ghost from: nat, ghost mid: nat)
    returns (ok: bool, file: File)
    requires a.Filled() && from <= mid <= a.searchStart && KeysOk(a.refs, a.meta, from, mid, a.searchStart, i)
    modifies a
    ensures a.Filled() && (ok <==> old(a.searchStart) + FileSize(|h.content|) <= a.sectors + 1)
    ensures ok ==>
      && a.searchStart == old(a.searchStart) + FileSize(|h.content|)
      && BuiltFile(file, h, old(a.searchStart), i, a.refs, a.meta)
      && KeysOk(a.refs, a.meta, from, mid, a.searchStart, i + 1)
      && (forall s | s in old(a.refs) :: s in a.refs && a.refs[s] == old(a.refs)[s])
      && (forall s | s in a.refs && s !in old(a.refs) ::
            a.refs[s].file == i && a.refs[s].index < |file.data| && file.data[a.refs[s].index] == s)
      && (forall s | s in old(a.meta) :: s in a.meta && a.meta[s] == old(a.meta)[s])
  {
    ghost var c, n := a.searchStart, Needed(|h.content|);
    ghost var refs, meta := a.refs, a.meta;
    var data, maps;
    ok, data, maps := a.AllocateFile(i, |h.content|);
    file := File(h.hostName, h.name + h.extension, |h.content|, data, maps);
    if ok {
      RangeFacts(c, n, a.sectors);
      RangeFacts(c + n, MapCount(n), a.sectors);
      forall s | s in data && s in a.refs
        ensures a.refs[s].file == i && a.refs[s].index < |data| && data[a.refs[s].index] == s
      {
        var k: nat :| k < |data| && data[k] == s;
        assert a.refs[data[k]] == Ref(i, k);
      }
      OneMore(refs, meta, a.refs, a.meta, from, mid, c, data, maps, a.searchStart, i);
    }
  }

  ghost predicate Extends<K, V>(was: map<K, V>, now: map<K, V>) {
    forall s | s in was :: s in now && now[s] == was[s]
  }

  lemma BuiltKept(file: File, h: HostFile, cursor: nat, i: nat, refs: map<sector, Ref>, meta: Metadata,
                  refs': map<sector, Ref>, meta': Metadata)
    requires BuiltFile(file, h, cursor, i, refs, meta) && Extends(refs, refs') && Extends(meta, meta')
    ensures BuiltFile(file, h, cursor, i, refs', meta')
  {
    forall k: nat | k < |file.maps| ensures HoldsMap(meta', file.maps, file.data, k) {
      assert HoldsMap(meta, file.maps, file.data, k);
    }
  }

  lemma BuiltMore(files: seq<File>, file: File, start: nat, hosts: seq<HostFile>,
                  refs: map<sector, Ref>, meta: Metadata, refs': map<sector, Ref>, meta': Metadata)
    requires |files| < |hosts| && FilesBuilt(files, start, hosts, refs, meta)
    requires BuiltFile(file, hosts[|files|], Cursor(start, hosts, |files|), |files|, refs', meta')
    requires Extends(refs, refs') && Extends(meta, meta')
    ensures FilesBuilt(files + [file], start, hosts, refs', meta')
  {
    var more := files + [file];
    forall i: nat | i < |more| ensures Built(more, start, hosts, refs', meta', i) {
      if i < |files| {
        assert Built(files, start, hosts, refs, meta, i);
        BuiltKept(files[i], hosts[i], Cursor(start, hosts, i), i, refs, meta, refs', meta');
      }
    }
  }

  lemma BackMore(refs: map<sector, Ref>, refs': map<sector, Ref>, files: seq<File>, file: File)
    requires RefsBack(refs, files) && Extends(refs, refs')
    requires forall s | s in refs' && s !in refs :: refs'[s].file == |files| && RefBack(refs'[s], s, files + [file])
    ensures RefsBack(refs', files + [file])
  {
    forall s | s in refs' ensures RefBack(refs'[s], s, files + [file]) {
      assert s in refs ==> RefBack(refs[s], s, files);
    }
  }

  /** All the files, one after the other. */
  method AllocateFiles(a: Allocator, hosts: seq<HostFile>, ghost from: nat) returns (ok: bool, files: seq<File>)
    requires a.Filled() && from <= a.searchStart && KeysOk(a.refs, a.meta, from, a.searchStart, a.searchStart, 0)
    requires a.refs == map[]
    modifies a
    ensures a.Filled() && (ok <==> Cursor(old(a.searchStart), hosts, |hosts|) <= a.sectors + 1)
    ensures ok ==>
      && |files| == |hosts| && a.searchStart == Cursor(old(a.searchStart), hosts, |hosts|)
      && FilesBuilt(files, old(a.searchStart), hosts, a.refs, a.meta) && RefsBack(a.refs, files)
      && KeysOk(a.refs, a.meta, from, old(a.searchStart), a.searchStart, |hosts|) && Extends(old(a.meta), a.meta)
  {
    ghost var start := a.searchStart;
    files := [];
    for i := 0 to |hosts|
      invariant a.Filled() && |files| == i && from <= start <= a.searchStart == Cursor(start, hosts, i)
      invariant FilesBuilt(files, start, hosts, a.refs, a.meta) && RefsBack(a.refs, files)
      invariant KeysOk(a.refs, a.meta, from, start, a.searchStart, i) && Extends(old(a.meta), a.meta)
    {
      ghost var refs, meta := a.refs, a.meta;
      var file;
      ok, file := AllocateOne(a, hosts[i], i, from, start);
      if !ok {
        CursorGrows(start, hosts, i + 1, |hosts|);
        return;
      }
      BuiltMore(files, file, start, hosts, refs, meta, a.refs, a.meta);
      BackMore(refs, a.refs, files, file);
      files := files + [file];
    }
    ok := true;
  }

  lemma RootKept(sectors: nat, files: nat, rootData: seq<sector>, rootMaps: seq<sector>, meta: Metadata,
                 meta': Metadata)
    requires RootBuilt(sectors, files, rootData, rootMaps, meta) && Extends(meta, meta')
    ensures RootBuilt(sectors, files, rootData, rootMaps, meta')
  {
    forall i: nat | i < |rootMaps| ensures HoldsMap(meta', rootMaps, rootData, i) {
      assert HoldsMap(meta, rootMaps, rootData, i);
    }
  }
}
