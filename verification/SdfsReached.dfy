/** The inputs of SdfsBreaks are reached: from the image that is made of one host file
    of one sector, by the guest's writes. */
module SdfsReached {
  import opened ByteBits
  import opened SdfsMap
  import opened SdfsDisk
  import opened SdfsDirectory
  import opened SdfsNames
  import opened SdfsAlloc
  import opened SdfsInit
  import opened SdfsFormat
  import opened SdfsParse
  import opened SdfsCreate
  import opened SdfsAppend
  import opened SdfsApart
  import opened SdfsWrite
  import opened SdfsRuns
  import opened SdfsBreaks

  /** The host file a, with its name as the guest sees it. */
  predicate IsSource(h: HostFile, a: string) {
    h.hostName == a && |h.name| == 8 && h.name + h.extension == Atari(a) && h.content == Filled(1)
  }

  // ---- The fresh image has its file in sector 7, with its map in 8 ----

  lemma Sizes(sectors: nat, files: nat, length: nat)
    requires sectors == 70 && files == 1 && length == SECTOR
    ensures BitmapSectors(sectors) == 1 && RootData(sectors) == 5 && DirectorySectors(files) == 1
    ensures RootMaps(sectors, files) == 6 && FilesStart(sectors, files) == 7
    ensures Needed(length) == 1 && MapCount(1) == 1 && FileSize(length) == 2
  {
  }

  lemma Ends(start: nat, hosts: seq<HostFile>)
    requires |hosts| == 1 && |hosts[0].content| == SECTOR && start == 7
    ensures Cursor(start, hosts, 0) == 7 && Cursor(start, hosts, |hosts|) == 9
  {
    Sizes(70, 1, |hosts[0].content|);
    assert Cursor(start, hosts, |hosts|) == Cursor(start, hosts, 0) + FileSize(|hosts[0].content|);
  }

  lemma OneRange(from: nat, n: nat)
    requires 1 <= from < 0xffff && n == 1
    ensures Range(from, n) == [from]
  {
    RangeFacts(from, n, 0xffff);
  }

  /** Where everything is. */
  ghost predicate OnePlaces(d: Disk, hosts: seq<HostFile>, rootData: seq<sector>, rootMaps: seq<sector>)
    requires |hosts| == 1
  {
    && d.bitmapStart == 4 && d.bitmapSectors == 1 && rootData == [5] && rootMaps == [6] && RootData(d.sectors) == 5
    && d.rootData == rootData && d.rootMaps == rootMaps && 1 in d.meta && UseOk(d, 9) && KeysApart(d, 9)
    && |d.files| == 1 && BuiltFile(d.files[0], hosts[0], 7, 0, d.refs, d.meta)
    && d.pending == map[] && d.host == HostMap(hosts)
  }

  lemma FreshPlaces(d: Disk, hosts: seq<HostFile>, volume: seq<byte>, rootData: seq<sector>, rootMaps: seq<sector>)
    requires AreHosts(hosts) && |volume| == 8 && IsImage(d, hosts, volume, rootData, rootMaps) && d.sectors == 70
    requires |hosts| == 1 && |hosts[0].content| == SECTOR
    ensures OnePlaces(d, hosts, rootData, rootMaps)
  {
    Sizes(d.sectors, |hosts|, |hosts[0].content|);
    Ends(FilesStart(d.sectors, |hosts|), hosts);
    assert Built(d.files, FilesStart(d.sectors, |hosts|), hosts, d.refs, d.meta, 0);
    OneRange(5, DirectorySectors(|hosts|));
    OneRange(6, MapCount(DirectorySectors(|hosts|)));
  }

  lemma FreshIsOne(d: Disk, hosts: seq<HostFile>, a: string, volume: seq<byte>, rootData: seq<sector>,
                   rootMaps: seq<sector>)
    requires AreHosts(hosts) && |volume| == 8 && IsImage(d, hosts, volume, rootData, rootMaps) && d.sectors == 70
    requires |hosts| == 1 && IsSource(hosts[0], a)
    ensures OneFile(d, a) && d.pending == map[]
  {
    ImageSound(d, hosts, volume, rootData, rootMaps);
    FreshPlaces(d, hosts, volume, rootData, rootMaps);
    PlacesAreOne(d, hosts, a, rootData, rootMaps);
  }

  lemma PlacesAreOne(d: Disk, hosts: seq<HostFile>, a: string, rootData: seq<sector>, rootMaps: seq<sector>)
    requires Sound(d) && |hosts| == 1 && OnePlaces(d, hosts, rootData, rootMaps) && IsSource(hosts[0], a)
    requires d.sectors == 70
    ensures OneFile(d, a)
  {
    var length := |hosts[0].content|;
    Sizes(d.sectors, |hosts|, length);
    OneRange(7, Needed(length));
    OneRange(8, MapCount(Needed(length)));
    FreshFile(d, hosts, a);
    FreshKeys(d, a);
    OneHost(hosts, a);
  }

  lemma FreshFile(d: Disk, hosts: seq<HostFile>, a: string)
    requires |d.files| == 1 && |hosts| == 1 && IsSource(hosts[0], a)
    requires BuiltFile(d.files[0], hosts[0], 7, 0, d.refs, d.meta)
    requires Range(7, Needed(|hosts[0].content|)) == [7]
    requires Range(8, MapCount(Needed(|hosts[0].content|))) == [8] && Needed(|hosts[0].content|) == 1
    ensures d.files == [TheFile(a)]
  {
  }

  lemma FreshKeys(d: Disk, a: string)
    requires Sound(d) && d.sectors == 70 && d.files == [TheFile(a)] && d.bitmapStart == 4 && d.bitmapSectors == 1
    requires d.rootData == [5] && d.rootMaps == [6] && KeysApart(d, 9) && 1 in d.meta && RootData(d.sectors) == 5
    ensures (forall s :: s in d.refs <==> s == 7) && d.refs[7] == Ref(0, 0)
    ensures {1, 5, 6, 8} <= d.meta.Keys && forall s | s in d.meta :: s == 1 || (5 <= s <= 8 && s != 7)
  {
    assert FileOwns(d, 0) && d.files[0].data[0] == 7;
    forall s | s in d.refs ensures s == 7 {
      assert RefOwned(d, s);
    }
    assert MapsKept(d, 0) && OwnMap(d, 8);
    assert InRoot(d, 5) && InRoot(d, 6);
  }

  lemma OneHost(hosts: seq<HostFile>, a: string)
    requires |hosts| == 1 && hosts[0].hostName == a && hosts[0].content == Filled(1)
    ensures (forall n :: n in HostMap(hosts) <==> n == a) && HostMap(hosts)[a] == Filled(1)
  {
    assert hosts[..|hosts| - 1] == [];
  }

  // ---- The guest's writes ----

  /** A run so far. */
  ghost predicate Stages(run: seq<Image>, ops: seq<Op>, a: string) {
    IsRun(run, ops) && OneFile(run[|run| - 1].d, a)
  }

  function Last(run: seq<Image>): Image
    requires |run| > 0
  {
    run[|run| - 1]
  }

  /** One more write; the file's own sector is written as it is, or while its
      replacement is pending. */
  lemma Writes(run: seq<Image>, ops: seq<Op>, a: string, s: sector, b: seq<byte>)
    returns (run': seq<Image>, ops': seq<Op>)
    requires Stages(run, ops, a) && 4 <= s <= 70 && |b| == SECTOR
    requires s == 7 && 0 !in Last(run).replacing ==> b == Filled(1)
    ensures Stages(run', ops', a) && run'[0] == run[0]
    ensures var i, j := Last(run), Last(run');
      j.replacing == i.replacing && j.d.pending == i.d.pending[s := b] && j.d.bitmap == i.d.bitmap
  {
    var i := Last(run);
    var d := Stage(i, a, s, b);
    run', ops' := run + [Image(d, i.replacing)], ops + [Op.Write(s, b)];
  }

  lemma Stage(i: Image, a: string, s: sector, b: seq<byte>) returns (d: Disk)
    requires OneFile(i.d, a) && 4 <= s <= 70 && |b| == SECTOR && (s == 7 && 0 !in i.replacing ==> b == Filled(1))
    ensures OneFile(d, a) && Shape(i.d) && WriteStep(i.d, d, i.replacing, s, b)
    ensures d.pending == i.d.pending[s := b] && d.bitmap == i.d.bitmap
  {
    OneFileShape(i.d, a);
    d := i.d.(pending := i.d.pending[s := b]);
    if s == 7 && 0 !in i.replacing {
      assert Overlaid(i.d.host[a], 0, b) == i.d.host[a];
      assert i.d.host[a := i.d.host[a]] == i.d.host;
    }
  }

  /** Three writes in a row. */
  lemma Writes3(i: Image, a: string, x: sector, p: seq<byte>, y: sector, q: seq<byte>, z: sector, r: seq<byte>)
    returns (run: seq<Image>, ops: seq<Op>)
    requires OneFile(i.d, a) && i.d.pending == map[] && |p| == |q| == |r| == SECTOR
    requires 4 <= x < y < z <= 70 && x != 7 && z != 7 && (y == 7 && 0 !in i.replacing ==> q == Filled(1))
    ensures Stages(run, ops, a) && run[0] == i
    ensures var j := Last(run);
      j.replacing == i.replacing && j.d.pending == map[x := p, y := q, z := r] && j.d.bitmap == i.d.bitmap
  {
    run, ops := [i], [];
    run, ops := Writes(run, ops, a, x, p);
    run, ops := Writes(run, ops, a, y, q);
    run, ops := Writes(run, ops, a, z, r);
  }

  lemma Reopens(i: Image, a: string, run: seq<Image>, ops: seq<Op>) returns (run': seq<Image>, ops': seq<Op>)
    requires OneFile(i.d, a) && Stages(run, ops, a) && run[0] == Image(i.d, i.replacing + {0})
    ensures Stages(run', ops', a) && run'[0] == i && Last(run') == Last(run)
  {
    OneFileShape(i.d, a);
    run', ops' := [i] + run, [Reopen(0)] + ops;
    assert Does(run'[0], ops'[0], run'[1]);
    forall k: nat | k < |ops'| ensures Shape(run'[k].d) && Does(run'[k], ops'[k], run'[k + 1]) {
      if k > 0 {
        assert run'[k] == run[k - 1] && ops'[k] == ops[k - 1] && run'[k + 1] == run[k];
      }
    }
  }

  // ---- The inputs ----

  /** What SdfsBreaks.CreateTakesUsed asks for. */
  lemma CreateReached(i: Image, hosts: seq<HostFile>, volume: seq<byte>, rootData: seq<sector>,
                      rootMaps: seq<sector>, a: string, b: string) returns (run: seq<Image>, ops: seq<Op>)
    requires AreHosts(hosts) && |volume| == 8 && IsFresh(i, hosts, volume, rootData, rootMaps) && i.d.sectors == 70
    requires |hosts| == 1 && IsSource(hosts[0], a) && IsName(b) && b != a && Atari(b) != Atari(a)
    ensures IsRun(run, ops) && run[0] == i && CreateInput(Last(run).d, a, b) && Last(run).replacing == {}
  {
    FreshIsOne(i.d, hosts, a, volume, rootData, rootMaps);
    run, ops := Writes3(i, a, 5, DirOf(9, SECTOR, b), 7, Filled(1), 9, MapOf([7]));
  }

  /** bits: any new contents for the bitmap's sector, but its own. */
  lemma ReplaceReached(i: Image, hosts: seq<HostFile>, volume: seq<byte>, rootData: seq<sector>,
                       rootMaps: seq<sector>, a: string, bits: seq<byte>) returns (run: seq<Image>, ops: seq<Op>)
    requires AreHosts(hosts) && |volume| == 8 && IsFresh(i, hosts, volume, rootData, rootMaps) && i.d.sectors == 70
    requires |hosts| == 1 && IsSource(hosts[0], a) && IsName(a) && |bits| == SECTOR && bits != i.d.bitmap
    ensures IsRun(run, ops) && run[0] == i && ReplaceInput(Last(run).d, a) && Last(run).replacing == {0}
  {
    FreshIsOne(i.d, hosts, a, volume, rootData, rootMaps);
    run, ops := Writes3(Image(i.d, {0}), a, 4, bits, 5, DirOf(8, SECTOR, a), 8, MapOf([4]));
    run, ops := Reopens(i, a, run, ops);
  }

  lemma AppendReached(i: Image, hosts: seq<HostFile>, volume: seq<byte>, rootData: seq<sector>,
                      rootMaps: seq<sector>, a: string) returns (run: seq<Image>, ops: seq<Op>)
    requires AreHosts(hosts) && |volume| == 8 && IsFresh(i, hosts, volume, rootData, rootMaps) && i.d.sectors == 70
    requires |hosts| == 1 && IsSource(hosts[0], a) && IsName(a)
    ensures IsRun(run, ops) && run[0] == i && AppendInput(Last(run).d, a) && Last(run).replacing == {0}
  {
    FreshIsOne(i.d, hosts, a, volume, rootData, rootMaps);
    run, ops := Writes3(Image(i.d, {0}), a, 5, DirOf(8, 2 * SECTOR, a), 7, Filled(2), 8, MapOf([7, 9]));
    run, ops := Writes(run, ops, a, 9, Filled(2));
    run, ops := Reopens(i, a, run, ops);
  }

  lemma RenameReached(i: Image, hosts: seq<HostFile>, volume: seq<byte>, rootData: seq<sector>,
                      rootMaps: seq<sector>, a: string) returns (run: seq<Image>, ops: seq<Op>)
    requires AreHosts(hosts) && |volume| == 8 && IsFresh(i, hosts, volume, rootData, rootMaps) && i.d.sectors == 70
    requires |hosts| == 1 && IsSource(hosts[0], a)
    ensures IsRun(run, ops) && run[0] == i && RenameInput(Last(run).d, a) && Last(run).replacing == {0}
  {
    FreshIsOne(i.d, hosts, a, volume, rootData, rootMaps);
    run, ops := Writes([Image(i.d, {0})], [], a, 7, Filled(2));
    run, ops := Reopens(i, a, run, ops);
  }
}
