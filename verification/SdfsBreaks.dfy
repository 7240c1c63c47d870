/** Inputs that the commits take and should not, or that lose what the guest wrote. The
    disk has one file, in sector 7, with its map in sector 8; what differs is what the
    guest has staged. */
module SdfsBreaks {
  import opened ByteBits
  import opened Options
  import opened Sets
  import opened SdfsMap
  import opened SdfsDisk
  import opened SdfsDirectory
  import opened SdfsNames
  import opened SdfsEntries
  import opened SdfsCreate
  import opened SdfsAppend
  import opened SdfsAppended
  import opened SdfsReplace
  import opened SdfsApart
  import opened SdfsAccounts
  import opened SdfsWrite
  import opened SdfsRename
  import opened SdfsImage
  import opened SdfsRuns

  function Filled(b: byte): (r: seq<byte>)
    ensures |r| == SECTOR
  {
    seq(SECTOR, _ => b)
  }

  function MapOf(entries: seq<sector>): (b: seq<byte>)
    requires |entries| <= 2
    ensures |b| == SECTOR
  {
    var b := if |entries| > 0 then Put16(Filled(0), 4, entries[0]) else Filled(0);
    if |entries| > 1 then Put16(b, 6, entries[1]) else b
  }

  lemma MapIs(entries: seq<sector>)
    requires |entries| <= 2 && 0 !in entries
    ensures IsMapSector(MapOf(entries), 0, 0, entries)
    ensures NextMap(MapOf(entries)) == 0 && EntriesFrom(MapOf(entries), 0) == entries
  {
    EntriesOf(MapOf(entries), 0, 0, entries, 0);
    assert entries[0..] == entries;
  }

  /** A root directory of one finished entry. */
  function DirOf(first: sector, length: nat, name: string): (b: seq<byte>)
    requires length <= 0xff_ffff
    ensures |b| == SECTOR
  {
    Record(0, 0, 46, ROOT, [0, 0, 0]) + Record(8, first, length, Atari(name)[..8], Atari(name)[8..])
      + seq(SECTOR - 2 * RECORD, _ => 0)
  }

  lemma DirIs(first: sector, length: nat, name: string)
    requires length <= 0xff_ffff && IsShortName(name) && Plain(name) && Dot(name) == |name|
    ensures FinishedFrom(DirOf(first, length, name), 0, first, Codes(name)) == Some(length)
    ensures VisibleName(Atari(name)) == Codes(name)
  {
    var dir := DirOf(first, length, name);
    var h, e := dir[..RECORD], dir[RECORD..2 * RECORD];
    assert h == Record(0, 0, 46, ROOT, [0, 0, 0]);
    assert e == Record(8, first, length, Atari(name)[..8], Atari(name)[8..]);
    RecordFields(h, 0, 0, 46, ROOT, [0, 0, 0]);
    RecordFields(e, 8, first, length, Atari(name)[..8], Atari(name)[8..]);
    VisibleAtari(name);
    RecordInPlace(dir, RECORD);
    NameInPlace(dir, e, Atari(name));
    HeadInPlace(dir, h);
  }

  lemma NameInPlace(dir: seq<byte>, e: seq<byte>, atari: seq<byte>)
    requires |dir| == SECTOR && e == dir[RECORD..2 * RECORD] && |atari| == 11
    requires e[6..14] == atari[..8] && e[14..17] == atari[8..]
    ensures dir[RECORD + 6..RECORD + 17] == atari
  {
    var name := dir[RECORD + 6..RECORD + 17];
    assert atari == atari[..8] + atari[8..];
    forall k | 0 <= k < 11 ensures name[k] == atari[k] {
      assert name[k] == e[6 + k];
      assert k < 8 ==> e[6..14][k] == e[6 + k];
      assert k >= 8 ==> e[14..17][k - 8] == e[6 + k];
    }
  }

  lemma HeadInPlace(dir: seq<byte>, h: seq<byte>)
    requires |dir| == SECTOR && h == dir[..RECORD] && Get24(h, 3) == 46
    ensures Get24(dir, 3) == 46 && EntryCount(dir) == 1
  {
    assert dir[3] == h[3] && dir[4] == h[4] && dir[5] == h[5];
  }

  // ---- The disk ----

  predicate IsName(name: string) {
    IsShortName(name) && Plain(name) && Dot(name) == |name|
  }

  function TheFile(a: string): File {
    File(a, Atari(a), SECTOR, [7], [8])
  }

  /** Boot sectors, bitmap 4, root directory 5 with its map 6, and the file. */
  ghost predicate OneFile(d: Disk, a: string) {
    && d.sectors == 70 && d.bitmapStart == 4 && d.bitmapSectors == 1 && |d.bitmap| == SECTOR
    && d.rootData == [5] && d.rootMaps == [6]
    && |d.inUse| == 71 && (forall s: nat | s < 71 :: d.inUse[s] <==> 1 <= s <= 8) && d.useCount == 8
    && (forall s :: s in d.refs <==> s == 7) && d.refs[7] == Ref(0, 0)
    && {1, 5, 6, 8} <= d.meta.Keys && (forall s | s in d.meta :: s == 1 || (5 <= s <= 8 && s != 7))
    && d.files == [TheFile(a)] && (forall n :: n in d.host <==> n == a) && d.host[a] == Filled(1)
    && (forall s | s in d.pending :: 4 <= s <= 70 && |d.pending[s]| == SECTOR)
  }

  lemma OneFileShape(d: Disk, a: string)
    requires OneFile(d, a)
    ensures Shape(d)
  {
    forall s | s in d.pending ensures 1 <= s <= d.sectors && |d.pending[s]| == Size(s) {
    }
    assert FileOk(d, TheFile(a));
  }

  lemma OneFileOwned(d: Disk, a: string)
    requires OneFile(d, a)
    ensures Owned(d)
  {
    OneSectorNeeded();
    assert FileOwns(d, 0);
    assert RefOwned(d, 7);
  }

  lemma OneSectorNeeded()
    ensures Needed(SECTOR) == 1 && Needed(2 * SECTOR) == 2
  {
  }

  lemma OneFileSound(d: Disk, a: string)
    requires OneFile(d, a)
    ensures Sound(d) && CountRight(d) && Accounted(d)
  {
    OneFileShape(d, a);
    OneFileOwned(d, a);
    assert OwnMap(d, 8);
    assert MapsKept(d, 0);
    OneFileCount(d, a);
    OneFileAccounted(d, a);
  }

  lemma OneFileAccounted(d: Disk, a: string)
    requires OneFile(d, a)
    ensures Accounted(d)
  {
    assert IsMapOf(d, 8, 0);
  }

  lemma OneFileCount(d: Disk, a: string)
    requires OneFile(d, a)
    ensures CountRight(d)
  {
    UsedUpTo(d.inUse, 9);
  }

  lemma StagedView(d: Disk, s: sector)
    requires Shape(d) && 4 <= s <= d.sectors && s in d.pending
    ensures ViewOf(d)(s) == d.pending[s]
  {
  }

  /** Its root directory is the staged sector 5. */
  lemma TheEntry(d: Disk, first: sector, length: nat, name: string)
    requires Shape(d) && d.rootData == [5] && d.sectors == 70 && 5 in d.pending
    requires length <= 0xff_ffff && IsName(name) && d.pending[5] == DirOf(first, length, name)
    ensures Finished(d, first, Codes(name)) == Some(length) && VisibleName(Atari(name)) == Codes(name)
  {
    StagedView(d, 5);
    OneGathered(ViewOf(d), d.sectors, 5);
    DirIs(first, length, name);
  }

  lemma OneGathered(view: View, sectors: nat, s: sector)
    requires IsView(view, sectors) && 1 <= s <= sectors
    ensures Gathered(view, sectors, [s]) == view(s)
  {
    assert [s][..0] == [];
  }

  /** A chain of one staged map. */
  lemma OneMap(d: Disk, m: sector, entries: seq<sector>)
    requires Shape(d) && 4 <= m <= d.sectors && m in d.pending && |entries| <= 2 && 0 !in entries
    requires d.pending[m] == MapOf(entries)
    ensures IsChain(ViewOf(d), d.sectors, m, [m], entries)
  {
    StagedView(d, m);
    MapIs(entries);
    assert [m][..0] == [];
  }

  // ---- A create over a file's sector ----

  /** File b's map, in sector 9, lists the sector of file a. */
  ghost predicate CreateInput(d: Disk, a: string, b: string) {
    && OneFile(d, a) && IsName(b) && b != a && Atari(b) != Atari(a)
    && (forall s :: s in d.pending <==> s == 5 || s == 7 || s == 9)
    && d.pending[5] == DirOf(9, SECTOR, b) && d.pending[9] == MapOf([7])
  }

  /** The create goes through, and then a's sector is b's: the count is wrong, and a
      does not own its data any more. */
  lemma CreateTakesUsed(d: Disk, d': Disk, a: string, b: string)
    requires CreateInput(d, a, b) && Shape(d) && CreateStep(d, d', b, SECTOR, [9], [7])
    ensures Sound(d) && CountRight(d) && d.inUse[7]
    ensures CreateReady(d, b, 9, SECTOR, [5, 7, 9], [9], [7])
    ensures !CountRight(d') && !Owned(d')
  {
    OneFileSound(d, a);
    CreateInputReady(d, a, b);
    TakenCountWrong(d, d', b, [9], [7]);
    TakenData(d, d', b, a);
  }

  lemma TakenCountWrong(d: Disk, d': Disk, b: string, maps: seq<sector>, listed: seq<sector>)
    requires Shape(d) && CreateStep(d, d', b, SECTOR, maps, listed) && CountRight(d)
    requires listed == [7] && maps == [9] && d.sectors == 70 && d.inUse[7]
    ensures !CountRight(d')
  {
    assert listed[0] in listed;
    CreateCounts(d, d', b, SECTOR, maps, listed);
  }

  lemma TakenData(d: Disk, d': Disk, b: string, a: string)
    requires OneFile(d, a) && Shape(d) && CreateStep(d, d', b, SECTOR, [9], [7])
    ensures !Owned(d')
  {
    var listed: seq<sector> := [7];
    assert listed[0] in d'.refs && d'.refs[listed[0]] == Ref(1, 0);
    assert d'.files[0] == TheFile(a);
    assert d'.files[0].data[0] == 7 && d'.refs[7] != Ref(0, 0);
    assert !FileOwns(d', 0);
  }

  lemma CreateInputReady(d: Disk, a: string, b: string)
    requires CreateInput(d, a, b) && Shape(d)
    ensures CreateReady(d, b, 9, SECTOR, [5, 7, 9], [9], [7])
  {
    TheEntry(d, 9, SECTOR, b);
    OneMap(d, 9, [7]);
    OneSectorNeeded();
    SevenObserved([5, 7, 9], [7], [9]);
  }

  lemma SevenObserved(order: seq<sector>, listed: seq<sector>, maps: seq<sector>)
    requires order == [5, 7, 9] && listed == [7] && maps == [9]
    ensures Observed(order, listed, maps) == [7]
  {
    assert order[..2] == [5, 7] && [5, 7][..1] == [5] && [5][..0] == [];
    assert Observed([5], listed, maps) == [];
    assert Observed([5, 7], listed, maps) == [7];
  }

  // ---- A replacement through the bitmap ----

  /** The file is rewritten with the bitmap's sector as its data. */
  ghost predicate ReplaceInput(d: Disk, a: string) {
    && OneFile(d, a) && IsName(a) && (forall s :: s in d.pending <==> s == 4 || s == 5 || s == 8)
    && d.pending[4] != d.bitmap && d.pending[5] == DirOf(8, SECTOR, a) && d.pending[8] == MapOf([4])
  }

  /** The replacement goes through, and the guest reads the old bitmap where it
      wrote the file's data. */
  lemma ReplaceLosesData(d: Disk, d': Disk, a: string)
    requires ReplaceInput(d, a) && Shape(d) && ReplaceStep(d, d', 0, SECTOR, [8], [4])
    ensures Sound(d) && ReplaceReady(d, 0, a, 8, SECTOR, [8], [4])
    ensures Shape(d') && ReadSector(d, 4) == d.pending[4] && ReadSector(d', 4) == d.bitmap != d.pending[4] && !Sound(d')
  {
    OneFileSound(d, a);
    ReplaceInputReady(d, a);
    ReplacedShape(d, d', [8], [4]);
    BitmapLost(d, d', a, [8], [4]);
    ReplacedUnsound(d, d', [8], [4]);
  }

  lemma ReplacedShape(d: Disk, d': Disk, maps: seq<sector>, listed: seq<sector>)
    requires Shape(d) && Owned(d) && ReplaceStep(d, d', 0, SECTOR, maps, listed)
    requires maps == [8] && d.sectors == 70 && Live(d.files[0])
    ensures Shape(d')
  {
    ReplaceShape(d, d', 0, SECTOR, maps, listed);
  }

  lemma BitmapLost(d: Disk, d': Disk, a: string, maps: seq<sector>, listed: seq<sector>)
    requires ReplaceInput(d, a) && Shape(d) && ReplaceStep(d, d', 0, SECTOR, maps, listed) && Shape(d')
    requires listed == [4]
    ensures ReadSector(d, 4) == d.pending[4] && ReadSector(d', 4) == d.bitmap != d.pending[4]
  {
    WholeBitmap(d);
    BitmapRead(d, d', SECTOR, maps, listed, 4);
  }

  lemma WholeBitmap(d: Disk)
    requires d.bitmapStart == 4 && d.bitmapSectors == 1 && |d.bitmap| == SECTOR
    ensures BitmapSector(d, 4) == d.bitmap
  {
  }

  lemma BitmapRead(d: Disk, d': Disk, length: nat, maps: seq<sector>, listed: seq<sector>, s: sector)
    requires Shape(d) && Shape(d') && ReplaceStep(d, d', 0, length, maps, listed) && listed == [s]
    requires 4 <= s <= d.sectors && InBitmap(d, s) && s in d.pending
    ensures ReadSector(d, s) == d.pending[s] && ReadSector(d', s) == BitmapSector(d, s)
  {
    assert listed[0] in listed;
    BitmapComesBack(d, d', 0, length, maps, listed, s);
  }

  lemma ReplacedUnsound(d: Disk, d': Disk, maps: seq<sector>, listed: seq<sector>)
    requires Sound(d) && ReplaceStep(d, d', 0, SECTOR, maps, listed) && listed == [4] && InBitmap(d, 4)
    ensures !Sound(d')
  {
    assert listed[0] in listed;
    if Sound(d') {
      SoundReplaced(d, d', 0, SECTOR, maps, listed);
      assert false;
    }
  }

  lemma ReplaceInputReady(d: Disk, a: string)
    requires ReplaceInput(d, a) && Shape(d)
    ensures ReplaceReady(d, 0, a, 8, SECTOR, [8], [4])
  {
    TheEntry(d, 8, SECTOR, a);
    OneMap(d, 8, [4]);
    OneSectorNeeded();
  }

  // ---- An append while a replacement is pending ----

  /** The file was opened for rewriting; its sector was written, which is staged
      only; and then it grew. */
  ghost predicate AppendInput(d: Disk, a: string) {
    && OneFile(d, a) && IsName(a) && (forall s :: s in d.pending <==> s == 5 || s == 7 || s == 8 || s == 9)
    && d.pending[5] == DirOf(8, 2 * SECTOR, a) && d.pending[8] == MapOf([7, 9]) && d.pending[7] == Filled(2)
  }

  function Grows(a: string): PendingAppend {
    PendingAppend(0, a, 8, SECTOR, 2 * SECTOR, 0, 0, [7], [8])
  }

  /** The append goes through, and the host file has the old first sector. */
  lemma AppendLosesData(d: Disk, d': Disk, a: string)
    requires AppendInput(d, a) && Shape(d) && AppendStep(d, d', 0, 2 * SECTOR, [8], [9])
    ensures Good(Image(d, {0})) && AppendReady(d, Grows(a), [8], [9])
    ensures !OldAsHost(d, 0, [9])
    ensures Shape(d') && !HostSeen(d', 0)
  {
    OneFileGood(d, a);
    AppendInputReady(d, a);
    NotAsHost(d, a);
    GrowthFree(d, a);
    AppendSound(d, d', 0, 2 * SECTOR, [8], [9]);
    NotSeen(d, d', a);
  }

  /** While its replacement is pending nothing is asked of its host file. */
  lemma OneFileGood(d: Disk, a: string)
    requires OneFile(d, a)
    ensures Good(Image(d, {0}))
  {
    OneFileSound(d, a);
  }

  lemma NotAsHost(d: Disk, a: string)
    requires AppendInput(d, a) && Shape(d)
    ensures !OldAsHost(d, 0, [9])
  {
    StagedView(d, 7);
    var data := d.files[0].data;
    assert Tail(data, SECTOR, [9]) == [9];
    assert ViewOf(d)(data[0])[0] == 2 && Part(d.host[a], 0)[0] == 1;
    assert !OldParts(ViewOf(d), d.host[a], data, 1);
  }

  lemma AppendInputReady(d: Disk, a: string)
    requires AppendInput(d, a) && Shape(d)
    ensures AppendReady(d, Grows(a), [8], [9])
  {
    TheEntry(d, 8, 2 * SECTOR, a);
    OneMap(d, 8, [7, 9]);
    OneSectorNeeded();
    GrownReady(d, a, [8], [7], [9], [7, 9]);
  }

  lemma GrownReady(d: Disk, a: string, maps: seq<sector>, data: seq<sector>, added: seq<sector>, all: seq<sector>)
    requires OneFile(d, a) && Shape(d) && maps == [8] && data == [7] && added == [9] && all == [7, 9]
    requires IsChain(ViewOf(d), d.sectors, 8, maps, all) && 9 in d.pending
    requires Finished(d, 8, VisibleName(Atari(a))) == Some(2 * SECTOR)
    requires Needed(SECTOR) == 1 && Needed(2 * SECTOR) == 2
    ensures AppendReady(d, Grows(a), maps, added)
  {
    assert data + added == all;
    assert maps[1..] == [];
  }

  lemma GrowthFree(d: Disk, a: string)
    requires AppendInput(d, a)
    ensures AppendFree(d, 0, [8], [9])
  {
    assert Free(d, 9);
    assert [8][1..] == [];
  }

  lemma NotSeen(d: Disk, d': Disk, a: string)
    requires AppendInput(d, a) && Shape(d) && Shape(d') && AppendStep(d, d', 0, 2 * SECTOR, [8], [9])
    ensures !HostSeen(d', 0)
  {
    HostHasOld(d, d', a, [7], [9]);
    TailStaged(d, d', a, [8], [9]);
    GuestHasNew(d, d', a, [8], [7], [9]);
  }

  lemma HostHasOld(d: Disk, d': Disk, a: string, data: seq<sector>, added: seq<sector>)
    requires AppendInput(d, a) && Shape(d) && AppendFiles(d, d', 0, 2 * SECTOR, [8], added)
    requires data == [7] && added == [9]
    ensures a in d'.host && |d'.host[a]| == 2 * SECTOR && d'.host[a][0] == 1
  {
    GrownPart(Filled(1), d.pending, data, added, 2 * SECTOR, 0, 0);
    assert Part(Filled(1), 0)[0] == 1;
  }

  lemma TailStaged(d: Disk, d': Disk, a: string, maps: seq<sector>, added: seq<sector>)
    requires OneFile(d, a) && Shape(d) && AppendStep(d, d', 0, 2 * SECTOR, maps, added)
    ensures OverlayStep(d, d', ViewOf(d), maps, SetOf(added)) && d'.files[0].data == [7] + added
  {
    TailOfFull(d.files[0].data, added);
  }

  lemma TailOfFull(data: seq<sector>, added: seq<sector>)
    ensures Tail(data, SECTOR, added) == added
  {
  }

  lemma GuestHasNew(d: Disk, d': Disk, a: string, maps: seq<sector>, data: seq<sector>, added: seq<sector>)
    requires OneFile(d, a) && Shape(d) && Shape(d') && OverlayStep(d, d', ViewOf(d), maps, SetOf(added))
    requires data == [7] && added == [9] && maps == [8] && 7 in d.pending && d.pending[7] == Filled(2)
    ensures OnDisk(data + added, d'.sectors) && Gathered(ViewOf(d'), d'.sectors, data + added)[0] == 2
  {
    StillThere(d, d', maps, added, 7);
    SeenFirst(d', data + added);
  }

  lemma SeenFirst(d: Disk, all: seq<sector>)
    requires Shape(d) && 0 < |all| <= 2 && all[0] == 7 && all[|all| - 1] in {7, 9} && d.sectors == 70
    requires 7 in d.pending && d.pending[7] == Filled(2)
    ensures OnDisk(all, d.sectors) && Gathered(ViewOf(d), d.sectors, all)[0] == 2
  {
    StagedView(d, 7);
    GatheredByte(ViewOf(d), d.sectors, all, 0, 0);
  }

  lemma StillThere(d: Disk, d': Disk, maps: seq<sector>, tail: seq<sector>, s: sector)
    requires Shape(d) && OverlayStep(d, d', ViewOf(d), maps, SetOf(tail)) && s in d.pending
    requires !InBitmap(d, s) && s !in d.meta && s !in maps && s !in tail
    ensures s in d'.pending && d'.pending[s] == d.pending[s]
  {
  }

  // ---- A rename while a replacement is pending ----

  /** The file was opened for rewriting, and its sector was written. */
  ghost predicate RenameInput(d: Disk, a: string) {
    OneFile(d, a) && 7 in d.pending && d.pending[7] == Filled(2)
  }

  /** The rename goes through, and what was written never gets into the host file: no
      replacement is pending any more, and the host file is not what the guest reads. */
  lemma RenameLosesData(d: Disk, d': Disk, a: string, atari: seq<byte>)
    requires RenameInput(d, a) && Shape(d) && |atari| == 11 && RenameStep(d, d', 0, atari)
    ensures Good(Image(d, {0})) && RenameReady(d, 0, atari) && NameFree(d, 0, Text(Visible(atari)))
    ensures Sound(d') && !HostSeen(d', 0) && !Good(Image(d', {}))
  {
    OneFileGood(d, a);
    RenameSound(d, d', 0, atari);
    RenamedUnseen(d', [7], Text(Visible(atari)));
    if FileStaged(d', 0) {
      SeenFile(d', 0);
      assert false;
    }
  }

  lemma RenamedUnseen(d: Disk, data: seq<sector>, name: string)
    requires Shape(d) && d.sectors == 70 && data == [7] && |d.files| == 1 && d.files[0].data == data
    requires d.files[0].name == name && d.files[0].length == SECTOR && name in d.host && d.host[name] == Filled(1)
    requires 7 in d.pending && d.pending[7] == Filled(2)
    ensures !HostSeen(d, 0)
  {
    SeenFirst(d, data);
    assert Gathered(ViewOf(d), d.sectors, data)[..SECTOR][0] == 2 && Filled(1)[0] == 1;
  }
}
