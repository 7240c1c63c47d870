/** What a guest that writes a good file gets: the commit goes through, and the host file
    is what it wrote. Good means that directory, maps and data are staged as they are in
    a generated image. */
module SdfsGood {
  import opened ByteBits
  import opened SdfsMap
  import opened SdfsDisk
  import opened SdfsNames
  import opened SdfsDirectory
  import opened SdfsEntries
  import opened SdfsCreate
  import opened SdfsAppend
  import opened SdfsReplace
  import opened SdfsImage
  import opened SdfsLive

  // ---- What the guest has staged ----

  /** These maps, for these data sectors, as BuildMap makes them. */
  ghost predicate MapsStaged(d: Disk, maps: seq<sector>, data: seq<sector>) {
    && NoDup(maps) && |maps| == MapCount(|data|) && 0 !in data
    && forall i: nat | i < |maps| :: 4 <= maps[i] && HoldsMap(d.pending, maps, data, i)
  }

  ghost predicate DataStaged(d: Disk, data: seq<sector>) {
    forall s | s in data :: s in d.pending && 4 <= s
  }

  /** Byte x of the file, in the staged sectors. */
  predicate IsStaged(pending: Metadata, data: seq<sector>, x: nat, b: byte) {
    && x / SECTOR < |data| && data[x / SECTOR] in pending && x % SECTOR < |pending[data[x / SECTOR]]|
    && pending[data[x / SECTOR]][x % SECTOR] == b
  }

  lemma StagedChain(d: Disk, maps: seq<sector>, data: seq<sector>)
    requires Shape(d) && MapsStaged(d, maps, data)
    ensures IsChain(ViewOf(d), d.sectors, FirstOf(maps), maps, data) && AllKnown(d, maps)
  {
    forall i: nat | i < |maps| ensures 1 <= maps[i] <= d.sectors && ShowsMap(ViewOf(d), maps, data, i) {
      assert HoldsMap(d.pending, maps, data, i);
    }
    BuiltIsChain(ViewOf(d), d.sectors, maps, data);
  }

  lemma MapsSuffice(n: nat)
    requires n > 0
    ensures 1 <= MapCount(n) <= n
  {
  }

  /** A chain lists one thing only. */
  lemma ChainOnce(view: View, sectors: nat, first: sector, m: seq<sector>, a: seq<sector>, n: seq<sector>,
                  b: seq<sector>)
    requires IsView(view, sectors) && IsChain(view, sectors, first, m, a) && IsChain(view, sectors, first, n, b)
    ensures m == n && a == b
  {
    WholeChain(view, sectors, first, m);
  }

  lemma QueuedByte(d: Disk, data: seq<sector>, x: nat)
    requires Shape(d) && DataStaged(d, data) && AllQueued(d.pending, data) && x < SECTOR * |data|
    ensures IsStaged(d.pending, data, x, Queued(d.pending, data)[x])
  {
    ByteAt(x, |data|);
    assert data[x / SECTOR] in data;
    QueuedAt(d.pending, data, x / SECTOR, x % SECTOR);
  }

  // ---- A create ----

  /** The name that base and extension make. */
  function FullName(base: string, extension: string): string {
    if extension == "" then base else base + "." + extension
  }

  predicate NameParts(base: string, extension: string) {
    1 <= |base| <= 8 && |extension| <= 3 && '.' !in base && Plain(base) && Plain(extension)
  }

  lemma NameShown(base: string, extension: string)
    requires NameParts(base, extension)
    ensures var name := FullName(base, extension);
      && 1 <= Dot(name) <= 8 && |name| <= Dot(name) + 4
      && Atari(name) == Padded(base, 8) + Padded(extension, 3) && Visible(Atari(name)) == Codes(name)
  {
    var name := FullName(base, extension);
    var rest := if extension == "" then "" else "." + extension;
    assert name == base + rest;
    DotOf(base, rest);
    assert name[..|base|] == base;
    assert extension != "" ==> name[|base| + 1..] == extension;
    VisibleAtari(name);
  }

  /** The k-th entry is this file's, closed, and the first such. */
  ghost predicate EntryWritten(d: Disk, k: nat, first: sector, name: seq<byte>, shown: seq<byte>, length: nat)
    requires Shape(d) && |name| == 11
  {
    var dir, o := RootBytes(d), RECORD * (k + 1);
    && o + RECORD <= |dir| && o + RECORD <= Get24(dir, 3)
    && dir[o] == 8 && Get16(dir, o + 1) == first && Get24(dir, o + 3) == length && dir[o + 6..o + 17] == name
    && forall j: nat | j < k :: !Closed(dir, j, first, shown)
  }

  lemma EntryHas(d: Disk, k: nat, first: sector, name: seq<byte>, shown: seq<byte>, length: nat)
    requires Shape(d) && |name| == 11 && EntryWritten(d, k, first, name, shown, length) && Visible(name) == shown
    ensures HasEntry(d, first, shown, length)
  {
    assert EntryAt(RootBytes(d), k, first, shown, length);
  }

  /** The whole file has been staged: its entry is closed, its maps are made as the image
      makes them, its data sectors are distinct and no maps; and its name is free. */
  ghost predicate CreateStaged(d: Disk, base: string, extension: string, k: nat, length: nat, maps: seq<sector>,
                               data: seq<sector>)
    requires Shape(d)
  {
    && NameParts(base, extension) && FullName(base, extension) !in d.host
    && (forall i: nat | i < |d.files| && d.files[i].length > 0 ::
          d.files[i].atari != Padded(base, 8) + Padded(extension, 3))
    && 0 < length && SECTOR * (|data| - 1) < length <= SECTOR * |data|
    && maps != [] && MapsStaged(d, maps, data) && DataStaged(d, data) && NoDup(data)
    && (forall s | s in data :: s !in maps)
    && EntryWritten(d, k, maps[0], Padded(base, 8) + Padded(extension, 3), Codes(FullName(base, extension)), length)
  }

  lemma CreateNamed(d: Disk, base: string, extension: string, k: nat, length: nat, maps: seq<sector>,
                    data: seq<sector>)
    requires Shape(d) && CreateStaged(d, base, extension, k, length, maps, data)
    ensures var name := FullName(base, extension);
      && 1 <= Dot(name) <= 8 && |name| <= Dot(name) + 4 && name !in d.host && NotShown(d, name)
      && HasEntry(d, maps[0], Codes(name), length)
  {
    NameShown(base, extension);
    EntryHas(d, k, maps[0], Padded(base, 8) + Padded(extension, 3), Codes(FullName(base, extension)), length);
  }

  lemma CreateChain(d: Disk, base: string, extension: string, k: nat, length: nat, maps: seq<sector>,
                    data: seq<sector>)
    requires Shape(d) && CreateStaged(d, base, extension, k, length, maps, data)
    ensures IsChain(ViewOf(d), d.sectors, maps[0], maps, data) && AllKnown(d, maps)
    ensures 1 <= |maps| <= |data| + 1 && Suffice(|data|, length)
  {
    StagedChain(d, maps, data);
    MapsSuffice(|data|);
  }

  lemma CreateHolds(d: Disk, base: string, extension: string, k: nat, length: nat, maps: seq<sector>,
                    data: seq<sector>)
    requires Shape(d) && CreateStaged(d, base, extension, k, length, maps, data)
    ensures CreateAsked(d, FullName(base, extension), maps[0], length, maps, data)
  {
    CreateNamed(d, base, extension, k, length, maps, data);
    CreateChain(d, base, extension, k, length, maps, data);
  }

  /** The host file holds the staged bytes; the other host files stay. */
  ghost predicate HostIs(d: Disk, d': Disk, name: string, length: nat, data: seq<sector>) {
    && name in d'.host && |d'.host[name]| == length
    && (forall x: nat | x < length :: IsStaged(d.pending, data, x, d'.host[name][x]))
    && forall n | n in d.host && n != name :: n in d'.host && d'.host[n] == d.host[n]
  }

  lemma HostBytes(d: Disk, d': Disk, name: string, length: nat, data: seq<sector>)
    requires Shape(d) && DataStaged(d, data) && AllQueued(d.pending, data) && length <= SECTOR * |data|
    requires d'.host == d.host[name := Queued(d.pending, data)[..length]]
    ensures HostIs(d, d', name, length, data)
  {
    forall x: nat | x < length ensures IsStaged(d.pending, data, x, d'.host[name][x]) {
      QueuedByte(d, data, x);
    }
  }

  lemma CreateGives(d: Disk, d': Disk, name: string, length: nat, maps: seq<sector>, data: seq<sector>)
    requires Shape(d) && CreateStep(d, d', name, length, maps, data) && DataStaged(d, data)
    ensures HostIs(d, d', name, length, data)
    ensures d'.files == d.files + [File(name, Atari(name), length, data, maps)]
  {
    HostBytes(d, d', name, length, data);
  }

  /** A file of any length and any number of maps, staged in any order: the create goes
      through, with those sectors, and the host has what was written. */
  method GoodCreate(image: SdfsImage, base: string, extension: string, k: nat, length: nat, order: seq<sector>,
                    maps: seq<sector>, data: seq<sector>) returns (r: int, m: seq<sector>, listed: seq<sector>)
    requires Shape(image.Abs()) && image.IsOrder(order)
    requires CreateStaged(image.Abs(), base, extension, k, length, maps, data)
    modifies image
    ensures r == 1 && m == maps && listed == data
    ensures image.files == old(image.files) +
      [File(FullName(base, extension), Padded(base, 8) + Padded(extension, 3), length, data, maps)]
    ensures HostIs(old(image.Abs()), image.Abs(), FullName(base, extension), length, data)
  {
    ghost var d := image.Abs();
    var name := FullName(base, extension);
    CreateHolds(d, base, extension, k, length, maps, data);
    CreateAsks(d, name, maps[0], length, order, maps, data);
    r, m, listed := image.CommitCreate(name, maps[0], length, order);
    CreateChain(d, base, extension, k, length, maps, data);
    ChainOnce(ViewOf(d), d.sectors, maps[0], maps, data, m, listed);
    CreateGives(d, image.Abs(), name, length, maps, data);
    NameShown(base, extension);
  }

  // ---- An append ----

  /** The chain as the guest reads it: the file's own maps, and new ones, that list its
      data and the new sectors. */
  ghost predicate MapsGoOn(d: Disk, file: File, maps: seq<sector>, added: seq<sector>)
    requires Shape(d)
  {
    && NoDup(maps) && OnDisk(maps, d.sectors) && |maps| == MapCount(|file.data + added|) && file.maps <= maps
    && 0 !in file.data + added && (forall i: nat | i < |maps| :: ShowsMap(ViewOf(d), maps, file.data + added, i))
    && forall i: nat | |file.maps| <= i < |maps| :: maps[i] in d.pending && !d.inUse[maps[i]]
  }

  lemma GoesOnChain(d: Disk, file: File, maps: seq<sector>, added: seq<sector>)
    requires Shape(d) && MapsGoOn(d, file, maps, added)
    ensures IsChain(ViewOf(d), d.sectors, FirstOf(maps), maps, file.data + added)
    ensures AllKnown(d, maps[|file.maps|..]) && NoneInUse(d, maps[|file.maps|..])
  {
    BuiltIsChain(ViewOf(d), d.sectors, maps, file.data + added);
  }

  predicate AddedStaged(d: Disk, maps: seq<sector>, added: seq<sector>) {
    forall s | s in added :: s in d.pending && 4 <= s < |d.inUse| && !d.inUse[s] && s !in maps
  }

  /** The file's entry has its new length, its last sector is staged if it was not full,
      and so are the new ones, which are free and distinct. */
  ghost predicate AppendStaged(d: Disk, f: nat, k: nat, newLength: nat, maps: seq<sector>, added: seq<sector>)
    requires Shape(d) && f < |d.files|
  {
    var file := d.files[f];
    && file.maps != [] && file.data != [] && file.length < newLength && file.atari[0] != BLANK
    && SECTOR * (|file.data| - 1) < file.length <= SECTOR * |file.data|
    && SECTOR * (|file.data + added| - 1) < newLength <= SECTOR * |file.data + added|
    && EntryWritten(d, k, file.maps[0], file.atari, VisibleName(file.atari), newLength)
    && MapsGoOn(d, file, maps, added) && AddedStaged(d, maps, added) && NoDup(added)
    && (file.length % SECTOR != 0 ==> LastStaged(d, file))
  }

  predicate LastStaged(d: Disk, file: File) {
    file.data != [] && 4 <= file.data[|file.data| - 1] && file.data[|file.data| - 1] in d.pending
  }

  /** What was noted when the entry got its new length. */
  function Noted(file: File, f: nat, newLength: nat): PendingAppend
    requires file.maps != [] && file.data != []
  {
    PendingAppend(f, file.name, file.maps[0], file.length, newLength,
                  if file.length % SECTOR != 0 then file.data[|file.data| - 1] else 0, file.length % SECTOR,
                  file.data, file.maps)
  }

  lemma OwnName(d: Disk, k: nat, first: sector, name: seq<byte>, length: nat)
    requires Shape(d) && |name| == 11 && name[0] != BLANK
    requires EntryWritten(d, k, first, name, VisibleName(name), length)
    ensures HasEntry(d, first, VisibleName(name), length)
  {
    assert name[..8][0] != BLANK;
    EntryHas(d, k, first, name, VisibleName(name), length);
  }

  lemma AppendHolds(d: Disk, f: nat, k: nat, newLength: nat, maps: seq<sector>, added: seq<sector>)
    requires Shape(d) && f < |d.files| && AppendStaged(d, f, k, newLength, maps, added)
    ensures AppendAsked(d, Noted(d.files[f], f, newLength), maps, added)
  {
    var file := d.files[f];
    GoesOnChain(d, file, maps, added);
    OwnName(d, k, file.maps[0], file.atari, newLength);
    AddedAsked(d, maps, added);
  }

  lemma AddedAsked(d: Disk, maps: seq<sector>, added: seq<sector>)
    requires AddedStaged(d, maps, added)
    ensures NoneInUse(d, added) && forall s | s in added :: s in d.pending && s !in maps
  {
  }

  /** The host file keeps its bytes up to its last full sector; behind that it holds the
      staged ones. */
  ghost predicate HostGrows(d: Disk, d': Disk, file: File, newLength: nat, all: seq<sector>)
    requires file.name in d.host && |d.host[file.name]| == file.length
  {
    && file.name in d'.host && |d'.host[file.name]| == newLength
    && (forall x: nat | x < newLength :: GrownByte(d.pending, d.host[file.name], all, x, d'.host[file.name][x]))
    && forall n | n in d.host && n != file.name :: n in d'.host && d'.host[n] == d.host[n]
  }

  predicate GrownByte(pending: Metadata, was: seq<byte>, all: seq<sector>, x: nat, b: byte) {
    if x / SECTOR < |was| / SECTOR then b == was[x] else IsStaged(pending, all, x, b)
  }

  lemma GrownAt(pending: Metadata, content: seq<byte>, data: seq<sector>, added: seq<sector>, newLength: nat, x: nat)
    requires AllQueued(pending, Tail(data, |content|, added)) && |data| == Needed(|content|)
    requires |content| < newLength && |data| + |added| == Needed(newLength) && x < newLength
    requires forall s | s in Tail(data, |content|, added) :: s in pending && |pending[s]| == SECTOR
    ensures |Grown(content, pending, data, added, newLength)| == newLength
    ensures GrownByte(pending, content, data + added, x, Grown(content, pending, data, added, newLength)[x])
  {
    var i, o, all := x / SECTOR, x % SECTOR, data + added;
    NeededFits(newLength, |all|);
    ByteAt(x, |all|);
    GrownPart(content, pending, data, added, newLength, i, o);
    TailLength(|content|, data, added, newLength);
    if i >= |content| / SECTOR {
      TailAt(data, |content|, added, i);
    }
  }

  lemma AppendGives(d: Disk, d': Disk, f: nat, newLength: nat, maps: seq<sector>, added: seq<sector>)
    requires Shape(d) && AppendStep(d, d', f, newLength, maps, added) && AddedStaged(d, maps, added)
    requires d.files[f].length % SECTOR != 0 ==> LastStaged(d, d.files[f])
    ensures HostGrows(d, d', d.files[f], newLength, d.files[f].data + added)
    ensures d'.files == d.files[f := d.files[f].(length := newLength, data := d.files[f].data + added, maps := maps)]
  {
    var file := d.files[f];
    forall s | s in Tail(file.data, file.length, added) ensures s in d.pending && |d.pending[s]| == SECTOR {
      assert s in added || s == file.data[|file.data| - 1];
    }
    GrownLength(d.host[file.name], d.pending, file.data, added, newLength);
    forall x: nat | x < newLength
      ensures GrownByte(d.pending, d.host[file.name], file.data + added, x, d'.host[file.name][x])
    {
      GrownAt(d.pending, d.host[file.name], file.data, added, newLength, x);
    }
  }

  /** An append of any length, with any number of new maps: it goes through, with those
      sectors, and the host file has what was written. */
  method GoodAppend(image: SdfsImage, f: nat, k: nat, newLength: nat, maps: seq<sector>, added: seq<sector>)
    returns (r: int, m: seq<sector>, a: seq<sector>)
    requires Shape(image.Abs()) && f < |image.files| && AppendStaged(image.Abs(), f, k, newLength, maps, added)
    modifies image
    ensures r == 1 && m == maps && a == added
    ensures image.files == old(image.files)[f := old(image.files[f])
              .(length := newLength, data := old(image.files[f].data) + added, maps := maps)]
    ensures old(image.files[f].name in image.host && |image.host[image.files[f].name]| == image.files[f].length)
    ensures HostGrows(old(image.Abs()), image.Abs(), old(image.files[f]), newLength, old(image.files[f].data) + added)
  {
    ghost var d := image.Abs();
    var pend := Noted(image.files[f], f, newLength);
    AppendHolds(d, f, k, newLength, maps, added);
    AppendAsks(d, pend, maps, added);
    r, m, a := image.CommitAppend(pend);
    GoesOnChain(d, d.files[f], maps, added);
    SameAdded(d, f, maps, added, m, a);
    AppendGives(d, image.Abs(), f, newLength, maps, added);
  }

  lemma SameAdded(d: Disk, f: nat, maps: seq<sector>, added: seq<sector>, m: seq<sector>, a: seq<sector>)
    requires Shape(d) && f < |d.files| && d.files[f].maps != [] && d.files[f].maps <= maps
    requires IsChain(ViewOf(d), d.sectors, d.files[f].maps[0], maps, d.files[f].data + added)
    requires IsChain(ViewOf(d), d.sectors, d.files[f].maps[0], m, d.files[f].data + a)
    ensures m == maps && a == added
  {
    var data := d.files[f].data;
    ChainOnce(ViewOf(d), d.sectors, d.files[f].maps[0], maps, data + added, m, data + a);
    assert added == (data + added)[|data|..] == (data + a)[|data|..] == a;
  }

  // ---- A replacement ----

  /** The reopened file's entry is closed again; maps and data are staged, and no sector
      of them is another file's. */
  ghost predicate ReplaceStaged(d: Disk, f: nat, k: nat, length: nat, maps: seq<sector>, data: seq<sector>)
    requires Shape(d) && f < |d.files|
  {
    var file := d.files[f];
    && maps != [] && file.maps != [] && file.maps[0] == maps[0] && file.atari[0] != BLANK
    && 0 < length && SECTOR * (|data| - 1) < length <= SECTOR * |data|
    && EntryWritten(d, k, maps[0], file.atari, VisibleName(file.atari), length)
    && MapsStaged(d, maps, data) && DataStaged(d, data)
    && forall s | (s in data || s in maps) && s in d.refs :: d.refs[s].file == f
  }

  lemma ReplaceHolds(d: Disk, f: nat, k: nat, length: nat, maps: seq<sector>, data: seq<sector>)
    requires Shape(d) && f < |d.files| && ReplaceStaged(d, f, k, length, maps, data)
    ensures ReplaceAsked(d, f, d.files[f].name, maps[0], length, maps, data)
    ensures IsChain(ViewOf(d), d.sectors, maps[0], maps, data)
  {
    StagedChain(d, maps, data);
    OwnName(d, k, maps[0], d.files[f].atari, length);
  }

  lemma ReplaceGives(d: Disk, d': Disk, f: nat, length: nat, maps: seq<sector>, data: seq<sector>)
    requires Shape(d) && ReplaceStep(d, d', f, length, maps, data) && DataStaged(d, data)
    ensures HostIs(d, d', d.files[f].name, length, data)
    ensures d'.files == d.files[f := d.files[f].(length := length, data := data, maps := maps)]
  {
    HostBytes(d, d', d.files[f].name, length, data);
  }

  /** New contents of any length, with any number of maps: the replacement goes through,
      and the host file has what was written. */
  method GoodReplacement(image: SdfsImage, f: nat, k: nat, length: nat, maps: seq<sector>, data: seq<sector>)
    returns (r: int, n: nat, m: seq<sector>, listed: seq<sector>)
    requires Shape(image.Abs()) && f < |image.files| && ReplaceStaged(image.Abs(), f, k, length, maps, data)
    modifies image
    ensures r == 1 && n == length && m == maps && listed == data
    ensures image.files == old(image.files)[f := old(image.files[f]).(length := length, data := data, maps := maps)]
    ensures HostIs(old(image.Abs()), image.Abs(), old(image.files[f].name), length, data)
  {
    ghost var d := image.Abs();
    ReplaceHolds(d, f, k, length, maps, data);
    ReplaceAsks(d, f, d.files[f].name, maps[0], length, maps, data);
    r, n, m, listed := image.CommitReplacement(f, image.files[f].name, maps[0]);
    ChainOnce(ViewOf(d), d.sectors, maps[0], maps, data, m, listed);
    ReplaceGives(d, image.Abs(), f, length, maps, data);
  }
}
