/** The image object: its writes and commits, as the code runs them. */
module SdfsImage {
  import opened ByteBits
  import opened Options
  import opened SdfsMap
  import opened SdfsDisk
  import opened SdfsBitmap
  import opened SdfsNames
  import opened SdfsEntries
  import opened SdfsCreate
  import opened SdfsAppend
  import opened SdfsReplace
  import opened SdfsWrite
  import opened SdfsDelete
  import opened SdfsRename

  const EIO: int := 5
  const EROFS: int := 30
  const EEXIST: int := 17

  // ---- What the commits ask for ----

  /** A file that is not deleted has this name in the directory. */
  predicate Inventoried(d: Disk, name: string) {
    IsShortName(name) && exists i | 0 <= i < |d.files| :: d.files[i].length > 0 && d.files[i].atari == Atari(name)
  }

  function Known(d: Disk): set<sector> {
    d.meta.Keys + d.pending.Keys
  }

  /** A create goes through with these maps and these data sectors. */
  ghost predicate CreateReady(d: Disk, name: string, mapSector: sector, length: nat, order: seq<sector>,
                              maps: seq<sector>, listed: seq<sector>)
    requires Shape(d)
  {
    && Finished(d, mapSector, Codes(name)) == Some(length) && length <= 0xff_ffff && !Inventoried(d, name)
    && IsChain(ViewOf(d), d.sectors, mapSector, maps, listed) && MapsKnown(Known(d), 0, maps)
    && |listed| == Needed(length) && 0 < |maps| <= |listed| + 1 && |Observed(order, listed, maps)| >= |listed|
    && IsShortName(name) && name !in d.host
  }

  /** The file is still as it was when the entry changed. */
  predicate AppendCurrent(d: Disk, pend: PendingAppend) {
    && pend.file < |d.files|
    && var file := d.files[pend.file];
       && file.name == pend.name && file.length == pend.oldLength && file.maps == pend.oldMaps
       && file.maps != [] && file.maps[0] == pend.mapSector && file.data == pend.oldData
       && file.length < pend.newLength <= 0xff_ffff
  }

  predicate AnyInUse(d: Disk, ss: seq<sector>) {
    exists s | s in ss :: s < |d.inUse| && d.inUse[s]
  }

  /** An append goes through with these maps and new sectors. */
  ghost predicate AppendReady(d: Disk, pend: PendingAppend, maps: seq<sector>, added: seq<sector>)
    requires Shape(d)
  {
    && AppendCurrent(d, pend)
    && var file := d.files[pend.file];
       && IsChain(ViewOf(d), d.sectors, pend.mapSector, maps, file.data + added)
       && MapsKnown(Known(d), |file.maps|, maps) && file.maps <= maps
       && |file.data| == Needed(file.length) && |file.data| + |added| == Needed(pend.newLength)
       && NoDup(added) && (forall s | s in added :: s !in maps && s in d.pending)
       && Finished(d, pend.mapSector, VisibleName(file.atari)) == Some(pend.newLength)
       && TailReady(d, file, pend)
       && (added != [] ==> !AnyInUse(d, maps[|file.maps|..]) && !AnyInUse(d, added))
  }

  /** A last sector that is not full has been written again; it is the one that was
      noted when the entry changed. */
  predicate TailReady(d: Disk, file: File, pend: PendingAppend) {
    file.length % SECTOR != 0 && file.data != [] ==>
      var tail := file.data[|file.data| - 1];
      && pend.tailSector == tail && pend.tailOffset == file.length % SECTOR
      && tail in d.pending && |d.pending[tail]| == SECTOR
  }

  /** A replacement goes through with these maps and data sectors. */
  ghost predicate ReplaceReady(d: Disk, f: nat, name: string, mapSector: sector, length: nat, maps: seq<sector>,
                               listed: seq<sector>)
    requires Shape(d)
  {
    && f < |d.files| && d.files[f].name == name && d.files[f].maps != [] && d.files[f].maps[0] == mapSector
    && Finished(d, mapSector, VisibleName(d.files[f].atari)) == Some(length)
    && IsChain(ViewOf(d), d.sectors, mapSector, maps, listed) && MapsKnown(Known(d), |d.files[f].maps|, maps)
    && |listed| == Needed(length) && maps != []
    && (forall s | s in listed :: s in d.pending && |d.pending[s]| == SECTOR)
    && (forall s | s in listed + maps && s in d.refs :: d.refs[s].file == f)
  }

  datatype PendingAppend = PendingAppend(file: nat, name: string, mapSector: sector, oldLength: nat, newLength: nat,
                                         tailSector: sector, tailOffset: nat, oldData: seq<sector>,
                                         oldMaps: seq<sector>)

  lemma AddedOnDisk(d: Disk, data: seq<sector>, length: nat, added: seq<sector>)
    requires Shape(d) && AllQueued(d.pending, Tail(data, length, added))
    ensures OnDisk(added, d.sectors)
  {
    var tail := Tail(data, length, added);
    forall i: nat | i < |added| ensures 1 <= added[i] <= d.sectors {
      assert tail[|tail| - |added| + i] == added[i];
    }
  }

  lemma TailQueued(pending: Metadata, data: seq<sector>, length: nat, added: seq<sector>)
    requires forall s | s in added :: s in pending
    requires length % SECTOR != 0 && data != [] ==> data[|data| - 1] in pending
    ensures AllQueued(pending, Tail(data, length, added))
  {
  }

  /** These are in use, too. */
  ghost predicate Marked(was: seq<bool>, now: seq<bool>, listed: seq<sector>) {
    |now| == |was| && forall s: nat | s < |was| :: now[s] == (was[s] || s in listed)
  }

  lemma MarkedMore(was: seq<bool>, now: seq<bool>, listed: seq<sector>, n: nat)
    requires n < |listed| && Marked(was, now, listed[..n]) && listed[n] < |was|
    ensures Marked(was, now[listed[n] := true], listed[..n + 1])
  {
    assert listed[..n + 1] == listed[..n] + [listed[n]];
  }

  lemma UsedOn(inUse: seq<bool>, s: nat)
    requires s < |inUse| && !inUse[s]
    ensures |Used(inUse[s := true])| == |Used(inUse)| + 1
  {
    assert Used(inUse[s := true]) == Used(inUse) + {s};
  }

  lemma UsedOff(inUse: seq<bool>, s: nat)
    requires s < |inUse| && inUse[s]
    ensures |Used(inUse[s := false])| == |Used(inUse)| - 1
  {
    assert Used(inUse) == Used(inUse[s := false]) + {s};
  }

  lemma EnteredParts(d: Disk, c: Disk, e: Disk, file: File, contents: seq<byte>)
    requires Shape(d) && AllQueued(d.pending, file.data) && file.length <= SECTOR * |file.data| && file.name !in d.host
    requires contents == Queued(d.pending, file.data)[..file.length]
    requires c == d.(files := d.files + [file], host := d.host[file.name := contents])
    requires file.atari == Atari(file.name)
    requires SectorsTaken(c, e, ViewOf(d), |d.files|, 0, file.maps, file.data, file.maps)
    ensures Entered(d, e, file.name, file.length, file.maps, file.data)
  {
  }

  class SdfsImage {
    const sectors: nat
    const bitmapStart: nat
    const bitmapSectors: nat
    /** The root directory's data sectors, and its maps, of which only the first is
        looked at again. */
    const rootData: seq<sector>
    const rootMaps: seq<sector>
    var inUse: seq<bool>
    var useCount: int
    var refs: map<sector, Ref>
    var bitmap: seq<byte>
    var meta: Metadata
    var pending: Metadata
    var files: seq<File>
    var host: map<string, seq<byte>>

    function Abs(): Disk
      reads this
    {
      Disk(sectors, bitmapStart, bitmapSectors, rootData, rootMaps, inUse, useCount, refs, bitmap, meta, pending, files,
           host)
    }

    constructor (d: Disk)
      ensures Abs() == d
    {
      sectors, bitmapStart, bitmapSectors := d.sectors, d.bitmapStart, d.bitmapSectors;
      rootData, rootMaps := d.rootData, d.rootMaps;
      inUse, useCount, refs, bitmap := d.inUse, d.useCount, d.refs, d.bitmap;
      meta, pending, files, host := d.meta, d.pending, d.files, d.host;
    }

    /** order: the queued sectors in the order of their first writes. */
    ghost predicate IsOrder(order: seq<sector>)
      reads this
    {
      NoDup(order) && forall s :: s in order <==> s in pending
    }

    /** 1: committed, 0: not yet, less: refused. It goes through exactly if there are
        maps and sectors that it asks for. */
    method CommitCreate(name: string, mapSector: sector, pendingLength: nat, order: seq<sector>)
      returns (r: int, maps: seq<sector>, listed: seq<sector>)
      requires Shape(Abs()) && IsOrder(order)
      modifies this
      ensures r in {1, 0, 0 - EROFS} && (r != 1 ==> Abs() == old(Abs()))
      ensures r == 1 ==>
        && CreateReady(old(Abs()), name, mapSector, pendingLength, order, maps, listed)
        && CreateStep(old(Abs()), Abs(), name, pendingLength, maps, listed)
      ensures forall m, l | CreateReady(old(Abs()), name, mapSector, pendingLength, order, m, l) :: r == 1
    {
      r, maps, listed := PlanCreate(name, mapSector, pendingLength, order);
      if r == 1 {
        Pigeonhole(order, listed, maps);
        assert AllQueued(pending, listed);
        NeededFits(pendingLength, |listed|);
        var contents := WriteOut(listed, pendingLength);
        Enter(File(name, Atari(name), pendingLength, listed, maps), contents);
      }
    }

    method PlanCreate(name: string, mapSector: sector, pendingLength: nat, order: seq<sector>)
      returns (r: int, maps: seq<sector>, listed: seq<sector>)
      requires Shape(Abs())
      ensures r in {1, 0, 0 - EROFS}
      ensures r == 1 ==> CreateReady(Abs(), name, mapSector, pendingLength, order, maps, listed)
      ensures forall m, l | CreateReady(Abs(), name, mapSector, pendingLength, order, m, l) :: r == 1
    {
      maps, listed := [], [];
      var final := FinalEntry(mapSector, Codes(name));
      if final.None? {
        return 0, maps, listed;
      }
      var length := final.value;
      if length > 0xff_ffff || length != pendingLength || Inventoried(Abs(), name) {
        return 0 - EROFS, maps, listed;
      }
      var walk := ReadMapChain(ViewOf(Abs()), sectors, meta.Keys + pending.Keys, 0, mapSector);
      match walk
      case Bad => return 0 - EROFS, maps, listed;
      case Incomplete => return 0, maps, listed;
      case Chain(m, l) =>
        maps, listed := m, l;
        var required := Needed(length);
        if |listed| < required {
          return 0, maps, listed;
        }
        if |listed| != required || maps == [] || |maps| > required + 1 {
          return 0 - EROFS, maps, listed;
        }
        var observed := ObservedWrites(order, listed, maps);
        if |observed| < |listed| {
          return 0, maps, listed;
        }
        if !IsShortName(name) || name in host {
          return 0 - EROFS, maps, listed;
        }
        r := 1;
    }

    /** The finished entry in the root directory as the guest reads it. */
    method FinalEntry(mapSector: sector, name: seq<byte>) returns (final: Option<nat>)
      requires Shape(Abs())
      ensures final == Finished(Abs(), mapSector, name)
    {
      if rootData == [] {
        return None;
      }
      var dir: seq<byte> := [];
      for i := 0 to |rootData|
        invariant OnDisk(rootData[..i], sectors) && dir == Gathered(ViewOf(Abs()), sectors, rootData[..i])
      {
        assert rootData[..i + 1][..i] == rootData[..i];
        dir := dir + Whole(Abs(), rootData[i]);
      }
      assert rootData[..|rootData|] == rootData;
      final := FindFinished(dir, mapSector, name);
    }

    // ---- Writes ----

    /** Staged, and written through unless a replacement of the file is pending. */
    method Write(s: nat, b: seq<byte>, replacements: seq<nat>) returns (r: int)
      requires Shape(Abs()) && (1 <= s <= sectors ==> |b| == Size(s))
      modifies this
      ensures r == 0 - EIO <==> !(1 <= s <= sectors)
      ensures r == 0 - EIO ==> Abs() == old(Abs())
      ensures r != 0 - EIO ==> WriteStep(old(Abs()), Abs(), (set f | f in replacements), s, b)
      ensures r == 0 - EROFS <==>
        && 1 <= s <= sectors && s in refs && refs[s].file !in replacements
        && SECTOR * refs[s].index >= files[refs[s].file].length
      ensures r in {0, 0 - EIO, 0 - EROFS}
    {
      if s == 0 || s > sectors {
        return 0 - EIO;
      }
      pending := pending[s := b];
      if s in refs {
        var ref := refs[s];
        var replacing := false;
        for i := 0 to |replacements|
          invariant replacing == (ref.file in replacements[..i])
        {
          assert replacements[..i + 1] == replacements[..i] + [replacements[i]];
          replacing := replacing || replacements[i] == ref.file;
        }
        assert replacements[..|replacements|] == replacements;
        if !replacing {
          var file := files[ref.file];
          if SECTOR * ref.index >= file.length {
            return 0 - EROFS;
          }
          assert FileOk(old(Abs()), file);
          host := host[file.name := Overlaid(host[file.name], ref.index, b)];
        }
      }
      r := 0;
    }

    method ObservedWrites(order: seq<sector>, listed: seq<sector>, maps: seq<sector>) returns (observed: seq<sector>)
      ensures observed == Observed(order, listed, maps)
    {
      observed := [];
      for i := 0 to |order|
        invariant observed == Observed(order[..i], listed, maps)
      {
        assert order[..i + 1][..i] == order[..i];
        if order[i] in listed && order[i] !in maps {
          observed := observed + [order[i]];
        }
      }
      assert order[..|order|] == order;
    }

    /** The queued sectors, written one after the other to the host file. */
    method WriteOut(listed: seq<sector>, length: nat) returns (contents: seq<byte>)
      requires AllQueued(pending, listed) && length <= SECTOR * |listed| && |listed| == Needed(length)
      ensures contents == Queued(pending, listed)[..length]
    {
      contents := [];
      NeededFits(length, |listed|);
      for i := 0 to |listed|
        invariant AllQueued(pending, listed[..i])
        invariant contents == Queued(pending, listed[..i])[..if SECTOR * i < length then SECTOR * i else length]
      {
        assert listed[..i + 1][..i] == listed[..i];
        var offset := |contents|;
        var count := if SECTOR < length - offset then SECTOR else length - offset;
        contents := contents + Fit(pending[listed[i]], SECTOR)[..count];
      }
      assert listed[..|listed|] == listed;
    }

    /** The new file, its sectors, and what the overlay holds of metadata. */
    method Enter(file: File, contents: seq<byte>)
      requires Shape(Abs()) && AllQueued(pending, file.data) && NoDup(file.data) && file.name !in host
      requires OnDisk(file.maps, sectors) && file.length <= SECTOR * |file.data|
      requires file.atari == Atari(file.name)
      requires contents == Queued(pending, file.data)[..file.length]
      modifies this
      ensures CreateStep(old(Abs()), Abs(), file.name, file.length, file.maps, file.data)
    {
      var d := Abs();
      host := host[file.name := contents];
      files := files + [file];
      ghost var c := Abs();
      TakeSectors(|files| - 1, 0, file.maps, file.data, file.maps, ViewOf(d));
      ghost var e := Abs();
      EnteredParts(d, c, e, file, contents);
      TakeOver(file.data);
      BothHalves(d, e, Abs(), file.name, file.length, file.maps, file.data);
    }

    method MarkData(listed: seq<sector>, fileIndex: nat, from: nat)
      requires |inUse| == sectors + 1 && OnDisk(listed, sectors) && NoDup(listed)
      modifies `inUse, `useCount, `refs
      ensures useCount == old(useCount) + |listed| && Marked(old(inUse), inUse, listed)
      ensures RefsAdded(old(refs), refs, fileIndex, from, listed)
    {
      for i := 0 to |listed|
        invariant useCount == old(useCount) + i && Marked(old(inUse), inUse, listed[..i])
        invariant RefsAdded(old(refs), refs, fileIndex, from, listed[..i])
      {
        RefsMore(old(refs), refs, fileIndex, from, listed, i);
        MarkedMore(old(inUse), inUse, listed, i);
        inUse := inUse[listed[i] := true];
        refs := refs[listed[i] := Ref(fileIndex, from + i)];
        useCount := useCount + 1;
      }
      assert listed[..|listed|] == listed;
    }

    method MarkMaps(maps: seq<sector>)
      requires |inUse| == sectors + 1 && OnDisk(maps, sectors)
      modifies `inUse, `useCount
      ensures |inUse| == old(|inUse|) && useCount == old(useCount) + |maps|
      ensures forall s: nat | s < |inUse| :: inUse[s] == (old(inUse[s]) || s in maps)
    {
      for i := 0 to |maps|
        invariant |inUse| == sectors + 1 && useCount == old(useCount) + i
        invariant forall s: nat | s < |inUse| :: inUse[s] == (old(inUse[s]) || s in maps[..i])
      {
        assert maps[..i + 1] == maps[..i] + [maps[i]];
        inUse := inUse[maps[i] := true];
        useCount := useCount + 1;
      }
      assert maps[..|maps|] == maps;
    }

    /** The maps as the guest has written them become metadata. */
    method SetMaps(maps: seq<sector>, view: View)
      modifies `meta
      ensures forall s :: s in meta <==> s in old(meta) || s in maps
      ensures forall s | s in meta :: meta[s] == if s in maps then view(s) else old(meta)[s]
    {
      for i := 0 to |maps|
        invariant forall s :: s in meta <==> s in old(meta) || s in maps[..i]
        invariant forall s | s in meta :: meta[s] == if s in maps[..i] then view(s) else old(meta)[s]
      {
        assert maps[..i + 1] == maps[..i] + [maps[i]];
        meta := meta[maps[i] := view(maps[i])];
      }
      assert maps[..|maps|] == maps;
    }

    // ---- Append ----

    method CommitAppend(pend: PendingAppend) returns (r: int, maps: seq<sector>, added: seq<sector>)
      requires Shape(Abs())
      modifies this
      ensures r in {1, 0, 0 - EROFS} && (r != 1 ==> Abs() == old(Abs()))
      ensures r == 1 ==>
        && AppendReady(old(Abs()), pend, maps, added)
        && AppendStep(old(Abs()), Abs(), pend.file, pend.newLength, maps, added)
      ensures forall m, a | AppendReady(old(Abs()), pend, m, a) :: r == 1
    {
      r, maps, added := PlanAppend(pend);
      if r == 1 {
        GrowAsPlanned(pend, maps, added);
      }
    }

    method GrowAsPlanned(pend: PendingAppend, maps: seq<sector>, added: seq<sector>)
      requires Shape(Abs()) && AppendReady(Abs(), pend, maps, added)
      modifies this
      ensures AppendStep(old(Abs()), Abs(), pend.file, pend.newLength, maps, added)
    {
      TailQueued(pending, files[pend.file].data, files[pend.file].length, added);
      Grow(pend.file, pend.newLength, maps, added);
    }

    method PlanAppend(pend: PendingAppend) returns (r: int, maps: seq<sector>, added: seq<sector>)
      requires Shape(Abs())
      ensures r in {1, 0, 0 - EROFS} && (r == 1 ==> AppendReady(Abs(), pend, maps, added))
      ensures forall m, a | AppendReady(Abs(), pend, m, a) :: r == 1
    {
      maps, added := [], [];
      if !AppendCurrent(Abs(), pend) {
        return 0 - EROFS, maps, added;
      }
      var file := files[pend.file];
      var walk := ReadMapChain(ViewOf(Abs()), sectors, meta.Keys + pending.Keys, |file.maps|, pend.mapSector);
      match walk
      case Bad => return 0 - EROFS, maps, added;
      case Incomplete => return 0, maps, added;
      case Chain(m, l) =>
        maps := m;
        r, added := CheckChain(pend, m, l);
        forall m', a | AppendReady(Abs(), pend, m', a) ensures r == 1 {
          assert Chain(m', file.data + a) == walk;
        }
    }

    /** The checks on the chain: the old maps and sectors, and then new ones. */
    method CheckChain(pend: PendingAppend, maps: seq<sector>, listed: seq<sector>)
      returns (r: int, added: seq<sector>)
      requires Shape(Abs()) && AppendCurrent(Abs(), pend)
      requires IsChain(ViewOf(Abs()), sectors, pend.mapSector, maps, listed)
      requires MapsKnown(meta.Keys + pending.Keys, |files[pend.file].maps|, maps)
      ensures r in {1, 0, 0 - EROFS} && (r == 1 ==> AppendReady(Abs(), pend, maps, added))
      ensures forall a | listed == files[pend.file].data + a && AppendReady(Abs(), pend, maps, a) :: r == 1
    {
      added := [];
      var file := files[pend.file];
      if |maps| < |file.maps| || |listed| < Needed(pend.newLength) {
        return 0, added;
      }
      if !(file.maps <= maps) || !(file.data <= listed) || |listed| != Needed(pend.newLength) {
        return 0 - EROFS, added;
      }
      added := listed[|file.data|..];
      assert listed == file.data + added;
      r := CheckAdded(pend, maps, added);
      forall a | listed == file.data + a && AppendReady(Abs(), pend, maps, a) ensures r == 1 {
        assert a == (file.data + a)[|file.data|..] == added;
      }
    }

    /** The checks after the chain. */
    method CheckAdded(pend: PendingAppend, maps: seq<sector>, added: seq<sector>) returns (r: int)
      requires Shape(Abs()) && AppendCurrent(Abs(), pend) && files[pend.file].maps <= maps
      requires |files[pend.file].data| + |added| == Needed(pend.newLength)
      ensures r in {1, 0, 0 - EROFS}
      ensures r == 1 <==>
        && var file := files[pend.file];
          && |file.data| == Needed(file.length) && NoDup(added)
          && (forall s | s in added :: s !in maps && s in pending)
          && Finished(Abs(), pend.mapSector, VisibleName(file.atari)) == Some(pend.newLength)
          && TailReady(Abs(), file, pend)
          && (added != [] ==> !AnyInUse(Abs(), maps[|file.maps|..]) && !AnyInUse(Abs(), added))
    {
      var file := files[pend.file];
      if !(forall i, j | 0 <= i < j < |added| :: added[i] != added[j]) || exists s | s in added :: s in maps {
        return 0 - EROFS;
      }
      if |added| != Needed(pend.newLength) - Needed(file.length) {
        return 0 - EROFS;
      }
      if exists s | s in added :: s !in pending {
        return 0;
      }
      var final := FinalEntry(pend.mapSector, VisibleName(file.atari));
      if final.None? {
        return 0;
      }
      if final.value != pend.newLength {
        return 0 - EROFS;
      }
      r := CheckTail(pend);
      if r != 1 {
        return;
      }
      if added != [] && (AnyInUse(Abs(), maps[|file.maps|..]) || AnyInUse(Abs(), added)) {
        return 0 - EROFS;
      }
      r := 1;
    }

    method CheckTail(pend: PendingAppend) returns (r: int)
      requires Shape(Abs()) && pend.file < |files|
      ensures r in {1, 0, 0 - EROFS} && (r == 1 <==> TailReady(Abs(), files[pend.file], pend))
    {
      var file := files[pend.file];
      if file.length % SECTOR != 0 && file.data != [] {
        var tail := file.data[|file.data| - 1];
        if pend.tailSector !in pending {
          return 0;
        }
        if pend.tailSector != tail || pend.tailOffset != file.length % SECTOR || |pending[tail]| != SECTOR {
          return 0 - EROFS;
        }
      }
      r := 1;
    }

    method Grow(f: nat, newLength: nat, maps: seq<sector>, added: seq<sector>)
      requires Shape(Abs()) && f < |files| && Live(files[f]) && files[f].length < newLength && files[f].maps <= maps
      requires OnDisk(maps, sectors) && NoDup(added) && |files[f].data| == Needed(files[f].length)
      requires |files[f].data| + |added| == Needed(newLength)
      requires AllQueued(pending, Tail(files[f].data, files[f].length, added))
      modifies this
      ensures AppendStep(old(Abs()), Abs(), f, newLength, maps, added)
    {
      var d := Abs();
      var file := files[f];
      var newMaps := maps[|file.maps|..];
      AddedOnDisk(d, file.data, file.length, added);
      assert OnDisk(newMaps, sectors);
      GrowFile(f, newLength, maps, added);
      ghost var c := Abs();
      TakeSectors(f, |file.data|, maps, added, newMaps, ViewOf(d));
      ghost var e := Abs();
      EnlargedParts(d, c, e, f, newLength, maps, added);
      TakeOver(Tail(file.data, file.length, added));
      EnlargedTaken(d, e, Abs(), f, newLength, maps, added);
    }

    method GrowFile(f: nat, newLength: nat, maps: seq<sector>, added: seq<sector>)
      requires Shape(Abs()) && f < |files| && Live(files[f]) && files[f].length < newLength
      requires |files[f].data| == Needed(files[f].length)
      requires |files[f].data| + |added| == Needed(newLength)
      requires AllQueued(pending, Tail(files[f].data, files[f].length, added))
      modifies `host, `files
      ensures AppendFiles(old(Abs()), Abs(), f, newLength, maps, added)
    {
      var file := files[f];
      assert FileOk(Abs(), file);
      var contents := GrowHost(host[file.name], file.data, added, newLength);
      host := host[file.name := contents];
      files := files[f := file.(length := newLength, data := file.data + added, maps := maps)];
    }

    method TakeSectors(f: nat, from: nat, maps: seq<sector>, added: seq<sector>, newMaps: seq<sector>, view: View)
      requires |inUse| == sectors + 1 && OnDisk(added, sectors) && NoDup(added) && OnDisk(newMaps, sectors)
      modifies `inUse, `useCount, `refs, `meta
      ensures SectorsTaken(old(Abs()), Abs(), view, f, from, maps, added, newMaps)
    {
      MarkData(added, f, from);
      MarkMaps(newMaps);
      SetMaps(maps, view);
    }

    /** The last old sector again, if it was not full, and the new ones. */
    method GrowHost(content: seq<byte>, data: seq<sector>, added: seq<sector>, newLength: nat)
      returns (contents: seq<byte>)
      requires AllQueued(pending, Tail(data, |content|, added)) && |data| == Needed(|content|)
      requires |content| < newLength && |data| + |added| == Needed(newLength)
      ensures contents == Grown(content, pending, data, added, newLength)
    {
      var tail := Tail(data, |content|, added);
      var from := Kept(|content|);
      TailLength(|content|, data, added, newLength);
      contents := content[..from];
      for i := 0 to |tail|
        invariant AllQueued(pending, tail[..i])
        invariant contents == content[..from]
          + Queued(pending, tail[..i])[..if SECTOR * i < newLength - from then SECTOR * i else newLength - from]
      {
        assert tail[..i + 1][..i] == tail[..i];
        var count := if SECTOR < newLength - |contents| then SECTOR else newLength - |contents|;
        contents := contents + Fit(pending[tail[i]], SECTOR)[..count];
      }
      assert tail[..|tail|] == tail;
    }

    // ---- Replacement ----

    method CommitReplacement(f: nat, name: string, mapSector: sector)
      returns (r: int, length: nat, maps: seq<sector>, listed: seq<sector>)
      requires Shape(Abs())
      modifies this
      ensures r in {1, 0, 0 - EROFS} && (r != 1 ==> Abs() == old(Abs()))
      ensures r == 1 ==>
        && ReplaceReady(old(Abs()), f, name, mapSector, length, maps, listed)
        && ReplaceStep(old(Abs()), Abs(), f, length, maps, listed)
      ensures forall n, m, l | ReplaceReady(old(Abs()), f, name, mapSector, n, m, l) :: r == 1
    {
      r, length, maps, listed := PlanReplacement(f, name, mapSector);
      if r == 1 {
        Replace(f, length, maps, listed);
      }
    }

    method PlanReplacement(f: nat, name: string, mapSector: sector)
      returns (r: int, length: nat, maps: seq<sector>, listed: seq<sector>)
      requires Shape(Abs())
      ensures r in {1, 0, 0 - EROFS}
      ensures r == 1 ==> ReplaceReady(Abs(), f, name, mapSector, length, maps, listed)
      ensures forall n, m, l | ReplaceReady(Abs(), f, name, mapSector, n, m, l) :: r == 1
    {
      length, maps, listed := 0, [], [];
      if f >= |files| || files[f].name != name || files[f].maps == [] || files[f].maps[0] != mapSector {
        return 0 - EROFS, length, maps, listed;
      }
      var final := FinalEntry(mapSector, VisibleName(files[f].atari));
      if final.None? {
        return 0, length, maps, listed;
      }
      length := final.value;
      var walk := ReadMapChain(ViewOf(Abs()), sectors, meta.Keys + pending.Keys, |files[f].maps|, mapSector);
      match walk
      case Bad => return 0 - EROFS, length, maps, listed;
      case Incomplete => return 0, length, maps, listed;
      case Chain(m, l) =>
        maps, listed := m, l;
        if |listed| < Needed(length) {
          return 0, length, maps, listed;
        }
        if |listed| != Needed(length) || maps == [] {
          return 0 - EROFS, length, maps, listed;
        }
        if exists s | s in listed :: s !in pending || |pending[s]| != SECTOR {
          return 0, length, maps, listed;
        }
        if exists s | s in listed + maps :: s in refs && refs[s].file != f {
          return 0, length, maps, listed;
        }
        r := 1;
    }

    method Replace(f: nat, newLength: nat, maps: seq<sector>, listed: seq<sector>)
      requires Shape(Abs()) && f < |files| && AllQueued(pending, listed) && |listed| == Needed(newLength)
      requires OnDisk(maps, sectors)
      modifies this
      ensures ReplaceStep(old(Abs()), Abs(), f, newLength, maps, listed)
    {
      var d := Abs();
      var file := files[f];
      NeededFits(newLength, |listed|);
      var contents := WriteOut(listed, newLength);
      host := host[file.name := contents];
      SwapSectors(f, file, maps, listed, ViewOf(d));
      files := files[f := file.(length := newLength, data := listed, maps := maps)];
      pending := map s | s in pending && s !in file.data && s !in file.maps && s !in listed && s !in maps :: pending[s];
    }

    method SwapSectors(f: nat, file: File, maps: seq<sector>, listed: seq<sector>, view: View)
      requires |inUse| == sectors + 1 && OnDisk(maps, sectors) && OnDisk(listed, sectors)
      requires f < |files| && files[f] == file
      modifies `inUse, `useCount, `refs, `meta
      ensures Swapped(old(Abs()), Abs(), view, f, maps, listed)
    {
      ghost var d := Abs();
      FreeOld(file, maps, listed);
      ghost var e := Abs();
      UseNew(f, maps, listed, view);
      FreedAndTaken(d, e, Abs(), view, f, maps, listed);
    }

    // ---- Deleted and renamed entries ----

    /** f: the file that the entry was of. */
    method CommitDelete(f: nat)
      requires Shape(Abs()) && Deletable(Abs(), f)
      modifies this
      ensures DeleteStep(old(Abs()), Abs(), f) && IsDeleted(old(Abs()), Abs(), f)
    {
      ghost var d := Abs();
      var file := files[f];
      FreeOld(file, [], []);
      ghost var e := Abs();
      host := host - {file.name};
      pending := map s | s in pending && s !in file.maps :: pending[s];
      files := files[f := file.(length := 0, data := [], maps := [])];
      ghost var g := Abs();
      TakeOver([]);
      DeletedParts(d, e, g, Abs(), f);
      DeletedMeans(d, Abs(), f);
    }

    /** atari: the entry's new bytes. It is refused exactly if a file is shown so. */
    method CommitRename(f: nat, atari: seq<byte>) returns (r: int)
      requires Shape(Abs()) && f < |files| && files[f].maps != [] && |atari| == 11
      modifies `files, `host
      ensures r == if ShownElsewhere(old(files), f, Visible(atari)) then 0 - EEXIST else 0
      ensures r == 0 <==> RenameReady(old(Abs()), f, atari)
      ensures if r == 0 then RenameStep(old(Abs()), Abs(), f, atari) else Abs() == old(Abs())
      ensures r == 0 ==> IsRenamed(old(Abs()), Abs(), f, Text(Visible(atari)), atari)
    {
      ghost var d := Abs();
      var name := Visible(atari);
      var shown := LookFor(files, f, name);
      if shown {
        return 0 - EEXIST;
      }
      var file := files[f];
      assert FileOk(Abs(), file);
      host := (host - {file.name})[Text(name) := host[file.name]];
      files := files[f := file.(name := Text(name), atari := atari)];
      RenamedMeans(d, Abs(), f, atari);
      r := 0;
    }

    method FreeOld(file: File, maps: seq<sector>, listed: seq<sector>)
      modifies `inUse, `useCount, `refs, `meta
      ensures FreedStep(old(Abs()), Abs(), file, maps, listed)
    {
      FreeData(file.data, listed);
      FreeMaps(file.maps, maps);
    }

    method UseNew(f: nat, maps: seq<sector>, listed: seq<sector>, view: View)
      requires |inUse| == sectors + 1 && OnDisk(maps, sectors) && OnDisk(listed, sectors)
      modifies `inUse, `useCount, `refs, `meta
      ensures TakenStep(old(Abs()), Abs(), view, f, maps, listed)
    {
      UseData(listed, f);
      UseMaps(maps);
      SetMaps(maps, view);
    }

    method FreeData(data: seq<sector>, listed: seq<sector>)
      modifies `inUse, `useCount, `refs
      ensures |inUse| == old(|inUse|)
      ensures forall s: nat | s < |inUse| :: inUse[s] == (old(inUse[s]) && !(s in data && s !in listed))
      ensures refs == map s | s in old(refs) && !(s in data && s !in listed) :: old(refs)[s]
      ensures old(useCount == |Used(inUse)|) ==> useCount == |Used(inUse)|
    {
      for i := 0 to |data|
        invariant |inUse| == old(|inUse|)
        invariant forall s: nat | s < |inUse| :: inUse[s] == (old(inUse[s]) && !(s in data[..i] && s !in listed))
        invariant refs == map s | s in old(refs) && !(s in data[..i] && s !in listed) :: old(refs)[s]
        invariant old(useCount == |Used(inUse)|) ==> useCount == |Used(inUse)|
      {
        assert data[..i + 1] == data[..i] + [data[i]];
        if data[i] !in listed {
          refs := refs - {data[i]};
          Free(data[i]);
        }
      }
      assert data[..|data|] == data;
    }

    method FreeMaps(data: seq<sector>, maps: seq<sector>)
      modifies `inUse, `useCount, `meta
      ensures |inUse| == old(|inUse|)
      ensures forall s: nat | s < |inUse| :: inUse[s] == (old(inUse[s]) && !(s in data && s !in maps))
      ensures meta == map s | s in old(meta) && !(s in data && s !in maps) :: old(meta)[s]
      ensures old(useCount == |Used(inUse)|) ==> useCount == |Used(inUse)|
    {
      for i := 0 to |data|
        invariant |inUse| == old(|inUse|)
        invariant forall s: nat | s < |inUse| :: inUse[s] == (old(inUse[s]) && !(s in data[..i] && s !in maps))
        invariant meta == map s | s in old(meta) && !(s in data[..i] && s !in maps) :: old(meta)[s]
        invariant old(useCount == |Used(inUse)|) ==> useCount == |Used(inUse)|
      {
        assert data[..i + 1] == data[..i] + [data[i]];
        if data[i] !in maps {
          meta := meta - {data[i]};
          Free(data[i]);
        }
      }
      assert data[..|data|] == data;
    }

    method Free(s: sector)
      modifies `inUse, `useCount
      ensures inUse == if s < old(|inUse|) then old(inUse)[s := false] else old(inUse)
      ensures old(useCount == |Used(inUse)|) ==> useCount == |Used(inUse)|
    {
      if s < |inUse| && inUse[s] {
        UsedOff(inUse, s);
        inUse := inUse[s := false];
        if useCount != 0 {
          useCount := useCount - 1;
        }
      }
    }

    method Use(s: sector)
      requires s < |inUse|
      modifies `inUse, `useCount
      ensures inUse == old(inUse)[s := true]
      ensures old(useCount == |Used(inUse)|) ==> useCount == |Used(inUse)|
    {
      if !inUse[s] {
        UsedOn(inUse, s);
        inUse := inUse[s := true];
        useCount := useCount + 1;
      }
    }

    method UseData(listed: seq<sector>, f: nat)
      requires |inUse| == sectors + 1 && OnDisk(listed, sectors)
      modifies `inUse, `useCount, `refs
      ensures |inUse| == old(|inUse|)
      ensures forall s: nat | s < |inUse| :: inUse[s] == (old(inUse[s]) || s in listed)
      ensures forall s :: s in refs <==> s in old(refs) || s in listed
      ensures forall s | s in refs && s !in listed :: refs[s] == old(refs)[s]
      ensures forall s | s in listed :: refs[s].file == f
      ensures NoDup(listed) ==> RefsAdded(old(refs), refs, f, 0, listed)
      ensures old(useCount == |Used(inUse)|) ==> useCount == |Used(inUse)|
    {
      for i := 0 to |listed|
        invariant |inUse| == sectors + 1
        invariant forall s: nat | s < |inUse| :: inUse[s] == (old(inUse[s]) || s in listed[..i])
        invariant forall s :: s in refs <==> s in old(refs) || s in listed[..i]
        invariant forall s | s in refs && s !in listed[..i] :: refs[s] == old(refs)[s]
        invariant forall s | s in listed[..i] :: refs[s].file == f
        invariant NoDup(listed) ==> RefsAdded(old(refs), refs, f, 0, listed[..i])
        invariant old(useCount == |Used(inUse)|) ==> useCount == |Used(inUse)|
      {
        assert listed[..i + 1] == listed[..i] + [listed[i]];
        if NoDup(listed) {
          RefsMore(old(refs), refs, f, 0, listed, i);
        }
        Use(listed[i]);
        refs := refs[listed[i] := Ref(f, i)];
      }
      assert listed[..|listed|] == listed;
    }

    method UseMaps(maps: seq<sector>)
      requires |inUse| == sectors + 1 && OnDisk(maps, sectors)
      modifies `inUse, `useCount
      ensures |inUse| == old(|inUse|)
      ensures forall s: nat | s < |inUse| :: inUse[s] == (old(inUse[s]) || s in maps)
      ensures old(useCount == |Used(inUse)|) ==> useCount == |Used(inUse)|
    {
      for i := 0 to |maps|
        invariant |inUse| == sectors + 1
        invariant forall s: nat | s < |inUse| :: inUse[s] == (old(inUse[s]) || s in maps[..i])
        invariant old(useCount == |Used(inUse)|) ==> useCount == |Used(inUse)|
      {
        assert maps[..i + 1] == maps[..i] + [maps[i]];
        Use(maps[i]);
      }
      assert maps[..|maps|] == maps;
    }

    /** Queued bitmap and metadata sectors become the image's own; they, and the
        data sectors, leave the queue. */
    method TakeOver(erased: seq<sector>)
      requires |bitmap| == SECTOR * bitmapSectors
      modifies `bitmap, `meta, `pending
      ensures Cleared(old(Abs()), Abs(), erased)
    {
      var d := Abs();
      var bits := TakeBitmap();
      meta := map s | s in d.meta :: if s in d.pending && !InBitmap(d, s) then d.pending[s] else d.meta[s];
      bitmap := bits;
      pending := map s | s in d.pending && !InBitmap(d, s) && s !in d.meta && s !in erased :: d.pending[s];
    }

    method TakeBitmap() returns (bits: seq<byte>)
      requires |bitmap| == SECTOR * bitmapSectors
      ensures BitmapTaken(Abs(), bits)
    {
      bits := bitmap;
      var left := pending.Keys;
      while left != {}
        invariant left <= pending.Keys && BitmapLeft(Abs(), bits, left)
      {
        var s :| s in left;
        if InBitmap(Abs(), s) {
          TakeOne(Abs(), bits, left, s);
          bits := PutSector(bits, s - bitmapStart, Fit(pending[s], SECTOR));
        }
        left := left - {s};
      }
    }
  }
}
