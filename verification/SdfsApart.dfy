/** What a commit leaves alone: sectors that are in use for one thing are in use for
    no other, every commit keeps that, and so it changes no other file. */
module SdfsApart {
  import opened ByteBits
  import opened SdfsMap
  import opened SdfsDisk
  import opened SdfsCreate
  import opened SdfsAppend
  import opened SdfsAppended
  import opened SdfsReplace
  import opened SdfsOwners

  // ---- One use a sector ----

  /** In use, and nobody's data. */
  predicate ReservedAt(d: Disk, s: sector) {
    s < |d.inUse| && d.inUse[s] && s !in d.refs
  }

  /** Boot sectors, bitmap, and all generated metadata. */
  ghost predicate Reserved(d: Disk) {
    forall s: sector | 1 <= s <= d.sectors && (s <= 3 || InBitmap(d, s) || s in d.meta) :: ReservedAt(d, s)
  }

  /** A map is metadata of its own. */
  predicate OwnMap(d: Disk, s: sector) {
    s in d.meta && 4 <= s && !InBitmap(d, s) && !InRoot(d, s)
  }

  ghost predicate MapsKept(d: Disk, f: nat)
    requires f < |d.files|
  {
    forall s | s in d.files[f].maps :: OwnMap(d, s)
  }

  ghost predicate MapsApart(d: Disk, f: nat, g: nat)
    requires f < |d.files| && g < |d.files|
  {
    forall s | s in d.files[f].maps :: s !in d.files[g].maps
  }

  /** The root directory has sectors of its own. */
  ghost predicate RootApart(d: Disk) {
    && (forall s | InRoot(d, s) :: s in d.meta && 4 <= s && !InBitmap(d, s))
    && (forall s | s in d.rootMaps :: s !in d.rootData)
  }

  ghost predicate Apart(d: Disk) {
    && Reserved(d) && (forall f: nat | f < |d.files| :: MapsKept(d, f))
    && (forall f: nat, g: nat | f < |d.files| && g < |d.files| && f != g :: MapsApart(d, f, g))
    && RootApart(d)
  }

  ghost predicate Sound(d: Disk) {
    Shape(d) && Owned(d) && Apart(d)
  }

  // ---- What a chain may name ----

  predicate Free(d: Disk, s: sector) {
    4 <= s <= d.sectors && s < |d.inUse| && !d.inUse[s]
  }

  ghost predicate AllFree(d: Disk, ss: seq<sector>) {
    forall s | s in ss :: Free(d, s)
  }

  /** Nothing but file f may be there. */
  ghost predicate Takable(d: Disk, f: nat, s: sector) {
    && 4 <= s <= d.sectors && !InBitmap(d, s) && !InRoot(d, s) && (s in d.refs ==> d.refs[s].file == f)
    && forall g: nat | g < |d.files| && g != f :: s !in d.files[g].maps
  }

  ghost predicate NoneTwice(maps: seq<sector>, data: seq<sector>) {
    NoDup(data) && NoDup(maps) && forall s | s in data :: s !in maps
  }

  ghost predicate CreateFree(d: Disk, maps: seq<sector>, listed: seq<sector>) {
    AllFree(d, listed) && AllFree(d, maps) && NoneTwice(maps, listed)
  }

  /** The new maps and the new data of an append. */
  ghost predicate AppendFree(d: Disk, f: nat, maps: seq<sector>, added: seq<sector>)
    requires f < |d.files|
  {
    && d.files[f].maps <= maps && AllFree(d, added) && AllFree(d, maps[|d.files[f].maps|..])
    && NoneTwice(maps, added)
  }

  /** The new data are listed once, and are neither maps nor other metadata; nothing
      is another file's, the bitmap's or the root directory's. */
  ghost predicate ReplaceFits(d: Disk, f: nat, maps: seq<sector>, listed: seq<sector>)
    requires f < |d.files|
  {
    && NoDup(listed) && (forall s | s in listed || s in maps :: Takable(d, f, s))
    && (forall s | s in listed :: s !in maps && (s in d.meta ==> s in d.files[f].maps))
  }

  lemma FreeIs(d: Disk, s: sector)
    requires Sound(d) && Free(d, s)
    ensures !InBitmap(d, s) && s !in d.meta && s !in d.refs && !InRoot(d, s)
  {
    assert s in d.meta || InBitmap(d, s) ==> ReservedAt(d, s);
    assert s in d.refs ==> RefOwned(d, s);
  }

  lemma DataIs(d: Disk, f: nat, s: sector)
    requires Sound(d) && f < |d.files| && s in d.files[f].data
    ensures 4 <= s <= d.sectors && !InBitmap(d, s) && s !in d.meta && s in d.refs && d.refs[s].file == f
    ensures s < |d.inUse| && d.inUse[s]
  {
    assert FileOwns(d, f);
    var i: nat :| i < |d.files[f].data| && d.files[f].data[i] == s;
    assert d.files[f].data[i] in d.refs && RefOwned(d, s);
    assert s <= 3 || InBitmap(d, s) || s in d.meta ==> ReservedAt(d, s);
  }

  lemma MapIs(d: Disk, f: nat, s: sector)
    requires Sound(d) && f < |d.files| && s in d.files[f].maps
    ensures 4 <= s <= d.sectors && OwnMap(d, s) && s !in d.refs && s < |d.inUse| && d.inUse[s]
  {
    assert MapsKept(d, f) && OwnMap(d, s);
    assert 1 <= s <= d.sectors && ReservedAt(d, s);
  }

  /** Sectors of two files differ. */
  lemma FilesApart(d: Disk, f: nat, g: nat, s: sector)
    requires Sound(d) && f < |d.files| && g < |d.files| && f != g
    requires s in d.files[f].data || s in d.files[f].maps
    ensures s !in d.files[g].data && s !in d.files[g].maps
  {
    assert MapsApart(d, f, g);
    if s in d.files[f].data {
      DataIs(d, f, s);
      if s in d.files[g].data {
        DataIs(d, g, s);
      }
      if s in d.files[g].maps {
        MapIs(d, g, s);
      }
    } else if s in d.files[g].data {
      MapIs(d, f, s);
      DataIs(d, g, s);
    }
  }

  lemma OwnIs(d: Disk, f: nat, s: sector)
    requires Sound(d) && f < |d.files| && (s in d.files[f].data || s in d.files[f].maps)
    ensures Takable(d, f, s)
  {
    if s in d.files[f].data {
      DataIs(d, f, s);
    } else {
      MapIs(d, f, s);
    }
    forall g: nat | g < |d.files| && g != f ensures s !in d.files[g].maps {
      FilesApart(d, f, g, s);
    }
  }

  lemma TakableIs(d: Disk, f: nat, s: sector)
    requires Sound(d) && f < |d.files| && Takable(d, f, s)
    ensures forall g: nat | g < |d.files| && g != f :: s !in d.files[g].data && s !in d.files[g].maps
    ensures s in d.refs ==> s in d.files[f].data
  {
    forall g: nat | g < |d.files| && g != f ensures s !in d.files[g].data {
      if s in d.files[g].data {
        DataIs(d, g, s);
      }
    }
    assert s in d.refs ==> RefOwned(d, s);
  }

  lemma FreeOfAll(d: Disk, g: nat, s: sector)
    requires Sound(d) && Free(d, s) && g < |d.files|
    ensures s !in d.files[g].data && s !in d.files[g].maps
  {
    if s in d.files[g].data {
      DataIs(d, g, s);
    }
    if s in d.files[g].maps {
      MapIs(d, g, s);
    }
  }

  lemma AllFreeIs(d: Disk, ss: seq<sector>)
    requires Sound(d) && AllFree(d, ss)
    ensures DataSectors(d, ss) && OnDisk(ss, d.sectors)
    ensures forall s | s in ss :: s !in d.refs && s !in d.meta && !InBitmap(d, s) && !InRoot(d, s)
    ensures forall g: nat, s | g < |d.files| && s in d.files[g].maps :: s !in ss
  {
    forall i: nat | i < |ss| ensures 4 <= ss[i] <= d.sectors {
      assert ss[i] in ss && Free(d, ss[i]);
    }
    forall s | s in ss ensures s !in d.refs && s !in d.meta && !InBitmap(d, s) && !InRoot(d, s) {
      FreeIs(d, s);
    }
    forall g: nat, s | g < |d.files| && s in d.files[g].maps ensures s !in ss {
      if s in ss {
        FreeOfAll(d, g, s);
      }
    }
  }

  // ---- A create ----

  lemma CreateSound(d: Disk, d': Disk, name: string, length: nat, maps: seq<sector>, listed: seq<sector>)
    requires Sound(d) && CreateStep(d, d', name, length, maps, listed)
    requires CreateFree(d, maps, listed) && |listed| == Needed(length)
    ensures Sound(d')
  {
    AllFreeIs(d, listed);
    AllFreeIs(d, maps);
    CreateShape(d, d', name, length, maps, listed);
    CreateOwned(d, d', name, length, maps, listed);
    CreateReserved(d, d', name, length, maps, listed);
    CreateMaps(d, d', name, length, maps, listed);
  }

  lemma CreateReserved(d: Disk, d': Disk, name: string, length: nat, maps: seq<sector>, listed: seq<sector>)
    requires Sound(d) && CreateStep(d, d', name, length, maps, listed) && CreateFree(d, maps, listed)
    ensures Reserved(d')
  {
    AllFreeIs(d, maps);
    forall s: sector | 1 <= s <= d'.sectors && (s <= 3 || InBitmap(d', s) || s in d'.meta) ensures ReservedAt(d', s) {
      if s in maps {
        assert Free(d, s);
      } else {
        assert ReservedAt(d, s);
        assert s in listed ==> Free(d, s);
      }
    }
  }

  lemma CreateMaps(d: Disk, d': Disk, name: string, length: nat, maps: seq<sector>, listed: seq<sector>)
    requires Sound(d) && CreateStep(d, d', name, length, maps, listed) && CreateFree(d, maps, listed) && Reserved(d')
    ensures Apart(d')
  {
    NewMapsOwn(d, d', maps);
    forall f: nat | f < |d'.files| ensures MapsKept(d', f) {
      if f < |d.files| {
        MapsStay(d, d', f);
      }
    }
    forall f: nat, g: nat | f < |d'.files| && g < |d'.files| && f != g ensures MapsApart(d', f, g) {
      if f < |d.files| && g < |d.files| {
        MapsApartStay(d, d', f, g);
      }
    }
    RootStaysApart(d, d');
  }

  lemma NewMapsOwn(d: Disk, d': Disk, maps: seq<sector>)
    requires Sound(d) && AllFree(d, maps) && Same(d, d') && forall s | s in maps :: s in d'.meta
    ensures forall s | s in maps :: OwnMap(d', s)
    ensures forall f: nat, s | f < |d.files| && s in maps :: s !in d.files[f].maps
  {
    AllFreeIs(d, maps);
    forall s | s in maps ensures OwnMap(d', s) {
      assert Free(d, s);
    }
  }

  lemma RootStaysApart(d: Disk, d': Disk)
    requires RootApart(d) && Same(d, d') && forall s | s in d.meta && InRoot(d, s) :: s in d'.meta
    ensures RootApart(d')
  {
    assert forall s | InRoot(d', s) :: InRoot(d, s);
  }

  lemma MapsApartStay(d: Disk, d': Disk, f: nat, g: nat)
    requires f < |d.files| && g < |d.files| && f < |d'.files| && g < |d'.files| && MapsApart(d, f, g)
    requires d'.files[f].maps == d.files[f].maps && d'.files[g].maps == d.files[g].maps
    ensures MapsApart(d', f, g)
  {
  }

  /** Maps stay a file's own while they stay metadata. */
  lemma MapsStay(d: Disk, d': Disk, f: nat)
    requires f < |d.files| && f < |d'.files| && d'.files[f].maps == d.files[f].maps && MapsKept(d, f) && Same(d, d')
    requires forall s | s in d.files[f].maps && s in d.meta :: s in d'.meta
    ensures MapsKept(d', f)
  {
    forall s | s in d'.files[f].maps ensures OwnMap(d', s) {
      assert OwnMap(d, s);
    }
  }

  // ---- An append ----

  lemma AppendSound(d: Disk, d': Disk, f: nat, newLength: nat, maps: seq<sector>, added: seq<sector>)
    requires Sound(d) && AppendStep(d, d', f, newLength, maps, added) && AppendFree(d, f, maps, added)
    ensures Sound(d') && OnDisk(maps, d.sectors) && FreshSectors(d, f, added)
  {
    AppendPlaces(d, f, maps, added);
    AppendShape(d, d', f, newLength, maps, added);
    AppendOwned(d, d', f, newLength, maps, added);
    AppendReserved(d, d', f, newLength, maps, added);
    AppendMaps(d, d', f, newLength, maps, added);
  }

  lemma MapsSplit(d: Disk, f: nat, maps: seq<sector>, s: sector)
    requires f < |d.files| && d.files[f].maps <= maps && s in maps
    ensures s in d.files[f].maps || s in maps[|d.files[f].maps|..]
  {
    assert maps == d.files[f].maps + maps[|d.files[f].maps|..];
  }

  lemma AppendPlaces(d: Disk, f: nat, maps: seq<sector>, added: seq<sector>)
    requires Sound(d) && f < |d.files| && AppendFree(d, f, maps, added)
    ensures OnDisk(maps, d.sectors) && FreshSectors(d, f, added) && NoMaps(d, f, added)
    ensures forall s | s in maps :: s !in d.refs
  {
    AllFreeIs(d, added);
    AllFreeIs(d, maps[|d.files[f].maps|..]);
    forall s | s in maps ensures 1 <= s <= d.sectors && s !in d.refs {
      MapsSplit(d, f, maps, s);
      if s in d.files[f].maps {
        MapIs(d, f, s);
      }
    }
    forall i: nat | i < |maps| ensures 1 <= maps[i] <= d.sectors {
      assert maps[i] in maps;
    }
    AppendFresh(d, f, added);
  }

  lemma AppendFresh(d: Disk, f: nat, added: seq<sector>)
    requires Sound(d) && f < |d.files| && AllFree(d, added) && NoDup(added)
    ensures FreshSectors(d, f, added)
  {
    var data := d.files[f].data;
    var all := data + added;
    AllFreeIs(d, added);
    forall i: nat | i < |all| ensures 4 <= all[i] <= d.sectors {
      if i < |data| {
        DataIs(d, f, data[i]);
      }
    }
    forall i: nat, j: nat | i < j < |all| ensures all[i] != all[j] {
      DataTwice(d, f, added, i, j);
    }
  }

  lemma DataTwice(d: Disk, f: nat, added: seq<sector>, i: nat, j: nat)
    requires Sound(d) && f < |d.files| && AllFree(d, added) && NoDup(added) && i < j < |d.files[f].data + added|
    ensures (d.files[f].data + added)[i] != (d.files[f].data + added)[j]
  {
    var data := d.files[f].data;
    assert FileOwns(d, f);
    if j < |data| {
      assert d.refs[data[i]] == Ref(f, i) && d.refs[data[j]] == Ref(f, j);
    } else if i < |data| {
      DataIs(d, f, data[i]);
      assert added[j - |data|] in added;
    }
  }

  lemma AppendReserved(d: Disk, d': Disk, f: nat, newLength: nat, maps: seq<sector>, added: seq<sector>)
    requires Sound(d) && AppendStep(d, d', f, newLength, maps, added) && AppendFree(d, f, maps, added)
    ensures Reserved(d')
  {
    AppendPlaces(d, f, maps, added);
    forall s: sector | 1 <= s <= d'.sectors && (s <= 3 || InBitmap(d', s) || s in d'.meta) ensures ReservedAt(d', s) {
      if s in maps {
        MapsSplit(d, f, maps, s);
        if s in d.files[f].maps {
          MapIs(d, f, s);
        } else {
          assert Free(d, s);
        }
      } else {
        assert ReservedAt(d, s);
        assert s in added ==> Free(d, s);
      }
    }
  }

  lemma AppendMaps(d: Disk, d': Disk, f: nat, newLength: nat, maps: seq<sector>, added: seq<sector>)
    requires Sound(d) && AppendStep(d, d', f, newLength, maps, added) && AppendFree(d, f, maps, added) && Reserved(d')
    ensures Apart(d')
  {
    var news := maps[|d.files[f].maps|..];
    forall s | s in news ensures s in maps {
    }
    NewMapsOwn(d, d', news);
    forall s | s in maps ensures OwnMap(d', s) {
      MapsSplit(d, f, maps, s);
      if s in d.files[f].maps {
        MapIs(d, f, s);
      }
    }
    forall g: nat | g < |d'.files| ensures MapsKept(d', g) {
      if g != f {
        MapsStay(d, d', g);
      }
    }
    forall g: nat, h: nat | g < |d'.files| && h < |d'.files| && g != h ensures MapsApart(d', g, h) {
      GrownApart(d, d', f, maps, news, g, h);
    }
    RootStaysApart(d, d');
  }

  lemma GrownApart(d: Disk, d': Disk, f: nat, maps: seq<sector>, news: seq<sector>, g: nat, h: nat)
    requires Sound(d) && f < |d.files| && |d'.files| == |d.files| && g < |d.files| && h < |d.files| && g != h
    requires d.files[f].maps <= maps && news == maps[|d.files[f].maps|..] && d'.files[f].maps == maps
    requires forall k: nat | k < |d.files| && k != f :: d'.files[k].maps == d.files[k].maps
    requires forall k: nat, s | k < |d.files| && s in news :: s !in d.files[k].maps
    ensures MapsApart(d', g, h)
  {
    assert MapsApart(d, g, h);
    assert maps == d.files[f].maps + news;
  }

  // ---- A replacement ----

  lemma ReplaceSound(d: Disk, d': Disk, f: nat, newLength: nat, maps: seq<sector>, listed: seq<sector>)
    requires Sound(d) && ReplaceStep(d, d', f, newLength, maps, listed) && ReplaceFits(d, f, maps, listed)
    requires Live(d.files[f])
    ensures Sound(d') && Unowned(d, f, maps, listed)
  {
    OwnUnowned(d, f, maps, listed);
    ReplaceShape(d, d', f, newLength, maps, listed);
    ReplaceOwned(d, d', f, newLength, maps, listed);
    ReplaceReserved(d, d', f, newLength, maps, listed);
    ReplaceMaps(d, d', f, newLength, maps, listed);
  }

  lemma OwnUnowned(d: Disk, f: nat, maps: seq<sector>, listed: seq<sector>)
    requires Sound(d) && f < |d.files| && ReplaceFits(d, f, maps, listed)
    ensures Unowned(d, f, maps, listed)
  {
    forall i: nat | i < |maps| ensures 1 <= maps[i] <= d.sectors {
      assert maps[i] in maps && Takable(d, f, maps[i]);
    }
    forall i: nat | i < |listed| ensures 4 <= listed[i] <= d.sectors {
      assert listed[i] in listed && Takable(d, f, listed[i]);
    }
    forall s | s in listed || s in maps ensures !InBitmap(d, s) && (s in d.refs ==> d.refs[s].file == f) {
      assert Takable(d, f, s);
    }
    forall g: nat, s | g < |d.files| && g != f && s in d.files[g].maps ensures s !in listed {
      assert s in listed ==> Takable(d, f, s);
    }
  }

  lemma ReplaceReserved(d: Disk, d': Disk, f: nat, newLength: nat, maps: seq<sector>, listed: seq<sector>)
    requires Sound(d) && ReplaceStep(d, d', f, newLength, maps, listed) && ReplaceFits(d, f, maps, listed)
    ensures Reserved(d')
  {
    forall s: sector | 1 <= s <= d'.sectors && (s <= 3 || InBitmap(d', s) || s in d'.meta) ensures ReservedAt(d', s) {
      if s in maps {
        MapReserved(d, d', f, newLength, maps, listed, s);
      } else {
        OldReserved(d, d', f, newLength, maps, listed, s);
      }
    }
  }

  lemma MapReserved(d: Disk, d': Disk, f: nat, newLength: nat, maps: seq<sector>, listed: seq<sector>, s: sector)
    requires Sound(d) && ReplaceStep(d, d', f, newLength, maps, listed) && ReplaceFits(d, f, maps, listed)
    requires s in maps
    ensures ReservedAt(d', s)
  {
    assert Takable(d, f, s);
    TakableIs(d, f, s);
    assert s !in listed;
  }

  lemma OldReserved(d: Disk, d': Disk, f: nat, newLength: nat, maps: seq<sector>, listed: seq<sector>, s: sector)
    requires Sound(d) && ReplaceStep(d, d', f, newLength, maps, listed) && ReplaceFits(d, f, maps, listed)
    requires 1 <= s <= d'.sectors && s !in maps && (s <= 3 || InBitmap(d', s) || s in d'.meta)
    ensures ReservedAt(d', s)
  {
    assert ReservedAt(d, s);
    if s in listed {
      NotListed(d, f, maps, listed, s);
    }
    if s in d.files[f].data {
      DataIs(d, f, s);
      assert false;
    }
    if s in d.files[f].maps {
      MapIs(d, f, s);
      assert false;
    }
  }

  lemma NotListed(d: Disk, f: nat, maps: seq<sector>, listed: seq<sector>, s: sector)
    requires Sound(d) && f < |d.files| && ReplaceFits(d, f, maps, listed) && s in listed
    ensures s !in maps && 4 <= s && !InBitmap(d, s) && (s in d.meta ==> OldMap(d.files[f], maps, s))
  {
    assert Takable(d, f, s);
  }

  lemma ReplaceMaps(d: Disk, d': Disk, f: nat, newLength: nat, maps: seq<sector>, listed: seq<sector>)
    requires Sound(d) && ReplaceStep(d, d', f, newLength, maps, listed) && ReplaceFits(d, f, maps, listed)
    requires Reserved(d')
    ensures Apart(d')
  {
    assert MapsKept(d, f);
    forall g: nat | g < |d'.files| ensures MapsKept(d', g) {
      if g != f {
        assert MapsApart(d, g, f);
        MapsStay(d, d', g);
      } else {
        NewMapsKept(d, d', f, newLength, maps, listed);
      }
    }
    forall g: nat, h: nat | g < |d'.files| && h < |d'.files| && g != h ensures MapsApart(d', g, h) {
      NewMapsApart(d, d', f, newLength, maps, listed, g, h);
    }
    RootStaysApart(d, d');
  }

  lemma NewMapsApart(d: Disk, d': Disk, f: nat, newLength: nat, maps: seq<sector>, listed: seq<sector>, g: nat, h: nat)
    requires Sound(d) && f < |d.files| && ReplaceFiles(d, d', f, newLength, maps, listed)
    requires ReplaceFits(d, f, maps, listed) && g < |d'.files| && h < |d'.files| && g != h
    ensures MapsApart(d', g, h)
  {
    assert MapsApart(d, g, h);
    forall s | s in d'.files[g].maps ensures s !in d'.files[h].maps {
      assert s in maps ==> Takable(d, f, s);
    }
  }

  lemma NewMapsKept(d: Disk, d': Disk, f: nat, newLength: nat, maps: seq<sector>, listed: seq<sector>)
    requires Sound(d) && ReplaceStep(d, d', f, newLength, maps, listed) && ReplaceFits(d, f, maps, listed)
    ensures MapsKept(d', f)
  {
    forall s | s in maps ensures OwnMap(d', s) {
      assert Takable(d, f, s);
    }
  }

  /** A replacement leaves the disk sound exactly if its sectors fit. */
  lemma ReplaceKeeps(d: Disk, d': Disk, f: nat, newLength: nat, maps: seq<sector>, listed: seq<sector>)
    requires Sound(d) && ReplaceStep(d, d', f, newLength, maps, listed) && Live(d.files[f])
    ensures Sound(d') <==> ReplaceFits(d, f, maps, listed)
  {
    if Sound(d') {
      SoundReplaced(d, d', f, newLength, maps, listed);
    }
    if ReplaceFits(d, f, maps, listed) {
      ReplaceSound(d, d', f, newLength, maps, listed);
    }
  }

  lemma SoundReplaced(d: Disk, d': Disk, f: nat, length: nat, maps: seq<sector>, listed: seq<sector>)
    requires Sound(d) && ReplaceStep(d, d', f, length, maps, listed) && Sound(d')
    ensures ReplaceFits(d, f, maps, listed)
  {
    forall s | s in listed ensures Takable(d, f, s) && s !in maps && (s in d.meta ==> s in d.files[f].maps) {
      SoundListed(d, d', f, length, maps, listed, s);
    }
    forall s | s in maps ensures Takable(d, f, s) {
      SoundMap(d, d', f, length, maps, listed, s);
    }
    assert FileOwns(d', f);
    ListedOnce(d', f, listed);
  }

  lemma SoundListed(d: Disk, d': Disk, f: nat, length: nat, maps: seq<sector>, listed: seq<sector>, s: sector)
    requires Sound(d) && ReplaceStep(d, d', f, length, maps, listed) && Sound(d') && s in listed
    ensures Takable(d, f, s) && s !in maps && (s in d.meta ==> s in d.files[f].maps)
  {
    DataIs(d', f, s);
    if s in d.refs {
      assert RefOwned(d, s) && FileOwns(d', d.refs[s].file);
      if d.refs[s].file != f {
        ForeignListed(d, d', f, length, maps, listed, s, d.refs[s].file);
      }
    }
    forall g: nat | g < |d.files| && g != f ensures s !in d.files[g].maps {
      FilesApart(d', f, g, s);
    }
    assert InRoot(d', s) ==> s in d'.meta;
  }

  lemma SoundMap(d: Disk, d': Disk, f: nat, length: nat, maps: seq<sector>, listed: seq<sector>, s: sector)
    requires Sound(d) && ReplaceStep(d, d', f, length, maps, listed) && Sound(d') && s in maps
    ensures Takable(d, f, s)
  {
    MapIs(d', f, s);
    if s in d.refs {
      DataIs(d, f, s);
    }
    forall g: nat | g < |d.files| && g != f ensures s !in d.files[g].maps {
      FilesApart(d', f, g, s);
    }
  }

  lemma ListedOnce(d: Disk, f: nat, listed: seq<sector>)
    requires f < |d.files| && FileOwns(d, f) && d.files[f].data == listed
    ensures NoDup(listed)
  {
    forall a: nat, b: nat | a < b < |listed| ensures listed[a] != listed[b] {
      assert d.refs[listed[a]] == Ref(f, a) && d.refs[listed[b]] == Ref(f, b);
    }
  }

  /** Another file's sector, listed, would have two references. */
  lemma ForeignListed(d: Disk, d': Disk, f: nat, length: nat, maps: seq<sector>, listed: seq<sector>, s: sector, g: nat)
    requires f < |d.files| && ReplaceFiles(d, d', f, length, maps, listed) && ReplaceRefs(d, d', f, listed)
    requires s in listed && s in d.refs && d.refs[s].file == g && g < |d.files| && RefOwned(d, s) && FileOwns(d', g)
    ensures g == f
  {
  }
}
