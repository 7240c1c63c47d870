/** A file deleted by its directory entry: the host file goes, its sectors are freed,
    and nothing else reads differently. */
module SdfsDelete {
  import opened ByteBits
  import opened SdfsMap
  import opened SdfsDisk
  import opened SdfsCreate
  import opened SdfsAppend
  import opened SdfsReplace
  import opened SdfsOwners
  import opened SdfsApart
  import opened SdfsOthers
  import opened SdfsWrite

  /** Empty files are not looked for. */
  predicate Deletable(d: Disk, f: nat) {
    f < |d.files| && d.files[f].length > 0 && d.files[f].maps != []
  }

  predicate IsMap(d: Disk, f: nat, s: sector)
    requires f < |d.files|
  {
    s in d.files[f].maps
  }

  ghost predicate DeleteFiles(d: Disk, d': Disk, f: nat)
    requires f < |d.files|
  {
    var file := d.files[f];
    && d'.files == d.files[f := file.(length := 0, data := [], maps := [])] && d'.host == d.host - {file.name}
    && (forall s :: s in d'.refs <==> s in d.refs && s !in file.data)
    && (forall s | s in d'.refs :: d'.refs[s] == d.refs[s])
  }

  /** What is queued for bitmap and metadata is taken over, but for the file's maps. */
  ghost predicate DeleteOverlay(d: Disk, d': Disk, f: nat)
    requires f < |d.files|
  {
    && |d'.bitmap| == |d.bitmap| == SECTOR * d.bitmapSectors && d'.bitmapStart == d.bitmapStart
    && d'.bitmapSectors == d.bitmapSectors
    && (forall s | InBitmap(d, s) ::
          BitmapSector(d', s) == if s in d.pending && !IsMap(d, f, s) then Fit(d.pending[s], SECTOR)
                                 else BitmapSector(d, s))
    && (forall s :: s in d'.meta <==> s in d.meta && !IsMap(d, f, s))
    && (forall s | s in d'.meta :: d'.meta[s] == if s in d.pending && !InBitmap(d, s) then d.pending[s] else d.meta[s])
    && (forall s :: s in d'.pending <==> s in d.pending && !IsMap(d, f, s) && !InBitmap(d, s) && s !in d'.meta)
    && (forall s | s in d'.pending :: d'.pending[s] == d.pending[s])
  }

  ghost predicate DeleteStep(d: Disk, d': Disk, f: nat)
    requires Shape(d)
  {
    && Same(d, d') && Deletable(d, f)
    && DeleteFiles(d, d', f) && DeleteOverlay(d, d', f) && ReplaceUse(d, d', f, [], [])
  }

  /** In plain terms: the host file is gone, and no other; the file is empty, and its
      sectors are free and nobody's data. */
  ghost predicate IsDeleted(d: Disk, d': Disk, f: nat)
    requires f < |d.files|
  {
    var file := d.files[f];
    && (forall n :: n in d'.host <==> n in d.host && n != file.name)
    && (forall n | n in d'.host :: d'.host[n] == d.host[n])
    && d'.files == d.files[f := File(file.name, file.atari, 0, [], [])]
    && |d'.inUse| == |d.inUse|
    && (forall s: nat | s < |d.inUse| :: d'.inUse[s] <==> d.inUse[s] && s !in file.data && s !in file.maps)
    && (forall s :: s in d'.refs <==> s in d.refs && s !in file.data)
    && (forall s | s in d'.refs :: d'.refs[s] == d.refs[s])
    && (d.useCount == |Used(d.inUse)| ==> d'.useCount == |Used(d'.inUse)|)
  }

  lemma DeletedMeans(d: Disk, d': Disk, f: nat)
    requires Shape(d) && DeleteStep(d, d', f)
    ensures IsDeleted(d, d', f)
  {
  }

  /** The two steps of the code make one. */
  lemma DeletedParts(d: Disk, e: Disk, g: Disk, d': Disk, f: nat)
    requires Shape(d) && Deletable(d, f) && FreedStep(d, e, d.files[f], [], [])
    requires g == e.(files := d.files[f := d.files[f].(length := 0, data := [], maps := [])],
                     host := d.host - {d.files[f].name},
                     pending := map s | s in d.pending && s !in d.files[f].maps :: d.pending[s])
    requires Cleared(g, d', [])
    ensures DeleteStep(d, d', f)
  {
    assert DeleteFiles(d, d', f);
    KeptMeta(d, e, f);
    forall s | InBitmap(d, s)
      ensures BitmapSector(d', s) == if s in d.pending && !IsMap(d, f, s) then Fit(d.pending[s], SECTOR)
                                     else BitmapSector(d, s)
    {
      DeletedBits(d, g, d', f, s);
    }
    DeletedMeta(d, g, d', f);
  }

  /** The file's maps leave the metadata. */
  ghost predicate MetaKept(d: Disk, e: Disk, f: nat)
    requires f < |d.files|
  {
    && (forall s :: s in e.meta <==> s in d.meta && !IsMap(d, f, s))
    && (forall s | s in e.meta :: e.meta[s] == d.meta[s])
  }

  lemma KeptMeta(d: Disk, e: Disk, f: nat)
    requires f < |d.files| && FreedStep(d, e, d.files[f], [], [])
    ensures MetaKept(d, e, f)
  {
  }

  lemma DeletedMeta(d: Disk, g: Disk, d': Disk, f: nat)
    requires f < |d.files| && Same(d, g) && MetaKept(d, g, f) && |g.bitmap| == SECTOR * g.bitmapSectors
    requires g.pending == map s | s in d.pending && s !in d.files[f].maps :: d.pending[s]
    requires Cleared(g, d', [])
    ensures forall s :: s in d'.meta <==> s in d.meta && !IsMap(d, f, s)
    ensures forall s | s in d'.meta ::
      d'.meta[s] == if s in d.pending && !InBitmap(d, s) then d.pending[s] else d.meta[s]
    ensures forall s :: s in d'.pending <==> s in d.pending && !IsMap(d, f, s) && !InBitmap(d, s) && s !in d'.meta
    ensures forall s | s in d'.pending :: d'.pending[s] == d.pending[s]
  {
    assert forall s :: s in d'.meta <==> s in g.meta;
  }

  lemma DeletedBits(d: Disk, g: Disk, d': Disk, f: nat, s: sector)
    requires f < |d.files| && Same(d, g) && Same(d, d') && g.bitmap == d.bitmap && InBitmap(d, s)
    requires g.pending == map s | s in d.pending && s !in d.files[f].maps :: d.pending[s]
    requires |d.bitmap| == SECTOR * d.bitmapSectors && BitmapTaken(g, d'.bitmap)
    ensures BitmapSector(d', s) == if s in d.pending && !IsMap(d, f, s) then Fit(d.pending[s], SECTOR)
                                   else BitmapSector(d, s)
  {
    assert InBitmap(g, s) && BitmapSector(g.(bitmap := d'.bitmap), s) == BitmapSector(d', s);
  }

  // ---- What it keeps ----

  lemma DeleteShape(d: Disk, d': Disk, f: nat)
    requires Shape(d) && Owned(d) && DeleteStep(d, d', f)
    ensures Shape(d')
  {
    forall g: nat | g < |d'.files| ensures FileOk(d', d'.files[g]) {
      assert g != f ==> FileOk(d, d.files[g]);
      if g != f && Live(d.files[g]) {
        OtherName(d, f, g);
      }
    }
  }

  lemma DeleteOwned(d: Disk, d': Disk, f: nat)
    requires Sound(d) && DeleteStep(d, d', f)
    ensures Owned(d')
  {
    forall g: nat | g < |d'.files| ensures FileOwns(d', g) {
      assert FileOwns(d, g);
      if g != f {
        forall i: nat | i < |d.files[g].data| ensures d.files[g].data[i] !in d.files[f].data {
          FilesApart(d, g, f, d.files[g].data[i]);
        }
      }
    }
    forall s | s in d'.refs ensures RefOwned(d', s) {
      RefStays(d, d', f, s);
    }
    forall g: nat, h: nat | g < h < |d'.files| && Live(d'.files[g]) && Live(d'.files[h])
      ensures d'.files[g].name != d'.files[h].name
    {
      OtherName(d, g, h);
    }
  }

  lemma RefStays(d: Disk, d': Disk, f: nat, s: sector)
    requires Sound(d) && DeleteStep(d, d', f) && s in d'.refs
    ensures RefOwned(d', s)
  {
    assert RefOwned(d, s);
    if s in d.files[f].maps {
      MapIs(d, f, s);
    }
  }

  lemma DeleteSound(d: Disk, d': Disk, f: nat)
    requires Sound(d) && DeleteStep(d, d', f)
    ensures Sound(d')
  {
    DeleteShape(d, d', f);
    DeleteOwned(d, d', f);
    DeleteReserved(d, d', f);
    DeleteApart(d, d', f);
  }

  lemma DeleteReserved(d: Disk, d': Disk, f: nat)
    requires Sound(d) && DeleteStep(d, d', f)
    ensures Reserved(d')
  {
    assert MapsKept(d, f);
    forall s: sector | 1 <= s <= d'.sectors && (s <= 3 || InBitmap(d', s) || s in d'.meta) ensures ReservedAt(d', s) {
      assert ReservedAt(d, s);
      assert s in d.files[f].maps ==> OwnMap(d, s);
      if s in d.files[f].data {
        DataIs(d, f, s);
        assert false;
      }
    }
  }

  lemma DeleteApart(d: Disk, d': Disk, f: nat)
    requires Sound(d) && DeleteStep(d, d', f) && Reserved(d')
    ensures Apart(d')
  {
    assert MapsKept(d, f);
    forall g: nat | g < |d'.files| ensures MapsKept(d', g) {
      if g != f {
        assert MapsApart(d, g, f);
        MapsStay(d, d', g);
      }
    }
    forall g: nat, h: nat | g < |d'.files| && h < |d'.files| && g != h ensures MapsApart(d', g, h) {
      assert MapsApart(d, g, h);
    }
    forall s | InRoot(d', s) ensures s in d'.meta {
      assert s in d.files[f].maps ==> OwnMap(d, s);
    }
  }

  lemma DeleteAgrees(d: Disk, d': Disk, replacing: set<nat>, f: nat)
    requires Sound(d) && DeleteStep(d, d', f) && HostsAgree(d, replacing)
    ensures Sound(d') && HostsAgree(d', replacing)
  {
    DeleteSound(d, d', f);
    forall g: nat | g < |d'.files| && Live(d'.files[g]) && g !in replacing ensures FileStaged(d', g) {
      assert FileOk(d, d.files[g]) && FileStaged(d, g);
      OtherName(d, f, g);
      StagedLess(d, d', g);
    }
  }

  // ---- What the guest sees ----

  lemma DeleteReads(d: Disk, d': Disk, f: nat, s: sector)
    requires Sound(d) && DeleteStep(d, d', f) && Shape(d') && 1 <= s <= d.sectors
    requires s !in d.files[f].data && s !in d.files[f].maps
    ensures ReadSector(d', s) == ReadSector(d, s)
  {
    if s in d.refs {
      HostStays(d, d', f, s);
    }
  }

  lemma HostStays(d: Disk, d': Disk, f: nat, s: sector)
    requires Shape(d) && Owned(d) && Deletable(d, f) && DeleteFiles(d, d', f) && Shape(d')
    requires s in d.refs && s !in d.files[f].data
    ensures s in d'.refs && d'.refs[s] == d.refs[s] && HostSector(d', d'.refs[s]) == HostSector(d, d.refs[s])
  {
    RefElsewhere(d, f, s);
    if Live(d.files[d.refs[s].file]) {
      OtherName(d, f, d.refs[s].file);
    }
  }

  lemma RefElsewhere(d: Disk, f: nat, s: sector)
    requires Owned(d) && f < |d.files| && s in d.refs && s !in d.files[f].data
    ensures d.refs[s].file != f && d.refs[s].file < |d.files|
  {
    assert RefOwned(d, s);
  }

  /** No sector but the file's own reads differently, so no other file does. */
  lemma DeleteLeavesOthers(d: Disk, d': Disk, f: nat)
    requires Sound(d) && DeleteStep(d, d', f)
    ensures Sound(d') && SameReads(d, d', Freed(d.files[f], [], [])) && OthersSame(d, d', f) && RootSame(d, d')
  {
    DeleteSound(d, d', f);
    var gone := Freed(d.files[f], [], []);
    forall s: sector | 1 <= s <= d.sectors && s !in gone ensures ReadSector(d', s) == ReadSector(d, s) {
      DeleteReads(d, d', f, s);
    }
    forall s | s in gone
      ensures 4 <= s && !InRoot(d, s)
      ensures forall g: nat | g < |d.files| && g != f :: s !in d.files[g].maps && s !in d.files[g].data
    {
      OwnIs(d, f, s);
      TakableIs(d, f, s);
    }
    OthersFrom(d, d', f, gone);
  }
}
