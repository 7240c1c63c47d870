/** Committing new contents for a file: the host file is rewritten, sectors no
    longer listed are freed, and no other sector reads differently. */
module SdfsReplace {
  import opened ByteBits
  import opened SdfsMap
  import opened SdfsDisk
  import opened SdfsCreate
  import opened SdfsAppend

  /** Sectors the file gives up. */
  function Freed(file: File, maps: seq<sector>, listed: seq<sector>): set<sector> {
    set s: sector | (s in file.data && s !in listed) || (s in file.maps && s !in maps)
  }

  /** What the old maps leave behind in the metadata. */
  predicate OldMap(file: File, maps: seq<sector>, s: sector) {
    s in file.maps && s !in maps
  }

  ghost predicate ReplaceFiles(d: Disk, d': Disk, f: nat, newLength: nat, maps: seq<sector>, listed: seq<sector>)
    requires f < |d.files|
  {
    var file := d.files[f];
    && AllQueued(d.pending, listed) && |listed| == Needed(newLength) && newLength <= SECTOR * |listed|
    && d'.files == d.files[f := file.(length := newLength, data := listed, maps := maps)]
    && d'.host == d.host[file.name := Queued(d.pending, listed)[..newLength]]
  }

  ghost predicate ReplaceRefs(d: Disk, d': Disk, f: nat, listed: seq<sector>)
    requires f < |d.files|
  {
    && (forall s :: s in d'.refs <==> (s in d.refs && s !in d.files[f].data) || s in listed)
    && (forall s | s in d.refs && s !in d.files[f].data && s !in listed :: d'.refs[s] == d.refs[s])
    && (forall s | s in listed :: d'.refs[s].file == f)
    && (NoDup(listed) ==> forall i: nat | i < |listed| :: listed[i] in d'.refs && d'.refs[listed[i]] == Ref(f, i))
  }

  ghost predicate ReplaceMeta(d: Disk, d': Disk, view: View, f: nat, maps: seq<sector>, listed: seq<sector>)
    requires f < |d.files|
  {
    var file := d.files[f];
    && d'.bitmap == d.bitmap
    && (forall s :: s in d'.meta <==> (s in d.meta && !OldMap(file, maps, s)) || s in maps)
    && (forall s | s in d'.meta :: d'.meta[s] == if s in maps then view(s) else d.meta[s])
    && (forall s :: s in d'.pending <==>
          s in d.pending && s !in file.data && s !in file.maps && s !in listed && s !in maps)
    && (forall s | s in d'.pending :: d'.pending[s] == d.pending[s])
  }

  ghost predicate ReplaceUse(d: Disk, d': Disk, f: nat, maps: seq<sector>, listed: seq<sector>)
    requires f < |d.files|
  {
    && |d'.inUse| == |d.inUse|
    && (forall s: nat | s < |d.inUse| ::
          d'.inUse[s] == (s in listed || s in maps || (d.inUse[s] && s !in Freed(d.files[f], maps, listed))))
    && (d.useCount == |Used(d.inUse)| ==> d'.useCount == |Used(d'.inUse)|)
  }

  ghost predicate ReplaceStep(d: Disk, d': Disk, f: nat, newLength: nat, maps: seq<sector>, listed: seq<sector>)
    requires Shape(d)
  {
    && Same(d, d') && f < |d.files|
    && ReplaceFiles(d, d', f, newLength, maps, listed) && ReplaceRefs(d, d', f, listed)
    && ReplaceMeta(d, d', ViewOf(d), f, maps, listed) && ReplaceUse(d, d', f, maps, listed)
  }

  /** The commit in two steps: what is no longer listed is freed ... */
  ghost predicate FreedStep(d: Disk, e: Disk, file: File, maps: seq<sector>, listed: seq<sector>) {
    && e == d.(inUse := e.inUse, useCount := e.useCount, refs := e.refs, meta := e.meta)
    && |e.inUse| == |d.inUse|
    && (forall s: nat | s < |d.inUse| :: e.inUse[s] == (d.inUse[s] && s !in Freed(file, maps, listed)))
    && e.refs == (map s | s in d.refs && !(s in file.data && s !in listed) :: d.refs[s])
    && e.meta == (map s | s in d.meta && !OldMap(file, maps, s) :: d.meta[s])
    && (d.useCount == |Used(d.inUse)| ==> e.useCount == |Used(e.inUse)|)
  }

  /** ... and what is listed is taken. */
  ghost predicate TakenStep(e: Disk, g: Disk, view: View, f: nat, maps: seq<sector>, listed: seq<sector>) {
    && g == e.(inUse := g.inUse, useCount := g.useCount, refs := g.refs, meta := g.meta)
    && |g.inUse| == |e.inUse|
    && (forall s: nat | s < |e.inUse| :: g.inUse[s] == (e.inUse[s] || s in listed || s in maps))
    && (forall s :: s in g.refs <==> s in e.refs || s in listed)
    && (forall s | s in g.refs && s !in listed :: g.refs[s] == e.refs[s])
    && (forall s | s in listed :: g.refs[s].file == f)
    && (NoDup(listed) ==> RefsAdded(e.refs, g.refs, f, 0, listed))
    && (forall s :: s in g.meta <==> s in e.meta || s in maps)
    && (forall s | s in g.meta :: g.meta[s] == if s in maps then view(s) else e.meta[s])
    && (e.useCount == |Used(e.inUse)| ==> g.useCount == |Used(g.inUse)|)
  }

  /** Both. */
  ghost predicate Swapped(d: Disk, g: Disk, view: View, f: nat, maps: seq<sector>, listed: seq<sector>)
    requires f < |d.files|
  {
    && g == d.(inUse := g.inUse, useCount := g.useCount, refs := g.refs, meta := g.meta)
    && ReplaceRefs(d, g, f, listed) && ReplaceUse(d, g, f, maps, listed)
    && (forall s :: s in g.meta <==> (s in d.meta && !OldMap(d.files[f], maps, s)) || s in maps)
    && (forall s | s in g.meta :: g.meta[s] == if s in maps then view(s) else d.meta[s])
  }

  lemma FreedAndTaken(d: Disk, e: Disk, g: Disk, view: View, f: nat, maps: seq<sector>, listed: seq<sector>)
    requires f < |d.files| && FreedStep(d, e, d.files[f], maps, listed) && TakenStep(e, g, view, f, maps, listed)
    ensures Swapped(d, g, view, f, maps, listed)
  {
  }

  /** None of these is a map of a file other than f. */
  ghost predicate NoMaps(d: Disk, f: nat, ss: seq<sector>) {
    forall g: nat, s | g < |d.files| && g != f && s in d.files[g].maps :: s !in ss
  }

  /** The new chain names distinct sectors that neither the bitmap nor metadata
      other than the file's own old maps own, nor another file. */
  ghost predicate Unowned(d: Disk, f: nat, maps: seq<sector>, listed: seq<sector>)
    requires f < |d.files|
  {
    && DataSectors(d, listed) && NoDup(listed) && OnDisk(maps, d.sectors)
    && (forall s | s in listed :: !InBitmap(d, s) && (s in d.meta ==> OldMap(d.files[f], maps, s)) && s !in maps)
    && (forall s | s in maps :: !InBitmap(d, s))
    && (forall s | (s in listed || s in maps) && s in d.refs :: d.refs[s].file == f)
    && NoMaps(d, f, listed)
  }

  lemma ReplaceShape(d: Disk, d': Disk, f: nat, newLength: nat, maps: seq<sector>, listed: seq<sector>)
    requires Shape(d) && Owned(d) && ReplaceStep(d, d', f, newLength, maps, listed) && OnDisk(maps, d.sectors)
    requires Live(d.files[f])
    ensures Shape(d')
  {
    forall g: nat | g < |d'.files| ensures FileOk(d', d'.files[g]) {
      assert g != f ==> FileOk(d, d.files[g]);
      if g != f && Live(d.files[g]) {
        OtherName(d, f, g);
      }
    }
  }

  /** A sector that the file neither had nor has. */
  lemma ElsewhereReads(d: Disk, d': Disk, f: nat, newLength: nat, maps: seq<sector>, listed: seq<sector>, s: sector)
    requires Shape(d) && Owned(d) && ReplaceStep(d, d', f, newLength, maps, listed) && Shape(d')
    requires Live(d.files[f]) && 1 <= s <= d.sectors
    requires s !in d.files[f].data && s !in d.files[f].maps && s !in listed && s !in maps
    ensures ReadSector(d', s) == ReadSector(d, s)
  {
    if s in d.refs {
      OtherFileKept(d, d', f, newLength, maps, listed, s);
    }
  }

  lemma OtherFileKept(d: Disk, d': Disk, f: nat, newLength: nat, maps: seq<sector>, listed: seq<sector>, s: sector)
    requires Shape(d) && Owned(d) && Shape(d') && f < |d.files| && ReplaceFiles(d, d', f, newLength, maps, listed)
    requires Live(d.files[f]) && s in d.refs && s !in d.files[f].data
    ensures d.refs[s].file < |d'.files| && HostSector(d', d.refs[s]) == HostSector(d, d.refs[s])
  {
    assert RefOwned(d, s);
    if Live(d.files[d.refs[s].file]) {
      OtherName(d, f, d.refs[s].file);
    }
  }

  /** A new map sector. */
  lemma MapReads(d: Disk, d': Disk, f: nat, newLength: nat, maps: seq<sector>, listed: seq<sector>, s: sector)
    requires Shape(d) && ReplaceStep(d, d', f, newLength, maps, listed) && Shape(d')
    requires Unowned(d, f, maps, listed) && s in maps
    ensures 1 <= s <= d.sectors && ReadSector(d', s) == ReadSector(d, s)
  {
    assert s in d'.meta && s !in d'.pending && !InBitmap(d', s);
  }

  /** A new data sector: from the host file now, up to its end. */
  lemma NewReads(d: Disk, d': Disk, f: nat, newLength: nat, maps: seq<sector>, listed: seq<sector>, i: nat)
    requires Shape(d) && ReplaceStep(d, d', f, newLength, maps, listed) && Shape(d')
    requires Unowned(d, f, maps, listed) && i < |listed|
    ensures CutOff(ReadSector(d, listed[i]), ReadSector(d', listed[i]), newLength - SECTOR * i)
    ensures i + 1 < |listed| ==> ReadSector(d', listed[i]) == ReadSector(d, listed[i])
  {
    NewFromHost(d, d', f, newLength, maps, listed, i);
    NewPart(d, d', f, newLength, maps, listed, i);
  }

  lemma NewFromHost(d: Disk, d': Disk, f: nat, newLength: nat, maps: seq<sector>, listed: seq<sector>, i: nat)
    requires Shape(d) && ReplaceStep(d, d', f, newLength, maps, listed) && Shape(d')
    requires Unowned(d, f, maps, listed) && i < |listed|
    ensures 4 <= listed[i] <= d.sectors && listed[i] in d.pending
    ensures ReadSector(d, listed[i]) == Fit(d.pending[listed[i]], SECTOR)
    ensures ReadSector(d', listed[i]) == HostSector(d', Ref(f, i))
  {
    var s := listed[i];
    assert s in listed && s !in d'.meta && s !in d'.pending && !InBitmap(d', s);
    assert d'.refs[s] == Ref(f, i);
  }

  lemma NewPart(d: Disk, d': Disk, f: nat, newLength: nat, maps: seq<sector>, listed: seq<sector>, i: nat)
    requires Shape(d') && f < |d.files| && f < |d'.files| && ReplaceFiles(d, d', f, newLength, maps, listed)
    requires i < |listed|
    ensures listed[i] in d.pending
    ensures CutOff(Fit(d.pending[listed[i]], SECTOR), HostSector(d', Ref(f, i)), newLength - SECTOR * i)
    ensures i + 1 < |listed| ==> HostSector(d', Ref(f, i)) == Fit(d.pending[listed[i]], SECTOR)
  {
    var s := listed[i];
    NeededFits(newLength, |listed|);
    forall k: nat | k < SECTOR
      ensures HostSector(d', Ref(f, i))[k] == if SECTOR * i + k < newLength then Fit(d.pending[s], SECTOR)[k] else 0
      ensures i + 1 < |listed| ==> SECTOR * i + k < newLength
    {
      PartQueued(d.pending, listed, newLength, i, k);
    }
  }

  /** Replacing is invisible, but for the sectors freed and what lies behind the
      new end. */
  lemma ReplaceInvisible(d: Disk, d': Disk, f: nat, newLength: nat, maps: seq<sector>, listed: seq<sector>)
    requires Shape(d) && Owned(d) && ReplaceStep(d, d', f, newLength, maps, listed)
    requires Live(d.files[f]) && Unowned(d, f, maps, listed)
    ensures Shape(d') && SameReads(d, d', Freed(d.files[f], maps, listed) + LastOf(listed))
  {
    ReplaceShape(d, d', f, newLength, maps, listed);
    forall s: sector | 1 <= s <= d.sectors && s !in Freed(d.files[f], maps, listed) + LastOf(listed)
      ensures ReadSector(d', s) == ReadSector(d, s)
    {
      if s in listed {
        var i: nat :| i < |listed| && listed[i] == s;
        NewReads(d, d', f, newLength, maps, listed, i);
      } else if s in maps {
        MapReads(d, d', f, newLength, maps, listed, s);
      } else {
        ElsewhereReads(d, d', f, newLength, maps, listed, s);
      }
    }
  }

  /** The replaced file: the guest sees the same contents before and after, and
      they are the host file's. */
  lemma ReplacedFile(d: Disk, d': Disk, f: nat, newLength: nat, maps: seq<sector>, listed: seq<sector>,
                     content: seq<byte>)
    requires Shape(d) && Owned(d) && ReplaceStep(d, d', f, newLength, maps, listed)
    requires Live(d.files[f]) && Unowned(d, f, maps, listed)
    requires IsGuestFile(ViewOf(d), d.sectors, FirstOf(maps), maps, listed, newLength, content)
    ensures Shape(d') && IsGuestFile(ViewOf(d'), d.sectors, FirstOf(maps), maps, listed, newLength, content)
    ensures d'.host[d.files[f].name] == content
  {
    ReplaceInvisible(d, d', f, newLength, maps, listed);
    ChainStays(d, d', f, newLength, maps, listed);
    QueuedIsSeen(d, listed, newLength);
    NewStays(d, d', f, newLength, maps, listed);
    AgreeGathered(ViewOf(d), ViewOf(d'), d.sectors, listed, newLength);
  }

  lemma ChainStays(d: Disk, d': Disk, f: nat, newLength: nat, maps: seq<sector>, listed: seq<sector>)
    requires Shape(d) && ReplaceStep(d, d', f, newLength, maps, listed) && Shape(d')
    requires Unowned(d, f, maps, listed) && IsChain(ViewOf(d), d.sectors, FirstOf(maps), maps, listed)
    ensures IsChain(ViewOf(d'), d.sectors, FirstOf(maps), maps, listed)
  {
    forall s | s in maps ensures ViewOf(d)(s) == ViewOf(d')(s) {
      MapReads(d, d', f, newLength, maps, listed, s);
    }
    ChainKept(ViewOf(d), ViewOf(d'), d.sectors, maps, listed);
  }

  lemma NewStays(d: Disk, d': Disk, f: nat, newLength: nat, maps: seq<sector>, listed: seq<sector>)
    requires Shape(d) && ReplaceStep(d, d', f, newLength, maps, listed) && Shape(d')
    requires Unowned(d, f, maps, listed) && OnDisk(listed, d.sectors)
    ensures AgreeTo(ViewOf(d), ViewOf(d'), d.sectors, listed, newLength)
  {
    forall i: nat, k: nat | i < |listed| && k < SECTOR && SECTOR * i + k < newLength
      ensures ViewOf(d)(listed[i])[k] == ViewOf(d')(listed[i])[k]
    {
      NewReads(d, d', f, newLength, maps, listed, i);
    }
  }

  lemma ChainKept(v: View, w: View, sectors: nat, maps: seq<sector>, data: seq<sector>)
    requires IsView(v, sectors) && IsView(w, sectors) && IsChain(v, sectors, FirstOf(maps), maps, data)
    requires forall s | s in maps :: v(s) == w(s)
    ensures IsChain(w, sectors, FirstOf(maps), maps, data)
  {
    SameEntries(v, w, sectors, maps);
    forall i: nat | i < |maps| ensures v(maps[i]) == w(maps[i]) {
      assert maps[i] in maps;
    }
  }

  /** The condition matters: a listed sector in the bitmap's place goes back to the
      bitmap that was there, whatever the guest has written. */
  lemma BitmapComesBack(d: Disk, d': Disk, f: nat, newLength: nat, maps: seq<sector>, listed: seq<sector>, s: sector)
    requires Shape(d) && ReplaceStep(d, d', f, newLength, maps, listed) && Shape(d')
    requires s in listed && InBitmap(d, s) && 4 <= s <= d.sectors
    ensures ReadSector(d', s) == BitmapSector(d, s)
    ensures ReadSector(d', s) == ReadSector(d, s) <==> Fit(d.pending[s], SECTOR) == BitmapSector(d, s)
  {
    ListedLeaves(d, d', f, newLength, maps, listed, s);
    BitmapReads(d, s);
    BitmapReads(d', s);
  }

  lemma ListedLeaves(d: Disk, d': Disk, f: nat, newLength: nat, maps: seq<sector>, listed: seq<sector>, s: sector)
    requires Shape(d) && ReplaceStep(d, d', f, newLength, maps, listed) && s in listed
    ensures s in d.pending && s !in d'.pending && Same(d, d') && d'.bitmap == d.bitmap
  {
    var i: nat :| i < |listed| && listed[i] == s;
  }

  lemma BitmapReads(d: Disk, s: sector)
    requires Shape(d) && InBitmap(d, s) && 4 <= s <= d.sectors
    ensures ReadSector(d, s) == if s in d.pending then Fit(d.pending[s], SECTOR) else BitmapSector(d, s)
  {
  }
}
