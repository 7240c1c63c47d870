/** What the commits of the image check is what the runs ask for, but for these: a
    create does not look whether its sectors are free, an append without new data
    not whether its new maps are, a replacement not whether its sectors fit, and a
    rename not at the names on the host, nor at what a replacement has staged. For
    each of them, what it leaves unchecked is just what keeping the disk needs. */
module SdfsCommits {
  import opened ByteBits
  import opened SdfsMap
  import opened SdfsDisk
  import opened SdfsCreate
  import opened SdfsAppend
  import opened SdfsAppended
  import opened SdfsReplace
  import opened SdfsApart
  import opened SdfsNames
  import opened SdfsWrite
  import opened SdfsRename
  import opened SdfsImage
  import opened SdfsRuns

  ghost predicate NoneUsed(d: Disk, ss: seq<sector>) {
    forall s | s in ss :: s < |d.inUse| && !d.inUse[s]
  }

  lemma UnusedIsFree(d: Disk, s: sector)
    requires Sound(d) && 1 <= s <= d.sectors && !d.inUse[s]
    ensures Free(d, s)
  {
    assert s <= 3 ==> ReservedAt(d, s);
  }

  lemma UnusedAreFree(d: Disk, ss: seq<sector>)
    requires Sound(d) && OnDisk(ss, d.sectors) && NoneUsed(d, ss)
    ensures AllFree(d, ss)
  {
    forall s | s in ss ensures Free(d, s) {
      var i: nat :| i < |ss| && ss[i] == s;
      UnusedIsFree(d, s);
    }
  }

  /** A create that goes through names distinct sectors that are staged. */
  lemma CreateListed(d: Disk, name: string, mapSector: sector, length: nat, order: seq<sector>, maps: seq<sector>,
                     listed: seq<sector>)
    requires Shape(d) && CreateReady(d, name, mapSector, length, order, maps, listed)
    requires NoDup(order) && forall s :: s in order <==> s in d.pending
    ensures NoneTwice(maps, listed) && OnDisk(listed, d.sectors) && OnDisk(maps, d.sectors)
  {
    Pigeonhole(order, listed, maps);
    forall i: nat | i < |listed| ensures 1 <= listed[i] <= d.sectors {
      assert listed[i] in listed && listed[i] in d.pending;
    }
  }

  /** It keeps the disk sound and the count right exactly if none of its sectors was
      in use before. */
  lemma CreateKeeps(d: Disk, d': Disk, name: string, mapSector: sector, length: nat, order: seq<sector>,
                    maps: seq<sector>, listed: seq<sector>)
    requires Sound(d) && CountRight(d) && CreateReady(d, name, mapSector, length, order, maps, listed)
    requires NoDup(order) && forall s :: s in order <==> s in d.pending
    requires CreateStep(d, d', name, length, maps, listed)
    ensures Sound(d') && CountRight(d') <==> NoneUsed(d, listed) && NoneUsed(d, maps)
  {
    CreateListed(d, name, mapSector, length, order, maps, listed);
    CreateCounts(d, d', name, length, maps, listed);
    if NoneUsed(d, listed) && NoneUsed(d, maps) {
      UnusedAreFree(d, listed);
      UnusedAreFree(d, maps);
      CreateSound(d, d', name, length, maps, listed);
    }
  }

  /** A create that goes through keeps disk, hosts and count right exactly if none of
      its sectors was in use; then it is a step of a run. */
  lemma CreateGood(i: Image, j: Image, name: string, mapSector: sector, length: nat, order: seq<sector>,
                   maps: seq<sector>, listed: seq<sector>)
    requires Good(i) && CreateReady(i.d, name, mapSector, length, order, maps, listed)
    requires NoDup(order) && forall s :: s in order <==> s in i.d.pending
    requires CreateStep(i.d, j.d, name, length, maps, listed) && j.replacing == i.replacing
    ensures Good(j) <==> NoneUsed(i.d, listed) && NoneUsed(i.d, maps)
    ensures Good(j) ==> Does(i, Create(name, length, maps, listed), j)
  {
    CreateKeeps(i.d, j.d, name, mapSector, length, order, maps, listed);
    if NoneUsed(i.d, listed) && NoneUsed(i.d, maps) {
      CreateListed(i.d, name, mapSector, length, order, maps, listed);
      UnusedAreFree(i.d, listed);
      UnusedAreFree(i.d, maps);
      StepGood(i, Create(name, length, maps, listed), j);
    }
  }

  /** An append's new maps and new data. */
  lemma AppendListed(d: Disk, pend: PendingAppend, maps: seq<sector>, added: seq<sector>)
    requires Shape(d) && AppendReady(d, pend, maps, added)
    ensures OnDisk(added, d.sectors) && OnDisk(maps, d.sectors) && NoneTwice(maps, added)
  {
    forall k: nat | k < |added| ensures 1 <= added[k] <= d.sectors {
      assert added[k] in added && added[k] in d.pending;
    }
  }

  lemma NewMaps(sectors: nat, maps: seq<sector>, added: seq<sector>, n: nat)
    requires OnDisk(maps, sectors) && NoneTwice(maps, added) && n <= |maps|
    ensures OnDisk(maps[n..], sectors) && NoDup(maps[n..]) && forall s | s in added :: s !in maps[n..]
  {
    var news := maps[n..];
    forall k: nat | k < |news| ensures 1 <= news[k] <= sectors {
      assert news[k] == maps[n + k];
    }
    forall a: nat, b: nat | a < b < |news| ensures news[a] != news[b] {
      assert news[a] == maps[n + a] && news[b] == maps[n + b];
    }
    forall s | s in added ensures s !in news {
      assert s in news ==> s in maps;
    }
  }

  /** An append that goes through does so exactly if none of its new maps was in use,
      which it looks at if there are new data too. */
  lemma AppendGood(i: Image, j: Image, pend: PendingAppend, maps: seq<sector>, added: seq<sector>)
    requires Good(i) && AppendReady(i.d, pend, maps, added) && j.replacing == i.replacing
    requires AppendStep(i.d, j.d, pend.file, pend.newLength, maps, added)
    ensures Good(j) <==> NoneUsed(i.d, maps[|i.d.files[pend.file].maps|..])
    ensures Good(j) ==> Does(i, Append(pend.file, pend.newLength, maps, added), j)
  {
    var news := maps[|i.d.files[pend.file].maps|..];
    AppendListed(i.d, pend, maps, added);
    NewMaps(i.d.sectors, maps, added, |i.d.files[pend.file].maps|);
    if NoneUsed(i.d, news) {
      AppendDoes(i, j, pend, maps, added, news);
    }
    if Good(j) {
      AppendTaken(i.d, j.d, pend, maps, added, news);
    }
  }

  /** So with new data it always does. */
  lemma AppendLooks(d: Disk, pend: PendingAppend, maps: seq<sector>, added: seq<sector>)
    requires Shape(d) && AppendReady(d, pend, maps, added) && added != []
    ensures NoneUsed(d, maps[|d.files[pend.file].maps|..]) && NoneUsed(d, added)
  {
    AppendListed(d, pend, maps, added);
    NewMaps(d.sectors, maps, added, |d.files[pend.file].maps|);
    OnDiskIn(d.sectors, maps[|d.files[pend.file].maps|..]);
    OnDiskIn(d.sectors, added);
  }

  lemma OnDiskIn(sectors: nat, ss: seq<sector>)
    requires OnDisk(ss, sectors)
    ensures forall s | s in ss :: 1 <= s <= sectors
  {
  }

  lemma AppendDoes(i: Image, j: Image, pend: PendingAppend, maps: seq<sector>, added: seq<sector>, news: seq<sector>)
    requires Good(i) && AppendReady(i.d, pend, maps, added) && j.replacing == i.replacing
    requires AppendStep(i.d, j.d, pend.file, pend.newLength, maps, added)
    requires news == maps[|i.d.files[pend.file].maps|..] && NoneUsed(i.d, news) && OnDisk(news, i.d.sectors)
    requires OnDisk(added, i.d.sectors) && NoneTwice(maps, added)
    ensures Good(j) && Does(i, Append(pend.file, pend.newLength, maps, added), j)
  {
    UnusedAreFree(i.d, news);
    assert NoneUsed(i.d, added);
    UnusedAreFree(i.d, added);
    StepGood(i, Append(pend.file, pend.newLength, maps, added), j);
  }

  lemma AppendTaken(d: Disk, d': Disk, pend: PendingAppend, maps: seq<sector>, added: seq<sector>, news: seq<sector>)
    requires Shape(d) && AppendStep(d, d', pend.file, pend.newLength, maps, added) && CountRight(d) && CountRight(d')
    requires news == maps[|d.files[pend.file].maps|..] && OnDisk(news, d.sectors) && OnDisk(added, d.sectors)
    requires NoDup(news) && NoDup(added) && forall s | s in added :: s !in news
    ensures NoneUsed(d, news)
  {
    forall s | s in added || s in news ensures s < |d.inUse| {
      if s in added {
        var k: nat :| k < |added| && added[k] == s;
      } else {
        var k: nat :| k < |news| && news[k] == s;
      }
    }
    TakenCount(d.inUse, d'.inUse, added, news);
  }

  /** What a replacement leaves unchecked: a data sector listed twice, the bitmap's, or
      metadata that are not its own old maps; and maps in the place of boot sectors,
      bitmap, root directory or another file's maps. */
  ghost predicate ReplaceUnchecked(d: Disk, f: nat, maps: seq<sector>, listed: seq<sector>)
    requires f < |d.files|
  {
    && NoDup(listed)
    && (forall s | s in listed :: s !in maps && !InBitmap(d, s) && (s in d.meta ==> s in d.files[f].maps))
    && (forall s | s in maps :: 4 <= s && !InBitmap(d, s) && !InRoot(d, s))
    && (forall s, g: nat | s in maps && g < |d.files| && g != f :: s !in d.files[g].maps)
  }

  lemma UncheckedFits(d: Disk, f: nat, name: string, mapSector: sector, length: nat, maps: seq<sector>,
                      listed: seq<sector>)
    requires Sound(d) && ReplaceReady(d, f, name, mapSector, length, maps, listed)
    requires ReplaceUnchecked(d, f, maps, listed)
    ensures ReplaceFits(d, f, maps, listed)
  {
    forall s | s in listed ensures Takable(d, f, s) {
      ListedTakable(d, f, maps, listed, s);
    }
    forall s | s in maps ensures Takable(d, f, s) {
      var k: nat :| k < |maps| && maps[k] == s;
      assert s in listed + maps;
    }
  }

  lemma FitsUnchecked(d: Disk, f: nat, maps: seq<sector>, listed: seq<sector>)
    requires f < |d.files| && ReplaceFits(d, f, maps, listed)
    ensures ReplaceUnchecked(d, f, maps, listed)
  {
    forall s | s in listed || s in maps
      ensures 4 <= s && !InBitmap(d, s) && !InRoot(d, s)
      ensures forall g: nat | g < |d.files| && g != f :: s !in d.files[g].maps
    {
      assert Takable(d, f, s);
    }
  }

  lemma ListedTakable(d: Disk, f: nat, maps: seq<sector>, listed: seq<sector>, s: sector)
    requires Sound(d) && f < |d.files| && ReplaceUnchecked(d, f, maps, listed) && s in listed
    requires s in d.pending && |d.pending[s]| == SECTOR
    requires forall s | s in listed + maps && s in d.refs :: d.refs[s].file == f
    ensures Takable(d, f, s)
  {
    assert s in listed + maps;
    if s in d.files[f].maps {
      MapIs(d, f, s);
    }
    forall g: nat | g < |d.files| && g != f ensures s !in d.files[g].maps {
      if s in d.files[g].maps {
        MapIs(d, g, s);
        FilesApart(d, g, f, s);
        assert false;
      }
    }
  }

  /** A replacement that goes through does so exactly if that holds too. */
  lemma ReplaceGood(i: Image, j: Image, f: nat, name: string, mapSector: sector, length: nat, maps: seq<sector>,
                    listed: seq<sector>)
    requires Good(i) && ReplaceReady(i.d, f, name, mapSector, length, maps, listed)
    requires ReplaceStep(i.d, j.d, f, length, maps, listed) && j.replacing == i.replacing - {f}
    ensures Good(j) <==> ReplaceUnchecked(i.d, f, maps, listed)
    ensures Good(j) ==> Does(i, Replace(f, length, maps, listed), j)
  {
    ReplaceKeeps(i.d, j.d, f, length, maps, listed);
    if ReplaceUnchecked(i.d, f, maps, listed) {
      UncheckedFits(i.d, f, name, mapSector, length, maps, listed);
    }
    if ReplaceFits(i.d, f, maps, listed) {
      FitsUnchecked(i.d, f, maps, listed);
      StepGood(i, Replace(f, length, maps, listed), j);
    }
  }

  /** A rename that goes through does so exactly if no other file has the new name on
      the host, and what is staged of the file is in its host file. */
  lemma RenameGood(i: Image, j: Image, f: nat, atari: seq<byte>)
    requires Good(i) && RenameStep(i.d, j.d, f, atari) && j.replacing == i.replacing - {f}
    ensures Good(j) <==> NameFree(i.d, f, Text(Visible(atari))) && FileStaged(i.d, f)
    ensures Good(j) ==> Does(i, Rename(f, atari), j)
  {
    RenameKeeps(i.d, j.d, i.replacing, f, atari);
    if NameFree(i.d, f, Text(Visible(atari))) && FileStaged(i.d, f) {
      StepGood(i, Rename(f, atari), j);
    }
  }
}
