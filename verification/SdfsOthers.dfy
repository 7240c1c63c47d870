/** Every commit leaves every other file, and the root directory, as the guest sees
    them. */
module SdfsOthers {
  import opened ByteBits
  import opened SdfsMap
  import opened SdfsDisk
  import opened SdfsDirectory
  import opened SdfsCreate
  import opened SdfsAppend
  import opened SdfsAppended
  import opened SdfsReplace
  import opened SdfsEntries
  import opened SdfsApart

  /** The guest sees file g, by its own maps and data, with these contents. */
  ghost predicate ShownAs(d: Disk, g: nat, length: nat, content: seq<byte>)
    requires Shape(d) && g < |d.files|
  {
    IsGuestFile(ViewOf(d), d.sectors, FirstOf(d.files[g].maps), d.files[g].maps, d.files[g].data, length, content)
  }

  /** Whatever it sees of a file other than f, it sees afterwards. */
  ghost predicate OthersSame(d: Disk, d': Disk, f: nat)
    requires Shape(d) && Shape(d')
  {
    && |d.files| <= |d'.files|
    && forall g: nat, length: nat, content: seq<byte> | g < |d.files| && g != f && ShownAs(d, g, length, content) ::
         ShownAs(d', g, length, content)
  }

  /** The chain from the boot sector's root map leads to the root directory. */
  ghost predicate RootLinked(d: Disk)
    requires Shape(d)
  {
    1 <= d.sectors && IsChain(ViewOf(d), d.sectors, Get16(ReadSector(d, 1), 9), d.rootMaps, d.rootData)
  }

  /** It still does, if it did, and the root directory reads as before. */
  ghost predicate RootSame(d: Disk, d': Disk)
    requires Shape(d) && Shape(d')
  {
    RootBytes(d') == RootBytes(d) && (RootLinked(d) ==> RootLinked(d'))
  }

  /** Sectors that may read differently, and are no other file's. */
  ghost predicate GoneIsOwn(d: Disk, f: nat, gone: set<sector>) {
    && (forall s | s in gone :: 4 <= s && !InRoot(d, s))
    && (forall g: nat, s | g < |d.files| && g != f && s in gone :: s !in d.files[g].maps && s !in d.files[g].data)
  }

  lemma OthersFrom(d: Disk, d': Disk, f: nat, gone: set<sector>)
    requires Shape(d) && Shape(d') && Same(d, d') && SameReads(d, d', gone)
    requires |d.files| <= |d'.files| && forall g: nat | g < |d.files| && g != f :: d'.files[g] == d.files[g]
    requires GoneIsOwn(d, f, gone)
    ensures OthersSame(d, d', f) && RootSame(d, d')
  {
    forall g: nat, length: nat, content: seq<byte> | g < |d.files| && g != f && ShownAs(d, g, length, content)
      ensures ShownAs(d', g, length, content)
    {
      OthersUnchanged(d, d', gone, FirstOf(d.files[g].maps), d.files[g].maps, d.files[g].data, length, content);
    }
    RootFrom(d, d', gone);
    if RootLinked(d) {
      RootChain(d, d', gone);
    }
  }

  lemma RootChain(d: Disk, d': Disk, gone: set<sector>)
    requires Shape(d) && Shape(d') && Same(d, d') && SameReads(d, d', gone)
    requires RootLinked(d) && forall s | s in gone :: 4 <= s && !InRoot(d, s)
    ensures RootLinked(d')
  {
    assert ReadSector(d', 1) == ReadSector(d, 1);
    assert Get16(ReadSector(d, 1), 9) == FirstOf(d.rootMaps);
    SameChain(d, d', gone, d.rootMaps, d.rootData);
  }

  lemma RootFrom(d: Disk, d': Disk, gone: set<sector>)
    requires Shape(d) && Shape(d') && Same(d, d') && SameReads(d, d', gone)
    requires forall s | s in gone :: s !in d.rootData
    ensures RootBytes(d') == RootBytes(d)
  {
    forall s | s in d.rootData ensures ViewOf(d)(s) == ViewOf(d')(s) {
      assert 1 <= s <= d.sectors;
      assert ReadSector(d', s) == ReadSector(d, s);
    }
    SameGathered(ViewOf(d), ViewOf(d'), d.sectors, d.rootData);
  }

  // ---- The three commits ----

  lemma CreateLeavesOthers(d: Disk, d': Disk, name: string, length: nat, maps: seq<sector>, listed: seq<sector>)
    requires Sound(d) && CreateStep(d, d', name, length, maps, listed)
    requires CreateFree(d, maps, listed) && |listed| == Needed(length)
    ensures Sound(d') && OthersSame(d, d', |d.files|) && RootSame(d, d')
  {
    CreateSound(d, d', name, length, maps, listed);
    AllFreeIs(d, listed);
    AllFreeIs(d, maps);
    CreateInvisible(d, d', name, length, maps, listed);
    FreeGone(d, |d.files|, listed);
    OthersFrom(d, d', |d.files|, LastOf(listed));
  }

  lemma FreeGone(d: Disk, f: nat, ss: seq<sector>)
    requires Sound(d) && AllFree(d, ss)
    ensures GoneIsOwn(d, f, LastOf(ss))
  {
    if ss != [] {
      var s := ss[|ss| - 1];
      assert s in ss;
      FreeIs(d, s);
      forall g: nat | g < |d.files| ensures s !in d.files[g].maps && s !in d.files[g].data {
        FreeOfAll(d, g, s);
      }
    }
  }

  lemma AppendLeavesOthers(d: Disk, d': Disk, f: nat, newLength: nat, maps: seq<sector>, added: seq<sector>)
    requires Sound(d) && AppendStep(d, d', f, newLength, maps, added) && AppendFree(d, f, maps, added)
    ensures Sound(d') && OthersSame(d, d', f) && RootSame(d, d')
  {
    AppendSound(d, d', f, newLength, maps, added);
    AppendInvisible(d, d', f, newLength, maps, added);
    TailGone(d, f, added);
    OthersFrom(d, d', f, LastOf(d.files[f].data + added));
  }

  lemma TailGone(d: Disk, f: nat, added: seq<sector>)
    requires Sound(d) && f < |d.files| && AllFree(d, added)
    ensures GoneIsOwn(d, f, LastOf(d.files[f].data + added))
  {
    var data := d.files[f].data;
    if added != [] {
      FreeGone(d, f, added);
      assert LastOf(data + added) == LastOf(added);
    } else if data != [] {
      var s := data[|data| - 1];
      assert data + added == data && s in data;
      OwnIs(d, f, s);
      TakableIs(d, f, s);
    }
  }

  lemma ReplaceLeavesOthers(d: Disk, d': Disk, f: nat, newLength: nat, maps: seq<sector>, listed: seq<sector>)
    requires Sound(d) && ReplaceStep(d, d', f, newLength, maps, listed) && ReplaceFits(d, f, maps, listed)
    requires Live(d.files[f])
    ensures Sound(d') && OthersSame(d, d', f) && RootSame(d, d')
  {
    ReplaceSound(d, d', f, newLength, maps, listed);
    ReplaceInvisible(d, d', f, newLength, maps, listed);
    var gone := Freed(d.files[f], maps, listed) + LastOf(listed);
    forall s | s in gone
      ensures 4 <= s && !InRoot(d, s)
      ensures forall g: nat | g < |d.files| && g != f :: s !in d.files[g].maps && s !in d.files[g].data
    {
      if s in LastOf(listed) {
        assert s in listed && Takable(d, f, s);
      } else {
        OwnIs(d, f, s);
      }
      TakableIs(d, f, s);
    }
    OthersFrom(d, d', f, gone);
  }

  // ---- In the directory's terms ----

  /** Entry k of the root directory leads to this content. */
  ghost predicate EntryShows(d: Disk, k: nat, content: seq<byte>)
    requires Shape(d) && RECORD * (k + 2) <= |RootBytes(d)|
  {
    var dir, o := RootBytes(d), RECORD * (k + 1);
    GuestFile(ViewOf(d), d.sectors, Get16(dir, o + 1), Get24(dir, o + 3), content)
  }

  /** Entry k is file g's. */
  ghost predicate EntryOf(d: Disk, k: nat, g: nat)
    requires Shape(d) && RECORD * (k + 2) <= |RootBytes(d)| && g < |d.files|
  {
    Get16(RootBytes(d), RECORD * (k + 1) + 1) == FirstOf(d.files[g].maps)
  }

  /** So every other file's entry leads to what it led to. */
  lemma EntriesSame(d: Disk, d': Disk, f: nat, k: nat, g: nat, content: seq<byte>)
    requires Shape(d) && Shape(d') && d'.sectors == d.sectors && OthersSame(d, d', f) && RootSame(d, d')
    requires RECORD * (k + 2) <= |RootBytes(d)| && g < |d.files| && g != f && EntryOf(d, k, g)
    requires d'.files[g] == d.files[g] && ShownAs(d, g, Get24(RootBytes(d), RECORD * (k + 1) + 3), content)
    ensures EntryShows(d, k, content) && EntryShows(d', k, content)
  {
    assert ShownAs(d', g, Get24(RootBytes(d), RECORD * (k + 1) + 3), content);
  }
}
