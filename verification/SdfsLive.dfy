/** When the commits go through, in the terms of the guest's sectors: exactly what each
    of them asks for, and that what the guest writes for a good file meets it. */
module SdfsLive {
  import opened ByteBits
  import opened Options
  import opened SdfsMap
  import opened SdfsDisk
  import opened SdfsNames
  import opened SdfsDirectory
  import opened SdfsEntries
  import opened SdfsCreate
  import opened SdfsAppend
  import opened SdfsReplace
  import opened SdfsImage

  // ---- The directory entry ----

  /** Record k of the directory is a closed file's, with this first map and name. */
  predicate Closed(dir: seq<byte>, k: nat, first: sector, shown: seq<byte>)
    requires RECORD * (k + 2) <= |dir|
  {
    var o := RECORD * (k + 1);
    dir[o] == 8 && Get16(dir, o + 1) == first && Visible(dir[o + 6..o + 17]) == shown
  }

  /** It is the first such one within the directory's length, and has this length. */
  ghost predicate EntryAt(dir: seq<byte>, k: nat, first: sector, shown: seq<byte>, length: nat) {
    && RECORD * (k + 2) <= |dir| && RECORD * (k + 2) <= Get24(dir, 3)
    && Closed(dir, k, first, shown)
    && Get24(dir, RECORD * (k + 1) + 3) == length
    && forall j: nat | j < k :: !Closed(dir, j, first, shown)
  }

  ghost predicate HasEntry(d: Disk, first: sector, shown: seq<byte>, length: nat)
    requires Shape(d)
  {
    exists k: nat :: EntryAt(RootBytes(d), k, first, shown, length)
  }

  lemma FoundIs(dir: seq<byte>, first: sector, shown: seq<byte>, length: nat)
    requires |dir| >= SECTOR
    ensures FinishedFrom(dir, 0, first, shown) == Some(length)
            <==> exists k: nat :: EntryAt(dir, k, first, shown, length)
  {
    FinishedMeans(dir, 0, first, shown);
    if FinishedFrom(dir, 0, first, shown) == Some(length) {
      FoundHas(dir, first, shown, length);
    }
    if k: nat :| EntryAt(dir, k, first, shown, length) {
      HasFound(dir, k, first, shown, length, 0);
    }
  }

  lemma FoundHas(dir: seq<byte>, first: sector, shown: seq<byte>, length: nat)
    requires |dir| >= SECTOR && FinishedFrom(dir, 0, first, shown) == Some(length)
    ensures exists k: nat :: EntryAt(dir, k, first, shown, length)
  {
    FinishedMeans(dir, 0, first, shown);
    var k: nat :| k < EntryCount(dir) && IsFinished(dir, k, first, shown) && length == Get24(dir, RECORD * (k + 1) + 3)
      && forall j: nat | j < k :: !IsFinished(dir, j, first, shown);
    forall j: nat | j < k ensures !Closed(dir, j, first, shown) {
      assert !IsFinished(dir, j, first, shown);
    }
    assert EntryAt(dir, k, first, shown, length);
  }

  lemma {:induction false} HasFound(dir: seq<byte>, k: nat, first: sector, shown: seq<byte>, length: nat, from: nat)
    requires |dir| >= SECTOR && EntryAt(dir, k, first, shown, length) && from <= k
    ensures from <= EntryCount(dir) && FinishedFrom(dir, from, first, shown) == Some(length)
    decreases k - from
  {
    assert k < EntryCount(dir);
    if from < k {
      assert !Closed(dir, from, first, shown);
      HasFound(dir, k, first, shown, length, from + 1);
    }
  }

  lemma EntryIs(d: Disk, first: sector, shown: seq<byte>, length: nat)
    requires Shape(d)
    ensures Finished(d, first, shown) == Some(length) <==> HasEntry(d, first, shown, length)
  {
    if d.rootData != [] {
      FoundIs(RootBytes(d), first, shown, length);
    }
  }

  // ---- What the commits ask for ----

  /** As many sectors as the length needs: the last one is needed, and all suffice. */
  predicate Suffice(n: nat, length: nat) {
    length <= SECTOR * n && (n > 0 ==> SECTOR * (n - 1) < length)
  }

  lemma NeededIs(n: nat, length: nat)
    ensures n == Needed(length) <==> Suffice(n, length)
  {
  }

  lemma {:induction false} DotOf(base: string, rest: string)
    requires '.' !in base && (rest != "" ==> rest[0] == '.')
    ensures Dot(base + rest) == |base|
  {
    if base == "" {
      assert base + rest == rest;
    } else {
      assert (base + rest)[1..] == base[1..] + rest;
      DotOf(base[1..], rest);
    }
  }

  /** Enough observed writes: exactly if all are staged, distinct, and no maps. */
  lemma ObservedIs(order: seq<sector>, listed: seq<sector>, maps: seq<sector>)
    requires NoDup(order)
    ensures |Observed(order, listed, maps)| >= |listed|
            <==> NoDup(listed) && forall s | s in listed :: s in order && s !in maps
  {
    if |Observed(order, listed, maps)| >= |listed| {
      Pigeonhole(order, listed, maps);
    }
    if NoDup(listed) && forall s | s in listed :: s in order && s !in maps {
      var seen := Observed(order, listed, maps);
      ObservedMembers(order, listed, maps);
      DistinctCount(seen);
      DistinctCount(listed);
      assert (set x: sector | x in seen) == set x: sector | x in listed;
    }
  }

  ghost predicate AllKnown(d: Disk, maps: seq<sector>) {
    forall i: nat | i < |maps| :: maps[i] in d.pending || maps[i] in d.meta
  }

  /** No file that is not empty is shown under the name. */
  predicate NotShown(d: Disk, name: string) {
    forall i: nat | i < |d.files| && d.files[i].length > 0 :: d.files[i].atari != Atari(name)
  }

  /** The directory has the closed entry, with the length that was staged; the chain from
      its map lists as many sectors as that needs, all staged, distinct and none of them a
      map, by known maps, one more than these at most; and the name is short and taken
      neither by a file that is shown nor on the host. */
  ghost predicate CreateAsked(d: Disk, name: string, first: sector, length: nat, maps: seq<sector>,
                              listed: seq<sector>)
    requires Shape(d)
  {
    && HasEntry(d, first, Codes(name), length)
    && IsChain(ViewOf(d), d.sectors, first, maps, listed) && AllKnown(d, maps)
    && Suffice(|listed|, length) && 1 <= |maps| <= |listed| + 1
    && NoDup(listed) && (forall s | s in listed :: s in d.pending && s !in maps)
    && 1 <= Dot(name) <= 8 && |name| <= Dot(name) + 4 && NotShown(d, name) && name !in d.host
  }

  /** A create goes through exactly then. */
  lemma CreateAsks(d: Disk, name: string, first: sector, length: nat, order: seq<sector>, maps: seq<sector>,
                   listed: seq<sector>)
    requires Shape(d) && NoDup(order) && forall s :: s in order <==> s in d.pending
    ensures CreateReady(d, name, first, length, order, maps, listed)
            <==> CreateAsked(d, name, first, length, maps, listed)
  {
    EntryIs(d, first, Codes(name), length);
    NeededIs(|listed|, length);
    ObservedIs(order, listed, maps);
    KnownIs(d, maps, 0);
    if HasEntry(d, first, Codes(name), length) {
      ShortLength(d, first, Codes(name), length);
    }
    NotShownIs(d, name);
  }

  lemma KnownIs(d: Disk, maps: seq<sector>, spared: nat)
    ensures MapsKnown(Known(d), spared, maps) <==> spared > |maps| || AllKnown(d, maps[spared..])
  {
    if spared <= |maps| {
      assert forall i: nat | i < |maps| - spared :: maps[spared..][i] == maps[spared + i];
      if AllKnown(d, maps[spared..]) {
        forall i: nat | spared <= i < |maps| ensures maps[i] in Known(d) {
          assert maps[spared..][i - spared] == maps[i];
        }
      }
    }
    assert spared == 0 ==> maps[spared..] == maps;
  }

  lemma NotShownIs(d: Disk, name: string)
    ensures IsShortName(name) ==> (Inventoried(d, name) <==> !NotShown(d, name))
  {
  }

  lemma ShortLength(d: Disk, first: sector, shown: seq<byte>, length: nat)
    requires Shape(d) && HasEntry(d, first, shown, length)
    ensures length <= 0xff_ffff
  {
    var k: nat :| EntryAt(RootBytes(d), k, first, shown, length);
  }

  /** The last sector is staged, and has been noted with the file's end in it. */
  predicate TailNoted(d: Disk, file: File, pend: PendingAppend) {
    && file.data != [] && pend.tailSector == file.data[|file.data| - 1]
    && pend.tailOffset == file.length % SECTOR && pend.tailSector in d.pending && 4 <= pend.tailSector
  }

  predicate NoneInUse(d: Disk, ss: seq<sector>) {
    forall s | s in ss :: s < |d.inUse| ==> !d.inUse[s]
  }

  lemma TailIs(d: Disk, file: File, pend: PendingAppend)
    requires Shape(d) && Suffice(|file.data|, file.length)
    ensures TailReady(d, file, pend) <==> (file.length % SECTOR != 0 ==> TailNoted(d, file, pend))
  {
  }

  /** The file is as it was when the entry changed, and its entry has the new length; the
      chain goes on from its maps and its data, by as many new sectors as that needs,
      staged, distinct and none of them a map; a last sector that was not full is staged as
      it was noted; and with new data, none of the new sectors is in use. */
  ghost predicate AppendAsked(d: Disk, pend: PendingAppend, maps: seq<sector>, added: seq<sector>)
    requires Shape(d) && pend.file < |d.files|
  {
    var file := d.files[pend.file];
    && pend.name == file.name && pend.oldLength == file.length && pend.oldMaps == file.maps
    && pend.oldData == file.data && file.maps != [] && pend.mapSector == file.maps[0]
    && file.length < pend.newLength && HasEntry(d, file.maps[0], VisibleName(file.atari), pend.newLength)
    && IsChain(ViewOf(d), d.sectors, file.maps[0], maps, file.data + added)
    && file.maps <= maps && AllKnown(d, maps[|file.maps|..])
    && Suffice(|file.data|, file.length) && Suffice(|file.data| + |added|, pend.newLength)
    && NoDup(added) && (forall s | s in added :: s in d.pending && s !in maps)
    && (file.length % SECTOR != 0 ==> TailNoted(d, file, pend))
    && (added != [] ==> NoneInUse(d, maps[|file.maps|..]) && NoneInUse(d, added))
  }

  /** An append goes through exactly then. */
  lemma AppendAsks(d: Disk, pend: PendingAppend, maps: seq<sector>, added: seq<sector>)
    requires Shape(d) && pend.file < |d.files|
    ensures AppendReady(d, pend, maps, added) <==> AppendAsked(d, pend, maps, added)
  {
    var file := d.files[pend.file];
    NeededIs(|file.data|, file.length);
    NeededIs(|file.data| + |added|, pend.newLength);
    if file.maps != [] {
      EntryIs(d, file.maps[0], VisibleName(file.atari), pend.newLength);
      if HasEntry(d, file.maps[0], VisibleName(file.atari), pend.newLength) {
        ShortLength(d, file.maps[0], VisibleName(file.atari), pend.newLength);
      }
    }
    KnownIs(d, maps, |file.maps|);
    if Suffice(|file.data|, file.length) {
      TailIs(d, file, pend);
    }
    if file.maps <= maps {
      assert AnyInUse(d, maps[|file.maps|..]) <==> !NoneInUse(d, maps[|file.maps|..]);
      assert AnyInUse(d, added) <==> !NoneInUse(d, added);
    }
  }

  /** The file is the one that was reopened, and its entry is closed; the chain lists as
      many sectors as the length needs, whole ones that are staged; and none of its sectors
      is the data of another file. */
  ghost predicate ReplaceAsked(d: Disk, f: nat, name: string, first: sector, length: nat, maps: seq<sector>,
                               listed: seq<sector>)
    requires Shape(d) && f < |d.files|
  {
    var file := d.files[f];
    && file.name == name && file.maps != [] && file.maps[0] == first
    && HasEntry(d, first, VisibleName(file.atari), length)
    && IsChain(ViewOf(d), d.sectors, first, maps, listed)
    && (|file.maps| <= |maps| ==> AllKnown(d, maps[|file.maps|..])) && maps != []
    && Suffice(|listed|, length) && (forall s | s in listed :: s in d.pending && 4 <= s)
    && forall s | (s in listed || s in maps) && s in d.refs :: d.refs[s].file == f
  }

  /** A replacement goes through exactly then. */
  lemma ReplaceAsks(d: Disk, f: nat, name: string, first: sector, length: nat, maps: seq<sector>, listed: seq<sector>)
    requires Shape(d) && f < |d.files|
    ensures ReplaceReady(d, f, name, first, length, maps, listed)
            <==> ReplaceAsked(d, f, name, first, length, maps, listed)
  {
    EntryIs(d, first, VisibleName(d.files[f].atari), length);
    NeededIs(|listed|, length);
    KnownIs(d, maps, |d.files[f].maps|);
    assert forall s :: s in listed + maps <==> s in listed || s in maps;
  }
}
