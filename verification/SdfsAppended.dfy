/** The appended file, and all others, as the guest sees them across the commit. */
module SdfsAppended {
  import opened ByteBits
  import opened SdfsMap
  import opened SdfsDisk
  import opened SdfsCreate
  import opened SdfsAppend

  /** The new sectors are distinct and not taken. */
  ghost predicate FreshSectors(d: Disk, f: nat, added: seq<sector>)
    requires f < |d.files|
  {
    && DataSectors(d, d.files[f].data + added) && NoDup(d.files[f].data + added)
    && forall s | s in added :: s !in d.refs
  }

  /** Appending is invisible, but for what lies behind the new end. */
  lemma AppendInvisible(d: Disk, d': Disk, f: nat, newLength: nat, maps: seq<sector>, added: seq<sector>)
    requires Shape(d) && Owned(d) && AppendStep(d, d', f, newLength, maps, added) && OnDisk(maps, d.sectors)
    requires FreshSectors(d, f, added)
    ensures Shape(d') && SameReads(d, d', LastOf(d.files[f].data + added))
  {
    AppendShape(d, d', f, newLength, maps, added);
    forall s: sector | 1 <= s <= d.sectors && s !in LastOf(d.files[f].data + added)
      ensures ReadSector(d', s) == ReadSector(d, s)
    {
      AppendedSector(d, d', f, newLength, maps, added, s);
    }
  }

  lemma AppendedSector(d: Disk, d': Disk, f: nat, newLength: nat, maps: seq<sector>, added: seq<sector>, s: sector)
    requires Shape(d) && Owned(d) && AppendStep(d, d', f, newLength, maps, added) && Shape(d')
    requires FreshSectors(d, f, added) && 1 <= s <= d.sectors && s !in LastOf(d.files[f].data + added)
    ensures ReadSector(d', s) == ReadSector(d, s)
  {
    if s in Tail(d.files[f].data, d.files[f].length, added) {
      var i := TailPlace(d.files[f].data, d.files[f].length, added, s);
      TailReads(d, d', f, newLength, maps, added, i);
    } else {
      OtherReads(d, d', f, newLength, maps, added, s);
    }
  }

  lemma TailPlace(data: seq<sector>, length: nat, added: seq<sector>, s: sector) returns (i: nat)
    requires s in Tail(data, length, added) && s !in LastOf(data + added)
    ensures |data| + |added| - |Tail(data, length, added)| <= i && i + 1 < |data + added| && (data + added)[i] == s
  {
    var all, tail := data + added, Tail(data, length, added);
    var k: nat :| k < |tail| && tail[k] == s;
    i := |all| - |tail| + k;
    assert all[i] == s;
  }

  /** The old sectors before the first rewritten one read as the host file has
      them: nothing else is staged there. */
  ghost predicate OldAsHost(d: Disk, f: nat, added: seq<sector>)
    requires Shape(d) && f < |d.files|
  {
    var file := d.files[f];
    file.name in d.host && OnDisk(file.data, d.sectors)
    && OldParts(ViewOf(d), d.host[file.name], file.data, |file.data| + |added| - |Tail(file.data, file.length, added)|)
  }

  ghost predicate OldParts(view: View, content: seq<byte>, data: seq<sector>, first: int) {
    forall i: nat | i < first :: i < |data| && view(data[i]) == Part(content, i)
  }

  /** The grown file: the guest sees the same contents before and after; and they
      are the host file's exactly if the old part was. */
  lemma AppendedFile(d: Disk, d': Disk, f: nat, newLength: nat, maps: seq<sector>, added: seq<sector>,
                     content: seq<byte>)
    requires Shape(d) && Owned(d) && AppendStep(d, d', f, newLength, maps, added) && OnDisk(maps, d.sectors)
    requires FreshSectors(d, f, added) && forall s | s in LastOf(d.files[f].data + added) :: s !in maps
    requires IsGuestFile(ViewOf(d), d.sectors, FirstOf(maps), maps, d.files[f].data + added, newLength, content)
    ensures Shape(d')
    ensures IsGuestFile(ViewOf(d'), d.sectors, FirstOf(maps), maps, d.files[f].data + added, newLength, content)
    ensures d'.host[d.files[f].name] == content <==> OldAsHost(d, f, added)
  {
    var all := d.files[f].data + added;
    AppendInvisible(d, d', f, newLength, maps, added);
    SameChain(d, d', LastOf(all), maps, all);
    NeededFits(newLength, |all|);
    AppendedAgree(d, d', f, newLength, maps, added);
    AgreeGathered(ViewOf(d), ViewOf(d'), d.sectors, all, newLength);
    if OldAsHost(d, f, added) {
      HostIsSeen(d, d', f, newLength, maps, added);
    }
    if d'.host[d.files[f].name] == content {
      SeenIsOld(d, d', f, newLength, maps, added, content);
    }
  }

  /** If the host file is what the guest sees, the old part was the host's. */
  lemma SeenIsOld(d: Disk, d': Disk, f: nat, newLength: nat, maps: seq<sector>, added: seq<sector>, content: seq<byte>)
    requires Shape(d) && f < |d.files| && AppendFiles(d, d', f, newLength, maps, added)
    requires OnDisk(d.files[f].data + added, d.sectors) && newLength <= SECTOR * |d.files[f].data + added|
    requires d'.host[d.files[f].name] == content == Gathered(ViewOf(d), d.sectors, d.files[f].data + added)[..newLength]
    ensures OldAsHost(d, f, added)
  {
    var file := d.files[f];
    var all := file.data + added;
    TailLength(file.length, file.data, added, newLength);
    forall i: nat | i < |all| - |Tail(file.data, file.length, added)|
      ensures i < |file.data| && ViewOf(d)(file.data[i]) == Part(d.host[file.name], i)
    {
      forall k: nat | k < SECTOR ensures ViewOf(d)(all[i])[k] == Part(d.host[file.name], i)[k] {
        GatheredByte(ViewOf(d), d.sectors, all, i, k);
        GrownPart(d.host[file.name], d.pending, file.data, added, newLength, i, k);
        assert Part(content, i)[k] == content[SECTOR * i + k];
      }
      assert all[i] == file.data[i];
    }
    OldFirst(file.data, added, d.sectors);
  }

  lemma OldFirst(data: seq<sector>, added: seq<sector>, sectors: nat)
    requires OnDisk(data + added, sectors)
    ensures OnDisk(data, sectors)
  {
    forall i: nat | i < |data| ensures 1 <= data[i] <= sectors {
      assert (data + added)[i] == data[i];
    }
  }

  lemma AppendedAgree(d: Disk, d': Disk, f: nat, newLength: nat, maps: seq<sector>, added: seq<sector>)
    requires Shape(d) && Owned(d) && AppendStep(d, d', f, newLength, maps, added) && Shape(d')
    requires FreshSectors(d, f, added) && SameReads(d, d', LastOf(d.files[f].data + added))
    ensures OnDisk(d.files[f].data + added, d.sectors)
    ensures AgreeTo(ViewOf(d), ViewOf(d'), d.sectors, d.files[f].data + added, newLength)
  {
    var all := d.files[f].data + added;
    forall i: nat, k: nat | i < |all| && k < SECTOR && SECTOR * i + k < newLength
      ensures ViewOf(d)(all[i])[k] == ViewOf(d')(all[i])[k]
    {
      AppendedByte(d, d', f, newLength, maps, added, i, k);
    }
  }

  lemma AppendedByte(d: Disk, d': Disk, f: nat, newLength: nat, maps: seq<sector>, added: seq<sector>, i: nat, k: nat)
    requires Shape(d) && Owned(d) && AppendStep(d, d', f, newLength, maps, added) && Shape(d')
    requires FreshSectors(d, f, added) && SameReads(d, d', LastOf(d.files[f].data + added))
    requires i < |d.files[f].data + added| && k < SECTOR && SECTOR * i + k < newLength
    ensures var s := (d.files[f].data + added)[i]; ViewOf(d)(s)[k] == ViewOf(d')(s)[k]
  {
    var all := d.files[f].data + added;
    if i + 1 < |all| {
      assert all[i] !in LastOf(all);
      assert ReadSector(d', all[i]) == ReadSector(d, all[i]);
    } else {
      TailSome(d.files[f].data, d.files[f].length, added, newLength);
      TailReads(d, d', f, newLength, maps, added, i);
    }
  }

  /** Something is always rewritten. */
  lemma TailSome(data: seq<sector>, length: nat, added: seq<sector>, newLength: nat)
    requires |data| == Needed(length) && length < newLength && |data| + |added| == Needed(newLength)
    ensures |Tail(data, length, added)| > 0
  {
    NeededFits(newLength, |data| + |added|);
    var q, r := length / SECTOR, length % SECTOR;
    assert length == SECTOR * q + r;
    assert r == 0 ==> |data| == q;
  }

  lemma HostIsSeen(d: Disk, d': Disk, f: nat, newLength: nat, maps: seq<sector>, added: seq<sector>)
    requires Shape(d) && f < |d.files| && AppendFiles(d, d', f, newLength, maps, added) && OldAsHost(d, f, added)
    requires DataSectors(d, d.files[f].data + added) && newLength <= SECTOR * |d.files[f].data + added|
    ensures OnDisk(d.files[f].data + added, d.sectors)
    ensures d'.host[d.files[f].name] == Gathered(ViewOf(d), d.sectors, d.files[f].data + added)[..newLength]
  {
    var file := d.files[f];
    QueuedViews(d, file.data + added);
    GrownIsSeen(ViewOf(d), d.sectors, d.host[file.name], d.pending, file.data, added, newLength);
  }

  ghost predicate QueuedSeen(view: View, pending: Metadata, all: seq<sector>) {
    forall i: nat | i < |all| && all[i] in pending :: view(all[i]) == Fit(pending[all[i]], SECTOR)
  }

  lemma QueuedViews(d: Disk, all: seq<sector>)
    requires Shape(d) && DataSectors(d, all)
    ensures OnDisk(all, d.sectors) && QueuedSeen(ViewOf(d), d.pending, all)
  {
  }

  lemma GrownIsSeen(view: View, sectors: nat, content: seq<byte>, pending: Metadata, data: seq<sector>,
                    added: seq<sector>, newLength: nat)
    requires IsView(view, sectors) && OnDisk(data + added, sectors) && newLength <= SECTOR * |data + added|
    requires AllQueued(pending, Tail(data, |content|, added)) && |data| == Needed(|content|)
    requires |content| < newLength && |data| + |added| == Needed(newLength)
    requires OldParts(view, content, data, |data| + |added| - |Tail(data, |content|, added)|)
    requires QueuedSeen(view, pending, data + added)
    ensures Grown(content, pending, data, added, newLength) == Gathered(view, sectors, data + added)[..newLength]
  {
    GrownLength(content, pending, data, added, newLength);
    forall x: nat | x < newLength
      ensures Grown(content, pending, data, added, newLength)[x] == Gathered(view, sectors, data + added)[x]
    {
      ByteAt(x, |data + added|);
      GatheredByte(view, sectors, data + added, x / SECTOR, x % SECTOR);
      GrownByte(view, sectors, content, pending, data, added, newLength, x / SECTOR, x % SECTOR);
    }
  }

  lemma GrownByte(view: View, sectors: nat, content: seq<byte>, pending: Metadata, data: seq<sector>,
                  added: seq<sector>, newLength: nat, i: nat, k: nat)
    requires IsView(view, sectors) && OnDisk(data + added, sectors)
    requires AllQueued(pending, Tail(data, |content|, added)) && |data| == Needed(|content|)
    requires |content| < newLength && |data| + |added| == Needed(newLength)
    requires OldParts(view, content, data, |data| + |added| - |Tail(data, |content|, added)|)
    requires QueuedSeen(view, pending, data + added)
    requires i < |data + added| && k < SECTOR && SECTOR * i + k < newLength
    ensures |Grown(content, pending, data, added, newLength)| == newLength
    ensures Grown(content, pending, data, added, newLength)[SECTOR * i + k] == view((data + added)[i])[k]
  {
    GrownPart(content, pending, data, added, newLength, i, k);
    assert Part(Grown(content, pending, data, added, newLength), i)[k]
           == Grown(content, pending, data, added, newLength)[SECTOR * i + k];
  }
}
