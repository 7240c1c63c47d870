/** Committing data that the guest has appended to a file: its host file grows, and
    no sector reads differently. */
module SdfsAppend {
  import opened ByteBits
  import opened SdfsMap
  import opened SdfsDisk
  import opened SdfsCreate

  // ---- Who owns what ----

  /** A file's data sectors are as many as its length needs, and refer back; its
      maps are nobody's data. */
  ghost predicate FileOwns(d: Disk, f: nat)
    requires f < |d.files|
  {
    && |d.files[f].data| == Needed(d.files[f].length) && OnDisk(d.files[f].data, d.sectors)
    && (forall i: nat | i < |d.files[f].data| ::
          d.files[f].data[i] in d.refs && d.refs[d.files[f].data[i]] == Ref(f, i))
    && (forall s | s in d.files[f].maps :: s !in d.refs)
  }

  ghost predicate RefOwned(d: Disk, s: sector)
    requires s in d.refs
  {
    var r := d.refs[s];
    r.file < |d.files| && r.index < |d.files[r.file].data| && d.files[r.file].data[r.index] == s
    && 1 <= s < |d.inUse| && d.inUse[s]
  }

  ghost predicate Owned(d: Disk) {
    && (forall f: nat | f < |d.files| :: FileOwns(d, f))
    && (forall s | s in d.refs :: RefOwned(d, s))
    && (forall f: nat, g: nat | f < g < |d.files| && Live(d.files[f]) && Live(d.files[g]) ::
          d.files[f].name != d.files[g].name)
  }

  // ---- The grown host file ----

  /** Where the rewritten part begins: the last old sector, if it is not full. */
  function Kept(length: nat): nat {
    SECTOR * (length / SECTOR)
  }

  /** The last old sector if it was not full, and the new ones. */
  function Tail(data: seq<sector>, length: nat, added: seq<sector>): seq<sector> {
    if length % SECTOR != 0 && data != [] then [data[|data| - 1]] + added else added
  }

  function Grown(content: seq<byte>, pending: Metadata, data: seq<sector>, added: seq<sector>, newLength: nat)
    : seq<byte>
    requires AllQueued(pending, Tail(data, |content|, added)) && |data| == Needed(|content|)
    requires |content| < newLength && |data| + |added| == Needed(newLength)
  {
    TailLength(|content|, data, added, newLength);
    content[..Kept(|content|)] + Queued(pending, Tail(data, |content|, added))[..newLength - Kept(|content|)]
  }

  lemma TailLength(length: nat, data: seq<sector>, added: seq<sector>, newLength: nat)
    requires |data| == Needed(length) && length < newLength && |data| + |added| == Needed(newLength)
    ensures Kept(length) <= length
    ensures newLength - Kept(length) <= SECTOR * |Tail(data, length, added)|
    ensures Kept(length) == SECTOR * (|data| + |added| - |Tail(data, length, added)|)
  {
    var q, r := length / SECTOR, length % SECTOR;
    assert length == SECTOR * q + r;
    NeededFits(newLength, |data| + |added|);
    if r == 0 {
      assert |data| == q;
    } else {
      assert |data| == q + 1;
    }
  }

  /** Each sector of the grown file: old, or queued, up to the new end. */
  lemma GrownPart(content: seq<byte>, pending: Metadata, data: seq<sector>, added: seq<sector>, newLength: nat,
                  i: nat, k: nat)
    requires AllQueued(pending, Tail(data, |content|, added)) && |data| == Needed(|content|)
    requires |content| < newLength && |data| + |added| == Needed(newLength)
    requires i < |data| + |added| && k < SECTOR
    ensures |Grown(content, pending, data, added, newLength)| == newLength
    ensures var all, first := data + added, |data| + |added| - |Tail(data, |content|, added)|;
      && first <= |data| && (i >= first ==> all[i] in pending)
      && Part(Grown(content, pending, data, added, newLength), i)[k] ==
           if i < first then Part(content, i)[k]
           else if SECTOR * i + k < newLength then Fit(pending[all[i]], SECTOR)[k] else 0
  {
    var all, tail := data + added, Tail(data, |content|, added);
    var first := |all| - |tail|;
    TailLength(|content|, data, added, newLength);
    if i >= first {
      TailAt(data, |content|, added, i);
      QueuedAt(pending, tail, i - first, k);
      assert SECTOR * i + k == Kept(|content|) + (SECTOR * (i - first) + k);
    }
  }

  /** The tail is the end of the new list. */
  lemma TailAt(data: seq<sector>, length: nat, added: seq<sector>, i: nat)
    requires |data| + |added| - |Tail(data, length, added)| <= i < |data| + |added|
    ensures Tail(data, length, added)[i - (|data| + |added| - |Tail(data, length, added)|)] == (data + added)[i]
  {
    if |Tail(data, length, added)| > |added| {
      assert i == |data| - 1 || (data + added)[i] == added[i - |data|];
    } else {
      assert (data + added)[i] == added[i - |data|];
    }
  }

  // ---- The commit ----

  /** The file and its host file grow. */
  ghost predicate AppendFiles(d: Disk, d': Disk, f: nat, newLength: nat, maps: seq<sector>, added: seq<sector>)
    requires f < |d.files|
  {
    var file := d.files[f];
    && AllQueued(d.pending, Tail(file.data, file.length, added)) && |file.data| == Needed(file.length)
    && file.length < newLength && |file.data| + |added| == Needed(newLength)
    && Live(file) && file.name in d.host && |d.host[file.name]| == file.length
    && d'.files == d.files[f := file.(length := newLength, data := file.data + added, maps := maps)]
    && d'.host == d.host[file.name := Grown(d.host[file.name], d.pending, file.data, added, newLength)]
  }

  ghost predicate RefsAdded(was: map<sector, Ref>, now: map<sector, Ref>, f: nat, from: nat, added: seq<sector>) {
    && (forall s :: s in now <==> s in was || s in added)
    && (forall s | s in was && s !in added :: now[s] == was[s])
    && (forall i: nat | i < |added| :: added[i] in now && now[added[i]] == Ref(f, from + i))
  }

  lemma RefsMore(was: map<sector, Ref>, now: map<sector, Ref>, f: nat, from: nat, added: seq<sector>, n: nat)
    requires NoDup(added) && n < |added| && RefsAdded(was, now, f, from, added[..n])
    ensures RefsAdded(was, now[added[n] := Ref(f, from + n)], f, from, added[..n + 1])
  {
    var more, next := added[..n + 1], now[added[n] := Ref(f, from + n)];
    assert more == added[..n] + [added[n]];
    forall i: nat | i < |more| ensures more[i] in next && next[more[i]] == Ref(f, from + i) {
      assert i < n ==> added[..n][i] in now && more[i] == added[..n][i] && more[i] != added[n];
    }
  }

  ghost predicate AppendRefs(d: Disk, d': Disk, f: nat, from: nat, added: seq<sector>) {
    RefsAdded(d.refs, d'.refs, f, from, added)
  }

  ghost predicate AppendUse(d: Disk, d': Disk, added: seq<sector>, newMaps: seq<sector>) {
    && |d'.inUse| == |d.inUse|
    && (forall s: nat | s < |d.inUse| :: d'.inUse[s] == (d.inUse[s] || s in added || s in newMaps))
    && d'.useCount == d.useCount + |added| + |newMaps|
  }

  /** The old last sector leaves the queue with the new ones, if it was not full. */
  ghost predicate AppendStep(d: Disk, d': Disk, f: nat, newLength: nat, maps: seq<sector>, added: seq<sector>)
    requires Shape(d)
  {
    && Same(d, d') && f < |d.files| && |d.files[f].maps| <= |maps|
    && AppendFiles(d, d', f, newLength, maps, added)
    && AppendRefs(d, d', f, |d.files[f].data|, added)
    && OverlayStep(d, d', ViewOf(d), maps, SetOf(Tail(d.files[f].data, d.files[f].length, added)))
    && AppendUse(d, d', added, maps[|d.files[f].maps|..])
  }

  /** Before the overlay is taken over. */
  ghost predicate Enlarged(d: Disk, e: Disk, f: nat, newLength: nat, maps: seq<sector>, added: seq<sector>)
    requires Shape(d)
  {
    && Same(d, e) && f < |d.files| && |d.files[f].maps| <= |maps|
    && AppendFiles(d, e, f, newLength, maps, added) && AppendRefs(d, e, f, |d.files[f].data|, added)
    && AppendUse(d, e, added, maps[|d.files[f].maps|..]) && e.pending == d.pending && e.bitmap == d.bitmap
    && (forall s :: s in e.meta <==> s in d.meta || s in maps)
    && (forall s | s in e.meta :: e.meta[s] == if s in maps then ViewOf(d)(s) else d.meta[s])
  }

  /** The file first, then its sectors. */
  ghost predicate SectorsTaken(d: Disk, e: Disk, view: View, f: nat, from: nat, maps: seq<sector>, added: seq<sector>,
                               newMaps: seq<sector>)
  {
    && e == d.(inUse := e.inUse, useCount := e.useCount, refs := e.refs, meta := e.meta)
    && AppendRefs(d, e, f, from, added) && AppendUse(d, e, added, newMaps)
    && (forall s :: s in e.meta <==> s in d.meta || s in maps)
    && (forall s | s in e.meta :: e.meta[s] == if s in maps then view(s) else d.meta[s])
  }

  lemma EnlargedParts(d: Disk, c: Disk, e: Disk, f: nat, newLength: nat, maps: seq<sector>, added: seq<sector>)
    requires Shape(d) && f < |d.files| && |d.files[f].maps| <= |maps|
    requires AppendFiles(d, c, f, newLength, maps, added) && c == d.(files := c.files, host := c.host)
    requires SectorsTaken(c, e, ViewOf(d), f, |d.files[f].data|, maps, added, maps[|d.files[f].maps|..])
    ensures Enlarged(d, e, f, newLength, maps, added)
  {
  }

  lemma EnlargedTaken(d: Disk, e: Disk, d': Disk, f: nat, newLength: nat, maps: seq<sector>, added: seq<sector>)
    requires Shape(d) && Enlarged(d, e, f, newLength, maps, added)
    requires Cleared(e, d', Tail(d.files[f].data, d.files[f].length, added))
    ensures AppendStep(d, d', f, newLength, maps, added)
  {
    OverlayHalf(d, e, d', ViewOf(d), maps, Tail(d.files[f].data, d.files[f].length, added));
  }

  lemma AppendShape(d: Disk, d': Disk, f: nat, newLength: nat, maps: seq<sector>, added: seq<sector>)
    requires Shape(d) && Owned(d) && AppendStep(d, d', f, newLength, maps, added)
    requires OnDisk(maps, d.sectors)
    ensures Shape(d')
  {
    var file := d.files[f];
    GrownLength(d.host[file.name], d.pending, file.data, added, newLength);
    forall g: nat | g < |d'.files| ensures FileOk(d', d'.files[g]) {
      assert g != f ==> FileOk(d, d.files[g]);
      if g != f && Live(d.files[g]) {
        OtherName(d, f, g);
      }
    }
    forall s | s in d'.refs ensures d'.refs[s].file < |d'.files| {
      if s in added {
        var i: nat :| i < |added| && added[i] == s;
      }
    }
  }

  lemma OtherName(d: Disk, f: nat, g: nat)
    requires Owned(d) && f < |d.files| && g < |d.files| && f != g && Live(d.files[f]) && Live(d.files[g])
    ensures d.files[f].name != d.files[g].name
  {
  }

  lemma GrownLength(content: seq<byte>, pending: Metadata, data: seq<sector>, added: seq<sector>, newLength: nat)
    requires AllQueued(pending, Tail(data, |content|, added)) && |data| == Needed(|content|)
    requires |content| < newLength && |data| + |added| == Needed(newLength)
    ensures |Grown(content, pending, data, added, newLength)| == newLength
  {
    TailLength(|content|, data, added, newLength);
  }

  /** Old sectors of the file that are not rewritten, and all of other files. */
  lemma OtherHost(d: Disk, d': Disk, f: nat, newLength: nat, maps: seq<sector>, added: seq<sector>, s: sector)
    requires Shape(d) && Owned(d) && Shape(d') && f < |d.files| && AppendFiles(d, d', f, newLength, maps, added)
    requires s in d.refs && s !in Tail(d.files[f].data, d.files[f].length, added)
    ensures d.refs[s].file < |d'.files| && HostSector(d', d.refs[s]) == HostSector(d, d.refs[s])
  {
    var r, file := d.refs[s], d.files[f];
    assert RefOwned(d, s);
    if r.file == f {
      NeededFits(file.length, |file.data|);
      OldPart(d.host[file.name], d.pending, file.data, added, newLength, r.index, s);
    } else if Live(d.files[r.file]) {
      OtherName(d, f, r.file);
    }
  }

  lemma OldPart(content: seq<byte>, pending: Metadata, data: seq<sector>, added: seq<sector>, newLength: nat,
                i: nat, s: sector)
    requires AllQueued(pending, Tail(data, |content|, added)) && |data| == Needed(|content|)
    requires |content| < newLength && |data| + |added| == Needed(newLength)
    requires i < |data| && data[i] == s && s !in Tail(data, |content|, added)
    ensures Part(Grown(content, pending, data, added, newLength), i) == Part(content, i)
  {
    var tail := Tail(data, |content|, added);
    assert |tail| > |added| ==> tail[0] == data[|data| - 1];
    assert i < |data| + |added| - |tail|;
    forall k: nat | k < SECTOR
      ensures Part(Grown(content, pending, data, added, newLength), i)[k] == Part(content, i)[k]
    {
      GrownPart(content, pending, data, added, newLength, i, k);
    }
  }

  /** A sector that is neither new nor the old last one. */
  lemma OtherReads(d: Disk, d': Disk, f: nat, newLength: nat, maps: seq<sector>, added: seq<sector>, s: sector)
    requires Shape(d) && Owned(d) && AppendStep(d, d', f, newLength, maps, added) && Shape(d')
    requires 1 <= s <= d.sectors && s !in Tail(d.files[f].data, d.files[f].length, added)
    ensures ReadSector(d', s) == ReadSector(d, s)
  {
    var tail := Tail(d.files[f].data, d.files[f].length, added);
    assert s !in added by {
      assert s in added ==> s in tail;
    }
    if s in d.refs {
      OtherHost(d, d', f, newLength, maps, added, s);
    }
  }

  lemma TailRef(d: Disk, d': Disk, f: nat, added: seq<sector>, i: nat)
    requires f < |d.files| && FileOwns(d, f) && AppendRefs(d, d', f, |d.files[f].data|, added)
    requires (forall s | s in added :: s !in d.refs) && i < |d.files[f].data| + |added|
    ensures var s := (d.files[f].data + added)[i]; s in d'.refs && d'.refs[s] == Ref(f, i)
  {
    var data := d.files[f].data;
    if i < |data| {
      assert data[i] in d.refs;
    } else {
      assert added[i - |data|] == (data + added)[i];
    }
  }

  /** A queued sector of the file: from the host file now, up to its end. */
  lemma TailHost(d: Disk, d': Disk, f: nat, newLength: nat, maps: seq<sector>, added: seq<sector>, i: nat)
    requires f < |d.files| && AppendFiles(d, d', f, newLength, maps, added) && Shape(d')
    requires var all := d.files[f].data + added;
      |all| - |Tail(d.files[f].data, d.files[f].length, added)| <= i < |all|
    ensures var s := (d.files[f].data + added)[i];
      && s in d.pending && CutOff(Fit(d.pending[s], SECTOR), HostSector(d', Ref(f, i)), newLength - SECTOR * i)
    ensures i + 1 < |d.files[f].data + added| ==> SECTOR <= newLength - SECTOR * i
  {
    var file := d.files[f];
    var all, tail := file.data + added, Tail(file.data, file.length, added);
    NeededFits(newLength, |all|);
    TailAt(file.data, file.length, added, i);
    forall k: nat | k < SECTOR
      ensures HostSector(d', Ref(f, i))[k] ==
        if SECTOR * i + k < newLength then Fit(d.pending[all[i]], SECTOR)[k] else 0
    {
      GrownPart(d.host[file.name], d.pending, file.data, added, newLength, i, k);
    }
  }

  /** A queued sector that is the file's now. */
  lemma TailSector(d: Disk, d': Disk, maps: seq<sector>, erased: set<sector>, s: sector, ref: Ref, keep: nat)
    requires Shape(d) && Shape(d') && OverlayStep(d, d', ViewOf(d), maps, erased) && 4 <= s <= d.sectors
    requires s in erased && s in d.pending && s in d'.refs && d'.refs[s] == ref
    requires CutOff(Fit(d.pending[s], SECTOR), HostSector(d', ref), keep)
    ensures TakenOver(d, d', s) || SECTOR <= keep ==> ReadSector(d', s) == ReadSector(d, s)
    ensures !TakenOver(d, d', s) ==> CutOff(ReadSector(d, s), ReadSector(d', s), keep)
  {
    if TakenOver(d, d', s) {
      TakenReads(d, d', maps, erased, s);
    } else {
      HostReads(d, d', maps, erased, s);
    }
  }

  lemma TailReads(d: Disk, d': Disk, f: nat, newLength: nat, maps: seq<sector>, added: seq<sector>, i: nat)
    requires Shape(d) && Shape(d') && f < |d.files| && FileOwns(d, f)
    requires AppendFiles(d, d', f, newLength, maps, added) && AppendRefs(d, d', f, |d.files[f].data|, added)
    requires OverlayStep(d, d', ViewOf(d), maps, SetOf(Tail(d.files[f].data, d.files[f].length, added)))
    requires DataSectors(d, d.files[f].data + added) && forall s | s in added :: s !in d.refs
    requires var all := d.files[f].data + added;
      |all| - |Tail(d.files[f].data, d.files[f].length, added)| <= i < |all|
    ensures var s := (d.files[f].data + added)[i];
      && (i + 1 < |d.files[f].data + added| || TakenOver(d, d', s) ==> ReadSector(d', s) == ReadSector(d, s))
      && (!TakenOver(d, d', s) ==> CutOff(ReadSector(d, s), ReadSector(d', s), newLength - SECTOR * i))
  {
    var all, tail := d.files[f].data + added, Tail(d.files[f].data, d.files[f].length, added);
    TailAt(d.files[f].data, d.files[f].length, added, i);
    TailRef(d, d', f, added, i);
    TailHost(d, d', f, newLength, maps, added, i);
    TailSector(d, d', maps, SetOf(tail), all[i], Ref(f, i), newLength - SECTOR * i);
  }
}
