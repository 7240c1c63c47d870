/** Committing a file that the guest has created: the queued sectors become a host
    file, and no sector reads differently. */
module SdfsCreate {
  import opened ByteBits
  import opened Sets
  import opened SdfsMap
  import opened SdfsDisk
  import opened SdfsNames

  // ---- The queued contents ----

  ghost predicate AllQueued(pending: Metadata, listed: seq<sector>) {
    forall i: nat | i < |listed| :: listed[i] in pending
  }

  function Queued(pending: Metadata, listed: seq<sector>): (c: seq<byte>)
    requires AllQueued(pending, listed)
    ensures |c| == SECTOR * |listed|
  {
    if listed == [] then []
    else Queued(pending, listed[..|listed| - 1]) + Fit(pending[listed[|listed| - 1]], SECTOR)
  }

  lemma {:induction false} QueuedAt(pending: Metadata, listed: seq<sector>, i: nat, k: nat)
    requires AllQueued(pending, listed) && i < |listed| && k < SECTOR
    ensures Queued(pending, listed)[SECTOR * i + k] == Fit(pending[listed[i]], SECTOR)[k]
  {
    if i < |listed| - 1 {
      QueuedAt(pending, listed[..|listed| - 1], i, k);
    }
  }

  /** Data sectors that a length needs. */
  function Needed(length: nat): nat {
    (length + SECTOR - 1) / SECTOR
  }

  lemma NeededFits(length: nat, n: nat)
    requires n == Needed(length)
    ensures length <= SECTOR * n && (n > 0 ==> SECTOR * (n - 1) < length)
  {
  }

  /** Each sector of the host file is the queued one, up to the file's end. */
  lemma PartQueued(pending: Metadata, listed: seq<sector>, length: nat, i: nat, k: nat)
    requires AllQueued(pending, listed) && |listed| == Needed(length) && length <= SECTOR * |listed|
    requires i < |listed| && k < SECTOR
    ensures Part(Queued(pending, listed)[..length], i)[k] ==
      if SECTOR * i + k < length then Fit(pending[listed[i]], SECTOR)[k] else 0
    ensures i + 1 < |listed| ==> SECTOR * i + k < length
  {
    NeededFits(length, |listed|);
    QueuedAt(pending, listed, i, k);
  }

  // ---- The pigeonhole ----

  /** The queued sectors in writing order, kept if the map lists them and they are
      not maps themselves. */
  function Observed(order: seq<sector>, listed: seq<sector>, maps: seq<sector>): seq<sector> {
    if order == [] then []
    else
      var n := |order| - 1;
      Observed(order[..n], listed, maps) + if order[n] in listed && order[n] !in maps then [order[n]] else []
  }

  lemma {:induction false} ObservedMembers(order: seq<sector>, listed: seq<sector>, maps: seq<sector>)
    requires NoDup(order)
    ensures NoDup(Observed(order, listed, maps))
    ensures forall s :: s in Observed(order, listed, maps) <==> s in order && s in listed && s !in maps
  {
    if order != [] {
      var n := |order| - 1;
      ObservedMembers(order[..n], listed, maps);
      assert order == order[..n] + [order[n]];
      assert order[n] !in order[..n];
    }
  }

  function SetOf(s: seq<sector>): set<sector> {
    set x: sector | x in s
  }

  lemma {:induction false} SetCount(s: seq<sector>)
    ensures |SetOf(s)| <= |s| && (|SetOf(s)| == |s| ==> NoDup(s))
  {
    if s != [] {
      var n := |s| - 1;
      SetCount(s[..n]);
      assert s == s[..n] + [s[n]];
      assert SetOf(s) == SetOf(s[..n]) + {s[n]};
      if s[n] in s[..n] {
        assert SetOf(s) == SetOf(s[..n]);
      } else if |SetOf(s[..n])| == n {
        NoDupMore(s, n);
      }
    }
  }

  lemma NoDupMore(s: seq<sector>, n: nat)
    requires n + 1 == |s| && NoDup(s[..n]) && s[n] !in s[..n]
    ensures NoDup(s)
  {
    forall i: nat, j: nat | i < j < |s| ensures s[i] != s[j] {
      assert s[..n][i] == s[i] && (j < n ==> s[..n][j] == s[j]);
    }
  }

  /** As many observed writes as listed sectors: so no sector is listed twice, none
      is a map, and each has been written. */
  lemma Pigeonhole(order: seq<sector>, listed: seq<sector>, maps: seq<sector>)
    requires NoDup(order) && |Observed(order, listed, maps)| >= |listed|
    ensures NoDup(listed) && forall s | s in listed :: s !in maps && s in order
  {
    var seen := Observed(order, listed, maps);
    ObservedMembers(order, listed, maps);
    SetCount(listed);
    DistinctCount(seen);
    assert SetOf(seen) == set x: sector | x in seen;
    SubsetCount(SetOf(seen), SetOf(listed));
    assert SetOf(seen) == SetOf(listed);
    forall s | s in listed ensures s !in maps && s in order {
      assert s in SetOf(listed);
    }
  }

  // ---- The commit ----

  /** The overlay's bitmap and metadata sectors are taken over. */
  ghost predicate TakenOver(d: Disk, d': Disk, s: sector) {
    InBitmap(d, s) || s in d'.meta
  }

  ghost predicate Same(d: Disk, d': Disk) {
    && d'.sectors == d.sectors && d'.bitmapStart == d.bitmapStart && d'.bitmapSectors == d.bitmapSectors
    && d'.rootData == d.rootData && d'.rootMaps == d.rootMaps
  }

  ghost predicate OverlayStep(d: Disk, d': Disk, view: View, maps: seq<sector>, erased: set<sector>) {
    && Same(d, d') && |d'.bitmap| == |d.bitmap| == SECTOR * d.bitmapSectors
    && (forall s | InBitmap(d, s) ::
          BitmapSector(d', s) == if s in d.pending then Fit(d.pending[s], SECTOR) else BitmapSector(d, s))
    && (forall s :: s in d'.meta <==> s in d.meta || s in maps)
    && (forall s | s in d'.meta :: d'.meta[s] ==
          if s in d.pending && !InBitmap(d, s) then d.pending[s] else if s in maps then view(s) else d.meta[s])
    && (forall s :: s in d'.pending <==> s in d.pending && !TakenOver(d, d', s) && s !in erased)
    && (forall s | s in d'.pending :: d'.pending[s] == d.pending[s])
  }

  /** Bitmap and metadata sectors read as before: what was queued is theirs now. */
  lemma TakenReads(d: Disk, d': Disk, maps: seq<sector>, erased: set<sector>, s: sector)
    requires Shape(d) && Shape(d') && OverlayStep(d, d', ViewOf(d), maps, erased)
    requires 1 <= s <= d.sectors && TakenOver(d, d', s)
    ensures ReadSector(d', s) == ReadSector(d, s)
  {
  }

  /** A sector erased from the queue that neither owns comes from its host file. */
  lemma HostReads(d: Disk, d': Disk, maps: seq<sector>, erased: set<sector>, s: sector)
    requires Shape(d) && Shape(d') && OverlayStep(d, d', ViewOf(d), maps, erased)
    requires 1 <= s <= d.sectors && !TakenOver(d, d', s) && s in erased && s in d'.refs
    ensures ReadSector(d', s) == Fit(HostSector(d', d'.refs[s]), Size(s))
  {
  }

  /** Any other sector: still queued, or from where it was. */
  lemma ElsewhereSame(d: Disk, d': Disk, maps: seq<sector>, erased: set<sector>, s: sector)
    requires Shape(d) && Shape(d') && OverlayStep(d, d', ViewOf(d), maps, erased)
    requires 1 <= s <= d.sectors && !TakenOver(d, d', s) && s !in erased && (s in d'.refs <==> s in d.refs)
    requires s in d.refs ==> HostSector(d', d'.refs[s]) == HostSector(d, d.refs[s])
    ensures ReadSector(d', s) == ReadSector(d, s)
  {
  }

  ghost predicate CreateStep(d: Disk, d': Disk, name: string, length: nat, maps: seq<sector>, listed: seq<sector>)
    requires Shape(d)
  {
    && Same(d, d') && AllQueued(d.pending, listed) && length <= SECTOR * |listed| && name !in d.host
    && d'.files == d.files + [File(name, Atari(name), length, listed, maps)]
    && d'.host == d.host[name := Queued(d.pending, listed)[..length]]
    && (forall s :: s in d'.refs <==> s in d.refs || s in listed)
    && (forall s | s in d.refs && s !in listed :: d'.refs[s] == d.refs[s])
    && (forall i: nat | i < |listed| :: listed[i] in d'.refs && d'.refs[listed[i]] == Ref(|d.files|, i))
    && OverlayStep(d, d', ViewOf(d), maps, SetOf(listed))
    && |d'.inUse| == |d.inUse|
    && (forall s: nat | s < |d.inUse| :: d'.inUse[s] == (d.inUse[s] || s in listed || s in maps))
    && d'.useCount == d.useCount + |listed| + |maps|
  }

  /** The two halves of the commit: the file, its sectors and maps are entered ... */
  ghost predicate Entered(d: Disk, e: Disk, name: string, length: nat, maps: seq<sector>, listed: seq<sector>)
    requires Shape(d)
  {
    && Same(d, e) && AllQueued(d.pending, listed) && length <= SECTOR * |listed| && name !in d.host
    && e.files == d.files + [File(name, Atari(name), length, listed, maps)]
    && e.host == d.host[name := Queued(d.pending, listed)[..length]]
    && (forall s :: s in e.refs <==> s in d.refs || s in listed)
    && (forall s | s in d.refs && s !in listed :: e.refs[s] == d.refs[s])
    && (forall i: nat | i < |listed| :: listed[i] in e.refs && e.refs[listed[i]] == Ref(|d.files|, i))
    && (forall s :: s in e.meta <==> s in d.meta || s in maps)
    && (forall s | s in e.meta :: e.meta[s] == if s in maps then ViewOf(d)(s) else d.meta[s])
    && e.pending == d.pending && e.bitmap == d.bitmap && |e.inUse| == |d.inUse|
    && (forall s: nat | s < |d.inUse| :: e.inUse[s] == (d.inUse[s] || s in listed || s in maps))
    && e.useCount == d.useCount + |listed| + |maps|
  }

  ghost predicate BitmapTaken(d: Disk, bits: seq<byte>)
    requires |d.bitmap| == SECTOR * d.bitmapSectors
  {
    && |bits| == |d.bitmap|
    && forall s | InBitmap(d, s) :: BitmapSector(d.(bitmap := bits), s)
         == if s in d.pending then Fit(d.pending[s], SECTOR) else BitmapSector(d, s)
  }

  /** ... and the overlay is taken over and cleared. */
  ghost predicate Cleared(e: Disk, d': Disk, erased: seq<sector>)
    requires |e.bitmap| == SECTOR * e.bitmapSectors
  {
    && d' == e.(bitmap := d'.bitmap, meta := d'.meta, pending := d'.pending) && BitmapTaken(e, d'.bitmap)
    && d'.meta.Keys == e.meta.Keys
    && (forall s | s in d'.meta ::
          d'.meta[s] == if s in e.pending && !InBitmap(e, s) then e.pending[s] else e.meta[s])
    && (forall s :: s in d'.pending <==> s in e.pending && !InBitmap(e, s) && s !in e.meta && s !in erased)
    && (forall s | s in d'.pending :: d'.pending[s] == e.pending[s])
  }

  lemma BothHalves(d: Disk, e: Disk, d': Disk, name: string, length: nat, maps: seq<sector>, listed: seq<sector>)
    requires Shape(d) && Entered(d, e, name, length, maps, listed) && Cleared(e, d', listed)
    ensures CreateStep(d, d', name, length, maps, listed)
  {
    OverlayHalf(d, e, d', ViewOf(d), maps, listed);
  }

  lemma OverlayHalf(d: Disk, e: Disk, d': Disk, view: View, maps: seq<sector>, listed: seq<sector>)
    requires Same(d, e) && e.pending == d.pending && e.bitmap == d.bitmap && |d.bitmap| == SECTOR * d.bitmapSectors
    requires forall s :: s in e.meta <==> s in d.meta || s in maps
    requires forall s | s in e.meta :: e.meta[s] == if s in maps then view(s) else d.meta[s]
    requires Cleared(e, d', listed)
    ensures OverlayStep(d, d', view, maps, SetOf(listed))
  {
    forall s | InBitmap(d, s)
      ensures BitmapSector(d', s) == if s in d.pending then Fit(d.pending[s], SECTOR) else BitmapSector(d, s)
    {
      BitmapHalf(d, e, d', s);
    }
    assert forall s :: s in d'.meta <==> s in e.meta;
  }

  lemma BitmapHalf(d: Disk, e: Disk, d': Disk, s: sector)
    requires Same(d, e) && Same(d, d') && e.pending == d.pending && e.bitmap == d.bitmap
    requires |d.bitmap| == SECTOR * d.bitmapSectors && BitmapTaken(e, d'.bitmap) && InBitmap(d, s)
    ensures BitmapSector(d', s) == if s in d.pending then Fit(d.pending[s], SECTOR) else BitmapSector(d, s)
  {
    assert InBitmap(e, s);
    assert BitmapSector(e.(bitmap := d'.bitmap), s) == BitmapSector(d', s);
  }

  /** The last sector of the new file is cut off at the file's end. */
  ghost predicate CutOff(before: seq<byte>, after: seq<byte>, keep: nat)
    requires |before| == |after|
  {
    forall k | 0 <= k < |before| :: after[k] == if k < keep then before[k] else 0
  }

  lemma CreateShape(d: Disk, d': Disk, name: string, length: nat, maps: seq<sector>, listed: seq<sector>)
    requires Shape(d) && CreateStep(d, d', name, length, maps, listed) && OnDisk(maps, d.sectors)
    ensures Shape(d')
  {
    forall i | 0 <= i < |d'.files| ensures FileOk(d', d'.files[i]) {
      assert i < |d.files| ==> FileOk(d, d.files[i]);
    }
    forall s | s in d'.refs ensures d'.refs[s].file < |d'.files| {
      if s in listed {
        var i: nat :| i < |listed| && listed[i] == s;
      }
    }
  }

  /** A sector that is not listed by the new file reads as before: overlay,
      bitmap, metadata and the other host files are all accounted for. */
  lemma UnlistedReads(d: Disk, d': Disk, name: string, length: nat, maps: seq<sector>, listed: seq<sector>, s: sector)
    requires Shape(d) && Shape(d') && CreateStep(d, d', name, length, maps, listed)
    requires 1 <= s <= d.sectors && s !in listed
    ensures ReadSector(d', s) == ReadSector(d, s)
  {
    if TakenOver(d, d', s) {
      TakenReads(d, d', maps, SetOf(listed), s);
    } else {
      if s in d.refs {
        assert FileOk(d, d.files[d.refs[s].file]);
        assert HostSector(d', d'.refs[s]) == HostSector(d, d.refs[s]);
      }
      ElsewhereSame(d, d', maps, SetOf(listed), s);
    }
  }

  /** A listed sector that bitmap or metadata own reads as before, too; another one
      now comes from the host file, which is what was queued. */
  lemma ListedReads(d: Disk, d': Disk, name: string, length: nat, maps: seq<sector>, listed: seq<sector>, i: nat)
    requires Shape(d) && Shape(d') && CreateStep(d, d', name, length, maps, listed)
    requires |listed| == Needed(length) && i < |listed| && 4 <= listed[i] <= d.sectors
    ensures i + 1 < |listed| || TakenOver(d, d', listed[i]) ==> ReadSector(d', listed[i]) == ReadSector(d, listed[i])
    ensures !TakenOver(d, d', listed[i]) ==>
      CutOff(ReadSector(d, listed[i]), ReadSector(d', listed[i]), length - SECTOR * i)
  {
    if !TakenOver(d, d', listed[i]) {
      ListedFromHost(d, d', name, length, maps, listed, i);
      NewHostPart(d, d', name, length, maps, listed, i);
    }
  }

  lemma ListedFromHost(d: Disk, d': Disk, name: string, length: nat, maps: seq<sector>, listed: seq<sector>, i: nat)
    requires Shape(d) && Shape(d') && CreateStep(d, d', name, length, maps, listed)
    requires i < |listed| && 4 <= listed[i] <= d.sectors && !TakenOver(d, d', listed[i])
    ensures listed[i] in d.pending && ReadSector(d, listed[i]) == Fit(d.pending[listed[i]], SECTOR)
    ensures ReadSector(d', listed[i]) == HostSector(d', Ref(|d.files|, i))
  {
    assert listed[i] in listed;
  }

  lemma NewHostPart(d: Disk, d': Disk, name: string, length: nat, maps: seq<sector>, listed: seq<sector>, i: nat)
    requires Shape(d) && Shape(d') && CreateStep(d, d', name, length, maps, listed)
    requires |listed| == Needed(length) && i < |listed| && listed[i] in d.pending
    ensures CutOff(Fit(d.pending[listed[i]], SECTOR), HostSector(d', Ref(|d.files|, i)), length - SECTOR * i)
    ensures i + 1 < |listed| ==> HostSector(d', Ref(|d.files|, i)) == Fit(d.pending[listed[i]], SECTOR)
  {
    NeededFits(length, |listed|);
    assert d'.files[|d.files|] == File(name, Atari(name), length, listed, maps);
    forall k: nat | k < SECTOR
      ensures HostSector(d', Ref(|d.files|, i))[k]
        == if SECTOR * i + k < length then Fit(d.pending[listed[i]], SECTOR)[k] else 0
      ensures i + 1 < |listed| ==> SECTOR * i + k < length
    {
      PartQueued(d.pending, listed, length, i, k);
    }
  }

  // ---- The main results ----

  ghost predicate DataSectors(d: Disk, listed: seq<sector>) {
    forall i: nat | i < |listed| :: 4 <= listed[i] <= d.sectors
  }

  /** The only sector that may read differently: the new file's last. */
  function LastOf(listed: seq<sector>): set<sector> {
    if listed == [] then {} else {listed[|listed| - 1]}
  }

  /** Creating is invisible, sector by sector, whoever owns the sectors. */
  lemma CreateInvisible(d: Disk, d': Disk, name: string, length: nat, maps: seq<sector>, listed: seq<sector>)
    requires Shape(d) && CreateStep(d, d', name, length, maps, listed)
    requires |listed| == Needed(length) && DataSectors(d, listed) && OnDisk(maps, d.sectors)
    ensures Shape(d') && SameReads(d, d', LastOf(listed))
  {
    CreateShape(d, d', name, length, maps, listed);
    forall s: sector | 1 <= s <= d.sectors && s !in LastOf(listed) ensures ReadSector(d', s) == ReadSector(d, s) {
      if s in listed {
        var i: nat :| i < |listed| && listed[i] == s;
        ListedReads(d, d', name, length, maps, listed, i);
      } else {
        UnlistedReads(d, d', name, length, maps, listed, s);
      }
    }
  }

  lemma {:induction false} GatheredByte(view: View, sectors: nat, data: seq<sector>, i: nat, k: nat)
    requires IsView(view, sectors) && OnDisk(data, sectors) && i < |data| && k < SECTOR
    ensures Gathered(view, sectors, data)[SECTOR * i + k] == view(data[i])[k]
  {
    if i < |data| - 1 {
      GatheredByte(view, sectors, data[..|data| - 1], i, k);
    }
  }

  /** Two views agree on every byte of the file's data sectors up to its end. */
  ghost predicate AgreeTo(v: View, w: View, sectors: nat, data: seq<sector>, length: nat)
    requires IsView(v, sectors) && IsView(w, sectors) && OnDisk(data, sectors)
  {
    forall i: nat, k: nat | i < |data| && k < SECTOR && SECTOR * i + k < length :: v(data[i])[k] == w(data[i])[k]
  }

  lemma AgreeGathered(v: View, w: View, sectors: nat, data: seq<sector>, length: nat)
    requires IsView(v, sectors) && IsView(w, sectors) && OnDisk(data, sectors) && length <= SECTOR * |data|
    requires AgreeTo(v, w, sectors, data, length)
    ensures Gathered(v, sectors, data)[..length] == Gathered(w, sectors, data)[..length]
  {
    forall x: nat | x < length ensures Gathered(v, sectors, data)[x] == Gathered(w, sectors, data)[x] {
      ByteAt(x, |data|);
      GatheredByte(v, sectors, data, x / SECTOR, x % SECTOR);
      GatheredByte(w, sectors, data, x / SECTOR, x % SECTOR);
    }
  }

  lemma ByteAt(x: nat, n: nat)
    requires x < SECTOR * n
    ensures x / SECTOR < n && x == SECTOR * (x / SECTOR) + x % SECTOR
  {
  }

  /** What the guest sees in the queued sectors is what goes to the host file. */
  lemma QueuedIsSeen(d: Disk, listed: seq<sector>, length: nat)
    requires Shape(d) && AllQueued(d.pending, listed) && OnDisk(listed, d.sectors) && length <= SECTOR * |listed|
    ensures Gathered(ViewOf(d), d.sectors, listed)[..length] == Queued(d.pending, listed)[..length]
  {
    var seen, queued := Gathered(ViewOf(d), d.sectors, listed), Queued(d.pending, listed);
    forall x: nat | x < length ensures seen[x] == queued[x] {
      QueuedAnywhere(d, listed, x);
    }
    SamePrefix(seen, queued, length);
  }

  lemma SamePrefix(a: seq<byte>, b: seq<byte>, n: nat)
    requires n <= |a| && n <= |b| && forall x: nat | x < n :: a[x] == b[x]
    ensures a[..n] == b[..n]
  {
  }

  lemma QueuedAnywhere(d: Disk, listed: seq<sector>, x: nat)
    requires Shape(d) && AllQueued(d.pending, listed) && OnDisk(listed, d.sectors) && x < SECTOR * |listed|
    ensures Gathered(ViewOf(d), d.sectors, listed)[x] == Queued(d.pending, listed)[x]
  {
    ByteAt(x, |listed|);
    QueuedByte(d, listed, x / SECTOR, x % SECTOR);
  }

  lemma QueuedByte(d: Disk, listed: seq<sector>, i: nat, k: nat)
    requires Shape(d) && AllQueued(d.pending, listed) && OnDisk(listed, d.sectors) && i < |listed| && k < SECTOR
    ensures Gathered(ViewOf(d), d.sectors, listed)[SECTOR * i + k] == Queued(d.pending, listed)[SECTOR * i + k]
  {
    GatheredByte(ViewOf(d), d.sectors, listed, i, k);
    QueuedAt(d.pending, listed, i, k);
    QueuedView(d, listed[i]);
  }

  lemma QueuedView(d: Disk, s: sector)
    requires Shape(d) && s in d.pending
    ensures 1 <= s <= d.sectors && ViewOf(d)(s) == Fit(d.pending[s], SECTOR)
  {
    assert |d.pending[s]| == Size(s);
  }

  /** The new file itself: the guest sees the same contents before and after, and
      they are the host file's. order is the order in which the sectors were first
      written: any will do. */
  lemma CreatedFile(d: Disk, d': Disk, name: string, length: nat, maps: seq<sector>, listed: seq<sector>,
                    order: seq<sector>, content: seq<byte>)
    requires Shape(d) && CreateStep(d, d', name, length, maps, listed)
    requires |listed| == Needed(length) && DataSectors(d, listed)
    requires NoDup(order) && |Observed(order, listed, maps)| >= |listed|
    requires IsGuestFile(ViewOf(d), d.sectors, FirstOf(maps), maps, listed, length, content)
    ensures Shape(d') && IsGuestFile(ViewOf(d'), d.sectors, FirstOf(maps), maps, listed, length, content)
    ensures d'.host[name] == content
  {
    Pigeonhole(order, listed, maps);
    CreatedSeen(d, d', name, length, maps, listed, content);
  }

  lemma CreatedSeen(d: Disk, d': Disk, name: string, length: nat, maps: seq<sector>, listed: seq<sector>,
                    content: seq<byte>)
    requires Shape(d) && CreateStep(d, d', name, length, maps, listed)
    requires |listed| == Needed(length) && DataSectors(d, listed) && forall s | s in listed :: s !in maps
    requires IsGuestFile(ViewOf(d), d.sectors, FirstOf(maps), maps, listed, length, content)
    ensures Shape(d') && IsGuestFile(ViewOf(d'), d.sectors, FirstOf(maps), maps, listed, length, content)
    ensures d'.host[name] == content
  {
    CreateInvisible(d, d', name, length, maps, listed);
    QueuedIsSeen(d, listed, length);
    SameChain(d, d', LastOf(listed), maps, listed);
    NeededFits(length, |listed|);
    CreatedAgree(d, d', name, length, maps, listed);
    AgreeGathered(ViewOf(d), ViewOf(d'), d.sectors, listed, length);
  }

  lemma CreatedAgree(d: Disk, d': Disk, name: string, length: nat, maps: seq<sector>, listed: seq<sector>)
    requires Shape(d) && Shape(d') && CreateStep(d, d', name, length, maps, listed)
    requires |listed| == Needed(length) && DataSectors(d, listed)
    ensures OnDisk(listed, d.sectors) && AgreeTo(ViewOf(d), ViewOf(d'), d.sectors, listed, length)
  {
    forall i: nat, k: nat | i < |listed| && k < SECTOR && SECTOR * i + k < length
      ensures ViewOf(d)(listed[i])[k] == ViewOf(d')(listed[i])[k]
    {
      ListedReads(d, d', name, length, maps, listed, i);
    }
  }

  lemma SameChain(d: Disk, d': Disk, gone: set<sector>, maps: seq<sector>, data: seq<sector>)
    requires Shape(d) && Shape(d') && d'.sectors == d.sectors && SameReads(d, d', gone)
    requires IsChain(ViewOf(d), d.sectors, FirstOf(maps), maps, data)
    requires forall s | s in gone :: s !in maps
    ensures IsChain(ViewOf(d'), d.sectors, FirstOf(maps), maps, data)
  {
    forall s | s in maps ensures ViewOf(d)(s) == ViewOf(d')(s) {
      assert 1 <= s <= d.sectors;
      assert ReadSector(d', s) == ReadSector(d, s);
    }
    SameEntries(ViewOf(d), ViewOf(d'), d.sectors, maps);
    forall i: nat | i < |maps| ensures ViewOf(d)(maps[i]) == ViewOf(d')(maps[i]) {
      assert maps[i] in maps;
    }
  }

  // ---- Free space ----

  function Used(inUse: seq<bool>): set<nat> {
    set s | 0 <= s < |inUse| && inUse[s]
  }

  /** The count of allocated sectors stays right exactly if the new file takes free
      sectors only, which the commit does not check. */
  lemma CreateCounts(d: Disk, d': Disk, name: string, length: nat, maps: seq<sector>, listed: seq<sector>)
    requires Shape(d) && CreateStep(d, d', name, length, maps, listed) && d.useCount == |Used(d.inUse)|
    requires NoDup(listed) && NoDup(maps) && OnDisk(listed, d.sectors) && OnDisk(maps, d.sectors)
    requires forall s | s in listed :: s !in maps
    ensures d'.useCount == |Used(d'.inUse)| <==> forall s | s in listed || s in maps :: !d.inUse[s]
  {
    TakenCount(d.inUse, d'.inUse, listed, maps);
  }

  lemma TakenCount(inUse: seq<bool>, inUse': seq<bool>, listed: seq<sector>, maps: seq<sector>)
    requires |inUse'| == |inUse| && forall s: nat | s < |inUse| :: inUse'[s] == (inUse[s] || s in listed || s in maps)
    requires forall s | s in listed || s in maps :: s < |inUse|
    requires NoDup(listed) && NoDup(maps) && forall s | s in listed :: s !in maps
    ensures |Used(inUse')| == |Used(inUse)| + |listed| + |maps| <==> forall s | s in listed || s in maps :: !inUse[s]
  {
    var a, b, c: set<nat> := Used(inUse), SetOf(listed), SetOf(maps);
    DistinctCount(listed);
    DistinctCount(maps);
    assert SetOf(listed) == (set x: sector | x in listed) && SetOf(maps) == (set x: sector | x in maps);
    UsedAfter(inUse, inUse', listed, maps);
    UnionCount(b, c);
    UnionCount(a, b + c);
    FreeOnes(inUse, listed, maps);
  }

  lemma UsedAfter(inUse: seq<bool>, inUse': seq<bool>, listed: seq<sector>, maps: seq<sector>)
    requires |inUse'| == |inUse| && forall s: nat | s < |inUse| :: inUse'[s] == (inUse[s] || s in listed || s in maps)
    requires forall s | s in listed || s in maps :: s < |inUse|
    ensures Used(inUse') == Used(inUse) + (SetOf(listed) + SetOf(maps))
  {
  }

  lemma FreeOnes(inUse: seq<bool>, listed: seq<sector>, maps: seq<sector>)
    requires forall s | s in listed || s in maps :: s < |inUse|
    ensures Used(inUse) * (SetOf(listed) + SetOf(maps)) == {} <==> forall s | s in listed || s in maps :: !inUse[s]
  {
    var taken := Used(inUse) * (SetOf(listed) + SetOf(maps));
    if taken != {} {
      var s :| s in taken;
    }
    forall s | (s in listed || s in maps) && inUse[s] ensures s in taken {
    }
  }

  lemma UnionCount(a: set<nat>, b: set<nat>)
    ensures |a + b| == |a| + |b| <==> a * b == {}
  {
    assert |a + b| == |a| + |b| - |a * b|;
    assert |a * b| == 0 <==> a * b == {};
  }
}
