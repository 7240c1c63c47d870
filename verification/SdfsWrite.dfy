/** The guest's writes: each is staged, and a sector of a host file is written
    through, unless a replacement of that file is pending. So the host file is what
    the guest reads, byte for byte, whatever else is staged or committed. */
module SdfsWrite {
  import opened ByteBits
  import opened SdfsMap
  import opened SdfsDisk
  import opened SdfsCreate
  import opened SdfsAppend
  import opened SdfsAppended
  import opened SdfsReplace
  import opened SdfsApart

  /** content with a sector laid over it at a place, as far as it goes. */
  function Overlaid(content: seq<byte>, index: nat, b: seq<byte>): (c: seq<byte>)
    ensures |c| == |content|
    ensures forall k | 0 <= k < |c| ::
      c[k] == if SECTOR * index <= k < SECTOR * index + |b| then b[k - SECTOR * index] else content[k]
  {
    seq(|content|, k requires 0 <= k < |content| =>
      if SECTOR * index <= k < SECTOR * index + |b| then b[k - SECTOR * index] else content[k])
  }

  /** The sector is a file's, within its length, and no replacement is pending. */
  predicate WritesThrough(d: Disk, replacing: set<nat>, s: sector)
    requires Shape(d)
  {
    && s in d.refs && d.refs[s].file !in replacing
    && SECTOR * d.refs[s].index < d.files[d.refs[s].file].length
  }

  ghost predicate WriteStep(d: Disk, d': Disk, replacing: set<nat>, s: sector, b: seq<byte>)
    requires Shape(d)
  {
    && 1 <= s <= d.sectors && |b| == Size(s)
    && d' == d.(pending := d.pending[s := b], host := d'.host)
    && d'.host == if !WritesThrough(d, replacing, s) then d.host
       else
         var name := d.files[d.refs[s].file].name;
         d.host[name := Overlaid(d.host[name], d.refs[s].index, b)]
  }

  // ---- What is staged for a file is in its host file ----

  /** The staged bytes of its i-th sector are the host's, as far as the file goes. */
  ghost predicate StagedAs(pending: Metadata, content: seq<byte>, data: seq<sector>, i: nat)
    requires i < |data|
  {
    data[i] in pending ==>
      forall k: nat | k < |pending[data[i]]| && SECTOR * i + k < |content| ::
        pending[data[i]][k] == content[SECTOR * i + k]
  }

  ghost predicate Staged(pending: Metadata, content: seq<byte>, data: seq<sector>) {
    forall i: nat | i < |data| :: StagedAs(pending, content, data, i)
  }

  ghost predicate FileStaged(d: Disk, f: nat)
    requires Shape(d) && f < |d.files| && Live(d.files[f])
  {
    assert FileOk(d, d.files[f]);
    Staged(d.pending, d.host[d.files[f].name], d.files[f].data)
  }

  /** Of every file without a pending replacement. */
  ghost predicate HostsAgree(d: Disk, replacing: set<nat>)
    requires Shape(d)
  {
    forall f: nat | f < |d.files| && Live(d.files[f]) && f !in replacing :: FileStaged(d, f)
  }

  /** Then what the guest reads of the file is the host file. */
  ghost predicate HostSeen(d: Disk, f: nat)
    requires Shape(d) && f < |d.files|
  {
    && OnDisk(d.files[f].data, d.sectors) && d.files[f].length <= SECTOR * |d.files[f].data|
    && d.files[f].name in d.host
    && d.host[d.files[f].name] == Gathered(ViewOf(d), d.sectors, d.files[f].data)[..d.files[f].length]
  }

  lemma SeenFile(d: Disk, f: nat)
    requires Sound(d) && f < |d.files| && Live(d.files[f]) && FileStaged(d, f)
    ensures HostSeen(d, f)
  {
    var file := d.files[f];
    assert FileOk(d, file) && FileOwns(d, f);
    NeededFits(file.length, |file.data|);
    forall x: nat | x < file.length
      ensures Gathered(ViewOf(d), d.sectors, file.data)[x] == d.host[file.name][x]
    {
      SeenAnywhere(d, f, x);
    }
  }

  lemma SeenAnywhere(d: Disk, f: nat, x: nat)
    requires Sound(d) && f < |d.files| && Live(d.files[f]) && FileStaged(d, f) && x < d.files[f].length
    requires OnDisk(d.files[f].data, d.sectors) && x < SECTOR * |d.files[f].data|
    ensures d.files[f].name in d.host && |d.host[d.files[f].name]| == d.files[f].length
    ensures Gathered(ViewOf(d), d.sectors, d.files[f].data)[x] == d.host[d.files[f].name][x]
  {
    ByteAt(x, |d.files[f].data|);
    GatheredByte(ViewOf(d), d.sectors, d.files[f].data, x / SECTOR, x % SECTOR);
    SeenByte(d, f, x / SECTOR, x % SECTOR);
  }

  lemma SeenByte(d: Disk, f: nat, i: nat, k: nat)
    requires Sound(d) && f < |d.files| && Live(d.files[f]) && FileStaged(d, f)
    requires i < |d.files[f].data| && k < SECTOR && SECTOR * i + k < d.files[f].length
    ensures d.files[f].name in d.host && |d.host[d.files[f].name]| == d.files[f].length
    ensures 1 <= d.files[f].data[i] <= d.sectors
    ensures ViewOf(d)(d.files[f].data[i])[k] == d.host[d.files[f].name][SECTOR * i + k]
  {
    var file := d.files[f];
    var s := file.data[i];
    assert FileOk(d, file) && FileOwns(d, f) && s in file.data;
    DataIs(d, f, s);
    assert d.refs[s] == Ref(f, i);
    assert StagedAs(d.pending, d.host[file.name], file.data, i);
    if s in d.pending {
      assert |d.pending[s]| == SECTOR;
    } else {
      assert ReadSector(d, s) == Part(d.host[file.name], i);
    }
  }

  // ---- A write ----

  lemma WriteSound(d: Disk, d': Disk, replacing: set<nat>, s: sector, b: seq<byte>)
    requires Sound(d) && WriteStep(d, d', replacing, s, b)
    ensures Sound(d')
  {
    WriteShape(d, d', replacing, s, b);
    forall f: nat | f < |d'.files| ensures FileOwns(d', f) {
      assert FileOwns(d, f);
    }
    forall x | x in d'.refs ensures RefOwned(d', x) {
      assert RefOwned(d, x);
    }
    WriteApart(d, d');
  }

  lemma WriteApart(d: Disk, d': Disk)
    requires Apart(d) && d' == d.(pending := d'.pending, host := d'.host)
    ensures Apart(d')
  {
    forall x: sector | 1 <= x <= d'.sectors && (x <= 3 || InBitmap(d', x) || x in d'.meta) ensures ReservedAt(d', x) {
      assert ReservedAt(d, x);
    }
    forall f: nat | f < |d'.files| ensures MapsKept(d', f) {
      assert MapsKept(d, f);
      forall x | x in d'.files[f].maps ensures OwnMap(d', x) {
        assert OwnMap(d, x);
      }
    }
    forall f: nat, g: nat | f < |d'.files| && g < |d'.files| && f != g ensures MapsApart(d', f, g) {
      assert MapsApart(d, f, g);
    }
    assert forall s | InRoot(d', s) :: InRoot(d, s);
  }

  lemma WriteShape(d: Disk, d': Disk, replacing: set<nat>, s: sector, b: seq<byte>)
    requires Shape(d) && WriteStep(d, d', replacing, s, b)
    ensures Shape(d')
  {
    forall i | 0 <= i < |d'.files| ensures FileOk(d', d'.files[i]) {
      assert FileOk(d, d.files[i]);
    }
  }

  /** A write through puts into the host file what it stages. */
  lemma WriteStaged(d: Disk, d': Disk, replacing: set<nat>, s: sector, b: seq<byte>, f: nat)
    requires Sound(d) && WriteStep(d, d', replacing, s, b) && Shape(d')
    requires f < |d.files| && Live(d.files[f]) && f !in replacing && FileStaged(d, f)
    ensures FileStaged(d', f)
  {
    var file := d.files[f];
    assert FileOk(d, file) && FileOwns(d, f) && FileOk(d', file);
    forall i: nat | i < |file.data| ensures StagedAs(d'.pending, d'.host[file.name], file.data, i) {
      assert StagedAs(d.pending, d.host[file.name], file.data, i);
      WriteStagedAt(d, d', replacing, s, b, f, i);
    }
  }

  lemma WriteStagedAt(d: Disk, d': Disk, replacing: set<nat>, s: sector, b: seq<byte>, f: nat, i: nat)
    requires Sound(d) && WriteStep(d, d', replacing, s, b) && f < |d.files| && Live(d.files[f]) && f !in replacing
    requires FileOk(d, d.files[f]) && d.files[f].name in d'.host && i < |d.files[f].data|
    requires StagedAs(d.pending, d.host[d.files[f].name], d.files[f].data, i)
    ensures StagedAs(d'.pending, d'.host[d.files[f].name], d.files[f].data, i)
  {
    var file := d.files[f];
    assert FileOwns(d, f) && file.data[i] in file.data;
    DataIs(d, f, file.data[i]);
    NeededFits(file.length, |file.data|);
    if s in d.refs {
      assert RefOwned(d, s);
      if d.refs[s].file == f {
        OwnWrite(d.pending, d.host[file.name], file.data, i, d.refs[s].index, b);
      } else if WritesThrough(d, replacing, s) {
        OtherName(d, f, d.refs[s].file);
      }
    }
  }

  lemma OwnWrite(pending: Metadata, content: seq<byte>, data: seq<sector>, i: nat, j: nat, b: seq<byte>)
    requires i < |data| && j < |data| && |b| == SECTOR && StagedAs(pending, content, data, i)
    requires data[i] == data[j] ==> i == j
    requires data[i] in pending ==> |pending[data[i]]| <= SECTOR
    ensures StagedAs(pending[data[j] := b], Overlaid(content, j, b), data, i)
  {
    if i < j {
      assert SECTOR * i + SECTOR <= SECTOR * j;
    } else if j < i {
      assert SECTOR * j + SECTOR <= SECTOR * i;
    }
  }

  lemma WriteAgrees(d: Disk, d': Disk, replacing: set<nat>, s: sector, b: seq<byte>)
    requires Sound(d) && WriteStep(d, d', replacing, s, b) && HostsAgree(d, replacing)
    ensures Sound(d') && HostsAgree(d', replacing)
  {
    WriteSound(d, d', replacing, s, b);
    forall f: nat | f < |d'.files| && Live(d'.files[f]) && f !in replacing ensures FileStaged(d', f) {
      WriteStaged(d, d', replacing, s, b, f);
    }
  }

  // ---- The commits ----

  /** A file whose host and data stay, as fewer sectors are staged. */
  lemma StagedLess(d: Disk, d': Disk, f: nat)
    requires Shape(d) && Shape(d') && f < |d.files| && f < |d'.files| && d'.files[f] == d.files[f] && Live(d.files[f])
    requires FileStaged(d, f) && d.files[f].name in d'.host && d'.host[d.files[f].name] == d.host[d.files[f].name]
    requires forall s | s in d'.pending :: s in d.pending && d'.pending[s] == d.pending[s]
    ensures FileStaged(d', f)
  {
    var file := d.files[f];
    forall i: nat | i < |file.data| ensures StagedAs(d'.pending, d'.host[file.name], file.data, i) {
      assert StagedAs(d.pending, d.host[file.name], file.data, i);
    }
  }

  /** A file of which nothing is staged. */
  lemma NothingStaged(d: Disk, f: nat)
    requires Shape(d) && f < |d.files| && Live(d.files[f]) && forall s | s in d.files[f].data :: s !in d.pending
    ensures FileStaged(d, f)
  {
  }

  lemma CreateAgrees(d: Disk, d': Disk, replacing: set<nat>, name: string, length: nat, maps: seq<sector>,
                     listed: seq<sector>)
    requires Sound(d) && CreateStep(d, d', name, length, maps, listed) && HostsAgree(d, replacing)
    requires CreateFree(d, maps, listed) && |listed| == Needed(length)
    ensures Sound(d') && HostsAgree(d', replacing)
  {
    CreateSound(d, d', name, length, maps, listed);
    forall f: nat | f < |d'.files| && Live(d'.files[f]) && f !in replacing ensures FileStaged(d', f) {
      if f < |d.files| {
        assert FileStaged(d, f);
        CreateOther(d, d', f, name, length, maps, listed);
      } else {
        NothingStaged(d', f);
      }
    }
  }

  lemma CreateOther(d: Disk, d': Disk, f: nat, name: string, length: nat, maps: seq<sector>, listed: seq<sector>)
    requires Shape(d) && Shape(d') && CreateStep(d, d', name, length, maps, listed)
    requires f < |d.files| && Live(d.files[f]) && FileStaged(d, f)
    ensures FileStaged(d', f)
  {
    assert FileOk(d, d.files[f]);
    StagedLess(d, d', f);
  }

  lemma ReplaceAgrees(d: Disk, d': Disk, replacing: set<nat>, f: nat, newLength: nat, maps: seq<sector>,
                      listed: seq<sector>)
    requires Sound(d) && ReplaceStep(d, d', f, newLength, maps, listed) && HostsAgree(d, replacing)
    requires ReplaceFits(d, f, maps, listed) && Live(d.files[f])
    ensures Sound(d') && HostsAgree(d', replacing - {f})
  {
    ReplaceSound(d, d', f, newLength, maps, listed);
    forall g: nat | g < |d'.files| && Live(d'.files[g]) && g !in replacing - {f} ensures FileStaged(d', g) {
      if g == f {
        NothingStaged(d', f);
      } else {
        assert FileOk(d, d.files[g]) && FileStaged(d, g);
        OtherName(d, f, g);
        StagedLess(d, d', g);
      }
    }
  }

  lemma AppendAgrees(d: Disk, d': Disk, replacing: set<nat>, f: nat, newLength: nat, maps: seq<sector>,
                     added: seq<sector>)
    requires Sound(d) && AppendStep(d, d', f, newLength, maps, added) && HostsAgree(d, replacing)
    requires AppendFree(d, f, maps, added)
    ensures Sound(d') && HostsAgree(d', replacing)
  {
    AppendSound(d, d', f, newLength, maps, added);
    forall g: nat | g < |d'.files| && Live(d'.files[g]) && g !in replacing ensures FileStaged(d', g) {
      if g == f {
        assert FileStaged(d, f);
        AppendStaged(d, d', f, newLength, maps, added);
      } else {
        assert FileOk(d, d.files[g]) && FileStaged(d, g);
        OtherName(d, f, g);
        StagedLess(d, d', g);
      }
    }
  }

  /** The appended file: what stays staged of it is before the rewritten part. */
  lemma AppendStaged(d: Disk, d': Disk, f: nat, newLength: nat, maps: seq<sector>, added: seq<sector>)
    requires Sound(d) && Shape(d') && AppendStep(d, d', f, newLength, maps, added) && FileStaged(d, f)
    requires Live(d'.files[f])
    ensures FileStaged(d', f)
  {
    var file, all := d.files[f], d.files[f].data + added;
    assert FileOk(d', d'.files[f]);
    forall i: nat | i < |all| ensures StagedAs(d'.pending, d'.host[file.name], all, i) {
      if all[i] in d'.pending {
        StillStaged(d, d', f, newLength, maps, added, i);
      }
    }
  }

  lemma StillStaged(d: Disk, d': Disk, f: nat, newLength: nat, maps: seq<sector>, added: seq<sector>, i: nat)
    requires Sound(d) && AppendStep(d, d', f, newLength, maps, added) && FileStaged(d, f)
    requires i < |d.files[f].data + added| && (d.files[f].data + added)[i] in d'.pending
    ensures StagedAs(d'.pending, d'.host[d.files[f].name], d.files[f].data + added, i)
  {
    var file, all := d.files[f], d.files[f].data + added;
    var tail := Tail(file.data, file.length, added);
    assert all[i] !in tail;
    TailLength(file.length, file.data, added, newLength);
    if i >= |all| - |tail| {
      TailAt(file.data, file.length, added, i);
      assert false;
    }
    assert StagedAs(d.pending, d.host[file.name], file.data, i);
    assert |d.pending[all[i]]| <= SECTOR;
    var was, now := d.host[file.name], d'.host[file.name];
    KeptBytes(was, d.pending, file.data, added, newLength, i);
    forall k: nat | k < |d'.pending[all[i]]| && SECTOR * i + k < |now|
      ensures d'.pending[all[i]][k] == now[SECTOR * i + k]
    {
      assert now[..SECTOR * i + SECTOR][SECTOR * i + k] == was[..SECTOR * i + SECTOR][SECTOR * i + k];
    }
  }

  /** Before the rewritten part the grown file is the old one. */
  lemma KeptBytes(content: seq<byte>, pending: Metadata, data: seq<sector>, added: seq<sector>, newLength: nat, i: nat)
    requires AllQueued(pending, Tail(data, |content|, added)) && |data| == Needed(|content|)
    requires |content| < newLength && |data| + |added| == Needed(newLength)
    requires i < |data| + |added| - |Tail(data, |content|, added)|
    ensures SECTOR * i + SECTOR <= |content| && |Grown(content, pending, data, added, newLength)| == newLength
    ensures Grown(content, pending, data, added, newLength)[..SECTOR * i + SECTOR] == content[..SECTOR * i + SECTOR]
  {
    TailLength(|content|, data, added, newLength);
    GrownLength(content, pending, data, added, newLength);
  }

  /** So an append finds the old part as the host file has it. */
  lemma AgreesOld(d: Disk, f: nat, newLength: nat, added: seq<sector>)
    requires Sound(d) && f < |d.files| && Live(d.files[f]) && FileStaged(d, f)
    requires d.files[f].length < newLength && |d.files[f].data| + |added| == Needed(newLength)
    ensures OldAsHost(d, f, added)
  {
    var file := d.files[f];
    assert FileOk(d, file) && FileOwns(d, f);
    forall i: nat | i < |file.data| + |added| - |Tail(file.data, file.length, added)|
      ensures i < |file.data| && ViewOf(d)(file.data[i]) == Part(d.host[file.name], i)
    {
      TailLength(file.length, file.data, added, newLength);
      forall k: nat | k < SECTOR ensures ViewOf(d)(file.data[i])[k] == Part(d.host[file.name], i)[k] {
        SeenByte(d, f, i, k);
      }
    }
  }
}
