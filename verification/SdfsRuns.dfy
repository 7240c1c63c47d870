/** Any sequence of guest writes, reopened, renamed and deleted files, and commits: the
    disk stays sound, every sector in use has its one owner, every host file is what
    the guest reads of it, and no change shows in any other file. */
module SdfsRuns {
  import opened ByteBits
  import opened Sets
  import opened SdfsMap
  import opened SdfsDisk
  import opened SdfsNames
  import opened SdfsDirectory
  import opened SdfsInit
  import opened SdfsFormat
  import opened SdfsParse
  import opened SdfsCreate
  import opened SdfsAppend
  import opened SdfsAppended
  import opened SdfsReplace
  import opened SdfsApart
  import opened SdfsOthers
  import opened SdfsWrite
  import opened SdfsDelete
  import opened SdfsRename
  import opened SdfsAccounts

  /** What happens: a write; a file opened for rewriting, whose replacement is pending
      from then on; renamed and deleted files; and the commits. */
  datatype Op =
    | Write(s: sector, b: seq<byte>)
    | Reopen(file: nat)
    | Create(name: string, length: nat, maps: seq<sector>, listed: seq<sector>)
    | Append(file: nat, length: nat, maps: seq<sector>, added: seq<sector>)
    | Replace(file: nat, length: nat, maps: seq<sector>, listed: seq<sector>)
    | Rename(file: nat, atari: seq<byte>)
    | Delete(file: nat)

  datatype Image = Image(d: Disk, replacing: set<nat>)

  predicate IsCommit(op: Op) {
    op.Create? || op.Append? || op.Replace?
  }

  /** What changes files other than by writes to them. */
  predicate IsChange(op: Op) {
    IsCommit(op) || op.Rename? || op.Delete?
  }

  /** The commits take sectors that are free, or that fit. A file is renamed to a name
      that is free, with no replacement pending, or with none of it left to write. */
  ghost predicate Does(i: Image, op: Op, j: Image)
    requires Shape(i.d)
  {
    match op
    case Write(s, b) => WriteStep(i.d, j.d, i.replacing, s, b) && j.replacing == i.replacing
    case Reopen(f) => j == i.(replacing := i.replacing + {f})
    case Create(name, length, maps, listed) =>
      && CreateStep(i.d, j.d, name, length, maps, listed) && CreateFree(i.d, maps, listed)
      && |listed| == Needed(length) && j.replacing == i.replacing
    case Append(f, length, maps, added) =>
      && AppendStep(i.d, j.d, f, length, maps, added) && AppendFree(i.d, f, maps, added)
      && j.replacing == i.replacing
    case Replace(f, length, maps, listed) =>
      && ReplaceStep(i.d, j.d, f, length, maps, listed) && ReplaceFits(i.d, f, maps, listed) && Live(i.d.files[f])
      && j.replacing == i.replacing - {f}
    case Rename(f, atari) =>
      && RenameStep(i.d, j.d, f, atari) && NameFree(i.d, f, Text(Visible(atari))) && FileStaged(i.d, f)
      && j.replacing == i.replacing - {f}
    case Delete(f) => DeleteStep(i.d, j.d, f) && j.replacing == i.replacing
  }

  ghost predicate CountRight(d: Disk) {
    d.useCount == |Used(d.inUse)|
  }

  ghost predicate Good(i: Image) {
    Sound(i.d) && HostsAgree(i.d, i.replacing) && CountRight(i.d) && Accounted(i.d)
  }

  /** The file that a change is about; a create's is the next. */
  function About(i: Image, op: Op): nat
    requires IsChange(op)
  {
    if op.Create? then |i.d.files| else op.file
  }

  lemma StepGood(i: Image, op: Op, j: Image)
    requires Good(i) && Does(i, op, j)
    ensures Good(j)
  {
    match op
    case Write(s, b) =>
      WriteAgrees(i.d, j.d, i.replacing, s, b);
      SameAccounted(i.d, j.d);
    case Reopen(f) =>
    case Create(name, length, maps, listed) =>
      CreateAgrees(i.d, j.d, i.replacing, name, length, maps, listed);
      CreateCount(i.d, j.d, name, length, maps, listed);
      CreateAccounted(i.d, j.d, name, length, maps, listed);
    case Append(f, length, maps, added) =>
      AppendAgrees(i.d, j.d, i.replacing, f, length, maps, added);
      AppendCount(i.d, j.d, f, length, maps, added);
      AppendAccounted(i.d, j.d, f, length, maps, added);
    case Replace(f, length, maps, listed) =>
      ReplaceAgrees(i.d, j.d, i.replacing, f, length, maps, listed);
      ReplaceAccounted(i.d, j.d, f, length, maps, listed);
    case Rename(f, atari) =>
      RenameKeeps(i.d, j.d, i.replacing, f, atari);
      SameAccounted(i.d, j.d);
    case Delete(f) =>
      DeleteAgrees(i.d, j.d, i.replacing, f);
      DeleteAccounted(i.d, j.d, f);
  }

  lemma CreateCount(d: Disk, d': Disk, name: string, length: nat, maps: seq<sector>, listed: seq<sector>)
    requires Sound(d) && CreateStep(d, d', name, length, maps, listed) && CreateFree(d, maps, listed) && CountRight(d)
    ensures CountRight(d')
  {
    AllFreeIs(d, listed);
    AllFreeIs(d, maps);
    forall s | s in listed || s in maps ensures !d.inUse[s] {
      assert Free(d, s);
    }
    CreateCounts(d, d', name, length, maps, listed);
  }

  lemma AppendCount(d: Disk, d': Disk, f: nat, length: nat, maps: seq<sector>, added: seq<sector>)
    requires Sound(d) && AppendStep(d, d', f, length, maps, added) && AppendFree(d, f, maps, added) && CountRight(d)
    ensures CountRight(d')
  {
    var n := |d.files[f].maps|;
    var news := maps[n..];
    forall s | s in added || s in news ensures s < |d.inUse| && !d.inUse[s] {
      assert Free(d, s);
    }
    forall a: nat, b: nat | a < b < |news| ensures news[a] != news[b] {
      assert news[a] == maps[n + a] && news[b] == maps[n + b];
    }
    forall s | s in added ensures s !in news {
      assert s in news ==> s in maps;
    }
    TakenCount(d.inUse, d'.inUse, added, news);
  }

  ghost predicate IsRun(run: seq<Image>, ops: seq<Op>) {
    |run| == |ops| + 1 && forall k: nat | k < |ops| :: Shape(run[k].d) && Does(run[k], ops[k], run[k + 1])
  }

  lemma {:induction false} RunGood(run: seq<Image>, ops: seq<Op>, n: nat)
    requires IsRun(run, ops) && Good(run[0]) && n < |run|
    ensures Good(run[n])
  {
    if n > 0 {
      RunGood(run, ops, n - 1);
      StepGood(run[n - 1], ops[n - 1], run[n]);
    }
  }

  ghost predicate IsFresh(i: Image, hosts: seq<HostFile>, volume: seq<byte>, rootData: seq<sector>,
                          rootMaps: seq<sector>)
    requires AreHosts(hosts) && |volume| == 8
  {
    IsImage(i.d, hosts, volume, rootData, rootMaps) && i.replacing == {}
  }

  lemma FreshGood(i: Image, hosts: seq<HostFile>, volume: seq<byte>, rootData: seq<sector>, rootMaps: seq<sector>)
    requires AreHosts(hosts) && |volume| == 8 && IsFresh(i, hosts, volume, rootData, rootMaps)
    ensures Good(i)
  {
    ImageSound(i.d, hosts, volume, rootData, rootMaps);
    forall f: nat | f < |i.d.files| && Live(i.d.files[f]) ensures FileStaged(i.d, f) {
      NothingStaged(i.d, f);
    }
    UsedRange(i.d);
    ImageAccounted(i.d, hosts, volume, rootData, rootMaps);
  }

  lemma UsedRange(d: Disk)
    requires exists end: nat :: UseOk(d, end) && 1 <= end
    ensures CountRight(d)
  {
    var end: nat :| UseOk(d, end) && 1 <= end;
    UsedUpTo(d.inUse, end);
  }

  lemma UsedUpTo(inUse: seq<bool>, end: nat)
    requires 1 <= end <= |inUse| && forall s: nat | s < |inUse| :: inUse[s] <==> 1 <= s < end
    ensures |Used(inUse)| == end - 1
  {
    assert Used(inUse) == Naturals(end) - {0};
    assert Naturals(end) == (Naturals(end) - {0}) + {0};
  }

  /** After any such sequence from a fresh image, in any order: of every file without
      a pending replacement the guest reads, up to its length, just the host file;
      no sector has two uses; just the sectors in use have an owner; and the allocation
      count is right. */
  lemma HostsAreSeen(run: seq<Image>, ops: seq<Op>, hosts: seq<HostFile>, volume: seq<byte>, rootData: seq<sector>,
                     rootMaps: seq<sector>, n: nat)
    requires AreHosts(hosts) && |volume| == 8 && IsRun(run, ops) && n < |run|
    requires IsFresh(run[0], hosts, volume, rootData, rootMaps)
    ensures Sound(run[n].d) && CountRight(run[n].d)
    ensures forall s: sector | 1 <= s <= run[n].d.sectors :: run[n].d.inUse[s] <==> HasOwner(run[n].d, s)
    ensures forall f: nat | f < |run[n].d.files| && Live(run[n].d.files[f]) && f !in run[n].replacing ::
      HostSeen(run[n].d, f)
  {
    FreshGood(run[0], hosts, volume, rootData, rootMaps);
    RunGood(run, ops, n);
    forall f: nat | f < |run[n].d.files| && Live(run[n].d.files[f]) && f !in run[n].replacing
      ensures HostSeen(run[n].d, f)
    {
      SeenFile(run[n].d, f);
    }
    forall s: sector | 1 <= s <= run[n].d.sectors ensures run[n].d.inUse[s] <==> HasOwner(run[n].d, s) {
      if HasOwner(run[n].d, s) {
        OwnedInUse(run[n].d, s);
      }
    }
  }

  /** The sectors that may read differently: what lies behind the new end, and what is
      freed. */
  function Gone(i: Image, op: Op): set<sector>
    requires IsChange(op) && (!op.Create? ==> op.file < |i.d.files|)
  {
    match op
    case Create(name, length, maps, listed) => LastOf(listed)
    case Append(f, length, maps, added) => LastOf(i.d.files[f].data + added)
    case Replace(f, length, maps, listed) => Freed(i.d.files[f], maps, listed) + LastOf(listed)
    case Rename(f, atari) => {}
    case Delete(f) => Freed(i.d.files[f], [], [])
  }

  /** In such a sequence no change shows in any other file, nor in the root directory,
      nor in any sector but these. */
  lemma ChangesAreInvisible(run: seq<Image>, ops: seq<Op>, hosts: seq<HostFile>, volume: seq<byte>,
                           rootData: seq<sector>, rootMaps: seq<sector>, n: nat)
    requires AreHosts(hosts) && |volume| == 8 && IsRun(run, ops) && n < |ops| && IsChange(ops[n])
    requires IsFresh(run[0], hosts, volume, rootData, rootMaps)
    ensures Sound(run[n].d) && Sound(run[n + 1].d) && run[n + 1].d.sectors == run[n].d.sectors
    ensures OthersSame(run[n].d, run[n + 1].d, About(run[n], ops[n])) && RootSame(run[n].d, run[n + 1].d)
    ensures !ops[n].Create? ==> ops[n].file < |run[n].d.files|
    ensures SameReads(run[n].d, run[n + 1].d, Gone(run[n], ops[n]))
  {
    FreshGood(run[0], hosts, volume, rootData, rootMaps);
    RunGood(run, ops, n);
    RunGood(run, ops, n + 1);
    LeavesOthers(run[n], ops[n], run[n + 1]);
    LeavesSectors(run[n], ops[n], run[n + 1]);
  }

  lemma LeavesOthers(i: Image, op: Op, j: Image)
    requires Good(i) && Does(i, op, j) && Good(j) && IsChange(op)
    ensures OthersSame(i.d, j.d, About(i, op)) && RootSame(i.d, j.d)
  {
    match op
    case Create(name, length, maps, listed) => CreateLeavesOthers(i.d, j.d, name, length, maps, listed);
    case Append(f, length, maps, added) => AppendLeavesOthers(i.d, j.d, f, length, maps, added);
    case Replace(f, length, maps, listed) => ReplaceLeavesOthers(i.d, j.d, f, length, maps, listed);
    case Rename(f, atari) => RenameLeavesOthers(i.d, j.d, f, atari);
    case Delete(f) => DeleteLeavesOthers(i.d, j.d, f);
  }

  lemma LeavesSectors(i: Image, op: Op, j: Image)
    requires Good(i) && Does(i, op, j) && Good(j) && IsChange(op)
    ensures j.d.sectors == i.d.sectors && (!op.Create? ==> op.file < |i.d.files|)
    ensures SameReads(i.d, j.d, Gone(i, op))
  {
    match op
    case Create(name, length, maps, listed) =>
      AllFreeIs(i.d, listed);
      AllFreeIs(i.d, maps);
      CreateInvisible(i.d, j.d, name, length, maps, listed);
    case Append(f, length, maps, added) =>
      AppendPlaces(i.d, f, maps, added);
      AppendInvisible(i.d, j.d, f, length, maps, added);
    case Replace(f, length, maps, listed) =>
      OwnUnowned(i.d, f, maps, listed);
      ReplaceInvisible(i.d, j.d, f, length, maps, listed);
    case Rename(f, atari) => RenameLeavesOthers(i.d, j.d, f, atari);
    case Delete(f) => DeleteLeavesOthers(i.d, j.d, f);
  }

  /** The data sectors of the file that a commit is about. */
  function NewData(i: Image, op: Op): seq<sector>
    requires IsCommit(op) && (op.Append? ==> op.file < |i.d.files|)
  {
    match op
    case Create(name, length, maps, listed) => listed
    case Append(f, length, maps, added) => i.d.files[f].data + added
    case Replace(f, length, maps, listed) => listed
  }

  /** The chain of its maps holds these contents. */
  ghost predicate Holds(d: Disk, op: Op, data: seq<sector>, content: seq<byte>)
    requires IsCommit(op) && Shape(d)
  {
    IsGuestFile(ViewOf(d), d.sectors, FirstOf(op.maps), op.maps, data, op.length, content)
  }

  /** The guest sees the new file before the commit as after it, and it is the host
      file then, whatever was written before in what order. An append is of a file
      without a pending replacement. */
  lemma CommitsAreSeen(run: seq<Image>, ops: seq<Op>, hosts: seq<HostFile>, volume: seq<byte>, rootData: seq<sector>,
                       rootMaps: seq<sector>, n: nat, content: seq<byte>)
    requires AreHosts(hosts) && |volume| == 8 && IsRun(run, ops) && n < |ops| && IsCommit(ops[n])
    requires IsFresh(run[0], hosts, volume, rootData, rootMaps) && Shape(run[n].d)
    requires ops[n].Append? ==> ops[n].file < |run[n].d.files| && ops[n].file !in run[n].replacing
    requires Holds(run[n].d, ops[n], NewData(run[n], ops[n]), content)
    ensures Shape(run[n + 1].d) && Holds(run[n + 1].d, ops[n], NewData(run[n], ops[n]), content)
    ensures var d', f := run[n + 1].d, About(run[n], ops[n]);
      && f < |d'.files| && d'.files[f].maps == ops[n].maps && d'.files[f].data == NewData(run[n], ops[n])
      && d'.files[f].length == ops[n].length && d'.files[f].name in d'.host && d'.host[d'.files[f].name] == content
  {
    FreshGood(run[0], hosts, volume, rootData, rootMaps);
    RunGood(run, ops, n);
    match ops[n]
    case Create(name, length, maps, listed) => CreateSeen(run[n], ops[n], run[n + 1], content);
    case Append(f, length, maps, added) => AppendSeen(run[n], ops[n], run[n + 1], content);
    case Replace(f, length, maps, listed) => ReplaceSeen(run[n], ops[n], run[n + 1], content);
  }

  lemma CreateSeen(i: Image, op: Op, j: Image, content: seq<byte>)
    requires Good(i) && op.Create? && Does(i, op, j) && Holds(i.d, op, op.listed, content)
    ensures Shape(j.d) && Holds(j.d, op, op.listed, content)
    ensures var n := |i.d.files|;
      && |j.d.files| == n + 1 && j.d.files[n].maps == op.maps && j.d.files[n].data == op.listed
      && j.d.files[n].length == op.length && j.d.files[n].name in j.d.host && j.d.host[j.d.files[n].name] == content
  {
    AllFreeIs(i.d, op.listed);
    CreatedSeen(i.d, j.d, op.name, op.length, op.maps, op.listed, content);
  }

  lemma ReplaceSeen(i: Image, op: Op, j: Image, content: seq<byte>)
    requires Good(i) && op.Replace? && Does(i, op, j) && Holds(i.d, op, op.listed, content)
    ensures Shape(j.d) && Holds(j.d, op, op.listed, content) && op.file < |j.d.files|
    ensures var file := j.d.files[op.file];
      && file.maps == op.maps && file.data == op.listed && file.length == op.length
      && file.name in j.d.host && j.d.host[file.name] == content
  {
    OwnUnowned(i.d, op.file, op.maps, op.listed);
    ReplacedFile(i.d, j.d, op.file, op.length, op.maps, op.listed, content);
  }

  lemma AppendSeen(i: Image, op: Op, j: Image, content: seq<byte>)
    requires Good(i) && op.Append? && Does(i, op, j) && op.file !in i.replacing
    requires Holds(i.d, op, i.d.files[op.file].data + op.added, content)
    ensures Shape(j.d) && Holds(j.d, op, i.d.files[op.file].data + op.added, content) && op.file < |j.d.files|
    ensures var file := j.d.files[op.file];
      && file.maps == op.maps && file.data == i.d.files[op.file].data + op.added && file.length == op.length
      && file.name in j.d.host && j.d.host[file.name] == content
  {
    var d, f := i.d, op.file;
    AppendPlaces(d, f, op.maps, op.added);
    assert FileStaged(d, f);
    AgreesOld(d, f, op.length, op.added);
    forall s | s in LastOf(d.files[f].data + op.added) ensures s !in op.maps {
      LastNotMap(d, f, op.maps, op.added, s);
    }
    AppendedFile(d, j.d, f, op.length, op.maps, op.added, content);
  }

  lemma LastNotMap(d: Disk, f: nat, maps: seq<sector>, added: seq<sector>, s: sector)
    requires Sound(d) && f < |d.files| && AppendFree(d, f, maps, added) && s in LastOf(d.files[f].data + added)
    ensures s !in maps
  {
    var data := d.files[f].data;
    if added != [] {
      assert s == added[|added| - 1];
    } else {
      assert data + added == data && s in data;
      AppendPlaces(d, f, maps, added);
      DataIs(d, f, s);
    }
  }

  // ---- The root directory's chain ----

  /** A write elsewhere leaves a metadata sector as it reads. */
  lemma WriteReads(d: Disk, d': Disk, replacing: set<nat>, s: sector, b: seq<byte>, x: sector)
    requires Sound(d) && WriteStep(d, d', replacing, s, b) && Shape(d') && x != s && 1 <= x <= d.sectors
    requires x in d.meta || x <= 3
    ensures ReadSector(d', x) == ReadSector(d, x)
  {
    assert ReservedAt(d, x);
  }

  lemma WriteLinked(d: Disk, d': Disk, replacing: set<nat>, s: sector, b: seq<byte>)
    requires Sound(d) && WriteStep(d, d', replacing, s, b) && Shape(d') && s != 1 && s !in d.rootMaps && RootLinked(d)
    ensures RootLinked(d')
  {
    WriteReads(d, d', replacing, s, b, 1);
    forall x | x in d.rootMaps ensures ViewOf(d)(x) == ViewOf(d')(x) {
      assert InRoot(d, x);
      WriteReads(d, d', replacing, s, b, x);
    }
    ChainKept(ViewOf(d), ViewOf(d'), d.sectors, d.rootMaps, d.rootData);
  }

  /** The guest has written neither the boot sector nor a map of the root directory. */
  predicate SparesRoot(ops: seq<Op>, rootMaps: seq<sector>) {
    forall k: nat | k < |ops| && ops[k].Write? :: ops[k].s != 1 && ops[k].s !in rootMaps
  }

  ghost predicate HasRoot(i: Image, rootData: seq<sector>, rootMaps: seq<sector>) {
    Good(i) && RootLinked(i.d) && i.d.rootMaps == rootMaps && i.d.rootData == rootData
  }

  lemma RootStep(i: Image, op: Op, j: Image, rootData: seq<sector>, rootMaps: seq<sector>)
    requires HasRoot(i, rootData, rootMaps) && Does(i, op, j) && (op.Write? ==> op.s != 1 && op.s !in rootMaps)
    ensures HasRoot(j, rootData, rootMaps)
  {
    StepGood(i, op, j);
    LinkStays(i, op, j);
  }

  lemma {:induction false} LinkRun(run: seq<Image>, ops: seq<Op>, rootData: seq<sector>, rootMaps: seq<sector>, n: nat)
    requires IsRun(run, ops) && n < |run| && SparesRoot(ops, rootMaps) && HasRoot(run[0], rootData, rootMaps)
    ensures HasRoot(run[n], rootData, rootMaps)
  {
    if n > 0 {
      LinkRun(run, ops, rootData, rootMaps, n - 1);
      RootStep(run[n - 1], ops[n - 1], run[n], rootData, rootMaps);
    }
  }

  /** As long as the guest leaves them alone, the chain from the boot sector's root map
      leads to the root directory, whatever else it does. */
  lemma RootStays(run: seq<Image>, ops: seq<Op>, hosts: seq<HostFile>, volume: seq<byte>, rootData: seq<sector>,
                  rootMaps: seq<sector>, n: nat)
    requires AreHosts(hosts) && |volume| == 8 && IsRun(run, ops) && n < |run| && SparesRoot(ops, rootMaps)
    requires IsFresh(run[0], hosts, volume, rootData, rootMaps)
    ensures Sound(run[n].d) && RootLinked(run[n].d) && run[n].d.rootMaps == rootMaps && run[n].d.rootData == rootData
  {
    FreshGood(run[0], hosts, volume, rootData, rootMaps);
    RootReads(run[0].d, hosts, volume, rootData, rootMaps);
    LinkRun(run, ops, rootData, rootMaps, n);
  }

  lemma LinkStays(i: Image, op: Op, j: Image)
    requires Good(i) && Does(i, op, j) && Good(j) && RootLinked(i.d)
    requires op.Write? ==> op.s != 1 && op.s !in i.d.rootMaps
    ensures RootLinked(j.d) && j.d.rootMaps == i.d.rootMaps && j.d.rootData == i.d.rootData
  {
    if op.Write? {
      WriteLinked(i.d, j.d, i.replacing, op.s, op.b);
    } else if !op.Reopen? {
      LeavesOthers(i, op, j);
    }
  }
}
