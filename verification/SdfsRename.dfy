/** A file renamed by its directory entry. */
module SdfsRename {
  import opened ByteBits
  import opened SdfsMap
  import opened SdfsDisk
  import opened SdfsNames
  import opened SdfsCreate
  import opened SdfsAppend
  import opened SdfsApart
  import opened SdfsOthers
  import opened SdfsWrite

  /** The host's name for what an entry shows. */
  function Text(codes: seq<byte>): (s: string)
    ensures |s| == |codes| && forall k | 0 <= k < |s| :: s[k] as int == codes[k] as int
  {
    seq(|codes|, k requires 0 <= k < |codes| => codes[k] as char)
  }

  /** No file that is not empty is shown under the new name. */
  predicate RenameReady(d: Disk, f: nat, atari: seq<byte>) {
    && f < |d.files| && d.files[f].maps != [] && |atari| == 11
    && forall g: nat | g < |d.files| && g != f && d.files[g].length > 0 && |d.files[g].atari| == 11 ::
         VisibleName(d.files[g].atari) != Visible(atari)
  }

  /** A file other than f that is not empty is shown under the name. */
  predicate ShownElsewhere(files: seq<File>, f: nat, name: seq<byte>)
    requires forall g | 0 <= g < |files| :: |files[g].atari| == 11
  {
    exists g: nat :: g < |files| && g != f && files[g].length > 0 && VisibleName(files[g].atari) == name
  }

  method LookFor(files: seq<File>, f: nat, name: seq<byte>) returns (shown: bool)
    requires forall g | 0 <= g < |files| :: |files[g].atari| == 11
    ensures shown == ShownElsewhere(files, f, name)
  {
    for g := 0 to |files|
      invariant forall h: nat | h < g && h != f && files[h].length > 0 :: VisibleName(files[h].atari) != name
    {
      if g != f && files[g].length > 0 && VisibleName(files[g].atari) == name {
        return true;
      }
    }
    shown := false;
  }

  /** The host file moves, over another of the new name if there is one. */
  predicate RenameStep(d: Disk, d': Disk, f: nat, atari: seq<byte>) {
    && RenameReady(d, f, atari)
    && var file, name := d.files[f], Text(Visible(atari));
       && file.name in d.host
       && d' == d.(files := d.files[f := file.(name := name, atari := atari)],
                   host := (d.host - {file.name})[name := d.host[file.name]])
  }

  /** In plain terms: file and host file have the new name; no other file, and no host
      file of another name, changes. */
  ghost predicate IsRenamed(d: Disk, d': Disk, f: nat, name: string, atari: seq<byte>)
    requires f < |d.files|
  {
    var file := d.files[f];
    && d'.files == d.files[f := File(name, atari, file.length, file.data, file.maps)]
    && file.name in d.host && name in d'.host && d'.host[name] == d.host[file.name]
    && (forall n | n != name :: n in d'.host <==> n in d.host && n != file.name)
    && (forall n | n in d'.host && n != name :: d'.host[n] == d.host[n])
    && d' == d.(files := d'.files, host := d'.host)
  }

  lemma RenamedMeans(d: Disk, d': Disk, f: nat, atari: seq<byte>)
    requires RenameStep(d, d', f, atari)
    ensures IsRenamed(d, d', f, Text(Visible(atari)), atari)
  {
  }

  /** No other file that is not deleted has the new name on the host. */
  predicate NameFree(d: Disk, f: nat, name: string) {
    forall g: nat | g < |d.files| && g != f && Live(d.files[g]) :: d.files[g].name != name
  }

  lemma RenameShape(d: Disk, d': Disk, f: nat, atari: seq<byte>)
    requires Shape(d) && Owned(d) && RenameStep(d, d', f, atari) && NameFree(d, f, d'.files[f].name)
    ensures Shape(d')
  {
    forall g: nat | g < |d'.files| ensures FileOk(d', d'.files[g]) {
      assert FileOk(d, d.files[g]);
      if g != f && Live(d.files[g]) {
        OtherName(d, f, g);
      }
    }
  }

  lemma RenameOwned(d: Disk, d': Disk, f: nat, atari: seq<byte>)
    requires Owned(d) && RenameStep(d, d', f, atari) && NameFree(d, f, d'.files[f].name)
    ensures Owned(d')
  {
    forall g: nat | g < |d'.files| ensures FileOwns(d', g) {
      assert FileOwns(d, g);
    }
    forall s | s in d'.refs ensures RefOwned(d', s) {
      assert RefOwned(d, s);
    }
  }

  lemma RenameApart(d: Disk, d': Disk, f: nat, atari: seq<byte>)
    requires Apart(d) && RenameStep(d, d', f, atari)
    ensures Apart(d')
  {
    forall s: sector | 1 <= s <= d'.sectors && (s <= 3 || InBitmap(d', s) || s in d'.meta) ensures ReservedAt(d', s) {
      assert ReservedAt(d, s);
    }
    forall g: nat | g < |d'.files| ensures MapsKept(d', g) {
      assert MapsKept(d, g);
      forall s | s in d'.files[g].maps ensures OwnMap(d', s) {
        assert OwnMap(d, s);
      }
    }
    forall g: nat, h: nat | g < |d'.files| && h < |d'.files| && g != h ensures MapsApart(d', g, h) {
      assert MapsApart(d, g, h);
    }
    assert forall s | InRoot(d', s) :: InRoot(d, s);
  }

  lemma RenameSound(d: Disk, d': Disk, f: nat, atari: seq<byte>)
    requires Sound(d) && RenameStep(d, d', f, atari) && NameFree(d, f, d'.files[f].name)
    ensures Sound(d')
  {
    RenameShape(d, d', f, atari);
    RenameOwned(d, d', f, atari);
    RenameApart(d, d', f, atari);
  }

  lemma StaysStaged(d: Disk, d': Disk, f: nat, atari: seq<byte>, g: nat)
    requires Sound(d) && RenameStep(d, d', f, atari) && Sound(d') && g < |d.files| && Live(d.files[g])
    requires g != f ==> d'.files[f].name != d.files[g].name
    ensures FileStaged(d', g) <==> FileStaged(d, g)
  {
    assert FileOk(d, d.files[g]);
    if g != f {
      OtherName(d, f, g);
    }
    SameStaged(d, d', g);
  }

  lemma SameStaged(d: Disk, d': Disk, g: nat)
    requires Shape(d) && Shape(d') && g < |d.files| && g < |d'.files| && Live(d.files[g]) && Live(d'.files[g])
    requires d'.files[g].data == d.files[g].data && d'.pending == d.pending
    requires d.files[g].name in d.host && d'.files[g].name in d'.host
    requires d'.host[d'.files[g].name] == d.host[d.files[g].name]
    ensures FileStaged(d', g) <==> FileStaged(d, g)
  {
  }

  /** It keeps disk and host files right exactly if no other file has the new name on
      the host, and the file's staged sectors are in its host file: its replacement, if
      one was pending, no longer is. */
  lemma RenameKeeps(d: Disk, d': Disk, replacing: set<nat>, f: nat, atari: seq<byte>)
    requires Sound(d) && HostsAgree(d, replacing) && RenameStep(d, d', f, atari)
    ensures Sound(d') && HostsAgree(d', replacing - {f})
            <==> NameFree(d, f, Text(Visible(atari))) && FileStaged(d, f)
  {
    if NameFree(d, f, Text(Visible(atari))) {
      RenameSound(d, d', f, atari);
      forall g: nat | g < |d.files| && Live(d.files[g]) ensures FileStaged(d', g) <==> FileStaged(d, g) {
        StaysStaged(d, d', f, atari, g);
      }
    } else if Sound(d') {
      NameTaken(d, d', f, atari);
      assert false;
    }
  }

  lemma NameTaken(d: Disk, d': Disk, f: nat, atari: seq<byte>)
    requires RenameStep(d, d', f, atari) && Owned(d')
    ensures NameFree(d, f, Text(Visible(atari)))
  {
    forall g: nat | g < |d.files| && g != f && Live(d.files[g]) ensures d.files[g].name != Text(Visible(atari)) {
      OtherName(d', f, g);
    }
  }

  // ---- What the guest sees ----

  /** No sector reads differently. */
  lemma RenameReads(d: Disk, d': Disk, f: nat, atari: seq<byte>, s: sector)
    requires Sound(d) && RenameStep(d, d', f, atari) && Sound(d') && 1 <= s <= d.sectors
    ensures ReadSector(d', s) == ReadSector(d, s)
  {
    if s in d.refs {
      HostStays(d, d', f, atari, d.refs[s]);
    }
  }

  lemma HostStays(d: Disk, d': Disk, f: nat, atari: seq<byte>, r: Ref)
    requires Shape(d) && Owned(d) && RenameStep(d, d', f, atari) && Shape(d') && Owned(d') && r.file < |d.files|
    ensures HostSector(d', r) == HostSector(d, r)
  {
    assert FileOk(d, d.files[r.file]);
    if r.file != f && Live(d.files[r.file]) {
      OtherName(d, f, r.file);
      OtherName(d', f, r.file);
    }
  }

  lemma RenameLeavesOthers(d: Disk, d': Disk, f: nat, atari: seq<byte>)
    requires Sound(d) && RenameStep(d, d', f, atari) && Sound(d')
    ensures SameReads(d, d', {}) && OthersSame(d, d', f) && RootSame(d, d')
  {
    forall s: sector | 1 <= s <= d.sectors ensures ReadSector(d', s) == ReadSector(d, s) {
      RenameReads(d, d', f, atari, s);
    }
    OthersFrom(d, d', f, {});
  }
}
