/** Ownership over one commit: every data sector stays with one place of one file, and
    no two files share a host file. */
module SdfsOwners {
  import opened SdfsMap
  import opened SdfsDisk
  import opened SdfsCreate
  import opened SdfsAppend
  import opened SdfsReplace

  ghost predicate FilesOwn(d: Disk) {
    forall f: nat | f < |d.files| :: FileOwns(d, f)
  }

  lemma CreateOwned(d: Disk, d': Disk, name: string, length: nat, maps: seq<sector>, listed: seq<sector>)
    requires Shape(d) && Owned(d) && CreateStep(d, d', name, length, maps, listed)
    requires |listed| == Needed(length) && DataSectors(d, listed) && NoDup(listed)
    requires (forall s | s in listed :: s !in d.refs && s !in maps) && (forall s | s in maps :: s !in d.refs)
    requires NoMaps(d, |d.files|, listed)
    ensures Owned(d')
  {
    forall f: nat | f < |d'.files| ensures FileOwns(d', f) {
      CreateFileOwns(d, d', name, length, maps, listed, f);
    }
    forall s | s in d'.refs ensures RefOwned(d', s) {
      CreateRefOwned(d, d', name, length, maps, listed, s);
    }
    forall f: nat, g: nat | f < g < |d'.files| && Live(d'.files[f]) && Live(d'.files[g])
      ensures d'.files[f].name != d'.files[g].name
    {
      CreateNames(d, d', name, length, maps, listed, f, g);
    }
  }

  lemma CreateNames(d: Disk, d': Disk, name: string, length: nat, maps: seq<sector>, listed: seq<sector>, f: nat,
                    g: nat)
    requires Shape(d) && Owned(d) && CreateStep(d, d', name, length, maps, listed)
    requires f < g < |d'.files| && Live(d'.files[f]) && Live(d'.files[g])
    ensures d'.files[f].name != d'.files[g].name
  {
    assert f < |d.files| && FileOk(d, d.files[f]);
  }

  lemma CreateFileOwns(d: Disk, d': Disk, name: string, length: nat, maps: seq<sector>, listed: seq<sector>, f: nat)
    requires Shape(d) && Owned(d) && CreateStep(d, d', name, length, maps, listed)
    requires |listed| == Needed(length) && DataSectors(d, listed) && NoDup(listed)
    requires (forall s | s in listed :: s !in d.refs && s !in maps) && (forall s | s in maps :: s !in d.refs)
    requires NoMaps(d, |d.files|, listed) && f < |d'.files|
    ensures FileOwns(d', f)
  {
    if f < |d.files| {
      OldFileOwns(d, d', name, length, maps, listed, f);
    } else {
      NewFileOwns(d, d', name, length, maps, listed);
    }
  }

  lemma OldFileOwns(d: Disk, d': Disk, name: string, length: nat, maps: seq<sector>, listed: seq<sector>, f: nat)
    requires Shape(d) && Owned(d) && CreateStep(d, d', name, length, maps, listed) && NoDup(listed)
    requires (forall s | s in listed :: s !in d.refs) && NoMaps(d, |d.files|, listed) && f < |d.files|
    ensures FileOwns(d', f)
  {
    assert FileOwns(d, f);
    KeptRefs(d, d', f, listed);
    forall s | s in d.files[f].maps ensures s !in d'.refs {
      assert s !in listed;
    }
  }

  lemma NewFileOwns(d: Disk, d': Disk, name: string, length: nat, maps: seq<sector>, listed: seq<sector>)
    requires Shape(d) && CreateStep(d, d', name, length, maps, listed)
    requires |listed| == Needed(length) && DataSectors(d, listed) && NoDup(listed)
    requires (forall s | s in listed :: s !in maps) && (forall s | s in maps :: s !in d.refs)
    ensures |d.files| < |d'.files| && FileOwns(d', |d.files|)
  {
    var file := d'.files[|d.files|];
    assert file.data == listed && file.maps == maps && file.length == length;
    forall i: nat | i < |listed| ensures listed[i] in d'.refs && d'.refs[listed[i]] == Ref(|d.files|, i) {
      assert listed[i] in listed;
    }
  }

  lemma CreateRefOwned(d: Disk, d': Disk, name: string, length: nat, maps: seq<sector>, listed: seq<sector>, s: sector)
    requires Shape(d) && Owned(d) && CreateStep(d, d', name, length, maps, listed) && DataSectors(d, listed)
    requires NoDup(listed) && s in d'.refs
    ensures RefOwned(d', s)
  {
    if s in listed {
      var i: nat :| i < |listed| && listed[i] == s;
      assert d'.refs[listed[i]] == Ref(|d.files|, i);
    } else {
      assert RefOwned(d, s);
    }
  }

  /** What a file owned and keeps. */
  lemma KeptRefs(d: Disk, d': Disk, f: nat, listed: seq<sector>)
    requires f < |d.files| && FileOwns(d, f) && (forall s | s in listed :: s !in d.refs)
    requires forall s | s in d.refs && s !in listed :: s in d'.refs && d'.refs[s] == d.refs[s]
    ensures forall i: nat | i < |d.files[f].data| ::
      d.files[f].data[i] in d'.refs && d'.refs[d.files[f].data[i]] == Ref(f, i)
  {
  }

  lemma AppendOwned(d: Disk, d': Disk, f: nat, newLength: nat, maps: seq<sector>, added: seq<sector>)
    requires Shape(d) && Owned(d) && AppendStep(d, d', f, newLength, maps, added)
    requires DataSectors(d, d.files[f].data + added) && NoDup(added)
    requires (forall s | s in added :: s !in d.refs && s !in maps) && (forall s | s in maps :: s !in d.refs)
    requires NoMaps(d, f, added)
    ensures Owned(d')
  {
    forall g: nat | g < |d'.files| ensures FileOwns(d', g) {
      assert FileOwns(d, g);
      if g == f {
        AppendFileOwns(d, d', f, newLength, maps, added);
      } else {
        KeptRefs(d, d', g, added);
      }
    }
    forall s | s in d'.refs ensures RefOwned(d', s) {
      AppendRefOwned(d, d', f, newLength, maps, added, s);
    }
    forall g: nat, h: nat | g < h < |d'.files| && Live(d'.files[g]) && Live(d'.files[h])
      ensures d'.files[g].name != d'.files[h].name
    {
      OtherName(d, g, h);
    }
  }

  lemma AppendFileOwns(d: Disk, d': Disk, f: nat, newLength: nat, maps: seq<sector>, added: seq<sector>)
    requires Shape(d) && FilesOwn(d) && AppendStep(d, d', f, newLength, maps, added)
    requires DataSectors(d, d.files[f].data + added)
    requires (forall s | s in added :: s !in d.refs && s !in maps) && (forall s | s in maps :: s !in d.refs)
    ensures FileOwns(d', f)
  {
    var all := d.files[f].data + added;
    assert FileOwns(d, f);
    forall i: nat | i < |all| ensures all[i] in d'.refs && d'.refs[all[i]] == Ref(f, i) {
      TailRef(d, d', f, added, i);
    }
  }

  lemma AppendRefOwned(d: Disk, d': Disk, f: nat, newLength: nat, maps: seq<sector>, added: seq<sector>, s: sector)
    requires Shape(d) && Owned(d) && AppendStep(d, d', f, newLength, maps, added) && s in d'.refs
    requires DataSectors(d, d.files[f].data + added)
    ensures RefOwned(d', s)
  {
    if s in added {
      AddedRefOwned(d, d', f, newLength, maps, added, s);
    } else {
      assert RefOwned(d, s);
    }
  }

  lemma AddedRefOwned(d: Disk, d': Disk, f: nat, newLength: nat, maps: seq<sector>, added: seq<sector>, s: sector)
    requires Shape(d) && Same(d, d') && f < |d.files| && AppendFiles(d, d', f, newLength, maps, added)
    requires AppendRefs(d, d', f, |d.files[f].data|, added) && s in added && |d'.inUse| == |d.inUse|
    requires forall k: nat | k < |d.inUse| && k in added :: d'.inUse[k]
    requires DataSectors(d, d.files[f].data + added)
    ensures s in d'.refs && RefOwned(d', s)
  {
    var data := d.files[f].data;
    var i: nat :| i < |added| && added[i] == s;
    assert added[i] in d'.refs && d'.refs[added[i]] == Ref(f, |data| + i);
    assert (data + added)[|data| + i] == s;
  }

  lemma ReplaceOwned(d: Disk, d': Disk, f: nat, newLength: nat, maps: seq<sector>, listed: seq<sector>)
    requires Shape(d) && Owned(d) && ReplaceStep(d, d', f, newLength, maps, listed) && Unowned(d, f, maps, listed)
    requires Live(d.files[f])
    ensures Owned(d')
  {
    forall g: nat | g < |d'.files| ensures FileOwns(d', g) {
      ReplaceFileOwns(d, d', f, newLength, maps, listed, g);
    }
    forall s | s in d'.refs ensures RefOwned(d', s) {
      ReplaceRefOwned(d, d', f, newLength, maps, listed, s);
    }
    forall g: nat, h: nat | g < h < |d'.files| && Live(d'.files[g]) && Live(d'.files[h])
      ensures d'.files[g].name != d'.files[h].name
    {
      OtherName(d, g, h);
    }
  }

  lemma ReplaceFileOwns(d: Disk, d': Disk, f: nat, newLength: nat, maps: seq<sector>, listed: seq<sector>, g: nat)
    requires Shape(d) && Owned(d) && ReplaceStep(d, d', f, newLength, maps, listed) && Unowned(d, f, maps, listed)
    requires g < |d.files|
    ensures FileOwns(d', g)
  {
    if g == f {
      OwnReplaced(d, d', f, newLength, maps, listed);
    } else {
      OtherKept(d, d', f, newLength, maps, listed, g);
    }
  }

  lemma OwnReplaced(d: Disk, d': Disk, f: nat, newLength: nat, maps: seq<sector>, listed: seq<sector>)
    requires f < |d.files| && Owned(d) && Same(d, d')
    requires ReplaceFiles(d, d', f, newLength, maps, listed) && ReplaceRefs(d, d', f, listed)
    requires Unowned(d, f, maps, listed)
    ensures FileOwns(d', f)
  {
    forall s | s in maps ensures s !in d'.refs {
      assert s in d.refs ==> RefOwned(d, s);
    }
  }

  lemma OtherKept(d: Disk, d': Disk, f: nat, newLength: nat, maps: seq<sector>, listed: seq<sector>, g: nat)
    requires f < |d.files| && Owned(d) && Same(d, d') && g < |d.files| && g != f
    requires ReplaceFiles(d, d', f, newLength, maps, listed) && ReplaceRefs(d, d', f, listed)
    requires Unowned(d, f, maps, listed)
    ensures FileOwns(d', g)
  {
    var data := d.files[g].data;
    assert FileOwns(d, g);
    forall i: nat | i < |data| ensures data[i] in d'.refs && d'.refs[data[i]] == Ref(g, i) {
      NotShared(d, f, g, data[i], i);
      assert data[i] !in listed;
    }
  }

  lemma NotShared(d: Disk, f: nat, g: nat, s: sector, i: nat)
    requires Owned(d) && f < |d.files| && g < |d.files| && f != g && i < |d.files[g].data| && d.files[g].data[i] == s
    ensures s in d.refs && d.refs[s] == Ref(g, i) && s !in d.files[f].data
  {
    assert FileOwns(d, f) && FileOwns(d, g);
  }

  lemma ReplaceRefOwned(d: Disk, d': Disk, f: nat, newLength: nat, maps: seq<sector>, listed: seq<sector>, s: sector)
    requires Shape(d) && Owned(d) && ReplaceStep(d, d', f, newLength, maps, listed) && Unowned(d, f, maps, listed)
    requires s in d'.refs
    ensures RefOwned(d', s)
  {
    if s in listed {
      var i: nat :| i < |listed| && listed[i] == s;
      assert d'.refs[listed[i]] == Ref(f, i);
    } else {
      assert RefOwned(d, s) && FileOwns(d, f);
      KeptInUse(d, f, maps, listed, s);
    }
  }

  /** A sector of another file is not freed: were it one of f's maps, it is not. */
  lemma KeptInUse(d: Disk, f: nat, maps: seq<sector>, listed: seq<sector>, s: sector)
    requires f < |d.files| && s !in d.files[f].data && (forall m | m in d.files[f].maps :: m !in d.refs) && s in d.refs
    ensures s !in Freed(d.files[f], maps, listed)
  {
  }
}
