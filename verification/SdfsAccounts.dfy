/** Conservation: a sector is in use exactly if somebody owns it. */
module SdfsAccounts {
  import opened ByteBits
  import opened SdfsMap
  import opened SdfsDisk
  import opened SdfsCreate
  import opened SdfsAlloc
  import opened SdfsDirectory
  import opened SdfsInit
  import opened SdfsFormat
  import opened SdfsRoles
  import opened SdfsAppend
  import opened SdfsReplace
  import opened SdfsApart
  import opened SdfsDelete

  predicate IsMapOf(d: Disk, s: sector, f: nat) {
    f < |d.files| && s in d.files[f].maps
  }

  /** Boot sector, bitmap, root directory, or a file's data or map. */
  ghost predicate HasOwner(d: Disk, s: sector) {
    s <= 3 || InBitmap(d, s) || InRoot(d, s) || s in d.refs || exists f: nat :: IsMapOf(d, s, f)
  }

  ghost predicate Accounted(d: Disk) {
    forall s: sector | 1 <= s <= d.sectors && s < |d.inUse| && d.inUse[s] :: HasOwner(d, s)
  }

  /** On a sound disk the owners' sectors are in use, too. */
  lemma OwnedInUse(d: Disk, s: sector)
    requires Sound(d) && 1 <= s <= d.sectors && HasOwner(d, s)
    ensures d.inUse[s]
  {
    if s in d.refs {
      assert RefOwned(d, s);
    } else if exists f: nat :: IsMapOf(d, s, f) {
      var f: nat :| IsMapOf(d, s, f);
      MapIs(d, f, s);
    } else {
      assert ReservedAt(d, s);
    }
  }

  // ---- What keeps it ----

  /** The files' maps grow, and nothing loses its owner. */
  lemma MoreOwners(d: Disk, d': Disk, s: sector)
    requires Same(d, d') && HasOwner(d, s) && (s in d.refs ==> s in d'.refs)
    requires |d.files| <= |d'.files| && forall f: nat | IsMapOf(d, s, f) :: IsMapOf(d', s, f)
    ensures HasOwner(d', s)
  {
    if exists f: nat :: IsMapOf(d, s, f) {
      var f: nat :| IsMapOf(d, s, f);
      assert IsMapOf(d', s, f);
    }
  }

  lemma CreateAccounted(d: Disk, d': Disk, name: string, length: nat, maps: seq<sector>, listed: seq<sector>)
    requires Shape(d) && Accounted(d) && CreateStep(d, d', name, length, maps, listed)
    ensures Accounted(d')
  {
    forall s: sector | 1 <= s <= d'.sectors && s < |d'.inUse| && d'.inUse[s] ensures HasOwner(d', s) {
      if s in maps {
        assert IsMapOf(d', s, |d.files|);
      } else if s !in listed {
        MoreOwners(d, d', s);
      }
    }
  }

  lemma AppendAccounted(d: Disk, d': Disk, f: nat, length: nat, maps: seq<sector>, added: seq<sector>)
    requires Shape(d) && Accounted(d) && AppendStep(d, d', f, length, maps, added) && d.files[f].maps <= maps
    ensures Accounted(d')
  {
    forall s: sector | 1 <= s <= d'.sectors && s < |d'.inUse| && d'.inUse[s] ensures HasOwner(d', s) {
      if s in maps[|d.files[f].maps|..] {
        assert s in maps && IsMapOf(d', s, f);
      } else if s !in added {
        MoreOwners(d, d', s);
      }
    }
  }

  lemma ReplaceAccounted(d: Disk, d': Disk, f: nat, length: nat, maps: seq<sector>, listed: seq<sector>)
    requires Shape(d) && Accounted(d) && ReplaceStep(d, d', f, length, maps, listed)
    ensures Accounted(d')
  {
    forall s: sector | 1 <= s <= d'.sectors && s < |d'.inUse| && d'.inUse[s] ensures HasOwner(d', s) {
      if s in maps {
        assert IsMapOf(d', s, f);
      } else if s !in listed {
        assert s !in Freed(d.files[f], maps, listed);
        MoreOwners(d, d', s);
      }
    }
  }

  lemma DeleteAccounted(d: Disk, d': Disk, f: nat)
    requires Shape(d) && Accounted(d) && DeleteStep(d, d', f)
    ensures Accounted(d')
  {
    forall s: sector | 1 <= s <= d'.sectors && s < |d'.inUse| && d'.inUse[s] ensures HasOwner(d', s) {
      assert s !in Freed(d.files[f], [], []);
      MoreOwners(d, d', s);
    }
  }

  /** Nothing else changes who owns what. */
  lemma SameAccounted(d: Disk, d': Disk)
    requires Accounted(d) && Same(d, d') && d'.inUse == d.inUse && d'.refs == d.refs && |d'.files| == |d.files|
    requires forall f: nat | f < |d.files| :: d'.files[f].maps == d.files[f].maps
    ensures Accounted(d')
  {
    forall s: sector | 1 <= s <= d'.sectors && s < |d'.inUse| && d'.inUse[s] ensures HasOwner(d', s) {
      MoreOwners(d, d', s);
    }
  }

  // ---- The fresh image ----

  lemma {:induction false} FileOwner(d: Disk, n: nat, s: sector) returns (f: nat)
    requires n <= |d.files| && s in FileSectors(d.files[..n])
    ensures f < n && (s in d.files[f].data || s in d.files[f].maps)
  {
    assert d.files[..n][..n - 1] == d.files[..n - 1];
    if s in FileSectors(d.files[..n - 1]) {
      f := FileOwner(d, n - 1, s);
    } else {
      f := n - 1;
    }
  }

  lemma ImageAccounted(d: Disk, hosts: seq<HostFile>, volume: seq<byte>, rootData: seq<sector>, rootMaps: seq<sector>)
    requires AreHosts(hosts) && |volume| == 8 && IsImage(d, hosts, volume, rootData, rootMaps) && Owned(d)
    ensures Accounted(d)
  {
    OneRole(d, hosts, volume, rootData, rootMaps);
    UsedSectors(d, hosts, volume, rootData, rootMaps);
    forall s: sector | 1 <= s <= d.sectors && s < |d.inUse| && d.inUse[s] ensures HasOwner(d, s) {
      RoleIsOwner(d, rootData, rootMaps, s);
    }
  }

  lemma RoleIsOwner(d: Disk, rootData: seq<sector>, rootMaps: seq<sector>, s: sector)
    requires d.bitmapStart + d.bitmapSectors <= 0x1_0000 && Owned(d)
    requires d.rootData == rootData && d.rootMaps == rootMaps
    requires s in Range(1, 3) + Range(d.bitmapStart, d.bitmapSectors) + rootData + rootMaps + FileSectors(d.files)
    ensures HasOwner(d, s)
  {
    if s in FileSectors(d.files) {
      assert d.files[..|d.files|] == d.files;
      var f := FileOwner(d, |d.files|, s);
      FileHas(d, f, s);
    }
  }

  lemma FileHas(d: Disk, f: nat, s: sector)
    requires Owned(d) && f < |d.files| && (s in d.files[f].data || s in d.files[f].maps)
    ensures HasOwner(d, s)
  {
    assert FileOwns(d, f);
    assert s in d.files[f].maps ==> IsMapOf(d, s, f);
  }
}
