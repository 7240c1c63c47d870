/** Laying out the image: sectors are handed out in a row, so the lists of what was
    handed out, one after the other, are the numbers of the used sectors. */
module SdfsAlloc {
  import opened SdfsMap
  import opened SdfsDisk
  import opened SdfsCreate

  function Range(a: nat, n: nat): (r: seq<sector>)
    requires a + n <= 0x1_0000
    ensures |r| == n && forall i: nat | i < n :: r[i] == a + i
  {
    seq(n, i requires 0 <= i < n => a + i)
  }

  lemma RangeFacts(a: nat, n: nat, sectors: nat)
    requires 1 <= a && a + n <= sectors + 1 <= 0x1_0000
    ensures NoDup(Range(a, n)) && OnDisk(Range(a, n), sectors) && 0 !in Range(a, n)
    ensures forall s: sector :: s in Range(a, n) <==> a <= s < a + n
  {
    forall s: sector | a <= s < a + n ensures s in Range(a, n) {
      assert Range(a, n)[s - a] == s;
    }
  }

  lemma RangeSplit(a: nat, m: nat, n: nat)
    requires a + m + n <= 0x1_0000
    ensures Range(a, m + n) == Range(a, m) + Range(a + m, n)
  {
  }

  class Allocator {
    const sectors: nat
    var inUse: seq<bool>
    var useCount: int
    var searchStart: nat
    var refs: map<sector, Ref>
    var meta: Metadata

    /** Used are exactly the sectors before searchStart. */
    ghost predicate Filled()
      reads this
    {
      && sectors < 0x1_0000 && |inUse| == sectors + 1 && 1 <= searchStart <= sectors + 1
      && useCount == searchStart - 1
      && forall s: nat | s < |inUse| :: inUse[s] <==> 1 <= s < searchStart
    }

    /** Boot sectors and bitmap are in use from the start. */
    constructor (sectors: nat, bitmapEnd: nat)
      requires sectors < 0x1_0000 && 4 <= bitmapEnd <= sectors
      ensures Filled() && searchStart == bitmapEnd && this.sectors == sectors && refs == map[] && meta == map[]
    {
      this.sectors := sectors;
      inUse, useCount, refs, meta := seq(sectors + 1, _ => false), 0, map[], map[];
      searchStart := bitmapEnd;
      new;
      for s := 1 to bitmapEnd
        invariant |inUse| == sectors + 1 && useCount == s - 1 && searchStart == bitmapEnd
        invariant forall k: nat | k < |inUse| :: inUse[k] <==> 1 <= k < s
        invariant refs == map[] && meta == map[]
      {
        inUse := inUse[s := true];
        useCount := useCount + 1;
      }
    }

    /** The first free sector from searchStart on, or 0. */
    method AllocateSector() returns (s: sector)
      requires sectors < 0x1_0000 && |inUse| == sectors + 1 && 1 <= searchStart <= sectors + 1
      modifies `inUse, `useCount, `searchStart
      ensures s == 0 ==> inUse == old(inUse) && useCount == old(useCount) && searchStart == sectors + 1
      ensures s == 0 ==> forall k | old(searchStart) <= k <= sectors :: inUse[k]
      ensures s != 0 ==> old(searchStart) <= s <= sectors && !old(inUse)[s] && inUse == old(inUse)[s := true]
      ensures s != 0 ==> useCount == old(useCount) + 1 && searchStart == s + 1
      ensures s != 0 ==> forall k | old(searchStart) <= k < s :: old(inUse)[k]
    {
      while searchStart <= sectors && inUse[searchStart]
        invariant inUse == old(inUse) && useCount == old(useCount) && old(searchStart) <= searchStart <= sectors + 1
        invariant forall k | old(searchStart) <= k < searchStart :: inUse[k]
        decreases sectors + 1 - searchStart
      {
        searchStart := searchStart + 1;
      }
      if searchStart > sectors {
        return 0;
      }
      s := searchStart;
      searchStart := searchStart + 1;
      inUse := inUse[s := true];
      useCount := useCount + 1;
    }

    method AllocateSectors(count: nat) returns (ok: bool, result: seq<sector>)
      requires Filled()
      modifies `inUse, `useCount, `searchStart
      ensures Filled() && (ok <==> old(searchStart) + count <= sectors + 1)
      ensures ok ==> searchStart == old(searchStart) + count && result == Range(old(searchStart), count)
    {
      result := [];
      if count > sectors {
        return false, result;
      }
      for i := 0 to count
        invariant Filled() && searchStart == old(searchStart) + i && result == Range(old(searchStart), i)
      {
        ghost var was, at := inUse, searchStart;
        assert at <= sectors ==> !was[at];
        var s := AllocateSector();
        assert s != 0 ==> s == at;
        if s == 0 {
          return false, result;
        }
        result := result + [s];
      }
      ok := true;
    }

    /** A chain of maps for these data sectors. */
    method AllocateMap(data: seq<sector>) returns (ok: bool, maps: seq<sector>)
      requires Filled()
      modifies `inUse, `useCount, `searchStart, `meta
      ensures Filled() && (ok <==> old(searchStart) + MapCount(|data|) <= sectors + 1)
      ensures ok ==>
        && searchStart == old(searchStart) + MapCount(|data|) && maps == Range(old(searchStart), MapCount(|data|))
        && (forall i: nat | i < |maps| :: HoldsMap(meta, maps, data, i))
        && (forall s | s !in maps :: (s in meta <==> s in old(meta)) && (s in meta ==> meta[s] == old(meta)[s]))
    {
      ok, maps := AllocateSectors(MapCount(|data|));
      if ok {
        RangeFacts(old(searchStart), MapCount(|data|), sectors);
        meta := BuildMap(meta, data, maps);
      }
    }

    /** The data sectors and maps of file index. */
    method AllocateFile(index: nat, length: nat) returns (ok: bool, data: seq<sector>, maps: seq<sector>)
      requires Filled()
      modifies this
      ensures Filled()
      ensures ok <==> old(searchStart) + FileSize(length) <= sectors + 1
      ensures ok ==>
        && searchStart == old(searchStart) + FileSize(length)
        && data == Range(old(searchStart), Needed(length))
        && maps == Range(old(searchStart) + Needed(length), MapCount(Needed(length)))
        && (forall i: nat | i < |maps| :: HoldsMap(meta, maps, data, i))
        && (forall s | s !in maps :: (s in meta <==> s in old(meta)) && (s in meta ==> meta[s] == old(meta)[s]))
        && (forall i: nat | i < |data| :: data[i] in refs && refs[data[i]] == Ref(index, i))
        && (forall s | s !in data :: (s in refs <==> s in old(refs)) && (s in refs ==> refs[s] == old(refs)[s]))
    {
      maps := [];
      ok, data := AllocateSectors(Needed(length));
      if !ok {
        return;
      }
      ok, maps := AllocateMap(data);
      if ok {
        RangeFacts(old(searchStart), Needed(length), sectors);
        SetRefs(index, data);
      }
    }

    method SetRefs(index: nat, data: seq<sector>)
      requires NoDup(data)
      modifies `refs
      ensures forall i: nat | i < |data| :: data[i] in refs && refs[data[i]] == Ref(index, i)
      ensures forall s | s !in data :: (s in refs <==> s in old(refs)) && (s in refs ==> refs[s] == old(refs)[s])
    {
      for i := 0 to |data|
        invariant forall k: nat | k < i :: data[k] in refs && refs[data[k]] == Ref(index, k)
        invariant forall s | s !in data :: (s in refs <==> s in old(refs)) && (s in refs ==> refs[s] == old(refs)[s])
      {
        refs := refs[data[i] := Ref(index, i)];
      }
    }
  }

  /** Sectors a file takes: its data, and their maps. */
  function FileSize(length: nat): nat {
    Needed(length) + MapCount(Needed(length))
  }
}
