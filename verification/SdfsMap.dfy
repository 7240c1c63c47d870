/** SDFS sector maps: a file's data sectors, listed in a chain of map sectors. */
module SdfsMap {
  import opened ByteBits
  import opened Sets

  const SECTOR: nat := 256
  const ENTRIES: nat := 126

  type sector = s: nat | s < 0x1_0000

  // ---- Words in a sector ----

  function Get16(b: seq<byte>, o: nat): sector
    requires o + 2 <= |b|
  {
    var lo: int, hi: int := b[o], b[o + 1];
    lo + 256 * hi
  }

  function Put16(b: seq<byte>, o: nat, v: sector): (r: seq<byte>)
    requires o + 2 <= |b|
    ensures |r| == |b| && Get16(r, o) == v
    ensures forall k | 0 <= k < |b| && k != o && k != o + 1 :: r[k] == b[k]
  {
    var lo: byte := v % 256;
    var hi: byte := v / 256;
    b[..o] + [lo, hi] + b[o + 2..]
  }

  // ---- One map sector ----

  function LittleEndian(b: seq<byte>, o: nat): nat
    requires o + 2 <= |b|
  {
    b[o] as int + 256 * b[o + 1] as int
  }

  function NextMap(b: seq<byte>): sector
    requires |b| == SECTOR
  {
    Get16(b, 0)
  }

  function PrevMap(b: seq<byte>): sector
    requires |b| == SECTOR
  {
    Get16(b, 2)
  }

  function Entry(b: seq<byte>, j: nat): sector
    requires |b| == SECTOR && j < ENTRIES
  {
    Get16(b, 4 + 2 * j)
  }

  /** The entries from j on, up to the first 0. */
  function EntriesFrom(b: seq<byte>, j: nat): (es: seq<sector>)
    requires |b| == SECTOR && j <= ENTRIES
    ensures |es| <= ENTRIES - j
    decreases ENTRIES - j
  {
    if j == ENTRIES || Entry(b, j) == 0 then [] else [Entry(b, j)] + EntriesFrom(b, j + 1)
  }

  /** What buildMap writes: the links, the entries, and zeros. */
  ghost predicate IsMapSector(b: seq<byte>, next: sector, prev: sector, entries: seq<sector>) {
    && |b| == SECTOR && |entries| <= ENTRIES && NextMap(b) == next && PrevMap(b) == prev
    && (forall j: nat | j < ENTRIES :: Entry(b, j) == if j < |entries| then entries[j] else 0)
  }

  lemma {:induction false} EntriesOf(b: seq<byte>, next: sector, prev: sector, entries: seq<sector>, j: nat)
    requires IsMapSector(b, next, prev, entries) && 0 !in entries && j <= |entries|
    ensures EntriesFrom(b, j) == entries[j..]
    decreases |entries| - j
  {
    if j < |entries| {
      EntriesOf(b, next, prev, entries, j + 1);
      assert entries[j] in entries;
    } else {
      assert j < ENTRIES ==> Entry(b, j) == 0;
    }
  }

  // ---- The chain ----

  type View = sector -> seq<byte>

  /** Every sector on the disk reads as a whole one. */
  ghost predicate IsView(view: View, sectors: nat) {
    forall s: sector | 1 <= s <= sectors :: |view(s)| == SECTOR
  }

  ghost predicate NoDup(s: seq<sector>) {
    forall i: nat, j: nat | i < j < |s| :: s[i] != s[j]
  }

  predicate OnDisk(s: seq<sector>, sectors: nat) {
    forall i: nat | i < |s| :: 1 <= s[i] <= sectors
  }

  /** The entries of all the maps, in order. */
  function AllEntries(view: View, sectors: nat, maps: seq<sector>): seq<sector>
    requires IsView(view, sectors) && OnDisk(maps, sectors)
  {
    if maps == [] then []
    else AllEntries(view, sectors, maps[..|maps| - 1]) + EntriesFrom(view(maps[|maps| - 1]), 0)
  }

  /** maps are linked in a row from first, both ways, none twice. */
  ghost predicate Linked(view: View, sectors: nat, first: sector, maps: seq<sector>)
    requires IsView(view, sectors)
  {
    && OnDisk(maps, sectors) && NoDup(maps) && (maps != [] ==> maps[0] == first)
    && (forall i: nat | i + 1 < |maps| ::
          NextMap(view(maps[i])) == maps[i + 1] && PrevMap(view(maps[i + 1])) == maps[i])
  }

  /** Where the chain goes on. */
  function After(view: View, sectors: nat, first: sector, maps: seq<sector>): sector
    requires IsView(view, sectors) && OnDisk(maps, sectors)
  {
    if maps == [] then first else NextMap(view(maps[|maps| - 1]))
  }

  /** The whole chain, and the data sectors it lists. */
  ghost predicate IsChain(view: View, sectors: nat, first: sector, maps: seq<sector>, data: seq<sector>)
    requires IsView(view, sectors)
  {
    Linked(view, sectors, first, maps) && After(view, sectors, first, maps) == 0
    && data == AllEntries(view, sectors, maps)
  }

  /** What a map lists: its words from byte 4 on, up to the first 0 or its end. */
  lemma {:induction false} EntriesAre(b: seq<byte>, j: nat)
    requires |b| == SECTOR && j <= 126
    ensures var es := EntriesFrom(b, j);
      && j + |es| <= 126 && (forall k: nat | k < |es| :: es[k] as int == LittleEndian(b, 4 + 2 * (j + k)) != 0)
      && (j + |es| < 126 ==> LittleEndian(b, 4 + 2 * (j + |es|)) == 0)
    decreases 126 - j
  {
    if j < 126 && Entry(b, j) != 0 {
      EntriesAre(b, j + 1);
      assert EntriesFrom(b, j) == [Entry(b, j)] + EntriesFrom(b, j + 1);
    }
  }

  /** Byte by byte: distinct sectors of the disk, each with the next one's number in bytes
      0 and 1, or 0 in the last, and, but for the first, the one before's in bytes 2 and 3. */
  ghost predicate ChainBytes(view: View, sectors: nat, first: sector, maps: seq<sector>)
    requires IsView(view, sectors)
  {
    && (forall i: nat | i < |maps| :: 1 <= maps[i] <= sectors)
    && (forall i: nat, j: nat | i < j < |maps| :: maps[i] != maps[j])
    && (if maps == [] then first == 0 else maps[0] == first)
    && forall i: nat | i < |maps| :: LinkBytes(view(maps[i]), maps, i)
  }

  predicate LinkBytes(b: seq<byte>, maps: seq<sector>, i: nat)
    requires |b| == SECTOR && i < |maps|
  {
    && LittleEndian(b, 0) == (if i + 1 < |maps| then maps[i + 1] else 0)
    && (i > 0 ==> LittleEndian(b, 2) == maps[i - 1])
  }

  /** That is what a whole chain is, with all that its maps list. */
  lemma ChainIs(view: View, sectors: nat, first: sector, maps: seq<sector>, data: seq<sector>)
    requires IsView(view, sectors)
    ensures IsChain(view, sectors, first, maps, data)
            <==> ChainBytes(view, sectors, first, maps) && data == AllEntries(view, sectors, maps)
  {
    if IsChain(view, sectors, first, maps, data) {
      ChainHasBytes(view, sectors, first, maps, data);
    }
    if ChainBytes(view, sectors, first, maps) {
      BytesChain(view, sectors, first, maps);
    }
  }

  lemma ChainHasBytes(view: View, sectors: nat, first: sector, maps: seq<sector>, data: seq<sector>)
    requires IsView(view, sectors) && IsChain(view, sectors, first, maps, data)
    ensures ChainBytes(view, sectors, first, maps)
  {
    forall i: nat | i < |maps| ensures LinkBytes(view(maps[i]), maps, i) {
      assert i > 0 ==> PrevMap(view(maps[i - 1 + 1])) == maps[i - 1];
    }
  }

  lemma BytesChain(view: View, sectors: nat, first: sector, maps: seq<sector>)
    requires IsView(view, sectors) && ChainBytes(view, sectors, first, maps)
    ensures Linked(view, sectors, first, maps) && After(view, sectors, first, maps) == 0
  {
    forall i: nat | i + 1 < |maps|
      ensures NextMap(view(maps[i])) == maps[i + 1] && PrevMap(view(maps[i + 1])) == maps[i]
    {
      assert LinkBytes(view(maps[i]), maps, i) && LinkBytes(view(maps[i + 1]), maps, i + 1);
    }
    assert maps != [] ==> LinkBytes(view(maps[|maps| - 1]), maps, |maps| - 1);
  }

  /** All maps past the old ones have been written or generated. */
  ghost predicate MapsKnown(known: set<sector>, spared: nat, maps: seq<sector>) {
    forall i: nat | spared <= i < |maps| :: maps[i] in known
  }

  datatype Walk = Bad | Incomplete | Chain(maps: seq<sector>, data: seq<sector>)

  /** Follows any chain to its end, or to where it cannot be one; succeeds exactly
      on whole chains of known maps. */
  method ReadMapChain(view: View, sectors: nat, known: set<sector>, spared: nat, first: sector) returns (r: Walk)
    requires IsView(view, sectors)
    ensures r.Chain? ==> IsChain(view, sectors, first, r.maps, r.data) && MapsKnown(known, spared, r.maps)
    ensures forall m, d | IsChain(view, sectors, first, m, d) && MapsKnown(known, spared, m) :: r == Chain(m, d)
  {
    var maps: seq<sector>, data: seq<sector> := [], [];
    var current: sector, previous: sector := first, 0;
    while current != 0
      invariant Followed(view, sectors, first, maps, data, current) && MapsKnown(known, spared, maps)
      invariant previous == if maps == [] then 0 else maps[|maps| - 1]
      decreases sectors + 1 - |maps|
    {
      AtMost(maps, sectors);
      if current in maps {
        DeadEnd(view, sectors, first, maps);
        return Bad;
      }
      if |maps| > sectors {
        return Bad;
      }
      if |maps| >= spared && current !in known {
        UnknownEnd(view, sectors, first, maps, known, spared);
        return Incomplete;
      }
      if current > sectors {
        DeadEnd(view, sectors, first, maps);
        return Bad;
      }
      var bytes := view(current);
      if maps != [] && PrevMap(bytes) != previous {
        DeadEnd(view, sectors, first, maps);
        return Bad;
      }
      FollowOne(view, sectors, first, maps, data, current);
      maps := maps + [current];
      data := data + EntriesFrom(bytes, 0);
      previous := current;
      current := NextMap(bytes);
    }
    WholeChain(view, sectors, first, maps);
    r := Chain(maps, data);
  }

  ghost predicate Followed(view: View, sectors: nat, first: sector, maps: seq<sector>, data: seq<sector>,
                           current: sector)
    requires IsView(view, sectors)
  {
    Linked(view, sectors, first, maps) && data == AllEntries(view, sectors, maps)
    && current == After(view, sectors, first, maps)
  }

  lemma FollowOne(view: View, sectors: nat, first: sector, maps: seq<sector>, data: seq<sector>, c: sector)
    requires IsView(view, sectors) && Followed(view, sectors, first, maps, data, c)
    requires 1 <= c <= sectors && c !in maps && (maps != [] ==> PrevMap(view(c)) == maps[|maps| - 1])
    ensures Followed(view, sectors, first, maps + [c], data + EntriesFrom(view(c), 0), NextMap(view(c)))
  {
    var more := maps + [c];
    assert more[..|more| - 1] == maps;
    NoDupPlus(maps, c);
    LinkedPlus(view, sectors, first, maps, c);
  }

  lemma NoDupPlus(maps: seq<sector>, c: sector)
    requires NoDup(maps) && c !in maps
    ensures NoDup(maps + [c])
  {
  }

  lemma LinkedPlus(view: View, sectors: nat, first: sector, maps: seq<sector>, c: sector)
    requires IsView(view, sectors) && Linked(view, sectors, first, maps) && 1 <= c <= sectors && NoDup(maps + [c])
    requires c == After(view, sectors, first, maps) && (maps != [] ==> PrevMap(view(c)) == maps[|maps| - 1])
    ensures Linked(view, sectors, first, maps + [c])
  {
    var more := maps + [c];
    forall i: nat | i + 1 < |more|
      ensures NextMap(view(more[i])) == more[i + 1] && PrevMap(view(more[i + 1])) == more[i]
    {
      assert more[i] == maps[i] && more[i + 1] == if i + 1 < |maps| then maps[i + 1] else c;
    }
  }

  /** Each map of a row is where the maps before it lead. */
  lemma LeadsTo(view: View, sectors: nat, first: sector, maps: seq<sector>, n: nat)
    requires IsView(view, sectors) && Linked(view, sectors, first, maps) && n < |maps|
    ensures OnDisk(maps[..n], sectors) && After(view, sectors, first, maps[..n]) == maps[n] != 0
  {
    if n > 0 {
      assert NextMap(view(maps[n - 1])) == maps[n - 1 + 1];
      assert maps[..n][n - 1] == maps[n - 1];
    }
  }

  /** What has been followed is the beginning of the chain, if there is one. */
  lemma {:induction false} BeginsChain(view: View, sectors: nat, first: sector, maps: seq<sector>, n: nat,
                                       m: seq<sector>, d: seq<sector>)
    requires IsView(view, sectors) && Linked(view, sectors, first, maps) && IsChain(view, sectors, first, m, d)
    requires n <= |maps|
    ensures n <= |m| && m[..n] == maps[..n]
  {
    if n > 0 {
      BeginsChain(view, sectors, first, maps, n - 1, m, d);
      assert n - 1 == |m| ==> m == maps[..n - 1];
      LeadsTo(view, sectors, first, maps, n - 1);
      LeadsTo(view, sectors, first, m, n - 1);
    }
  }

  lemma ChainGoesOn(view: View, sectors: nat, first: sector, maps: seq<sector>, m: seq<sector>, d: seq<sector>)
    requires IsView(view, sectors) && Linked(view, sectors, first, maps) && IsChain(view, sectors, first, m, d)
    ensures maps <= m
    ensures After(view, sectors, first, maps) == if |maps| < |m| then m[|maps|] else 0
  {
    BeginsChain(view, sectors, first, maps, |maps|, m, d);
    assert maps == m[..|maps|];
    assert 0 < |maps| < |m| ==> NextMap(view(m[|maps| - 1])) == m[|maps| - 1 + 1];
  }

  lemma DeadEnd(view: View, sectors: nat, first: sector, maps: seq<sector>)
    requires IsView(view, sectors) && Linked(view, sectors, first, maps)
    requires var c := After(view, sectors, first, maps);
      c != 0 && (c in maps || c > sectors || (maps != [] && PrevMap(view(c)) != maps[|maps| - 1]))
    ensures forall m, d :: !IsChain(view, sectors, first, m, d)
  {
    forall m, d ensures !IsChain(view, sectors, first, m, d) {
      if IsChain(view, sectors, first, m, d) {
        NotDead(view, sectors, first, maps, m, d);
        assert false;
      }
    }
  }

  lemma NotDead(view: View, sectors: nat, first: sector, maps: seq<sector>, m: seq<sector>, d: seq<sector>)
    requires IsView(view, sectors) && Linked(view, sectors, first, maps) && IsChain(view, sectors, first, m, d)
    requires After(view, sectors, first, maps) != 0
    ensures var c := After(view, sectors, first, maps);
      c !in maps && 1 <= c <= sectors && (maps != [] ==> PrevMap(view(c)) == maps[|maps| - 1])
  {
    ChainGoesOn(view, sectors, first, maps, m, d);
    LinkedAt(view, sectors, first, m, |maps|);
    assert m[..|maps|] == maps;
  }

  lemma LinkedAt(view: View, sectors: nat, first: sector, m: seq<sector>, n: nat)
    requires IsView(view, sectors) && Linked(view, sectors, first, m) && n < |m|
    ensures 1 <= m[n] <= sectors && m[n] !in m[..n] && (n > 0 ==> PrevMap(view(m[n])) == m[n - 1])
  {
    assert n > 0 ==> PrevMap(view(m[n - 1 + 1])) == m[n - 1];
  }

  lemma UnknownEnd(view: View, sectors: nat, first: sector, maps: seq<sector>, known: set<sector>, spared: nat)
    requires IsView(view, sectors) && Linked(view, sectors, first, maps) && spared <= |maps|
    requires After(view, sectors, first, maps) != 0 && After(view, sectors, first, maps) !in known
    ensures forall m, d | IsChain(view, sectors, first, m, d) :: !MapsKnown(known, spared, m)
  {
    forall m, d | IsChain(view, sectors, first, m, d) ensures !MapsKnown(known, spared, m) {
      ChainGoesOn(view, sectors, first, maps, m, d);
      assert m[|maps|] !in known;
    }
  }

  lemma WholeChain(view: View, sectors: nat, first: sector, maps: seq<sector>)
    requires IsView(view, sectors) && Linked(view, sectors, first, maps)
    requires After(view, sectors, first, maps) == 0
    ensures forall m, d | IsChain(view, sectors, first, m, d) :: m == maps && d == AllEntries(view, sectors, maps)
  {
    forall m, d | IsChain(view, sectors, first, m, d) ensures m == maps {
      ChainGoesOn(view, sectors, first, maps, m, d);
    }
  }

  /** Distinct sectors of a disk are no more than it has. */
  lemma AtMost(s: seq<sector>, sectors: nat)
    requires NoDup(s) && OnDisk(s, sectors)
    ensures |s| <= sectors
  {
    var all := set x: sector | x in s;
    DistinctCount(s);
    UpTo(sectors);
    SubsetCount(all, Numbers(sectors));
  }

  function Numbers(n: nat): (s: set<nat>)
    ensures |s| == n && forall x: nat :: x in s <==> 1 <= x <= n
  {
    if n == 0 then {} else Numbers(n - 1) + {n}
  }

  lemma UpTo(n: nat)
    ensures |Numbers(n)| == n
  {
  }

  lemma {:induction false} DistinctCount(s: seq<sector>)
    requires NoDup(s)
    ensures |set x: sector | x in s| == |s|
  {
    if s != [] {
      var n := |s| - 1;
      DistinctCount(s[..n]);
      assert (set x: sector | x in s) == (set x: sector | x in s[..n]) + {s[n]};
    }
  }

  // ---- Building the chain ----

  function MapCount(n: nat): nat {
    (n + ENTRIES - 1) / ENTRIES
  }

  function UpToMap(n: nat, i: nat): (k: nat)
    ensures k <= n
  {
    if ENTRIES * i < n then ENTRIES * i else n
  }

  /** The data sectors that map i lists. */
  function Chunk(data: seq<sector>, i: nat): (c: seq<sector>)
    ensures |c| <= ENTRIES
  {
    data[UpToMap(|data|, i)..UpToMap(|data|, i + 1)]
  }

  function NextOf(maps: seq<sector>, i: nat): sector {
    if i + 1 < |maps| then maps[i + 1] else 0
  }

  function PrevOf(maps: seq<sector>, i: nat): sector {
    if 0 < i <= |maps| then maps[i - 1] else 0
  }

  type Metadata = map<sector, seq<byte>>

  ghost predicate HoldsMap(meta: Metadata, maps: seq<sector>, data: seq<sector>, i: nat)
    requires i < |maps|
  {
    maps[i] in meta && IsMapSector(meta[maps[i]], NextOf(maps, i), PrevOf(maps, i), Chunk(data, i))
  }

  /** Byte by byte: the next map's number, the one before, and 126 data sectors' numbers,
      with zeros behind the last. */
  ghost predicate MapBytes(b: seq<byte>, maps: seq<sector>, data: seq<sector>, i: nat) {
    && |b| == 256
    && LittleEndian(b, 0) == (if i + 1 < |maps| then maps[i + 1] else 0)
    && LittleEndian(b, 2) == (if 0 < i <= |maps| then maps[i - 1] else 0)
    && forall j: nat | j < 126 :: LittleEndian(b, 4 + 2 * j) == if 126 * i + j < |data| then data[126 * i + j] else 0
  }

  lemma HoldsBytes(meta: Metadata, maps: seq<sector>, data: seq<sector>, i: nat)
    requires i < |maps| && HoldsMap(meta, maps, data, i)
    ensures MapBytes(meta[maps[i]], maps, data, i)
  {
    var b := meta[maps[i]];
    forall j: nat | j < 126
      ensures LittleEndian(b, 4 + 2 * j) == if 126 * i + j < |data| then data[126 * i + j] else 0
    {
      assert Entry(b, j) == if j < |Chunk(data, i)| then Chunk(data, i)[j] else 0;
    }
  }

  method BuildMap(meta: Metadata, data: seq<sector>, maps: seq<sector>) returns (out: Metadata)
    requires |maps| == MapCount(|data|) && NoDup(maps)
    ensures forall i: nat | i < |maps| :: HoldsMap(out, maps, data, i) && MapBytes(out[maps[i]], maps, data, i)
    ensures forall s | s !in maps :: (s in out <==> s in meta) && (s in meta ==> out[s] == meta[s])
  {
    out := meta;
    var dataIndex := 0;
    for i := 0 to |maps|
      invariant dataIndex == UpToMap(|data|, i)
      invariant forall k: nat | k < i :: HoldsMap(out, maps, data, k)
      invariant forall s | s !in maps :: (s in out <==> s in meta) && (s in meta ==> out[s] == meta[s])
    {
      var sector := Put16(Zeros(), 0, NextOf(maps, i));
      sector := Put16(sector, 2, PrevOf(maps, i));
      var count := if ENTRIES < |data| - dataIndex then ENTRIES else |data| - dataIndex;
      assert dataIndex + count == UpToMap(|data|, i + 1);
      sector := PutEntries(sector, Chunk(data, i));
      dataIndex := dataIndex + count;
      ghost var was := out;
      out := out[maps[i] := sector];
      forall k: nat | k < i ensures HoldsMap(out, maps, data, k) {
        assert maps[k] != maps[i] && HoldsMap(was, maps, data, k);
      }
    }
    forall i: nat | i < |maps| ensures maps[i] in out && MapBytes(out[maps[i]], maps, data, i) {
      assert HoldsMap(out, maps, data, i);
      HoldsBytes(out, maps, data, i);
    }
  }

  function Zeros(): seq<byte> {
    seq(SECTOR, _ => 0)
  }

  /** The entries of one map, behind its links. */
  method PutEntries(links: seq<byte>, chunk: seq<sector>) returns (b: seq<byte>)
    requires |links| == SECTOR && |chunk| <= ENTRIES && forall k | 4 <= k < SECTOR :: links[k] == 0
    ensures IsMapSector(b, NextMap(links), PrevMap(links), chunk)
  {
    b := links;
    for j := 0 to |chunk|
      invariant |b| == SECTOR && NextMap(b) == NextMap(links) && PrevMap(b) == PrevMap(links)
      invariant forall k: nat | k < j :: Entry(b, k) == chunk[k]
      invariant forall k | 4 + 2 * j <= k < SECTOR :: b[k] == 0
    {
      ghost var was := b;
      b := Put16(b, 4 + 2 * j, chunk[j]);
      forall k: nat | k < j ensures Entry(b, k) == chunk[k] {
        assert Entry(was, k) == chunk[k];
      }
    }
    forall j: nat | j < ENTRIES ensures Entry(b, j) == if j < |chunk| then chunk[j] else 0 {
    }
  }

  function FirstOf(maps: seq<sector>): sector {
    if maps == [] then 0 else maps[0]
  }

  ghost predicate ShowsMap(view: View, maps: seq<sector>, data: seq<sector>, i: nat)
    requires i < |maps|
  {
    IsMapSector(view(maps[i]), NextOf(maps, i), PrevOf(maps, i), Chunk(data, i))
  }

  /** readMapChain inverts buildMap, for any number of data sectors. */
  lemma BuiltIsChain(view: View, sectors: nat, maps: seq<sector>, data: seq<sector>)
    requires IsView(view, sectors) && OnDisk(maps, sectors) && NoDup(maps) && 0 !in data
    requires |maps| == MapCount(|data|) && forall i: nat | i < |maps| :: ShowsMap(view, maps, data, i)
    ensures IsChain(view, sectors, FirstOf(maps), maps, data)
  {
    BuiltIsLinked(view, sectors, maps, data);
    BuiltEntries(view, sectors, maps, data, |maps|);
    assert maps[..|maps|] == maps && data[..|data|] == data;
    assert UpToMap(|data|, |maps|) == |data|;
    assert maps != [] ==> ShowsMap(view, maps, data, |maps| - 1);
  }

  lemma BuiltIsLinked(view: View, sectors: nat, maps: seq<sector>, data: seq<sector>)
    requires IsView(view, sectors) && OnDisk(maps, sectors) && NoDup(maps)
    requires forall i: nat | i < |maps| :: ShowsMap(view, maps, data, i)
    ensures Linked(view, sectors, FirstOf(maps), maps)
  {
    forall i: nat | i + 1 < |maps|
      ensures NextMap(view(maps[i])) == maps[i + 1] && PrevMap(view(maps[i + 1])) == maps[i]
    {
      assert ShowsMap(view, maps, data, i) && ShowsMap(view, maps, data, i + 1);
    }
  }

  lemma {:induction false} BuiltEntries(view: View, sectors: nat, maps: seq<sector>, data: seq<sector>, n: nat)
    requires IsView(view, sectors) && OnDisk(maps, sectors) && 0 !in data && n <= |maps|
    requires forall i: nat | i < |maps| :: ShowsMap(view, maps, data, i)
    ensures AllEntries(view, sectors, maps[..n]) == data[..UpToMap(|data|, n)]
  {
    if n > 0 {
      BuiltEntries(view, sectors, maps, data, n - 1);
      assert maps[..n][..n - 1] == maps[..n - 1];
      assert ShowsMap(view, maps, data, n - 1);
      EntriesOf(view(maps[n - 1]), NextOf(maps, n - 1), PrevOf(maps, n - 1), Chunk(data, n - 1), 0);
      ChunkMore(data, n - 1);
    }
  }

  lemma ChunkMore(data: seq<sector>, i: nat)
    ensures data[..UpToMap(|data|, i + 1)] == data[..UpToMap(|data|, i)] + Chunk(data, i)
    ensures 0 !in data ==> 0 !in Chunk(data, i)
  {
  }
}
