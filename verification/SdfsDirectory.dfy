/** The fixed parts of the image: boot sector, bitmap and root directory. */
module SdfsDirectory {
  import opened ByteBits
  import opened SdfsMap

  const RECORD: nat := 23

  /** A host file under its Atari name. */
  datatype HostFile = HostFile(hostName: string, name: seq<byte>, extension: seq<byte>, content: seq<byte>)

  predicate IsHost(h: HostFile) {
    |h.name| == 8 && |h.extension| == 3 && |h.content| <= 0xff_ffff
  }

  // ---- 24-bit lengths ----

  function Le24(v: nat): (b: seq<byte>)
    requires v <= 0xff_ffff
    ensures |b| == 3
  {
    [v % 256, v / 256 % 256, v / 65536]
  }

  function Get24(b: seq<byte>, o: nat): nat
    requires o + 3 <= |b|
  {
    var lo: int, mid: int, hi: int := b[o], b[o + 1], b[o + 2];
    lo + 256 * mid + 65536 * hi
  }

  lemma Length24(v: nat, b: seq<byte>, o: nat)
    requires v <= 0xff_ffff && o + 3 <= |b| && b[o..o + 3] == Le24(v)
    ensures Get24(b, o) == v
  {
    assert b[o] == b[o..o + 3][0] && b[o + 1] == b[o..o + 3][1] && b[o + 2] == b[o..o + 3][2];
    assert v / 65536 == v / 256 / 256;
  }

  // ---- The root directory ----

  function Le16(v: sector): (b: seq<byte>)
    ensures |b| == 2
  {
    var lo: byte := v % 256;
    var hi: byte := v / 256;
    [lo, hi]
  }

  function Record(status: byte, first: sector, length: nat, name: seq<byte>, extension: seq<byte>): (r: seq<byte>)
    requires length <= 0xff_ffff && |name| == 8 && |extension| == 3
    ensures |r| == RECORD
  {
    [status] + Le16(first) + Le24(length) + name + extension + [1, 1, 0, 0, 0, 0]
  }

  lemma RecordFields(r: seq<byte>, status: byte, first: sector, length: nat, name: seq<byte>, extension: seq<byte>)
    requires length <= 0xff_ffff && |name| == 8 && |extension| == 3
    requires r == Record(status, first, length, name, extension)
    ensures r[0] == status && Get16(r, 1) == first && Get24(r, 3) == length
    ensures r[6..14] == name && r[14..17] == extension && r[17..23] == [1, 1, 0, 0, 0, 0]
  {
    assert r[3..6] == Le24(length);
    Length24(length, r, 3);
    assert r[1] == Le16(first)[0] && r[2] == Le16(first)[1];
  }

  const ROOT: seq<byte> := [0x52, 0x4f, 0x4f, 0x54, 0x20, 0x20, 0x20, 0x20]

  /** The header, and an entry for each of the first n files. */
  function Directory(hosts: seq<HostFile>, firsts: seq<sector>, n: nat): (b: seq<byte>)
    requires n <= |hosts| == |firsts| && RECORD * (|hosts| + 1) <= 0xff_ffff
    requires forall i | 0 <= i < |hosts| :: IsHost(hosts[i])
    ensures |b| == RECORD * (n + 1)
  {
    if n == 0 then Record(0, 0, RECORD * (|hosts| + 1), ROOT, [0, 0, 0])
    else
      var h := hosts[n - 1];
      Directory(hosts, firsts, n - 1) + Record(8, firsts[n - 1], |h.content|, h.name, h.extension)
  }

  lemma Slices(a: seq<byte>, b: seq<byte>, from: nat, to: nat)
    requires from <= to <= |a|
    ensures (a + b)[from..to] == a[from..to] && (a + b)[|a|..|a| + |b|] == b
  {
  }

  lemma {:induction false} DirectoryRecord(hosts: seq<HostFile>, firsts: seq<sector>, n: nat, i: nat)
    requires i < n <= |hosts| == |firsts| && RECORD * (|hosts| + 1) <= 0xff_ffff
    requires forall k | 0 <= k < |hosts| :: IsHost(hosts[k])
    ensures Directory(hosts, firsts, n)[RECORD * (i + 1)..RECORD * (i + 2)]
            == Record(8, firsts[i], |hosts[i].content|, hosts[i].name, hosts[i].extension)
  {
    var h := hosts[n - 1];
    var before, r := Directory(hosts, firsts, n - 1), Record(8, firsts[n - 1], |h.content|, h.name, h.extension);
    if i < n - 1 {
      DirectoryRecord(hosts, firsts, n - 1, i);
      Slices(before, r, RECORD * (i + 1), RECORD * (i + 2));
    } else {
      Slices(before, r, 0, 0);
    }
  }

  lemma {:induction false} DirectoryLength(hosts: seq<HostFile>, firsts: seq<sector>, length: nat, n: nat)
    requires n <= |hosts| == |firsts| && length == RECORD * (|hosts| + 1) <= 0xff_ffff
    requires forall k | 0 <= k < |hosts| :: IsHost(hosts[k])
    ensures Get24(Directory(hosts, firsts, n), 3) == length
  {
    if n == 0 {
      RecordFields(Record(0, 0, length, ROOT, [0, 0, 0]), 0, 0, length, ROOT, [0, 0, 0]);
    } else {
      DirectoryLength(hosts, firsts, length, n - 1);
    }
  }

  /** What a reader finds in the directory's entry i. */
  ghost predicate IsEntry(b: seq<byte>, i: nat, first: sector, h: HostFile) {
    var o := RECORD * (i + 1);
    && o + RECORD <= |b| && b[o] == 8 && Get16(b, o + 1) == first && Get24(b, o + 3) == |h.content|
    && b[o + 6..o + 14] == h.name && b[o + 14..o + 17] == h.extension && b[o + 17..o + 23] == [1, 1, 0, 0, 0, 0]
  }

  /** And in its header. */
  ghost predicate IsHeader(b: seq<byte>) {
    && |b| >= 23 && b[0] == 0 && Get16(b, 1) == 0 && Get24(b, 3) == |b|
    && b[6..14] == [0x52, 0x4f, 0x4f, 0x54, 0x20, 0x20, 0x20, 0x20] && b[14..17] == [0, 0, 0]
    && b[17..23] == [1, 1, 0, 0, 0, 0]
  }

  lemma {:induction false} HeaderStays(hosts: seq<HostFile>, firsts: seq<sector>, n: nat)
    requires n <= |hosts| == |firsts| && RECORD * (|hosts| + 1) <= 0xff_ffff
    requires forall k | 0 <= k < |hosts| :: IsHost(hosts[k])
    ensures Directory(hosts, firsts, n)[0..23] == Record(0, 0, RECORD * (|hosts| + 1), ROOT, [0, 0, 0])
  {
    if n > 0 {
      HeaderStays(hosts, firsts, n - 1);
      assert Directory(hosts, firsts, n)[..RECORD * n] == Directory(hosts, firsts, n - 1);
      assert Directory(hosts, firsts, n)[..RECORD * n][0..23] == Directory(hosts, firsts, n)[0..23];
    }
  }

  lemma HeaderFrom(b: seq<byte>, r: seq<byte>)
    requires 23 <= |b| <= 0xff_ffff && r == b[0..23] == Record(0, 0, |b|, ROOT, [0, 0, 0])
    ensures IsHeader(b)
  {
    RecordFields(r, 0, 0, |b|, ROOT, [0, 0, 0]);
    RecordInPlace(b, 0);
  }

  lemma EntryFields(hosts: seq<HostFile>, firsts: seq<sector>, b: seq<byte>, i: nat)
    requires i < |hosts| == |firsts| && RECORD * (|hosts| + 1) <= 0xff_ffff
    requires forall k | 0 <= k < |hosts| :: IsHost(hosts[k])
    requires b == Directory(hosts, firsts, |hosts|)
    ensures IsEntry(b, i, firsts[i], hosts[i])
  {
    DirectoryRecord(hosts, firsts, |hosts|, i);
    var o, h := RECORD * (i + 1), hosts[i];
    var r := b[o..o + RECORD];
    RecordFields(r, 8, firsts[i], |h.content|, h.name, h.extension);
    RecordInPlace(b, o);
  }

  lemma RecordInPlace(b: seq<byte>, o: nat)
    requires o + RECORD <= |b|
    ensures b[o] == b[o..o + RECORD][0] && Get16(b, o + 1) == Get16(b[o..o + RECORD], 1)
    ensures Get24(b, o + 3) == Get24(b[o..o + RECORD], 3)
    ensures b[o + 6..o + 14] == b[o..o + RECORD][6..14] && b[o + 14..o + 17] == b[o..o + RECORD][14..17]
    ensures b[o + 17..o + 23] == b[o..o + RECORD][17..23]
  {
    var r := b[o..o + RECORD];
    assert forall k | 0 <= k < RECORD :: r[k] == b[o + k];
    forall k | 0 <= k < 8 ensures b[o + 6..o + 14][k] == r[6..14][k] {
      assert r[6..14][k] == r[6 + k];
    }
    forall k | 0 <= k < 3 ensures b[o + 14..o + 17][k] == r[14..17][k] {
      assert r[14..17][k] == r[14 + k];
    }
    forall k | 0 <= k < 6 ensures b[o + 17..o + 23][k] == r[17..23][k] {
      assert r[17..23][k] == r[17 + k];
    }
  }

  /** The whole directory: its length, and every entry's fields at their place. */
  method BuildDirectory(hosts: seq<HostFile>, firsts: seq<sector>) returns (b: seq<byte>)
    requires |hosts| == |firsts| && RECORD * (|hosts| + 1) <= 0xff_ffff
    requires forall i | 0 <= i < |hosts| :: IsHost(hosts[i])
    ensures b == Directory(hosts, firsts, |hosts|)
    ensures |b| == RECORD * (|hosts| + 1) && IsHeader(b)
    ensures forall i: nat | i < |hosts| :: IsEntry(b, i, firsts[i], hosts[i])
  {
    b := Record(0, 0, RECORD * (|hosts| + 1), ROOT, [0, 0, 0]);
    for i := 0 to |hosts|
      invariant b == Directory(hosts, firsts, i)
    {
      b := b + Record(8, firsts[i], |hosts[i].content|, hosts[i].name, hosts[i].extension);
    }
    HeaderStays(hosts, firsts, |hosts|);
    HeaderFrom(b, b[0..23]);
    forall i: nat | i < |hosts| ensures IsEntry(b, i, firsts[i], hosts[i]) {
      EntryFields(hosts, firsts, b, i);
    }
  }

  // ---- The boot sector ----

  /** All its fields: a jump, the root directory, sizes, the search starts of data and
      directories, the name, the sector size's code 0, version, entries a map, and zeros
      elsewhere. */
  ghost predicate IsBoot(b: seq<byte>, rootMap: sector, sectors: nat, free: nat, bitmapSectors: nat,
                         bitmapStart: sector, search: nat, volume: seq<byte>)
    requires |volume| == 8
  {
    && |b| == 128 && b[6] == 0x4c && b[7] == 0x80 && b[8] == 0x30
    && Get16(b, 9) == rootMap && Get16(b, 11) == sectors && Get16(b, 13) == free
    && b[15] == bitmapSectors && Get16(b, 16) == bitmapStart && Get16(b, 18) == Get16(b, 20) == search
    && b[22..30] == volume && b[30] == 1 && b[31] == 0 && b[32] == 0x21 && Get16(b, 35) == 126 && b[37] == 1
    && b[39] == 0x5a && ZerosElsewhere(b)
  }

  ghost predicate ZerosElsewhere(b: seq<byte>) {
    |b| == 128 && forall k | 0 <= k < 128 :: k < 6 || 33 <= k < 35 || k == 38 || k > 39 ==> b[k] == 0
  }

  function PutBytes(b: seq<byte>, o: nat, v: seq<byte>): (r: seq<byte>)
    requires o + |v| <= |b|
    ensures |r| == |b| && r[o..o + |v|] == v
    ensures forall k | 0 <= k < |b| && !(o <= k < o + |v|) :: r[k] == b[k]
  {
    b[..o] + v + b[o + |v|..]
  }

  /** Up to the search starts. */
  function BootStart(rootMap: sector, sectors: sector, free: sector, bitmapSectors: byte, bitmapStart: sector,
                     search: sector): (b: seq<byte>)
    ensures |b| == 128 && b[6] == 0x4c && b[7] == 0x80 && b[8] == 0x30
    ensures Get16(b, 9) == rootMap && Get16(b, 11) == sectors && Get16(b, 13) == free
    ensures b[15] == bitmapSectors && Get16(b, 16) == bitmapStart && Get16(b, 18) == Get16(b, 20) == search
    ensures forall k | 0 <= k < 128 :: k < 6 || k > 21 ==> b[k] == 0
  {
    var b := PutBytes(seq(128, _ => 0), 6, [0x4c, 0x80, 0x30]);
    var b := Put16(Put16(Put16(b, 9, rootMap), 11, sectors), 13, free);
    Put16(Put16(Put16(b[15 := bitmapSectors], 16, bitmapStart), 18, search), 20, search)
  }

  function BootEnd(b: seq<byte>): (r: seq<byte>)
    requires |b| == 128
    ensures |r| == 128 && r[30] == 1 && r[31] == 0 && r[32] == 0x21 && Get16(r, 35) == 126 && r[37] == 1
    ensures r[39] == 0x5a && forall k | 0 <= k < 128 && k !in {30, 31, 32, 35, 36, 37, 39} :: r[k] == b[k]
  {
    Put16(b[30 := 1][31 := 0][32 := 0x21][37 := 1][39 := 0x5a], 35, ENTRIES)
  }

  function Boot(rootMap: sector, sectors: sector, free: sector, bitmapSectors: byte, bitmapStart: sector,
                search: sector, volume: seq<byte>): (b: seq<byte>)
    requires |volume| == 8
    ensures IsBoot(b, rootMap, sectors, free, bitmapSectors, bitmapStart, search, volume)
  {
    BootEnd(PutBytes(BootStart(rootMap, sectors, free, bitmapSectors, bitmapStart, search), 22, volume))
  }

  // ---- The bitmap ----

  /** A byte without bit i: b & ~(0x80 >> i). */
  function ClearBit(b: byte, i: nat): (r: byte)
    requires i < 8
    ensures forall j: nat | j < 8 :: Bit(r, j) <==> j != i && Bit(b, j)
  {
    Byte256();
    var d := Digits(b, 8)[i := 0];
    DigitsOfValue(d);
    Value(d)
  }

  /** A bit for every sector: set if it is free; sector 0 never is. */
  ghost predicate IsBitmap(bits: seq<byte>, inUse: seq<bool>) {
    |inUse| <= 8 * |bits| && forall s: nat | s < |inUse| :: FreeBit(bits, s) <==> s != 0 && !inUse[s]
  }

  predicate FreeBit(bits: seq<byte>, s: nat)
    requires s < 8 * |bits|
  {
    Bit(bits[s / 8], s % 8)
  }

  /** The bits below s are done, the others still set. */
  ghost predicate BitsTo(bits: seq<byte>, inUse: seq<bool>, s: nat)
    requires |inUse| <= 8 * |bits|
  {
    forall k: nat | k < |inUse| :: BitTo(bits, inUse, s, k)
  }

  predicate BitTo(bits: seq<byte>, inUse: seq<bool>, s: nat, k: nat)
    requires k < |inUse| <= 8 * |bits|
  {
    FreeBit(bits, k) <==> (k < s ==> k != 0 && !inUse[k])
  }

  method BuildBitmap(bitmapSectors: nat, inUse: seq<bool>) returns (bits: seq<byte>)
    requires |inUse| <= 8 * (SECTOR * bitmapSectors)
    ensures |bits| == SECTOR * bitmapSectors && IsBitmap(bits, inUse)
  {
    bits := seq(SECTOR * bitmapSectors, _ => 0xff);
    AllSet(bits, inUse);
    for s := 0 to |inUse|
      invariant |bits| == SECTOR * bitmapSectors && BitsTo(bits, inUse, s)
    {
      if s == 0 || inUse[s] {
        var cleared := ClearBit(bits[s / 8], s % 8);
        ClearStep(bits, inUse, s);
        bits := bits[s / 8 := cleared];
      } else {
        NextStep(bits, inUse, s);
      }
    }
    forall s: nat | s < |inUse| ensures FreeBit(bits, s) <==> s != 0 && !inUse[s] {
      assert BitTo(bits, inUse, |inUse|, s);
    }
  }

  lemma AllSet(bits: seq<byte>, inUse: seq<bool>)
    requires |inUse| <= 8 * |bits| && forall i | 0 <= i < |bits| :: bits[i] == 0xff
    ensures BitsTo(bits, inUse, 0)
  {
    forall k: nat | k < |inUse| ensures BitTo(bits, inUse, 0, k) {
      AllOnes(k % 8);
    }
  }

  lemma ClearStep(bits: seq<byte>, inUse: seq<bool>, s: nat)
    requires s < |inUse| <= 8 * |bits| && BitsTo(bits, inUse, s) && (s == 0 || inUse[s])
    ensures BitsTo(bits[s / 8 := ClearBit(bits[s / 8], s % 8)], inUse, s + 1)
  {
    var next, n := bits[s / 8 := ClearBit(bits[s / 8], s % 8)], s + 1;
    forall k: nat | k < |inUse| ensures BitTo(next, inUse, n, k) {
      assert BitTo(bits, inUse, s, k);
      ClearedBit(bits, s, k);
    }
  }

  lemma NextStep(bits: seq<byte>, inUse: seq<bool>, s: nat)
    requires 0 < s < |inUse| <= 8 * |bits| && BitsTo(bits, inUse, s) && !inUse[s]
    ensures BitsTo(bits, inUse, s + 1)
  {
    var n := s + 1;
    forall k: nat | k < |inUse| ensures BitTo(bits, inUse, n, k) {
      assert BitTo(bits, inUse, s, k);
    }
  }

  lemma ClearedBit(was: seq<byte>, s: nat, k: nat)
    requires s < 8 * |was| && k < 8 * |was|
    ensures FreeBit(was[s / 8 := ClearBit(was[s / 8], s % 8)], k) <==> k != s && FreeBit(was, k)
  {
    assert k == s <==> k / 8 == s / 8 && k % 8 == s % 8;
  }
}
