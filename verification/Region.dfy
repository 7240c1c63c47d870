/** The stamped region in the raw ring, and the two tripwire descriptors around
    it: E, where the region ends, and the guard G, a whole spare descriptor
    before it begins. */
module Region {
  import opened Wire
  import opened ByteBits
  import opened WireCodec
  import RegionAny

  const DESC_COUNT: nat := 13
  const DESC_BYTES: nat := 36
  const REGION_RAW_MAX: nat := 354

  datatype RawRegion = RawRegion(start: nat, length: nat, endDesc: nat, guardDesc: nat)

  function WireFirst(marker: nat, lane: nat): nat {
    (marker + OFF_H - VSYNC_BYTES - 1 + lane) / 2 * 2
  }

  function WireLast(marker: nat, lane: nat): nat {
    (marker + OFF_END - VSYNC_BYTES + 1 + lane) / 2 * 2 + 1
  }

  function RegionSet(marker: nat, lane: nat): RawRegion {
    var first, last := WireFirst(marker, lane), WireLast(marker, lane);
    var start, length := first % N, last - first + 1;
    RawRegion(start, length, (start + length - 1) % N / DESC_BYTES,
              (start / DESC_BYTES + DESC_COUNT - 2) % DESC_COUNT)
  }

  /** A raw byte is in the region if it is one of its length bytes, cyclically. */
  predicate InRegion(rg: RawRegion, k: nat) {
    (k + N - rg.start) % N < rg.length
  }

  lemma WireEnds(marker: nat, lane: nat)
    ensures WireFirst(marker, lane) % 2 == 0 && WireLast(marker, lane) % 2 == 1
    ensures marker + 10 + lane <= WireFirst(marker, lane) <= marker + 11 + lane
    ensures marker + 361 + lane <= WireLast(marker, lane) <= marker + 362 + lane
  {
  }

  /** Whole samples, and no more than the static bound. */
  lemma RegionShape(marker: nat, lane: nat)
    requires marker < N && lane < 2
    ensures var rg := RegionSet(marker, lane);
      rg.start < N && rg.start % 2 == 0 && rg.length % 2 == 0 && 348 < rg.length <= REGION_RAW_MAX
      && rg.endDesc < DESC_COUNT && rg.guardDesc < DESC_COUNT
  {
    WireEnds(marker, lane);
    EvenMod(WireFirst(marker, lane));
    DescBelow(RegionSet(marker, lane).start + RegionSet(marker, lane).length - 1);
  }

  lemma EvenMod(x: nat)
    requires x % 2 == 0
    ensures x % N % 2 == 0
  {
  }

  lemma DescBelow(x: nat)
    ensures x % N / DESC_BYTES < DESC_COUNT
  {
  }

  /** Every raw byte that a decode between H and the end reads is copied. */
  lemma RegionCovers(marker: nat, lane: nat, o: nat)
    requires marker < N && lane < 2 && OFF_H <= o < OFF_END
    ensures var rg, j := RegionSet(marker, lane), AlignedOf(marker, o);
      InRegion(rg, RawHigh(lane, j)) && InRegion(rg, RawLow(lane, j))
  {
    var g := RegionAny.Geometry(N, VSYNC_BYTES, OFF_H, OFF_END, DESC_COUNT, DESC_BYTES);
    RegionAny.Covers(g, marker, lane, o, 0);
    RegionAny.Covers(g, marker, lane, o, 1);
    assert RegionAny.First(g, marker, lane) == WireFirst(marker, lane);
    assert RegionAny.Last(g, marker, lane) == WireLast(marker, lane);
    assert AlignedOf(marker, o) % N == AlignedOf(marker, o);
  }

  /** So decoding the copy is decoding the ring. */
  lemma CopyDecodes(ring: seq<byte>, copy: seq<byte>, phase: nat, lane: nat, marker: nat, o: nat)
    requires |ring| == |copy| == N && phase < 8 && marker < N && lane < 2 && OFF_H <= o < OFF_END
    requires forall k: nat | k < N && InRegion(RegionSet(marker, lane), k) :: copy[k] == ring[k]
    ensures DecodeAt(copy, phase, lane, AlignedOf(marker, o)) == DecodeAt(ring, phase, lane, AlignedOf(marker, o))
  {
    RegionCovers(marker, lane, o);
  }

  // ---- The descriptors, for any geometry that meets the static assertion ----

  lemma {:induction false} DivMul(x: nat, d: nat, c: nat)
    requires d > 0 && c > 0
    ensures d * c > 0 && x % (d * c) / d == x / d % c
  {
    var n := d * c;
    assert n > 0;
    if x < n {
      DivBelow(x, d, c);
    } else {
      DivMul(x - n, d, c);
      ModStep(x, n);
      DivStep(x, d, c);
      ModStep(x / d, c);
    }
  }

  lemma ModStep(x: nat, n: nat)
    requires n > 0 && x >= n
    ensures (x - n) % n == x % n
  {
    var q, r := (x - n) / n, (x - n) % n;
    assert x == (q + 1) * n + r;
    Unique(x, n, q + 1, r);
  }

  lemma Unique(x: nat, n: nat, q: nat, r: nat)
    requires n > 0 && r < n && x == q * n + r
    ensures x / n == q && x % n == r
  {
    Quotient(q, n, r);
  }

  lemma DivStep(x: nat, d: nat, c: nat)
    requires d > 0 && c > 0 && x >= d * c
    ensures x / d >= c && (x - d * c) / d == x / d - c
  {
    var q, r := (x - d * c) / d, (x - d * c) % d;
    assert x == (q + c) * d + r;
    Unique(x, d, q + c, r);
  }

  lemma DivBelow(x: nat, d: nat, c: nat)
    requires d > 0 && c > 0 && x < d * c
    ensures x % (d * c) == x && x / d < c && x / d % c == x / d
  {
    Unique(x, d * c, 0, x);
    DivLess(x, d, c);
    Unique(x / d, c, 0, x / d);
  }

  lemma DivLess(x: nat, d: nat, q: nat)
    requires d > 0 && x < q * d
    ensures x / d < q
  {
    var t := x / d;
    assert x == t * d + x % d;
    assert t >= q ==> t * d >= q * d;
  }

  /** With two whole descriptors and a byte more outside the region, no byte of
      the region, wherever it falls in the ring, is in the guard descriptor or
      in the spare one behind it. The region's last byte is the end descriptor's,
      so the end and the guard differ. */
  lemma GuardOutside(count: nat, bytes: nat, start: nat, length: nat, i: nat)
    requires count >= 3 && bytes > 0 && start < count * bytes && i < length
    requires count * bytes - length >= 3 * bytes - 1
    ensures var d := (start + i) % (bytes * count) / bytes;
      d != (start / bytes + count - 2) % count && d != (start / bytes + count - 1) % count
  {
    DivMul(start + i, bytes, count);
    RegionDescs(count, bytes, start, length, i);
    NotSame(start / bytes, (start + i) / bytes, count);
  }

  lemma RegionDescs(count: nat, bytes: nat, start: nat, length: nat, i: nat)
    requires count >= 3 && bytes > 0 && i < length && count * bytes - length >= 3 * bytes - 1
    ensures start / bytes <= (start + i) / bytes < start / bytes + count - 2
  {
    LastByte(start, length, count, bytes, i);
    DivMono(start, start + i, bytes);
    DivLess(start + i, bytes, start / bytes + count - 2);
  }

  lemma LastByte(start: nat, length: nat, count: nat, bytes: nat, i: nat)
    requires count >= 3 && bytes > 0 && i < length && count * bytes - length >= 3 * bytes - 1
    ensures start + i < (start / bytes + count - 2) * bytes
  {
    var f := start / bytes;
    assert start == f * bytes + start % bytes;
    assert (f + count - 2) * bytes == f * bytes + count * bytes - 2 * bytes;
  }

  lemma DivMono(x: nat, y: nat, d: nat)
    requires d > 0 && x <= y
    ensures x / d <= y / d
  {
    assert y == y / d * d + y % d;
    assert (y / d + 1) * d == y / d * d + d;
    DivLess(x, d, y / d + 1);
  }

  lemma NotSame(f: nat, a: nat, count: nat)
    requires count >= 3 && f <= a < f + count - 2
    ensures a % count != (f + count - 2) % count && a % count != (f + count - 1) % count
  {
    SmallApart(a, f + count - 2, count);
    SmallApart(a, f + count - 1, count);
  }

  lemma SmallApart(a: nat, b: nat, count: nat)
    requires count > 0 && a < b < a + count
    ensures a % count != b % count
  {
    var qa, qb := a / count, b / count;
    Between(qb - qa, count);
    assert a == qa * count + a % count && b == qb * count + b % count;
    assert (qb - qa) * count == qb * count - qa * count;
  }

  lemma Between(z: int, count: nat)
    requires count > 0
    ensures !(0 < z * count < count)
  {
    assert z >= 1 ==> z * count >= count;
    assert z <= 0 ==> z * count <= 0;
  }

  /** The static assertions, and the tripwires of every lock. */
  lemma TripwiresOutside(marker: nat, lane: nat, k: nat)
    requires marker < N && lane < 2 && k < N && InRegion(RegionSet(marker, lane), k)
    ensures N - REGION_RAW_MAX >= 3 * DESC_BYTES - 1
    ensures var rg := RegionSet(marker, lane);
      && k / DESC_BYTES != rg.guardDesc && k / DESC_BYTES != (rg.guardDesc + 1) % DESC_COUNT
      && rg.endDesc != rg.guardDesc
  {
    var rg := RegionSet(marker, lane);
    RegionShape(marker, lane);
    var i := (k + N - rg.start) % N;
    BackIndex(k, rg.start);
    GuardOutside(DESC_COUNT, DESC_BYTES, rg.start, rg.length, i);
    GuardOutside(DESC_COUNT, DESC_BYTES, rg.start, rg.length, rg.length - 1);
    NextDesc(rg.start / DESC_BYTES);
  }

  lemma BackIndex(k: nat, start: nat)
    requires k < N && start < N
    ensures (start + (k + N - start) % N) % N == k
  {
  }

  lemma NextDesc(f: nat)
    ensures ((f + DESC_COUNT - 2) % DESC_COUNT + 1) % DESC_COUNT == (f + DESC_COUNT - 1) % DESC_COUNT
  {
  }
}
