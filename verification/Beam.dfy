/** Racing the beam: how far the write-backs are, seen from the stamped region. The
    window is open from the write-back of the end descriptor E to that of the guard
    G. As a write-back is no more than a descriptor late, the spare descriptor
    between G and the region keeps the beam out of the region until G is seen. */
module Beam {
  import opened Arith
  import opened ByteBits
  import opened Wire
  import opened Region
  import opened LinkRx

  /** Descriptors written back since E was, E not counted. */
  function Since(rg: RawRegion, written: nat): (n: nat)
    requires rg.endDesc < DESC_COUNT
    ensures n < DESC_COUNT
  {
    (written + DESC_COUNT - (rg.endDesc + 1)) % DESC_COUNT
  }

  function WindowDescs(rg: RawRegion): nat
    requires rg.endDesc < DESC_COUNT
  {
    (rg.guardDesc + DESC_COUNT - rg.endDesc) % DESC_COUNT
  }

  predicate InWindow(rg: RawRegion, written: nat)
    requires rg.endDesc < DESC_COUNT
  {
    Since(rg, written) < WindowDescs(rg)
  }

  /** Where the last whole region before a stream place starts. */
  function RegionBase(rg: RawRegion, place: nat): int {
    place - rg.length - (place - rg.length - rg.start) % N
  }

  /** The next write-back of E is that of a whole region: the stream began before
      one did, or E's first write-back is past. */
  predicate Ahead(rg: RawRegion, written: nat) {
    rg.start + rg.length <= N || rg.endDesc < written
  }

  /** The window is open, and a whole region came in before it. */
  predicate Open(rg: RawRegion, written: nat)
    requires rg.endDesc < DESC_COUNT
  {
    InWindow(rg, written) && rg.start + rg.length <= DESC_BYTES * written
  }

  // ---- Events ----

  lemma SinceNext(rg: RawRegion, written: nat)
    requires rg.endDesc < DESC_COUNT
    ensures Since(rg, written + 1) == if Since(rg, written) + 1 == DESC_COUNT then 0 else Since(rg, written) + 1
  {
    ModNext(written + DESC_COUNT - (rg.endDesc + 1), DESC_COUNT);
  }

  lemma DuePlace(rg: RawRegion, written: nat, d: nat)
    requires rg.endDesc < DESC_COUNT && d < DESC_COUNT
    ensures written % DESC_COUNT == d
            <==> Since(rg, written + 1) == (d + DESC_COUNT - rg.endDesc) % DESC_COUNT
  {
    var q, j := written / DESC_COUNT, written % DESC_COUNT;
    assert written == q * DESC_COUNT + j;
    DescDistance(d, rg.endDesc);
    DescDistance(j, rg.endDesc);
    if j >= rg.endDesc {
      DivMod(written + 1 + DESC_COUNT - (rg.endDesc + 1), DESC_COUNT, q + 1, j - rg.endDesc);
    } else {
      DivMod(written + 1 + DESC_COUNT - (rg.endDesc + 1), DESC_COUNT, q, j - rg.endDesc + DESC_COUNT);
    }
  }

  lemma DescDistance(d: nat, e: nat)
    requires d < DESC_COUNT && e < DESC_COUNT
    ensures (d + DESC_COUNT - e) % DESC_COUNT == if d >= e then d - e else d - e + DESC_COUNT
  {
  }

  /** E's write-back opens the window, G's closes it, and no other does either. */
  lemma WindowEvents(rg: RawRegion, written: nat)
    requires rg.endDesc < DESC_COUNT && rg.guardDesc < DESC_COUNT && rg.endDesc != rg.guardDesc
    ensures written % DESC_COUNT == rg.endDesc ==> InWindow(rg, written + 1) && !InWindow(rg, written)
    ensures written % DESC_COUNT == rg.guardDesc ==> !InWindow(rg, written + 1)
    ensures written % DESC_COUNT != rg.endDesc && written % DESC_COUNT != rg.guardDesc
            ==> InWindow(rg, written + 1) == InWindow(rg, written)
  {
    SinceNext(rg, written);
    DuePlace(rg, written, rg.endDesc);
    DuePlace(rg, written, rg.guardDesc);
    DescDistance(rg.endDesc, rg.endDesc);
    DescDistance(rg.guardDesc, rg.endDesc);
  }

  /** When E is written back its region has come in. */
  lemma EndArrives(marker: nat, lane: nat, written: nat)
    requires marker < N && lane < 2
    requires Ahead(RegionSet(marker, lane), written) && written % DESC_COUNT == RegionSet(marker, lane).endDesc
    ensures RegionSet(marker, lane).start + RegionSet(marker, lane).length <= DESC_BYTES * (written + 1)
  {
    var rg := RegionSet(marker, lane);
    RegionShape(marker, lane);
    var q := written / DESC_COUNT;
    assert written == q * DESC_COUNT + rg.endDesc;
    LastDesc(rg.start + rg.length - 1, rg.endDesc);
    assert rg.start + rg.length > N ==> q >= 1;
  }

  lemma LastDesc(last: nat, d: nat)
    requires d == last % N / DESC_BYTES && last < 2 * N
    ensures last + 1 <= DESC_BYTES * (d + 1) + (if last < N then 0 else N)
  {
    if last < N {
      ModSmall(last, N);
    } else {
      DivMod(last, N, 1, last - N);
    }
  }

  // ---- The region that came in before the window ----

  lemma BaseForm(rg: RawRegion, beam: nat)
    ensures var base := RegionBase(rg, beam);
      base + rg.length <= beam < base + rg.length + N && (base - rg.start) % N == 0
  {
    var x := beam - rg.length - rg.start;
    assert x == x / N * N + x % N;
    MultipleOfN(x / N);
  }

  lemma MultipleOfN(k: int)
    ensures (k * N) % N == 0
  {
  }

  /** The write-backs' distance past the end descriptor, in bytes. */
  function PastEnd(rg: RawRegion, place: nat): nat
    requires rg.endDesc < DESC_COUNT
  {
    (place + N - DESC_BYTES * (rg.endDesc + 1)) % N
  }

  lemma PastEndDescs(rg: RawRegion, written: nat)
    requires rg.endDesc < DESC_COUNT
    ensures PastEnd(rg, DESC_BYTES * written) == DESC_BYTES * Since(rg, written)
  {
    var x := written + DESC_COUNT - (rg.endDesc + 1);
    var q := x / DESC_COUNT;
    assert x == q * DESC_COUNT + Since(rg, written);
    DivMod(DESC_BYTES * x, N, q, DESC_BYTES * Since(rg, written));
  }

  /** In the window a whole region has come in, and what is between the write-backs
      and its next first byte is no less than two descriptors: one that a write-back
      may be late, and one not yet written back. */
  lemma WindowBase(marker: nat, lane: nat, written: nat)
    requires marker < N && lane < 2
    requires var rg := RegionSet(marker, lane); rg.endDesc < DESC_COUNT && Open(rg, written)
    ensures var rg := RegionSet(marker, lane); var base := RegionBase(rg, DESC_BYTES * written);
      && 0 <= base && base % N == rg.start
      && base + rg.length <= DESC_BYTES * written && DESC_BYTES * (written + 2) <= base + N
  {
    var rg := RegionSet(marker, lane);
    var place := DESC_BYTES * written;
    RegionShape(marker, lane);
    BaseForm(rg, place);
    WindowGap(rg.start, rg.length, rg);
    PastEndDescs(rg, written);
    var rel, base := PastEnd(rg, place), RegionBase(rg, place);
    BeamPlace(rg, place);
    SamePlace(place - rg.length - rg.start, rel + EndTail(rg));
    BaseReal(base, rg.start, rg.length, place);
    BaseMod(base, rg.start);
  }

  lemma BaseReal(base: int, start: nat, length: nat, place: nat)
    requires start < N && (base - start) % N == 0 && place < base + length + N && start + length <= place
    ensures base >= 0
  {
  }

  /** From the region's last byte to the end of the descriptor that holds it. */
  function EndTail(rg: RawRegion): (t: nat)
    ensures t < DESC_BYTES
  {
    DESC_BYTES - 1 - (rg.start + rg.length + DESC_BYTES - 1) % DESC_BYTES
  }

  lemma BaseMod(base: int, start: nat)
    requires start < N && (base - start) % N == 0 && base >= 0
    ensures base % N == start
  {
  }

  lemma SamePlace(x: int, d: nat)
    requires (x - d) % N == 0 && d < N
    ensures x % N == d
  {
  }

  /** The end descriptor closes tail bytes after the region. */
  lemma BeamPlace(rg: RawRegion, place: nat)
    requires rg.endDesc < DESC_COUNT && rg.length > 0 && rg.endDesc == (rg.start + rg.length - 1) % N / DESC_BYTES
    ensures (place - PastEnd(rg, place) - EndTail(rg) - rg.length - rg.start) % N == 0
  {
    var last := rg.start + rg.length - 1;
    var lap := last / N;
    assert last == lap * N + last % N;
    assert last % N == DESC_BYTES * rg.endDesc + last % N % DESC_BYTES;
    TailForm(last);
    var y := place + N - DESC_BYTES * (rg.endDesc + 1);
    assert y == y / N * N + PastEnd(rg, place);
    MultipleOfN(y / N - lap - 1);
  }

  lemma TailForm(last: nat)
    ensures (last + DESC_BYTES) % DESC_BYTES == last % N % DESC_BYTES
  {
    assert last == last / N * N + last % N;
    assert last / N * N == DESC_BYTES * (DESC_COUNT * (last / N));
  }

  /** The window ends a spare descriptor before the region begins again. */
  lemma WindowGap(start: nat, length: nat, rg: RawRegion)
    requires start < N && 348 < length <= REGION_RAW_MAX
    requires rg == RawRegion(start, length, (start + length - 1) % N / DESC_BYTES,
                             (start / DESC_BYTES + DESC_COUNT - 2) % DESC_COUNT)
    ensures rg.endDesc < DESC_COUNT && length + EndTail(rg) + DESC_BYTES * WindowDescs(rg) + DESC_BYTES <= N
  {
    var f := start / DESC_BYTES;
    var e := (start + length - 1) / DESC_BYTES;
    DivMul(start + length - 1, DESC_BYTES, DESC_COUNT);
    GapLength(start, length, f, e);
    GapDescs(f, e);
    EndOfDesc(start + length - 1);
  }

  lemma GapLength(start: nat, length: nat, f: nat, e: nat)
    requires 348 < length <= REGION_RAW_MAX && f == start / DESC_BYTES && e == (start + length - 1) / DESC_BYTES
    ensures f + 9 <= e <= f + 10
  {
    assert start == f * DESC_BYTES + start % DESC_BYTES;
    assert start + length - 1 == e * DESC_BYTES + (start + length - 1) % DESC_BYTES;
  }

  lemma EndOfDesc(last: nat)
    ensures last + 1 + (DESC_BYTES - 1 - (last + DESC_BYTES) % DESC_BYTES) == DESC_BYTES * (last / DESC_BYTES + 1)
  {
  }

  lemma GapDescs(f: nat, e: nat)
    requires f + 9 <= e <= f + 10
    ensures ((f + DESC_COUNT - 2) % DESC_COUNT + DESC_COUNT - e % DESC_COUNT) % DESC_COUNT == f + 11 - e
  {
    var g := f + DESC_COUNT - 2;
    var q, r := g / DESC_COUNT, g % DESC_COUNT;
    assert g == q * DESC_COUNT + r && g - e == f + 11 - e;
    if r >= g - e {
      DivMod(e, DESC_COUNT, q, r - (g - e));
      DivMod(r + DESC_COUNT - (r - (g - e)), DESC_COUNT, 1, g - e);
    } else {
      DivMod(e, DESC_COUNT, q - 1, r - (g - e) + DESC_COUNT);
      ModSmall(g - e, DESC_COUNT);
    }
  }

  /** A write-back that leaves the window open leaves the region where it is. */
  lemma BaseStays(marker: nat, lane: nat, written: nat)
    requires marker < N && lane < 2
    requires var rg := RegionSet(marker, lane);
      rg.endDesc < DESC_COUNT && Open(rg, written) && InWindow(rg, written + 1)
    ensures RegionBase(RegionSet(marker, lane), DESC_BYTES * (written + 1))
            == RegionBase(RegionSet(marker, lane), DESC_BYTES * written)
  {
    WindowBase(marker, lane, written);
    WindowBase(marker, lane, written + 1);
    var rg := RegionSet(marker, lane);
    BaseForm(rg, DESC_BYTES * (written + 1));
    SameBase(RegionBase(rg, DESC_BYTES * written), RegionBase(rg, DESC_BYTES * (written + 1)));
  }

  lemma SameBase(a: nat, b: nat)
    requires a % N == b % N && a < b + N && b < a + N
    ensures a == b
  {
    assert a == a / N * N + a % N && b == b / N * N + b % N;
  }
}
