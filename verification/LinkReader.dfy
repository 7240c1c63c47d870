/** The reader's functions of i2slink.c on their arrays, each run undisturbed:
    tripwire_step, arm_both, copy_region, search and take_window. */
module LinkReader {
  import opened Arith
  import opened ByteBits
  import opened Wire
  import opened WireCodec
  import opened LockSearch
  import opened Region
  import opened Judge

  const SAMPLES: nat := 234     // 16-bit samples in the ring

  class Receiver {
    const ring: array<byte>
    const copy: array<byte>
    const lengths: array<bool>
    var locked: bool
    var phase: nat
    var lane: nat
    var marker: nat
    var region: RawRegion
    var haveRead: bool
    var lastRead: word

    ghost predicate Valid()
      reads this
    {
      && ring.Length == copy.Length == N && ring != copy && lengths.Length == DESC_COUNT
      && phase < 8 && lane < 2 && marker < N && region == RegionSet(marker, lane)
      && region.endDesc < DESC_COUNT && region.guardDesc < DESC_COUNT
    }

    constructor ()
      ensures Valid() && !locked && !haveRead && fresh(ring) && fresh(copy) && fresh(lengths)
    {
      ring, copy, lengths := new byte[N](_ => 0), new byte[N](_ => 0), new bool[DESC_COUNT](_ => false);
      locked, phase, lane, marker, haveRead, lastRead := false, 0, 0, 0, false, 0;
      region := RegionSet(0, 0);
      RegionShape(0, 0);
    }

    /** E first, then G. E is left set in a window; a late one re-arms both. */
    method TripwireStep() returns (state: Tripwire)
      requires Valid()
      modifies lengths
      ensures var e, g := old(lengths[region.endDesc]), old(lengths[region.guardDesc]);
        && (state.Window? <==> e && !g) && (state.Late? <==> e && g) && (state.AtRegion? <==> !e && g)
        && (state.Quiet? <==> !e && !g) && state == TripwireOf(e, g)
        && lengths[..] == old(lengths[..])[region.endDesc := e && !g][region.guardDesc := false]
    {
      RegionEnds();
      var e := lengths[region.endDesc];
      var g := lengths[region.guardDesc];
      if !e {
        if g {
          lengths[region.guardDesc] := false;
          return AtRegion;
        }
        return Quiet;
      }
      if g {
        ArmBoth();
        return Late;
      }
      return Window;
    }

    lemma RegionEnds()
      requires Valid()
      ensures region.endDesc != region.guardDesc
    {
      RegionShape(marker, lane);
      assert (region.start + N - region.start) % N == 0;
      TripwiresOutside(marker, lane, region.start);
    }

    method ArmBoth()
      requires Valid()
      modifies lengths
      ensures lengths[..] == old(lengths[..])[region.endDesc := false][region.guardDesc := false]
    {
      lengths[region.endDesc] := false;
      lengths[region.guardDesc] := false;
    }

    /** The region's bytes, sample by sample, and no others. */
    method CopyRegion()
      requires Valid()
      modifies copy
      ensures forall k: nat | k < N :: copy[..][k] == if InRegion(region, k) then ring[k] else old(copy[..])[k]
    {
      RegionShape(marker, lane);
      ghost var was := copy[..];
      var w := region.start / 2;
      for index := 0 to region.length / 2
        invariant w == (region.start / 2 + index) % SAMPLES
        invariant CopiedTo(was, copy[..], ring[..], region.start, 2 * index)
      {
        CopyMore(was, copy[..], ring[..], region.start, index, w);
        NextSample(region.start / 2 + index, w);
        copy[2 * w], copy[2 * w + 1] := ring[2 * w], ring[2 * w + 1];
        w := w + 1;
        if w == SAMPLES {
          w := 0;
        }
      }
      forall k: nat | k < N
        ensures copy[..][k] == if InRegion(region, k) then ring[k] else was[k]
      {
        assert ByteTo(was, copy[..], ring[..], region.start, region.length, k);
      }
    }

    method FindLock(snapshot: array<byte>, aligned: array<byte>, tag: seq<byte>) returns (found: bool)
      requires Valid() && snapshot.Length == aligned.Length == N && snapshot != aligned && |tag| == 4
      requires snapshot != ring && aligned != ring
      modifies this, snapshot, aligned, lengths
      ensures Valid() && found == locked
      ensures found ==> ValidFrame(ring[..], tag, phase, lane, marker)
      ensures found ==> !lengths[region.endDesc] && !lengths[region.guardDesc]
      ensures !found ==>
        forall p: nat, l: nat, m: nat | p < 8 && l < 2 && m < N :: !ValidFrame(ring[..], tag, p, l, m)
    {
      forall k | 0 <= k < N {
        snapshot[k] := ring[k];
      }
      assert snapshot[..] == ring[..];
      var p, l, m;
      found, p, l, m := WireSearch(snapshot, aligned, tag, phase, lane);
      locked := found;
      if found {
        phase, lane, marker := p, l, m;
        region := RegionSet(m, l);
        RegionShape(m, l);
        ArmBoth();
      }
    }

    /** Copy, look at the guard, consume the window, and judge the copy. */
    method TakeWindow(runs: array<Run>, decoded: array<byte>, crc: seq<byte> -> word) returns (out: Taken)
      requires Valid() && runs.Length == LINE_COUNT && AreRuns(runs[..], LINE_COUNT)
      requires decoded.Length == PAYLOAD_BYTES && decoded != copy && decoded != ring
      modifies `locked, `haveRead, `lastRead, copy, lengths, decoded
      ensures Valid() && !lengths[region.endDesc] && (out == Tripped <==> old(lengths[region.guardDesc]))
      ensures forall k: nat | k < N && InRegion(region, k) :: copy[..][k] == ring[..][k]
      ensures !old(lengths[region.guardDesc]) ==>
        && out == Judged(copy[..], phase, lane, marker, old(haveRead), old(lastRead), crc)
        && VerdictIs(out, copy[..], phase, lane, marker, old(haveRead), old(lastRead), crc)
      ensures locked == (old(locked) && out != Framing)
      ensures if out.New? then haveRead && lastRead == out.stamp && decoded[..] == out.payload
              else haveRead == old(haveRead) && lastRead == old(lastRead)
    {
      var crossed := CopyAndConsume();
      if crossed {
        return Tripped;
      }
      out := JudgeCopy(runs, decoded, crc);
      VerdictMeans(copy[..], phase, lane, marker, old(haveRead), old(lastRead), crc);
    }

    /** A tripped copy re-arms both tripwires, another only E. */
    method CopyAndConsume() returns (crossed: bool)
      requires Valid()
      modifies copy, lengths
      ensures crossed == old(lengths[region.guardDesc]) && !lengths[region.endDesc]
      ensures crossed ==> !lengths[region.guardDesc]
      ensures forall k: nat | k < N && InRegion(region, k) :: copy[..][k] == ring[..][k]
    {
      CopyRegion();
      crossed := lengths[region.guardDesc];
      lengths[region.endDesc] := false;
      if crossed {
        ArmBoth();
      }
    }

    method JudgeCopy(runs: array<Run>, decoded: array<byte>, crc: seq<byte> -> word) returns (out: Taken)
      requires Valid() && runs.Length == LINE_COUNT && AreRuns(runs[..], LINE_COUNT)
      requires decoded.Length == PAYLOAD_BYTES && decoded != copy && decoded != ring
      modifies `locked, `haveRead, `lastRead, decoded
      ensures Valid() && out == Judged(copy[..], phase, lane, marker, old(haveRead), old(lastRead), crc)
      ensures locked == (old(locked) && out != Framing)
      ensures if out.New? then haveRead && lastRead == out.stamp && decoded[..] == out.payload
              else haveRead == old(haveRead) && lastRead == old(lastRead)
    {
      var ok := WireFramingOk(copy, phase, lane, marker);
      if !ok {
        locked := false;
        return Framing;
      }
      var h := DecodeU32(copy[..], phase, lane, marker, OFF_H);
      var t := DecodeU32(copy[..], phase, lane, marker, OFF_T);
      var carried := DecodeU32(copy[..], phase, lane, marker, OFF_CRC);
      out := JudgeWords(h, t, carried, runs, decoded, crc);
    }

    method JudgeWords(h: word, t: word, carried: word, runs: array<Run>, decoded: array<byte>, crc: seq<byte> -> word)
      returns (out: Taken)
      requires Valid() && runs.Length == LINE_COUNT && AreRuns(runs[..], LINE_COUNT)
      requires decoded.Length == PAYLOAD_BYTES && decoded != copy && decoded != ring
      modifies `haveRead, `lastRead, decoded
      ensures var payload := DecodePayload(copy[..], phase, lane, marker);
        out == JudgedWords(h, t, old(haveRead), old(lastRead), payload, crc(payload), carried)
      ensures if out.New? then haveRead && lastRead == out.stamp && decoded[..] == out.payload
              else haveRead == old(haveRead) && lastRead == old(lastRead)
    {
      if h != t {
        return Torn;
      }
      if h == 0 || (haveRead && h == lastRead) {
        return Stale;
      }
      WireDecodePayload(copy, phase, lane, marker, runs, decoded);
      if crc(decoded[..]) != carried {
        return Crc;
      }
      lastRead, haveRead := h, true;
      out := New(h, decoded[..]);
    }
  }

  function Distance(start: nat, k: nat): nat
    requires start < N
  {
    (k + N - start) % N
  }

  predicate ByteTo(was: seq<byte>, copy: seq<byte>, ring: seq<byte>, start: nat, count: nat, k: nat)
    requires |was| == |copy| == |ring| == N && start < N && k < N
  {
    copy[k] == if Distance(start, k) < count then ring[k] else was[k]
  }

  /** The first count bytes of the region are copied. */
  ghost predicate CopiedTo(was: seq<byte>, copy: seq<byte>, ring: seq<byte>, start: nat, count: nat)
    requires |was| == |copy| == |ring| == N && start < N
  {
    forall k: nat | k < N :: ByteTo(was, copy, ring, start, count, k)
  }

  lemma CopyMore(was: seq<byte>, copy: seq<byte>, ring: seq<byte>, start: nat, index: nat, w: nat)
    requires |was| == |copy| == |ring| == N && start < N && start % 2 == 0 && 2 * index + 2 <= N
    requires w == (start / 2 + index) % SAMPLES && CopiedTo(was, copy, ring, start, 2 * index)
    ensures 2 * w + 1 < N
    ensures CopiedTo(was, copy[2 * w := ring[2 * w]][2 * w + 1 := ring[2 * w + 1]], ring, start, 2 * (index + 1))
  {
    SampleBelow(start, index, w);
    var next, count := copy[2 * w := ring[2 * w]][2 * w + 1 := ring[2 * w + 1]], 2 * (index + 1);
    forall k: nat | k < N ensures ByteTo(was, next, ring, start, count, k) {
      assert ByteTo(was, copy, ring, start, 2 * index, k);
      SampleDistance(start, index, w, k);
    }
  }

  lemma NextSample(v: nat, w: nat)
    requires w == v % SAMPLES
    ensures (v + 1) % SAMPLES == if w + 1 == SAMPLES then 0 else w + 1
  {
    ModNext(v, SAMPLES);
  }

  lemma SampleBelow(start: nat, index: nat, w: nat)
    requires start < N && 2 * index + 2 <= N && w == (start / 2 + index) % SAMPLES
    ensures 2 * w + 1 < N
    ensures w == if start / 2 + index < SAMPLES then start / 2 + index else start / 2 + index - SAMPLES
  {
    var v := start / 2 + index;
    if v < SAMPLES {
      ModSmall(v, SAMPLES);
    } else {
      DivMod(v, SAMPLES, 1, v - SAMPLES);
    }
  }

  /** The sample copied next is the pair of bytes at that distance. */
  lemma SampleDistance(start: nat, index: nat, w: nat, k: nat)
    requires start < N && start % 2 == 0 && 2 * index + 2 <= N && k < N
    requires w == if start / 2 + index < SAMPLES then start / 2 + index else start / 2 + index - SAMPLES
    ensures Distance(start, k) < 2 * (index + 1) <==> Distance(start, k) < 2 * index || k == 2 * w || k == 2 * w + 1
  {
    DistanceIs(start, k);
    assert 2 * (start / 2) == start;
  }

  lemma DistanceIs(start: nat, k: nat)
    requires start < N && k < N
    ensures Distance(start, k) == if k >= start then k - start else k + N - start
  {
  }
}
