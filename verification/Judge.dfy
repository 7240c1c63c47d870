/** What take_window() makes of a window, and why judging the copy is judging the
    ring. */
module Judge {
  import opened ByteBits
  import opened Wire
  import opened WireCodec
  import opened LockSearch
  import opened Region

  /** What E and G together say. */
  datatype Tripwire = Quiet | AtRegion | Window | Late

  function TripwireOf(e: bool, g: bool): Tripwire {
    if e then (if g then Late else Window) else if g then AtRegion else Quiet
  }

  datatype Taken = Tripped | New(stamp: word, payload: seq<byte>) | Stale | Torn | Crc | Framing

  predicate AllFramed(raw: seq<byte>, phase: nat, lane: nat, marker: nat)
    requires |raw| == N && phase < 8
  {
    forall line: nat | 1 <= line < LINE_COUNT :: LineFramed(raw, phase, lane, marker, line)
  }

  /** What the stamps, the payload and the CRC of a framed ring amount to. */
  function JudgedWords(h: word, t: word, read: bool, last: word, payload: seq<byte>, sum: word, carried: word): Taken {
    if h != t then Torn
    else if h == 0 || (read && h == last) then Stale
    else if sum != carried then Crc
    else New(h, payload)
  }

  /** What a window's ring amounts to, decoded in place. */
  function Judged(raw: seq<byte>, phase: nat, lane: nat, marker: nat, read: bool, last: word,
                  crc: seq<byte> -> word): Taken
    requires |raw| == N && phase < 8
  {
    if !AllFramed(raw, phase, lane, marker) then Framing
    else
      var payload := DecodePayload(raw, phase, lane, marker);
      JudgedWords(DecodeU32(raw, phase, lane, marker, OFF_H), DecodeU32(raw, phase, lane, marker, OFF_T), read, last,
                  payload, crc(payload), DecodeU32(raw, phase, lane, marker, OFF_CRC))
  }

  // ---- What each verdict means ----

  /** A byte of a marker between the stamps is not the marker's. */
  predicate MarkerWrong(raw: seq<byte>, phase: nat, lane: nat, marker: nat, o: nat)
    requires |raw| == N && phase < 8
  {
    OFF_H <= o < OFF_END && IsMarker(o)
    && DecodeAt(raw, phase, lane, AlignedOf(marker, o)) != HSYNC[(o - VSYNC_BYTES) % LINE_STRIDE]
  }

  predicate MarkersRight(raw: seq<byte>, phase: nat, lane: nat, marker: nat)
    requires |raw| == N && phase < 8
  {
    forall o: nat | o < N :: !MarkerWrong(raw, phase, lane, marker, o)
  }

  /** What the verdict on a ring is: framing fails exactly if a marker is not in place;
      otherwise it is torn exactly if H and T differ; otherwise stale exactly if they are
      0, or were read last; otherwise the CRC fails exactly if it is not that of the
      payload; and otherwise the payload is new, with that stamp. */
  predicate VerdictIs(out: Taken, raw: seq<byte>, phase: nat, lane: nat, marker: nat, read: bool, last: word,
                      crc: seq<byte> -> word)
    requires |raw| == N && phase < 8
  {
    var framed := MarkersRight(raw, phase, lane, marker);
    var h, t := DecodeU32(raw, phase, lane, marker, OFF_H), DecodeU32(raw, phase, lane, marker, OFF_T);
    var payload, carried := DecodePayload(raw, phase, lane, marker), DecodeU32(raw, phase, lane, marker, OFF_CRC);
    && !out.Tripped?
    && (out.Framing? <==> !framed)
    && (out.Torn? <==> framed && h != t)
    && (out.Stale? <==> framed && h == t && (h == 0 || (read && h == last)))
    && (out.Crc? <==> framed && h == t != 0 && !(read && h == last) && crc(payload) != carried)
    && (out.New? <==> framed && h == t != 0 && !(read && h == last) && crc(payload) == carried)
    && (out.New? ==> out.stamp == h && out.payload == payload)
  }

  lemma VerdictMeans(raw: seq<byte>, phase: nat, lane: nat, marker: nat, read: bool, last: word,
                     crc: seq<byte> -> word)
    requires |raw| == N && phase < 8
    ensures VerdictIs(Judged(raw, phase, lane, marker, read, last, crc), raw, phase, lane, marker, read, last, crc)
  {
    FramedMeans(raw, phase, lane, marker);
  }

  /** The lines' markers are all the marker bytes between the stamps. */
  lemma FramedMeans(raw: seq<byte>, phase: nat, lane: nat, marker: nat)
    requires |raw| == N && phase < 8
    ensures AllFramed(raw, phase, lane, marker) <==> MarkersRight(raw, phase, lane, marker)
  {
    if AllFramed(raw, phase, lane, marker) {
      forall o: nat | o < N ensures !MarkerWrong(raw, phase, lane, marker, o) {
        if OFF_H <= o < OFF_END && IsMarker(o) {
          FramedByte(raw, phase, lane, marker, o);
        }
      }
    }
    if MarkersRight(raw, phase, lane, marker) {
      forall line: nat | 1 <= line < LINE_COUNT ensures LineFramed(raw, phase, lane, marker, line) {
        RightLine(raw, phase, lane, marker, line);
      }
    }
  }

  lemma FramedByte(raw: seq<byte>, phase: nat, lane: nat, marker: nat, o: nat)
    requires |raw| == N && phase < 8 && AllFramed(raw, phase, lane, marker) && OFF_H <= o < OFF_END && IsMarker(o)
    ensures !MarkerWrong(raw, phase, lane, marker, o)
  {
    var line, k := (o - VSYNC_BYTES) / LINE_STRIDE, (o - VSYNC_BYTES) % LINE_STRIDE;
    assert o == LineStart(line) - HSYNC_BYTES + k;
    assert 1 <= line < LINE_COUNT && LineFramed(raw, phase, lane, marker, line);
    NextAligned(marker, LineStart(line) - HSYNC_BYTES, k);
    DecodeMod(raw, phase, lane, AlignedOf(marker, LineStart(line) - HSYNC_BYTES) + k);
  }

  lemma RightLine(raw: seq<byte>, phase: nat, lane: nat, marker: nat, line: nat)
    requires |raw| == N && phase < 8 && MarkersRight(raw, phase, lane, marker) && 1 <= line < LINE_COUNT
    ensures LineFramed(raw, phase, lane, marker, line)
  {
    var first := LineStart(line) - HSYNC_BYTES;
    forall k: nat | k < HSYNC_BYTES
      ensures DecodeAt(raw, phase, lane, AlignedOf(marker, first) + k) == HSYNC[k]
    {
      RightByte(raw, phase, lane, marker, line, k);
    }
  }

  lemma RightByte(raw: seq<byte>, phase: nat, lane: nat, marker: nat, line: nat, k: nat)
    requires |raw| == N && phase < 8 && MarkersRight(raw, phase, lane, marker)
    requires 1 <= line < LINE_COUNT && k < HSYNC_BYTES
    ensures DecodeAt(raw, phase, lane, AlignedOf(marker, LineStart(line) - HSYNC_BYTES) + k) == HSYNC[k]
  {
    var first := LineStart(line) - HSYNC_BYTES;
    MarkerPlace(line, k);
    assert !MarkerWrong(raw, phase, lane, marker, first + k);
    NextAligned(marker, first, k);
    DecodeMod(raw, phase, lane, AlignedOf(marker, first) + k);
  }

  lemma MarkerPlace(line: nat, k: nat)
    requires 1 <= line < LINE_COUNT && k < HSYNC_BYTES
    ensures var o := LineStart(line) - HSYNC_BYTES + k;
      OFF_H <= o < OFF_END && IsMarker(o) && (o - VSYNC_BYTES) % LINE_STRIDE == k
  {
  }

  /** A framed ring whose CRC is right is new, stale or torn. */
  lemma JudgedGood(raw: seq<byte>, phase: nat, lane: nat, marker: nat, read: bool, last: word, crc: seq<byte> -> word)
    requires |raw| == N && phase < 8 && AllFramed(raw, phase, lane, marker)
    requires var h, t := DecodeU32(raw, phase, lane, marker, OFF_H), DecodeU32(raw, phase, lane, marker, OFF_T);
      h == t != 0 ==> crc(DecodePayload(raw, phase, lane, marker)) == DecodeU32(raw, phase, lane, marker, OFF_CRC)
    ensures var out := Judged(raw, phase, lane, marker, read, last, crc);
      && !out.Framing? && !out.Crc? && !out.Tripped?
      && (out.New? ==>
            && out.stamp == DecodeU32(raw, phase, lane, marker, OFF_H) != 0
            && out.stamp == DecodeU32(raw, phase, lane, marker, OFF_T)
            && out.payload == DecodePayload(raw, phase, lane, marker) && (read ==> out.stamp != last))
  {
  }

  /** So what take_window() judges is the ring. */
  lemma JudgedSame(copy: seq<byte>, ring: seq<byte>, phase: nat, lane: nat, marker: nat, read: bool, last: word,
                   crc: seq<byte> -> word)
    requires |copy| == |ring| == N && phase < 8 && lane < 2 && marker < N
    requires forall k: nat | k < N && InRegion(RegionSet(marker, lane), k) :: copy[k] == ring[k]
    ensures Judged(copy, phase, lane, marker, read, last, crc) == Judged(ring, phase, lane, marker, read, last, crc)
  {
    CopyIsRing(copy, ring, phase, lane, marker);
  }

  /** All that is decoded lies in the region. */
  lemma CopyIsRing(copy: seq<byte>, ring: seq<byte>, phase: nat, lane: nat, marker: nat)
    requires |copy| == |ring| == N && phase < 8 && lane < 2 && marker < N
    requires forall k: nat | k < N && InRegion(RegionSet(marker, lane), k) :: copy[k] == ring[k]
    ensures AllFramed(copy, phase, lane, marker) <==> AllFramed(ring, phase, lane, marker)
    ensures DecodeU32(copy, phase, lane, marker, OFF_H) == DecodeU32(ring, phase, lane, marker, OFF_H)
    ensures DecodeU32(copy, phase, lane, marker, OFF_T) == DecodeU32(ring, phase, lane, marker, OFF_T)
    ensures DecodeU32(copy, phase, lane, marker, OFF_CRC) == DecodeU32(ring, phase, lane, marker, OFF_CRC)
    ensures DecodePayload(copy, phase, lane, marker) == DecodePayload(ring, phase, lane, marker)
  {
    SameFraming(copy, ring, phase, lane, marker);
    SameWordAt(copy, ring, phase, lane, marker, OFF_H);
    SameWordAt(copy, ring, phase, lane, marker, OFF_T);
    SameWordAt(copy, ring, phase, lane, marker, OFF_CRC);
    SamePayload(copy, ring, phase, lane, marker);
  }

  lemma SameFraming(copy: seq<byte>, ring: seq<byte>, phase: nat, lane: nat, marker: nat)
    requires |copy| == |ring| == N && phase < 8 && lane < 2 && marker < N
    requires forall k: nat | k < N && InRegion(RegionSet(marker, lane), k) :: copy[k] == ring[k]
    ensures AllFramed(copy, phase, lane, marker) <==> AllFramed(ring, phase, lane, marker)
  {
    forall line: nat | 1 <= line < LINE_COUNT
      ensures LineFramed(copy, phase, lane, marker, line) <==> LineFramed(ring, phase, lane, marker, line)
    {
      if LineFramed(copy, phase, lane, marker, line) {
        SameLine(copy, ring, phase, lane, marker, line);
      }
      if LineFramed(ring, phase, lane, marker, line) {
        SameLine(ring, copy, phase, lane, marker, line);
      }
    }
  }

  lemma SamePayload(copy: seq<byte>, ring: seq<byte>, phase: nat, lane: nat, marker: nat)
    requires |copy| == |ring| == N && phase < 8 && lane < 2 && marker < N
    requires forall k: nat | k < N && InRegion(RegionSet(marker, lane), k) :: copy[k] == ring[k]
    ensures DecodePayload(copy, phase, lane, marker) == DecodePayload(ring, phase, lane, marker)
  {
    forall k: nat | k < PAYLOAD_BYTES
      ensures DecodePayload(copy, phase, lane, marker)[k] == DecodePayload(ring, phase, lane, marker)[k]
    {
      CopyDecodes(ring, copy, phase, lane, marker, PayloadOffset(k));
    }
  }

  lemma SameByteAt(copy: seq<byte>, ring: seq<byte>, phase: nat, lane: nat, marker: nat, o: nat, k: nat)
    requires |copy| == |ring| == N && phase < 8 && lane < 2 && marker < N && OFF_H <= o && o + k < OFF_END
    requires forall i: nat | i < N && InRegion(RegionSet(marker, lane), i) :: copy[i] == ring[i]
    ensures DecodeAt(copy, phase, lane, AlignedOf(marker, o) + k)
            == DecodeAt(ring, phase, lane, AlignedOf(marker, o) + k)
  {
    NextAligned(marker, o, k);
    DecodeMod(copy, phase, lane, AlignedOf(marker, o) + k);
    DecodeMod(ring, phase, lane, AlignedOf(marker, o) + k);
    CopyDecodes(ring, copy, phase, lane, marker, o + k);
  }

  lemma SameLine(copy: seq<byte>, ring: seq<byte>, phase: nat, lane: nat, marker: nat, line: nat)
    requires |copy| == |ring| == N && phase < 8 && lane < 2 && marker < N && 1 <= line < LINE_COUNT
    requires forall i: nat | i < N && InRegion(RegionSet(marker, lane), i) :: copy[i] == ring[i]
    requires LineFramed(copy, phase, lane, marker, line)
    ensures LineFramed(ring, phase, lane, marker, line)
  {
    var first := LineStart(line) - HSYNC_BYTES;
    forall k: nat | k < HSYNC_BYTES
      ensures DecodeAt(ring, phase, lane, AlignedOf(marker, first) + k) == HSYNC[k]
    {
      SameByteAt(copy, ring, phase, lane, marker, first, k);
    }
  }

  lemma SameWordAt(copy: seq<byte>, ring: seq<byte>, phase: nat, lane: nat, marker: nat, o: nat)
    requires |copy| == |ring| == N && phase < 8 && lane < 2 && marker < N && OFF_H <= o && o + 4 <= OFF_END
    requires forall i: nat | i < N && InRegion(RegionSet(marker, lane), i) :: copy[i] == ring[i]
    ensures DecodeU32(copy, phase, lane, marker, o) == DecodeU32(ring, phase, lane, marker, o)
  {
    SameByteAt(copy, ring, phase, lane, marker, o, 0);
    SameByteAt(copy, ring, phase, lane, marker, o, 1);
    SameByteAt(copy, ring, phase, lane, marker, o, 2);
    SameByteAt(copy, ring, phase, lane, marker, o, 3);
  }

  /** A transmitted cycle with one version in it, received at any shift and judged
      under its lock, is that version. */
  lemma WholeCycleIsNew(tx: seq<byte>, raw: seq<byte>, shift: nat, tag: seq<byte>, stamp: word,
                        read: bool, last: word, crc: seq<byte> -> word)
    requires IsCycle(tx, tag) && |raw| == N && shift < BITS && forall o: nat | o < N :: Carries(raw, shift, o, tx[o])
    requires stamp != 0 && HasWord(tx, OFF_H, stamp) && HasWord(tx, OFF_T, stamp)
    requires HasWord(tx, OFF_CRC, crc(PayloadOf(tx)))
    ensures Judged(raw, TruePhase(shift), TrueLane(shift), TrueMarker(shift), read, last, crc)
            == if read && stamp == last then Stale else New(stamp, PayloadOf(tx))
  {
    WordArrives(tx, raw, shift, OFF_H, stamp);
    WordArrives(tx, raw, shift, OFF_T, stamp);
    WordArrives(tx, raw, shift, OFF_CRC, crc(PayloadOf(tx)));
    GatherTransmitted(tx, raw, shift);
    forall line: nat | 1 <= line < LINE_COUNT
      ensures LineFramed(raw, TruePhase(shift), TrueLane(shift), TrueMarker(shift), line)
    {
      LineArrives(tx, raw, shift, tag, line);
    }
  }

  lemma WordArrives(tx: seq<byte>, raw: seq<byte>, shift: nat, o: nat, x: word)
    requires |tx| == N && |raw| == N && shift < BITS && forall k: nat | k < N :: Carries(raw, shift, k, tx[k])
    requires VSYNC_BYTES <= o && o + 4 <= N && HasWord(tx, o, x)
    ensures DecodeU32(raw, TruePhase(shift), TrueLane(shift), TrueMarker(shift), o) == x
  {
    assert tx[o + 0] == LeByte(x, 0) && tx[o + 1] == LeByte(x, 1);
    assert tx[o + 2] == LeByte(x, 2) && tx[o + 3] == LeByte(x, 3);
    DecodeWord(raw, shift, o, x);
  }

  lemma LineArrives(tx: seq<byte>, raw: seq<byte>, shift: nat, tag: seq<byte>, line: nat)
    requires IsCycle(tx, tag) && |raw| == N && shift < BITS && forall o: nat | o < N :: Carries(raw, shift, o, tx[o])
    requires 1 <= line < LINE_COUNT
    ensures LineFramed(raw, TruePhase(shift), TrueLane(shift), TrueMarker(shift), line)
  {
    var first := LineStart(line) - HSYNC_BYTES;
    forall k: nat | k < HSYNC_BYTES
      ensures DecodeAt(raw, TruePhase(shift), TrueLane(shift), AlignedOf(TrueMarker(shift), first) + k) == HSYNC[k]
    {
      MarkerOffset(line, k, tag);
      assert tx[first + k] == FixedByte(first + k, tag) == HSYNC[k];
      DecodeNext(raw, shift, first, k, HSYNC[k]);
    }
  }
}
