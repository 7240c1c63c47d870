/** The i2slink wire format: the cycle map, the decode of a received ring under
    a lock (phase, lane, marker), and what a valid frame is. */
module Wire {
  import opened Arith
  import opened ByteBits

  // ---- The cycle map (offsets in the TX cycle) ----
  const VSYNC_BYTES: nat := 100
  const HSYNC_BYTES: nat := 8
  const LINE_BYTES: nat := 64
  const LINE_COUNT: nat := 5
  const LINE_STRIDE: nat := 72
  const N: nat := 468           // bytes in a cycle
  const BITS: nat := 3744       // bits in a cycle
  const PAYLOAD_BYTES: nat := 304
  const OFF_TAG: nat := 108
  const OFF_H: nat := 112
  const OFF_PAYLOAD: nat := 116
  const OFF_CRC: nat := 452
  const OFF_T: nat := 456
  const OFF_END: nat := 460

  function LineStart(line: nat): nat {
    VSYNC_BYTES + HSYNC_BYTES + line * LINE_STRIDE
  }

  const HSYNC: seq<byte> := [0xff, 0xff, 0x12, 0x34, 0x56, 0x78, 0xa5, 0x5a]

  // ---- The cycle's fixed bytes: VSYNC zeros, HSYNC markers and the tag ----
  predicate IsMarker(o: nat) {
    VSYNC_BYTES <= o < N && (o - VSYNC_BYTES) % LINE_STRIDE < HSYNC_BYTES
  }

  predicate IsFixed(o: nat) {
    o < VSYNC_BYTES || IsMarker(o) || OFF_TAG <= o < OFF_H
  }

  function FixedByte(o: nat, tag: seq<byte>): byte
    requires IsFixed(o) && |tag| == 4
  {
    if o < VSYNC_BYTES then 0
    else if IsMarker(o) then HSYNC[(o - VSYNC_BYTES) % LINE_STRIDE]
    else tag[o - OFF_TAG]
  }

  /** Memory byte k ^ 1: every 16-bit sample goes out high byte first. */
  function Swap(k: nat): nat {
    if k % 2 == 0 then k + 1 else k - 1
  }

  lemma SwapTwice(k: nat)
    ensures Swap(Swap(k)) == k && (k < N ==> Swap(k) < N)
  {
  }

  // ---- Decoding: aligned byte j of a raw ring ----
  function RawHigh(lane: nat, j: nat): (k: nat)
    ensures k < N
  {
    Swap((Swap(j % N) + lane) % N)
  }

  function RawLow(lane: nat, j: nat): (k: nat)
    ensures k < N
  {
    Swap((Swap(j % N) + lane + 1) % N)
  }

  function DecodeAt(raw: seq<byte>, phase: nat, lane: nat, j: nat): byte
    requires |raw| == N && phase < 8
  {
    Splice(raw[RawHigh(lane, j)], raw[RawLow(lane, j)], phase)
  }

  /** The aligned index of a TX offset under a lock. */
  function AlignedOf(marker: nat, offset: nat): (j: nat)
    requires offset >= VSYNC_BYTES
    ensures j < N
  {
    (marker + offset - VSYNC_BYTES) % N
  }

  // ---- The same ring, as the bits that came over the wire ----
  predicate WireBit(raw: seq<byte>, q: nat)
    requires |raw| == N && q < BITS
  {
    Bit(raw[Swap(q / 8)], q % 8)
  }

  /** Bit i of TX byte o, in a ring received shift bits late. */
  predicate TxBit(raw: seq<byte>, shift: nat, o: nat, i: nat)
    requires |raw| == N && o < N && i < 8
  {
    WireBit(raw, (8 * Swap(o) + i + shift) % BITS)
  }

  ghost predicate Carries(raw: seq<byte>, shift: nat, o: nat, value: byte)
    requires |raw| == N && o < N
  {
    forall i: nat | i < 8 :: TxBit(raw, shift, o, i) == Bit(value, i)
  }

  /** A ring whose bits agree with a cycle's fixed bytes, whatever the other
      bits are: payload, stamps and CRC may come from different versions. */
  ghost predicate Framed(raw: seq<byte>, shift: nat, tag: seq<byte>)
    requires |raw| == N && |tag| == 4
  {
    forall o: nat {:trigger IsFixed(o)} | o < N && IsFixed(o) :: Carries(raw, shift, o, FixedByte(o, tag))
  }

  lemma DecodeBit(raw: seq<byte>, phase: nat, lane: nat, j: nat, i: nat)
    requires |raw| == N && phase < 8 && i < 8
    ensures Bit(DecodeAt(raw, phase, lane, j), i)
            == WireBit(raw, (8 * (Swap(j % N) + lane) + phase + i) % BITS)
  {
    var w := Swap(j % N) + lane;
    BitPlace(w, phase + i);
    SpliceWire(raw, phase, i, w, (8 * w + (phase + i)) % BITS);
  }

  lemma SpliceWire(raw: seq<byte>, phase: nat, i: nat, w: nat, q: nat)
    requires |raw| == N && phase < 8 && i < 8 && q < BITS && q % 8 == (phase + i) % 8
    requires q / 8 == if phase + i < 8 then w % N else (w + 1) % N
    ensures Bit(Splice(raw[Swap(w % N)], raw[Swap((w + 1) % N)], phase), i) == WireBit(raw, q)
  {
    if phase + i < 8 {
      ModSmall(phase + i, 8);
    } else {
      DivMod(phase + i, 8, 1, phase + i - 8);
    }
    SpliceBit(raw[Swap(w % N)], raw[Swap((w + 1) % N)], phase, i);
  }

  lemma BitPlace(w: nat, k: nat)
    requires k < 16
    ensures var q := (8 * w + k) % BITS;
      q / 8 == (if k < 8 then w % N else (w + 1) % N) && q % 8 == k % 8
  {
    var t, r := w / N, w % N;
    assert w == t * N + r;
    ModNext(w, N);
    if k < 8 {
      DivMod(8 * w + k, BITS, t, 8 * r + k);
      DivMod(8 * r + k, 8, r, k);
    } else if r + 1 < N {
      DivMod(8 * w + k, BITS, t, 8 * r + k);
      DivMod(8 * r + k, 8, r + 1, k - 8);
    } else {
      DivMod(8 * w + k, BITS, t + 1, k - 8);
    }
  }

  // ---- The lock a shift calls for ----
  function TruePhase(shift: nat): nat { shift % 8 }
  function TrueLane(shift: nat): nat { shift / 8 % 2 }
  function TrueMarker(shift: nat): nat { (shift / 8 - TrueLane(shift) + VSYNC_BYTES) % N }

  /** Where TX byte o lies in the aligned ring, under a lock with this marker. */
  function TxIndex(marker: nat, o: nat): (j: nat)
    ensures j < N
    ensures o >= VSYNC_BYTES ==> j == AlignedOf(marker, o)
  {
    (marker + o + N - VSYNC_BYTES) % N
  }

  /** Decoding under the true lock undoes the shift and the byte swap. */
  lemma DecodeCarried(raw: seq<byte>, shift: nat, o: nat, value: byte)
    requires |raw| == N && o < N && shift < BITS && Carries(raw, shift, o, value)
    ensures DecodeAt(raw, TruePhase(shift), TrueLane(shift), TxIndex(TrueMarker(shift), o)) == value
  {
    var phase, lane, j := TruePhase(shift), TrueLane(shift), TxIndex(TrueMarker(shift), o);
    forall i: nat | i < 8 ensures Bit(DecodeAt(raw, phase, lane, j), i) == Bit(value, i) {
      DecodeBit(raw, phase, lane, j, i);
      TruePlace(shift, o, i);
      assert TxBit(raw, shift, o, i) == Bit(value, i);
    }
    SameBitsSameByte(DecodeAt(raw, phase, lane, j), value);
  }

  lemma TruePlace(shift: nat, o: nat, i: nat)
    requires o < N && shift < BITS && i < 8
    ensures (8 * (Swap(TxIndex(TrueMarker(shift), o) % N) + TrueLane(shift)) + TruePhase(shift) + i) % BITS
            == (8 * Swap(o) + i + shift) % BITS
  {
    var d := shift / 8 - TrueLane(shift);
    TrueIndex(shift, o);
    SwapShift(o, d);
    var j, q := (o + d) % N, 8 * Swap(o) + i + shift;
    ModSmall(j, N);
    var b := 8 * (Swap(j) + TrueLane(shift)) + TruePhase(shift) + i;
    assert b == q || b == q - BITS;
    SameMod(b, q);
  }

  lemma SameMod(b: nat, q: nat)
    requires b == q || b + BITS == q
    ensures b % BITS == q % BITS
  {
    var t, r := b / BITS, b % BITS;
    if b + BITS == q {
      assert q == (t + 1) * BITS + r;
      DivMod(q, BITS, t + 1, r);
    }
  }

  lemma TrueIndex(shift: nat, o: nat)
    requires o < N && shift < BITS
    ensures var d := shift / 8 - TrueLane(shift);
      0 <= d < N && d % 2 == 0 && TxIndex(TrueMarker(shift), o) == (o + d) % N
  {
    var d := shift / 8 - TrueLane(shift);
    assert TrueMarker(shift) == (d + VSYNC_BYTES) % N;
    IndexMod(d + VSYNC_BYTES, TrueMarker(shift), o);
  }

  lemma IndexMod(x: nat, m: nat, o: nat)
    requires VSYNC_BYTES <= x && m == x % N
    ensures (m + o + N - VSYNC_BYTES) % N == (x + o - VSYNC_BYTES) % N
  {
    var t, y := x / N, m + o + N - VSYNC_BYTES;
    assert x == t * N + m;
    var q, r := y / N, y % N;
    assert y == q * N + r;
    assert x + o - VSYNC_BYTES == (q + t - 1) * N + r;
    DivMod(x + o - VSYNC_BYTES, N, q + t - 1, r);
  }

  /** Swapping commutes with an even rotation. */
  lemma SwapShift(o: nat, d: nat)
    requires o < N && d < N && d % 2 == 0
    ensures Swap((o + d) % N) == (Swap(o) + d) % N
    ensures Swap((o + d) % N) == Swap(o) + d || Swap((o + d) % N) == Swap(o) + d - N
  {
  }

  // ---- Frames: what the lock search accepts ----
  predicate MarkerByteAt(raw: seq<byte>, phase: nat, lane: nat, m: nat, k: nat)
    requires |raw| == N && phase < 8 && k < HSYNC_BYTES
  {
    DecodeAt(raw, phase, lane, (m + k) % N) == HSYNC[k]
  }

  predicate MarkerAt(raw: seq<byte>, phase: nat, lane: nat, m: nat)
    requires |raw| == N && phase < 8
  {
    forall k: nat | k < HSYNC_BYTES :: MarkerByteAt(raw, phase, lane, m, k)
  }

  predicate LineMarkerAt(raw: seq<byte>, phase: nat, lane: nat, m: nat, line: nat)
    requires |raw| == N && phase < 8
  {
    MarkerAt(raw, phase, lane, m + line * LINE_STRIDE)
  }

  predicate ZeroBefore(raw: seq<byte>, phase: nat, lane: nat, m: nat, back: nat)
    requires |raw| == N && phase < 8 && back <= N
  {
    DecodeAt(raw, phase, lane, (m + N - back) % N) == 0
  }

  predicate TagByteAt(raw: seq<byte>, tag: seq<byte>, phase: nat, lane: nat, m: nat, k: nat)
    requires |raw| == N && |tag| == 4 && phase < 8 && k < 4
  {
    DecodeAt(raw, phase, lane, (m + HSYNC_BYTES + k) % N) == tag[k]
  }

  /** VSYNC zeros before the marker at m, a marker before every line and after
      the last, and the tag. */
  predicate ValidFrame(raw: seq<byte>, tag: seq<byte>, phase: nat, lane: nat, m: nat)
    requires |raw| == N && |tag| == 4 && phase < 8 && m < N
  {
    && MarkerAt(raw, phase, lane, m)
    && (forall back: nat | 1 <= back <= VSYNC_BYTES :: ZeroBefore(raw, phase, lane, m, back))
    && (forall line: nat | 1 <= line <= LINE_COUNT :: LineMarkerAt(raw, phase, lane, m, line))
    && (forall k: nat | k < 4 :: TagByteAt(raw, tag, phase, lane, m, k))
  }

  lemma CarriesZero(raw: seq<byte>, shift: nat, tag: seq<byte>, o: nat)
    requires |raw| == N && |tag| == 4 && Framed(raw, shift, tag) && o < VSYNC_BYTES
    ensures Carries(raw, shift, o, 0)
  {
    assert IsFixed(o) && FixedByte(o, tag) == 0;
  }

  lemma CarriesMarker(raw: seq<byte>, shift: nat, tag: seq<byte>, line: nat, k: nat)
    requires |raw| == N && |tag| == 4 && Framed(raw, shift, tag) && line <= LINE_COUNT && k < HSYNC_BYTES
    ensures VSYNC_BYTES + line * LINE_STRIDE + k < N
    ensures Carries(raw, shift, VSYNC_BYTES + line * LINE_STRIDE + k, HSYNC[k])
  {
    MarkerOffset(line, k, tag);
  }

  /** A framed ring holds its own frame at the true lock. */
  lemma TrueFrameValid(raw: seq<byte>, shift: nat, tag: seq<byte>)
    requires |raw| == N && |tag| == 4 && shift < BITS && Framed(raw, shift, tag)
    ensures ValidFrame(raw, tag, TruePhase(shift), TrueLane(shift), TrueMarker(shift))
  {
    var phase, lane, m := TruePhase(shift), TrueLane(shift), TrueMarker(shift);
    assert MarkerAt(raw, phase, lane, m) by {
      TrueMarkerAt(raw, shift, tag, 0);
      assert m + 0 * LINE_STRIDE == m;
    }
    forall line: nat | 1 <= line <= LINE_COUNT ensures LineMarkerAt(raw, phase, lane, m, line) {
      TrueMarkerAt(raw, shift, tag, line);
    }
    forall back: nat | 1 <= back <= VSYNC_BYTES ensures ZeroBefore(raw, phase, lane, m, back) {
      TrueZero(raw, shift, tag, back);
    }
    forall k: nat | k < 4 ensures TagByteAt(raw, tag, phase, lane, m, k) {
      TrueTagByte(raw, shift, tag, k);
    }
  }

  lemma TrueZero(raw: seq<byte>, shift: nat, tag: seq<byte>, back: nat)
    requires |raw| == N && |tag| == 4 && shift < BITS && Framed(raw, shift, tag)
    requires 1 <= back <= VSYNC_BYTES
    ensures ZeroBefore(raw, TruePhase(shift), TrueLane(shift), TrueMarker(shift), back)
  {
    DecodeFixed(raw, shift, tag, VSYNC_BYTES - back);
  }

  lemma TrueTagByte(raw: seq<byte>, shift: nat, tag: seq<byte>, k: nat)
    requires |raw| == N && |tag| == 4 && shift < BITS && Framed(raw, shift, tag) && k < 4
    ensures TagByteAt(raw, tag, TruePhase(shift), TrueLane(shift), TrueMarker(shift), k)
  {
    TagOffset(k, tag);
    Around(TrueMarker(shift) + HSYNC_BYTES + k);
    DecodeFixed(raw, shift, tag, OFF_TAG + k);
  }

  lemma Around(x: nat)
    ensures (x + N) % N == x % N
  {
  }

  lemma TagOffset(k: nat, tag: seq<byte>)
    requires k < 4 && |tag| == 4
    ensures IsFixed(OFF_TAG + k) && FixedByte(OFF_TAG + k, tag) == tag[k]
  {
  }

  lemma TrueMarkerByte(raw: seq<byte>, shift: nat, tag: seq<byte>, line: nat, k: nat)
    requires |raw| == N && |tag| == 4 && shift < BITS && Framed(raw, shift, tag)
    requires line <= LINE_COUNT && k < HSYNC_BYTES
    ensures MarkerByteAt(raw, TruePhase(shift), TrueLane(shift), TrueMarker(shift) + line * LINE_STRIDE, k)
  {
    MarkerOffset(line, k, tag);
    Around(TrueMarker(shift) + line * LINE_STRIDE + k);
    DecodeFixed(raw, shift, tag, VSYNC_BYTES + line * LINE_STRIDE + k);
  }

  lemma TrueMarkerAt(raw: seq<byte>, shift: nat, tag: seq<byte>, line: nat)
    requires |raw| == N && |tag| == 4 && shift < BITS && Framed(raw, shift, tag) && line <= LINE_COUNT
    ensures LineMarkerAt(raw, TruePhase(shift), TrueLane(shift), TrueMarker(shift), line)
  {
    var phase, lane, m := TruePhase(shift), TrueLane(shift), TrueMarker(shift) + line * LINE_STRIDE;
    forall k: nat | k < HSYNC_BYTES ensures MarkerByteAt(raw, phase, lane, m, k) {
      TrueMarkerByte(raw, shift, tag, line, k);
    }
  }

  lemma MarkerOffset(line: nat, k: nat, tag: seq<byte>)
    requires line <= LINE_COUNT && k < HSYNC_BYTES && |tag| == 4
    ensures var o := VSYNC_BYTES + line * LINE_STRIDE + k;
      o < N && IsFixed(o) && FixedByte(o, tag) == HSYNC[k]
  {
  }

  lemma DecodeFixed(raw: seq<byte>, shift: nat, tag: seq<byte>, o: nat)
    requires |raw| == N && |tag| == 4 && shift < BITS && Framed(raw, shift, tag) && o < N && IsFixed(o)
    ensures DecodeAt(raw, TruePhase(shift), TrueLane(shift), (TrueMarker(shift) + o + N - VSYNC_BYTES) % N)
            == FixedByte(o, tag)
  {
    assert Carries(raw, shift, o, FixedByte(o, tag));
    DecodeCarried(raw, shift, o, FixedByte(o, tag));
  }
}
