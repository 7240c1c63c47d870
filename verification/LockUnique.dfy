/** No frame but the true one: in a ring that carries a cycle's fixed bytes, the
    zeros of VSYNC followed by the markers can be decoded at one bit shift and
    one marker position only. Everything between the markers is arbitrary. */
module LockUnique {
  import opened Arith
  import opened ByteBits
  import opened Wire

  /** Bit b of the cycle as it goes over the wire, b counted from VSYNC's start. */
  predicate CycleBit(raw: seq<byte>, shift: nat, b: nat)
    requires |raw| == N
  {
    WireBit(raw, (b + shift) % BITS)
  }

  lemma CarriedBit(raw: seq<byte>, shift: nat, o: nat, value: byte, i: nat)
    requires |raw| == N && o < N && i < 8 && Carries(raw, shift, o, value)
    ensures CycleBit(raw, shift, 8 * Swap(o) + i) == Bit(value, i)
  {
    assert TxBit(raw, shift, o, i) == Bit(value, i);
  }

  // ---- Known ones and zeros ----

  lemma {:induction false} ZeroDigits(n: nat, i: nat)
    requires i < n
    ensures Digits(0, n)[i] == 0
  {
    if i < n - 1 {
      ZeroDigits(n - 1, i);
    }
  }

  lemma MarkerOnes()
    ensures Bit(HSYNC[0], 0) && Bit(HSYNC[1], 0) && Bit(HSYNC[6], 7)
  {
    TopBit(HSYNC[0]);
    LowBit(HSYNC[6]);
  }

  lemma VsyncBit(raw: seq<byte>, shift: nat, tag: seq<byte>, b: nat)
    requires |raw| == N && |tag| == 4 && Framed(raw, shift, tag) && b < 8 * VSYNC_BYTES
    ensures !CycleBit(raw, shift, b)
  {
    var o := Swap(b / 8);
    CarriesZero(raw, shift, tag, o);
    CarriedBit(raw, shift, o, 0, b % 8);
    ZeroDigits(8, b % 8);
    assert 8 * Swap(o) + b % 8 == b;
  }

  /** Bit i of a marker byte, at its place on the wire. */
  lemma MarkerBit(raw: seq<byte>, shift: nat, tag: seq<byte>, line: nat, k: nat, i: nat, b: nat)
    requires |raw| == N && |tag| == 4 && Framed(raw, shift, tag) && line <= LINE_COUNT && k < HSYNC_BYTES && i < 8
    requires b == 8 * Swap(VSYNC_BYTES + line * LINE_STRIDE + k) + i && Bit(HSYNC[k], i)
    ensures CycleBit(raw, shift, b)
  {
    CarriesMarker(raw, shift, tag, line, k);
    CarriedBit(raw, shift, VSYNC_BYTES + line * LINE_STRIDE + k, HSYNC[k], i);
  }

  /** Every marker starts with a one: after at most a line, another one. */
  lemma LineBit(raw: seq<byte>, shift: nat, tag: seq<byte>, line: nat)
    requires |raw| == N && |tag| == 4 && Framed(raw, shift, tag) && line <= LINE_COUNT
    ensures CycleBit(raw, shift, 8 * (VSYNC_BYTES + line * LINE_STRIDE))
  {
    EvenLine(line);
    MarkerOnes();
    MarkerBit(raw, shift, tag, line, 1, 0, 8 * (VSYNC_BYTES + line * LINE_STRIDE));
  }

  lemma EvenLine(line: nat)
    ensures Swap(VSYNC_BYTES + line * LINE_STRIDE + 1) == VSYNC_BYTES + line * LINE_STRIDE
  {
    assert line * LINE_STRIDE == 2 * (36 * line);
  }

  lemma SecondByteBit(raw: seq<byte>, shift: nat, tag: seq<byte>)
    requires |raw| == N && |tag| == 4 && Framed(raw, shift, tag)
    ensures CycleBit(raw, shift, 8 * VSYNC_BYTES + 8)
  {
    MarkerOnes();
    MarkerBit(raw, shift, tag, 0, 0, 0, 8 * VSYNC_BYTES + 8);
  }

  lemma LastBit(raw: seq<byte>, shift: nat, tag: seq<byte>)
    requires |raw| == N && |tag| == 4 && Framed(raw, shift, tag)
    ensures CycleBit(raw, shift, BITS - 1)
  {
    MarkerOnes();
    assert VSYNC_BYTES + LINE_COUNT * LINE_STRIDE + 6 == 466 && Swap(466) == 467;
    MarkerBit(raw, shift, tag, LINE_COUNT, 6, 7, BITS - 1);
  }

  /** A run of 98 zero bytes can only begin within VSYNC's first two bytes. */
  lemma OneSoon(raw: seq<byte>, shift: nat, tag: seq<byte>, s: nat) returns (k: nat)
    requires |raw| == N && |tag| == 4 && shift < BITS && Framed(raw, shift, tag) && 16 < s < BITS
    ensures k < 784 && CycleBit(raw, shift, (s + k) % BITS)
  {
    if s > 8 * (VSYNC_BYTES + LINE_COUNT * LINE_STRIDE) {
      k := BITS - 1 - s;
      LastBit(raw, shift, tag);
    } else {
      var line := if s <= 800 then 0 else (s - 800 + 575) / 576;
      LineBit(raw, shift, tag, line);
      k := 8 * (VSYNC_BYTES + line * LINE_STRIDE) - s;
    }
  }

  // ---- A frame's bits, in cycle order ----

  /** Where in the cycle wire byte w of the ring, read at (phase, lane), starts. */
  function StartBit(shift: nat, phase: nat, lane: nat, w: nat): (s: nat)
    requires shift < BITS
    ensures s < BITS
  {
    (8 * (w + lane) + phase + BITS - shift) % BITS
  }

  lemma DecodedCycleBit(raw: seq<byte>, shift: nat, phase: nat, lane: nat, j: nat, i: nat)
    requires |raw| == N && shift < BITS && phase < 8 && i < 8
    ensures Bit(DecodeAt(raw, phase, lane, j), i)
            == CycleBit(raw, shift, (StartBit(shift, phase, lane, Swap(j % N)) + i) % BITS)
  {
    DecodeBit(raw, phase, lane, j, i);
    var x := 8 * (Swap(j % N) + lane) + phase;
    ModShift(x, i, shift);
  }

  lemma ModShift(x: nat, i: nat, shift: nat)
    requires shift < BITS
    ensures (((x + BITS - shift) % BITS + i) % BITS + shift) % BITS == (x + i) % BITS
  {
  }

  /** Bit 8 * d + i after wire byte at is bit i of aligned byte j, if the swap
      of j is d bytes after at. */
  lemma FrameBit(raw: seq<byte>, shift: nat, phase: nat, lane: nat, at: nat, j: nat, d: nat, i: nat)
    requires |raw| == N && shift < BITS && phase < 8 && i < 8 && j < N
    requires Swap(j) == at + d || Swap(j) == at + d - N
    ensures Bit(DecodeAt(raw, phase, lane, j), i)
            == CycleBit(raw, shift, (StartBit(shift, phase, lane, at) + 8 * d + i) % BITS)
  {
    ModSmall(j, N);
    DecodedCycleBit(raw, shift, phase, lane, j, i);
    StartBitAdd(shift, phase, lane, at, Swap(j), d, i);
  }

  lemma StartBitAdd(shift: nat, phase: nat, lane: nat, at: nat, w: nat, d: nat, i: nat)
    requires shift < BITS && (w == at + d || w == at + d - N)
    ensures (StartBit(shift, phase, lane, w) + i) % BITS == (StartBit(shift, phase, lane, at) + 8 * d + i) % BITS
  {
    var x, y := 8 * (w + lane) + phase + BITS - shift, 8 * (at + lane) + phase + BITS - shift;
    ModPlus(x, i);
    ModPlus(y, 8 * d + i);
    assert x + i == y + 8 * d + i || x + i == y + 8 * d + i - BITS;
  }

  lemma ModPlus(x: nat, i: nat)
    ensures (x % BITS + i) % BITS == (x + i) % BITS
  {
  }

  /** The VSYNC zeros before the marker, 98 of them in one run at least. */
  lemma FrameZero(raw: seq<byte>, shift: nat, tag: seq<byte>, phase: nat, lane: nat, m: nat, at: nat, k: nat)
    requires |raw| == N && |tag| == 4 && shift < BITS && phase < 8 && m < N && ValidFrame(raw, tag, phase, lane, m)
    requires at == RunStart(m) && k < if m % 2 == 0 then 800 else 784
    ensures !CycleBit(raw, shift, (StartBit(shift, phase, lane, at) + k) % BITS)
  {
    var back := RunBack(m, k / 8);
    assert ZeroBefore(raw, phase, lane, m, back);
    ZeroByteBit(raw, shift, phase, lane, m, at, back, k / 8, k % 8);
    assert 8 * (k / 8) + k % 8 == k;
  }

  lemma ZeroByteBit(raw: seq<byte>, shift: nat, phase: nat, lane: nat, m: nat, at: nat, back: nat, d: nat, i: nat)
    requires |raw| == N && shift < BITS && phase < 8 && i < 8 && m < N && back <= N
    requires ZeroBefore(raw, phase, lane, m, back)
    requires Swap((m + N - back) % N) == at + d || Swap((m + N - back) % N) == at + d - N
    ensures !CycleBit(raw, shift, (StartBit(shift, phase, lane, at) + 8 * d + i) % BITS)
  {
    FrameBit(raw, shift, phase, lane, at, (m + N - back) % N, d, i);
    ZeroDigits(8, i);
  }

  /** The first wire byte of the longest run of whole zero samples before m. */
  function RunStart(m: nat): nat
    requires m < N
  {
    if m % 2 == 0 then m + N - 100 else m + N - 99
  }

  /** How far before m the w-th wire byte of that run is decoded. */
  function RunBack(m: nat, w: nat): (back: nat)
    requires m < N && w < if m % 2 == 0 then 100 else 98
    ensures 1 <= back <= 100
    ensures var s := Swap((m + N - back) % N); s == RunStart(m) + w || s == RunStart(m) + w - N
  {
    (if m % 2 == 0 then 100 else 99) - Swap(w)
  }

  lemma EarlyStart(raw: seq<byte>, shift: nat, sent: seq<byte>, tag: seq<byte>, phase: nat, lane: nat, m: nat, at: nat)
    requires |raw| == N && |tag| == 4 && |sent| == 4 && shift < BITS && phase < 8 && m < N
    requires Framed(raw, shift, sent) && ValidFrame(raw, tag, phase, lane, m)
    requires at == RunStart(m)
    ensures StartBit(shift, phase, lane, at) <= 16
  {
    var s := StartBit(shift, phase, lane, at);
    if s > 16 {
      var k := OneSoon(raw, shift, sent, s);
      FrameZero(raw, shift, tag, phase, lane, m, at, k);
      assert false;
    }
  }

  /** In an odd frame the run is 98 bytes; a marker byte follows, then a zero. */
  lemma OddFrame(raw: seq<byte>, shift: nat, tag: seq<byte>, phase: nat, lane: nat, m: nat, s: nat)
    requires |raw| == N && |tag| == 4 && shift < BITS && phase < 8 && m < N && m % 2 == 1
    requires ValidFrame(raw, tag, phase, lane, m)
    requires s == StartBit(shift, phase, lane, RunStart(m)) && s <= 16
    ensures CycleBit(raw, shift, s + 784) && !CycleBit(raw, shift, s + 792)
  {
    assert MarkerByteAt(raw, phase, lane, m, 0);
    OddMarkerByte(raw, shift, phase, lane, m, s);
    assert ZeroBefore(raw, phase, lane, m, 1);
    OddZeroByte(raw, shift, phase, lane, m, s);
  }

  lemma OddMarkerByte(raw: seq<byte>, shift: nat, phase: nat, lane: nat, m: nat, s: nat)
    requires |raw| == N && shift < BITS && phase < 8 && m < N && m % 2 == 1 && MarkerByteAt(raw, phase, lane, m, 0)
    requires s == StartBit(shift, phase, lane, RunStart(m)) && s <= 16
    ensures CycleBit(raw, shift, s + 784)
  {
    ModSmall(m, N);
    InRange(s + 784);
    FrameBit(raw, shift, phase, lane, RunStart(m), m, 98, 0);
    TopBit(HSYNC[0]);
  }

  lemma OddZeroByte(raw: seq<byte>, shift: nat, phase: nat, lane: nat, m: nat, s: nat)
    requires |raw| == N && shift < BITS && phase < 8 && m < N && m % 2 == 1 && ZeroBefore(raw, phase, lane, m, 1)
    requires s == StartBit(shift, phase, lane, RunStart(m)) && s <= 16
    ensures !CycleBit(raw, shift, s + 792)
  {
    DivMod(m + N - 1, N, 1, m - 1);
    InRange(s + 792);
    FrameBit(raw, shift, phase, lane, RunStart(m), m - 1, 99, 0);
    TopBit(0);
  }

  lemma InRange(b: nat)
    requires b < BITS
    ensures b % BITS == b
  {
  }

  /** The run after an odd frame's VSYNC does not fit a cycle. */
  lemma NoOddRun(raw: seq<byte>, shift: nat, tag: seq<byte>, s: nat)
    requires |raw| == N && |tag| == 4 && Framed(raw, shift, tag) && s <= 16
    requires CycleBit(raw, shift, s + 784)
    ensures s == 16 && CycleBit(raw, shift, s + 792)
  {
    SecondByteBit(raw, shift, tag);
    if s < 16 {
      VsyncBit(raw, shift, tag, s + 784);
      assert false;
    }
  }

  /** The marker of a frame is at an even place. */
  lemma EvenMarker(raw: seq<byte>, shift: nat, sent: seq<byte>, tag: seq<byte>, phase: nat, lane: nat, m: nat)
    requires |raw| == N && |tag| == 4 && |sent| == 4 && shift < BITS && phase < 8 && m < N
    requires Framed(raw, shift, sent) && ValidFrame(raw, tag, phase, lane, m)
    ensures m % 2 == 0
  {
    if m % 2 == 1 {
      var s := StartBit(shift, phase, lane, RunStart(m));
      EarlyStart(raw, shift, sent, tag, phase, lane, m, RunStart(m));
      OddFrame(raw, shift, tag, phase, lane, m, s);
      NoOddRun(raw, shift, sent, s);
      assert false;
    }
  }

  /** Soundness: whatever tag is looked for, a frame in a ring that carries a
      cycle's fixed bytes is that cycle, found at its true lock. */
  lemma UniqueFrame(raw: seq<byte>, shift: nat, sent: seq<byte>, tag: seq<byte>, phase: nat, lane: nat, m: nat)
    requires |raw| == N && |tag| == 4 && |sent| == 4 && shift < BITS && phase < 8 && lane < 2 && m < N
    requires Framed(raw, shift, sent) && ValidFrame(raw, tag, phase, lane, m)
    ensures phase == TruePhase(shift) && lane == TrueLane(shift) && m == TrueMarker(shift) && tag == sent
  {
    EvenMarker(raw, shift, sent, tag, phase, lane, m);
    var at := m + N - 100;
    var s := StartBit(shift, phase, lane, at);
    EarlyStart(raw, shift, sent, tag, phase, lane, m, at);
    assert s == 0 by {
      LineBit(raw, shift, sent, 0);
      if s > 0 {
        FrameZero(raw, shift, tag, phase, lane, m, at, 800 - s);
      }
    }
    SolveLock(shift, phase, lane, m);
    SameTag(raw, shift, sent, tag);
  }

  lemma SolveLock(shift: nat, phase: nat, lane: nat, m: nat)
    requires shift < BITS && phase < 8 && lane < 2 && m < N && m % 2 == 0
    requires StartBit(shift, phase, lane, m + N - 100) == 0
    ensures phase == TruePhase(shift) && lane == TrueLane(shift) && m == TrueMarker(shift)
  {
    var x := 8 * (m + N - 100 + lane) + phase;
    assert x % BITS == shift;
    assert shift == x || shift == x - BITS;
  }

  lemma SameTag(raw: seq<byte>, shift: nat, sent: seq<byte>, tag: seq<byte>)
    requires |raw| == N && |tag| == 4 && |sent| == 4 && shift < BITS && Framed(raw, shift, sent)
    requires ValidFrame(raw, tag, TruePhase(shift), TrueLane(shift), TrueMarker(shift))
    ensures tag == sent
  {
    var phase, lane, m := TruePhase(shift), TrueLane(shift), TrueMarker(shift);
    forall k: nat | k < 4 ensures tag[k] == sent[k] {
      TrueTagByte(raw, shift, sent, k);
      assert TagByteAt(raw, tag, phase, lane, m, k);
    }
  }

  /** The lock search's question, answered: a frame with this tag is in the ring
      if and only if this tag was sent, and then it is at the true lock only. */
  lemma FrameIffSent(raw: seq<byte>, shift: nat, sent: seq<byte>, tag: seq<byte>, phase: nat, lane: nat, m: nat)
    requires |raw| == N && |tag| == 4 && |sent| == 4 && shift < BITS && phase < 8 && lane < 2 && m < N
    requires Framed(raw, shift, sent)
    ensures ValidFrame(raw, tag, phase, lane, m)
            <==> tag == sent && phase == TruePhase(shift) && lane == TrueLane(shift) && m == TrueMarker(shift)
  {
    if ValidFrame(raw, tag, phase, lane, m) {
      UniqueFrame(raw, shift, sent, tag, phase, lane, m);
    }
    TrueFrameValid(raw, shift, sent);
  }
}
