/** A search before a whole cycle has come in: places of the ring that nothing has
    come in at still hold the filler. A frame found there is the true one all the
    same, as no filler byte can be part of its zeros or of the edge behind them. */
module LockEarly {
  import opened Arith
  import opened ByteBits
  import opened Wire
  import opened LockUnique

  /** What the ring is filled with at the start: 01011100. */
  const FILLER: byte := 0x5c

  lemma FillerBits()
    ensures !Bit(FILLER, 0) && Bit(FILLER, 1) && !Bit(FILLER, 2)
  {
    var high, low := [0, 1, 0, 1], [1, 1, 0, 0];
    ValueOfConcat(high, low);
    FourBits(0, 1, 0, 1);
    FourBits(1, 1, 0, 0);
    Sixteen();
    DigitsOfValue(high + low);
    BitsOf(FILLER, high + low);
  }

  /** Bits 1 and 2 of a byte of zeros and then ones. */
  lemma RisingByte(x: byte, one: bool, two: bool)
    requires Bit(x, 1) == one && Bit(x, 2) == two && (one ==> two)
    ensures x != FILLER
  {
    FillerBits();
  }

  lemma OtherFirst(x: byte)
    requires Bit(x, 0)
    ensures x != FILLER
  {
    FillerBits();
  }

  lemma OtherSecond(x: byte)
    requires !Bit(x, 1)
    ensures x != FILLER
  {
    FillerBits();
  }

  lemma ZeroBit(i: nat)
    requires i < 8
    ensures !Bit(0, i)
  {
    ZeroDigits(8, i);
  }

  lemma Sixteen()
    ensures Pow2(4) == 16
  {
  }

  lemma FourBits(a: nat, b: nat, c: nat, d: nat)
    ensures Value([a, b, c, d]) == 8 * a + 4 * b + 2 * c + d
  {
    assert [a, b, c, d][..3] == [a, b, c] && [a, b, c][..2] == [a, b] && [a, b][..1] == [a];
    assert Value([a]) == a && Value([a, b]) == 2 * a + b && Value([a, b, c]) == 4 * a + 2 * b + c;
  }

  lemma BitsOf(x: byte, d: seq<nat>)
    requires |d| == 8 && Digits(x, 8) == d
    ensures (Bit(x, 0) <==> d[0] == 1) && (Bit(x, 1) <==> d[1] == 1) && (Bit(x, 2) <==> d[2] == 1)
  {
  }

  // ---- A ring filled in part ----

  /** Wire byte of the ring that holds cycle bit b. */
  function BitByte(shift: nat, b: nat): (q: nat)
    ensures q < N
  {
    (b + shift) % BITS / 8
  }

  /** Cycle bit b is as the cycle's fixed bytes have it. */
  predicate Settled(raw: seq<byte>, shift: nat, tag: seq<byte>, b: nat)
    requires |raw| == N && |tag| == 4 && b < BITS
  {
    IsFixed(Swap(b / 8)) ==> CycleBit(raw, shift, b) == Bit(FixedByte(Swap(b / 8), tag), b % 8)
  }

  predicate FilledOrSettled(raw: seq<byte>, shift: nat, tag: seq<byte>, b: nat)
    requires |raw| == N && |tag| == 4 && b < BITS
  {
    raw[Swap(BitByte(shift, b))] == FILLER || Settled(raw, shift, tag, b)
  }

  /** Every byte of the ring is the filler or agrees with the fixed bytes. */
  ghost predicate PartFramed(raw: seq<byte>, shift: nat, tag: seq<byte>)
    requires |raw| == N && |tag| == 4
  {
    forall b: nat | b < BITS :: FilledOrSettled(raw, shift, tag, b)
  }

  // ---- Known bits of the cycle ----

  lemma FixedThere(raw: seq<byte>, shift: nat, tag: seq<byte>, b: nat, v: byte)
    requires |raw| == N && |tag| == 4 && b < BITS && Settled(raw, shift, tag, b)
    requires IsFixed(Swap(b / 8)) && FixedByte(Swap(b / 8), tag) == v
    ensures CycleBit(raw, shift, b) == Bit(v, b % 8)
  {
  }

  lemma ZeroThere(raw: seq<byte>, shift: nat, tag: seq<byte>, b: nat)
    requires |raw| == N && |tag| == 4 && b < 8 * VSYNC_BYTES && Settled(raw, shift, tag, b)
    ensures !CycleBit(raw, shift, b)
  {
    FixedThere(raw, shift, tag, b, 0);
    ZeroBit(b % 8);
  }

  /** Where a line's marker starts on the wire. */
  function LinePlace(line: nat): nat {
    8 * (VSYNC_BYTES + line * LINE_STRIDE)
  }

  lemma MarkerThere(raw: seq<byte>, shift: nat, tag: seq<byte>, line: nat)
    requires |raw| == N && |tag| == 4 && line <= LINE_COUNT
    requires LinePlace(line) < BITS && Settled(raw, shift, tag, LinePlace(line))
    ensures CycleBit(raw, shift, LinePlace(line))
  {
    LineSwap(line);
    MarkerOffset(line, 1, tag);
    FixedThere(raw, shift, tag, LinePlace(line), HSYNC[1]);
    TopBit(HSYNC[1]);
  }

  lemma LineSwap(line: nat)
    ensures Swap(LinePlace(line) / 8) == VSYNC_BYTES + line * LINE_STRIDE + 1 && LinePlace(line) % 8 == 0
  {
    var o := VSYNC_BYTES + line * LINE_STRIDE;
    EvenLine(line);
    SwapTwice(o + 1);
    DivMod(8 * o, 8, o, 0);
  }

  lemma SecondByteThere(raw: seq<byte>, shift: nat, tag: seq<byte>, line: nat, b: nat)
    requires |raw| == N && |tag| == 4 && line == 0 && b == 808 && Settled(raw, shift, tag, b)
    ensures CycleBit(raw, shift, b)
  {
    MarkerOffset(line, 0, tag);
    SecondSwap(line, b);
    FixedThere(raw, shift, tag, b, HSYNC[0]);
    TopBit(HSYNC[0]);
  }

  lemma SecondSwap(line: nat, b: nat)
    requires line == 0 && b == 808
    ensures Swap(b / 8) == VSYNC_BYTES + line * LINE_STRIDE + 0 && b % 8 == 0
  {
  }

  // ---- The bytes around the end of a frame's zero run ----

  /** How long the run of whole zero samples before the marker is, in bits. */
  function RunBits(m: nat): nat {
    if m % 2 == 0 then 800 else 784
  }

  /** Bit k from the run's start: a zero within the run, a one in the byte after it. */
  lemma RunBit(raw: seq<byte>, shift: nat, tag: seq<byte>, phase: nat, lane: nat, m: nat, k: nat)
    requires |raw| == N && |tag| == 4 && shift < BITS && phase < 8 && m < N && ValidFrame(raw, tag, phase, lane, m)
    requires k < RunBits(m) + 8
    ensures CycleBit(raw, shift, (StartBit(shift, phase, lane, RunStart(m)) + k) % BITS) <==> k >= RunBits(m)
  {
    if k < RunBits(m) {
      FrameZero(raw, shift, tag, phase, lane, m, RunStart(m), k);
    } else {
      AfterRun(raw, phase, lane, tag, m);
      OneByteBit(raw, shift, phase, lane, RunStart(m), EdgeIndex(m), RunBits(m) / 8, k - RunBits(m));
    }
  }

  /** The aligned index of that byte, and its place behind the run. */
  function EdgeIndex(m: nat): (j: nat)
    requires m < N
    ensures j < N
    ensures Swap(j) == RunStart(m) + RunBits(m) / 8 - N
  {
    if m % 2 == 0 then m + 1 else m
  }

  lemma AfterRun(raw: seq<byte>, phase: nat, lane: nat, tag: seq<byte>, m: nat)
    requires |raw| == N && |tag| == 4 && phase < 8 && m < N && ValidFrame(raw, tag, phase, lane, m)
    ensures DecodeAt(raw, phase, lane, EdgeIndex(m)) == 0xff
  {
    ModSmall(EdgeIndex(m), N);
    if m % 2 == 0 {
      assert MarkerByteAt(raw, phase, lane, m, 1);
    } else {
      assert MarkerByteAt(raw, phase, lane, m, 0);
    }
  }

  lemma OneByteBit(raw: seq<byte>, shift: nat, phase: nat, lane: nat, at: nat, j: nat, d: nat, i: nat)
    requires |raw| == N && shift < BITS && phase < 8 && i < 8 && j < N && DecodeAt(raw, phase, lane, j) == 0xff
    requires Swap(j) == at + d || Swap(j) == at + d - N
    ensures CycleBit(raw, shift, (StartBit(shift, phase, lane, at) + 8 * d + i) % BITS)
  {
    FrameBit(raw, shift, phase, lane, at, j, d, i);
    AllOnes(i);
  }

  /** Behind an odd frame's first marker byte come zeros again. */
  lemma AfterOdd(raw: seq<byte>, shift: nat, tag: seq<byte>, phase: nat, lane: nat, m: nat, k: nat)
    requires |raw| == N && |tag| == 4 && shift < BITS && phase < 8 && m < N && ValidFrame(raw, tag, phase, lane, m)
    requires m % 2 == 1 && 792 <= k < 800
    ensures !CycleBit(raw, shift, (StartBit(shift, phase, lane, RunStart(m)) + k) % BITS)
  {
    assert ZeroBefore(raw, phase, lane, m, 1);
    OddBefore(m);
    ZeroByteBit(raw, shift, phase, lane, m, RunStart(m), 1, 99, k - 792);
  }

  lemma OddBefore(m: nat)
    requires m < N && m % 2 == 1
    ensures Swap((m + N - 1) % N) == RunStart(m) + 99 - N
  {
    DivMod(m + N - 1, N, 1, m - 1);
  }

  /** Bit k of the run lies at bit (phase + k) % 8 of the (phase + k) / 8-th byte. */
  lemma RunPlace(shift: nat, phase: nat, lane: nat, at: nat, k: nat)
    requires shift < BITS && phase < 8
    ensures var b := (StartBit(shift, phase, lane, at) + k) % BITS;
      BitByte(shift, b) == (at + lane + (phase + k) / 8) % N && (b + shift) % BITS % 8 == (phase + k) % 8
  {
    var x, w := 8 * (at + lane) + phase, at + lane + (phase + k) / 8;
    ModShift(x, k, shift);
    assert x + k == 8 * w + (phase + k) % 8;
    BitPlace(w, (phase + k) % 8);
  }

  /** Bit e of the t-th byte from the run's start is a bit of that ring byte. */
  lemma ByteOfRun(raw: seq<byte>, shift: nat, phase: nat, lane: nat, at: nat, t: nat, e: nat)
    requires |raw| == N && shift < BITS && phase < 8 && t >= 1 && e < 8
    ensures Bit(raw[Swap((at + lane + t) % N)], e)
            == CycleBit(raw, shift, (StartBit(shift, phase, lane, at) + (8 * t - phase + e)) % BITS)
  {
    var k := 8 * t - phase + e;
    RunPlace(shift, phase, lane, at, k);
    DivMod(phase + k, 8, t, e);
  }

  /** No byte of the run behind its first, nor the byte in which it ends, is the
      filler: its bits are zeros and then ones. */
  lemma NotFiller(raw: seq<byte>, shift: nat, tag: seq<byte>, phase: nat, lane: nat, m: nat, t: nat)
    requires |raw| == N && |tag| == 4 && shift < BITS && phase < 8 && m < N && ValidFrame(raw, tag, phase, lane, m)
    requires 1 <= t <= (phase + RunBits(m)) / 8
    ensures raw[Swap((RunStart(m) + lane + t) % N)] != FILLER
  {
    var at, s, k := RunStart(m), StartBit(shift, phase, lane, RunStart(m)), 8 * t - phase;
    ByteOfRun(raw, shift, phase, lane, at, t, 1);
    ByteOfRun(raw, shift, phase, lane, at, t, 2);
    RunBit(raw, shift, tag, phase, lane, m, k + 1);
    RunBit(raw, shift, tag, phase, lane, m, k + 2);
    RisingByte(raw[Swap((at + lane + t) % N)], CycleBit(raw, shift, (s + (k + 1)) % BITS),
               CycleBit(raw, shift, (s + (k + 2)) % BITS));
  }

  /** Nor is the byte in which an odd frame's first marker byte ends: its bits are
      ones and then zeros. */
  lemma NotFillerAfter(raw: seq<byte>, shift: nat, tag: seq<byte>, phase: nat, lane: nat, m: nat, t: nat)
    requires |raw| == N && |tag| == 4 && shift < BITS && phase < 8 && m < N && ValidFrame(raw, tag, phase, lane, m)
    requires m % 2 == 1 && t == 99
    ensures raw[Swap((RunStart(m) + lane + t) % N)] != FILLER
  {
    var at, k := RunStart(m), 8 * t - phase;
    if phase == 0 {
      ByteOfRun(raw, shift, phase, lane, at, t, 1);
      AfterOdd(raw, shift, tag, phase, lane, m, k + 1);
      OtherSecond(raw[Swap((at + lane + t) % N)]);
    } else {
      ByteOfRun(raw, shift, phase, lane, at, t, 0);
      RunBit(raw, shift, tag, phase, lane, m, k + 0);
      OtherFirst(raw[Swap((at + lane + t) % N)]);
    }
  }

  /** Bit k from s on is settled, and a one if k is end. */
  predicate SettledAs(raw: seq<byte>, shift: nat, tag: seq<byte>, s: nat, k: nat, end: nat)
    requires |raw| == N && |tag| == 4
  {
    Settled(raw, shift, tag, (s + k) % BITS) && CycleBit(raw, shift, (s + k) % BITS) == (k == end)
  }

  lemma PlaceSettled(raw: seq<byte>, shift: nat, tag: seq<byte>, b: nat)
    requires |raw| == N && |tag| == 4 && b < BITS && PartFramed(raw, shift, tag)
    requires raw[Swap(BitByte(shift, b))] != FILLER
    ensures Settled(raw, shift, tag, b)
  {
    assert FilledOrSettled(raw, shift, tag, b);
  }

  lemma RunSettled(raw: seq<byte>, shift: nat, sent: seq<byte>, tag: seq<byte>, phase: nat, lane: nat, m: nat, k: nat)
    requires |raw| == N && |tag| == 4 && |sent| == 4 && shift < BITS && phase < 8 && m < N
    requires PartFramed(raw, shift, sent) && ValidFrame(raw, tag, phase, lane, m)
    requires 8 <= k <= RunBits(m)
    ensures SettledAs(raw, shift, sent, StartBit(shift, phase, lane, RunStart(m)), k, RunBits(m))
  {
    var s := StartBit(shift, phase, lane, RunStart(m));
    RunPlace(shift, phase, lane, RunStart(m), k);
    NotFiller(raw, shift, tag, phase, lane, m, (phase + k) / 8);
    PlaceSettled(raw, shift, sent, (s + k) % BITS);
    RunBit(raw, shift, tag, phase, lane, m, k);
  }

  /** Behind an odd frame's marker byte, too. */
  lemma OddSettled(raw: seq<byte>, shift: nat, sent: seq<byte>, tag: seq<byte>, phase: nat, lane: nat, m: nat, k: nat)
    requires |raw| == N && |tag| == 4 && |sent| == 4 && shift < BITS && phase < 8 && m < N && m % 2 == 1
    requires PartFramed(raw, shift, sent) && ValidFrame(raw, tag, phase, lane, m) && k == 792
    ensures SettledAs(raw, shift, sent, StartBit(shift, phase, lane, RunStart(m)), k, 784)
  {
    var s := StartBit(shift, phase, lane, RunStart(m));
    RunPlace(shift, phase, lane, RunStart(m), k);
    OddByte(phase, k);
    NotFillerAfter(raw, shift, tag, phase, lane, m, 99);
    PlaceSettled(raw, shift, sent, (s + k) % BITS);
    AfterOdd(raw, shift, tag, phase, lane, m, k);
  }

  lemma OddByte(phase: nat, k: nat)
    requires phase < 8 && k == 792
    ensures (phase + k) / 8 == 99
  {
    DivMod(phase + k, 8, 99, phase);
  }

  // ---- The frame is the true one ----

  /** The last marker that starts before e. */
  function LineBefore(e: nat): (line: nat)
    requires 800 < e < BITS
    ensures line <= LINE_COUNT && LinePlace(line) < e <= LinePlace(line) + 576
  {
    if e > 3680 then 5 else (e - 801) / 576
  }

  lemma ZeroAs(raw: seq<byte>, shift: nat, tag: seq<byte>, s: nat, k: nat, end: nat)
    requires |raw| == N && |tag| == 4 && SettledAs(raw, shift, tag, s, k, end) && (s + k) % BITS < 800
    ensures k != end
  {
    ZeroThere(raw, shift, tag, (s + k) % BITS);
  }

  lemma MarkerAs(raw: seq<byte>, shift: nat, tag: seq<byte>, s: nat, k: nat, end: nat, line: nat)
    requires |raw| == N && |tag| == 4 && SettledAs(raw, shift, tag, s, k, end)
    requires line <= LINE_COUNT && LinePlace(line) == (s + k) % BITS
    ensures k == end
  {
    MarkerThere(raw, shift, tag, line);
  }

  /** Where a run of 776 settled zeros can end with a settled one. */
  lemma RunEnds(raw: seq<byte>, shift: nat, sent: seq<byte>, s: nat, run: nat, e: nat)
    requires |raw| == N && |sent| == 4 && s < BITS && 784 <= run <= 800 && e == (s + run) % BITS
    requires forall k: nat | run - 776 <= k <= run :: SettledAs(raw, shift, sent, s, k, run)
    ensures e == 800
  {
    if e < 800 {
      ZeroAs(raw, shift, sent, s, run, run);
    } else if e > 800 {
      var line := LineBefore(e);
      var d := e - LinePlace(line);
      BackFrom(s, run, e, d);
      MarkerAs(raw, shift, sent, s, run - d, run, line);
    }
  }

  lemma BackFrom(s: nat, run: nat, e: nat, d: nat)
    requires s < BITS && run < BITS && e == (s + run) % BITS && d <= e && d <= run
    ensures (s + (run - d)) % BITS == e - d
  {
    if s + run < BITS {
      ModSmall(s + run, BITS);
      ModSmall(s + run - d, BITS);
    } else {
      DivMod(s + run, BITS, 1, s + run - BITS);
      DivMod(s + run - d, BITS, 1, e - d);
    }
  }

  lemma RunAtMarker(raw: seq<byte>, shift: nat, sent: seq<byte>, tag: seq<byte>, phase: nat, lane: nat, m: nat)
    requires |raw| == N && |tag| == 4 && |sent| == 4 && shift < BITS && phase < 8 && m < N
    requires PartFramed(raw, shift, sent) && ValidFrame(raw, tag, phase, lane, m)
    ensures StartBit(shift, phase, lane, RunStart(m)) == 800 - RunBits(m)
  {
    var s, run := StartBit(shift, phase, lane, RunStart(m)), RunBits(m);
    forall k: nat | run - 776 <= k <= run ensures SettledAs(raw, shift, sent, s, k, run) {
      RunSettled(raw, shift, sent, tag, phase, lane, m, k);
    }
    RunEnds(raw, shift, sent, s, run, (s + run) % BITS);
    BackTo(s, run);
  }

  lemma BackTo(s: nat, run: nat)
    requires s < BITS && run <= 800 && (s + run) % BITS == 800
    ensures s == 800 - run
  {
  }

  lemma EvenInPart(raw: seq<byte>, shift: nat, sent: seq<byte>, tag: seq<byte>, phase: nat, lane: nat, m: nat)
    requires |raw| == N && |tag| == 4 && |sent| == 4 && shift < BITS && phase < 8 && m < N
    requires PartFramed(raw, shift, sent) && ValidFrame(raw, tag, phase, lane, m)
    ensures m % 2 == 0
  {
    if m % 2 == 1 {
      RunAtMarker(raw, shift, sent, tag, phase, lane, m);
      OddSettled(raw, shift, sent, tag, phase, lane, m, 792);
      ModSmall(808, BITS);
      SecondByteThere(raw, shift, sent, 0, 808);
      assert false;
    }
  }

  /** Soundness at any time: a frame found is at the true lock, and the byte in
      which its zeros end has come in. */
  lemma UniqueInPart(raw: seq<byte>, shift: nat, sent: seq<byte>, tag: seq<byte>, phase: nat, lane: nat, m: nat)
    requires |raw| == N && |tag| == 4 && |sent| == 4 && shift < BITS && phase < 8 && lane < 2 && m < N
    requires PartFramed(raw, shift, sent) && ValidFrame(raw, tag, phase, lane, m)
    ensures phase == TruePhase(shift) && lane == TrueLane(shift) && m == TrueMarker(shift)
    ensures raw[Swap(BitByte(shift, 800))] != FILLER
  {
    EvenInPart(raw, shift, sent, tag, phase, lane, m);
    RunAtMarker(raw, shift, sent, tag, phase, lane, m);
    SolveLock(shift, phase, lane, m);
    RunPlace(shift, phase, lane, RunStart(m), 800);
    NotFiller(raw, shift, tag, phase, lane, m, (phase + 800) / 8);
  }
}
