/** The wire code that fills arrays in loops: the payload runs, the cycle
    template, the transmission model, the lock search and the payload decode. */
module WireCodec {
  import opened ByteBits
  import opened Wire

  // ---- The payload runs ----
  datatype Run = Run(offset: nat, length: nat)

  /** The TX offset of payload byte k. */
  function PayloadOffset(k: nat): (o: nat)
    requires k < PAYLOAD_BYTES
    ensures OFF_PAYLOAD <= o < OFF_CRC && !IsFixed(o)
  {
    if k < 56 then OFF_PAYLOAD + k else LineStart((k - 56) / LINE_BYTES + 1) + (k - 56) % LINE_BYTES
  }

  /** The payload's offsets are those between the stamps that are not fixed, in order. */
  lemma PayloadPlaces(o: nat) returns (k: nat)
    requires OFF_PAYLOAD <= o < OFF_CRC && !IsFixed(o)
    ensures k < PAYLOAD_BYTES && PayloadOffset(k) == o
  {
    var line, at := (o - VSYNC_BYTES) / LINE_STRIDE, (o - VSYNC_BYTES) % LINE_STRIDE;
    assert o == VSYNC_BYTES + LINE_STRIDE * line + at && at >= HSYNC_BYTES && line < LINE_COUNT;
    if line == 0 {
      k := o - OFF_PAYLOAD;
    } else {
      k := 56 + LINE_BYTES * (line - 1) + (at - HSYNC_BYTES);
      assert (k - 56) / LINE_BYTES == line - 1 && (k - 56) % LINE_BYTES == at - HSYNC_BYTES;
    }
  }

  lemma PayloadAscends(j: nat, k: nat)
    requires j < k < PAYLOAD_BYTES
    ensures PayloadOffset(j) < PayloadOffset(k)
  {
    if j >= 56 {
      var x, y := j - 56, k - 56;
      assert x == x / LINE_BYTES * LINE_BYTES + x % LINE_BYTES && y == y / LINE_BYTES * LINE_BYTES + y % LINE_BYTES;
      assert x / LINE_BYTES <= y / LINE_BYTES;
    }
  }

  function RunLength(line: nat): nat {
    if line == 0 || line == LINE_COUNT - 1 then 56 else LINE_BYTES
  }

  /** How many payload bytes lie before a line's run. */
  function RunBase(line: nat): nat {
    if line == 0 then 0 else RunBase(line - 1) + RunLength(line - 1)
  }

  lemma RunBases()
    ensures RunBase(0) == 0 && RunBase(1) == 56 && RunBase(2) == 120 && RunBase(3) == 184
    ensures RunBase(4) == 248 && RunBase(5) == PAYLOAD_BYTES
  {
    assert RunBase(2) == RunBase(1) + 64 && RunBase(4) == RunBase(3) + 64;
  }

  predicate IsRun(run: Run, line: nat)
    requires line < LINE_COUNT
  {
    RunBases();
    run.length == RunLength(line) && run.offset == PayloadOffset(RunBase(line))
  }

  predicate AreRuns(runs: seq<Run>, count: nat)
    requires count <= LINE_COUNT
  {
    count <= |runs| && forall line: nat | line < count :: IsRun(runs[line], line)
  }

  /** A run is a piece of the payload, in order. */
  lemma RunByte(run: Run, line: nat, k: nat)
    requires line < LINE_COUNT && IsRun(run, line) && k < run.length
    ensures RunBase(line) + k < PAYLOAD_BYTES
    ensures run.offset + k == PayloadOffset(RunBase(line) + k)
  {
    RunBases();
    if line == 0 {} else if line == 1 {} else if line == 2 {} else if line == 3 {} else {}
  }

  /** The runs cover the payload once. */
  method RunsInit(runs: array<Run>) returns (total: nat)
    requires runs.Length == LINE_COUNT
    modifies runs
    ensures AreRuns(runs[..], LINE_COUNT)
    ensures total == PAYLOAD_BYTES
  {
    total := 0;
    RunBases();
    var line := 0;
    while line < LINE_COUNT
      invariant 0 <= line <= LINE_COUNT
      invariant AreRuns(runs[..], line)
      invariant total == RunBase(line)
    {
      var first := LineStart(line);
      var end := first + LINE_BYTES;
      if line == 0 {
        first := OFF_PAYLOAD;
      }
      if line == LINE_COUNT - 1 {
        end := OFF_CRC;
      }
      RunEnds(line, first, end);
      runs[line] := Run(first, end - first);
      total := total + (end - first);
      line := line + 1;
    }
  }

  lemma RunEnds(line: nat, first: nat, end: nat)
    requires line < LINE_COUNT
    requires first == if line == 0 then OFF_PAYLOAD else LineStart(line)
    requires end == if line == LINE_COUNT - 1 then OFF_CRC else LineStart(line) + LINE_BYTES
    ensures end > first && IsRun(Run(first, end - first), line)
  {
    RunBases();
    if line == 0 {} else if line == 1 {} else if line == 2 {} else if line == 3 {} else {}
  }

  // ---- The cycle template ----
  ghost predicate IsCycle(tx: seq<byte>, tag: seq<byte>) {
    && |tx| == N && |tag| == 4
    && forall o: nat {:trigger IsFixed(o)} | o < N && IsFixed(o) :: tx[o] == FixedByte(o, tag)
  }

  method WireCycleInit(out: array<byte>, tag: seq<byte>)
    requires out.Length == N && |tag| == 4
    modifies out
    ensures IsCycle(out[..], tag)
    ensures forall o: nat | o < N && !IsFixed(o) :: out[o] == 0
  {
    forall o | 0 <= o < N {
      out[o] := 0;
    }
    var line := 0;
    while line <= LINE_COUNT
      invariant 0 <= line <= LINE_COUNT + 1
      invariant forall o: nat | o < N ::
        out[o] ==
          if IsMarker(o) && o < VSYNC_BYTES + line * LINE_STRIDE then HSYNC[(o - VSYNC_BYTES) % LINE_STRIDE] else 0
    {
      var at := LineStart(line) - HSYNC_BYTES;
      forall k | 0 <= k < HSYNC_BYTES {
        out[at + k] := HSYNC[k];
      }
      line := line + 1;
    }
    forall k | 0 <= k < 4 {
      out[OFF_TAG + k] := tag[k];
    }
  }

  // ---- Transmission ----

  /** Wire byte q as received: the sent bit stream, shift bits late. */
  function Received(wire: seq<byte>, shift: nat, q: nat): byte
    requires |wire| == N && shift < BITS && q < N
  {
    var bit := (8 * q + BITS - shift) % BITS;
    Splice(wire[bit / 8], wire[(bit / 8 + 1) % N], bit % 8)
  }

  /** The bytes of a cycle in the order they go over the wire. */
  method WireBytes(tx: array<byte>) returns (wire: array<byte>)
    requires tx.Length == N
    ensures fresh(wire) && wire.Length == N
    ensures forall o: nat {:trigger tx[o]} | o < N :: wire[Swap(o)] == tx[o]
  {
    wire := new byte[N];
    var k := 0;
    while k < N
      invariant 0 <= k <= N
      invariant forall w: nat {:trigger wire[w]} | w < k :: wire[w] == tx[Swap(w)]
    {
      wire[k] := tx[Swap(k)];
      k := k + 1;
    }
    forall o: nat | o < N ensures wire[Swap(o)] == tx[o] {
      assert Swap(Swap(o)) == o;
    }
  }

  /** One cycle as the RX DMA sees it: every sent bit arrives, shift bits late. */
  method Transmit(tx: array<byte>, rx: array<byte>, shift: nat)
    requires tx.Length == N && rx.Length == N && tx != rx && shift < BITS
    modifies rx
    ensures forall o: nat | o < N :: Carries(rx[..], shift, o, tx[o])
  {
    var wire := WireBytes(tx);
    ReceiveBytes(wire, rx, shift);
    assert forall o: nat {:trigger tx[..][o]} | o < N :: wire[..][Swap(o)] == tx[..][o];
    ReceivedAll(tx[..], wire[..], rx[..], shift);
  }

  method ReceiveBytes(wire: array<byte>, rx: array<byte>, shift: nat)
    requires wire.Length == N && rx.Length == N && wire != rx && shift < BITS
    modifies rx
    ensures IsReceived(wire[..], rx[..], shift)
  {
    ghost var sent := wire[..];
    var q := 0;
    while q < N
      invariant 0 <= q <= N
      invariant wire[..] == sent
      invariant forall m: nat {:trigger rx[m]} | m < N && Swap(m) < q :: rx[m] == Received(sent, shift, Swap(m))
    {
      assert Swap(Swap(q)) == q;
      var b := ReceiveByte(wire, shift, q);
      rx[Swap(q)] := b;
      q := q + 1;
    }
  }

  /** The bits of wire byte q, from two bytes of the sent stream. */
  method ReceiveByte(wire: array<byte>, shift: nat, q: nat) returns (b: byte)
    requires wire.Length == N && shift < BITS && q < N
    ensures b == Received(wire[..], shift, q)
  {
    var bit := (8 * q + BITS - shift) % BITS;
    var high, low := wire[bit / 8], wire[(bit / 8 + 1) % N];
    b := Splice(high, low, bit % 8);
  }

  lemma ReceivedAll(tx: seq<byte>, wire: seq<byte>, rx: seq<byte>, shift: nat)
    requires |tx| == N && |wire| == N && |rx| == N && shift < BITS && IsReceived(wire, rx, shift)
    requires forall o: nat {:trigger tx[o]} | o < N :: wire[Swap(o)] == tx[o]
    ensures forall o: nat | o < N :: Carries(rx, shift, o, tx[o])
  {
    forall o: nat | o < N ensures Carries(rx, shift, o, tx[o]) {
      ReceivedCarries(tx, wire, rx, shift, o);
    }
  }

  ghost predicate IsReceived(wire: seq<byte>, rx: seq<byte>, shift: nat)
    requires |wire| == N && |rx| == N && shift < BITS
  {
    forall m: nat | m < N :: rx[m] == Received(wire, shift, Swap(m))
  }

  lemma ReceivedCarries(tx: seq<byte>, wire: seq<byte>, rx: seq<byte>, shift: nat, o: nat)
    requires |tx| == N && |wire| == N && |rx| == N && shift < BITS && o < N
    requires wire[Swap(o)] == tx[o]
    requires IsReceived(wire, rx, shift)
    ensures Carries(rx, shift, o, tx[o])
  {
    forall i: nat | i < 8 ensures TxBit(rx, shift, o, i) == Bit(tx[o], i) {
      var p := (8 * Swap(o) + i + shift) % BITS;
      ReceivedAt(wire, rx, shift, p / 8);
      ReceivedBit(wire, shift, Swap(o), i, p);
    }
  }

  lemma ReceivedAt(wire: seq<byte>, rx: seq<byte>, shift: nat, q: nat)
    requires |wire| == N && |rx| == N && shift < BITS && q < N && IsReceived(wire, rx, shift)
    ensures rx[Swap(q)] == Received(wire, shift, q)
  {
    SwapTwice(q);
  }

  lemma ReceivedBit(wire: seq<byte>, shift: nat, w: nat, i: nat, p: nat)
    requires |wire| == N && shift < BITS && w < N && i < 8 && p == (8 * w + i + shift) % BITS
    ensures Bit(Received(wire, shift, p / 8), p % 8) == Bit(wire[w], i)
  {
    var bit := (8 * (p / 8) + BITS - shift) % BITS;
    BackPlace(shift, w, i, p % 8, bit);
    SpliceAt(wire[bit / 8], wire[(bit / 8 + 1) % N], bit % 8, p % 8, i, wire[w]);
  }

  lemma SpliceAt(high: byte, low: byte, phase: nat, e: nat, i: nat, value: byte)
    requires phase < 8 && e < 8 && i < 8
    requires if i >= e then high == value && phase == i - e else low == value && phase == i - e + 8
    ensures Bit(Splice(high, low, phase), e) == Bit(value, i)
  {
    SpliceBit(high, low, phase, e);
  }

  lemma BackPlace(shift: nat, w: nat, i: nat, e: nat, bit: nat)
    requires shift < BITS && w < N && i < 8 && e == (8 * w + i + shift) % BITS % 8
    requires bit == (8 * ((8 * w + i + shift) % BITS / 8) + BITS - shift) % BITS
    ensures if i >= e then bit / 8 == w && bit % 8 == i - e
            else (bit / 8 + 1) % N == w && bit % 8 == i - e + 8
  {
    var p := (8 * w + i + shift) % BITS;
    assert 8 * (p / 8) == p - e;
    assert p == 8 * w + i + shift || p == 8 * w + i + shift - BITS;
    var b := 8 * w + i - e;
    assert bit == (if b >= 0 then b else b + BITS) by {
      BitsMod(p - e + BITS - shift, b);
    }
  }

  lemma BitsMod(x: int, b: int)
    requires -8 < b < BITS && (x == b || x == b + BITS)
    ensures x % BITS == if b >= 0 then b else b + BITS
  {
  }

  // ---- Words: little-endian, 32 bits ----
  type word = x: int | 0 <= x < 0x1_0000_0000

  /** Byte k of a word in memory. */
  function LeByte(x: word, k: nat): byte
    requires k < 4
  {
    if k == 0 then x % 256 else if k == 1 then x / 256 % 256 else if k == 2 then x / 65536 % 256 else x / 16777216
  }

  function FromLe(b0: byte, b1: byte, b2: byte, b3: byte): word {
    b0 + 256 * b1 + 65536 * b2 + 16777216 * b3
  }

  lemma WordRoundTrip(x: word)
    ensures FromLe(LeByte(x, 0), LeByte(x, 1), LeByte(x, 2), LeByte(x, 3)) == x
  {
    var a, b := x / 256, x / 65536;
    assert b == a / 256 && x / 16777216 == b / 256;
  }

  lemma BytesOfWord(b0: byte, b1: byte, b2: byte, b3: byte)
    ensures var x := FromLe(b0, b1, b2, b3);
      LeByte(x, 0) == b0 && LeByte(x, 1) == b1 && LeByte(x, 2) == b2 && LeByte(x, 3) == b3
  {
    var x := FromLe(b0, b1, b2, b3);
    assert x / 256 == b1 + 256 * b2 + 65536 * b3;
    assert x / 65536 == b2 + 256 * b3;
  }

  /** The word at offset o of a cycle. */
  ghost predicate HasWord(tx: seq<byte>, o: nat, x: word)
    requires o + 4 <= |tx|
  {
    forall k: nat | k < 4 :: tx[o + k] == LeByte(x, k)
  }

  /** The word a ring decodes to at a TX offset, under a lock. */
  function DecodeU32(raw: seq<byte>, phase: nat, lane: nat, marker: nat, offset: nat): word
    requires |raw| == N && phase < 8 && offset >= VSYNC_BYTES
  {
    var j := AlignedOf(marker, offset);
    FromLe(DecodeAt(raw, phase, lane, j), DecodeAt(raw, phase, lane, j + 1),
           DecodeAt(raw, phase, lane, j + 2), DecodeAt(raw, phase, lane, j + 3))
  }

  /** Aligned bytes that follow j are TX bytes that follow offset. */
  lemma NextAligned(marker: nat, offset: nat, k: nat)
    requires offset >= VSYNC_BYTES
    ensures (AlignedOf(marker, offset) + k) % N == AlignedOf(marker, offset + k)
  {
    ModPlusN(marker + offset - VSYNC_BYTES, k);
  }

  lemma ModPlusN(x: nat, k: nat)
    ensures (x % N + k) % N == (x + k) % N
  {
  }

  lemma DecodeMod(raw: seq<byte>, phase: nat, lane: nat, j: nat)
    requires |raw| == N && phase < 8
    ensures DecodeAt(raw, phase, lane, j) == DecodeAt(raw, phase, lane, j % N)
  {
    SameRest(j % N);
  }

  lemma SameRest(x: nat)
    requires x < N
    ensures x % N == x
  {
  }

  /** TX byte o of a ring decoded at offset o - k, k bytes on. */
  lemma DecodeNext(raw: seq<byte>, shift: nat, offset: nat, k: nat, value: byte)
    requires |raw| == N && shift < BITS && offset >= VSYNC_BYTES && offset + k < N
    requires Carries(raw, shift, offset + k, value)
    ensures DecodeAt(raw, TruePhase(shift), TrueLane(shift), AlignedOf(TrueMarker(shift), offset) + k) == value
  {
    DecodeMod(raw, TruePhase(shift), TrueLane(shift), AlignedOf(TrueMarker(shift), offset) + k);
    NextAligned(TrueMarker(shift), offset, k);
    DecodeCarried(raw, shift, offset + k, value);
  }

  ghost predicate CarriesWord(raw: seq<byte>, shift: nat, offset: nat, x: word)
    requires |raw| == N && offset + 4 <= N
  {
    && Carries(raw, shift, offset, LeByte(x, 0))
    && Carries(raw, shift, offset + 1, LeByte(x, 1))
    && Carries(raw, shift, offset + 2, LeByte(x, 2))
    && Carries(raw, shift, offset + 3, LeByte(x, 3))
  }

  lemma DecodeWord(raw: seq<byte>, shift: nat, offset: nat, x: word)
    requires |raw| == N && shift < BITS && VSYNC_BYTES <= offset && offset + 4 <= N
    requires CarriesWord(raw, shift, offset, x)
    ensures DecodeU32(raw, TruePhase(shift), TrueLane(shift), TrueMarker(shift), offset) == x
  {
    var b0, b1, b2, b3 := LeByte(x, 0), LeByte(x, 1), LeByte(x, 2), LeByte(x, 3);
    WordRoundTrip(x);
    DecodeFour(raw, shift, offset, b0, b1, b2, b3);
  }

  lemma DecodeFour(raw: seq<byte>, shift: nat, offset: nat, b0: byte, b1: byte, b2: byte, b3: byte)
    requires |raw| == N && shift < BITS && VSYNC_BYTES <= offset && offset + 4 <= N
    requires Carries(raw, shift, offset, b0) && Carries(raw, shift, offset + 1, b1)
    requires Carries(raw, shift, offset + 2, b2) && Carries(raw, shift, offset + 3, b3)
    ensures DecodeU32(raw, TruePhase(shift), TrueLane(shift), TrueMarker(shift), offset) == FromLe(b0, b1, b2, b3)
  {
    DecodeTwo(raw, shift, offset, 0, b0, b1);
    DecodeTwo(raw, shift, offset, 2, b2, b3);
    FourBytes(raw, TruePhase(shift), TrueLane(shift), TrueMarker(shift), offset, b0, b1, b2, b3);
  }

  lemma DecodeTwo(raw: seq<byte>, shift: nat, offset: nat, k: nat, b: byte, c: byte)
    requires |raw| == N && shift < BITS && VSYNC_BYTES <= offset && offset + k + 1 < N
    requires Carries(raw, shift, offset + k, b) && Carries(raw, shift, offset + k + 1, c)
    ensures var j := AlignedOf(TrueMarker(shift), offset);
      && DecodeAt(raw, TruePhase(shift), TrueLane(shift), j + k) == b
      && DecodeAt(raw, TruePhase(shift), TrueLane(shift), j + k + 1) == c
  {
    DecodeNext(raw, shift, offset, k, b);
    DecodeNext(raw, shift, offset, k + 1, c);
  }

  lemma FourBytes(raw: seq<byte>, phase: nat, lane: nat, marker: nat, offset: nat, b0: byte, b1: byte, b2: byte,
                  b3: byte)
    requires |raw| == N && phase < 8 && offset >= VSYNC_BYTES
    requires var j := AlignedOf(marker, offset);
      && DecodeAt(raw, phase, lane, j + 0) == b0 && DecodeAt(raw, phase, lane, j + 1) == b1
      && DecodeAt(raw, phase, lane, j + 2) == b2 && DecodeAt(raw, phase, lane, j + 3) == b3
    ensures DecodeU32(raw, phase, lane, marker, offset) == FromLe(b0, b1, b2, b3)
  {
  }

  // ---- The payload ----

  /** The payload bytes of a cycle, gathered from its runs. */
  function PayloadOf(tx: seq<byte>): (p: seq<byte>)
    requires |tx| == N
    ensures |p| == PAYLOAD_BYTES
  {
    seq(PAYLOAD_BYTES, k requires 0 <= k < PAYLOAD_BYTES => tx[PayloadOffset(k)])
  }

  /** The payload a ring decodes to, under a lock. */
  function DecodePayload(raw: seq<byte>, phase: nat, lane: nat, marker: nat): (p: seq<byte>)
    requires |raw| == N && phase < 8
    ensures |p| == PAYLOAD_BYTES
  {
    seq(PAYLOAD_BYTES, k requires 0 <= k < PAYLOAD_BYTES =>
      DecodeAt(raw, phase, lane, AlignedOf(marker, PayloadOffset(k))))
  }

  method WireDecodePayload(raw: array<byte>, phase: nat, lane: nat, marker: nat, runs: array<Run>, out: array<byte>)
    requires raw.Length == N && phase < 8 && runs.Length == LINE_COUNT && AreRuns(runs[..], LINE_COUNT)
    requires out.Length == PAYLOAD_BYTES && out != raw
    modifies out
    ensures out[..] == DecodePayload(raw[..], phase, lane, marker)
  {
    ghost var want := DecodePayload(raw[..], phase, lane, marker);
    RunBases();
    var at := 0;
    var line := 0;
    while line < LINE_COUNT
      invariant 0 <= line <= LINE_COUNT && at == RunBase(line)
      invariant at <= PAYLOAD_BYTES && out[..at] == want[..at]
      invariant raw[..] == old(raw[..])
    {
      assert IsRun(runs[..][line], line);
      at := GatherRun(raw, phase, lane, marker, runs[line], line, at, out);
      line := line + 1;
    }
    assert out[..at] == out[..] && want[..at] == want;
  }

  /** One run, decoded behind the bytes already there. */
  method GatherRun(raw: array<byte>, phase: nat, lane: nat, marker: nat, run: Run, line: nat, start: nat,
                   out: array<byte>) returns (at: nat)
    requires raw.Length == N && phase < 8 && line < LINE_COUNT && IsRun(run, line)
    requires out.Length == PAYLOAD_BYTES && out != raw && start == RunBase(line) && start <= PAYLOAD_BYTES
    requires out[..start] == DecodePayload(raw[..], phase, lane, marker)[..start]
    modifies out
    ensures at == RunBase(line + 1) && at <= PAYLOAD_BYTES
    ensures out[..at] == DecodePayload(raw[..], phase, lane, marker)[..at]
  {
    ghost var want := DecodePayload(raw[..], phase, lane, marker);
    at := start;
    var j := AlignedOf(marker, run.offset);
    var byte := 0;
    while byte < run.length
      invariant 0 <= byte <= run.length && at == start + byte && at <= PAYLOAD_BYTES
      invariant raw[..] == old(raw[..])
      invariant out[..at] == want[..at]
    {
      RunByte(run, line, byte);
      DecodedRunByte(raw[..], phase, lane, marker, run.offset, byte, at);
      out[at] := DecodeAt(raw[..], phase, lane, j + byte);
      at := at + 1;
      byte := byte + 1;
    }
    RunBases();
  }

  lemma DecodedAt(raw: seq<byte>, phase: nat, lane: nat, marker: nat, at: nat)
    requires |raw| == N && phase < 8 && at < PAYLOAD_BYTES
    ensures DecodePayload(raw, phase, lane, marker)[at]
            == DecodeAt(raw, phase, lane, AlignedOf(marker, PayloadOffset(at)))
  {
  }

  lemma DecodedRunByte(raw: seq<byte>, phase: nat, lane: nat, marker: nat, offset: nat, k: nat, at: nat)
    requires |raw| == N && phase < 8 && at < PAYLOAD_BYTES && offset >= VSYNC_BYTES && offset + k == PayloadOffset(at)
    ensures DecodeAt(raw, phase, lane, AlignedOf(marker, offset) + k) == DecodePayload(raw, phase, lane, marker)[at]
  {
    DecodedAt(raw, phase, lane, marker, at);
    NextAligned(marker, offset, k);
    DecodeMod(raw, phase, lane, AlignedOf(marker, offset) + k);
  }

  /** Scatter, transmit and gather is the identity on payloads. */
  lemma GatherTransmitted(tx: seq<byte>, rx: seq<byte>, shift: nat)
    requires |tx| == N && |rx| == N && shift < BITS
    requires forall o: nat | o < N :: Carries(rx, shift, o, tx[o])
    ensures DecodePayload(rx, TruePhase(shift), TrueLane(shift), TrueMarker(shift)) == PayloadOf(tx)
  {
    forall k: nat | k < PAYLOAD_BYTES
      ensures DecodePayload(rx, TruePhase(shift), TrueLane(shift), TrueMarker(shift))[k] == PayloadOf(tx)[k]
    {
      DecodeCarried(rx, shift, PayloadOffset(k), tx[PayloadOffset(k)]);
    }
  }

  /** A transmitted cycle's ring is framed, with the cycle's tag. */
  lemma TransmittedIsFramed(tx: seq<byte>, rx: seq<byte>, shift: nat, tag: seq<byte>)
    requires |rx| == N && shift < BITS && IsCycle(tx, tag)
    requires forall o: nat | o < N :: Carries(rx, shift, o, tx[o])
    ensures Framed(rx, shift, tag)
  {
  }
}
