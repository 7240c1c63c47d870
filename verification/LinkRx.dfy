/** The receiving end's hardware: the RX DMA fills the ring byte by byte behind
    the beam, a fixed number of bits out of step with the sent cycle. A descriptor's
    length is written back some time after the beam has left it: the write-back is
    an access of its own, up to a whole descriptor late. */
module LinkRx {
  import opened ByteBits
  import opened Wire
  import opened WireCodec
  import opened LockUnique
  import opened LockEarly
  import opened Region

  // ---- The wire ----

  /** Bit b of the sent stream, as it goes over the wire. */
  predicate SentBit(sent: seq<byte>, b: nat)
    requires Swap(b / 8) < |sent|
  {
    Bit(sent[Swap(b / 8)], b % 8)
  }

  predicate Available(sent: seq<byte>, delta: nat, r: nat) {
    |sent| % 2 == 0 && (8 * r + delta) / 8 + 1 < |sent|
  }

  /** Received byte r: the eight sent bits from 8 r + delta on. */
  function RxByte(sent: seq<byte>, delta: nat, r: nat): byte
    requires Available(sent, delta, r)
  {
    var b := 8 * r + delta;
    Splice(sent[Swap(b / 8)], sent[Swap(b / 8 + 1)], b % 8)
  }

  lemma RxBit(sent: seq<byte>, delta: nat, r: nat, e: nat)
    requires Available(sent, delta, r) && e < 8
    ensures Swap((8 * r + delta + e) / 8) < |sent|
    ensures Bit(RxByte(sent, delta, r), e) == SentBit(sent, 8 * r + delta + e)
  {
    var b := 8 * r + delta;
    SpliceBit(sent[Swap(b / 8)], sent[Swap(b / 8 + 1)], b % 8, e);
    assert (b + e) / 8 == if b % 8 + e < 8 then b / 8 else b / 8 + 1;
  }

  /** The bit shift at which the ring sees the cycle. */
  function ShiftOf(delta: nat): (shift: nat)
    ensures shift < BITS && (shift + delta) % BITS == 0
  {
    (BITS - delta % BITS) % BITS
  }

  // ---- State ----

  /** received is all that came in; the beam is |received|. lengths[d] is set
      when descriptor d's length is not 0; written counts the write-backs. */
  datatype Rx = Rx(received: seq<byte>, ring: seq<byte>, lengths: seq<bool>, written: nat)
  {
    function Beam(): nat { |received| }
  }

  ghost predicate RxShape(s: Rx) {
    |s.ring| == N && |s.lengths| == DESC_COUNT
  }

  /** Nothing came in yet; the ring is filled, and the lengths are anything. */
  ghost predicate RxInit(s: Rx) {
    RxShape(s) && s.received == [] && s.written == 0 && forall k: nat | k < N :: s.ring[k] == FILLER
  }

  /** The next byte arrives. A write-back is due before the beam is more than a
      descriptor past the one it is for. */
  ghost predicate Receive(sent: seq<byte>, delta: nat, s: Rx, s': Rx)
    requires RxShape(s)
  {
    && Available(sent, delta, s.Beam()) && s.Beam() < DESC_BYTES * (s.written + 2)
    && var b := RxByte(sent, delta, s.Beam());
       s' == s.(received := s.received + [b], ring := s.ring[Swap(s.Beam() % N) := b])
  }

  function DueDesc(s: Rx): (d: nat)
    ensures d < DESC_COUNT
  {
    s.written % DESC_COUNT
  }

  /** The length of the next descriptor is written back, once the beam has left it. */
  ghost predicate WriteBack(s: Rx, s': Rx)
    requires RxShape(s)
  {
    && DESC_BYTES * (s.written + 1) <= s.Beam()
    && s' == s.(lengths := s.lengths[DueDesc(s) := true], written := s.written + 1)
  }

  ghost predicate RxInv(sent: seq<byte>, delta: nat, s: Rx) {
    && RxShape(s)
    && StreamOk(sent, delta, s.received)
    && DESC_BYTES * s.written <= s.Beam() <= DESC_BYTES * (s.written + 2)
    && RingHolds(s) && RingFilled(s)
  }

  /** The ring holds the last lap that came in, ... */
  ghost predicate RingHolds(s: Rx)
    requires RxShape(s)
  {
    forall r: nat | s.Beam() - N <= r < s.Beam() :: s.ring[Swap(r % N)] == s.received[r]
  }

  /** ... and the filler where nothing came in yet. */
  ghost predicate RingFilled(s: Rx)
    requires RxShape(s)
  {
    forall q: nat | s.Beam() <= q < N :: s.ring[Swap(q)] == FILLER
  }

  /** What came in is what was sent, delta bits on. */
  ghost predicate StreamOk(sent: seq<byte>, delta: nat, received: seq<byte>) {
    forall r: nat | r < |received| :: Available(sent, delta, r) && received[r] == RxByte(sent, delta, r)
  }

  lemma RxInitInv(sent: seq<byte>, delta: nat, s: Rx)
    requires RxInit(s)
    ensures RxInv(sent, delta, s)
  {
  }

  lemma ReceiveInv(sent: seq<byte>, delta: nat, s: Rx, s': Rx)
    requires RxInv(sent, delta, s) && Receive(sent, delta, s, s')
    ensures RxInv(sent, delta, s') && s.received <= s'.received
  {
    ReceiveHolds(sent, delta, s, s');
    ReceiveFilled(sent, delta, s, s');
  }

  lemma ReceiveHolds(sent: seq<byte>, delta: nat, s: Rx, s': Rx)
    requires RxShape(s) && RingHolds(s) && Receive(sent, delta, s, s')
    ensures RxShape(s') && RingHolds(s')
  {
    forall r: nat | s'.Beam() - N <= r < s'.Beam() ensures s'.ring[Swap(r % N)] == s'.received[r] {
      if r < s.Beam() {
        OtherPlace(r, s.Beam());
      }
    }
  }

  lemma ReceiveFilled(sent: seq<byte>, delta: nat, s: Rx, s': Rx)
    requires RxShape(s) && RingFilled(s) && Receive(sent, delta, s, s')
    ensures RxShape(s') && RingFilled(s')
  {
    forall q: nat | s'.Beam() <= q < N ensures s'.ring[Swap(q)] == FILLER {
      OtherPlace(s.Beam(), q);
    }
  }

  lemma WriteBackInv(sent: seq<byte>, delta: nat, s: Rx, s': Rx)
    requires RxInv(sent, delta, s) && WriteBack(s, s')
    ensures RxInv(sent, delta, s')
  {
  }

  lemma OtherPlace(r: nat, b: nat)
    requires r < b < r + N
    ensures Swap(r % N) != Swap(b % N)
  {
  }

  lemma LongerSent(sent: seq<byte>, sent': seq<byte>, delta: nat, s: Rx)
    requires RxInv(sent, delta, s) && sent <= sent' && |sent'| % 2 == 0
    ensures RxInv(sent', delta, s)
  {
    forall r: nat | r < s.Beam()
      ensures Available(sent', delta, r) && s.received[r] == RxByte(sent', delta, r)
    {
      assert Available(sent, delta, r);
    }
  }

  // ---- Any mix of laps is framed ----

  ghost predicate FromStream(received: seq<byte>, q: nat, b: byte) {
    exists r: nat :: r < |received| && r % N == q && received[r] == b
  }

  /** A snapshot whose every byte came in at its place, in whatever laps. */
  ghost predicate Mixed(received: seq<byte>, raw: seq<byte>, count: nat) {
    |raw| == N && forall k: nat | k < count && k < N :: FromStream(received, Swap(k), raw[k])
  }

  /** A snapshot taken at any time: places that nothing had come in at are filled. */
  ghost predicate PartMixed(received: seq<byte>, raw: seq<byte>, count: nat) {
    |raw| == N && forall k: nat | k < count && k < N :: raw[k] == FILLER || FromStream(received, Swap(k), raw[k])
  }

  ghost predicate SentFixedBytes(sent: seq<byte>, tag: seq<byte>)
    requires |tag| == 4
  {
    forall i: nat {:trigger sent[i]} | i < |sent| && IsFixed(i % N) :: sent[i] == FixedByte(i % N, tag)
  }

  lemma MixedIsFramed(sent: seq<byte>, delta: nat, s: Rx, raw: seq<byte>, tag: seq<byte>)
    requires RxInv(sent, delta, s) && |tag| == 4 && SentFixedBytes(sent, tag) && Mixed(s.received, raw, N)
    ensures Framed(raw, ShiftOf(delta), tag)
  {
    forall o: nat {:trigger IsFixed(o)} | o < N && IsFixed(o)
      ensures Carries(raw, ShiftOf(delta), o, FixedByte(o, tag))
    {
      assert SentAlways(sent, o, FixedByte(o, tag));
      MixedCarries(sent, delta, s.received, raw, o, FixedByte(o, tag));
    }
  }

  /** Every lap sent this value at offset o. */
  ghost predicate SentAlways(sent: seq<byte>, o: nat, value: byte) {
    forall k: nat | k < |sent| && k % N == o :: sent[k] == value
  }

  lemma MixedCarries(sent: seq<byte>, delta: nat, received: seq<byte>, raw: seq<byte>, o: nat, value: byte)
    requires StreamOk(sent, delta, received) && Mixed(received, raw, N) && o < N && SentAlways(sent, o, value)
    ensures Carries(raw, ShiftOf(delta), o, value)
  {
    forall i: nat | i < 8 ensures TxBit(raw, ShiftOf(delta), o, i) == Bit(value, i) {
      MixedTxBit(sent, delta, received, raw, o, value, i);
    }
  }

  lemma MixedTxBit(sent: seq<byte>, delta: nat, received: seq<byte>, raw: seq<byte>, o: nat, value: byte, i: nat)
    requires StreamOk(sent, delta, received) && Mixed(received, raw, N) && o < N && SentAlways(sent, o, value)
    requires i < 8
    ensures TxBit(raw, ShiftOf(delta), o, i) == Bit(value, i)
  {
    MixedBit(sent, delta, received, raw, o, value, i, (8 * Swap(o) + i + ShiftOf(delta)) % BITS);
  }

  lemma MixedBit(sent: seq<byte>, delta: nat, received: seq<byte>, raw: seq<byte>, o: nat, value: byte, i: nat, p: nat)
    requires StreamOk(sent, delta, received) && Mixed(received, raw, N) && o < N && SentAlways(sent, o, value)
    requires i < 8 && p == (8 * Swap(o) + i + ShiftOf(delta)) % BITS
    ensures WireBit(raw, p) == Bit(value, i)
  {
    var r := Source(received, raw, p / 8);
    StreamValue(sent, delta, received, r, o, i, p, value);
  }

  lemma StreamValue(sent: seq<byte>, delta: nat, received: seq<byte>, r: nat, o: nat, i: nat, p: nat, value: byte)
    requires StreamOk(sent, delta, received) && o < N && i < 8 && SentAlways(sent, o, value)
    requires r < |received| && p == (8 * Swap(o) + i + ShiftOf(delta)) % BITS && r % N == p / 8
    ensures Bit(received[r], p % 8) == Bit(value, i)
  {
    assert Available(sent, delta, r);
    StreamBit(sent, delta, r, o, i, p);
  }

  lemma Source(received: seq<byte>, raw: seq<byte>, q: nat) returns (r: nat)
    requires Mixed(received, raw, N) && q < N
    ensures r < |received| && r % N == q && received[r] == raw[Swap(q)]
  {
    assert Swap(Swap(q)) == q;
    assert FromStream(received, Swap(Swap(q)), raw[Swap(q)]);
    r :| r < |received| && r % N == q && received[r] == raw[Swap(q)];
  }

  lemma MixedInPart(sent: seq<byte>, delta: nat, s: Rx, raw: seq<byte>, tag: seq<byte>)
    requires RxInv(sent, delta, s) && |tag| == 4 && SentFixedBytes(sent, tag) && PartMixed(s.received, raw, N)
    ensures PartFramed(raw, ShiftOf(delta), tag)
  {
    forall b: nat | b < BITS ensures FilledOrSettled(raw, ShiftOf(delta), tag, b) {
      if raw[Swap(BitByte(ShiftOf(delta), b))] != FILLER {
        BitInPart(sent, delta, s.received, raw, tag, b, BitByte(ShiftOf(delta), b));
      }
    }
  }

  lemma BitInPart(sent: seq<byte>, delta: nat, received: seq<byte>, raw: seq<byte>, tag: seq<byte>, b: nat, q: nat)
    requires StreamOk(sent, delta, received) && |tag| == 4 && SentFixedBytes(sent, tag)
    requires PartMixed(received, raw, N) && b < BITS && q == BitByte(ShiftOf(delta), b) && raw[Swap(q)] != FILLER
    ensures Settled(raw, ShiftOf(delta), tag, b)
  {
    var o := Swap(b / 8);
    SwapTwice(b / 8);
    if IsFixed(o) {
      assert SentAlways(sent, o, FixedByte(o, tag));
      AlwaysInPart(sent, delta, received, raw, o, FixedByte(o, tag), b, q);
    }
  }

  lemma AlwaysInPart(sent: seq<byte>, delta: nat, received: seq<byte>, raw: seq<byte>, o: nat, v: byte, b: nat, q: nat)
    requires StreamOk(sent, delta, received) && PartMixed(received, raw, N) && b < BITS && o < N && Swap(o) == b / 8
    requires SentAlways(sent, o, v) && q == BitByte(ShiftOf(delta), b) && raw[Swap(q)] != FILLER
    ensures CycleBit(raw, ShiftOf(delta), b) == Bit(v, b % 8)
  {
    var r := SourceInPart(received, raw, q);
    StreamValue(sent, delta, received, r, o, b % 8, (b + ShiftOf(delta)) % BITS, v);
  }

  lemma SourceInPart(received: seq<byte>, raw: seq<byte>, q: nat) returns (r: nat)
    requires PartMixed(received, raw, N) && q < N && raw[Swap(q)] != FILLER
    ensures r < |received| && r % N == q && received[r] == raw[Swap(q)]
  {
    SwapTwice(q);
    assert FromStream(received, Swap(Swap(q)), raw[Swap(q)]);
    r :| r < |received| && r % N == q && received[r] == raw[Swap(q)];
  }

  lemma StreamBit(sent: seq<byte>, delta: nat, r: nat, o: nat, i: nat, p: nat)
    requires o < N && i < 8 && p == (8 * Swap(o) + i + ShiftOf(delta)) % BITS && r % N == p / 8
    requires Available(sent, delta, r)
    ensures var k := Swap((8 * r + delta + p % 8) / 8);
      k < |sent| && k % N == o && Bit(RxByte(sent, delta, r), p % 8) == Bit(sent[k], i)
  {
    RxBit(sent, delta, r, p % 8);
    StreamPlace(delta, o, i, r, p);
  }

  /** The bit received at a ring place was sent at the place in its lap that the
      shift says. */
  lemma StreamPlace(delta: nat, o: nat, i: nat, r: nat, p: nat)
    requires o < N && i < 8 && p == (8 * Swap(o) + i + ShiftOf(delta)) % BITS && r % N == p / 8
    ensures var b := 8 * r + delta + p % 8;
      b % 8 == i && Swap(b / 8) % N == o
  {
    var b := 8 * r + delta + p % 8;
    var x := 8 * Swap(o) + i;
    BitLap(r, p);
    SameLapBit(8 * r + p % 8, x + ShiftOf(delta), delta);
    SumZero(x, ShiftOf(delta) + delta);
    assert b % BITS == x;
    LapSwap(b, o, i);
  }

  lemma BitLap(r: nat, p: nat)
    requires p < BITS && r % N == p / 8
    ensures (8 * r + p % 8) % BITS == p
  {
    assert r == r / N * N + p / 8;
  }

  lemma SameLapBit(a: nat, b: nat, d: nat)
    requires a % BITS == b % BITS
    ensures (a + d) % BITS == (b + d) % BITS
  {
  }

  lemma SumZero(x: nat, z: nat)
    requires x < BITS && z % BITS == 0
    ensures (x + z) % BITS == x
  {
  }

  lemma LapSwap(b: nat, o: nat, i: nat)
    requires o < N && i < 8 && b % BITS == 8 * Swap(o) + i
    ensures b % 8 == i && Swap(b / 8) == b / BITS * N + o && Swap(b / 8) % N == o
  {
    var lap := b / BITS;
    assert b == lap * BITS + 8 * Swap(o) + i;
    assert b / 8 == lap * N + Swap(o);
  }
}
