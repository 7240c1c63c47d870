/** What a clean copy of the region decodes to: the bytes that one pass of the
    sender's DMA sampled between H and the end of the cycle. */
module RegionDecode {
  import opened Arith
  import opened ByteBits
  import opened Wire
  import opened WireCodec
  import opened Region
  import opened LinkRx

  /** The region of the true lock. */
  function TrueRegion(delta: nat): RawRegion {
    RegionSet(TrueMarker(ShiftOf(delta)), TrueLane(ShiftOf(delta)))
  }

  /** The copy holds the region that came in from stream byte base on. */
  ghost predicate Copied(received: seq<byte>, copy: seq<byte>, delta: nat, base: nat, count: nat) {
    && |copy| == N && base % N == TrueRegion(delta).start
    && forall r: nat | base <= r < base + count :: r < |received| && copy[Swap(r % N)] == received[r]
  }

  /** The sender's lap that the region starting at base is from. */
  function LapOf(delta: nat, base: nat): nat {
    (8 * base + delta) / BITS
  }

  lemma StartPlace(shift: nat)
    requires shift < BITS
    ensures RegionSet(TrueMarker(shift), TrueLane(shift)).start == (shift / 8 + 110 + TrueLane(shift)) % N
    ensures RegionSet(TrueMarker(shift), TrueLane(shift)).length == 352
  {
    var lane, m := TrueLane(shift), TrueMarker(shift);
    TrueIndex(shift, VSYNC_BYTES);
    var d := shift / 8 - lane;
    assert m == (d + VSYNC_BYTES) % N && m % 2 == 0;
    assert WireFirst(m, lane) == m + 10 + 2 * lane;
    ModPlusN(d + VSYNC_BYTES, 10 + 2 * lane);
  }

  lemma LapForm(delta: nat, base: nat)
    requires base % N == TrueRegion(delta).start
    ensures var shift := ShiftOf(delta);
      8 * base + delta == LapOf(delta, base) * BITS + 8 * (110 + TrueLane(shift)) - TruePhase(shift)
  {
    var shift := ShiftOf(delta);
    StartPlace(shift);
    var lane, phase := TrueLane(shift), TruePhase(shift);
    var z := shift / 8 + 110 + lane;
    SameByte(base, z);
    SameLapBit(8 * base, 8 * z, delta);
    assert 8 * z + delta == (shift + delta) + (880 + 8 * lane - phase);
    SumZero(880 + 8 * lane - phase, shift + delta);
    assert (8 * base + delta) % BITS == 880 + 8 * lane - phase;
  }

  lemma SameByte(a: nat, b: nat)
    requires a % N == b % N
    ensures (8 * a) % BITS == (8 * b) % BITS
  {
    assert a == a / N * N + a % N && b == b / N * N + b % N;
    EightLaps(a / N, a % N);
    EightLaps(b / N, b % N);
  }

  lemma EightLaps(lap: nat, q: nat)
    requires q < N
    ensures (8 * (lap * N + q)) % BITS == 8 * q
  {
    assert 8 * (lap * N + q) == lap * BITS + 8 * q;
  }

  /** Which received byte holds bit i of TX byte o of that lap. */
  function RegionByte(delta: nat, base: nat, o: nat, i: nat): nat
    requires OFF_H <= o < OFF_END && i < 8
  {
    var shift := ShiftOf(delta);
    base + Swap(o) - 110 - TrueLane(shift) + (TruePhase(shift) + i) / 8
  }

  lemma RegionPlace(delta: nat, base: nat, o: nat, i: nat)
    requires OFF_H <= o < OFF_END && i < 8 && base % N == TrueRegion(delta).start
    ensures var r, p := RegionByte(delta, base, o, i), (8 * Swap(o) + i + ShiftOf(delta)) % BITS;
      && base <= r < base + 352 && r % N == p / 8
      && 8 * r + delta + p % 8 == LapOf(delta, base) * BITS + 8 * Swap(o) + i
  {
    var shift := ShiftOf(delta);
    var r, e := RegionByte(delta, base, o, i), (TruePhase(shift) + i) % 8;
    LapForm(delta, base);
    ByteBit(TrueLane(shift), TruePhase(shift), o, i);
    PlaceOf(r, e, shift, delta, LapOf(delta, base), 8 * Swap(o) + i);
  }

  lemma ByteBit(lane: nat, phase: nat, o: nat, i: nat)
    requires lane < 2 && phase < 8 && OFF_H <= o < OFF_END && i < 8
    ensures var d := Swap(o) - 110 - lane + (phase + i) / 8;
      0 <= d < 352 && 8 * d + (phase + i) % 8 + 8 * (110 + lane) - phase == 8 * Swap(o) + i
  {
  }

  lemma PlaceOf(r: nat, e: nat, shift: nat, delta: nat, lap: nat, x: nat)
    requires e < 8 && (shift + delta) % BITS == 0 && 8 * r + delta + e == lap * BITS + x
    ensures var p := (x + shift) % BITS; r % N == p / 8 && p % 8 == e
  {
    AddZero(8 * r + e, shift + delta);
    AddZero(x + shift, lap * BITS);
    WholeLaps(lap);
    BitOfByte(r, e, (x + shift) % BITS);
  }

  lemma AddZero(x: nat, z: nat)
    requires z % BITS == 0
    ensures (x + z) % BITS == x % BITS
  {
  }

  lemma WholeLaps(lap: nat)
    ensures (lap * BITS) % BITS == 0
  {
  }

  lemma BitOfByte(r: nat, e: nat, p: nat)
    requires e < 8 && p == (8 * r + e) % BITS
    ensures p / 8 == r % N && p % 8 == e
  {
    var q, z := r / N, r % N;
    assert r == q * N + z;
    DivMod(8 * r + e, BITS, q, 8 * z + e);
    DivMod(8 * z + e, 8, z, e);
  }

  /** The bytes between H and the end decode to one lap's. */
  lemma RegionCarries(sent: seq<byte>, delta: nat, received: seq<byte>, copy: seq<byte>, base: nat, o: nat)
    requires StreamOk(sent, delta, received) && Copied(received, copy, delta, base, 352) && OFF_H <= o < OFF_END
    ensures LapOf(delta, base) * N + o < |sent|
    ensures Carries(copy, ShiftOf(delta), o, sent[LapOf(delta, base) * N + o])
  {
    RegionBit(sent, delta, received, copy, base, o, 0);
    forall i: nat | i < 8 ensures TxBit(copy, ShiftOf(delta), o, i) == Bit(sent[LapOf(delta, base) * N + o], i) {
      RegionBit(sent, delta, received, copy, base, o, i);
    }
  }

  lemma RegionBit(sent: seq<byte>, delta: nat, received: seq<byte>, copy: seq<byte>, base: nat, o: nat, i: nat)
    requires StreamOk(sent, delta, received) && Copied(received, copy, delta, base, 352)
    requires OFF_H <= o < OFF_END && i < 8
    ensures LapOf(delta, base) * N + o < |sent|
    ensures TxBit(copy, ShiftOf(delta), o, i) == Bit(sent[LapOf(delta, base) * N + o], i)
  {
    var r, p := RegionByte(delta, base, o, i), (8 * Swap(o) + i + ShiftOf(delta)) % BITS;
    RegionPlace(delta, base, o, i);
    RegionBitAt(sent, delta, received, copy, base, r, p, LapOf(delta, base), o, i);
  }

  lemma RegionBitAt(sent: seq<byte>, delta: nat, received: seq<byte>, copy: seq<byte>, base: nat, r: nat, p: nat,
                    lap: nat, o: nat, i: nat)
    requires StreamOk(sent, delta, received) && Copied(received, copy, delta, base, 352)
    requires o < N && i < 8 && base <= r < base + 352 && p < BITS && r % N == p / 8
    requires 8 * r + delta + p % 8 == lap * BITS + 8 * Swap(o) + i
    ensures lap * N + o < |sent| && WireBit(copy, p) == Bit(sent[lap * N + o], i)
  {
    CopiedBit(received, copy, delta, base, r, p);
    StreamBitOf(sent, delta, received, r, p % 8, lap, o, i);
  }

  lemma CopiedBit(received: seq<byte>, copy: seq<byte>, delta: nat, base: nat, r: nat, p: nat)
    requires Copied(received, copy, delta, base, 352) && base <= r < base + 352 && p < BITS && r % N == p / 8
    ensures r < |received| && WireBit(copy, p) == Bit(received[r], p % 8)
  {
    CopiedByte(received, copy, delta, base, r, p / 8);
    RawBit(copy, p, p / 8, received[r]);
  }

  lemma CopiedByte(received: seq<byte>, copy: seq<byte>, delta: nat, base: nat, r: nat, q: nat)
    requires Copied(received, copy, delta, base, 352) && base <= r < base + 352 && r % N == q
    ensures r < |received| && copy[Swap(q)] == received[r]
  {
  }

  lemma RawBit(raw: seq<byte>, p: nat, q: nat, b: byte)
    requires |raw| == N && p < BITS && q == p / 8 && raw[Swap(q)] == b
    ensures WireBit(raw, p) == Bit(b, p % 8)
  {
  }

  lemma StreamBitOf(sent: seq<byte>, delta: nat, received: seq<byte>, r: nat, e: nat, lap: nat, o: nat, i: nat)
    requires StreamOk(sent, delta, received) && r < |received| && e < 8 && o < N && i < 8
    requires 8 * r + delta + e == lap * BITS + 8 * Swap(o) + i
    ensures lap * N + o < |sent| && Bit(received[r], e) == Bit(sent[lap * N + o], i)
  {
    assert Available(sent, delta, r);
    RxBit(sent, delta, r, e);
    LapByte(lap, o, i, 8 * r + delta + e);
  }

  lemma LapByte(lap: nat, o: nat, i: nat, b: nat)
    requires o < N && i < 8 && b == lap * BITS + 8 * Swap(o) + i
    ensures Swap(b / 8) == lap * N + o && b % 8 == i
  {
    var w := lap * N + Swap(o);
    DivMod(b, 8, w, i);
    EvenLap(lap);
    SwapLap(lap * N, o);
  }

  lemma SwapLap(base: nat, o: nat)
    requires base % 2 == 0
    ensures Swap(base + Swap(o)) == base + o
  {
  }

  lemma EvenLap(lap: nat)
    ensures (lap * N) % 2 == 0
  {
    assert lap * N == 2 * (234 * lap);
  }
}
