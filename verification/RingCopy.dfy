/** The reader's copies of the ring, byte by byte: what one store adds to a
    snapshot of the whole ring, or to a copy of the region. */
module RingCopy {
  import opened Arith
  import opened ByteBits
  import opened Wire
  import opened WireCodec
  import opened LockEarly
  import opened Region
  import opened LinkRx
  import opened RegionDecode

  lemma LastOf(b: nat, q: nat) returns (r: nat)
    requires b >= N && q < N
    ensures b - N <= r < b && r % N == q
  {
    var x := b - 1 - q;
    r := b - 1 - x % N;
    assert x == x / N * N + x % N;
    LapRest(x / N, q);
  }

  lemma LapRest(lap: nat, q: nat)
    requires q < N
    ensures (lap * N + q) % N == q
  {
  }

  lemma RingHas(sent: seq<byte>, delta: nat, rx: Rx, r: nat)
    requires RxInv(sent, delta, rx) && rx.Beam() - N <= r < rx.Beam()
    ensures rx.ring[Swap(r % N)] == rx.received[r]
  {
  }

  /** At any time, every byte of the ring came in at its place or is the filler. */
  lemma RingByteInPart(sent: seq<byte>, delta: nat, rx: Rx, k: nat)
    requires RxInv(sent, delta, rx) && k < N
    ensures rx.ring[k] == FILLER || FromStream(rx.received, Swap(k), rx.ring[k])
  {
    var q, b := Swap(k), rx.Beam();
    SwapTwice(k);
    if b >= N {
      RingByteMixed(sent, delta, rx, k);
    } else if q < b {
      RingHas(sent, delta, rx, q);
      ModSmall(q, N);
    } else {
      assert rx.ring[Swap(q)] == FILLER;
    }
  }

  /** Every byte of the ring came in at its place. */
  lemma RingByteMixed(sent: seq<byte>, delta: nat, rx: Rx, k: nat)
    requires RxInv(sent, delta, rx) && rx.Beam() >= N && k < N
    ensures FromStream(rx.received, Swap(k), rx.ring[k])
  {
    var q := Swap(k);
    SwapTwice(k);
    var r := LastOf(rx.Beam(), q);
    RingHas(sent, delta, rx, r);
  }

  lemma RingSample(sent: seq<byte>, delta: nat, rx: Rx, base: nat, i: nat)
    requires RxInv(sent, delta, rx) && rx.Beam() - N <= base && base + 2 * i + 1 < rx.Beam()
    requires var a := (base + 2 * i) % N; Swap(a) == a + 1 && Swap(a + 1) == a && (base + 2 * i + 1) % N == a + 1
    ensures var a := (base + 2 * i) % N;
      a + 1 < N && rx.ring[a + 1] == rx.received[base + 2 * i] && rx.ring[a] == rx.received[base + 2 * i + 1]
  {
    RingHas(sent, delta, rx, base + 2 * i);
    RingHas(sent, delta, rx, base + 2 * i + 1);
  }

  lemma PutSample(received: seq<byte>, ring: seq<byte>, copy: seq<byte>, copy': seq<byte>, delta: nat,
                  base: nat, i: nat)
    requires Copied(received, copy, delta, base, 2 * i) && |ring| == N && 2 * i + 2 <= N && base % N % 2 == 0
    requires base + 2 * i + 1 < |received|
    requires var a := (base + 2 * i) % N;
      && a + 1 < N && Swap(a) == a + 1 && Swap(a + 1) == a && (base + 2 * i + 1) % N == a + 1
      && ring[a + 1] == received[base + 2 * i] && ring[a] == received[base + 2 * i + 1]
      && copy' == copy[a := ring[a]][a + 1 := ring[a + 1]]
    ensures Copied(received, copy', delta, base, 2 * i + 2)
  {
    forall r: nat | base <= r < base + 2 * i + 2
      ensures r < |received| && copy'[Swap(r % N)] == received[r]
    {
      if r < base + 2 * i {
        assert copy[Swap(r % N)] == received[r];
        OtherSample(base, r, i);
      }
    }
  }

  /** The sample copied next holds the next two bytes of the stream. */
  lemma SamplePlace(base: nat, start: nat, i: nat)
    requires base % N == start && start % 2 == 0
    ensures var a := (start + 2 * i) % N;
      a % 2 == 0 && a + 1 < N && (base + 2 * i) % N == a && (base + 2 * i + 1) % N == a + 1
      && Swap(a) == a + 1 && Swap(a + 1) == a
  {
    ModPlusN(base, 2 * i);
    EvenSum(start, i);
    EvenMod(start + 2 * i);
    NextPlace(base + 2 * i, (start + 2 * i) % N);
  }

  lemma EvenSum(x: nat, y: nat)
    requires x % 2 == 0
    ensures (x + 2 * y) % 2 == 0
  {
    DivMod(x + 2 * y, 2, x / 2 + y, 0);
  }

  lemma NextPlace(x: nat, a: nat)
    requires x % N == a && a % 2 == 0
    ensures a + 1 < N && (x + 1) % N == a + 1 && Swap(a) == a + 1 && Swap(a + 1) == a
  {
    SwapPair(a);
    ModAdd(x, 1, N);
  }

  lemma SwapPair(a: nat)
    requires a % 2 == 0 && a < N
    ensures a + 1 < N && Swap(a) == a + 1 && Swap(a + 1) == a
  {
  }

  lemma OtherSample(base: nat, r: nat, i: nat)
    requires base <= r < base + 2 * i && 2 * i + 2 <= N && base % N % 2 == 0
    ensures Swap(r % N) != (base + 2 * i) % N && Swap(r % N) != (base + 2 * i + 1) % N
  {
    Distinct(r, base + 2 * i);
    Distinct(r, base + 2 * i + 1);
    ModPlusN(base, 2 * i);
    EvenMod(base % N + 2 * i);
    NextPlace(base + 2 * i, (base + 2 * i) % N);
    SwapApart(r % N, (base + 2 * i) % N);
  }

  lemma SwapApart(x: nat, a: nat)
    requires a % 2 == 0 && x != a && x != a + 1
    ensures Swap(x) != a && Swap(x) != a + 1
  {
  }

  lemma Distinct(x: nat, y: nat)
    requires x < y < x + N
    ensures x % N != y % N
  {
  }

  lemma LaterBase(a: nat, b: nat)
    requires a % N == b % N && a < b + N
    ensures a <= b
  {
  }

  /** One more sample of a region that came in within the last lap. */
  lemma CopyStep(sent: seq<byte>, delta: nat, rx: Rx, copy: seq<byte>, copy': seq<byte>,
                 base: nat, start: nat, i: nat)
    requires RxInv(sent, delta, rx) && Copied(rx.received, copy, delta, base, 2 * i) && 2 * i + 2 <= N
    requires base % N == start && start % 2 == 0 && rx.Beam() - N <= base && base + 2 * i + 1 < rx.Beam()
    requires var a := (start + 2 * i) % N;
      a + 1 < N && copy' == copy[a := rx.ring[a]][a + 1 := rx.ring[a + 1]]
    ensures Copied(rx.received, copy', delta, base, 2 * i + 2)
  {
    SamplePlace(base, start, i);
    RingSample(sent, delta, rx, base, i);
    PutSample(rx.received, rx.ring, copy, copy', delta, base, i);
  }
}
