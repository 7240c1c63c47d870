/** Versions of a lap that is sampled after a time are those of that time, or later. */
module LinkLater {
  import opened Arith
  import opened ByteBits
  import opened Wire
  import opened LinkTx
  import opened LinkRx
  import opened RegionDecode

  /** From s on: what has been sampled stays, and laps begun since are as new. */
  ghost predicate LaterLaps(s: Tx, t: Tx) {
    && s.hAt <= t.hAt && s.Done() <= t.Done() && s.payloads <= t.payloads
    && forall l: nat | |s.hAt| <= l < |t.hAt| :: t.hAt[l] >= s.Done()
  }

  lemma LaterStep(c: Session, s: Tx, t: Tx)
    requires Shape(s) && (t == s || TxNext(c, s, t))
    ensures LaterLaps(s, t) && t.Done() <= s.Done() + 1
  {
  }

  lemma LaterStill(s: Tx, t: Tx, u: Tx)
    requires LaterLaps(s, t) && LaterLaps(t, u)
    ensures LaterLaps(s, u)
  {
  }

  /** H of the lap that a received region is from was sampled after the reader began
      to listen. */
  lemma LapIsLater(delta: nat, base: nat, sent: nat)
    requires 8 * sent <= delta && sent % 4 == 0 && base % N == TrueRegion(delta).start
    ensures (sent + N - OFF_H - 4) / N <= LapOf(delta, base)
  {
    var lap := LapOf(delta, base);
    RegionPlace(delta, base, OFF_H, 0);
    assert Swap(OFF_H) == OFF_H + 1;
    LapBits(lap);
    SentBefore(sent, lap);
  }

  lemma LapBits(lap: nat)
    ensures lap * BITS == 8 * (lap * N)
  {
  }

  lemma SentBefore(sent: nat, lap: nat)
    requires sent <= lap * N + OFF_H + 1 && sent % 4 == 0
    ensures (sent + N - OFF_H - 4) / N <= lap
  {
    LapFours(lap);
    assert sent <= lap * N + OFF_H;
    var x := sent + N - OFF_H - 4;
    var q := x / N;
    assert x == q * N + x % N;
    assert (q - lap) * N == q * N - lap * N < N;
  }

  lemma LapFours(lap: nat)
    ensures (lap * N) % 4 == 0
  {
    assert lap * N == 4 * (117 * lap);
  }
}
