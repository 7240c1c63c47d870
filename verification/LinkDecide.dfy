/** The reader's decision on an untripped copy keeps the invariant. */
module LinkDecide {
  import opened ByteBits
  import opened Wire
  import opened WireCodec
  import opened LockSearch
  import opened LinkTx
  import opened LinkRx
  import opened RegionDecode
  import opened CleanRegion
  import opened Judge
  import opened Link
  import opened LinkProof

  ghost predicate CleanState(e: Env, s: State) {
    && Legal(s) && s.rd.pc.Decide? && TrueLock(e, s)
    && Clean(s.tx.sent, e.delta, s.rx.received, s.rd.copy, s.rd.pc.base)
    && s.rd.pc.base + 352 <= s.rx.Beam()
    && (forall d | d in s.rd.delivered :: d.base <= s.rd.pc.base)
  }

  lemma DecideClean(e: Env, s: State)
    requires RdInv(e, s) && s.rd.pc.Decide?
    ensures CleanState(e, s)
  {
    RegionFacts(e, s);
  }

  /** What take_window() makes of a copy under the true lock. */
  function JudgedAt(delta: nat, copy: seq<byte>, read: bool, last: word, crc: seq<byte> -> word): Taken
    requires |copy| == N
  {
    var shift := ShiftOf(delta);
    Judged(copy, TruePhase(shift), TrueLane(shift), TrueMarker(shift), read, last, crc)
  }

  lemma CleanFrames(c: Session, tx: Tx, delta: nat, received: seq<byte>, copy: seq<byte>, base: nat)
    requires TxInv(c, tx) && Clean(tx.sent, delta, received, copy, base)
    ensures var shift := ShiftOf(delta); AllFramed(copy, TruePhase(shift), TrueLane(shift), TrueMarker(shift))
  {
    assert SentFixed(c, tx);
    assert SentFixedBytes(tx.sent, c.tag);
    var shift := ShiftOf(delta);
    forall line: nat | 1 <= line < LINE_COUNT
      ensures LineFramed(copy, TruePhase(shift), TrueLane(shift), TrueMarker(shift), line)
    {
      CleanFraming(tx.sent, delta, received, copy, base, c.tag, line);
    }
  }

  /** The stamp and payload of the version that the lap before base names. */
  ghost predicate IsLapVersion(c: Session, tx: Tx, delta: nat, base: nat, stamp: word, payload: seq<byte>) {
    && LapOf(delta, base) < |tx.hAt|
    && var v := tx.hAt[LapOf(delta, base)];
       1 <= v <= |tx.payloads| && stamp == Stamp(c.start, v) && payload == tx.payloads[v - 1]
  }

  lemma CleanVerdict(c: Session, tx: Tx, delta: nat, received: seq<byte>, copy: seq<byte>, base: nat, read: bool,
                     last: word)
    requires TxInv(c, tx) && Clean(tx.sent, delta, received, copy, base)
    ensures var out := JudgedAt(delta, copy, read, last, c.crc);
      && !out.Framing? && !out.Crc?
      && (out.New? ==> IsLapVersion(c, tx, delta, base, out.stamp, out.payload) && (read ==> out.stamp != last))
  {
    var shift := ShiftOf(delta);
    CleanFrames(c, tx, delta, received, copy, base);
    if WordAt(delta, copy, OFF_H) == WordAt(delta, copy, OFF_T) != 0 {
      CleanVersion(c, tx, delta, received, copy, base);
    }
    JudgedGood(copy, TruePhase(shift), TrueLane(shift), TrueMarker(shift), read, last, c.crc);
  }

  /** What an untripped copy can come to: a version, nothing new, or a pass that
      a write overtook. Framing and CRC never fail without bit errors. */
  lemma CleanOutcome(e: Env, s: State)
    requires TxInv(e.session, s.tx) && CleanState(e, s)
    ensures var out := TakeWindow(e, s.rd);
      && !out.Framing? && !out.Crc?
      && (out.New? ==> DeliveredOk(e, s, Delivery(out.stamp, out.payload, s.rd.pc.base)))
      && (out.New? && s.rd.haveRead ==> out.stamp != s.rd.lastRead)
  {
    CleanVerdict(e.session, s.tx, e.delta, s.rx.received, s.rd.copy, s.rd.pc.base, s.rd.haveRead, s.rd.lastRead);
    assert TakeWindow(e, s.rd) == JudgedAt(e.delta, s.rd.copy, s.rd.haveRead, s.rd.lastRead, e.session.crc);
  }

  lemma LapMonotone(delta: nat, a: nat, b: nat)
    requires a <= b
    ensures LapOf(delta, a) <= LapOf(delta, b)
  {
  }

  /** A new delivery is of a later version than all before it. */
  lemma NewIsLater(e: Env, s: State, d: Delivery, i: nat)
    requires TxInv(e.session, s.tx) && Legal(s) && HistoryInv(e, s)
    requires DeliveredOk(e, s, d) && i < |s.rd.delivered|
    requires forall x | x in s.rd.delivered :: x.base <= d.base
    requires s.rd.haveRead ==> d.stamp != s.rd.lastRead
    ensures DeliveredOk(e, s, s.rd.delivered[i])
    ensures VersionOf(e, s, i) < s.tx.hAt[LapOf(e.delta, d.base)]
  {
    var ds := s.rd.delivered;
    var last := |ds| - 1;
    assert DeliveredOk(e, s, ds[i]) && DeliveredOk(e, s, ds[last]);
    LapMonotone(e.delta, ds[last].base, d.base);
    assert VersionOf(e, s, last) <= s.tx.hAt[LapOf(e.delta, d.base)];
    assert VersionOf(e, s, last) != s.tx.hAt[LapOf(e.delta, d.base)];
    assert i < last ==> VersionOf(e, s, i) < VersionOf(e, s, last);
  }

  lemma DecideInv(e: Env, s: State, s': State)
    requires Inv(e, s) && DecideCopy(e, s, s')
    ensures Inv(e, s')
  {
    DecideClean(e, s);
    CleanOutcome(e, s);
    var out := TakeWindow(e, s.rd);
    if out.New? {
      DecideNew(e, s, s', Delivery(out.stamp, out.payload, s.rd.pc.base));
    } else {
      DecideOld(e, s, s');
    }
  }

  lemma DecideOld(e: Env, s: State, s': State)
    requires Inv(e, s) && s.rd.pc.Decide? && s'.tx == s.tx && s'.rx == s.rx
    requires s'.rd == s.rd.(pc := Rest)
    ensures Inv(e, s')
  {
    HistoryKept(e, s, s');
  }

  lemma DecideNew(e: Env, s: State, s': State, d: Delivery)
    requires Inv(e, s) && CleanState(e, s) && DeliveredOk(e, s, d) && d.base == s.rd.pc.base
    requires s.rd.haveRead ==> d.stamp != s.rd.lastRead
    requires s' == s.(rd := s.rd.(pc := Rest, haveRead := true, lastRead := d.stamp,
                                  delivered := s.rd.delivered + [d]))
    ensures Inv(e, s')
  {
    assert HistoryInv(e, s') by {
      NewHistory(e, s, s', d);
    }
  }

  lemma NewHistory(e: Env, s: State, s': State, d: Delivery)
    requires TxInv(e.session, s.tx) && Legal(s) && Legal(s') && HistoryInv(e, s) && s'.tx == s.tx && s'.rx == s.rx
    requires DeliveredOk(e, s, d) && (forall x | x in s.rd.delivered :: x.base <= d.base)
    requires s.rd.haveRead ==> d.stamp != s.rd.lastRead
    requires s'.rd.delivered == s.rd.delivered + [d] && s'.rd.haveRead && s'.rd.lastRead == d.stamp
    ensures HistoryInv(e, s')
  {
    var ds' := s'.rd.delivered;
    forall i: nat | i < |ds'| ensures DeliveredOk(e, s', ds'[i]) {
      NewDelivered(e, s, s', d, i);
    }
    forall i: nat, j: nat | i < j < |ds'|
      ensures ds'[i].base <= ds'[j].base && VersionOf(e, s', i) < VersionOf(e, s', j)
    {
      NewOrder(e, s, s', d, i, j);
    }
  }

  lemma NewDelivered(e: Env, s: State, s': State, d: Delivery, i: nat)
    requires Legal(s) && Legal(s') && HistoryInv(e, s) && s'.tx == s.tx && s'.rx == s.rx && DeliveredOk(e, s, d)
    requires s'.rd.delivered == s.rd.delivered + [d] && i < |s'.rd.delivered|
    ensures DeliveredOk(e, s', s'.rd.delivered[i])
    ensures VersionOf(e, s', i) == s.tx.hAt[LapOf(e.delta, s'.rd.delivered[i].base)]
  {
    assert i < |s.rd.delivered| ==> DeliveredOk(e, s, s.rd.delivered[i]);
    DeliveredKept(e, s, s', s'.rd.delivered[i]);
  }

  lemma NewOrder(e: Env, s: State, s': State, d: Delivery, i: nat, j: nat)
    requires TxInv(e.session, s.tx) && Legal(s) && Legal(s') && HistoryInv(e, s) && s'.tx == s.tx && s'.rx == s.rx
    requires DeliveredOk(e, s, d) && (forall x | x in s.rd.delivered :: x.base <= d.base)
    requires s.rd.haveRead ==> d.stamp != s.rd.lastRead
    requires s'.rd.delivered == s.rd.delivered + [d] && i < j < |s'.rd.delivered|
    ensures DeliveredOk(e, s', s'.rd.delivered[i]) && DeliveredOk(e, s', s'.rd.delivered[j])
    ensures s'.rd.delivered[i].base <= s'.rd.delivered[j].base && VersionOf(e, s', i) < VersionOf(e, s', j)
  {
    NewDelivered(e, s, s', d, i);
    NewDelivered(e, s, s', d, j);
    if j == |s.rd.delivered| {
      NewIsLater(e, s, d, i);
    } else {
      assert VersionOf(e, s, i) < VersionOf(e, s, j);
    }
  }
}
