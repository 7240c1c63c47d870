/** Every interleaving of the link keeps its invariant, and what reaches the
    reader's caller is what the writer wrote. */
module LinkProof {
  import opened Arith
  import opened ByteBits
  import opened Wire
  import opened LockUnique
  import opened LockEarly
  import opened LockSearch
  import opened LinkTx
  import opened Region
  import opened LinkRx
  import opened Beam
  import opened RegionDecode
  import opened RingCopy
  import opened Link

  // ---- The history of deliveries ----

  lemma DeliveredKept(e: Env, s: State, s': State, d: Delivery)
    requires Legal(s) && Legal(s') && DeliveredOk(e, s, d)
    requires s.tx.payloads <= s'.tx.payloads && s.tx.hAt <= s'.tx.hAt && s.rx.Beam() <= s'.rx.Beam()
    ensures DeliveredOk(e, s', d) && s'.tx.hAt[LapOf(e.delta, d.base)] == s.tx.hAt[LapOf(e.delta, d.base)]
  {
  }

  lemma HistoryKept(e: Env, s: State, s': State)
    requires Legal(s) && Legal(s') && HistoryInv(e, s)
    requires s.tx.payloads <= s'.tx.payloads && s.tx.hAt <= s'.tx.hAt && s.rx.Beam() <= s'.rx.Beam()
    requires s'.rd.delivered == s.rd.delivered
    requires s'.rd.haveRead == s.rd.haveRead && s'.rd.lastRead == s.rd.lastRead
    ensures HistoryInv(e, s')
  {
    var ds := s.rd.delivered;
    forall i: nat | i < |ds|
      ensures DeliveredOk(e, s', ds[i]) && VersionOf(e, s', i) == VersionOf(e, s, i)
    {
      DeliveredKept(e, s, s', ds[i]);
    }
    forall i: nat, j: nat | i < j < |ds|
      ensures ds[i].base <= ds[j].base && VersionOf(e, s', i) < VersionOf(e, s', j)
    {
      assert VersionOf(e, s, i) < VersionOf(e, s, j);
    }
  }

  lemma InitInv(e: Env, s: State)
    requires Init(e, s)
    ensures Inv(e, s)
  {
    TxInitInv(e.session, s.tx);
    RxInitInv(s.tx.sent, e.delta, s.rx);
  }

  /** The reader's invariant is about the received stream only. */
  lemma TxPc(e: Env, s: State, s': State)
    requires Legal(s) && Legal(s') && s'.rx == s.rx && s'.rd == s.rd && PcInv(e, s)
    ensures PcInv(e, s')
  {
  }

  lemma SenderMoved(e: Env, s: State, s': State)
    requires RdInv(e, s) && Shape(s'.tx) && s'.rx == s.rx && s'.rd == s.rd
    requires s.tx.sent <= s'.tx.sent && s.tx.payloads <= s'.tx.payloads && s.tx.hAt <= s'.tx.hAt
    ensures RdInv(e, s')
  {
    EvenLength(|s'.tx.sent|);
    LongerSent(s.tx.sent, s'.tx.sent, e.delta, s.rx);
    ReaderMoved(e, s, s');
  }

  lemma EvenLength(n: nat)
    requires n % 4 == 0
    ensures n % 2 == 0
  {
    DivMod(n, 2, 2 * (n / 4), 0);
  }

  lemma ReaderMoved(e: Env, s: State, s': State)
    requires ReaderInv(e, s) && Shape(s'.tx) && s'.rx == s.rx && s'.rd == s.rd
    requires s.tx.payloads <= s'.tx.payloads && s.tx.hAt <= s'.tx.hAt
    ensures ReaderInv(e, s')
  {
    ReaderUnmoved(e, s, s');
  }

  lemma ReaderUnmoved(e: Env, s: State, s': State)
    requires Legal(s) && Legal(s') && s'.rx == s.rx && s'.rd == s.rd && PcInv(e, s) && HistoryInv(e, s)
    requires s.tx.payloads <= s'.tx.payloads && s.tx.hAt <= s'.tx.hAt
    ensures PcInv(e, s') && HistoryInv(e, s')
  {
    TxPc(e, s, s');
    HistoryKept(e, s, s');
  }

  lemma TxStepInv(e: Env, s: State, s': State)
    requires Inv(e, s) && TxStep(e, s, s')
    ensures Inv(e, s')
  {
    TxNextInv(e.session, s.tx, s'.tx);
    SenderMoved(e, s, s');
  }

  // ---- A byte comes in ----

  lemma RegionFacts(e: Env, s: State)
    requires Legal(s) && TrueLock(e, s)
    ensures s.rd.region == TrueRegion(e.delta) && s.rd.region.length == 352
    ensures s.rd.region.start % 2 == 0 && s.rd.region.start < N && s.rd.region.endDesc != s.rd.region.guardDesc
  {
    StartPlace(ShiftOf(e.delta));
    RegionShape(s.rd.marker, s.rd.lane);
    var rg := s.rd.region;
    assert (rg.start + N - rg.start) % N == 0;
    TripwiresOutside(s.rd.marker, s.rd.lane, rg.start);
  }

  lemma RxClean(e: Env, s: State, s': State, base: nat)
    requires Legal(s) && Legal(s') && CleanCopy(e, s, base) && s'.rd.copy == s.rd.copy
    requires s'.rd.region == s.rd.region && s'.rd.delivered == s.rd.delivered && s.rx.received <= s'.rx.received
    ensures CleanCopy(e, s', base)
  {
  }

  lemma StillFromStream(received: seq<byte>, received': seq<byte>, q: nat, b: byte)
    requires FromStream(received, q, b) && received <= received'
    ensures FromStream(received', q, b)
  {
    var r: nat :| r < |received| && r % N == q && received[r] == b;
    assert received'[r] == b;
  }

  lemma RxSnap(s: State, s': State, count: nat, whole: bool)
    requires SnapOk(s, count, whole) && s.rx.received <= s'.rx.received && s'.rd.snap == s.rd.snap && !s'.rd.locked
    ensures SnapOk(s', count, whole)
  {
    forall k: nat | k < count && k < N
      ensures s'.rd.snap[k] == FILLER || FromStream(s'.rx.received, Swap(k), s'.rd.snap[k])
      ensures whole ==> FromStream(s'.rx.received, Swap(k), s'.rd.snap[k])
    {
      assert s.rd.snap[k] == FILLER || FromStream(s.rx.received, Swap(k), s.rd.snap[k]);
      assert whole ==> FromStream(s.rx.received, Swap(k), s.rd.snap[k]);
      if FromStream(s.rx.received, Swap(k), s.rd.snap[k]) {
        StillFromStream(s.rx.received, s'.rx.received, Swap(k), s.rd.snap[k]);
      }
    }
  }

  /** No write-back has been seen, so the tripwires say what they said. */
  lemma RxPc(e: Env, s: State, s': State)
    requires RdInv(e, s) && RxStep(e, s, s') && Legal(s')
    ensures PcInv(e, s')
  {
    match s.rd.pc
    case Snap(i, whole) => RxSnap(s, s', i, whole);
    case Search(whole) => RxSnap(s, s', N, whole);
    case Consume(tripped, base) => if !tripped { RxClean(e, s, s', base); }
    case Decide(base) => RxClean(e, s, s', base);
    case _ =>
  }

  lemma RxStepInv(e: Env, s: State, s': State)
    requires Inv(e, s) && RxStep(e, s, s')
    ensures Inv(e, s')
  {
    ReceiveInv(s.tx.sent, e.delta, s.rx, s'.rx);
    assert Legal(s');
    RxPc(e, s, s');
    HistoryKept(e, s, s');
  }

  // ---- A descriptor is written back ----

  /** E's write-back finds its whole region come in. */
  lemma EndOpens(e: Env, s: State)
    requires Legal(s) && TrueLock(e, s) && DueDesc(s.rx) == s.rd.region.endDesc
    ensures Open(s.rd.region, s.rx.written + 1)
  {
    RegionFacts(e, s);
    WindowEvents(s.rd.region, s.rx.written);
    EndArrives(s.rd.marker, s.rd.lane, s.rx.written);
  }

  /** The tripwires still tell the truth. */
  lemma BackTrip(e: Env, s: State, s': State)
    requires Legal(s) && TrueLock(e, s) && AnyWriteBack(s, s') && TripOk(s)
    ensures Legal(s') && TrueLock(e, s') && TripOk(s')
  {
    RegionFacts(e, s);
    WindowEvents(s.rd.region, s.rx.written);
    if DueDesc(s.rx) == s.rd.region.endDesc {
      EndOpens(e, s);
    }
  }

  /** The one write-back that may fall before a G store leaves it harmless. */
  lemma BackArm(e: Env, s: State, s': State)
    requires Legal(s) && TrueLock(e, s) && WriteBackStep(s, s') && ArmOk(s)
    requires s.rd.pc.SawE? || s.rd.pc.StoreG?
    ensures Legal(s') && ArmOk(s')
  {
    if DueDesc(s.rx) == s.rd.region.endDesc {
      EndOpens(e, s);
    }
  }

  /** While G stays clear, the copied part of the region stays the ring's. */
  lemma BackCopy(e: Env, s: State, s': State, count: nat)
    requires Legal(s) && TrueLock(e, s) && AnyWriteBack(s, s') && TripOk(s) && ESet(s) && CopyOk(e, s, count)
    ensures Legal(s') && CopyOk(e, s', count) && ESet(s')
  {
    BackTrip(e, s, s');
    if !GSet(s') {
      BaseStays(s.rd.marker, s.rd.lane, s.rx.written);
    }
  }

  lemma BackPc(e: Env, s: State, s': State)
    requires RdInv(e, s) && WriteBackStep(s, s') && Legal(s')
    ensures PcInv(e, s')
  {
    match s.rd.pc
    case Rest => if s.rd.locked { BackTrip(e, s, s'); }
    case Snap(i, whole) => RxSnap(s, s', i, whole);
    case Search(whole) => RxSnap(s, s', N, whole);
    case SawE(isSet) => BackTrip(e, s, s'); if !isSet { BackArm(e, s, s'); }
    case StoreE =>
    case StoreG => BackArm(e, s, s');
    case Window => BackTrip(e, s, s');
    case Copy(i) => BackTrip(e, s, s'); BackCopy(e, s, s', 2 * i);
    case Check => BackTrip(e, s, s'); BackCopy(e, s, s', s.rd.region.length);
    case Consume(tripped, base) => if !tripped { RxClean(e, s, s', base); }
    case Decide(base) => BackTrip(e, s, s'); RxClean(e, s, s', base);
  }

  lemma WriteBackStepInv(e: Env, s: State, s': State)
    requires Inv(e, s) && WriteBackStep(s, s')
    ensures Inv(e, s')
  {
    WriteBackInv(s.tx.sent, e.delta, s.rx, s'.rx);
    assert Legal(s');
    BackPc(e, s, s');
    HistoryKept(e, s, s');
  }

  // ---- The reader's accesses ----

  lemma SnapByteInv(e: Env, s: State, s': State)
    requires RdInv(e, s) && SnapByte(s, s')
    ensures RdInv(e, s')
  {
    var i, whole := s.rd.pc.i, s.rd.pc.whole;
    RingByteInPart(s.tx.sent, e.delta, s.rx, i);
    if whole {
      RingByteMixed(s.tx.sent, e.delta, s.rx, i);
    }
    assert SnapOk(s', i + 1, whole) by {
      SnapMore(s, s', i, whole);
    }
    HistoryKept(e, s, s');
  }

  lemma SnapMore(s: State, s': State, i: nat, whole: bool)
    requires SnapOk(s, i, whole) && |s.rx.ring| == N && i < N && s'.rx == s.rx && !s'.rd.locked
    requires s'.rd.snap == s.rd.snap[i := s.rx.ring[i]]
    requires s.rx.ring[i] == FILLER || FromStream(s.rx.received, Swap(i), s.rx.ring[i])
    requires whole ==> FromStream(s.rx.received, Swap(i), s.rx.ring[i])
    ensures SnapOk(s', i + 1, whole)
  {
    forall k: nat | k < i + 1 && k < N
      ensures s'.rd.snap[k] == FILLER || FromStream(s'.rx.received, Swap(k), s'.rd.snap[k])
      ensures whole ==> FromStream(s'.rx.received, Swap(k), s'.rd.snap[k])
    {
      if k < i {
        assert s.rd.snap[k] == FILLER || FromStream(s.rx.received, Swap(k), s.rd.snap[k]);
        assert whole ==> FromStream(s.rx.received, Swap(k), s.rd.snap[k]);
      }
    }
  }

  /** The search finds the true lock, at any time. */
  lemma SearchFoundInv(e: Env, s: State, s': State, phase: nat, lane: nat, marker: nat)
    requires Inv(e, s) && phase < 8 && lane < 2 && marker < N && SearchFound(e, s, s', phase, lane, marker)
    ensures Inv(e, s')
  {
    SentAgrees(e, s);
    MixedInPart(s.tx.sent, e.delta, s.rx, s.rd.snap, e.session.tag);
    UniqueInPart(s.rd.snap, ShiftOf(e.delta), e.session.tag, e.session.tag, phase, lane, marker);
    RegionShape(marker, lane);
    LockAhead(e.delta, s.rx.received, s.rd.snap, s.rx.written);
    HistoryKept(e, s, s');
  }

  /** By then E's first write-back is past, if the region begins before the place
      where the stream did: the byte in front of it has come in. */
  lemma LockAhead(delta: nat, received: seq<byte>, raw: seq<byte>, written: nat)
    requires PartMixed(received, raw, N) && raw[Swap(BitByte(ShiftOf(delta), 800))] != FILLER
    requires |received| <= DESC_BYTES * (written + 2)
    ensures Ahead(TrueRegion(delta), written)
  {
    var shift := ShiftOf(delta);
    var r := SourceInPart(received, raw, BitByte(shift, 800));
    StartPlace(shift);
    BeforeRegion(shift);
    WrappedEnd(TrueRegion(delta).start, r, written);
  }

  lemma BeforeRegion(shift: nat)
    requires shift < BITS
    ensures var start := (shift / 8 + 110 + TrueLane(shift)) % N;
      start >= 117 ==> BitByte(shift, 800) == start - 10 - TrueLane(shift)
  {
    var b, d, x := shift / 8, shift % 8, shift / 8 + 110 + TrueLane(shift);
    if b + 100 < N {
      DivMod(800 + shift, BITS, 0, 8 * (b + 100) + d);
      DivMod(8 * (b + 100) + d, 8, b + 100, d);
    } else {
      DivMod(800 + shift, BITS, 1, 8 * (b + 100 - N) + d);
      DivMod(8 * (b + 100 - N) + d, 8, b + 100 - N, d);
    }
    if x < N {
      ModSmall(x, N);
    } else {
      DivMod(x, N, 1, x - N);
    }
  }

  lemma WrappedEnd(start: nat, r: nat, written: nat)
    requires start < N && r < DESC_BYTES * (written + 2)
    requires start >= 117 ==> r >= start - 11
    ensures start + 352 <= N || (start + 351) % N / DESC_BYTES < written
  {
    if start + 352 > N {
      DivMod(start + 351, N, 1, start - 117);
    }
  }

  lemma SentAgrees(e: Env, s: State)
    requires Inv(e, s)
    ensures SentFixedBytes(s.tx.sent, e.session.tag)
  {
    assert SentFixed(e.session, s.tx);
  }

  /** A search begun with a whole cycle in the ring never fails. */
  lemma SearchNeverFails(e: Env, s: State, s': State)
    requires Inv(e, s) && s.rd.pc.Search? && s.rd.pc.whole
    ensures !SearchFailed(e, s, s')
  {
    SentAgrees(e, s);
    MixedIsFramed(s.tx.sent, e.delta, s.rx, s.rd.snap, e.session.tag);
    TrueFrameValid(s.rd.snap, ShiftOf(e.delta), e.session.tag);
  }

  /** An earlier one may; then the reader rests, still without a lock. */
  lemma SearchFailedInv(e: Env, s: State, s': State)
    requires Inv(e, s) && SearchFailed(e, s, s')
    ensures Inv(e, s')
  {
    HistoryKept(e, s, s');
  }

  lemma TripwireInv(e: Env, s: State, s': State)
    requires RdInv(e, s) && TripwireStep(s, s')
    ensures RdInv(e, s')
  {
    assert Legal(s');
    assert RxInv(s'.tx.sent, e.delta, s'.rx);
    HistoryKept(e, s, s');
    if s.rd.locked {
      RegionFacts(e, s);
    }
    TripwirePc(e, s, s');
  }

  lemma TripwirePc(e: Env, s: State, s': State)
    requires Legal(s) && Legal(s') && PcInv(e, s) && TripwireStep(s, s')
    requires s.rd.locked ==> s.rd.region.endDesc != s.rd.region.guardDesc
    requires !(s.rd.pc.Rest? || s.rd.pc.Snap? || s.rd.pc.Search?) ==> s.rd.locked
    ensures PcInv(e, s')
  {
  }

  lemma BeginCopyInv(e: Env, s: State, s': State)
    requires RdInv(e, s) && BeginCopy(s, s')
    ensures RdInv(e, s')
  {
    RegionFacts(e, s);
    HistoryKept(e, s, s');
    if !GSet(s) {
      WindowBase(s.rd.marker, s.rd.lane, s.rx.written);
    }
  }

  // ---- The copy ----

  lemma CopySampleInv(e: Env, s: State, s': State)
    requires RdInv(e, s) && CopySample(s, s')
    ensures RdInv(e, s')
  {
    RegionFacts(e, s);
    HistoryKept(e, s, s');
    if !GSet(s) {
      CopiedMore(e, s, s');
    }
  }

  lemma CopiedMore(e: Env, s: State, s': State)
    requires RdInv(e, s) && CopySample(s, s') && !GSet(s)
    ensures Legal(s') && Base(s') == Base(s) >= 0
    ensures Copied(s'.rx.received, s'.rd.copy, e.delta, Base(s), 2 * s.rd.pc.i + 2)
  {
    RegionFacts(e, s);
    WindowBase(s.rd.marker, s.rd.lane, s.rx.written);
    CopyStep(s.tx.sent, e.delta, s.rx, s.rd.copy, s'.rd.copy, Base(s), s.rd.region.start, s.rd.pc.i);
  }

  lemma CheckGInv(e: Env, s: State, s': State)
    requires RdInv(e, s) && CheckG(s, s')
    ensures RdInv(e, s')
  {
    HistoryKept(e, s, s');
    if !GSet(s) {
      RegionFacts(e, s);
      WindowBase(s.rd.marker, s.rd.lane, s.rx.written);
      forall d | d in s.rd.delivered ensures d.base <= Base(s) {
        var i: nat :| i < |s.rd.delivered| && s.rd.delivered[i] == d;
        assert DeliveredOk(e, s, s.rd.delivered[i]);
        LaterBase(d.base, Base(s));
      }
    }
  }

  lemma ConsumeInv(e: Env, s: State, s': State)
    requires RdInv(e, s) && ConsumeE(s, s')
    ensures RdInv(e, s')
  {
    RegionFacts(e, s);
    HistoryKept(e, s, s');
  }
}
