/** One direction of the link, whole: writer, TX DMA, wire, RX DMA and reader,
    interleaved one memory access at a time.

    The reader may search, poll its tripwires, copy, abandon a window or lose its
    lock at any point the code allows; how fast each party runs is arbitrary. */
module Link {
  import opened ByteBits
  import opened Wire
  import opened WireCodec
  import opened LockEarly
  import opened LockSearch
  import opened LinkTx
  import opened Region
  import opened LinkRx
  import opened Beam
  import opened RegionDecode
  import opened Judge

  /** The writer's session, and the bits of it sent before this end listened. */
  datatype Env = Env(session: Session, delta: nat)

  /** Where the reader is. Every step but Search and Decide, which work on the
      reader's own memory, is one access to memory the DMA shares. whole: a whole
      cycle had come in when the search began. */
  datatype Pc =
    | Rest                                   // between calls, or between passes of read()
    | Snap(i: nat, whole: bool)              // search: copying the ring
    | Search(whole: bool)                    // search: decoding the snapshot
    | SawE(isSet: bool)                       // tripwire_step: E loaded, G not yet
    | StoreE                                 // re-arming both: about to store E
    | StoreG                                 // about to store G
    | Window                                 // tripwire_step returned TW_WINDOW
    | Copy(i: nat)                           // copy_region: i samples copied
    | Check                                  // copied; about to look at G
    | Consume(tripped: bool, base: nat)      // about to re-arm E
    | Decide(base: nat)                      // checking the copy

  /** base: where in the received stream the copy behind a delivery began. */
  datatype Delivery = Delivery(stamp: word, payload: seq<byte>, base: nat)

  /** crossed counts write-backs since the reader last loaded or stored E in a step
      that goes on to store G. */
  datatype Reader = Reader(locked: bool, phase: nat, lane: nat, marker: nat, region: RawRegion,
                           haveRead: bool, lastRead: word, snap: seq<byte>, copy: seq<byte>,
                           pc: Pc, crossed: nat, delivered: seq<Delivery>)

  datatype State = State(tx: Tx, rx: Rx, rd: Reader)

  ghost predicate Legal(s: State) {
    && Shape(s.tx) && RxShape(s.rx)
    && |s.rd.snap| == N && |s.rd.copy| == N
    && s.rd.phase < 8 && s.rd.lane < 2 && s.rd.marker < N
    && s.rd.region == RegionSet(s.rd.marker, s.rd.lane)
    && s.rd.region.endDesc < DESC_COUNT && s.rd.region.guardDesc < DESC_COUNT
    && (s.rd.pc.Snap? ==> s.rd.pc.i < N)
  }

  function ESet(s: State): bool
    requires |s.rx.lengths| == DESC_COUNT && s.rd.region.endDesc < DESC_COUNT
  {
    s.rx.lengths[s.rd.region.endDesc]
  }

  function GSet(s: State): bool
    requires |s.rx.lengths| == DESC_COUNT && s.rd.region.guardDesc < DESC_COUNT
  {
    s.rx.lengths[s.rd.region.guardDesc]
  }

  ghost predicate Init(e: Env, s: State) {
    && IsSession(e.session) && TxInit(e.session, s.tx)
    && RxInit(s.rx)
    && Legal(s) && !s.rd.locked && s.rd.pc.Rest? && s.rd.delivered == []
  }

  // ---- The hardware's steps ----

  ghost predicate TxStep(e: Env, s: State, s': State)
    requires Legal(s)
  {
    TxNext(e.session, s.tx, s'.tx) && s' == s.(tx := s'.tx)
  }

  /** A byte comes in. */
  ghost predicate RxStep(e: Env, s: State, s': State)
    requires Legal(s)
  {
    Receive(s.tx.sent, e.delta, s.rx, s'.rx) && s' == s.(rx := s'.rx)
  }

  /** A descriptor is written back. No more than one is while the reader is between
      an E access and the G store that follows from it. */
  ghost predicate WriteBackStep(s: State, s': State)
    requires Legal(s)
  {
    && (s.rd.pc.SawE? || s.rd.pc.StoreG? ==> s.rd.crossed == 0)
    && AnyWriteBack(s, s')
  }

  ghost predicate AnyWriteBack(s: State, s': State)
    requires Legal(s)
  {
    WriteBack(s.rx, s'.rx) && s' == s.(rx := s'.rx, rd := s.rd.(crossed := s.rd.crossed + 1))
  }

  // ---- The reader's steps ----

  /** search(), at any time. */
  ghost predicate StartSearch(s: State, s': State)
    requires Legal(s)
  {
    s.rd.pc.Rest? && !s.rd.locked && s' == s.(rd := s.rd.(pc := Snap(0, s.rx.Beam() >= N)))
  }

  ghost predicate SnapByte(s: State, s': State)
    requires Legal(s)
  {
    && s.rd.pc.Snap?
    && var i, whole := s.rd.pc.i, s.rd.pc.whole;
       s' == s.(rd := s.rd.(snap := s.rd.snap[i := s.rx.ring[i]],
                            pc := if i + 1 == N then Search(whole) else Snap(i + 1, whole)))
  }

  ghost predicate SearchFound(e: Env, s: State, s': State, phase: nat, lane: nat, marker: nat)
    requires Legal(s) && |e.session.tag| == 4 && phase < 8 && lane < 2 && marker < N
  {
    && s.rd.pc.Search? && ValidFrame(s.rd.snap, e.session.tag, phase, lane, marker)
    && s' == s.(rd := s.rd.(locked := true, phase := phase, lane := lane, marker := marker,
                            region := RegionSet(marker, lane), pc := StoreE))
  }

  ghost predicate SearchFailed(e: Env, s: State, s': State)
    requires Legal(s) && |e.session.tag| == 4
  {
    && s.rd.pc.Search?
    && (forall p: nat, l: nat, m: nat | p < 8 && l < 2 && m < N :: !ValidFrame(s.rd.snap, e.session.tag, p, l, m))
    && s' == s.(rd := s.rd.(pc := Rest))
  }

  /** tripwire_step(): E first, then G. */
  ghost predicate LoadE(s: State, s': State)
    requires Legal(s)
  {
    s.rd.pc.Rest? && s.rd.locked && s' == s.(rd := s.rd.(pc := SawE(ESet(s)), crossed := 0))
  }

  ghost predicate LoadG(s: State, s': State)
    requires Legal(s)
  {
    && s.rd.pc.SawE?
    && s' == s.(rd := s.rd.(pc :=
         if s.rd.pc.isSet then (if GSet(s) then StoreE else Pc.Window) else if GSet(s) then StoreG else Rest))
  }

  ghost predicate ArmE(s: State, s': State)
    requires Legal(s)
  {
    && s.rd.pc.StoreE?
    && s' == s.(rx := s.rx.(lengths := s.rx.lengths[s.rd.region.endDesc := false]),
                rd := s.rd.(pc := StoreG, crossed := 0))
  }

  ghost predicate ArmG(s: State, s': State)
    requires Legal(s)
  {
    && s.rd.pc.StoreG?
    && s' == s.(rx := s.rx.(lengths := s.rx.lengths[s.rd.region.guardDesc := false]), rd := s.rd.(pc := Rest))
  }

  /** hint() at a window: leave it to read(), or re-arm E only. */
  ghost predicate LeaveWindow(s: State, s': State)
    requires Legal(s)
  {
    s.rd.pc.Window? && s' == s.(rd := s.rd.(pc := Rest))
  }

  ghost predicate RearmE(s: State, s': State)
    requires Legal(s)
  {
    && s.rd.pc.Window?
    && s' == s.(rx := s.rx.(lengths := s.rx.lengths[s.rd.region.endDesc := false]), rd := s.rd.(pc := Rest))
  }

  ghost predicate BeginCopy(s: State, s': State)
    requires Legal(s)
  {
    s.rd.pc.Window? && s' == s.(rd := s.rd.(pc := Copy(0)))
  }

  /** copy_region(): one 16-bit sample. */
  ghost predicate CopySample(s: State, s': State)
    requires Legal(s)
  {
    && s.rd.pc.Copy? && s.rd.region.start % 2 == 0
    && var a := (s.rd.region.start + 2 * s.rd.pc.i) % N;
       && a + 1 < N
       && s' == s.(rd := s.rd.(copy := s.rd.copy[a := s.rx.ring[a]][a + 1 := s.rx.ring[a + 1]],
                               pc := if 2 * (s.rd.pc.i + 1) < s.rd.region.length then Copy(s.rd.pc.i + 1) else Check))
  }

  /** Where the region that came in last starts in the stream, as far as the
      write-backs tell. */
  function Base(s: State): int {
    RegionBase(s.rd.region, DESC_BYTES * s.rx.written)
  }

  ghost predicate CheckG(s: State, s': State)
    requires Legal(s)
  {
    && s.rd.pc.Check?
    && s' == s.(rd := s.rd.(pc := Consume(GSet(s), if Base(s) >= 0 then Base(s) else 0)))
  }

  /** The window is consumed; a tripped copy is dropped and both re-armed. */
  ghost predicate ConsumeE(s: State, s': State)
    requires Legal(s)
  {
    && s.rd.pc.Consume?
    && s' == s.(rx := s.rx.(lengths := s.rx.lengths[s.rd.region.endDesc := false]),
                rd := s.rd.(pc := if s.rd.pc.tripped then StoreE else Decide(s.rd.pc.base)))
  }

  /** What take_window() makes of an untripped copy. */
  function TakeWindow(e: Env, rd: Reader): Taken
    requires |rd.copy| == N && rd.phase < 8
  {
    Judged(rd.copy, rd.phase, rd.lane, rd.marker, rd.haveRead, rd.lastRead, e.session.crc)
  }

  ghost predicate DecideCopy(e: Env, s: State, s': State)
    requires Legal(s)
  {
    && s.rd.pc.Decide?
    && var rest := s.rd.(pc := Rest);
       s'.tx == s.tx && s'.rx == s.rx && s'.rd ==
         match TakeWindow(e, s.rd)
         case New(h, payload) => rest.(haveRead := true, lastRead := h,
                                       delivered := rest.delivered + [Delivery(h, payload, s.rd.pc.base)])
         case Framing => rest.(locked := false)
         case _ => rest
  }

  /** The lock may also be lost for reasons outside this model. */
  ghost predicate LoseLock(s: State, s': State)
    requires Legal(s)
  {
    s.rd.pc.Rest? && s' == s.(rd := s.rd.(locked := false))
  }

  ghost predicate TripwireStep(s: State, s': State)
    requires Legal(s)
  {
    || LoadE(s, s') || LoadG(s, s') || ArmE(s, s') || ArmG(s, s') || LeaveWindow(s, s') || RearmE(s, s')
    || StartSearch(s, s') || LoseLock(s, s')
  }

  ghost predicate ReaderStep(e: Env, s: State, s': State)
    requires Legal(s) && |e.session.tag| == 4
  {
    || TripwireStep(s, s') || SnapByte(s, s') || SearchFailed(e, s, s')
    || (exists p: nat, l: nat, m: nat :: p < 8 && l < 2 && m < N && SearchFound(e, s, s', p, l, m))
    || BeginCopy(s, s') || CopySample(s, s') || CheckG(s, s') || ConsumeE(s, s') || DecideCopy(e, s, s')
  }

  ghost predicate Next(e: Env, s: State, s': State)
    requires Legal(s) && |e.session.tag| == 4
  {
    TxStep(e, s, s') || RxStep(e, s, s') || WriteBackStep(s, s') || ReaderStep(e, s, s')
  }

  // ---- The invariant ----

  /** E set and G clear means that the window is open. */
  ghost predicate TripOk(s: State)
    requires Legal(s)
  {
    ESet(s) && !GSet(s) ==> Open(s.rd.region, s.rx.written)
  }

  /** G may be stored: if E was set meanwhile, the window is open. */
  ghost predicate ArmOk(s: State)
    requires Legal(s)
  {
    ESet(s) ==> s.rd.crossed > 0 && Open(s.rd.region, s.rx.written)
  }

  /** The first count bytes of the region are copied, from one lap. */
  ghost predicate CopyOk(e: Env, s: State, count: nat)
    requires Legal(s)
  {
    !GSet(s) ==> Base(s) >= 0 && Copied(s.rx.received, s.rd.copy, e.delta, Base(s), count)
  }

  ghost predicate CleanCopy(e: Env, s: State, base: nat)
    requires Legal(s)
  {
    && Copied(s.rx.received, s.rd.copy, e.delta, base, s.rd.region.length)
    && base + s.rd.region.length <= s.rx.Beam()
    && (forall d | d in s.rd.delivered :: d.base <= base)
  }

  ghost predicate TrueLock(e: Env, s: State)
    requires Legal(s)
  {
    var shift := ShiftOf(e.delta);
    && s.rd.phase == TruePhase(shift) && s.rd.lane == TrueLane(shift) && s.rd.marker == TrueMarker(shift)
    && Ahead(s.rd.region, s.rx.written)
  }

  /** A search begun with a whole cycle in the ring meets no filler. */
  ghost predicate SnapOk(s: State, count: nat, whole: bool) {
    && !s.rd.locked && PartMixed(s.rx.received, s.rd.snap, count)
    && (whole ==> s.rx.Beam() >= N && Mixed(s.rx.received, s.rd.snap, count))
  }

  ghost predicate PcInv(e: Env, s: State)
    requires Legal(s)
  {
    match s.rd.pc
    case Rest => s.rd.locked ==> TripOk(s)
    case Snap(i, whole) => SnapOk(s, i, whole)
    case Search(whole) => SnapOk(s, N, whole)
    case SawE(isSet) => TripOk(s) && (if isSet then ESet(s) else ArmOk(s))
    case StoreE => true
    case StoreG => ArmOk(s)
    case Window => TripOk(s) && ESet(s)
    case Copy(i) => TripOk(s) && ESet(s) && 2 * i < s.rd.region.length && CopyOk(e, s, 2 * i)
    case Check => TripOk(s) && ESet(s) && CopyOk(e, s, s.rd.region.length)
    case Consume(tripped, base) => !tripped ==> CleanCopy(e, s, base)
    case Decide(base) => TripOk(s) && CleanCopy(e, s, base)
  }

  /** Version v of the session, as delivered. */
  ghost predicate IsVersion(e: Env, s: State, d: Delivery, v: nat) {
    1 <= v <= |s.tx.payloads| && d.stamp == Stamp(e.session.start, v) && d.payload == s.tx.payloads[v - 1]
  }

  ghost predicate DeliveredOk(e: Env, s: State, d: Delivery)
    requires Legal(s)
  {
    && LapOf(e.delta, d.base) < |s.tx.hAt| && IsVersion(e, s, d, s.tx.hAt[LapOf(e.delta, d.base)])
    && d.base % N == TrueRegion(e.delta).start && d.base + 352 <= s.rx.Beam()
  }

  ghost function VersionOf(e: Env, s: State, i: nat): nat
    requires Legal(s) && i < |s.rd.delivered| && DeliveredOk(e, s, s.rd.delivered[i])
  {
    s.tx.hAt[LapOf(e.delta, s.rd.delivered[i].base)]
  }

  ghost predicate HistoryInv(e: Env, s: State)
    requires Legal(s)
  {
    var ds := s.rd.delivered;
    && (forall i: nat | i < |ds| :: DeliveredOk(e, s, ds[i]))
    && (forall i: nat, j: nat | i < j < |ds| :: ds[i].base <= ds[j].base && VersionOf(e, s, i) < VersionOf(e, s, j))
    && (|ds| > 0 ==> s.rd.haveRead && s.rd.lastRead == ds[|ds| - 1].stamp)
  }

  /** What the invariant says of the reader. */
  ghost predicate ReaderInv(e: Env, s: State) {
    && Legal(s)
    && (!(s.rd.pc.Rest? || s.rd.pc.Snap? || s.rd.pc.Search?) ==> s.rd.locked)
    && (s.rd.locked ==> TrueLock(e, s))
    && PcInv(e, s)
    && HistoryInv(e, s)
  }

  /** The receiving end's part of the invariant. */
  ghost predicate RdInv(e: Env, s: State) {
    RxInv(s.tx.sent, e.delta, s.rx) && ReaderInv(e, s)
  }

  ghost predicate Inv(e: Env, s: State) {
    TxInv(e.session, s.tx) && RdInv(e, s)
  }
}
