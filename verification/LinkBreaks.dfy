/** Why no more than one descriptor may be written back between an E access and the
    G store after it: a run of the machine that comes to such a store, and what a
    second write-back makes of it. */
module LinkBreaks {
  import opened Arith
  import opened ByteBits
  import opened Wire
  import opened WireCodec
  import opened LockEarly
  import opened LinkTx
  import opened Region
  import opened LinkRx
  import opened Beam
  import opened RegionDecode
  import opened RingCopy
  import opened Judge
  import opened Link
  import opened LinkProof
  import opened LinkRuns
  import opened LinkSteps

  /** The reader listens from here on, so that its region ends in descriptor 0 and
      the guard is descriptor 1, the one after it. */
  const DELTA: nat := 3616

  function Last(run: seq<State>): State
    requires |run| > 0
  {
    run[|run| - 1]
  }

  lemma Join(e: Env, a: seq<State>, b: seq<State>) returns (run: seq<State>)
    requires Stretch(e, a) && Stretch(e, b) && Last(a) == b[0]
    ensures Stretch(e, run) && run[0] == a[0] && Last(run) == Last(b)
  {
    run := a[..|a| - 1] + b;
    forall i: nat | 1 <= i < |run| ensures Step(e, run[i - 1], run[i]) {
      if i < |a| - 1 {
        assert Step(e, a[i - 1], a[i]);
      } else if i == |a| - 1 {
        assert Step(e, a[i - 1], a[i]);
      } else {
        assert Step(e, b[i - |a|], b[i - |a| + 1]);
      }
    }
  }

  lemma More(e: Env, run: seq<State>, s: State) returns (more: seq<State>)
    requires Stretch(e, run) && |e.session.tag| == 4 && Legal(s) && Next(e, Last(run), s)
    ensures Stretch(e, more) && more[0] == run[0] && Last(more) == s
  {
    more := run + [s];
    forall i: nat | 1 <= i < |more| ensures Step(e, more[i - 1], more[i]) {
      assert i < |run| ==> Step(e, run[i - 1], run[i]);
    }
  }

  // ---- The sender, idle ----

  function Sampled(tx: Tx): (t: Tx)
    requires Shape(tx)
    ensures Sample(tx, t)
  {
    SampleFits(tx);
    var o := |tx.sent| % N;
    tx.(sent := tx.sent + tx.cycle[o..o + 4],
        hAt := if o == OFF_H then tx.hAt + [tx.Done()] else tx.hAt,
        tAt := if o == OFF_T then tx.tAt + [tx.Started()] else tx.tAt)
  }

  lemma SampleFits(tx: Tx)
    requires Shape(tx)
    ensures |tx.sent| % N + 4 <= N
  {
    SampleSpace(|tx.sent|);
  }

  lemma SampleSpace(n: nat)
    requires n % 4 == 0
    ensures n % N + 4 <= N
  {
    var q := n / N;
    assert n == q * N + n % N && q * N == 4 * (117 * q);
  }

  lemma Samples(e: Env, run: seq<State>, count: nat) returns (more: seq<State>)
    requires |e.session.tag| == 4 && Stretch(e, run)
    ensures Stretch(e, more) && more[0] == run[0]
    ensures Last(more) == Last(run).(tx := Last(more).tx) && |Last(more).tx.sent| == |Last(run).tx.sent| + 4 * count
  {
    more := run;
    for i := 0 to count
      invariant Stretch(e, more) && more[0] == run[0] && Last(more) == Last(run).(tx := Last(more).tx)
      invariant |Last(more).tx.sent| == |Last(run).tx.sent| + 4 * i
    {
      var s := Last(more);
      var t := s.(tx := Sampled(s.tx));
      SampleShape(s.tx, t.tx);
      assert TxStep(e, s, t);
      more := More(e, more, t);
    }
  }

  // ---- The stream ----

  ghost predicate Ample(e: Env, s: State, beam: nat) {
    e.delta == DELTA && |s.tx.sent| % 2 == 0 && beam + 460 <= |s.tx.sent|
  }

  lemma Receives(e: Env, run: seq<State>, count: nat) returns (more: seq<State>)
    requires |e.session.tag| == 4 && Stretch(e, run)
    requires var s := Last(run);
      Ample(e, s, s.rx.Beam() + count) && s.rx.Beam() + count <= DESC_BYTES * (s.rx.written + 2)
    ensures Stretch(e, more) && more[0] == run[0]
    ensures var s, t := Last(run), Last(more);
      && t == s.(rx := t.rx) && t.rx.lengths == s.rx.lengths && t.rx.written == s.rx.written
      && t.rx.Beam() == s.rx.Beam() + count
  {
    more := run;
    ghost var s := Last(run);
    for i := 0 to count
      invariant Stretch(e, more) && more[0] == run[0]
      invariant var t := Last(more);
        && t == s.(rx := t.rx) && t.rx.lengths == s.rx.lengths && t.rx.written == s.rx.written
        && t.rx.Beam() == s.rx.Beam() + i
    {
      var t := OneByte(e, Last(more));
      more := More(e, more, t);
    }
  }

  lemma OneByte(e: Env, s: State) returns (t: State)
    requires Legal(s) && Ample(e, s, s.rx.Beam() + 1) && s.rx.Beam() < DESC_BYTES * (s.rx.written + 2)
    ensures Legal(t) && RxStep(e, s, t) && t == s.(rx := t.rx) && t.rx.Beam() == s.rx.Beam() + 1
    ensures t.rx.lengths == s.rx.lengths && t.rx.written == s.rx.written
  {
    var r := s.rx.Beam();
    DivMod(8 * r + DELTA, 8, r + 452, 0);
    var b := RxByte(s.tx.sent, e.delta, r);
    t := s.(rx := s.rx.(received := s.rx.received + [b], ring := s.rx.ring[Swap(r % N) := b]));
  }

  /** A whole descriptor comes in and is written back at once. */
  lemma OneDesc(e: Env, run: seq<State>) returns (more: seq<State>)
    requires |e.session.tag| == 4 && Stretch(e, run)
    requires var s := Last(run);
      && s.rx.Beam() == DESC_BYTES * s.rx.written && Ample(e, s, s.rx.Beam() + DESC_BYTES)
      && (s.rd.pc.SawE? || s.rd.pc.StoreG? ==> s.rd.crossed == 0)
    ensures Stretch(e, more) && more[0] == run[0]
    ensures var s, t := Last(run), Last(more);
      && t == s.(rx := t.rx, rd := s.rd.(crossed := s.rd.crossed + 1))
      && t.rx.lengths == s.rx.lengths[DueDesc(s.rx) := true] && t.rx.written == s.rx.written + 1
      && t.rx.Beam() == DESC_BYTES * t.rx.written
  {
    more := Receives(e, run, DESC_BYTES);
    var s := Last(more);
    var t := s.(rx := s.rx.(lengths := s.rx.lengths[DueDesc(s.rx) := true], written := s.rx.written + 1),
                rd := s.rd.(crossed := s.rd.crossed + 1));
    assert WriteBackStep(s, t);
    more := More(e, more, t);
  }

  /** The descriptors written back from one count to another. */
  ghost predicate Filled(was: seq<bool>, now: seq<bool>, from: nat, to: nat)
    requires |was| == |now| == DESC_COUNT
  {
    && (forall j: nat | from <= j < to :: now[j % DESC_COUNT])
    && (forall d: nat | d < DESC_COUNT && Spared(d, from, to) :: now[d] == was[d])
  }

  ghost predicate Spared(d: nat, from: nat, to: nat) {
    forall j: nat | from <= j < to :: j % DESC_COUNT != d
  }

  lemma Fill(e: Env, run: seq<State>, to: nat) returns (more: seq<State>)
    requires |e.session.tag| == 4 && Stretch(e, run)
    requires var s := Last(run);
      && s.rx.Beam() == DESC_BYTES * s.rx.written && s.rx.written <= to && Ample(e, s, DESC_BYTES * to) && s.rd.pc.Rest?
    ensures Stretch(e, more) && more[0] == run[0]
    ensures var s, t := Last(run), Last(more);
      && t == s.(rx := t.rx, rd := s.rd.(crossed := t.rd.crossed)) && Legal(s) && Legal(t)
      && t.rx.written == to && t.rx.Beam() == DESC_BYTES * to && Filled(s.rx.lengths, t.rx.lengths, s.rx.written, to)
  {
    more := run;
    ghost var s := Last(run);
    for i := s.rx.written to to
      invariant Stretch(e, more) && more[0] == run[0]
      invariant var t := Last(more);
        && t == s.(rx := t.rx, rd := s.rd.(crossed := t.rd.crossed)) && Legal(t)
        && t.rx.written == i && t.rx.Beam() == DESC_BYTES * i && Filled(s.rx.lengths, t.rx.lengths, s.rx.written, i)
    {
      ghost var t := Last(more);
      more := OneDesc(e, more);
      FilledMore(s.rx.lengths, t.rx.lengths, Last(more).rx.lengths, s.rx.written, i);
    }
  }

  lemma FilledMore(was: seq<bool>, mid: seq<bool>, now: seq<bool>, from: nat, to: nat)
    requires |was| == |mid| == |now| == DESC_COUNT && from <= to && Filled(was, mid, from, to)
    requires now == mid[to % DESC_COUNT := true]
    ensures Filled(was, now, from, to + 1)
  {
    forall d: nat | d < DESC_COUNT && Spared(d, from, to + 1) ensures now[d] == was[d] {
      assert to % DESC_COUNT != d && Spared(d, from, to);
    }
  }

  // ---- The run ----

  function Start(c: Session): (s: State)
    requires |c.tag| == 4
  {
    var cycle := seq(N, o requires 0 <= o < N => if IsFixed(o) then FixedByte(o, c.tag) else 0);
    State(Tx(cycle, [], Idle, [], [], []),
          Rx([], seq(N, _ => FILLER), seq(DESC_COUNT, _ => false), 0),
          Reader(false, 0, 0, 0, RegionSet(0, 0), false, 0, seq(N, _ => 0), seq(N, _ => 0), Rest, 0, []))
  }

  lemma StartInit(e: Env)
    requires |e.session.tag| == 4
    ensures Init(e, Start(e.session))
  {
    RegionShape(0, 0);
  }

  lemma StretchIsRun(e: Env, run: seq<State>)
    requires Stretch(e, run) && Init(e, run[0])
    ensures LinkRuns.IsRun(e, run) && Inv(e, Last(run))
  {
    RunInv(e, run, |run| - 1);
  }

  /** A search of a whole cycle finds the lock. */
  lemma Locks(e: Env, run: seq<State>) returns (more: seq<State>)
    requires |e.session.tag| == 4 && Stretch(e, run) && Init(e, run[0])
    requires Last(run).rd.pc.Rest? && !Last(run).rd.locked && Last(run).rx.Beam() >= N
    ensures Stretch(e, more) && more[0] == run[0]
    ensures var s, t := Last(run), Last(more);
      && t.tx == s.tx && t.rx == s.rx.(lengths := t.rx.lengths)
      && t.rd.pc.Rest? && t.rd.locked && TrueLock(e, t) && !ESet(t) && !GSet(t)
  {
    var s := Last(run);
    StretchIsRun(e, run);
    var found := FindLockIs(e, s);
    more := Join(e, run, found);
    StretchIsRun(e, more);
    if !Last(more).rd.locked {
      WholeRing(e, s);
    }
  }

  lemma WholeRing(e: Env, s: State)
    requires Inv(e, s) && s.rx.Beam() >= N
    ensures var shift := ShiftOf(e.delta);
      ValidFrame(s.rx.ring, e.session.tag, TruePhase(shift), TrueLane(shift), TrueMarker(shift))
  {
    forall k: nat | k < N ensures FromStream(s.rx.received, Swap(k), s.rx.ring[k]) {
      RingByteMixed(s.tx.sent, e.delta, s.rx, k);
    }
    SentAgrees(e, s);
    MixedIsFramed(s.tx.sent, e.delta, s.rx, s.rx.ring, e.session.tag);
    TrueFrameValid(s.rx.ring, ShiftOf(e.delta), e.session.tag);
  }

  lemma TheRegion()
    ensures TrueRegion(DELTA).endDesc == 0 && TrueRegion(DELTA).guardDesc == 1
  {
    TheShift();
    StartPlace(128);
    TheDescs(TrueMarker(128), TrueLane(128));
  }

  lemma TheShift()
    ensures ShiftOf(DELTA) == 128 && TrueLane(128) == 0
  {
  }

  lemma TheDescs(marker: nat, lane: nat)
    requires RegionSet(marker, lane).start == (16 + 110) % N && RegionSet(marker, lane).length == 352
    ensures RegionSet(marker, lane).endDesc == 0 && RegionSet(marker, lane).guardDesc == 1
  {
    DivMod(126 + 352 - 1, N, 1, 9);
    ModSmall(9, DESC_BYTES);
  }

  /** The reader, locked, with descriptor 0 about to complete: the guard is set and
      E clear. */
  lemma BeforeEnd(c: Session) returns (e: Env, run: seq<State>)
    requires |c.tag| == 4
    ensures e == Env(c, DELTA) && Stretch(e, run) && Init(e, run[0])
    ensures var s := Last(run);
      && s.rd.pc.Rest? && s.rd.locked && s.rd.region.endDesc == 0 && s.rd.region.guardDesc == 1 && !ESet(s) && GSet(s)
      && s.rx.written == 26 && s.rx.Beam() == DESC_BYTES * 26 && Ample(e, s, DESC_BYTES * 28)
  {
    e := Env(c, DELTA);
    StartInit(e);
    run := Samples(e, [Start(c)], 400);
    run := Fill(e, run, 14);
    run := Locks(e, run);
    var s := Last(run);
    RegionFacts(e, s);
    TheRegion();
    run := Fill(e, run, 26);
    assert Spared(0, 14, 26);
    assert 14 % DESC_COUNT == 1;
  }

  /** ... and then at the G store, E having been written back after it was loaded. */
  lemma AtStore(c: Session) returns (e: Env, run: seq<State>)
    requires |c.tag| == 4
    ensures e == Env(c, DELTA) && Stretch(e, run) && Init(e, run[0])
    ensures var s := Last(run);
      && s.rd.pc.StoreG? && s.rd.locked && s.rd.region.endDesc == 0 && s.rd.region.guardDesc == 1 && ESet(s)
      && s.rd.crossed == 1 && s.rx.written == 27 && s.rx.Beam() == DESC_BYTES * 28
  {
    e, run := BeforeEnd(c);
    var s := Last(run);
    var s1 := s.(rd := s.rd.(pc := SawE(false), crossed := 0));
    assert LoadE(s, s1);
    run := More(e, run, s1);
    var s2 := s1.(rd := s1.rd.(pc := StoreG));
    assert LoadG(s1, s2);
    run := More(e, run, s2);
    run := OneDesc(e, run);
    run := Receives(e, run, DESC_BYTES);
  }

  /** A run of the machine reaches the G store with E set; so far the window is
      open. If G too is written back now, the store leaves E set and G clear with
      the window over: the next step of the reader takes it for open. */
  lemma SecondWriteBackBreaks(c: Session) returns (e: Env, run: seq<State>, t: State, u: State)
    requires |c.tag| == 4
    ensures LinkRuns.IsRun(e, run)
    ensures var s := Last(run);
      && Legal(s) && s.rd.pc.StoreG? && ESet(s) && Open(s.rd.region, s.rx.written) && s.rd.crossed == 1
      && AnyWriteBack(s, t) && DueDesc(s.rx) == s.rd.region.guardDesc
    ensures Legal(t) && ArmG(t, u)
    ensures Legal(u) && u.rd.pc.Rest? && u.rd.locked && TripwireOf(ESet(u), GSet(u)) == Tripwire.Window
    ensures !InWindow(u.rd.region, u.rx.written)
  {
    e, run := AtStore(c);
    StretchIsRun(e, run);
    var s3 := Last(run);
    t := s3.(rx := s3.rx.(lengths := s3.rx.lengths[1 := true], written := 28), rd := s3.rd.(crossed := 2));
    u := t.(rx := t.rx.(lengths := t.rx.lengths[1 := false]), rd := t.rd.(pc := Rest));
  }
}
