/** The reader's functions, run undisturbed, are steps of the link's machine: each
    has a stretch of reader steps that ends in the state its method ends in. */
module LinkSteps {
  import opened Arith
  import opened ByteBits
  import opened Wire
  import opened WireCodec
  import opened Region
  import opened LinkRx
  import opened Judge
  import opened LinkReader
  import opened Link
  import opened LinkRuns

  ghost predicate Stretch(e: Env, run: seq<State>) {
    && |run| > 0 && Legal(run[|run| - 1])
    && forall i: nat | 1 <= i < |run| :: Step(e, run[i - 1], run[i])
  }

  lemma StretchMore(e: Env, run: seq<State>, s: State)
    requires Stretch(e, run) && |e.session.tag| == 4 && ReaderStep(e, run[|run| - 1], s) && Legal(s)
    ensures Stretch(e, run + [s])
  {
  }

  /** Both tripwires cleared. */
  function Cleared(s: State): State
    requires Legal(s)
  {
    s.(rx := s.rx.(lengths := s.rx.lengths[s.rd.region.endDesc := false][s.rd.region.guardDesc := false]))
  }

  lemma ArmBothIs(e: Env, s: State, run: seq<State>) returns (more: seq<State>)
    requires |e.session.tag| == 4 && Stretch(e, run) && run[|run| - 1] == s && s.rd.pc.StoreE?
    ensures Stretch(e, more) && run <= more
    ensures more[|more| - 1] == Cleared(s).(rd := s.rd.(pc := Rest, crossed := 0))
  {
    var s1 := s.(rx := s.rx.(lengths := s.rx.lengths[s.rd.region.endDesc := false]),
                 rd := s.rd.(pc := StoreG, crossed := 0));
    assert ArmE(s, s1);
    StretchMore(e, run, s1);
    var s2 := Cleared(s).(rd := s.rd.(pc := Rest, crossed := 0));
    assert ArmG(s1, s2);
    StretchMore(e, run + [s1], s2);
    more := run + [s1] + [s2];
  }

  /** tripwire_step(). */
  lemma TripwireStepIs(e: Env, s: State) returns (run: seq<State>)
    requires |e.session.tag| == 4 && Legal(s) && s.rd.pc.Rest? && s.rd.locked
    requires s.rd.region.endDesc != s.rd.region.guardDesc
    ensures Stretch(e, run) && run[0] == s
    ensures var seen, last := TripwireOf(ESet(s), GSet(s)), run[|run| - 1];
      && last.tx == s.tx && last.rd == s.rd.(pc := if seen.Window? then Pc.Window else Rest, crossed := 0)
      && last.rx == s.rx.(lengths :=
           s.rx.lengths[s.rd.region.endDesc := ESet(s) && !GSet(s)][s.rd.region.guardDesc := false])
  {
    run := [s];
    var s1 := s.(rd := s.rd.(pc := SawE(ESet(s)), crossed := 0));
    assert LoadE(s, s1);
    StretchMore(e, run, s1);
    run := run + [s1];
    var s2 := s1.(rd := s1.rd.(pc :=
      if ESet(s) then (if GSet(s) then StoreE else Pc.Window) else if GSet(s) then StoreG else Rest));
    assert LoadG(s1, s2);
    StretchMore(e, run, s2);
    run := run + [s2];
    if ESet(s) && GSet(s) {
      run := ArmBothIs(e, s2, run);
    } else if GSet(s) {
      var s3 := Cleared(s2).(rd := s2.rd.(pc := Rest));
      assert ArmG(s2, s3);
      StretchMore(e, run, s3);
      run := run + [s3];
    }
  }

  // ---- The copy ----

  /** After i samples. */
  ghost predicate Copying(s: State, t: State, i: nat)
    requires Legal(s) && Legal(t)
  {
    && t == s.(rd := s.rd.(copy := t.rd.copy, pc := if 2 * i < s.rd.region.length then Pc.Copy(i) else Check))
    && CopiedTo(s.rd.copy, t.rd.copy, s.rx.ring, s.rd.region.start, 2 * i)
  }

  /** The region's bytes, and no others. */
  ghost predicate Copied(s: State, t: State)
    requires Legal(s) && Legal(t)
  {
    forall k: nat | k < N :: t.rd.copy[k] == if InRegion(s.rd.region, k) then s.rx.ring[k] else s.rd.copy[k]
  }

  lemma CopyRegionIs(e: Env, s: State) returns (run: seq<State>)
    requires |e.session.tag| == 4 && Legal(s) && s.rd.pc.Window?
    ensures Stretch(e, run) && run[0] == s
    ensures Copied(s, run[|run| - 1])
    ensures run[|run| - 1] == s.(rd := s.rd.(copy := run[|run| - 1].rd.copy, pc := Check))
  {
    var rg := s.rd.region;
    RegionShape(s.rd.marker, s.rd.lane);
    var t := s.(rd := s.rd.(pc := Pc.Copy(0)));
    assert BeginCopy(s, t);
    StretchMore(e, [s], t);
    run := [s] + [t];
    for i := 0 to rg.length / 2
      invariant Stretch(e, run) && run[0] == s && run[|run| - 1] == t && Copying(s, t, i)
    {
      var next := OneSample(s, t, i);
      StretchMore(e, run, next);
      run, t := run + [next], next;
    }
    forall k: nat | k < N ensures t.rd.copy[k] == if InRegion(rg, k) then s.rx.ring[k] else s.rd.copy[k] {
      assert ByteTo(s.rd.copy, t.rd.copy, s.rx.ring, rg.start, rg.length, k);
    }
  }

  lemma OneSample(s: State, t: State, i: nat) returns (next: State)
    requires Legal(s) && Legal(t) && s.rd.region.start < N && Copying(s, t, i)
    requires s.rd.region.start % 2 == 0 && 2 * i + 2 <= s.rd.region.length <= N && s.rd.region.length % 2 == 0
    ensures Legal(next) && CopySample(t, next) && Copying(s, next, i + 1)
  {
    var rg, w := s.rd.region, (s.rd.region.start / 2 + i) % SAMPLES;
    SampleBelow(rg.start, i, w);
    var a := (rg.start + 2 * i) % N;
    assert a == 2 * w by {
      SamplePair(rg.start, i, w);
    }
    var copy := t.rd.copy[a := s.rx.ring[a]][a + 1 := s.rx.ring[a + 1]];
    next := t.(rd := t.rd.(copy := copy, pc := if 2 * (i + 1) < rg.length then Pc.Copy(i + 1) else Check));
    CopyMore(s.rd.copy, t.rd.copy, s.rx.ring, rg.start, i, w);
  }

  lemma SamplePair(start: nat, i: nat, w: nat)
    requires start % 2 == 0 && start < N && 2 * i < N
    requires w == if start / 2 + i < SAMPLES then start / 2 + i else start / 2 + i - SAMPLES
    ensures (start + 2 * i) % N == 2 * w
  {
    if start + 2 * i < N {
      ModSmall(start + 2 * i, N);
    } else {
      DivMod(start + 2 * i, N, 1, start + 2 * i - N);
    }
  }

  /** The reader after take_window(). */
  ghost predicate Took(e: Env, s: State, last: State)
    requires Legal(s) && Legal(last)
  {
    var out := if GSet(s) then Tripped else TakeWindow(e, s.rd.(copy := last.rd.copy));
    && last.tx == s.tx && last.rx == Cleared(s).rx && last.rd.pc.Rest?
    && last.rd.phase == s.rd.phase && last.rd.lane == s.rd.lane && last.rd.marker == s.rd.marker
    && last.rd.locked == (s.rd.locked && out != Framing)
    && Copied(s, last)
    && if out.New? then
         && last.rd.haveRead && last.rd.lastRead == out.stamp && |last.rd.delivered| == |s.rd.delivered| + 1
         && last.rd.delivered[..|s.rd.delivered|] == s.rd.delivered
         && last.rd.delivered[|s.rd.delivered|].stamp == out.stamp
         && last.rd.delivered[|s.rd.delivered|].payload == out.payload
       else
         && last.rd.haveRead == s.rd.haveRead && last.rd.lastRead == s.rd.lastRead
         && last.rd.delivered == s.rd.delivered
  }

  /** take_window(). */
  lemma TakeWindowIs(e: Env, s: State) returns (run: seq<State>)
    requires |e.session.tag| == 4 && Legal(s) && s.rd.pc.Window?
    ensures Stretch(e, run) && run[0] == s && Took(e, s, run[|run| - 1])
  {
    run := CopyRegionIs(e, s);
    ghost var t := run[|run| - 1];
    run := ConsumeIs(e, s, t, run);
    ghost var u := run[|run| - 1];
    if GSet(s) {
      run := ArmBothIs(e, u, run);
      TookTripped(e, s, u, run[|run| - 1]);
    } else {
      var next := Decided(e, s, u);
      StretchMore(e, run, next);
      run := run + [next];
    }
  }

  lemma TookTripped(e: Env, s: State, u: State, last: State)
    requires Legal(s) && Legal(u) && Legal(last) && GSet(s) && Copied(s, u)
    requires u == s.(rx := u.rx, rd := s.rd.(copy := u.rd.copy, pc := u.rd.pc))
    requires u.rx == s.rx.(lengths := s.rx.lengths[s.rd.region.endDesc := false])
    requires last == Cleared(u).(rd := u.rd.(pc := Rest, crossed := 0))
    ensures Took(e, s, last)
  {
  }

  lemma ConsumeIs(e: Env, s: State, t: State, run: seq<State>) returns (more: seq<State>)
    requires |e.session.tag| == 4 && Stretch(e, run) && run[|run| - 1] == t && t.rd.pc.Check?
    requires Legal(s) && t.rd.region == s.rd.region && t.rx == s.rx
    ensures Stretch(e, more) && run <= more
    ensures var u := more[|more| - 1];
      && u == t.(rx := u.rx, rd := t.rd.(pc := u.rd.pc))
      && u.rx == s.rx.(lengths := s.rx.lengths[s.rd.region.endDesc := false])
      && (if GSet(s) then u.rd.pc.StoreE? else u.rd.pc.Decide? && Cleared(s).rx == u.rx)
  {
    var base := if Base(t) >= 0 then Base(t) else 0;
    var t1 := t.(rd := t.rd.(pc := Consume(GSet(t), base)));
    assert CheckG(t, t1);
    StretchMore(e, run, t1);
    var t2 := t1.(rx := t1.rx.(lengths := t1.rx.lengths[s.rd.region.endDesc := false]),
                  rd := t1.rd.(pc := if GSet(t) then StoreE else Decide(base)));
    assert ConsumeE(t1, t2);
    StretchMore(e, run + [t1], t2);
    more := run + [t1] + [t2];
  }

  lemma Decided(e: Env, s: State, u: State) returns (next: State)
    requires Legal(s) && Legal(u) && u.rd.pc.Decide? && !GSet(s) && Copied(s, u)
    requires u == s.(rx := Cleared(s).rx, rd := s.rd.(copy := u.rd.copy, pc := u.rd.pc))
    ensures Legal(next) && DecideCopy(e, u, next) && Took(e, s, next)
  {
    var rest := u.rd.(pc := Rest);
    next := u.(rd :=
      match TakeWindow(e, u.rd)
      case New(h, payload) => rest.(haveRead := true, lastRead := h,
                                    delivered := rest.delivered + [Delivery(h, payload, u.rd.pc.base)])
      case Framing => rest.(locked := false)
      case _ => rest);
  }

  // ---- The search ----

  /** search(), at any time. */
  lemma FindLockIs(e: Env, s: State) returns (run: seq<State>)
    requires |e.session.tag| == 4 && Legal(s) && s.rd.pc.Rest? && !s.rd.locked
    ensures Stretch(e, run) && run[0] == s
    ensures var last := run[|run| - 1];
      && last.tx == s.tx && last.rx == s.rx.(lengths := last.rx.lengths)
      && last.rd.pc.Rest? && last.rd.snap == s.rx.ring
      && (last.rd.locked ==>
           && ValidFrame(s.rx.ring, e.session.tag, last.rd.phase, last.rd.lane, last.rd.marker)
           && !ESet(last) && !GSet(last))
      && (!last.rd.locked ==>
           forall p: nat, l: nat, m: nat | p < 8 && l < 2 && m < N :: !ValidFrame(s.rx.ring, e.session.tag, p, l, m))
  {
    run := SnapIs(e, s);
    var t := run[|run| - 1];
    if p: nat, l: nat, m: nat :| p < 8 && l < 2 && m < N && ValidFrame(s.rx.ring, e.session.tag, p, l, m) {
      RegionShape(m, l);
      var t1 := t.(rd := t.rd.(locked := true, phase := p, lane := l, marker := m, region := RegionSet(m, l),
                               pc := StoreE));
      assert SearchFound(e, t, t1, p, l, m);
      StretchMore(e, run, t1);
      run := ArmBothIs(e, t1, run + [t1]);
    } else {
      var t1 := t.(rd := t.rd.(pc := Rest));
      assert SearchFailed(e, t, t1);
      StretchMore(e, run, t1);
      run := run + [t1];
    }
  }

  lemma SnapIs(e: Env, s: State) returns (run: seq<State>)
    requires |e.session.tag| == 4 && Legal(s) && s.rd.pc.Rest? && !s.rd.locked
    ensures Stretch(e, run) && run[0] == s
    ensures run[|run| - 1] == s.(rd := s.rd.(snap := s.rx.ring, pc := Search(s.rx.Beam() >= N)))
  {
    var whole := s.rx.Beam() >= N;
    var t := s.(rd := s.rd.(pc := Snap(0, whole)));
    assert StartSearch(s, t);
    StretchMore(e, [s], t);
    run := [s] + [t];
    for i := 0 to N
      invariant Stretch(e, run) && run[0] == s && run[|run| - 1] == t
      invariant t == s.(rd := s.rd.(snap := t.rd.snap, pc := if i == N then Search(whole) else Snap(i, whole)))
      invariant forall k: nat | k < i :: t.rd.snap[k] == s.rx.ring[k]
    {
      var next := t.(rd := t.rd.(snap := t.rd.snap[i := s.rx.ring[i]],
                                 pc := if i + 1 == N then Search(whole) else Snap(i + 1, whole)));
      assert SnapByte(t, next);
      StretchMore(e, run, next);
      run, t := run + [next], next;
    }
    assert t.rd.snap == s.rx.ring;
  }
}
