/** What the reader's verdicts say of the lap it sampled, in every run: a torn copy is one
    that a write overtook, a stale one holds no version, or the one delivered last. */
module LinkVerdicts {
  import opened ByteBits
  import opened Wire
  import opened WireCodec
  import opened LinkTx
  import opened LinkRx
  import opened RegionDecode
  import opened CleanRegion
  import opened Judge
  import opened Link
  import opened LinkProof
  import opened LinkDecide
  import opened LinkRuns

  /** The stamps that a clean copy decodes to are those of the versions that the lap's H
      and T named. */
  lemma StampsAre(c: Session, tx: Tx, delta: nat, received: seq<byte>, copy: seq<byte>, base: nat)
    requires TxInv(c, tx) && Clean(tx.sent, delta, received, copy, base)
    ensures LapOf(delta, base) < |tx.tAt| && LapOf(delta, base) < |tx.hAt|
    ensures WordAt(delta, copy, OFF_H) == Stamp(c.start, tx.hAt[LapOf(delta, base)])
    ensures WordAt(delta, copy, OFF_T) == Stamp(c.start, tx.tAt[LapOf(delta, base)])
  {
    var lap, h, t, crc := CleanStamps(tx.sent, delta, received, copy, base);
    LapsBegun(tx, lap);
    assert LapBegun(c, tx, lap) && LapWhole(c, tx, lap);
    SameWord(tx.sent, lap * N + OFF_H, h, Stamp(c.start, tx.hAt[lap]));
    SameWord(tx.sent, lap * N + OFF_T, t, Stamp(c.start, tx.tAt[lap]));
  }

  lemma StampsTell(c: Session, tx: Tx, lap: nat)
    requires TxInv(c, tx) && lap < |tx.tAt| && lap < |tx.hAt|
    ensures tx.hAt[lap] <= tx.tAt[lap] <= |tx.payloads|
    ensures Stamp(c.start, tx.hAt[lap]) == Stamp(c.start, tx.tAt[lap]) <==> tx.hAt[lap] == tx.tAt[lap]
    ensures Stamp(c.start, tx.hAt[lap]) == 0 <==> tx.hAt[lap] == 0
  {
    assert LapWhole(c, tx, lap);
    if Stamp(c.start, tx.hAt[lap]) == Stamp(c.start, tx.tAt[lap]) {
      StampsDiffer(c.start, tx.hAt[lap], tx.tAt[lap]);
    }
  }

  /** The verdict on a copy under way, by the versions of the lap it was sampled in: torn
      exactly if a write began in the pass; else stale exactly if there was no version, or
      its stamp was read last; else new, and that version's payload. */
  ghost predicate LapVerdict(c: Session, tx: Tx, lap: nat, read: bool, last: word, out: Taken)
    requires lap < |tx.hAt| && lap < |tx.tAt|
  {
    var h, t := tx.hAt[lap], tx.tAt[lap];
    && h <= t <= |tx.payloads|
    && (out.Torn? <==> h != t)
    && (out.Stale? <==> h == t && (h == 0 || (read && Stamp(c.start, h) == last)))
    && (out.New? <==> h == t != 0 && !(read && Stamp(c.start, h) == last))
    && (out.New? ==> out.stamp == Stamp(c.start, h) && out.payload == tx.payloads[h - 1])
  }

  lemma CleanMeans(c: Session, tx: Tx, delta: nat, received: seq<byte>, copy: seq<byte>, base: nat, read: bool,
                   last: word)
    requires TxInv(c, tx) && Clean(tx.sent, delta, received, copy, base)
    ensures LapOf(delta, base) < |tx.tAt| && LapOf(delta, base) < |tx.hAt|
    ensures LapVerdict(c, tx, LapOf(delta, base), read, last, JudgedAt(delta, copy, read, last, c.crc))
  {
    var shift := ShiftOf(delta);
    StampsAre(c, tx, delta, received, copy, base);
    StampsTell(c, tx, LapOf(delta, base));
    CleanVerdict(c, tx, delta, received, copy, base, read, last);
    VerdictMeans(copy, TruePhase(shift), TrueLane(shift), TrueMarker(shift), read, last, c.crc);
  }

  /** In every run, whenever a copy is judged. */
  lemma VerdictOfLap(e: Env, run: seq<State>, n: nat)
    requires LinkRuns.IsRun(e, run) && n < |run| && run[n].rd.pc.Decide?
    ensures Legal(run[n])
    ensures var s := run[n];
      var lap := LapOf(e.delta, s.rd.pc.base);
      && lap < |s.tx.hAt| && lap < |s.tx.tAt|
      && LapVerdict(e.session, s.tx, lap, s.rd.haveRead, s.rd.lastRead, TakeWindow(e, s.rd))
  {
    RunInv(e, run, n);
    var s := run[n];
    DecideClean(e, s);
    CleanMeans(e.session, s.tx, e.delta, s.rx.received, s.rd.copy, s.rd.pc.base, s.rd.haveRead, s.rd.lastRead);
  }

  // ---- Nothing new means nothing new ----

  /** Only a delivery changes what was read last. */
  ghost predicate ReadsKept(rd: Reader, rd': Reader) {
    rd'.delivered != [] || (rd'.haveRead == rd.haveRead && rd'.delivered == rd.delivered)
  }

  lemma TripwireReads(s: State, s': State)
    requires Legal(s) && TripwireStep(s, s')
    ensures ReadsKept(s.rd, s'.rd)
  {
  }

  lemma DecideReads(e: Env, s: State, s': State)
    requires Legal(s) && DecideCopy(e, s, s')
    ensures ReadsKept(s.rd, s'.rd)
  {
  }

  lemma SearchReads(e: Env, s: State, s': State, p: nat, l: nat, m: nat)
    requires Legal(s) && |e.session.tag| == 4 && p < 8 && l < 2 && m < N && SearchFound(e, s, s', p, l, m)
    ensures ReadsKept(s.rd, s'.rd)
  {
  }

  lemma CopyReads(s: State, s': State)
    requires Legal(s) && (SnapByte(s, s') || BeginCopy(s, s') || CopySample(s, s') || CheckG(s, s') || ConsumeE(s, s'))
    ensures ReadsKept(s.rd, s'.rd)
  {
  }

  lemma StepReads(e: Env, s: State, s': State)
    requires Step(e, s, s')
    ensures ReadsKept(s.rd, s'.rd)
  {
    if TxStep(e, s, s') || RxStep(e, s, s') || WriteBackStep(s, s') {
    } else if exists p: nat, l: nat, m: nat :: p < 8 && l < 2 && m < N && SearchFound(e, s, s', p, l, m) {
      var p: nat, l: nat, m: nat :| p < 8 && l < 2 && m < N && SearchFound(e, s, s', p, l, m);
      SearchReads(e, s, s', p, l, m);
    } else if DecideCopy(e, s, s') {
      DecideReads(e, s, s');
    } else if TripwireStep(s, s') {
      TripwireReads(s, s');
    } else if !SearchFailed(e, s, s') {
      CopyReads(s, s');
    }
  }

  ghost predicate ReadsKeptAt(run: seq<State>, n: nat)
    requires 0 < n < |run|
  {
    ReadsKept(run[n - 1].rd, run[n].rd)
  }

  lemma RunReads(e: Env, run: seq<State>)
    requires LinkRuns.IsRun(e, run)
    ensures forall n: nat | 0 < n < |run| :: ReadsKeptAt(run, n)
  {
    forall n: nat | 0 < n < |run| ensures ReadsKeptAt(run, n) {
      StepReads(e, run[n - 1], run[n]);
    }
  }

  lemma {:induction false} NothingRead(run: seq<State>, n: nat)
    requires n < |run| && forall k: nat | 0 < k < |run| :: ReadsKeptAt(run, k)
    ensures run[n].rd.delivered == [] ==> run[n].rd.haveRead == run[0].rd.haveRead
  {
    if n > 0 {
      NothingRead(run, n - 1);
      assert ReadsKeptAt(run, n);
    }
  }

  /** The last version delivered so far: 0 is none. */
  ghost function LastVersion(e: Env, s: State): nat
    requires Legal(s) && HistoryInv(e, s)
  {
    var i := |s.rd.delivered| - 1;
    if i < 0 then 0
    else
      assert DeliveredOk(e, s, s.rd.delivered[i]);
      VersionOf(e, s, i)
  }

  lemma LastRead(e: Env, s: State)
    requires Inv(e, s) && CleanState(e, s)
    ensures LapOf(e.delta, s.rd.pc.base) < |s.tx.hAt| ==> LastVersion(e, s) <= s.tx.hAt[LapOf(e.delta, s.rd.pc.base)]
    ensures s.rd.delivered != [] ==>
      LastVersion(e, s) >= 1 && s.rd.haveRead && s.rd.lastRead == Stamp(e.session.start, LastVersion(e, s))
  {
    var ds := s.rd.delivered;
    if ds != [] {
      var d := ds[|ds| - 1];
      assert DeliveredOk(e, s, d);
      LapMonotone(e.delta, d.base, s.rd.pc.base);
    }
  }

  /** In a reader that begins with nothing read, stale means exactly that the lap holds no
      version, or the one delivered last, if fewer than a period were written since. */
  lemma StaleMeans(e: Env, run: seq<State>, n: nat)
    requires LinkRuns.IsRun(e, run) && n < |run| && run[n].rd.pc.Decide? && !run[0].rd.haveRead
    ensures Legal(run[n]) && HistoryInv(e, run[n])
    ensures var s, lap := run[n], LapOf(e.delta, run[n].rd.pc.base);
      && lap < |s.tx.hAt| && lap < |s.tx.tAt|
      && (s.tx.hAt[lap] < LastVersion(e, s) + PERIOD ==>
            (TakeWindow(e, s.rd).Stale? <==>
               s.tx.hAt[lap] == s.tx.tAt[lap] && (s.tx.hAt[lap] == 0 || s.tx.hAt[lap] == LastVersion(e, s))))
  {
    VerdictOfLap(e, run, n);
    RunInv(e, run, n);
    var s := run[n];
    DecideClean(e, s);
    LastRead(e, s);
    if s.rd.delivered == [] {
      RunReads(e, run);
      NothingRead(run, n);
    } else {
      var h := s.tx.hAt[LapOf(e.delta, s.rd.pc.base)];
      if h < LastVersion(e, s) + PERIOD && Stamp(e.session.start, h) == s.rd.lastRead {
        StampsDiffer(e.session.start, LastVersion(e, s), h);
      }
    }
  }
}
