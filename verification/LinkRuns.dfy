/** Whole runs of the link, in any interleaving: what reaches the reader's caller
    is what the writer wrote, whole, in order and never twice. */
module LinkRuns {
  import opened ByteBits
  import opened Wire
  import opened WireCodec
  import opened LinkTx
  import opened Region
  import opened LinkRx
  import opened Beam
  import opened Judge
  import opened Link
  import opened LinkProof
  import opened LinkDecide

  lemma ReaderStepInv(e: Env, s: State, s': State)
    requires Inv(e, s) && ReaderStep(e, s, s')
    ensures Inv(e, s')
  {
    if exists p: nat, l: nat, m: nat :: p < 8 && l < 2 && m < N && SearchFound(e, s, s', p, l, m) {
      var p: nat, l: nat, m: nat :| p < 8 && l < 2 && m < N && SearchFound(e, s, s', p, l, m);
      SearchFoundInv(e, s, s', p, l, m);
    } else if SearchFailed(e, s, s') {
      SearchFailedInv(e, s, s');
    } else if DecideCopy(e, s, s') {
      DecideInv(e, s, s');
    } else {
      AccessInv(e, s, s');
    }
  }

  lemma AccessInv(e: Env, s: State, s': State)
    requires Inv(e, s) && s'.tx == s.tx
    requires TripwireStep(s, s') || SnapByte(s, s') || BeginCopy(s, s') || CopySample(s, s')
             || CheckG(s, s') || ConsumeE(s, s')
    ensures Inv(e, s')
  {
    if SnapByte(s, s') {
      SnapByteInv(e, s, s');
    } else if BeginCopy(s, s') {
      BeginCopyInv(e, s, s');
    } else if CopySample(s, s') {
      CopySampleInv(e, s, s');
    } else if CheckG(s, s') {
      CheckGInv(e, s, s');
    } else if ConsumeE(s, s') {
      ConsumeInv(e, s, s');
    } else {
      TripwireInv(e, s, s');
    }
  }

  /** Every step of every party keeps the invariant. */
  lemma NextInv(e: Env, s: State, s': State)
    requires Inv(e, s) && Next(e, s, s')
    ensures Inv(e, s')
  {
    if TxStep(e, s, s') {
      TxStepInv(e, s, s');
    } else if RxStep(e, s, s') {
      RxStepInv(e, s, s');
    } else if WriteBackStep(s, s') {
      WriteBackStepInv(e, s, s');
    } else {
      ReaderStepInv(e, s, s');
    }
  }

  ghost predicate Step(e: Env, s: State, s': State) {
    |e.session.tag| == 4 && Legal(s) && Next(e, s, s')
  }

  ghost predicate IsRun(e: Env, run: seq<State>) {
    |run| > 0 && Init(e, run[0]) && forall i: nat | 1 <= i < |run| :: Step(e, run[i - 1], run[i])
  }

  lemma {:induction false} RunInv(e: Env, run: seq<State>, n: nat)
    requires IsRun(e, run) && n < |run|
    ensures Inv(e, run[n])
  {
    if n == 0 {
      InitInv(e, run[0]);
    } else {
      RunInv(e, run, n - 1);
      StepInv(e, run[n - 1], run[n]);
    }
  }

  lemma StepInv(e: Env, s: State, s': State)
    requires Inv(e, s) && Step(e, s, s')
    ensures Inv(e, s')
  {
    NextInv(e, s, s');
  }

  /** End to end: in every reachable state, every payload delivered so far as
      new under stamp h is, byte for byte, one version of the session, the one
      the writer stamped h; and the delivered versions are strictly newer each
      time, whatever locks, copies and windows were lost between them. */
  lemma EndToEnd(e: Env, run: seq<State>, n: nat) returns (versions: seq<nat>)
    requires IsRun(e, run) && n < |run|
    ensures var written, ds := run[n].tx.payloads, run[n].rd.delivered;
      && |versions| == |ds|
      && (forall i: nat | i < |ds| ::
            1 <= versions[i] <= |written|
            && ds[i].payload == written[versions[i] - 1] && ds[i].stamp == Stamp(e.session.start, versions[i]))
      && (forall i: nat, j: nat | i < j < |ds| :: versions[i] < versions[j])
  {
    RunInv(e, run, n);
    versions := Versions(e, run[n]);
  }

  lemma Versions(e: Env, s: State) returns (versions: seq<nat>)
    requires Legal(s) && HistoryInv(e, s)
    ensures |versions| == |s.rd.delivered|
    ensures forall i: nat | i < |versions| :: IsVersion(e, s, s.rd.delivered[i], versions[i])
    ensures forall i: nat, j: nat | i < j < |versions| :: versions[i] < versions[j]
  {
    var ds := s.rd.delivered;
    versions := seq(|ds|, i requires 0 <= i < |ds| && DeliveredOk(e, s, ds[i]) => VersionOf(e, s, i));
    forall i: nat | i < |versions| ensures IsVersion(e, s, ds[i], versions[i]) {
      assert DeliveredOk(e, s, ds[i]);
    }
    forall i: nat, j: nat | i < j < |versions| ensures versions[i] < versions[j] {
      assert VersionOf(e, s, i) < VersionOf(e, s, j);
    }
  }

  /** The reader's tripwires mean what its decisions take them to mean: it is
      not in the middle of a search or of re-arming after one or a late window. */
  predicate Armed(rd: Reader) {
    rd.locked && !rd.pc.Snap? && !rd.pc.Search? && !rd.pc.StoreE? && !rd.pc.Consume?
  }

  /** A whole region came in, and no byte of it has been overwritten: the beam has
      not passed the place where it begins again. */
  predicate BeamOutside(s: State) {
    && 0 <= Base(s) && Base(s) % N == s.rd.region.start
    && Base(s) + s.rd.region.length <= s.rx.Beam() <= Base(s) + N
  }

  /** Tripwire safety: E set and G clear means that the beam is outside, although
      each write-back may be a descriptor behind it. */
  lemma TripwireSafety(e: Env, run: seq<State>, n: nat)
    requires IsRun(e, run) && n < |run| && Armed(run[n].rd)
    ensures Legal(run[n])
    ensures ESet(run[n]) && !GSet(run[n]) ==> BeamOutside(run[n])
  {
    RunInv(e, run, n);
    OpenWindow(e, run[n]);
  }

  lemma OpenWindow(e: Env, s: State)
    requires RdInv(e, s) && Armed(s.rd)
    ensures ESet(s) && !GSet(s) ==> BeamOutside(s)
  {
    if ESet(s) && !GSet(s) {
      assert Open(s.rd.region, s.rx.written);
      WindowBase(s.rd.marker, s.rd.lane, s.rx.written);
    }
  }

  /** The copied region is the bytes that came in, in a row, from base on. */
  ghost predicate OneLap(s: State, base: nat)
    requires |s.rd.copy| == N
  {
    && base % N == s.rd.region.start && base + s.rd.region.length <= s.rx.Beam()
    && forall r: nat | base <= r < base + s.rd.region.length :: s.rd.copy[Swap(r % N)] == s.rx.received[r]
  }

  /** A copy that ends with G still clear is the region of one lap. */
  lemma UntrippedCopy(e: Env, run: seq<State>, n: nat)
    requires IsRun(e, run) && n < |run|
    ensures Legal(run[n])
    ensures run[n].rd.pc.Consume? && !run[n].rd.pc.tripped ==> OneLap(run[n], run[n].rd.pc.base)
    ensures run[n].rd.pc.Decide? ==> OneLap(run[n], run[n].rd.pc.base)
  {
    RunInv(e, run, n);
    if run[n].rd.pc.Consume? || run[n].rd.pc.Decide? {
      RegionFacts(e, run[n]);
    }
  }

  /** In a session without bit errors every lock is the true one, no search fails
      that began with a whole cycle in the ring, and an untripped copy is new, stale
      or torn by a write that overtook the pass: framing and CRC never fail. */
  lemma NoFalseAlarm(e: Env, run: seq<State>, n: nat)
    requires IsRun(e, run) && n < |run|
    ensures Legal(run[n])
    ensures var s := run[n];
      && (s.rd.locked ==> TrueLock(e, s))
      && (s.rd.pc.Search? && s.rd.pc.whole ==> forall s' :: !SearchFailed(e, s, s'))
      && (s.rd.pc.Decide? ==> var out := TakeWindow(e, s.rd); !out.Framing? && !out.Crc?)
  {
    RunInv(e, run, n);
    if run[n].rd.pc.Search? && run[n].rd.pc.whole {
      forall s' ensures !SearchFailed(e, run[n], s') {
        SearchNeverFails(e, run[n], s');
      }
    }
    if run[n].rd.pc.Decide? {
      DecideClean(e, run[n]);
      CleanOutcome(e, run[n]);
    }
  }
}
