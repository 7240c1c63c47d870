/** What the users of a link rely on: in every run the deliveries are reads of a
    direction that carries the latest value only. A reader that begins to listen late
    is given the version that is on the wire then, or later ones. */
module LinkLatest {
  import opened ByteBits
  import opened Wire
  import opened LinkTx
  import opened LinkRx
  import opened RegionDecode
  import opened Link
  import opened LinkProof
  import LinkRuns
  import opened LatestValue
  import opened Register
  import opened LinkLater

  // ---- The deliveries of a run ----

  function Count(s: State): nat
    requires Shape(s.tx)
  {
    s.tx.Done()
  }

  /** The first version that can be delivered. */
  function First(s: State): nat
    requires Shape(s.tx)
  {
    if Count(s) == 0 then 0 else Count(s) - 1
  }

  function Lowest(taken: seq<nat>, first: nat): nat {
    if taken == [] then first else taken[|taken| - 1]
  }

  /** taken are the deliveries' versions. */
  ghost predicate Takes(e: Env, s: State, taken: seq<nat>)
    requires Legal(s)
  {
    && |taken| == |s.rd.delivered|
    && forall i: nat | i < |taken| :: TakesAt(e, s, taken, i)
  }

  ghost predicate TakesAt(e: Env, s: State, taken: seq<nat>, i: nat)
    requires Legal(s) && i < |taken| && |taken| <= |s.rd.delivered|
  {
    DeliveredOk(e, s, s.rd.delivered[i]) && taken[i] + 1 == VersionOf(e, s, i)
  }

  ghost predicate Follows(e: Env, s: State, r: Register, first: nat) {
    Legal(s) && Takes(e, s, r.taken) && r.count == Count(s) && Lined(r, Lowest(r.taken, first))
  }

  /** What a step may do, as far as this goes. */
  ghost predicate Moves(s: State, t: State) {
    && LaterLaps(s.tx, t.tx) && t.tx.Done() <= s.tx.Done() + 1 && s.rx.Beam() <= t.rx.Beam()
    && (t.rd.delivered != s.rd.delivered ==>
      t.tx == s.tx && t.rx == s.rx && |t.rd.delivered| == |s.rd.delivered| + 1 && s.rd.delivered <= t.rd.delivered)
  }

  lemma NextMoves(e: Env, s: State, t: State)
    requires Legal(s) && |e.session.tag| == 4 && Next(e, s, t)
    ensures Moves(s, t)
  {
    if TxStep(e, s, t) {
      LaterStep(e.session, s.tx, t.tx);
    } else {
      LaterStep(e.session, s.tx, s.tx);
      RestMoves(e, s, t);
    }
  }

  lemma RestMoves(e: Env, s: State, t: State)
    requires Legal(s) && |e.session.tag| == 4 && (RxStep(e, s, t) || WriteBackStep(s, t) || ReaderStep(e, s, t))
    ensures t.tx == s.tx && s.rx.Beam() <= t.rx.Beam()
    ensures t.rd.delivered != s.rd.delivered ==>
      t.rx == s.rx && |t.rd.delivered| == |s.rd.delivered| + 1 && s.rd.delivered <= t.rd.delivered
  {
    if DecideCopy(e, s, t) {
      DecideMoves(e, s, t);
    } else if TripwireStep(s, t) {
      TripwireMoves(s, t);
    }
  }

  lemma DecideMoves(e: Env, s: State, t: State)
    requires Legal(s) && DecideCopy(e, s, t)
    ensures t.tx == s.tx && t.rx == s.rx
    ensures t.rd.delivered != s.rd.delivered ==>
      |t.rd.delivered| == |s.rd.delivered| + 1 && s.rd.delivered <= t.rd.delivered
  {
  }

  lemma TripwireMoves(s: State, t: State)
    requires Legal(s) && TripwireStep(s, t)
    ensures t.tx == s.tx && t.rx.Beam() == s.rx.Beam() && t.rd.delivered == s.rd.delivered
  {
  }

  lemma TakesKept(e: Env, s: State, t: State, taken: seq<nat>)
    requires Legal(s) && Legal(t) && Takes(e, s, taken) && Moves(s, t) && t.rd.delivered == s.rd.delivered
    ensures Takes(e, t, taken)
  {
    forall i: nat | i < |taken| ensures TakesAt(e, t, taken, i) {
      assert TakesAt(e, s, taken, i);
      DeliveredKept(e, s, t, s.rd.delivered[i]);
    }
  }

  /** Deliveries are of laps begun since the reader listens. */
  lemma FirstDelivered(e: Env, s: State, t: State, d: Delivery)
    requires Legal(s) && Legal(t) && 8 * |s.tx.sent| <= e.delta && LaterLaps(s.tx, t.tx) && DeliveredOk(e, t, d)
    ensures t.tx.hAt[LapOf(e.delta, d.base)] > First(s)
  {
    LapIsLater(e.delta, d.base, |s.tx.sent|);
  }

  /** A new delivery is of a later version than those before, one that is written. */
  lemma NextVersion(e: Env, k: State, s: State, t: State, taken: seq<nat>, v: nat)
    requires Legal(k) && 8 * |k.tx.sent| <= e.delta && LaterLaps(k.tx, t.tx)
    requires Legal(s) && Legal(t) && HistoryInv(e, t) && TxInv(e.session, t.tx) && Takes(e, s, taken)
    requires t.tx == s.tx && t.rx == s.rx
    requires |t.rd.delivered| == |s.rd.delivered| + 1 && s.rd.delivered <= t.rd.delivered
    requires DeliveredOk(e, t, t.rd.delivered[|taken|]) && v + 1 == VersionOf(e, t, |taken|)
    ensures First(k) <= v < Count(t) && (taken != [] ==> taken[|taken| - 1] < v)
  {
    var i := |taken|;
    FirstDelivered(e, k, t, t.rd.delivered[i]);
    assert LapBegun(e.session, t.tx, LapOf(e.delta, t.rd.delivered[i].base));
    if i > 0 {
      assert TakesAt(e, s, taken, i - 1) && t.rd.delivered[i - 1] == s.rd.delivered[i - 1];
      assert VersionOf(e, t, i - 1) < VersionOf(e, t, i);
    }
  }

  lemma TakesMore(e: Env, s: State, t: State, taken: seq<nat>, v: nat)
    requires Legal(s) && Legal(t) && Takes(e, s, taken) && t.tx == s.tx && t.rx == s.rx
    requires |t.rd.delivered| == |s.rd.delivered| + 1 && s.rd.delivered <= t.rd.delivered
    requires DeliveredOk(e, t, t.rd.delivered[|taken|]) && v + 1 == VersionOf(e, t, |taken|)
    ensures Takes(e, t, taken + [v])
  {
    forall i: nat | i < |taken + [v]| ensures TakesAt(e, t, taken + [v], i) {
      if i < |taken| {
        assert TakesAt(e, s, taken, i) && t.rd.delivered[i] == s.rd.delivered[i];
      }
    }
  }

  lemma FollowStep(e: Env, k: State, s: State, t: State, path: seq<Register>, events: seq<Event>)
    returns (path': seq<Register>, events': seq<Event>)
    requires Legal(k) && 8 * |k.tx.sent| <= e.delta && LaterLaps(k.tx, t.tx) && Moves(s, t)
    requires Legal(t) && HistoryInv(e, t) && TxInv(e.session, t.tx)
    requires IsPath(path, events) && Follows(e, s, End(path), First(k))
    ensures IsPath(path', events') && path'[0] == path[0] && Follows(e, t, End(path'), First(k))
  {
    path', events' := path, events;
    var taken := End(path).taken;
    if t.rd.delivered != s.rd.delivered {
      assert DeliveredOk(e, t, t.rd.delivered[|taken|]);
      var v := VersionOf(e, t, |taken|) - 1;
      NextVersion(e, k, s, t, taken, v);
      TakesMore(e, s, t, taken, v);
      path', events' := Taking(path, events, Lowest(taken, First(k)), v);
    } else {
      TakesKept(e, s, t, taken);
      if Count(t) > Count(s) {
        path', events' := Writing(path, events, Lowest(taken, First(k)));
      }
    }
  }

  lemma Listening(e: Env, s: State) returns (path: seq<Register>, events: seq<Event>)
    requires Inv(e, s) && 8 * |s.tx.sent| <= e.delta
    ensures IsPath(path, events) && path[0] == Register(Count(s), FRESH, []) && Follows(e, s, End(path), First(s))
  {
    NothingIn(e, s);
    path, events := Starting(Count(s));
  }

  lemma NothingIn(e: Env, s: State)
    requires Legal(s) && RxInv(s.tx.sent, e.delta, s.rx) && HistoryInv(e, s) && 8 * |s.tx.sent| <= e.delta
    ensures s.rd.delivered == []
  {
    Delivering(e, s);
  }

  lemma Delivering(e: Env, s: State)
    requires Legal(s) && RxInv(s.tx.sent, e.delta, s.rx) && HistoryInv(e, s)
    ensures s.rd.delivered != [] ==> e.delta < 8 * |s.tx.sent|
  {
    if s.rd.delivered != [] {
      assert DeliveredOk(e, s, s.rd.delivered[0]);
      assert Available(s.tx.sent, e.delta, 0);
    }
  }

  // ---- Over a run ----

  lemma StepMoves(e: Env, s: State, t: State)
    requires LinkRuns.Step(e, s, t)
    ensures Moves(s, t)
  {
    NextMoves(e, s, t);
  }

  ghost predicate Kept(e: Env, s: State) {
    Legal(s) && HistoryInv(e, s) && TxInv(e.session, s.tx)
  }

  ghost predicate MovesAt(run: seq<State>, n: nat)
    requires 0 < n < |run|
  {
    Moves(run[n - 1], run[n])
  }

  ghost predicate Moving(e: Env, run: seq<State>) {
    && (forall n: nat {:trigger Kept(e, run[n])} | n < |run| :: Kept(e, run[n]))
    && (forall n: nat | 0 < n < |run| :: MovesAt(run, n))
  }

  lemma RunMoving(e: Env, run: seq<State>)
    requires LinkRuns.IsRun(e, run)
    ensures Moving(e, run)
  {
    forall n: nat | n < |run| ensures Kept(e, run[n]) {
      LinkRuns.RunInv(e, run, n);
    }
    forall n: nat | 0 < n < |run| ensures MovesAt(run, n) {
      StepMoves(e, run[n - 1], run[n]);
    }
  }

  lemma {:induction false} LaterRun(e: Env, run: seq<State>, k: nat, n: nat)
    requires Moving(e, run) && k <= n < |run|
    ensures LaterLaps(run[k].tx, run[n].tx)
  {
    if k < n {
      LaterRun(e, run, k, n - 1);
      assert MovesAt(run, n);
      LaterStill(run[k].tx, run[n - 1].tx, run[n].tx);
    }
  }

  lemma {:induction false} Followed(e: Env, run: seq<State>, k: nat, n: nat)
    returns (path: seq<Register>, events: seq<Event>)
    requires Moving(e, run) && k <= n < |run| && Inv(e, run[k]) && 8 * |run[k].tx.sent| <= e.delta
    ensures IsPath(path, events) && path[0] == Register(Count(run[k]), FRESH, [])
    ensures Follows(e, run[n], End(path), First(run[k]))
  {
    if n == k {
      path, events := Listening(e, run[k]);
    } else {
      path, events := Followed(e, run, k, n - 1);
      LaterRun(e, run, k, n);
      assert Kept(e, run[n]) && MovesAt(run, n);
      path, events := FollowStep(e, run[k], run[n - 1], run[n], path, events);
    }
  }

  /** Any link run is one of the register: versions are written as their H is stored,
      and exactly the deliveries are taken, in order. The register starts when the
      reader begins to listen, with nothing received, whatever was written before. */
  lemma DeliveriesAreReads(e: Env, run: seq<State>, k: nat, n: nat)
    returns (path: seq<Register>, events: seq<Event>)
    requires LinkRuns.IsRun(e, run) && k <= n < |run| && 8 * |run[k].tx.sent| <= e.delta
    ensures Legal(run[k]) && Legal(run[n]) && IsPath(path, events)
    ensures path[0] == Register(Count(run[k]), FRESH, [])
    ensures End(path).count == Count(run[n]) && Takes(e, run[n], End(path).taken)
  {
    LinkRuns.RunInv(e, run, k);
    RunMoving(e, run);
    path, events := Followed(e, run, k, n);
  }
}
