/** i2slink_read(): the reader's loop over passes, each a search or a look at the
    tripwires and perhaps a copy. What each pass finds, and how long it takes,
    comes from outside. */
module ReadLoop {
  import opened ByteBits
  import opened WireCodec
  import opened Options
  import opened Judge
  import Wire

  /** One pass: without a lock, a search; with one, the tripwires and, at a window,
      a copy. ticks is its length. */
  datatype Pass = Search(found: bool, ticks: nat) | Look(state: Tripwire, taken: Taken, ticks: nat)
  {
    predicate TookNew() { Look? && state.Window? && taken.New? }
    predicate TookStale() { Look? && state.Window? && taken.Stale? }
  }

  datatype Status = NEW | TIMEOUT | TORN | CRC | NO_LOCK | STALLED

  /** Passes whose clock goes on. */
  ghost predicate Ticking(pass: nat -> Pass) {
    forall n: nat :: pass(n).ticks > 0
      && (pass(n).TookNew() ==> |pass(n).taken.payload| == Wire.PAYLOAD_BYTES)
  }

  /** Since the call, after n passes. */
  function Elapsed(pass: nat -> Pass, n: nat): nat {
    if n == 0 then 0 else Elapsed(pass, n - 1) + pass(n - 1).ticks
  }

  /** When the last clean copy was seen, or the call made. */
  function CleanSince(pass: nat -> Pass, n: nat): (t: nat)
    ensures t <= Elapsed(pass, n)
  {
    if n == 0 then 0
    else if pass(n - 1).TookStale() then Elapsed(pass, n - 1)
    else CleanSince(pass, n - 1)
  }

  predicate SawClean(pass: nat -> Pass, n: nat) {
    exists k: nat :: k < n && pass(k).TookStale()
  }

  /** What a fault would be reported as. */
  function FaultOf(before: Status, p: Pass): Status {
    match p
    case Search(found, _) => if found then before else NO_LOCK
    case Look(state, taken, _) =>
      var moving := if state != Quiet && before == STALLED then TORN else before;
      if state != Window then moving
      else match taken
        case Tripped => moving
        case New(_, _) => moving
        case Stale => TORN
        case Torn => TORN
        case Crc => CRC
        case Framing => NO_LOCK
  }

  function FaultAfter(pass: nat -> Pass, n: nat): (s: Status)
    ensures s != NEW && s != TIMEOUT
  {
    if n == 0 then STALLED
    else
      var f := FaultOf(FaultAfter(pass, n - 1), pass(n - 1));
      assert f != NEW && f != TIMEOUT;
      f
  }

  /** The wait is over after n passes: a clean copy has been seen and the time is
      up, or none for longer than the sync timeout. */
  predicate TimedOut(pass: nat -> Pass, wait: Option<nat>, n: nat) {
    wait.Some? && SawClean(pass, n) && Elapsed(pass, n) >= wait.value
  }

  predicate Faulted(pass: nat -> Pass, sync: nat, n: nat) {
    Elapsed(pass, n) - CleanSince(pass, n) > sync
  }

  /** It goes on after each of the first n passes. */
  ghost predicate GoesOn(pass: nat -> Pass, wait: Option<nat>, sync: nat, n: nat) {
    forall k: nat | 1 <= k <= n ::
      !pass(k - 1).TookNew() && !TimedOut(pass, wait, k) && !Faulted(pass, sync, k)
  }

  /** The bound: as long as read() goes on, no more than the longer of the two
      times has passed. */
  lemma GoesOnWithin(pass: nat -> Pass, wait: nat, sync: nat, n: nat)
    requires GoesOn(pass, Some(wait), sync, n)
    ensures Elapsed(pass, n) <= if wait > sync then wait else sync
  {
    if n > 0 {
      assert !TimedOut(pass, Some(wait), n) && !Faulted(pass, sync, n);
      if !SawClean(pass, n) {
        NeverClean(pass, n);
      }
    }
  }

  lemma {:induction false} NeverClean(pass: nat -> Pass, n: nat)
    requires !SawClean(pass, n)
    ensures CleanSince(pass, n) == 0
  {
    if n > 0 {
      assert !pass(n - 1).TookStale();
      NeverClean(pass, n - 1);
    }
  }

  lemma {:induction false} TicksAdd(pass: nat -> Pass, n: nat)
    requires Ticking(pass)
    ensures Elapsed(pass, n) >= n
  {
    if n > 0 {
      TicksAdd(pass, n - 1);
    }
  }

  // ---- What a fault means ----

  /** A failed search, or a copy that came to something other than a new version. */
  predicate Decides(p: Pass) {
    if p.Search? then !p.found
    else p.state.Window? && (p.taken.Stale? || p.taken.Torn? || p.taken.Crc? || p.taken.Framing?)
  }

  /** Pass k is the last that decides. */
  ghost predicate LastDecides(pass: nat -> Pass, n: nat, k: nat) {
    k < n && Decides(pass(k)) && forall j: nat | k < j < n :: !Decides(pass(j))
  }

  predicate NoneDecides(pass: nat -> Pass, n: nat) {
    forall k: nat | k < n :: !Decides(pass(k))
  }

  /** A look found a tripwire set. */
  predicate Moved(pass: nat -> Pass, n: nat) {
    exists k: nat :: k < n && pass(k).Look? && !pass(k).state.Quiet?
  }

  /** NO_LOCK: the last pass that decides is a failed search or a framing failure; CRC: a
      CRC failure; TORN: a torn or a stale copy, or none decides, but the beam was seen
      moving; STALLED: no search failed, and all tripwires were quiet. */
  ghost predicate FaultIs(pass: nat -> Pass, n: nat, s: Status) {
    && (s == NO_LOCK <==> exists k: nat :: LastDecides(pass, n, k) && (pass(k).Search? || pass(k).taken.Framing?))
    && (s == CRC <==> exists k: nat :: LastDecides(pass, n, k) && pass(k).Look? && pass(k).taken.Crc?)
    && (s == TORN <==>
          || (exists k: nat ::
                LastDecides(pass, n, k) && pass(k).Look? && (pass(k).taken.Torn? || pass(k).taken.Stale?))
          || (NoneDecides(pass, n) && Moved(pass, n)))
    && (s == STALLED <==> NoneDecides(pass, n) && !Moved(pass, n))
  }

  /** What a pass that decides is reported as. */
  function Reported(p: Pass): Status
    requires Decides(p)
  {
    if p.Search? || p.taken.Framing? then NO_LOCK else if p.taken.Crc? then CRC else TORN
  }

  /** Pass k is the last that decides, or none does. */
  ghost predicate ReportedBy(pass: nat -> Pass, n: nat, k: nat, s: Status) {
    if NoneDecides(pass, n) then s == if Moved(pass, n) then TORN else STALLED
    else LastDecides(pass, n, k) && s == Reported(pass(k))
  }

  lemma {:induction false} LastReported(pass: nat -> Pass, n: nat) returns (k: nat)
    ensures ReportedBy(pass, n, k, FaultAfter(pass, n))
  {
    k := 0;
    if n > 0 {
      k := LastReported(pass, n - 1);
      if Decides(pass(n - 1)) {
        assert !NoneDecides(pass, n);
        k := n - 1;
      } else {
        StillReported(pass, n - 1, n, k);
      }
    }
  }

  lemma StillReported(pass: nat -> Pass, n: nat, m: nat, k: nat)
    requires m == n + 1 && !Decides(pass(n)) && ReportedBy(pass, n, k, FaultAfter(pass, n))
    ensures ReportedBy(pass, m, k, FaultAfter(pass, m))
  {
    assert NoneDecides(pass, m) <==> NoneDecides(pass, n);
    assert Moved(pass, m) <==> Moved(pass, n) || (pass(n).Look? && !pass(n).state.Quiet?);
  }

  /** What the passes have been reported as so far. */
  lemma FaultMeans(pass: nat -> Pass, n: nat)
    ensures FaultIs(pass, n, FaultAfter(pass, n))
  {
    var k := LastReported(pass, n);
    assert NoneDecides(pass, n) ==> forall j: nat :: !LastDecides(pass, n, j);
    assert !NoneDecides(pass, n) ==> forall j: nat | LastDecides(pass, n, j) :: j == k;
  }

  /** Longer than the sync timeout since the last pass that saw a clean copy began, or
      since the call if there is none. */
  ghost predicate Overdue(pass: nat -> Pass, sync: nat, n: nat) {
    && (!SawClean(pass, n) ==> Elapsed(pass, n) > sync)
    && forall k: nat | k < n && pass(k).TookStale() && forall j: nat | k < j < n :: !pass(j).TookStale() ::
         Elapsed(pass, n) - Elapsed(pass, k) > sync
  }

  lemma {:induction false} CleanAt(pass: nat -> Pass, n: nat)
    ensures SawClean(pass, n) ==>
      exists k: nat :: k < n && pass(k).TookStale() && (forall j: nat | k < j < n :: !pass(j).TookStale())
        && CleanSince(pass, n) == Elapsed(pass, k)
  {
    if n > 0 {
      if pass(n - 1).TookStale() {
        assert CleanSince(pass, n) == Elapsed(pass, n - 1);
      } else {
        CleanAt(pass, n - 1);
      }
    }
  }

  lemma FaultedMeans(pass: nat -> Pass, sync: nat, n: nat)
    ensures Faulted(pass, sync, n) <==> Overdue(pass, sync, n)
  {
    if SawClean(pass, n) {
      CleanAt(pass, n);
    } else {
      NeverClean(pass, n);
    }
  }

  /** Passes of one length. */
  lemma {:induction false} EvenPasses(pass: nat -> Pass, n: nat, ticks: nat)
    requires forall k: nat | k < n :: pass(k).ticks == ticks
    ensures Elapsed(pass, n) == n * ticks
  {
    if n > 0 {
      EvenPasses(pass, n - 1, ticks);
    }
  }

  method Read(pass: nat -> Pass, wait: nat, sync: nat, payload: array<byte>)
    returns (status: Status, sequence: Option<word>, used: nat)
    requires Ticking(pass) && payload.Length == Wire.PAYLOAD_BYTES
    modifies payload
    ensures used > 0 && GoesOn(pass, Some(wait), sync, used - 1)
    ensures Elapsed(pass, used - 1) <= if wait > sync then wait else sync
    ensures status == NEW <==> pass(used - 1).TookNew()
    ensures status == NEW ==>
      payload[..] == pass(used - 1).taken.payload && sequence == Some(pass(used - 1).taken.stamp)
    ensures status != NEW ==> payload[..] == old(payload[..]) && sequence == None
    ensures status == TIMEOUT ==> TimedOut(pass, Some(wait), used)
    ensures status != NEW && status != TIMEOUT ==>
      Overdue(pass, sync, used) && !TimedOut(pass, Some(wait), used) && FaultIs(pass, used, status)
  {
    var elapsed, faultSince := 0, 0;
    var clean, fault := false, STALLED;
    used := 0;
    sequence := None;
    while true
      invariant GoesOn(pass, Some(wait), sync, used)
      invariant elapsed == Elapsed(pass, used) && faultSince == CleanSince(pass, used)
      invariant clean == SawClean(pass, used) && fault == FaultAfter(pass, used)
      invariant payload[..] == old(payload[..]) && sequence == None
      decreases wait + sync - used
    {
      GoesOnWithin(pass, wait, sync, used);
      TicksAdd(pass, used);
      var p := pass(used);
      used := used + 1;
      if p.TookNew() {
        CopyOut(p.taken.payload, payload);
        return NEW, Some(p.taken.stamp), used;
      }
      fault := NextFault(fault, p);
      if p.TookStale() {
        clean := true;
        faultSince := elapsed;
        assert pass(used - 1).TookStale();
      }
      elapsed := elapsed + p.ticks;
      TicksAdd(pass, used);
      if clean && elapsed >= wait {
        return TIMEOUT, None, used;
      }
      if elapsed - faultSince > sync {
        FaultMeans(pass, used);
        FaultedMeans(pass, sync, used);
        return fault, None, used;
      }
      GoesOnWithin(pass, wait, sync, used);
    }
  }

  /** The fault so far, after a pass that was not new. */
  method NextFault(before: Status, p: Pass) returns (fault: Status)
    ensures fault == FaultOf(before, p)
  {
    fault := before;
    if p.Search? {
      if !p.found {
        fault := NO_LOCK;
      }
      return;
    }
    if p.state != Quiet && fault == STALLED {
      fault := TORN;
    }
    if p.state == Window {
      match p.taken
      case Stale => fault := TORN;
      case Torn => fault := TORN;
      case Crc => fault := CRC;
      case Framing => fault := NO_LOCK;
      case _ =>
    }
  }

  method CopyOut(from: seq<byte>, to: array<byte>)
    requires |from| == to.Length
    modifies to
    ensures to[..] == from
  {
    forall i | 0 <= i < |from| {
      to[i] := from[i];
    }
  }
}
