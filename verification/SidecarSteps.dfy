/** The methods of host and service do what the steps of the runs say. */
module SidecarSteps {
  import opened ByteBits
  import opened WireCodec
  import opened LinkTx
  import opened Options
  import opened LatestValue
  import opened Sidecar
  import opened SidecarRuns

  // ---- The service ----

  /** The commands that reached a handler, and the responses, as messages. */
  function Handled(s: Sys): seq<Msg>
    requires forall n: nat | n < |s.handled| :: s.handled[n] < |s.writes|
  {
    seq(|s.handled|, n requires 0 <= n < |s.handled| => s.writes[s.handled[n]])
  }

  function Written(s: Sys): seq<Msg> {
    seq(|s.replies|, n requires 0 <= n < |s.replies| => s.replies[n].msg)
  }

  /** Neither the service's nor a restart's. */
  predicate OfOthers(a: Act) {
    !a.ServiceBegin? && !a.ServiceRead? && !a.ServiceAnswer?
  }

  lemma {:induction false} ServiceStays(run: seq<Sys>, acts: seq<Act>, n: nat)
    requires IsPath(run, acts) && HandledOk(run[0]) && n < |run| && forall k: nat | k < n :: OfOthers(acts[k])
    ensures run[0].writes <= run[n].writes && run[n].handled == run[0].handled && run[n].replies == run[0].replies
    ensures run[n].primed == run[0].primed && run[n].busy == run[0].busy
  {
    if n > 0 {
      ServiceStays(run, acts, n - 1);
      assert OfOthers(acts[n - 1]);
    }
  }

  lemma SameMessages(s: Sys, t: Sys)
    requires HandledOk(s) && s.writes <= t.writes && t.handled == s.handled && t.replies == s.replies
    ensures Handled(t) == Handled(s) && Written(t) == Written(s)
  {
  }

  /** A read of the service: what is handled then. */
  lemma ReadIs(s: Sys, t: Sys)
    requires Inv(s) && DoesServiceRead(s, t)
    ensures Inv(t) && t.primed && t.writes == s.writes && Written(t) == Written(s)
    ensures var cmd := s.writes[s.service.way[0]];
      if s.primed && Known(cmd.command) then
        Handled(t) == Handled(s) + [cmd] && t.busy.Some? && t.busy.value < |t.writes| && t.writes[t.busy.value] == cmd
      else Handled(t) == Handled(s) && t.busy.None?
  {
    ServiceReadInv(s, t);
  }

  lemma AnswerIs(s: Sys, t: Sys, handled: Msg)
    requires Inv(s) && Does(s, ServiceAnswer(handled), t)
    ensures Inv(t) && Handled(t) == Handled(s) && t.busy.None? && t.primed == s.primed
    ensures Written(t) == Written(s) + [Answer(s.writes[s.busy.value], handled)]
  {
    ServiceAnswerInv(s, t, handled);
  }

  /** One read of the service, and its answer if it gives one, with whatever happens
      elsewhere in between: primed, handled and written become what Serve makes of
      them. */
  lemma ServeIs(run: seq<Sys>, acts: seq<Act>, n: nat, handler: Msg -> Msg)
    requires IsPath(run, acts) && Inv(run[0]) && 0 < n <= |acts| && acts[0] == ServiceRead
    requires forall k: nat | 0 < k < n :: OfOthers(acts[k])
    requires CanRead(run[0].service) && run[0].service.way[0] < |run[0].writes|
    requires var s, cmd := run[0], run[0].writes[run[0].service.way[0]];
      acts[n..] == if s.primed && Known(cmd.command) then [ServiceAnswer(handler(cmd.(status := 0)))] else []
    ensures Inv(Last(run)) && Last(run).primed && Last(run).busy.None?
    ensures var s, t, cmd := run[0], Last(run), run[0].writes[run[0].service.way[0]];
      var answered := s.primed && Known(cmd.command);
      && Handled(t) == Handled(s) + (if answered then [cmd] else [])
      && Written(t) == Written(s) + (if answered then [Answer(cmd, handler(cmd.(status := 0)))] else [])
  {
    var cmd := run[0].writes[run[0].service.way[0]];
    assert Does(run[0], acts[0], run[1]) && acts[0] == ServiceRead;
    ReadIs(run[0], run[1]);
    Others(run, acts, n);
    SameMessages(run[1], run[n]);
    PathInv(run, acts, n);
    if n < |acts| {
      assert acts[n..][0] == acts[n];
      AnswerIs(run[n], run[n + 1], handler(cmd.(status := 0)));
    }
  }

  lemma Others(run: seq<Sys>, acts: seq<Act>, n: nat)
    requires IsPath(run, acts) && 0 < n <= |acts| && HandledOk(run[1])
    requires forall k: nat | 0 < k < n :: OfOthers(acts[k])
    ensures run[1].writes <= run[n].writes && run[n].handled == run[1].handled && run[n].replies == run[1].replies
    ensures run[n].primed == run[1].primed && run[n].busy == run[1].busy
  {
    ServiceStays(run[1..n + 1], acts[1..n], n - 1);
  }

  // ---- The host ----

  /** Neither a restart of the host nor the begin or end of a transaction. */
  predicate WhileWaiting(a: Act) {
    !a.HostBegin? && !a.HostWrite? && !a.HostGivesUp?
  }

  /** What the reads of the host return, from step n on. */
  function ReadsFrom(run: seq<Sys>, acts: seq<Act>, n: nat): seq<ReadResult>
    requires |run| == |acts| + 1 && n <= |acts|
    decreases |acts| - n
  {
    if n == |acts| then []
    else if acts[n].HostRead? && CanRead(run[n].host) && run[n].host.way[0] < |run[n].replies| then
      [New(Read(run[n]).msg)] + ReadsFrom(run, acts, n + 1)
    else ReadsFrom(run, acts, n + 1)
  }

  /** The transaction is over: nothing more is read. */
  lemma {:induction false} NoReads(run: seq<Sys>, acts: seq<Act>, n: nat)
    requires IsPath(run, acts) && n <= |acts| && !run[n].waiting
    requires forall k: nat | n <= k < |acts| :: WhileWaiting(acts[k])
    ensures ReadsFrom(run, acts, n) == [] && !Last(run).waiting && Last(run).done == run[n].done
    ensures Last(run).session == run[n].session && Last(run).start == run[n].start
    decreases |acts| - n
  {
    if n < |acts| {
      assert WhileWaiting(acts[n]) && Does(run[n], acts[n], run[n + 1]);
      NoReads(run, acts, n + 1);
    }
  }

  /** What read() may return at last, if no more comes: a timeout, a fault, or nothing
      as the time has run out before. */
  predicate Ending(end: seq<ReadResult>) {
    end == [] || end == [TimedOut] || end == [Fault]
  }

  /** Transact has returned out, and the runs are in state t; was is what was done
      before. Ok means that the matching response is noted, and else nobody has been
      answered, and the host gives up. */
  ghost predicate Agrees(t: Sys, was: seq<Done>, c: nat, out: (Outcome, Msg, nat), buffer: Msg) {
    if out.0 == Ok then
      && !t.waiting && |t.done| == |was| + 1 && t.done == was + [Done(c, t.session, t.start, t.done[|was|].reply)]
      && t.done[|was|].reply.msg == out.1
    else
      t.waiting && t.done == was && out.1 == buffer && Does(t, HostGivesUp, t.(waiting := false))
  }

  lemma {:induction false} WaitsOn(run: seq<Sys>, acts: seq<Act>, n: nat, end: seq<ReadResult>, buffer: Msg)
    requires IsPath(run, acts) && n <= |acts| && run[n].waiting && |run[n].writes| > 0 && Ending(end)
    requires forall k: nat | n <= k < |acts| :: WhileWaiting(acts[k])
    ensures var c := |run[n].writes| - 1; var cmd := run[n].writes[c];
      Agrees(Last(run), run[n].done, c,
             Transacted(ReadsFrom(run, acts, n) + end, cmd.command, cmd.sequence, buffer), buffer)
    decreases |acts| - n
  {
    if n == |acts| {
      assert ReadsFrom(run, acts, n) + end == end;
    } else {
      assert WhileWaiting(acts[n]) && Does(run[n], acts[n], run[n + 1]);
      if acts[n].HostRead? {
        FirstRead(run, acts, n, end);
      }
      if run[n + 1].waiting {
        WaitsOn(run, acts, n + 1, end, buffer);
      } else {
        NoReads(run, acts, n + 1);
      }
    }
  }

  lemma FirstRead(run: seq<Sys>, acts: seq<Act>, n: nat, end: seq<ReadResult>)
    requires |run| == |acts| + 1 && n < |acts| && DoesHostRead(run[n], run[n + 1]) && acts[n].HostRead?
    ensures var all := ReadsFrom(run, acts, n) + end;
      |all| > 0 && all[0] == New(Read(run[n]).msg) && all[1..] == ReadsFrom(run, acts, n + 1) + end
  {
  }

  /** A transaction, with whatever the service, its restarts and the link do while the
      host waits: given what its reads return, Transact returns Ok exactly if the
      matching response has been noted in the run, with that response; else the run
      goes on with the host giving up. */
  lemma TransactIs(run: seq<Sys>, acts: seq<Act>, end: seq<ReadResult>, buffer: Msg)
    requires IsPath(run, acts) && Inv(run[0]) && |acts| > 0 && acts[0].HostWrite? && Ending(end)
    requires forall k: nat | 0 < k < |acts| :: WhileWaiting(acts[k])
    ensures Agrees(Last(run), run[0].done, |run[0].writes|,
                   Transacted(ReadsFrom(run, acts, 1) + end, acts[0].command, NextSequence(run[0]), buffer), buffer)
    ensures Inv(Last(run)) && Last(run).writes ==
      run[0].writes + [Msg(acts[0].command, NextSequence(run[0]), acts[0].flags, 0, acts[0].body)]
  {
    WaitsOn(run, acts, 1, end, buffer);
    PathInv(run, acts, |run| - 1);
    WritesStay(run, acts, |run| - 1);
  }

  lemma {:induction false} WritesStay(run: seq<Sys>, acts: seq<Act>, n: nat)
    requires IsPath(run, acts) && 0 < n < |run| && forall k: nat | 0 < k < |acts| :: WhileWaiting(acts[k])
    ensures run[n].writes == run[1].writes
  {
    if n > 1 {
      WritesStay(run, acts, n - 1);
      assert WhileWaiting(acts[n - 1]);
    }
  }
}
