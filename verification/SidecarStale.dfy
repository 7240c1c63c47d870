/** When a host that has just restarted can be given the answer to a command of an
    earlier session: exactly if the response on the wire, the command that the service
    is busy with, or the last one that it has received and will read, has one of the
    numbers to come. */
module SidecarStale {
  import opened ByteBits
  import opened WireCodec
  import opened LinkTx
  import opened Options
  import opened LatestValue
  import opened Sidecar
  import opened SidecarRuns

  // ---- The condition ----

  /** One of the session's first limit numbers. */
  ghost predicate Among(x: word, start: word, limit: nat) {
    exists m: nat :: m < limit && x == SequenceAt(start, m)
  }

  /** The host has just begun. */
  ghost predicate Begun(s: Sys) {
    s.session == |s.writes| && !s.waiting && s.host == FRESH && |s.service.way| <= 1
  }

  /** The last response, if the service wrote it in its present session. */
  predicate OnTheWire(s: Sys, i: nat) {
    s.up <= i && i + 1 == |s.replies|
  }

  /** The last that the service has received; it has read others before, but not this. */
  predicate Answerable(s: Sys, w: nat) {
    s.service.way == [w] && w < |s.writes| && Known(s.writes[w].command) && s.service.seen <= w && s.primed
  }

  /** Read by the service, and not answered yet. */
  predicate Unanswered(s: Sys, w: nat) {
    s.busy == Some(w) && w < |s.writes|
  }

  predicate Pending(s: Sys, w: nat) {
    Unanswered(s, w) || Answerable(s, w)
  }

  ghost predicate Risky(s: Sys, limit: nat) {
    || (exists i: nat :: OnTheWire(s, i) && Among(s.replies[i].msg.sequence, s.start, limit))
    || (exists w: nat ::
          Pending(s, w) && w < s.session && Among(s.writes[w].sequence, s.start, limit))
  }

  // ---- What can happen ----

  ghost predicate NoRestart(acts: seq<Act>) {
    forall n: nat | n < |acts| :: !acts[n].HostBegin?
  }

  /** A session's course: no restart of the host. */
  ghost predicate Course(run: seq<Sys>, acts: seq<Act>, s: Sys) {
    IsPath(run, acts) && run[0] == s && NoRestart(acts)
  }

  /** An Ok of one of its first limit commands that is another command's response. */
  ghost predicate Foreign(s: Sys, t: Sys, limit: nat) {
    exists k: nat :: |s.done| <= k < |t.done| && IsForeign(t.done[k], limit)
  }

  predicate IsForeign(d: Done, limit: nat) {
    d.index < d.session + limit && d.reply.origin != d.index
  }

  // ---- It happens only then ----

  /** The response was on the wire, or its command to be answered. */
  ghost predicate Traced(s: Sys, r: Reply) {
    r.origin >= s.session || (exists i: nat :: OnTheWire(s, i) && s.replies[i] == r) || Pending(s, r.origin)
  }

  /** Earlier commands that the service has or will have were there, too. */
  ghost predicate CommandsFrom(s: Sys, t: Sys) {
    && (t.busy.Some? ==> t.busy.value >= s.session || Pending(s, t.busy.value))
    && (forall k: nat | k < |t.service.way| && t.service.way[k] < s.session :: Waited(s, t, t.service.way[k]))
  }

  predicate Waited(s: Sys, t: Sys, w: nat) {
    s.service.way == [w] && s.service.seen <= t.service.seen && t.service.way != [] && t.service.way[0] == w
    && (if t.primed then s.primed || w < t.service.seen else !s.primed)
  }

  ghost predicate RepliesFrom(s: Sys, t: Sys) {
    && s.replies <= t.replies && (|t.replies| == |s.replies| ==> s.up <= t.up)
    && (forall j: nat | |s.replies| <= j < |t.replies| :: Traced(s, t.replies[j]))
    && (forall k: nat | k < |t.host.way| && t.host.way[k] < |t.replies| :: Traced(s, t.replies[t.host.way[k]]))
  }

  ghost predicate DonesFrom(s: Sys, t: Sys) {
    && |s.done| <= |t.done|
    && forall k: nat | |s.done| <= k < |t.done| ::
         Traced(s, t.done[k].reply) && t.done[k].session == s.session && t.done[k].start == s.start
  }

  ghost predicate TracedFrom(s: Sys, t: Sys) {
    && t.session == s.session && t.start == s.start && s.writes <= t.writes
    && CommandsFrom(s, t) && RepliesFrom(s, t) && DonesFrom(s, t)
  }

  lemma TracedRead(s: Sys, t: Sys, u: Sys)
    requires TracedFrom(s, t) && DoesHostRead(t, u)
    ensures TracedFrom(s, u)
  {
    assert Traced(s, Read(t));
  }

  lemma TracedServe(s: Sys, t: Sys, u: Sys)
    requires s.session <= |s.writes| && TracedFrom(s, t) && DoesServiceRead(t, u) && InOrder(t.service, |t.writes|)
    ensures TracedFrom(s, u)
  {
    var i := t.service.way[0];
    assert i < s.session ==> Waited(s, t, i);
    forall k: nat | k < |u.service.way| && u.service.way[k] < s.session ensures Waited(s, u, u.service.way[k]) {
      assert Waited(s, t, t.service.way[k]);
    }
  }

  lemma TracedAnswer(s: Sys, t: Sys, u: Sys, handler: Msg)
    requires TracedFrom(s, t) && Does(t, ServiceAnswer(handler), u)
    ensures TracedFrom(s, u)
  {
    forall j: nat | |s.replies| <= j < |u.replies| ensures Traced(s, u.replies[j]) {
      assert j < |t.replies| ==> Traced(s, t.replies[j]);
    }
  }

  lemma TracedReplies(s: Sys, t: Sys, a: Act, u: Sys)
    requires TracedFrom(s, t) && Does(t, a, u) && (a.ReplySampled? || a.ReplyArrived?)
    ensures TracedFrom(s, u)
  {
    if a.ReplySampled? {
      var l := |t.replies| - 1;
      assert Traced(s, t.replies[l]) by {
        assert l < |s.replies| ==> OnTheWire(s, l) && s.replies[l] == t.replies[l];
      }
    }
  }

  lemma TracedCommands(s: Sys, t: Sys, a: Act, u: Sys)
    requires TracedFrom(s, t) && Does(t, a, u) && (a.CommandSampled? || a.CommandArrived?)
    requires InOrder(t.service, |t.writes|)
    ensures TracedFrom(s, u)
  {
    forall k: nat | k < |u.service.way| && u.service.way[k] < s.session ensures Waited(s, u, u.service.way[k]) {
      if a.CommandArrived? {
        assert Waited(s, t, t.service.way[k + 1]);
      } else {
        assert k < |t.service.way| && Waited(s, t, t.service.way[k]);
      }
    }
  }

  lemma TracedStep(s: Sys, t: Sys, a: Act, u: Sys)
    requires s.session == |s.writes| && Inv(t) && TracedFrom(s, t) && Does(t, a, u) && !a.HostBegin?
    ensures TracedFrom(s, u)
  {
    match a
    case HostRead => TracedRead(s, t, u);
    case ServiceRead => TracedServe(s, t, u);
    case ServiceAnswer(handler) => TracedAnswer(s, t, u, handler);
    case ReplySampled => TracedReplies(s, t, a, u);
    case ReplyArrived => TracedReplies(s, t, a, u);
    case CommandSampled => TracedCommands(s, t, a, u);
    case CommandArrived => TracedCommands(s, t, a, u);
    case _ =>
  }

  lemma TracedStart(s: Sys)
    requires Inv(s) && Begun(s)
    ensures TracedFrom(s, s)
  {
    forall k: nat | k < |s.service.way| && s.service.way[k] < s.session ensures Waited(s, s, s.service.way[k]) {
      assert s.service.way[k] in s.service.way;
    }
  }

  lemma {:induction false} CourseTraced(run: seq<Sys>, acts: seq<Act>, s: Sys, n: nat)
    requires Inv(s) && Begun(s) && Course(run, acts, s) && n < |run|
    ensures Inv(run[n]) && TracedFrom(s, run[n])
  {
    if n == 0 {
      TracedStart(s);
    } else {
      CourseTraced(run, acts, s, n - 1);
      StepInv(run[n - 1], acts[n - 1], run[n]);
      TracedStep(s, run[n - 1], acts[n - 1], run[n]);
    }
  }

  lemma ForeignIsRisky(run: seq<Sys>, acts: seq<Act>, s: Sys, limit: nat)
    requires Inv(s) && Begun(s) && Course(run, acts, s) && Foreign(s, Last(run), limit)
    ensures Risky(s, limit)
  {
    var t := Last(run);
    CourseTraced(run, acts, s, |run| - 1);
    var k: nat :| |s.done| <= k < |t.done| && IsForeign(t.done[k], limit);
    var d := t.done[k];
    assert DoneOk(t, d) && Traced(s, d.reply);
    assert d.reply.origin < d.session;
    var x := t.writes[d.index].sequence;
    assert x == SequenceAt(s.start, d.index - d.session) && Among(x, s.start, limit);
    if exists i: nat :: OnTheWire(s, i) && s.replies[i] == d.reply {
      var i: nat :| OnTheWire(s, i) && s.replies[i] == d.reply;
      assert Among(s.replies[i].msg.sequence, s.start, limit);
    } else {
      var w := d.reply.origin;
      assert t.writes[w] == s.writes[w] && Pending(s, w);
      assert Among(s.writes[w].sequence, s.start, limit);
    }
  }

  // ---- And then it can ----

  lemma Longer(run: seq<Sys>, acts: seq<Act>, s: Sys, a: Act, u: Sys) returns (run': seq<Sys>, acts': seq<Act>)
    requires Course(run, acts, s) && Does(Last(run), a, u) && !a.HostBegin?
    ensures Course(run', acts', s) && Last(run') == u
  {
    run', acts' := More(run, acts, a, u);
  }

  /** m commands that nobody waits for. */
  lemma Commands(run: seq<Sys>, acts: seq<Act>, s: Sys, m: nat) returns (run': seq<Sys>, acts': seq<Act>)
    requires Course(run, acts, s)
    requires var t := Last(run); !t.waiting && t.session <= |t.writes| && |t.writes| - t.session + m <= WORDS
    ensures Course(run', acts', s)
    ensures var t, u := Last(run), Last(run');
      u == t.(writes := u.writes) && t.writes <= u.writes && |u.writes| == |t.writes| + m
  {
    run', acts' := run, acts;
    for n := 0 to m
      invariant Course(run', acts', s)
      invariant var t, u := Last(run), Last(run');
        u == t.(writes := u.writes) && t.writes <= u.writes && |u.writes| == |t.writes| + n
    {
      var u := Last(run');
      var v := u.(writes := u.writes + [Msg(NOP, NextSequence(u), 0, 0, [])], waiting := true);
      run', acts' := Longer(run', acts', s, HostWrite(NOP, 0, []), v);
      run', acts' := Longer(run', acts', s, HostGivesUp, v.(waiting := false));
    }
  }

  /** The m-th command is given the response on the wire, if it has its number. */
  lemma TakesReply(run: seq<Sys>, acts: seq<Act>, s: Sys, m: nat) returns (run': seq<Sys>, acts': seq<Act>)
    requires Course(run, acts, s) && Inv(s) && Begun(s) && m < WORDS
    requires var t := Last(run);
      && t.writes == s.writes && t.session == s.session && t.start == s.start && !t.waiting && t.done == s.done
      && t.host == FRESH && t.up < |t.replies| && t.replies[|t.replies| - 1].origin < s.session
      && t.replies[|t.replies| - 1].msg.sequence == SequenceAt(s.start, m)
    ensures Course(run', acts', s) && Foreign(s, Last(run'), m + 1)
  {
    var i := |Last(run).replies| - 1;
    var r := Last(run).replies[i];
    run', acts' := Longer(run, acts, s, ReplySampled, Last(run).(host := Inbox([i], 0)));
    run', acts' := Commands(run', acts', s, m);
    var u := Last(run');
    var v := u.(writes := u.writes + [Msg(r.msg.command, NextSequence(u), 0, 0, [])], waiting := true);
    run', acts' := Longer(run', acts', s, HostWrite(r.msg.command, 0, []), v);
    var c := |v.writes| - 1;
    var x := v.(host := Inbox([i], i + 1), waiting := false, done := v.done + [Done(c, v.session, v.start, r)]);
    run', acts' := Longer(run', acts', s, HostRead, x);
    assert IsForeign(x.done[|s.done|], m + 1);
  }

  /** Only what the service has read and written differs. */
  predicate Served(s: Sys, t: Sys) {
    t == s.(primed := t.primed, busy := t.busy, service := t.service, handled := t.handled, replies := t.replies)
  }

  /** The service answers the command that it has read. */
  lemma Answers(run: seq<Sys>, acts: seq<Act>, s: Sys) returns (run': seq<Sys>, acts': seq<Act>)
    requires Course(run, acts, s) && Inv(Last(run)) && Last(run).busy.Some?
    ensures Course(run', acts', s) && Inv(Last(run'))
    ensures var t, u, w := Last(run), Last(run'), Last(run).busy.value;
      && Served(t, u) && u.busy.None? && u.primed == t.primed && u.service == t.service
      && w < |t.writes| && |u.replies| == |t.replies| + 1
      && u.replies[|t.replies|].origin == w && u.replies[|t.replies|].msg.sequence == t.writes[w].sequence
  {
    var t, w := Last(run), Last(run).busy.value;
    var u := t.(busy := None, replies := t.replies + [Reply(Answer(t.writes[w], t.writes[w]), w)]);
    run', acts' := Longer(run, acts, s, ServiceAnswer(t.writes[w]), u);
    StepInv(t, ServiceAnswer(t.writes[w]), u);
  }

  /** One read of a service that is not busy. */
  lemma Reads(run: seq<Sys>, acts: seq<Act>, s: Sys) returns (run': seq<Sys>, acts': seq<Act>)
    requires Course(run, acts, s) && Inv(Last(run)) && Last(run).busy.None? && CanRead(Last(run).service)
    ensures Course(run', acts', s) && Inv(Last(run')) && DoesServiceRead(Last(run), Last(run'))
  {
    var t := Last(run);
    var i, after := t.service.way[0], t.(service := HasRead(t.service));
    var u := if !t.primed then after.(primed := true)
             else if !Known(t.writes[i].command) then after
             else after.(busy := Some(i), handled := t.handled + [i]);
    run', acts' := Longer(run, acts, s, ServiceRead, u);
    StepInv(t, ServiceRead, u);
  }

  /** A service that is not busy reads and answers write w. */
  lemma Serves(run: seq<Sys>, acts: seq<Act>, s: Sys, w: nat) returns (run': seq<Sys>, acts': seq<Act>)
    requires Course(run, acts, s) && Inv(Last(run)) && Last(run).busy.None? && Answerable(Last(run), w)
    ensures Course(run', acts', s)
    ensures var t, u := Last(run), Last(run');
      && Served(t, u) && |u.replies| == |t.replies| + 1
      && u.replies[|t.replies|].origin == w && u.replies[|t.replies|].msg.sequence == t.writes[w].sequence
  {
    run', acts' := Reads(run, acts, s);
    run', acts' := Answers(run', acts', s);
  }

  /** The answer to a pending command comes on the wire. */
  lemma Comes(s: Sys, w: nat) returns (run: seq<Sys>, acts: seq<Act>)
    requires Inv(s) && Pending(s, w)
    ensures Course(run, acts, s)
    ensures var u := Last(run);
      && Served(s, u) && s.up < |u.replies|
      && u.replies[|u.replies| - 1].origin == w && u.replies[|u.replies| - 1].msg.sequence == s.writes[w].sequence
  {
    run, acts := [s], [];
    if s.busy.Some? {
      run, acts := Answers(run, acts, s);
    }
    if !Unanswered(s, w) {
      run, acts := Serves(run, acts, s, w);
    }
  }

  lemma NumberOf(x: word, start: word, limit: nat) returns (m: nat)
    requires Among(x, start, limit)
    ensures m < limit && x == SequenceAt(start, m)
  {
    m :| m < limit && x == SequenceAt(start, m);
  }

  lemma RiskyIsForeign(s: Sys, limit: nat) returns (run: seq<Sys>, acts: seq<Act>)
    requires Inv(s) && Begun(s) && limit <= WORDS && Risky(s, limit)
    ensures Course(run, acts, s) && Foreign(s, Last(run), limit)
  {
    var m: nat;
    if i: nat :| OnTheWire(s, i) && Among(s.replies[i].msg.sequence, s.start, limit) {
      m := NumberOf(s.replies[i].msg.sequence, s.start, limit);
      run, acts := TakesReply([s], [], s, m);
    } else {
      var w: nat :| Pending(s, w) && w < s.session && Among(s.writes[w].sequence, s.start, limit);
      m := NumberOf(s.writes[w].sequence, s.start, limit);
      run, acts := Comes(s, w);
      run, acts := TakesReply(run, acts, s, m);
    }
    Sooner(s, Last(run), m + 1, limit);
  }

  lemma Sooner(s: Sys, t: Sys, few: nat, many: nat)
    requires Foreign(s, t, few) && few <= many
    ensures Foreign(s, t, many)
  {
    var k: nat :| |s.done| <= k < |t.done| && IsForeign(t.done[k], few);
    assert IsForeign(t.done[k], many);
  }

  /** In any state at which a host begins, after whatever runs: one of its first limit
      commands can be given a foreign response if and only if one is on the wire, or
      still to come, under one of its numbers. */
  lemma ForeignIffRisky(run: seq<Sys>, acts: seq<Act>, s: Sys, limit: nat)
    requires SidecarRuns.IsRun(run, acts) && Does(Last(run), HostBegin(s.start), s) && limit <= WORDS
    ensures (exists course: seq<Sys>, steps: seq<Act> :: Course(course, steps, s) && Foreign(s, Last(course), limit))
            <==> Risky(s, limit)
  {
    RunInv(run, acts, |run| - 1);
    StepInv(Last(run), HostBegin(s.start), s);
    if course: seq<Sys>, steps: seq<Act> :| Course(course, steps, s) && Foreign(s, Last(course), limit) {
      ForeignIsRisky(course, steps, s, limit);
    }
    if Risky(s, limit) {
      var course, steps := RiskyIsForeign(s, limit);
    }
  }
}
