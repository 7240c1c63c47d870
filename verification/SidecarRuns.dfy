/** Host, service and their restarts over the two directions of the link, in any
    interleaving, with any versions lost. */
module SidecarRuns {
  import opened ByteBits
  import opened WireCodec
  import opened LinkTx
  import opened Options
  import opened LatestValue
  import opened Sidecar

  /** A response, and the host write it answers. */
  datatype Reply = Reply(msg: Msg, origin: nat)

  /** A transaction that returned Ok: of host write index, in the host session
      that began with write session. */
  datatype Done = Done(index: nat, session: nat, start: word, reply: Reply)

  /** writes and replies are all the versions ever written in the two directions;
      those from session and from up on are of the current session of host and
      service, and only the last of these is on the wire, as an init begins with an
      empty cycle. start is the session's first sequence number. host and service are
      the readers of the two ends. busy: the command that the service has read, has
      handed to its handler, and has not answered yet. */
  datatype Sys = Sys(writes: seq<Msg>, session: nat, start: word, waiting: bool, host: Inbox,
                     replies: seq<Reply>, up: nat, primed: bool, busy: Option<nat>, service: Inbox,
                     handled: seq<nat>, done: seq<Done>)

  ghost predicate Init(s: Sys) {
    && s.writes == [] && s.session == 0 && !s.waiting && s.host == FRESH
    && s.replies == [] && s.up == 0 && !s.primed && s.busy.None? && s.service == FRESH
    && s.handled == [] && s.done == []
  }

  // ---- The steps ----

  datatype Act =
    | HostBegin(random: word)
    | HostWrite(command: byte, flags: byte, body: seq<byte>)
    | CommandSampled
    | CommandArrived
    | ServiceBegin
    | ServiceRead
    | ServiceAnswer(handler: Msg)
    | ReplySampled
    | ReplyArrived
    | HostRead
    | HostGivesUp                            // timeout or link fault

  function NextSequence(s: Sys): word
    requires s.session <= |s.writes|
  {
    SequenceAt(s.start, |s.writes| - s.session)
  }

  /** The response that a read of the host returns. */
  function Read(s: Sys): Reply
    requires CanRead(s.host) && s.host.way[0] < |s.replies|
  {
    s.replies[s.host.way[0]]
  }

  ghost predicate DoesHostRead(s: Sys, s': Sys) {
    && s.waiting && |s.writes| > 0 && CanRead(s.host) && s.host.way[0] < |s.replies|
    && var cmd, c := s.writes[|s.writes| - 1], |s.writes| - 1;
       s' == if Matches(Read(s).msg, cmd.command, cmd.sequence) then
               s.(host := HasRead(s.host), waiting := false,
                  done := s.done + [Done(c, s.session, s.start, Read(s))])
             else s.(host := HasRead(s.host))
  }

  /** One NEW read of the service. What comes first after a start is dropped. */
  ghost predicate DoesServiceRead(s: Sys, s': Sys) {
    && s.busy.None? && CanRead(s.service) && s.service.way[0] < |s.writes|
    && var i, after := s.service.way[0], s.(service := HasRead(s.service));
       s' == if !s.primed then after.(primed := true)
             else if !Known(s.writes[i].command) then after
             else after.(busy := Some(i), handled := s.handled + [i])
  }

  ghost predicate Does(s: Sys, a: Act, s': Sys) {
    match a
    case HostBegin(random) =>
      s' == s.(session := |s.writes|, start := random, waiting := false, host := FRESH,
               service := Settled(s.service))
    case HostWrite(command, flags, body) =>
      && !s.waiting && s.session <= |s.writes| && |s.writes| - s.session < WORDS
      && s' == s.(writes := s.writes + [Msg(command, NextSequence(s), flags, 0, body)], waiting := true)
    case CommandSampled =>
      |s.writes| > s.session && s' == s.(service := Sampled(s.service, |s.writes| - 1))
    case CommandArrived => |s.service.way| > 1 && s' == s.(service := Arrived(s.service))
    case ServiceBegin =>
      s' == s.(primed := false, busy := None, service := FRESH, up := |s.replies|, host := Settled(s.host))
    case ServiceRead => DoesServiceRead(s, s')
    case ServiceAnswer(handler) =>
      && s.busy.Some? && s.busy.value < |s.writes|
      && s' == s.(busy := None,
                  replies := s.replies + [Reply(Answer(s.writes[s.busy.value], handler), s.busy.value)])
    case ReplySampled =>
      |s.replies| > s.up && s' == s.(host := Sampled(s.host, |s.replies| - 1))
    case ReplyArrived => |s.host.way| > 1 && s' == s.(host := Arrived(s.host))
    case HostRead => DoesHostRead(s, s')
    case HostGivesUp => s' == s.(waiting := false)
  }

  // ---- The invariant ----

  /** Handled in order, once each; what is still to be read is not older. */
  ghost predicate HandledOk(s: Sys) {
    && (forall m: nat, n: nat | m < n < |s.handled| :: s.handled[m] < s.handled[n])
    && (forall n: nat | n < |s.handled| :: s.handled[n] < |s.writes|)
    && (forall n: nat, k: nat | n < |s.handled| && k < |s.service.way| :: s.handled[n] <= s.service.way[k])
    && (s.primed ==> forall n: nat | n < |s.handled| :: s.handled[n] < s.service.seen)
    && (!s.primed ==> s.service.seen == 0)
    && (s.busy.Some? ==> s.primed && s.busy.value in s.handled && Known(s.writes[s.busy.value].command))
  }

  ghost predicate RepliesOk(s: Sys) {
    forall n: nat | n < |s.replies| ::
      && s.replies[n].origin in s.handled && s.replies[n].origin < |s.writes|
      && Matches(s.replies[n].msg, s.writes[s.replies[n].origin].command, s.writes[s.replies[n].origin].sequence)
  }

  /** The session's commands are numbered in a row. */
  ghost predicate NumbersOk(s: Sys) {
    && s.session <= |s.writes| <= s.session + WORDS && s.up <= |s.replies|
    && forall k: nat | s.session <= k < |s.writes| :: s.writes[k].sequence == SequenceAt(s.start, k - s.session)
  }

  /** A response left from an earlier session that happens to carry the very
      header of this command. */
  ghost predicate Collision(s: Sys, d: Done) {
    d.reply.origin < d.session <= d.index < |s.writes|
    && s.writes[d.reply.origin].sequence == s.writes[d.index].sequence
    && s.writes[d.reply.origin].command == s.writes[d.index].command
  }

  ghost predicate DoneOk(s: Sys, d: Done) {
    && d.reply.origin in s.handled && d.session <= d.index < |s.writes|
    && s.writes[d.index].sequence == SequenceAt(d.start, d.index - d.session)
    && Matches(d.reply.msg, s.writes[d.index].command, s.writes[d.index].sequence)
    && (d.reply.origin == d.index || Collision(s, d))
  }

  ghost predicate DonesOk(s: Sys) {
    forall n: nat | n < |s.done| :: DoneOk(s, s.done[n])
  }

  ghost predicate Inv(s: Sys) {
    && HandledOk(s) && RepliesOk(s) && NumbersOk(s) && DonesOk(s)
    && (s.waiting ==> s.session < |s.writes|)
    && InOrder(s.host, |s.replies|) && InOrder(s.service, |s.writes|)
  }

  lemma DonesKept(s: Sys, s': Sys)
    requires DonesOk(s) && s.writes <= s'.writes && s.handled <= s'.handled && s'.done == s.done
    ensures DonesOk(s')
  {
    forall n: nat | n < |s'.done| ensures DoneOk(s', s'.done[n]) {
      assert DoneOk(s, s.done[n]);
    }
  }

  lemma RepliesKept(s: Sys, s': Sys)
    requires RepliesOk(s) && s.writes <= s'.writes && s.handled <= s'.handled && s'.replies == s.replies
    ensures RepliesOk(s')
  {
    forall n: nat | n < |s'.replies|
      ensures s'.replies[n].origin in s'.handled && s'.replies[n].origin < |s'.writes|
      ensures var w := s'.writes[s'.replies[n].origin]; Matches(s'.replies[n].msg, w.command, w.sequence)
    {
      assert s.replies[n].origin in s.handled;
    }
  }

  /** A matching response is the command's own, or left from before. */
  lemma OwnOrOld(s: Sys, i: nat)
    requires Inv(s) && s.waiting && i < |s.replies|
    requires var cmd := s.writes[|s.writes| - 1]; Matches(s.replies[i].msg, cmd.command, cmd.sequence)
    ensures DoneOk(s, Done(|s.writes| - 1, s.session, s.start, s.replies[i]))
  {
    var c, o := |s.writes| - 1, s.replies[i].origin;
    if o >= s.session && o != c {
      SequencesDiffer(s.start, o - s.session, c - s.session);
      assert false;
    }
  }

  lemma HostReadInv(s: Sys, s': Sys)
    requires Inv(s) && DoesHostRead(s, s')
    ensures Inv(s')
  {
    ReadInOrder(s.host, |s.replies|);
    var cmd := s.writes[|s.writes| - 1];
    if Matches(Read(s).msg, cmd.command, cmd.sequence) {
      OwnOrOld(s, s.host.way[0]);
    }
    forall n: nat | n < |s'.done| ensures DoneOk(s', s'.done[n]) {
      assert n < |s.done| ==> DoneOk(s, s.done[n]);
    }
  }

  lemma ServiceReadInv(s: Sys, s': Sys)
    requires Inv(s) && DoesServiceRead(s, s')
    ensures Inv(s')
  {
    ReadInOrder(s.service, |s.writes|);
    assert HandledOk(s') by {
      var i := s.service.way[0];
      assert s'.handled != s.handled ==> i in s'.handled by {
        assert s'.handled != s.handled ==> s'.handled[|s.handled|] == i;
      }
    }
    RepliesKept(s, s');
    DonesKept(s, s');
  }

  lemma ServiceAnswerInv(s: Sys, s': Sys, handler: Msg)
    requires Inv(s) && Does(s, ServiceAnswer(handler), s')
    ensures Inv(s')
  {
    DonesKept(s, s');
  }

  lemma HostWriteInv(s: Sys, s': Sys, command: byte, flags: byte, body: seq<byte>)
    requires Inv(s) && Does(s, HostWrite(command, flags, body), s')
    ensures Inv(s')
  {
    RepliesKept(s, s');
    DonesKept(s, s');
  }

  lemma CommandsInv(s: Sys, a: Act, s': Sys)
    requires Inv(s) && Does(s, a, s') && (a.CommandSampled? || a.CommandArrived?)
    ensures Inv(s')
  {
    if a.CommandSampled? {
      SampledInOrder(s.service, |s.writes|);
    } else {
      ArrivedInOrder(s.service, |s.writes|);
    }
    RepliesKept(s, s');
    DonesKept(s, s');
  }

  lemma RepliesInv(s: Sys, a: Act, s': Sys)
    requires Inv(s) && Does(s, a, s') && (a.ReplySampled? || a.ReplyArrived?)
    ensures Inv(s')
  {
    if a.ReplySampled? {
      SampledInOrder(s.host, |s.replies|);
    } else {
      ArrivedInOrder(s.host, |s.replies|);
    }
    RepliesKept(s, s');
    DonesKept(s, s');
  }

  lemma BeginsInv(s: Sys, a: Act, s': Sys)
    requires Inv(s) && Does(s, a, s') && (a.HostBegin? || a.ServiceBegin? || a.HostGivesUp?)
    ensures Inv(s')
  {
    SettledInOrder(s.host, |s.replies|);
    SettledInOrder(s.service, |s.writes|);
    RepliesKept(s, s');
    DonesKept(s, s');
  }

  lemma StepInv(s: Sys, a: Act, s': Sys)
    requires Inv(s) && Does(s, a, s')
    ensures Inv(s')
  {
    match a
    case HostWrite(command, flags, body) => HostWriteInv(s, s', command, flags, body);
    case ServiceRead => ServiceReadInv(s, s');
    case ServiceAnswer(handler) => ServiceAnswerInv(s, s', handler);
    case HostRead => HostReadInv(s, s');
    case CommandSampled => CommandsInv(s, a, s');
    case CommandArrived => CommandsInv(s, a, s');
    case ReplySampled => RepliesInv(s, a, s');
    case ReplyArrived => RepliesInv(s, a, s');
    case _ => BeginsInv(s, a, s');
  }

  ghost predicate IsPath(run: seq<Sys>, acts: seq<Act>) {
    |run| == |acts| + 1 && forall n: nat | n < |acts| :: Does(run[n], acts[n], run[n + 1])
  }

  function Last(run: seq<Sys>): Sys
    requires |run| > 0
  {
    run[|run| - 1]
  }

  lemma More(run: seq<Sys>, acts: seq<Act>, a: Act, s: Sys) returns (run': seq<Sys>, acts': seq<Act>)
    requires IsPath(run, acts) && Does(Last(run), a, s)
    ensures IsPath(run', acts') && run'[0] == run[0] && Last(run') == s && acts' == acts + [a]
  {
    run', acts' := run + [s], acts + [a];
  }

  ghost predicate IsRun(run: seq<Sys>, acts: seq<Act>) {
    IsPath(run, acts) && Init(run[0])
  }

  lemma {:induction false} PathInv(run: seq<Sys>, acts: seq<Act>, n: nat)
    requires IsPath(run, acts) && Inv(run[0]) && n < |run|
    ensures Inv(run[n])
  {
    if n > 0 {
      PathInv(run, acts, n - 1);
      StepInv(run[n - 1], acts[n - 1], run[n]);
    }
  }

  lemma RunInv(run: seq<Sys>, acts: seq<Act>, n: nat)
    requires IsRun(run, acts) && n < |run|
    ensures Inv(run[n])
  {
    PathInv(run, acts, n);
  }

  /** Over all runs, with any restarts of both ends and any versions lost, no host
      write reaches a handler twice. */
  lemma AtMostOnce(run: seq<Sys>, acts: seq<Act>, n: nat, i: nat, j: nat)
    requires IsRun(run, acts) && n < |run| && i < j < |run[n].handled|
    ensures run[n].handled[i] != run[n].handled[j]
  {
    RunInv(run, acts, n);
  }

  /** An Ok is the response to that very command, which was handled, or to one from
      before the host's last restart with the same command byte and sequence number. */
  lemma OkIsOwn(run: seq<Sys>, acts: seq<Act>, n: nat, k: nat)
    requires IsRun(run, acts) && n < |run| && k < |run[n].done|
    ensures var d := run[n].done[k];
      && d.reply.origin in run[n].handled && d.index < |run[n].writes|
      && Matches(d.reply.msg, run[n].writes[d.index].command, run[n].writes[d.index].sequence)
      && (d.reply.origin == d.index <==> !Collision(run[n], d))
  {
    RunInv(run, acts, n);
    assert DoneOk(run[n], run[n].done[k]);
  }

  /** Sequence number x is not among the first limit ones from start. */
  predicate Apart(x: word, start: word, limit: nat) {
    forall m: nat | m < limit :: x != SequenceAt(start, m)
  }

  /** So a session whose start keeps its numbers apart from those of all earlier
      commands gets only its own responses. */
  lemma FreshStartIsSafe(run: seq<Sys>, acts: seq<Act>, n: nat, k: nat, limit: nat)
    requires IsRun(run, acts) && n < |run| && k < |run[n].done|
    requires run[n].done[k].index < run[n].done[k].session + limit
    requires forall w: nat | w < run[n].done[k].session && w < |run[n].writes| ::
      Apart(run[n].writes[w].sequence, run[n].done[k].start, limit)
    ensures run[n].done[k].reply.origin == run[n].done[k].index
  {
    RunInv(run, acts, n);
    assert DoneOk(run[n], run[n].done[k]);
  }

  /** And one whose start does not can be given a stale one: a host that restarts
      one number on reads the answer to the last command before the restart as
      the answer to its first. */
  lemma StaleAnswer() returns (run: seq<Sys>, acts: seq<Act>)
    ensures IsRun(run, acts)
    ensures var s := Last(run); |s.done| == 1 && s.done[0].index == 2 && s.done[0].reply.origin == 1
  {
    var w0, w1 := Msg(NOP, 5, 0, 0, []), Msg(NOP, 6, 0, 0, []);
    run, acts := BeforeRestart(w0, w1);
    var r := Reply(w1, 1);
    var s := Last(run);
    s := s.(session := 2, start := 6, waiting := false);
    run, acts := More(run, acts, HostBegin(6), s);
    s := s.(writes := [w0, w1, w1], waiting := true);
    run, acts := More(run, acts, HostWrite(NOP, 0, []), s);
    s := s.(host := Inbox([0], 0));
    run, acts := More(run, acts, ReplySampled, s);
    s := s.(host := Inbox([0], 1), waiting := false, done := [Done(2, 2, 6, r)]);
    run, acts := More(run, acts, HostRead, s);
  }

  /** A first command that is dropped, and a second that is answered. */
  lemma BeforeRestart(w0: Msg, w1: Msg) returns (run: seq<Sys>, acts: seq<Act>)
    requires w0 == Msg(NOP, 5, 0, 0, []) && w1 == Msg(NOP, 6, 0, 0, [])
    ensures IsRun(run, acts)
    ensures Last(run) == Sys([w0, w1], 0, 5, true, FRESH, [Reply(w1, 1)], 0, true, None, Inbox([1], 2), [1], [])
  {
    var s := Sys([], 0, 5, false, FRESH, [], 0, false, None, FRESH, [], []);
    run, acts := [s], [];
    s := s.(writes := [w0], waiting := true);
    run, acts := More(run, acts, HostWrite(NOP, 0, []), s);
    s := s.(service := Inbox([0], 0));
    run, acts := More(run, acts, CommandSampled, s);
    s := s.(primed := true, service := Inbox([0], 1));
    run, acts := More(run, acts, ServiceRead, s);
    s := s.(waiting := false);
    run, acts := More(run, acts, HostGivesUp, s);
    s := s.(writes := [w0, w1], waiting := true);
    run, acts := More(run, acts, HostWrite(NOP, 0, []), s);
    run, acts := SecondAnswered(run, acts, w0, w1);
  }

  lemma SecondAnswered(run: seq<Sys>, acts: seq<Act>, w0: Msg, w1: Msg) returns (run': seq<Sys>, acts': seq<Act>)
    requires IsRun(run, acts) && w1.command == NOP && w1.status == 0
    requires Last(run) == Sys([w0, w1], 0, 5, true, FRESH, [], 0, true, None, Inbox([0], 1), [], [])
    ensures IsRun(run', acts')
    ensures Last(run') == Sys([w0, w1], 0, 5, true, FRESH, [Reply(w1, 1)], 0, true, None, Inbox([1], 2), [1], [])
  {
    run', acts' := run, acts;
    var s := Last(run).(service := Inbox([0, 1], 1));
    run', acts' := More(run', acts', CommandSampled, s);
    s := s.(service := Inbox([1], 1));
    run', acts' := More(run', acts', CommandArrived, s);
    s := s.(service := Inbox([1], 2), busy := Some(1), handled := [1]);
    run', acts' := More(run', acts', ServiceRead, s);
    s := s.(busy := None, replies := [Reply(w1, 1)]);
    run', acts' := More(run', acts', ServiceAnswer(w1), s);
  }
}
