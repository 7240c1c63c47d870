/** What an Ok carries, in every run: status and body as the handler gave them for the
    command that the response belongs to. */
module SidecarAnswers {
  import opened ByteBits
  import opened Options
  import opened LatestValue
  import opened Sidecar
  import opened SidecarRuns

  /** Reply m was written by step k: the handler's, or a Nop's echo, for the command that
      the service had read. */
  ghost predicate WrittenAt(run: seq<Sys>, acts: seq<Act>, n: nat, m: nat, k: nat)
    requires |run| == |acts| + 1 && k < n < |run| && m < |run[n].replies|
  {
    var reply := run[n].replies[m];
    && acts[k].ServiceAnswer? && run[k].busy == Some(reply.origin) && |run[k].replies| == m
    && reply.origin < |run[n].writes| && IsAnswer(reply.msg, run[n].writes[reply.origin], acts[k].handler)
  }

  lemma StepKeeps(s: Sys, a: Act, s': Sys)
    requires Does(s, a, s')
    ensures s.writes <= s'.writes && s.replies <= s'.replies
    ensures !a.ServiceAnswer? ==> s'.replies == s.replies
  {
  }

  lemma NewReply(s: Sys, a: Act, s': Sys)
    requires Does(s, a, s') && a.ServiceAnswer?
    ensures s.busy.Some? && s.busy.value < |s.writes| && s'.writes == s.writes
    ensures |s'.replies| == |s.replies| + 1 && s'.replies[|s.replies|].origin == s.busy.value
    ensures IsAnswer(s'.replies[|s.replies|].msg, s.writes[s.busy.value], a.handler)
  {
    AnswerMeans(s.writes[s.busy.value], a.handler);
  }

  /** Every response is written once, as the answer to a command that was read. */
  lemma {:induction false} ReplyIsAnswer(run: seq<Sys>, acts: seq<Act>, n: nat, m: nat) returns (k: nat)
    requires IsRun(run, acts) && n < |run| && m < |run[n].replies|
    ensures k < n && WrittenAt(run, acts, n, m, k)
  {
    StepKeeps(run[n - 1], acts[n - 1], run[n]);
    if m < |run[n - 1].replies| {
      k := ReplyIsAnswer(run, acts, n - 1, m);
    } else {
      k := n - 1;
      NewReply(run[n - 1], acts[n - 1], run[n]);
    }
  }

  ghost predicate DoneRead(s: Sys) {
    forall i: nat | i < |s.done| :: s.done[i].reply in s.replies
  }

  lemma DoneReadStep(s: Sys, a: Act, s': Sys)
    requires Does(s, a, s') && DoneRead(s)
    ensures DoneRead(s')
  {
    StepKeeps(s, a, s');
    forall i: nat | i < |s'.done| ensures s'.done[i].reply in s'.replies {
      assert i < |s.done| ==> s.done[i].reply in s.replies;
    }
  }

  lemma {:induction false} DoneReads(run: seq<Sys>, acts: seq<Act>, n: nat)
    requires IsRun(run, acts) && n < |run|
    ensures DoneRead(run[n])
  {
    if n > 0 {
      DoneReads(run, acts, n - 1);
      DoneReadStep(run[n - 1], acts[n - 1], run[n]);
    }
  }

  /** An Ok: a step k answered the command that its response belongs to, which is the very
      one, or one from before the host's restart under the same header; header, status and
      body are as that step wrote them. */
  lemma OkIsHandled(run: seq<Sys>, acts: seq<Act>, n: nat, i: nat) returns (k: nat)
    requires IsRun(run, acts) && n < |run| && i < |run[n].done|
    ensures var d := run[n].done[i];
      && k < n && acts[k].ServiceAnswer? && run[k].busy == Some(d.reply.origin)
      && d.reply.origin < |run[n].writes| && IsAnswer(d.reply.msg, run[n].writes[d.reply.origin], acts[k].handler)
      && (d.reply.origin == d.index <==> !Collision(run[n], d))
  {
    DoneReads(run, acts, n);
    OkIsOwn(run, acts, n, i);
    var m: nat :| m < |run[n].replies| && run[n].replies[m] == run[n].done[i].reply;
    k := ReplyIsAnswer(run, acts, n, m);
  }
}
