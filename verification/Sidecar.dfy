/** The command protocol's two ends: the host's transact() with its retry loop,
    and the service's handling of one command. What each read() returns comes
    from outside, in order. */
module Sidecar {
  import opened ByteBits
  import opened WireCodec
  import opened LinkTx

  // ---- Messages ----

  datatype Msg = Msg(command: byte, sequence: word, flags: byte, status: byte, body: seq<byte>)

  const NOP: byte := 0
  const SIO: byte := 1
  const CIO: byte := 2

  predicate Known(command: byte) {
    command == NOP || command == SIO || command == CIO
  }

  function Next(sequence: word): word {
    (sequence + 1) % WORDS
  }

  /** The n-th sequence number after a start. */
  function SequenceAt(start: word, n: nat): word {
    (start + n) % WORDS
  }

  /** The response belongs to the command: its header is echoed. */
  predicate Matches(reply: Msg, command: byte, sequence: word) {
    reply.sequence == sequence && reply.command == command
  }

  /** What the service answers: the handler's message under the command's header,
      with the handler's status; a Nop's is the echo. */
  function Answer(cmd: Msg, handled: Msg): (reply: Msg)
    ensures Matches(reply, cmd.command, cmd.sequence) && reply.flags == cmd.flags
  {
    var edited := if cmd.command == NOP then cmd.(status := 0) else handled;
    Msg(cmd.command, cmd.sequence, cmd.flags, edited.status, edited.body)
  }

  /** The reply has the command's own header; a Nop's has status 0 and the command's body,
      any other's the status and body that its handler gave. */
  predicate IsAnswer(reply: Msg, cmd: Msg, given: Msg) {
    && reply.command == cmd.command && reply.sequence == cmd.sequence && reply.flags == cmd.flags
    && (cmd.command == 0 ==> reply.status == 0 && reply.body == cmd.body)
    && (cmd.command != 0 ==> reply.status == given.status && reply.body == given.body)
  }

  lemma AnswerMeans(cmd: Msg, given: Msg)
    ensures IsAnswer(Answer(cmd, given), cmd, given)
    ensures forall reply | IsAnswer(reply, cmd, given) :: reply == Answer(cmd, given)
  {
  }

  /** read() as its callers see it. */
  datatype ReadResult = New(msg: Msg) | TimedOut | Fault

  // ---- Host ----

  datatype Outcome = Ok | Timeout | LinkFault

  /** A read that transact() passes over: a response to another command. */
  predicate Skipped(r: ReadResult, command: byte, sequence: word) {
    r.New? && !Matches(r.msg, command, sequence)
  }

  /** The outcome, what is in the response buffer, and how many reads it takes; when
      the results are used up, the time has run out. */
  function Transacted(results: seq<ReadResult>, command: byte, sequence: word, buffer: Msg): (Outcome, Msg, nat) {
    if results == [] then (Timeout, buffer, 0)
    else
      match results[0]
      case TimedOut => (Timeout, buffer, 1)
      case Fault => (LinkFault, buffer, 1)
      case New(msg) =>
        if Matches(msg, command, sequence) then (Ok, msg, 1)
        else
          var rest := Transacted(results[1..], command, sequence, buffer);
          (rest.0, rest.1, rest.2 + 1)
  }

  class Host {
    var nextSequence: word
    /** Everything written to the link since begin(). */
    var written: seq<Msg>
    ghost const start: word

    constructor (random: word)
      ensures Valid() && written == [] && nextSequence == start == random
    {
      nextSequence, written, start := random, [], random;
    }

    /** Commands are numbered in a row from the random start. */
    ghost predicate Valid()
      reads this
    {
      && nextSequence == SequenceAt(start, |written|)
      && forall n: nat | n < |written| :: written[n].sequence == SequenceAt(start, n)
    }

    /** results: what the read() calls of this transaction return; when they are
        used up, the time has run out. */
    method Transact(command: byte, flags: byte, body: seq<byte>, buffer: Msg, results: seq<ReadResult>)
      returns (result: Outcome, response: Msg, used: nat)
      requires Valid()
      modifies this
      ensures Valid()
      ensures written == old(written) + [Msg(command, old(nextSequence), flags, 0, body)]
      ensures used <= |results| && (used > 0 ==>
        forall i | 0 <= i < used - 1 :: Skipped(results[i], command, old(nextSequence)))
      ensures result == Ok <==>
        used > 0 && results[used - 1].New? && Matches(results[used - 1].msg, command, old(nextSequence))
      ensures response == if result == Ok then results[used - 1].msg else buffer
      ensures result == LinkFault <==> used > 0 && results[used - 1].Fault?
      ensures result == Timeout ==> (used > 0 && results[used - 1].TimedOut?) || used == |results|
      ensures (result, response, used) == Transacted(results, command, old(nextSequence), buffer)
    {
      var sequence := nextSequence;
      nextSequence := Next(nextSequence);
      var cmd := Msg(command, sequence, flags, 0, body);
      written := written + [cmd];
      SequenceNext(start, |written| - 1);
      response := buffer;
      used := 0;
      while used < |results|
        invariant 0 <= used <= |results|
        invariant forall i | 0 <= i < used :: Skipped(results[i], command, sequence)
        invariant var rest := Transacted(results[used..], command, sequence, buffer);
          Transacted(results, command, sequence, buffer) == (rest.0, rest.1, rest.2 + used)
      {
        assert results[used..][1..] == results[used + 1..];
        var r := results[used];
        used := used + 1;
        match r
        case TimedOut => return Timeout, response, used;
        case Fault => return LinkFault, response, used;
        case New(msg) =>
          if Matches(msg, command, sequence) {
            return Ok, msg, used;
          }
      }
      result := Timeout;
    }
  }

  lemma SequenceNext(start: word, n: nat)
    ensures Next(SequenceAt(start, n)) == SequenceAt(start, n + 1)
  {
  }

  /** Within fewer than 2^32 commands no sequence number comes twice. */
  lemma SequencesDiffer(start: word, m: nat, n: nat)
    requires m < n < m + WORDS
    ensures SequenceAt(start, m) != SequenceAt(start, n)
  {
    var a, b := start + m, start + n;
    assert a == a / WORDS * WORDS + a % WORDS && b == b / WORDS * WORDS + b % WORDS;
  }

  // ---- Service ----

  class Service {
    var primed: bool
    /** The commands that reached a handler, and the responses written. */
    var handled: seq<Msg>
    var written: seq<Msg>

    constructor ()
      ensures !primed && handled == [] && written == []
    {
      primed, handled, written := false, [], [];
    }

    /** One read() result; handler: what a handler would make of the command. */
    method Serve(r: ReadResult, handler: Msg -> Msg) returns (answered: bool)
      modifies this
      ensures primed == (old(primed) || r.New?)
      ensures answered <==> old(primed) && r.New? && r.msg.command in {0, 1, 2}
      ensures handled == old(handled) + if answered then [r.msg] else []
      ensures |written| == |old(written)| + (if answered then 1 else 0) && old(written) <= written
      ensures answered ==> IsAnswer(written[|old(written)|], r.msg, handler(r.msg.(status := 0)))
      ensures written == old(written) + if answered then [Answer(r.msg, handler(r.msg.(status := 0)))] else []
    {
      if !r.New? {
        return false;
      }
      if !primed {
        primed := true;
        return false;
      }
      var tx := r.msg.(status := 0);
      if r.msg.command == NOP {
        handled := handled + [r.msg];
      } else if r.msg.command == SIO || r.msg.command == CIO {
        handled := handled + [r.msg];
        tx := handler(tx);
      } else {
        return false;
      }
      written := written + [Msg(r.msg.command, r.msg.sequence, r.msg.flags, tx.status, tx.body)];
      answered := true;
    }
  }
}
