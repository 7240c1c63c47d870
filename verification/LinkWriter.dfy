/** i2slink_write(): its stores are steps of the sender's machine. */
module LinkWriter {
  import opened ByteBits
  import opened Wire
  import opened WireCodec
  import opened LinkTx

  /** A row of states, each a step of the machine after the one before. */
  ghost predicate IsTrace(c: Session, trace: seq<Tx>) {
    && |trace| > 0 && (forall i: nat | i < |trace| :: Shape(trace[i]))
    && forall i: nat | 1 <= i < |trace| :: TxNext(c, trace[i - 1], trace[i])
  }

  lemma TraceMore(c: Session, trace: seq<Tx>, s: Tx)
    requires IsTrace(c, trace) && Shape(s) && TxNext(c, trace[|trace| - 1], s)
    ensures IsTrace(c, trace + [s])
  {
  }

  /** So the invariant holds all along it. */
  lemma {:induction false} TraceInv(c: Session, trace: seq<Tx>, n: nat)
    requires IsTrace(c, trace) && TxInv(c, trace[0]) && n < |trace|
    ensures TxInv(c, trace[n])
  {
    if n > 0 {
      TraceInv(c, trace, n - 1);
      TxNextInv(c, trace[n - 1], trace[n]);
    }
  }

  method StoreWord(cycle: array<byte>, o: nat, x: word)
    requires o + 4 <= cycle.Length
    modifies cycle
    ensures cycle[..] == PutWord(old(cycle[..]), o, x)
  {
    cycle[o] := LeByte(x, 0);
    cycle[o + 1] := LeByte(x, 1);
    cycle[o + 2] := LeByte(x, 2);
    cycle[o + 3] := LeByte(x, 3);
  }

  class Writer {
    const cycle: array<byte>
    var txSequence: word
    ghost const session: Session
    /** The machine's state; with nothing sampled while the writer runs alone. */
    ghost var tx: Tx

    constructor (start: word, tag: seq<byte>, ghost session: Session, ghost tx: Tx)
      requires IsSession(session) && session.start == start && session.tag == tag && TxInit(session, tx)
      ensures Valid() && this.session == session && this.tx.payloads == [] && fresh(cycle)
    {
      cycle := new byte[N];
      txSequence, this.session, this.tx := start, session, tx;
      new;
      WireCycleInit(cycle, tag);
      assert cycle[..] == tx.cycle by {
        SameTemplate(cycle[..], tx.cycle, tag);
      }
    }

    ghost predicate Valid()
      reads this, cycle
    {
      && cycle.Length == N && Shape(tx) && tx.cycle == cycle[..] && tx.step.Idle?
      && txSequence == if tx.Started() == 0 then session.start else Stamp(session.start, tx.Started())
    }

    method Write(payload: seq<byte>, runs: array<Run>, crc: word) returns (ghost trace: seq<Tx>)
      requires Valid() && |payload| == PAYLOAD_BYTES && runs.Length == LINE_COUNT && AreRuns(runs[..], LINE_COUNT)
      requires crc == session.crc(payload)
      requires |tx.hAt| > |tx.tAt| ==> tx.Started() + 1 < tx.hAt[|tx.tAt|] + PERIOD
      modifies this, cycle
      ensures Valid() && tx.payloads == old(tx.payloads) + [payload]
      ensures IsTrace(session, trace) && trace[0] == old(tx) && trace[|trace| - 1] == tx
    {
      var sequence := if (txSequence + 1) % WORDS == 0 then 1 else txSequence + 1;
      txSequence := sequence;
      trace := StoreT(sequence, payload);
      trace := StoreRuns(payload, runs, trace);
      trace := StoreEnd(sequence, crc, trace);
    }

    /** T first, sampled last. */
    method StoreT(sequence: word, payload: seq<byte>) returns (ghost trace: seq<Tx>)
      requires cycle.Length == N && Shape(tx) && tx.cycle == cycle[..] && tx.step.Idle?
      requires |payload| == PAYLOAD_BYTES && sequence == Stamp(session.start, tx.Started() + 1)
      requires |tx.hAt| > |tx.tAt| ==> tx.Started() + 1 < tx.hAt[|tx.tAt|] + PERIOD
      modifies `tx, cycle
      ensures Shape(tx)
      ensures tx == old(tx).(cycle := cycle[..], payloads := old(tx.payloads) + [payload], step := StorePayload(0))
      ensures IsTrace(session, trace) && trace[0] == old(tx) && trace[|trace| - 1] == tx
    {
      StoreWord(cycle, OFF_T, sequence);
      ghost var next := tx.(cycle := cycle[..], payloads := tx.payloads + [payload], step := StorePayload(0));
      assert Begin(session, tx, next, payload);
      TraceMore(session, [tx], next);
      trace := [tx, next];
      assert [tx] + [next] == trace;
      tx := next;
    }

    /** CRC, then H, sampled first. */
    method StoreEnd(sequence: word, crc: word, ghost before: seq<Tx>) returns (ghost trace: seq<Tx>)
      requires cycle.Length == N && Shape(tx) && tx.cycle == cycle[..] && tx.step == StoreCrc
      requires crc == session.crc(Latest(tx)) && sequence == Stamp(session.start, tx.Started())
      requires IsTrace(session, before) && before[|before| - 1] == tx
      modifies `tx, cycle
      ensures Shape(tx) && tx == old(tx).(cycle := cycle[..], step := Idle)
      ensures IsTrace(session, trace) && before <= trace && trace[|trace| - 1] == tx
    {
      StoreWord(cycle, OFF_CRC, crc);
      ghost var next := tx.(cycle := cycle[..], step := StoreH);
      assert StoreCrcWord(session, tx, next);
      TraceMore(session, before, next);
      tx, trace := next, before + [next];
      StoreWord(cycle, OFF_H, sequence);
      next := tx.(cycle := cycle[..], step := Idle);
      assert StoreHWord(session, tx, next);
      TraceMore(session, trace, next);
      tx, trace := next, trace + [next];
    }

    /** The payload, run by run. */
    method StoreRuns(payload: seq<byte>, runs: array<Run>, ghost before: seq<Tx>) returns (ghost trace: seq<Tx>)
      requires cycle.Length == N && Shape(tx) && tx.cycle == cycle[..] && tx.step == StorePayload(0)
      requires |payload| == PAYLOAD_BYTES && Latest(tx) == payload
      requires runs.Length == LINE_COUNT && AreRuns(runs[..], LINE_COUNT)
      requires IsTrace(session, before) && before[|before| - 1] == tx
      modifies `tx, cycle
      ensures Shape(tx) && tx == old(tx).(cycle := cycle[..], step := StoreCrc)
      ensures IsTrace(session, trace) && before <= trace && trace[|trace| - 1] == tx
    {
      trace := before;
      RunBases();
      ghost var s := tx;
      var at := 0;
      for line := 0 to LINE_COUNT
        invariant at == RunBase(line) && AreRuns(runs[..], LINE_COUNT)
        invariant Storing(s, payload, at) && IsTrace(session, trace) && before <= trace && trace[|trace| - 1] == tx
      {
        assert IsRun(runs[..][line], line);
        at, trace := StoreRun(payload, runs[line], line, at, s, trace);
      }
    }

    /** at bytes are stored. */
    ghost predicate Storing(s: Tx, payload: seq<byte>, at: nat)
      reads this, cycle
    {
      && cycle.Length == N && at <= PAYLOAD_BYTES && |s.payloads| > 0 && Latest(s) == payload && Shape(tx)
      && tx == s.(cycle := cycle[..], step := if at == PAYLOAD_BYTES then StoreCrc else StorePayload(at))
    }

    method StoreRun(payload: seq<byte>, run: Run, line: nat, start: nat, ghost s: Tx, ghost before: seq<Tx>)
      returns (at: nat, ghost trace: seq<Tx>)
      requires |payload| == PAYLOAD_BYTES && Storing(s, payload, start)
      requires line < LINE_COUNT && IsRun(run, line) && start == RunBase(line)
      requires IsTrace(session, before) && before[|before| - 1] == tx
      modifies `tx, cycle
      ensures at == RunBase(line + 1) && Storing(s, payload, at)
      ensures IsTrace(session, trace) && before <= trace && trace[|trace| - 1] == tx
    {
      at, trace := start, before;
      for k := 0 to run.length
        invariant at == start + k && Storing(s, payload, at)
        invariant IsTrace(session, trace) && before <= trace && trace[|trace| - 1] == tx
      {
        RunByte(run, line, k);
        cycle[run.offset + k] := payload[at];
        ghost var next := tx.(cycle := cycle[..],
                              step := if at + 1 == PAYLOAD_BYTES then StoreCrc else StorePayload(at + 1));
        OneStore(tx, next, payload, at);
        TraceMore(session, trace, next);
        tx, trace := next, trace + [next];
        at := at + 1;
      }
      RunBases();
    }
  }

  lemma OneStore(s: Tx, next: Tx, payload: seq<byte>, at: nat)
    requires Shape(s) && at < PAYLOAD_BYTES == |payload| && s.step == StorePayload(at) && Latest(s) == payload
    requires next == s.(cycle := s.cycle[PayloadOffset(at) := payload[at]],
                        step := if at + 1 == PAYLOAD_BYTES then StoreCrc else StorePayload(at + 1))
    ensures StorePayloadByte(s, next) && Shape(next)
  {
  }

  /** The template is determined by the tag. */
  lemma SameTemplate(a: seq<byte>, b: seq<byte>, tag: seq<byte>)
    requires IsCycle(a, tag) && IsCycle(b, tag)
    requires forall o: nat | o < N && !IsFixed(o) :: a[o] == 0 && b[o] == 0
    ensures a == b
  {
    forall o: nat | o < N ensures a[o] == b[o] {
      assert IsFixed(o) || !IsFixed(o);
    }
  }
}
