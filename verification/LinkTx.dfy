/** The sending end as a state machine: a writer that updates the TX cycle store
    by store, and a DMA that samples the cycle word by word, in ascending order,
    at any pace. Aligned words are stored and sampled whole. */
module LinkTx {
  import opened Arith
  import opened ByteBits
  import opened Wire
  import opened WireCodec

  // ---- Sequence stamps ----
  const WORDS: nat := 0x1_0000_0000
  const PERIOD: nat := 0xffff_ffff

  /** The stamp after s: 0 is kept for "no version yet". */
  function NextStamp(s: word): (r: word)
    ensures r != 0
  {
    if (s + 1) % WORDS == 0 then 1 else s + 1
  }

  /** The stamp of version n; version 0 is the empty cycle. */
  function Stamp(start: word, n: nat): word {
    if n == 0 then 0 else if n == 1 then NextStamp(start) else NextStamp(Stamp(start, n - 1))
  }

  lemma StampNonZero(start: word, n: nat)
    requires n >= 1
    ensures Stamp(start, n) != 0
  {
  }

  /** Where in the cycle of stamps version n is. */
  function StampIndex(start: word, n: nat): nat
    requires n >= 1
  {
    NextStamp(start) + n - 2
  }

  lemma {:induction false} StampForm(start: word, n: nat)
    requires n >= 1
    ensures Stamp(start, n) == 1 + StampIndex(start, n) % PERIOD
  {
    if n == 1 {
      ModSmall(NextStamp(start) - 1, PERIOD);
    } else {
      StampForm(start, n - 1);
      NextOf(Stamp(start, n - 1));
      ModNext(StampIndex(start, n - 1), PERIOD);
    }
  }

  lemma NextOf(s: word)
    ensures NextStamp(s) == if s == PERIOD then 1 else s + 1
  {
    if s < PERIOD {
      ModSmall(s + 1, WORDS);
    }
  }

  /** Stamps tell versions apart that are less than a period away. */
  lemma StampsDiffer(start: word, m: nat, n: nat)
    requires m <= n < m + PERIOD && Stamp(start, m) == Stamp(start, n)
    ensures m == n
  {
    if m < n {
      StampNonZero(start, n);
      StampForm(start, n);
      if m > 0 {
        StampForm(start, m);
        SameRemainder(StampIndex(start, m), StampIndex(start, n));
      }
    }
  }

  lemma SameRemainder(a: nat, b: nat)
    requires a <= b < a + PERIOD && a % PERIOD == b % PERIOD
    ensures a == b
  {
    assert a == a / PERIOD * PERIOD + a % PERIOD && b == b / PERIOD * PERIOD + b % PERIOD;
  }

  // ---- State ----
  datatype Session = Session(tag: seq<byte>, crc: seq<byte> -> word, start: word)

  ghost predicate IsSession(c: Session) {
    |c.tag| == 4
  }

  /** What the writer stores next: T opens a version, H closes it. */
  datatype WriterStep = Idle | StorePayload(k: nat) | StoreCrc | StoreH

  /** payloads[n - 1] is version n. sent is every byte sampled, lap after lap;
      hAt and tAt note, lap by lap, which version's H and T were sampled. */
  datatype Tx = Tx(cycle: seq<byte>, payloads: seq<seq<byte>>, step: WriterStep,
                   sent: seq<byte>, hAt: seq<nat>, tAt: seq<nat>)
  {
    /** Versions begun: their T is stored. */
    function Started(): nat { |payloads| }

    /** Versions complete: their H is stored. */
    function Done(): int { if step.Idle? then |payloads| else |payloads| - 1 }
  }

  function PutWord(cycle: seq<byte>, o: nat, x: word): (r: seq<byte>)
    requires o + 4 <= |cycle|
    ensures |r| == |cycle| && HasWord(r, o, x)
    ensures forall i: nat | i < |cycle| && !(o <= i < o + 4) :: r[i] == cycle[i]
  {
    cycle[o := LeByte(x, 0)][o + 1 := LeByte(x, 1)][o + 2 := LeByte(x, 2)][o + 3 := LeByte(x, 3)]
  }

  ghost predicate Shape(s: Tx) {
    && |s.cycle| == N && |s.sent| % 4 == 0
    && (!s.step.Idle? ==> |s.payloads| > 0)
    && (s.step.StorePayload? ==> s.step.k < PAYLOAD_BYTES)
    && (forall n | 0 <= n < |s.payloads| :: |s.payloads[n]| == PAYLOAD_BYTES)
    && |s.hAt| == (|s.sent| + N - OFF_H - 4) / N
    && |s.tAt| == (|s.sent| + N - OFF_T - 4) / N
  }

  function Latest(s: Tx): seq<byte>
    requires |s.payloads| > 0
  {
    s.payloads[|s.payloads| - 1]
  }

  // ---- The writer's stores, and the DMA's samples ----

  ghost predicate Begin(c: Session, s: Tx, s': Tx, payload: seq<byte>)
    requires Shape(s)
  {
    && s.step.Idle? && |payload| == PAYLOAD_BYTES
    // fewer than 2^32 - 1 versions in the pass under way
    && (|s.hAt| > |s.tAt| ==> s.Started() + 1 < s.hAt[|s.tAt|] + PERIOD)
    && s' == s.(cycle := PutWord(s.cycle, OFF_T, Stamp(c.start, s.Started() + 1)),
                payloads := s.payloads + [payload], step := StorePayload(0))
  }

  ghost predicate StorePayloadByte(s: Tx, s': Tx)
    requires Shape(s)
  {
    && s.step.StorePayload?
    && s' == s.(cycle := s.cycle[PayloadOffset(s.step.k) := Latest(s)[s.step.k]],
                step := if s.step.k + 1 == PAYLOAD_BYTES then StoreCrc else StorePayload(s.step.k + 1))
  }

  ghost predicate StoreCrcWord(c: Session, s: Tx, s': Tx)
    requires Shape(s)
  {
    && s.step.StoreCrc?
    && s' == s.(cycle := PutWord(s.cycle, OFF_CRC, c.crc(Latest(s))), step := StoreH)
  }

  ghost predicate StoreHWord(c: Session, s: Tx, s': Tx)
    requires Shape(s)
  {
    && s.step.StoreH?
    && s' == s.(cycle := PutWord(s.cycle, OFF_H, Stamp(c.start, s.Started())), step := Idle)
  }

  ghost predicate Sample(s: Tx, s': Tx)
    requires Shape(s)
  {
    var o := |s.sent| % N;
    && s' == s.(sent := s.sent + s.cycle[o..o + 4],
                hAt := if o == OFF_H then s.hAt + [s.Done()] else s.hAt,
                tAt := if o == OFF_T then s.tAt + [s.Started()] else s.tAt)
  }

  ghost predicate TxNext(c: Session, s: Tx, s': Tx)
    requires Shape(s)
  {
    || (exists payload :: Begin(c, s, s', payload))
    || StorePayloadByte(s, s')
    || StoreCrcWord(c, s, s')
    || StoreHWord(c, s, s')
    || Sample(s, s')
  }

  ghost predicate TxInit(c: Session, s: Tx) {
    && IsCycle(s.cycle, c.tag)
    && (forall o: nat | o < N && !IsFixed(o) :: s.cycle[o] == 0)
    && s.payloads == [] && s.step.Idle? && s.sent == [] && s.hAt == [] && s.tAt == []
  }

  // ---- What every step keeps ----

  ghost predicate LapWord(sent: seq<byte>, lap: nat, o: nat, x: word) {
    lap * N + o + 4 <= |sent| && HasWord(sent, lap * N + o, x)
  }

  /** The payload bytes sampled so far in a lap are p's. */
  ghost predicate LapPayload(sent: seq<byte>, lap: nat, p: seq<byte>)
    requires |p| == PAYLOAD_BYTES
  {
    forall k: nat | k < PAYLOAD_BYTES && lap * N + PayloadOffset(k) < |sent| ::
      sent[lap * N + PayloadOffset(k)] == p[k]
  }

  ghost predicate CycleInv(c: Session, s: Tx)
    requires Shape(s)
  {
    && IsCycle(s.cycle, c.tag)
    && HasWord(s.cycle, OFF_T, Stamp(c.start, s.Started()))
    && HasWord(s.cycle, OFF_H, Stamp(c.start, s.Done()))
    && (|s.payloads| > 0 ==>
      && (forall k: nat | k < PAYLOAD_BYTES && (s.step.StorePayload? ==> k < s.step.k) ::
            s.cycle[PayloadOffset(k)] == Latest(s)[k])
      && (s.step.StoreH? || s.step.Idle? ==> HasWord(s.cycle, OFF_CRC, c.crc(Latest(s)))))
  }

  /** H of a lap carries the stamp of a version complete by then. */
  ghost predicate LapBegun(c: Session, s: Tx, lap: nat)
    requires lap < |s.hAt|
  {
    LapWord(s.sent, lap, OFF_H, Stamp(c.start, s.hAt[lap])) && s.hAt[lap] <= s.Done()
  }

  /** A lap whose H and T name one version holds that version. */
  ghost predicate LapWhole(c: Session, s: Tx, lap: nat)
    requires Shape(s) && lap < |s.tAt|
  {
    && LapWord(s.sent, lap, OFF_T, Stamp(c.start, s.tAt[lap]))
    && s.hAt[lap] <= s.tAt[lap] < s.hAt[lap] + PERIOD && s.tAt[lap] <= s.Started()
    && (s.hAt[lap] == s.tAt[lap] >= 1 ==>
      && LapPayload(s.sent, lap, s.payloads[s.hAt[lap] - 1])
      && LapWord(s.sent, lap, OFF_CRC, c.crc(s.payloads[s.hAt[lap] - 1])))
  }

  /** The lap under way: until the next version begins, it holds H's version. */
  ghost predicate LapOpen(c: Session, s: Tx)
    requires Shape(s)
  {
    |s.hAt| == |s.tAt| + 1 ==>
      var lap, v := |s.tAt|, s.hAt[|s.tAt|];
      && s.Started() < v + PERIOD
      && (s.Started() == v >= 1 ==>
        && LapPayload(s.sent, lap, s.payloads[v - 1])
        && (lap * N + OFF_T <= |s.sent| ==> LapWord(s.sent, lap, OFF_CRC, c.crc(s.payloads[v - 1]))))
  }

  ghost predicate SentFixed(c: Session, s: Tx)
    requires IsSession(c)
  {
    forall i: nat | i < |s.sent| && IsFixed(i % N) :: s.sent[i] == FixedByte(i % N, c.tag)
  }

  ghost predicate TxInv(c: Session, s: Tx) {
    && IsSession(c) && Shape(s)
    && CycleInv(c, s)
    && SentFixed(c, s)
    && (forall lap: nat | lap < |s.hAt| :: LapBegun(c, s, lap))
    && (forall lap: nat | lap < |s.tAt| :: LapWhole(c, s, lap))
    && (forall i: nat, j: nat | i <= j < |s.hAt| :: s.hAt[i] <= s.hAt[j])
    && LapOpen(c, s)
  }

  lemma TxInitInv(c: Session, s: Tx)
    requires IsSession(c) && TxInit(c, s)
    ensures TxInv(c, s)
  {
  }

  /** A writer's store leaves what was sampled alone. */
  lemma LapsKept(c: Session, s: Tx, s': Tx)
    requires TxInv(c, s) && Shape(s') && s'.sent == s.sent && s'.hAt == s.hAt && s'.tAt == s.tAt
    requires s.payloads <= s'.payloads && s.Done() <= s'.Done()
    ensures forall lap: nat | lap < |s'.hAt| :: LapBegun(c, s', lap)
    ensures forall lap: nat | lap < |s'.tAt| :: LapWhole(c, s', lap)
  {
    forall lap: nat | lap < |s'.hAt| ensures LapBegun(c, s', lap) {
      assert LapBegun(c, s, lap);
    }
    forall lap: nat | lap < |s'.tAt| ensures LapWhole(c, s', lap) {
      assert LapWhole(c, s, lap);
    }
  }

  lemma BeginCycle(c: Session, s: Tx, s': Tx, payload: seq<byte>)
    requires TxInv(c, s) && Begin(c, s, s', payload)
    ensures Shape(s') && CycleInv(c, s')
  {
  }

  lemma BeginInv(c: Session, s: Tx, s': Tx, payload: seq<byte>)
    requires TxInv(c, s) && Begin(c, s, s', payload)
    ensures TxInv(c, s')
  {
    BeginCycle(c, s, s', payload);
    LapsKept(c, s, s');
    if |s'.hAt| == |s'.tAt| + 1 {
      assert LapBegun(c, s, |s.tAt|);
    }
  }

  lemma StorePayloadCycle(c: Session, s: Tx, s': Tx)
    requires TxInv(c, s) && StorePayloadByte(s, s')
    ensures Shape(s') && CycleInv(c, s')
  {
    PayloadInjective(s.step.k);
  }

  lemma PayloadInjective(j: nat)
    requires j < PAYLOAD_BYTES
    ensures forall k: nat | k < PAYLOAD_BYTES && k != j :: PayloadOffset(k) != PayloadOffset(j)
  {
  }

  lemma StoreCrcCycle(c: Session, s: Tx, s': Tx)
    requires TxInv(c, s) && StoreCrcWord(c, s, s')
    ensures Shape(s') && CycleInv(c, s')
  {
  }

  lemma StoreHCycle(c: Session, s: Tx, s': Tx)
    requires TxInv(c, s) && StoreHWord(c, s, s')
    ensures Shape(s') && CycleInv(c, s')
  {
  }

  lemma StoreInv(c: Session, s: Tx, s': Tx)
    requires TxInv(c, s) && (StorePayloadByte(s, s') || StoreCrcWord(c, s, s') || StoreHWord(c, s, s'))
    ensures TxInv(c, s')
  {
    if StorePayloadByte(s, s') {
      StorePayloadCycle(c, s, s');
    } else if StoreCrcWord(c, s, s') {
      StoreCrcCycle(c, s, s');
    } else {
      StoreHCycle(c, s, s');
    }
    LapsKept(c, s, s');
    if |s'.hAt| == |s'.tAt| + 1 {
      assert LapBegun(c, s, |s.tAt|);
    }
  }

  // ---- Sampling keeps the invariant ----

  lemma SampleShape(s: Tx, s': Tx)
    requires Shape(s) && Sample(s, s')
    ensures Shape(s') && s.sent <= s'.sent && |s'.sent| == |s.sent| + 4
    ensures var lap, o := |s.sent| / N, |s.sent| % N;
      && |s.sent| == lap * N + o && o % 4 == 0 && o + 4 <= N
      && |s.hAt| == (if o <= OFF_H then lap else lap + 1)
      && |s.tAt| == (if o <= OFF_T then lap else lap + 1)
  {
    var lap, o := |s.sent| / N, |s.sent| % N;
    assert |s.sent| == lap * N + o;
    CountLaps(lap, o, N - OFF_H - 4);
    CountLaps(lap, o, N - OFF_T - 4);
    CountLaps(lap, o + 4, N - OFF_H - 4);
    CountLaps(lap, o + 4, N - OFF_T - 4);
  }

  lemma CountLaps(lap: nat, o: nat, d: nat)
    requires o <= N && d < N
    ensures (lap * N + o + d) / N == if o + d < N then lap else if o + d < 2 * N then lap + 1 else lap + 2
  {
  }

  /** The sampled word is the cycle's. */
  lemma SampledByte(s: Tx, s': Tx, i: nat)
    requires Shape(s) && Sample(s, s') && i < 4
    ensures |s'.sent| == |s.sent| + 4 && |s.sent| % N + 4 <= N
    ensures s'.sent[|s.sent| + i] == s.cycle[|s.sent| % N + i]
  {
    SampleShape(s, s');
  }

  lemma SampleFixed(c: Session, s: Tx, s': Tx)
    requires TxInv(c, s) && Sample(s, s')
    ensures SentFixed(c, s')
  {
    SampleShape(s, s');
    forall i: nat | i < |s'.sent| && IsFixed(i % N) ensures s'.sent[i] == FixedByte(i % N, c.tag) {
      if i >= |s.sent| {
        SampledByte(s, s', i - |s.sent|);
        ModAdd(|s.sent|, i - |s.sent|, N);
      }
    }
  }

  /** Words and payloads already sampled stay as they are. */
  lemma OldLaps(c: Session, s: Tx, s': Tx)
    requires TxInv(c, s) && Sample(s, s')
    ensures Shape(s')
    ensures forall lap: nat | lap < |s.hAt| :: LapBegun(c, s', lap)
    ensures forall lap: nat | lap < |s.tAt| :: LapWhole(c, s', lap)
  {
    SampleShape(s, s');
    forall lap: nat | lap < |s.hAt| ensures LapBegun(c, s', lap) {
      assert LapBegun(c, s, lap);
    }
    forall lap: nat | lap < |s.tAt| ensures LapWhole(c, s', lap) {
      assert LapWhole(c, s, lap);
      assert lap * N + OFF_END <= |s.sent|;
    }
  }

  lemma SampleH(c: Session, s: Tx, s': Tx)
    requires TxInv(c, s) && Sample(s, s') && |s.sent| % N == OFF_H
    ensures TxInv(c, s')
  {
    SampleShape(s, s');
    SampleFixed(c, s, s');
    OldLaps(c, s, s');
    var lap := |s.sent| / N;
    SampledWord(s, s', OFF_H, Stamp(c.start, s.Done()));
    assert LapBegun(c, s', lap);
    forall i: nat, j: nat | i <= j < |s'.hAt| ensures s'.hAt[i] <= s'.hAt[j] {
      assert LapBegun(c, s', i);
    }
  }

  lemma SampledWord(s: Tx, s': Tx, o: nat, x: word)
    requires Shape(s) && Sample(s, s') && |s.sent| % N == o && o + 4 <= N && HasWord(s.cycle, o, x)
    ensures LapWord(s'.sent, |s.sent| / N, o, x)
  {
    SampleShape(s, s');
    SampledByte(s, s', 0);
    SampledByte(s, s', 1);
    SampledByte(s, s', 2);
    SampledByte(s, s', 3);
    forall k: nat | k < 4 ensures s'.sent[|s.sent| / N * N + o + k] == LeByte(x, k) {
      assert s.cycle[o + k] == LeByte(x, k);
    }
  }

  lemma SampleT(c: Session, s: Tx, s': Tx)
    requires TxInv(c, s) && Sample(s, s') && |s.sent| % N == OFF_T
    ensures TxInv(c, s')
  {
    SampleShape(s, s');
    SampleFixed(c, s, s');
    OldLaps(c, s, s');
    assert |s.tAt| == |s.sent| / N && |s.hAt| == |s.sent| / N + 1;
    SampleTWhole(c, s, s', |s.sent| / N);
  }

  /** The lap whose T is sampled is whole, if H and T name one version. */
  lemma SampleTWhole(c: Session, s: Tx, s': Tx, lap: nat)
    requires TxInv(c, s) && Sample(s, s') && |s.sent| % N == OFF_T && Shape(s')
    requires lap == |s.sent| / N == |s.tAt| && |s.hAt| == lap + 1
    ensures LapWhole(c, s', lap)
  {
    SampleShape(s, s');
    SampledWord(s, s', OFF_T, Stamp(c.start, s.Started()));
    assert LapBegun(c, s, lap);
  }

  /** While H's version is the last one begun, the lap under way samples it. */
  lemma SampleOpen(c: Session, s: Tx, s': Tx)
    requires TxInv(c, s) && Sample(s, s') && |s.sent| % N != OFF_H && |s.sent| % N != OFF_T
    ensures Shape(s') && LapOpen(c, s')
  {
    SampleShape(s, s');
    var lap := |s.sent| / N;
    if |s'.hAt| == |s'.tAt| + 1 && s.Started() == s.hAt[lap] >= 1 {
      SampleLap(c, s, s', lap, s.hAt[lap]);
    }
  }

  lemma SampleLap(c: Session, s: Tx, s': Tx, lap: nat, v: nat)
    requires TxInv(c, s) && Sample(s, s') && |s.sent| % N != OFF_H && |s.sent| % N != OFF_T
    requires lap == |s.sent| / N == |s.tAt| && |s.hAt| == lap + 1 && s.Started() == s.hAt[lap] == v >= 1
    ensures LapPayload(s'.sent, lap, s.payloads[v - 1])
    ensures lap * N + OFF_T <= |s'.sent| ==> LapWord(s'.sent, lap, OFF_CRC, c.crc(s.payloads[v - 1]))
  {
    assert LapBegun(c, s, lap) && s.step.Idle?;
    SampleShape(s, s');
    SamplePayload(s, s', lap, s.payloads[v - 1]);
    if |s.sent| % N == OFF_CRC {
      SampledWord(s, s', OFF_CRC, c.crc(s.payloads[v - 1]));
    }
  }

  /** A payload that is in the cycle goes on being sampled. */
  lemma SamplePayload(s: Tx, s': Tx, lap: nat, p: seq<byte>)
    requires Shape(s) && Sample(s, s') && lap == |s.sent| / N && |p| == PAYLOAD_BYTES && LapPayload(s.sent, lap, p)
    requires forall k: nat | k < PAYLOAD_BYTES :: s.cycle[PayloadOffset(k)] == p[k]
    ensures LapPayload(s'.sent, lap, p)
  {
    SampleShape(s, s');
    forall k: nat | k < PAYLOAD_BYTES && lap * N + PayloadOffset(k) < |s'.sent|
      ensures s'.sent[lap * N + PayloadOffset(k)] == p[k]
    {
      if lap * N + PayloadOffset(k) >= |s.sent| {
        SampledByte(s, s', PayloadOffset(k) - |s.sent| % N);
      }
    }
  }

  lemma SampleInv(c: Session, s: Tx, s': Tx)
    requires TxInv(c, s) && Sample(s, s')
    ensures TxInv(c, s')
  {
    if |s.sent| % N == OFF_H {
      SampleH(c, s, s');
    } else if |s.sent| % N == OFF_T {
      SampleT(c, s, s');
    } else {
      SampleShape(s, s');
      SampleFixed(c, s, s');
      OldLaps(c, s, s');
      SampleOpen(c, s, s');
    }
  }

  /** Every store and every sample keeps the invariant. */
  lemma TxNextInv(c: Session, s: Tx, s': Tx)
    requires TxInv(c, s) && TxNext(c, s, s')
    ensures TxInv(c, s')
    ensures s.sent <= s'.sent && s.payloads <= s'.payloads && s.hAt <= s'.hAt && s.tAt <= s'.tAt
  {
    if Sample(s, s') {
      SampleInv(c, s, s');
      SampleShape(s, s');
    } else if StorePayloadByte(s, s') || StoreCrcWord(c, s, s') || StoreHWord(c, s, s') {
      StoreInv(c, s, s');
    } else {
      var payload :| Begin(c, s, s', payload);
      BeginInv(c, s, s', payload);
    }
  }

  /** No torn lap passes for whole: if the H and T stamps sampled in a lap are
      equal and not 0, all of its payload and its CRC are of one version, the
      one stamped so. */
  lemma EqualStampsWhole(c: Session, s: Tx, lap: nat, h: word)
    requires TxInv(c, s) && lap < |s.tAt| && h != 0
    requires LapWord(s.sent, lap, OFF_H, h) && LapWord(s.sent, lap, OFF_T, h)
    ensures lap < |s.hAt|
    ensures var v := s.hAt[lap];
      && 1 <= v <= |s.payloads| && h == Stamp(c.start, v)
      && (forall k: nat | k < PAYLOAD_BYTES ::
           lap * N + PayloadOffset(k) < |s.sent| && s.sent[lap * N + PayloadOffset(k)] == s.payloads[v - 1][k])
      && LapWord(s.sent, lap, OFF_CRC, c.crc(s.payloads[v - 1]))
  {
    LapsBegun(s, lap);
    assert LapBegun(c, s, lap) && LapWhole(c, s, lap);
    OneVersion(c, s, lap, h);
  }

  lemma LapsBegun(s: Tx, lap: nat)
    requires Shape(s) && lap < |s.tAt|
    ensures lap < |s.hAt| && lap * N + OFF_T + 4 <= |s.sent|
  {
    CountLaps(|s.sent| / N, |s.sent| % N, N - OFF_H - 4);
    CountLaps(|s.sent| / N, |s.sent| % N, N - OFF_T - 4);
  }

  /** Equal stamps name one version. */
  lemma OneVersion(c: Session, s: Tx, lap: nat, h: word)
    requires Shape(s) && lap < |s.tAt| && lap < |s.hAt| && h != 0
    requires LapWord(s.sent, lap, OFF_H, h) && LapWord(s.sent, lap, OFF_T, h)
    requires LapBegun(c, s, lap) && LapWhole(c, s, lap)
    ensures s.hAt[lap] == s.tAt[lap] >= 1 && h == Stamp(c.start, s.hAt[lap])
  {
    SameWord(s.sent, lap * N + OFF_H, h, Stamp(c.start, s.hAt[lap]));
    SameWord(s.sent, lap * N + OFF_T, h, Stamp(c.start, s.tAt[lap]));
    StampsDiffer(c.start, s.hAt[lap], s.tAt[lap]);
  }

  lemma SameWord(sent: seq<byte>, o: nat, x: word, y: word)
    requires o + 4 <= |sent| && HasWord(sent, o, x) && HasWord(sent, o, y)
    ensures x == y
  {
    WordRoundTrip(x);
    WordRoundTrip(y);
    assert sent[o + 0] == LeByte(x, 0) == LeByte(y, 0);
    assert sent[o + 1] == LeByte(x, 1) == LeByte(y, 1);
    assert sent[o + 2] == LeByte(x, 2) == LeByte(y, 2);
    assert sent[o + 3] == LeByte(x, 3) == LeByte(y, 3);
  }
}