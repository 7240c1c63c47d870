/** What an untripped copy of the region says: its framing, its words and its
    payload are those of one lap of the sender. */
module CleanRegion {
  import opened ByteBits
  import opened Wire
  import opened WireCodec
  import opened LockSearch
  import opened LinkTx
  import opened LinkRx
  import opened RegionDecode
  import opened RingCopy

  /** The copy holds the whole region that came in from base on. */
  ghost predicate Clean(sent: seq<byte>, delta: nat, received: seq<byte>, copy: seq<byte>, base: nat) {
    StreamOk(sent, delta, received) && Copied(received, copy, delta, base, 352)
  }

  function WordAt(delta: nat, copy: seq<byte>, o: nat): word
    requires |copy| == N && o >= VSYNC_BYTES
  {
    DecodeU32(copy, TruePhase(ShiftOf(delta)), TrueLane(ShiftOf(delta)), TrueMarker(ShiftOf(delta)), o)
  }

  function PayloadIn(delta: nat, copy: seq<byte>): (p: seq<byte>)
    requires |copy| == N
    ensures |p| == PAYLOAD_BYTES
  {
    DecodePayload(copy, TruePhase(ShiftOf(delta)), TrueLane(ShiftOf(delta)), TrueMarker(ShiftOf(delta)))
  }

  lemma CleanWord(sent: seq<byte>, delta: nat, received: seq<byte>, copy: seq<byte>, base: nat, o: nat)
    requires Clean(sent, delta, received, copy, base) && OFF_H <= o && o + 4 <= OFF_END
    ensures LapWord(sent, LapOf(delta, base), o, WordAt(delta, copy, o))
  {
    var k := LapOf(delta, base) * N + o;
    RegionCarries(sent, delta, received, copy, base, o);
    RegionCarries(sent, delta, received, copy, base, o + 1);
    RegionCarries(sent, delta, received, copy, base, o + 2);
    RegionCarries(sent, delta, received, copy, base, o + 3);
    CopyWord(sent, copy, ShiftOf(delta), k, o);
  }

  lemma CopyWord(sent: seq<byte>, copy: seq<byte>, shift: nat, k: nat, o: nat)
    requires |copy| == N && shift < BITS && VSYNC_BYTES <= o && o + 4 <= N && k + 4 <= |sent|
    requires Carries(copy, shift, o, sent[k]) && Carries(copy, shift, o + 1, sent[k + 1])
    requires Carries(copy, shift, o + 2, sent[k + 2]) && Carries(copy, shift, o + 3, sent[k + 3])
    ensures HasWord(sent, k, DecodeU32(copy, TruePhase(shift), TrueLane(shift), TrueMarker(shift), o))
  {
    DecodeFour(copy, shift, o, sent[k], sent[k + 1], sent[k + 2], sent[k + 3]);
    HasFour(sent, k);
  }

  lemma HasFour(sent: seq<byte>, k: nat)
    requires k + 4 <= |sent|
    ensures HasWord(sent, k, FromLe(sent[k], sent[k + 1], sent[k + 2], sent[k + 3]))
  {
    BytesOfWord(sent[k], sent[k + 1], sent[k + 2], sent[k + 3]);
    var x := FromLe(sent[k], sent[k + 1], sent[k + 2], sent[k + 3]);
    forall i: nat | i < 4 ensures sent[k + i] == LeByte(x, i) {
      if i == 0 {} else if i == 1 {} else if i == 2 {} else {}
    }
  }

  /** The internal markers come out of every clean copy. */
  lemma CleanFraming(sent: seq<byte>, delta: nat, received: seq<byte>, copy: seq<byte>, base: nat,
                     tag: seq<byte>, line: nat)
    requires Clean(sent, delta, received, copy, base) && |tag| == 4 && SentFixedBytes(sent, tag)
    requires 1 <= line < LINE_COUNT
    ensures LineFramed(copy, TruePhase(ShiftOf(delta)), TrueLane(ShiftOf(delta)), TrueMarker(ShiftOf(delta)), line)
  {
    var shift, first := ShiftOf(delta), LineStart(line) - HSYNC_BYTES;
    forall k: nat | k < HSYNC_BYTES
      ensures DecodeAt(copy, TruePhase(shift), TrueLane(shift), AlignedOf(TrueMarker(shift), first) + k) == HSYNC[k]
    {
      MarkerOffset(line, k, tag);
      CleanFixed(sent, delta, received, copy, base, tag, first + k);
      DecodeNext(copy, shift, first, k, HSYNC[k]);
    }
  }

  lemma CleanFixed(sent: seq<byte>, delta: nat, received: seq<byte>, copy: seq<byte>, base: nat,
                   tag: seq<byte>, o: nat)
    requires Clean(sent, delta, received, copy, base) && |tag| == 4 && SentFixedBytes(sent, tag)
    requires OFF_H <= o < OFF_END && IsFixed(o)
    ensures Carries(copy, ShiftOf(delta), o, FixedByte(o, tag))
  {
    RegionCarries(sent, delta, received, copy, base, o);
    FixedInLap(sent, tag, LapOf(delta, base), o);
  }

  lemma FixedInLap(sent: seq<byte>, tag: seq<byte>, lap: nat, o: nat)
    requires |tag| == 4 && SentFixedBytes(sent, tag) && o < N && IsFixed(o) && lap * N + o < |sent|
    ensures sent[lap * N + o] == FixedByte(o, tag)
  {
    LapRest(lap, o);
  }

  /** The payload a clean copy decodes to is the lap's. */
  lemma CleanPayload(sent: seq<byte>, delta: nat, received: seq<byte>, copy: seq<byte>, base: nat, p: seq<byte>)
    requires Clean(sent, delta, received, copy, base) && |p| == PAYLOAD_BYTES
    requires LapPayload(sent, LapOf(delta, base), p)
    ensures PayloadIn(delta, copy) == p
  {
    forall k: nat | k < PAYLOAD_BYTES ensures PayloadIn(delta, copy)[k] == p[k] {
      var o := PayloadOffset(k);
      RegionCarries(sent, delta, received, copy, base, o);
      DecodeCarried(copy, ShiftOf(delta), o, sent[LapOf(delta, base) * N + o]);
    }
  }

  lemma LapPassed(sent: seq<byte>, delta: nat, received: seq<byte>, copy: seq<byte>, base: nat)
    requires Clean(sent, delta, received, copy, base)
    ensures LapOf(delta, base) < (|sent| + N - OFF_T - 4) / N
  {
    RegionCarries(sent, delta, received, copy, base, OFF_END - 1);
    LapsDone(|sent|, LapOf(delta, base));
  }

  lemma LapsDone(sent: nat, lap: nat)
    requires lap * N + OFF_END <= sent
    ensures lap < (sent + N - OFF_T - 4) / N
  {
  }

  /** Stamp, payload and CRC of the version that the lap's H names. */
  ghost predicate NamesVersion(c: Session, tx: Tx, lap: nat, h: word, payload: seq<byte>, crc: word) {
    && lap < |tx.hAt|
    && var v := tx.hAt[lap];
       1 <= v <= |tx.payloads| && h == Stamp(c.start, v) && payload == tx.payloads[v - 1] && crc == c.crc(payload)
  }

  /** Equal stamps in a clean copy: it is the version stamped so, whole, and
      the CRC it carries is that version's. */
  lemma CleanVersion(c: Session, tx: Tx, delta: nat, received: seq<byte>, copy: seq<byte>, base: nat)
    requires TxInv(c, tx) && Clean(tx.sent, delta, received, copy, base)
    requires WordAt(delta, copy, OFF_H) == WordAt(delta, copy, OFF_T) != 0
    ensures NamesVersion(c, tx, LapOf(delta, base), WordAt(delta, copy, OFF_H), PayloadIn(delta, copy),
                         WordAt(delta, copy, OFF_CRC))
  {
    var lap, h, t, crc := CleanStamps(tx.sent, delta, received, copy, base);
    var p := LapVersion(c, tx, lap, h, crc);
    CleanPayload(tx.sent, delta, received, copy, base, p);
  }

  lemma CleanStamps(sent: seq<byte>, delta: nat, received: seq<byte>, copy: seq<byte>, base: nat)
    returns (lap: nat, h: word, t: word, crc: word)
    requires Clean(sent, delta, received, copy, base)
    ensures lap == LapOf(delta, base) < (|sent| + N - OFF_T - 4) / N
    ensures h == WordAt(delta, copy, OFF_H) && LapWord(sent, lap, OFF_H, h)
    ensures t == WordAt(delta, copy, OFF_T) && LapWord(sent, lap, OFF_T, t)
    ensures crc == WordAt(delta, copy, OFF_CRC) && LapWord(sent, lap, OFF_CRC, crc)
  {
    lap := LapOf(delta, base);
    LapPassed(sent, delta, received, copy, base);
    h, t, crc := WordAt(delta, copy, OFF_H), WordAt(delta, copy, OFF_T), WordAt(delta, copy, OFF_CRC);
    CleanWord(sent, delta, received, copy, base, OFF_H);
    CleanWord(sent, delta, received, copy, base, OFF_T);
    CleanWord(sent, delta, received, copy, base, OFF_CRC);
  }

  lemma LapVersion(c: Session, tx: Tx, lap: nat, h: word, crc: word) returns (p: seq<byte>)
    requires TxInv(c, tx) && lap < |tx.tAt| && h != 0
    requires LapWord(tx.sent, lap, OFF_H, h) && LapWord(tx.sent, lap, OFF_T, h) && LapWord(tx.sent, lap, OFF_CRC, crc)
    ensures NamesVersion(c, tx, lap, h, p, crc) && |p| == PAYLOAD_BYTES && LapPayload(tx.sent, lap, p)
  {
    EqualStampsWhole(c, tx, lap, h);
    p := tx.payloads[tx.hAt[lap] - 1];
    SameWord(tx.sent, lap * N + OFF_CRC, crc, c.crc(p));
  }
}
