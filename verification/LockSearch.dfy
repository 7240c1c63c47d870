/** The lock search and the framing check: loops over a snapshot of the ring,
    proved against what a valid frame is. */
module LockSearch {
  import opened ByteBits
  import opened Wire
  import opened LockUnique

  /** The snapshot decoded at one of the 16 bit offsets. */
  ghost predicate IsAligned(aligned: seq<byte>, raw: seq<byte>, phase: nat, lane: nat)
    requires |raw| == N && phase < 8
  {
    |aligned| == N && forall j: nat | j < N :: aligned[j] == DecodeAt(raw, phase, lane, j)
  }

  method Align(raw: array<byte>, phase: nat, lane: nat, aligned: array<byte>)
    requires raw.Length == N && aligned.Length == N && raw != aligned && phase < 8
    modifies aligned
    ensures IsAligned(aligned[..], raw[..], phase, lane)
  {
    var j := 0;
    while j < N
      invariant 0 <= j <= N
      invariant raw[..] == old(raw[..])
      invariant forall i: nat | i < j :: aligned[i] == DecodeAt(raw[..], phase, lane, i)
    {
      aligned[j] := DecodeAt(raw[..], phase, lane, j);
      j := j + 1;
    }
  }

  method CheckMarker(aligned: array<byte>, m: nat, ghost raw: seq<byte>, ghost phase: nat, ghost lane: nat)
    returns (ok: bool)
    requires aligned.Length == N && |raw| == N && phase < 8 && IsAligned(aligned[..], raw, phase, lane)
    ensures ok <==> MarkerAt(raw, phase, lane, m)
  {
    var k := 0;
    while k < HSYNC_BYTES
      invariant 0 <= k <= HSYNC_BYTES
      invariant forall i: nat | i < k :: MarkerByteAt(raw, phase, lane, m, i)
    {
      assert aligned[..][(m + k) % N] == DecodeAt(raw, phase, lane, (m + k) % N);
      if aligned[(m + k) % N] != HSYNC[k] {
        assert !MarkerByteAt(raw, phase, lane, m, k);
        return false;
      }
      k := k + 1;
    }
    return true;
  }

  method CheckZeros(aligned: array<byte>, m: nat, ghost raw: seq<byte>, ghost phase: nat, ghost lane: nat)
    returns (ok: bool)
    requires aligned.Length == N && |raw| == N && phase < 8 && IsAligned(aligned[..], raw, phase, lane)
    ensures ok <==> forall back: nat | 1 <= back <= VSYNC_BYTES :: ZeroBefore(raw, phase, lane, m, back)
  {
    var back := 1;
    while back <= VSYNC_BYTES
      invariant 1 <= back <= VSYNC_BYTES + 1
      invariant forall b: nat | 1 <= b < back :: ZeroBefore(raw, phase, lane, m, b)
    {
      assert aligned[..][(m + N - back) % N] == DecodeAt(raw, phase, lane, (m + N - back) % N);
      if aligned[(m + N - back) % N] != 0 {
        assert !ZeroBefore(raw, phase, lane, m, back);
        return false;
      }
      back := back + 1;
    }
    return true;
  }

  method CheckTag(aligned: array<byte>, tag: seq<byte>, m: nat, ghost raw: seq<byte>, ghost phase: nat, ghost lane: nat)
    returns (ok: bool)
    requires aligned.Length == N && |raw| == N && |tag| == 4 && phase < 8 && IsAligned(aligned[..], raw, phase, lane)
    ensures ok <==> forall k: nat | k < 4 :: TagByteAt(raw, tag, phase, lane, m, k)
  {
    var k := 0;
    while k < 4
      invariant 0 <= k <= 4
      invariant forall i: nat | i < k :: TagByteAt(raw, tag, phase, lane, m, i)
    {
      var at := (m + HSYNC_BYTES + k) % N;
      assert aligned[..][at] == DecodeAt(raw, phase, lane, at);
      if aligned[at] != tag[k] {
        assert !TagByteAt(raw, tag, phase, lane, m, k);
        return false;
      }
      k := k + 1;
    }
    return true;
  }

  method CheckLines(aligned: array<byte>, m: nat, ghost raw: seq<byte>, ghost phase: nat, ghost lane: nat)
    returns (ok: bool)
    requires aligned.Length == N && |raw| == N && phase < 8 && IsAligned(aligned[..], raw, phase, lane)
    ensures ok <==> forall line: nat | 1 <= line <= LINE_COUNT :: LineMarkerAt(raw, phase, lane, m, line)
  {
    var line := 1;
    while line <= LINE_COUNT
      invariant 1 <= line <= LINE_COUNT + 1
      invariant forall l: nat | 1 <= l < line :: LineMarkerAt(raw, phase, lane, m, l)
    {
      ok := CheckMarker(aligned, m + line * LINE_STRIDE, raw, phase, lane);
      assert ok <==> LineMarkerAt(raw, phase, lane, m, line);
      if !ok {
        return;
      }
      line := line + 1;
    }
    ok := true;
  }

  /** The checks of one candidate marker position. */
  method CheckFrame(aligned: array<byte>, tag: seq<byte>, m: nat, ghost raw: seq<byte>, ghost phase: nat,
                    ghost lane: nat)
    returns (valid: bool)
    requires aligned.Length == N && |raw| == N && |tag| == 4 && phase < 8 && m < N
    requires IsAligned(aligned[..], raw, phase, lane)
    ensures valid <==> ValidFrame(raw, tag, phase, lane, m)
  {
    valid := CheckMarker(aligned, m, raw, phase, lane);
    if !valid {
      return;
    }
    valid := CheckZeros(aligned, m, raw, phase, lane);
    if !valid {
      return;
    }
    valid := CheckLines(aligned, m, raw, phase, lane);
    if valid {
      valid := CheckTag(aligned, tag, m, raw, phase, lane);
    }
  }

  /** The bit offset tried in a step: both lanes, all phases, from the last lock's. */
  function StepLane(startLane: nat, step: nat): nat { (startLane + step / 8) % 2 }
  function StepPhase(startPhase: nat, step: nat): nat { (startPhase + step) % 8 }

  /** The 16 steps try every bit offset. */
  function StepOf(startPhase: nat, startLane: nat, phase: nat, lane: nat): (step: nat)
    requires phase < 8 && lane < 2
    ensures step < 16 && StepLane(startLane, step) == lane && StepPhase(startPhase, step) == phase
  {
    8 * ((startLane + lane) % 2) + (phase + 8 - startPhase % 8) % 8
  }

  method WireSearch(raw: array<byte>, aligned: array<byte>, tag: seq<byte>, startPhase: nat, startLane: nat)
    returns (found: bool, phase: nat, lane: nat, marker: nat)
    requires raw.Length == N && aligned.Length == N && raw != aligned && |tag| == 4
    modifies aligned
    ensures phase < 8 && lane < 2 && marker < N
    ensures found ==> ValidFrame(raw[..], tag, phase, lane, marker)
    ensures !found ==> forall p: nat, l: nat, m: nat | p < 8 && l < 2 && m < N :: !ValidFrame(raw[..], tag, p, l, m)
  {
    found, phase, lane, marker := false, 0, 0, 0;
    var step := 0;
    while step < 16
      invariant 0 <= step <= 16
      invariant raw[..] == old(raw[..])
      invariant forall s: nat, m: nat | s < step && m < N ::
        !ValidFrame(raw[..], tag, StepPhase(startPhase, s), StepLane(startLane, s), m)
    {
      lane := StepLane(startLane, step);
      phase := StepPhase(startPhase, step);
      Align(raw, phase, lane, aligned);
      marker := 0;
      while marker < N
        invariant 0 <= marker <= N
        invariant raw[..] == old(raw[..]) && IsAligned(aligned[..], raw[..], phase, lane)
        invariant forall m: nat | m < marker :: !ValidFrame(raw[..], tag, phase, lane, m)
      {
        found := CheckFrame(aligned, tag, marker, raw[..], phase, lane);
        if found {
          return;
        }
        marker := marker + 1;
      }
      step := step + 1;
    }
    found, phase, lane, marker := false, 0, 0, 0;
    forall p: nat, l: nat, m: nat | p < 8 && l < 2 && m < N ensures !ValidFrame(raw[..], tag, p, l, m) {
      var s := StepOf(startPhase, startLane, p, l);
      assert !ValidFrame(raw[..], tag, StepPhase(startPhase, s), StepLane(startLane, s), m);
    }
  }

  /** In a ring that carries a cycle's fixed bytes the search succeeds exactly
      if the tag is the cycle's, from any starting offset, and finds its lock. */
  method SearchFramed(raw: array<byte>, aligned: array<byte>, tag: seq<byte>, startPhase: nat, startLane: nat,
                      ghost shift: nat, ghost sent: seq<byte>)
    returns (found: bool, phase: nat, lane: nat, marker: nat)
    requires raw.Length == N && aligned.Length == N && raw != aligned && |tag| == |sent| == 4
    requires shift < BITS && Framed(raw[..], shift, sent)
    modifies aligned
    ensures found <==> tag == sent
    ensures found ==> phase == TruePhase(shift) && lane == TrueLane(shift) && marker == TrueMarker(shift)
  {
    found, phase, lane, marker := WireSearch(raw, aligned, tag, startPhase, startLane);
    FrameIffSent(raw[..], shift, sent, tag, phase, lane, marker);
    FrameIffSent(raw[..], shift, sent, tag, TruePhase(shift), TrueLane(shift), TrueMarker(shift));
  }

  /** The internal markers are where the lock says. */
  predicate LineFramed(raw: seq<byte>, phase: nat, lane: nat, marker: nat, line: nat)
    requires |raw| == N && phase < 8
  {
    forall k: nat | k < HSYNC_BYTES ::
      DecodeAt(raw, phase, lane, AlignedOf(marker, LineStart(line) - HSYNC_BYTES) + k) == HSYNC[k]
  }

  method WireFramingOk(raw: array<byte>, phase: nat, lane: nat, marker: nat) returns (ok: bool)
    requires raw.Length == N && phase < 8
    ensures ok <==> forall line: nat | 1 <= line < LINE_COUNT :: LineFramed(raw[..], phase, lane, marker, line)
  {
    var line := 1;
    while line < LINE_COUNT
      invariant 1 <= line <= LINE_COUNT
      invariant forall l: nat | 1 <= l < line :: LineFramed(raw[..], phase, lane, marker, l)
    {
      var j := AlignedOf(marker, LineStart(line) - HSYNC_BYTES);
      var k := 0;
      while k < HSYNC_BYTES
        invariant 0 <= k <= HSYNC_BYTES
        invariant forall i: nat | i < k :: DecodeAt(raw[..], phase, lane, j + i) == HSYNC[i]
      {
        if DecodeAt(raw[..], phase, lane, j + k) != HSYNC[k] {
          assert !LineFramed(raw[..], phase, lane, marker, line);
          return false;
        }
        k := k + 1;
      }
      line := line + 1;
    }
    return true;
  }
}
