/** Bytes, their bits, and the bit-shift splice of two neighbouring bytes.

    Bytes are integers below 256. Bit 0 of a byte is its most significant one,
    the first on the wire. */
module ByteBits {
  import opened Arith

  type byte = x: int | 0 <= x < 256

  function Pow2(e: nat): (p: nat)
    ensures p > 0
  {
    if e == 0 then 1 else 2 * Pow2(e - 1)
  }

  /** A string of binary digits, most significant first. */
  ghost predicate AreDigits(b: seq<nat>) {
    forall k | 0 <= k < |b| :: b[k] < 2
  }

  /** The last n binary digits of x. */
  function Digits(x: nat, n: nat): (b: seq<nat>)
    ensures |b| == n && AreDigits(b)
  {
    if n == 0 then [] else Digits(x / 2, n - 1) + [x % 2]
  }

  function Value(b: seq<nat>): nat {
    if |b| == 0 then 0 else 2 * Value(b[..|b| - 1]) + b[|b| - 1]
  }

  lemma {:induction false} ValueOfDigits(x: nat, n: nat)
    requires x < Pow2(n)
    ensures Value(Digits(x, n)) == x
  {
    if n > 0 {
      ValueOfDigits(x / 2, n - 1);
      assert Digits(x, n)[..n - 1] == Digits(x / 2, n - 1);
    }
  }

  lemma {:induction false} DigitsOfValue(b: seq<nat>)
    requires AreDigits(b)
    ensures Value(b) < Pow2(|b|) && Digits(Value(b), |b|) == b
  {
    if |b| > 0 {
      var n := |b| - 1;
      DigitsOfValue(b[..n]);
      assert Value(b) / 2 == Value(b[..n]) && Value(b) % 2 == b[n];
      assert b == b[..n] + [b[n]];
    }
  }

  lemma {:induction false} ValueOfConcat(a: seq<nat>, b: seq<nat>)
    ensures Value(a + b) == Value(a) * Pow2(|b|) + Value(b)
  {
    if |b| == 0 {
      assert a + b == a;
    } else {
      var n := |b| - 1;
      assert (a + b)[..|a + b| - 1] == a + b[..n];
      ValueOfConcat(a, b[..n]);
      Twice(Value(a), Pow2(n));
      assert Value(a + b) == 2 * Value(a + b[..n]) + b[n];
    }
  }

  lemma {:induction false} PowAdd(d: nat, e: nat)
    ensures Pow2(d + e) == Pow2(d) * Pow2(e)
  {
    if d > 0 {
      PowAdd(d - 1, e);
    }
  }

  lemma Byte256()
    ensures Pow2(8) == 256
  {
    assert Pow2(4) == 16;
    PowAdd(4, 4);
  }

  // ---- Bits of a byte ----

  predicate Bit(x: byte, i: nat)
    requires i < 8
  {
    Digits(x, 8)[i] == 1
  }

  /** A byte is its eight bits. */
  lemma SameBitsSameByte(x: byte, y: byte)
    requires forall i: nat | i < 8 :: Bit(x, i) == Bit(y, i)
    ensures x == y
  {
    Byte256();
    ValueOfDigits(x, 8);
    ValueOfDigits(y, 8);
    forall i: nat | i < 8 ensures Digits(x, 8)[i] == Digits(y, 8)[i] {
      assert Bit(x, i) == Bit(y, i);
    }
    assert Digits(x, 8) == Digits(y, 8);
  }

  // ---- The splice (high << phase) | (low >> (8 - phase)) ----

  /** The last 8 - phase digits of high, then the first phase digits of low. */
  function SpliceDigits(high: byte, low: byte, phase: nat): (b: seq<nat>)
    requires phase < 8
    ensures |b| == 8 && AreDigits(b)
  {
    Digits(high, 8)[phase..] + Digits(low, 8)[..phase]
  }

  /** The byte the decoder and the wire build from two neighbours; SpliceIsShift
      shows that it is the shift expression both use. */
  function Splice(high: byte, low: byte, phase: nat): byte
    requires phase < 8
  {
    Byte256();
    DigitsOfValue(SpliceDigits(high, low, phase));
    Value(SpliceDigits(high, low, phase))
  }

  lemma SpliceBit(high: byte, low: byte, phase: nat, i: nat)
    requires phase < 8 && i < 8
    ensures Bit(Splice(high, low, phase), i) ==
            if i + phase < 8 then Bit(high, i + phase) else Bit(low, i + phase - 8)
  {
    DigitsOfValue(SpliceDigits(high, low, phase));
  }

  /** Cutting a number's digits at a place divides it. */
  lemma CutAny(x: nat, n: nat, count: nat)
    requires count <= n && x < Pow2(n)
    ensures x == Value(Digits(x, n)[..count]) * Pow2(n - count) + Value(Digits(x, n)[count..])
    ensures Value(Digits(x, n)[count..]) < Pow2(n - count)
    ensures Value(Digits(x, n)[..count]) < Pow2(count)
  {
    var d := Digits(x, n);
    ValueOfDigits(x, n);
    ValueOfConcat(d[..count], d[count..]);
    assert d == d[..count] + d[count..];
    DigitsOfValue(d[..count]);
    DigitsOfValue(d[count..]);
  }

  lemma CutDigits(x: byte, count: nat)
    requires count <= 8
    ensures x == Value(Digits(x, 8)[..count]) * Pow2(8 - count) + Value(Digits(x, 8)[count..])
    ensures Value(Digits(x, 8)[count..]) < Pow2(8 - count)
    ensures Value(Digits(x, 8)[..count]) < Pow2(count)
  {
    Byte256();
    CutAny(x, 8, count);
  }

  lemma TopBit(x: byte)
    ensures Bit(x, 0) <==> x >= 128
  {
    CutDigits(x, 1);
    assert Pow2(7) == 128 by {
      PowAdd(7, 1);
      Byte256();
    }
    var d := Digits(x, 8);
    assert d[..1] == [d[0]] && [d[0]][..0] == [];
    assert Value([d[0]]) == d[0];
  }

  lemma LowBit(x: byte)
    ensures Bit(x, 7) <==> x % 2 == 1
  {
  }

  lemma Below(a: int, d: nat)
    requires a * d < d
    ensures a < 1
  {
    assert a >= 1 ==> a * d >= 1 * d;
  }

  lemma Quotient(q: nat, d: nat, r: nat)
    requires r < d
    ensures (q * d + r) / d == q
  {
    var t := (q * d + r) / d;
    var rest := (q * d + r) % d;
    assert q * d + r == t * d + rest;
    assert (q - t) * d == rest - r && (t - q) * d == r - rest;
    Below(q - t, d);
    Below(t - q, d);
  }

  lemma ShiftedOut(high: nat, top: nat, rest: nat, p: nat, q: nat)
    requires q * p == 256 && high == top * q + rest && rest < q
    ensures (high * p) % 256 == rest * p
  {
    assert high * p == top * (q * p) + rest * p;
    assert (rest + 1) * p <= q * p;
    assert p > 0;
    Remainder(top, rest * p);
  }

  lemma Remainder(k: nat, r: nat)
    requires r < 256
    ensures (k * 256 + r) % 256 == r
  {
  }

  /** The splice is the C expression: high << phase cut to a byte, or'ed with
      the top phase bits of low, which fill the zeros it leaves. */
  lemma SpliceIsShift(high: byte, low: byte, phase: nat)
    requires phase < 8
    ensures Splice(high, low, phase) == (high * Pow2(phase)) % 256 + low / Pow2(8 - phase)
  {
    var h, l := Digits(high, 8), Digits(low, 8);
    CutDigits(high, phase);
    CutDigits(low, phase);
    ValueOfConcat(h[phase..], l[..phase]);
    Byte256();
    PowAdd(8 - phase, phase);
    ShiftedOut(high, Value(h[..phase]), Value(h[phase..]), Pow2(phase), Pow2(8 - phase));
    Quotient(Value(l[..phase]), Pow2(8 - phase), Value(l[phase..]));
  }

  // ---- Bits of constants ----

  lemma AllOnes(j: nat)
    requires j < 8
    ensures Bit(0xff, j)
  {
    var ones := seq(8, _ => 1);
    DigitsOfValue(ones);
    assert Value(ones) == 255 by {
      assert ones == [1, 1, 1, 1] + [1, 1, 1, 1];
      ValueOfConcat([1, 1, 1, 1], [1, 1, 1, 1]);
      assert [1, 1, 1, 1][..3] == [1, 1, 1] && [1, 1, 1][..2] == [1, 1] && [1, 1][..1] == [1];
      assert Value([1, 1, 1, 1]) == 15;
      assert Pow2(4) == 16;
    }
  }
}
