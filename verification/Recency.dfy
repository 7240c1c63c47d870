/** The recency list of the SRAM banks: most recently used first. */
module Recency {
  ghost predicate Distinct(r: seq<nat>) {
    forall i: nat, j: nat | i < j < |r| :: r[i] != r[j]
  }

  /** Where a touched bank goes from: its place, or the last one, to be evicted. */
  function PlaceOf(r: seq<nat>, b: nat): (i: nat)
    requires |r| > 0
    ensures i < |r|
    ensures b in r ==> r[i] == b && b !in r[..i]
    ensures b !in r ==> i == |r| - 1
  {
    if |r| == 1 || r[0] == b then 0 else PlaceOf(r[1..], b) + 1
  }

  function ToFront<T>(r: seq<T>, i: nat, b: T): (t: seq<T>)
    requires i < |r|
    ensures |t| == |r|
  {
    [b] + r[..i] + r[i + 1..]
  }

  function Touched(r: seq<nat>, b: nat): (t: seq<nat>)
    requires |r| > 0
    ensures |t| == |r|
  {
    ToFront(r, PlaceOf(r, b), b)
  }

  /** A touch brings the bank in, and throws out the last one only for it. */
  lemma TouchedSet(r: seq<nat>, b: nat, x: nat)
    requires |r| > 0 && Distinct(r)
    ensures Distinct(Touched(r, b)) && Touched(r, b)[0] == b
    ensures x in Touched(r, b) <==> x == b || (x in r && (b in r || x != r[|r| - 1]))
  {
    var i := PlaceOf(r, b);
    assert r == r[..i] + [r[i]] + r[i + 1..];
    assert r[i] !in r[..i] && r[i] !in r[i + 1..];
  }

  function TouchedAll(r: seq<nat>, bs: seq<nat>): (t: seq<nat>)
    requires |r| > 0
    ensures |t| == |r|
  {
    if bs == [] then r else Touched(TouchedAll(r, bs[..|bs| - 1]), bs[|bs| - 1])
  }

  lemma TouchedOne(r: seq<nat>, bs: seq<nat>, b: nat)
    requires |r| > 0
    ensures TouchedAll(r, bs + [b]) == Touched(TouchedAll(r, bs), b)
  {
    assert (bs + [b])[..|bs|] == bs;
  }

  /** The last-used banks head the list. */
  ghost predicate Heads(r: seq<nat>, used: set<nat>) {
    |used| <= |r| && (forall x: nat :: x in used <==> x in r[..|used|])
  }

  /** The head of the list after a move to the front, from before or behind its end. */
  lemma FrontTake(r: seq<nat>, i: nat, k: nat, b: nat)
    requires i < |r| && k <= |r|
    ensures i < k ==> ToFront(r, i, b)[..k] == [b] + r[..i] + r[i + 1..k]
    ensures i >= k ==> ToFront(r, i, b)[..k + 1] == [b] + r[..k]
  {
    if i < k {
      assert r[i + 1..] == r[i + 1..k] + r[k..];
    } else {
      assert r[..i] == r[..k] + r[k..i];
    }
  }

  lemma TouchedHeads(r: seq<nat>, used: set<nat>, b: nat)
    requires |r| > 0 && Distinct(r) && Heads(r, used) && |used + {b}| <= |r|
    ensures Heads(Touched(r, b), used + {b})
  {
    var i, k := PlaceOf(r, b), |used|;
    var t := Touched(r, b);
    if b in used {
      assert used + {b} == used;
      assert i < k by {
        assert b in r[..k];
      }
      assert r[..k] == r[..i] + [b] + r[i + 1..k];
      FrontTake(r, i, k, b);
    } else {
      assert |used + {b}| == k + 1;
      assert i >= k by {
        assert b in r ==> r[i] == b;
        assert b !in r[..k];
      }
      FrontTake(r, i, k, b);
    }
  }

  /** Fewer than four places hold no bank but the last three touched. */
  lemma LastThree(r: seq<nat>, a: nat, b: nat, c: nat, x: nat)
    requires 0 < |r| < 4 && Distinct(r) && a != b && b != c && c != a && x !in {a, b, c}
    ensures x !in Touched(Touched(Touched(r, a), b), c)
  {
    var t, u := Touched(r, a), Touched(Touched(r, a), b);
    TouchedSet(r, a, x);
    TouchedSet(t, b, a);
    Second(t, b);
    Second(u, c);
    Third(u, c);
    NoFourth(Touched(u, c), a, b, c, x);
  }

  lemma NoFourth(r: seq<nat>, a: nat, b: nat, c: nat, x: nat)
    requires 0 < |r| < 4 && x !in {a, b, c}
    requires r[0] == c && (|r| > 1 ==> r[1] == b) && (|r| > 2 ==> r[2] == a)
    ensures x !in r
  {
  }

  /** The first bank becomes the second, */
  lemma Second(r: seq<nat>, b: nat)
    requires |r| > 0 && Distinct(r) && r[0] != b
    ensures Distinct(Touched(r, b)) && Touched(r, b)[0] == b
    ensures |r| > 1 ==> Touched(r, b)[1] == r[0]
  {
    TouchedSet(r, b, b);
  }

  /** ... and the second the third. */
  lemma Third(r: seq<nat>, b: nat)
    requires |r| > 2 ==> Distinct(r) && r[0] != b && r[1] != b
    ensures |r| > 2 ==> Touched(r, b)[2] == r[1]
  {
    if |r| > 2 {
      assert b in r ==> r[PlaceOf(r, b)] == b;
    }
  }

  function Used(bs: seq<nat>): set<nat> {
    set b | b in bs
  }

  /** Least-recently-used eviction: if no more banks are ever used than there
      are places, each one used stays in. */
  lemma {:induction false} UsedStay(r: seq<nat>, bs: seq<nat>)
    requires |r| > 0 && Distinct(r) && |Used(bs)| <= |r|
    ensures Distinct(TouchedAll(r, bs)) && Heads(TouchedAll(r, bs), Used(bs))
  {
    if bs == [] {
      assert Used(bs) == {};
    } else {
      var n := |bs| - 1;
      UsedMore(bs);
      Shrinks(Used(bs[..n]), bs[n]);
      UsedStay(r, bs[..n]);
      TouchedSet(TouchedAll(r, bs[..n]), bs[n], bs[n]);
      TouchedHeads(TouchedAll(r, bs[..n]), Used(bs[..n]), bs[n]);
    }
  }

  lemma UsedMore(bs: seq<nat>)
    requires bs != []
    ensures Used(bs) == Used(bs[..|bs| - 1]) + {bs[|bs| - 1]}
  {
    assert bs == bs[..|bs| - 1] + [bs[|bs| - 1]];
  }

  /** So a bank that was used is still in. */
  lemma UsedIsIn(r: seq<nat>, bs: seq<nat>, b: nat)
    requires |r| > 0 && Distinct(r) && |Used(bs)| <= |r| && b in bs
    ensures b in TouchedAll(r, bs)
  {
    UsedStay(r, bs);
    assert b in Used(bs);
  }

  lemma Shrinks(s: set<nat>, x: nat)
    ensures |s| <= |s + {x}|
  {
    if x in s {
      assert s + {x} == s;
    }
  }

  /** When a bank was last touched; 0 if never. */
  function LastTouch(bs: seq<nat>, b: nat): (n: nat)
    ensures n <= |bs|
  {
    if bs == [] then 0 else if bs[|bs| - 1] == b then |bs| else LastTouch(bs[..|bs| - 1], b)
  }

  ghost predicate NewestFirst(r: seq<nat>, bs: seq<nat>) {
    forall i: nat, j: nat | i < j < |r| ::
      LastTouch(bs, r[j]) > 0 ==> LastTouch(bs, r[i]) > LastTouch(bs, r[j])
  }

  /** The list is always newest first. */
  lemma {:induction false} TouchesOrder(r: seq<nat>, bs: seq<nat>)
    requires |r| > 0 && Distinct(r)
    ensures Distinct(TouchedAll(r, bs)) && NewestFirst(TouchedAll(r, bs), bs)
  {
    if bs != [] {
      var n := |bs| - 1;
      TouchesOrder(r, bs[..n]);
      TouchedSet(TouchedAll(r, bs[..n]), bs[n], bs[n]);
      TouchOrder(TouchedAll(r, bs[..n]), bs[..n], bs[n], bs);
    }
  }

  lemma TouchOrder(r: seq<nat>, before: seq<nat>, b: nat, bs: seq<nat>)
    requires |r| > 0 && Distinct(r) && NewestFirst(r, before) && bs == before + [b]
    ensures NewestFirst(Touched(r, b), bs)
  {
    var t, p := Touched(r, b), PlaceOf(r, b);
    assert bs[..|bs| - 1] == before;
    forall i: nat, j: nat | i < j < |t| && LastTouch(bs, t[j]) > 0
      ensures LastTouch(bs, t[i]) > LastTouch(bs, t[j])
    {
      TouchedSet(r, b, b);
      assert t[j] == r[if j <= p then j - 1 else j] && t[j] != b;
      if i > 0 {
        assert t[i] == r[if i <= p then i - 1 else i];
      }
    }
  }
}
