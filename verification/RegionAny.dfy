/** The stamped region for any geometry that meets the static assertions: a cycle
    of whole descriptors of whole words, room for the region and three descriptors. */
module RegionAny {
  import opened Arith
  import opened Wire

  /** Cycle, VSYNC length, offsets of H and of the end, and the descriptors. */
  datatype Geometry = Geometry(n: nat, vsync: nat, offH: nat, offEnd: nat, descCount: nat, descBytes: nat)

  predicate Asserted(g: Geometry) {
    && g.descBytes > 0 && g.descBytes % 4 == 0 && g.n == g.descCount * g.descBytes
    && g.vsync < g.offH <= g.offEnd && g.n - (g.offEnd - g.offH + 6) >= 3 * g.descBytes - 1
  }

  function First(g: Geometry, marker: nat, lane: nat): nat
    requires g.vsync < g.offH
  {
    (marker + g.offH - g.vsync - 1 + lane) / 2 * 2
  }

  function Last(g: Geometry, marker: nat, lane: nat): nat
    requires g.vsync <= g.offEnd
  {
    (marker + g.offEnd - g.vsync + 1 + lane) / 2 * 2 + 1
  }

  /** A raw byte is one of the region's, cyclically. */
  predicate Inside(g: Geometry, marker: nat, lane: nat, k: nat)
    requires g.n > 0 && g.vsync < g.offH <= g.offEnd
  {
    (k + g.n - First(g, marker, lane) % g.n) % g.n < Last(g, marker, lane) - First(g, marker, lane) + 1
  }

  /** Both raw bytes that the decode of an offset between H and the end reads are
      in the region, for every lock. */
  lemma Covers(g: Geometry, marker: nat, lane: nat, o: nat, i: nat)
    requires Asserted(g) && marker < g.n && lane < 2 && g.offH <= o < g.offEnd && i < 2
    ensures var j := (marker + o - g.vsync) % g.n; Inside(g, marker, lane, Swap((Swap(j) + lane + i) % g.n))
  {
    var x := marker + o - g.vsync;
    EvenCycle(g.descCount, g.descBytes);
    SwapMod(x, g.n);
    AddMod(Swap(x), lane + i, g.n);
    Between(g, marker, lane, x, i);
    var w := Swap(x) + lane + i;
    SwapMod(w, g.n);
    Place(Swap(w), First(g, marker, lane), g.n);
  }

  lemma EvenCycle(count: nat, bytes: nat)
    requires bytes % 4 == 0
    ensures count * bytes % 2 == 0
  {
    var words := bytes / 4;
    assert bytes == 4 * words;
    Twice(count, 2 * words);
    DivMod(count * bytes, 2, count * (2 * words), 0);
  }

  /** The swap of a place is the place of the swap, as samples are whole. */
  lemma SwapMod(x: nat, n: nat)
    requires n > 0 && n % 2 == 0
    ensures Swap(x % n) == Swap(x) % n
  {
    var q, r := x / n, x % n;
    assert x == q * n + r;
    assert x % 2 == r % 2 by {
      Twice(q, n / 2);
      DivMod(q * n, 2, q * (n / 2), 0);
    }
    DivMod(Swap(x), n, q, Swap(r));
  }

  lemma AddMod(x: nat, k: nat, n: nat)
    requires n > 0
    ensures (x % n + k) % n == (x + k) % n
  {
    var q, r := x / n, x % n;
    assert x == q * n + r;
    var t, s := (r + k) / n, (r + k) % n;
    assert r + k == t * n + s;
    assert (q + t) * n == q * n + t * n;
    DivMod(x + k, n, q + t, s);
  }

  lemma Between(g: Geometry, marker: nat, lane: nat, x: nat, i: nat)
    requires Asserted(g) && lane < 2 && i < 2
    requires marker + g.offH - g.vsync <= x < marker + g.offEnd - g.vsync
    ensures First(g, marker, lane) <= Swap(Swap(x) + lane + i) <= Last(g, marker, lane)
    ensures Last(g, marker, lane) - First(g, marker, lane) + 1 <= g.n
  {
  }

  lemma Place(x: nat, first: nat, n: nat)
    requires n > 0 && first <= x < first + n
    ensures (x % n + n - first % n) % n == x - first
  {
    var q, f := first / n, first % n;
    assert first == q * n + f;
    if f + (x - first) < n {
      DivMod(x, n, q, f + (x - first));
      DivMod(x % n + n - f, n, 1, x - first);
    } else {
      assert (q + 1) * n == q * n + n;
      DivMod(x, n, q + 1, f + (x - first) - n);
      DivMod(x % n + n - f, n, 0, x - first);
    }
  }
}
