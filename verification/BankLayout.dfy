/** Which bank each of the 32 PORTB bit patterns selects, by expansion scheme. */
module BankLayout {
  import opened Recency
  import opened Sets

  const PATTERNS: nat := 32

  datatype Config = None | Rambo256 | NativeXeCompy192 | Xe

  /** Pattern bits: 0 and 1 pick a bank within a group of four, 2 must be clear,
      3 and 4 pick the group. */
  function Layout(config: Config, pattern: nat): (b: int)
    requires pattern < PATTERNS
    ensures -1 <= b < Banks(config)
  {
    var group, within := pattern / 8, pattern % 8;
    if within >= 4 then -1
    else match config
      case None => -1
      case Xe => within
      case NativeXeCompy192 => if group < 2 then within else -1
      case Rambo256 => if group >= 1 then within + 4 * (group - 1) else -1
  }

  /** How many banks a scheme maps. */
  function Banks(config: Config): nat {
    match config
    case None => 0
    case Xe => 4
    case NativeXeCompy192 => 4
    case Rambo256 => 12
  }

  // ---- What a scheme's table is ----

  /** Bit 2 is set, or the scheme leaves the group to base RAM. */
  predicate Unmapped(config: Config, pattern: nat) {
    || pattern % 8 >= 4 || config.None? || (config.NativeXeCompy192? && pattern >= 16)
    || (config.Rambo256? && pattern < 8)
  }

  /** The low two bits agree, and with RAMBO the groups do. */
  predicate SameBank(config: Config, p: nat, q: nat) {
    p % 4 == q % 4 && (config.Rambo256? ==> p / 8 == q / 8)
  }

  /** Nothing is mapped, or 4 banks, or with RAMBO 12: each of them, and no others;
      patterns have one bank exactly if they should. */
  ghost predicate Maps(config: Config, premap: seq<int>) {
    && |premap| == PATTERNS
    && (forall p: nat | p < PATTERNS :: premap[p] == -1 <==> Unmapped(config, p))
    && (forall p: nat, q: nat | p < PATTERNS && q < PATTERNS && !Unmapped(config, p) && !Unmapped(config, q) ::
          premap[p] == premap[q] <==> SameBank(config, p, q))
    && (forall b: int :: b in premap && b != -1 <==>
          0 <= b < if config.None? then 0 else if config.Rambo256? then 12 else 4)
  }

  lemma LayoutMeans(config: Config, premap: seq<int>)
    requires |premap| == PATTERNS && forall p: nat | p < PATTERNS :: premap[p] == Layout(config, p)
    ensures Maps(config, premap)
  {
    forall p: nat, q: nat | p < PATTERNS && q < PATTERNS && !Unmapped(config, p) && !Unmapped(config, q)
      ensures premap[p] == premap[q] <==> SameBank(config, p, q)
    {
      BanksApart(config, p, q);
    }
    forall b: int ensures b in premap && b != -1 <==>
      0 <= b < if config.None? then 0 else if config.Rambo256? then 12 else 4
    {
      if b in premap && b != -1 {
        var p: nat :| p < PATTERNS && premap[p] == b;
      }
      if 0 <= b < 12 && !config.None? && (b < 4 || config.Rambo256?) {
        var p := BankAt(config, b);
        assert premap[p] == b;
      }
    }
  }

  lemma BankAt(config: Config, b: nat) returns (p: nat)
    requires b < 12 && !config.None? && (b < 4 || config.Rambo256?)
    ensures p < PATTERNS && Layout(config, p) == b
  {
    p := if config.Rambo256? then 8 * (b / 4 + 1) + b % 4 else b;
  }

  lemma LowBits(p: nat)
    requires p % 8 < 4
    ensures p % 4 == p % 8
  {
  }

  lemma BanksApart(config: Config, p: nat, q: nat)
    requires p < PATTERNS && q < PATTERNS && !Unmapped(config, p) && !Unmapped(config, q)
    ensures Layout(config, p) == Layout(config, q) <==> SameBank(config, p, q)
  {
    LowBits(p);
    LowBits(q);
    InGroups(p / 8, p % 8, q / 8, q % 8);
  }

  lemma InGroups(g: nat, w: nat, h: nat, v: nat)
    requires w < 4 && v < 4
    ensures w + 4 * (g - 1) == v + 4 * (h - 1) <==> w == v && g == h
  {
  }

  method MapNone(premap: array<int>)
    requires premap.Length == PATTERNS
    modifies premap
    ensures forall p: nat | p < PATTERNS :: premap[p] == -1
  {
    for i := 0 to PATTERNS
      invariant forall p: nat | p < i :: premap[p] == -1
    {
      premap[i] := -1;
    }
  }

  method MapStockXe(premap: array<int>)
    requires premap.Length == PATTERNS
    modifies premap
    ensures forall p: nat | p < PATTERNS :: premap[p] == Layout(Xe, p)
  {
    MapNone(premap);
    for i := 0 to 4
      invariant forall p: nat | p < PATTERNS :: premap[p] == if p % 8 < i then p % 8 else -1
    {
      premap[i] := i;
      premap[i + 8] := i;
      premap[i + 16] := i;
      premap[i + 24] := i;
    }
  }

  method MapRambo256(premap: array<int>)
    requires premap.Length == PATTERNS
    modifies premap
    ensures forall p: nat | p < PATTERNS :: premap[p] == Layout(Rambo256, p)
  {
    MapNone(premap);
    for i := 0 to 4
      invariant forall p: nat | p < PATTERNS ::
        premap[p] == if p % 8 < i && p >= 8 then p % 8 + 4 * (p / 8 - 1) else -1
    {
      premap[i + 8] := i;
      premap[i + 16] := i + 4;
      premap[i + 24] := i + 8;
    }
  }

  method MapNativeXe192(premap: array<int>)
    requires premap.Length == PATTERNS
    modifies premap
    ensures forall p: nat | p < PATTERNS :: premap[p] == Layout(NativeXeCompy192, p)
  {
    MapNone(premap);
    for i := 0 to 4
      invariant forall p: nat | p < PATTERNS :: premap[p] == if p % 8 < i && p < 16 then p % 8 else -1
    {
      premap[i] := i;
      premap[i + 8] := i;
    }
  }

  method MapConfig(premap: array<int>, config: Config)
    requires premap.Length == PATTERNS
    modifies premap
    ensures forall p: nat | p < PATTERNS :: premap[p] == Layout(config, p)
    ensures Maps(config, premap[..])
  {
    match config {
      case Rambo256 => MapRambo256(premap);
      case NativeXeCompy192 => MapNativeXe192(premap);
      case Xe => MapStockXe(premap);
      case None => MapNone(premap);
    }
    LayoutMeans(config, premap[..]);
  }

  /** The banks of the mapped patterns, in pattern order. */
  function MappedBanks(premap: seq<int>): (bs: seq<nat>) {
    if premap == [] then [] else
      var n := |premap| - 1;
      MappedBanks(premap[..n]) + if premap[n] >= 0 then [premap[n]] else []
  }

  lemma {:induction false} MappedMember(premap: seq<int>, b: nat)
    ensures b in MappedBanks(premap) <==> b in premap
  {
    if premap != [] {
      var n := |premap| - 1;
      MappedMember(premap[..n], b);
      assert premap == premap[..n] + [premap[n]];
    }
  }

  /** A scheme uses exactly the banks that it has, 0 and up. */
  lemma UsedBanks(config: Config, premap: seq<int>)
    requires Maps(config, premap)
    ensures |Used(MappedBanks(premap))| == Banks(config)
    ensures forall b: nat :: b in Used(MappedBanks(premap)) <==> b < Banks(config)
  {
    forall b: nat ensures b in Used(MappedBanks(premap)) <==> b < Banks(config) {
      MappedMember(premap, b);
    }
    assert Used(MappedBanks(premap)) == Naturals(Banks(config));
  }

  /** Exercising one more pattern touches its bank, if it has one. */
  lemma MappedMore(premap: seq<int>, i: nat)
    requires i < |premap|
    ensures premap[i] < 0 ==> MappedBanks(premap[..i + 1]) == MappedBanks(premap[..i])
    ensures premap[i] >= 0 ==> MappedBanks(premap[..i + 1]) == MappedBanks(premap[..i]) + [premap[i]]
  {
    var longer := premap[..i + 1];
    assert longer[..i] == premap[..i] && longer != [] && longer[i] == premap[i];
  }

  // ---- What the scheme XE leaves in SRAM ----

  /** Its patterns end with those of banks 1, 2 and 3. */
  lemma XeEnds(premap: seq<int>)
    requires |premap| == PATTERNS && forall p: nat | p < PATTERNS :: premap[p] == Layout(Xe, p)
    ensures MappedBanks(premap) == MappedBanks(premap[..25]) + [1] + [2] + [3]
  {
    MappedMore(premap, 25);
    MappedMore(premap, 26);
    MappedMore(premap, 27);
    XeTail(premap);
  }

  lemma XeTail(premap: seq<int>)
    requires |premap| == PATTERNS && forall p: nat | p < PATTERNS :: premap[p] == Layout(Xe, p)
    ensures MappedBanks(premap) == MappedBanks(premap[..28])
  {
    MappedMore(premap, 28);
    MappedMore(premap, 29);
    MappedMore(premap, 30);
    MappedMore(premap, 31);
    assert premap[..32] == premap;
  }

  /** With fewer than four places, bank 0 is out when they have been exercised. */
  lemma XeLeavesOut(r: seq<nat>, premap: seq<int>)
    requires |premap| == PATTERNS && forall p: nat | p < PATTERNS :: premap[p] == Layout(Xe, p)
    requires 0 < |r| < 4 && Distinct(r)
    ensures 0 !in TouchedAll(r, MappedBanks(premap))
  {
    XeEnds(premap);
    var bs := MappedBanks(premap[..25]);
    TouchesOrder(r, bs);
    TouchedOne(r, bs, 1);
    TouchedOne(r, bs + [1], 2);
    TouchedOne(r, bs + [1] + [2], 3);
    LastThree(TouchedAll(r, bs), 1, 2, 3, 0);
  }
}
