/** Extended memory as the 6502 sees it: page tables over the bank pool, repaired
    when a select finds that its bank has moved. It behaves like plain flat
    banks. */
module ExtMem {
  import opened ByteBits
  import opened Recency
  import opened BankLayout
  import opened ExtBank

  const PAGES: nat := 64
  const PAGE_BYTES: nat := 256

  // ---- Flat banks ----

  /** One independent array a bank, and the base RAM under unmapped patterns. */
  datatype Flat = Flat(banks: seq<seq<byte>>, base: seq<byte>, premap: seq<int>, selected: nat)
  {
    ghost predicate Valid() {
      && |premap| == PATTERNS && selected < PATTERNS && |base| == BANK
      && (forall p | 0 <= p < PATTERNS :: premap[p] < |banks|)
      && (forall b | 0 <= b < |banks| :: |banks[b]| == BANK)
    }

    function View(): (v: seq<byte>)
      requires Valid()
      ensures |v| == BANK
    {
      if premap[selected] >= 0 then banks[premap[selected]] else base
    }

    function Select(pattern: nat): (f: Flat)
      requires Valid() && pattern < PATTERNS
      ensures f.Valid()
    {
      this.(selected := pattern)
    }

    function Write(addr: nat, v: byte): (f: Flat)
      requires Valid() && addr < BANK
      ensures f.Valid()
    {
      if premap[selected] >= 0 then
        this.(banks := banks[premap[selected] := View()[addr := v]])
      else
        this.(base := base[addr := v])
    }
  }

  datatype Op = Select(portb: byte, force: bool) | Read(addr: nat) | Write(addr: nat, value: byte)

  predicate IsOp(op: Op) {
    op.Select? || op.addr < BANK
  }

  function Pattern(portb: byte): (p: nat)
    ensures p < PATTERNS
  {
    portb / 4 % PATTERNS
  }

  function FlatStep(f: Flat, op: Op): (g: Flat)
    requires f.Valid() && IsOp(op)
    ensures g.Valid()
  {
    match op
    case Select(portb, _) => f.Select(Pattern(portb))
    case Read(_) => f
    case Write(addr, v) => f.Write(addr, v)
  }

  function FlatRun(f: Flat, ops: seq<Op>): (g: Flat)
    requires f.Valid() && forall i | 0 <= i < |ops| :: IsOp(ops[i])
    ensures g.Valid()
  {
    if ops == [] then f else FlatStep(FlatRun(f, ops[..|ops| - 1]), ops[|ops| - 1])
  }

  /** What the reads return. */
  function FlatReads(f: Flat, ops: seq<Op>): seq<byte>
    requires f.Valid() && forall i | 0 <= i < |ops| :: IsOp(ops[i])
  {
    if ops == [] then []
    else
      var n := |ops| - 1;
      assert IsOp(ops[n]);
      FlatReads(f, ops[..n]) + if ops[n].Read? then [FlatRun(f, ops[..n]).View()[ops[n].addr]] else []
  }

  // ---- Which banks the selects bring in ----

  /** A select brings its pattern's bank in unless it is the last pattern again. */
  function Brings(premap: seq<int>, last: nat, op: Op): (bs: seq<nat>)
    requires |premap| == PATTERNS
    ensures |bs| <= 1
  {
    if op.Select? && (Pattern(op.portb) != last || op.force) then BankOf(premap, Pattern(op.portb)) else []
  }

  function BankOf(premap: seq<int>, pattern: nat): (bs: seq<nat>)
    requires pattern < |premap|
    ensures |bs| <= 1
  {
    if premap[pattern] >= 0 then [premap[pattern]] else []
  }

  lemma TouchedBank(r: seq<nat>, premap: seq<int>, pattern: nat)
    requires |r| > 0 && pattern < |premap|
    ensures TouchedAll(r, BankOf(premap, pattern))
            == if premap[pattern] >= 0 then Touched(r, premap[pattern]) else r
  {
    if premap[pattern] >= 0 {
      TouchedOne(r, [], premap[pattern]);
    }
  }

  function LastXe(last: nat, ops: seq<Op>): nat {
    if ops == [] then last
    else if ops[|ops| - 1].Select? then Pattern(ops[|ops| - 1].portb)
    else LastXe(last, ops[..|ops| - 1])
  }

  function BroughtIn(premap: seq<int>, last: nat, ops: seq<Op>): seq<nat>
    requires |premap| == PATTERNS
  {
    if ops == [] then []
    else
      var n := |ops| - 1;
      BroughtIn(premap, last, ops[..n]) + Brings(premap, LastXe(last, ops[..n]), ops[n])
  }

  lemma BroughtMore(premap: seq<int>, last: nat, ops: seq<Op>, i: nat)
    requires |premap| == PATTERNS && i < |ops|
    ensures BroughtIn(premap, last, ops[..i + 1])
            == BroughtIn(premap, last, ops[..i]) + Brings(premap, LastXe(last, ops[..i]), ops[i])
    ensures LastXe(last, ops[..i + 1]) == LastXe(LastXe(last, ops[..i]), [ops[i]])
  {
    assert ops[..i + 1][..i] == ops[..i];
    assert [ops[i]][..0] == [];
  }

  lemma TouchedMore(r: seq<nat>, before: seq<nat>, more: seq<nat>)
    requires |r| > 0 && |more| <= 1
    ensures TouchedAll(r, before + more) == TouchedAll(TouchedAll(r, before), more)
  {
    if more == [] {
      assert before + more == before;
    } else {
      assert before + more == before + [more[0]] && more == [] + [more[0]];
      TouchedOne(r, before, more[0]);
      TouchedOne(TouchedAll(r, before), [], more[0]);
    }
  }

  // ---- Page tables ----

  datatype Page = Page(mem: array<byte>, offset: nat)

  /** Row p's write and read pages are mem's, in order. */
  ghost predicate Shows(tables: array2<Page>, p: nat, mem: array<byte>)
    requires p < tables.Length0 && tables.Length1 == 2 * PAGES
    reads tables
  {
    && (forall k | 0 <= k < PAGES :: tables[p, k] == Page(mem, PAGE_BYTES * k))
    && (forall k | PAGES <= k < 2 * PAGES :: tables[p, k] == Page(mem, PAGE_BYTES * (k - PAGES)))
  }

  method FillTable(tables: array2<Page>, p: nat, mem: array<byte>)
    requires p < tables.Length0 && tables.Length1 == 2 * PAGES
    modifies tables
    ensures Shows(tables, p, mem)
    ensures forall q, k | 0 <= q < tables.Length0 && q != p && 0 <= k < 2 * PAGES :: tables[q, k] == old(tables[q, k])
  {
    for i := 0 to PAGES
      invariant forall k | 0 <= k < i :: tables[p, k] == Page(mem, PAGE_BYTES * k)
      invariant forall k | PAGES <= k < i + PAGES :: tables[p, k] == Page(mem, PAGE_BYTES * (k - PAGES))
      invariant forall q, k | 0 <= q < tables.Length0 && q != p && 0 <= k < 2 * PAGES ::
        tables[q, k] == old(tables[q, k])
    {
      tables[p, i + PAGES] := Page(mem, PAGE_BYTES * i);
      tables[p, i] := Page(mem, PAGE_BYTES * i);
    }
  }

  class ExtMemory {
    const pool: ExtBankPool
    const base: array<byte>
    /** One table a pattern. */
    const tables: array2<Page>
    var lastXe: nat
    var selected: nat

    /** A table for every mapped pattern, showing its bank; PORTB is 0xff. */
    constructor (pool: ExtBankPool, base: array<byte>)
      requires pool.Valid() && base.Length == BANK && base !in pool.buffers
      ensures Valid() && this.pool == pool && this.base == base && lastXe == 0 && selected == 31
      ensures fresh(tables) && forall p: nat | p < PATTERNS :: tables[p, PAGES].mem == Home(p)
    {
      this.pool, this.base, lastXe, selected := pool, base, 0, 31;
      tables := new Page[PATTERNS, 2 * PAGES]((_, _) => Page(base, 0));
      new;
      SetUp();
    }

    method SetUp()
      requires pool.Valid() && tables.Length0 == PATTERNS && tables.Length1 == 2 * PAGES
      modifies tables
      ensures TablesOk() && forall p: nat | p < PATTERNS :: tables[p, PAGES].mem == Home(p)
    {
      for i := 0 to PATTERNS
        invariant forall p: nat | p < i :: Shows(tables, p, Home(p))
      {
        FillTable(tables, i, if pool.premap[i] >= 0 then pool.banks[pool.premap[i]] else base);
      }
      forall p: nat | p < PATTERNS ensures tables[p, PAGES].mem == Home(p) && Shows(tables, p, tables[p, PAGES].mem) {
        assert Shows(tables, p, Home(p));
      }
    }

    /** Where a pattern's data is. */
    ghost function Home(p: nat): array<byte>
      requires pool.Mapped() && p < PATTERNS
      reads pool.premap, pool.banks
    {
      if pool.premap[p] >= 0 then pool.banks[pool.premap[p]] else base
    }

    /** A mapped pattern's bank is where core 1 can use it. */
    ghost predicate InSram(p: nat)
      requires pool.Mapped() && p < PATTERNS
      reads pool.premap, pool.banks
    {
      pool.premap[p] < 0 || Home(p) in pool.internal
    }

    /** Every table shows some one buffer; unmapped patterns show base RAM. */
    ghost predicate TablesOk()
      requires pool.Mapped()
      reads pool.premap, tables
    {
      && tables.Length0 == PATTERNS && tables.Length1 == 2 * PAGES
      && (forall p: nat | p < PATTERNS :: Shows(tables, p, tables[p, PAGES].mem))
      && (forall p: nat | p < PATTERNS && pool.premap[p] < 0 :: tables[p, PAGES].mem == base)
    }

    /** The selected pattern's table shows its data; others may be stale. */
    ghost predicate Valid()
      reads `lastXe, `selected, pool`spare, pool.banks, pool.premap, pool.recency, tables
    {
      && pool.Valid() && base.Length == BANK && base !in pool.buffers
      && TablesOk() && lastXe < PATTERNS && selected < PATTERNS
      && tables[lastXe, PAGES].mem == Home(lastXe) && tables[selected, PAGES].mem == Home(selected)
    }

    ghost function Abs(): (f: Flat)
      reads `selected, pool.banks, pool.premap, base, pool.banks[..]
    {
      Flat(pool.Contents(), base[..], pool.premap[..], selected)
    }

    lemma AbsValid()
      requires Valid()
      ensures Abs().Valid() && Abs().View() == Home(selected)[..]
    {
    }

    /** A write to PORTB: core 1 switches tables and core 0 brings the bank in. */
    method Select(portb: byte, force: bool)
      requires Valid()
      modifies `lastXe, `selected, pool`spare, pool`evictCount, pool`swapCount
      modifies pool.banks, pool.recency, pool.buffers, tables
      ensures Valid() && selected == lastXe == Pattern(portb)
      ensures pool.Contents() == old(pool.Contents()) && base[..] == old(base[..])
      ensures pool.premap[..] == old(pool.premap[..])
      ensures old(pool.AllIn()) ==> pool.AllIn() && pool.evictCount == old(pool.evictCount)
      ensures InSram(selected) <==> old(lastXe) != Pattern(portb) || force || old(InSram(Pattern(portb)))
      ensures pool.sramBanks > 0 ==>
        pool.Recent()
        == TouchedAll(old(pool.Recent()), Brings(old(pool.premap[..]), old(lastXe), Op.Select(portb, force)))
    {
      if lastXe != Pattern(portb) || force {
        Bring(Pattern(portb));
        lastXe := Pattern(portb);
      }
      selected := Pattern(portb);
    }

    /** Have the bank in SRAM, and its table show it. */
    method Bring(nr: nat)
      requires Valid() && nr < PATTERNS
      modifies pool`spare, pool`evictCount, pool`swapCount, pool.banks, pool.recency, pool.buffers, tables
      ensures pool.Valid() && TablesOk() && tables[nr, PAGES].mem == Home(nr)
      ensures pool.Contents() == old(pool.Contents()) && base[..] == old(base[..])
      ensures pool.premap[..] == old(pool.premap[..])
      ensures InSram(nr)
      ensures pool.sramBanks > 0 ==>
        pool.Recent() == TouchedAll(old(pool.Recent()), BankOf(old(pool.premap[..]), nr))
      ensures old(pool.AllIn()) ==> pool.AllIn() && pool.evictCount == old(pool.evictCount)
    {
      ghost var recent := pool.Recent();
      var mem := pool.GetBank(nr);
      assert pool.sramBanks > 0 ==> pool.Recent() == TouchedAll(recent, BankOf(pool.premap[..], nr)) by {
        if pool.sramBanks > 0 {
          TouchedBank(recent, pool.premap[..], nr);
        }
      }
      assert TablesOk();
      if mem != null {
        Repair(nr, mem);
      }
    }

    method Repair(nr: nat, mem: array<byte>)
      requires pool.Mapped() && TablesOk() && nr < PATTERNS && pool.premap[nr] >= 0 && mem == Home(nr)
      modifies tables
      ensures TablesOk() && tables[nr, PAGES].mem == mem
    {
      if Page(mem, 0) != tables[nr, PAGES] {
        FillTable(tables, nr, mem);
      }
    }

    /** Core 1's read cycle. */
    method Read(addr: nat) returns (v: byte)
      requires Valid() && addr < BANK
      ensures Abs().Valid() && v == Abs().View()[addr]
    {
      AbsValid();
      var page := tables[selected, PAGES + addr / PAGE_BYTES];
      v := page.mem[page.offset + addr % PAGE_BYTES];
    }

    /** Core 1's write cycle. */
    method Write(addr: nat, v: byte)
      requires Valid() && addr < BANK
      modifies base, pool.buffers
      ensures Valid() && old(Abs()).Valid()
      ensures Abs() == old(Abs()).Write(addr, v)
    {
      AbsValid();
      var page := tables[selected, addr / PAGE_BYTES];
      page.mem[page.offset + addr % PAGE_BYTES] := v;
    }

    method Step(op: Op) returns (out: seq<byte>)
      requires Valid() && IsOp(op)
      modifies `lastXe, `selected, base, pool`spare, pool`evictCount, pool`swapCount
      modifies pool.banks, pool.recency, pool.buffers, tables
      ensures Valid() && old(Abs()).Valid() && Abs() == FlatStep(old(Abs()), op)
      ensures out == if op.Read? then [old(Abs()).View()[op.addr]] else []
      ensures lastXe == LastXe(old(lastXe), [op])
      ensures pool.sramBanks > 0 ==>
        pool.Recent() == TouchedAll(old(pool.Recent()), Brings(old(pool.premap[..]), old(lastXe), op))
      ensures old(pool.AllIn()) ==> pool.AllIn() && pool.evictCount == old(pool.evictCount)
    {
      AbsValid();
      out := [];
      match op {
        case Select(portb, force) => Select(portb, force);
        case Read(addr) =>
          var v := Read(addr);
          out := [v];
        case Write(addr, v) => Write(addr, v);
      }
    }

    /** Any sequence of selects, reads and writes does what it does to flat banks,
        and leaves the recency list as the banks brought in make it. */
    method Run(ops: seq<Op>) returns (out: seq<byte>)
      requires Valid() && forall i | 0 <= i < |ops| :: IsOp(ops[i])
      modifies `lastXe, `selected, base, pool`spare, pool`evictCount, pool`swapCount
      modifies pool.banks, pool.recency, pool.buffers, tables
      ensures Valid() && old(Abs()).Valid()
      ensures Abs() == FlatRun(old(Abs()), ops) && out == FlatReads(old(Abs()), ops)
      ensures pool.sramBanks > 0 ==>
        pool.Recent() == TouchedAll(old(pool.Recent()), BroughtIn(old(pool.premap[..]), old(lastXe), ops))
      ensures old(pool.AllIn()) ==> pool.AllIn() && pool.evictCount == old(pool.evictCount)
    {
      AbsValid();
      ghost var f := Abs();
      out := [];
      for i := 0 to |ops|
        invariant Valid() && Abs() == FlatRun(f, ops[..i]) && out == FlatReads(f, ops[..i])
        invariant lastXe == LastXe(old(lastXe), ops[..i]) && pool.premap[..] == old(pool.premap[..])
        invariant pool.sramBanks > 0 ==>
          pool.Recent() == TouchedAll(old(pool.Recent()), BroughtIn(old(pool.premap[..]), old(lastXe), ops[..i]))
        invariant old(pool.AllIn()) ==> pool.AllIn() && pool.evictCount == old(pool.evictCount)
      {
        RunMore(f, ops, i);
        BroughtMore(old(pool.premap[..]), old(lastXe), ops, i);
        if pool.sramBanks > 0 {
          TouchedMore(old(pool.Recent()), BroughtIn(old(pool.premap[..]), old(lastXe), ops[..i]),
                      Brings(old(pool.premap[..]), lastXe, ops[i]));
        }
        var more := Step(ops[i]);
        out := out + more;
      }
      assert ops[..|ops|] == ops;
    }
  }

  lemma RunMore(f: Flat, ops: seq<Op>, i: nat)
    requires f.Valid() && i < |ops| && forall k | 0 <= k < |ops| :: IsOp(ops[k])
    ensures FlatRun(f, ops[..i + 1]) == FlatStep(FlatRun(f, ops[..i]), ops[i])
    ensures FlatReads(f, ops[..i + 1]) == FlatReads(f, ops[..i]) +
      (if ops[i].Read? then [FlatRun(f, ops[..i]).View()[ops[i].addr]] else [])
  {
    assert ops[..i + 1][..i] == ops[..i] && IsOp(ops[i]);
  }

  // ---- The first select of pattern 0 ----

  /** After a start with fewer than four banks in SRAM, the first select of pattern
      0 is taken for one that changes nothing: its bank stays in PSRAM. */
  method FirstSelect(n: nat, sram: nat, base: array<byte>, portb: byte) returns (m: ExtMemory)
    requires 0 < sram < 4 <= n && base.Length == BANK && Pattern(portb) == 0
    ensures m.Valid() && m.selected == 0 && !m.InSram(0)
  {
    var pool := ExtBankPool.Init(n, sram, Xe);
    m := new ExtMemory(pool, base);
    XeLeavesOut(FirstBanks(sram), pool.premap[..]);
    assert pool.premap[0] == 0 && 0 !in pool.Recent();
    m.Select(portb, false);
  }
}
