/** What is written to the window under one PORTB value, and seen under another. */
module BankWindow {
  import opened ByteBits
  import opened Options
  import opened BankLayout
  import opened ExtBank
  import opened ExtMem

  /** The value shows extended memory: PORTB bit 4 is clear, and the scheme maps the group
      that bits 5 and 6 pick. */
  predicate Extended(config: Config, portb: byte) {
    && portb / 16 % 2 == 0
    && match config
       case None => false
       case Xe => true
       case NativeXeCompy192 => portb / 32 % 4 < 2
       case Rambo256 => portb / 32 % 4 > 0
  }

  /** Two values show the same memory: base RAM both, or both one bank, which bits 2 and
      3, and with RAMBO bits 5 and 6, pick. */
  predicate Together(config: Config, x: byte, y: byte) {
    && Extended(config, x) == Extended(config, y)
    && (Extended(config, x) ==>
          x / 4 % 4 == y / 4 % 4 && (config.Rambo256? ==> x / 32 % 4 == y / 32 % 4))
  }

  lemma PatternBits(portb: byte)
    ensures Pattern(portb) % 4 == portb / 4 % 4 && Pattern(portb) / 8 == portb / 32 % 4
    ensures Pattern(portb) % 8 >= 4 <==> portb / 16 % 2 == 1
  {
    Quarters(portb);
    FiveBits(portb / 4);
  }

  lemma Quarters(x: nat)
    ensures x / 4 / 4 == x / 16 && x / 4 / 8 == x / 32
  {
  }

  lemma FiveBits(a: nat)
    requires a < 64
    ensures a % 32 % 4 == a % 4 && a % 32 / 8 == a / 8 % 4 && (a % 32 % 8 >= 4 <==> a / 4 % 2 == 1)
  {
    var g, w := a / 8, a % 8;
    assert a == 8 * g + w;
    assert a / 4 == 2 * g + w / 4;
    if g < 4 {
      assert a % 32 == a;
    } else {
      assert a % 32 == a - 32;
    }
  }

  lemma ShowsBank(config: Config, portb: byte)
    ensures Extended(config, portb) <==> !Unmapped(config, Pattern(portb))
  {
    PatternBits(portb);
  }

  lemma ShowSame(config: Config, f: Flat, x: byte, y: byte)
    requires f.Valid() && Maps(config, f.premap)
    ensures Together(config, x, y) <==> f.premap[Pattern(x)] == f.premap[Pattern(y)]
  {
    ShowsBank(config, x);
    ShowsBank(config, y);
    PatternBits(x);
    PatternBits(y);
  }

  lemma MapsTo(config: Config, f: Flat, p: nat)
    requires f.Valid() && Maps(config, f.premap) && p < PATTERNS
    ensures -1 <= f.premap[p]
  {
    assert f.premap[p] in f.premap;
  }

  /** A write under x, seen under y. */
  lemma WriteSeen(config: Config, f: Flat, x: byte, y: byte, at: nat, addr: nat, v: byte)
    requires f.Valid() && Maps(config, f.premap) && f.selected == Pattern(x) && at < BANK && addr < BANK
    ensures f.Write(at, v).Select(Pattern(y)).View()[addr]
            == if at == addr && Together(config, x, y) then v else f.Select(Pattern(y)).View()[addr]
  {
    ShowSame(config, f, x, y);
    MapsTo(config, f, Pattern(x));
    MapsTo(config, f, Pattern(y));
  }

  // ---- What is read ----

  /** The last value of PORTB. */
  function PortAfter(port: byte, ops: seq<Op>): byte {
    if ops == [] then port
    else if ops[|ops| - 1].Select? then ops[|ops| - 1].portb
    else PortAfter(port, ops[..|ops| - 1])
  }

  /** The last byte that was written to the address under a value that shows the same
      memory as y. */
  function LastWritten(config: Config, port: byte, ops: seq<Op>, y: byte, addr: nat): Option<byte> {
    if ops == [] then Option.None
    else
      var n := |ops| - 1;
      if ops[n].Write? && ops[n].addr == addr && Together(config, PortAfter(port, ops[..n]), y) then
        Some(ops[n].value)
      else LastWritten(config, port, ops[..n], y, addr)
  }

  function Or(b: Option<byte>, otherwise: byte): byte {
    if b.Some? then b.value else otherwise
  }

  lemma StepSeen(config: Config, f: Flat, op: Op, x: byte, y: byte, addr: nat)
    requires f.Valid() && Maps(config, f.premap) && f.selected == Pattern(x) && IsOp(op) && addr < BANK
    ensures var g := FlatStep(f, op);
      && g.premap == f.premap && g.selected == Pattern(if op.Select? then op.portb else x)
      && g.Select(Pattern(y)).View()[addr] ==
           if op.Write? && op.addr == addr && Together(config, x, y) then op.value
           else f.Select(Pattern(y)).View()[addr]
  {
    if op.Write? {
      WriteSeen(config, f, x, y, op.addr, addr, op.value);
    }
  }

  /** After any selects, reads and writes, the window under y shows the last byte written
      to the same memory, or what it showed before. */
  lemma {:induction false} LastSeen(config: Config, f: Flat, port: byte, ops: seq<Op>, y: byte, addr: nat)
    requires f.Valid() && Maps(config, f.premap) && f.selected == Pattern(port) && addr < BANK
    requires forall i | 0 <= i < |ops| :: IsOp(ops[i])
    ensures var g := FlatRun(f, ops);
      && g.premap == f.premap && g.selected == Pattern(PortAfter(port, ops))
      && g.Select(Pattern(y)).View()[addr]
         == Or(LastWritten(config, port, ops, y, addr), f.Select(Pattern(y)).View()[addr])
  {
    if ops != [] {
      var n := |ops| - 1;
      LastSeen(config, f, port, ops[..n], y, addr);
      assert IsOp(ops[n]);
      StepSeen(config, FlatRun(f, ops[..n]), ops[n], PortAfter(port, ops[..n]), y, addr);
    }
  }

  method Look(m: ExtMemory, y: byte, addr: nat) returns (b: byte)
    requires m.Valid() && addr < BANK
    modifies m`lastXe, m`selected, m.pool`spare, m.pool`evictCount, m.pool`swapCount
    modifies m.pool.banks, m.pool.recency, m.pool.buffers, m.tables
    ensures m.Valid() && old(m.Abs()).Valid() && b == old(m.Abs()).Select(Pattern(y)).View()[addr]
  {
    m.AbsValid();
    m.Select(y, false);
    b := m.Read(addr);
  }

  /** The same of the tables and buffers: a look at any address under any value of PORTB,
      after any sequence of accesses. */
  method RunThenLook(m: ExtMemory, config: Config, port: byte, ops: seq<Op>, y: byte, addr: nat) returns (b: byte)
    requires m.Valid() && Maps(config, m.pool.premap[..]) && m.selected == Pattern(port) && addr < BANK
    requires forall i | 0 <= i < |ops| :: IsOp(ops[i])
    modifies m`lastXe, m`selected, m.base, m.pool`spare, m.pool`evictCount, m.pool`swapCount
    modifies m.pool.banks, m.pool.recency, m.pool.buffers, m.tables
    ensures m.Valid() && old(m.Abs()).Valid()
    ensures b == Or(LastWritten(config, port, ops, y, addr), old(m.Abs()).Select(Pattern(y)).View()[addr])
  {
    m.AbsValid();
    LastSeen(config, m.Abs(), port, ops, y, addr);
    var _ := m.Run(ops);
    b := Look(m, y, addr);
  }
}
