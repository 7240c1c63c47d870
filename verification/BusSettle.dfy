/** Whole bus cycles after a copy: one read and one write cycle, in either order,
    rewrite every stale pointer from the copied tables. */
module BusSettle {
  import opened ByteBits
  import opened BusMmu

  // ---- A cycle at a time ----

  function ReadSlots(s: seq<nat>, portb: byte, newport: byte): (t: seq<nat>)
    requires |s| == SLOTS
    ensures |t| == SLOTS
  {
    s[L1_80 := s[BasicPick(portb)]][L1_C0 := s[OsPick(portb, newport)]][L1_40 := s[ExtPick(portb)]]
  }

  function WriteSlots(s: seq<nat>, portb: byte, select: byte): (t: seq<nat>)
    requires |s| == SLOTS
    ensures |t| == SLOTS
  {
    var t := s[BASIC + 1 := s[CartPick(select)]];
    t[L1_80 := t[BasicPick(portb)]]
  }

  /** The seven accesses of one cycle, undisturbed. */
  function Cycle(b: Board, s: Core, bus: Bus): (t: Core)
    requires IsCore(b, s) && IsBus(bus)
    ensures IsCore(b, t)
  {
    var half := CoreStep(b, CoreStep(b, CoreStep(b, s, bus), bus), bus);
    CoreStep(b, CoreStep(b, CoreStep(b, CoreStep(b, half, bus), bus), bus), bus)
  }

  lemma ReadCycle(b: Board, s: Core, bus: Bus)
    requires IsCore(b, s) && IsBus(bus) && s.pc.Top? && bus.isRead
    ensures Cycle(b, s, bus) == s.(slots := ReadSlots(s.slots, Reg(b, s.mem, 0x301), Reg(b, s.mem, 0x1ff)))
  {
  }

  /** The bank select that a write cycle sees. */
  function SelectAt(b: Board, s: Core, bus: Bus): byte
    requires IsCore(b, s) && IsBus(bus)
  {
    if b.dataSelect then Reg(b, s.mem, 0x500)
    else if bus.addr / PAGE == PAGE_D5 then bus.addr % PAGE else s.lastD5
  }

  /** A write cycle writes where its page was mapped when it began. */
  lemma WriteCycle(b: Board, s: Core, bus: Bus)
    requires IsCore(b, s) && IsBus(bus) && s.pc.Top? && !bus.isRead
    ensures var t, page := Cycle(b, s, bus), Fetched(b, s.slots, bus);
      && t.pc.Top? && t.slots == WriteSlots(s.slots, Reg(b, s.mem, 0x301), SelectAt(b, s, bus))
      && t.mem == s.mem[page := PutByte(s.mem[page], bus.addr % PAGE, bus.data)]
      && t.lastD5 == if bus.addr / PAGE == PAGE_D5 then bus.addr % PAGE else s.lastD5
  {
  }

  /** A read cycle, bit by bit: PORTB's bit 1 picks the block at 0x8000, its bit 0 and bit
      1 of the PBI register the one at 0xc000, and its bits 2 to 6 the one at 0x4000; all
      else stays. */
  ghost predicate ReadTurn(b: Board, s: Core, t: Core)
    requires IsCore(b, s)
  {
    var portb, port := s.mem[b.regs + 3][1], s.mem[b.regs + 1][0xff];
    && t.mem == s.mem && t.lastD5 == s.lastD5 && |t.slots| == 74
    && t.slots[2] == s.slots[if portb / 2 % 2 == 1 then 5 else 4]
    && t.slots[3] == s.slots[6 + (if portb % 2 == 1 then 1 else 0) + if port / 2 % 2 == 1 then 2 else 0]
    && t.slots[1] == s.slots[42 + portb / 4 % 32]
    && forall k | 0 <= k < 74 && k !in {1, 2, 3} :: t.slots[k] == s.slots[k]
  }

  /** A write cycle: the cartridge bank is that of the byte at 0xd500, or of the low byte
      of the last address written in that page; it is the block at 0x8000 if PORTB's bit 1
      is set; and the byte goes to the write page of its address. */
  ghost predicate WriteTurn(b: Board, s: Core, bus: Bus, t: Core)
    requires IsCore(b, s) && IsBus(bus)
  {
    var portb, low := s.mem[b.regs + 3][1], bus.addr % 256;
    var page := b.blocks[s.slots[bus.addr / 0x4000]][bus.addr / 256 % 64];
    && t.lastD5 as int == (if bus.addr / 256 == 0xd5 then low else s.lastD5) && |t.slots| == 74
    && t.slots[5] == s.slots[10 + (if b.dataSelect then s.mem[b.regs + 5][0] else t.lastD5) % 32]
    && t.slots[2] == (if portb / 2 % 2 == 1 then t.slots[5] else s.slots[4])
    && (forall k | 0 <= k < 74 && k !in {2, 5} :: t.slots[k] == s.slots[k])
    && t.mem == s.mem[page := PutByte(s.mem[page], low, bus.data)]
  }

  ghost predicate IsTurn(b: Board, s: Core, bus: Bus, t: Core)
    requires IsCore(b, s) && IsBus(bus)
  {
    if bus.isRead then ReadTurn(b, s, t) else WriteTurn(b, s, bus, t)
  }

  lemma TurnIs(b: Board, s: Core, bus: Bus)
    requires IsCore(b, s) && IsBus(bus) && s.pc.Top?
    ensures IsTurn(b, s, bus, Cycle(b, s, bus))
  {
    if bus.isRead {
      ReadCycle(b, s, bus);
    } else {
      WriteCycle(b, s, bus);
    }
  }

  function Cycles(b: Board, s: Core, buses: seq<Bus>): (t: Core)
    requires IsCore(b, s) && forall i | 0 <= i < |buses| :: IsBus(buses[i])
    ensures IsCore(b, t)
  {
    if buses == [] then s else Cycle(b, Cycles(b, s, buses[..|buses| - 1]), buses[|buses| - 1])
  }

  // ---- The stale pointers go ----

  lemma {:induction false} RunKeepsClean(b: Board, src: seq<nat>, s: Core, buses: seq<Bus>)
    requires IsCore(b, s) && Clean(src, s.slots, SLOTS) && forall i | 0 <= i < |buses| :: IsBus(buses[i])
    ensures Clean(src, CoreRun(b, s, buses).slots, SLOTS)
  {
    if buses != [] {
      RunKeepsClean(b, src, s, buses[..|buses| - 1]);
      StepKeepsClean(b, src, CoreRun(b, s, buses[..|buses| - 1]), buses[|buses| - 1]);
    }
  }

  lemma StepKeepsClean(b: Board, src: seq<nat>, s: Core, bus: Bus)
    requires IsCore(b, s) && IsBus(bus) && Clean(src, s.slots, SLOTS)
    ensures Clean(src, CoreStep(b, s, bus).slots, SLOTS)
  {
  }

  predicate SawRead(buses: seq<Bus>) { exists i :: 0 <= i < |buses| && buses[i].isRead }
  predicate SawWrite(buses: seq<Bus>) { exists i :: 0 <= i < |buses| && !buses[i].isRead }

  function Dummies(): (s: seq<nat>)
    ensures AllDummy(s)
  {
    seq(SLOTS, _ => 0)
  }

  ghost predicate Settling(s: Core, sawRead: bool, sawWrite: bool) {
    && s.pc.Top? && Clean(Dummies(), s.slots, SLOTS)
    && (sawRead ==> s.slots[L1_40] == s.slots[L1_C0] == 0)
    && (sawWrite ==> s.slots[BASIC + 1] == s.slots[L1_80] == 0)
  }

  lemma SettlingCycle(b: Board, s: Core, bus: Bus, sawRead: bool, sawWrite: bool)
    requires IsCore(b, s) && IsBus(bus) && Settling(s, sawRead, sawWrite)
    ensures Settling(Cycle(b, s, bus), sawRead || bus.isRead, sawWrite || !bus.isRead)
  {
    if bus.isRead {
      ReadCycle(b, s, bus);
    } else {
      WriteCycle(b, s, bus);
    }
  }

  lemma {:induction false} CyclesSettle(b: Board, s: Core, buses: seq<Bus>)
    requires IsCore(b, s) && s.pc.Top? && Clean(Dummies(), s.slots, SLOTS)
    requires forall i | 0 <= i < |buses| :: IsBus(buses[i])
    ensures Settling(Cycles(b, s, buses), SawRead(buses), SawWrite(buses))
  {
    if buses != [] {
      var n := |buses| - 1;
      CyclesSettle(b, s, buses[..n]);
      SawMore(buses, n);
      SettlingCycle(b, Cycles(b, s, buses[..n]), buses[n], SawRead(buses[..n]), SawWrite(buses[..n]));
    }
  }

  lemma SawMore(buses: seq<Bus>, n: nat)
    requires n + 1 == |buses|
    ensures SawRead(buses) == (SawRead(buses[..n]) || buses[n].isRead)
    ensures SawWrite(buses) == (SawWrite(buses[..n]) || !buses[n].isRead)
  {
    forall i | 0 <= i < n ensures buses[..n][i] == buses[i] {
    }
  }

  ghost predicate AreBuses(buses: seq<Bus>) {
    forall i | 0 <= i < |buses| :: IsBus(buses[i])
  }

  /** After the copy of src, and the rest of the cycle that was under way. */
  function AfterCopy(b: Board, src: seq<nat>, core: Core, acts: seq<Action>, tail: seq<Bus>): (s: Core)
    requires IsCore(b, core) && AreSlots(b, src) && AreActions(acts) && AreBuses(tail)
    ensures IsCore(b, s)
  {
    CoreRun(b, CopyRun(b, src, Copying(core, 0), acts).core, tail)
  }

  lemma AfterCopyClean(b: Board, src: seq<nat>, core: Core, acts: seq<Action>, tail: seq<Bus>)
    requires IsCore(b, core) && AreSlots(b, src) && AreActions(acts) && AreBuses(tail)
    requires CopyRun(b, src, Copying(core, 0), acts).copied == SLOTS
    ensures Clean(src, AfterCopy(b, src, core, acts, tail).slots, SLOTS)
  {
    CopyLeaves(b, src, core, acts);
    RunKeepsClean(b, src, CopyRun(b, src, Copying(core, 0), acts).core, tail);
  }

  /** Disabling converges: copy the dummy pointers in, however core 1 runs between
      the copies; let the cycle under way end; then any cycles with at least one
      read and one write among them, whatever they write, leave every pointer on
      the dummy block. */
  lemma DisableConverges(b: Board, core: Core, acts: seq<Action>, tail: seq<Bus>, cycles: seq<Bus>)
    requires IsCore(b, core) && AreActions(acts) && AreBuses(tail) && AreBuses(cycles)
    requires CopyRun(b, Dummies(), Copying(core, 0), acts).copied == SLOTS
    requires AfterCopy(b, Dummies(), core, acts, tail).pc.Top?
    requires SawRead(cycles) && SawWrite(cycles)
    ensures var s := Cycles(b, AfterCopy(b, Dummies(), core, acts, tail), cycles); AllDummy(s.slots) && s.pc.Top?
  {
    AfterCopyClean(b, Dummies(), core, acts, tail);
    CyclesSettle(b, AfterCopy(b, Dummies(), core, acts, tail), cycles);
    SettledIsDummy(Cycles(b, AfterCopy(b, Dummies(), core, acts, tail), cycles));
  }

  lemma SettledIsDummy(s: Core)
    requires Settling(s, true, true)
    ensures AllDummy(s.slots)
  {
  }

  // ---- Neither a read nor a write cycle is enough alone ----

  lemma {:induction false} ReadsAlone(b: Board, s: Core, cycles: seq<Bus>)
    requires IsCore(b, s) && s.pc.Top? && AreBuses(cycles) && !SawWrite(cycles)
    ensures Cycles(b, s, cycles).pc.Top? && Cycles(b, s, cycles).slots[BASIC + 1] == s.slots[BASIC + 1]
  {
    if cycles != [] {
      var n := |cycles| - 1;
      SawMore(cycles, n);
      ReadsAlone(b, s, cycles[..n]);
      ReadCycle(b, Cycles(b, s, cycles[..n]), cycles[n]);
    }
  }

  lemma {:induction false} WritesAlone(b: Board, s: Core, cycles: seq<Bus>)
    requires IsCore(b, s) && s.pc.Top? && AreBuses(cycles) && !SawRead(cycles)
    ensures Cycles(b, s, cycles).pc.Top? && Cycles(b, s, cycles).slots[L1_40] == s.slots[L1_40]
  {
    if cycles != [] {
      var n := |cycles| - 1;
      SawMore(cycles, n);
      WritesAlone(b, s, cycles[..n]);
      WriteCycle(b, Cycles(b, s, cycles[..n]), cycles[n]);
    }
  }

  lemma {:induction false} AllCopies(b: Board, src: seq<nat>, core: Core, n: nat)
    requires IsCore(b, core) && AreSlots(b, src) && n <= SLOTS
    ensures var s := CopyRun(b, src, Copying(core, 0), seq(n, _ => Copy));
      s.copied == n && s.core.pc == core.pc
  {
    if n > 0 {
      AllCopies(b, src, core, n - 1);
      assert seq(n, _ => Copy)[..n - 1] == seq(n - 1, _ => Copy);
    }
  }

  /** A pointer that core 1 held over the whole copy is stored after it: the
      stale pointers are real. */
  lemma StaleAfterCopy(b: Board, core: Core, bus: Bus)
    requires IsCore(b, core) && IsBus(bus) && core.pc.HasBlock() && core.pc.block != 0
    requires core.pc.StoreCart? || core.pc.StoreExt?
    ensures AreSlots(b, Dummies())
    ensures var s := CopyRun(b, Dummies(), Copying(core, 0), seq(SLOTS, _ => Copy) + [Run(bus)]);
      && s.copied == SLOTS
      && (core.pc.StoreCart? ==> s.core.slots[BASIC + 1] != 0)
      && (core.pc.StoreExt? ==> s.core.slots[L1_40] != 0)
  {
    AllCopies(b, Dummies(), core, SLOTS);
    var acts := seq(SLOTS, _ => Copy) + [Run(bus)];
    assert acts[..SLOTS] == seq(SLOTS, _ => Copy);
  }

  // ---- And the restored tables come back ----

  /** What core 1 makes of the tables in src under these register values. */
  function Refresh(src: seq<nat>, portb: byte, newport: byte, select: byte): (t: seq<nat>)
    requires |src| == SLOTS
    ensures |t| == SLOTS
  {
    var t := src[BASIC + 1 := src[CartPick(select)]];
    t[L1_80 := t[BasicPick(portb)]][L1_C0 := src[OsPick(portb, newport)]][L1_40 := src[ExtPick(portb)]]
  }

  /** From any stale values, a read and a write cycle in either order come to the
      same: the refreshed source. */
  lemma EitherOrder(src: seq<nat>, s: seq<nat>, portb: byte, newport: byte, select: byte)
    requires Clean(src, s, SLOTS)
    ensures WriteSlots(ReadSlots(s, portb, newport), portb, select) == Refresh(src, portb, newport, select)
    ensures forall p: byte ::
      ReadSlots(WriteSlots(s, p, select), portb, newport) == Refresh(src, portb, newport, select)
  {
  }

  /** Refreshing depends on src's tables only, and once is enough. */
  lemma RefreshStable(src: seq<nat>, was: seq<nat>, portb: byte, newport: byte, select: byte)
    requires Clean(was, src, SLOTS)
    ensures Refresh(src, portb, newport, select) == Refresh(was, portb, newport, select)
    ensures Refresh(Refresh(src, portb, newport, select), portb, newport, select)
            == Refresh(src, portb, newport, select)
  {
  }

  /** Enabling restores: save the pointers, later copy them back, each copy with
      core 1 running in between; after one read and one write cycle the pointers
      are what core 1 makes of the tables there were before. */
  lemma EnableRestores(b: Board, was: Core, saving: seq<Action>, saved: seq<nat>, core: Core, acts: seq<Action>,
                       tail: seq<Bus>, r: Bus, w: Bus)
    requires IsCore(b, was) && IsCore(b, core) && AreActions(saving) && AreActions(acts) && AreBuses(tail)
    requires saved == SaveRun(b, Saving(was, []), saving).saved && AreSlots(b, saved)
    requires CopyRun(b, saved, Copying(core, 0), acts).copied == SLOTS
    requires AfterCopy(b, saved, core, acts, tail).pc.Top? && IsBus(r) && IsBus(w) && r.isRead && !w.isRead
    ensures var s := AfterCopy(b, saved, core, acts, tail); var read, wrote := Cycle(b, s, r), Cycle(b, s, w);
      && Cycle(b, read, w).slots == Refreshed(b, was.slots, s.mem, SelectAt(b, s, w))
      && Cycle(b, wrote, r).slots == Refreshed(b, was.slots, wrote.mem, SelectAt(b, s, w))
  {
    SaveKeeps(b, was, saving);
    AfterCopyClean(b, saved, core, acts, tail);
    Restored(b, was.slots, saved, AfterCopy(b, saved, core, acts, tail), r, w);
  }

  function Refreshed(b: Board, src: seq<nat>, mem: seq<seq<byte>>, select: byte): seq<nat>
    requires IsBoard(b) && IsMemory(b, mem) && |src| == SLOTS
  {
    Refresh(src, Reg(b, mem, 0x301), Reg(b, mem, 0x1ff), select)
  }

  lemma Restored(b: Board, was: seq<nat>, saved: seq<nat>, s: Core, r: Bus, w: Bus)
    requires IsCore(b, s) && s.pc.Top? && IsBus(r) && IsBus(w) && r.isRead && !w.isRead
    requires Clean(was, saved, SLOTS) && Clean(saved, s.slots, SLOTS)
    ensures Cycle(b, Cycle(b, s, r), w).slots == Refreshed(b, was, s.mem, SelectAt(b, s, w))
    ensures Cycle(b, Cycle(b, s, w), r).slots == Refreshed(b, was, Cycle(b, s, w).mem, SelectAt(b, s, w))
  {
    var select, m := SelectAt(b, s, w), Cycle(b, s, w).mem;
    ReadCycle(b, s, r);
    WriteCycle(b, Cycle(b, s, r), w);
    WriteCycle(b, s, w);
    ReadCycle(b, Cycle(b, s, w), r);
    EitherOrder(was, s.slots, Reg(b, s.mem, 0x301), Reg(b, s.mem, 0x1ff), select);
    EitherOrder(was, s.slots, Reg(b, m, 0x301), Reg(b, m, 0x1ff), select);
  }
}
