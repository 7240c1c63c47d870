/** The MMU pointers that core 1 walks and keeps rewriting, one memory access at a
    time, while core 0 copies all of them one by one to disable or enable the
    bus. */
module BusMmu {
  import opened ByteBits

  // ---- The 74 pointers of an MmuState, in memory order ----
  const L1_40: nat := 1
  const L1_80: nat := 2
  const L1_C0: nat := 3
  const BASIC: nat := 4          // basicEnL1BlockMux[2]
  const OS: nat := 6             // osEnL1BlockMux[4]
  const CART: nat := 10          // cartBanks[32]
  const EXT: nat := 42           // extBanks[32]
  const SLOTS: nat := 74

  const BLOCK_PAGES: nat := 128
  const PAGE: nat := 256
  const PAGE_D5: nat := 0xd5

  /** L1 blocks and pages by number: block 0 is the dummy block, page 0 the dummy
      RAM, and regs the first of the eight pages of d000Write. ctrl is what a
      page drives onto the bus. */
  datatype Board = Board(blocks: seq<seq<nat>>, ctrl: seq<seq<nat>>, pages: nat, regs: nat, dataSelect: bool)

  ghost predicate IsBoard(b: Board) {
    && 0 < |b.blocks| == |b.ctrl| && 0 < b.regs && b.regs + 8 <= b.pages
    && (forall k | 0 <= k < |b.blocks| :: |b.blocks[k]| == BLOCK_PAGES && |b.ctrl[k]| == BLOCK_PAGES)
    && (forall k, p | 0 <= k < |b.blocks| && 0 <= p < BLOCK_PAGES :: b.blocks[k][p] < b.pages)
    && (forall p | 0 <= p < BLOCK_PAGES :: b.blocks[0][p] == 0 && b.ctrl[0][p] == 0)
  }

  ghost predicate AreSlots(b: Board, s: seq<nat>) {
    |s| == SLOTS && forall k | 0 <= k < SLOTS :: s[k] < |b.blocks|
  }

  ghost predicate IsMemory(b: Board, m: seq<seq<byte>>) {
    |m| == b.pages && forall p | 0 <= p < b.pages :: |m[p]| == PAGE
  }

  // ---- What the registers select ----

  function Reg(b: Board, m: seq<seq<byte>>, addr: nat): byte
    requires IsBoard(b) && IsMemory(b, m) && addr < 8 * PAGE
  {
    m[b.regs + addr / PAGE][addr % PAGE]
  }

  function BasicPick(portb: byte): (k: nat)
    ensures BASIC <= k < OS
  {
    BASIC + portb / 2 % 2
  }

  function OsPick(portb: byte, newport: byte): (k: nat)
    ensures OS <= k < CART
  {
    OS + portb % 2 + newport / 2 % 2 * 2
  }

  function ExtPick(portb: byte): (k: nat)
    ensures EXT <= k < SLOTS
  {
    EXT + portb / 4 % 32
  }

  function CartPick(select: byte): (k: nat)
    ensures CART <= k < EXT
  {
    CART + select % 32
  }

  // ---- Core 1, access by access ----

  datatype Pc =
    | Top
    | LoadBasicRd | StoreBasicRd(block: nat) | LoadOs | StoreOs(block: nat) | LoadExt | StoreExt(block: nat)
    | NoteOffset(page: nat, addr: nat)
    | LoadCart(page: nat, addr: nat) | StoreCart(page: nat, addr: nat, block: nat)
    | LoadBasicWr(page: nat, addr: nat) | StoreBasicWr(page: nat, addr: nat, block: nat)
    | Commit(page: nat, addr: nat)
  {
    predicate HasBlock() {
      StoreBasicRd? || StoreOs? || StoreExt? || StoreCart? || StoreBasicWr?
    }

    predicate HasPage() {
      NoteOffset? || LoadCart? || StoreCart? || LoadBasicWr? || StoreBasicWr? || Commit?
    }
  }

  datatype Core = Core(slots: seq<nat>, mem: seq<seq<byte>>, lastD5: byte, pc: Pc)

  /** What the 6502 puts on the bus. */
  datatype Bus = Bus(addr: nat, isRead: bool, data: byte)

  ghost predicate IsBus(bus: Bus) {
    bus.addr < 0x1_0000
  }

  ghost predicate IsPc(b: Board, pc: Pc) {
    (pc.HasBlock() ==> pc.block < |b.blocks|) && (pc.HasPage() ==> pc.page < b.pages && pc.addr < 0x1_0000)
  }

  ghost predicate IsCore(b: Board, s: Core) {
    IsBoard(b) && AreSlots(b, s.slots) && IsMemory(b, s.mem) && IsPc(b, s.pc)
  }

  function PutByte(m: seq<byte>, k: nat, v: byte): (r: seq<byte>)
    requires k < |m|
    ensures |r| == |m| && r == m[k := v]
  {
    m[..k] + [v] + m[k + 1..]
  }

  /** The page table entry of an address. */
  function Entry(bus: Bus): (p: nat)
    ensures p < BLOCK_PAGES
  {
    bus.addr / PAGE % 64 + (if bus.isRead then 64 else 0)
  }

  function Fetched(b: Board, slots: seq<nat>, bus: Bus): (page: nat)
    requires IsBoard(b) && AreSlots(b, slots) && IsBus(bus)
    ensures page < b.pages
  {
    b.blocks[slots[bus.addr / 0x4000]][Entry(bus)]
  }

  function Driven(b: Board, slots: seq<nat>, bus: Bus): nat
    requires IsBoard(b) && AreSlots(b, slots) && IsBus(bus)
  {
    b.ctrl[slots[bus.addr / 0x4000]][Entry(bus)]
  }

  function CartSelect(b: Board, s: Core): byte
    requires IsCore(b, s)
  {
    if b.dataSelect then Reg(b, s.mem, 0x500) else s.lastD5
  }

  function CoreStep(b: Board, s: Core, bus: Bus): (t: Core)
    requires IsCore(b, s) && IsBus(bus)
    ensures IsCore(b, t)
  {
    var portb, newport := Reg(b, s.mem, 0x301), Reg(b, s.mem, 0x1ff);
    match s.pc
    case Top => s.(pc := if bus.isRead then LoadBasicRd else NoteOffset(Fetched(b, s.slots, bus), bus.addr))
    case LoadBasicRd => s.(pc := StoreBasicRd(s.slots[BasicPick(portb)]))
    case StoreBasicRd(x) => s.(slots := s.slots[L1_80 := x], pc := LoadOs)
    case LoadOs => s.(pc := StoreOs(s.slots[OsPick(portb, newport)]))
    case StoreOs(x) => s.(slots := s.slots[L1_C0 := x], pc := LoadExt)
    case LoadExt => s.(pc := StoreExt(s.slots[ExtPick(portb)]))
    case StoreExt(x) => s.(slots := s.slots[L1_40 := x], pc := Top)
    case NoteOffset(page, addr) =>
      s.(lastD5 := if addr / PAGE == PAGE_D5 then addr % PAGE else s.lastD5, pc := LoadCart(page, addr))
    case LoadCart(page, addr) => s.(pc := StoreCart(page, addr, s.slots[CartPick(CartSelect(b, s))]))
    case StoreCart(page, addr, x) => s.(slots := s.slots[BASIC + 1 := x], pc := LoadBasicWr(page, addr))
    case LoadBasicWr(page, addr) => s.(pc := StoreBasicWr(page, addr, s.slots[BasicPick(portb)]))
    case StoreBasicWr(page, addr, x) => s.(slots := s.slots[L1_80 := x], pc := Commit(page, addr))
    case Commit(page, addr) => s.(mem := s.mem[page := PutByte(s.mem[page], addr % PAGE, bus.data)], pc := Top)
  }

  function CoreRun(b: Board, s: Core, buses: seq<Bus>): (t: Core)
    requires IsCore(b, s) && forall i | 0 <= i < |buses| :: IsBus(buses[i])
    ensures IsCore(b, t)
  {
    if buses == [] then s else CoreStep(b, CoreRun(b, s, buses[..|buses| - 1]), buses[|buses| - 1])
  }

  // ---- Once disabled, the bus stays so ----

  ghost predicate AllDummy(slots: seq<nat>) {
    |slots| == SLOTS && forall k | 0 <= k < SLOTS :: slots[k] == 0
  }

  ghost predicate Trapped(s: Core) {
    AllDummy(s.slots) && (s.pc.HasBlock() ==> s.pc.block == 0) && (s.pc.HasPage() ==> s.pc.page == 0)
  }

  lemma TrappedStep(b: Board, s: Core, bus: Bus)
    requires IsCore(b, s) && IsBus(bus) && Trapped(s)
    ensures Trapped(CoreStep(b, s, bus)) && Driven(b, s.slots, bus) == 0 && Fetched(b, s.slots, bus) == 0
    ensures CoreStep(b, s, bus).mem[1..] == s.mem[1..]
  {
  }

  /** With every pointer on the dummy block, whatever the 6502 does changes no
      memory but the dummy RAM, no pointer, and nothing is driven on the bus. */
  lemma {:induction false} DisabledStays(b: Board, s: Core, buses: seq<Bus>)
    requires IsCore(b, s) && AllDummy(s.slots) && s.pc.Top? && forall i | 0 <= i < |buses| :: IsBus(buses[i])
    ensures var t := CoreRun(b, s, buses);
      AllDummy(t.slots) && Trapped(t) && t.mem[1..] == s.mem[1..]
      && forall bus | IsBus(bus) :: Driven(b, t.slots, bus) == 0
  {
    if buses != [] {
      var n := |buses| - 1;
      DisabledStays(b, s, buses[..n]);
      TrappedStep(b, CoreRun(b, s, buses[..n]), buses[n]);
    }
  }

  // ---- The pointer-by-pointer copy, with core 1 running ----

  /** The pointers that core 1 writes. */
  predicate Rewritten(k: nat) {
    k == L1_40 || k == L1_80 || k == L1_C0 || k == BASIC + 1
  }

  /** The first count pointers are src's, but for those core 1 writes. */
  ghost predicate Clean(src: seq<nat>, slots: seq<nat>, count: nat) {
    |src| == |slots| == SLOTS && forall k: nat | k < count && k < SLOTS && !Rewritten(k) :: slots[k] == src[k]
  }

  datatype Action = Copy | Run(bus: Bus)

  ghost predicate AreActions(acts: seq<Action>) {
    forall i | 0 <= i < |acts| && acts[i].Run? :: IsBus(acts[i].bus)
  }

  /** safeCopy of src into the live pointers: copied of them are done. */
  datatype Copying = Copying(core: Core, copied: nat)

  function CopyStep(b: Board, src: seq<nat>, s: Copying, a: Action): (t: Copying)
    requires IsCore(b, s.core) && AreSlots(b, src) && (a.Run? ==> IsBus(a.bus))
    ensures IsCore(b, t.core)
  {
    match a
    case Run(bus) => s.(core := CoreStep(b, s.core, bus))
    case Copy =>
      if s.copied < SLOTS then
        Copying(s.core.(slots := s.core.slots[s.copied := src[s.copied]]), s.copied + 1)
      else s
  }

  function CopyRun(b: Board, src: seq<nat>, s: Copying, acts: seq<Action>): (t: Copying)
    requires IsCore(b, s.core) && AreSlots(b, src) && AreActions(acts)
    ensures IsCore(b, t.core)
  {
    if acts == [] then s else CopyStep(b, src, CopyRun(b, src, s, acts[..|acts| - 1]), acts[|acts| - 1])
  }

  /** However core 1's accesses fall between the copies, only the pointers that
      it rewrites itself can be stale. */
  lemma {:induction false} CopyLeaves(b: Board, src: seq<nat>, core: Core, acts: seq<Action>)
    requires IsCore(b, core) && AreSlots(b, src) && AreActions(acts)
    ensures var t := CopyRun(b, src, Copying(core, 0), acts); Clean(src, t.core.slots, t.copied) && t.copied <= SLOTS
  {
    if acts != [] {
      CopyLeaves(b, src, core, acts[..|acts| - 1]);
    }
  }

  /** So is the copy that is saved: of a state that core 1 keeps rewriting. */
  datatype Saving = Saving(core: Core, saved: seq<nat>)

  function SaveStep(b: Board, s: Saving, a: Action): (t: Saving)
    requires IsCore(b, s.core) && |s.saved| <= SLOTS && (a.Run? ==> IsBus(a.bus))
    ensures IsCore(b, t.core) && |t.saved| <= SLOTS
  {
    match a
    case Run(bus) => s.(core := CoreStep(b, s.core, bus))
    case Copy => if |s.saved| < SLOTS then s.(saved := s.saved + [s.core.slots[|s.saved|]]) else s
  }

  function SaveRun(b: Board, s: Saving, acts: seq<Action>): (t: Saving)
    requires IsCore(b, s.core) && |s.saved| <= SLOTS && AreActions(acts)
    ensures IsCore(b, t.core) && |t.saved| <= SLOTS
  {
    if acts == [] then s else SaveStep(b, SaveRun(b, s, acts[..|acts| - 1]), acts[|acts| - 1])
  }

  ghost predicate SavedOk(b: Board, from: seq<nat>, s: Saving) {
    && |from| == |s.core.slots| == SLOTS && |s.saved| <= SLOTS
    && (forall k: nat | k < SLOTS && !Rewritten(k) :: s.core.slots[k] == from[k])
    && (forall k: nat | k < |s.saved| && !Rewritten(k) :: s.saved[k] == from[k])
    && (forall k: nat | k < |s.saved| :: s.saved[k] < |b.blocks|)
  }

  lemma {:induction false} SaveKeeps(b: Board, core: Core, acts: seq<Action>)
    requires IsCore(b, core) && AreActions(acts)
    ensures SavedOk(b, core.slots, SaveRun(b, Saving(core, []), acts))
  {
    if acts != [] {
      SaveKeeps(b, core, acts[..|acts| - 1]);
    }
  }
}
