/** The two cores' code on the MMU pointers: core 1's cycle, and core 0's
    disableBus and enableBus, each run undisturbed. */
module BusCores {
  import opened ByteBits
  import opened BusMmu
  import opened BusSettle

  class BusCores {
    const board: Board
    const mmuState: array<nat>
    const mmuStateSaved: array<nat>
    const mmuStateDisabled: array<nat>
    var mem: seq<seq<byte>>
    var lastD5: byte
    var savedD5: byte

    ghost predicate Valid()
      reads this, mmuState, mmuStateSaved, mmuStateDisabled
    {
      && IsBoard(board) && IsMemory(board, mem)
      && AreSlots(board, mmuState[..]) && AreSlots(board, mmuStateSaved[..])
      && AllDummy(mmuStateDisabled[..])
      && mmuState != mmuStateSaved && mmuState != mmuStateDisabled && mmuStateSaved != mmuStateDisabled
    }

    /** Between two cycles. */
    ghost function Abs(): Core
      reads this, mmuState
    {
      Core(mmuState[..], mem, lastD5, Top)
    }

    constructor (board: Board, slots: seq<nat>, mem: seq<seq<byte>>)
      requires IsBoard(board) && AreSlots(board, slots) && IsMemory(board, mem)
      ensures Valid() && this.board == board && Abs() == Core(slots, mem, 0, Top)
      ensures fresh(mmuState) && fresh(mmuStateSaved) && fresh(mmuStateDisabled)
    {
      this.board, this.mem, lastD5, savedD5 := board, mem, 0, 0;
      mmuState := new nat[SLOTS](i requires 0 <= i < |slots| => slots[i]);
      mmuStateSaved := new nat[SLOTS](i requires 0 <= i < |slots| => slots[i]);
      mmuStateDisabled := new nat[SLOTS](_ => 0);
      new;
      assert mmuState[..] == slots && mmuStateSaved[..] == slots;
    }

    /** One turn of core 1's loop. */
    method BusCycle(bus: Bus) returns (data: byte)
      requires Valid() && IsBus(bus)
      modifies `mem, `lastD5, mmuState
      ensures Valid() && IsCore(board, old(Abs()))
      ensures Abs() == Cycle(board, old(Abs()), bus) && IsTurn(board, old(Abs()), bus, Abs())
      ensures bus.isRead ==>
        var block := board.blocks[old(mmuState[bus.addr / 0x4000])];
        data == old(mem)[block[64 + bus.addr / 256 % 64]][bus.addr % 256]
    {
      TurnIs(board, Abs(), bus);
      var page := board.blocks[mmuState[bus.addr / 0x4000]][Entry(bus)];
      if bus.isRead {
        data := mem[page][bus.addr % PAGE];
        ReadHalf(bus);
      } else {
        data := bus.data;
        WriteHalf(bus, page);
      }
    }

    method ReadHalf(bus: Bus)
      requires Valid() && IsBus(bus) && bus.isRead
      modifies mmuState
      ensures Valid() && IsCore(board, old(Abs())) && Abs() == Cycle(board, old(Abs()), bus)
    {
      ReadCycle(board, Abs(), bus);
      RefreshBlocks(Reg(board, mem, 0x301), Reg(board, mem, 0x1ff));
    }

    method WriteHalf(bus: Bus, page: nat)
      requires Valid() && IsBus(bus) && !bus.isRead && page == Fetched(board, mmuState[..], bus)
      modifies `mem, `lastD5, mmuState
      ensures Valid() && IsCore(board, old(Abs())) && Abs() == Cycle(board, old(Abs()), bus)
    {
      WriteCycle(board, Abs(), bus);
      if bus.addr / PAGE == PAGE_D5 {
        lastD5 := bus.addr % PAGE;
      }
      SelectCart(Reg(board, mem, 0x301), if board.dataSelect then Reg(board, mem, 0x500) else lastD5);
      mem := mem[page := PutByte(mem[page], bus.addr % PAGE, bus.data)];
    }

    method RefreshBlocks(portb: byte, newport: byte)
      requires mmuState.Length == SLOTS
      modifies mmuState
      ensures mmuState[..] == ReadSlots(old(mmuState[..]), portb, newport)
    {
      mmuState[L1_80] := mmuState[BasicPick(portb)];
      mmuState[L1_C0] := mmuState[OsPick(portb, newport)];
      mmuState[L1_40] := mmuState[ExtPick(portb)];
    }

    method SelectCart(portb: byte, select: byte)
      requires mmuState.Length == SLOTS
      modifies mmuState
      ensures mmuState[..] == WriteSlots(old(mmuState[..]), portb, select)
    {
      mmuState[BASIC + 1] := mmuState[CartPick(select)];
      mmuState[L1_80] := mmuState[BasicPick(portb)];
    }

    method SafeCopy(dest: array<nat>, src: array<nat>)
      requires dest.Length == src.Length && dest != src
      modifies dest
      ensures dest[..] == src[..]
    {
      var i := 0;
      while i != dest.Length
        invariant 0 <= i <= dest.Length
        invariant dest[..i] == src[..i]
      {
        dest[i] := src[i];
        i := i + 1;
      }
      assert dest[..i] == dest[..] && src[..i] == src[..];
    }

    method DisableBus()
      requires Valid()
      modifies `savedD5, mmuState, mmuStateSaved
      ensures Valid() && AllDummy(mmuState[..])
      ensures mmuStateSaved[..] == old(mmuState[..]) && savedD5 == lastD5
    {
      SafeCopy(mmuStateSaved, mmuState);
      SafeCopy(mmuState, mmuStateDisabled);
      savedD5 := lastD5;
    }

    method EnableBus()
      requires Valid()
      modifies `lastD5, mmuState
      ensures Valid() && mmuState[..] == mmuStateSaved[..] && lastD5 == savedD5
    {
      lastD5 := savedD5;
      SafeCopy(mmuState, mmuStateSaved);
    }

    /** Disabled, run through any cycles, and enabled again: pointers, cartridge
        select and all memory but the dummy RAM are as before. */
    method Suspended(buses: seq<Bus>)
      requires Valid() && AreBuses(buses)
      modifies `mem, `lastD5, `savedD5, mmuState, mmuStateSaved
      ensures Valid() && Abs().(mem := []) == old(Abs()).(mem := []) && mem[1..] == old(mem)[1..]
    {
      DisableBus();
      for i := 0 to |buses|
        invariant Valid() && AllDummy(mmuState[..]) && mem[1..] == old(mem)[1..]
        invariant mmuStateSaved[..] == old(mmuState[..]) && savedD5 == old(lastD5)
      {
        DummyCycle(board, Abs(), buses[i]);
        var _ := BusCycle(buses[i]);
      }
      EnableBus();
    }
  }

  lemma DummyCycle(b: Board, s: Core, bus: Bus)
    requires IsCore(b, s) && s.pc.Top? && AllDummy(s.slots) && IsBus(bus)
    ensures var t := Cycle(b, s, bus); AllDummy(t.slots) && t.pc.Top? && t.mem[1..] == s.mem[1..]
  {
    if bus.isRead {
      ReadCycle(b, s, bus);
    } else {
      WriteCycle(b, s, bus);
    }
  }
}
