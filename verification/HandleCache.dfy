/** The cache of open file handles: the four last used cacheable ones are kept open
    behind the one that is active. */
module HandleCache {
  import opened Options
  import opened Recency
  import opened Sets

  const SIZE: nat := 4
  const ENOENT: int := 2

  /** An opening mode: creating, exclusive and truncating ones are not cached. */
  datatype Mode = Mode(flags: nat, creates: bool, exclusive: bool, truncates: bool)

  predicate Cacheable(mode: Mode) {
    !mode.creates && !mode.exclusive && !mode.truncates
  }

  datatype File = File(path: string, mode: Mode)

  /** Handle 0 is none. */
  datatype Slot = Slot(file: File, handle: nat)

  predicate Holds(slot: Slot, file: File) {
    slot.handle != 0 && slot.file == file
  }

  const EMPTY: Slot := Slot(File("", Mode(0, false, false, false)), 0)

  /** What a backend answers to an open, by the handles in use: a new one, or 0. */
  type Answers = (File, set<nat>) -> nat

  ghost predicate AreNew(answers: Answers) {
    forall f, used :: answers(f, used) != 0 ==> answers(f, used) !in used
  }

  class Backend {
    /** The handles now open, and what each was opened for. */
    var live: map<nat, File>

    constructor ()
      ensures live == map[]
    {
      live := map[];
    }

    method OpenHandle(file: File, answers: Answers) returns (handle: nat)
      requires AreNew(answers)
      modifies this
      ensures handle == answers(file, old(live).Keys) && (handle != 0 ==> handle !in old(live))
      ensures live == if handle == 0 then old(live) else old(live)[handle := file]
    {
      handle := answers(file, live.Keys);
      if handle != 0 {
        live := live[handle := file];
      }
    }

    /** Only what is open may be closed. */
    method CloseHandle(handle: nat)
      requires handle in live
      modifies this
      ensures live == old(live) - {handle}
    {
      live := live - {handle};
    }
  }

  function Handles(cache: seq<Slot>): (hs: set<nat>) {
    set i | 0 <= i < |cache| && cache[i].handle != 0 :: cache[i].handle
  }

  /** Each cached handle is open, for its file; no handle and no file comes twice. */
  ghost predicate CacheOk(cache: seq<Slot>, live: map<nat, File>) {
    && (forall i | 0 <= i < |cache| && cache[i].handle != 0 ::
          cache[i].handle in live && live[cache[i].handle] == cache[i].file && Cacheable(cache[i].file.mode))
    && (forall i, j | 0 <= i < j < |cache| && cache[i].handle != 0 && cache[j].handle != 0 ::
          cache[i].file != cache[j].file)
  }

  /** Where the file is cached, or SIZE. */
  function Find(cache: seq<Slot>, file: File): (i: nat)
    ensures i <= |cache| && (i < |cache| ==> Holds(cache[i], file)) && forall k | 0 <= k < i :: !Holds(cache[k], file)
  {
    if cache == [] || Holds(cache[0], file) then 0 else Find(cache[1..], file) + 1
  }

  /** The slot is in front, those before place i have moved back by one, and those behind
      it are where they were. */
  predicate MovedUp(was: seq<Slot>, now: seq<Slot>, i: nat, slot: Slot) {
    && |was| == |now| == 4 && i < 4 && now[0] == slot
    && (forall k | 1 <= k <= i :: now[k] == was[k - 1]) && forall k | i < k < 4 :: now[k] == was[k]
  }

  lemma FrontMeans(was: seq<Slot>, i: nat, slot: Slot)
    requires |was| == SIZE && i < SIZE
    ensures MovedUp(was, ToFront(was, i, slot), i, slot)
  {
  }

  /** A slot with this file, and an open handle. */
  predicate Cached(cache: seq<Slot>, file: File) {
    exists k | 0 <= k < |cache| :: cache[k].handle != 0 && cache[k].file == file
  }

  lemma HitOk(cache: seq<Slot>, live: map<nat, File>, i: nat)
    requires CacheOk(cache, live) && i < |cache| == SIZE
    ensures CacheOk(ToFront(cache, i, cache[i]), live) && Handles(ToFront(cache, i, cache[i])) == Handles(cache)
  {
    var c, a, b := ToFront(cache, i, cache[i]), cache[0], cache[1];
    HandlesOf(c);
    HandlesOf(cache);
    if i == 0 {
      assert c == cache;
    } else if i == 1 {
      assert c == [b, a, cache[2], cache[3]];
    } else if i == 2 {
      assert c == [cache[2], a, b, cache[3]];
    } else {
      assert c == [cache[3], a, b, cache[2]];
    }
  }

  /** A new handle in front; the last slot is given up, and its handle closed. */
  lemma MissOk(cache: seq<Slot>, live: map<nat, File>, slot: Slot)
    requires CacheOk(cache, live) && |cache| == SIZE && Find(cache, slot.file) == SIZE
    requires slot.handle != 0 && slot.handle in live && live[slot.handle] == slot.file && Cacheable(slot.file.mode)
    ensures var last, c := cache[SIZE - 1].handle, ToFront(cache, SIZE - 1, slot);
      && (last != 0 ==> last in live && last != slot.handle)
      && CacheOk(c, live - {last}) && Handles(c) == Handles(cache) - {last} + {slot.handle}
  {
    var c := ToFront(cache, SIZE - 1, slot);
    assert c == [slot, cache[0], cache[1], cache[2]];
    assert !Holds(cache[0], slot.file) && !Holds(cache[1], slot.file) && !Holds(cache[2], slot.file);
    assert !Holds(cache[3], slot.file);
    assert Handles(c) == Handles(cache) - {cache[3].handle} + {slot.handle} by {
      HandlesOf(c);
      HandlesOf(cache);
    }
  }

  lemma HandlesOf(c: seq<Slot>)
    requires |c| == SIZE
    ensures Handles(c) == {c[0].handle, c[1].handle, c[2].handle, c[3].handle} - {0}
  {
    assert forall h | h in {c[0].handle, c[1].handle, c[2].handle, c[3].handle} - {0} :: h in Handles(c);
  }

  class CachedStorage {
    const backend: Backend
    const cache: array<Slot>
    var activeHandle: nat
    var active: bool
    var activeCached: bool

    constructor (backend: Backend)
      requires backend.live == map[]
      ensures Valid() && this.backend == backend && Opened() == None && fresh(cache)
    {
      this.backend, activeHandle, active, activeCached := backend, 0, false, false;
      cache := new Slot[SIZE](_ => EMPTY);
    }

    ghost predicate Valid()
      reads this, cache, backend
    {
      && cache.Length == SIZE && CacheOk(cache[..], backend.live) && 0 !in backend.live
      && (active ==> activeHandle in backend.live)
      && (active && activeCached ==> activeHandle in Handles(cache[..]))
      && (active && !activeCached ==> activeHandle !in Handles(cache[..]))
      && backend.live.Keys == Handles(cache[..]) + if active && !activeCached then {activeHandle} else {}
    }

    /** What transfers go to: without a cache, the file last opened and not closed. */
    ghost function Opened(): Option<File>
      reads this, backend
    {
      if active && activeHandle in backend.live then Some(backend.live[activeHandle]) else None
    }

    method Close()
      requires Valid()
      modifies `activeHandle, `active, `activeCached, backend
      ensures Valid() && Opened() == None && !active
      ensures backend.live == map h | h in old(backend.live) && h in Handles(cache[..]) :: old(backend.live)[h]
    {
      if active && !activeCached {
        backend.CloseHandle(activeHandle);
      }
      activeHandle, active, activeCached := 0, false, false;
    }

    /** A cached file is found open, without asking the backend, and moves to the front;
        another one is opened at the backend, and if it can be cached takes the place of
        the one used longest ago, which is closed. */
    method Open(file: File, answers: Answers) returns (r: int)
      requires Valid() && AreNew(answers)
      modifies this, cache, backend
      ensures Valid() && r in {0, 0 - ENOENT}
      ensures var was, now := old(cache[..]), cache[..];
        var hit, answer := Cacheable(file.mode) && Cached(was, file), answers(file, Handles(was));
        && (r == 0 <==> hit || answer != 0)
        && (hit ==>
              && (exists k | 0 <= k < 4 :: was[k].file == file && was[k].handle != 0 && MovedUp(was, now, k, was[k]))
              && backend.live.Keys == Handles(was))
        && (!hit && r == 0 && Cacheable(file.mode) ==>
              MovedUp(was, now, 3, Slot(file, answer))
              && backend.live.Keys == Handles(was) - {was[3].handle} + {answer})
        && (!hit && r == 0 && !Cacheable(file.mode) ==> now == was && backend.live.Keys == Handles(was) + {answer})
        && (r != 0 ==> now == was && backend.live.Keys == Handles(was))
      ensures Opened() == if r == 0 then Some(file) else None
    {
      Close();
      if Cacheable(file.mode) {
        var i := Lookup(file);
        if i < SIZE {
          TakeCached(i);
          return 0;
        }
      }
      assert backend.live.Keys == Handles(cache[..]);
      var answer := backend.OpenHandle(file, answers);
      if answer == 0 {
        return 0 - ENOENT;
      }
      activeHandle, active, activeCached := answer, true, Cacheable(file.mode);
      if activeCached {
        KeepOpen(file, answer);
      }
      r := 0;
    }

    method Lookup(file: File) returns (i: nat)
      requires cache.Length == SIZE
      ensures i == Find(cache[..], file)
    {
      i := 0;
      assert cache[0..] == cache[..];
      while i < SIZE && !Holds(cache[i], file)
        invariant 0 <= i <= SIZE && Find(cache[..], file) == i + Find(cache[i..], file)
      {
        assert cache[i..][1..] == cache[i + 1..];
        i := i + 1;
      }
    }

    method Shift(i: nat, slot: Slot)
      requires i < cache.Length
      modifies cache
      ensures cache[..] == ToFront(old(cache[..]), i, slot)
    {
      var j := i;
      while j > 0
        invariant 0 <= j <= i
        invariant forall k | 0 <= k < cache.Length && !(j < k <= i) :: cache[k] == old(cache[k])
        invariant forall k | j < k <= i :: cache[k] == old(cache[k - 1])
      {
        cache[j] := cache[j - 1];
        j := j - 1;
      }
      cache[0] := slot;
    }

    method TakeCached(i: nat)
      requires Valid() && !active && i < SIZE && cache[i].handle != 0
      modifies `activeHandle, `active, `activeCached, cache
      ensures Valid() && MovedUp(old(cache[..]), cache[..], i, old(cache[i]))
      ensures backend.live.Keys == Handles(old(cache[..])) && Opened() == Some(old(cache[i]).file)
    {
      ghost var was := cache[..];
      HitOk(was, backend.live, i);
      FrontMeans(was, i, was[i]);
      var hit := cache[i];
      Shift(i, hit);
      activeHandle, active, activeCached := hit.handle, true, true;
    }

    /** The new handle goes to the front, the last one is closed. */
    method KeepOpen(file: File, handle: nat)
      requires cache.Length == SIZE && CacheOk(cache[..], backend.live) && 0 !in backend.live
      requires handle != 0 && handle in backend.live && backend.live[handle] == file && Cacheable(file.mode)
      requires active && activeCached && activeHandle == handle && handle !in Handles(cache[..])
      requires backend.live.Keys == Handles(cache[..]) + {handle} && Find(cache[..], file) == SIZE
      modifies cache, backend
      ensures Valid() && MovedUp(old(cache[..]), cache[..], 3, Slot(file, handle)) && Opened() == Some(file)
      ensures backend.live.Keys == Handles(old(cache[..])) - {old(cache[3]).handle} + {handle}
    {
      MissOk(cache[..], backend.live, Slot(file, handle));
      FrontMeans(cache[..], SIZE - 1, Slot(file, handle));
      HandlesOf(cache[..]);
      if cache[SIZE - 1].handle != 0 {
        backend.CloseHandle(cache[SIZE - 1].handle);
      } else {
        assert backend.live - {0} == backend.live;
      }
      Shift(SIZE - 1, Slot(file, handle));
    }

    /** pread() and pwrite(): the handle they use. */
    method Transfer() returns (handle: Option<nat>)
      requires Valid()
      ensures handle.Some? <==> Opened().Some?
      ensures handle.Some? ==> handle.value in backend.live && Opened() == Some(backend.live[handle.value])
    {
      handle := if active then Some(activeHandle) else None;
    }

    /** Every handle is closed, once. */
    method CloseAll()
      requires Valid()
      modifies this, cache, backend
      ensures Valid() && Opened() == None && backend.live == map[]
    {
      Close();
      for i := 0 to SIZE
        invariant Valid() && !active && forall k | 0 <= k < i :: cache[k].handle == 0
      {
        ghost var was := cache[..];
        HandlesOf(was);
        if cache[i].handle != 0 {
          DropOk(was, backend.live, i);
          backend.CloseHandle(cache[i].handle);
        }
        cache[i] := EMPTY;
        assert cache[..] == was[i := EMPTY];
        HandlesOf(cache[..]);
      }
      HandlesOf(cache[..]);
      assert backend.live.Keys == {};
    }

    /** Any sequence of calls: every transfer goes to the file that was last opened
        and not closed since, by a handle that is open for it. */
    method Run(ops: seq<Op>, answers: Answers) returns (events: seq<Event>)
      requires Valid() && AreNew(answers)
      modifies this, cache, backend
      ensures Valid() && AreEvents(ops, events, |ops|)
      ensures forall n | 0 <= n < |ops| && ops[n].Transfer? ::
        events[n] == Moved(LastOpened(old(Opened()), ops, events, n))
    {
      events := [];
      ghost var start := Opened();
      for n := 0 to |ops|
        invariant Valid() && AreEvents(ops, events, n) && Opened() == LastOpened(start, ops, events, n)
        invariant forall k | 0 <= k < n && ops[k].Transfer? :: events[k] == Moved(LastOpened(start, ops, events, k))
      {
        var event := Step(ops[n], answers);
        forall k | 0 <= k <= n
          ensures LastOpened(start, ops, events + [event], k) == LastOpened(start, ops, events, k)
        {
          LastOpenedPrefix(start, ops, events, event, k);
        }
        events := events + [event];
      }
    }

    method Step(op: Op, answers: Answers) returns (event: Event)
      requires Valid() && AreNew(answers)
      modifies this, cache, backend
      ensures Valid() && IsEvent(op, event) && Opened() == Next(old(Opened()), op, event)
      ensures op.Transfer? ==> event == Moved(old(Opened()))
    {
      match op
      case Open(file) =>
        var r := Open(file, answers);
        event := Answered(r == 0);
      case Transfer =>
        var handle := Transfer();
        event := Moved(if handle.None? then None else Some(backend.live[handle.value]));
      case Close =>
        Close();
        event := Closed;
      case CloseAll =>
        CloseAll();
        event := Closed;
    }
  }

  // ---- Without a cache ----

  datatype Op = Open(file: File) | Transfer | Close | CloseAll

  datatype Event = Answered(ok: bool) | Moved(to: Option<File>) | Closed

  predicate IsEvent(op: Op, event: Event) {
    match op
    case Open(_) => event.Answered?
    case Transfer => event.Moved?
    case _ => event.Closed?
  }

  predicate AreEvents(ops: seq<Op>, events: seq<Event>, n: nat)
    requires n <= |ops|
  {
    |events| == n && forall k | 0 <= k < n :: IsEvent(ops[k], events[k])
  }

  function Next(target: Option<File>, op: Op, event: Event): Option<File>
    requires IsEvent(op, event)
  {
    match op
    case Open(file) => if event.ok then Some(file) else None
    case Transfer => target
    case _ => None
  }

  function LastOpened(start: Option<File>, ops: seq<Op>, events: seq<Event>, n: nat): Option<File>
    requires n <= |ops| && n <= |events| && forall k | 0 <= k < n :: IsEvent(ops[k], events[k])
  {
    if n == 0 then start else Next(LastOpened(start, ops, events, n - 1), ops[n - 1], events[n - 1])
  }

  lemma {:induction false} LastOpenedPrefix(start: Option<File>, ops: seq<Op>, events: seq<Event>, more: Event, n: nat)
    requires n <= |ops| && n <= |events| && forall k | 0 <= k < n :: IsEvent(ops[k], events[k])
    ensures LastOpened(start, ops, events + [more], n) == LastOpened(start, ops, events, n)
  {
    if n > 0 {
      LastOpenedPrefix(start, ops, events, more, n - 1);
    }
  }

  lemma DropOk(cache: seq<Slot>, live: map<nat, File>, i: nat)
    requires CacheOk(cache, live) && i < |cache| == SIZE && cache[i].handle != 0
    ensures CacheOk(cache[i := EMPTY], live - {cache[i].handle})
    ensures cache[i].handle !in Handles(cache[i := EMPTY])
  {
    forall k | 0 <= k < SIZE && k != i && cache[k].handle != 0 ensures cache[k].handle != cache[i].handle {
      assert if k < i then cache[k].file != cache[i].file else cache[i].file != cache[k].file;
    }
  }

  /** No more than four handles and an uncached one are open. */
  lemma FewOpen(s: CachedStorage)
    requires s.Valid()
    ensures |s.backend.live| <= SIZE + 1
  {
    var c := s.cache[..];
    HandlesOf(c);
    SubsetCount(s.backend.live.Keys, {c[0].handle, c[1].handle, c[2].handle, c[3].handle, s.activeHandle});
    FiveAtMost(c[0].handle, c[1].handle, c[2].handle, c[3].handle, s.activeHandle);
  }

  lemma FiveAtMost(a: nat, b: nat, c: nat, d: nat, e: nat)
    ensures |{a, b, c, d, e}| <= 5
  {
    assert {a, b, c, d, e} == {a} + {b} + {c} + {d} + {e};
  }
}
