/** The pool of 16K banks: a bank in PSRAM is swapped with the least recently
    used one in SRAM, over a spare PSRAM buffer, before it is handed out. */
module ExtBank {
  import opened ByteBits
  import opened Recency
  import opened BankLayout

  const BANK: nat := 0x4000

  method MemCpy(dst: array<byte>, src: array<byte>)
    requires dst.Length == src.Length && dst != src
    modifies dst
    ensures dst[..] == src[..]
  {
    var n := 0;
    while n < dst.Length
      invariant 0 <= n <= dst.Length
      invariant dst[..n] == src[..n]
    {
      dst[n] := src[n];
      n := n + 1;
    }
    assert dst[..n] == dst[..] && src[..n] == src[..];
  }

  /** Entry i goes to the front as b; those before it move one down. */
  method MoveToFront(recency: array<nat>, count: nat, i: nat, b: nat)
    requires i < count <= recency.Length
    modifies recency
    ensures recency[..count] == ToFront(old(recency[..count]), i, b)
  {
    var j := i;
    while j > 0
      invariant 0 <= j <= i
      invariant forall k | 0 <= k < recency.Length && !(j < k <= i) :: recency[k] == old(recency[k])
      invariant forall k | j < k <= i :: recency[k] == old(recency[k - 1])
    {
      recency[j] := recency[j - 1];
      j := j - 1;
    }
    recency[0] := b;
  }

  /** Banks and spare are the allocated buffers, each held once. */
  ghost predicate Held(banks: seq<array<byte>>, spare: array?<byte>, buffers: set<array<byte>>) {
    && (forall i | 0 <= i < |banks| :: banks[i] in buffers && banks[i].Length == BANK)
    && (forall i, j | 0 <= i < j < |banks| :: banks[i] != banks[j])
    && spare !in banks && (spare != null ==> spare in buffers && spare.Length == BANK)
    && (forall x | x in buffers :: x == spare || x in banks)
  }

  /** The recency list holds exactly the banks in SRAM, each once. */
  ghost predicate Resident(banks: seq<array<byte>>, internal: set<array<byte>>, recent: seq<nat>) {
    && Distinct(recent) && (forall k | 0 <= k < |recent| :: recent[k] < |banks|)
    && (forall i: nat | i < |banks| :: banks[i] in internal <==> i in recent)
  }

  /** The exchange of three buffers: b's bank, the evicted bank and the spare. */
  lemma Exchanged(was: seq<array<byte>>, now: seq<array<byte>>, spare: array<byte>, buffers: set<array<byte>>,
                  b: nat, evict: nat)
    requires Held(was, spare, buffers) && b < |was| && evict < |was| && b != evict
    requires now == was[b := was[evict]][evict := spare]
    ensures Held(now, was[b], buffers)
  {
    forall x | x in buffers ensures x == was[b] || x in now {
      if x == spare {
        assert now[evict] == x;
      } else {
        var i :| 0 <= i < |was| && was[i] == x;
        assert i == evict ==> now[b] == x;
        assert i != evict && i != b ==> now[i] == x;
      }
    }
  }

  lemma LoadedResident(was: seq<array<byte>>, now: seq<array<byte>>, spare: array<byte>,
                       internal: set<array<byte>>, recent: seq<nat>, b: nat, evict: nat)
    requires Resident(was, internal, recent) && b < |was| && was[b] !in internal && spare !in internal
    requires |recent| > 0 && evict == recent[|recent| - 1]
    requires now == was[b := was[evict]][evict := spare]
    ensures Resident(now, internal, Touched(recent, b)) && now[b] in internal
  {
    assert evict in recent;
    forall i: nat | i < |now| ensures now[i] in internal <==> i in Touched(recent, b) {
      TouchedSet(recent, b, i);
    }
    InRange(recent, b, |was|);
  }

  lemma TouchedResident(banks: seq<array<byte>>, internal: set<array<byte>>, recent: seq<nat>, b: nat)
    requires Resident(banks, internal, recent) && |recent| > 0 && b in recent
    ensures Resident(banks, internal, Touched(recent, b))
  {
    forall i: nat | i < |banks| ensures banks[i] in internal <==> i in Touched(recent, b) {
      TouchedSet(recent, b, i);
    }
    InRange(recent, b, |banks|);
  }

  lemma InRange(r: seq<nat>, b: nat, n: nat)
    requires |r| > 0 && Distinct(r) && b < n && forall k | 0 <= k < |r| :: r[k] < n
    ensures Distinct(Touched(r, b)) && forall k | 0 <= k < |r| :: Touched(r, b)[k] < n
  {
    TouchedSet(r, b, b);
    forall k | 0 <= k < |r| ensures Touched(r, b)[k] < n {
      TouchedSet(r, b, Touched(r, b)[k]);
    }
  }

  function FirstBanks(sram: nat): (r: seq<nat>)
    ensures Distinct(r) && |r| == sram
  {
    seq(sram, i => i)
  }

  function Zeros(): seq<byte> {
    seq(BANK, _ => 0)
  }

  method AllocBanks(n: nat, sram: nat) returns (banks: array<array<byte>>, internal: set<array<byte>>)
    requires sram <= n
    ensures fresh(banks) && banks.Length == n
    ensures forall i | 0 <= i < n :: fresh(banks[i]) && banks[i][..] == Zeros()
    ensures forall i, j | 0 <= i < j < n :: banks[i] != banks[j]
    ensures forall i | 0 <= i < n :: banks[i] in internal <==> i < sram
    ensures forall x | x in internal :: x in banks[..]
  {
    var filler := new byte[0];
    banks := new array<byte>[n](_ => filler);
    internal := {};
    for i := 0 to n
      invariant forall k | 0 <= k < i :: fresh(banks[k]) && banks[k][..] == Zeros()
      invariant forall j, k | 0 <= j < k < i :: banks[j] != banks[k]
      invariant forall k | 0 <= k < i :: banks[k] in internal <==> k < sram
      invariant forall x | x in internal :: x in banks[..i]
    {
      label Before:
      var mem := new byte[BANK](_ => 0);
      assert forall k | 0 <= k < i :: banks[k] != mem;
      banks[i] := mem;
      assert banks[..i + 1] == old@Before(banks[..i]) + [mem];
      if i < sram {
        internal := internal + {mem};
      }
    }
    assert banks[..n] == banks[..];
  }

  ghost function AllOf(banks: seq<array<byte>>, spare: array?<byte>): (buffers: set<array<byte>>)
    ensures forall i | 0 <= i < |banks| :: banks[i] in buffers
    ensures spare != null ==> spare in buffers
    ensures forall x | x in buffers :: x == spare || x in banks
  {
    (set b | b in banks) + (if spare == null then {} else {spare})
  }

  lemma FreshResident(banks: seq<array<byte>>, internal: set<array<byte>>, sram: nat)
    requires sram <= |banks| && forall i | 0 <= i < |banks| :: banks[i] in internal <==> i < sram
    ensures Resident(banks, internal, FirstBanks(sram))
  {
    forall i: nat | i < |banks| ensures banks[i] in internal <==> i in FirstBanks(sram) {
      assert i < sram ==> FirstBanks(sram)[i] == i;
    }
  }

  /** With a place in SRAM for every mapped bank, all of them are in after the
      patterns have been exercised once, ... */
  lemma MappedFit(sram: nat, premap: seq<int>, p: nat)
    requires sram > 0 && p < |premap| && premap[p] >= 0 && |Used(MappedBanks(premap))| <= sram
    ensures premap[p] in TouchedAll(FirstBanks(sram), MappedBanks(premap))
  {
    MappedMember(premap, premap[p]);
    UsedIsIn(FirstBanks(sram), MappedBanks(premap), premap[p]);
  }

  ghost predicate MappedIn(premap: seq<int>, recent: seq<nat>) {
    forall p | 0 <= p < |premap| && premap[p] >= 0 :: premap[p] in recent
  }

  /** ... and no further use evicts any. */
  lemma FitStay(recent: seq<nat>, premap: seq<int>, p: nat)
    requires |recent| > 0 && Distinct(recent) && p < |premap| && premap[p] >= 0 && MappedIn(premap, recent)
    ensures MappedIn(premap, Touched(recent, premap[p]))
  {
    forall q | 0 <= q < |premap| && premap[q] >= 0 ensures premap[q] in Touched(recent, premap[p]) {
      TouchedSet(recent, premap[p], premap[q]);
    }
  }

  class ExtBankPool {
    const banks: array<array<byte>>
    const premap: array<int>
    /** The first sramBanks entries are in use. */
    const recency: array<nat>
    const sramBanks: nat
    /** The buffers above the cutoff address: those in SRAM. */
    const internal: set<array<byte>>
    /** All the buffers allocated. */
    ghost const buffers: set<array<byte>>
    var spare: array?<byte>
    var evictCount: nat
    var swapCount: nat

    /** n zeroed buffers, the first sram of them in SRAM. */
    constructor (n: nat, sram: nat, config: Config)
      requires 0 < n && sram <= n && Banks(config) <= n && (config != None ==> sram > 0)
      ensures Valid() && fresh(banks) && fresh(premap) && fresh(recency) && fresh(buffers)
      ensures banks.Length == n && sramBanks == sram && evictCount == 0
      ensures forall p: nat | p < PATTERNS :: premap[p] == Layout(config, p)
      ensures forall b | 0 <= b < n :: banks[b][..] == Zeros()
      ensures Recent() == FirstBanks(sram)
    {
      var bank, inside := AllocBanks(n, sram);
      var order := new nat[n](i => i);
      var patterns := new int[PATTERNS];
      var free: array?<byte> := null;
      if n > sram {
        free := new byte[BANK](_ => 0);
      }
      MapConfig(patterns, config);
      banks, internal, recency, premap, sramBanks, spare := bank, inside, order, patterns, sram, free;
      buffers := AllOf(bank[..], free);
      evictCount, swapCount := 0, 0;
      FreshResident(bank[..], inside, sram);
      assert order[..sram] == FirstBanks(sram);
      assert Held(bank[..], free, AllOf(bank[..], free));
    }

    /** All banks zero, and all patterns exercised once to load the mapped banks. */
    static method Init(n: int, sram: int, config: Config) returns (pool: ExtBankPool?)
      requires n > 0 ==> Banks(config) <= n && (config != None ==> sram != 0)
      ensures pool == null <==> n <= 0 || sram < 0 || sram > n
      ensures pool != null ==>
        && fresh(pool) && fresh(pool.banks) && fresh(pool.premap) && fresh(pool.recency) && fresh(pool.buffers)
        && pool.Valid() && pool.banks.Length == n && pool.sramBanks == sram && pool.evictCount == 0
        && (forall p: nat | p < PATTERNS :: pool.premap[p] == Layout(config, p)) && Maps(config, pool.premap[..])
        && (forall b | 0 <= b < n :: pool.Contents()[b] == Zeros())
        && (sram > 0 ==> pool.Recent() == TouchedAll(FirstBanks(sram), MappedBanks(pool.premap[..])))
    {
      if n <= 0 || sram < 0 || sram > n {
        return null;
      }
      pool := new ExtBankPool(n, sram, config);
      LayoutMeans(config, pool.premap[..]);
      pool.Exercise();
      pool.evictCount := 0;
    }

    /** Every pattern once, in order. */
    method Exercise()
      requires Valid()
      modifies `spare, `evictCount, `swapCount, banks, recency, buffers
      ensures Valid() && Contents() == old(Contents())
      ensures sramBanks > 0 ==> Recent() == TouchedAll(old(Recent()), MappedBanks(premap[..]))
    {
      for i := 0 to PATTERNS
        invariant Valid() && Contents() == old(Contents())
        invariant sramBanks > 0 ==> Recent() == TouchedAll(old(Recent()), MappedBanks(premap[..i]))
      {
        MappedMore(premap[..], i);
        assert premap[..][..i] == premap[..i] && premap[..][..i + 1] == premap[..i + 1];
        if premap[i] >= 0 {
          TouchedOne(old(Recent()), MappedBanks(premap[..i]), premap[i]);
        }
        var _ := GetBank(i);
      }
      assert premap[..PATTERNS] == premap[..];
    }

    /** The banks in SRAM, most recently used first. */
    ghost function Recent(): (r: seq<nat>)
      requires sramBanks <= recency.Length
      reads recency
      ensures |r| == sramBanks
    {
      recency[..sramBanks]
    }

    ghost predicate Mapped()
      reads premap
    {
      && premap.Length == PATTERNS
      && forall p | 0 <= p < PATTERNS :: premap[p] < banks.Length && (premap[p] >= 0 ==> sramBanks > 0)
    }

    ghost predicate Valid()
      reads `spare, banks, premap, recency
    {
      && Mapped() && recency.Length == banks.Length && sramBanks <= banks.Length
      && Held(banks[..], spare, buffers) && Resident(banks[..], internal, Recent())
      && spare !in internal
      && (spare == null ==> forall i: nat | i < banks.Length :: banks[i] in internal)
    }

    /** What the banks hold. */
    ghost function Contents(): (c: seq<seq<byte>>)
      reads banks, banks[..]
      ensures |c| == banks.Length
    {
      seq(banks.Length, i requires 0 <= i < banks.Length reads banks, banks[..] => banks[i][..])
    }

    /** Every mapped bank is in SRAM. */
    ghost predicate AllIn()
      requires sramBanks <= recency.Length
      reads premap, recency
    {
      MappedIn(premap[..], Recent())
    }

    predicate IsSram(b: nat)
      requires b < banks.Length
      reads banks
    {
      banks[b] in internal
    }

    /** Swap bank b into the SRAM buffer of the least recently used bank. */
    method SwapIn(b: nat, evict: nat)
      requires Valid() && b < banks.Length && evict < banks.Length && b != evict && spare != null
      modifies `spare, banks, buffers
      ensures spare == old(banks[b])
      ensures banks[..] == old(banks[..])[b := old(banks[evict])][evict := old(spare)]
      ensures Contents() == old(Contents())
    {
      var newSpare := banks[b];
      MemCpy(spare, banks[evict]);
      MemCpy(banks[evict], banks[b]);
      banks[b] := banks[evict];
      banks[evict] := spare;
      spare := newSpare;
      assert forall i | 0 <= i < banks.Length :: banks[i][..] == old(banks[i][..]);
    }

    /** A bank outside SRAM comes in for the least recently used one. */
    method Load(b: nat)
      requires Valid() && b < banks.Length && !IsSram(b) && sramBanks > 0
      modifies `spare, `evictCount, banks, recency, buffers
      ensures Valid() && Contents() == old(Contents())
      ensures IsSram(b) && Recent() == Touched(old(Recent()), b) && evictCount == old(evictCount) + 1
    {
      ghost var was, recent, free := banks[..], Recent(), spare;
      var evict := recency[sramBanks - 1];
      assert evict == recent[sramBanks - 1];
      Exchanged(was, was[b := was[evict]][evict := free], free, buffers, b, evict);
      LoadedResident(was, was[b := was[evict]][evict := free], free, internal, recent, b, evict);
      SwapIn(b, evict);
      MoveToFront(recency, sramBanks, sramBanks - 1, b);
      evictCount := evictCount + 1;
    }

    /** A bank in SRAM becomes the most recently used. */
    method Touch(b: nat)
      requires Valid() && b < banks.Length && IsSram(b) && sramBanks > 0
      modifies recency
      ensures Valid() && Recent() == Touched(old(Recent()), b)
    {
      ghost var recent := Recent();
      var i := 0;
      while i < sramBanks && recency[i] != b
        invariant 0 <= i <= sramBanks
        invariant b !in recency[..i]
      {
        i := i + 1;
      }
      assert b in recent;
      assert i == PlaceOf(recent, b);
      TouchedResident(banks[..], internal, recent, b);
      MoveToFront(recency, sramBanks, i, b);
    }

    method GetBank(pattern: nat) returns (mem: array?<byte>)
      requires Valid() && pattern < PATTERNS
      modifies `spare, `evictCount, `swapCount, banks, recency, buffers
      ensures Valid() && Contents() == old(Contents())
      ensures premap[pattern] < 0 ==> mem == null && Recent() == old(Recent()) && evictCount == old(evictCount)
      ensures premap[pattern] >= 0 ==>
        && mem == banks[premap[pattern]] && mem in internal
        && Recent() == Touched(old(Recent()), premap[pattern])
        && evictCount == old(evictCount) + (if premap[pattern] in old(Recent()) then 0 else 1)
      ensures old(AllIn()) ==> AllIn() && evictCount == old(evictCount)
    {
      var b := premap[pattern];
      if b >= 0 && AllIn() {
        assert premap[..][pattern] in Recent();
        FitStay(Recent(), premap[..], pattern);
      }
      if b < 0 {
        return null;
      }
      if !IsSram(b) {
        Load(b);
      } else {
        Touch(b);
      }
      swapCount := swapCount + 1;
      mem := banks[b];
    }
  }

  /** A pool with an SRAM bank for every bank of its scheme starts with all of
      them in, so nothing is ever evicted. */
  lemma FitsAfterInit(pool: ExtBankPool, config: Config)
    requires pool.Valid() && Banks(config) <= pool.sramBanks && pool.sramBanks > 0
    requires forall p: nat | p < PATTERNS :: pool.premap[p] == Layout(config, p)
    requires pool.Recent() == TouchedAll(FirstBanks(pool.sramBanks), MappedBanks(pool.premap[..]))
    ensures pool.AllIn()
  {
    LayoutMeans(config, pool.premap[..]);
    UsedBanks(config, pool.premap[..]);
    forall p | 0 <= p < PATTERNS && pool.premap[p] >= 0 ensures pool.premap[..][p] in pool.Recent() {
      MappedFit(pool.sramBanks, pool.premap[..], p);
    }
  }
}
