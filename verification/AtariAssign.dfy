/** assignAtariFilenames(): direct names first, then the groups of aliases, one
    after the other in any order. */
module AtariAssign {
  import opened Options
  import opened AtariNames
  import opened AtariAliases

  /** values, in the order of the sorted list, at their places in the result. */
  ghost predicate Scattered<T>(order: seq<nat>, result: seq<T>, values: seq<T>) {
    && |values| == |order| == |result|
    && forall i | 0 <= i < |order| :: order[i] < |result| && result[order[i]] == values[i]
  }

  lemma ScatterOne<T>(order: seq<nat>, result: seq<T>, values: seq<T>, i: nat, v: T)
    requires IsOrder(order, |result|) && Scattered(order, result, values) && i < |order|
    ensures Scattered(order, result[order[i] := v], values[i := v])
  {
  }

  /** The names that are done. */
  function Masked(named: seq<Atari>, done: seq<bool>): (m: seq<Atari>)
    requires |named| == |done|
    ensures |m| == |named|
  {
    seq(|named|, i requires 0 <= i < |named| => if done[i] then named[i] else Hidden)
  }

  ghost predicate Placed(order: seq<nat>, result: seq<Atari>, named: seq<Atari>, done: seq<bool>) {
    |named| == |done| && Scattered(order, result, Masked(named, done))
  }

  function AllNamed(hs: seq<Host>): (named: seq<Atari>)
    ensures |named| == |hs|
  {
    seq(|hs|, i requires 0 <= i < |hs| => Named(hs, i))
  }

  /** What is named once the groups in done are. */
  function DoneOf(os: seq<Option<Group>>, done: set<Group>): (ds: seq<bool>)
    ensures |ds| == |os|
  {
    seq(|os|, i requires 0 <= i < |os| => os[i].None? || os[i].value in done)
  }

  /** ... and the first count members of g. */
  function RankedTo(os: seq<Option<Group>>, done: set<Group>, g: Group, count: nat): (ds: seq<bool>)
    ensures |ds| == |os|
  {
    seq(|os|, i requires 0 <= i < |os| =>
      os[i].None? || os[i].value in done || (os[i] == Some(g) && |Members(os, g, i)| < count))
  }

  function EntriesOf(a: Aliases): (es: set<Entry>)
    ensures forall n: nat | n <= 9 :: a[n] in es
  {
    {a[0], a[1], a[2], a[3], a[4], a[5], a[6], a[7], a[8], a[9]}
  }

  lemma EntryIs(a: Aliases, e: Entry) returns (n: nat)
    requires e in EntriesOf(a)
    ensures n <= 9 && a[n] == e
  {
    n :| n <= 9 && a[n] == e;
  }

  /** Reserved are the direct encodings and aliases of the groups done. */
  ghost predicate Taken(keys: set<Entry>, done: set<Group>, reserved: set<Entry>) {
    && keys <= reserved
    && forall e | e in reserved && e !in keys :: exists g :: g in done && IsGroup(g) && e in EntriesOf(AliasesOf(g))
  }

  /** order: what the sort has made of the indices. */
  method AssignAtariFilenames(names: seq<string>, order: seq<nat>) returns (result: array<Atari>)
    requires IsOrder(order, |names|)
    ensures result.Length == |names|
    ensures forall i | 0 <= i < |order| :: result[order[i]] == Named(HostsOf(InOrder(names, order)), i)
  {
    ghost var hs := HostsOf(InOrder(names, order));
    var direct, reserved;
    result, direct, reserved := AssignDirect(names, order);
    var owner := Groups(names);
    OwnersFor(hs, names, order, owner, direct[..]);
    var groups := GroupAliases(owner, order, direct, Others(hs));
    AssignAliases(hs, order, groups, reserved, result);
  }

  /** Group after group. */
  method AssignAliases(ghost hs: seq<Host>, ghost order: seq<nat>, groups: map<Group, seq<nat>>, taken: set<Entry>,
                       result: array<Atari>)
    requires AreHosts(hs) && IsOrder(order, |hs|) && groups == GroupMap(Others(hs), order, |hs|)
    requires taken == DirectKeys(hs, |hs|) && Placed(order, result[..], AllNamed(hs), DoneOf(Others(hs), {}))
    modifies result
    ensures forall i | 0 <= i < |order| :: result[order[i]] == Named(hs, i)
  {
    var reserved, todo := taken, groups.Keys;
    while todo != {}
      invariant todo <= groups.Keys && Taken(taken, groups.Keys - todo, reserved)
      invariant Placed(order, result[..], AllNamed(hs), DoneOf(Others(hs), groups.Keys - todo))
    {
      var g :| g in todo;
      reserved := AssignOneGroup(hs, order, groups, g, groups.Keys - todo, taken, reserved, result);
      todo := todo - {g};
      assert groups.Keys - todo == groups.Keys - (todo + {g}) + {g};
    }
    AllDone(hs, order, result[..], groups);
  }

  method AssignOneGroup(ghost hs: seq<Host>, ghost order: seq<nat>, groups: map<Group, seq<nat>>, g: Group,
                        ghost done: set<Group>, ghost keys: set<Entry>, taken: set<Entry>, result: array<Atari>)
    returns (reserved: set<Entry>)
    requires AreHosts(hs) && IsOrder(order, |hs|) && groups == GroupMap(Others(hs), order, |hs|)
    requires keys == DirectKeys(hs, |hs|) && g in groups && g !in done && Taken(keys, done, taken)
    requires Placed(order, result[..], AllNamed(hs), DoneOf(Others(hs), done))
    modifies result
    ensures Taken(keys, done + {g}, reserved)
    ensures Placed(order, result[..], AllNamed(hs), DoneOf(Others(hs), done + {g}))
  {
    GroupFacts(hs, order, g);
    NotYetTaken(keys, done, g, taken);
    GroupPlaced(hs, order, result[..], done, g);
    reserved := AssignGroup(keys, AliasesOf(g), groups[g], taken, result);
    TakenMore(keys, done, g, taken, reserved);
  }

  lemma GroupFacts(hs: seq<Host>, order: seq<nat>, g: Group)
    requires AreHosts(hs) && IsOrder(order, |hs|) && g in GroupMap(Others(hs), order, |hs|)
    ensures IsGroup(g) && GroupMap(Others(hs), order, |hs|)[g] == Indices(Others(hs), order, g, |hs|)
    ensures forall k | 0 <= k < |Indices(Others(hs), order, g, |hs|)| :: Indices(Others(hs), order, g, |hs|)[k] < |hs|
  {
    GroupMapAt(Others(hs), order, g, |hs|);
    forall k | 0 <= k < |Indices(Others(hs), order, g, |hs|)| ensures Indices(Others(hs), order, g, |hs|)[k] < |hs| {
      var m := IndexOfMember(Others(hs), order, g, |hs|, k);
    }
    var m := IndexOfMember(Others(hs), order, g, |hs|, 0);
  }

  /** What AssignGroup leaves has the group named, too. */
  lemma GroupPlaced(hs: seq<Host>, order: seq<nat>, was: seq<Atari>, done: set<Group>, g: Group)
    requires g !in done && IsOrder(order, |hs|)
    requires forall k | 0 <= k < |Indices(Others(hs), order, g, |hs|)| :: Indices(Others(hs), order, g, |hs|)[k] < |was|
    requires Placed(order, was, AllNamed(hs), DoneOf(Others(hs), done))
    ensures var members := Indices(Others(hs), order, g, |hs|);
      Placed(order, Ranks(was, members, DirectKeys(hs, |hs|), AliasesOf(g), |members|), AllNamed(hs),
             DoneOf(Others(hs), done + {g}))
  {
    var os, named, keys, a := Others(hs), AllNamed(hs), DirectKeys(hs, |hs|), AliasesOf(g);
    var members := Indices(os, order, g, |hs|);
    assert NamedBy(os, named, keys, g, a);
    assert DoneOf(os, done) == RankedTo(os, done, g, 0);
    RanksPlaced(os, order, was, named, keys, done, g, a, |members|);
    IndexCount(os, order, g, |hs|);
    GroupDone(os, order, Ranks(was, members, keys, a, |members|), named, done, g, |members|);
  }

  lemma OwnersFor(hs: seq<Host>, names: seq<string>, order: seq<nat>, owner: seq<Group>, direct: seq<bool>)
    requires IsOrder(order, |names|) && hs == HostsOf(InOrder(names, order)) && |owner| == |names|
    requires Scattered(order, direct, DirectTo(hs, |hs|))
    requires forall i | 0 <= i < |names| :: owner[i] == GroupOf(names[i])
    ensures forall i | 0 <= i < |order| ::
      order[i] < |names| && Others(hs)[i] == if direct[order[i]] then None else Some(owner[order[i]])
  {
  }

  lemma AllDone(hs: seq<Host>, order: seq<nat>, result: seq<Atari>, groups: map<Group, seq<nat>>)
    requires |order| == |hs| && groups == GroupMap(Others(hs), order, |hs|)
    requires Placed(order, result, AllNamed(hs), DoneOf(Others(hs), groups.Keys))
    ensures forall i | 0 <= i < |order| :: order[i] < |result| && result[order[i]] == Named(hs, i)
  {
    var os := Others(hs);
    forall i | 0 <= i < |order| ensures DoneOf(os, groups.Keys)[i] {
      if os[i].Some? {
        RankGrows(os, os[i].value, i, |os|);
        IndexCount(os, order, os[i].value, |os|);
        GroupMapAt(os, order, os[i].value, |os|);
      }
    }
  }

  method Groups(names: seq<string>) returns (owner: seq<Group>)
    ensures |owner| == |names| && forall i | 0 <= i < |names| :: owner[i] == GroupOf(names[i])
  {
    owner := [];
    for i := 0 to |names|
      invariant |owner| == i && forall k | 0 <= k < i :: owner[k] == GroupOf(names[k])
    {
      owner := owner + [GroupOf(names[i])];
    }
  }

  method AssignDirect(names: seq<string>, order: seq<nat>)
    returns (result: array<Atari>, direct: array<bool>, reserved: set<Entry>)
    requires IsOrder(order, |names|)
    ensures fresh(result) && fresh(direct) && result.Length == direct.Length == |names|
    ensures var hs := HostsOf(InOrder(names, order));
      && reserved == DirectKeys(hs, |hs|) && Taken(reserved, {}, reserved)
      && Scattered(order, direct[..], DirectTo(hs, |hs|))
      && Placed(order, result[..], AllNamed(hs), DoneOf(Others(hs), {}))
  {
    ghost var hs := HostsOf(InOrder(names, order));
    result := new Atari[|names|](_ => Hidden);
    direct := new bool[|names|](_ => false);
    reserved := {};
    for i := 0 to |order|
      invariant reserved == DirectKeys(hs, i) && Scattered(order, direct[..], DirectTo(hs, i))
      invariant Placed(order, result[..], AllNamed(hs), DirectTo(hs, i))
    {
      var candidate := EncodeAtariFilename(names[order[i]]);
      assert hs[i].direct == candidate;
      reserved := DirectOne(hs, order, i, candidate, order[i], reserved, result, direct);
    }
    assert DoneOf(Others(hs), {}) == DirectTo(hs, |hs|);
  }

  /** A direct encoding is taken if it is not reserved. */
  method DirectOne(ghost hs: seq<Host>, ghost order: seq<nat>, ghost i: nat, candidate: Option<Entry>, index: nat,
                   taken: set<Entry>, result: array<Atari>, direct: array<bool>) returns (reserved: set<Entry>)
    requires IsOrder(order, |hs|) && i < |hs| && hs[i].direct == candidate && order[i] == index
    requires taken == DirectKeys(hs, i) && Scattered(order, direct[..], DirectTo(hs, i))
    requires Placed(order, result[..], AllNamed(hs), DirectTo(hs, i))
    modifies result, direct
    ensures reserved == DirectKeys(hs, i + 1) && Scattered(order, direct[..], DirectTo(hs, i + 1))
    ensures Placed(order, result[..], AllNamed(hs), DirectTo(hs, i + 1))
  {
    reserved := taken;
    DirectMore(hs, i);
    if candidate.Some? {
      if candidate.value !in reserved {
        ScatterOne(order, result[..], Masked(AllNamed(hs), DirectTo(hs, i)), i, Visible(candidate.value, false));
        ScatterOne(order, direct[..], DirectTo(hs, i), i, true);
        result[index] := Visible(candidate.value, false);
        direct[index] := true;
      }
      reserved := reserved + {candidate.value};
    }
  }

  /** The direct ones of the first n. */
  function DirectTo(hs: seq<Host>, n: nat): (ds: seq<bool>)
    requires n <= |hs|
    ensures |ds| == |hs|
  {
    seq(|hs|, k requires 0 <= k < |hs| => k < n && Direct(hs, k))
  }

  lemma DirectMore(hs: seq<Host>, i: nat)
    requires i < |hs|
    ensures Direct(hs, i) <==> hs[i].direct.Some? && hs[i].direct.value !in DirectKeys(hs, i)
    ensures DirectKeys(hs, i + 1) == DirectKeys(hs, i) + if hs[i].direct.Some? then {hs[i].direct.value} else {}
    ensures DirectTo(hs, i + 1) == if Direct(hs, i) then DirectTo(hs, i)[i := true] else DirectTo(hs, i)
    ensures Direct(hs, i) ==>
      Masked(AllNamed(hs), DirectTo(hs, i + 1))
      == Masked(AllNamed(hs), DirectTo(hs, i))[i := Visible(hs[i].direct.value, false)]
  {
  }

  /** The members' indices. */
  function Indices(os: seq<Option<Group>>, order: seq<nat>, g: Group, n: nat): seq<nat>
    requires n <= |os| == |order|
  {
    if n == 0 then [] else Indices(os, order, g, n - 1) + if os[n - 1] == Some(g) then [order[n - 1]] else []
  }

  lemma {:induction false} IndexOfMember(os: seq<Option<Group>>, order: seq<nat>, g: Group, n: nat, i: nat)
    returns (m: nat)
    requires n <= |os| == |order| && i < |Indices(os, order, g, n)|
    ensures m < n && os[m] == Some(g) && |Members(os, g, m)| == i && Indices(os, order, g, n)[i] == order[m]
  {
    IndexCount(os, order, g, n - 1);
    if i < |Indices(os, order, g, n - 1)| {
      m := IndexOfMember(os, order, g, n - 1, i);
    } else {
      m := n - 1;
    }
  }

  lemma {:induction false} IndexCount(os: seq<Option<Group>>, order: seq<nat>, g: Group, n: nat)
    requires n <= |os| == |order|
    ensures |Indices(os, order, g, n)| == |Members(os, g, n)|
  {
    if n > 0 {
      IndexCount(os, order, g, n - 1);
    }
  }

  /** The groups, filled in the order of the list. */
  function GroupMap(os: seq<Option<Group>>, order: seq<nat>, n: nat): map<Group, seq<nat>>
    requires n <= |os| == |order|
  {
    if n == 0 then map[]
    else
      var groups := GroupMap(os, order, n - 1);
      if os[n - 1].None? then groups
      else var g := os[n - 1].value; groups[g := (if g in groups then groups[g] else []) + [order[n - 1]]]
  }

  /** Each group with its members. */
  lemma {:induction false} GroupMapAt(os: seq<Option<Group>>, order: seq<nat>, g: Group, n: nat)
    requires n <= |os| == |order|
    ensures var groups := GroupMap(os, order, n);
      && (if g in groups then groups[g] else []) == Indices(os, order, g, n)
      && (g in groups <==> Indices(os, order, g, n) != [])
  {
    if n > 0 {
      GroupMapAt(os, order, g, n - 1);
    }
  }

  method GroupAliases(owner: seq<Group>, order: seq<nat>, direct: array<bool>, ghost os: seq<Option<Group>>)
    returns (groups: map<Group, seq<nat>>)
    requires |owner| == direct.Length && |order| == |os| && forall i | 0 <= i < |order| :: order[i] < |owner|
    requires forall i | 0 <= i < |order| :: os[i] == if direct[order[i]] then None else Some(owner[order[i]])
    ensures groups == GroupMap(os, order, |order|)
  {
    groups := map[];
    for i := 0 to |order|
      invariant groups == GroupMap(os, order, i)
    {
      if !direct[order[i]] {
        var g := owner[order[i]];
        groups := groups[g := (if g in groups then groups[g] else []) + [order[i]]];
      }
    }
  }

  // ---- One group ----

  /** Of the aliases from n on, reserved are the direct encodings only. */
  ghost predicate Open(keys: set<Entry>, a: Aliases, reserved: set<Entry>, n: nat) {
    forall m: nat | n <= m <= 9 :: a[m] in reserved <==> a[m] in keys
  }

  /** Each alias has its own number. */
  ghost predicate Different(a: Aliases) {
    exists number: map<Entry, nat> :: NumberOf(a, number)
  }

  ghost predicate NumberOf(a: Aliases, number: map<Entry, nat>) {
    forall m: nat | m <= 9 :: a[m] in number && number[a[m]] == m
  }

  lemma NotYetTaken(keys: set<Entry>, done: set<Group>, g: Group, reserved: set<Entry>)
    requires IsGroup(g) && g !in done && Taken(keys, done, reserved)
    ensures Open(keys, AliasesOf(g), reserved, 1) && Different(AliasesOf(g))
  {
    forall m: nat | m <= 9 && Alias(g, m) in reserved ensures Alias(g, m) in keys {
      if Alias(g, m) !in keys {
        var h :| h in done && IsGroup(h) && Alias(g, m) in EntriesOf(AliasesOf(h));
        var n := EntryIs(AliasesOf(h), Alias(g, m));
        AliasInjective(g, m, h, n);
        assert false;
      }
    }
    AliasesDiffer(g);
  }

  lemma AliasesDiffer(g: Group)
    requires IsGroup(g)
    ensures Different(AliasesOf(g))
  {
    var a, number: map<Entry, nat>, n := AliasesOf(g), map[], 0;
    while n < 10
      invariant 0 <= n <= 10 && forall m: nat | m < n :: a[m] in number && number[a[m]] == m
    {
      forall m: nat | m < n ensures a[m] != a[n] {
        if a[m] == a[n] {
          AliasInjective(g, m, g, n);
          assert false;
        }
      }
      number := number[a[n] := n];
      n := n + 1;
    }
    assert NumberOf(a, number);
  }

  lemma TakenMore(keys: set<Entry>, done: set<Group>, g: Group, reserved: set<Entry>, more: set<Entry>)
    requires IsGroup(g) && Taken(keys, done, reserved) && reserved <= more <= reserved + EntriesOf(AliasesOf(g))
    ensures Taken(keys, done + {g}, more)
  {
    forall e | e in more && e !in keys
      ensures exists h :: h in done + {g} && IsGroup(h) && e in EntriesOf(AliasesOf(h))
    {
      if e in reserved {
        var h :| h in done && IsGroup(h) && e in EntriesOf(AliasesOf(h));
        assert h in done + {g};
      } else {
        assert g in done + {g};
      }
    }
  }

  /** The numbers before next, but for next - 1 if it is found, are taken. */
  lemma {:induction false} NthSkip(keys: set<Entry>, a: Aliases, n: nat, next: nat, k: nat)
    requires n <= next <= 10 && forall m | n <= m < next :: a[m] in keys
    ensures Nth(keys, a, n, k) == Nth(keys, a, next, k)
    decreases next - n
  {
    if n < next {
      NthSkip(keys, a, n + 1, next, k);
    }
  }

  ghost predicate Skips(keys: set<Entry>, a: Aliases, from: nat, found: bool, next: nat, k: nat) {
    Nth(keys, a, next, k) == Nth(keys, a, from, if found then k + 1 else k)
  }

  /** The next number that is not reserved, if there is one. */
  method NextAlias(a: Aliases, from: nat, reserved: set<Entry>, ghost keys: set<Entry>) returns (found: bool, next: nat)
    requires 1 <= from <= 9 && Open(keys, a, reserved, from)
    ensures from < next <= 10 && (!found ==> next == 10)
    ensures Nth(keys, a, from, 0) == if found then next - 1 else 10
    ensures forall k: nat :: Skips(keys, a, from, found, next, k)
  {
    next, found := from, false;
    while next <= 9 && !found
      invariant from <= next <= 10 && (next == from ==> !found) && (found ==> a[next - 1] !in reserved)
      invariant forall m | from <= m < (if found then next - 1 else next) :: a[m] in reserved
    {
      found := a[next] !in reserved;
      next := next + 1;
    }
    NthSkip(keys, a, from, if found then next - 1 else next, 0);
    forall k: nat ensures Skips(keys, a, from, found, next, k) {
      NthSkip(keys, a, from, if found then next - 1 else next, if found then k + 1 else k);
    }
  }

  /** What the group's members are to be named. */
  ghost predicate NamedBy(os: seq<Option<Group>>, named: seq<Atari>, keys: set<Entry>, g: Group, a: Aliases) {
    |named| == |os|
    && forall p | 0 <= p < |os| && os[p] == Some(g) :: named[p] == Numbered(keys, a, |Members(os, g, p)|)
  }

  /** One more member is named. */
  lemma RankMore(os: seq<Option<Group>>, order: seq<nat>, was: seq<Atari>, named: seq<Atari>, done: set<Group>,
                 g: Group, i: nat, m: nat)
    requires g !in done && IsOrder(order, |os|) && Placed(order, was, named, RankedTo(os, done, g, i))
    requires m < |os| && os[m] == Some(g) && |Members(os, g, m)| == i
    ensures Placed(order, was[order[m] := named[m]], named, RankedTo(os, done, g, i + 1))
    ensures was[order[m]] == Hidden
  {
    forall p | 0 <= p < |os| && p != m && os[p] == Some(g) ensures |Members(os, g, p)| != i {
      if p < m {
        RankGrows(os, g, p, m);
      } else {
        RankGrows(os, g, m, p);
      }
    }
  }

  /** All members have had their turn. */
  lemma GroupDone(os: seq<Option<Group>>, order: seq<nat>, result: seq<Atari>, named: seq<Atari>, done: set<Group>,
                  g: Group, i: nat)
    requires Placed(order, result, named, RankedTo(os, done, g, i)) && i >= |Members(os, g, |os|)|
    ensures Placed(order, result, named, DoneOf(os, done + {g}))
  {
    forall p | 0 <= p < |os| && os[p] == Some(g) ensures |Members(os, g, p)| < i {
      RankGrows(os, g, p, |os|);
    }
    assert RankedTo(os, done, g, i) == DoneOf(os, done + {g});
  }

  /** The members numbered in turn. */
  function Ranks(was: seq<Atari>, members: seq<nat>, keys: set<Entry>, a: Aliases, n: nat): (now: seq<Atari>)
    requires n <= |members| && forall k | 0 <= k < |members| :: members[k] < |was|
    ensures |now| == |was|
  {
    if n == 0 then was
    else
      var now, given := Ranks(was, members, keys, a, n - 1), Numbered(keys, a, n - 1);
      if given == Hidden then now else now[members[n - 1] := given]
  }

  /** No numbers are left for the rest. */
  lemma {:induction false} RanksEnd(was: seq<Atari>, members: seq<nat>, keys: set<Entry>, a: Aliases, i: nat, n: nat)
    requires i <= n <= |members| && (forall k | 0 <= k < |members| :: members[k] < |was|)
    requires forall k: nat {:trigger Numbered(keys, a, k)} | i <= k :: Numbered(keys, a, k) == Hidden
    ensures Ranks(was, members, keys, a, n) == Ranks(was, members, keys, a, i)
  {
    if i < n {
      RanksEnd(was, members, keys, a, i, n - 1);
    }
  }

  /** So the group is named. */
  lemma {:induction false} RanksPlaced(os: seq<Option<Group>>, order: seq<nat>, was: seq<Atari>, named: seq<Atari>,
                                       keys: set<Entry>, done: set<Group>, g: Group, a: Aliases, n: nat)
    requires g !in done && IsOrder(order, |os|) && NamedBy(os, named, keys, g, a) && n <= |Indices(os, order, g, |os|)|
    requires forall k | 0 <= k < |Indices(os, order, g, |os|)| :: Indices(os, order, g, |os|)[k] < |was|
    requires Placed(order, was, named, RankedTo(os, done, g, 0))
    ensures Placed(order, Ranks(was, Indices(os, order, g, |os|), keys, a, n), named, RankedTo(os, done, g, n))
  {
    var members := Indices(os, order, g, |os|);
    if n > 0 {
      RanksPlaced(os, order, was, named, keys, done, g, a, n - 1);
      var m := IndexOfMember(os, order, g, |os|, n - 1);
      var now, next := Ranks(was, members, keys, a, n - 1), Ranks(was, members, keys, a, n);
      RankStep(os, order, now, next, named, done, g, n - 1, m, Numbered(keys, a, n - 1));
    }
  }

  lemma RankStep(os: seq<Option<Group>>, order: seq<nat>, now: seq<Atari>, next: seq<Atari>, named: seq<Atari>,
                 done: set<Group>, g: Group, i: nat, m: nat, given: Atari)
    requires g !in done && IsOrder(order, |os|) && Placed(order, now, named, RankedTo(os, done, g, i))
    requires m < |os| && os[m] == Some(g) && |Members(os, g, m)| == i && named[m] == given
    requires order[m] < |now| && next == if given == Hidden then now else now[order[m] := given]
    ensures Placed(order, next, named, RankedTo(os, done, g, i + 1))
  {
    RankMore(os, order, now, named, done, g, i, m);
    assert given == Hidden ==> now[order[m] := given] == now;
  }

  /** The members of a group in turn, each with the next number. */
  method AssignGroup(ghost keys: set<Entry>, a: Aliases, members: seq<nat>, taken: set<Entry>, result: array<Atari>)
    returns (reserved: set<Entry>)
    requires Open(keys, a, taken, 1) && Different(a) && forall k | 0 <= k < |members| :: members[k] < result.Length
    modifies result
    ensures taken <= reserved <= taken + EntriesOf(a)
    ensures result[..] == Ranks(old(result[..]), members, keys, a, |members|)
  {
    reserved := taken;
    var nextNumber, i := 1, 0;
    while i < |members| && nextNumber <= 9
      invariant 0 <= i <= |members| && 1 <= nextNumber <= 10
      invariant NumberedFrom(keys, a, i, nextNumber)
      invariant Open(keys, a, reserved, nextNumber) && taken <= reserved <= taken + EntriesOf(a)
      invariant result[..] == Ranks(old(result[..]), members, keys, a, i)
    {
      var found, next := NextAlias(a, nextNumber, reserved, keys);
      NextNumbered(keys, a, i, nextNumber, found, next);
      if found {
        reserved := reserved + {a[next - 1]};
        result[members[i]] := Visible(a[next - 1], true);
      }
      nextNumber, i := next, i + 1;
    }
    if i < |members| {
      NoneLeft(keys, a, i);
      RanksEnd(old(result[..]), members, keys, a, i, |members|);
    }
  }

  /** The members from the i-th on get the numbers from next on. */
  ghost predicate NumberedFrom(keys: set<Entry>, a: Aliases, i: nat, next: nat) {
    forall k: nat :: NumberedAt(keys, a, i, next, k)
  }

  ghost predicate NumberedAt(keys: set<Entry>, a: Aliases, i: nat, next: nat, k: nat) {
    Nth(keys, a, next, k) <= 9 || Nth(keys, a, 1, i + k) <= 9 ==> Nth(keys, a, next, k) == Nth(keys, a, 1, i + k)
  }

  lemma NextNumbered(keys: set<Entry>, a: Aliases, i: nat, from: nat, found: bool, next: nat)
    requires NumberedFrom(keys, a, i, from) && 1 <= from < next <= 10 && (!found ==> next == 10)
    requires Nth(keys, a, from, 0) == if found then next - 1 else 10
    requires forall k: nat :: Skips(keys, a, from, found, next, k)
    ensures Numbered(keys, a, i) == if found then Visible(a[next - 1], true) else Hidden
    ensures NumberedFrom(keys, a, i + 1, next)
  {
    var j := i + 1;
    assert NumberedAt(keys, a, i, from, 0);
    forall k: nat ensures NumberedAt(keys, a, j, next, k) {
      assert Skips(keys, a, from, found, next, k);
      assert NumberedAt(keys, a, i, from, if found then k + 1 else k);
      if !found {
        NthGrows(keys, a, 1, i, i + 1 + k);
      }
    }
  }

  lemma NoneLeft(keys: set<Entry>, a: Aliases, i: nat)
    requires NumberedFrom(keys, a, i, 10)
    ensures forall k: nat {:trigger Numbered(keys, a, k)} | i <= k :: Numbered(keys, a, k) == Hidden
  {
    forall k: nat | i <= k ensures Numbered(keys, a, k) == Hidden {
      assert NumberedAt(keys, a, i, 10, k - i);
    }
  }
}
