/** Aliases for the host files that cannot be named directly: numbered, group by
    group, around the names that are taken. */
module AtariAliases {
  import opened Ascii
  import opened Options
  import opened AtariNames

  /** What an alias is made of: up to seven and three letters and digits. */
  datatype Group = Group(base: string, extension: string)

  /** The first n letters and digits, folded. */
  function Kept(s: string, n: nat): (r: string)
    ensures |r| <= n && NoSpace(r)
  {
    if s == "" || n == 0 then ""
    else if AliasChar(ToUpper(s[0])) then [ToUpper(s[0])] + Kept(s[1..], n - 1)
    else Kept(s[1..], n)
  }

  predicate NoSpace(s: string) {
    forall i | 0 <= i < |s| :: s[i] != ' '
  }

  predicate IsGroup(g: Group) {
    |g.base| <= 7 && |g.extension| <= 3 && NoSpace(g.base) && NoSpace(g.extension)
  }

  function GroupOf(name: string): (g: Group)
    ensures IsGroup(g)
  {
    var base := Kept(BaseOf(name), 7);
    Group(if base == "" then "FILE" else base, Kept(ExtensionOf(name), 3))
  }

  function Digit(n: nat): char {
    if n <= 9 then "0123456789"[n] else '0'
  }

  function Alias(g: Group, n: nat): (e: Entry) {
    Entry(Fill(g.base + [Digit(n)], 8), Fill(g.extension, 3))
  }

  lemma FillInjective(a: string, b: string, n: nat)
    requires |a| <= |b| <= n && NoSpace(a) && NoSpace(b)
    ensures Fill(a, n) == Fill(b, n) ==> a == b
  {
    assert Fill(a, n)[..|a|] == a && Fill(b, n)[..|b|] == b;
    if |a| < |b| {
      assert Fill(a, n)[|a|] == ' ' && Fill(b, n)[|a|] == b[|a|];
    }
  }

  lemma SameFill(a: string, b: string, n: nat)
    requires |a| <= n && |b| <= n && NoSpace(a) && NoSpace(b) && Fill(a, n) == Fill(b, n)
    ensures a == b
  {
    if |a| <= |b| {
      FillInjective(a, b, n);
    } else {
      FillInjective(b, a, n);
    }
  }

  /** No alias is another group's, or another number's. */
  lemma AliasInjective(g: Group, m: nat, h: Group, n: nat)
    requires IsGroup(g) && IsGroup(h) && m <= 9 && n <= 9 && Alias(g, m) == Alias(h, n)
    ensures g == h && m == n
  {
    var a, b := g.base + [Digit(m)], h.base + [Digit(n)];
    SameFill(a, b, 8);
    SameFill(g.extension, h.extension, 3);
    assert a[..|a| - 1] == g.base && b[..|b| - 1] == h.base;
    assert a[|a| - 1] == Digit(m) && b[|b| - 1] == Digit(n);
  }

  // ---- What each host file becomes ----

  datatype Atari = Hidden | Visible(entry: Entry, aliased: bool)

  /** A host file: its direct encoding, if it has one, and its group of aliases. */
  datatype Host = Host(direct: Option<Entry>, group: Group)

  function HostOf(name: string): Host {
    Host(if Encodable(name) then Some(Encoded(name)) else None, GroupOf(name))
  }

  /** The first of its encoding. */
  predicate Direct(hs: seq<Host>, i: nat)
    requires i < |hs|
  {
    hs[i].direct.Some? && forall j | 0 <= j < i :: hs[j].direct != hs[i].direct
  }

  function DirectKeys(hs: seq<Host>, n: nat): set<Entry>
    requires n <= |hs|
  {
    set j | 0 <= j < n && hs[j].direct.Some? :: hs[j].direct.value
  }

  /** The group of a file that needs an alias. */
  function Other(hs: seq<Host>, i: nat): Option<Group>
    requires i < |hs|
  {
    if Direct(hs, i) then None else Some(hs[i].group)
  }

  function Others(hs: seq<Host>): (os: seq<Option<Group>>)
    ensures |os| == |hs| && forall i | 0 <= i < |hs| :: os[i] == Other(hs, i)
  {
    seq(|hs|, i requires 0 <= i < |hs| => Other(hs, i))
  }

  /** The places of a group's members among the first n. */
  function Members(os: seq<Option<Group>>, g: Group, n: nat): seq<nat>
    requires n <= |os|
  {
    if n == 0 then [] else Members(os, g, n - 1) + if os[n - 1] == Some(g) then [n - 1] else []
  }

  /** A group's aliases by number. */
  type Aliases = a: seq<Entry> | |a| == 10 witness seq(10, _ => Entry("", ""))

  function AliasesOf(g: Group): (a: Aliases)
    ensures forall n: nat | n <= 9 :: a[n] == Alias(g, n)
  {
    seq(10, n requires 0 <= n < 10 => Alias(g, n))
  }

  /** The k-th number from n on that is not taken; 10 if there are not so many. */
  function Nth(keys: set<Entry>, a: Aliases, n: nat, k: nat): (r: nat)
    ensures r >= |a| || (n <= r && a[r] !in keys)
    decreases |a| - n
  {
    if n >= |a| then |a|
    else if a[n] in keys then Nth(keys, a, n + 1, k)
    else if k == 0 then n
    else Nth(keys, a, n + 1, k - 1)
  }

  /** The k-th of a group gets the k-th free number. */
  function Numbered(keys: set<Entry>, a: Aliases, k: nat): Atari {
    var n := Nth(keys, a, 1, k);
    if n <= 9 then Visible(a[n], true) else Hidden
  }

  function Named(hs: seq<Host>, i: nat): Atari
    requires i < |hs|
  {
    if Direct(hs, i) then Visible(hs[i].direct.value, false)
    else Numbered(DirectKeys(hs, |hs|), AliasesOf(hs[i].group), |Members(Others(hs), hs[i].group, i)|)
  }

  // ---- Names are distinct, and aliases take no direct name ----

  lemma {:induction false} NthGrows(keys: set<Entry>, a: Aliases, n: nat, j: nat, k: nat)
    requires j < k
    ensures Nth(keys, a, n, k) <= 9 ==> Nth(keys, a, n, j) < Nth(keys, a, n, k)
    decreases 10 - n
  {
    if n <= 9 {
      if a[n] in keys {
        NthGrows(keys, a, n + 1, j, k);
      } else if j > 0 {
        NthGrows(keys, a, n + 1, j - 1, k - 1);
      }
    }
  }

  lemma NumbersDiffer(keys: set<Entry>, a: Aliases, j: nat, k: nat)
    requires j != k && Nth(keys, a, 1, j) <= 9 && Nth(keys, a, 1, k) <= 9
    ensures Nth(keys, a, 1, j) != Nth(keys, a, 1, k)
  {
    if j < k {
      NthGrows(keys, a, 1, j, k);
    } else {
      NthGrows(keys, a, 1, k, j);
    }
  }

  /** Two of a group, or of two groups, are numbered apart. */
  lemma NumberedApart(keys: set<Entry>, g: Group, j: nat, h: Group, k: nat)
    requires IsGroup(g) && IsGroup(h) && (g == h ==> j != k)
    requires Numbered(keys, AliasesOf(g), j).Visible? && Numbered(keys, AliasesOf(h), k).Visible?
    ensures Numbered(keys, AliasesOf(g), j).entry != Numbered(keys, AliasesOf(h), k).entry
  {
    var m, n := Nth(keys, AliasesOf(g), 1, j), Nth(keys, AliasesOf(h), 1, k);
    if g == h {
      NumbersDiffer(keys, AliasesOf(g), j, k);
    }
    if Alias(g, m) == Alias(h, n) {
      AliasInjective(g, m, h, n);
      assert false;
    }
  }

  lemma {:induction false} RankGrows(os: seq<Option<Group>>, g: Group, i: nat, j: nat)
    requires i <= j <= |os|
    ensures |Members(os, g, i)| <= |Members(os, g, j)|
    ensures i < j && os[i] == Some(g) ==> |Members(os, g, i)| < |Members(os, g, j)|
  {
    if i < j {
      RankGrows(os, g, i, j - 1);
    }
  }

  ghost predicate AreHosts(hs: seq<Host>) {
    forall i | 0 <= i < |hs| :: IsGroup(hs[i].group)
  }

  /** An alias is no host file's direct encoding, shown or not. */
  lemma AliasTakesNone(hs: seq<Host>, i: nat, j: nat)
    requires i < |hs| && j < |hs| && Named(hs, i).Visible? && Named(hs, i).aliased
    ensures hs[j].direct != Some(Named(hs, i).entry)
  {
    assert hs[j].direct.Some? ==> hs[j].direct.value in DirectKeys(hs, |hs|);
  }

  /** No two files have one name. */
  lemma VisibleDistinct(hs: seq<Host>, i: nat, j: nat)
    requires AreHosts(hs) && i < j < |hs| && Named(hs, i).Visible? && Named(hs, j).Visible?
    ensures Named(hs, i).entry != Named(hs, j).entry
  {
    if Direct(hs, i) {
      if !Direct(hs, j) {
        NumberedIsAlias(hs, j);
        AliasTakesNone(hs, j, i);
      }
    } else if Direct(hs, j) {
      NumberedIsAlias(hs, i);
      AliasTakesNone(hs, i, j);
    } else {
      var os, g, h := Others(hs), hs[i].group, hs[j].group;
      RankGrows(os, g, i, j);
      NumberedApart(DirectKeys(hs, |hs|), g, |Members(os, g, i)|, h, |Members(os, h, j)|);
    }
  }

  lemma NumberedIsAlias(hs: seq<Host>, i: nat)
    requires i < |hs| && !Direct(hs, i) && Named(hs, i).Visible?
    ensures Named(hs, i).aliased
  {
  }

  // ---- The order of the input does not matter ----

  /** order is a permutation of the numbers below n, and place its inverse. */
  ghost predicate Permutes(order: seq<nat>, place: seq<nat>, n: nat) {
    && |order| == |place| == n
    && (forall i | 0 <= i < n :: order[i] < n && place[order[i]] == i)
    && (forall k | 0 <= k < n :: place[k] < n && order[place[k]] == k)
  }

  ghost predicate IsOrder(order: seq<nat>, n: nat) {
    exists place: seq<nat> :: Permutes(order, place, n)
  }

  function InOrder(names: seq<string>, order: seq<nat>): (sorted: seq<string>)
    requires IsOrder(order, |names|)
    ensures |sorted| == |order|
  {
    seq(|order|, i requires 0 <= i < |order| => names[order[i]])
  }

  function HostsOf(names: seq<string>): (hs: seq<Host>)
    ensures |hs| == |names| && AreHosts(hs)
  {
    seq(|names|, i requires 0 <= i < |names| => HostOf(names[i]))
  }

  /** Two listings of the same host files, each name once, give every file the same
      name: the sort brings them to the same list. */
  lemma OrderIndependent(names: seq<string>, order: seq<nat>, names': seq<string>, order': seq<nat>, i: nat, j: nat)
    requires IsOrder(order, |names|) && IsOrder(order', |names'|)
    requires Sorted(InOrder(names, order)) && Sorted(InOrder(names', order'))
    requires (forall s :: s in names <==> s in names')
    requires i < |order| && j < |order'| && names[order[i]] == names'[order'[j]]
    ensures Named(HostsOf(InOrder(names, order)), i) == Named(HostsOf(InOrder(names', order')), j)
  {
    SameLists(names, order, names', order');
    var sorted := InOrder(names, order);
    if i < j {
      SortedApart(sorted, i, j);
    } else if j < i {
      SortedApart(sorted, j, i);
    }
  }

  lemma SameLists(names: seq<string>, order: seq<nat>, names': seq<string>, order': seq<nat>)
    requires IsOrder(order, |names|) && IsOrder(order', |names'|)
    requires Sorted(InOrder(names, order)) && Sorted(InOrder(names', order'))
    requires forall s :: s in names <==> s in names'
    ensures InOrder(names, order) == InOrder(names', order')
  {
    forall s ensures s in InOrder(names, order) <==> s in InOrder(names', order') {
      SameNames(names, order, s);
      SameNames(names', order', s);
    }
    SortedUnique(InOrder(names, order), InOrder(names', order'));
  }

  lemma SortedApart(sorted: seq<string>, i: nat, j: nat)
    requires Sorted(sorted) && i < j < |sorted|
    ensures sorted[i] != sorted[j]
  {
    LessTotal(sorted[i], sorted[i]);
  }

  lemma SameNames(names: seq<string>, order: seq<nat>, s: string)
    requires IsOrder(order, |names|)
    ensures s in InOrder(names, order) <==> s in names
  {
    var sorted := InOrder(names, order);
    var place :| Permutes(order, place, |names|);
    forall k | 0 <= k < |names| ensures sorted[place[k]] == names[k] {
      assert order[place[k]] == k;
    }
    forall i | 0 <= i < |sorted| ensures sorted[i] == names[order[i]] {
    }
  }
}
