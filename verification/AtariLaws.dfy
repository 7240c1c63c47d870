/** What the names come to, letter by letter. */
module AtariLaws {
  import opened Ascii
  import opened Options
  import opened AtariNames
  import opened AtariAliases

  function Capital(c: char): char {
    if 'a' <= c <= 'z' then (c as int - 32) as char else c
  }

  /** A letter of either case, a digit, an underscore or an at sign. */
  predicate MayName(c: char) {
    'a' <= c <= 'z' || 'A' <= c <= 'Z' || '0' <= c <= '9' || c == '_' || c == '@'
  }

  predicate LetterOrDigit(c: char) {
    'a' <= c <= 'z' || 'A' <= c <= 'Z' || '0' <= c <= '9'
  }

  /** base, or base and extension with a dot between. */
  function Dotted(base: string, extension: string, dotted: bool): string {
    base + if dotted then "." + extension else ""
  }

  lemma DottedParts(base: string, extension: string, dotted: bool)
    requires '.' !in extension && (!dotted ==> '.' !in base && extension == "")
    ensures BaseOf(Dotted(base, extension, dotted)) == base
    ensures ExtensionOf(Dotted(base, extension, dotted)) == extension
  {
    var s := Dotted(base, extension, dotted);
    if dotted {
      assert s[|base|] == '.' && s[|base| + 1..] == extension;
      forall i | |base| < i < |s| ensures s[i] != '.' {
        assert s[i] == extension[i - |base| - 1];
      }
      assert s[..|base|] == base;
    } else {
      forall i | 0 <= i < |s| ensures s[i] != '.' {
        assert s[i] in base;
      }
    }
  }

  /** The k-th character of a field. */
  function FieldChar(s: string, k: nat): char {
    if k < |s| then Capital(s[k]) else ' '
  }

  /** A name can be used as it is exactly if it has one to eight characters and up to
      three behind its last dot, all of them allowed; then it is capitalized and filled
      with spaces. */
  lemma DirectName(base: string, extension: string, dotted: bool)
    requires '.' !in extension && (!dotted ==> '.' !in base && extension == "")
    ensures var host := Dotted(base, extension, dotted);
      && (Encodable(host) <==>
            1 <= |base| <= 8 && |extension| <= 3 && (forall c | c in base || c in extension :: MayName(c)))
      && (Encodable(host) ==>
            && (forall k: nat | k < 8 :: Encoded(host).name[k] == FieldChar(base, k))
            && (forall k: nat | k < 3 :: Encoded(host).extension[k] == FieldChar(extension, k)))
  {
    DottedParts(base, extension, dotted);
    AllMayName(base);
    AllMayName(extension);
  }

  lemma AllMayName(s: string)
    ensures NameChars(s) <==> forall c | c in s :: MayName(c)
  {
    if NameChars(s) {
      forall c | c in s ensures MayName(c) {
        var i :| 0 <= i < |s| && s[i] == c;
        assert NameChar(ToUpper(s[i]));
      }
    }
    if forall c | c in s :: MayName(c) {
      forall i | 0 <= i < |s| ensures NameChar(ToUpper(s[i])) {
        assert MayName(s[i]);
      }
    }
  }

  // ---- The group of aliases ----

  /** Of letters and digits, the first n are kept. */
  lemma {:induction false} KeptPlain(s: string, n: nat)
    requires forall c | c in s :: LetterOrDigit(c)
    ensures |Kept(s, n)| == if |s| < n then |s| else n
    ensures forall k | 0 <= k < |Kept(s, n)| :: Kept(s, n)[k] == Capital(s[k])
  {
    if s != "" && n > 0 {
      assert LetterOrDigit(s[0]) && forall c | c in s[1..] :: c in s;
      KeptPlain(s[1..], n - 1);
    }
  }

  /** Any other character might as well not be there. */
  lemma {:induction false} KeptSkips(s: string, n: nat, i: nat)
    requires i < |s| && !LetterOrDigit(s[i])
    ensures Kept(s, n) == Kept(s[..i] + s[i + 1..], n)
  {
    if i == 0 {
      assert s[..0] + s[1..] == s[1..];
    } else if n > 0 {
      var rest := s[..i] + s[i + 1..];
      assert rest[0] == s[0] && rest[1..] == s[1..][..i - 1] + s[1..][i..];
      KeptSkips(s[1..], if AliasChar(ToUpper(s[0])) then n - 1 else n, i - 1);
    }
  }

  /** Up to seven of what is left of the base, or FILE if nothing is, and three of the
      extension's. */
  lemma GroupIs(base: string, extension: string, dotted: bool)
    requires '.' !in extension && (!dotted ==> '.' !in base && extension == "")
    ensures GroupOf(Dotted(base, extension, dotted)) ==
      Group(if Kept(base, 7) == "" then "FILE" else Kept(base, 7), Kept(extension, 3))
  {
    DottedParts(base, extension, dotted);
  }

  // ---- The numbers ----

  /** The free aliases from number m on and below n. */
  function FreeOnes(keys: set<Entry>, g: Group, m: nat, n: nat): (free: set<nat>) {
    set k: nat | m <= k < n && k <= 9 && Alias(g, k) !in keys
  }

  lemma {:induction false} NthMeans(keys: set<Entry>, g: Group, m: nat, k: nat, n: nat)
    requires m <= n <= 9
    ensures Nth(keys, AliasesOf(g), m, k) == n
            <==> Alias(g, n) !in keys && |FreeOnes(keys, g, m, n)| == k
    decreases 10 - m
  {
    var a := AliasesOf(g);
    if m == n {
      assert FreeOnes(keys, g, m, n) == {};
      NotBefore(keys, a, m + 1, k);
    } else if a[m] in keys {
      assert FreeOnes(keys, g, m, n) == FreeOnes(keys, g, m + 1, n);
      NthMeans(keys, g, m + 1, k, n);
    } else {
      assert FreeOnes(keys, g, m, n) == {m} + FreeOnes(keys, g, m + 1, n);
      if k > 0 {
        NthMeans(keys, g, m + 1, k - 1, n);
      }
    }
  }

  lemma {:induction false} NotBefore(keys: set<Entry>, a: Aliases, m: nat, k: nat)
    ensures m <= 9 ==> Nth(keys, a, m, k) >= m
    ensures k > 0 && m <= 9 ==> Nth(keys, a, m, k - 1) >= m
    decreases 10 - m
  {
    if m <= 9 {
      NotBefore(keys, a, m + 1, k);
      if k > 0 {
        NotBefore(keys, a, m + 1, k - 1);
      }
    }
  }

  /** The k-th of a group that needs an alias, counted from 0, gets number n exactly if
      that name is free and k numbers from 1 on are before it: the digit follows the
      base. */
  lemma AliasIs(keys: set<Entry>, g: Group, k: nat, n: nat)
    requires IsGroup(g) && 1 <= n <= 9
    ensures var e := Entry(Fill(g.base + [('0' as int + n) as char], 8), Fill(g.extension, 3));
      (Numbered(keys, AliasesOf(g), k) == Visible(e, true)) <==> (e !in keys && |FreeOnes(keys, g, 1, n)| == k)
  {
    var e := Alias(g, n);
    assert e == Entry(Fill(g.base + [('0' as int + n) as char], 8), Fill(g.extension, 3));
    NthMeans(keys, g, 1, k, n);
    var r := Nth(keys, AliasesOf(g), 1, k);
    if r <= 9 && Alias(g, r) == e {
      AliasInjective(g, r, g, n);
    }
  }

  // ---- The whole assignment ----

  /** It can be named directly, and is the first with that encoding. */
  predicate NamedDirectly(hs: seq<Host>, i: nat)
    requires i < |hs|
  {
    hs[i].direct.Some? && forall j: nat | j < i :: hs[j].direct != hs[i].direct
  }

  /** Those of i's group that need an alias and come before it. */
  function EarlierInGroup(hs: seq<Host>, g: Group, i: nat): (js: set<nat>)
    requires i <= |hs|
  {
    set j: nat | j < i && hs[j].group == g && !NamedDirectly(hs, j)
  }

  lemma {:induction false} MembersAre(hs: seq<Host>, g: Group, i: nat)
    requires i <= |hs|
    ensures |Members(Others(hs), g, i)| == |EarlierInGroup(hs, g, i)|
  {
    if i > 0 {
      MembersAre(hs, g, i - 1);
      OneMore(hs, g, i - 1);
    }
  }

  lemma OneMore(hs: seq<Host>, g: Group, i: nat)
    requires i < |hs|
    ensures Others(hs)[i] == Some(g) <==> hs[i].group == g && !NamedDirectly(hs, i)
    ensures EarlierInGroup(hs, g, i + 1)
            == EarlierInGroup(hs, g, i) + if Others(hs)[i] == Some(g) then {i} else {}
  {
    assert Direct(hs, i) <==> NamedDirectly(hs, i);
  }

  /** Directly, or by the alias with number n: no file's direct encoding, and with as many
      such numbers before it, from 1 on, as files of its group; or, if there is no such
      number, not at all. */
  lemma NameIs(hs: seq<Host>, i: nat)
    requires i < |hs| && IsGroup(hs[i].group)
    ensures NamedDirectly(hs, i) ==> Named(hs, i) == Visible(hs[i].direct.value, false)
    ensures !NamedDirectly(hs, i) ==>
      var g, keys := hs[i].group, set j: nat | j < |hs| && hs[j].direct.Some? :: hs[j].direct.value;
      forall n: nat | 1 <= n <= 9 ::
        (Named(hs, i) == Visible(Alias(g, n), true))
        <==> (Alias(g, n) !in keys && |FreeOnes(keys, g, 1, n)| == |EarlierInGroup(hs, g, i)|)
    ensures !NamedDirectly(hs, i) && Named(hs, i).Visible? ==>
      exists n: nat :: 1 <= n <= 9 && Named(hs, i) == Visible(Alias(hs[i].group, n), true)
  {
    if !NamedDirectly(hs, i) {
      var g, keys := hs[i].group, set j: nat | j < |hs| && hs[j].direct.Some? :: hs[j].direct.value;
      assert keys == DirectKeys(hs, |hs|);
      MembersAre(hs, g, i);
      forall n: nat | 1 <= n <= 9
        ensures (Named(hs, i) == Visible(Alias(g, n), true))
                <==> (Alias(g, n) !in keys && |FreeOnes(keys, g, 1, n)| == |EarlierInGroup(hs, g, i)|)
      {
        AliasIs(keys, g, |EarlierInGroup(hs, g, i)|, n);
        assert Alias(g, n) == Entry(Fill(g.base + [('0' as int + n) as char], 8), Fill(g.extension, 3));
      }
      NotBefore(keys, AliasesOf(g), 1, |EarlierInGroup(hs, g, i)|);
    }
  }
}
