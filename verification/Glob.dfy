/** The two wildcard matchers: the CIO directory's iterative one, with a single
    backtrack point, and the flash directory's recursive one, which folds case.
    Strings are without their terminating NUL. */
module Glob {
  import opened Ascii

  // ---- What a pattern means ----

  /** Literals are compared after folding. */
  predicate Matches(p: string, t: string, fold: char -> char)
    decreases |p|
  {
    if p == "" then t == ""
    else if p[0] == '*' then exists k: nat :: k <= |t| && Matches(p[1..], t[k..], fold)
    else t != "" && (p[0] == '?' || fold(p[0]) == fold(t[0])) && Matches(p[1..], t[1..], fold)
  }

  function Exact(c: char): char { c }

  /** Without a star: character by character, and ? stands for any one. */
  lemma {:induction false} LiteralMeans(p: string, t: string, fold: char -> char)
    requires '*' !in p
    ensures Matches(p, t, fold) <==>
      |p| == |t| && forall i | 0 <= i < |p| :: p[i] == '?' || fold(p[i]) == fold(t[i])
  {
    if p != "" && t != "" {
      assert '*' !in p[1..];
      LiteralMeans(p[1..], t[1..], fold);
      assert p == [p[0]] + p[1..] && t == [t[0]] + t[1..];
    }
  }

  /** With one: what comes before it is matched at the beginning, and the rest of the
      pattern anywhere behind that. */
  lemma {:induction false} StarMeans(a: string, b: string, t: string, fold: char -> char)
    requires '*' !in a
    ensures Matches(a + "*" + b, t, fold) <==>
      |a| <= |t| && Matches(a, t[..|a|], fold) && exists k: nat :: |a| <= k <= |t| && Matches(b, t[k..], fold)
  {
    var p := a + "*" + b;
    if a == "" {
      assert p == "*" + b && p[1..] == b && t[..0] == "";
    } else if t != "" {
      assert p[1..] == a[1..] + "*" + b && '*' !in a[1..];
      StarMeans(a[1..], b, t[1..], fold);
      if |a| <= |t| {
        assert t[..|a|][1..] == t[1..][..|a| - 1] && t[..|a|][0] == t[0];
      }
      BehindFirst(a, b, t, fold);
    }
  }

  lemma BehindFirst(a: string, b: string, t: string, fold: char -> char)
    requires a != "" && t != ""
    ensures (exists k: nat :: |a[1..]| <= k <= |t[1..]| && Matches(b, t[1..][k..], fold))
            <==> exists k: nat :: |a| <= k <= |t| && Matches(b, t[k..], fold)
  {
    if k: nat :| |a[1..]| <= k <= |t[1..]| && Matches(b, t[1..][k..], fold) {
      assert t[1..][k..] == t[k + 1..];
    }
    if k: nat :| |a| <= k <= |t| && Matches(b, t[k..], fold) {
      assert t[1..][k - 1..] == t[k..];
    }
  }

  lemma Star(p: string, t: string, fold: char -> char, k: nat)
    requires p != "" && p[0] == '*' && k <= |t| && Matches(p[1..], t[k..], fold)
    ensures Matches(p, t, fold)
  {
  }

  /** A star absorbs what comes before. */
  lemma Absorbs(p: string, t: string, fold: char -> char, k: nat)
    requires p != "" && p[0] == '*' && k <= |t| && Matches(p, t[k..], fold)
    ensures Matches(p, t, fold)
  {
    var i: nat :| i <= |t[k..]| && Matches(p[1..], t[k..][i..], fold);
    assert t[k..][i..] == t[k + i..];
    Star(p, t, fold, k + i);
  }

  predicate AllStars(p: string) {
    forall i | 0 <= i < |p| :: p[i] == '*'
  }

  lemma {:induction false} MatchesEmpty(p: string, fold: char -> char)
    ensures Matches(p, "", fold) <==> AllStars(p)
  {
    if p != "" {
      MatchesEmpty(p[1..], fold);
      assert p == [p[0]] + p[1..];
      if p[0] == '*' {
        var e: string := "";
        assert e[0..] == e;
        if Matches(p[1..], "", fold) {
          Star(p, "", fold, 0);
        }
        if Matches(p, "", fold) {
          var k: nat :| k <= |e| && Matches(p[1..], e[k..], fold);
          assert e[k..] == "";
        }
      }
    }
  }

  // ---- The iterative matcher ----

  /** The loop's state: pattern and text positions, and the backtrack point. */
  datatype At = At(p: nat, t: nat, star: int, retry: nat)

  ghost predicate IsAt(pattern: string, text: string, a: At) {
    a.p <= |pattern| && a.t <= |text| && a.retry <= a.t && -1 <= a.star < a.p
  }

  function Left(text: string, a: At): int {
    if a.star < 0 then |text| + 1 else |text| - a.retry
  }

  /** The rest of the loop, and the trailing stars. */
  predicate GlobFrom(pattern: string, text: string, a: At)
    requires IsAt(pattern, text, a)
    decreases Left(text, a), |text| - a.t, |pattern| - a.p
  {
    if a.t == |text| then AllStars(pattern[a.p..])
    else if a.p < |pattern| && (pattern[a.p] == '?' || pattern[a.p] == text[a.t]) then
      GlobFrom(pattern, text, a.(p := a.p + 1, t := a.t + 1))
    else if a.p < |pattern| && pattern[a.p] == '*' then
      GlobFrom(pattern, text, At(a.p + 1, a.t, a.p, a.t))
    else if a.star >= 0 then
      GlobFrom(pattern, text, At(a.star + 1, a.retry + 1, a.star, a.retry + 1))
    else false
  }

  predicate Glob(pattern: string, text: string) {
    GlobFrom(pattern, text, At(0, 0, -1, 0))
  }

  /** A literal segment of the pattern against the text. */
  ghost predicate Segment(seg: string, t: string) {
    |seg| <= |t| && forall i | 0 <= i < |seg| :: seg[i] != '*' && (seg[i] == '?' || seg[i] == t[i])
  }

  lemma {:induction false} SegmentSplit(seg: string, rest: string, t: string)
    requires forall i | 0 <= i < |seg| :: seg[i] != '*'
    ensures Matches(seg + rest, t, Exact) <==> Segment(seg, t) && Matches(rest, t[|seg|..], Exact)
  {
    if seg == "" {
      assert seg + rest == rest && t[0..] == t;
    } else {
      assert (seg + rest)[1..] == seg[1..] + rest;
      if t != "" {
        SegmentSplit(seg[1..], rest, t[1..]);
        assert |seg| <= |t| ==> t[1..][|seg| - 1..] == t[|seg|..];
        assert Segment(seg, t) <==> (seg[0] == '?' || seg[0] == t[0]) && Segment(seg[1..], t[1..]) by {
          assert seg == [seg[0]] + seg[1..] && t == [t[0]] + t[1..];
        }
      }
    }
  }

  predicate NoStar(t: string) {
    forall i | 0 <= i < |t| :: t[i] != '*'
  }

  /** What the state can still find: a match from here, or from the backtrack
      point with more text given to the star. */
  predicate Later(pattern: string, text: string, a: At)
    requires IsAt(pattern, text, a)
  {
    LaterFrom(pattern, text, a.star, a.retry)
  }

  predicate LaterFrom(pattern: string, text: string, star: int, retry: nat)
    requires -1 <= star < |pattern|
  {
    star >= 0 && exists k: nat :: retry < k <= |text| && Matches(pattern[star + 1..], text[k..], Exact)
  }

  predicate Seeks(pattern: string, text: string, a: At)
    requires IsAt(pattern, text, a)
  {
    Matches(pattern[a.p..], text[a.t..], Exact) || Later(pattern, text, a)
  }

  /** Since the last star, literals only, and they match since retry. */
  ghost predicate Tracks(pattern: string, text: string, a: At)
    requires IsAt(pattern, text, a)
  {
    a.star >= 0 ==>
      && pattern[a.star] == '*' && a.p - (a.star + 1) == a.t - a.retry
      && Segment(pattern[a.star + 1..a.p], text[a.retry..])
  }

  /** A later match needs room for the literals, and then matches what is left of
      the pattern further on. */
  lemma LaterMatch(pattern: string, text: string, a: At, k: nat)
    requires IsAt(pattern, text, a) && Tracks(pattern, text, a) && a.star >= 0 && a.retry < k <= |text|
    requires Matches(pattern[a.star + 1..], text[k..], Exact)
    ensures a.t < k + (a.p - a.star - 1) <= |text|
    ensures Matches(pattern[a.p..], text[k + (a.p - a.star - 1)..], Exact)
  {
    var seg := pattern[a.star + 1..a.p];
    assert pattern[a.star + 1..] == seg + pattern[a.p..];
    SegmentSplit(seg, pattern[a.p..], text[k..]);
    assert text[k..][|seg|..] == text[k + |seg|..];
  }

  lemma AtEnd(pattern: string, text: string, a: At)
    requires IsAt(pattern, text, a) && Tracks(pattern, text, a) && a.t == |text|
    ensures Seeks(pattern, text, a) <==> AllStars(pattern[a.p..])
  {
    assert text[a.t..] == "";
    MatchesEmpty(pattern[a.p..], Exact);
    if Later(pattern, text, a) {
      var k: nat :| a.retry < k <= |text| && Matches(pattern[a.star + 1..], text[k..], Exact);
      LaterMatch(pattern, text, a, k);
      assert false;
    }
  }

  /** From b there is to find what there was from a. */
  ghost predicate Keeps(pattern: string, text: string, a: At, b: At)
    requires IsAt(pattern, text, a)
  {
    IsAt(pattern, text, b) && Tracks(pattern, text, b) && (Seeks(pattern, text, b) <==> Seeks(pattern, text, a))
  }

  lemma TakeChar(pattern: string, text: string, a: At, b: At)
    requires IsAt(pattern, text, a) && Tracks(pattern, text, a) && NoStar(text) && a.t < |text| && a.p < |pattern|
    requires pattern[a.p] == '?' || pattern[a.p] == text[a.t]
    requires b == a.(p := a.p + 1, t := a.t + 1)
    ensures Keeps(pattern, text, a, b)
  {
    TakeTracks(pattern, text, a, b);
    TakeMatch(pattern, text, a.p, a.t);
  }

  lemma TakeMatch(pattern: string, text: string, p: nat, t: nat)
    requires p < |pattern| && t < |text| && text[t] != '*' && (pattern[p] == '?' || pattern[p] == text[t])
    ensures Matches(pattern[p..], text[t..], Exact) <==> Matches(pattern[p + 1..], text[t + 1..], Exact)
  {
    assert pattern[p..][1..] == pattern[p + 1..] && text[t..][1..] == text[t + 1..];
  }

  lemma TakeTracks(pattern: string, text: string, a: At, b: At)
    requires IsAt(pattern, text, a) && Tracks(pattern, text, a) && NoStar(text) && a.t < |text| && a.p < |pattern|
    requires pattern[a.p] == '?' || pattern[a.p] == text[a.t]
    requires b == a.(p := a.p + 1, t := a.t + 1)
    ensures IsAt(pattern, text, b) && Tracks(pattern, text, b)
  {
    if a.star >= 0 {
      assert pattern[a.star + 1..a.p + 1] == pattern[a.star + 1..a.p] + [pattern[a.p]];
    }
  }

  /** What the old backtrack point could still find, the new star finds. */
  lemma LaterStar(pattern: string, text: string, a: At)
    requires IsAt(pattern, text, a) && Tracks(pattern, text, a) && a.p < |pattern| && pattern[a.p] == '*'
    requires Later(pattern, text, a)
    ensures Matches(pattern[a.p..], text[a.t..], Exact)
  {
    var k: nat :| a.retry < k <= |text| && Matches(pattern[a.star + 1..], text[k..], Exact);
    LaterMatch(pattern, text, a, k);
    var j := k + (a.p - a.star - 1);
    assert text[a.t..][j - a.t..] == text[j..];
    Absorbs(pattern[a.p..], text[a.t..], Exact, j - a.t);
  }

  /** A new star makes the old backtrack point useless. */
  lemma TakeStar(pattern: string, text: string, a: At, b: At)
    requires IsAt(pattern, text, a) && Tracks(pattern, text, a) && a.t < |text| && a.p < |pattern|
    requires pattern[a.p] == '*'
    requires b == At(a.p + 1, a.t, a.p, a.t)
    ensures Keeps(pattern, text, a, b)
  {
    var rest := pattern[a.p..];
    assert rest[1..] == pattern[a.p + 1..];
    if Later(pattern, text, a) {
      LaterStar(pattern, text, a);
    }
    if Matches(rest, text[a.t..], Exact) {
      var i: nat :| i <= |text[a.t..]| && Matches(rest[1..], text[a.t..][i..], Exact);
      assert text[a.t..][i..] == text[a.t + i..];
      if i > 0 {
        assert Later(pattern, text, b);
      }
    }
    if Seeks(pattern, text, b) {
      StarAgain(pattern, text, b);
    }
  }

  lemma StarAgain(pattern: string, text: string, b: At)
    requires IsAt(pattern, text, b) && b.star >= 0 && b.star + 1 == b.p && b.retry == b.t && pattern[b.star] == '*'
    requires Seeks(pattern, text, b)
    ensures Matches(pattern[b.star..], text[b.t..], Exact)
  {
    var k := b.t;
    if !Matches(pattern[b.p..], text[b.t..], Exact) {
      k :| b.retry < k <= |text| && Matches(pattern[b.star + 1..], text[k..], Exact);
    }
    assert pattern[b.star..][1..] == pattern[b.p..] && text[b.t..][k - b.t..] == text[k..];
    Star(pattern[b.star..], text[b.t..], Exact, k - b.t);
  }

  lemma BackTrack(pattern: string, text: string, a: At, b: At)
    requires IsAt(pattern, text, a) && Tracks(pattern, text, a) && a.star >= 0 && a.t < |text|
    requires a.p < |pattern| ==> pattern[a.p] != '?' && pattern[a.p] != '*' && pattern[a.p] != text[a.t]
    requires b == At(a.star + 1, a.retry + 1, a.star, a.retry + 1)
    ensures Keeps(pattern, text, a, b)
  {
    NotHere(pattern, text, a);
    if Later(pattern, text, a) {
      var k: nat :| a.retry < k <= |text| && Matches(pattern[a.star + 1..], text[k..], Exact);
      assert k == b.t || Later(pattern, text, b);
    }
  }

  lemma NotHere(pattern: string, text: string, a: At)
    requires IsAt(pattern, text, a) && a.t < |text|
    requires a.p < |pattern| ==> pattern[a.p] != '?' && pattern[a.p] != '*' && pattern[a.p] != text[a.t]
    ensures !Matches(pattern[a.p..], text[a.t..], Exact)
  {
  }

  /** One turn of the loop, if it goes on. */
  function Turn(pattern: string, text: string, a: At): At
    requires IsAt(pattern, text, a) && a.t < |text|
  {
    if a.p < |pattern| && (pattern[a.p] == '?' || pattern[a.p] == text[a.t]) then a.(p := a.p + 1, t := a.t + 1)
    else if a.p < |pattern| && pattern[a.p] == '*' then At(a.p + 1, a.t, a.p, a.t)
    else if a.star >= 0 then At(a.star + 1, a.retry + 1, a.star, a.retry + 1)
    else a
  }

  lemma TurnSeeks(pattern: string, text: string, a: At)
    requires IsAt(pattern, text, a) && Tracks(pattern, text, a) && NoStar(text) && a.t < |text|
    ensures Keeps(pattern, text, a, Turn(pattern, text, a))
  {
    var b := Turn(pattern, text, a);
    if a.p < |pattern| && (pattern[a.p] == '?' || pattern[a.p] == text[a.t]) {
      TakeChar(pattern, text, a, b);
    } else if a.p < |pattern| && pattern[a.p] == '*' {
      TakeStar(pattern, text, a, b);
    } else if a.star >= 0 {
      BackTrack(pattern, text, a, b);
    }
  }

  /** On text without stars the loop finds whatever there is to find. */
  lemma {:induction false} GlobSeeks(pattern: string, text: string, a: At)
    requires IsAt(pattern, text, a) && Tracks(pattern, text, a) && NoStar(text)
    ensures GlobFrom(pattern, text, a) <==> Seeks(pattern, text, a)
    decreases Left(text, a), |text| - a.t, |pattern| - a.p
  {
    if a.t == |text| {
      AtEnd(pattern, text, a);
    } else if Turn(pattern, text, a) == a {
      NotHere(pattern, text, a);
    } else {
      TurnSeeks(pattern, text, a);
      GlobSeeks(pattern, text, Turn(pattern, text, a));
    }
  }

  lemma GlobIsMatches(pattern: string, text: string)
    requires NoStar(text)
    ensures Glob(pattern, text) <==> Matches(pattern, text, Exact)
  {
    GlobSeeks(pattern, text, At(0, 0, -1, 0));
    assert pattern[0..] == pattern && text[0..] == text;
  }

  /** The loop as the code runs it: the state machine, and so on text without a
      star the declarative relation. */
  method GlobMatches(pattern: string, text: string) returns (r: bool)
    ensures r == Glob(pattern, text)
    ensures NoStar(text) ==> (r <==> Matches(pattern, text, Exact))
  {
    if NoStar(text) {
      GlobIsMatches(pattern, text);
    }
    var p, t, star, retry := 0, 0, -1, 0;
    while t < |text|
      invariant IsAt(pattern, text, At(p, t, star, retry))
      invariant GlobFrom(pattern, text, At(p, t, star, retry)) == Glob(pattern, text)
      decreases Left(text, At(p, t, star, retry)), |text| - t, |pattern| - p
    {
      if p < |pattern| && (pattern[p] == '?' || pattern[p] == text[t]) {
        p := p + 1;
        t := t + 1;
      } else if p < |pattern| && pattern[p] == '*' {
        star := p;
        p := p + 1;
        retry := t;
      } else if star >= 0 {
        p := star + 1;
        retry := retry + 1;
        t := retry;
      } else {
        return false;
      }
    }
    ghost var trailing := p;
    while p < |pattern| && pattern[p] == '*'
      invariant trailing <= p <= |pattern| && forall i | trailing <= i < p :: pattern[i] == '*'
    {
      p := p + 1;
    }
    r := p == |pattern|;
    if p < |pattern| {
      assert pattern[trailing..][p - trailing] == pattern[p];
    }
  }

  // ---- With a star in the text, some pattern goes wrong ----

  function Questions(n: nat): string {
    seq(n, _ => '?')
  }

  /** The text up to its first star, a star, and a '?' for each character left. */
  function Breaker(text: string, first: nat): string
    requires first < |text|
  {
    text[..first] + "*" + Questions(|text| - first)
  }

  lemma BreakerMatches(text: string, first: nat)
    requires first < |text| && text[first] == '*' && NoStar(text[..first])
    ensures Matches(Breaker(text, first), text, Exact)
  {
    StarQuestions(text[first..]);
    var seg, tail := text[..first], "*" + Questions(|text[first..]|);
    assert Breaker(text, first) == seg + tail;
    assert Segment(seg, text);
    SegmentSplit(seg, tail, text);
  }

  lemma StarQuestions(t: string)
    ensures Matches("*" + Questions(|t|), t, Exact)
  {
    QuestionsMatch(t);
    assert ("*" + Questions(|t|))[1..] == Questions(|t|) && t[0..] == t;
    Star("*" + Questions(|t|), t, Exact, 0);
  }

  lemma {:induction false} QuestionsMatch(t: string)
    ensures Matches(Questions(|t|), t, Exact)
  {
    if t != "" {
      QuestionsMatch(t[1..]);
      assert Questions(|t|)[1..] == Questions(|t| - 1);
    }
  }

  /** The loop takes the pattern's star for the text's, and is left with a '?'
      too many. */
  lemma {:induction false} BreakerFails(text: string, first: nat, n: nat)
    requires first < n <= |text| && text[first] == '*'
    ensures !GlobFrom(Breaker(text, first), text, At(n, n, -1, 0))
    decreases |text| - n
  {
    var p := Breaker(text, first);
    if n < |text| {
      BreakerFails(text, first, n + 1);
    } else {
      assert p[n..][0] == '?';
    }
  }

  lemma {:induction false} BreakerStart(text: string, first: nat, n: nat)
    requires n <= first < |text| && text[first] == '*' && NoStar(text[..first])
    ensures !GlobFrom(Breaker(text, first), text, At(n, n, -1, 0))
    decreases first - n
  {
    if n < first {
      BreakerStart(text, first, n + 1);
    } else {
      BreakerFails(text, first, n + 1);
    }
  }

  lemma FirstStar(text: string) returns (first: nat)
    requires !NoStar(text)
    ensures first < |text| && text[first] == '*' && NoStar(text[..first])
  {
    first := 0;
    while text[first] != '*'
      invariant first < |text| && NoStar(text[..first]) && exists i | first <= i < |text| :: text[i] == '*'
      decreases |text| - first
    {
      first := first + 1;
    }
  }

  /** The iterative matcher is right about a text for every pattern exactly if
      the text has no star in it. */
  lemma GlobRightIffNoStar(text: string)
    ensures NoStar(text) <==> forall pattern :: Glob(pattern, text) == Matches(pattern, text, Exact)
  {
    if NoStar(text) {
      forall pattern ensures Glob(pattern, text) == Matches(pattern, text, Exact) {
        GlobIsMatches(pattern, text);
      }
    } else {
      var first := FirstStar(text);
      BreakerMatches(text, first);
      BreakerStart(text, first, 0);
      assert Glob(Breaker(text, first), text) != Matches(Breaker(text, first), text, Exact);
    }
  }

  // ---- The recursive matcher ----

  /** Several stars act as one. */
  lemma {:induction false} StarsAreOne(p: string, rest: string, t: string, fold: char -> char)
    requires p != "" && AllStars(p)
    ensures Matches(p + rest, t, fold) <==> exists k: nat :: k <= |t| && Matches(rest, t[k..], fold)
  {
    var q := p + rest;
    assert q[1..] == p[1..] + rest;
    if |p| == 1 {
      assert q[1..] == rest;
    } else {
      if Matches(q, t, fold) {
        var i: nat :| i <= |t| && Matches(q[1..], t[i..], fold);
        StarsAreOne(p[1..], rest, t[i..], fold);
        var k: nat :| k <= |t[i..]| && Matches(rest, t[i..][k..], fold);
        assert t[i..][k..] == t[i + k..];
      }
      if exists k: nat :: k <= |t| && Matches(rest, t[k..], fold) {
        StarsAreOne(p[1..], rest, t, fold);
        assert t[0..] == t;
        Star(q, t, fold, 0);
      }
    }
  }

  /** For all text, stars included, the recursive matcher decides the relation. */
  method NaiveRecursiveMatch(text: string, wild: string, fold: char -> char) returns (r: bool)
    ensures r <==> Matches(wild, text, fold)
    decreases |wild|, 0
  {
    var i, j := 0, 0;
    assert text[0..] == text && wild[0..] == wild;
    while i < |text|
      invariant i <= |text| && j <= |wild|
      invariant Matches(wild, text, fold) <==> Matches(wild[j..], text[i..], fold)
    {
      if j < |wild| && wild[j] == '*' {
        var rest := j + 1;
        while rest < |wild| && wild[rest] == '*'
          invariant j < rest <= |wild| && forall k | j <= k < rest :: wild[k] == '*'
        {
          rest := rest + 1;
        }
        r := StarLoop(text[i..], wild[rest..], fold);
        assert wild[j..] == wild[j..rest] + wild[rest..];
        StarsAreOne(wild[j..rest], wild[rest..], text[i..], fold);
        return;
      }
      if j == |wild| || (wild[j] != '?' && fold(wild[j]) != fold(text[i])) {
        return false;
      }
      assert text[i..][1..] == text[i + 1..] && wild[j..][1..] == wild[j + 1..];
      i := i + 1;
      j := j + 1;
    }
    ghost var trailing := j;
    assert text[i..] == "";
    MatchesEmpty(wild[j..], fold);
    while j < |wild| && wild[j] == '*'
      invariant trailing <= j <= |wild| && forall k | trailing <= k < j :: wild[k] == '*'
    {
      j := j + 1;
    }
    r := j == |wild|;
    if j < |wild| {
      assert wild[trailing..][j - trailing] == wild[j];
    }
  }

  /** Behind a star: the rest of the pattern somewhere in the text. */
  method StarLoop(text: string, wild: string, fold: char -> char) returns (r: bool)
    requires wild != "" ==> wild[0] != '*'
    ensures r <==> exists k: nat :: k <= |text| && Matches(wild, text[k..], fold)
    decreases |wild|, 1
  {
    if wild == "" {
      assert text[|text|..] == "";
      return true;
    }
    var i := 0;
    while true
      invariant i <= |text| && forall k: nat | k < i :: !Matches(wild, text[k..], fold)
      decreases |text| - i
    {
      var found := NaiveRecursiveMatch(text[i..], wild, fold);
      if found || i == |text| {
        break;
      }
      i := i + 1;
    }
    r := i < |text|;
    if i == |text| {
      assert text[i..] == "";
      MatchesEmpty(wild, fold);
    }
  }

  /** Folding while matching is matching what is folded already. */
  lemma {:induction false} FoldedMatch(p: string, t: string)
    ensures Matches(p, t, ToUpper) <==> Matches(Upper(p), Upper(t), Exact)
    decreases |p|
  {
    if p != "" {
      assert Upper(p)[1..] == Upper(p[1..]);
      if p[0] == '*' {
        forall k: nat | k <= |t|
          ensures Matches(p[1..], t[k..], ToUpper) <==> Matches(Upper(p)[1..], Upper(t)[k..], Exact)
        {
          FoldedMatch(p[1..], t[k..]);
          assert Upper(t)[k..] == Upper(t[k..]);
        }
      } else if t != "" {
        FoldedMatch(p[1..], t[1..]);
        assert Upper(t)[1..] == Upper(t[1..]);
      }
    }
  }

  /** So the two matchers agree on upper-case input without a star in the text. */
  lemma MatchersAgree(p: string, t: string)
    requires Upper(p) == p && Upper(t) == t && NoStar(t)
    ensures Glob(p, t) <==> Matches(p, t, ToUpper)
  {
    GlobIsMatches(p, t);
    FoldedMatch(p, t);
  }
}
