/** Host file names as Atari names of eight and three characters, and the order in
    which they are named. Strings are of bytes. */
module AtariNames {
  import opened Ascii
  import opened Options

  const DOT: char := '.'

  predicate NameChar(c: char) {
    'A' <= c <= 'Z' || '0' <= c <= '9' || c == '_' || c == '@'
  }

  predicate AliasChar(c: char) {
    'A' <= c <= 'Z' || '0' <= c <= '9'
  }

  /** The last dot, or the length. */
  function LastDot(s: string): (d: nat)
    ensures d <= |s| && (d < |s| ==> s[d] == DOT) && forall i | d < i < |s| :: s[i] != DOT
  {
    if DOT !in s then |s|
    else if s[|s| - 1] == DOT then |s| - 1
    else LastDot(s[..|s| - 1])
  }

  function BaseOf(s: string): string {
    s[..LastDot(s)]
  }

  function ExtensionOf(s: string): string {
    if LastDot(s) == |s| then "" else s[LastDot(s) + 1..]
  }

  // ---- Direct encoding ----

  /** A name and an extension, filled up with spaces. */
  datatype Entry = Entry(name: string, extension: string)

  function Fill(s: string, n: nat): (r: string)
    ensures |r| == n
  {
    if |s| <= n then s + seq(n - |s|, _ => ' ') else s[..n]
  }

  predicate NameChars(s: string) {
    forall i | 0 <= i < |s| :: NameChar(ToUpper(s[i]))
  }

  predicate Encodable(host: string) {
    && 0 < |BaseOf(host)| <= 8 && |ExtensionOf(host)| <= 3
    && NameChars(BaseOf(host)) && NameChars(ExtensionOf(host))
  }

  function Encoded(host: string): (e: Entry)
    requires Encodable(host)
    ensures |e.name| == 8 && |e.extension| == 3
  {
    Entry(Fill(Upper(BaseOf(host)), 8), Fill(Upper(ExtensionOf(host)), 3))
  }

  method EncodeAtariFilename(host: string) returns (r: Option<Entry>)
    ensures r == if Encodable(host) then Some(Encoded(host)) else None
  {
    var dot := LastDot(host);
    var baseLength, extensionLength := dot, if dot == |host| then 0 else |host| - dot - 1;
    if baseLength == 0 || baseLength > 8 || extensionLength > 3 {
      return None;
    }
    var name, extension := seq(8, _ => ' '), seq(3, _ => ' ');
    for i := 0 to |host|
      invariant |name| == 8 && |extension| == 3
      invariant forall k | 0 <= k < i && k != dot :: NameChar(ToUpper(host[k]))
      invariant forall k | 0 <= k < 8 :: name[k] == if k < i && k < baseLength then ToUpper(host[k]) else ' '
      invariant forall k | 0 <= k < 3 ::
        extension[k] == if dot + 1 + k < i then ToUpper(host[dot + 1 + k]) else ' '
    {
      if i != dot {
        var c := ToUpper(host[i]);
        if !NameChar(c) {
          NotEncodable(host, i);
          return None;
        }
        if i < baseLength {
          name := name[i := c];
        } else {
          extension := extension[i - dot - 1 := c];
        }
      }
    }
    EncodedIs(host, name, extension);
    r := Some(Entry(name, extension));
  }

  lemma EncodedIs(host: string, name: string, extension: string)
    requires 0 < |BaseOf(host)| <= 8 && |ExtensionOf(host)| <= 3 && |name| == 8 && |extension| == 3
    requires forall k | 0 <= k < |host| && k != LastDot(host) :: NameChar(ToUpper(host[k]))
    requires forall k | 0 <= k < 8 :: name[k] == if k < LastDot(host) then ToUpper(host[k]) else ' '
    requires forall k | 0 <= k < 3 ::
      extension[k] == if LastDot(host) + 1 + k < |host| then ToUpper(host[LastDot(host) + 1 + k]) else ' '
    ensures Encodable(host) && Encoded(host) == Entry(name, extension)
  {
    assert name == Fill(Upper(BaseOf(host)), 8);
    assert extension == Fill(Upper(ExtensionOf(host)), 3);
  }

  lemma NotEncodable(host: string, i: nat)
    requires i < |host| && i != LastDot(host) && !NameChar(ToUpper(host[i]))
    ensures !Encodable(host)
  {
    if i < LastDot(host) {
      NotName(BaseOf(host), i);
    } else {
      NotName(ExtensionOf(host), i - LastDot(host) - 1);
    }
  }

  lemma NotName(s: string, i: nat)
    requires i < |s| && !NameChar(ToUpper(s[i]))
    ensures !NameChars(s)
  {
  }

  // ---- The order ----

  /** Byte by byte; a proper prefix comes first. */
  predicate LexLess(a: string, b: string) {
    b != "" && (a == "" || a[0] < b[0] || (a[0] == b[0] && LexLess(a[1..], b[1..])))
  }

  lemma {:induction false} LexTotal(a: string, b: string)
    ensures !LexLess(a, a)
    ensures (if LexLess(a, b) then 1 else 0) + (if LexLess(b, a) then 1 else 0) + (if a == b then 1 else 0) == 1
  {
    if a != "" {
      LexTotal(a[1..], if b == "" then "" else b[1..]);
      if b != "" && a[0] == b[0] {
        assert a == [a[0]] + a[1..] && b == [b[0]] + b[1..];
      }
    }
  }

  lemma {:induction false} LexTransitive(a: string, b: string, c: string)
    requires LexLess(a, b) && LexLess(b, c)
    ensures LexLess(a, c)
  {
    if a != "" && a[0] == b[0] == c[0] {
      LexTransitive(a[1..], b[1..], c[1..]);
    }
  }

  /** atariFilenameLess from the i-th character on: case folded, then by length,
      then case by case. */
  predicate LessFrom(a: string, b: string, i: nat)
    requires i <= |a| && i <= |b|
    decreases |a| - i
  {
    if i == |a| || i == |b| then (if |a| != |b| then |a| < |b| else LexLess(a, b))
    else if ToUpper(a[i]) != ToUpper(b[i]) then ToUpper(a[i]) < ToUpper(b[i])
    else LessFrom(a, b, i + 1)
  }

  predicate Less(a: string, b: string) {
    LessFrom(a, b, 0)
  }

  /** The same, in terms of the folded names. */
  lemma {:induction false} LessMeans(a: string, b: string, i: nat)
    requires i <= |a| && i <= |b| && Upper(a)[..i] == Upper(b)[..i]
    ensures LessFrom(a, b, i) <==>
      LexLess(Upper(a)[i..], Upper(b)[i..]) || (Upper(a) == Upper(b) && LexLess(a, b))
    decreases |a| - i
  {
    var u, v := Upper(a), Upper(b);
    if i < |a| && i < |b| {
      assert u[i..][1..] == u[i + 1..] && v[i..][1..] == v[i + 1..];
      if u[i] == v[i] {
        assert u[..i + 1] == u[..i] + [u[i]] && v[..i + 1] == v[..i] + [v[i]];
        LessMeans(a, b, i + 1);
      }
    } else if |a| == |b| {
      assert u == u[..i] && v == v[..i];
    }
  }

  lemma LessIs(a: string, b: string)
    ensures Less(a, b) <==> LexLess(Upper(a), Upper(b)) || (Upper(a) == Upper(b) && LexLess(a, b))
  {
    LessMeans(a, b, 0);
    assert Upper(a)[0..] == Upper(a) && Upper(b)[0..] == Upper(b);
  }

  method AtariFilenameLess(a: string, b: string) returns (less: bool)
    ensures less == Less(a, b)
    ensures less <==> LexLess(Upper(a), Upper(b)) || (Upper(a) == Upper(b) && LexLess(a, b))
  {
    LessIs(a, b);
    var length := if |a| < |b| then |a| else |b|;
    for i := 0 to length
      invariant Less(a, b) == LessFrom(a, b, i)
    {
      if ToUpper(a[i]) != ToUpper(b[i]) {
        return ToUpper(a[i]) < ToUpper(b[i]);
      }
    }
    if |a| != |b| {
      return |a| < |b|;
    }
    less := LexLess(a, b);
  }

  /** A strict total order: of any two different names one comes first. */
  lemma LessTotal(a: string, b: string)
    ensures !Less(a, a) && !(Less(a, b) && Less(b, a)) && (a != b ==> Less(a, b) || Less(b, a))
  {
    LessIs(a, a);
    LessIs(a, b);
    LessIs(b, a);
    LexTotal(a, b);
    LexTotal(Upper(a), Upper(b));
  }

  lemma LessTransitive(a: string, b: string, c: string)
    requires Less(a, b) && Less(b, c)
    ensures Less(a, c)
  {
    LessIs(a, b);
    LessIs(b, c);
    LessIs(a, c);
    if LexLess(Upper(a), Upper(b)) && LexLess(Upper(b), Upper(c)) {
      LexTransitive(Upper(a), Upper(b), Upper(c));
    }
    if LexLess(a, b) && LexLess(b, c) {
      LexTransitive(a, b, c);
    }
  }

  // ---- Sorted lists ----

  ghost predicate Sorted(names: seq<string>) {
    forall i, j | 0 <= i < j < |names| :: Less(names[i], names[j])
  }

  /** A set of names has one sorted list only. */
  lemma {:induction false} SortedUnique(a: seq<string>, b: seq<string>)
    requires Sorted(a) && Sorted(b) && forall s :: s in a <==> s in b
    ensures a == b
  {
    assert b != [] ==> b[0] in b;
    if a != [] {
      assert a[0] in b && b != [] && b[0] in a;
      var i :| 0 <= i < |b| && b[i] == a[0];
      var j :| 0 <= j < |a| && a[j] == b[0];
      LessTotal(a[0], b[0]);
      assert a[0] == b[0];
      forall s ensures s in a[1..] <==> s in b[1..] {
        RestIs(a, s);
        RestIs(b, s);
      }
      SortedUnique(a[1..], b[1..]);
      assert a == [a[0]] + a[1..] && b == [b[0]] + b[1..];
    }
  }

  lemma RestIs(a: seq<string>, s: string)
    requires Sorted(a) && a != []
    ensures s in a[1..] <==> s in a && s != a[0]
  {
    LessTotal(a[0], a[0]);
    assert a == [a[0]] + a[1..];
    forall i | 0 <= i < |a[1..]| ensures a[1..][i] != a[0] {
      assert Less(a[0], a[i + 1]);
    }
  }
}
