/** Names in the image: eleven bytes of an entry, filled with spaces, and the name
    that they stand for. */
module SdfsNames {
  import opened ByteBits

  const BLANK: byte := 0x20
  const POINT: byte := 0x2e

  function Code(c: char): byte {
    c as int % 256
  }

  /** Eight and three characters at most, and at least one before the dot. */
  function Dot(name: string): (k: nat)
    ensures k <= |name|
  {
    if name == "" || name[0] == '.' then 0 else 1 + Dot(name[1..])
  }

  predicate IsShortName(name: string) {
    0 < Dot(name) <= 8 && |name| <= Dot(name) + 4
  }

  /** The name's bytes in an entry. */
  function Atari(name: string): (b: seq<byte>)
    ensures |b| == 11
  {
    Padded(name[..Dot(name)], 8) + Padded(if Dot(name) < |name| then name[Dot(name) + 1..] else "", 3)
  }

  /** Cut or filled with spaces to n bytes. */
  function Padded(s: string, n: nat): (b: seq<byte>)
    ensures |b| == n
  {
    seq(n, k requires 0 <= k < n => if k < |s| then Code(s[k]) else BLANK)
  }

  /** Without the spaces at the end. */
  function Trim(b: seq<byte>): (t: seq<byte>)
    ensures t <= b && (t != [] ==> t[|t| - 1] != BLANK)
    ensures forall k | |t| <= k < |b| :: b[k] == BLANK
  {
    if b == [] || b[|b| - 1] != BLANK then b else Trim(b[..|b| - 1])
  }

  /** The name that an entry's eleven bytes show, as bytes. */
  function Visible(b: seq<byte>): seq<byte>
    requires |b| == 11
  {
    Trim(b[..8]) + if Trim(b[8..]) == [] then [] else [POINT] + Trim(b[8..])
  }

  /** A file's own: none if there is nothing before the dot. */
  function VisibleName(b: seq<byte>): seq<byte>
    requires |b| == 11
  {
    if Trim(b[..8]) == [] then [] else Visible(b)
  }

  function Codes(name: string): (b: seq<byte>)
    ensures |b| == |name|
  {
    seq(|name|, k requires 0 <= k < |name| => Code(name[k]))
  }

  predicate Plain(s: string) {
    forall k | 0 <= k < |s| :: s[k] as int < 256 && s[k] != ' '
  }

  /** An ASCII name without spaces is shown as it is. */
  lemma VisibleAtari(name: string)
    requires IsShortName(name) && Plain(name) && (Dot(name) < |name| ==> Dot(name) + 1 < |name|)
    ensures VisibleName(Atari(name)) == Visible(Atari(name)) == Codes(name)
  {
    DotAt(name);
    VisibleSplit(name, Dot(name));
  }

  lemma VisibleSplit(name: string, dot: nat)
    requires dot == Dot(name) <= |name| && 0 < dot <= 8 && |name| <= dot + 4 && Plain(name)
    requires dot < |name| ==> dot + 1 < |name| && name[dot] == '.'
    ensures VisibleName(Atari(name)) == Visible(Atari(name)) == Codes(name)
  {
    if dot < |name| {
      VisibleDotted(name, dot, name[..dot], name[dot + 1..]);
    } else {
      assert name[..dot] == name;
      VisibleParts(name, "");
    }
  }

  lemma VisibleDotted(name: string, dot: nat, base: string, extension: string)
    requires dot == Dot(name) && 0 < dot <= 8 && dot + 1 < |name| <= dot + 4 && name[dot] == '.' && Plain(name)
    requires base == name[..dot] && extension == name[dot + 1..]
    ensures VisibleName(Atari(name)) == Visible(Atari(name)) == Codes(name)
  {
    NameParts(name, dot);
    VisibleParts(base, extension);
  }

  lemma NameParts(name: string, dot: nat)
    requires dot + 1 < |name| && name[dot] == '.'
    ensures Codes(name) == Codes(name[..dot]) + ([POINT] + Codes(name[dot + 1..]))
  {
  }

  lemma VisibleParts(base: string, extension: string)
    requires 0 < |base| <= 8 && |extension| <= 3 && Plain(base) && Plain(extension)
    ensures VisibleName(Padded(base, 8) + Padded(extension, 3)) == Visible(Padded(base, 8) + Padded(extension, 3))
            == Codes(base) + if extension == "" then [] else [POINT] + Codes(extension)
  {
    var b := Padded(base, 8) + Padded(extension, 3);
    assert b[..8] == Padded(base, 8) && b[8..] == Padded(extension, 3);
    TrimPadded(base, 8);
    TrimPadded(extension, 3);
  }

  lemma TrimPadded(s: string, n: nat)
    requires |s| <= n && Plain(s)
    ensures Trim(Padded(s, n)) == Codes(s)
  {
    var b := Padded(s, n);
    TrimTo(b, |s|);
    assert b[..|s|] == Codes(s);
  }

  lemma {:induction false} DotAt(name: string)
    ensures Dot(name) < |name| ==> name[Dot(name)] == '.'
  {
    if name != "" && name[0] != '.' {
      DotAt(name[1..]);
    }
  }

  lemma {:induction false} TrimTo(b: seq<byte>, n: nat)
    requires n <= |b| && (n > 0 ==> b[n - 1] != BLANK) && forall k | n <= k < |b| :: b[k] == BLANK
    ensures Trim(b) == b[..n]
  {
    if |b| > n {
      TrimTo(b[..|b| - 1], n);
      assert b[..|b| - 1][..n] == b[..n];
    }
  }
}
