/** Bytes of a disk image read and written across its sectors, whatever their
    sizes: the image behaves like one array of bytes. */
module DiskBytes {
  import opened Arith
  import opened ByteBits

  const BLOCK: nat := 512

  /** Mixed: the first three sectors are of 128 bytes. */
  datatype Geometry = Mixed(size: nat) | Uniform(size: nat)

  function SizeOf(g: Geometry, sector: nat): nat {
    if g.Mixed? && sector <= 3 then 128 else g.size
  }

  /** The offset of a sector, counted from 1. */
  function StartOf(g: Geometry, sector: nat): nat
    requires sector >= 1
  {
    if g.Uniform? then (sector - 1) * g.size
    else if sector <= 3 then (sector - 1) * 128
    else (sector - 4) * g.size + 384
  }

  function SectorAt(g: Geometry, offset: nat): (s: nat)
    requires g.size > 0
    ensures s >= 1
  {
    if g.Uniform? then Quotient(offset, g.size) + 1
    else if offset < 384 then offset / 128 + 1
    else Quotient(offset - 384, g.size) + 4
  }

  function Quotient(x: nat, d: nat): (q: nat)
    requires d > 0
    ensures q * d <= x < q * d + d
  {
    var q := x / d;
    assert x == q * d + x % d;
    q
  }

  lemma StartNext(g: Geometry, sector: nat)
    requires sector >= 1
    ensures StartOf(g, sector + 1) == StartOf(g, sector) + SizeOf(g, sector)
  {
    assert sector * g.size == (sector - 1) * g.size + g.size;
    assert (sector - 3) * g.size == (sector - 4) * g.size + g.size;
  }

  lemma SectorFits(g: Geometry, offset: nat)
    requires g.size > 0
    ensures StartOf(g, SectorAt(g, offset)) <= offset
            < StartOf(g, SectorAt(g, offset)) + SizeOf(g, SectorAt(g, offset))
  {
  }

  lemma {:induction false} StartGrows(g: Geometry, s: nat, t: nat)
    requires 1 <= s <= t
    ensures StartOf(g, s) <= StartOf(g, t)
  {
    if s < t {
      StartGrows(g, s, t - 1);
      StartNext(g, t - 1);
    }
  }

  // ---- The image as bytes ----

  ghost predicate IsImage(g: Geometry, sectors: seq<seq<byte>>) {
    forall i: nat | i < |sectors| :: |sectors[i]| == SizeOf(g, i + 1)
  }

  function Bytes(sectors: seq<seq<byte>>): seq<byte> {
    if sectors == [] then [] else Bytes(sectors[..|sectors| - 1]) + sectors[|sectors| - 1]
  }

  /** bytes with a piece laid over them, from offset on. */
  function Patched(bytes: seq<byte>, offset: nat, piece: seq<byte>): (p: seq<byte>)
    ensures |p| == |bytes|
  {
    seq(|bytes|, k requires 0 <= k < |bytes| => if offset <= k < offset + |piece| then piece[k - offset] else bytes[k])
  }

  lemma {:induction false} BytesLength(g: Geometry, sectors: seq<seq<byte>>)
    requires IsImage(g, sectors)
    ensures |Bytes(sectors)| == StartOf(g, |sectors| + 1)
  {
    if sectors == [] {
    } else {
      BytesLength(g, sectors[..|sectors| - 1]);
      StartNext(g, |sectors|);
    }
  }

  lemma {:induction false} BytesSplit(sectors: seq<seq<byte>>, i: nat)
    requires i < |sectors|
    ensures Bytes(sectors) == Bytes(sectors[..i]) + sectors[i] + Bytes(sectors[i + 1..])
  {
    var n := |sectors| - 1;
    if i < n {
      BytesSplit(sectors[..n], i);
      assert sectors[..n][..i] == sectors[..i] && sectors[..n][i + 1..] == sectors[i + 1..n];
      assert sectors[i + 1..][..n - i - 1] == sectors[i + 1..n];
    } else {
      assert sectors[i + 1..] == [];
    }
  }

  /** Sector s is its stretch of the bytes. */
  lemma SectorBytes(g: Geometry, sectors: seq<seq<byte>>, s: nat)
    requires IsImage(g, sectors) && 1 <= s <= |sectors|
    ensures StartOf(g, s) + SizeOf(g, s) <= |Bytes(sectors)|
    ensures Bytes(sectors)[StartOf(g, s)..StartOf(g, s) + SizeOf(g, s)] == sectors[s - 1]
  {
    BytesSplit(sectors, s - 1);
    BytesLength(g, sectors[..s - 1]);
  }

  /** Writing a sector lays it over that stretch. */
  lemma SectorWritten(sectors: seq<seq<byte>>, s: nat, b: seq<byte>)
    requires 1 <= s <= |sectors| && |b| == |sectors[s - 1]|
    ensures Bytes(sectors[s - 1 := b]) == Patched(Bytes(sectors), |Bytes(sectors[..s - 1])|, b)
  {
    var more := sectors[s - 1 := b];
    BytesSplit(sectors, s - 1);
    BytesSplit(more, s - 1);
    assert more[..s - 1] == sectors[..s - 1] && more[s..] == sectors[s..];
    Around(Bytes(sectors[..s - 1]), sectors[s - 1], Bytes(sectors[s..]), b);
  }

  lemma Around(before: seq<byte>, data: seq<byte>, after: seq<byte>, b: seq<byte>)
    requires |b| == |data|
    ensures before + b + after == Patched(before + data + after, |before|, b)
  {
  }

  /** An offset within the image is in one of its sectors. */
  lemma SectorInside(g: Geometry, sectors: seq<seq<byte>>, offset: nat)
    requires IsImage(g, sectors) && g.size > 0 && offset < |Bytes(sectors)|
    ensures 1 <= SectorAt(g, offset) <= |sectors|
  {
    var s := SectorAt(g, offset);
    SectorFits(g, offset);
    BytesLength(g, sectors);
    if s > |sectors| {
      StartGrows(g, |sectors| + 1, s);
    }
  }

  class Disk {
    const geometry: Geometry
    /** Sectors that cannot be read, or written. */
    const unreadable: set<nat>
    const unwritable: set<nat>
    var sectors: seq<seq<byte>>

    constructor (geometry: Geometry, sectors: seq<seq<byte>>, unreadable: set<nat>, unwritable: set<nat>)
      requires geometry.size > 0 && IsImage(geometry, sectors)
      ensures Valid() && this.geometry == geometry && this.sectors == sectors
    {
      this.geometry, this.sectors, this.unreadable, this.unwritable := geometry, sectors, unreadable, unwritable;
    }

    ghost predicate Valid()
      reads this
    {
      geometry.size > 0 && IsImage(geometry, sectors)
    }

    /** Images of 2 GB and more have no bytes to offer. */
    function Size(): (n: nat)
      reads this
    {
      var n := StartOf(geometry, |sectors| + 1);
      if |sectors| > 0 && n <= 0x7fff_ffff then n else 0
    }

    predicate InRange(offset: nat, length: nat)
      reads this
    {
      offset <= Size() && length <= Size() - offset
    }

    /** No sector is larger than the transfer buffer, and none of those touched fails. */
    predicate Sound()
      reads this
    {
      geometry.size <= BLOCK && unreadable == {} && unwritable == {}
    }

    method ReadSector(s: nat) returns (ok: bool, data: seq<byte>)
      requires Valid() && 1 <= s <= |sectors|
      ensures ok <==> s !in unreadable
      ensures ok ==> data == sectors[s - 1]
    {
      if s in unreadable {
        return false, [];
      }
      return true, sectors[s - 1];
    }

    method WriteSector(s: nat, data: seq<byte>) returns (ok: bool)
      requires Valid() && 1 <= s <= |sectors| && |data| == SizeOf(geometry, s)
      modifies this
      ensures Valid() && (ok <==> s !in unwritable)
      ensures sectors == if ok then old(sectors)[s - 1 := data] else old(sectors)
    {
      ok := s !in unwritable;
      if ok {
        sectors := sectors[s - 1 := data];
      }
    }

    method ReadBytes(offset: nat, buffer: array<byte>, length: nat) returns (ok: bool)
      requires Valid() && length <= buffer.Length
      modifies buffer
      ensures ok ==> InRange(offset, length)
      ensures ok && length > 0 ==>
        offset + length <= |Bytes(sectors)| && buffer[..length] == Bytes(sectors)[offset..offset + length]
      ensures InRange(offset, length) && Sound() ==> ok
    {
      if offset > Size() || length > Size() - offset {
        return false;
      }
      ghost var bytes := Bytes(sectors);
      BytesLength(geometry, sectors);
      var copied := 0;
      while copied < length
        invariant 0 <= copied <= length && (copied > 0 ==> offset + copied <= |bytes|)
        invariant copied > 0 ==> buffer[..copied] == bytes[offset..offset + copied]
      {
        var piece;
        ok, piece := ReadPiece(offset + copied, length - copied);
        if !ok {
          return;
        }
        CopyIn(piece, buffer, copied);
        SliceMore(bytes, offset, offset + copied, offset + copied + |piece|);
        copied := copied + |piece|;
      }
      ok := true;
    }

    /** As much as one sector holds of what is wanted from current on. */
    method ReadPiece(current: nat, wanted: nat) returns (ok: bool, piece: seq<byte>)
      requires Valid() && current < |Bytes(sectors)| && wanted > 0
      ensures Sound() ==> ok
      ensures ok ==> 0 < |piece| <= wanted && current + |piece| <= |Bytes(sectors)|
      ensures ok ==> piece == Bytes(sectors)[current..current + |piece|]
    {
      SectorInside(geometry, sectors, current);
      SectorFits(geometry, current);
      var sector := SectorAt(geometry, current);
      var start, size := StartOf(geometry, sector), SizeOf(geometry, sector);
      if size > BLOCK {
        return false, [];
      }
      var data;
      ok, data := ReadSector(sector);
      if !ok {
        return false, [];
      }
      var inSector := current - start;
      var count := if wanted < size - inSector then wanted else size - inSector;
      PieceRead(geometry, sectors, sector, inSector, count);
      piece := data[inSector..inSector + count];
    }

    method CopyIn(from: seq<byte>, to: array<byte>, at: nat)
      requires at + |from| <= to.Length
      modifies to
      ensures to[..at + |from|] == old(to[..at]) + from
    {
      forall i | 0 <= i < |from| {
        to[at + i] := from[i];
      }
    }

    /** done: how much was written before a sector failed. */
    method WriteBytes(offset: nat, buffer: seq<byte>) returns (ok: bool, done: nat)
      requires Valid()
      modifies this
      ensures Valid() && done <= |buffer| && (ok ==> done == |buffer|)
      ensures ok ==> old(InRange(offset, |buffer|))
      ensures old(InRange(offset, |buffer|)) && Sound() ==> ok
      ensures done > 0 ==> old(InRange(offset, |buffer|)) && offset + done <= |old(Bytes(sectors))|
      ensures Bytes(sectors) == Patched(old(Bytes(sectors)), offset, buffer[..done])
    {
      done := 0;
      if offset > Size() || |buffer| > Size() - offset {
        return false, done;
      }
      ghost var bytes := Bytes(sectors);
      BytesLength(geometry, sectors);
      assert Patched(bytes, offset, buffer[..0]) == bytes;
      while done < |buffer|
        invariant 0 <= done <= |buffer| && (|buffer| > 0 ==> offset + |buffer| <= |bytes|) && Valid()
        invariant Bytes(sectors) == Patched(bytes, offset, buffer[..done])
      {
        var count;
        ok, count := WritePiece(offset + done, buffer[done..]);
        if !ok {
          return false, done;
        }
        assert buffer[done..][..count] == buffer[done..done + count];
        PatchMore(bytes, offset, buffer, done, count);
        done := done + count;
      }
      assert buffer[..done] == buffer;
      ok := true;
    }

    /** As much as goes into one sector from current on. */
    method WritePiece(current: nat, wanted: seq<byte>) returns (ok: bool, count: nat)
      requires Valid() && current + |wanted| <= |Bytes(sectors)| && |wanted| > 0
      modifies this
      ensures Valid() && (Sound() ==> ok) && (ok ==> 0 < count <= |wanted|)
      ensures Bytes(sectors) ==
        if ok then Patched(old(Bytes(sectors)), current, wanted[..count]) else old(Bytes(sectors))
    {
      count := 0;
      SectorInside(geometry, sectors, current);
      SectorFits(geometry, current);
      var sector := SectorAt(geometry, current);
      ok, count := WriteIn(sector, current - StartOf(geometry, sector), wanted);
    }

    /** As much as goes into sector s from byte inSector on. */
    method WriteIn(s: nat, inSector: nat, wanted: seq<byte>) returns (ok: bool, count: nat)
      requires Valid() && 1 <= s <= |sectors| && inSector < SizeOf(geometry, s) && |wanted| > 0
      modifies this
      ensures Valid() && (Sound() ==> ok) && (ok ==> 0 < count <= |wanted|)
      ensures Bytes(sectors) ==
        if ok then Patched(old(Bytes(sectors)), StartOf(geometry, s) + inSector, wanted[..count])
        else old(Bytes(sectors))
    {
      count := 0;
      var size := SizeOf(geometry, s);
      if size > BLOCK {
        return false, count;
      }
      var data;
      ok, data := ReadSector(s);
      if !ok {
        return;
      }
      count := if |wanted| < size - inSector then |wanted| else size - inSector;
      PieceWritten(geometry, sectors, s, inSector, wanted[..count]);
      ok := WriteSector(s, Patched(data, inSector, wanted[..count]));
    }
  }

  lemma SliceMore(bytes: seq<byte>, a: nat, b: nat, c: nat)
    requires a <= b <= c <= |bytes|
    ensures bytes[a..c] == bytes[a..b] + bytes[b..c]
  {
  }

  lemma PieceRead(g: Geometry, sectors: seq<seq<byte>>, s: nat, inSector: nat, count: nat)
    requires IsImage(g, sectors) && 1 <= s <= |sectors| && inSector + count <= SizeOf(g, s)
    ensures var at := StartOf(g, s) + inSector;
      at + count <= |Bytes(sectors)| && sectors[s - 1][inSector..inSector + count] == Bytes(sectors)[at..at + count]
  {
    SectorBytes(g, sectors, s);
    SliceOfSlice(Bytes(sectors), StartOf(g, s), sectors[s - 1], inSector, count);
  }

  lemma SliceOfSlice(bytes: seq<byte>, at: nat, data: seq<byte>, i: nat, count: nat)
    requires at + |data| <= |bytes| && bytes[at..at + |data|] == data && i + count <= |data|
    ensures data[i..i + count] == bytes[at + i..at + i + count]
  {
    var all := bytes[at + i..at + i + count];
    forall k | 0 <= k < count ensures data[i..i + count][k] == all[k] {
      assert bytes[at..at + |data|][i + k] == bytes[at + i + k];
    }
  }

  lemma PieceWritten(g: Geometry, sectors: seq<seq<byte>>, s: nat, inSector: nat, piece: seq<byte>)
    requires IsImage(g, sectors) && 1 <= s <= |sectors| && inSector + |piece| <= SizeOf(g, s)
    ensures Bytes(sectors[s - 1 := Patched(sectors[s - 1], inSector, piece)])
            == Patched(Bytes(sectors), StartOf(g, s) + inSector, piece)
  {
    SectorBytes(g, sectors, s);
    BytesLength(g, sectors[..s - 1]);
    PieceLaid(sectors, s, inSector, piece, StartOf(g, s));
  }

  lemma PieceLaid(sectors: seq<seq<byte>>, s: nat, inSector: nat, piece: seq<byte>, at: nat)
    requires 1 <= s <= |sectors| && inSector + |piece| <= |sectors[s - 1]| && at == |Bytes(sectors[..s - 1])|
    requires at + |sectors[s - 1]| <= |Bytes(sectors)| && Bytes(sectors)[at..at + |sectors[s - 1]|] == sectors[s - 1]
    ensures Bytes(sectors[s - 1 := Patched(sectors[s - 1], inSector, piece)])
            == Patched(Bytes(sectors), at + inSector, piece)
  {
    SectorWritten(sectors, s, Patched(sectors[s - 1], inSector, piece));
    PatchInside(Bytes(sectors), at, sectors[s - 1], inSector, piece);
  }

  lemma PatchInside(bytes: seq<byte>, at: nat, data: seq<byte>, i: nat, piece: seq<byte>)
    requires i + |piece| <= |data| && at + |data| <= |bytes| && bytes[at..at + |data|] == data
    ensures Patched(bytes, at, Patched(data, i, piece)) == Patched(bytes, at + i, piece)
  {
    var inner := Patched(data, i, piece);
    forall k | 0 <= k < |bytes| ensures Patched(bytes, at, inner)[k] == Patched(bytes, at + i, piece)[k] {
      if at <= k < at + |data| {
        assert bytes[at..at + |data|][k - at] == bytes[k];
      }
    }
  }

  lemma PatchMore(bytes: seq<byte>, offset: nat, buffer: seq<byte>, done: nat, count: nat)
    requires done + count <= |buffer|
    ensures Patched(Patched(bytes, offset, buffer[..done]), offset + done, buffer[done..done + count])
            == Patched(bytes, offset, buffer[..done + count])
  {
  }

  /** A write, and a read of the same bytes: if no sector fails the buffer comes
      back, and all bytes outside are as before. */
  method WriteThenRead(disk: Disk, offset: nat, buffer: seq<byte>) returns (ok: bool, back: array<byte>)
    requires disk.Valid()
    modifies disk
    ensures disk.Valid() && fresh(back) && (old(disk.InRange(offset, |buffer|)) && disk.Sound() ==> ok)
    ensures ok ==> old(disk.InRange(offset, |buffer|)) && back[..] == buffer
    ensures |Bytes(disk.sectors)| == |old(Bytes(disk.sectors))|
    ensures forall k | 0 <= k < |Bytes(disk.sectors)| && !(offset <= k < offset + |buffer|) ::
      Bytes(disk.sectors)[k] == old(Bytes(disk.sectors))[k]
  {
    back := new byte[|buffer|](_ => 0);
    ghost var bytes := Bytes(disk.sectors);
    BytesLength(disk.geometry, disk.sectors);
    var done;
    ok, done := disk.WriteBytes(offset, buffer);
    BytesLength(disk.geometry, disk.sectors);
    if ok {
      assert buffer[..done] == buffer;
      ok := disk.ReadBytes(offset, back, |buffer|);
      if ok && |buffer| > 0 {
        LaidOver(bytes, offset, buffer);
        assert back[..] == back[..|buffer|];
      }
    }
  }

  lemma LaidOver(bytes: seq<byte>, offset: nat, piece: seq<byte>)
    requires offset + |piece| <= |bytes|
    ensures Patched(bytes, offset, piece)[offset..offset + |piece|] == piece
  {
  }
}
