/** Queued bitmap sectors, taken over into the bitmap one by one. */
module SdfsBitmap {
  import opened ByteBits
  import opened SdfsMap
  import opened SdfsDisk

  /** Every queued bitmap sector but those left is in the bits. */
  ghost predicate BitmapLeft(d: Disk, bits: seq<byte>, left: set<sector>)
    requires |d.bitmap| == SECTOR * d.bitmapSectors
  {
    && |bits| == |d.bitmap|
    && forall s | InBitmap(d, s) :: BitmapSector(d.(bitmap := bits), s)
         == if s in d.pending && s !in left then Fit(d.pending[s], SECTOR) else BitmapSector(d, s)
  }

  lemma TakeOne(d: Disk, bits: seq<byte>, left: set<sector>, s: sector)
    requires |d.bitmap| == SECTOR * d.bitmapSectors && BitmapLeft(d, bits, left)
    requires s in left && s in d.pending && InBitmap(d, s)
    ensures (s - d.bitmapStart) >= 0 && SECTOR * (s - d.bitmapStart) + SECTOR <= |bits|
    ensures BitmapLeft(d, PutSector(bits, s - d.bitmapStart, Fit(d.pending[s], SECTOR)), left - {s})
  {
    var bits' := PutSector(bits, s - d.bitmapStart, Fit(d.pending[s], SECTOR));
    forall t | InBitmap(d, t)
      ensures BitmapSector(d.(bitmap := bits'), t)
        == if t in d.pending && t !in left - {s} then Fit(d.pending[t], SECTOR) else BitmapSector(d, t)
    {
      if t != s {
        assert BitmapSector(d.(bitmap := bits'), t) == BitmapSector(d.(bitmap := bits), t);
      }
    }
  }

  function PutSector(bits: seq<byte>, i: nat, b: seq<byte>): (r: seq<byte>)
    requires SECTOR * i + SECTOR <= |bits| && |b| == SECTOR
    ensures |r| == |bits|
    ensures r[SECTOR * i..SECTOR * i + SECTOR] == b
    ensures forall k: nat | k != i && SECTOR * k + SECTOR <= |bits| ::
      r[SECTOR * k..SECTOR * k + SECTOR] == bits[SECTOR * k..SECTOR * k + SECTOR]
  {
    bits[..SECTOR * i] + b + bits[SECTOR * i + SECTOR..]
  }
}
