/** Drives mounted on partitions of a hard-disk image, and the range check of their
    sector commands. */
module AptDrives {
  import opened ByteBits
  import opened WireCodec
  import opened Options
  import opened DiskBytes

  const DRIVES: nat := 15

  /** A mounted partition, in 512-byte blocks of the disk. */
  datatype Drive = Drive(partitionId: nat, start: nat, count: nat)

  function Blocks(disk: Disk): nat
    reads disk
  {
    disk.Size() / BLOCK
  }

  /** The partition lies on the disk. */
  predicate OnDisk(d: Drive, blocks: nat) {
    d.count > 0 && d.start + d.count <= blocks
  }

  ghost predicate AllOnDisk(drives: seq<Option<Drive>>, blocks: nat) {
    |drives| == DRIVES && forall i | 0 <= i < DRIVES && drives[i].Some? :: OnDisk(drives[i].value, blocks)
  }

  function Le32(b: seq<byte>, o: nat): word
    requires o + 4 <= |b|
  {
    FromLe(b[o], b[o + 1], b[o + 2], b[o + 3])
  }

  /** The partition that an MBR entry describes, if it is on the disk. */
  function MbrPartition(mbr: seq<byte>, id: nat, blocks: nat): (d: Option<Drive>)
    requires |mbr| == BLOCK && 1 <= id <= 4
    ensures d.Some? ==> OnDisk(d.value, blocks)
  {
    var entry := 0x1be + (id - 1) * 16;
    var start, count := Le32(mbr, entry + 8), Le32(mbr, entry + 12);
    if mbr[entry + 4] == 0 || count == 0 || start >= blocks || count > blocks - start then None
    else Some(Drive(id, start, count))
  }

  /** The drive that a mapping slot mounts on start. */
  function SlotDrive(slot: seq<byte>, blocks: nat): (d: Option<Drive>)
    requires |slot| == 16
    ensures d.Some? ==> OnDisk(d.value, blocks)
  {
    var kind, low: int, high: int := slot[1], slot[10], slot[11];
    var id := low + 256 * high;
    var start, count := Le32(slot, 2), Le32(slot, 6);
    if slot[0] == 0 || !(kind == 0 || kind == 3) || slot[12] / 64 % 2 == 0 || id == 0 || id == 0xffff
       || start == 0 || count == 0 || start >= blocks || count > blocks - start then None
    else Some(Drive(id, start, count))
  }

  // ---- What the tables say ----

  ghost predicate HoldsWord(b: seq<byte>, o: nat, x: nat) {
    o + 4 <= |b| && x < 0x1_0000_0000 && HasWord(b, o, x)
  }

  lemma WordIs(b: seq<byte>, o: nat, x: nat)
    requires o + 4 <= |b|
    ensures HoldsWord(b, o, x) <==> Le32(b, o) == x
  {
    HasLe32(b, o);
    if HoldsWord(b, o, x) {
      WordRoundTrip(x);
      assert b[o + 0] == LeByte(x, 0) && b[o + 1] == LeByte(x, 1);
      assert b[o + 2] == LeByte(x, 2) && b[o + 3] == LeByte(x, 3);
    }
  }

  lemma HasLe32(b: seq<byte>, o: nat)
    requires o + 4 <= |b|
    ensures HasWord(b, o, Le32(b, o))
  {
    BytesOfWord(b[o], b[o + 1], b[o + 2], b[o + 3]);
    var x := Le32(b, o);
    assert b[o + 0] == LeByte(x, 0) && b[o + 1] == LeByte(x, 1);
    assert b[o + 2] == LeByte(x, 2) && b[o + 3] == LeByte(x, 3);
  }

  /** A slot in use mounts this partition: type 0 or 3, its first block at 2, how many at
      6, its id at 10, and bit 6 of byte 12. */
  ghost predicate SlotMounts(slot: seq<byte>, blocks: nat, d: Drive)
    requires |slot| == 16
  {
    && slot[0] != 0 && slot[1] in {0, 3} && HoldsWord(slot, 2, d.start) && HoldsWord(slot, 6, d.count)
    && slot[10] as int == d.partitionId % 256 && slot[11] as int == d.partitionId / 256
    && 0 < d.partitionId < 0xffff && slot[12] / 64 % 2 == 1
    && 0 < d.start && 0 < d.count && d.start + d.count <= blocks
  }

  lemma SlotMeans(slot: seq<byte>, blocks: nat, d: Drive)
    requires |slot| == 16
    ensures SlotDrive(slot, blocks) == Some(d) <==> SlotMounts(slot, blocks, d)
  {
    WordIs(slot, 2, d.start);
    WordIs(slot, 6, d.count);
    var low: int, high: int := slot[10], slot[11];
    assert low + 256 * high == d.partitionId <==> low == d.partitionId % 256 && high == d.partitionId / 256;
  }

  /** It is mounted as slot i of the table says, if it does. */
  ghost predicate AsSlot(drive: Option<Drive>, table: seq<byte>, i: nat, blocks: nat)
    requires |table| == BLOCK && i < DRIVES
  {
    forall d :: drive == Some(d) <==> SlotMounts(table[16 + 16 * i..32 + 16 * i], blocks, d)
  }

  lemma AsSlotIs(table: seq<byte>, i: nat, blocks: nat)
    requires |table| == BLOCK && i < DRIVES
    ensures AsSlot(SlotDrive(table[16 + 16 * i..32 + 16 * i], blocks), table, i, blocks)
  {
    var slot := table[16 + 16 * i..32 + 16 * i];
    forall d ensures SlotDrive(slot, blocks) == Some(d) <==> SlotMounts(slot, blocks, d) {
      SlotMeans(slot, blocks, d);
    }
  }

  /** Entry id of the MBR is of this partition: a type at 4, its first block at 8, and how
      many at 12. */
  ghost predicate MbrMounts(mbr: seq<byte>, id: nat, blocks: nat, d: Drive)
    requires |mbr| == BLOCK && 1 <= id <= 4
  {
    var entry := 446 + 16 * (id - 1);
    && mbr[entry + 4] != 0 && HoldsWord(mbr, entry + 8, d.start) && HoldsWord(mbr, entry + 12, d.count)
    && d.partitionId == id && 0 < d.count && d.start + d.count <= blocks
  }

  lemma MbrMeans(mbr: seq<byte>, id: nat, blocks: nat, d: Drive)
    requires |mbr| == BLOCK && 1 <= id <= 4
    ensures MbrPartition(mbr, id, blocks) == Some(d) <==> MbrMounts(mbr, id, blocks, d)
  {
    WordIs(mbr, 446 + 16 * (id - 1) + 8, d.start);
    WordIs(mbr, 446 + 16 * (id - 1) + 12, d.count);
  }

  /** The blocks of a sector command: the first and how many, if it is accepted. */
  function Accepted(drive: Option<Drive>, blocks: nat, sector: nat, length: nat): Option<(nat, nat)> {
    if drive.Some? && sector == 0 then None
    else
      var lba := if drive.Some? then drive.value.start + sector - 1 else sector;
      var count := length / BLOCK;
      if length == 0 || length % BLOCK != 0 || lba >= blocks || count > blocks - lba then None
      else if drive.Some? && (sector - 1 >= drive.value.count || count > drive.value.count - (sector - 1)) then None
      else Some((lba, count))
  }

  /** A command on a mounted drive is accepted exactly if its sectors, counted from 1,
      are of the partition; and then they are those of the partition. */
  lemma StaysInside(d: Drive, blocks: nat, sector: nat, length: nat)
    requires OnDisk(d, blocks)
    ensures var r := Accepted(Some(d), blocks, sector, length); var count := length / BLOCK;
      && (r.Some? <==> length > 0 && length % BLOCK == 0 && 1 <= sector && sector - 1 + count <= d.count)
      && (r.Some? ==>
            && r.value == (d.start + sector - 1, count) && d.start <= r.value.0
            && r.value.0 + count <= d.start + d.count && BLOCK * r.value.0 + length <= BLOCK * blocks)
  {
    var count := length / BLOCK;
    assert length == BLOCK * count + length % BLOCK;
  }

  /** A digit or a value. */
  function DriveNumber(mcb: seq<byte>): int
    requires |mcb| >= 6
  {
    if 0x31 <= mcb[1] <= 0x39 then mcb[1] - 0x30 else mcb[1]
  }

  class Drives {
    const disk: Disk
    var drives: seq<Option<Drive>>

    constructor (disk: Disk)
      ensures this.disk == disk && drives == seq(DRIVES, _ => None)
    {
      this.disk, drives := disk, seq(DRIVES, _ => None);
    }

    /** Every mounted drive is a partition on the disk. */
    ghost predicate Valid()
      reads this, disk
    {
      disk.Valid() && AllOnDisk(drives, Blocks(disk))
    }

    /** The slots of an APT mapping table. */
    method LoadMap(table: seq<byte>)
      requires disk.Valid() && |table| == BLOCK
      modifies this
      ensures Valid()
      ensures forall i: nat | i < DRIVES :: AsSlot(drives[i], table, i, Blocks(disk))
    {
      drives := seq(DRIVES, _ => None);
      for i := 0 to DRIVES
        invariant Valid()
        invariant forall k: nat | k < i :: AsSlot(drives[k], table, k, Blocks(disk))
      {
        var d := SlotDrive(table[16 + 16 * i..32 + 16 * i], Blocks(disk));
        AsSlotIs(table, i, Blocks(disk));
        drives := drives[i := d];
      }
    }

    /** The control block asks for a partition of the MBR in the disk's first 512
        bytes, and there is one. */
    ghost predicate Mountable(mcb: seq<byte>)
      requires disk.Valid() && |mcb| >= 6
      reads disk
    {
      var bytes, id := Bytes(disk.sectors), Le32(mcb, 2);
      && mcb[0] == 2 && 1 <= DriveNumber(mcb) <= DRIVES && 1 <= id <= 4
      && |bytes| >= BLOCK && bytes[510] == 0x55 && bytes[511] == 0xaa
      && exists d :: MbrMounts(bytes[..BLOCK], id, Blocks(disk), d)
    }

    /** mcb: the mount control block. If no sector of the disk fails, it is mounted
        exactly if it can be. */
    method Mount(mcb: seq<byte>) returns (ok: bool)
      requires Valid() && |mcb| >= 6
      modifies this
      ensures Valid() && (!ok ==> drives == old(drives))
      ensures ok ==>
        && Mountable(mcb)
        && forall d | MbrMounts(Bytes(disk.sectors)[..BLOCK], Le32(mcb, 2), Blocks(disk), d) ::
             drives == old(drives)[DriveNumber(mcb) - 1 := Some(d)]
      ensures disk.Sound() && Mountable(mcb) ==> ok
    {
      var id := Le32(mcb, 2);
      if mcb[0] != 2 || DriveNumber(mcb) < 1 || DriveNumber(mcb) > DRIVES || id < 1 || id > 4 {
        return false;
      }
      var mbr := new byte[BLOCK];
      BytesLength(disk.geometry, disk.sectors);
      ok := disk.ReadBytes(0, mbr, BLOCK);
      if !ok || mbr[510] != 0x55 || mbr[511] != 0xaa {
        return false;
      }
      assert mbr[..] == mbr[..BLOCK] == Bytes(disk.sectors)[0..BLOCK] == Bytes(disk.sectors)[..BLOCK];
      var d := MbrPartition(mbr[..], id, Blocks(disk));
      ok := d.Some?;
      forall e ensures d == Some(e) <==> MbrMounts(mbr[..], id, Blocks(disk), e) {
        MbrMeans(mbr[..], id, Blocks(disk), e);
      }
      if ok {
        drives := drives[DriveNumber(mcb) - 1 := d];
      }
    }

    /** A write on a mounted drive changes its sectors only; accepted but failing, it
        has written a first part of them. */
    method WriteSectors(drive: nat, sector: nat, buffer: seq<byte>) returns (ok: bool)
      requires Valid() && drive < DRIVES && drives[drive].Some?
      modifies disk
      ensures Valid()
      ensures ok ==> old(Accepted(drives[drive], Blocks(disk), sector, |buffer|)).Some?
      ensures old(Accepted(drives[drive], Blocks(disk), sector, |buffer|)).Some? && old(disk.Sound()) ==> ok
      ensures |Bytes(disk.sectors)| == |old(Bytes(disk.sectors))|
      ensures ok ==>
        var at := BLOCK * (drives[drive].value.start + sector - 1);
        Bytes(disk.sectors) == Patched(old(Bytes(disk.sectors)), at, buffer)
      ensures forall k | 0 <= k < |Bytes(disk.sectors)| && !InPartition(drives[drive].value, k) ::
        Bytes(disk.sectors)[k] == old(Bytes(disk.sectors))[k]
    {
      var d := drives[drive].value;
      var range := Accepted(Some(d), Blocks(disk), sector, |buffer|);
      if range.None? {
        return false;
      }
      StaysInside(d, Blocks(disk), sector, |buffer|);
      ghost var bytes := Bytes(disk.sectors);
      BytesLength(disk.geometry, disk.sectors);
      var done;
      ok, done := disk.WriteBytes(BLOCK * range.value.0, buffer);
      BytesLength(disk.geometry, disk.sectors);
      assert buffer[..|buffer|] == buffer;
    }
  }

  predicate InPartition(d: Drive, k: nat) {
    BLOCK * d.start <= k < BLOCK * (d.start + d.count)
  }
}
