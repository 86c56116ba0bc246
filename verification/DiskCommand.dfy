/** READ and WRITE command blocks as a driver writes them, from a sector number and a
    number of sectors. */
module DiskCommand {
  import opened Bits
  import opened ScsiDisk

  /** The six-byte form holds 21 bits of sector number and 1 to 256 sectors, the ten-byte
      form 32 bits and up to 65535. What surrounds them is the driver's choice. */
  datatype Command =
    | Short(write: bool, lba: nat, blocks: nat, lun: uint8, control: uint8)
    | Long(write: bool, lba: nat, blocks: nat, flags: uint8, group: uint8, control: uint8)
  {
    predicate Valid() {
      if Short? then lba < 0x20_0000 && 1 <= blocks <= 256 && lun < 8
      else lba < 0x1_0000_0000 && blocks < 0x1_0000
    }

    /** Numbers are big-endian; 256 sectors are sent as 0 in the short form. */
    function Bytes(): (b: seq<uint8>)
      requires Valid()
      ensures |b| == if Short? then 6 else 10
    {
      match this
      case Short(_, _, _, _, _) =>
        [if write then 0x0A else 0x08,
         lun * 0x20 + lba / 0x1_0000, lba / 0x100 % 0x100, lba % 0x100,
         if blocks == 256 then 0 else blocks, control]
      case Long(_, _, _, _, _, _) =>
        [if write then 0x2A else 0x28, flags,
         lba / 0x100_0000, lba / 0x1_0000 % 0x100, lba / 0x100 % 0x100, lba % 0x100, group,
         blocks / 0x100, blocks % 0x100, control]
    }

    /** The buffer the target decodes, with whatever follows the command in it. */
    function Cdb(residue: Cdb): Cdb
      requires Valid()
    {
      Bytes() + residue[|Bytes()|..]
    }
  }

  lemma BigEndianSum(x: nat)
    requires x < 0x1_0000_0000
    ensures x / 0x100_0000 * 0x100_0000 + x / 0x1_0000 % 0x100 * 0x1_0000 + x / 0x100 % 0x100 * 0x100 + x % 0x100 == x
  {
    assert x / 0x100 == 0x100 * (x / 0x1_0000) + x / 0x100 % 0x100;
    assert x / 0x1_0000 == 0x100 * (x / 0x100_0000) + x / 0x1_0000 % 0x100;
  }

  /** The target decodes from every such command the sector number and the number of
      sectors it was made from, whatever the rest of the buffer holds. */
  lemma Decodes(q: Command, residue: Cdb)
    requires q.Valid()
    ensures var c := q.Cdb(residue);
            && Offset(c) == q.lba && Count(c) == q.blocks
            && (c[0] == 0x08 || c[0] == 0x28 <==> !q.write) && (c[0] == 0x0A || c[0] == 0x2A <==> q.write)
  {
    var c := q.Cdb(residue);
    BigEndianSum(q.lba);
    if q.Short? {
      assert q.lba / 0x100_0000 == 0;
      assert Int24(c, 1) == q.lun * 0x20_0000 + q.lba;
    } else {
      assert Int32(c, 2) == q.lba;
    }
  }

  /** With an identify message the logical unit comes from it and not from the command. */
  lemma UnitFromIdentify(c: Cdb, identify: uint8)
    requires identify >= 0x80
    ensures Lun(c, identify) == identify % 8
  {
  }

  /** Without one it comes from the top bits of the command's second byte. */
  lemma UnitFromCommand(q: Command, residue: Cdb)
    requires q.Valid()
    ensures Lun(q.Cdb(residue), 0) == if q.Short? then q.lun else q.flags / 0x20
  {
    assert q.Short? ==> (q.lun * 0x20 + q.lba / 0x1_0000) / 0x20 == q.lun;
  }
}
