/** The SCSI target as next_scsi.c keeps it: a 512-byte buffer with its limit and size,
    and the cache arrays, updated in place. Every method refines the function of the
    same operation in ScsiDisk. */
module DiskDevice {
  import opened Bits
  import opened ScsiDisk

  class Target {
    const image: seq<uint8>
    const mounted: bool
    var bad: set<int>
    const tags: array<uint32>
    const lines: array<Sector>
    const data: array<uint8>
    var limit: int
    var size: int
    var isDisk: bool
    var status: uint8
    var message: uint8
    var phase: Phase
    var target: uint8
    var lun: uint8
    var sense: Sense
    var lba: uint32
    var blocks: uint32
    var writePending: uint32

    ghost predicate Valid()
      reads this
    {
      && tags.Length == SLOTS && lines.Length == SLOTS && data.Length == BLOCK
      && tags as object != data as object
      && 0 <= size <= limit <= BLOCK
    }

    ghost function Value(): State
      reads this, tags, lines, data
      requires Valid()
    {
      State(image, mounted, bad, tags[..], lines[..], status, message, phase, target, lun, sense,
            lba, blocks, writePending, data[limit - size..limit], isDisk)
    }

    /** next_scsi_init: nothing to send, and with a medium all slots empty. */
    constructor (image: seq<uint8>, mounted: bool)
      requires |image| <= EMPTY_LBA * BLOCK && (!mounted ==> image == [])
      ensures Valid() && fresh(tags) && fresh(lines) && fresh(data)
      ensures PowerOn(Value()) && Wf(Value())
      ensures this.image == image && this.mounted == mounted
    {
      this.image := image;
      this.mounted := mounted;
      bad := {};
      tags := new uint32[SLOTS](_ => if mounted then EMPTY_LBA else 0);
      lines := new Sector[SLOTS](_ => BLANK_SECTOR);
      data := new uint8[BLOCK](_ => 0);
      limit, size, isDisk := 0, 0, false;
      status, message, phase, target, lun := 0, 0, Phase.Status, 0, 0;
      sense := Sense(0, 0, false, 0);
      lba, blocks, writePending := 0, 0, 0;
    }

    /** Copy `bytes` to the front of the buffer. */
    method Fill(bytes: seq<uint8>)
      requires Valid() && |bytes| <= BLOCK
      modifies data
      ensures data[..|bytes|] == bytes
      ensures forall i | |bytes| <= i < BLOCK :: data[i] == old(data[i])
    {
      var i := 0;
      while i < |bytes|
        invariant 0 <= i <= |bytes|
        invariant forall j | 0 <= j < i :: data[j] == bytes[j]
        invariant forall j | i <= j < BLOCK :: data[j] == old(data[j])
      {
        data[i] := bytes[i];
        i := i + 1;
      }
    }

    /** Read a sector from the card into the buffer; a failed read may leave anything there. */
    method ReadCard(sector: uint32) returns (ok: bool)
      requires Valid()
      modifies data
      ensures ok <==> sector !in bad && OnMedium(image, sector)
      ensures ok ==> data[..] == SectorAt(image, sector)
    {
      if sector in bad || !OnMedium(image, sector) {
        data[0] := *;
        return false;
      }
      Fill(SectorAt(image, sector));
      assert data[..BLOCK] == data[..];
      return true;
    }

    method CacheTryRead(sector: uint32) returns (hit: bool)
      requires Valid()
      modifies data
      ensures hit <==> Hit(Value(), sector)
      ensures hit ==> data[..] == lines[Slot(sector)]
      ensures !hit ==> data[..] == old(data[..])
    {
      var s := Slot(sector);
      hit := tags[s] == sector;
      if hit {
        Fill(lines[s]);
        assert data[..BLOCK] == data[..];
      }
    }

    method CacheInstall(sector: uint32)
      requires Valid()
      modifies tags, lines
      ensures tags[..] == old(tags[..])[Slot(sector) := sector]
      ensures lines[..] == old(lines[..])[Slot(sector) := data[..]]
    {
      var s := Slot(sector);
      tags[s] := sector;
      lines[s] := data[..];
    }

    method Reject(code: uint8)
      requires Valid()
      modifies this`status, this`sense, this`phase
      ensures Valid() && Value() == Fail(old(Value()), code)
    {
      status := STATUS_CHECK;
      sense := sense.(code := code);
      phase := Phase.Status;
    }

    /** The sector in the buffer becomes the next to send. */
    method Present()
      requires Valid() && blocks > 0
      modifies this`limit, this`size, this`status, this`sense, this`lba, this`blocks
      ensures Valid() && Value() == Loaded(old(Value()), data[..])
    {
      hide NoError;
      limit, size := BLOCK, BLOCK;
      status := STATUS_GOOD;
      sense := sense.(code := SC_NO_ERROR, valid := false);
      lba := (lba + 1) % 0x1_0000_0000;
      blocks := blocks - 1;
      assert data[limit - size..limit] == data[..];
    }

    /** scsi_read_one_sector, called with the buffer empty. */
    method LoadSector()
      requires Valid() && size == 0
      modifies this, tags, lines, data
      ensures Valid() && Value() == ReadOneSector(old(Value()))
    {
      hide Slot, Loaded, Fail, Hit, OnMedium, SectorAt;
      if blocks == 0 {
        phase := Phase.Status;
        return;
      }
      if lba * BLOCK < |image| {
        var hit := CacheTryRead(lba);
        if !hit {
          var ok := ReadCard(lba);
          if !ok {
            Reject(SC_NOT_READY);
            return;
          }
          CacheInstall(lba);
        }
        assert Value().buf == [] && old(Value()).buf == [];
        Present();
      } else {
        Reject(SC_INVALID_LBA);
        sense := sense.(valid := true, info := lba);
      }
    }

    /** next_scsi_consume_bytes. */
    method ConsumeBytes(n: nat)
      requires Valid()
      modifies this, tags, lines, data
      ensures Valid() && Value() == Consume(old(Value()), n)
    {
      hide ReadOneSector;
      var m := Min(n, size);
      assert data[limit - size..limit][m..] == data[limit - (size - m)..limit];
      size := size - m;
      if size == 0 {
        if isDisk {
          LoadSector();
        } else {
          phase := Phase.Status;
        }
      }
    }

    /** next_scsi_send_data. */
    method SendByte() returns (value: uint8)
      requires Valid()
      modifies this, tags, lines, data
      ensures Valid() && (Value(), value) == SendData(old(Value()))
    {
      hide ReadOneSector;
      if size == 0 {
        return 0;
      }
      value := data[limit - size];
      assert data[limit - size..limit][1..] == data[limit - (size - 1)..limit];
      size := size - 1;
      if size == 0 {
        if isDisk {
          LoadSector();
        } else {
          phase := Phase.Status;
        }
      }
    }

    /** next_scsi_consume_write_bytes. */
    method ConsumeWriteBytes(n: nat)
      requires Valid()
      modifies this`writePending, this`phase
      ensures Valid() && Value() == ConsumeWrite(old(Value()), n)
    {
      writePending := writePending - Min(n, writePending);
      if writePending == 0 {
        phase := Phase.Status;
      }
    }

    /** The host may read `bytes`. */
    method Answer(bytes: seq<uint8>)
      requires Valid() && |bytes| <= BLOCK
      modifies this`limit, this`size, this`isDisk, this`status, this`phase, data
      ensures Valid() && Value() == Reply(old(Value()), bytes)
    {
      Fill(bytes);
      limit, size := |bytes|, |bytes|;
      isDisk := false;
      status := STATUS_GOOD;
      phase := DataIn;
      assert data[limit - size..limit] == bytes;
    }

    /** The invalidation loop of a write. */
    method InvalidateSectors(first: uint32, n: nat)
      requires Valid()
      modifies tags
      ensures tags[..] == InvalidateRange(old(tags[..]), first, n)
    {
      var i := 0;
      while i < n
        invariant 0 <= i <= n
        invariant tags[..] == InvalidateRange(old(tags[..]), first, i)
      {
        var sector: uint32 := (first + i) % 0x1_0000_0000;
        var s := Slot(sector);
        if tags[s] == sector {
          tags[s] := EMPTY_LBA;
        }
        i := i + 1;
      }
    }

    method StartRead(c: Cdb)
      requires Valid()
      modifies this, tags, lines, data
      ensures Valid() && Value() == ReadCommand(old(Value()), c)
    {
      hide ReadOneSector, Offset, Count;
      lba, blocks := Offset(c), Count(c);
      isDisk := true;
      size := 0;
      phase := DataIn;
      assert Value().buf == [];
      LoadSector();
    }

    method StartWrite(c: Cdb)
      requires Valid()
      modifies this, tags
      ensures Valid() && Value() == WriteCommand(old(Value()), c)
    {
      hide InvalidateRange, Offset, Count;
      lba, blocks := Offset(c), Count(c);
      writePending := blocks * BLOCK;
      InvalidateSectors(lba, blocks);
      status := STATUS_GOOD;
      phase := DataOut;
    }

    method Accept()
      requires Valid()
      modifies this`status, this`phase
      ensures Valid() && Value() == old(Value()).(status := STATUS_GOOD, phase := Phase.Status)
    {
      status := STATUS_GOOD;
      phase := Phase.Status;
    }

    /** An error that has nothing to do with a sector. */
    method Refuse(code: uint8)
      requires Valid()
      modifies this`status, this`phase, this`sense
      ensures Valid() && Value() == var d := Fail(old(Value()), code); d.(sense := d.sense.(valid := false))
    {
      Reject(code);
      sense := sense.(valid := false);
    }

    method Execute(c: Cdb)
      requires Valid()
      modifies this, tags, lines, data
      ensures Valid() && Value() == Dispatch(old(Value()), c)
    {
      match c[0]
      case 0x00 =>
        if !mounted {
          Reject(SC_NOT_READY);
        } else {
          Accept();
          sense := sense.(code := SC_NO_ERROR);
        }
      case 0x25 =>
        if SectorCount(image) == 0 {
          Reject(SC_NOT_READY);
        } else {
          sense := NoError(sense);
          Answer(CapacityData(image));
        }
      case 0x08 => StartRead(c);
      case 0x28 => StartRead(c);
      case 0x0A => StartWrite(c);
      case 0x2A => StartWrite(c);
      case 0x1A =>
        sense := NoError(sense);
        Answer(Clip(ModeData(SectorCount(image), c), c));
      case 0x1B => Accept();
      case 0x04 => Accept();
      case 0x15 => Accept();
      case _ =>
        Refuse(SC_INVALID_CMD);
    }

    method AnswerInquiry(c: Cdb)
      requires Valid()
      modifies this, data
      ensures Valid() && Value() == Inquiry(old(Value()), c)
    {
      hide InquiryData, TransferLength;
      sense := NoError(sense);
      Answer(Clip(InquiryData(lun), c));
    }

    method AnswerSense(c: Cdb)
      requires Valid()
      modifies this, data
      ensures Valid() && Value() == RequestSense(old(Value()), c)
    {
      hide SenseData, SenseKey;
      var bytes := SenseData(sense, c);
      sense := sense.(key := SenseKey(sense.code));
      Answer(bytes);
    }

    method SetLun(n: uint8)
      requires Valid()
      modifies this`lun
      ensures Valid() && Value() == old(Value()).(lun := n)
    {
      lun := n;
    }

    method Complete()
      requires Valid()
      modifies this`message
      ensures Valid() && Value() == old(Value()).(message := MSG_COMPLETE)
    {
      message := MSG_COMPLETE;
    }

    /** next_scsi_receive_command. */
    method Receive(c: Cdb, identify: uint8)
      requires Valid()
      modifies this, tags, lines, data
      ensures Valid() && Value() == ReceiveCommand(old(Value()), c, identify)
    {
      hide Dispatch, Inquiry, RequestSense, Lun, Fail, Valid, Value;
      SetLun(Lun(c, identify));
      if c[0] == 0x12 {
        AnswerInquiry(c);
      } else if c[0] == 0x03 {
        AnswerSense(c);
      } else if Lun(c, identify) != 0 {
        Refuse(SC_INVALID_LUN);
      } else {
        Execute(c);
      }
      Complete();
    }

    /** next_scsi_select. */
    method Answering(id: uint8) returns (timeout: bool)
      requires Valid()
      modifies this`phase, this`target
      ensures Valid() && (Value(), timeout) == Select(old(Value()), id)
    {
      if id != TARGET_ID || !mounted {
        phase := Phase.Status;
        return true;
      }
      target := id;
      return false;
    }

    method SetPhase(p: Phase)
      requires Valid()
      modifies this`phase
      ensures Valid() && Value() == old(Value()).(phase := p)
    {
      phase := p;
    }
  }
}
