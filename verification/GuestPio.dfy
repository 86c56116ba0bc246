/** A guest READ without DMA: each transfer command puts the next byte of the image into
    the FIFO. */
module GuestPio {
  import opened Bits
  import opened MainMemory
  import opened Esp
  import opened ScsiPath
  import opened ScsiRuns
  import opened GuestScript
  import opened GuestRead
  import Interrupts
  import Disk = ScsiDisk
  import Stream = SectorStream
  import Dma = ScsiDma

  /** Transfer one byte, acknowledge, take it out of the FIFO. */
  function ByteScript(residue: Disk.Cdb): seq<Event> {
    [EspWrite(0x03, CMD_TI, residue), EspRead(0x05, residue), EspRead(0x02, residue)]
  }

  function Bytes(n: nat, residue: Disk.Cdb): (es: seq<Event>)
    ensures |es| == 3 * n
  {
    if n == 0 then [] else ByteScript(residue) + Bytes(n - 1, residue)
  }

  /** What the guest reads with each byte: the cause and the byte. */
  function WithCauses(bytes: seq<uint8>): seq<uint8> {
    if bytes == [] then [] else [INTR_FC, bytes[0]] + WithCauses(bytes[1..])
  }

  /** In the middle of a READ of readable sectors. */
  ghost predicate Giving(d: Disk.State) {
    && Stream.Streaming(d) && Stream.Readable(d, d.lba, d.blocks)
    && d.status == Disk.STATUS_GOOD
  }

  lemma OneByteSent(d: Disk.State)
    requires Giving(d)
    ensures var (e, b) := Disk.SendData(d);
            && Stream.Owed(d) != [] && b == Stream.Owed(d)[0] && e.message == d.message
            && (if |Stream.Owed(d)| > 1 then Giving(e) && Stream.Owed(e) == Stream.Owed(d)[1..]
                else e.phase == Disk.Status && e.status == Disk.STATUS_GOOD)
  {
    var (e, b) := Disk.SendData(d);
    assert Stream.PullBytes(d, Stream.OneByte) == (e, [b]);
    assert Stream.Owed(d) != [];
    Stream.PullStep(d, Stream.OneByte);
    hide Disk.SendData, Stream.PullBytes, Stream.Sectors, Disk.CacheOk;
    if e.phase == Disk.DataIn {
      assert ([b] + Stream.Owed(e))[1..] == Stream.Owed(e);
      assert Stream.Owed(e) != [];
    } else {
      var missing :| [b] + missing == Stream.Owed(d) && Stream.Ended(e, missing);
      assert e.blocks == 0 && [b] + missing == [b];
    }
  }

  /** TI without DMA in Data-In. */
  lemma ByteStep(s: State, residue: Disk.Cdb)
    requires Ready(s, []) && s.disk.phase == Disk.DataIn
    ensures var t, (disk, b) := Step(s, EspWrite(0x03, CMD_TI, residue)), Disk.SendData(s.disk);
            && t.disk == disk && t.dma == s.dma && t.ram == s.ram && t.fifo == [b]
            && t.esp.statInt && t.esp.intStatus == INTR_FC
            && !t.esp.waiting && t.esp.command1 == 0 && Still(t)
  {
    hide Disk.SendData, Interrupts.Set;
    assert !HasBit(CMD_TI, CMD_DMA);
  }

  lemma OneByte(s: State, residue: Disk.Cdb, tail: seq<Event>, pauses: seq<seq<Event>>) returns (t: State)
    requires Ready(s, []) && Giving(s.disk) && Pauses(pauses, ByteScript(residue) + tail)
    ensures |pauses| == 3 + |tail| && Pauses(pauses[3..], tail)
    ensures Ready(t, []) && t.dma == s.dma && t.disk == Disk.SendData(s.disk).0
    ensures var es, fs := Paced(ByteScript(residue) + tail, pauses), Paced(tail, pauses[3..]);
            && Run(s, es) == Run(t, fs) && StoredAll(s.ram, es) == StoredAll(t.ram, fs)
            && Reads(s, es) == [INTR_FC, Disk.SendData(s.disk).1] + Reads(t, fs)
  {
    var es := ByteScript(residue) + tail;
    assert |pauses| == |es| && es[1..][1..][1..] == tail && pauses[1..][1..][1..] == pauses[3..];
    assert es[0] == EspWrite(0x03, CMD_TI, residue) && es[1..][0] == EspRead(0x05, residue)
      && es[1..][1..][0] == EspRead(0x02, residue);
    hide Step, HasBit, Paced, Run, StoredAll, Reads, Pauses, Read, ByteScript, Disk.SendData, Stream.Owed, Disk.Wf,
      Stream.Readable;
    var u0 := PacedStep(s, es, pauses);
    ByteStep(u0, residue);
    var s1 := Step(u0, es[0]);
    var b := Disk.SendData(s.disk).1;
    var u1 := PacedStep(s1, es[1..], pauses[1..]);
    AcknowledgeStep(u1, residue);
    CauseRead(u1, residue);
    var s2 := Step(u1, es[1..][0]);
    var u2 := PacedStep(s2, es[1..][1..], pauses[1..][1..]);
    FifoStep(u2, residue, [b]);
    t := Step(u2, es[1..][1..][0]);
    assert [b][1..] == [];
  }

  /** Any number of bytes, at any pace, are the next bytes owed, in order. */
  lemma {:induction false} BytesReadOut(s: State, n: nat, residue: Disk.Cdb, pauses: seq<seq<Event>>)
    requires Ready(s, []) && Giving(s.disk) && n <= |Stream.Owed(s.disk)| && Pauses(pauses, Bytes(n, residue))
    ensures var es := Paced(Bytes(n, residue), pauses);
            var t := Run(s, es);
            && Reads(s, es) == WithCauses(Stream.Owed(s.disk)[..n])
            && Ready(t, []) && t.dma == s.dma && t.ram == StoredAll(s.ram, es)
            && t.disk.phase == (if n < |Stream.Owed(s.disk)| then Disk.DataIn else Disk.Status)
            && t.disk.status == Disk.STATUS_GOOD && t.disk.message == s.disk.message
    decreases n
  {
    hide Step, HasBit, Pauses, Read, Disk.SendData, Stream.Owed, Disk.Wf, Stream.Readable;
    OneByteSent(s.disk);
    if n == 0 {
      assert |pauses| == 0 by { NoPauses(pauses); }
      assert Stream.Owed(s.disk)[..0] == [];
    } else {
      var t := OneByte(s, residue, Bytes(n - 1, residue), pauses);
      var owed := Stream.Owed(s.disk);
      assert owed[..n][0] == owed[0] && owed[..n][1..] == owed[1..][..n - 1];
      if n == 1 {
        assert owed[..1] == [owed[0]] && WithCauses(owed[..1]) == [INTR_FC, owed[0]] + WithCauses([]);
        assert |pauses| == 3 && Paced(Bytes(0, residue), pauses[3..]) == [];
      } else {
        BytesReadOut(t, n - 1, residue, pauses[3..]);
      }
    }
  }

  lemma NoPauses(pauses: seq<seq<Event>>)
    requires Pauses(pauses, [])
    ensures |pauses| == 0
  {
  }

  /** A selected READ read out byte by byte: the guest sees the image's bytes from the first
      sector asked for, each with the cause that announces it; RAM changes by the CPU's own
      stores alone, and the target is in Status with GOOD exactly when all bytes are out. */
  lemma PioReadDelivers(s: State, r: Request, n: nat, p1: seq<seq<Event>>, pause: seq<Event>, p2: seq<seq<Event>>)
    requires Disk.Wf(s.disk) && Askable(s.disk, r) && Ready(s, s.fifo) && n <= r.Length()
    requires Pauses(p1, SelectScript(r)) && Bystanders(pause) && Pauses(p2, Bytes(n, r.residue))
    ensures var es := Paced(SelectScript(r), p1) + Paced([EspRead(0x05, r.residue)], [pause]) + Paced(Bytes(n, r.residue), p2);
            var t := Run(s, es);
            && Reads(s, es) == [INTR_BS + INTR_FC] + WithCauses(Sectors(s.disk, r)[..n])
            && Ready(t, []) && t.dma == s.dma && t.ram == StoredAll(s.ram, es)
            && t.disk.phase == (if n < r.Length() then Disk.DataIn else Disk.Status)
            && t.disk.status == Disk.STATUS_GOOD && t.disk.message == Disk.MSG_COMPLETE
  {
    var ack := [EspRead(0x05, r.residue)];
    var a, b, c := Paced(SelectScript(r), p1), Paced(ack, [pause]), Paced(Bytes(n, r.residue), p2);
    SelectScriptPhase(s, r, p1);
    SectorsLength(s.disk, r);
    var u := Run(s, a);
    SelectedStill(s, u, r);
    assert Giving(u.disk) && Stream.Owed(u.disk) == Sectors(s.disk, r) && u.esp.intStatus == INTR_BS + INTR_FC;
    assert u.disk.message == Disk.MSG_COMPLETE && u.dma == s.dma && Pauses([pause], ack);
    hide Step, Run, Ready, Selected, Giving, Disk.Wf, SelectScript, Paced, StoredAll, Reads, Pauses, Interrupted, Askable,
      Read, Stream.Owed, Sectors, Bytes, WithCauses;
    var x := AckPhase(u, r.residue, pause);
    BytesReadOut(x, n, r.residue, p2);
    RunAppend(s, a + b, c);
    RunAppend(s, a, b);
    StoredAppend(s.ram, a + b, c);
    StoredAppend(s.ram, a, b);
    ReadsAppend(s, a + b, c);
    ReadsAppend(s, a, b);
  }

  lemma AckPhase(u: State, residue: Disk.Cdb, pause: seq<Event>) returns (x: State)
    requires Interrupted(u) && Pauses([pause], [EspRead(0x05, residue)])
    ensures var es := Paced([EspRead(0x05, residue)], [pause]);
            && x == Run(u, es) && Reads(u, es) == [u.esp.intStatus] && x.ram == StoredAll(u.ram, es)
            && Ready(x, []) && x.disk == u.disk && x.dma == u.dma
  {
    var ack := [EspRead(0x05, residue)];
    hide Step, Run, Paced, StoredAll, Reads, Pauses, Read;
    var y := PacedLast(u, ack, [pause]);
    AcknowledgeStep(y, residue);
    CauseRead(y, residue);
    x := Step(y, ack[0]);
  }
}
