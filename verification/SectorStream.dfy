/** What the host receives from a READ: the stream of sectors behind the one-sector
    buffer and the cache, for every way of pulling bytes out of it. */
module SectorStream {
  import opened Bits
  import opened ScsiDisk
  import opened DiskCommand

  // -------------------------------------------------------------------- cache

  /** The same target with nothing cached. */
  function Uncached(d: State): State {
    d.(tags := seq(SLOTS, _ => EMPTY_LBA), lines := seq<Sector>(SLOTS, _ => BLANK_SECTOR))
  }

  /** With an honest cache a sector load behaves as if there were no cache, except
      that a cached sector hides a card that has since become unreadable. */
  lemma CacheTransparent(d: State)
    requires Wf(d) && d.blocks > 0
    ensures Uncached(ReadOneSector(d)) == Uncached(ReadOneSector(Uncached(d)))
       <==> !(d.lba in d.bad && Hit(d, d.lba) && d.lba * BLOCK < |d.image|)
  {
  }

  /** A cache hit yields the sector the image holds. */
  ghost predicate HonestHit(d: State) {
    CacheOk(d.image, d.tags, d.lines) && Hit(d, d.lba) && d.lba * BLOCK < |d.image| ==>
      OnMedium(d.image, d.lba) && d.lines[Slot(d.lba)] == SectorAt(d.image, d.lba)
  }

  /** Empty slots are marked with an ordinary sector number, so hits are honest on
      every medium of a given size exactly when that sector is beyond its end. */
  lemma HitsHonestIff(size: nat)
    ensures (forall d: State | |d.image| == size :: HonestHit(d)) <==> size <= EMPTY_LBA * BLOCK
  {
    if size > EMPTY_LBA * BLOCK {
      var d := State(seq(size, _ => 1), true, {}, seq(SLOTS, _ => EMPTY_LBA),
                     seq<Sector>(SLOTS, _ => BLANK_SECTOR), 0, 0, DataIn, 0, 0, Sense(0, 0, false, 0),
                     EMPTY_LBA, 1, 0, [], true);
      if OnMedium(d.image, d.lba) {
        assert SectorAt(d.image, d.lba)[0] == 1;
        assert d.lines[Slot(d.lba)][0] == 0;
      }
      assert !HonestHit(d);
    }
  }

  // ------------------------------------------------------------------- stream

  /** The sectors `lba`, `lba + 1`, ... of the image, stopping at `n` sectors or at
      the end of the medium. */
  function Sectors(image: seq<uint8>, lba: nat, n: nat): seq<uint8>
    decreases n
  {
    if n == 0 || !OnMedium(image, lba) then []
    else SectorAt(image, lba) + Sectors(image, lba + 1, n - 1)
  }

  lemma {:induction false} SectorsAreASlice(image: seq<uint8>, lba: nat, n: nat)
    requires (lba + n) * BLOCK <= |image|
    ensures Sectors(image, lba, n) == image[lba * BLOCK..(lba + n) * BLOCK]
    decreases n
  {
    if n > 0 {
      SectorsAreASlice(image, lba + 1, n - 1);
      assert image[lba * BLOCK..(lba + n) * BLOCK] ==
             image[lba * BLOCK..(lba + 1) * BLOCK] + image[(lba + 1) * BLOCK..(lba + n) * BLOCK];
    }
  }

  /** What the host is still owed. */
  function Owed(d: State): seq<uint8> {
    d.buf + Sectors(d.image, d.lba, d.blocks)
  }

  predicate Loadable(d: State, lba: uint32) {
    OnMedium(d.image, lba) && (Hit(d, lba) || lba !in d.bad)
  }

  datatype Pull = OneByte | Chunk(n: nat)

  /** One access by the ESP: send_data, or a copy of up to `n` bytes from the buffer
      pointer followed by consume_bytes. */
  function PullBytes(d: State, p: Pull): (State, seq<uint8>) {
    match p
    case OneByte => var (e, b) := SendData(d); (e, [b])
    case Chunk(n) => (Consume(d, n), d.buf[..Min(n, |d.buf|)])
  }

  /** Accesses go on while the target is in Data-In. */
  function Drain(d: State, pulls: seq<Pull>): (State, seq<uint8>)
    decreases |pulls|
  {
    if pulls == [] || d.phase != DataIn then (d, [])
    else
      var (e, got) := PullBytes(d, pulls[0]);
      var (f, rest) := Drain(e, pulls[1..]);
      (f, got + rest)
  }

  ghost predicate Streaming(d: State) {
    Wf(d) && d.isDisk && d.phase == DataIn
  }

  /** How a stream can end: everything delivered and GOOD, or a sector that cannot
      be loaded and CHECK CONDITION. */
  ghost predicate Ended(d: State, missing: seq<uint8>) {
    && d.phase == Status && d.buf == []
    && (if d.blocks == 0 then d.status == STATUS_GOOD && missing == []
        else d.status == STATUS_CHECK && !Loadable(d, d.lba) && missing == Sectors(d.image, d.lba, d.blocks))
  }

  /** Still the same command: the sectors to load end where it said. */
  ghost predicate SameSpan(d: State, e: State) {
    e.lba >= d.lba && e.lba + e.blocks == d.lba + d.blocks && e.message == d.message
  }

  lemma RefillStep(d: State)
    requires Wf(d.(buf := [0])) && d.isDisk && d.phase == DataIn && d.buf == []
    ensures var e := ReadOneSector(d);
            && Wf(e) && SameMedium(d, e) && e.isDisk && SameSpan(d, e)
            && (if e.phase == DataIn then Streaming(e) && Owed(e) == Owed(d)
                else Ended(e, Owed(d)))
  {
    hide Slot, CacheOk;
    ReadOneSectorKeeps(d);
  }

  /** `got` is the next part of what `d` owes, and `e` is where that leaves the target:
      still in Data-In owing the rest, or at the end of the stream. */
  ghost predicate Delivered(d: State, e: State, got: seq<uint8>) {
    && Wf(e) && SameMedium(d, e) && SameSpan(d, e) && e.isDisk
    && (if e.phase == DataIn then got + Owed(e) == Owed(d)
        else exists missing :: got + missing == Owed(d) && Ended(e, missing))
  }

  lemma DeliveredNothing(d: State)
    requires Streaming(d)
    ensures Delivered(d, d, [])
  {
  }

  lemma DeliveredJoin(d: State, e: State, f: State, x: seq<uint8>, y: seq<uint8>)
    requires Streaming(e) && Delivered(d, e, x) && Delivered(e, f, y)
    ensures Delivered(d, f, x + y)
  {
    hide Owed, Ended, Wf;
    assert forall z :: x + (y + z) == (x + y) + z;
  }

  lemma DeliveredStreams(d: State, e: State, got: seq<uint8>)
    requires Delivered(d, e, got)
    ensures e.phase == DataIn ==> Streaming(e)
  {
  }

  lemma EndedIsEmpty(d: State, e: State, got: seq<uint8>)
    requires Delivered(d, e, got) && e.phase != DataIn
    ensures e.buf == [] && e.phase == Status
  {
  }

  /** One pull hands over the next bytes owed and nothing else. */
  lemma PullStep(d: State, p: Pull)
    requires Streaming(d)
    ensures Delivered(d, PullBytes(d, p).0, PullBytes(d, p).1)
  {
    hide Slot, ReadOneSector, Sectors, CacheOk;
    var (e, got) := PullBytes(d, p);
    var mid := d.(buf := d.buf[|got|..]);
    assert d.buf == got + mid.buf;
    assert Owed(d) == got + Owed(mid);
    if mid.buf == [] {
      assert e == ReadOneSector(mid);
      RefillStep(mid);
    } else {
      assert e == mid;
    }
  }

  /** Any mix of accesses of any sizes delivers the owed bytes in order; the stream
      leaves Data-In only with all of them delivered, or at a sector that cannot be
      loaded, and the status says which. */
  lemma {:induction false} DrainDelivers(d: State, pulls: seq<Pull>)
    requires Streaming(d)
    ensures Delivered(d, Drain(d, pulls).0, Drain(d, pulls).1)
    decreases |pulls|
  {
    hide Owed, Ended, CacheOk, PullBytes;
    if pulls == [] {
      DeliveredNothing(d);
    } else {
      PullStep(d, pulls[0]);
      var (e, got) := PullBytes(d, pulls[0]);
      if e.phase == DataIn {
        DrainDelivers(e, pulls[1..]);
        var (f, rest) := Drain(e, pulls[1..]);
        DeliveredJoin(d, e, f, got, rest);
      } else {
        assert Drain(e, pulls[1..]) == (e, []);
        assert got + [] == got;
      }
    }
  }

  /** All sectors a READ asks for can be loaded from the card. */
  predicate Readable(d: State, lba: nat, n: nat) {
    && (lba + n) * BLOCK <= |d.image|
    && forall b | lba <= b < lba + n :: b !in d.bad
  }

  predicate IsRead(c: Cdb) {
    c[0] == 0x08 || c[0] == 0x28
  }

  function ReadStart(d: State, c: Cdb): State {
    d.(lun := 0, lba := Offset(c), blocks := Count(c), isDisk := true, buf := [], phase := DataIn)
  }

  lemma ReceiveRead(d: State, c: Cdb, identify: uint8)
    requires IsRead(c) && Lun(c, identify) == 0
    ensures ReceiveCommand(d, c, identify) == ReadOneSector(ReadStart(d, c)).(message := MSG_COMPLETE)
  {
    hide ReadOneSector, Inquiry, RequestSense, ReadCapacity, ModeSense, WriteCommand, Slot, Offset, Count;
  }

  lemma ReadableLoads(d: State)
    requires MediumOk(d) && d.blocks > 0 && Readable(d, d.lba, d.blocks)
    ensures var e := ReadOneSector(d);
            && e.phase == d.phase && e.blocks == d.blocks - 1 && e.lba == d.lba + 1
            && e.isDisk == d.isDisk && e.status == STATUS_GOOD
  {
    hide Slot, SectorAt, CacheOk;
  }

  lemma StreamStarts(d: State, c: Cdb, identify: uint8)
    requires Wf(d) && IsRead(c) && Lun(c, identify) == 0
    requires Count(c) > 0 && Readable(d, Offset(c), Count(c))
    ensures var r := ReceiveCommand(d, c, identify);
            && Streaming(r) && SameMedium(d, r) && r.status == STATUS_GOOD && r.message == MSG_COMPLETE
            && Owed(r) == d.image[Offset(c) * BLOCK..(Offset(c) + Count(c)) * BLOCK]
            && r.lba + r.blocks == Offset(c) + Count(c) && r.lba > Offset(c)
  {
    hide Slot, Offset, Count, ReceiveCommand, CacheOk, ReadOneSector;
    ReadOneSectorKeeps(ReadStart(d, c));
    ReadableLoads(ReadStart(d, c));
    SectorsAreASlice(d.image, Offset(c), Count(c));
    ReceiveRead(d, c, identify);
  }

  /** A driver's READ command, as the target receives it for its only logical unit. */
  predicate ReadFor(q: Command, residue: Cdb, identify: uint8) {
    q.Valid() && !q.write && Lun(q.Cdb(residue), identify) == 0
  }

  /** A READ of readable sectors starts a stream that owes exactly those sectors. */
  lemma ReadStarts(d: State, q: Command, residue: Cdb, identify: uint8)
    requires Wf(d) && ReadFor(q, residue, identify) && q.blocks > 0 && Readable(d, q.lba, q.blocks)
    ensures var r := ReceiveCommand(d, q.Cdb(residue), identify);
            && Streaming(r) && SameMedium(d, r) && r.status == STATUS_GOOD && r.message == MSG_COMPLETE
            && Owed(r) == d.image[q.lba * BLOCK..(q.lba + q.blocks) * BLOCK]
            && r.lba + r.blocks == q.lba + q.blocks && r.lba > q.lba
  {
    Decodes(q, residue);
    hide Offset, Count, ReceiveCommand, CacheOk, Owed, Lun, HasBit;
    StreamStarts(d, q.Cdb(residue), identify);
  }

  /** The law of the READ path: whatever the mix of accesses, the bytes are the image's
      bytes from the first sector on, Data-In lasts exactly until the last of them,
      and the status is GOOD. */
  lemma ReadDelivers(d: State, q: Command, residue: Cdb, identify: uint8, pulls: seq<Pull>)
    requires Wf(d) && ReadFor(q, residue, identify) && q.blocks > 0 && Readable(d, q.lba, q.blocks)
    ensures var (e, got) := Drain(ReceiveCommand(d, q.Cdb(residue), identify), pulls);
            && |got| <= q.blocks * BLOCK
            && got == d.image[q.lba * BLOCK..q.lba * BLOCK + |got|]
            && (e.phase == DataIn <==> |got| < q.blocks * BLOCK)
            && e.phase in {DataIn, Status} && e.status == STATUS_GOOD
  {
    hide Slot, Offset, Count, ReceiveCommand, Drain, ReadFor;
    ReadStarts(d, q, residue, identify);
    assert q.Valid() by { FromReadFor(q, residue, identify); }
    var r := ReceiveCommand(d, q.Cdb(residue), identify);
    DrainDelivers(r, pulls);
    var (e, got) := Drain(r, pulls);
    if e.phase == DataIn {
      assert Owed(r)[..|got|] == got;
    } else {
      var missing :| got + missing == Owed(r) && Ended(e, missing);
      assert e.blocks == 0;
      assert got + [] == got;
    }
  }

  lemma FromReadFor(q: Command, residue: Cdb, identify: uint8)
    requires ReadFor(q, residue, identify)
    ensures q.Valid()
  {
  }

  /** A READ of no sectors, which only the ten-byte form can ask for, goes straight to
      status, and the status it reports is the previous command's. */
  lemma ReadOfNothing(d: State, q: Command, residue: Cdb, identify: uint8)
    requires Wf(d) && ReadFor(q, residue, identify) && q.blocks == 0
    ensures q.Long?
    ensures var r := ReceiveCommand(d, q.Cdb(residue), identify);
            && r.phase == Status && r.buf == []
            && (r.status == STATUS_GOOD <==> d.status == STATUS_GOOD)
  {
    Decodes(q, residue);
    hide Lun, HasBit, Offset, Count;
    ReceiveRead(d, q.Cdb(residue), identify);
  }

  /** Whatever the command and the card, no byte other than the requested ones is ever sent. */
  lemma ReadNeverLies(d: State, q: Command, residue: Cdb, identify: uint8, pulls: seq<Pull>)
    requires Wf(d) && ReadFor(q, residue, identify)
    ensures var (e, got) := Drain(ReceiveCommand(d, q.Cdb(residue), identify), pulls);
            got <= Sectors(d.image, q.lba, q.blocks)
  {
    Decodes(q, residue);
    hide Offset, Count, Lun, HasBit, CacheOk, ReceiveCommand, Drain, Owed;
    StreamNeverLies(d, q.Cdb(residue), identify, pulls);
  }

  lemma StreamNeverLies(d: State, c: Cdb, identify: uint8, pulls: seq<Pull>)
    requires Wf(d) && IsRead(c) && Lun(c, identify) == 0
    ensures var (e, got) := Drain(ReceiveCommand(d, c, identify), pulls);
            got <= Sectors(d.image, Offset(c), Count(c))
  {
    hide Slot, Offset, Count, ReceiveCommand;
    ReadOneSectorKeeps(ReadStart(d, c));
    ReceiveRead(d, c, identify);
    var r := ReceiveCommand(d, c, identify);
    if r.phase == DataIn {
      assert Owed(r) == Sectors(d.image, Offset(c), Count(c));
      DrainDelivers(r, pulls);
    }
  }

  // ---------------------------------------------------------------------- writing

  /** Data-Out accesses of the given sizes, as long as the target asks for data. */
  function Take(d: State, sizes: seq<nat>): State
    decreases |sizes|
  {
    if sizes == [] || d.phase != DataOut then d else Take(ConsumeWrite(d, sizes[0]), sizes[1..])
  }

  function Sum(sizes: seq<nat>): nat {
    if sizes == [] then 0 else sizes[0] + Sum(sizes[1..])
  }

  lemma {:induction false} TakeCounts(d: State, sizes: seq<nat>)
    requires d.phase == DataOut
    ensures var e := Take(d, sizes);
            && e == d.(phase := e.phase, writePending := e.writePending)
            && e.phase in {DataOut, Status}
            && (e.phase == Status <==> sizes != [] && Sum(sizes) >= d.writePending)
            && e.writePending == d.writePending - Min(Sum(sizes), d.writePending)
    decreases |sizes|
  {
    if sizes != [] {
      var e := ConsumeWrite(d, sizes[0]);
      if e.phase == DataOut {
        TakeCounts(e, sizes[1..]);
      }
    }
  }

  /** A WRITE of `n` sectors takes exactly 512 `n` bytes, in accesses of any sizes, and
      then goes to Status and reports GOOD; nothing of the medium changes, and no sector it
      covers stays cached. */
  lemma WriteAccepts(d: State, q: Command, residue: Cdb, identify: uint8, sizes: seq<nat>)
    requires q.Valid() && q.write && Lun(q.Cdb(residue), identify) == 0
    ensures var w := ReceiveCommand(d, q.Cdb(residue), identify);
            var e := Take(w, sizes);
            && w.phase == DataOut && w.writePending == q.blocks * BLOCK && w.status == STATUS_GOOD
            && e.phase in {DataOut, Status} && e.status == STATUS_GOOD && e.message == MSG_COMPLETE && SameMedium(d, e)
            && (e.phase == Status <==> sizes != [] && Sum(sizes) >= q.blocks * BLOCK)
            && e.writePending == q.blocks * BLOCK - Min(Sum(sizes), q.blocks * BLOCK)
            && e.lines == d.lines
            && (forall i | 0 <= i < SLOTS ::
                  e.tags[i] == if (d.tags[i] - q.lba) % 0x1_0000_0000 < q.blocks && i == Slot(d.tags[i])
                               then EMPTY_LBA else d.tags[i])
  {
    Decodes(q, residue);
    hide Offset, Count, Slot, InvalidateRange, Lun, HasBit;
    var w := ReceiveCommand(d, q.Cdb(residue), identify);
    WriteStarts(d, q.Cdb(residue), identify);
    TakeCounts(w, sizes);
    hide ReceiveCommand, Take, Sum;
    forall i | 0 <= i < SLOTS
      ensures w.tags[i] == if (d.tags[i] - q.lba) % 0x1_0000_0000 < q.blocks && i == Slot(d.tags[i])
                           then EMPTY_LBA else d.tags[i]
    {
      InvalidateRangeClears(d.tags, q.lba, q.blocks, i);
    }
  }

  lemma WriteStarts(d: State, c: Cdb, identify: uint8)
    requires c[0] in {0x0A, 0x2A} && Lun(c, identify) == 0
    ensures ReceiveCommand(d, c, identify) == WriteCommand(d.(lun := 0), c).(message := MSG_COMPLETE)
  {
    hide Offset, Count, InvalidateRange, ReadOneSector, Inquiry, RequestSense, ReadCapacity, ModeSense;
  }

  // ---------------------------------------------------------------- error reports

  /** Big-endian value of four bytes. */
  function Value32(b: seq<uint8>): uint32
    requires |b| == 4
  {
    var (b0: int, b1: int, b2: int) := (b[0], b[1], b[2]);
    b0 * 0x100_0000 + b1 * 0x1_0000 + b2 * 0x100 + b[3]
  }

  lemma BigEndianReadsBack(x: uint32)
    ensures |BigEndian32(x)| == 4 && Value32(BigEndian32(x)) == x
  {
    BigEndianSum(x);
  }

  /** A READ from beyond the medium ends in CHECK CONDITION, and a REQUEST SENSE after it
      names the illegal address and the sector it was. */
  lemma BeyondEndIsReported(d: State, q: Command, residue: Cdb, identify: uint8, sense: Cdb, identify2: uint8)
    requires Wf(d) && ReadFor(q, residue, identify) && q.blocks > 0 && q.lba * BLOCK >= |d.image|
    requires sense[0] == 0x03 && sense[4] >= 18
    ensures var e := ReceiveCommand(d, q.Cdb(residue), identify);
            && e.phase == Status && e.status == STATUS_CHECK && e.buf == []
            && var r := ReceiveCommand(e, sense, identify2).buf;
               |r| >= 18 && r[0] == 0xF0 && r[2] == 5 && r[12] == SC_INVALID_LBA && Value32(r[3..7]) == q.lba
  {
    var c := q.Cdb(residue);
    Decodes(q, residue);
    ReceiveRead(d, c, identify);
    var e := ReceiveCommand(d, c, identify);
    assert e == ReadOneSector(ReadStart(d, c)).(message := MSG_COMPLETE);
    hide Offset, Count, Lun, Slot, Dispatch;
    assert e.sense == Sense(d.sense.key, SC_INVALID_LBA, true, q.lba);
    BigEndianReadsBack(q.lba);
    SenseFields(e.sense, sense);
    hide SenseData, BigEndian32, Value32, SenseKey;
    assert ReceiveCommand(e, sense, identify2).buf == SenseData(e.sense, sense);
  }

  /** Where a REQUEST SENSE of full length puts the report. */
  lemma SenseFields(s: Sense, c: Cdb)
    requires TransferLength(c) >= 18
    ensures var r := SenseData(s, c);
            && |r| >= 18 && r[0] == (if s.valid then 0xF0 else 0x70) && r[2] == SenseKey(s.code) && r[12] == s.code
            && (s.valid ==> r[3..7] == BigEndian32(s.info))
  {
    hide TransferLength;
    var r := SenseData(s, c);
    var info := if s.valid then BigEndian32(s.info) else [0, 0, 0, 0];
    assert r[3] == info[0] && r[4] == info[1] && r[5] == info[2] && r[6] == info[3];
    assert s.valid ==> r[3..7] == info;
  }

  /** Sense key and code reported for a refused command. */
  ghost predicate Reports(e: State, sense: Cdb, identify: uint8, key: uint8, code: uint8) {
    && e.phase == Status && e.status == STATUS_CHECK
    && var r := ReceiveCommand(e, sense, identify).buf;
       |r| >= 18 && r[2] == key && r[12] == code
  }

  lemma SenseReports(e: State, sense: Cdb, identify: uint8)
    requires e.phase == Status && e.status == STATUS_CHECK && sense[0] == 0x03 && sense[4] >= 18
    ensures Reports(e, sense, identify, SenseKey(e.sense.code), e.sense.code)
  {
    SenseFields(e.sense, sense);
    hide SenseData, SenseKey, TransferLength, Lun, Dispatch;
    assert ReceiveCommand(e, sense, identify).buf == SenseData(e.sense, sense);
  }

  /** Refused commands and what REQUEST SENSE says of them afterwards: an unknown command
      and a logical unit other than 0 are illegal requests, a unit without a medium and a
      sector the card cannot give are not ready. */
  lemma RefusalsAreReported(d: State, c: Cdb, identify: uint8, sense: Cdb, identify2: uint8)
    requires sense[0] == 0x03 && sense[4] >= 18 && c[0] != 0x12 && c[0] != 0x03
    ensures var e := ReceiveCommand(d, c, identify);
            && (Lun(c, identify) != 0 ==> Reports(e, sense, identify2, 5, SC_INVALID_LUN))
            && (Lun(c, identify) == 0 && c[0] !in {0x00, 0x04, 0x08, 0x0A, 0x15, 0x1A, 0x1B, 0x25, 0x28, 0x2A} ==>
                  Reports(e, sense, identify2, 5, SC_INVALID_CMD))
            && (Lun(c, identify) == 0 && c[0] == 0x00 && !d.mounted ==> Reports(e, sense, identify2, 2, SC_NOT_READY))
            && (Lun(c, identify) == 0 && c[0] == 0x25 && |d.image| < BLOCK ==> Reports(e, sense, identify2, 2, SC_NOT_READY))
  {
    var e := ReceiveCommand(d, c, identify);
    hide TransferLength, Lun, Reports, ReadCommand, WriteCommand, ModeSense, Inquiry, RequestSense;
    if e.phase == Status && e.status == STATUS_CHECK {
      SenseReports(e, sense, identify2);
    }
  }

  /** A READ that meets a sector the card cannot give is reported as not ready. */
  lemma UnreadableIsReported(d: State, q: Command, residue: Cdb, identify: uint8, sense: Cdb, identify2: uint8)
    requires Wf(d) && ReadFor(q, residue, identify) && q.blocks > 0 && q.lba * BLOCK < |d.image|
    requires !Loadable(d, q.lba)
    requires sense[0] == 0x03 && sense[4] >= 18
    ensures Reports(ReceiveCommand(d, q.Cdb(residue), identify), sense, identify2, 2, SC_NOT_READY)
  {
    var c := q.Cdb(residue);
    Decodes(q, residue);
    ReceiveRead(d, c, identify);
    var e := ReceiveCommand(d, c, identify);
    assert e == ReadOneSector(ReadStart(d, c)).(message := MSG_COMPLETE);
    hide TransferLength, Lun, Reports, Offset, Count, ReceiveCommand, Slot;
    SenseReports(e, sense, identify2);
  }

  /** INQUIRY answers for every unit, the units that are not there marked in the first byte:
      as much of 54 bytes as was asked for, with their own length in byte 4 and vendor and
      product name after it. */
  lemma InquiryReplies(d: State, c: Cdb, identify: uint8)
    requires c[0] == 0x12
    ensures var e, full := ReceiveCommand(d, c, identify), InquiryData(Lun(c, identify));
            && e.phase == DataIn && e.status == STATUS_GOOD && !e.isDisk && e.message == MSG_COMPLETE
            && e.buf == full[..Min(c[4], |full|)]
            && full[0] == (if Lun(c, identify) == 0 then 0x00 else 0x7F) && full[4] as int == |full| - 5
            && full[8..24] == [70, 80, 71, 65, 32, 32, 32, 32, 78, 101, 88, 84, 68, 105, 115, 107]
  {
    hide Lun;
    var full := InquiryData(Lun(c, identify));
    assert full[8..16] == [70, 80, 71, 65, 32, 32, 32, 32] && full[16..24] == [78, 101, 88, 84, 68, 105, 115, 107];
    assert full[8..24] == full[8..16] + full[16..24];
  }

  /** MODE SENSE names its own length, and unless the command switches it off, a block
      descriptor with the number of sectors modulo 2^24 and the block size. */
  lemma ModeReplies(d: State, c: Cdb, identify: uint8)
    requires c[0] == 0x1A && Lun(c, identify) == 0
    ensures var e, full := ReceiveCommand(d, c, identify), ModeData(SectorCount(d.image), c);
            && e.phase == DataIn && e.status == STATUS_GOOD && !e.isDisk && e.buf == full[..Min(c[4], |full|)]
            && |full| >= 4 && full[0] as int == |full| - 1
            && (if HasBit(c[1], 0x08) then full[3] == 0
                else
                  && |full| >= 12 && full[3] == 8
                  && Value32([0] + full[5..8]) == SectorCount(d.image) % 0x100_0000
                  && Value32([0] + full[9..12]) == BLOCK)
  {
    hide Lun, ModePages;
    var sectors := SectorCount(d.image);
    var full := ModeData(sectors, c);
    if !HasBit(c[1], 0x08) {
      var b := BigEndian32(sectors);
      assert full[5..8] == b[1..] && full[9..12] == [0, 2, 0];
      BigEndianSum(sectors);
      assert Value32([0] + b[1..]) == sectors % 0x100_0000;
    }
    hide ModeData, SectorCount;
    ModeReply(d, c, identify);
  }

  lemma ModeReply(d: State, c: Cdb, identify: uint8)
    requires c[0] == 0x1A && Lun(c, identify) == 0
    ensures ReceiveCommand(d, c, identify) == ModeSense(d.(lun := 0), c).(message := MSG_COMPLETE)
  {
    hide Inquiry, RequestSense, ReadCapacity, WriteCommand, ReadCommand, ModeSense;
  }

  /** READ CAPACITY names the last sector of the medium: it can be read, the next cannot. */
  lemma CapacityNamesLastSector(d: State, c: Cdb, identify: uint8)
    requires Wf(d) && c[0] == 0x25 && Lun(c, identify) == 0 && |d.image| >= BLOCK
    ensures var r := ReceiveCommand(d, c, identify);
            && r.phase == DataIn && |r.buf| == 8 && Value32(r.buf[4..]) == BLOCK
            && var last := Value32(r.buf[..4]); OnMedium(d.image, last) && !OnMedium(d.image, last + 1)
  {
    hide Lun;
    var n := SectorCount(d.image);
    assert |d.image| / BLOCK < 0x1_0000_0000;
    BigEndianReadsBack(n - 1);
    BigEndianReadsBack(BLOCK);
    var r := ReceiveCommand(d, c, identify);
    assert r.buf == CapacityData(d.image);
    assert r.buf[..4] == BigEndian32(n - 1) && r.buf[4..] == BigEndian32(BLOCK);
  }
}
