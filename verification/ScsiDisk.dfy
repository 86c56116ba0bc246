/** The SCSI target of next_scsi.c: command decoding, the phase machine, the
    sector-at-a-time stream and the direct-mapped sector cache. */
module ScsiDisk {
  import opened Bits

  const BLOCK := 512
  const SLOTS := 4096
  const EMPTY_LBA: uint32 := 0xFFFF_FFFF

  const STATUS_GOOD: uint8 := 0x00
  const STATUS_CHECK: uint8 := 0x02
  const MSG_COMPLETE: uint8 := 0x00

  const SC_NO_ERROR: uint8 := 0x00
  const SC_NOT_READY: uint8 := 0x04
  const SC_INVALID_CMD: uint8 := 0x20
  const SC_INVALID_LBA: uint8 := 0x21
  const SC_INVALID_LUN: uint8 := 0x25
  const SC_WRITE_PROTECT: uint8 := 0x27

  const TARGET_ID := 6

  const BLANK_SECTOR: Sector := seq(BLOCK, _ => 0)

  type Sector = b: seq<uint8> | |b| == BLOCK witness seq(BLOCK, _ => 0)
  type Tags = t: seq<uint32> | |t| == SLOTS witness seq(SLOTS, _ => 0)
  type Lines = l: seq<Sector> | |l| == SLOTS witness seq<Sector>(SLOTS, _ => BLANK_SECTOR)
  type Cdb = c: seq<uint8> | |c| == 12 witness seq(12, _ => 0)

  datatype Phase = DataOut | DataIn | Command | Status | MessageOut | MessageIn {
    function Code(): uint8 {
      match this
      case DataOut => 0
      case DataIn => 1
      case Command => 2
      case Status => 3
      case MessageOut => 6
      case MessageIn => 7
    }
  }

  datatype Sense = Sense(key: uint8, code: uint8, valid: bool, info: uint32)

  /** The target together with its medium. `buf` is the part of the transfer buffer
      not yet sent, `bad` the sectors the card refuses to read. */
  datatype State = State(
    image: seq<uint8>, mounted: bool, bad: set<int>,
    tags: Tags, lines: Lines,
    status: uint8, message: uint8, phase: Phase, target: uint8, lun: uint8, sense: Sense,
    lba: uint32, blocks: uint32, writePending: uint32,
    buf: seq<uint8>, isDisk: bool)

  // ------------------------------------------------------------- CDB decoding

  function Int16(c: Cdb, i: nat): uint16
    requires i + 1 < 12
  {
    c[i] as int * 0x100 + c[i + 1]
  }

  function Int24(c: Cdb, i: nat): uint32
    requires i + 2 < 12
  {
    c[i] as int * 0x1_0000 + c[i + 1] as int * 0x100 + c[i + 2]
  }

  function Int32(c: Cdb, i: nat): uint32
    requires i + 3 < 12
  {
    c[i] as int * 0x100_0000 + c[i + 1] as int * 0x1_0000 + c[i + 2] as int * 0x100 + c[i + 3]
  }

  function Offset(c: Cdb): uint32 {
    if c[0] < 0x20 then Int24(c, 1) % 0x20_0000 else Int32(c, 2)
  }

  function Count(c: Cdb): uint16 {
    if c[0] < 0x20 then (if c[4] == 0 then 0x100 else c[4]) else Int16(c, 7)
  }

  function TransferLength(c: Cdb): uint16 {
    if c[0] < 0x20 then c[4] else Int16(c, 7)
  }

  // ------------------------------------------------------------- sector cache

  /** Bitwise exclusive or. */
  function Xor(x: nat, y: nat): nat
    decreases x + y
  {
    if x == 0 && y == 0 then 0 else 2 * Xor(x / 2, y / 2) + (x + y) % 2
  }

  function Slot(lba: uint32): (s: int)
    ensures 0 <= s < SLOTS
  {
    Xor(lba, lba / 0x2000) % SLOTS
  }

  /** Sector `lba` lies wholly on the medium. */
  predicate OnMedium(image: seq<uint8>, lba: int) {
    0 <= lba && (lba + 1) * BLOCK <= |image|
  }

  function SectorAt(image: seq<uint8>, lba: int): Sector
    requires OnMedium(image, lba)
  {
    image[lba * BLOCK..(lba + 1) * BLOCK]
  }

  predicate Hit(d: State, lba: uint32) {
    d.tags[Slot(lba)] == lba
  }

  function Install(d: State, lba: uint32, data: Sector): State {
    d.(tags := d.tags[Slot(lba) := lba], lines := d.lines[Slot(lba) := data])
  }

  function Invalidate(tags: Tags, lba: uint32): Tags {
    if tags[Slot(lba)] == lba then tags[Slot(lba) := EMPTY_LBA] else tags
  }

  /** The invalidation loop of a write command; sector numbers wrap at 32 bits. */
  function InvalidateRange(tags: Tags, lba: uint32, n: nat): Tags
    decreases n
  {
    if n == 0 then tags
    else Invalidate(InvalidateRange(tags, lba, n - 1), (lba + n - 1) % 0x1_0000_0000)
  }

  /** Every occupied slot holds the sector its tag names. */
  ghost predicate CacheOk(image: seq<uint8>, tags: Tags, lines: Lines) {
    forall i | 0 <= i < SLOTS && tags[i] != EMPTY_LBA ::
      OnMedium(image, tags[i]) && lines[i] == SectorAt(image, tags[i])
  }

  // ---------------------------------------------------------------- streaming

  function Fail(d: State, code: uint8): State {
    d.(status := STATUS_CHECK, sense := d.sense.(code := code), phase := Status)
  }

  function Loaded(d: State, data: Sector): State
    requires d.blocks > 0
  {
    d.(buf := data, status := STATUS_GOOD,
       sense := d.sense.(code := SC_NO_ERROR, valid := false),
       lba := (d.lba + 1) % 0x1_0000_0000, blocks := d.blocks - 1)
  }

  /** scsi_read_one_sector. */
  function ReadOneSector(d: State): State {
    if d.blocks == 0 then d.(phase := Status)
    else if d.lba * BLOCK < |d.image| then
      if Hit(d, d.lba) then Loaded(d, d.lines[Slot(d.lba)])
      else if d.lba in d.bad || !OnMedium(d.image, d.lba) then Fail(d, SC_NOT_READY)
      else
        var data := SectorAt(d.image, d.lba);
        Loaded(Install(d, d.lba, data), data)
    else
      var f := Fail(d, SC_INVALID_LBA);
      f.(sense := f.sense.(valid := true, info := d.lba))
  }

  function Drained(d: State): State {
    if d.isDisk then ReadOneSector(d) else d.(phase := Status)
  }

  /** next_scsi_send_data: the byte handed over and the state after it. */
  function SendData(d: State): (r: (State, uint8)) {
    if d.buf == [] then (d, 0)
    else
      var e := d.(buf := d.buf[1..]);
      (if e.buf == [] then Drained(e) else e, d.buf[0])
  }

  /** next_scsi_consume_bytes. */
  function Consume(d: State, n: nat): State {
    var e := d.(buf := d.buf[Min(n, |d.buf|)..]);
    if e.buf == [] then Drained(e) else e
  }

  /** next_scsi_consume_write_bytes. */
  function ConsumeWrite(d: State, n: nat): State {
    var left := d.writePending - Min(n, d.writePending);
    var e := d.(writePending := left);
    if left == 0 then e.(phase := Status) else e
  }

  // ----------------------------------------------------------------- commands

  const INQUIRY_TAIL: seq<uint8> :=
    [0x00, 0x01, 0x02, 0x31, 0x00, 0x00, 0x1C] +
    [70, 80, 71, 65, 32, 32, 32, 32] +             // vendor
    [78, 101, 88, 84, 68, 105, 115, 107] +         // product
    [32, 32, 32, 32, 32, 32, 32, 32] +
    [48, 48, 48, 48, 48, 48, 48, 49] +             // revision
    [48, 48, 48, 48, 48, 48, 48, 48] +             // serial
    [32, 32, 32, 32, 32, 32]

  /** Hand `data` to the host outside a disk transfer. */
  function Reply(d: State, data: seq<uint8>): State {
    d.(buf := data, isDisk := false, status := STATUS_GOOD, phase := DataIn)
  }

  /** `data` cut to what the CDB asks for. */
  function Clip(data: seq<uint8>, c: Cdb): seq<uint8> {
    data[..Min(TransferLength(c), |data|)]
  }

  function NoError(s: Sense): Sense {
    s.(code := SC_NO_ERROR)
  }

  function InquiryData(lun: uint8): (r: seq<uint8>)
    ensures |r| == 54
  {
    [if lun != 0 then 0x7F else 0x00] + INQUIRY_TAIL
  }

  function Inquiry(d: State, c: Cdb): State {
    Reply(d.(sense := NoError(d.sense)), Clip(InquiryData(d.lun), c))
  }

  function BigEndian32(x: uint32): seq<uint8> {
    [x / 0x100_0000, x / 0x1_0000 % 0x100, x / 0x100 % 0x100, x % 0x100]
  }

  function SectorCount(image: seq<uint8>): uint32 {
    |image| / BLOCK % 0x1_0000_0000
  }

  function CapacityData(image: seq<uint8>): seq<uint8>
    requires SectorCount(image) > 0
  {
    BigEndian32(SectorCount(image) - 1) + BigEndian32(BLOCK)
  }

  function ReadCapacity(d: State): State {
    if SectorCount(d.image) == 0 then Fail(d, SC_NOT_READY)
    else Reply(d.(sense := NoError(d.sense)), CapacityData(d.image))
  }

  function SenseKey(code: uint8): uint8 {
    if code == SC_NO_ERROR then 0
    else if code == SC_NOT_READY then 2
    else if code == SC_WRITE_PROTECT then 7
    else if code in {SC_INVALID_CMD, SC_INVALID_LBA, SC_INVALID_LUN} then 5
    else 4
  }

  function SenseData(s: Sense, c: Cdb): (r: seq<uint8>)
    ensures |r| <= 22
  {
    var len := if TransferLength(c) == 0 then 4 else Min(TransferLength(c), 22);
    var info: seq<uint8> := if s.valid then BigEndian32(s.info) else [0, 0, 0, 0];
    var data: seq<uint8> :=
      [if s.valid then 0xF0 else 0x70, 0, SenseKey(s.code)] + info + [14, 0, 0, 0, 0, s.code] +
      [0, 0, 0, 0, 0, 0, 0, 0, 0];
    data[..len]
  }

  function RequestSense(d: State, c: Cdb): State {
    Reply(d.(sense := d.sense.(key := SenseKey(d.sense.code))), SenseData(d.sense, c))
  }

  function ModePages(sectors: uint32, page: uint8): (r: seq<uint8>)
    ensures |r| <= 32
  {
    var cyls := sectors / (16 * 63);
    var geometry := BigEndian32(if cyls == 0 then 1 else cyls);
    (if page == 0x00 || page == 0x3F then [0x00, 0x02, 0x80, 0x00] else []) +
    (if page == 0x01 || page == 0x3F then [0x01, 0x06, 0x00, 0x1B, 0x0B, 0x00, 0x00, 0xFF] else []) +
    (if page == 0x04 || page == 0x3F then
      [0x04, 0x12] + geometry[1..] + [16, 0, 0, 0, 0, 0, 0, 0, 0, 0, 0, 0, 0, 0, 0]
    else [])
  }

  function ModeData(sectors: uint32, c: Cdb): (r: seq<uint8>)
    ensures |r| <= 44
  {
    var dbd := HasBit(c[1], 0x08);
    var descriptor: seq<uint8> := if dbd then [] else [0] + BigEndian32(sectors)[1..] + [0, 0, 2, 0];
    var body := [0, 0, if dbd then 0 else 8] + descriptor + ModePages(sectors, c[2] % 0x40);
    [|body| as uint8] + body
  }

  function ModeSense(d: State, c: Cdb): State {
    Reply(d.(sense := NoError(d.sense)), Clip(ModeData(SectorCount(d.image), c), c))
  }

  /** READ(6) and READ(10). */
  function ReadCommand(d: State, c: Cdb): State {
    ReadOneSector(d.(lba := Offset(c), blocks := Count(c), isDisk := true, buf := [], phase := DataIn))
  }

  /** WRITE(6) and WRITE(10): the data will be accepted and thrown away. */
  function WriteCommand(d: State, c: Cdb): State {
    d.(lba := Offset(c), blocks := Count(c), writePending := Count(c) * BLOCK,
       tags := InvalidateRange(d.tags, Offset(c), Count(c)),
       status := STATUS_GOOD, phase := DataOut)
  }

  function Dispatch(d: State, c: Cdb): State {
    match c[0]
    case 0x00 =>
      if !d.mounted then Fail(d, SC_NOT_READY)
      else d.(status := STATUS_GOOD, sense := d.sense.(code := SC_NO_ERROR), phase := Status)
    case 0x25 => ReadCapacity(d)
    case 0x08 => ReadCommand(d, c)
    case 0x28 => ReadCommand(d, c)
    case 0x0A => WriteCommand(d, c)
    case 0x2A => WriteCommand(d, c)
    case 0x1A => ModeSense(d, c)
    case 0x1B => d.(status := STATUS_GOOD, phase := Status)
    case 0x04 => d.(status := STATUS_GOOD, phase := Status)
    case 0x15 => d.(status := STATUS_GOOD, phase := Status)
    case _ =>
      var f := Fail(d, SC_INVALID_CMD);
      f.(sense := f.sense.(valid := false))
  }

  function Lun(c: Cdb, identify: uint8): uint8 {
    if HasBit(identify, 0x80) then identify % 8 else c[1] / 32
  }

  /** next_scsi_receive_command. */
  function ReceiveCommand(d: State, c: Cdb, identify: uint8): State {
    var e := d.(lun := Lun(c, identify));
    var f :=
      if c[0] == 0x12 then Inquiry(e, c)
      else if c[0] == 0x03 then RequestSense(e, c)
      else if e.lun != 0 then
        var g := Fail(e, SC_INVALID_LUN);
        g.(sense := g.sense.(valid := false))
      else Dispatch(e, c);
    f.(message := MSG_COMPLETE)
  }

  /** next_scsi_select: true means nobody answered. */
  function Select(d: State, target: uint8): (r: (State, bool)) {
    if target != TARGET_ID || !d.mounted then (d.(phase := Status), true)
    else (d.(target := target), false)
  }

  // --------------------------------------------------------------- invariants

  /** Medium and cache agree. Sector numbers are 32 bits wide and the largest one marks an
      empty slot, hence the bound on the medium; the slots are first marked empty when a
      medium is opened, and without one they are never looked at. */
  ghost predicate MediumOk(d: State) {
    && (d.mounted ==> CacheOk(d.image, d.tags, d.lines))
    && |d.image| <= EMPTY_LBA * BLOCK
    && (!d.mounted ==> d.image == [])
  }

  /** What every operation of the target keeps. */
  ghost predicate Wf(d: State) {
    && MediumOk(d)
    && |d.buf| <= BLOCK
    && (d.phase == DataIn ==> d.status == STATUS_GOOD)
    && (d.phase == DataIn && d.isDisk ==> d.buf != [])
  }

  /** The medium never changes, whatever the host does. */
  ghost predicate SameMedium(d: State, e: State) {
    e.image == d.image && e.mounted == d.mounted && e.bad == d.bad
  }

  /** After next_scsi_init: with a medium every slot is empty; without one the tags hold
      whatever they held, such as the zeros of fresh memory. */
  predicate PowerOn(d: State) {
    && d.phase == Status && d.buf == []
    && |d.image| <= EMPTY_LBA * BLOCK
    && (if d.mounted then forall i | 0 <= i < SLOTS :: d.tags[i] == EMPTY_LBA else d.image == [])
  }

  lemma PowerOnOk(d: State)
    requires PowerOn(d)
    ensures Wf(d)
  {
  }

  lemma PhaseKeeps(d: State, phase: Phase)
    requires Wf(d) && phase != DataIn
    ensures Wf(d.(phase := phase)) && SameMedium(d, d.(phase := phase))
  {
  }

  lemma InvalidateOne(tags: Tags, lba: uint32, i: int)
    requires 0 <= i < SLOTS
    ensures Invalidate(tags, lba)[i] == if tags[i] == lba && i == Slot(lba) then EMPTY_LBA else tags[i]
  {
  }

  /** After a write command no slot still answers for a sector it covers, sector numbers
      counted modulo 2^32, and no other slot has changed. */
  lemma {:induction false} InvalidateRangeClears(tags: Tags, lba: uint32, n: nat, i: int)
    requires 0 <= i < SLOTS
    ensures InvalidateRange(tags, lba, n)[i] ==
            if (tags[i] - lba) % 0x1_0000_0000 < n && i == Slot(tags[i]) then EMPTY_LBA else tags[i]
    decreases n
  {
    hide Slot, Invalidate;
    if n > 0 {
      InvalidateRangeClears(tags, lba, n - 1, i);
      InvalidateOne(InvalidateRange(tags, lba, n - 1), (lba + n - 1) % 0x1_0000_0000, i);
      CoveredLast(lba, n, tags[i]);
    }
  }

  /** A sector is covered by `n` if it is covered by the first `n - 1` or is the last. */
  lemma CoveredLast(lba: uint32, n: nat, t: uint32)
    requires n > 0
    ensures (t - lba) % 0x1_0000_0000 < n <==>
            (t - lba) % 0x1_0000_0000 < n - 1 || t == (lba + n - 1) % 0x1_0000_0000
  {
  }

  lemma InvalidateRangeShrinks(tags: Tags, lba: uint32, n: nat)
    ensures forall i | 0 <= i < SLOTS ::
              var t := InvalidateRange(tags, lba, n)[i]; t == tags[i] || t == EMPTY_LBA
    decreases n
  {
    if n > 0 {
      InvalidateRangeShrinks(tags, lba, n - 1);
    }
  }

  /** A sector load keeps the cache honest and either delivers the sector the image
      holds or leaves Data-In with nothing buffered. */
  lemma ReadOneSectorKeeps(d: State)
    requires MediumOk(d)
    requires d.buf == [] && d.isDisk
    ensures var e := ReadOneSector(d);
            && Wf(e) && SameMedium(d, e)
            && (e.phase == DataIn ==> d.phase == DataIn)
            && (e.buf != [] ==> OnMedium(d.image, d.lba) && e.buf == SectorAt(d.image, d.lba) && e.phase == d.phase)
            && (e.buf == [] ==> e.phase == Status)
  {
    var e := ReadOneSector(d);
    forall i | 0 <= i < SLOTS && d.mounted && e.tags[i] != EMPTY_LBA
      ensures OnMedium(e.image, e.tags[i]) && e.lines[i] == SectorAt(e.image, e.tags[i])
    {
      assert i == Slot(d.lba) || (e.tags[i] == d.tags[i] && e.lines[i] == d.lines[i]);
    }
  }

  lemma DrainedKeeps(d: State)
    requires MediumOk(d)
    requires d.buf == []
    ensures Wf(Drained(d)) && SameMedium(d, Drained(d))
  {
    if d.isDisk {
      ReadOneSectorKeeps(d);
    }
  }

  lemma SendDataKeeps(d: State)
    requires Wf(d)
    ensures Wf(SendData(d).0) && SameMedium(d, SendData(d).0)
  {
    if |d.buf| == 1 {
      DrainedKeeps(d.(buf := []));
    }
  }

  lemma ConsumeKeeps(d: State, n: nat)
    requires Wf(d)
    ensures Wf(Consume(d, n)) && SameMedium(d, Consume(d, n))
  {
    if n >= |d.buf| {
      DrainedKeeps(d.(buf := []));
    }
  }

  lemma RepliesKeep(d: State, c: Cdb)
    requires Wf(d)
    ensures Wf(Inquiry(d, c)) && SameMedium(d, Inquiry(d, c))
    ensures Wf(RequestSense(d, c)) && SameMedium(d, RequestSense(d, c))
    ensures Wf(ReadCapacity(d)) && SameMedium(d, ReadCapacity(d))
    ensures Wf(ModeSense(d, c)) && SameMedium(d, ModeSense(d, c))
  {
  }

  lemma ReadCommandKeeps(d: State, c: Cdb)
    requires Wf(d)
    ensures Wf(ReadCommand(d, c)) && SameMedium(d, ReadCommand(d, c))
  {
    ReadOneSectorKeeps(d.(lba := Offset(c), blocks := Count(c), isDisk := true, buf := [], phase := DataIn));
  }

  lemma WriteCommandKeeps(d: State, c: Cdb)
    requires Wf(d)
    ensures Wf(WriteCommand(d, c)) && SameMedium(d, WriteCommand(d, c))
  {
    InvalidateRangeShrinks(d.tags, Offset(c), Count(c));
  }

  lemma DispatchKeeps(d: State, c: Cdb)
    requires Wf(d)
    ensures Wf(Dispatch(d, c)) && SameMedium(d, Dispatch(d, c))
  {
    match c[0]
    case 0x25 => RepliesKeep(d, c);
    case 0x1A => RepliesKeep(d, c);
    case 0x08 => ReadCommandKeeps(d, c);
    case 0x28 => ReadCommandKeeps(d, c);
    case 0x0A => WriteCommandKeeps(d, c);
    case 0x2A => WriteCommandKeeps(d, c);
    case _ =>
  }

  /** Every CDB, well formed or not, keeps the invariant. */
  lemma ReceiveCommandKeeps(d: State, c: Cdb, identify: uint8)
    requires Wf(d)
    ensures Wf(ReceiveCommand(d, c, identify)) && SameMedium(d, ReceiveCommand(d, c, identify))
  {
    var e := d.(lun := Lun(c, identify));
    RepliesKeep(e, c);
    DispatchKeeps(e, c);
  }
}
