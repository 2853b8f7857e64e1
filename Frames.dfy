/**
 * The frame codec of the LiTime BMS session engine: the 8-byte command
 * frame and the fixed field layout of the little-endian status frame
 * (coordinator.py, `_build_command` and the reads of
 * `_parse_status_response`).
 *
 * All quantities stay raw integers in the units the BMS sends them:
 * millivolts, milliamperes, hundredths of an ampere-hour, milliampere-hours.
 */
module Frames {
  import opened Wrappers
  import opened Bytes

  /** Shortest status response the engine accepts (bytes). */
  const MIN_RESPONSE_LENGTH: nat := 104
  /** Number of cell-voltage slots in a status frame. */
  const MAX_CELLS: nat := 16
  /** Position and value of the byte that marks the first packet of a status response. */
  const RESPONSE_MARKER_OFFSET: nat := 2
  const RESPONSE_MARKER_VALUE: byte := 0x65

  // ---------------------------------------------------------------------
  // Command frames
  // ---------------------------------------------------------------------

  /** `_build_command`: `[0x00, 0x00, 0x04, 0x01, cmd, 0x55, 0xAA, checksum]`
      where the checksum is the low byte of `0x04 + 0x01 + cmd`. */
  function BuildCommand(cmd: byte): (frame: seq<byte>)
    ensures |frame| == 8
    ensures frame[..4] == [0x00, 0x00, 0x04, 0x01] && frame[5..7] == [0x55, 0xAA]
    ensures frame[4] == cmd
    ensures frame[7] == (frame[2] as int + frame[3] + frame[4]) % 256
  {
    [0x00, 0x00, 0x04, 0x01, cmd, 0x55, 0xAA, (0x04 + 0x01 + cmd as int) % 256]
  }

  /** Recognises a well-formed command frame and yields its opcode. */
  function CommandOpcode(frame: seq<byte>): Option<byte>
  {
    if |frame| == 8 && frame[0] == 0x00 && frame[1] == 0x00 && frame[2] == 0x04 && frame[3] == 0x01
       && frame[5] == 0x55 && frame[6] == 0xAA && frame[7] == (0x05 + frame[4] as int) % 256
    then Some(frame[4])
    else None
  }

  /** Every built command is well formed and carries its opcode, and a
      well-formed command frame is the one built for its opcode. */
  lemma CommandRoundTrip(cmd: byte, frame: seq<byte>)
    ensures CommandOpcode(BuildCommand(cmd)) == Some(cmd)
    ensures CommandOpcode(frame) == Some(cmd) ==> frame == BuildCommand(cmd)
  {
    if CommandOpcode(frame) == Some(cmd) {
      var b := BuildCommand(cmd);
      assert forall i :: 0 <= i < 8 ==> frame[i] == b[i];
    }
  }

  /** The status query with opcode 0x01 has checksum 0x06. */
  lemma QueryChecksum()
    ensures BuildCommand(0x01) == [0x00, 0x00, 0x04, 0x01, 0x01, 0x55, 0xAA, 0x06]
  {
  }

  // ---------------------------------------------------------------------
  // The raw fields of a status frame
  // ---------------------------------------------------------------------

  /** The raw integer fields of a status frame, before interpretation. */
  datatype RawFrame = RawFrame(
    totalVoltage: nat,        // offset 12, u32, mV
    cells: seq<nat>,          // offsets 16 + 2i, 16 x u16, mV (0 = no cell)
    current: int,             // offset 48, i32, mA (negative = discharging)
    cellTemperature: int,     // offset 52, i16, degrees C
    mosfetTemperature: int,   // offset 54, i16, degrees C
    remainingCapacity: nat,   // offset 62, u16, 0.01 Ah
    fullChargeCapacity: nat,  // offset 64, u16, 0.01 Ah
    heatState: nat,           // offset 68, u32; bit 0x80 = discharge disabled
    protectionFlags: nat,     // offset 76, u32
    failureFlags: nat,        // offset 80, u32
    balancingState: nat,      // offset 84, u32
    batteryState: nat,        // offset 88, u16
    stateOfCharge: nat,       // offset 90, u16, %
    stateOfHealth: nat,       // offset 92, u16, %
    dischargeCycles: nat,     // offset 96, u32
    totalDischarge: nat       // offset 100, u32, mAh
  )

  predicate IsU16(x: int) { 0 <= x < TWO_16 }
  predicate IsU32(x: int) { 0 <= x < TWO_32 }
  predicate IsI16(x: int) { -0x8000 <= x < 0x8000 }
  predicate IsI32(x: int) { -0x8000_0000 <= x < 0x8000_0000 }

  /** Every field fits the width the frame gives it. */
  predicate WellFormed(raw: RawFrame)
  {
    && IsU32(raw.totalVoltage)
    && |raw.cells| == MAX_CELLS && (forall i :: 0 <= i < |raw.cells| ==> IsU16(raw.cells[i]))
    && IsI32(raw.current) && IsI16(raw.cellTemperature) && IsI16(raw.mosfetTemperature)
    && IsU16(raw.remainingCapacity) && IsU16(raw.fullChargeCapacity)
    && IsU32(raw.heatState) && IsU32(raw.protectionFlags) && IsU32(raw.failureFlags)
    && IsU32(raw.balancingState) && IsU16(raw.batteryState)
    && IsU16(raw.stateOfCharge) && IsU16(raw.stateOfHealth)
    && IsU32(raw.dischargeCycles) && IsU32(raw.totalDischarge)
  }

  /** The fixed layout: each field read at its offset. */
  function ReadRaw(data: seq<byte>): (raw: RawFrame)
    requires |data| >= MIN_RESPONSE_LENGTH
    ensures WellFormed(raw)
  {
    RawFrame(
      U32(data, 12),
      seq(MAX_CELLS, i requires 0 <= i < MAX_CELLS => U16(data, 16 + 2 * i)),
      I32(data, 48),
      I16(data, 52),
      I16(data, 54),
      U16(data, 62),
      U16(data, 64),
      U32(data, 68),
      U32(data, 76),
      U32(data, 80),
      U32(data, 84),
      U16(data, 88),
      U16(data, 90),
      U16(data, 92),
      U32(data, 96),
      U32(data, 100))
  }

  /** The decoder looks only at bytes 12 to 103 of a frame: frames that
      agree there decode alike, whatever their header and trailing bytes. */
  lemma ReadRawWindow(a: seq<byte>, b: seq<byte>)
    requires |a| >= MIN_RESPONSE_LENGTH && |b| >= MIN_RESPONSE_LENGTH
    requires a[12..104] == b[12..104]
    ensures ReadRaw(a) == ReadRaw(b)
  {
    forall i | 12 <= i < 104 ensures a[i] == b[i] {
      assert a[i] == a[12..104][i - 12];
    }
    assert ReadRaw(a).cells == ReadRaw(b).cells;
  }

  // ---------------------------------------------------------------------
  // Building a frame from raw fields (the partner of ReadRaw)
  // ---------------------------------------------------------------------

  /** Byte `i` of the frame that carries `raw`; bytes outside every field are 0. */
  function FrameByte(raw: RawFrame, i: nat): byte
    requires WellFormed(raw)
  {
    if 12 <= i < 16 then ByteOf(raw.totalVoltage, i - 12)
    else if 16 <= i < 48 then ByteOf(raw.cells[(i - 16) / 2], (i - 16) % 2)
    else if 48 <= i < 52 then ByteOf(Unsigned32(raw.current), i - 48)
    else if 52 <= i < 54 then ByteOf(Unsigned16(raw.cellTemperature), i - 52)
    else if 54 <= i < 56 then ByteOf(Unsigned16(raw.mosfetTemperature), i - 54)
    else if 62 <= i < 64 then ByteOf(raw.remainingCapacity, i - 62)
    else if 64 <= i < 66 then ByteOf(raw.fullChargeCapacity, i - 64)
    else if 68 <= i < 72 then ByteOf(raw.heatState, i - 68)
    else if 76 <= i < 80 then ByteOf(raw.protectionFlags, i - 76)
    else if 80 <= i < 84 then ByteOf(raw.failureFlags, i - 80)
    else if 84 <= i < 88 then ByteOf(raw.balancingState, i - 84)
    else if 88 <= i < 90 then ByteOf(raw.batteryState, i - 88)
    else if 90 <= i < 92 then ByteOf(raw.stateOfCharge, i - 90)
    else if 92 <= i < 94 then ByteOf(raw.stateOfHealth, i - 92)
    else if 96 <= i < 100 then ByteOf(raw.dischargeCycles, i - 96)
    else if 100 <= i < 104 then ByteOf(raw.totalDischarge, i - 100)
    else 0
  }

  /** A status frame of exactly `MIN_RESPONSE_LENGTH` bytes carrying `raw`. */
  function EncodeRaw(raw: RawFrame): (data: seq<byte>)
    requires WellFormed(raw)
    ensures |data| == MIN_RESPONSE_LENGTH
  {
    seq(MIN_RESPONSE_LENGTH, i requires 0 <= i < MIN_RESPONSE_LENGTH => FrameByte(raw, i))
  }

  lemma Signed16Of(d: seq<byte>, off: nat, v: int)
    requires off + 2 <= |d| && IsI16(v)
    requires d[off] == ByteOf(Unsigned16(v), 0) && d[off + 1] == ByteOf(Unsigned16(v), 1)
    ensures I16(d, off) == v
  {
    U16Of(d, off, Unsigned16(v));
  }

  lemma Signed32Of(d: seq<byte>, off: nat, v: int)
    requires off + 4 <= |d| && IsI32(v)
    requires forall k :: 0 <= k < 4 ==> d[off + k] == ByteOf(Unsigned32(v), k)
    ensures I32(d, off) == v
  {
    U32Of(d, off, Unsigned32(v));
  }

  lemma EncodedMeasurements(raw: RawFrame)
    requires WellFormed(raw)
    ensures U32(EncodeRaw(raw), 12) == raw.totalVoltage
    ensures I32(EncodeRaw(raw), 48) == raw.current
    ensures I16(EncodeRaw(raw), 52) == raw.cellTemperature
    ensures I16(EncodeRaw(raw), 54) == raw.mosfetTemperature
    ensures U16(EncodeRaw(raw), 62) == raw.remainingCapacity
    ensures U16(EncodeRaw(raw), 64) == raw.fullChargeCapacity
  {
    var d := EncodeRaw(raw);
    U32Of(d, 12, raw.totalVoltage);
    Signed32Of(d, 48, raw.current);
    Signed16Of(d, 52, raw.cellTemperature);
    Signed16Of(d, 54, raw.mosfetTemperature);
    U16Of(d, 62, raw.remainingCapacity);
    U16Of(d, 64, raw.fullChargeCapacity);
  }

  lemma EncodedCells(raw: RawFrame, i: nat)
    requires WellFormed(raw) && i < MAX_CELLS
    ensures U16(EncodeRaw(raw), 16 + 2 * i) == raw.cells[i]
  {
    var d := EncodeRaw(raw);
    assert (16 + 2 * i - 16) / 2 == i && (16 + 2 * i - 16) % 2 == 0;
    assert (16 + 2 * i + 1 - 16) / 2 == i && (16 + 2 * i + 1 - 16) % 2 == 1;
    U16Of(d, 16 + 2 * i, raw.cells[i]);
  }

  lemma EncodedStatusWords(raw: RawFrame)
    requires WellFormed(raw)
    ensures U32(EncodeRaw(raw), 68) == raw.heatState
    ensures U32(EncodeRaw(raw), 76) == raw.protectionFlags
    ensures U32(EncodeRaw(raw), 80) == raw.failureFlags
    ensures U32(EncodeRaw(raw), 84) == raw.balancingState
    ensures U16(EncodeRaw(raw), 88) == raw.batteryState
  {
    var d := EncodeRaw(raw);
    U32Of(d, 68, raw.heatState);
    U32Of(d, 76, raw.protectionFlags);
    U32Of(d, 80, raw.failureFlags);
    U32Of(d, 84, raw.balancingState);
    U16Of(d, 88, raw.batteryState);
  }

  lemma EncodedCounters(raw: RawFrame)
    requires WellFormed(raw)
    ensures U16(EncodeRaw(raw), 90) == raw.stateOfCharge
    ensures U16(EncodeRaw(raw), 92) == raw.stateOfHealth
    ensures U32(EncodeRaw(raw), 96) == raw.dischargeCycles
    ensures U32(EncodeRaw(raw), 100) == raw.totalDischarge
  {
    var d := EncodeRaw(raw);
    U16Of(d, 90, raw.stateOfCharge);
    U16Of(d, 92, raw.stateOfHealth);
    U32Of(d, 96, raw.dischargeCycles);
    U32Of(d, 100, raw.totalDischarge);
  }

  /** Decoding the frame built from a well-formed set of fields gives those fields back. */
  lemma ReadEncodeRoundTrip(raw: RawFrame)
    requires WellFormed(raw)
    ensures ReadRaw(EncodeRaw(raw)) == raw
  {
    EncodedMeasurements(raw);
    EncodedStatusWords(raw);
    EncodedCounters(raw);
    forall i | 0 <= i < MAX_CELLS ensures ReadRaw(EncodeRaw(raw)).cells[i] == raw.cells[i] {
      EncodedCells(raw, i);
    }
    assert ReadRaw(EncodeRaw(raw)).cells == raw.cells;
  }
}
