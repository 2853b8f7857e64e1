/**
 * The status reading: decoding a status frame into a record whose every
 * field may be absent, and the fixed offline record of the same shape
 * (coordinator.py, `_parse_status_response` and `_offline_data`).
 */
module Status {
  import opened Wrappers
  import opened Bytes
  import opened Flags
  import opened Frames

  /** The device-specific tables the decoder consults. */
  datatype Tables = Tables(
    protectionFlags: FlagTable,  // bit masks and labels, in table order
    chargingState: nat,          // battery-state code meaning "charging"
    dischargingState: nat,       // battery-state code meaning "discharging"
    chargeDisabledState: nat     // battery-state code meaning "charging disabled"
  )

  /** One decoded reading. Voltages in mV, current in mA, power in mV * mA,
      capacities in 0.01 Ah, total discharge in mAh. */
  datatype Reading = Reading(
    online: bool,
    totalVoltage: Option<nat>,
    current: Option<int>,
    power: Option<int>,
    stateOfCharge: Option<nat>,
    stateOfHealth: Option<nat>,
    cellTemperature: Option<int>,
    mosfetTemperature: Option<int>,
    remainingCapacity: Option<nat>,
    fullChargeCapacity: Option<nat>,
    dischargeCycles: Option<nat>,
    totalDischarge: Option<nat>,
    minCellVoltage: Option<nat>,
    maxCellVoltage: Option<nat>,
    deltaCellVoltage: Option<nat>,
    cellVoltages: seq<Option<nat>>,
    charging: Option<bool>,
    discharging: Option<bool>,
    balancing: Option<bool>,
    chargeEnabled: Option<bool>,
    dischargeEnabled: Option<bool>,
    protectionStatus: Option<string>,
    failureStatus: Option<string>
  )

  /** Every field except `online` and the cell list is absent, and so is every cell. */
  predicate AllAbsent(r: Reading)
  {
    && r.totalVoltage.None? && r.current.None? && r.power.None?
    && r.stateOfCharge.None? && r.stateOfHealth.None?
    && r.cellTemperature.None? && r.mosfetTemperature.None?
    && r.remainingCapacity.None? && r.fullChargeCapacity.None?
    && r.dischargeCycles.None? && r.totalDischarge.None?
    && r.minCellVoltage.None? && r.maxCellVoltage.None? && r.deltaCellVoltage.None?
    && (forall i :: 0 <= i < |r.cellVoltages| ==> r.cellVoltages[i].None?)
    && r.charging.None? && r.discharging.None? && r.balancing.None?
    && r.chargeEnabled.None? && r.dischargeEnabled.None?
    && r.protectionStatus.None? && r.failureStatus.None?
  }

  /** `_offline_data`: not online, nothing known, one absent entry per cell slot. */
  function OfflineData(): (r: Reading)
    ensures !r.online && AllAbsent(r) && |r.cellVoltages| == MAX_CELLS
  {
    Reading(false, None, None, None, None, None, None, None, None, None, None, None,
            None, None, None, seq(MAX_CELLS, _ => None),
            None, None, None, None, None, None, None)
  }

  // ---------------------------------------------------------------------
  // Cell voltages
  // ---------------------------------------------------------------------

  /** `m` is the least present (nonzero) value of `raws`. */
  predicate IsMinPresent(m: nat, raws: seq<nat>)
  {
    m != 0 && (exists i :: 0 <= i < |raws| && raws[i] == m) &&
    forall i :: 0 <= i < |raws| && raws[i] != 0 ==> m <= raws[i]
  }

  /** `m` is the greatest present (nonzero) value of `raws`. */
  predicate IsMaxPresent(m: nat, raws: seq<nat>)
  {
    m != 0 && (exists i :: 0 <= i < |raws| && raws[i] == m) &&
    forall i :: 0 <= i < |raws| && raws[i] != 0 ==> raws[i] <= m
  }

  predicate NoCells(raws: seq<nat>)
  {
    forall i :: 0 <= i < |raws| ==> raws[i] == 0
  }

  /** The cell list shows each present cell and leaves empty slots absent;
      minimum, maximum and spread are taken over the present cells only,
      and are all absent when no cell is present. */
  predicate CellsDescribed(raws: seq<nat>, cells: seq<Option<nat>>,
                           minCell: Option<nat>, maxCell: Option<nat>, delta: Option<nat>)
  {
    && |cells| == |raws|
    && (forall i :: 0 <= i < |raws| ==> cells[i] == if raws[i] == 0 then None else Some(raws[i]))
    && (NoCells(raws) ==> minCell.None? && maxCell.None? && delta.None?)
    && (!NoCells(raws) ==>
          && minCell.Some? && IsMinPresent(minCell.value, raws)
          && maxCell.Some? && IsMaxPresent(maxCell.value, raws)
          && delta.Some? && delta.value == maxCell.value - minCell.value)
  }

  /** The cell loop of `_parse_status_response`: 99 V (99000 mV) starts the
      running minimum, 0 the running maximum, and empty slots are skipped. */
  method ScanCells(raws: seq<nat>) returns (cells: seq<Option<nat>>, minCell: Option<nat>,
                                             maxCell: Option<nat>, delta: Option<nat>)
    requires |raws| == MAX_CELLS && forall i :: 0 <= i < |raws| ==> raws[i] < TWO_16
    ensures CellsDescribed(raws, cells, minCell, maxCell, delta)
  {
    var lo: nat := 99000;
    var hi: nat := 0;
    var count: nat := 0;
    cells := seq(MAX_CELLS, _ => None);
    var i := 0;
    while i < MAX_CELLS
      invariant 0 <= i <= MAX_CELLS && |cells| == MAX_CELLS
      invariant forall j :: 0 <= j < i ==> cells[j] == if raws[j] == 0 then None else Some(raws[j])
      invariant forall j :: i <= j < MAX_CELLS ==> cells[j].None?
      invariant (count == 0) == (forall j :: 0 <= j < i ==> raws[j] == 0)
      invariant count == 0 ==> lo == 99000 && hi == 0
      invariant count > 0 ==> IsMinPresent(lo, raws[..i]) && IsMaxPresent(hi, raws[..i])
    {
      var raw := raws[i];
      if raw != 0 {
        cells := cells[i := Some(raw)];
        count := count + 1;
        if raw < lo {
          lo := raw;
        }
        if raw > hi {
          hi := raw;
        }
        assert raws[..i + 1][i] == raw;
      }
      assert forall j :: 0 <= j < i ==> raws[..i + 1][j] == raws[..i][j];
      i := i + 1;
    }
    assert raws[..i] == raws;
    if count > 0 {
      minCell, maxCell, delta := Some(lo), Some(hi), Some(hi - lo);
    } else {
      minCell, maxCell, delta := None, None, None;
    }
  }

  // ---------------------------------------------------------------------
  // The whole reading
  // ---------------------------------------------------------------------

  /** Bit 0x80 of the heat-state word (discharge disabled) is set. */
  predicate DischargeDisabledBit(heatState: nat)
    requires heatState < TWO_32
  {
    (heatState as bv32) & 0x80 != 0
  }

  /** What a live reading says about the raw fields of its frame. */
  predicate Describes(r: Reading, raw: RawFrame, t: Tables)
    requires WellFormed(raw)
    ensures Describes(r, raw, t) ==> r.online && |r.cellVoltages| == MAX_CELLS
    ensures Describes(r, raw, t) && r.discharging == Some(true) ==> r.current.Some? && r.current.value < 0
    ensures Describes(r, raw, t) && t.chargingState != t.dischargingState ==>
              !(r.charging == Some(true) && r.discharging == Some(true))
  {
    && r.online
    && r.totalVoltage == Some(raw.totalVoltage)
    && r.current == Some(raw.current)
    && r.power == Some(raw.totalVoltage * raw.current)
    && r.cellTemperature == Some(raw.cellTemperature)
    && r.mosfetTemperature == Some(raw.mosfetTemperature)
    && r.remainingCapacity == Some(raw.remainingCapacity)
    && r.fullChargeCapacity == Some(raw.fullChargeCapacity)
    && r.stateOfCharge == Some(raw.stateOfCharge)
    && r.stateOfHealth == Some(raw.stateOfHealth)
    && r.dischargeCycles == Some(raw.dischargeCycles)
    && r.totalDischarge == Some(raw.totalDischarge)
    && CellsDescribed(raw.cells, r.cellVoltages, r.minCellVoltage, r.maxCellVoltage, r.deltaCellVoltage)
    && r.dischargeEnabled == Some(!DischargeDisabledBit(raw.heatState))
    && r.balancing == Some(raw.balancingState != 0)
    && r.charging == Some(raw.batteryState == t.chargingState)
    && r.discharging == Some(raw.batteryState == t.dischargingState && raw.current < 0)
    && r.chargeEnabled == Some(raw.batteryState != t.chargeDisabledState)
    && r.protectionStatus == Some(ProtectionStatus(t.protectionFlags, raw.protectionFlags as bv32))
    && r.failureStatus == Some(FailureStatus(raw.failureFlags))
  }

  datatype ParseError = FrameTooShort(length: nat)

  /** `_parse_status_response`: a frame shorter than the minimum is refused;
      otherwise every field is decoded from its fixed offset. */
  method ParseStatusResponse(data: seq<byte>, t: Tables) returns (r: Result<Reading, ParseError>)
    ensures |data| < MIN_RESPONSE_LENGTH <==> r.Err?
    ensures r.Err? ==> r.error == FrameTooShort(|data|)
    ensures r.Ok? ==> Describes(r.value, ReadRaw(data), t)
  {
    if |data| < MIN_RESPONSE_LENGTH {
      return Err(FrameTooShort(|data|));
    }
    var raw := ReadRaw(data);
    var cells, minCell, maxCell, delta := ScanCells(raw.cells);
    var protection := DecodeProtectionFlags(t.protectionFlags, raw.protectionFlags as bv32);
    var reading := Reading(
      online := true,
      totalVoltage := Some(raw.totalVoltage),
      current := Some(raw.current),
      power := Some(raw.totalVoltage * raw.current),
      stateOfCharge := Some(raw.stateOfCharge),
      stateOfHealth := Some(raw.stateOfHealth),
      cellTemperature := Some(raw.cellTemperature),
      mosfetTemperature := Some(raw.mosfetTemperature),
      remainingCapacity := Some(raw.remainingCapacity),
      fullChargeCapacity := Some(raw.fullChargeCapacity),
      dischargeCycles := Some(raw.dischargeCycles),
      totalDischarge := Some(raw.totalDischarge),
      minCellVoltage := minCell,
      maxCellVoltage := maxCell,
      deltaCellVoltage := delta,
      cellVoltages := cells,
      charging := Some(raw.batteryState == t.chargingState),
      discharging := Some(raw.batteryState == t.dischargingState && raw.current < 0),
      balancing := Some(raw.balancingState != 0),
      chargeEnabled := Some(raw.batteryState != t.chargeDisabledState),
      dischargeEnabled := Some(!DischargeDisabledBit(raw.heatState)),
      protectionStatus := Some(protection),
      failureStatus := Some(FailureStatus(raw.failureFlags)));
    return Ok(reading);
  }

  // ---------------------------------------------------------------------
  // Properties of readings
  // ---------------------------------------------------------------------

  /** The cell statistics are determined by the raw cell values. */
  lemma CellsDescribedUnique(raws: seq<nat>, c1: seq<Option<nat>>, lo1: Option<nat>, hi1: Option<nat>, d1: Option<nat>,
                             c2: seq<Option<nat>>, lo2: Option<nat>, hi2: Option<nat>, d2: Option<nat>)
    requires CellsDescribed(raws, c1, lo1, hi1, d1) && CellsDescribed(raws, c2, lo2, hi2, d2)
    ensures c1 == c2 && lo1 == lo2 && hi1 == hi2 && d1 == d2
  {
    assert c1 == c2;
    if !NoCells(raws) {
      var i1 :| 0 <= i1 < |raws| && raws[i1] == lo1.value;
      var i2 :| 0 <= i2 < |raws| && raws[i2] == lo2.value;
      var j1 :| 0 <= j1 < |raws| && raws[j1] == hi1.value;
      var j2 :| 0 <= j2 < |raws| && raws[j2] == hi2.value;
    }
  }

  /** A frame determines its reading: two readings that both describe it are equal. */
  lemma DescribesUnique(r1: Reading, r2: Reading, raw: RawFrame, t: Tables)
    requires WellFormed(raw) && Describes(r1, raw, t) && Describes(r2, raw, t)
    ensures r1 == r2
  {
    CellsDescribedUnique(raw.cells, r1.cellVoltages, r1.minCellVoltage, r1.maxCellVoltage, r1.deltaCellVoltage,
                         r2.cellVoltages, r2.minCellVoltage, r2.maxCellVoltage, r2.deltaCellVoltage);
  }

  /** Over the present cells the minimum never exceeds the maximum, and the
      spread is their difference. */
  lemma CellSpread(raws: seq<nat>, cells: seq<Option<nat>>, lo: Option<nat>, hi: Option<nat>, delta: Option<nat>)
    requires CellsDescribed(raws, cells, lo, hi, delta) && !NoCells(raws)
    ensures lo.value <= hi.value && delta.value == hi.value - lo.value
    ensures forall i :: 0 <= i < |cells| && cells[i].Some? ==> lo.value <= cells[i].value <= hi.value
  {
    var i :| 0 <= i < |raws| && raws[i] == lo.value;
  }

  /** A live reading is complete: every field is present except the cell
      statistics, which are absent exactly when no cell is present. */
  lemma LiveReadingShape(r: Reading, raw: RawFrame, t: Tables)
    requires WellFormed(raw) && Describes(r, raw, t)
    ensures r.online && |r.cellVoltages| == |OfflineData().cellVoltages|
    ensures && r.totalVoltage.Some? && r.current.Some? && r.power.Some?
            && r.stateOfCharge.Some? && r.stateOfHealth.Some?
            && r.cellTemperature.Some? && r.mosfetTemperature.Some?
            && r.remainingCapacity.Some? && r.fullChargeCapacity.Some?
            && r.dischargeCycles.Some? && r.totalDischarge.Some?
            && r.charging.Some? && r.discharging.Some? && r.balancing.Some?
            && r.chargeEnabled.Some? && r.dischargeEnabled.Some?
            && r.protectionStatus.Some? && r.failureStatus.Some?
    ensures r.minCellVoltage.None? <==> NoCells(raw.cells)
    ensures NoCells(raw.cells) <==> forall i :: 0 <= i < |r.cellVoltages| ==> r.cellVoltages[i].None?
  {
    if !NoCells(raw.cells) {
      var i :| 0 <= i < |raw.cells| && raw.cells[i] != 0;
      assert r.cellVoltages[i].Some?;
    }
  }
}
