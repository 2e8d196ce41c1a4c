/**
 * The MMA8x5x accelerometer driver's device state (struct mma8x5x_data, the
 * poll interval of its polled input device, the mma_vreg[] regulator slots)
 * and the operations that change it, each one atomic step under the driver's
 * data lock. Bus transactions work on an abstract register file; the outcome
 * of every bus write, block read and regulator acquisition is a parameter.
 */
module Mma8x5x {
  import opened CInt
  import opened Mma8x5xSpec

  /** The value kstrtoul/kstrtoint parsed from a sysfs write, or the error code it returned. */
  datatype Parsed<T> = Parsed(value: T) | ParseError(errno: ParseErrno)

  /** The error kstrtoul/kstrtoint report: a negative errno. */
  type ParseErrno = x: int | x < 0 witness -1

  /** What i2c_smbus_write_byte_data returns: 0, or a negative error code. */
  type Status = x: int | x <= 0

  /**
   * mma8x5x_check_id: 1 exactly for the five supported WHO_AM_I values, and
   * for each of them the name table has the chip's name.
   */
  method CheckId(id: int) returns (found: int)
    ensures found == 0 || found == 1
    ensures found == 1 <==> id in {Mma8451Id, Mma8452Id, Mma8453Id, Mma8652Id, Mma8653Id}
    ensures found == 1 ==> 0 <= id < 256 && 1 <= ((id as bv8) >> 4) as int <= |ChipNames|
    ensures found == 1 ==> Id2Name(id as bv8) == ChipNames[((id as bv8) >> 4) as int - 1]
    ensures found == 1 ==> exists k :: 0 <= k < |ChipIds| && ChipIds[k] == id && Id2Name(id as bv8) == ChipNames[k]
  {
    var i := 0;
    while i < |ChipIds|
      invariant 0 <= i <= |ChipIds|
      invariant forall k :: 0 <= k < i ==> ChipIds[k] != id
    {
      if id == ChipIds[i] {
        Id2NameOfChipId(i);
        return 1;
      }
      i := i + 1;
    }
    assert id !in ChipIds;
    return 0;
  }

  /**
   * The inner loop of mma8x5x_data_convert: `data[i]` accumulates row i of
   * matrix p applied to `rawdata`, each `+=` narrowing to `short`.
   */
  method AccumulateRow(data: array<Int16>, rawdata: array<Int16>, ghost raw: Axis, p: nat, i: nat)
    requires data.Length == 3 && rawdata.Length == 3 && data != rawdata
    requires p < 8 && i < 3
    requires forall j :: 0 <= j < 3 ==> rawdata[j] == AxisAt(raw, j)
    modifies data
    ensures data[i] == Accumulate(raw, p, i, 3)
    ensures forall k :: 0 <= k < 3 && k != i ==> data[k] == old(data[k])
  {
    data[i] := 0;
    for j := 0 to 3
      invariant data[i] == Accumulate(raw, p, i, j)
      invariant forall k :: 0 <= k < 3 && k != i ==> data[k] == old(data[k])
    {
      data[i] := ToInt16(data[i] + rawdata[j] * Setting(p, i, j));
    }
  }

  class Device {
    /** pdata->active: MMA_STANDBY or MMA_ACTIVED, with MMA_SHUTTEDDOWN overlaid while suspended */
    var active: bv32
    /** pdata->position, stored unclamped */
    var position: Int32
    /** pdata->mode, the full-scale mode written to XYZ_DATA_CFG */
    var mode: int
    /** poll_dev->poll_interval, in milliseconds */
    var pollInterval: int
    /** the chip's registers as the bus sees them */
    var regs: map<int, Byte>
    /** mma_vreg[i].vreg: true while slot i holds an enabled regulator, false when NULL */
    var vreg: array<bool>
    /** the regulator acquisitions and releases performed so far */
    var powerLog: seq<PowerEvent>
    /** the samples delivered to the input device (ABS_X, ABS_Y, ABS_Z, then a sync) */
    var reports: seq<Axis>

    ghost predicate Valid()
      reads this
    {
      vreg.Length == NumVreg
    }

    /**
     * The driver state as probe fills it in: pdata with its position and
     * MODE_2G, poll_dev with the slow cadence, the regulator slots as the
     * static mma_vreg[] table leaves them (all NULL), and the chip, whose
     * registers are `regs`, not yet initialised.
     */
    constructor (position: Int32, regs: map<int, Byte>)
      ensures Valid() && fresh(vreg)
      ensures this.position == position && this.regs == regs
      ensures active == MmaStandby && mode == Mode2G && pollInterval == PollStopTime
      ensures vreg[..] == ReleasedSlots(NumVreg) && powerLog == [] && reports == []
    {
      this.position := position;
      this.regs := regs;
      active := MmaStandby;
      mode := Mode2G;
      pollInterval := PollStopTime;
      vreg := new bool[NumVreg](_ => false);
      powerLog := [];
      reports := [];
      new;
      assert vreg[..] == ReleasedSlots(NumVreg);
    }

    /** i2c_smbus_read_byte_data */
    function ReadByte(r: int): (b: Byte)
      reads this
      ensures r in regs ==> b == regs[r]
      ensures r !in regs ==> b == 0
    {
      Reg(regs, r)
    }

    /** i2c_smbus_write_byte_data, whose bus status is rc. */
    method WriteByte(r: int, v: Byte, rc: Status) returns (result: Status)
      modifies this`regs
      ensures result == rc
      ensures regs == Written(old(regs), r, v, rc)
    {
      regs := Written(regs, r, v, rc);
      result := rc;
    }

    /**
     * mma8x5x_config_regulator. Switching on acquires the slots in order and,
     * at the first slot that fails, NULLs it and releases the slots before it
     * top down. Switching off releases every held slot top down.
     */
    method ConfigRegulator(on: bool, steps: seq<SlotOutcome>) returns (rc: int)
      requires Valid()
      requires on ==> |steps| == NumVreg
      modifies this`powerLog, vreg
      ensures Valid()
      ensures on ==> rc == AcquireResult(steps)
      ensures on ==> vreg[..] == AcquiredSlots(old(vreg[..]), steps)
      ensures on ==> powerLog == old(powerLog) + AcquireEvents(steps)
      ensures on ==> (rc == 0 <==> forall k :: 0 <= k < NumVreg ==> vreg[k])
      ensures !on ==> rc == 0 && vreg[..] == ReleasedSlots(NumVreg)
      ensures !on ==> powerLog == old(powerLog) + Releases(old(vreg[..]), 0, NumVreg)
    {
      rc := 0;
      var numVreg := vreg.Length;
      var i := 0;
      if on {
        while i < numVreg
          invariant 0 <= i <= numVreg
          invariant forall k :: 0 <= k < i ==> steps[k].Enabled? && vreg[k]
          invariant forall k :: i <= k < numVreg ==> vreg[k] == old(vreg[k])
          invariant powerLog == old(powerLog) + Acquisitions(i)
          invariant rc == 0
        {
          if !steps[i].Enabled? {
            rc := steps[i].err;
            vreg[i] := false;
            break;
          }
          vreg[i] := true;
          powerLog := powerLog + [SlotOn(i)];
          AcquisitionsStep(i);
          i := i + 1;
        }
        if i == numVreg {
          assert FirstFailure(steps) == numVreg;
          AcquiredSlotsPointwise(old(vreg[..]), steps, vreg[..]);
          AcquireSucceedsIffAllHeld(old(vreg[..]), steps);
          return;
        }
        assert FirstFailure(steps) == i;
        ghost var held := vreg[..];
        ReleaseBelow(i);
        ReleasesOfHeld(held, 0, i);
        AcquiredSlotsPointwise(old(vreg[..]), steps, vreg[..]);
        AcquireSucceedsIffAllHeld(old(vreg[..]), steps);
      } else {
        ReleaseBelow(numVreg);
        assert vreg[..] == ReleasedSlots(NumVreg);
      }
    }

    /**
     * The error_vdd label of mma8x5x_config_regulator: `while (--i >= 0)`
     * releases each held slot below i, from the top down, and NULLs it.
     */
    method ReleaseBelow(top: int)
      requires Valid() && 0 <= top <= NumVreg
      modifies this`powerLog, vreg
      ensures Valid()
      ensures forall k :: 0 <= k < top ==> !vreg[k]
      ensures forall k :: top <= k < NumVreg ==> vreg[k] == old(vreg[k])
      ensures powerLog == old(powerLog) + Releases(old(vreg[..]), 0, top)
    {
      ghost var held := vreg[..];
      var i := top;
      while i > 0
        invariant 0 <= i <= top
        invariant forall k :: i <= k < top ==> !vreg[k]
        invariant forall k :: 0 <= k < i || top <= k < NumVreg ==> vreg[k] == held[k]
        invariant powerLog == old(powerLog) + Releases(held, i, top)
      {
        i := i - 1;
        if vreg[i] {
          vreg[i] := false;
          powerLog := powerLog + [SlotOff(i)];
        }
      }
    }

    /** mma8x5x_data_convert: multiply by the matrix of the (clamped) position, then divide by 16. */
    method DataConvert(raw: Axis) returns (out: Axis)
      ensures out == Convert(raw, position)
    {
      var p := position;
      if p < 0 || p > 7 {
        p := 0;
      }
      var rawdata := new Int16[3];
      rawdata[0], rawdata[1], rawdata[2] := raw.x, raw.y, raw.z;
      var data := new Int16[3];
      for i := 0 to 3
        invariant forall j :: 0 <= j < 3 ==> rawdata[j] == AxisAt(raw, j)
        invariant forall k :: 0 <= k < i ==> data[k] == Accumulate(raw, p, k, 3)
      {
        AccumulateRow(data, rawdata, raw, p, i);
      }
      out := Axis(TruncDiv(data[0], InputDataDivider),
                  TruncDiv(data[1], InputDataDivider),
                  TruncDiv(data[2], InputDataDivider));
    }

    /** mma8x5x_device_init: CTRL_REG1 := 0 (standby), XYZ_DATA_CFG := mode, then record standby. */
    method DeviceInit(rcCtrl: Status, rcCfg: Status) returns (result: int)
      modifies this`regs, this`active
      ensures result == if rcCtrl < 0 then rcCtrl else rcCfg
      ensures regs == if rcCtrl < 0 then old(regs)
                      else Written(old(regs)[CtrlReg1 := 0], XyzDataCfg, ModeByte(mode), rcCfg)
      ensures active == if result == 0 then MmaStandby else old(active)
    {
      result := WriteByte(CtrlReg1, 0, rcCtrl);
      if result < 0 {
        return;
      }
      result := WriteByte(XyzDataCfg, ModeByte(mode), rcCfg);
      if result < 0 {
        return;
      }
      active := MmaStandby;
      result := 0;
    }

    /** mma8x5x_device_stop: clear the active bit of CTRL_REG1, ignoring the write's outcome. */
    method DeviceStop(rc: Status) returns (result: int)
      modifies this`regs
      ensures result == 0
      ensures regs == Written(old(regs), CtrlReg1, old(ReadByte(CtrlReg1)) & 0xFE, rc)
    {
      var v := ReadByte(CtrlReg1);
      var _ := WriteByte(CtrlReg1, v & 0xFE, rc);
      result := 0;
    }

    /**
     * mma8x5x_read_data: a block read that returned `got` bytes. A short read
     * fails with -EIO and leaves the output struct as it was; otherwise the
     * three axes are the big-endian byte pairs of the output registers.
     */
    method ReadData(got: int, data: Axis) returns (ret: int, out: Axis)
      ensures got < BufSize ==> ret == -EIO && out == data
      ensures got >= BufSize ==> ret == 0 && out == DecodeSample(Block(regs))
      ensures got >= BufSize ==>
        && Msb(out.x) == ReadByte(OutXMsb) && Lsb(out.x) == ReadByte(OutXLsb)
        && Msb(out.y) == ReadByte(OutYMsb) && Lsb(out.y) == ReadByte(OutYLsb)
        && Msb(out.z) == ReadByte(OutZMsb) && Lsb(out.z) == ReadByte(OutZLsb)
    {
      if got < BufSize {
        return -EIO, data;
      }
      var tmp := Block(regs);
      out := Axis(Decode16(tmp[0], tmp[1]), Decode16(tmp[2], tmp[3]), Decode16(tmp[4], tmp[5]));
      ret := 0;
      assert out == DecodeSample(tmp);
    }

    /**
     * mma8x5x_report_data, one poll of the polled input device after the
     * bus's block read returned `got` bytes.
     */
    method ReportData(got: int)
      modifies this`pollInterval, this`reports
      ensures pollInterval == NextPollInterval(active, old(pollInterval))
      ensures reports == old(reports) + PollReports(active, got, regs, position)
    {
      if active == MmaStandby {
        pollInterval := PollStopTime;
        return;
      } else {
        if pollInterval == PollStopTime {
          pollInterval := PollInterval;
        }
      }
      var ret, data := ReadData(got, Axis(0, 0, 0));
      if ret != 0 {
        assert PollReports(active, got, regs, position) == [];
        return;
      }
      data := DataConvert(data);
      assert PollReports(active, got, regs, position) == [data];
      reports := reports + [data];
    }

    /** mma8x5x_enable_show: 1 exactly when CTRL_REG1 has its active bit set and the driver is active. */
    method EnableShow() returns (enable: int)
      ensures enable == 0 || enable == 1
      ensures enable == 1 <==> ReadByte(CtrlReg1) & 0x01 != 0 && active == MmaActived
    {
      var v := ReadByte(CtrlReg1);
      if v & 0x01 != 0 && active == MmaActived {
        enable := 1;
      } else {
        enable := 0;
      }
    }

    /**
     * mma8x5x_enable_store with the parsed request and the status of the
     * CTRL_REG1 write it may issue.
     */
    method EnableStore(input: Parsed<nat>, count: nat, rc: Status) returns (ret: int)
      modifies this`active, this`regs
      ensures input.ParseError? ==> ret == input.errno && active == old(active) && regs == old(regs)
      ensures input.Parsed? ==> ret == count
      ensures input.Parsed? ==>
        var w := EnableRequest(old(active), input.value, old(ReadByte(CtrlReg1)));
        regs == (if w.WriteCtrl? then Written(old(regs), CtrlReg1, w.value, rc) else old(regs))
      ensures input.Parsed? ==> active == AfterEnable(old(active), input.value, old(ReadByte(CtrlReg1)), rc)
    {
      if input.ParseError? {
        return input.errno;
      }
      var enable := if input.value > 0 then 1 else 0;
      if enable == 1 && active == MmaStandby {
        var v := ReadByte(CtrlReg1);
        var r := WriteByte(CtrlReg1, v | 0x01, rc);
        if r == 0 {
          active := MmaActived;
        }
      } else if enable == 0 && active == MmaActived {
        var v := ReadByte(CtrlReg1);
        var r := WriteByte(CtrlReg1, v & 0xFE, rc);
        if r == 0 {
          active := MmaStandby;
        }
      }
      ret := count;
    }

    /** mma8x5x_position_store: any parsed int is stored as it is; the transform clamps it. */
    method PositionStore(input: Parsed<Int32>, count: nat) returns (ret: int)
      modifies this`position
      ensures input.ParseError? ==> ret == input.errno && position == old(position)
      ensures input.Parsed? ==> ret == count && position == input.value
    {
      if input.ParseError? {
        return input.errno;
      }
      position := input.value;
      ret := count;
    }

    /**
     * mma8x5x_suspend: stop the chip if active, switch the regulators off
     * and, since that reports success, overlay the shut-down bit.
     */
    method Suspend(rcStop: Status) returns (ret: int)
      requires Valid()
      modifies this`active, this`regs, this`powerLog, vreg
      ensures Valid()
      ensures ret == 0
      ensures active == MarkShutDown(old(active))
      ensures regs == if old(active) == MmaActived
                      then Written(old(regs), CtrlReg1, old(ReadByte(CtrlReg1)) & 0xFE, rcStop)
                      else old(regs)
      ensures vreg[..] == ReleasedSlots(NumVreg)
      ensures powerLog == old(powerLog) + Releases(old(vreg[..]), 0, NumVreg)
    {
      if active == MmaActived {
        var _ := DeviceStop(rcStop);
      }
      var rc := ConfigRegulator(false, []);
      if rc == 0 {
        active := active | MmaShuttedDown;
      }
      ret := 0;
    }

    /**
     * The re-power sequence of mma8x5x_resume for a shut-down device:
     * regulators on, CTRL_REG1 := 0, XYZ_DATA_CFG := mode, stopping at the
     * first step that fails; only after all three is the shut-down bit cleared.
     */
    method Repower(steps: seq<SlotOutcome>, rcCtrl: Status, rcCfg: Status) returns (ok: bool)
      requires Valid() && IsShutDown(active)
      requires |steps| == NumVreg
      modifies this`active, this`regs, this`powerLog, vreg
      ensures Valid()
      ensures ok == Repowered(steps, rcCtrl, rcCfg)
      ensures active == AfterResume(old(active), steps, rcCtrl, rcCfg)
      ensures regs == RepowerRegs(old(regs), mode, steps, rcCtrl, rcCfg)
      ensures vreg[..] == AcquiredSlots(old(vreg[..]), steps) && powerLog == old(powerLog) + AcquireEvents(steps)
      ensures ok ==> forall k :: 0 <= k < NumVreg ==> vreg[k]
    {
      var rc := ConfigRegulator(true, steps);
      if rc != 0 {
        return false;
      }
      var r := WriteByte(CtrlReg1, 0, rcCtrl);
      if r != 0 {
        return false;
      }
      r := WriteByte(XyzDataCfg, ModeByte(mode), rcCfg);
      if r != 0 {
        return false;
      }
      active := active & !MmaShuttedDown;
      ok := true;
    }

    /**
     * mma8x5x_resume: a shut-down device is re-powered before the bit is
     * cleared, and a failed re-power gives -EIO; an active device then gets
     * its active bit set again.
     */
    method Resume(steps: seq<SlotOutcome>, rcCtrl: Status, rcCfg: Status, rcEnable: Status) returns (ret: int)
      requires Valid()
      requires |steps| == NumVreg
      modifies this`active, this`regs, this`powerLog, vreg
      ensures Valid()
      ensures ret == ResumeResult(old(active), steps, rcCtrl, rcCfg)
      ensures active == AfterResume(old(active), steps, rcCtrl, rcCfg)
      ensures regs == ResumeRegs(old(regs), old(active), mode, steps, rcCtrl, rcCfg, rcEnable)
      ensures IsShutDown(old(active)) ==>
        vreg[..] == AcquiredSlots(old(vreg[..]), steps) && powerLog == old(powerLog) + AcquireEvents(steps)
      ensures !IsShutDown(old(active)) ==> vreg[..] == old(vreg[..]) && powerLog == old(powerLog)
      ensures IsShutDown(old(active)) && ret == 0 ==> forall k :: 0 <= k < NumVreg ==> vreg[k]
    {
      if active & MmaShuttedDown != 0 {
        var ok := Repower(steps, rcCtrl, rcCfg);
        if !ok {
          return -EIO;
        }
      }
      if active == MmaActived {
        var v := ReadByte(CtrlReg1);
        var _ := WriteByte(CtrlReg1, v | 0x01, rcEnable);
      }
      ret := 0;
    }
  }
}
