# MMA8x5x accelerometer driver and MDSS panel timing, modelled in Dafny

This project models two pieces of an MSM Linux kernel tree.

**The Freescale MMA8x5x accelerometer driver** (`drivers/input/misc/mma8x5x.c`).
The driver keeps a per-device record. Its fields are:

- the activation state: `MMA_STANDBY` or `MMA_ACTIVED`, with bit 31 (`MMA_SHUTTEDDOWN`) overlaid while the system is suspended;
- the mounting position;
- the full-scale mode;
- the poll interval of its polled input device.

It also keeps a global table of two regulator slots (`vdd`, `vio`) and talks to the chip over SMBus.

The model has three files:

- `mma8x5x.dfy`, module `Mma8x5x`: the class `Device`. Its fields are the driver's state, the chip's register file, the regulator slots (an `array<bool>`) and two logs: the regulator events and the samples reported to the input device. There is one method per driver operation. Each method is proved against the functions of the next file.
- `mma8x5x_spec.dfy`, module `Mma8x5xSpec`: the value-level meaning of the driver. It covers:
  - the 8 orientation matrices and the 16-bit transform;
  - the byte layout of a sample;
  - chip identification;
  - what enable, poll, suspend and resume each do to the state;
  - the regulator acquire/release protocol.

  It also holds lemmas about all of these.
- `c_int.dfy`, module `CInt`: the C integer semantics both drivers rely on. These are narrowing to `short`/`int`, `u32` wrap-around, and division truncating toward zero.

**The MDSS panel timing helpers** (`drivers/video/msm/mdss/mdss_panel.h`), in `mdss_panel.dfy`, module `MdssPanel`. These are `mdss_panel_get_framerate`, `mdss_panel_get_vtotal` and `mdss_panel_get_htotal`, modelled as pure functions over the panel-info fields they read. The `u32` wrap-around is explicit.

Conventions of the model:

- Every bus transfer and every regulator call is a parameter:
  - a write's status;
  - the byte count a block read returned;
  - the outcome of acquiring each regulator slot.

  The methods are proved for every value of these.
- A register absent from the map reads as 0.
- A bus write with a nonzero status is taken to have no effect on the chip: the register keeps its value.
- The `int active` field is modelled as its 32-bit pattern, `bv32`. `MMA_SHUTTEDDOWN` is `1 << 31`, which in C is the sign bit.
- `char` (the MIPI frame rate) is taken as unsigned, as on ARM.

## Model

| member | source | states |
|---|---|---|
| CInt.ToInt16 | drivers/input/misc/mma8x5x.c:259-260 | storing an `int` into a `short` keeps its residue mod 2^16 and is the identity on values in range |
| CInt.ToInt32 | drivers/video/msm/mdss/mdss_panel.h:354-358 | returning a `u32` as `int` keeps its residue mod 2^32 and is the identity on values in range |
| CInt.TruncDiv | drivers/input/misc/mma8x5x.c:262-264 | C division by a positive divisor: the quotient has the sign of the dividend and its magnitude is the floor of the magnitudes' quotient |
| CInt.Add32 | drivers/video/msm/mdss/mdss_panel.h:355-357 | `u32` addition is the sum mod 2^32 |
| Mma8x5xSpec.ClampPosition | drivers/input/misc/mma8x5x.c:250-252 | the position used by the transform is always a valid table index 0..7, and a position in 0..7 is used unchanged |
| Mma8x5xSpec.Scale | drivers/input/misc/mma8x5x.c:262-264 | each 16-bit accumulated value divided by INPUT_DATA_DIVIDER lies in -2048..2047 |
| Mma8x5xSpec.Convert | drivers/input/misc/mma8x5x.c:245-266 | each axis of the transformed sample lies in -2048..2047 |
| Mma8x5xSpec.SignedPermutation | drivers/input/misc/mma8x5x.c:173-182 | every row of every position matrix has exactly one nonzero entry, which is +1 or -1, and different rows use different columns |
| Mma8x5xSpec.PositionsAreRotations | drivers/input/misc/mma8x5x.c:173-182 | every position matrix has determinant 1: all eight are proper rotations |
| Mma8x5xSpec.AccumulatePivot | drivers/input/misc/mma8x5x.c:256-261 | the three-step 16-bit accumulation of a row equals the row's single nonzero term, narrowed to 16 bits |
| Mma8x5xSpec.AccumulateNarrowsRowSum | drivers/input/misc/mma8x5x.c:256-261 | narrowing every partial sum of the inner loop to `short` ends at the same value as narrowing the true dot product of the row with the raw axes once |
| Mma8x5xSpec.ConvertSignedAxis | drivers/input/misc/mma8x5x.c:245-266 | each output axis is plus or minus one raw axis, narrowed to 16 bits and divided by 16, so its magnitude is at most 2048 |
| Mma8x5xSpec.ConvertInRange | drivers/input/misc/mma8x5x.c:245-264 | for a position in 0..7, each output axis is row i of that position's matrix applied to the raw axes, narrowed to 16 bits once and divided by 16 |
| Mma8x5xSpec.ConvertClamps | drivers/input/misc/mma8x5x.c:250-252 | any position outside 0..7 transforms exactly as position 0 |
| Mma8x5xSpec.ConvertIdentity | drivers/input/misc/mma8x5x.c:177 | position 3 is the identity on each axis, up to the division by 16 |
| Mma8x5xSpec.IdentityAxis | drivers/input/misc/mma8x5x.c:177 | position 3 maps output axis i to raw axis i divided by 16 |
| Mma8x5xSpec.ZRow | drivers/input/misc/mma8x5x.c:173-182 | the z row is +z for positions 0 to 3 and -z for positions 4 to 7 |
| Mma8x5xSpec.ConvertZ | drivers/input/misc/mma8x5x.c:173-182 | the output z is raw z divided by 16 for positions 0..3 and its 16-bit negation divided by 16 for positions 4..7 |
| Mma8x5xSpec.ConvertExample | drivers/input/misc/mma8x5x.c:245-266 | position 3 turns the raw sample (100, -50, 200) into (6, -3, 12) |
| Mma8x5xSpec.ConvertNegatedMinimum | drivers/input/misc/mma8x5x.c:259-264 | negating a raw -32768 wraps in the `short` accumulator, so position 1 reports x = -2048, not +2048 |
| Mma8x5xSpec.AssembleValue | drivers/input/misc/mma8x5x.c:319-321 | `((msb << 8) & 0xff00) \| lsb` is the big-endian value msb*256 + lsb |
| Mma8x5xSpec.Decode16 | drivers/input/misc/mma8x5x.c:319-321 | each axis is its big-endian byte pair read as a 16-bit two's-complement number: msb*256 + lsb, less 2^16 when the MSB is 0x80 or more |
| Mma8x5xSpec.SplitDecode | drivers/input/misc/mma8x5x.c:319-321 | splitting a 16-bit axis value into its MSB and LSB and decoding them gives the value back |
| Mma8x5xSpec.DecodeSplit | drivers/input/misc/mma8x5x.c:319-321 | decoding a byte pair and splitting the result gives the same two bytes |
| Mma8x5xSpec.DecodeEncode | drivers/input/misc/mma8x5x.c:313-321 | decoding the 7-byte block of a sample gives that sample, whatever the seventh byte is |
| Mma8x5xSpec.DecodeSample | drivers/input/misc/mma8x5x.c:313-321 | decoding loses nothing from bytes 0-5: every 7-byte block is the encoding of its decoded sample plus its own seventh byte |
| Mma8x5xSpec.DecodeIgnoresSeventh | drivers/input/misc/mma8x5x.c:313-321 | the seventh byte of the block has no influence on the sample |
| Mma8x5xSpec.Id2Name | drivers/input/misc/mma8x5x.c:276-279 | an ID whose high nibble is 1..5 gives one of the five chip names |
| Mma8x5xSpec.Id2NameOfChipId | drivers/input/misc/mma8x5x.c:159-172 | for each of the five chip IDs, the index `(id >> 4) - 1` is the ID's position in the table, and that entry names the chip |
| Mma8x5xSpec.Written | drivers/input/misc/mma8x5x.c:280-298 | a register write takes effect only when its bus status is 0; then it changes exactly the written register |
| Mma8x5xSpec.Block | drivers/input/misc/mma8x5x.c:313-314 | the block read returns 7 bytes, byte k being the register OUT_X_MSB + k |
| Mma8x5xSpec.EnableRequest | drivers/input/misc/mma8x5x.c:388-407 | a CTRL_REG1 write happens exactly when enabling from standby or disabling from active; it sets bit 0 to the request and keeps bits 1-7 |
| Mma8x5xSpec.AfterEnable | drivers/input/misc/mma8x5x.c:388-407 | the state changes only when the request's write was issued and succeeded; it then becomes MMA_ACTIVED exactly for a request greater than 0 and MMA_STANDBY exactly for 0 |
| Mma8x5xSpec.EnableIdempotent | drivers/input/misc/mma8x5x.c:388-407 | once a request has gone through, repeating it writes no register and changes nothing |
| Mma8x5xSpec.EnableWhileShutDown | drivers/input/misc/mma8x5x.c:388-407 | while the shut-down bit is set, enable_store neither writes nor changes the state |
| Mma8x5xSpec.EnableThenShow | drivers/input/misc/mma8x5x.c:355-407 | starting from a consistent state, after a successful request enable_show reports 1 exactly when the request was greater than 0 |
| Mma8x5xSpec.NextPollInterval | drivers/input/misc/mma8x5x.c:329-336 | after a poll the interval is 200 exactly in standby; outside standby 200 becomes 100 and any other interval is untouched |
| Mma8x5xSpec.PollCadence | drivers/input/misc/mma8x5x.c:329-336 | the cadence step is idempotent: a second poll in the same state leaves the interval the first one set |
| Mma8x5xSpec.PollReports | drivers/input/misc/mma8x5x.c:329-344 | a poll reports at most one sample, and one exactly when the device is not in standby and the block read returned all 7 bytes; that sample is the transform, for the stored position, of the sample decoded from the register block, and every axis of it lies in -2048..2047 |
| Mma8x5xSpec.MarkShutDown | drivers/input/misc/mma8x5x.c:622 | marking sets bit 31 and keeps bits 0-30, so a marked word equals neither MMA_STANDBY nor MMA_ACTIVED |
| Mma8x5xSpec.ClearShutDown | drivers/input/misc/mma8x5x.c:647 | clearing leaves bit 31 clear and keeps bits 0-30 |
| Mma8x5xSpec.ClearUndoesMark | drivers/input/misc/mma8x5x.c:647 | clearing bit 31 of a marked word restores the unmarked word |
| Mma8x5xSpec.FirstFailure | drivers/input/misc/mma8x5x.c:190-224 | the acquire loop stops at the first slot that fails, and every slot before it succeeded |
| Mma8x5xSpec.Releases | drivers/input/misc/mma8x5x.c:229-241 | the release loop `while (--i >= 0)` logs at most hi - lo events, each the release of a held slot in its range, in strictly decreasing slot order, so at most one per slot and from the top down |
| Mma8x5xSpec.AcquireResult | drivers/input/misc/mma8x5x.c:190-224 | config_regulator(on) returns 0 exactly when no slot failed; a failure's error code is never 0 |
| Mma8x5xSpec.ReleasesOfHeld | drivers/input/misc/mma8x5x.c:230-242 | over a run of held slots, the release loop releases every one of them, from the top down |
| Mma8x5xSpec.ReleasesExactlyHeld | drivers/input/misc/mma8x5x.c:230-242 | the release loop releases slot k exactly when k is in its range and held, and never acquires a slot |
| Mma8x5xSpec.AcquireFailureUnwinds | drivers/input/misc/mma8x5x.c:184-243 | when acquisition fails at slot f, it returns that slot's error, slots 0..f end up NULL, later slots are unchanged, and every slot below f was acquired and then released |
| Mma8x5xSpec.AcquireFailureFromNull | drivers/input/misc/mma8x5x.c:184-243 | if all slots start NULL and acquisition fails, every slot is NULL afterwards |
| Mma8x5xSpec.AcquireSucceedsIffAllHeld | drivers/input/misc/mma8x5x.c:184-243 | config_regulator(on) returns 0 exactly when it leaves every regulator slot held |
| Mma8x5xSpec.ResumeResult | drivers/input/misc/mma8x5x.c:626-659 | resume returns 0 or -EIO, and -EIO only when the device was shut down |
| Mma8x5xSpec.AfterResume | drivers/input/misc/mma8x5x.c:626-659 | resume keeps bits 0-30 of the activation word, and it returns 0 exactly when bit 31 ends up clear |
| Mma8x5xSpec.RepowerRegs | drivers/input/misc/mma8x5x.c:631-639 | the re-power sequence changes no register other than CTRL_REG1 and XYZ_DATA_CFG, changes none when the regulators could not be switched on, and when complete leaves CTRL_REG1 at 0 and XYZ_DATA_CFG at the mode |
| Mma8x5xSpec.ResumeRegs | drivers/input/misc/mma8x5x.c:626-659 | resume changes no register other than CTRL_REG1 and XYZ_DATA_CFG, changes none unless the device was shut down or is active, and a complete re-power leaves XYZ_DATA_CFG at the mode |
| Mma8x5xSpec.SuspendResume | drivers/input/misc/mma8x5x.c:614-658 | after a suspend, a resume with a complete re-power returns 0 and restores the earlier activation state, with XYZ_DATA_CFG = mode and CTRL_REG1 = that state's active bit; a failed re-power returns -EIO and bit 31 stays set |
| Mma8x5x.CheckId | drivers/input/misc/mma8x5x.c:267-279 | returns 1 exactly for the IDs 0x1A, 0x2A, 0x3A, 0x4A and 0x5A, otherwise 0; for an accepted ID, id2name's index is in range and names that chip |
| Mma8x5x.Device.constructor | drivers/input/misc/mma8x5x.c:537-559 | pdata and poll_dev as probe fills them in: `active` MMA_STANDBY, the given position, MODE_2G, poll interval 200; the regulator slots as the static mma_vreg[] table leaves them (lines 64-67), all NULL; nothing reported; the chip's registers as given, not yet initialised (that is line 550) |
| Mma8x5x.Device.ReadByte | drivers/input/misc/mma8x5x.c:650 | a register reads as its byte in the register map, and as 0 when the map has no entry for it |
| Mma8x5x.Device.WriteByte | drivers/input/misc/mma8x5x.c:280-298 | a bus write returns its status and changes the register file as `Written` says |
| Mma8x5x.Device.ConfigRegulator | drivers/input/misc/mma8x5x.c:184-243 | on: returns the first failure's error or 0, and 0 exactly when every slot ends up held; the slots are all held, or NULL up to the failed one; the event log is the acquired prefix followed by its release in reverse order. off: returns 0, every slot is NULL, and exactly the held slots are released, from the top down |
| Mma8x5x.AccumulateRow | drivers/input/misc/mma8x5x.c:257-260 | the inner loop leaves in `data[i]` the 16-bit accumulation of row i of the matrix applied to the raw axes, and touches no other entry |
| Mma8x5x.Device.DataConvert | drivers/input/misc/mma8x5x.c:245-266 | the nested 16-bit loops compute the transform `Convert` of the stored position, and they leave the stored position as it was |
| Mma8x5x.Device.ReleaseBelow | drivers/input/misc/mma8x5x.c:229-242 | the error_vdd loop NULLs every slot below its start, leaves the slots above unchanged, and logs exactly the releases of the held ones, from the top down |
| Mma8x5x.Device.DeviceInit | drivers/input/misc/mma8x5x.c:280-298 | writes CTRL_REG1 := 0 and then XYZ_DATA_CFG := mode, stopping at the first failing write and returning its status; standby is recorded only when both succeed |
| Mma8x5x.Device.DeviceStop | drivers/input/misc/mma8x5x.c:299-305 | clears bit 0 of CTRL_REG1, keeping the other bits, and returns 0 whatever the write's status |
| Mma8x5x.Device.ReadData | drivers/input/misc/mma8x5x.c:307-323 | a block read of fewer than 7 bytes gives -EIO and leaves the output as it was; otherwise each axis's MSB and LSB are the registers of its pair |
| Mma8x5x.Device.ReportData | drivers/input/misc/mma8x5x.c:325-347 | updates the poll interval by the cadence rule; reports one transformed sample, unless the device is in standby or the read came up short; leaves `active` unchanged |
| Mma8x5x.Device.EnableShow | drivers/input/misc/mma8x5x.c:355-372 | shows 1 exactly when bit 0 of CTRL_REG1 is set and the state is MMA_ACTIVED, otherwise 0 |
| Mma8x5x.Device.EnableStore | drivers/input/misc/mma8x5x.c:374-410 | a parse error is returned with nothing changed; otherwise the request's write is issued (or none), the state follows only a successful write, and the count is returned even after a failed write |
| Mma8x5x.Device.PositionStore | drivers/input/misc/mma8x5x.c:423-438 | a parse error is returned with nothing changed; any parsed int is stored unclamped and the count is returned |
| Mma8x5x.Device.Suspend | drivers/input/misc/mma8x5x.c:614-624 | stops the chip only if active, releases every held regulator, sets bit 31 (the regulator release always reports success) and returns 0 |
| Mma8x5x.Device.Repower | drivers/input/misc/mma8x5x.c:631-647 | regulators on, CTRL_REG1 := 0, XYZ_DATA_CFG := mode, stopping at the first failing step; reports success exactly for a complete re-power, which alone clears bit 31 and which leaves every regulator slot held |
| Mma8x5x.Device.Resume | drivers/input/misc/mma8x5x.c:626-659 | only with bit 31 set does it re-power and rewrite CTRL_REG1 and XYZ_DATA_CFG; any failure returns -EIO with the bit still set; a shut-down device that resumes with 0 holds every regulator slot; then an active device gets bit 0 set again |
| MdssPanel.Sum4 | drivers/video/msm/mdss/mdss_panel.h:329-336 | a four-term `u32` sum is the true sum mod 2^32 |
| MdssPanel.PixelTotal | drivers/video/msm/mdss/mdss_panel.h:329-336 | pixel_total is the true product of the total width and height mod 2^32 |
| MdssPanel.ClockRate | drivers/video/msm/mdss/mdss_panel.h:337-340 | a zero pixel count gives the default 60; otherwise the result is floor(clk_rate / pixel_total) and at most clk_rate |
| MdssPanel.GetFramerate | drivers/video/msm/mdss/mdss_panel.h:313-345 | NULL gives 60; both MIPI types give mipi.frame_rate; writeback gives 60; any other type gives 60 on a zero pixel count and otherwise floor(clk_rate / pixel_total), which is at most clk_rate |
| MdssPanel.GetVtotal | drivers/video/msm/mdss/mdss_panel.h:354-359 | the result is congruent mod 2^32 to yres + the vertical porches and pulse width, and equals that sum whenever it fits in an `int` |
| MdssPanel.GetHtotal | drivers/video/msm/mdss/mdss_panel.h:368-373 | the result is congruent mod 2^32 to xres + the horizontal porches and pulse width, and equals that sum whenever it fits in an `int` |
| MdssPanel.FrameDivisorIsHtotalTimesVtotal | drivers/video/msm/mdss/mdss_panel.h:313-373 | the frame rate divisor equals get_htotal * get_vtotal mod 2^32 |
| MdssPanel.FramerateWithoutWrap | drivers/video/msm/mdss/mdss_panel.h:328-341 | when width * height is nonzero and below 2^32, the frame rate of a clock-timed panel is clk_rate / (width * height) |
| MdssPanel.WrappedTotalGivesDefault | drivers/video/msm/mdss/mdss_panel.h:329-340 | a 65536 x 65536 panel without blanking wraps pixel_total to 0 and so gets the default frame rate |

## Left out

- Probe, remove, detect, device-tree parsing, module init/exit and the attribute tables: these are kernel framework glue. The constructor gives pdata and poll_dev as probe fills them in (lines 537-559), with the regulator slots still as the static table leaves them (lines 64-67) and the chip not yet initialised (line 550). Probe's own steps, powering the regulators (ConfigRegulator with `on`), checking the chip ID (CheckId) and initialising the chip (DeviceInit), are modelled one by one but not as one probe method.
- `mma8x5x_position_show` and `mma8x5x_dev_poll`, which only read `position` or forward to report_data.
- Real SMBus transfers. The register file is a map, and the status of each write and the length of each block read are parameters. Negative read return values truncated into `u8` are not modelled: a read always gives the register's byte.
- The global `mma_vreg[]` table is a field of each device (`vreg`), so a second device sharing that table is not captured.
- The regulator framework calls. Only their effect on the slots is kept: one outcome per slot, and a log of slot acquisitions and releases. The voltage values, the `regulator_count_voltages` test and the voltage-drop calls are not modelled.
- Mma8x5x.Device.ConfigRegulator: switching the regulators off is stated to return 0. The driver's off path has no failure branch, so this is exactly what it does. Consequently Suspend always sets bit 31, and its "only if turning the regulators off succeeds" branch never arises.
- Input event delivery (`input_report_abs`, `input_sync`): it is an appended log of reported samples.
- The sysfs plumbing, `snprintf`, `kstrtoul` and `kstrtoint`: the parsed value or the parser's error is a parameter. EnableShow returns the number instead of printing it.
- Mma8x5x.Device.DataConvert and Mma8x5x.Device.ReadData take and return the axis record by value rather than through a pointer into caller-owned memory, so aliasing of that record is not captured.
- `mutex_lock`/`mutex_unlock`, `msleep` and `usleep_range`: each method is one atomic step, and the delays have no effect on state.
- The 2g/4g/8g sensitivity comment, which the code never uses numerically.
- The `dev_err`/`dev_dbg` diagnostics.
- `arch/arm/mach-msm/clock-8092.c`: a declarative clock lookup table with no logic. `drivers/scsi/ufs/debugfs.h` holds only two prototypes without bodies. Neither file is part of this model.
- The `mdss_panel.h` struct fields that the three timing functions do not read, its event enum and callbacks, and the extern functions `mdss_register_panel`, `mdss_panel_intf_type`, `mdss_panel_get_boot_cfg` and `mdss_is_ready`, whose bodies are not in the header.
