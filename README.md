# SoftI2CMaster in Dafny

This project models SoftI2CMaster, a bit-banged I2C master for AVR microcontrollers, and proves
properties of the model. The library drives the two open-drain lines SDA and SCL by toggling
their data-direction bits: a set bit pulls the line low, a cleared bit releases it to the
pull-up. It comes as four copies, `SoftI2CMaster1.h`, `4.h`, `5.h` and `6.h`, one per bus. The
copies match line for line apart from the digit in their names. The model handles one bus at a
time, parameterised by that bus's configuration. A separate module covers how the assembler
labels of several copies interact when they are compiled together.

The modules:

- `I2cConfig` (`config.dfy`): the compile-time configuration. From the CPU clock, the speed mode
  and the timeout it derives the half-bit delay counter and the clock-stretch polling bound,
  both with C's truncating integer division. A build is rejected when the timeout is above
  10000 ms or the delay counter is too large for the 8-bit `ldi` operand.
- `ByteBits` (`bits.dfy`): a byte as its eight bits, most significant first, and how a
  receiving shift register packs them back into a byte.
- `ShiftRegisters` (`registers.dfy`): the two shift registers with their planted sentinel bit.
  r24 in `i2c_write` becomes zero exactly after the eighth data bit. The carry out of r23 in
  `i2c_read` is set exactly when the eighth bit goes in.
- `Protocol` (`protocol.dfy`): a drive trace, the sequence of `(SCL forced, SDA forced)`
  snapshots. Defines the clock pulses in a trace, the bit each carries, and START and STOP
  conditions in the master's drive: SDA changing while the master leaves SCL released. Whether
  SCL is then high on the wire also depends on the slaves; `BusProperties.ClockEndsHigh` ties
  that to the clock wait before the edge.
- `BusSpec` (`bus.dfy`): one pure function per routine, mapping the bus state to the new state
  and result. The state holds the two data-direction bits, the output latches, the interrupt
  flag, the trace, and one oracle per line for the other devices. `sclHeld[k]` says whether a
  slave holds SCL low at the k-th sample; once the oracle is used up, the slave has released the
  line.
- `BusProperties` (`bus_props.dfy`): what those functions guarantee.
  - `i2c_write` puts exactly the frame bits on the bus, and the acknowledge means the receiver
    held SDA low.
  - `i2c_read` returns the sampled byte.
  - `i2c_start` and `i2c_rep_start` drive one START and `i2c_stop` one STOP.
  - `i2c_start_wait` is a run of attempts, each a START and the address frame; every attempt
    that is not acknowledged is closed with a STOP, and the call reports an acknowledge exactly
    when its last attempt was acknowledged.
  - The clock-stretch timeout fires exactly when SCL stays low for the whole budget.
- `SoftI2cMaster` (`master.dfy`): the routines written step by step, as a class `Master` whose
  fields are the bus state. Each data-direction change, pin sample, delay loop, polling loop and
  shift-register loop appears in the source's order. Each method is proved to produce exactly
  what the `BusSpec` function for its routine says.
- `AsmLabels` (`labels.dfy`): the labels each copy defines and the labels its jumps name. A jump
  resolves when exactly one compiled copy defines its label; the module proves which copy's
  label each jump then names. Only names are modelled, not branch reach or code placement.

Where the documentation and the code disagree, the model follows the code. The library's
changelog (`SoftI2CMaster1.h:52`) says the previous interrupt state is restored. The code
executes `cli` at the start of a transfer and an unconditional `sei` in `i2c_stop`
(`SoftI2CMaster1.h:352-354`). So `StopSpec` enables interrupts rather than restoring them, and
`BusProperties.StopEnablesInterrupts` states exactly that.

## Model

Source lines are cited in `SoftI2CMaster1.h`; the other three copies have the same lines at the
same numbers, except where a row cites another copy.

| member | source | states |
|---|---|---|
| I2cConfig.CDiv | libraries/SoftI2CMaster/SoftI2CMaster1.h:144-151 | C's `/` truncates toward zero: `q*b <= a < q*b+b` for `a >= 0`, and the mirror image for `a < 0` |
| I2cConfig.MaxStretch | libraries/SoftI2CMaster/SoftI2CMaster1.h:133-141 | the polling bound is `(F/1000)*T/4000` clamped to 1..60000: 1 below range, 60000 above, unchanged inside |
| I2cConfig.DelayValue | libraries/SoftI2CMaster/SoftI2CMaster1.h:144-151 | the delay counter as compiled: `DelayCounter` for a signed clock constant or a clock fast enough for the mode; with an unsigned clock constant too slow for it, the 32-bit wrap makes it exceed 255 |
| I2cConfig.Configure | libraries/SoftI2CMaster/SoftI2CMaster1.h:93-151 | the build fails exactly when the timeout exceeds 10000 ms or `DelayValue` exceeds the 255 an `ldi` operand holds, and a timeout above 10000 ms gives that error; a successful build has that delay counter, the timeout and interrupt flags, and with a timeout the polling bound `MaxStretch` split into the high byte `m/256` and low byte `m%256` loaded into r27:r26 (lines 239-240) |
| I2cConfig.UnsignedClockRejected | libraries/SoftI2CMaster/SoftI2CMaster1.h:144-151 | an unsigned clock constant with fewer than 38 CPU cycles per bus clock period gives a build error, not a negative delay |
| I2cConfig.NoDelayIff | libraries/SoftI2CMaster/SoftI2CMaster1.h:144-151 | the delay routine is a bare `ret` exactly when fewer than 44 CPU cycles fit in one bus clock period |
| I2cConfig.DelayMonotonic | libraries/SoftI2CMaster/SoftI2CMaster1.h:143-151 | a faster CPU never gets a smaller delay counter |
| I2cConfig.DelayOrderedBySpeed | libraries/SoftI2CMaster/SoftI2CMaster1.h:143-151 | fast mode's delay is at most standard mode's, which is at most slow mode's |
| I2cConfig.MaxStretchMonotonic | libraries/SoftI2CMaster/SoftI2CMaster1.h:133-141 | a longer timeout never gives a smaller polling bound |
| ByteBits.Bits | libraries/SoftI2CMaster/SoftI2CMaster1.h:363-367 | a byte as eight bits, element `i` being bit `7-i`: the order in which `rol`/`lsl` shift them out |
| ByteBits.PackBound | libraries/SoftI2CMaster/SoftI2CMaster1.h:464-465 | fewer than 8 bits packed stay below `2^k`, so the planted 1 reaches bit 7 only with the eighth bit |
| ByteBits.BitsRoundTrip | libraries/SoftI2CMaster/SoftI2CMaster1.h:461-465 | packing a byte's bits in the order they are sent gives the byte back |
| ByteBits.PackRoundTrip | libraries/SoftI2CMaster/SoftI2CMaster1.h:461-465 | the bits of eight packed bits are those bits |
| ByteBits.BitsShiftIn | libraries/SoftI2CMaster/SoftI2CMaster1.h:464 | `rol` drops the top bit and appends the new one at the bottom |
| ByteBits.ZeroIffNoBits | libraries/SoftI2CMaster/SoftI2CMaster1.h:369 | the `breq` after a shift tests that every bit is zero |
| ShiftRegisters.FrameBits | libraries/SoftI2CMaster/SoftI2CMaster1.h:402-406 | the frame on SDA is the 8 data bits, then a released SDA for the acknowledge clock |
| ShiftRegisters.TransmitBits | libraries/SoftI2CMaster/SoftI2CMaster1.h:363-369 | after the `rol` and `i` shifts, r24 holds the unsent frame bits followed by zeros |
| ShiftRegisters.TransmitCarry | libraries/SoftI2CMaster/SoftI2CMaster1.h:364-374 | the carry out of each shift is the next frame bit to be sent |
| ShiftRegisters.TransmitShift | libraries/SoftI2CMaster/SoftI2CMaster1.h:367 | every shift after the first is a plain `lsl` |
| ShiftRegisters.TransmitEmpty | libraries/SoftI2CMaster/SoftI2CMaster1.h:367-369 | r24 is zero exactly after all 8 data bits have been sent |
| ShiftRegisters.ReceivePartial | libraries/SoftI2CMaster/SoftI2CMaster1.h:440-465 | before the eighth bit, r23 holds the planted 1 followed by the bits received so far |
| ShiftRegisters.ReceiveFull | libraries/SoftI2CMaster/SoftI2CMaster1.h:464-468 | after the eighth bit, r23 holds exactly the 8 received bits |
| ShiftRegisters.ReceiveSentinel | libraries/SoftI2CMaster/SoftI2CMaster1.h:464-465 | the carry out of `rol r23` is set exactly when the eighth bit goes in, so `brcc` loops 8 times |
| Protocol.StableHasNoConditions | libraries/SoftI2CMaster/SoftI2CMaster1.h:370-385 | a trace that changes SDA only while SCL is forced low contains no START and no STOP |
| BusSpec.FirstRelease | libraries/SoftI2CMaster/SoftI2CMaster1.h:203-205 | the number of samples before SCL is released: every earlier sample is held and this one is not |
| BusSpec.Wait | libraries/SoftI2CMaster/SoftI2CMaster1.h:199-243 | the clock-stretch wait changes nothing but the SCL oracle |
| BusSpec.Clock | libraries/SoftI2CMaster/SoftI2CMaster1.h:390-391 | `sbis SCLIN; rcall wait` changes nothing but the SCL oracle |
| BusSpec.StopSpec | libraries/SoftI2CMaster/SoftI2CMaster1.h:339-357 | `i2c_stop` leaves SCL released |
| BusProperties.WaitTimeout | libraries/SoftI2CMaster/SoftI2CMaster1.h:199-243 | the wait times out exactly in the timeout variant with SCL low at every one of the `256*I2C_MAX_STRETCH` samples; otherwise it consumes samples up to and including the first release |
| BusProperties.ClockTimeout | libraries/SoftI2CMaster/SoftI2CMaster1.h:390-391 | a clock times out exactly when the first sample and all samples of the wait read low |
| BusProperties.ClockEndsHigh | libraries/SoftI2CMaster/SoftI2CMaster1.h:276-278 | the clock wait before the SDA edge of a START (also lines 301-303) or of a STOP (348-350) reads SCL low at every sample but its last, and reads it high at the last exactly when it did not time out |
| BusProperties.ClockStep | libraries/SoftI2CMaster/SoftI2CMaster1.h:390-391 | waiting for SCL adds nothing to the trace; only the timeout variant times out |
| BusProperties.PulseShape | libraries/SoftI2CMaster/SoftI2CMaster1.h:370-385 | one data clock is one pulse carrying the bit, with SDA changed only while SCL is low |
| BusProperties.GetAckTrace | libraries/SoftI2CMaster/SoftI2CMaster1.h:402-428 | the acknowledge clock is one pulse with SDA released; it ends with SCL forced low; a timeout there is in clock 8 |
| BusProperties.SendFromTrace | libraries/SoftI2CMaster/SoftI2CMaster1.h:363-400 | from bit `i` on, the write loop puts frame bits `i..` on the bus up to where it stopped |
| BusProperties.SendFromAck | libraries/SoftI2CMaster/SoftI2CMaster1.h:410-420 | outside a timeout the write consumes one SDA sample, and acknowledged means the receiver held SDA low |
| BusProperties.WriteWaveform | libraries/SoftI2CMaster/SoftI2CMaster1.h:359-434 | `i2c_write` puts exactly the frame bits of the byte on the bus, up to the clock that timed out; it creates no START or STOP and ends with SCL forced low |
| BusProperties.WriteDelivers | libraries/SoftI2CMaster/SoftI2CMaster1.h:359-434 | without a timeout there are nine pulses, and the first eight pack to the byte written |
| BusProperties.WriteAck | libraries/SoftI2CMaster/SoftI2CMaster1.h:410-420 | `i2c_write` returns true exactly when the receiver holds SDA low at the acknowledge sample; it leaves the interrupt flag alone |
| BusProperties.WriteStuckClock | libraries/SoftI2CMaster/SoftI2CMaster1.h:390-395 | a slave holding SCL low for the whole budget makes the write time out in its first clock |
| BusProperties.PutAckTrace | libraries/SoftI2CMaster/SoftI2CMaster1.h:468-498 | the acknowledge clock of a read carries `last` (ACK unless `last`) and ends with SCL forced low |
| BusProperties.ReceiveFromTrace | libraries/SoftI2CMaster/SoftI2CMaster1.h:440-498 | the read loop clocks one released-SDA pulse per bit, then the acknowledge pulse |
| BusProperties.ReceiveFromValue | libraries/SoftI2CMaster/SoftI2CMaster1.h:440-465 | the value returned is r23 after the bits received |
| BusProperties.ReceiveFromData | libraries/SoftI2CMaster/SoftI2CMaster1.h:461-464 | the bits received are the SDA levels at the successive samples |
| BusProperties.ReadWaveform | libraries/SoftI2CMaster/SoftI2CMaster1.h:436-504 | `i2c_read` clocks eight pulses with SDA released, then an acknowledge pulse carrying `last`. After a timeout, one pulse per bit received plus the one that timed out. No START or STOP; SCL is forced low at the end |
| BusProperties.ReadValue | libraries/SoftI2CMaster/SoftI2CMaster1.h:436-504 | the byte returned packs the 8 SDA levels sampled; after a timeout it is the planted 1 followed by the bits received so far |
| BusProperties.ReadReturnsSentByte | libraries/SoftI2CMaster/SoftI2CMaster1.h:436-504 | when the slave drives the bits of `v`, a read that does not time out returns `v` |
| BusProperties.InitReleasesBus | libraries/SoftI2CMaster/SoftI2CMaster1.h:246-267 | `i2c_init` releases both lines and clears both latches. It reports the bus free exactly when SDA and then SCL read high; SCL is not sampled when SDA reads low |
| BusProperties.StartPrefix | libraries/SoftI2CMaster/SoftI2CMaster1.h:273-278 | before the address byte, `i2c_start` adds only the SDA fall and masks interrupts when configured |
| BusProperties.StartCondition | libraries/SoftI2CMaster/SoftI2CMaster1.h:269-285 | on an idle bus `i2c_start` drives one START as its first edge and no STOP, then the address frame; acknowledge as for a write |
| BusProperties.RepStartShape | libraries/SoftI2CMaster/SoftI2CMaster1.h:295-303 | the repeated-start prefix is one pulse with SDA released, followed by one START |
| BusProperties.RepeatedStartCondition | libraries/SoftI2CMaster/SoftI2CMaster1.h:287-310 | `i2c_rep_start` from any state drives one START and no STOP: one released-SDA pulse, then the address frame |
| BusProperties.StopShape | libraries/SoftI2CMaster/SoftI2CMaster1.h:343-350 | the stop sequence is one STOP and no START |
| BusProperties.StopCondition | libraries/SoftI2CMaster/SoftI2CMaster1.h:339-357 | `i2c_stop` drives one STOP, leaves both lines released, and enables interrupts when they are masked during transfers |
| BusProperties.StopEnablesInterrupts | libraries/SoftI2CMaster/SoftI2CMaster1.h:352-354 | after a START with interrupts masked, the STOP enables them even if they were disabled before |
| BusProperties.StartWaitPolls | libraries/SoftI2CMaster/SoftI2CMaster1.h:312-337 | `i2c_start_wait` goes on until an acknowledge or the attempts run out. In total it drives one START per attempt, and one STOP per attempt that was not acknowledged. A successful poll ends with SCL forced low, a failed one with both lines released |
| BusProperties.StartWaitAttempts | libraries/SoftI2CMaster/SoftI2CMaster1.h:312-337 | attempt by attempt: each starts on a free bus with one START and the address frame; each but the last was refused and is followed by a STOP that starts the next; the call reports an acknowledge exactly when the last attempt was acknowledged, that is when the device held SDA low at its acknowledge sample |
| BusProperties.FailedAttempt | libraries/SoftI2CMaster/SoftI2CMaster1.h:320-331 | an attempt that is not acknowledged, with its STOP, is one START and one STOP and leaves the bus idle |
| BusProperties.DropDrop | libraries/SoftI2CMaster/SoftI2CMaster1.h:203-205 | consuming `m` and then `n` samples is consuming `m+n` |
| SoftI2cMaster.Master.SclDdr | libraries/SoftI2CMaster/SoftI2CMaster1.h:250 | `sbi`/`cbi` on the SCL data-direction bit changes that bit and records the new drive |
| SoftI2cMaster.Master.SdaDdr | libraries/SoftI2CMaster/SoftI2CMaster1.h:249 | the same for SDA |
| SoftI2cMaster.Master.SclPin | libraries/SoftI2CMaster/SoftI2CMaster1.h:257 | one sample of SCL: high unless the master or a slave holds it, consuming one oracle element |
| SoftI2cMaster.Master.SdaPin | libraries/SoftI2CMaster/SoftI2CMaster1.h:255 | one sample of SDA, the same way |
| SoftI2cMaster.Master.DelayHalf | libraries/SoftI2CMaster/SoftI2CMaster1.h:181-197 | the delay loop runs `I2C_DELAY_COUNTER` passes, none when the counter is below 1 |
| SoftI2cMaster.Master.WaitSclHigh | libraries/SoftI2CMaster/SoftI2CMaster1.h:199-243 | the wait, in both variants, treats the bus as `BusSpec.Wait` does and signals its outcome the same way |
| SoftI2cMaster.Master.WaitForever | libraries/SoftI2CMaster/SoftI2CMaster1.h:201-207 | the spin loop stops at the first sample that reads high |
| SoftI2cMaster.Master.WaitBounded | libraries/SoftI2CMaster/SoftI2CMaster1.h:209-241 | the outer loop on r27:r26 gives up after `I2C_MAX_STRETCH` rounds of low samples |
| SoftI2cMaster.Master.PollRound | libraries/SoftI2CMaster/SoftI2CMaster1.h:214-219 | one round of `dec __tmp_reg__`: up to 256 samples, stopping at the first high one; when none reads high it takes all 256 |
| SoftI2cMaster.Master.ClockWait | libraries/SoftI2CMaster/SoftI2CMaster1.h:390-391 | sample SCL and wait only if it reads low, as `BusSpec.Clock` |
| SoftI2cMaster.Master.ClockPulse | libraries/SoftI2CMaster/SoftI2CMaster1.h:370-385 | SCL low, SDA set, a half-bit delay, SCL released |
| SoftI2cMaster.Master.SendBit | libraries/SoftI2CMaster/SoftI2CMaster1.h:370-400 | one data clock of the write loop, ending the write with SCL forced low after a timeout |
| SoftI2cMaster.Master.AckClock | libraries/SoftI2CMaster/SoftI2CMaster1.h:402-428 | the acknowledge phase of the write, as `BusSpec.GetAck` |
| SoftI2cMaster.Master.Write | libraries/SoftI2CMaster/SoftI2CMaster1.h:359-434 | the shift-register loop on r24 and the acknowledge phase produce `BusSpec.WriteSpec`, so every `BusProperties` write property holds for it |
| SoftI2cMaster.Master.Read | libraries/SoftI2CMaster/SoftI2CMaster1.h:436-504 | the loop on r23 and the acknowledge clock produce `BusSpec.ReadSpec`, returning its value |
| SoftI2cMaster.Master.Init | libraries/SoftI2CMaster/SoftI2CMaster1.h:246-267 | releases SDA then SCL, clears both latches, and reports the bus free exactly as `BusSpec.InitSpec` does, so `BusProperties.InitReleasesBus` holds for it |
| SoftI2cMaster.Master.MaskInterrupts | libraries/SoftI2CMaster/SoftI2CMaster1.h:273-275 | `cli` only when interrupts are masked during transfers |
| SoftI2cMaster.Master.Start | libraries/SoftI2CMaster/SoftI2CMaster1.h:269-285 | produces `BusSpec.StartSpec`'s bus and acknowledge, so on an idle bus it makes the one START of `BusProperties.StartCondition` |
| SoftI2cMaster.Master.RepStart | libraries/SoftI2CMaster/SoftI2CMaster1.h:287-310 | produces `BusSpec.RepStartSpec`'s bus and acknowledge, so `BusProperties.RepeatedStartCondition` holds for it |
| SoftI2cMaster.Master.Stop | libraries/SoftI2CMaster/SoftI2CMaster1.h:339-357 | produces `BusSpec.StopSpec`'s bus and leaves SCL released, so `BusProperties.StopCondition` holds for it |
| SoftI2cMaster.Master.StartWait | libraries/SoftI2CMaster/SoftI2CMaster1.h:312-337 | the retry loop, re-entering at the `_Li2c_start_wait` label, produces `BusSpec.StartWaitSpec` for the same number of attempts |
| SoftI2cMaster.ShiftStep | libraries/SoftI2CMaster/SoftI2CMaster1.h:367-369 | each `lsl r24` shifts the next frame bit into the carry and empties r24 exactly after the eighth data bit |
| SoftI2cMaster.AfterRound | libraries/SoftI2CMaster/SoftI2CMaster1.h:216-221 | the samples of one outer-loop round continue those of the rounds before it |
| SoftI2cMaster.WaitReleased | libraries/SoftI2CMaster/SoftI2CMaster1.h:216-226 | a wait whose first high sample is the `k`-th, within the budget, ends there without a timeout |
| SoftI2cMaster.WaitExpired | libraries/SoftI2CMaster/SoftI2CMaster1.h:218-223 | a wait whose every budgeted sample is low times out after exactly the budget |
| AsmLabels.Defined | libraries/SoftI2CMaster/SoftI2CMaster5.h:396-402 | the label names each copy defines; the intended name always carries the copy's own digit |
| AsmLabels.Target | libraries/SoftI2CMaster/SoftI2CMaster6.h:369 | the label names each copy's jumps use; the intended target is always the copy's own label |
| AsmLabels.Resolve | libraries/SoftI2CMaster/SoftI2CMaster1.h:317 | a jump names the label of the one copy that defines it |
| AsmLabels.IntendedLocal | libraries/SoftI2CMaster/SoftI2CMaster1.h:312-337 | with every label carrying its own copy's digit, every label of any mix of copies and configurations resolves, and every jump names a label of its own copy |
| AsmLabels.AckJumpOfCopy6 | libraries/SoftI2CMaster/SoftI2CMaster6.h:369 | copy 6's jump to its acknowledge phase names copy 4's or copy 5's label, whichever of them alone is compiled in, and never copy 6's |
| AsmLabels.RetryJump | libraries/SoftI2CMaster/SoftI2CMaster4.h:331 | the retry of `i2c_start_wait` in copies 4, 5 and 6 names copy 1's label, and does not resolve without copy 1 |
| AsmLabels.Copy5NamesClash | libraries/SoftI2CMaster/SoftI2CMaster5.h:396-402 | copies 4 and 5 both define `_Li2c_get_ack4` and `_Ldelay_scl_high4` |
| AsmLabels.SharedSpinLabel | libraries/SoftI2CMaster/SoftI2CMaster1.h:201-205 | `_Li2c_wait_stretch` is defined by exactly the copies built without a timeout |
| AsmLabels.DefinedOnce | libraries/SoftI2CMaster/SoftI2CMaster5.h:396-402 | as written, only the spin-loop label and the two labels copies 4 and 5 share can be defined twice |
| AsmLabels.TargetResolves | libraries/SoftI2CMaster/SoftI2CMaster6.h:331 | as written, one of a copy's jumps resolves under exactly these conditions |
| AsmLabels.AsWrittenResolves | libraries/SoftI2CMaster/SoftI2CMaster6.h:331-369 | every label of a program of the copies as written resolves exactly when copies 4 and 5 are not both in it, at most one copy lacks a timeout, copy 1 is in whenever another copy is, and copy 4 or 5 is in whenever copy 6 is |
| AsmLabels.AsWrittenLocalIff | libraries/SoftI2CMaster/SoftI2CMaster4.h:331 | as written, every jump names a label of its own copy exactly when the program contains no copy but copy 1 |

## Left out

- Timing: the cycle counts, the `nop` padding and the exact half-bit duration are not modelled. A delay is a counted loop that changes nothing on the bus.
- Electrical behaviour: the pull-ups, rise times and the pin/port/SFR address mapping (`SDA_PORT`, `SCL_PORT` and the `DDR`/`PIN` address arithmetic) are not modelled. A line reads low exactly when the master or a slave holds it low.
- Other devices are a finite oracle per line; a slave that holds SCL low forever is an oracle with enough `true` entries.
- The `Arduino.h` and `avr/io.h` declarations and the `i2c_init`/`i2c_start` C wrapper returns written "to fool the compiler" are not part of this model.
- Interrupts are a flag. What an interrupt routine would do while they are enabled, and any other concurrent access to the pins, is not modelled.
- BusSpec.StartWaitSpec: the source retries forever. The model takes a bound `fuel` on the number of attempts and proves the outcome for every bound.
- SoftI2cMaster.Master.StartWait: bounded by the same `fuel`, for the same reason.
- SoftI2cMaster.Master.Start: in the variant without a timeout, it requires that the master is not itself holding SCL low. In that state the source spins forever.
- SoftI2cMaster.Master.StartWait: in the variant without a timeout, it requires that the master is not itself holding SCL low. In that state the source spins forever.
- SoftI2cMaster.Master.WaitSclHigh: in the variant without a timeout, it requires that the master is not itself holding SCL low. In that state the source spins forever.
- SoftI2cMaster.Master.PollRound: `__tmp_reg__` is an integer in 0..255 with its `dec` wrap from 0 to 255 written out. r27:r26 is one integer counter loaded as `256*hi + lo` from the two bytes that `I2cConfig.Configure` sets to `m/256` and `m%256`; the 16-bit `sbiw` is not otherwise modelled.
- The stack traffic of `i2c_start_wait` (`push`/`pop` of r24) is reduced to keeping the address between attempts.
- `I2C_CPUFREQ5` defaults to `F_CPU4` rather than `F_CPU5` (`SoftI2CMaster5.h:97`). A `Config` takes the CPU frequency as given, so this default is not modelled.
- BusProperties.StartCondition: the START is one in the master's drive. After a clock-stretch timeout that `i2c_start` ignores (`SoftI2CMaster1.h:276-278`), the SDA fall comes while a slave still holds SCL low, so the wire shows no START; `BusProperties.ClockEndsHigh` says SCL was seen high exactly when the wait did not time out.
- BusProperties.RepeatedStartCondition: likewise a START in the master's drive; the timeout at `SoftI2CMaster1.h:301-303` is ignored the same way.
- BusProperties.StopCondition: likewise a STOP in the master's drive; the timeout at `SoftI2CMaster1.h:348-350` is ignored the same way.
- I2cConfig.NoDelayIff, I2cConfig.DelayMonotonic and I2cConfig.DelayOrderedBySpeed are about `DelayCounter`, the signed evaluation; `I2cConfig.DelayValue` says where an unsigned clock constant differs.
- AsmLabels: only label names are modelled. A jump whose label resolves may still fail to assemble when the label lies beyond the instruction's reach (`breq` reaches 64 words, `rjmp` 2K words), which depends on where the compiler places each copy's code.
- `I2C_MAX_STRETCH` is one macro name shared by every copy, which the preprocessor redefines on each inclusion. Each copy's routines are modelled with their own copy's bound.

## Findings

| source | as written | input that shows it | evidently intended | confidence | as-written member | corrected member |
|---|---|---|---|---|---|---|
| libraries/SoftI2CMaster/SoftI2CMaster6.h:369 | `breq _Li2c_get_ack4`, a label copy 6 does not define (its own is `_Li2c_get_ack6`, line 402) | a sketch with copy 6 alone does not assemble; with copy 4 (or copy 5) beside it, the label resolves into copy 4's code, so `i2c_write6` would take its acknowledge on bus 4's pins, if the 64-word reach of `breq` covers that label in the final layout | `breq _Li2c_get_ack6` | not executed | AsmLabels.AckJumpOfCopy6 | AsmLabels.IntendedLocal |
| libraries/SoftI2CMaster/SoftI2CMaster4.h:331 | `rjmp _Li2c_start_wait1` in copies 4, 5 and 6 (same line in `SoftI2CMaster5.h` and `SoftI2CMaster6.h`), a label defined only by copy 1 | without copy 1 the sketch does not assemble; with it, the label resolves into copy 1's code, so `i2c_start_wait4` would retry every refused attempt on bus 1 | `rjmp _Li2c_start_wait4` (5, 6), the copy's own line 317 | not executed | AsmLabels.RetryJump | AsmLabels.IntendedLocal |
| libraries/SoftI2CMaster/SoftI2CMaster5.h:396-402 | copy 5 defines `_Ldelay_scl_high4` and `_Li2c_get_ack4` | a sketch with copies 4 and 5 defines both labels twice and does not assemble | `_Ldelay_scl_high5` and `_Li2c_get_ack5` | not executed | AsmLabels.Copy5NamesClash | AsmLabels.IntendedLocal |
| libraries/SoftI2CMaster/SoftI2CMaster1.h:203 | every copy's wait without a timeout uses the undigited `_Li2c_wait_stretch` | two copies both built without a timeout define it twice and do not assemble | `_Li2c_wait_stretch1` (4, 5, 6) | not executed | AsmLabels.SharedSpinLabel | AsmLabels.IntendedLocal |

The byte, bus and class models (`BusSpec`, `BusProperties`, `SoftI2cMaster`) describe one copy whose
jumps all stay in that copy, which is the intended naming; `AsmLabels.AsWrittenResolves` and
`AsmLabels.AsWrittenLocalIff` characterise the naming as written over every combination of copies.
