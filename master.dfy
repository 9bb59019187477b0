/** The bus routines as the step-by-step code they are: one object holding the state the
    routines change (the two data-direction bits, the output latches, the interrupt flag) and
    the other devices on the bus, with one method per routine and per instruction group.
    Every routine is proved to leave exactly the state, and return exactly the value, that its
    function in `BusSpec` gives; what those functions guarantee is proved in `BusProperties`. */
module SoftI2cMaster {
  import opened ByteBits
  import opened I2cConfig
  import opened Protocol
  import opened ShiftRegisters
  import opened BusSpec
  import opened BusProperties

  class Master {
    /** The build-time configuration this copy of the routines was assembled with. */
    const p: Profile
    var sclForced: bool       // SCL data-direction bit
    var sdaForced: bool       // SDA data-direction bit
    var sclLatch: bool        // SCL output latch
    var sdaLatch: bool        // SDA output latch
    var irqEnabled: bool      // global interrupt flag
    var sclHeld: seq<bool>    // the slaves' SCL behaviour, one entry per SCL sample
    var sdaHeld: seq<bool>    // the slaves' SDA behaviour, one entry per SDA sample
    var trace: seq<Lines>     // every drive written so far

    function State(): Bus
      reads this
    {
      Bus(Lines(sclForced, sdaForced), sclLatch, sdaLatch, irqEnabled, sclHeld, sdaHeld, trace)
    }

    constructor (p: Profile, b: Bus)
      ensures this.p == p && State() == b
    {
      this.p := p;
      sclForced, sdaForced := b.drive.sclForced, b.drive.sdaForced;
      sclLatch, sdaLatch := b.sclLatch, b.sdaLatch;
      irqEnabled := b.irqEnabled;
      sclHeld, sdaHeld := b.sclHeld, b.sdaHeld;
      trace := b.trace;
    }

    // -------------------------------------------------------------------------------------
    // Instructions on the port registers

    /** `sbi`/`cbi` on the SCL data-direction bit. */
    method SclDdr(forced: bool)
      modifies this
      ensures State() == SetScl(old(State()), forced)
    {
      sclForced := forced;
      trace := trace + [Lines(sclForced, sdaForced)];
    }

    /** `sbi`/`cbi` on the SDA data-direction bit. */
    method SdaDdr(forced: bool)
      modifies this
      ensures State() == SetSda(old(State()), forced)
    {
      sdaForced := forced;
      trace := trace + [Lines(sclForced, sdaForced)];
    }

    /** `sbis`/`sbic` on the SCL input pin. */
    method SclPin() returns (high: bool)
      modifies this
      ensures Sampled(high, State()) == SampleScl(old(State()))
    {
      high := !sclForced && !Held(sclHeld, 0);
      sclHeld := Drop(sclHeld, 1);
    }

    /** `sbis`/`sbic` on the SDA input pin. */
    method SdaPin() returns (high: bool)
      modifies this
      ensures Sampled(high, State()) == SampleSda(old(State()))
    {
      high := !sdaForced && !Held(sdaHeld, 0);
      sdaHeld := Drop(sdaHeld, 1);
    }

    /** The SCL sample that follows `k` samples counted from the state `b0`, all of which read
        low; `next` counts the samples including this one. */
    method SclPinNext(ghost b0: Bus, ghost k: nat) returns (high: bool, ghost next: nat)
      requires State() == Shifted(b0, k) && forall i :: 0 <= i < k ==> SclLow(b0, i)
      modifies this
      ensures next == k + 1 && State() == Shifted(b0, next)
      ensures forall i :: 0 <= i < next - 1 ==> SclLow(b0, i)
      ensures SclLow(b0, next - 1) <==> !high
    {
      DropHeld(b0.sclHeld, k, 0);
      high := SclPin();
      DropDrop(b0.sclHeld, k, 1);
      next := k + 1;
    }

    // -------------------------------------------------------------------------------------
    // i2c_delay_half and i2c_wait_scl_high

    /** `i2c_delay_half`: a bare `ret` when the delay counter is below 1, otherwise the
        counter is loaded into r25 and counted down to zero. Returns the number of passes. */
    method DelayHalf() returns (passes: nat)
      requires ProfileOk(p)
      ensures passes == (if p.delay < 1 then 0 else p.delay)
    {
      passes := 0;
      if p.delay < 1 {
        return;
      }
      var r25: int := p.delay;                                // ldi r25, I2C_DELAY_COUNTER
      while true
        invariant passes < p.delay && r25 == p.delay - passes
        decreases p.delay - passes
      {
        r25 := r25 - 1;
        passes := passes + 1;
        if r25 == 0 {
          break;
        }
      }
    }

    /** `i2c_wait_scl_high`: poll SCL until it reads high; in the timeout variant give up
        after `I2C_MAX_STRETCH` passes of an outer loop of 256 polls. */
    method WaitSclHigh() returns (timedOut: bool)
      requires ProfileOk(p) && (p.timeout || !sclForced)
      modifies this
      ensures Waited(timedOut, State()) == Wait(p, old(State()))
    {
      if p.timeout {
        timedOut := WaitBounded();
      } else {
        WaitForever();
        timedOut := false;
      }
    }

    /** The variant without a timeout: `sbis SCLIN; rjmp` back until SCL reads high. */
    method WaitForever()
      requires ProfileOk(p) && !p.timeout && !sclForced
      modifies this
      ensures Waited(false, State()) == Wait(p, old(State()))
    {
      ghost var b0 := State();
      ghost var k: nat;                                        // SCL samples taken
      var high;
      high, k := SclPinNext(b0, 0);
      while !high
        invariant 1 <= k <= |b0.sclHeld| + 1 && State() == Shifted(b0, k)
        invariant forall i :: 0 <= i < k - 1 ==> SclLow(b0, i)
        invariant SclLow(b0, k - 1) <==> !high
        decreases |b0.sclHeld| + 1 - k
      {
        high, k := SclPinNext(b0, k);
      }
      WaitReleased(p, b0, k);
    }

    /** The timeout variant: r27:r26 counts the passes of the outer loop down from
        `I2C_MAX_STRETCH`. */
    method WaitBounded() returns (timedOut: bool)
      requires ProfileOk(p) && p.timeout
      modifies this
      ensures Waited(timedOut, State()) == Wait(p, old(State()))
    {
      ghost var b0 := State();
      ghost var k: nat := 0;   // SCL samples taken
      var counter: int := p.hiStretch * 256 + p.loStretch;   // ldi r27; ldi r26
      var released := false;
      while true
        invariant 1 <= counter <= MaxStretchOf(p)
        invariant k == 256 * (MaxStretchOf(p) - counter)
        invariant State() == Shifted(b0, k)
        invariant forall i :: 0 <= i < k ==> SclLow(b0, i)
        decreases counter
      {
        ghost var n: nat;
        released, n := PollRound();
        k := AfterRound(b0, k, n, released);
        if released {
          break;
        }
        counter := counter - 1;                                // sbiw r26, 1
        if counter == 0 {
          break;
        }
      }
      timedOut := !released;
      if released {
        WaitReleased(p, b0, k);
      } else {
        WaitExpired(p, b0);
      }
    }

    /** One pass of the outer loop: `clr __tmp_reg__`, then poll SCL until it reads high or
        `dec __tmp_reg__` wraps back to zero, after 256 polls. `n` is the number of polls. */
    method PollRound() returns (released: bool, ghost n: nat)
      modifies this
      ensures 1 <= n <= 256 && (!released ==> n == 256)
      ensures State() == Shifted(old(State()), n)
      ensures forall i :: 0 <= i < n - 1 ==> SclLow(old(State()), i)
      ensures SclLow(old(State()), n - 1) <==> !released
    {
      ghost var b0 := State();
      var tmp: int := 0;                                       // the 8-bit __tmp_reg__
      n := 0;
      while true
        invariant n < 256 && tmp == (if n == 0 then 0 else 256 - n)
        invariant State() == Shifted(b0, n)
        invariant forall i :: 0 <= i < n ==> SclLow(b0, i)
        decreases 256 - n
      {
        released, n := SclPinNext(b0, n);
        if released {
          return;
        }
        tmp := if tmp == 0 then 255 else tmp - 1;              // dec wraps from 0 to 255
        if tmp == 0 {
          return;
        }
      }
    }

    /** `sbis SCLIN; rcall i2c_wait_scl_high`: sample SCL once and wait only if it reads low. */
    method ClockWait() returns (timedOut: bool)
      requires ProfileOk(p) && (p.timeout || !sclForced)
      modifies this
      ensures Waited(timedOut, State()) == Clock(p, old(State()))
    {
      var high := SclPin();
      if high {
        timedOut := false;
      } else {
        timedOut := WaitSclHigh();
      }
    }

    /** SCL forced low, SDA set, a half-bit delay, SCL released. */
    method ClockPulse(sdaLow: bool)
      requires ProfileOk(p)
      modifies this
      ensures State() == Pulse(old(State()), sdaLow)
    {
      SclDdr(true);
      SdaDdr(sdaLow);
      var _ := DelayHalf();
      SclDdr(false);
    }

    // -------------------------------------------------------------------------------------
    // The byte routines

    /** One data clock of `i2c_write`: frame bit `i` of `v` on SDA, the clock pulse, the wait
        for SCL and the closing half-bit delay; after a timeout SCL is forced low again. */
    method SendBit(sdaLow: bool, ghost v: byte, ghost i: nat, ghost next: nat) returns (timedOut: bool)
      requires ProfileOk(p) && i < 8 && next == i + 1 && sdaLow == !FrameBits(v)[i]
      modifies this
      ensures timedOut ==> SendFrom(p, old(State()), v, i) == Written(TimedOut(i), State())
      ensures !timedOut ==> SendFrom(p, old(State()), v, i) == SendFrom(p, State(), v, next)
    {
      ClockPulse(sdaLow);
      timedOut := ClockWait();
      if timedOut {
        SclDdr(true);                                         // clr r24; force SCL; ret
        return;
      }
      var _ := DelayHalf();
    }

    /** `_Li2c_get_ack`: SDA released for the ninth clock, the wait for SCL, then SDA sampled;
        true when the receiver holds SDA low. SCL is forced low at the end. */
    method AckClock() returns (ack: bool)
      requires ProfileOk(p)
      modifies this
      ensures var w := GetAck(p, old(State())); State() == w.bus && ack == w.status.Acked?
    {
      ClockPulse(false);
      var timedOut := ClockWait();
      if timedOut {
        SclDdr(true);
        return false;
      }
      var high := SdaPin();
      ack := !high;
      var _ := DelayHalf();
      SclDdr(true);
    }

    /** `i2c_write(value)`: true exactly when the receiver acknowledged the byte. */
    method Write(v: byte) returns (ack: bool)
      requires ProfileOk(p)
      modifies this
      ensures var w := WriteSpec(p, old(State()), v); State() == w.bus && ack == w.status.Acked?
    {
      var r24: byte := ShiftIn(v, true);                      // sec; rol r24
      var carry := Bit(v, 7);
      ghost var i: nat := 0;
      TransmitEmpty(v, 0);
      while r24 != 0                                          // breq _Li2c_get_ack
        invariant i <= 8 && r24 == Transmit(v, i) && (r24 == 0 <==> i == 8)
        invariant carry == FrameBits(v)[i]
        invariant SendFrom(p, State(), v, i) == WriteSpec(p, old(State()), v)
        decreases 8 - i
      {
        ghost var next := i + 1;
        var timedOut := SendBit(!carry, v, i, next);
        if timedOut {
          return false;
        }
        ShiftStep(v, i, next);
        carry := Bit(r24, 7);                                 // lsl r24
        r24 := r24 << 1;
        i := next;
      }
      ack := AckClock();
    }

    /** `i2c_read(last)`: the byte shifted in, acknowledged unless `last`. */
    method Read(last: bool) returns (value: byte)
      requires ProfileOk(p)
      modifies this
      ensures var r := ReadSpec(p, old(State()), last); State() == r.bus && value == r.value
    {
      var r23: byte := 1;                                     // ldi r23, 1
      ghost var got: seq<bool> := [];
      var full := false;
      while !full                                             // brcc _Li2c_read_bit
        invariant |got| <= 8 && r23 == Receive(got) && (full <==> |got| == 8)
        invariant ReceiveFrom(p, State(), got, last) == ReadSpec(p, old(State()), last)
        decreases 8 - |got|
      {
        ClockPulse(false);
        var _ := DelayHalf();
        var timedOut := ClockWait();
        if timedOut {
          SclDdr(true);                                       // force SCL; r24 := r23
          return r23;
        }
        var high := SdaPin();                                 // clc; sbic SDAIN; sec
        ReceiveSentinel(got);
        full := Bit(r23, 7);                                  // rol r23
        r23 := ShiftIn(r23, high);
        assert (got + [high])[..|got|] == got;
        got := got + [high];
      }
      // the acknowledge clock
      ClockPulse(!last);
      var _ := ClockWait();
      var _ := DelayHalf();
      SclDdr(true);
      value := r23;
    }

    // -------------------------------------------------------------------------------------
    // The bus routines

    /** `i2c_init`: true when both lines read high after both are released. */
    method Init() returns (free: bool)
      modifies this
      ensures var r := InitSpec(old(State())); State() == r.bus && free == r.ok
    {
      SdaDdr(false);
      SclDdr(false);
      sdaLatch := false;
      sclLatch := false;
      var sda := SdaPin();
      if !sda {
        return false;
      }
      free := SclPin();
    }

    /** `cli` when interrupts are masked during transfers. */
    method MaskInterrupts()
      modifies this
      ensures State() == MaskIrq(p, old(State()))
    {
      if p.noInterrupt {
        irqEnabled := false;
      }
    }

    /** `i2c_start(addr)`: true when the addressed device acknowledged. */
    method Start(addr: byte) returns (ack: bool)
      requires ProfileOk(p) && (p.timeout || !sclForced)
      modifies this
      ensures var w := StartSpec(p, old(State()), addr); State() == w.bus && ack == w.status.Acked?
    {
      MaskInterrupts();
      var _ := ClockWait();
      SdaDdr(true);
      var _ := DelayHalf();
      ack := Write(addr);
    }

    /** `i2c_rep_start(addr)`: a repeated START; true when the addressed device acknowledged. */
    method RepStart(addr: byte) returns (ack: bool)
      requires ProfileOk(p)
      modifies this
      ensures var w := RepStartSpec(p, old(State()), addr); State() == w.bus && ack == w.status.Acked?
    {
      MaskInterrupts();
      SclDdr(true);
      var _ := DelayHalf();
      SdaDdr(false);
      var _ := DelayHalf();
      SclDdr(false);
      var _ := DelayHalf();
      var _ := ClockWait();
      SdaDdr(true);
      var _ := DelayHalf();
      ack := Write(addr);
    }

    /** `i2c_stop`. */
    method Stop()
      requires ProfileOk(p)
      modifies this
      ensures State() == StopSpec(p, old(State())) && !sclForced
    {
      SclDdr(true);
      SdaDdr(true);
      var _ := DelayHalf();
      SclDdr(false);
      var _ := DelayHalf();
      var _ := ClockWait();
      SdaDdr(false);
      var _ := DelayHalf();
      if p.noInterrupt {
        irqEnabled := true;
      }
    }

    /** `i2c_start_wait(addr)`, stopped after `fuel` attempts: START and address, and a STOP
        after each attempt the device did not acknowledge. */
    method StartWait(addr: byte, fuel: nat) returns (acked: bool, attempts: nat)
      requires ProfileOk(p) && (p.timeout || !sclForced)
      modifies this
      ensures var r := StartWaitSpec(p, old(State()), addr, fuel);
              State() == r.bus && acked == r.acked && attempts == r.attempts
    {
      acked, attempts := false, 0;
      var left := fuel;
      while left != 0
        invariant attempts + left == fuel && !acked
        invariant p.timeout || !sclForced
        invariant StartWaitSpec(p, old(State()), addr, fuel)
                  == Later(StartWaitSpec(p, State(), addr, left), attempts)
        decreases left
      {
        ghost var before := State();
        ghost var w := StartSpec(p, before, addr);
        var rest: nat := left - 1;
        StartWaitStep(p, before, addr, rest);
        acked := Start(addr);
        if acked {
          AttemptAcked(p, w, addr, rest, attempts);
          attempts := attempts + 1;
          return;
        }
        AttemptFailed(p, w, addr, rest, attempts);
        attempts := attempts + 1;
        Stop();
        left := rest;
      }
    }
  }

  /** The outcome of a poll that took `attempts` more attempts before it began. */
  function Later(r: Polled, attempts: nat): Polled
  {
    Polled(r.acked, r.attempts + attempts, r.bus)
  }

  /** The bus after `n` more SCL samples. */
  function Shifted(b: Bus, n: nat): Bus
  {
    b.(sclHeld := Drop(b.sclHeld, n))
  }

  /** One attempt of `i2c_start_wait` and what follows it, with `rest` attempts after it. */
  lemma StartWaitStep(p: Profile, b: Bus, addr: byte, rest: nat)
    requires ProfileOk(p) && (p.timeout || !b.drive.sclForced)
    ensures StartWaitSpec(p, b, addr, rest + 1) == Attempted(p, StartSpec(p, b, addr), addr, rest)
  {
  }

  /** An acknowledged attempt ends the poll. */
  lemma AttemptAcked(p: Profile, w: Written, addr: byte, rest: nat, attempts: nat)
    requires ProfileOk(p) && w.status.Acked?
    ensures Later(Attempted(p, w, addr, rest), attempts) == Polled(true, attempts + 1, w.bus)
  {
  }

  /** After an attempt that was not acknowledged the poll starts over from the STOP. */
  lemma AttemptFailed(p: Profile, w: Written, addr: byte, rest: nat, attempts: nat)
    requires ProfileOk(p) && !w.status.Acked?
    ensures Later(Attempted(p, w, addr, rest), attempts)
            == Later(StartWaitSpec(p, StopSpec(p, w.bus), addr, rest), attempts + 1)
  {
  }

  /** The `lsl r24` after frame bit `i`: it shifts out frame bit `next` into the carry and
      empties r24 exactly after the eighth data bit. */
  lemma ShiftStep(v: byte, i: nat, next: nat)
    requires i < 8 && next == i + 1
    ensures Transmit(v, next) == Transmit(v, i) << 1
    ensures Bit(Transmit(v, i), 7) == FrameBits(v)[next]
    ensures Transmit(v, next) == 0 <==> next == 8
  {
    TransmitShift(v, i);
    TransmitCarry(v, i);
    TransmitEmpty(v, next);
  }

  /** The samples of one pass of the outer loop continue those of the passes before it. */
  lemma AfterRound(b: Bus, k: nat, n: nat, released: bool) returns (k2: nat)
    requires 1 <= n
    requires forall i :: 0 <= i < k ==> SclLow(b, i)
    requires forall i :: 0 <= i < n - 1 ==> SclLow(Shifted(b, k), i)
    requires SclLow(Shifted(b, k), n - 1) <==> !released
    ensures k2 == k + n && Shifted(Shifted(b, k), n) == Shifted(b, k2)
    ensures forall i :: 0 <= i < k2 - 1 ==> SclLow(b, i)
    ensures SclLow(b, k2 - 1) <==> !released
    ensures !released ==> forall i :: 0 <= i < k2 ==> SclLow(b, i)
  {
    LowExtend(b, k, n - 1);
    DropDrop(b.sclHeld, k, n);
    DropHeld(b.sclHeld, k, n - 1);
    k2 := k + n;
  }

  /** Samples that read low before and after `k` earlier samples combine. */
  lemma LowExtend(b: Bus, k: nat, n: nat)
    requires forall i :: 0 <= i < k ==> SclLow(b, i)
    requires forall i :: 0 <= i < n ==> SclLow(Shifted(b, k), i)
    ensures forall i :: 0 <= i < k + n ==> SclLow(b, i)
  {
    forall i | k <= i < k + n
      ensures SclLow(b, i)
    {
      DropHeld(b.sclHeld, k, i - k);
      assert SclLow(Shifted(b, k), i - k);
    }
  }

  /** The first-release count is pinned down by the first sample that reads high. */
  lemma FirstReleaseAt(s: seq<bool>, n: nat)
    requires !Held(s, n) && forall i :: 0 <= i < n ==> Held(s, i)
    ensures FirstRelease(s) == n
  {
  }

  /** The wait ends normally at the `k`-th sample when that is the first one that reads high
      and, in the timeout variant, it comes within the budget. */
  lemma WaitReleased(p: Profile, b: Bus, k: nat)
    requires ProfileOk(p) && (p.timeout || !b.drive.sclForced)
    requires 1 <= k && (p.timeout ==> k <= Budget(p))
    requires !SclLow(b, k - 1) && forall i :: 0 <= i < k - 1 ==> SclLow(b, i)
    ensures Wait(p, b) == Waited(false, Shifted(b, k))
  {
    assert !b.drive.sclForced;
    forall i | 0 <= i < k - 1
      ensures Held(b.sclHeld, i)
    {
      assert SclLow(b, i);
    }
    FirstReleaseAt(b.sclHeld, k - 1);
  }

  /** The timeout wait gives up when every sample of the budget reads low. */
  lemma WaitExpired(p: Profile, b: Bus)
    requires ProfileOk(p) && p.timeout
    requires forall i :: 0 <= i < Budget(p) ==> SclLow(b, i)
    ensures Wait(p, b) == Waited(true, Shifted(b, Budget(p)))
  {
    if !b.drive.sclForced {
      assert !SclLow(b, FirstRelease(b.sclHeld));
    }
  }
}
