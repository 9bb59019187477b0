/** Properties of the bus routines, proved about their specifications: the waveform each one
    puts on the bus (clock pulses, START and STOP conditions), what it reports back, how it
    treats a slave that stretches the clock, and the values it transfers. */
module BusProperties {
  import opened ByteBits
  import opened I2cConfig
  import opened Protocol
  import opened ShiftRegisters
  import opened BusSpec

  // ---------------------------------------------------------------------------------------
  // Traces

  /** `r` is a later state of `b`: the trace only grew, the drive is the last snapshot written,
      and the output latches are untouched. */
  ghost predicate Extends(b: Bus, r: Bus)
  {
    && |b.trace| <= |r.trace|
    && r.trace[..|b.trace|] == b.trace
    && r.drive == Last(b.drive, r.trace[|b.trace|..])
    && r.sclLatch == b.sclLatch && r.sdaLatch == b.sdaLatch
  }

  /** The drive snapshots written between `b` and `r`. */
  ghost function Added(b: Bus, r: Bus): seq<Lines>
    requires |b.trace| <= |r.trace|
  {
    r.trace[|b.trace|..]
  }

  lemma Chain(a: Bus, m: Bus, c: Bus)
    requires Extends(a, m) && Extends(m, c)
    ensures Extends(a, c) && Added(a, c) == Added(a, m) + Added(m, c)
  {
    assert c.trace == a.trace + Added(a, m) + Added(m, c) by {
      assert c.trace == m.trace + Added(m, c);
      assert m.trace == a.trace + Added(a, m);
    }
    assert c.trace[..|a.trace|] == a.trace;
    assert Added(a, c) == Added(a, m) + Added(m, c);
    LastAppend(a.drive, Added(a, m), Added(m, c));
  }

  /** START and STOP conditions of two consecutive stretches of trace add up. */
  lemma Counts(a: Bus, m: Bus, c: Bus)
    requires Extends(a, m) && Extends(m, c)
    ensures Extends(a, c)
    ensures Starts(a.drive, Added(a, c)) == Starts(a.drive, Added(a, m)) + Starts(m.drive, Added(m, c))
    ensures Stops(a.drive, Added(a, c)) == Stops(a.drive, Added(a, m)) + Stops(m.drive, Added(m, c))
  {
    Chain(a, m, c);
    StartsAppend(a.drive, Added(a, m), Added(m, c));
    StopsAppend(a.drive, Added(a, m), Added(m, c));
  }

  lemma SameTrace(b: Bus, r: Bus)
    requires r.trace == b.trace && r.drive == b.drive
    requires r.sclLatch == b.sclLatch && r.sdaLatch == b.sdaLatch
    ensures Extends(b, r) && Added(b, r) == []
  {
    assert r.trace[..|b.trace|] == b.trace;
  }

  lemma Appended(b: Bus, r: Bus, t: seq<Lines>)
    requires r.trace == b.trace + t && r.drive == Last(b.drive, t)
    requires r.sclLatch == b.sclLatch && r.sdaLatch == b.sdaLatch
    ensures Extends(b, r) && Added(b, r) == t
  {
    assert r.trace[..|b.trace|] == b.trace;
  }

  lemma SetSclStep(b: Bus, forced: bool)
    ensures Extends(b, SetScl(b, forced))
    ensures Added(b, SetScl(b, forced)) == [Lines(forced, b.drive.sdaForced)]
  {
    var r := SetScl(b, forced);
    assert r.trace[..|b.trace|] == b.trace;
  }

  lemma SetSdaStep(b: Bus, forced: bool)
    ensures Extends(b, SetSda(b, forced))
    ensures Added(b, SetSda(b, forced)) == [Lines(b.drive.sclForced, forced)]
  {
    var r := SetSda(b, forced);
    assert r.trace[..|b.trace|] == b.trace;
  }

  /** The three snapshots of one clock pulse. */
  function PulseTrace(sda: bool, sdaForced: bool): seq<Lines>
  {
    [Lines(true, sda), Lines(true, sdaForced), Lines(false, sdaForced)]
  }

  lemma PulseStep(b: Bus, sdaForced: bool)
    ensures Extends(b, Pulse(b, sdaForced))
    ensures Added(b, Pulse(b, sdaForced)) == PulseTrace(b.drive.sdaForced, sdaForced)
  {
    var b1 := SetScl(b, true);
    var b2 := SetSda(b1, sdaForced);
    SetSclStep(b, true);
    SetSdaStep(b1, sdaForced);
    SetSclStep(b2, false);
    Chain(b, b1, b2);
    Chain(b, b2, Pulse(b, sdaForced));
  }

  /** One clock pulse presents one bit to the receiver, keeps SDA stable while SCL is high, and so
      is neither a START nor a STOP. */
  lemma PulseShape(prev: Lines, sdaForced: bool)
    ensures Pulses(prev, PulseTrace(prev.sdaForced, sdaForced)) == [!sdaForced]
    ensures DataStable(prev, PulseTrace(prev.sdaForced, sdaForced))
    ensures Last(prev, PulseTrace(prev.sdaForced, sdaForced)) == Lines(false, sdaForced)
  {
    var t := PulseTrace(prev.sdaForced, sdaForced);
    assert t[1..][1..][1..] == [];
  }

  lemma ClockStep(p: Profile, b: Bus)
    requires ProfileOk(p) && (p.timeout || !b.drive.sclForced)
    ensures Extends(b, Clock(p, b).bus) && Added(b, Clock(p, b).bus) == []
    ensures Clock(p, b).timedOut ==> p.timeout
  {
    SameTrace(b, Clock(p, b).bus);
  }

  // ---------------------------------------------------------------------------------------
  // Clock stretching

  /** The wait gives up exactly when SCL reads low `Budget(p)` times in a row; without a timeout it
      never gives up. When it ends normally it has consumed the samples up to the first one
      that reads high. */
  lemma WaitTimeout(p: Profile, b: Bus)
    requires ProfileOk(p) && (p.timeout || !b.drive.sclForced)
    ensures Wait(p, b).timedOut <==> p.timeout && forall i :: 0 <= i < Budget(p) ==> SclLow(b, i)
    ensures !Wait(p, b).timedOut ==>
      !b.drive.sclForced && Wait(p, b).bus.sclHeld == Drop(b.sclHeld, FirstRelease(b.sclHeld) + 1)
  {
    var n := FirstRelease(b.sclHeld);
    if p.timeout && !b.drive.sclForced && n < Budget(p) {
      assert !SclLow(b, n);
    }
  }

  /** With the sample taken before the call, a clock pulse times out exactly when SCL reads low
      `Budget(p) + 1` times in a row. */
  lemma ClockTimeout(p: Profile, b: Bus)
    requires ProfileOk(p) && (p.timeout || !b.drive.sclForced)
    ensures Clock(p, b).timedOut <==> p.timeout && forall i :: 0 <= i <= Budget(p) ==> SclLow(b, i)
  {
    var s := SampleScl(b);
    if !s.high {
      WaitTimeout(p, s.bus);
      assert forall i :: 0 <= i < Budget(p) ==> SclLow(s.bus, i) == SclLow(b, i + 1);
      if forall i :: 0 <= i < Budget(p) ==> SclLow(s.bus, i) {
        assert forall i :: 0 <= i <= Budget(p) ==> SclLow(b, i) by {
          forall i | 0 <= i <= Budget(p) ensures SclLow(b, i) {
            if i > 0 { assert SclLow(s.bus, i - 1); }
          }
        }
      }
    } else {
      assert !SclLow(b, 0);
    }
  }

  /** The SCL samples a clock wait takes: the one before the call, then those of the wait. */
  ghost function ClockSamples(p: Profile, b: Bus): nat
    requires ProfileOk(p) && (p.timeout || !b.drive.sclForced)
  {
    if !SclLow(b, 0) then 1
    else if Clock(p, b).timedOut then Budget(p) + 1
    else FirstRelease(SampleScl(b).bus.sclHeld) + 2
  }

  /** A clock wait that does not time out ends on a sample that reads SCL high, after samples
      that all read low; one that times out read SCL low at every sample. The edge that follows
      such a wait (the SDA fall of a START, the SDA rise before it in a STOP) therefore comes
      after SCL was seen high exactly when the wait did not time out. */
  lemma ClockEndsHigh(p: Profile, b: Bus)
    requires ProfileOk(p) && (p.timeout || !b.drive.sclForced)
    ensures var n := ClockSamples(p, b);
      && n >= 1 && Clock(p, b).bus.sclHeld == Drop(b.sclHeld, n)
      && (forall i :: 0 <= i < n - 1 ==> SclLow(b, i))
      && (Clock(p, b).timedOut <==> SclLow(b, n - 1))
  {
    if SclLow(b, 0) {
      if Clock(p, b).timedOut {
        ClockWaitedOut(p, b);
      } else {
        ClockWaitedHigh(p, b);
      }
    }
  }

  lemma SampledLow(b: Bus, i: nat)
    ensures SclLow(SampleScl(b).bus, i) == SclLow(b, i + 1)
  {
    DropHeld(b.sclHeld, 1, i);
  }

  lemma ClockWaitedOut(p: Profile, b: Bus)
    requires ProfileOk(p) && (p.timeout || !b.drive.sclForced)
    requires SclLow(b, 0) && Clock(p, b).timedOut
    ensures Clock(p, b).bus.sclHeld == Drop(b.sclHeld, Budget(p) + 1)
    ensures forall i :: 0 <= i <= Budget(p) ==> SclLow(b, i)
  {
    ClockTimeout(p, b);
    DropDrop(b.sclHeld, 1, Budget(p));
  }

  lemma ClockWaitedHigh(p: Profile, b: Bus)
    requires ProfileOk(p) && (p.timeout || !b.drive.sclForced)
    requires SclLow(b, 0) && !Clock(p, b).timedOut
    ensures var m := FirstRelease(SampleScl(b).bus.sclHeld);
      && Clock(p, b).bus.sclHeld == Drop(b.sclHeld, m + 2)
      && (forall i :: 0 <= i < m + 1 ==> SclLow(b, i))
      && !SclLow(b, m + 1)
  {
    var s := SampleScl(b).bus;
    var m := FirstRelease(s.sclHeld);
    WaitTimeout(p, s);
    DropDrop(b.sclHeld, 1, m + 1);
    forall i | 0 < i < m + 1 ensures SclLow(b, i) {
      SampledLow(b, i - 1);
    }
    SampledLow(b, m);
  }

  // ---------------------------------------------------------------------------------------
  // i2c_write

  /** The number of frame bits for which a write released SCL. */
  function Sent(s: Status): nat
  {
    if s.TimedOut? then s.clock + 1 else 9
  }

  /** A clock pulse followed by the clock-stretch check. */
  lemma PulseThenClock(p: Profile, b: Bus, f: bool)
    requires ProfileOk(p)
    ensures var c := Clock(p, Pulse(b, f));
      && Extends(b, c.bus) && Added(b, c.bus) == PulseTrace(b.drive.sdaForced, f)
      && c.bus.sdaHeld == b.sdaHeld
      && (c.timedOut ==> p.timeout)
  {
    var b1 := Pulse(b, f);
    PulseStep(b, f);
    ClockStep(p, b1);
    Chain(b, b1, Clock(p, b1).bus);
  }

  /** SCL forced low after a pulse: the pulse's bit is all the receiver saw. */
  lemma PulseClosed(b: Bus, pre: Bus, f: bool)
    requires Extends(b, pre) && Added(b, pre) == PulseTrace(b.drive.sdaForced, f)
    ensures var r := SetScl(pre, true);
      && Extends(b, r) && r.drive.sclForced
      && Pulses(b.drive, Added(b, r)) == [!f]
      && DataStable(b.drive, Added(b, r))
  {
    var r := SetScl(pre, true);
    var head := Added(b, pre);
    PulseShape(b.drive, f);
    SetSclStep(pre, true);
    Chain(b, pre, r);
    var tail := [Lines(true, f)];
    assert Added(b, r) == head + tail;
    PulsesAppend(b.drive, head, tail);
    DataStableAppend(b.drive, head, tail);
  }

  /** The acknowledge phase of a write. */
  lemma GetAckTrace(p: Profile, b: Bus)
    requires ProfileOk(p)
    ensures var w := GetAck(p, b);
      && Extends(b, w.bus) && w.bus.drive.sclForced
      && (w.status.TimedOut? ==> p.timeout && w.status.clock == 8)
      && Pulses(b.drive, Added(b, w.bus)) == [true]
      && DataStable(b.drive, Added(b, w.bus))
  {
    var c := Clock(p, Pulse(b, false));
    PulseThenClock(p, b, false);
    if c.timedOut {
      PulseClosed(b, c.bus, false);
    } else {
      var s := SampleSda(c.bus).bus;
      SameTrace(c.bus, s);
      Chain(b, c.bus, s);
      PulseClosed(b, s, false);
    }
  }

  /** What a write from bit `i` on adds to the trace, given where it started and how it ended. */
  ghost predicate SendShape(p: Profile, b: Bus, v: byte, i: nat, w: Written)
    requires i <= 8
  {
    && Extends(b, w.bus) && w.bus.drive.sclForced
    && (w.status.TimedOut? ==> p.timeout && i <= w.status.clock <= 8)
    && Pulses(b.drive, Added(b, w.bus)) == FrameBits(v)[i..Sent(w.status)]
    && DataStable(b.drive, Added(b, w.bus))
  }

  /** One data bit sent without a timeout, followed by the rest of the write. */
  lemma SendStep(p: Profile, b: Bus, v: byte, i: nat, c: Bus, w: Written)
    requires ProfileOk(p) && i < 8
    requires Extends(b, c) && Added(b, c) == PulseTrace(b.drive.sdaForced, !Bits(v)[i])
    requires SendShape(p, c, v, i + 1, w)
    ensures SendShape(p, b, v, i, w)
  {
    var f := !Bits(v)[i];
    var head := Added(b, c);
    PulseShape(b.drive, f);
    Chain(b, c, w.bus);
    PulsesAppend(b.drive, head, Added(c, w.bus));
    DataStableAppend(b.drive, head, Added(c, w.bus));
    assert FrameBits(v)[i..Sent(w.status)] == [!f] + FrameBits(v)[i + 1..Sent(w.status)];
  }

  /** The write loop from bit `i` on: what it adds to the trace and what it reports. */
  lemma {:induction false} SendFromTrace(p: Profile, b: Bus, v: byte, i: nat)
    requires ProfileOk(p) && i <= 8
    ensures SendShape(p, b, v, i, SendFrom(p, b, v, i))
    decreases 8 - i
  {
    if i == 8 {
      AckShape(p, b, v);
    } else if Clock(p, Pulse(b, !Bits(v)[i])).timedOut {
      BitTimeoutShape(p, b, v, i);
    } else {
      var c := Clock(p, Pulse(b, !Bits(v)[i]));
      SendFromTrace(p, c.bus, v, i + 1);
      BitSentShape(p, b, v, i);
    }
  }

  lemma AckShape(p: Profile, b: Bus, v: byte)
    requires ProfileOk(p)
    ensures SendShape(p, b, v, 8, SendFrom(p, b, v, 8))
  {
    GetAckTrace(p, b);
    assert FrameBits(v)[8..9] == [true];
  }

  lemma BitTimeoutShape(p: Profile, b: Bus, v: byte, i: nat)
    requires ProfileOk(p) && i < 8
    requires Clock(p, Pulse(b, !Bits(v)[i])).timedOut
    ensures SendShape(p, b, v, i, SendFrom(p, b, v, i))
  {
    var f := !Bits(v)[i];
    var c := Clock(p, Pulse(b, f));
    PulseThenClock(p, b, f);
    PulseClosed(b, c.bus, f);
    assert FrameBits(v)[i..i + 1] == [!f];
  }

  lemma BitSentShape(p: Profile, b: Bus, v: byte, i: nat)
    requires ProfileOk(p) && i < 8
    requires var c := Clock(p, Pulse(b, !Bits(v)[i]));
      !c.timedOut && SendShape(p, c.bus, v, i + 1, SendFrom(p, c.bus, v, i + 1))
    ensures SendShape(p, b, v, i, SendFrom(p, b, v, i))
  {
    var f := !Bits(v)[i];
    var c := Clock(p, Pulse(b, f));
    PulseThenClock(p, b, f);
    SendStep(p, b, v, i, c.bus, SendFrom(p, c.bus, v, i + 1));
  }

  /** The write reads SDA once, in the acknowledge clock, and only if that clock did not time out;
      the receiver acknowledged exactly when it held SDA low then. Interrupts are untouched. */
  lemma {:induction false} SendFromAck(p: Profile, b: Bus, v: byte, i: nat)
    requires ProfileOk(p) && i <= 8
    ensures var w := SendFrom(p, b, v, i);
      && w.bus.irqEnabled == b.irqEnabled
      && (w.status.TimedOut? ==> w.bus.sdaHeld == b.sdaHeld)
      && (!w.status.TimedOut? ==>
            w.bus.sdaHeld == Drop(b.sdaHeld, 1) && (w.status.Acked? <==> Held(b.sdaHeld, 0)))
    decreases 8 - i
  {
    if i < 8 {
      var c := Clock(p, Pulse(b, !Bits(v)[i]));
      if !c.timedOut {
        SendFromAck(p, c.bus, v, i + 1);
      }
    }
  }

  /** `i2c_write(v)` from any state: the receiver is offered the 8 bits of `v`, most significant
      first, and then a released acknowledge slot, one bit per clock pulse, up to the pulse in
      which a clock-stretch timeout occurred; SDA changes only while SCL is low, so the write
      contains no START or STOP; SCL is left forced low. Without a timeout configured the write
      never times out. */
  lemma WriteWaveform(p: Profile, b: Bus, v: byte)
    requires ProfileOk(p)
    ensures var w := WriteSpec(p, b, v);
      && Extends(b, w.bus) && w.bus.drive.sclForced
      && (w.status.TimedOut? ==> p.timeout && w.status.clock <= 8)
      && Pulses(b.drive, Added(b, w.bus)) == FrameBits(v)[..Sent(w.status)]
      && DataStable(b.drive, Added(b, w.bus))
      && Starts(b.drive, Added(b, w.bus)) == 0 && Stops(b.drive, Added(b, w.bus)) == 0
  {
    var w := WriteSpec(p, b, v);
    SendFromTrace(p, b, v, 0);
    StableHasNoConditions(b.drive, Added(b, w.bus));
  }

  /** A write that did not time out delivers `v`: a receiver shifting in the SDA level at each of
      the first 8 clock pulses assembles exactly `v`. */
  lemma WriteDelivers(p: Profile, b: Bus, v: byte)
    requires ProfileOk(p)
    requires !WriteSpec(p, b, v).status.TimedOut?
    ensures var w := WriteSpec(p, b, v);
      && Extends(b, w.bus) && |Pulses(b.drive, Added(b, w.bus))| == 9
      && Pack(Pulses(b.drive, Added(b, w.bus))[..8]) == v
  {
    WriteWaveform(p, b, v);
    assert FrameBits(v)[..9] == FrameBits(v);
    BitsRoundTrip(v);
  }

  /** What `i2c_write` returns: true exactly for an acknowledge, which is the receiver holding SDA
      low at the one SDA sample; after a timeout the SDA oracle is untouched. */
  lemma WriteAck(p: Profile, b: Bus, v: byte)
    requires ProfileOk(p)
    ensures var w := WriteSpec(p, b, v);
      && w.bus.irqEnabled == b.irqEnabled
      && (w.status.TimedOut? ==> w.bus.sdaHeld == b.sdaHeld)
      && (!w.status.TimedOut? ==>
            w.bus.sdaHeld == Drop(b.sdaHeld, 1) && (w.status.Acked? <==> Held(b.sdaHeld, 0)))
  {
    SendFromAck(p, b, v, 0);
  }

  /** A slave that holds SCL low for longer than the polling budget makes the write give up in
      the first clock pulse; the clock-stretch check then used exactly `Budget(p) + 1` samples. */
  lemma WriteStuckClock(p: Profile, b: Bus, v: byte)
    requires ProfileOk(p) && p.timeout
    requires forall i :: 0 <= i <= Budget(p) ==> Held(b.sclHeld, i)
    ensures WriteSpec(p, b, v).status == TimedOut(0)
    ensures WriteSpec(p, b, v).bus.sclHeld == Drop(b.sclHeld, Budget(p) + 1)
  {
    var b1 := Pulse(b, !Bits(v)[0]);
    assert forall i :: 0 <= i <= Budget(p) ==> SclLow(b1, i);
    ClockTimeout(p, b1);
    DropDrop(b.sclHeld, 1, Budget(p));
  }

  lemma DropDrop(s: seq<bool>, m: nat, n: nat)
    ensures Drop(Drop(s, m), n) == Drop(s, m + n)
  {
  }

  // ---------------------------------------------------------------------------------------
  // i2c_read

  /** `n` released bits. */
  function Ones(n: nat): (s: seq<bool>)
    ensures |s| == n && forall i :: 0 <= i < n ==> s[i]
  {
    seq(n, i => true)
  }

  /** The SDA levels a slave presents at its next `n` samples while the master releases SDA. */
  function Levels(sda: seq<bool>, n: nat): (s: seq<bool>)
    ensures |s| == n && forall i :: 0 <= i < n ==> s[i] == !Held(sda, i)
  {
    seq(n, i requires 0 <= i => !Held(sda, i))
  }

  /** What a read from bit `|got|` on adds to the trace. */
  ghost predicate ReceiveShape(p: Profile, b: Bus, got: seq<bool>, last: bool, r: Received)
  {
    && Extends(b, r.bus) && r.bus.drive.sclForced
    && |got| <= |r.bits| <= 8
    && (r.timedOut ==>
          p.timeout && |r.bits| < 8 && Pulses(b.drive, Added(b, r.bus)) == Ones(|r.bits| - |got| + 1))
    && (!r.timedOut ==>
          |r.bits| == 8 && Pulses(b.drive, Added(b, r.bus)) == Ones(8 - |got|) + [last])
    && DataStable(b.drive, Added(b, r.bus))
  }

  /** The acknowledge clock of a read. */
  lemma PutAckTrace(p: Profile, b: Bus, last: bool, got: seq<bool>)
    requires ProfileOk(p) && |got| == 8
    ensures ReceiveShape(p, b, got, last, PutAck(p, b, last, got))
  {
    var c := Clock(p, Pulse(b, !last));
    PulseThenClock(p, b, !last);
    PulseClosed(b, c.bus, !last);
    assert Ones(0) + [last] == [!!last];
  }

  /** One bit received without a timeout, followed by the rest of the read. */
  lemma ReceiveStep(p: Profile, b: Bus, got: seq<bool>, bit: bool, last: bool, c: Bus, r: Received)
    requires ProfileOk(p) && |got| < 8
    requires Extends(b, c) && Added(b, c) == PulseTrace(b.drive.sdaForced, false)
    requires ReceiveShape(p, c, got + [bit], last, r)
    ensures ReceiveShape(p, b, got, last, r)
  {
    var head := Added(b, c);
    PulseShape(b.drive, false);
    Chain(b, c, r.bus);
    PulsesAppend(b.drive, head, Added(c, r.bus));
    DataStableAppend(b.drive, head, Added(c, r.bus));
    if r.timedOut {
      assert [true] + Ones(|r.bits| - |got| - 1 + 1) == Ones(|r.bits| - |got| + 1);
    } else {
      assert [true] + (Ones(8 - |got| - 1) + [last]) == Ones(8 - |got|) + [last];
    }
  }

  /** The read loop from bit `|got|` on: the waveform. */
  lemma {:induction false} ReceiveFromTrace(p: Profile, b: Bus, got: seq<bool>, last: bool)
    requires ProfileOk(p) && |got| <= 8
    ensures ReceiveShape(p, b, got, last, ReceiveFrom(p, b, got, last))
    decreases 8 - |got|
  {
    if |got| == 8 {
      PutAckTrace(p, b, last, got);
    } else {
      var c := Clock(p, Pulse(b, false));
      PulseThenClock(p, b, false);
      if c.timedOut {
        PulseClosed(b, c.bus, false);
      } else {
        var s := SampleSda(c.bus);
        SameTrace(c.bus, s.bus);
        Chain(b, c.bus, s.bus);
        ReceiveFromTrace(p, s.bus, got + [s.high], last);
        ReceiveStep(p, b, got, s.high, last, s.bus, ReceiveFrom(p, s.bus, got + [s.high], last));
      }
    }
  }

  /** The bits a read from bit `|got|` on shifts in are the levels the slave presents, one SDA
      sample per bit, and r23 holds them. Interrupts are untouched. */
  ghost predicate ReceiveData(b: Bus, got: seq<bool>, r: Received)
  {
    && |got| <= |r.bits| <= 8
    && r.bits == got + Levels(b.sdaHeld, |r.bits| - |got|)
    && r.bus.sdaHeld == Drop(b.sdaHeld, |r.bits| - |got|)
    && r.bus.irqEnabled == b.irqEnabled
  }

  /** The value returned is r23 after the bits shifted in. */
  lemma {:induction false} ReceiveFromValue(p: Profile, b: Bus, got: seq<bool>, last: bool)
    requires ProfileOk(p) && |got| <= 8
    ensures var r := ReceiveFrom(p, b, got, last); |r.bits| <= 8 && r.value == Receive(r.bits)
    decreases 8 - |got|
  {
    if |got| < 8 {
      var c := Clock(p, Pulse(b, false));
      if !c.timedOut {
        var s := SampleSda(c.bus);
        ReceiveFromValue(p, s.bus, got + [s.high], last);
      }
    }
  }

  lemma ReceiveDataStep(b: Bus, got: seq<bool>, c: Bus, r: Received)
    requires |got| < 8
    requires c.sdaHeld == Drop(b.sdaHeld, 1) && c.irqEnabled == b.irqEnabled
    requires ReceiveData(c, got + [!Held(b.sdaHeld, 0)], r)
    ensures ReceiveData(b, got, r)
  {
    var k := |r.bits| - |got|;
    var x := !Held(b.sdaHeld, 0);
    var rest := Levels(c.sdaHeld, k - 1);
    assert r.bus.sdaHeld == Drop(b.sdaHeld, k) by {
      DropDrop(b.sdaHeld, 1, k - 1);
    }
    assert r.bits == got + Levels(b.sdaHeld, k) by {
      assert r.bits == (got + [x]) + rest;
      LevelsCons(b.sdaHeld, k);
      assert (got + [x]) + rest == got + ([x] + rest);
    }
  }

  lemma LevelsCons(s: seq<bool>, k: nat)
    requires k >= 1
    ensures Levels(s, k) == [!Held(s, 0)] + Levels(Drop(s, 1), k - 1)
  {
    var t := Drop(s, 1);
    assert forall i :: 1 <= i < k ==> Held(t, i - 1) == Held(s, i);
  }

  lemma {:induction false} ReceiveFromData(p: Profile, b: Bus, got: seq<bool>, last: bool)
    requires ProfileOk(p) && |got| <= 8
    ensures ReceiveData(b, got, ReceiveFrom(p, b, got, last))
    decreases 8 - |got|
  {
    var r := ReceiveFrom(p, b, got, last);
    if |got| < 8 {
      var c := Clock(p, Pulse(b, false));
      if !c.timedOut {
        var s := SampleSda(c.bus);
        ReceiveFromData(p, s.bus, got + [s.high], last);
        ReceiveDataStep(b, got, s.bus, r);
      } else {
        assert r.bits == got + Levels(b.sdaHeld, 0);
      }
    } else {
      assert r.bits == got + Levels(b.sdaHeld, 0);
    }
  }

  /** `i2c_read(last)` from any state: one clock pulse per bit with SDA released, then an
      acknowledge clock with SDA forced low (ACK) unless `last`; after a clock-stretch timeout in
      a bit clock the read stops without the acknowledge clock. SDA changes only while SCL is
      low, and SCL is left forced low. Without a timeout configured the read completes. */
  lemma ReadWaveform(p: Profile, b: Bus, last: bool)
    requires ProfileOk(p)
    ensures var r := ReadSpec(p, b, last);
      && Extends(b, r.bus) && r.bus.drive.sclForced
      && (r.timedOut ==>
            p.timeout && |r.bits| < 8 && Pulses(b.drive, Added(b, r.bus)) == Ones(|r.bits| + 1))
      && (!r.timedOut ==> Pulses(b.drive, Added(b, r.bus)) == Ones(8) + [last])
      && DataStable(b.drive, Added(b, r.bus))
      && Starts(b.drive, Added(b, r.bus)) == 0 && Stops(b.drive, Added(b, r.bus)) == 0
  {
    var r := ReadSpec(p, b, last);
    ReceiveFromTrace(p, b, [], last);
    StableHasNoConditions(b.drive, Added(b, r.bus));
  }

  /** What `i2c_read` returns: after 8 bits, the byte the slave presented, most significant bit
      first; after a timeout in bit clock `k`, the `k` bits that did arrive below the planted 1
      of the receive register. */
  lemma ReadValue(p: Profile, b: Bus, last: bool)
    requires ProfileOk(p)
    ensures var r := ReadSpec(p, b, last);
      && |r.bits| <= 8 && r.bits == Levels(b.sdaHeld, |r.bits|)
      && r.bus.sdaHeld == Drop(b.sdaHeld, |r.bits|)
      && r.bus.irqEnabled == b.irqEnabled
      && (!r.timedOut ==> |r.bits| == 8 && r.value == Pack(Levels(b.sdaHeld, 8)))
      && (r.timedOut ==> |r.bits| < 8 && r.value == Pack([true] + r.bits))
  {
    var r := ReadSpec(p, b, last);
    assert |r.bits| <= 8 && r.bits == Levels(b.sdaHeld, |r.bits|)
        && r.bus.sdaHeld == Drop(b.sdaHeld, |r.bits|) && r.bus.irqEnabled == b.irqEnabled by {
      ReceiveFromData(p, b, [], last);
      assert [] + Levels(b.sdaHeld, |r.bits|) == Levels(b.sdaHeld, |r.bits|);
    }
    assert (r.timedOut ==> |r.bits| < 8) && (!r.timedOut ==> |r.bits| == 8) by {
      ReceiveFromTrace(p, b, [], last);
    }
    assert r.value == Receive(r.bits) by { ReceiveFromValue(p, b, [], last); }
    if r.timedOut {
      ReceivePartial(r.bits);
    } else {
      ReceiveFull(r.bits);
    }
  }

  /** Round trip with a slave transmitter: when the slave presents the bits of `v` on SDA, a read
      that completes returns `v`. */
  lemma ReadReturnsSentByte(p: Profile, b: Bus, last: bool, v: byte)
    requires ProfileOk(p)
    requires forall i :: 0 <= i < 8 ==> Held(b.sdaHeld, i) == !Bits(v)[i]
    ensures !ReadSpec(p, b, last).timedOut ==> ReadSpec(p, b, last).value == v
  {
    if !ReadSpec(p, b, last).timedOut {
      ReadValue(p, b, last);
      assert Levels(b.sdaHeld, 8) == Bits(v);
      BitsRoundTrip(v);
    }
  }

  // ---------------------------------------------------------------------------------------
  // i2c_init

  /** `i2c_init` releases SDA, then SCL, clears both output latches (so that a set
      data-direction bit pulls its line low), and reports true exactly when neither line is
      held low by another device: SDA is sampled first, and SCL only if SDA reads high. */
  lemma InitReleasesBus(b: Bus)
    ensures var r := InitSpec(b);
      && r.bus.drive == Idle && !r.bus.sclLatch && !r.bus.sdaLatch
      && r.bus.trace == b.trace + [Lines(b.drive.sclForced, false), Idle]
      && r.bus.irqEnabled == b.irqEnabled
      && (r.ok <==> !Held(b.sdaHeld, 0) && !Held(b.sclHeld, 0))
      && r.bus.sdaHeld == Drop(b.sdaHeld, 1)
      && r.bus.sclHeld == (if Held(b.sdaHeld, 0) then b.sclHeld else Drop(b.sclHeld, 1))
  {
  }

  // ---------------------------------------------------------------------------------------
  // i2c_start, i2c_rep_start, i2c_stop

  /** A condition-free byte transfer after a prefix: the counts and pulses of the whole. */
  lemma PrefixThenWrite(b: Bus, m: Bus, w: Bus)
    requires Extends(b, m) && Extends(m, w)
    requires DataStable(m.drive, Added(m, w))
    ensures Extends(b, w)
    ensures Starts(b.drive, Added(b, w)) == Starts(b.drive, Added(b, m))
    ensures Stops(b.drive, Added(b, w)) == Stops(b.drive, Added(b, m))
    ensures Pulses(b.drive, Added(b, w)) == Pulses(b.drive, Added(b, m)) + Pulses(m.drive, Added(m, w))
  {
    Chain(b, m, w);
    StableHasNoConditions(m.drive, Added(m, w));
    StartsAppend(b.drive, Added(b, m), Added(m, w));
    StopsAppend(b.drive, Added(b, m), Added(m, w));
    PulsesAppend(b.drive, Added(b, m), Added(m, w));
  }

  /** The part of `i2c_start` before the address byte. */
  lemma StartPrefix(p: Profile, b: Bus)
    requires ProfileOk(p) && (p.timeout || !b.drive.sclForced)
    ensures var m := SetSda(Clock(p, MaskIrq(p, b)).bus, true);
      && Extends(b, m) && Added(b, m) == [Lines(b.drive.sclForced, true)]
      && m.sdaHeld == b.sdaHeld
      && m.irqEnabled == (if p.noInterrupt then false else b.irqEnabled)
  {
    var c := Clock(p, MaskIrq(p, b));
    ClockStep(p, MaskIrq(p, b));
    SameTrace(b, MaskIrq(p, b));
    Chain(b, MaskIrq(p, b), c.bus);
    SetSdaStep(c.bus, true);
    Chain(b, c.bus, SetSda(c.bus, true));
  }

  /** `i2c_start(addr)` on a free bus: exactly one START condition, as the first step (SDA pulled
      low while SCL is released), then the address byte with no further START or STOP; the
      result is the address's acknowledge; interrupts are masked if so configured. */
  lemma StartCondition(p: Profile, b: Bus, addr: byte)
    requires ProfileOk(p) && b.drive == Idle
    ensures var w := StartSpec(p, b, addr);
      && Extends(b, w.bus) && w.bus.drive.sclForced
      && |Added(b, w.bus)| > 0 && IsStart(b.drive, Added(b, w.bus)[0])
      && Starts(b.drive, Added(b, w.bus)) == 1 && Stops(b.drive, Added(b, w.bus)) == 0
      && (w.status.TimedOut? ==> p.timeout && w.status.clock <= 8)
      && Pulses(b.drive, Added(b, w.bus)) == FrameBits(addr)[..Sent(w.status)]
      && (!w.status.TimedOut? ==> (w.status.Acked? <==> Held(b.sdaHeld, 0)))
      && w.bus.irqEnabled == (if p.noInterrupt then false else b.irqEnabled)
  {
    var m := SetSda(Clock(p, MaskIrq(p, b)).bus, true);
    var w := WriteSpec(p, m, addr);
    assert StartSpec(p, b, addr) == w;
    assert Extends(b, m) && Added(b, m) == [Lines(false, true)] && m.sdaHeld == b.sdaHeld
        && m.irqEnabled == (if p.noInterrupt then false else b.irqEnabled) by {
      StartPrefix(p, b);
    }
    assert SendShape(p, m, addr, 0, w) && w.bus.irqEnabled == m.irqEnabled
        && (!w.status.TimedOut? ==> (w.status.Acked? <==> Held(m.sdaHeld, 0))) by {
      WriteFacts(p, m, addr);
    }
    StartThenWrite(p, b, m, addr, w);
  }

  /** A START as the one step before a byte transfer. */
  lemma StartThenWrite(p: Profile, b: Bus, m: Bus, addr: byte, w: Written)
    requires b.drive == Idle && Extends(b, m) && Added(b, m) == [Lines(false, true)]
    requires SendShape(p, m, addr, 0, w)
    ensures && Extends(b, w.bus)
      && |Added(b, w.bus)| > 0 && IsStart(b.drive, Added(b, w.bus)[0])
      && Starts(b.drive, Added(b, w.bus)) == 1 && Stops(b.drive, Added(b, w.bus)) == 0
      && Pulses(b.drive, Added(b, w.bus)) == FrameBits(addr)[..Sent(w.status)]
  {
    var x := Lines(false, true);
    PrefixThenWrite(b, m, w.bus);
    assert Starts(b.drive, [x]) == 1 && Stops(b.drive, [x]) == 0 && Pulses(b.drive, [x]) == [];
    assert Added(b, w.bus)[0] == x by { Chain(b, m, w.bus); }
  }

  /** The facts about a write that the routines built on it use. */
  lemma WriteFacts(p: Profile, m: Bus, addr: byte)
    requires ProfileOk(p)
    ensures var w := WriteSpec(p, m, addr);
      && SendShape(p, m, addr, 0, w)
      && w.bus.irqEnabled == m.irqEnabled
      && (!w.status.TimedOut? ==> (w.status.Acked? <==> Held(m.sdaHeld, 0)))
  {
    SendFromTrace(p, m, addr, 0);
    WriteAck(p, m, addr);
  }

  /** The four steps of `i2c_rep_start` before the START itself and the START. */
  function RepStartTrace(sda: bool): seq<Lines>
  {
    [Lines(true, sda), Lines(true, false), Lines(false, false), Lines(false, true)]
  }

  lemma RepStartShape(prev: Lines)
    ensures Starts(prev, RepStartTrace(prev.sdaForced)) == 1
    ensures Stops(prev, RepStartTrace(prev.sdaForced)) == 0
    ensures Pulses(prev, RepStartTrace(prev.sdaForced)) == [true]
    ensures IsStart(Lines(false, false), Lines(false, true))
  {
    var t := RepStartTrace(prev.sdaForced);
    assert t[1..][1..][1..][1..] == [];
  }

  /** The part of `i2c_rep_start` before the address byte. */
  lemma RepStartPrefix(p: Profile, b: Bus)
    requires ProfileOk(p)
    ensures var b1 := SetScl(SetSda(SetScl(MaskIrq(p, b), true), false), false);
      var m := SetSda(Clock(p, b1).bus, true);
      && Extends(b, m) && Added(b, m) == RepStartTrace(b.drive.sdaForced)
      && m.sdaHeld == b.sdaHeld
      && m.irqEnabled == (if p.noInterrupt then false else b.irqEnabled)
  {
    var b1 := SetScl(SetSda(SetScl(MaskIrq(p, b), true), false), false);
    var m := SetSda(Clock(p, b1).bus, true);
    var t := RepStartTrace(b.drive.sdaForced);
    assert m.trace == b.trace + t;
    Appended(b, m, t);
  }

  /** `i2c_rep_start(addr)` from any state: one clock pulse with SDA released, exactly one START
      condition and no STOP, then the address byte; the result is the address's acknowledge. */
  lemma RepeatedStartCondition(p: Profile, b: Bus, addr: byte)
    requires ProfileOk(p)
    ensures var w := RepStartSpec(p, b, addr);
      && Extends(b, w.bus)
      && Starts(b.drive, Added(b, w.bus)) == 1 && Stops(b.drive, Added(b, w.bus)) == 0
      && (w.status.TimedOut? ==> p.timeout && w.status.clock <= 8)
      && Pulses(b.drive, Added(b, w.bus)) == [true] + FrameBits(addr)[..Sent(w.status)]
      && (!w.status.TimedOut? ==> (w.status.Acked? <==> Held(b.sdaHeld, 0)))
      && w.bus.irqEnabled == (if p.noInterrupt then false else b.irqEnabled)
  {
    var b1 := SetScl(SetSda(SetScl(MaskIrq(p, b), true), false), false);
    var m := SetSda(Clock(p, b1).bus, true);
    var w := RepStartSpec(p, b, addr);
    var t := RepStartTrace(b.drive.sdaForced);
    assert Extends(b, m) && Added(b, m) == t && m.sdaHeld == b.sdaHeld
        && m.irqEnabled == (if p.noInterrupt then false else b.irqEnabled) by {
      RepStartPrefix(p, b);
    }
    RepStartShape(b.drive);
    WriteFacts(p, m, addr);
    PrefixThenWrite(b, m, w.bus);
  }

  /** The steps of `i2c_stop`: SCL low, SDA low, SCL released, SDA released. */
  function StopTrace(sda: bool): seq<Lines>
  {
    [Lines(true, sda), Lines(true, true), Lines(false, true), Lines(false, false)]
  }

  lemma StopShape(prev: Lines)
    ensures Stops(prev, StopTrace(prev.sdaForced)) == 1
    ensures Starts(prev, StopTrace(prev.sdaForced)) == 0
  {
    var t := StopTrace(prev.sdaForced);
    assert t[1..][1..][1..][1..] == [];
    assert IsStop(t[2], t[3]);
  }

  /** `i2c_stop` from any state: exactly one STOP condition (SDA released while SCL is released)
      and no START, whether or not the clock-stretch wait timed out; both lines end released.
      With interrupts masked during transfers it enables them, whatever they were before. */
  lemma StopCondition(p: Profile, b: Bus)
    requires ProfileOk(p)
    ensures var r := StopSpec(p, b);
      && Extends(b, r) && Added(b, r) == StopTrace(b.drive.sdaForced) && r.drive == Idle
      && Stops(b.drive, Added(b, r)) == 1 && Starts(b.drive, Added(b, r)) == 0
      && r.sdaHeld == b.sdaHeld
      && r.irqEnabled == (if p.noInterrupt then true else b.irqEnabled)
  {
    var r := StopSpec(p, b);
    var t := StopTrace(b.drive.sdaForced);
    assert r.trace == b.trace + t;
    Appended(b, r, t);
    StopShape(b.drive);
  }

  /** With interrupts masked during transfers, a transfer begun with interrupts disabled ends
      with them enabled: `i2c_stop` does not restore the state `i2c_start` found. */
  lemma StopEnablesInterrupts(p: Profile, b: Bus, addr: byte)
    requires ProfileOk(p) && p.noInterrupt && !b.irqEnabled && b.drive == Idle
    ensures StopSpec(p, StartSpec(p, b, addr).bus).irqEnabled
  {
  }

  // ---------------------------------------------------------------------------------------
  // i2c_start_wait

  /** What `i2c_start_wait` leaves after `fuel` attempts at most, as seen from where it began. */
  ghost predicate PollShape(b: Bus, r: Polled, fuel: nat)
  {
    && Extends(b, r.bus)
    && r.attempts <= fuel && (r.acked || r.attempts == fuel)
    && (r.acked ==> r.attempts >= 1 && r.bus.drive.sclForced)
    && (!r.acked ==> r.bus.drive == Idle)
    && Starts(b.drive, Added(b, r.bus)) == r.attempts
    && Stops(b.drive, Added(b, r.bus)) == r.attempts - (if r.acked then 1 else 0)
  }

  /** `i2c_start_wait(addr)` on a free bus, given `fuel` attempts, counted over the whole call:
      one START per attempt and one STOP per attempt that was not acknowledged; it goes on until
      the device acknowledges or the attempts run out, and an acknowledged call leaves the bus
      claimed (SCL forced low) while an unacknowledged one leaves it free. What each attempt
      sends, one by one, is `StartWaitAttempts`. */
  lemma {:induction false} StartWaitPolls(p: Profile, b: Bus, addr: byte, fuel: nat)
    requires ProfileOk(p) && b.drive == Idle
    ensures PollShape(b, StartWaitSpec(p, b, addr, fuel), fuel)
    decreases fuel
  {
    if fuel == 0 {
      SameTrace(b, b);
    } else {
      var w := StartSpec(p, b, addr);
      var rest: nat :| rest + 1 == fuel;
      if !w.status.Acked? {
        FailedAttempt(p, b, addr);
        StartWaitPolls(p, StopSpec(p, w.bus), addr, rest);
      }
      PollStep(p, b, addr, rest, fuel);
    }
  }

  /** One attempt of `i2c_start_wait`, given what the `rest` attempts after it do. */
  lemma PollStep(p: Profile, b: Bus, addr: byte, rest: nat, fuel: nat)
    requires ProfileOk(p) && b.drive == Idle && fuel == rest + 1
    requires var w := StartSpec(p, b, addr);
      !w.status.Acked? ==>
        var s := StopSpec(p, w.bus);
        PollShape(s, StartWaitSpec(p, s, addr, rest), rest)
    ensures PollShape(b, StartWaitSpec(p, b, addr, fuel), fuel)
  {
    if StartSpec(p, b, addr).status.Acked? {
      FirstAttemptAcked(p, b, addr, fuel);
    } else {
      FailedAttempt(p, b, addr);
      Retry(p, b, addr, rest, fuel);
    }
  }

  lemma FirstAttemptAcked(p: Profile, b: Bus, addr: byte, fuel: nat)
    requires ProfileOk(p) && b.drive == Idle && fuel > 0
    requires StartSpec(p, b, addr).status.Acked?
    ensures PollShape(b, StartWaitSpec(p, b, addr, fuel), fuel)
  {
    StartCondition(p, b, addr);
  }

  /** An attempt that was not acknowledged, and its STOP. */
  lemma FailedAttempt(p: Profile, b: Bus, addr: byte)
    requires ProfileOk(p) && b.drive == Idle
    ensures var s := StopSpec(p, StartSpec(p, b, addr).bus);
      && Extends(b, s) && s.drive == Idle
      && Starts(b.drive, Added(b, s)) == 1 && Stops(b.drive, Added(b, s)) == 1
  {
    var w := StartSpec(p, b, addr);
    assert Extends(b, w.bus)
        && Starts(b.drive, Added(b, w.bus)) == 1 && Stops(b.drive, Added(b, w.bus)) == 0 by {
      StartCondition(p, b, addr);
    }
    StopCondition(p, w.bus);
    Counts(b, w.bus, StopSpec(p, w.bus));
  }

  lemma Retry(p: Profile, b: Bus, addr: byte, rest: nat, fuel: nat)
    requires ProfileOk(p) && b.drive == Idle && fuel == rest + 1
    requires !StartSpec(p, b, addr).status.Acked?
    requires var s := StopSpec(p, StartSpec(p, b, addr).bus);
      && Extends(b, s) && s.drive == Idle
      && Starts(b.drive, Added(b, s)) == 1 && Stops(b.drive, Added(b, s)) == 1
      && PollShape(s, StartWaitSpec(p, s, addr, rest), rest)
    ensures PollShape(b, StartWaitSpec(p, b, addr, fuel), fuel)
  {
    var s := StopSpec(p, StartSpec(p, b, addr).bus);
    var r := StartWaitSpec(p, s, addr, rest);
    assert StartWaitSpec(p, b, addr, fuel) == Polled(r.acked, r.attempts + 1, r.bus);
    Counts(b, s, r.bus);
  }

  /** The bus at the start of each attempt `i2c_start_wait` makes with at most `fuel` attempts:
      the first on `b`, each later one on what the STOP after a refused attempt leaves. */
  ghost function AttemptStates(p: Profile, b: Bus, addr: byte, fuel: nat): seq<Bus>
    requires ProfileOk(p) && (p.timeout || !b.drive.sclForced)
    decreases fuel
  {
    if fuel == 0 then []
    else
      var w := StartSpec(p, b, addr);
      if w.status.Acked? then [b] else [b] + AttemptStates(p, StopSpec(p, w.bus), addr, fuel - 1)
  }

  /** One attempt `w` on a free bus `s`: a START, then the address frame up to where it
      stopped, and an acknowledge that means the device held SDA low. */
  ghost predicate AttemptShape(s: Bus, w: Written, addr: byte)
  {
    && s.drive == Idle && Extends(s, w.bus)
    && Starts(s.drive, Added(s, w.bus)) == 1 && Stops(s.drive, Added(s, w.bus)) == 0
    && (w.status.TimedOut? ==> w.status.clock <= 8)
    && Pulses(s.drive, Added(s, w.bus)) == FrameBits(addr)[..Sent(w.status)]
    && (!w.status.TimedOut? ==> (w.status.Acked? <==> Held(s.sdaHeld, 0)))
  }

  /** An attempt started on the free bus `s`. */
  ghost predicate Attempt(p: Profile, s: Bus, addr: byte)
    requires ProfileOk(p)
  {
    s.drive == Idle && AttemptShape(s, StartSpec(p, s, addr), addr)
  }

  /** The attempt on the free bus `s` was refused, and the STOP after it left the bus `t`. */
  ghost predicate Refused(p: Profile, s: Bus, addr: byte, t: Bus)
    requires ProfileOk(p)
  {
    && s.drive == Idle && !StartSpec(p, s, addr).status.Acked?
    && t == StopSpec(p, StartSpec(p, s, addr).bus)
  }

  /** `a` lists attempts, each refused one followed by the next. */
  ghost predicate Attempts(p: Profile, addr: byte, a: seq<Bus>)
    requires ProfileOk(p)
  {
    && (forall k :: 0 <= k < |a| ==> Attempt(p, a[k], addr))
    && (forall k :: 0 <= k < |a| - 1 ==> Refused(p, a[k], addr, a[k + 1]))
  }

  /** The poll `r` attempt by attempt, given the buses `a` the attempts start on. */
  ghost predicate AttemptsShape(p: Profile, b: Bus, addr: byte, fuel: nat, a: seq<Bus>, r: Polled)
    requires ProfileOk(p)
  {
    && |a| == r.attempts && (|a| == 0 <==> fuel == 0) && (|a| > 0 ==> a[0] == b)
    && Attempts(p, addr, a)
    && (|a| == 0 ==> !r.acked && r.bus == b)
    && (|a| > 0 ==> var last := StartSpec(p, a[|a| - 1], addr);
          && (r.acked <==> last.status.Acked?)
          && r.bus == if r.acked then last.bus else StopSpec(p, last.bus))
  }

  lemma AttemptShapeOf(p: Profile, s: Bus, addr: byte)
    requires ProfileOk(p) && s.drive == Idle
    ensures AttemptShape(s, StartSpec(p, s, addr), addr)
  {
    StartCondition(p, s, addr);
  }

  /** `i2c_start_wait(addr)` attempt by attempt: each attempt starts on a free bus and sends a
      START and the address frame; every attempt but the last was refused and is followed by a
      STOP that frees the bus for the next; the call reports an acknowledge exactly when the
      last attempt was acknowledged, that is, when the device held SDA low at its acknowledge
      sample; and it ends on the bus that last attempt, or the STOP after it, leaves. */
  lemma {:induction false} StartWaitAttempts(p: Profile, b: Bus, addr: byte, fuel: nat)
    requires ProfileOk(p) && b.drive == Idle
    ensures AttemptsShape(p, b, addr, fuel, AttemptStates(p, b, addr, fuel), StartWaitSpec(p, b, addr, fuel))
    decreases fuel
  {
    if fuel > 0 {
      var w := StartSpec(p, b, addr);
      var rest: nat := fuel - 1;
      AttemptShapeOf(p, b, addr);
      if w.status.Acked? {
        assert StartWaitSpec(p, b, addr, fuel) == Polled(true, 1, w.bus);
        assert AttemptStates(p, b, addr, fuel) == [b];
      } else {
        var s := StopSpec(p, w.bus);
        StopCondition(p, w.bus);
        StartWaitAttempts(p, s, addr, rest);
        AttemptsRetry(p, b, addr, rest, fuel);
      }
    }
  }

  /** A refused first attempt, given what the `rest` attempts after it do. */
  lemma AttemptsRetry(p: Profile, b: Bus, addr: byte, rest: nat, fuel: nat)
    requires ProfileOk(p) && Attempt(p, b, addr) && fuel == rest + 1
    requires !StartSpec(p, b, addr).status.Acked?
    requires var s := StopSpec(p, StartSpec(p, b, addr).bus);
      s.drive == Idle && AttemptsShape(p, s, addr, rest, AttemptStates(p, s, addr, rest), StartWaitSpec(p, s, addr, rest))
    ensures AttemptsShape(p, b, addr, fuel, AttemptStates(p, b, addr, fuel), StartWaitSpec(p, b, addr, fuel))
  {
    var w := StartSpec(p, b, addr);
    var s := StopSpec(p, w.bus);
    var a' := AttemptStates(p, s, addr, rest);
    var r' := StartWaitSpec(p, s, addr, rest);
    assert AttemptStates(p, b, addr, fuel) == [b] + a';
    assert StartWaitSpec(p, b, addr, fuel) == Polled(r'.acked, r'.attempts + 1, r'.bus);
    ConsShape(p, b, addr, rest, a', r');
  }

  /** Prepending a refused attempt on `b` to the poll `r` that follows its STOP. */
  lemma ConsShape(p: Profile, b: Bus, addr: byte, rest: nat, a: seq<Bus>, r: Polled)
    requires ProfileOk(p) && Attempt(p, b, addr) && !StartSpec(p, b, addr).status.Acked?
    requires var s := StopSpec(p, StartSpec(p, b, addr).bus); AttemptsShape(p, s, addr, rest, a, r)
    ensures AttemptsShape(p, b, addr, rest + 1, [b] + a, Polled(r.acked, r.attempts + 1, r.bus))
  {
    var c := [b] + a;
    assert |a| > 0 ==> a[0] == StopSpec(p, StartSpec(p, b, addr).bus);
    ConsAttempts(p, b, addr, a);
    assert c[|c| - 1] == if |a| == 0 then b else a[|a| - 1];
  }

  lemma ConsAttempts(p: Profile, b: Bus, addr: byte, a: seq<Bus>)
    requires ProfileOk(p) && Attempt(p, b, addr) && Attempts(p, addr, a)
    requires |a| > 0 ==> Refused(p, b, addr, a[0])
    ensures Attempts(p, addr, [b] + a)
  {
    var c := [b] + a;
    forall k | 0 <= k < |c| ensures Attempt(p, c[k], addr) {
      if k > 0 { assert c[k] == a[k - 1]; }
    }
    forall k | 0 <= k < |c| - 1 ensures Refused(p, c[k], addr, c[k + 1]) {
      assert c[k + 1] == a[k];
      if k > 0 { assert c[k] == a[k - 1]; }
    }
  }
}
