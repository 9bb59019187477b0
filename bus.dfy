/** What each bus routine does to the state it can see, as pure functions of that state.

    The state is the master's two data-direction bits (a set bit forces the line low), the two
    output latches, the global interrupt flag, and the other devices on the bus. A device's
    behaviour is an oracle: `sclHeld[k]` says whether some slave holds SCL low at the k-th
    time the master samples SCL from now on, and `sdaHeld[k]` the same for SDA; every sample
    consumes one element, and once a sequence is used up that device has released its line.
    Each change of a data-direction bit appends the new drive to `trace`. Delays change
    nothing that is modelled and are not mentioned here. */
module BusSpec {
  import opened ByteBits
  import opened I2cConfig
  import opened Protocol
  import opened ShiftRegisters

  datatype Bus = Bus(
    drive: Lines,           // SCL and SDA data-direction bits
    sclLatch: bool,         // SCL output latch (PORT bit)
    sdaLatch: bool,         // SDA output latch (PORT bit)
    irqEnabled: bool,       // the I flag of SREG
    sclHeld: seq<bool>,     // slave holds SCL low at the successive SCL samples
    sdaHeld: seq<bool>,     // slave holds SDA low at the successive SDA samples
    trace: seq<Lines>)      // every drive written so far

  /** Whether the device holds its line low at the `i`-th sample from now. */
  function Held(s: seq<bool>, i: nat): bool { i < |s| && s[i] }

  /** The oracle after `n` samples. */
  function Drop(s: seq<bool>, n: nat): seq<bool>
  {
    if n >= |s| then [] else s[n..]
  }

  lemma DropHeld(s: seq<bool>, n: nat, i: nat)
    ensures Held(Drop(s, n), i) == Held(s, n + i)
  {
  }

  /** `sbi`/`cbi` on the SCL data-direction bit. */
  function SetScl(b: Bus, forced: bool): Bus
  {
    var d := b.drive.(sclForced := forced);
    b.(drive := d, trace := b.trace + [d])
  }

  /** `sbi`/`cbi` on the SDA data-direction bit. */
  function SetSda(b: Bus, forced: bool): Bus
  {
    var d := b.drive.(sdaForced := forced);
    b.(drive := d, trace := b.trace + [d])
  }

  /** The result of one `sbis`/`sbic` on an input pin. */
  datatype Sampled = Sampled(high: bool, bus: Bus)

  /** The `i`-th SCL sample from now reads low: the master or a slave holds the line. */
  predicate SclLow(b: Bus, i: nat) { b.drive.sclForced || Held(b.sclHeld, i) }

  /** The SCL input pin: high unless the master or a slave pulls the line low. */
  function SampleScl(b: Bus): Sampled
  {
    Sampled(!SclLow(b, 0), b.(sclHeld := Drop(b.sclHeld, 1)))
  }

  /** The SDA input pin: high unless the master or a slave pulls the line low. */
  function SampleSda(b: Bus): Sampled
  {
    Sampled(!b.drive.sdaForced && !Held(b.sdaHeld, 0), b.(sdaHeld := Drop(b.sdaHeld, 1)))
  }

  /** The number of samples before the slave releases SCL. */
  function FirstRelease(s: seq<bool>): (n: nat)
    ensures n <= |s| && !Held(s, n)
    ensures forall i :: 0 <= i < n ==> Held(s, i)
  {
    if s == [] || !s[0] then 0
    else
      var n := FirstRelease(s[1..]);
      assert forall i :: 1 <= i <= n ==> Held(s, i) == Held(s[1..], i - 1);
      1 + n
  }

  /** SCL samples the timeout variant of the wait takes before giving up: `I2C_MAX_STRETCH`
      passes of the outer loop, each of 256 passes of the inner loop (`clr` then `dec`/`brne`). */
  function Budget(p: Profile): nat
    requires ProfileOk(p)
  {
    256 * MaxStretchOf(p)
  }

  datatype Waited = Waited(timedOut: bool, bus: Bus)

  /** `i2c_wait_scl_high`: poll SCL until it reads high. Without a timeout it polls forever,
      which ends only if the master does not hold SCL itself; with one it gives up after
      `Budget(p)` low samples. It changes nothing but the SCL oracle. */
  function Wait(p: Profile, b: Bus): (w: Waited)
    requires ProfileOk(p)
    requires p.timeout || !b.drive.sclForced
    ensures w.bus == b.(sclHeld := w.bus.sclHeld)
  {
    var n := FirstRelease(b.sclHeld);
    if p.timeout && (b.drive.sclForced || n >= Budget(p)) then
      Waited(true, b.(sclHeld := Drop(b.sclHeld, Budget(p))))
    else
      Waited(false, b.(sclHeld := Drop(b.sclHeld, n + 1)))
  }

  /** `sbis SCLIN; rcall wait`: sample SCL once and wait only if it reads low. */
  function Clock(p: Profile, b: Bus): (w: Waited)
    requires ProfileOk(p)
    requires p.timeout || !b.drive.sclForced
    ensures w.bus == b.(sclHeld := w.bus.sclHeld)
  {
    var s := SampleScl(b);
    if s.high then Waited(false, s.bus) else Wait(p, s.bus)
  }

  /** SCL forced low, SDA set for the next bit, SCL released. */
  function Pulse(b: Bus, sdaForced: bool): Bus
  {
    SetScl(SetSda(SetScl(b, true), sdaForced), false)
  }

  /** How a byte transfer ended: the receiver's acknowledge bit, or a clock-stretch timeout in
      clock pulse `clock` (0..7 data, 8 acknowledge). */
  datatype Status = Acked | Nacked | TimedOut(clock: nat)

  datatype Written = Written(status: Status, bus: Bus)

  /** The write loop from data bit `i` on. */
  function SendFrom(p: Profile, b: Bus, v: byte, i: nat): Written
    requires ProfileOk(p) && i <= 8
    decreases 8 - i
  {
    if i == 8 then GetAck(p, b)
    else
      var w := Clock(p, Pulse(b, !Bits(v)[i]));
      if w.timedOut then Written(TimedOut(i), SetScl(w.bus, true))
      else SendFrom(p, w.bus, v, i + 1)
  }

  /** The acknowledge phase of `i2c_write`: SDA released for the ninth clock, then sampled. */
  function GetAck(p: Profile, b: Bus): Written
    requires ProfileOk(p)
  {
    var w := Clock(p, Pulse(b, false));
    if w.timedOut then Written(TimedOut(8), SetScl(w.bus, true))
    else
      var s := SampleSda(w.bus);
      Written(if s.high then Nacked else Acked, SetScl(s.bus, true))
  }

  /** `i2c_write`: the byte, most significant bit first, then the acknowledge clock. */
  function WriteSpec(p: Profile, b: Bus, v: byte): Written
    requires ProfileOk(p)
  {
    SendFrom(p, b, v, 0)
  }

  /** What `i2c_read` returns (r23), the SDA levels it shifted in, and whether a bit clock
      timed out. */
  datatype Received = Received(value: byte, bits: seq<bool>, timedOut: bool, bus: Bus)

  /** The read loop once the bits `got` are in. */
  function ReceiveFrom(p: Profile, b: Bus, got: seq<bool>, last: bool): Received
    requires ProfileOk(p) && |got| <= 8
    decreases 8 - |got|
  {
    if |got| == 8 then PutAck(p, b, last, got)
    else
      var w := Clock(p, Pulse(b, false));
      if w.timedOut then Received(Receive(got), got, true, SetScl(w.bus, true))
      else
        var s := SampleSda(w.bus);
        ReceiveFrom(p, s.bus, got + [s.high], last)
  }

  /** The acknowledge clock of `i2c_read`: SDA forced low (ACK) unless `last`; a timeout in this
      clock is not reported. */
  function PutAck(p: Profile, b: Bus, last: bool, got: seq<bool>): Received
    requires ProfileOk(p) && |got| == 8
  {
    var w := Clock(p, Pulse(b, !last));
    Received(Receive(got), got, false, SetScl(w.bus, true))
  }

  /** `i2c_read(last)`. */
  function ReadSpec(p: Profile, b: Bus, last: bool): Received
    requires ProfileOk(p)
  {
    ReceiveFrom(p, b, [], last)
  }

  datatype Initialised = Initialised(ok: bool, bus: Bus)

  /** `i2c_init`: both lines released and both latches cleared; the bus is reported free when SDA
      and then SCL read high (SCL is not sampled once SDA reads low). */
  function InitSpec(b: Bus): Initialised
  {
    var b1 := SetScl(SetSda(b, false), false).(sdaLatch := false, sclLatch := false);
    var sda := SampleSda(b1);
    if !sda.high then Initialised(false, sda.bus)
    else
      var scl := SampleScl(sda.bus);
      Initialised(scl.high, scl.bus)
  }

  /** `cli`, when interrupts are to be masked during a transfer. */
  function MaskIrq(p: Profile, b: Bus): Bus
  {
    if p.noInterrupt then b.(irqEnabled := false) else b
  }

  /** `i2c_start(addr)`: wait for SCL, force SDA low while SCL is high, send the address byte.
      A timeout of the first wait is not reported. */
  function StartSpec(p: Profile, b: Bus, addr: byte): Written
    requires ProfileOk(p)
    requires p.timeout || !b.drive.sclForced
  {
    var w := Clock(p, MaskIrq(p, b));
    WriteSpec(p, SetSda(w.bus, true), addr)
  }

  /** `i2c_rep_start(addr)`: SCL low, SDA released, SCL released, wait for SCL, then the same
      START and address byte as `i2c_start`. */
  function RepStartSpec(p: Profile, b: Bus, addr: byte): Written
    requires ProfileOk(p)
  {
    var b1 := SetScl(SetSda(SetScl(MaskIrq(p, b), true), false), false);
    var w := Clock(p, b1);
    WriteSpec(p, SetSda(w.bus, true), addr)
  }

  /** `i2c_stop`: SCL and SDA low, SCL released, wait for SCL, SDA released; then interrupts are
      enabled (not restored) when they are masked during transfers. SCL is left released. */
  function StopSpec(p: Profile, b: Bus): (r: Bus)
    requires ProfileOk(p)
    ensures !r.drive.sclForced
  {
    var b1 := SetScl(SetSda(SetScl(b, true), true), false);
    var w := Clock(p, b1);
    var b2 := SetSda(w.bus, false);
    if p.noInterrupt then b2.(irqEnabled := true) else b2
  }

  /** The outcome of `i2c_start_wait` after at most `fuel` attempts. */
  datatype Polled = Polled(acked: bool, attempts: nat, bus: Bus)

  /** `i2c_start_wait(addr)`: repeat START and address until the device acknowledges, with a
      STOP after every attempt that was not acknowledged (a timeout counts as not acknowledged). */
  function StartWaitSpec(p: Profile, b: Bus, addr: byte, fuel: nat): Polled
    requires ProfileOk(p)
    requires p.timeout || !b.drive.sclForced
    decreases fuel, 0
  {
    if fuel == 0 then Polled(false, 0, b)
    else Attempted(p, StartSpec(p, b, addr), addr, fuel - 1)
  }

  /** The poll after the attempt `w`: it ends if `w` was acknowledged, and otherwise goes on,
      after a STOP, with `rest` attempts left. */
  function Attempted(p: Profile, w: Written, addr: byte, rest: nat): Polled
    requires ProfileOk(p)
    decreases rest, 1
  {
    if w.status.Acked? then Polled(true, 1, w.bus)
    else
      var r := StartWaitSpec(p, StopSpec(p, w.bus), addr, rest);
      Polled(r.acked, r.attempts + 1, r.bus)
  }
}
