/** Compile-time configuration of one software I2C bus: the half-bit delay counter chosen
    from the CPU clock and the bus speed, and the clock-stretch polling bound chosen from
    the CPU clock and the bus-lockup timeout. The source computes both with preprocessor
    integer arithmetic; `Configure` also models the two ways a configuration fails to build. */
module I2cConfig {

  /** What a user of the library sets before including it. */
  datatype Config = Config(
    cpuHz: nat,         // I2C_CPUFREQ (defaults to F_CPU)
    cpuUnsigned: bool,  // whether that constant is unsigned, as in 8000000UL
    fastMode: bool,     // I2C_FASTMODE
    slowMode: bool,     // I2C_SLOWMODE
    timeoutMs: int,     // I2C_TIMEOUT; zero or less means "no timeout"
    noInterrupt: bool)  // I2C_NOINTERRUPT

  datatype ConfigError =
    | TimeoutTooLarge   // the `#error` for a timeout above 10000 ms
    | DelayTooLarge     // the delay counter does not fit the 8-bit `ldi` operand

  datatype Result<T> = Ok(value: T) | Err(error: ConfigError)

  /** What the routines use at run time: the delay counter, whether the timeout variant of the
      clock-stretch wait is compiled, the two bytes loaded into r27:r26, and interrupt masking. */
  datatype Profile = Profile(delay: int, timeout: bool, hiStretch: int, loStretch: int, noInterrupt: bool)

  /** The largest clock-stretch bound the 16-bit loop counter is given. */
  const StretchCap: nat := 60000
  /** The largest accepted timeout in milliseconds. */
  const MaxTimeoutMs: int := 10000

  /** The polling bound r27:r26 as one number. */
  function MaxStretchOf(p: Profile): int { p.hiStretch * 256 + p.loStretch }

  /** What every profile a successful build produces satisfies. */
  ghost predicate ProfileOk(p: Profile)
  {
    && p.delay <= 255
    && 0 <= p.hiStretch < 256 && 0 <= p.loStretch < 256
    && 1 <= MaxStretchOf(p) <= StretchCap
  }

  /** C's `/` on integers: the quotient is truncated toward zero. */
  function CDiv(a: int, b: int): (q: int)
    requires b > 0
    ensures a >= 0 ==> q * b <= a < q * b + b
    ensures a < 0 ==> q * b - b < a <= q * b
  {
    if a >= 0 then a / b else -((-a) / b)
  }

  /** The target bus frequency: fast mode takes precedence, then slow mode. */
  function BusHz(c: Config): nat
  {
    if c.fastMode then 400000 else if c.slowMode then 25000 else 100000
  }

  /** `((F/speed)/2 - 19)/3` with C's truncating division: iterations of the 3-cycle delay loop
      after subtracting the call/return overhead from half a bit period. */
  function DelayCounter(cpuHz: nat, busHz: nat): int
    requires busHz > 0
  {
    CDiv(cpuHz / busHz / 2 - 19, 3)
  }

  /** `I2C_DELAY_COUNTER` as the compiler evaluates it. With a signed clock constant (the
      `16000000L` an Arduino build defines) it is `DelayCounter`. With an unsigned one the whole
      expression is `unsigned long`, 32 bits wide, so a negative `(F/speed)/2 - 19` wraps around
      before the division by 3, and the result is far too large for the `ldi` operand. */
  function DelayValue(c: Config): (d: int)
    ensures c.cpuHz / BusHz(c) / 2 >= 19 ==> d == DelayCounter(c.cpuHz, BusHz(c))
    ensures !c.cpuUnsigned ==> d == DelayCounter(c.cpuHz, BusHz(c))
    ensures c.cpuUnsigned && c.cpuHz / BusHz(c) / 2 < 19 ==> d > 255
  {
    var x := c.cpuHz / BusHz(c) / 2 - 19;
    if c.cpuUnsigned && x < 0 then (x + 0x1_0000_0000) / 3 else DelayCounter(c.cpuHz, BusHz(c))
  }

  /** `(F/1000)*T/4000`: the number of outer polling loops that make up the timeout. */
  function StretchLoops(cpuHz: nat, timeoutMs: nat): nat
  {
    cpuHz / 1000 * timeoutMs / 4000
  }

  /** The loop bound, clamped to [1, 60000]. */
  function MaxStretch(cpuHz: nat, timeoutMs: nat): (m: nat)
    ensures 1 <= m <= StretchCap
    ensures 1 <= StretchLoops(cpuHz, timeoutMs) <= StretchCap ==> m == StretchLoops(cpuHz, timeoutMs)
    ensures StretchLoops(cpuHz, timeoutMs) < 1 ==> m == 1
    ensures StretchLoops(cpuHz, timeoutMs) > StretchCap ==> m == StretchCap
  {
    var loops := StretchLoops(cpuHz, timeoutMs);
    if loops < 1 then 1 else if loops > StretchCap then StretchCap else loops
  }

  /** The build: rejected for a timeout above 10000 ms or for a delay counter the 8-bit `ldi`
      operand cannot hold; otherwise the derived profile. */
  function Configure(c: Config): (r: Result<Profile>)
    ensures r.Err? <==> c.timeoutMs > MaxTimeoutMs || DelayValue(c) > 255
    ensures c.timeoutMs > MaxTimeoutMs ==> r == Err(TimeoutTooLarge)
    ensures r.Ok? ==> && ProfileOk(r.value)
                      && r.value.delay == DelayValue(c)
                      && r.value.timeout == (c.timeoutMs > 0)
                      && r.value.noInterrupt == c.noInterrupt
                      && (c.timeoutMs > 0 ==>
                            && r.value.hiStretch == MaxStretch(c.cpuHz, c.timeoutMs) / 256
                            && r.value.loStretch == MaxStretch(c.cpuHz, c.timeoutMs) % 256
                            && MaxStretchOf(r.value) == MaxStretch(c.cpuHz, c.timeoutMs))
  {
    if c.timeoutMs > MaxTimeoutMs then Err(TimeoutTooLarge)
    else
      var d := DelayValue(c);
      if d > 255 then Err(DelayTooLarge)
      else
        var m := MaxStretch(c.cpuHz, if c.timeoutMs > 0 then c.timeoutMs else 0);
        Ok(Profile(d, c.timeoutMs > 0, m / 256, m % 256, c.noInterrupt))
  }

  /** An unsigned clock constant too slow for the bus speed does not build. */
  lemma UnsignedClockRejected(c: Config)
    requires c.cpuUnsigned && c.cpuHz / BusHz(c) / 2 < 19 && c.timeoutMs <= MaxTimeoutMs
    ensures Configure(c) == Err(DelayTooLarge)
  {
  }

  /** With too little time per half bit for even one loop iteration the delay routine is a bare
      `ret`: that happens exactly when fewer than 44 CPU cycles fit in one bus clock period. */
  lemma NoDelayIff(cpuHz: nat, busHz: nat)
    requires busHz > 0
    ensures DelayCounter(cpuHz, busHz) < 1 <==> cpuHz / busHz < 44
  {
    var x := cpuHz / busHz / 2 - 19;
    assert DelayCounter(cpuHz, busHz) < 1 <==> x < 3;
  }

  /** A faster CPU never gets a shorter delay loop. */
  lemma DelayMonotonic(cpu1: nat, cpu2: nat, busHz: nat)
    requires busHz > 0 && cpu1 <= cpu2
    ensures DelayCounter(cpu1, busHz) <= DelayCounter(cpu2, busHz)
  {
    DivMonotonic(cpu1, cpu2, busHz);
    DivMonotonic(cpu1 / busHz, cpu2 / busHz, 2);
    CDivMonotonic(cpu1 / busHz / 2 - 19, cpu2 / busHz / 2 - 19, 3);
  }

  /** The faster the bus mode, the shorter the delay: fast <= standard <= slow. */
  lemma DelayOrderedBySpeed(cpuHz: nat)
    ensures DelayCounter(cpuHz, 400000) <= DelayCounter(cpuHz, 100000) <= DelayCounter(cpuHz, 25000)
  {
    DivAntitone(cpuHz, 100000, 400000);
    DivAntitone(cpuHz, 25000, 100000);
    DivMonotonic(cpuHz / 400000, cpuHz / 100000, 2);
    DivMonotonic(cpuHz / 100000, cpuHz / 25000, 2);
    CDivMonotonic(cpuHz / 400000 / 2 - 19, cpuHz / 100000 / 2 - 19, 3);
    CDivMonotonic(cpuHz / 100000 / 2 - 19, cpuHz / 25000 / 2 - 19, 3);
  }

  /** A longer timeout never gives a smaller polling bound. */
  lemma MaxStretchMonotonic(cpuHz: nat, t1: nat, t2: nat)
    requires t1 <= t2
    ensures MaxStretch(cpuHz, t1) <= MaxStretch(cpuHz, t2)
  {
    var k := cpuHz / 1000;
    assert k * t1 <= k * t2 by { MulMonotonic(k, t1, t2); }
    DivMonotonic(k * t1, k * t2, 4000);
  }

  lemma MulMonotonic(k: nat, a: nat, b: nat)
    requires a <= b
    ensures k * a <= k * b
  {
  }

  lemma MulCancel(x: nat, y: nat, d: nat)
    requires x * d < y * d
    ensures x < y
  {
    if x >= y { MulMonotonic(d, y, x); }
  }

  lemma DivMonotonic(a: nat, b: nat, d: nat)
    requires a <= b && d > 0
    ensures a / d <= b / d
  {
    var qa, qb := a / d, b / d;
    assert qa * d <= a;
    assert b < qb * d + d;
    assert qa * d < (qb + 1) * d;
  }

  lemma DivAntitone(a: nat, d1: nat, d2: nat)
    requires 0 < d1 <= d2
    ensures a / d2 <= a / d1
  {
    var q, q1 := a / d2, a / d1;
    assert q * d1 <= q * d2 <= a by { MulMonotonic(q, d1, d2); }
    assert a < q1 * d1 + d1;
    MulCancel(q, q1 + 1, d1);
  }

  lemma CDivMonotonic(a: int, b: int, d: int)
    requires a <= b && d > 0
    ensures CDiv(a, d) <= CDiv(b, d)
  {
    if a >= 0 {
      DivMonotonic(a, b, d);
    } else if b < 0 {
      DivMonotonic(-b, -a, d);
    } else {
      DivNonNegative(-a, d);
      DivNonNegative(b, d);
    }
  }

  lemma DivNonNegative(a: int, d: int)
    requires a >= 0 && d > 0
    ensures a / d >= 0
  {
  }
}
