/** Traces of what a master does to the two open-drain lines, and the bus conditions of
    NXP UM10204 (the I2C-bus specification) stated over them:
    section 3.1.3 (data valid only while SCL is low may SDA change),
    section 3.1.4 (START: SDA falls while SCL is high; STOP: SDA rises while SCL is high),
    and the clock pulses that carry the 9 bits of a byte frame (sections 3.1.5 and 3.1.6).

    A master of an open-drain bus never drives a line high: for each line it either forces it
    low or releases it. A trace is the sequence of these drive snapshots, one per change,
    read against the snapshot `prev` that was in force before it. */
module Protocol {

  /** The master's drive of SCL and SDA: `true` = forced low (data-direction bit set),
      `false` = released (the line floats high unless another device pulls it low). */
  datatype Lines = Lines(sclForced: bool, sdaForced: bool)

  const Idle := Lines(false, false)

  /** The snapshot in force after `t`. */
  function Last(prev: Lines, t: seq<Lines>): Lines
  {
    if t == [] then prev else t[|t| - 1]
  }

  lemma LastAppend(prev: Lines, a: seq<Lines>, b: seq<Lines>)
    ensures Last(prev, a + b) == Last(Last(prev, a), b)
  {
    if b == [] {
      assert a + b == a;
    }
  }

  /** SDA keeps its value across a step, unless SCL is forced low on both sides of it. */
  predicate Stable(a: Lines, b: Lines)
  {
    a.sdaForced == b.sdaForced || (a.sclForced && b.sclForced)
  }

  /** A START condition: SDA goes low while the master leaves SCL released. */
  predicate IsStart(a: Lines, b: Lines)
  {
    !a.sclForced && !b.sclForced && !a.sdaForced && b.sdaForced
  }

  /** A STOP condition: SDA is released while the master leaves SCL released. */
  predicate IsStop(a: Lines, b: Lines)
  {
    !a.sclForced && !b.sclForced && a.sdaForced && !b.sdaForced
  }

  /** At every release of SCL, the level the master leaves on SDA (`true` = released, a 1
      unless the receiver pulls SDA low): the bits the master presents, one per clock pulse. */
  function Pulses(prev: Lines, t: seq<Lines>): seq<bool>
    decreases |t|
  {
    if t == [] then []
    else (if prev.sclForced && !t[0].sclForced then [!t[0].sdaForced] else []) + Pulses(t[0], t[1..])
  }

  /** Every step of `t` keeps SDA stable in the sense of `Stable`. */
  predicate DataStable(prev: Lines, t: seq<Lines>)
    decreases |t|
  {
    t == [] || (Stable(prev, t[0]) && DataStable(t[0], t[1..]))
  }

  /** The number of START conditions in `t`. */
  function Starts(prev: Lines, t: seq<Lines>): nat
    decreases |t|
  {
    if t == [] then 0 else (if IsStart(prev, t[0]) then 1 else 0) + Starts(t[0], t[1..])
  }

  /** The number of STOP conditions in `t`. */
  function Stops(prev: Lines, t: seq<Lines>): nat
    decreases |t|
  {
    if t == [] then 0 else (if IsStop(prev, t[0]) then 1 else 0) + Stops(t[0], t[1..])
  }

  lemma {:induction false} PulsesAppend(prev: Lines, a: seq<Lines>, b: seq<Lines>)
    ensures Pulses(prev, a + b) == Pulses(prev, a) + Pulses(Last(prev, a), b)
    decreases |a|
  {
    if a != [] {
      assert (a + b)[0] == a[0] && (a + b)[1..] == a[1..] + b;
      PulsesAppend(a[0], a[1..], b);
      assert Last(a[0], a[1..]) == Last(prev, a);
    } else {
      assert a + b == b;
    }
  }

  lemma {:induction false} DataStableAppend(prev: Lines, a: seq<Lines>, b: seq<Lines>)
    ensures DataStable(prev, a + b) <==> DataStable(prev, a) && DataStable(Last(prev, a), b)
    decreases |a|
  {
    if a != [] {
      assert (a + b)[0] == a[0] && (a + b)[1..] == a[1..] + b;
      DataStableAppend(a[0], a[1..], b);
      assert Last(a[0], a[1..]) == Last(prev, a);
    } else {
      assert a + b == b;
    }
  }

  lemma {:induction false} StartsAppend(prev: Lines, a: seq<Lines>, b: seq<Lines>)
    ensures Starts(prev, a + b) == Starts(prev, a) + Starts(Last(prev, a), b)
    decreases |a|
  {
    if a != [] {
      assert (a + b)[0] == a[0] && (a + b)[1..] == a[1..] + b;
      StartsAppend(a[0], a[1..], b);
      assert Last(a[0], a[1..]) == Last(prev, a);
    } else {
      assert a + b == b;
    }
  }

  lemma {:induction false} StopsAppend(prev: Lines, a: seq<Lines>, b: seq<Lines>)
    ensures Stops(prev, a + b) == Stops(prev, a) + Stops(Last(prev, a), b)
    decreases |a|
  {
    if a != [] {
      assert (a + b)[0] == a[0] && (a + b)[1..] == a[1..] + b;
      StopsAppend(a[0], a[1..], b);
      assert Last(a[0], a[1..]) == Last(prev, a);
    } else {
      assert a + b == b;
    }
  }

  /** While SDA only changes under a forced clock there is neither a START nor a STOP. */
  lemma {:induction false} StableHasNoConditions(prev: Lines, t: seq<Lines>)
    requires DataStable(prev, t)
    ensures Starts(prev, t) == 0 && Stops(prev, t) == 0
    decreases |t|
  {
    if t != [] {
      StableHasNoConditions(t[0], t[1..]);
    }
  }
}
