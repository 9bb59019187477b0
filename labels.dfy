/** The assembler labels of the four copies of the library, and which copy's definition the
    label of each jump names when several copies are compiled into one program.

    A sketch that drives several buses includes several of the headers `SoftI2CMaster1.h`,
    `SoftI2CMaster4.h`, `SoftI2CMaster5.h` and `SoftI2CMaster6.h` into one translation unit,
    so the labels of all their inline-assembly blocks share one name space. A jump resolves
    when exactly one included copy defines its label. Each copy means to define its labels
    with its own digit and to jump only to its own labels (`Intended`); `AsWritten` records
    the names the files actually use. Only names are modelled: whether a resolved branch can
    reach its label depends on the instruction's range and on where the code is placed. */
module AsmLabels {
  import opened I2cConfig

  datatype Option<T> = None | Some(value: T)

  /** The four copies of the library, one per bus. */
  datatype Copy = Bus1 | Bus4 | Bus5 | Bus6

  /** What a label marks, without the copy's digit. */
  datatype Stem =
    | Idelay            // the delay loop of i2c_delay_half
    | WaitStretch       // the spin loop of i2c_wait_scl_high without a timeout
    | WaitOuter         // the outer loop of the timeout variant
    | WaitInner         // its inner loop
    | StretchDone       // SCL sensed high
    | CheckSclLevel     // the SCL sampling subroutine
    | SclHigh           // its exit when SCL is high
    | WaitReturn        // the common exit of the timeout variant
    | StartWait         // the retry point of i2c_start_wait
    | StartWaitDone     // its exit
    | WriteBit          // the bit loop of i2c_write
    | WriteFirst        // its entry
    | WriteLow          // SDA forced low for a 0 bit
    | WriteHigh         // the rest of the bit clock
    | WriteReturnFalse  // the timeout exit of i2c_write
    | DelaySclHigh      // the delay after a data clock
    | GetAck            // the acknowledge phase of i2c_write
    | AckWait           // its wait for SCL
    | WriteReturn       // the common exit of i2c_write
    | ReadBit           // the bit loop of i2c_read
    | PutAck            // the acknowledge clock of i2c_read
    | PutAckLow         // SDA forced low for an ACK
    | PutAckHigh        // the rest of that clock
    | ReadReturn        // the exit of i2c_read

  /** A label name: a stem with the digit of a copy, or a stem with no digit at all. */
  datatype Label = Local(stem: Stem, tag: Copy) | Shared(stem: Stem)

  datatype Naming = AsWritten | Intended

  /** Whether a copy built with profile `p` contains the label `s` and the jumps to it: the
      delay loop exists only for a delay counter of at least 1, and the two variants of the
      clock-stretch wait have different labels. */
  predicate Compiled(s: Stem, p: Profile)
  {
    && (s == Idelay ==> p.delay >= 1)
    && (s == WaitStretch ==> !p.timeout)
    && (TimeoutWait(s) ==> p.timeout)
  }

  /** The labels of the timeout variant of i2c_wait_scl_high. */
  predicate TimeoutWait(s: Stem)
  {
    s.WaitOuter? || s.WaitInner? || s.StretchDone? || s.CheckSclLevel? || s.SclHigh? || s.WaitReturn?
  }

  /** The name under which copy `c` defines the label `s`. As written, the spin loop label
      carries no digit in any copy, and copy 5 names two of its labels with copy 4's digit. */
  function Defined(n: Naming, c: Copy, s: Stem): (l: Label)
    ensures l.stem == s
    ensures n == Intended ==> l == Local(s, c)
  {
    if n == Intended then Local(s, c)
    else if s == WaitStretch then Shared(s)
    else if c == Bus5 && (s == DelaySclHigh || s == GetAck) then Local(s, Bus4)
    else Local(s, c)
  }

  /** The name written in a jump of copy `c` that means the label `s`. As written, the retry
      jump of i2c_start_wait in copies 4, 5 and 6 names copy 1's label, and the jump to the
      acknowledge phase in copy 6 names copy 4's label; every other jump names the label its
      own copy defines. */
  function Target(n: Naming, c: Copy, s: Stem): (l: Label)
    ensures l.stem == s
    ensures n == Intended ==> l == Local(s, c)
  {
    if n == AsWritten && s == StartWait && c != Bus1 then Local(StartWait, Bus1)
    else if n == AsWritten && s == GetAck && c == Bus6 then Local(GetAck, Bus4)
    else Defined(n, c, s)
  }

  /** The stems the jump instructions of every copy name. */
  const Jumps: seq<Stem> := [
    Idelay, WaitStretch, CheckSclLevel, StretchDone, WaitInner, WaitOuter, WaitReturn,
    SclHigh, StartWaitDone, StartWait, WriteFirst, GetAck, WriteLow, WriteHigh, DelaySclHigh,
    WriteReturn, WriteBit, WriteReturnFalse, ReadReturn, ReadBit, PutAckLow, PutAckHigh]

  /** The copies compiled into one program, each with its own configuration. */
  type Program = map<Copy, Profile>

  predicate Defines(n: Naming, prog: Program, c: Copy, l: Label)
  {
    c in prog && Compiled(l.stem, prog[c]) && Defined(n, c, l.stem) == l
  }

  /** The copies of the program that define the label `l`, in the order 1, 4, 5, 6. */
  function Definers(n: Naming, prog: Program, l: Label): seq<Copy>
  {
    (if Defines(n, prog, Bus1, l) then [Bus1] else [])
    + (if Defines(n, prog, Bus4, l) then [Bus4] else [])
    + (if Defines(n, prog, Bus5, l) then [Bus5] else [])
    + (if Defines(n, prog, Bus6, l) then [Bus6] else [])
  }

  lemma DefinersMembers(n: Naming, prog: Program, l: Label)
    ensures forall c :: c in Definers(n, prog, l) <==> Defines(n, prog, c, l)
  {
    forall c
      ensures c in Definers(n, prog, l) <==> Defines(n, prog, c, l)
    {
      match c
      case Bus1 =>
      case Bus4 =>
      case Bus5 =>
      case Bus6 =>
    }
  }

  /** The copy whose definition of `l` a jump to `l` names: the one defining `l`, if there is
      exactly one. */
  function Resolve(n: Naming, prog: Program, l: Label): (r: Option<Copy>)
    ensures r.Some? ==> Defines(n, prog, r.value, l)
    ensures r.Some? ==> forall c :: Defines(n, prog, c, l) ==> c == r.value
  {
    var d := Definers(n, prog, l);
    DefinersMembers(n, prog, l);
    if |d| == 1 then Some(d[0]) else None
  }

  /** Every label of the program resolves: no label is defined twice, and every jump names a
      label defined exactly once. */
  predicate LabelsResolve(n: Naming, prog: Program)
  {
    && (forall c, s :: c in prog && Compiled(s, prog[c]) ==> |Definers(n, prog, Defined(n, c, s))| == 1)
    && (forall c, s :: c in prog && s in Jumps && Compiled(s, prog[c]) ==> Resolve(n, prog, Target(n, c, s)).Some?)
  }

  /** Every jump of every copy names a label of that same copy. */
  predicate JumpsLocal(n: Naming, prog: Program)
  {
    forall c, s :: c in prog && s in Jumps && Compiled(s, prog[c]) ==> Resolve(n, prog, Target(n, c, s)) == Some(c)
  }

  // ---------------------------------------------------------------------------------------
  // The intended naming

  /** With every label carrying its own copy's digit, each label has exactly one definer. */
  lemma IntendedDefiners(prog: Program, c: Copy, s: Stem)
    requires c in prog && Compiled(s, prog[c])
    ensures Definers(Intended, prog, Local(s, c)) == [c]
  {
    var d := Definers(Intended, prog, Local(s, c));
    assert c in d;
    assert forall e :: e in d ==> e == c;
  }

  /** Intended naming: every label of every program resolves, whichever copies it includes and
      however they are configured, and every jump names a label of its own copy. */
  lemma IntendedLocal(prog: Program)
    ensures LabelsResolve(Intended, prog) && JumpsLocal(Intended, prog)
  {
    forall c, s | c in prog && Compiled(s, prog[c])
      ensures Definers(Intended, prog, Local(s, c)) == [c]
    {
      IntendedDefiners(prog, c, s);
    }
  }

  // ---------------------------------------------------------------------------------------
  // The naming as written

  /** The acknowledge jump of copy 6 (`breq _Li2c_get_ack4`) never names copy 6's own
      acknowledge phase: its label resolves to copy 4's or copy 5's, whichever of them alone is
      compiled in, and does not resolve otherwise. */
  lemma AckJumpOfCopy6(prog: Program)
    requires Bus6 in prog
    ensures Resolve(AsWritten, prog, Target(AsWritten, Bus6, GetAck))
         == if Bus4 in prog && Bus5 !in prog then Some(Bus4)
            else if Bus5 in prog && Bus4 !in prog then Some(Bus5)
            else None
  {
    var l := Target(AsWritten, Bus6, GetAck);
    assert l == Local(GetAck, Bus4);
    assert !Defines(AsWritten, prog, Bus1, l) && !Defines(AsWritten, prog, Bus6, l);
  }

  /** The retry jump of i2c_start_wait in copies 4, 5 and 6 (`rjmp _Li2c_start_wait1`) names
      copy 1's retry point, and does not resolve when copy 1 is not compiled in. */
  lemma RetryJump(prog: Program, c: Copy)
    requires c in prog && c != Bus1
    ensures Resolve(AsWritten, prog, Target(AsWritten, c, StartWait))
         == if Bus1 in prog then Some(Bus1) else None
  {
    var l := Target(AsWritten, c, StartWait);
    assert l == Local(StartWait, Bus1);
    assert !Defines(AsWritten, prog, Bus4, l) && !Defines(AsWritten, prog, Bus5, l);
    assert !Defines(AsWritten, prog, Bus6, l);
  }

  /** Copies 4 and 5 both define `_Li2c_get_ack4` and `_Ldelay_scl_high4`. */
  lemma Copy5NamesClash(prog: Program)
    requires Bus4 in prog && Bus5 in prog
    ensures Definers(AsWritten, prog, Local(GetAck, Bus4)) == [Bus4, Bus5]
    ensures Definers(AsWritten, prog, Local(DelaySclHigh, Bus4)) == [Bus4, Bus5]
  {
  }

  /** The spin loop label `_Li2c_wait_stretch` is defined by every copy built without a timeout. */
  lemma SharedSpinLabel(prog: Program, c: Copy)
    requires c in prog
    ensures c in Definers(AsWritten, prog, Shared(WaitStretch)) <==> !prog[c].timeout
  {
    DefinersMembers(AsWritten, prog, Shared(WaitStretch));
  }

  /** As written, the label that copy `c` defines for `s` is defined by no other copy, except
      for the spin loop label and the two labels copies 4 and 5 share. */
  lemma DefinedOnce(prog: Program, c: Copy, s: Stem)
    requires c in prog && Compiled(s, prog[c])
    ensures |Definers(AsWritten, prog, Defined(AsWritten, c, s))| == 1 <==>
      if s == WaitStretch then |Definers(AsWritten, prog, Shared(WaitStretch))| <= 1
      else if (s == GetAck || s == DelaySclHigh) && (c == Bus4 || c == Bus5) then !(Bus4 in prog && Bus5 in prog)
      else true
  {
    var l := Defined(AsWritten, c, s);
    DefinersMembers(AsWritten, prog, l);
    assert c in Definers(AsWritten, prog, l);
  }

  /** As written, where a jump of copy `c` to `s` fails to resolve. */
  lemma TargetResolves(prog: Program, c: Copy, s: Stem)
    requires c in prog && Compiled(s, prog[c])
    ensures Resolve(AsWritten, prog, Target(AsWritten, c, s)).Some? <==>
      if s == StartWait && c != Bus1 then Bus1 in prog
      else if s == GetAck && c == Bus6 then (Bus4 in prog) != (Bus5 in prog)
      else |Definers(AsWritten, prog, Defined(AsWritten, c, s))| == 1
  {
    if s == StartWait && c != Bus1 {
      RetryJump(prog, c);
    } else if s == GetAck && c == Bus6 {
      AckJumpOfCopy6(prog);
    }
  }

  /** As written, the conditions under which every label resolves: copies 4 and 5 are not both
      in it, at most one copy is built without a timeout, copy 1 is in it whenever another copy
      is, and copy 4 or copy 5 is in it whenever copy 6 is. */
  predicate AsWrittenResolvable(prog: Program)
  {
    && !(Bus4 in prog && Bus5 in prog)
    && |Definers(AsWritten, prog, Shared(WaitStretch))| <= 1
    && ((Bus4 in prog || Bus5 in prog || Bus6 in prog) ==> Bus1 in prog)
    && (Bus6 in prog ==> Bus4 in prog || Bus5 in prog)
  }

  /** As written, every label of a program resolves exactly under those conditions. */
  lemma AsWrittenResolves(prog: Program)
    ensures LabelsResolve(AsWritten, prog) <==> AsWrittenResolvable(prog)
  {
    if LabelsResolve(AsWritten, prog) {
      ResolvedConditions(prog);
    } else if AsWrittenResolvable(prog) {
      ConditionsResolve(prog);
    }
  }

  lemma ResolvedConditions(prog: Program)
    requires LabelsResolve(AsWritten, prog)
    ensures AsWrittenResolvable(prog)
  {
    if Bus4 in prog && Bus5 in prog {
      DefinedOnce(prog, Bus4, GetAck);
    }
    var spin := Definers(AsWritten, prog, Shared(WaitStretch));
    if |spin| > 1 {
      DefinersMembers(AsWritten, prog, Shared(WaitStretch));
      var c := spin[0];
      assert c in spin;
      DefinedOnce(prog, c, WaitStretch);
    }
    forall c | c in prog && c != Bus1
      ensures Bus1 in prog
    {
      TargetResolves(prog, c, StartWait);
      assert StartWait in Jumps;
    }
    if Bus6 in prog {
      TargetResolves(prog, Bus6, GetAck);
      assert GetAck in Jumps;
    }
  }

  lemma ConditionsResolve(prog: Program)
    requires AsWrittenResolvable(prog)
    ensures LabelsResolve(AsWritten, prog)
  {
    forall c, s | c in prog && Compiled(s, prog[c])
      ensures |Definers(AsWritten, prog, Defined(AsWritten, c, s))| == 1
    {
      DefinedOnce(prog, c, s);
    }
    forall c, s | c in prog && s in Jumps && Compiled(s, prog[c])
      ensures Resolve(AsWritten, prog, Target(AsWritten, c, s)).Some?
    {
      TargetResolves(prog, c, s);
    }
  }

  /** As written, only a program of copy 1 alone (or of nothing) keeps every jump in its copy:
      any other copy's start_wait retry names copy 1's label, or does not resolve. */
  lemma AsWrittenLocalIff(prog: Program)
    ensures JumpsLocal(AsWritten, prog) <==> prog.Keys <= {Bus1}
  {
    if prog.Keys <= {Bus1} {
      forall c, s | c in prog && s in Jumps && Compiled(s, prog[c])
        ensures Resolve(AsWritten, prog, Target(AsWritten, c, s)) == Some(c)
      {
        assert c == Bus1;
        assert Definers(AsWritten, prog, Target(AsWritten, c, s)) == [Bus1];
      }
    } else {
      var c :| c in prog && c != Bus1;
      RetryJump(prog, c);
      assert StartWait in Jumps && Compiled(StartWait, prog[c]);
    }
  }
}
