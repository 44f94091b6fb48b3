/** What the processor of src/cpu.cpp promises, stated over the functions of
    `Machine`: the effect of single writes, of one fetch cycle, and of the
    fetch loop. */
module MachineFacts {
  import opened Results
  import opened Ints
  import opened Isa
  import opened Alu
  import opened Machine

  // ------------------------------------------------------------ ALU

  /** `INT_MAX + 1` overflows: the result port gets the untouched 0, so both
      the overflow and the zero flag are set (src/cpu.cpp:51, 58-60, 83-85). */
  lemma AddOverflowSetsZero(s: CpuState)
    requires s.trigger == 1 && s.alu[1] as int == MaxInt && s.alu[2] == 1
    ensures UpdateAlu(s) == Ok(s.(alu := [0, s.alu[1], s.alu[2]], trigger := 0,
                                   zf := true, nf := false, of := true))
  {
    var o := UpdateAlu(s).state;
    assert o.alu[1..] == s.alu[1..];
    assert o.alu == [0, s.alu[1], s.alu[2]] by {
      assert o.alu[1] == o.alu[1..][0] && o.alu[2] == o.alu[1..][1];
    }
  }

  /** Division by zero throws with the result port untouched, the flags
      cleared and the trigger still set (src/cpu.cpp:53-55, 70-76). */
  lemma DivisionByZeroKeepsResult(s: CpuState)
    requires s.trigger == 4 && s.alu[2] == 0
    ensures UpdateAlu(s) == Outcome(s.(zf := false, nf := false, of := false), Some(DivisionByZero))
  {
  }

  // ------------------------------------------------------------ writes

  /** Once the pending operation has run, writing an operand port stores the
      value and computes nothing: only a write to the trigger computes. */
  lemma AluPortWriteOnlyStores(s: CpuState, port: Int32, v: Int32)
    requires s.trigger == 0 && 1 <= port <= 2
    ensures WriteDest(s, Operand(AluPort, port), v) == Ok(s.(alu := s.alu[port := v]))
  {
  }

  /** Writing the trigger runs the operation it names at once. */
  lemma TriggerWriteComputes(s: CpuState, v: Int32)
    ensures WriteDest(s, Operand(Flag, AluTriggerFlag), v) == UpdateAlu(s.(trigger := v))
  {
  }

  /** The result port is read-only as a destination. */
  lemma ResultPortNotWritable(s: CpuState, v: Int32)
    ensures WriteDest(s, Operand(AluPort, 0), v) == Outcome(s, Some(AluDestOutOfRange(0)))
  {
  }

  /** The halt flag can be read by a condition but not as a source. */
  lemma HaltFlagReadableOnlyInConditions(s: CpuState)
    ensures ReadSource(s, Operand(Flag, HaltFlag)) == Failure(UnknownFlagSource(HaltFlag))
    ensures ConditionValue(s, Operand(Flag, HaltFlag)) == Success(Bit(s.halted))
  {
  }

  /** One read, one write (src/cpu.cpp:152-238): an unhalted `exec_line`
      first runs the pending ALU operation; unless that faults, it reads the
      source from the resulting state and hands the value to the destination
      write, whatever the destination is. */
  lemma ExecReadsThenWrites(s: CpuState, i: Instruction)
    requires !s.halted
    ensures UpdateAlu(s).fault.Some? ==> ExecLine(s, i) == UpdateAlu(s)
    ensures UpdateAlu(s).fault.None? && ReadSource(UpdateAlu(s).state, i.source).Failure? ==>
      ExecLine(s, i) == Outcome(UpdateAlu(s).state, Some(ReadSource(UpdateAlu(s).state, i.source).error))
    ensures UpdateAlu(s).fault.None? && ReadSource(UpdateAlu(s).state, i.source).Success? ==>
      ExecLine(s, i) == WriteDest(UpdateAlu(s).state, i.dest, ReadSource(UpdateAlu(s).state, i.source).value)
  {
  }

  /** A register move: with no pending operation, the value read is stored in
      the named register and nothing else changes. */
  lemma ExecWritesRegister(s: CpuState, i: Instruction, v: Int32)
    requires !s.halted && s.trigger == 0
    requires ReadSource(s, i.source) == Success(v)
    requires i.dest.kind == Register && 0 <= i.dest.value as int < |s.regs|
    ensures ExecLine(s, i) == Ok(s.(regs := s.regs[i.dest.value := v]))
  {
  }

  // ------------------------------------------------------------ fetch cycle

  /** A false condition leaves the state alone and moves to the next slot
      (src/cpu.cpp:259-263, 275-276). */
  lemma FalseConditionSkips(s: CpuState, i: Instruction)
    requires s.pc as int < MaxInt && s.incrementPc
    requires CheckCondition(s, i) == Success(false)
    ensures Cycle(s, i) == Ok(s.(pc := s.pc + 1))
  {
  }

  /** A taken jump lands exactly on the value written, with the increment
      re-armed for the next cycle (src/cpu.cpp:232-235, 275-280). */
  lemma JumpLandsExactly(s: CpuState, i: Instruction, v: Int32)
    requires s.pc as int < MaxInt && !s.halted && s.trigger == 0
    requires CheckCondition(s, i) == Success(true)
    requires ReadSource(s, i.source) == Success(v)
    requires i.dest.kind == ProgramCounter
    ensures Cycle(s, i) == Ok(s.(pc := v, incrementPc := true))
  {
    assert ExecLine(s, i) == Ok(s.(pc := v, incrementPc := false));
  }

  /** The record of a zero-filled slot — constant 0 to the discard
      destination, no condition — only moves to the next slot. */
  lemma ZeroInstructionIsNoOp(s: CpuState)
    requires s.pc as int < MaxInt && s.incrementPc && s.trigger == 0
    ensures Cycle(s, ZeroInstruction) == Ok(s.(pc := s.pc + 1))
  {
    if !s.halted {
      assert ReadSource(s, ZeroInstruction.source) == Success(0);
      assert ExecLine(s, ZeroInstruction) == Ok(s);
    }
  }

  // ------------------------------------------------------------ fetch loop

  /** A run that ended within its fuel ends the same way with more. */
  lemma {:induction false} RunFuelMonotone(s: CpuState, prog: seq<Instruction>, fuel: nat, more: nat, stopOnHalt: bool)
    requires |prog| <= MaxInt
    requires Run(s, prog, fuel, stopOnHalt).status != OutOfFuel
    ensures Run(s, prog, fuel + more, stopOnHalt) == Run(s, prog, fuel, stopOnHalt)
    decreases fuel
  {
    if 0 <= s.pc as int < |prog| && !(stopOnHalt && s.halted) {
      RunCycle(s, prog, fuel, stopOnHalt);
      RunCycle(s, prog, fuel + more, stopOnHalt);
      var o := Cycle(s, prog[s.pc]);
      if o.fault.None? {
        var rest := fuel - 1;
        assert fuel + more - 1 == rest + more;
        RunFuelMonotone(o.state, prog, rest, more, stopOnHalt);
        assert Run(s, prog, fuel + more, stopOnHalt) == Run(o.state, prog, rest + more, stopOnHalt);
      }
    } else {
      RunEnds(s, prog, fuel, stopOnHalt);
      RunEnds(s, prog, fuel + more, stopOnHalt);
    }
  }

  /** `run_from_ram` does nothing on a halted processor. */
  lemma HaltedRunStops(s: CpuState, prog: seq<Instruction>, fuel: nat)
    requires |prog| <= MaxInt && s.halted
    ensures Run(s, prog, fuel, true) == RunResult(Finished, s)
  {
  }

  /** `exec_prog` does not stop on halt: a halted processor walks to the end
      of the program, one slot per cycle, changing nothing but the program
      counter (unless a condition operand cannot be read). */
  lemma {:induction false} HaltedRunWalksOff(s: CpuState, prog: seq<Instruction>, fuel: nat)
    requires |prog| <= MaxInt && s.halted && s.incrementPc && s.pc >= 0
    requires fuel >= |prog| - s.pc as int
    ensures Run(s, prog, fuel, false).status != OutOfFuel
    ensures Run(s, prog, fuel, false).state == s.(pc := Run(s, prog, fuel, false).state.pc)
    decreases fuel
  {
    if s.pc as int < |prog| {
      var i := prog[s.pc];
      var o := Cycle(s, i);
      if o.fault.None? {
        assert CheckCondition(s, i).Success?;
        assert ExecLine(s, i) == Ok(s);
        assert o.state == s.(pc := s.pc + 1);
        HaltedRunWalksOff(o.state, prog, fuel - 1);
      }
    }
  }
}
