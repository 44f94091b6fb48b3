/** The processor of src/cpu.cpp as functions on a state value: the pending
    ALU operation, source reads, destination writes, one instruction, one
    fetch cycle and the fetch loop. The `Cpu` class (cpu.dfy) performs these
    steps in place and is proved against them. */
module Machine {
  import opened Results
  import opened Ints
  import opened Isa
  import opened Alu

  /** The exceptions the processor throws. */
  datatype Fault =
    | DivisionByZero
    | DivisionOverflow
    | SourceRegisterOutOfRange(index: Int32)
    | AluSourceOutOfRange(index: Int32)
    | UnknownFlagSource(code: Int32)
    | UnknownSourceType(kind: Int32)
    | DestRegisterOutOfRange(index: Int32)
    | AluDestOutOfRange(index: Int32)
    | ReadOnlyFlagDest(code: Int32)
    | UnknownDestType(kind: Int32)
    | MissingConditionType
    | ConditionRegisterOutOfRange(index: Int32)
    | ConditionAluOutOfRange(index: Int32)
    | InvalidConditionFlag(code: Int32)
    | UnknownConditionType(kind: Int32)

  /** The three ALU ports: result, first and second operand. */
  type Ports = s: seq<Int32> | |s| == 3 witness [0, 0, 0]

  /** The fields of `Cpu` (src/cpu.hpp:54-68) that execution uses. The flags
      are the 0/1 entries of `alu_regs`. */
  datatype CpuState = CpuState(
    regs: seq<Int32>,
    alu: Ports,
    trigger: Int32,
    zf: bool,
    nf: bool,
    of: bool,
    pc: Int32,
    incrementPc: bool,
    halted: bool)

  /** A freshly constructed processor (src/cpu.cpp:243-248). */
  function Initial(registers: nat): (s: CpuState)
    ensures |s.regs| == registers && forall k :: 0 <= k < registers ==> s.regs[k] == 0
    ensures s.alu == [0, 0, 0] && !s.zf && !s.nf && !s.of
    ensures s.pc == 0 && s.trigger == 0 && s.incrementPc && !s.halted
  {
    CpuState(seq(registers, _ => 0), [0, 0, 0], 0, false, false, false, 0, true, false)
  }

  /** The state after a step, and the exception that cut it short, if any:
      an exception leaves behind whatever the step had already changed. */
  datatype Outcome = Outcome(state: CpuState, fault: Option<Fault>)

  function Ok(s: CpuState): Outcome { Outcome(s, None) }

  // ------------------------------------------------------------ ALU

  /** The exact result of the arithmetic a trigger value names (1 add,
      2 subtract, 3 multiply), over unbounded integers. */
  function Exact(op: Int32, a: Int32, b: Int32): int
    requires 1 <= op <= 3
  {
    if op == 1 then a as int + b as int
    else if op == 2 then a as int - b as int
    else a as int * b as int
  }

  /** The value stored in the result port and the overflow flag, from a check
      that returns `None` on overflow: the untouched local `result` is 0. */
  function Checked(r: Option<Int32>): (Int32, bool)
  {
    match r
    case Some(v) => (v, false)
    case None => (0, true)
  }

  /** The result port and the overflow flag the operation `trigger` names
      gives for ports 1 and 2; an unknown trigger keeps `current`. */
  function AluResult(trigger: Int32, a: Int32, b: Int32, current: Int32): (Int32, bool)
    requires trigger == 4 ==> b != 0 && !(a as int == MinInt && b == -1)
  {
    if trigger == 1 then Checked(CheckAdd(a, b))
    else if trigger == 2 then Checked(CheckSub(a, b))
    else if trigger == 3 then Checked(CheckMul(a, b))
    else if trigger == 4 then (QuotFits(a, b); (Quot(a as int, b as int) as Int32, false))
    else (current, false)
  }

  /** `update_alu` (src/cpu.cpp:49-93). With trigger 0 nothing happens.
      Otherwise the flags are cleared, the operation the trigger names is
      applied to ports 1 and 2, the flags are set from the result port and
      the trigger is reset. Division by zero throws after the flags were
      cleared and before the reset; `INT_MIN / -1` is treated the same way. */
  function UpdateAlu(s: CpuState): (o: Outcome)
    ensures s.trigger == 0 ==> o == Ok(s)
    ensures o.state.regs == s.regs && o.state.pc == s.pc && o.state.halted == s.halted
    ensures o.state.incrementPc == s.incrementPc && o.state.alu[1..] == s.alu[1..]
    ensures o.fault.Some? <==>
      s.trigger == 4 && (s.alu[2] == 0 || (s.alu[1] as int == MinInt && s.alu[2] == -1))
    ensures o.fault.Some? ==> o.state == s.(zf := false, nf := false, of := false)
    ensures s.trigger != 0 && o.fault.None? ==>
      o.state.trigger == 0 &&
      (o.state.zf <==> o.state.alu[0] == 0) && (o.state.nf <==> o.state.alu[0] < 0)
    ensures 1 <= s.trigger <= 3 ==>
      (o.state.of <==> !InRange(Exact(s.trigger, s.alu[1], s.alu[2]))) &&
      o.state.alu[0] as int == if o.state.of then 0 else Exact(s.trigger, s.alu[1], s.alu[2])
    ensures s.trigger == 4 && o.fault.None? ==>
      !o.state.of && o.state.alu[0] as int == Quot(s.alu[1] as int, s.alu[2] as int)
    ensures (s.trigger < 0 || s.trigger > 4) ==>
      !o.state.of && o.state.alu[0] == s.alu[0]
  {
    if s.trigger == 0 then Ok(s)
    else
      var cleared := s.(zf := false, nf := false, of := false);
      var a, b := s.alu[1], s.alu[2];
      if s.trigger == 4 && b == 0 then Outcome(cleared, Some(DivisionByZero))
      else if s.trigger == 4 && a as int == MinInt && b == -1 then
        Outcome(cleared, Some(DivisionOverflow))
      else
        var computed := AluResult(s.trigger, a, b, s.alu[0]);
        var result := computed.0;
        Ok(cleared.(alu := s.alu[0 := result], of := computed.1,
                    zf := result == 0, nf := result < 0, trigger := 0))
  }

  // ------------------------------------------------------------ reads

  /** The source read of `exec_line` (src/cpu.cpp:159-197). Flag code 5, the
      halt flag, is not readable here. */
  function ReadSource(s: CpuState, op: Operand): (r: Result<Int32, Fault>)
    ensures op.kind == Register ==> (r.Success? <==> 0 <= op.value as int < |s.regs|)
    ensures op.kind == AluPort ==> (r.Success? <==> 0 <= op.value <= 2)
    ensures op.kind == Flag ==> (r.Success? <==> AluTriggerFlag <= op.value <= OverflowFlag)
    ensures (op.kind < Constant || op.kind > ProgramCounter) ==> r == Failure(UnknownSourceType(op.kind))
    ensures op.kind == Constant ==> r == Success(op.value)
    ensures op.kind == Register && 0 <= op.value as int < |s.regs| ==> r == Success(s.regs[op.value])
    ensures op.kind == AluPort && 0 <= op.value <= 2 ==> r == Success(s.alu[op.value])
    ensures op == Operand(Flag, AluTriggerFlag) ==> r == Success(s.trigger)
    ensures op == Operand(Flag, ZeroFlag) ==> r == Success(Bit(s.zf))
    ensures op == Operand(Flag, NegativeFlag) ==> r == Success(Bit(s.nf))
    ensures op == Operand(Flag, OverflowFlag) ==> r == Success(Bit(s.of))
    ensures op.kind == ProgramCounter ==> r == Success(s.pc)
  {
    if op.kind == Constant then Success(op.value)
    else if op.kind == Register then
      if 0 <= op.value as int < |s.regs| then Success(s.regs[op.value])
      else Failure(SourceRegisterOutOfRange(op.value))
    else if op.kind == AluPort then
      if 0 <= op.value <= 2 then Success(s.alu[op.value])
      else Failure(AluSourceOutOfRange(op.value))
    else if op.kind == Flag then
      if op.value == AluTriggerFlag then Success(s.trigger)
      else if op.value == ZeroFlag then Success(Bit(s.zf))
      else if op.value == NegativeFlag then Success(Bit(s.nf))
      else if op.value == OverflowFlag then Success(Bit(s.of))
      else Failure(UnknownFlagSource(op.value))
    else if op.kind == ProgramCounter then Success(s.pc)
    else Failure(UnknownSourceType(op.kind))
  }

  /** `compute_value` of `check_condition` (src/cpu.cpp:109-134): the source
      rules, plus type -1 (no operand) as an error and flag 5 read as
      `halted`. */
  function ConditionValue(s: CpuState, op: Operand): (r: Result<Int32, Fault>)
    ensures op.kind == NoKind ==> r == Failure(MissingConditionType)
    ensures op == Operand(Flag, HaltFlag) ==> r == Success(Bit(s.halted))
    ensures op.kind == Constant ==> r == Success(op.value)
    ensures op.kind == Register ==> r == if 0 <= op.value as int < |s.regs| then Success(s.regs[op.value])
                                         else Failure(ConditionRegisterOutOfRange(op.value))
    ensures op.kind == AluPort ==> r == if 0 <= op.value <= 2 then Success(s.alu[op.value])
                                        else Failure(ConditionAluOutOfRange(op.value))
    ensures op == Operand(Flag, AluTriggerFlag) ==> r == Success(s.trigger)
    ensures op == Operand(Flag, ZeroFlag) ==> r == Success(Bit(s.zf))
    ensures op == Operand(Flag, NegativeFlag) ==> r == Success(Bit(s.nf))
    ensures op == Operand(Flag, OverflowFlag) ==> r == Success(Bit(s.of))
    ensures op.kind == Flag && !(AluTriggerFlag <= op.value <= HaltFlag) ==> r == Failure(InvalidConditionFlag(op.value))
    ensures op.kind == ProgramCounter ==> r == Success(s.pc)
    ensures (op.kind < NoKind || op.kind > ProgramCounter) ==> r == Failure(UnknownConditionType(op.kind))
  {
    if op.kind == NoKind then Failure(MissingConditionType)
    else if op.kind == Constant then Success(op.value)
    else if op.kind == Register then
      if 0 <= op.value as int < |s.regs| then Success(s.regs[op.value])
      else Failure(ConditionRegisterOutOfRange(op.value))
    else if op.kind == AluPort then
      if 0 <= op.value <= 2 then Success(s.alu[op.value])
      else Failure(ConditionAluOutOfRange(op.value))
    else if op.kind == Flag then
      if op.value == AluTriggerFlag then Success(s.trigger)
      else if op.value == ZeroFlag then Success(Bit(s.zf))
      else if op.value == NegativeFlag then Success(Bit(s.nf))
      else if op.value == OverflowFlag then Success(Bit(s.of))
      else if op.value == HaltFlag then Success(Bit(s.halted))
      else Failure(InvalidConditionFlag(op.value))
    else if op.kind == ProgramCounter then Success(s.pc)
    else Failure(UnknownConditionType(op.kind))
  }

  /** A condition operand reads what a source operand of the same type and
      value reads; the halt flag is the one readable only in a condition. */
  lemma ConditionReadsLikeSource(s: CpuState, op: Operand)
    requires op.kind != NoKind && op != Operand(Flag, HaltFlag)
    ensures ConditionValue(s, op).Success? <==> ReadSource(s, op).Success?
    ensures ReadSource(s, op).Success? ==> ConditionValue(s, op) == ReadSource(s, op)
  {
  }

  /** `check_condition` (src/cpu.cpp:104-147): true without a comparison;
      otherwise both operands are read, left first, and the named signed
      relation decides; an unrecognised mnemonic is false. */
  function CheckCondition(s: CpuState, i: Instruction): (r: Result<bool, Fault>)
    ensures i.comp == NoComp ==> r == Success(true)
    ensures i.comp != NoComp ==>
      (r.Success? <==> ConditionValue(s, i.cond1).Success? && ConditionValue(s, i.cond2).Success?)
    ensures i.comp != NoComp && r.Success? ==>
      (r.value <==> Holds(i.comp, ConditionValue(s, i.cond1).value as int,
                          ConditionValue(s, i.cond2).value as int))
    ensures i.comp == Unknown && r.Success? ==> !r.value
    ensures i.comp != NoComp && ConditionValue(s, i.cond1).Failure? ==>
      r == Failure(ConditionValue(s, i.cond1).error)
  {
    if i.comp == NoComp then Success(true)
    else
      var lhs :- ConditionValue(s, i.cond1);
      var rhs :- ConditionValue(s, i.cond2);
      Success(Holds(i.comp, lhs as int, rhs as int))
  }

  // ------------------------------------------------------------ writes

  /** The destination write of `exec_line` (src/cpu.cpp:200-238). */
  function WriteDest(s: CpuState, dest: Operand, v: Int32): (o: Outcome)
    ensures |o.state.regs| == |s.regs|
    ensures forall k :: 0 <= k < |s.regs| && (dest.kind != Register || k != dest.value as int) ==>
              o.state.regs[k] == s.regs[k]
    ensures dest.kind == Register ==>
      (o.fault.None? <==> 0 <= dest.value as int < |s.regs|) &&
      (o.fault.None? ==> o == Ok(s.(regs := s.regs[dest.value := v])))
    ensures dest.kind == Constant ==> o == Ok(s)
    ensures dest.kind == AluPort && 1 <= dest.value <= 2 ==> o == UpdateAlu(s.(alu := s.alu[dest.value := v]))
    ensures dest.kind == AluPort && !(1 <= dest.value <= 2) ==> o == Outcome(s, Some(AluDestOutOfRange(dest.value)))
    ensures dest == Operand(Flag, AluTriggerFlag) ==> o == UpdateAlu(s.(trigger := v))
    ensures dest == Operand(Flag, HaltFlag) ==> o == Ok(if v != 0 then s.(halted := true) else s)
    ensures dest.kind == Flag ==>
      (dest.value != AluTriggerFlag && dest.value != HaltFlag <==> o.fault == Some(ReadOnlyFlagDest(dest.value)))
    ensures o.state.halted <==> s.halted || (dest == Operand(Flag, HaltFlag) && v != 0)
    ensures dest.kind == ProgramCounter ==> o == Ok(s.(pc := v, incrementPc := false))
    ensures dest.kind != ProgramCounter ==> o.state.pc == s.pc && o.state.incrementPc == s.incrementPc
    ensures (dest.kind < Constant || dest.kind > ProgramCounter) ==> o == Outcome(s, Some(UnknownDestType(dest.kind)))
    ensures o.fault.Some? && !(dest.kind == AluPort && 1 <= dest.value <= 2) && dest != Operand(Flag, AluTriggerFlag) ==>
      o.state == s
  {
    if dest.kind == Constant then Ok(s)
    else if dest.kind == Register then
      if 0 <= dest.value as int < |s.regs| then Ok(s.(regs := s.regs[dest.value := v]))
      else Outcome(s, Some(DestRegisterOutOfRange(dest.value)))
    else if dest.kind == AluPort then
      if 1 <= dest.value <= 2 then UpdateAlu(s.(alu := s.alu[dest.value := v]))
      else Outcome(s, Some(AluDestOutOfRange(dest.value)))
    else if dest.kind == Flag then
      if dest.value == AluTriggerFlag then UpdateAlu(s.(trigger := v))
      else if dest.value == HaltFlag then Ok(if v != 0 then s.(halted := true) else s)
      else Outcome(s, Some(ReadOnlyFlagDest(dest.value)))
    else if dest.kind == ProgramCounter then Ok(s.(pc := v, incrementPc := false))
    else Outcome(s, Some(UnknownDestType(dest.kind)))
  }

  // ------------------------------------------------------------ one instruction

  /** `exec_line` (src/cpu.cpp:149-241): nothing when halted; otherwise the
      pending ALU operation, the source read, the destination write. */
  function ExecLine(s: CpuState, i: Instruction): (o: Outcome)
    ensures s.halted ==> o == Ok(s)
    ensures |o.state.regs| == |s.regs|
    ensures forall k :: 0 <= k < |s.regs| && (i.dest.kind != Register || k != i.dest.value as int) ==>
              o.state.regs[k] == s.regs[k]
    ensures o.state.halted ==> s.halted || i.dest == Operand(Flag, HaltFlag)
    ensures !s.halted && o.fault.None? ==> o.state.trigger == 0
    ensures o.state.pc != s.pc || o.state.incrementPc != s.incrementPc ==>
      i.dest.kind == ProgramCounter && o.fault.None? && !o.state.incrementPc
  {
    if s.halted then Ok(s)
    else
      var u := UpdateAlu(s);
      if u.fault.Some? then u
      else
        match ReadSource(u.state, i.source)
        case Failure(f) => Outcome(u.state, Some(f))
        case Success(v) =>
          var o := WriteDest(u.state, i.dest, v);
          assert o.fault.None? ==> o.state.trigger == 0 by {
            if i.dest == Operand(Flag, AluTriggerFlag) && v != 0 { }
          }
          o
  }

  // ------------------------------------------------------------ fetch cycle

  /** The program-counter step after an instruction: one forward, or none
      right after a jump, which re-arms the increment. */
  function Advance(s: CpuState): (t: CpuState)
    requires s.incrementPc ==> s.pc as int < MaxInt
    ensures t.incrementPc
    ensures t.pc as int == if s.incrementPc then s.pc as int + 1 else s.pc as int
    ensures t.regs == s.regs && t.alu == s.alu && t.trigger == s.trigger && t.halted == s.halted
  {
    if s.incrementPc then s.(pc := s.pc + 1) else s.(incrementPc := true)
  }

  /** A turn whose condition holds: the instruction runs and, unless it
      faults, the counter then steps. */
  function Executed(s: CpuState, i: Instruction): Outcome
    requires s.pc as int < MaxInt
  {
    var e := ExecLine(s, i);
    if e.fault.Some? then e else Ok(Advance(e.state))
  }

  /** One turn of the fetch loops (src/cpu.cpp:253-281,
      src/computer.cpp:95-112): the condition is checked even when halted, a
      false condition skips the instruction, and the counter then advances. */
  function Cycle(s: CpuState, i: Instruction): (o: Outcome)
    requires s.pc as int < MaxInt
    ensures o.fault.None? ==> o.state.incrementPc
    ensures CheckCondition(s, i) == Success(false) ==> o == Ok(Advance(s))
    ensures CheckCondition(s, i).Failure? ==> o == Outcome(s, Some(CheckCondition(s, i).error))
    ensures CheckCondition(s, i) == Success(true) ==> o == Executed(s, i)
    ensures s.halted ==> o.state.halted
  {
    match CheckCondition(s, i)
    case Failure(f) => Outcome(s, Some(f))
    case Success(execute) => if execute then Executed(s, i) else Ok(Advance(s))
  }

  // ------------------------------------------------------------ fetch loop

  datatype Status = Finished | Faulted(fault: Fault) | OutOfFuel

  datatype RunResult = RunResult(status: Status, state: CpuState)

  /** The fetch loop over a program of at most `fuel` cycles: `exec_prog`
      (src/cpu.cpp:250-290) with `stopOnHalt` false, the loop of
      `run_from_ram` (src/computer.cpp:89-113) with it true. It runs while
      `0 <= pc < |prog|`; an exception ends it. */
  function Run(s: CpuState, prog: seq<Instruction>, fuel: nat, stopOnHalt: bool): (r: RunResult)
    requires |prog| <= MaxInt
    ensures r.status == Finished ==>
      !(0 <= r.state.pc as int < |prog|) || (stopOnHalt && r.state.halted)
    ensures |r.state.regs| == |s.regs|
    ensures s.halted ==> r.state.halted
    ensures s.trigger == 0 && !r.status.Faulted? ==> r.state.trigger == 0
    decreases fuel
  {
    if !(0 <= s.pc as int < |prog|) || (stopOnHalt && s.halted) then RunResult(Finished, s)
    else if fuel == 0 then RunResult(OutOfFuel, s)
    else
      var o := Cycle(s, prog[s.pc]);
      if o.fault.Some? then RunResult(Faulted(o.fault.value), o.state)
      else Run(o.state, prog, fuel - 1, stopOnHalt)
  }

  /** A run whose counter is outside the program, or that stops on halt
      and is halted, has finished; one that would run with no fuel left has
      run out. */
  lemma RunEnds(s: CpuState, prog: seq<Instruction>, fuel: nat, stopOnHalt: bool)
    requires |prog| <= MaxInt
    ensures !(0 <= s.pc as int < |prog|) || (stopOnHalt && s.halted) ==>
      Run(s, prog, fuel, stopOnHalt) == RunResult(Finished, s)
    ensures 0 <= s.pc as int < |prog| && !(stopOnHalt && s.halted) && fuel == 0 ==>
      Run(s, prog, fuel, stopOnHalt) == RunResult(OutOfFuel, s)
  {
  }

  /** A run with fuel whose counter is inside the program goes on with one
      cycle: it ends with that cycle's fault, or continues from its state. */
  lemma RunCycle(s: CpuState, prog: seq<Instruction>, fuel: nat, stopOnHalt: bool)
    requires |prog| <= MaxInt && 0 <= s.pc as int < |prog| && !(stopOnHalt && s.halted) && fuel > 0
    ensures Cycle(s, prog[s.pc]).fault.Some? ==>
      Run(s, prog, fuel, stopOnHalt) == RunResult(Faulted(Cycle(s, prog[s.pc]).fault.value), Cycle(s, prog[s.pc]).state)
    ensures Cycle(s, prog[s.pc]).fault.None? ==>
      Run(s, prog, fuel, stopOnHalt) == Run(Cycle(s, prog[s.pc]).state, prog, fuel - 1, stopOnHalt)
  {
  }
}
