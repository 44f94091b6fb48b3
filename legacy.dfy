/** The earlier revision of the simulator, cpu.cpp and cpu.hpp at the top of
    the repository. Its record keeps the two sides of a condition as text
    (cpu.hpp:20-29); `check_condition` reads the left side as a flag name
    and the right side with `stoi`. Arithmetic and `exec_line` are those of
    src/cpu.cpp and are reused from `Machine` and `Cpu`. */
module Legacy {
  import opened Results
  import opened Ints
  import opened Text
  import opened Isa
  import opened Operands
  import Assembler
  import Machine
  import Cpu

  /** The record of cpu.hpp:20-29: typed source and destination, untyped
      condition sides, and the comparison (`NoComp` for the empty `comp`). */
  datatype LegacyInstruction = LegacyInstruction(
    source: Operand, dest: Operand, cond1: string, cond2: string, comp: Comp)

  /** The exceptions of this revision: those of the processor, and the two
      `check_condition` adds. */
  datatype Fault =
    | CpuFault(fault: Machine.Fault)
    | UnknownFlagName(name: string)
    | NotAConstant(text: string)

  // ------------------------------------------------------------ assembler

  /** The condition block of `convert_line` (cpu.cpp:30-56): split at the
      first operator in priority order, trim both sides, keep them as text. */
  function ConvertCondition(condition: string): (r: Result<(string, string, Comp), AsmError>)
    ensures condition == [] ==> r == Success(("", "", NoComp))
    ensures condition != [] ==> (r.Success? <==> SplitCondition(condition).Some?)
    ensures condition != [] && r.Failure? ==> r.error == NoOperator(condition)
    ensures condition != [] && r.Success? ==> r.value.2 != NoComp && r.value.2 != Unknown
  {
    if condition == [] then Success(("", "", NoComp))
    else
      match SplitCondition(condition)
      case None => Failure(NoOperator(condition))
      case Some(Split(lhs, comp, rhs)) => Success((Trim(lhs), Trim(rhs), comp))
  }

  /** `convert_line` (cpu.cpp:27-126): condition first, then source, then
      destination; operands are classified by the rules the later assembler
      keeps. */
  function ConvertLine(raw: RawInstruction): (r: Result<LegacyInstruction, AsmError>)
    ensures r.Success? <==>
      ConvertCondition(raw.condition).Success? &&
      ParseOperand(raw.src, Source).Success? && ParseDest(raw.dest).Success?
    ensures r.Success? ==>
      IsWellFormed(r.value.source) && IsWellFormedDest(r.value.dest) &&
      (r.value.comp == NoComp <==> raw.condition == [])
    ensures ConvertCondition(raw.condition).Failure? ==> r == Failure(NoOperator(raw.condition))
  {
    var (c1, c2, comp) :- ConvertCondition(raw.condition);
    var src :- ParseOperand(raw.src, Source);
    var dst :- ParseDest(raw.dest);
    Success(LegacyInstruction(src, dst, c1, c2, comp))
  }

  /** `decode_program` (cpu.cpp:127-136): every line in order; the first
      bad line aborts. */
  function DecodeProgram(raws: seq<RawInstruction>): (r: Result<seq<LegacyInstruction>, AsmError>)
    ensures r.Success? <==> forall k :: 0 <= k < |raws| ==> ConvertLine(raws[k]).Success?
    ensures r.Success? ==> |r.value| == |raws|
    ensures r.Success? ==> forall k :: 0 <= k < |raws| ==> ConvertLine(raws[k]) == Success(r.value[k])
  {
    MapAll(ConvertLine, raws)
  }

  /** A condition whose sides hold no operator character keeps both sides,
      trimmed, whatever they say. */
  lemma ConditionKeptAsText(a: string, c: Comp, b: string)
    requires NoOperatorChar(a) && NoOperatorChar(b) && c != NoComp && c != Unknown
    ensures ConvertCondition(a + OperatorText(c) + b) == Success((Trim(a), Trim(b), c))
  {
    var condition := a + OperatorText(c) + b;
    assert SplitCondition(condition) == Some(Split(a, c, b)) by {
      SplitCanonical(a, c, b);
    }
    assert condition != [] by {
      assert |condition| == |a| + |OperatorText(c)| + |b|;
    }
  }

  /** The later assembler accepts no line this one refuses; on a line both
      accept they agree on source, destination and comparison, and the later
      one's condition operands are the classified condition texts. */
  lemma ConvertLineAgrees(raw: RawInstruction)
    ensures Assembler.EncodeLine(raw).Success? ==> ConvertLine(raw).Success?
    ensures Assembler.EncodeLine(raw).Success? ==>
      var i, l := Assembler.EncodeLine(raw).value, ConvertLine(raw).value;
      i.source == l.source && i.dest == l.dest && i.comp == l.comp &&
      (l.comp != NoComp ==>
        Assembler.ConditionOperand(l.cond1) == Success(i.cond1) &&
        Assembler.ConditionOperand(l.cond2) == Success(i.cond2))
  {
  }

  // ------------------------------------------------------------ conditions

  /** `get_flag_value` (cpu.cpp:212-219): only `ZF`, `NF` and `OF`. */
  function GetFlagValue(s: Machine.CpuState, name: string): (r: Result<Int32, Fault>)
    ensures r.Success? <==> name == "ZF" || name == "NF" || name == "OF"
    ensures r.Success? ==> r.value == 0 || r.value == 1
    ensures r.Failure? ==> r.error == UnknownFlagName(name)
  {
    if name == "ZF" then Success(Bit(s.zf))
    else if name == "NF" then Success(Bit(s.nf))
    else if name == "OF" then Success(Bit(s.of))
    else Failure(UnknownFlagName(name))
  }

  /** The three flag names read what the later processor reads for the flag
      operand they are classified as. */
  lemma FlagNamesAgree(s: Machine.CpuState, name: string)
    requires name == "ZF" || name == "NF" || name == "OF"
    ensures ParseOperand(name, Condition).Success?
    ensures Machine.ConditionValue(s, ParseOperand(name, Condition).value) == Success(GetFlagValue(s, name).value)
  {
    assert IsFlagName(name) && !IsRegisterName(name) && !IsNumeral(name) && !IsPortName(name);
  }

  /** `check_condition` (cpu.cpp:221-249): true without a comparison;
      otherwise the left side must name a flag and the right side must read
      as an integer. */
  function CheckCondition(s: Machine.CpuState, i: LegacyInstruction): (r: Result<bool, Fault>)
    ensures i.comp == NoComp ==> r == Success(true)
    ensures i.comp != NoComp ==>
      (r.Success? <==> GetFlagValue(s, i.cond1).Success? && StoI(i.cond2).Success?)
    ensures i.comp != NoComp && GetFlagValue(s, i.cond1).Failure? ==> r == Failure(UnknownFlagName(i.cond1))
    ensures i.comp != NoComp && r.Success? ==>
      (r.value <==> Holds(i.comp, GetFlagValue(s, i.cond1).value as int, StoI(i.cond2).value as int))
  {
    if i.comp == NoComp then Success(true)
    else
      var lhs :- GetFlagValue(s, i.cond1);
      match StoI(i.cond2)
      case Failure(_) => Failure(NotAConstant(i.cond2))
      case Success(rhs) => Success(Holds(i.comp, lhs as int, rhs as int))
  }

  /** A flag compared with a number decides the same way in either
      revision. */
  lemma CheckConditionAgrees(s: Machine.CpuState, name: string, c: Comp, n: Int32)
    requires name == "ZF" || name == "NF" || name == "OF"
    requires c != NoComp
    ensures ParseOperand(name, Condition).Success?
    ensures CheckCondition(s, LegacyInstruction(Operand(Constant, 0), Operand(Constant, 0), name, IntToString(n as int), c)) ==
      Success(Machine.CheckCondition(s, Instruction(Operand(Constant, 0), Operand(Constant, 0),
                                                    ParseOperand(name, Condition).value, Operand(Constant, n), c)).value)
  {
    FlagNamesAgree(s, name);
    StoIOfIntToString(n);
    var op := ParseOperand(name, Condition).value;
    var lhs := GetFlagValue(s, name).value;
    var i := Instruction(Operand(Constant, 0), Operand(Constant, 0), op, Operand(Constant, n), c);
    assert Machine.CheckCondition(s, i) == Success(Holds(c, lhs as int, n as int));
  }

  // ------------------------------------------------------------ execution

  /** The part of a record `exec_line` looks at. */
  function Typed(i: LegacyInstruction): Instruction
  {
    Instruction(i.source, i.dest, NoOperand, NoOperand, NoComp)
  }

  datatype Outcome = Outcome(state: Machine.CpuState, fault: Option<Fault>)

  /** One turn of `exec_prog` (cpu.cpp:356-381). */
  function Cycle(s: Machine.CpuState, i: LegacyInstruction): (o: Outcome)
    requires s.pc as int < MaxInt
    ensures CheckCondition(s, i).Failure? ==> o == Outcome(s, Some(CheckCondition(s, i).error))
    ensures CheckCondition(s, i) == Success(false) ==> o == Outcome(Machine.Advance(s), None)
    ensures o.fault.None? ==> o.state.incrementPc
    ensures s.halted ==> o.state.halted
  {
    match CheckCondition(s, i)
    case Failure(f) => Outcome(s, Some(f))
    case Success(execute) =>
      var e := if execute then Machine.ExecLine(s, Typed(i)) else Machine.Ok(s);
      if e.fault.Some? then Outcome(e.state, Some(CpuFault(e.fault.value)))
      else Outcome(Machine.Advance(e.state), None)
  }

  /** An executed instruction does in this revision what it does in the
      later one. */
  lemma CycleAgrees(s: Machine.CpuState, i: LegacyInstruction)
    requires s.pc as int < MaxInt && CheckCondition(s, i) == Success(true)
    ensures var m := Machine.Cycle(s, Typed(i));
      Cycle(s, i) == Outcome(m.state, if m.fault.Some? then Some(CpuFault(m.fault.value)) else None)
  {
  }

  datatype Status = Finished | Faulted(fault: Fault) | OutOfFuel

  datatype RunResult = RunResult(status: Status, state: Machine.CpuState)

  /** `exec_prog` (cpu.cpp:352-392) for at most `fuel` cycles: runs while
      the counter is inside the program, halted or not. */
  function Run(s: Machine.CpuState, prog: seq<LegacyInstruction>, fuel: nat): (r: RunResult)
    requires |prog| <= MaxInt
    ensures r.status == Finished ==> !(0 <= r.state.pc as int < |prog|)
    ensures |r.state.regs| == |s.regs|
    ensures s.halted ==> r.state.halted
    decreases fuel
  {
    if !(0 <= s.pc as int < |prog|) then RunResult(Finished, s)
    else if fuel == 0 then RunResult(OutOfFuel, s)
    else
      var o := Cycle(s, prog[s.pc]);
      if o.fault.Some? then RunResult(Faulted(o.fault.value), o.state)
      else Run(o.state, prog, fuel - 1)
  }

  /** The records of a program as the later processor sees them. */
  function TypedProgram(prog: seq<LegacyInstruction>): (r: seq<Instruction>)
    ensures |r| == |prog| && forall k :: 0 <= k < |prog| ==> r[k] == Typed(prog[k])
  {
    seq(|prog|, k requires 0 <= k < |prog| => Typed(prog[k]))
  }

  predicate Unconditional(prog: seq<LegacyInstruction>)
  {
    forall k :: 0 <= k < |prog| ==> prog[k].comp == NoComp
  }

  /** A program without conditions runs in this revision exactly as its
      typed records run in the later one. */
  lemma {:induction false} UnconditionalRunAgrees(s: Machine.CpuState, prog: seq<LegacyInstruction>, fuel: nat)
    requires |prog| <= MaxInt && Unconditional(prog)
    ensures var m := Machine.Run(s, TypedProgram(prog), fuel, false);
      Run(s, prog, fuel) ==
        RunResult(match m.status
                  case Finished => Finished
                  case OutOfFuel => OutOfFuel
                  case Faulted(f) => Faulted(CpuFault(f)),
                  m.state)
    decreases fuel
  {
    if 0 <= s.pc as int < |prog| && fuel > 0 {
      var i := prog[s.pc];
      CycleAgrees(s, i);
      var o := Cycle(s, i);
      if o.fault.None? {
        UnconditionalRunAgrees(o.state, prog, fuel - 1);
      }
    }
  }

  // ------------------------------------------------------------ in place

  /** `Cpu::check_condition` of this revision on a processor object. It
      changes nothing. */
  method EvalCondition(cpu: Cpu.Cpu, i: LegacyInstruction) returns (r: Result<bool, Fault>)
    requires cpu.Valid()
    ensures r == CheckCondition(cpu.State(), i)
  {
    if i.comp == NoComp {
      return Success(true);
    }
    var lhs: Int32;
    if i.cond1 == "ZF" {
      lhs := Bit(cpu.zf);
    } else if i.cond1 == "NF" {
      lhs := Bit(cpu.nf);
    } else if i.cond1 == "OF" {
      lhs := Bit(cpu.of);
    } else {
      return Failure(UnknownFlagName(i.cond1));
    }
    var rhs := StoI(i.cond2);
    if rhs.Failure? {
      return Failure(NotAConstant(i.cond2));
    }
    r := Success(Holds(i.comp, lhs as int, rhs.value as int));
  }

  /** The body of the loop of `exec_prog` (cpu.cpp:356-381) on a processor
      object. */
  method Step(cpu: Cpu.Cpu, i: LegacyInstruction) returns (fault: Option<Fault>)
    requires cpu.Valid() && cpu.pc as int < MaxInt
    modifies cpu, cpu.regs, cpu.alu
    ensures cpu.Valid()
    ensures Outcome(cpu.State(), fault) == Cycle(old(cpu.State()), i)
  {
    var execute := true;
    if i.comp != NoComp {
      var c := EvalCondition(cpu, i);
      if c.Failure? {
        return Some(c.error);
      }
      execute := c.value;
    }
    if execute {
      var f := cpu.ExecLine(Typed(i));
      if f.Some? {
        return Some(CpuFault(f.value));
      }
    }
    if cpu.incrementPc {
      cpu.pc := cpu.pc + 1;
    } else {
      cpu.incrementPc := true;
    }
    fault := None;
  }

  /** One turn of the loop of `exec_prog` as a step of `Run`: the run that
      was to give `target` goes on from the new state with one cycle less,
      or has ended with the fault. */
  method RunStep(cpu: Cpu.Cpu, prog: seq<LegacyInstruction>, fuel: nat, ghost target: RunResult)
      returns (fault: Option<Fault>, left: nat)
    requires cpu.Valid() && |prog| <= MaxInt && 0 <= cpu.pc as int < |prog| && fuel > 0
    requires Run(cpu.State(), prog, fuel) == target
    modifies cpu, cpu.regs, cpu.alu
    ensures cpu.Valid() && left == fuel - 1
    ensures fault.None? ==> Run(cpu.State(), prog, left) == target
    ensures fault.Some? ==> target == RunResult(Faulted(fault.value), cpu.State())
  {
    fault := Step(cpu, prog[cpu.pc]);
    left := fuel - 1;
  }

  /** A run whose counter is outside the program has finished; one inside it
      with no fuel left has run out. */
  lemma RunEnds(s: Machine.CpuState, prog: seq<LegacyInstruction>, fuel: nat)
    requires |prog| <= MaxInt
    ensures !(0 <= s.pc as int < |prog|) ==> Run(s, prog, fuel) == RunResult(Finished, s)
    ensures 0 <= s.pc as int < |prog| && fuel == 0 ==> Run(s, prog, fuel) == RunResult(OutOfFuel, s)
  {
  }

  /** `Cpu::exec_prog` of this revision (cpu.cpp:352-392) on a processor
      object, for at most `fuel` cycles. */
  method ExecProg(cpu: Cpu.Cpu, prog: seq<LegacyInstruction>, fuel: nat) returns (status: Status)
    requires cpu.Valid() && |prog| <= MaxInt
    modifies cpu, cpu.regs, cpu.alu
    ensures cpu.Valid()
    ensures RunResult(status, cpu.State()) == Run(old(cpu.State()), prog, fuel)
  {
    var left := fuel;
    ghost var target := Run(cpu.State(), prog, fuel);
    while 0 <= cpu.pc && (cpu.pc as int) < |prog|
      invariant cpu.Valid()
      invariant Run(cpu.State(), prog, left) == target
      decreases left
    {
      if left == 0 {
        RunEnds(cpu.State(), prog, left);
        return OutOfFuel;
      }
      var fault;
      fault, left := RunStep(cpu, prog, left, target);
      if fault.Some? {
        return Faulted(fault.value);
      }
    }
    RunEnds(cpu.State(), prog, left);
    return Finished;
  }
}
