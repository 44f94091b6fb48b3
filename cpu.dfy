/** The `Cpu` object of src/cpu.hpp:47-78 and src/cpu.cpp: the register
    file and the ALU ports are arrays updated in place, the flags and the
    program counter are fields. Every method is proved to do what the
    function of the same name in `Machine` says. */
module Cpu {
  import opened Results
  import opened Ints
  import opened Isa
  import opened Alu
  import Machine

  class Cpu {
    /** The register file, `regs` (its size is fixed at construction). */
    const regs: array<Int32>
    /** The ALU ports: `alu[0]` result, `alu[1]` and `alu[2]` operands. */
    const alu: array<Int32>
    var trigger: Int32
    var zf: bool
    var nf: bool
    var of: bool
    var pc: Int32
    var incrementPc: bool
    var halted: bool

    predicate Valid()
      reads this
    {
      alu.Length == 3 && regs != alu
    }

    /** The abstract state the methods are specified against. */
    function State(): (s: Machine.CpuState)
      reads this, regs, alu
      requires Valid()
      ensures s.regs == regs[..] && s.alu == alu[..] && s.pc == pc && s.halted == halted
    {
      Machine.CpuState(regs[..], alu[..], trigger, zf, nf, of, pc, incrementPc, halted)
    }

    /** `Cpu(reg, bus)` (src/cpu.cpp:243-248): `registers` zeroed registers,
        zeroed ports and flags, the counter at 0 and armed. */
    constructor(registers: nat)
      ensures Valid() && State() == Machine.Initial(registers)
      ensures fresh(regs) && fresh(alu)
    {
      regs := new Int32[registers](_ => 0);
      alu := new Int32[3](_ => 0);
      trigger := 0;
      zf, nf, of := false, false, false;
      pc := 0;
      incrementPc := true;
      halted := false;
      new;
      assert alu[..] == [0, 0, 0];
    }

    /** `update_alu` (src/cpu.cpp:49-93). */
    method UpdateAlu() returns (fault: Option<Machine.Fault>)
      requires Valid()
      modifies this, alu
      ensures Valid()
      ensures Machine.Outcome(State(), fault) == Machine.UpdateAlu(old(State()))
    {
      if trigger != 0 {
        of, nf, zf := false, false, false;
        var a, b := alu[1], alu[2];
        if trigger == 4 && b == 0 {
          return Some(Machine.DivisionByZero);
        }
        if trigger == 4 && a as int == MinInt && b == -1 {
          return Some(Machine.DivisionOverflow);
        }
        var result, overflow := Compute(trigger, a, b, alu[0]);
        alu[0] := result;
        of := overflow;
        zf := alu[0] == 0;
        nf := alu[0] < 0;
        trigger := 0;
      }
      return None;
    }

    /** The `switch` of `update_alu` (src/cpu.cpp:57-80) on the trigger. */
    static method Compute(trigger: Int32, a: Int32, b: Int32, current: Int32) returns (result: Int32, overflow: bool)
      requires trigger == 4 ==> b != 0 && !(a as int == MinInt && b == -1)
      ensures (result, overflow) == Machine.AluResult(trigger, a, b, current)
    {
      result, overflow := current, false;
      if trigger == 1 {
        var r := CheckAdd(a, b);
        if r.Some? { result := r.value; } else { result, overflow := 0, true; }
      } else if trigger == 2 {
        var r := CheckSub(a, b);
        if r.Some? { result := r.value; } else { result, overflow := 0, true; }
      } else if trigger == 3 {
        var r := CheckMul(a, b);
        if r.Some? { result := r.value; } else { result, overflow := 0, true; }
      } else if trigger == 4 {
        QuotFits(a, b);
        result := Quot(a as int, b as int) as Int32;
      }
    }

    /** The source read of `exec_line` (src/cpu.cpp:159-197). */
    method ReadSource(op: Operand) returns (r: Result<Int32, Machine.Fault>)
      requires Valid()
      ensures r == Machine.ReadSource(State(), op)
    {
      if op.kind == Constant {
        r := Success(op.value);
      } else if op.kind == Register {
        if op.value < 0 || op.value as int >= regs.Length {
          return Failure(Machine.SourceRegisterOutOfRange(op.value));
        }
        r := Success(regs[op.value]);
      } else if op.kind == AluPort {
        if op.value < 0 || op.value > 2 {
          return Failure(Machine.AluSourceOutOfRange(op.value));
        }
        r := Success(alu[op.value]);
      } else if op.kind == Flag {
        if op.value == AluTriggerFlag {
          r := Success(trigger);
        } else if op.value == ZeroFlag {
          r := Success(Bit(zf));
        } else if op.value == NegativeFlag {
          r := Success(Bit(nf));
        } else if op.value == OverflowFlag {
          r := Success(Bit(of));
        } else {
          r := Failure(Machine.UnknownFlagSource(op.value));
        }
      } else if op.kind == ProgramCounter {
        r := Success(pc);
      } else {
        r := Failure(Machine.UnknownSourceType(op.kind));
      }
    }

    /** `compute_value` inside `check_condition` (src/cpu.cpp:109-134). */
    method ConditionValue(op: Operand) returns (r: Result<Int32, Machine.Fault>)
      requires Valid()
      ensures r == Machine.ConditionValue(State(), op)
    {
      if op.kind == NoKind {
        r := Failure(Machine.MissingConditionType);
      } else if op == Operand(Flag, HaltFlag) {
        r := Success(Bit(halted));
      } else if op.kind == Flag && op.value != AluTriggerFlag && op.value != ZeroFlag
             && op.value != NegativeFlag && op.value != OverflowFlag {
        r := Failure(Machine.InvalidConditionFlag(op.value));
      } else if op.kind == Register && (op.value < 0 || op.value as int >= regs.Length) {
        r := Failure(Machine.ConditionRegisterOutOfRange(op.value));
      } else if op.kind == AluPort && (op.value < 0 || op.value > 2) {
        r := Failure(Machine.ConditionAluOutOfRange(op.value));
      } else if op.kind < Constant || op.kind > ProgramCounter {
        r := Failure(Machine.UnknownConditionType(op.kind));
      } else {
        r := ReadSource(op);
      }
    }

    /** `check_condition` (src/cpu.cpp:104-147). It changes nothing. */
    method CheckCondition(i: Instruction) returns (r: Result<bool, Machine.Fault>)
      requires Valid()
      ensures r == Machine.CheckCondition(State(), i)
    {
      if i.comp == NoComp {
        return Success(true);
      }
      var lhs := ConditionValue(i.cond1);
      if lhs.Failure? {
        return Failure(lhs.error);
      }
      var rhs := ConditionValue(i.cond2);
      if rhs.Failure? {
        return Failure(rhs.error);
      }
      r := Success(Holds(i.comp, lhs.value as int, rhs.value as int));
    }

    /** The destination write of `exec_line` (src/cpu.cpp:200-238). */
    method WriteDest(dest: Operand, v: Int32) returns (fault: Option<Machine.Fault>)
      requires Valid()
      modifies this, regs, alu
      ensures Valid()
      ensures Machine.Outcome(State(), fault) == Machine.WriteDest(old(State()), dest, v)
    {
      if dest.kind == Constant {
        fault := None;
      } else if dest.kind == Register {
        if dest.value < 0 || dest.value as int >= regs.Length {
          return Some(Machine.DestRegisterOutOfRange(dest.value));
        }
        regs[dest.value] := v;
        fault := None;
      } else if dest.kind == AluPort {
        if dest.value < 1 || dest.value > 2 {
          return Some(Machine.AluDestOutOfRange(dest.value));
        }
        alu[dest.value] := v;
        fault := UpdateAlu();
      } else if dest.kind == Flag {
        if dest.value == AluTriggerFlag {
          trigger := v;
          fault := UpdateAlu();
        } else if dest.value == HaltFlag {
          if v != 0 {
            halted := true;
          }
          fault := None;
        } else {
          fault := Some(Machine.ReadOnlyFlagDest(dest.value));
        }
      } else if dest.kind == ProgramCounter {
        pc := v;
        incrementPc := false;
        fault := None;
      } else {
        fault := Some(Machine.UnknownDestType(dest.kind));
      }
    }

    /** `exec_line` (src/cpu.cpp:149-241). */
    method ExecLine(i: Instruction) returns (fault: Option<Machine.Fault>)
      requires Valid()
      modifies this, regs, alu
      ensures Valid()
      ensures Machine.Outcome(State(), fault) == Machine.ExecLine(old(State()), i)
    {
      if halted {
        return None;
      }
      fault := UpdateAlu();
      if fault.Some? {
        return;
      }
      var v := ReadSource(i.source);
      if v.Failure? {
        return Some(v.error);
      }
      fault := WriteDest(i.dest, v.value);
    }

    /** One turn of the fetch loops (src/cpu.cpp:256-280, the same in
        src/computer.cpp:96-112): check the condition, execute or skip,
        step the counter. */
    method Cycle(i: Instruction) returns (fault: Option<Machine.Fault>)
      requires Valid() && pc as int < MaxInt
      modifies this, regs, alu
      ensures Valid()
      ensures Machine.Outcome(State(), fault) == Machine.Cycle(old(State()), i)
    {
      var execute := true;
      if i.comp != NoComp {
        var c := CheckCondition(i);
        if c.Failure? {
          return Some(c.error);
        }
        execute := c.value;
      }
      if execute {
        fault := ExecLine(i);
        if fault.Some? {
          return;
        }
      }
      if incrementPc {
        pc := pc + 1;
      } else {
        incrementPc := true;
      }
      fault := None;
    }

    /** One turn of a fetch loop as a step of `Machine.Run`: the run that
        was to give `target` goes on from the new state with one cycle
        less, or has ended with the fault. */
    method RunStep(prog: seq<Instruction>, fuel: nat, stopOnHalt: bool, ghost target: Machine.RunResult)
        returns (fault: Option<Machine.Fault>, left: nat)
      requires Valid() && |prog| <= MaxInt && 0 <= pc as int < |prog| && !(stopOnHalt && halted)
      requires fuel > 0 && Machine.Run(State(), prog, fuel, stopOnHalt) == target
      modifies this, regs, alu
      ensures Valid() && left == fuel - 1
      ensures fault.None? ==> Machine.Run(State(), prog, left, stopOnHalt) == target
      ensures fault.Some? ==> target == Machine.RunResult(Machine.Faulted(fault.value), State())
    {
      fault := Cycle(prog[pc]);
      left := fuel - 1;
    }

    /** `exec_prog` (src/cpu.cpp:250-290), for at most `fuel` cycles: runs
        while the counter is inside the program, halted or not. */
    method ExecProg(prog: seq<Instruction>, fuel: nat) returns (status: Machine.Status)
      requires Valid() && |prog| <= MaxInt
      modifies this, regs, alu
      ensures Valid()
      ensures Machine.RunResult(status, State()) == Machine.Run(old(State()), prog, fuel, false)
    {
      var left := fuel;
      ghost var target := Machine.Run(State(), prog, fuel, false);
      while 0 <= pc && (pc as int) < |prog|
        invariant Valid()
        invariant Machine.Run(State(), prog, left, false) == target
        decreases left
      {
        if left == 0 {
          Machine.RunEnds(State(), prog, left, false);
          return Machine.OutOfFuel;
        }
        var fault;
        fault, left := RunStep(prog, left, false, target);
        if fault.Some? {
          return Machine.Faulted(fault.value);
        }
      }
      Machine.RunEnds(State(), prog, left, false);
      return Machine.Finished;
    }
  }
}
