/** The demonstration program of yatta.cpp:12-25, taken through the whole
    tool chain: read line by line, assembled, loaded at slot 0 of a memory
    that holds exactly its twelve records, and run on four registers. It
    subtracts 5 from 5, keeps the zero flag, jumps to the line guarded by
    `ZF == 0`, which is skipped, adds 20 to 20 and halts. */
module Demo {
  import opened Results
  import opened Ints
  import opened Text
  import opened Isa
  import Converter
  import Assembler
  import Machine
  import Computer

  /** The assembly lines of yatta.cpp:12-25. */
  const Lines: seq<string> := [
    "5 A1", "5 A2", "2 AF", "ZF R0", "5 PC ZF == 1", "10 R1 ZF == 0",
    "20 R2 ZF == 1", "R2 A1", "R2 A2", "1 AF", "30 R3 ZF == 0", "1 HF"]

  /** The three texts `parse_program_lines` makes of the lines. */
  const Raws: seq<RawInstruction> := [
    RawInstruction("5", "A1", ""), RawInstruction("5", "A2", ""),
    RawInstruction("2", "AF", ""), RawInstruction("ZF", "R0", ""),
    RawInstruction("5", "PC", "ZF == 1"), RawInstruction("10", "R1", "ZF == 0"),
    RawInstruction("20", "R2", "ZF == 1"), RawInstruction("R2", "A1", ""),
    RawInstruction("R2", "A2", ""), RawInstruction("1", "AF", ""),
    RawInstruction("30", "R3", "ZF == 0"), RawInstruction("1", "HF", "")]

  /** An unconditional move. */
  function Move(source: Operand, dest: Operand): Instruction
  {
    Instruction(source, dest, NoOperand, NoOperand, NoComp)
  }

  /** A move guarded by `ZF == z`. */
  function WhenZero(z: Int32, source: Operand, dest: Operand): Instruction
  {
    Instruction(source, dest, Operand(Flag, ZeroFlag), Operand(Constant, z), Eq)
  }

  /** The records the assembler makes of the lines. */
  const Program: seq<Instruction> := [
    Move(Operand(Constant, 5), Operand(AluPort, 1)),
    Move(Operand(Constant, 5), Operand(AluPort, 2)),
    Move(Operand(Constant, 2), Operand(Flag, AluTriggerFlag)),
    Move(Operand(Flag, ZeroFlag), Operand(Register, 0)),
    WhenZero(1, Operand(Constant, 5), Operand(ProgramCounter, 0)),
    WhenZero(0, Operand(Constant, 10), Operand(Register, 1)),
    WhenZero(1, Operand(Constant, 20), Operand(Register, 2)),
    Move(Operand(Register, 2), Operand(AluPort, 1)),
    Move(Operand(Register, 2), Operand(AluPort, 2)),
    Move(Operand(Constant, 1), Operand(Flag, AluTriggerFlag)),
    WhenZero(0, Operand(Constant, 30), Operand(Register, 3)),
    Move(Operand(Constant, 1), Operand(Flag, HaltFlag))]

  // ------------------------------------------------------------ reading

  /** Single-spaced words read as a line that trims to itself, with the
      first two words as source and destination and the rest as condition. */
  lemma ReadsAs(line: string, ws: seq<string>, raw: RawInstruction)
    requires AreWords(ws) && |ws| >= 2 && JoinSpaced(ws) == line
    requires raw == RawInstruction(ws[0], ws[1], JoinSpaced(Converter.ConditionWords(ws)))
    ensures line != [] && Trim(line) == line
    ensures Converter.LineFields(line) == Success(raw)
  {
    Converter.TrimJoined(ws);
    Converter.JoinEnds(ws);
    Converter.LineFieldsOfJoin(ws);
  }

  /** A line of two words moves the first to the second unconditionally. */
  lemma ReadsPlain(line: string, a: string, b: string)
    requires a != [] && NoSpace(a) && b != [] && NoSpace(b) && line == a + " " + b
    ensures line != [] && Trim(line) == line
    ensures Converter.LineFields(line) == Success(RawInstruction(a, b, ""))
  {
    Converter.JoinTwo(a, b);
    ReadsAs(line, [a, b], RawInstruction(a, b, ""));
  }

  /** A line of five words carries the last three as its condition. */
  lemma ReadsGuarded(line: string, a: string, b: string, c: string, op: string, d: string, condition: string)
    requires a != [] && NoSpace(a) && b != [] && NoSpace(b) && c != [] && NoSpace(c) && c != "?"
    requires op != [] && NoSpace(op) && d != [] && NoSpace(d)
    requires condition == c + " " + op + " " + d && line == a + " " + b + " " + condition
    ensures line != [] && Trim(line) == line
    ensures Converter.LineFields(line) == Success(RawInstruction(a, b, condition))
  {
    var cs := [c, op, d];
    var ws := [a, b] + cs;
    assert cs[1..] == [op, d] && ws[1..] == [b] + cs && ([b] + cs)[1..] == cs;
    Converter.JoinTwo(op, d);
    assert JoinSpaced(cs) == condition;
    assert JoinSpaced(ws) == line;
    assert Converter.ConditionWords(ws) == cs;
    ReadsAs(line, ws, RawInstruction(a, b, condition));
  }

  /** Each line is written single-spaced, so it reads as its three texts. */
  lemma Reads0()
    ensures Lines[0] != [] && Trim(Lines[0]) == Lines[0]
    ensures Converter.LineFields(Lines[0]) == Success(Raws[0])
  {
    ReadsPlain(Lines[0], "5", "A1");
  }

  lemma Reads1()
    ensures Lines[1] != [] && Trim(Lines[1]) == Lines[1]
    ensures Converter.LineFields(Lines[1]) == Success(Raws[1])
  {
    ReadsPlain(Lines[1], "5", "A2");
  }

  lemma Reads2()
    ensures Lines[2] != [] && Trim(Lines[2]) == Lines[2]
    ensures Converter.LineFields(Lines[2]) == Success(Raws[2])
  {
    ReadsPlain(Lines[2], "2", "AF");
  }

  lemma Reads3()
    ensures Lines[3] != [] && Trim(Lines[3]) == Lines[3]
    ensures Converter.LineFields(Lines[3]) == Success(Raws[3])
  {
    ReadsPlain(Lines[3], "ZF", "R0");
  }

  lemma Reads4()
    ensures Lines[4] != [] && Trim(Lines[4]) == Lines[4]
    ensures Converter.LineFields(Lines[4]) == Success(Raws[4])
  {
    ReadsGuarded(Lines[4], "5", "PC", "ZF", "==", "1", "ZF == 1");
  }

  lemma Reads5()
    ensures Lines[5] != [] && Trim(Lines[5]) == Lines[5]
    ensures Converter.LineFields(Lines[5]) == Success(Raws[5])
  {
    ReadsGuarded(Lines[5], "10", "R1", "ZF", "==", "0", "ZF == 0");
  }

  lemma Reads6()
    ensures Lines[6] != [] && Trim(Lines[6]) == Lines[6]
    ensures Converter.LineFields(Lines[6]) == Success(Raws[6])
  {
    ReadsGuarded(Lines[6], "20", "R2", "ZF", "==", "1", "ZF == 1");
  }

  lemma Reads7()
    ensures Lines[7] != [] && Trim(Lines[7]) == Lines[7]
    ensures Converter.LineFields(Lines[7]) == Success(Raws[7])
  {
    ReadsPlain(Lines[7], "R2", "A1");
  }

  lemma Reads8()
    ensures Lines[8] != [] && Trim(Lines[8]) == Lines[8]
    ensures Converter.LineFields(Lines[8]) == Success(Raws[8])
  {
    ReadsPlain(Lines[8], "R2", "A2");
  }

  lemma Reads9()
    ensures Lines[9] != [] && Trim(Lines[9]) == Lines[9]
    ensures Converter.LineFields(Lines[9]) == Success(Raws[9])
  {
    ReadsPlain(Lines[9], "1", "AF");
  }

  lemma Reads10()
    ensures Lines[10] != [] && Trim(Lines[10]) == Lines[10]
    ensures Converter.LineFields(Lines[10]) == Success(Raws[10])
  {
    ReadsGuarded(Lines[10], "30", "R3", "ZF", "==", "0", "ZF == 0");
  }

  lemma Reads11()
    ensures Lines[11] != [] && Trim(Lines[11]) == Lines[11]
    ensures Converter.LineFields(Lines[11]) == Success(Raws[11])
  {
    ReadsPlain(Lines[11], "1", "HF");
  }

  /** Every line reads as its three texts. */
  lemma Reads(k: nat)
    requires k < 12
    ensures Lines[k] != [] && Trim(Lines[k]) == Lines[k]
    ensures Converter.LineFields(Lines[k]) == Success(Raws[k])
  {
    if k == 0 { Reads0(); }
    else if k == 1 { Reads1(); }
    else if k == 2 { Reads2(); }
    else if k == 3 { Reads3(); }
    else if k == 4 { Reads4(); }
    else if k == 5 { Reads5(); }
    else if k == 6 { Reads6(); }
    else if k == 7 { Reads7(); }
    else if k == 8 { Reads8(); }
    else if k == 9 { Reads9(); }
    else if k == 10 { Reads10(); }
    else { Reads11(); }
  }

  /** `parse_program_lines` reads the twelve lines as the twelve texts. */
  lemma DemoReads()
    ensures Converter.ProgramLines(Lines) == Success(Raws)
  {
    forall k | 0 <= k < 12
      ensures Lines[k] != [] && Trim(Lines[k]) == Lines[k]
      ensures Converter.LineFields(Lines[k]) == Success(Raws[k])
    {
      Reads(k);
    }
    Converter.ProgramOfLines(Lines, Raws);
  }

  // ------------------------------------------------------------ assembling

  /** The canonical assembly of a record encodes back to it. */
  lemma EncodesAs(i: Instruction, raw: RawInstruction)
    requires Assembler.IsEncoded(i) && Assembler.Disassemble(i) == raw
    ensures Assembler.EncodeLine(raw) == Success(i)
  {
    Assembler.EncodeDisassemble(i);
  }

  /** Each text is the canonical assembly of its record, so it encodes to it. */
  lemma Encodes0() ensures Assembler.EncodeLine(Raws[0]) == Success(Program[0]) { EncodesAs(Program[0], Raws[0]); }
  lemma Encodes1() ensures Assembler.EncodeLine(Raws[1]) == Success(Program[1]) { EncodesAs(Program[1], Raws[1]); }
  lemma Encodes2() ensures Assembler.EncodeLine(Raws[2]) == Success(Program[2]) { EncodesAs(Program[2], Raws[2]); }
  lemma Encodes3() ensures Assembler.EncodeLine(Raws[3]) == Success(Program[3]) { EncodesAs(Program[3], Raws[3]); }
  lemma Encodes4() ensures Assembler.EncodeLine(Raws[4]) == Success(Program[4]) { EncodesAs(Program[4], Raws[4]); }
  lemma Encodes5() ensures Assembler.EncodeLine(Raws[5]) == Success(Program[5]) { EncodesAs(Program[5], Raws[5]); }
  lemma Encodes6() ensures Assembler.EncodeLine(Raws[6]) == Success(Program[6]) { EncodesAs(Program[6], Raws[6]); }
  lemma Encodes7() ensures Assembler.EncodeLine(Raws[7]) == Success(Program[7]) { EncodesAs(Program[7], Raws[7]); }
  lemma Encodes8() ensures Assembler.EncodeLine(Raws[8]) == Success(Program[8]) { EncodesAs(Program[8], Raws[8]); }
  lemma Encodes9() ensures Assembler.EncodeLine(Raws[9]) == Success(Program[9]) { EncodesAs(Program[9], Raws[9]); }
  lemma Encodes10() ensures Assembler.EncodeLine(Raws[10]) == Success(Program[10]) { EncodesAs(Program[10], Raws[10]); }
  lemma Encodes11() ensures Assembler.EncodeLine(Raws[11]) == Success(Program[11]) { EncodesAs(Program[11], Raws[11]); }

  /** Every line of the program encodes to its record. */
  lemma Encodes(k: nat)
    requires k < 12
    ensures Assembler.EncodeLine(Raws[k]) == Success(Program[k])
  {
    if k == 0 { Encodes0(); }
    else if k == 1 { Encodes1(); }
    else if k == 2 { Encodes2(); }
    else if k == 3 { Encodes3(); }
    else if k == 4 { Encodes4(); }
    else if k == 5 { Encodes5(); }
    else if k == 6 { Encodes6(); }
    else if k == 7 { Encodes7(); }
    else if k == 8 { Encodes8(); }
    else if k == 9 { Encodes9(); }
    else if k == 10 { Encodes10(); }
    else { Encodes11(); }
  }

  /** `decode_program` and `string_to_instr` turn the twelve texts into the
      twelve records. */
  lemma DemoAssembles()
    ensures Assembler.AssembleProgram(Raws) == Success(Program)
  {
    forall k | 0 <= k < 12
      ensures Assembler.EncodeLine(Raws[k]) == Success(Program[k])
    {
      Encodes(k);
    }
    Assembler.AssembleEach(Raws, Program);
  }

  // ------------------------------------------------------------ running

  /** A state of the run: no pending ALU operation, no negative or overflow
      flag, the counter re-armed. */
  function At(regs: seq<Int32>, result: Int32, a: Int32, b: Int32, zero: bool, pc: Int32, halted: bool): Machine.CpuState
  {
    Machine.CpuState(regs, [result, a, b], 0, zero, false, false, pc, true, halted)
  }

  // The states after each cycle of the run, from the start at slot 0.
  const State0: Machine.CpuState := At([0, 0, 0, 0], 0, 0, 0, false, 0, false)
  const State1: Machine.CpuState := At([0, 0, 0, 0], 0, 5, 0, false, 1, false)
  const State2: Machine.CpuState := At([0, 0, 0, 0], 0, 5, 5, false, 2, false)
  const State3: Machine.CpuState := At([0, 0, 0, 0], 0, 5, 5, true, 3, false)
  const State4: Machine.CpuState := At([1, 0, 0, 0], 0, 5, 5, true, 4, false)
  const State5: Machine.CpuState := At([1, 0, 0, 0], 0, 5, 5, true, 5, false)
  const State6: Machine.CpuState := At([1, 0, 0, 0], 0, 5, 5, true, 6, false)
  const State7: Machine.CpuState := At([1, 0, 20, 0], 0, 5, 5, true, 7, false)
  const State8: Machine.CpuState := At([1, 0, 20, 0], 0, 20, 5, true, 8, false)
  const State9: Machine.CpuState := At([1, 0, 20, 0], 0, 20, 20, true, 9, false)
  const State10: Machine.CpuState := At([1, 0, 20, 0], 40, 20, 20, false, 10, false)
  const State11: Machine.CpuState := At([1, 0, 20, 30], 40, 20, 20, false, 11, false)
  const State12: Machine.CpuState := At([1, 0, 20, 30], 40, 20, 20, false, 12, true)

  /** `5 A1` stores the first operand. */
  lemma Cycle0()
    ensures Machine.Cycle(State0, Program[0]) == Machine.Ok(State1)
  {
  }

  /** `5 A2` stores the second operand. */
  lemma Cycle1()
    ensures Machine.Cycle(State1, Program[1]) == Machine.Ok(State2)
  {
  }

  /** `2 AF` subtracts: 5 - 5 is 0, so the zero flag is set. */
  lemma Cycle2()
    ensures Machine.Cycle(State2, Program[2]) == Machine.Ok(State3)
  {
  }

  /** `ZF R0` copies the zero flag into R0. */
  lemma Cycle3()
    ensures Machine.Cycle(State3, Program[3]) == Machine.Ok(State4)
  {
  }

  /** `5 PC ZF == 1` jumps to slot 5; the counter is not incremented. */
  lemma Cycle4()
    ensures Machine.Cycle(State4, Program[4]) == Machine.Ok(State5)
  {
  }

  /** `10 R1 ZF == 0` is skipped. */
  lemma Cycle5()
    ensures Machine.Cycle(State5, Program[5]) == Machine.Ok(State6)
  {
  }

  /** `20 R2 ZF == 1` sets R2. */
  lemma Cycle6()
    ensures Machine.Cycle(State6, Program[6]) == Machine.Ok(State7)
  {
  }

  /** `R2 A1` stores the first operand; nothing is pending, so nothing is computed. */
  lemma Cycle7()
    ensures Machine.Cycle(State7, Program[7]) == Machine.Ok(State8)
  {
  }

  /** `R2 A2` stores the second operand. */
  lemma Cycle8()
    ensures Machine.Cycle(State8, Program[8]) == Machine.Ok(State9)
  {
  }

  /** `1 AF` adds: 20 + 20 is 40, and the zero flag is cleared. */
  lemma Cycle9()
    ensures Machine.Cycle(State9, Program[9]) == Machine.Ok(State10)
  {
  }

  /** `30 R3 ZF == 0` sets R3. */
  lemma Cycle10()
    ensures Machine.Cycle(State10, Program[10]) == Machine.Ok(State11)
  {
  }

  /** `1 HF` halts. */
  lemma Cycle11()
    ensures Machine.Cycle(State11, Program[11]) == Machine.Ok(State12)
  {
  }

  /** One cycle that does not fault moves a run on to its next state. */
  lemma Then(prog: seq<Instruction>, s: Machine.CpuState, t: Machine.CpuState, fuel: nat, rest: nat)
    requires |prog| <= MaxInt && 0 <= s.pc as int < |prog| && !s.halted && fuel == rest + 1
    requires Machine.Cycle(s, prog[s.pc]) == Machine.Ok(t)
    ensures Machine.Run(s, prog, fuel, true) == Machine.Run(t, prog, rest, true)
  {
    var o := Machine.Cycle(s, prog[s.pc]);
    assert o.fault.None? && o.state == t;
    Machine.RunCycle(s, prog, fuel, true);
    assert Machine.Run(s, prog, fuel, true) == Machine.Run(t, prog, fuel - 1, true);
  }

  /** Cycles 0 to 2. */
  lemma Run0To3(fuel: nat, rest: nat)
    requires fuel == rest + 3
    ensures Machine.Run(State0, Program, fuel, true) == Machine.Run(State3, Program, rest, true)
  {
    var f1, f2 := rest + 2, rest + 1;
    Cycle0(); Then(Program, State0, State1, fuel, f1);
    Cycle1(); Then(Program, State1, State2, f1, f2);
    Cycle2(); Then(Program, State2, State3, f2, rest);
  }

  /** Cycles 3 to 5. */
  lemma Run3To6(fuel: nat, rest: nat)
    requires fuel == rest + 3
    ensures Machine.Run(State3, Program, fuel, true) == Machine.Run(State6, Program, rest, true)
  {
    var f1, f2 := rest + 2, rest + 1;
    Cycle3(); Then(Program, State3, State4, fuel, f1);
    Cycle4(); Then(Program, State4, State5, f1, f2);
    Cycle5(); Then(Program, State5, State6, f2, rest);
  }

  /** Cycles 6 to 8. */
  lemma Run6To9(fuel: nat, rest: nat)
    requires fuel == rest + 3
    ensures Machine.Run(State6, Program, fuel, true) == Machine.Run(State9, Program, rest, true)
  {
    var f1, f2 := rest + 2, rest + 1;
    Cycle6(); Then(Program, State6, State7, fuel, f1);
    Cycle7(); Then(Program, State7, State8, f1, f2);
    Cycle8(); Then(Program, State8, State9, f2, rest);
  }

  /** Cycles 9 to 11. */
  lemma Run9To12(fuel: nat, rest: nat)
    requires fuel == rest + 3
    ensures Machine.Run(State9, Program, fuel, true) == Machine.Run(State12, Program, rest, true)
  {
    var f1, f2 := rest + 2, rest + 1;
    Cycle9(); Then(Program, State9, State10, fuel, f1);
    Cycle10(); Then(Program, State10, State11, f1, f2);
    Cycle11(); Then(Program, State11, State12, f2, rest);
  }

  /** A fresh processor with four registers is the first state of the run. */
  lemma StartsAtZero()
    ensures Machine.Initial(4) == State0
  {
    assert Machine.Initial(4).regs == [0, 0, 0, 0];
  }

  /** Cycles 0 to 5. */
  lemma Run0To6(fuel: nat, rest: nat)
    requires fuel == rest + 6
    ensures Machine.Run(State0, Program, fuel, true) == Machine.Run(State6, Program, rest, true)
  {
    var middle := rest + 3;
    Run0To3(fuel, middle);
    Run3To6(middle, rest);
  }

  /** Cycles 6 to 11: the run halts at slot 12. */
  lemma Run6To12(fuel: nat)
    requires fuel >= 6
    ensures Machine.Run(State6, Program, fuel, true) == Machine.RunResult(Machine.Finished, State12)
  {
    var middle, rest := fuel - 3, fuel - 6;
    Run6To9(fuel, middle);
    Run9To12(middle, rest);
    Machine.RunEnds(State12, Program, rest, true);
  }

  /** `run_from_ram(0)` with four registers, given at least twelve cycles,
      halts at slot 12 with R0 = 1, R2 = 20, R3 = 30, 40 in the ALU result
      and the zero flag clear. */
  lemma DemoRun(fuel: nat)
    requires fuel >= 12
    ensures Machine.Run(Machine.Initial(4), Program, fuel, true) == Machine.RunResult(Machine.Finished, State12)
  {
    var rest := fuel - 6;
    StartsAtZero();
    Run0To6(fuel, rest);
    Run6To12(rest);
  }

  // ------------------------------------------------------------ the driver

  /** `put_program(prog_raw, 0)` into twelve zero slots fills them with the
      twelve records. */
  lemma DemoLoads(empty: seq<Instruction>)
    requires |empty| == |Program|
    ensures Computer.LoadRaw(empty, Raws, 0) == Success(Program)
  {
    DemoAssembles();
    Computer.LoadRawWhole(empty, Raws, Program);
  }

  /** `run_from_ram(0)` on the loaded memory halts in `State12`. */
  lemma DemoRunsFromRam(fuel: nat)
    requires fuel >= 12
    ensures Computer.RunFrom(Machine.Initial(4), Program, 0, fuel) ==
      Success(Machine.RunResult(Machine.Finished, State12))
  {
    StartsAtZero();
    assert Machine.Initial(4).(pc := 0, incrementPc := true) == Machine.Initial(4);
    DemoRun(fuel);
  }

  /** An error that ends the driver: a line with too few words, or an
      exception of `put_program` or `run_from_ram`. */
  datatype DriverError = Read(line: Converter.LineError) | Memory(memory: Computer.MemoryError)

  /** What the driver of yatta.cpp:27-39 does with `lines`, on `registers`
      registers and for at most `fuel` cycles: read the lines, size memory
      to hold exactly their records, load them at slot 0 and run from
      slot 0. */
  function Boot(lines: seq<string>, registers: nat, fuel: nat): (r: Result<Machine.RunResult, DriverError>)
    requires |lines| * Computer.InstructionSize <= MaxInt
    ensures Converter.ProgramLines(lines).Failure? ==> r == Failure(Read(Converter.ProgramLines(lines).error))
    ensures r.Success? ==>
              && Converter.ProgramLines(lines).Success?
              && Assembler.AssembleProgram(Converter.ProgramLines(lines).value).Success?
              && Converter.ProgramLines(lines).value != []
  {
    match Converter.ProgramLines(lines)
    case Failure(e) => Failure(Read(e))
    case Success(raws) =>
      match Computer.LoadRaw(seq(|raws|, _ => ZeroInstruction), raws, 0)
      case Failure(e) => Failure(Memory(e))
      case Success(mem) =>
        match Computer.RunFrom(Machine.Initial(registers), mem, 0, fuel)
        case Failure(e) => Failure(Memory(e))
        case Success(run) => Success(run)
  }

  /** The driver of yatta.cpp:27-39 on a `Computer`, with an exception
      returned as the error that ends it. */
  method Drive(lines: seq<string>, registers: nat, fuel: nat) returns (r: Result<Machine.RunResult, DriverError>)
    requires |lines| * Computer.InstructionSize <= MaxInt
    ensures r == Boot(lines, registers, fuel)
  {
    var raws := Converter.ParseProgramLines(lines);
    if raws.Failure? {
      return Failure(Read(raws.error));
    }
    var c := new Computer.Computer(|raws.value| * Computer.InstructionSize, registers);
    assert c.memory[..] == seq(|raws.value|, _ => ZeroInstruction);
    var loaded := c.PutRawProgram(raws.value, 0);
    if loaded.Some? {
      return Failure(Memory(loaded.value));
    }
    var run := c.RunFromRam(0, fuel);
    if run.Failure? {
      return Failure(Memory(run.error));
    }
    r := Success(Machine.RunResult(run.value, c.cpu.State()));
  }

  /** yatta.cpp run as written, given at least twelve cycles: the program
      halts at slot 12 in `State12`. */
  lemma DemoBoots(fuel: nat)
    requires fuel >= 12
    ensures Boot(Lines, 4, fuel) == Success(Machine.RunResult(Machine.Finished, State12))
  {
    DemoReads();
    DemoLoads(seq(|Raws|, _ => ZeroInstruction));
    DemoRunsFromRam(fuel);
  }
}
