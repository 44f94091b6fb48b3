/** The `Computer` of src/computer.cpp: a processor and a zero-filled memory
    of `memory_size` bytes into which programs are copied record by record
    and from which the processor fetches them. The memory is modelled as the
    array of the 40-byte record slots that fit in it. */
module Computer {
  import opened Results
  import opened Ints
  import opened Isa
  import opened Operands
  import Assembler
  import Machine
  import Cpu

  /** `sizeof(Instruction)`: eight 4-byte `int` fields and `char comp[8]`. */
  const InstructionSize: nat := 40

  /** The runtime errors of `put_program`, `read_program` and
      `run_from_ram`, and the assembler error `put_program` passes on. */
  datatype MemoryError =
    | NegativeAddress
    | NotEnoughMemory
    | AddressOutOfRange
    | Assembly(error: AsmError)

  // ------------------------------------------------------------ slot bounds

  /** The whole record at slot `a` lies inside `bytes` bytes: the bound
      `read_program` checks (src/computer.cpp:70-73). */
  predicate SlotInBounds(a: int, bytes: nat)
  {
    0 <= a && a * InstructionSize + InstructionSize <= bytes
  }

  /** A slot is in bounds exactly when it is one of the whole slots. */
  lemma SlotInBoundsExact(a: int, bytes: nat)
    ensures SlotInBounds(a, bytes) <==> 0 <= a < bytes / InstructionSize
  {
    if 0 <= a {
      var q, m := bytes / InstructionSize, bytes % InstructionSize;
      assert bytes == q * InstructionSize + m;
      if a < q {
        assert (q - a) * InstructionSize >= InstructionSize;
      } else {
        assert (a - q) * InstructionSize >= 0;
      }
    }
  }

  /** A program of `n` records starting at slot `a` fits: the bound
      `put_program` checks (src/computer.cpp:31-34). */
  lemma RangeFitsExact(a: nat, n: nat, bytes: nat)
    ensures (a + n) * InstructionSize <= bytes <==> a + n <= bytes / InstructionSize
  {
    var q, m := bytes / InstructionSize, bytes % InstructionSize;
    assert bytes == q * InstructionSize + m;
    if a + n <= q {
      assert (q - (a + n)) * InstructionSize >= 0;
    } else {
      assert (a + n - q) * InstructionSize >= InstructionSize;
    }
  }

  /** The bound of `run_from_ram` as written (src/computer.cpp:83-84, 89):
      only the first byte of the slot is required to lie in memory. */
  predicate RunGuardAsWritten(a: int, bytes: nat)
  {
    0 <= a && a * InstructionSize < bytes
  }

  /** With 50 bytes of memory slot 1 passes the written bound although only
      10 of its 40 bytes exist: the record is copied from past the end. */
  lemma PartialSlotAdmitted()
    ensures RunGuardAsWritten(1, 50) && !SlotInBounds(1, 50)
  {
  }

  /** The written bound admits exactly the whole slots plus, when the size
      is not a multiple of 40, the partial slot at the end. */
  lemma RunGuardAsWrittenAdmits(a: int, bytes: nat)
    ensures RunGuardAsWritten(a, bytes) <==>
      SlotInBounds(a, bytes) || (a == bytes / InstructionSize && bytes % InstructionSize != 0)
  {
    SlotInBoundsExact(a, bytes);
    var q, m := bytes / InstructionSize, bytes % InstructionSize;
    assert bytes == q * InstructionSize + m;
    if 0 <= a {
      if a < q {
        assert (q - a) * InstructionSize >= InstructionSize;
      } else if a == q {
      } else {
        assert (a - q) * InstructionSize >= InstructionSize;
      }
    }
  }

  // ------------------------------------------------------------ memory as slots

  /** `mem` with `prog` copied in from slot `start` on. */
  function Store(mem: seq<Instruction>, prog: seq<Instruction>, start: nat): (r: seq<Instruction>)
    requires start + |prog| <= |mem|
    ensures |r| == |mem|
    ensures forall k :: 0 <= k < |prog| ==> r[start + k] == prog[k]
    ensures forall k :: 0 <= k < |mem| && !(start <= k < start + |prog|) ==> r[k] == mem[k]
  {
    mem[..start] + prog + mem[start + |prog|..]
  }

  /** `put_program` for records (src/computer.cpp:45-65) on the slots: a
      negative start is refused, an empty program changes nothing, a
      program that does not fit is refused, otherwise it is stored. */
  function Load(mem: seq<Instruction>, prog: seq<Instruction>, start: int): (r: Result<seq<Instruction>, MemoryError>)
    ensures start < 0 ==> r == Failure(NegativeAddress)
    ensures start >= 0 && prog == [] ==> r == Success(mem)
    ensures start >= 0 && prog != [] ==> (r.Failure? <==> start + |prog| > |mem|)
    ensures r.Failure? ==> r.error != AddressOutOfRange && !r.error.Assembly?
    ensures r.Success? ==> |r.value| == |mem|
  {
    if start < 0 then Failure(NegativeAddress)
    else if prog == [] then Success(mem)
    else if start + |prog| > |mem| then Failure(NotEnoughMemory)
    else Success(Store(mem, prog, start))
  }

  /** `put_program` for assembly lines (src/computer.cpp:20-43): the start
      is checked before the lines are assembled, then the records are
      loaded. */
  function LoadRaw(mem: seq<Instruction>, raws: seq<RawInstruction>, start: int): (r: Result<seq<Instruction>, MemoryError>)
    ensures start < 0 ==> r == Failure(NegativeAddress)
    ensures start >= 0 && Assembler.AssembleProgram(raws).Failure? ==>
      r == Failure(Assembly(Assembler.AssembleProgram(raws).error))
    ensures Assembler.AssembleProgram(raws).Success? ==>
      r == Load(mem, Assembler.AssembleProgram(raws).value, start)
  {
    if start < 0 then Failure(NegativeAddress)
    else match Assembler.AssembleProgram(raws)
      case Failure(e) => Failure(Assembly(e))
      case Success(prog) => Load(mem, prog, start)
  }

  /** Lines that assemble to as many records as memory has slots fill
      the whole memory when loaded at slot 0. */
  lemma LoadRawWhole(mem: seq<Instruction>, raws: seq<RawInstruction>, prog: seq<Instruction>)
    requires |mem| == |prog| && Assembler.AssembleProgram(raws) == Success(prog)
    ensures LoadRaw(mem, raws, 0) == Success(prog)
  {
    if prog != [] {
      var r := Store(mem, prog, 0);
      assert forall k :: 0 <= k < |prog| ==> r[k] == prog[k];
      assert r == prog;
    }
  }

  /** `read_program` (src/computer.cpp:67-77) on the slots. */
  function Peek(mem: seq<Instruction>, address: int): (r: Result<Instruction, MemoryError>)
    ensures r.Success? <==> 0 <= address < |mem|
    ensures address < 0 ==> r == Failure(NegativeAddress)
    ensures r.Success? ==> r.value == mem[address]
  {
    if address < 0 then Failure(NegativeAddress)
    else if address >= |mem| then Failure(AddressOutOfRange)
    else Success(mem[address])
  }

  /** Reading back after a load: the slots of the program hold its records,
      every other slot reads as before. */
  lemma {:induction false} PeekAfterLoad(mem: seq<Instruction>, prog: seq<Instruction>, start: int, address: int)
    requires Load(mem, prog, start).Success?
    ensures Peek(Load(mem, prog, start).value, address) ==
      if start <= address < start + |prog| then Success(prog[address - start]) else Peek(mem, address)
  {
    var m := Load(mem, prog, start).value;
    if start <= address < start + |prog| {
      assert m[start + (address - start)] == prog[address - start];
    }
  }

  /** `run_from_ram` (src/computer.cpp:79-114) on the slots, for at most
      `fuel` cycles: the start is checked, the counter is set to it and
      re-armed, and the fetch loop runs until the counter leaves memory, the
      processor halts or an exception is thrown. */
  function RunFrom(s: Machine.CpuState, mem: seq<Instruction>, start: int, fuel: nat): (r: Result<Machine.RunResult, MemoryError>)
    requires |mem| <= MaxInt
    ensures r.Success? <==> 0 <= start < |mem|
    ensures start < 0 ==> r == Failure(NegativeAddress)
    ensures start >= |mem| ==> r == Failure(AddressOutOfRange)
    ensures r.Success? ==> r.value == Machine.Run(s.(pc := start as Int32, incrementPc := true), mem, fuel, true)
    ensures r.Success? && r.value.status == Machine.Finished ==>
      r.value.state.halted || !(0 <= r.value.state.pc as int < |mem|)
  {
    if start < 0 then Failure(NegativeAddress)
    else if start >= |mem| then Failure(AddressOutOfRange)
    else Success(Machine.Run(s.(pc := start as Int32, incrementPc := true), mem, fuel, true))
  }

  class Computer {
    /** `memory.size()`: the size of memory in bytes. */
    const bytes: nat
    /** The whole record slots of memory. */
    const memory: array<Instruction>
    const cpu: Cpu.Cpu

    predicate Valid()
      reads this, cpu
    {
      bytes <= MaxInt && memory.Length == bytes / InstructionSize && memory.Length <= MaxInt && cpu.Valid()
    }

    /** `Computer(memory_size, reg, bus)` (src/computer.cpp:12-18): a fresh
        processor and `memorySize` zero bytes, so every slot holds the
        all-zero record. */
    constructor(memorySize: nat, registers: nat)
      requires memorySize <= MaxInt
      ensures Valid() && bytes == memorySize
      ensures forall k :: 0 <= k < memory.Length ==> memory[k] == ZeroInstruction
      ensures cpu.State() == Machine.Initial(registers)
      ensures fresh(memory) && fresh(cpu) && fresh(cpu.regs) && fresh(cpu.alu)
    {
      bytes := memorySize;
      memory := new Instruction[memorySize / InstructionSize](_ => ZeroInstruction);
      cpu := new Cpu.Cpu(registers);
    }

    /** `put_program` for records (src/computer.cpp:45-65). */
    method PutProgram(prog: seq<Instruction>, start: Int32) returns (err: Option<MemoryError>)
      requires Valid()
      modifies memory
      ensures Valid()
      ensures Load(old(memory[..]), prog, start as int) ==
        if err.None? then Success(memory[..]) else Failure(err.value)
      ensures err.Some? ==> memory[..] == old(memory[..])
    {
      if start < 0 {
        return Some(NegativeAddress);
      }
      if |prog| == 0 {
        return None;
      }
      RangeFitsExact(start as nat, |prog|, bytes);
      if (start as int + |prog|) * InstructionSize > bytes {
        return Some(NotEnoughMemory);
      }
      var i := 0;
      while i < |prog|
        invariant 0 <= i <= |prog|
        invariant forall k :: 0 <= k < memory.Length ==>
          memory[k] == if start as int <= k < start as int + i then prog[k - start as int] else old(memory[k])
      {
        memory[start as int + i] := prog[i];
        i := i + 1;
      }
      assert memory[..] == Store(old(memory[..]), prog, start as nat);
      return None;
    }

    /** `put_program` for assembly lines (src/computer.cpp:20-43). */
    method PutRawProgram(raws: seq<RawInstruction>, start: Int32) returns (err: Option<MemoryError>)
      requires Valid()
      modifies memory
      ensures Valid()
      ensures LoadRaw(old(memory[..]), raws, start as int) ==
        if err.None? then Success(memory[..]) else Failure(err.value)
      ensures err.Some? ==> memory[..] == old(memory[..])
    {
      if start < 0 {
        return Some(NegativeAddress);
      }
      var prog := Assembler.AssembleProgram(raws);
      if prog.Failure? {
        return Some(Assembly(prog.error));
      }
      err := PutProgram(prog.value, start);
    }

    /** `read_program` (src/computer.cpp:67-77). It changes nothing. */
    method ReadProgram(address: Int32) returns (r: Result<Instruction, MemoryError>)
      requires Valid()
      ensures r == Peek(memory[..], address as int)
    {
      if address < 0 {
        return Failure(NegativeAddress);
      }
      SlotInBoundsExact(address as int, bytes);
      if address as int * InstructionSize + InstructionSize > bytes {
        return Failure(AddressOutOfRange);
      }
      r := Success(memory[address]);
    }

    /** `run_from_ram` (src/computer.cpp:79-114), for at most `fuel` cycles,
        with the start check and the loop bound on whole slots. */
    method RunFromRam(start: Int32, fuel: nat) returns (r: Result<Machine.Status, MemoryError>)
      requires Valid()
      modifies cpu, cpu.regs, cpu.alu
      ensures Valid()
      ensures RunFrom(old(cpu.State()), memory[..], start as int, fuel) ==
        if r.Success? then Success(Machine.RunResult(r.value, cpu.State())) else Failure(r.error)
      ensures r.Failure? ==> cpu.State() == old(cpu.State())
    {
      if start < 0 {
        return Failure(NegativeAddress);
      }
      SlotInBoundsExact(start as int, bytes);
      if !SlotInBounds(start as int, bytes) {
        return Failure(AddressOutOfRange);
      }
      cpu.pc := start;
      cpu.incrementPc := true;
      var status := Fetch(fuel);
      return Success(status);
    }

    /** The fetch loop of `run_from_ram` (src/computer.cpp:89-113), for at
        most `fuel` cycles, over the whole slots: it stops when the counter
        leaves memory or the processor halts, and on an exception. */
    method Fetch(fuel: nat) returns (status: Machine.Status)
      requires Valid()
      modifies cpu, cpu.regs, cpu.alu
      ensures Valid()
      ensures Machine.RunResult(status, cpu.State()) == Machine.Run(old(cpu.State()), memory[..], fuel, true)
    {
      var left := fuel;
      ghost var target := Machine.Run(cpu.State(), memory[..], fuel, true);
      while 0 <= cpu.pc && (cpu.pc as int) < memory.Length
        invariant Valid()
        invariant Machine.Run(cpu.State(), memory[..], left, true) == target
        decreases left
      {
        if cpu.halted {
          break;
        }
        if left == 0 {
          Machine.RunEnds(cpu.State(), memory[..], left, true);
          return Machine.OutOfFuel;
        }
        var fault;
        fault, left := cpu.RunStep(memory[..], left, true, target);
        if fault.Some? {
          return Machine.Faulted(fault.value);
        }
      }
      Machine.RunEnds(cpu.State(), memory[..], left, true);
      return Machine.Finished;
    }
  }
}
