/** The instruction record of src/cpu.hpp and the vocabulary shared by the
    assembler and the processor: operand kinds, flag codes and comparisons. */
module Isa {
  import opened Ints
  import opened Text

  // Operand kinds: the `*_type` fields of an instruction.
  const Constant: Int32 := 0
  const Register: Int32 := 1
  const AluPort: Int32 := 2
  const Flag: Int32 := 3
  const ProgramCounter: Int32 := 4
  /** The type of an absent condition operand. */
  const NoKind: Int32 := -1

  // Flag codes: the value of an operand of kind `Flag`.
  const AluTriggerFlag: Int32 := 1
  const ZeroFlag: Int32 := 2
  const NegativeFlag: Int32 := 3
  const OverflowFlag: Int32 := 4
  const HaltFlag: Int32 := 5

  /** The comparison of a condition. `NoComp` is the empty mnemonic (no
      condition: always execute); `Unknown` is a non-empty mnemonic that names
      none of the six comparisons, which machine code can carry. */
  datatype Comp = NoComp | Eq | Ne | Lt | Le | Gt | Ge | Unknown

  /** A typed operand: a `(type, value)` pair of the record. */
  datatype Operand = Operand(kind: Int32, value: Int32)

  const NoOperand: Operand := Operand(NoKind, 0)

  /** One fixed-width instruction: move `source` to `dest` when the condition
      `cond1 comp cond2` holds. */
  datatype Instruction = Instruction(
    source: Operand,
    dest: Operand,
    cond1: Operand,
    cond2: Operand,
    comp: Comp)

  /** The record a zero-filled memory slot holds: constant 0 to discard, with an
      empty comparison, i.e. no condition. */
  const ZeroInstruction: Instruction :=
    Instruction(Operand(0, 0), Operand(0, 0), Operand(0, 0), Operand(0, 0), NoComp)

  /** One line of assembly split into its three texts. */
  datatype RawInstruction = RawInstruction(src: string, dest: string, condition: string)

  /** The mnemonic `ops_map` gives each comparison (src/cpu.cpp:13-20). */
  function Mnemonic(c: Comp): (m: string)
    requires c != NoComp && c != Unknown
    ensures m != [] && NoSpace(m)
    ensures CompOfMnemonic(m) == c
  {
    match c
    case Eq => "eq"
    case Ne => "ne"
    case Lt => "lt"
    case Le => "le"
    case Gt => "gt"
    case Ge => "ge"
  }

  /** The comparison a mnemonic names, as `check_condition` matches it with
      `strcmp`; anything else is `Unknown`. */
  function CompOfMnemonic(m: string): (c: Comp)
    ensures c != NoComp
  {
    if m == "eq" then Eq
    else if m == "ne" then Ne
    else if m == "lt" then Lt
    else if m == "le" then Le
    else if m == "gt" then Gt
    else if m == "ge" then Ge
    else Unknown
  }

  /** The signed relation a comparison names; an unrecognised mnemonic is
      false (src/cpu.cpp:139-146). */
  predicate Holds(c: Comp, lhs: int, rhs: int)
    requires c != NoComp
  {
    match c
    case Eq => lhs == rhs
    case Ne => lhs != rhs
    case Lt => lhs < rhs
    case Le => lhs <= rhs
    case Gt => lhs > rhs
    case Ge => lhs >= rhs
    case Unknown => false
  }

  function Bit(b: bool): Int32 { if b then 1 else 0 }
}
