# yatta: a transport-triggered CPU, modelled in Dafny

yatta simulates a small transport-triggered processor. Every instruction moves
one value from a source port to a destination port. Arithmetic happens when the
ALU trigger flag (`AF`) or an ALU operand port (`A1`, `A2`) is written. A jump
happens when the program counter (`PC`) is written. A move can be guarded by
a condition such as `ZF == 1`.

This project models the path a program takes through the newest revision:

- **Line tokenizer** (`converter.cpp`, module `Converter`). It splits an
  assembly line into source, destination and condition text. `?` in third
  position is a placeholder, and blank lines are skipped.
- **Assembler** (`assembler.cpp`, modules `Operands` and `Assembler`).
  - It classifies each token as a typed `(kind, value)` operand: constant 0,
    register 1, ALU port 2, flag 3, PC 4.
  - It splits a condition at the first of `== != <= >= < >` it contains.
  - It prints a record as a 4- or 9-field machine-code string, which
    `string_to_instr` reads back.
- **Processor** (`src/cpu.cpp`).
  - Modules `Alu` and `Machine` hold the arithmetic and the specification
    functions.
  - Class `Cpu.Cpu` holds the registers, ALU ports, flags, program counter
    and halt bit as fields. It updates them in place and is proved against
    `Machine`.
  - This covers `update_alu` with its overflow checks, the side-effect-free
    `check_condition`, `exec_line` and the `exec_prog` fetch loop.
- **Computer** (`src/computer.cpp`, module `Computer`). Class
  `Computer.Computer` owns a zero-filled memory array and a processor. It
  covers `put_program` (both overloads), `read_program` and `run_from_ram`.
- **The older revision** (top-level `cpu.cpp`, module `Legacy`). Here
  conditions stay as text, and a condition's left side must be `ZF`, `NF`
  or `OF`.
- **The demonstration program** (`yatta.cpp`, module `Demo`). Its twelve
  lines are proved to read, assemble, load and run to a halt with R0 = 1,
  R2 = 20, R3 = 30 and 40 in the ALU result.

Support modules:
- `Results`: `Result`/`Option`. Each C++ exception is a `Failure` or a fault.
- `Ints`: the 32-bit `Int32`, and C++'s truncating division `Quot`.
- `Text`: `trim`, `find`, whitespace tokenizing and `stoi`/`to_string`.
- `Isa`: the instruction record and the comparison kinds.

Loops that may not terminate are given a `fuel` bound on the number of cycles.

### Where the code and its description differ (the model follows the code)

- A token is a flag when it is longer than one character and its second
  character is `F`. The token need not be exactly two characters long
  (assembler.cpp:98). So `ZFX` reads as the zero flag.
- `exec_prog` (src/cpu.cpp:253-283) does not stop when the halt flag is set.
  `exec_line` then ignores every instruction until the counter leaves the
  program. `run_from_ram` (src/computer.cpp:90) does stop.
- `trim` returns a line of only blanks unchanged (cpu.cpp:20-21; converter.cpp calls the `trim` of src/parser.hpp, taken to be this one). So
  `parse_program_lines` does not skip such a line: it rejects it for having
  fewer than two tokens.
- A condition is split at the first operator, in priority order, that occurs
  anywhere in it. It is not required to contain only one operator.
- `put_program` returns for an empty program before it checks the start
  against the memory size (src/computer.cpp:50-51).
- The halt flag (code 5) can be read in a condition, but reading it as a
  source is an error (src/cpu.cpp:174-190).
- Memory is modelled in 40-byte record slots (`sizeof(Instruction)`). An
  address is a slot index, as in the source.
- The two exceptions are the defects listed under Findings: subtraction
  with an INT_MIN subtrahend and the partial-slot bound of `run_from_ram`
  follow the corrected definitions.

## Model

| member | source | states |
|---|---|---|
| Ints.Quot | src/cpu.cpp:72 | C++ `/` truncates toward zero: the remainder is smaller than the divisor in magnitude and has the dividend's sign |
| Ints.Wrap | src/cpu.cpp:63 | reduction to 32 bits: values in range are kept, and the result is congruent to the input modulo 2^32 |
| Alu.CheckAdd | src/cpu.cpp:24-33 | `check_add_overflow` reports overflow exactly when the true sum leaves the int range; otherwise the result is the true sum |
| Alu.CheckMul | src/cpu.cpp:35-47 | `check_mul_overflow` reports overflow exactly when the true product leaves the int range (a zero operand gives 0); otherwise the result is the true product |
| Alu.MulFits | src/cpu.cpp:40-45 | when none of the four division guards fires, the product fits in an int |
| Alu.MulGuardPositive | src/cpu.cpp:40 | for two positive operands, the guard `a > INT_MAX / b` fires exactly when the product exceeds INT_MAX |
| Alu.MulGuardNegatives | src/cpu.cpp:41 | for two negative operands, the guard `a < INT_MAX / b` fires exactly when the product exceeds INT_MAX |
| Alu.MulGuardMixed | src/cpu.cpp:42 | for a positive and a negative operand, the guard `b < INT_MIN / a` fires exactly when the product falls below INT_MIN |
| Alu.SubtractAsWritten | src/cpu.cpp:62-65 | subtraction as written, `check_add_overflow(a, -b)`, agrees with exact subtraction whenever b is not INT_MIN |
| Alu.CheckSub | src/cpu.cpp:62-65 | corrected subtraction: overflow exactly when the true difference leaves the int range; otherwise the result is the true difference |
| Alu.SubtractMissesOverflow | src/cpu.cpp:63 | as written, 0 - INT_MIN yields INT_MIN with no overflow, while the true difference overflows |
| Alu.SubtractFalseOverflow | src/cpu.cpp:63 | as written, -1 - INT_MIN reports overflow, while the true difference is INT_MAX |
| Alu.QuotFits | src/cpu.cpp:70-73 | a quotient with a non-zero divisor fits in an int, except for INT_MIN / -1 |
| Isa.Mnemonic | src/cpu.cpp:13-20 | each comparison has a non-empty mnemonic with no blanks, and reading it back gives the same comparison |
| Text.FirstKept | cpu.cpp:19 | `find_first_not_of`: the first position at or after i that is not a trim character, or none |
| Text.LastKept | cpu.cpp:23 | `find_last_not_of`: the last position before n that is not a trim character, or none |
| Text.Trim | cpu.cpp:18-25 | a string of only trim characters comes back unchanged; any other string loses exactly its leading and trailing trim characters |
| Text.TrimKeptEnds | cpu.cpp:18-25 | a string that starts and ends with a kept character trims to itself |
| Text.TrimPadded | cpu.cpp:18-25 | a blank-free word padded with trim characters trims to the word |
| Text.Find | assembler.cpp:17 | `string::find`: the first occurrence of the pattern, or none exactly when the pattern does not occur |
| Text.Tokens | converter.cpp:9-12 | `istringstream >>` splits into blank-free, non-empty words; there are none exactly when the text is all blanks; text starting with a non-blank yields its leading word first |
| Text.TokensSkipSpace | converter.cpp:9-12 | a leading blank of any of the six C whitespace kinds is skipped |
| Text.TokensStep | converter.cpp:9-12 | on any non-empty text: a leading blank is skipped, and otherwise the first token is the run up to the next blank, followed by the tokens of the rest |
| Text.TokensOfJoin | converter.cpp:9-12 | splitting words joined by single spaces gives back the same words |
| Text.StoI | assembler.cpp:188 | `stoi`: a digit string gives its value up to INT_MAX and is out of range beyond it; an all-blank string is not a number; a token starting with a digit gives a non-negative value or is out of range |
| Text.StoIOfIntToString | assembler.cpp:151-153 | `stoi(to_string(n)) == n` for every int n |
| Text.NatToString | assembler.cpp:152 | `to_string` of a natural number is a digit string with that value, starting with `0` only for 0 |
| Operands.ParseOperand | assembler.cpp:84-117 | an empty token fails; a numeral can only be a constant and an `R`+digit name only a register; a token whose second character is `F` and that is no register, `PC` or numeral is the flag its first letter names (A Z N O H), or an unknown flag; a port comes only from an `A`+digit name that is no flag; every success is well formed |
| Operands.ParseDest | assembler.cpp:119-146 | a numeral destination is the discard (0,0); the only flag destinations are `AF` and `HF`; an out-of-range number comes only from an `R` or `A` name; every success is well formed |
| Operands.NamesAreNotNumerals | assembler.cpp:84-146 | no numeral is also a register, port, flag or `PC` name, so the order of the first test does not matter |
| Operands.FlagLetter | assembler.cpp:101-107 | each flag code 1..5 has a letter that maps back to it and that no other rule claims |
| Operands.ParseOperandText | assembler.cpp:84-117 | printing a well-formed operand and classifying the text gives back the operand |
| Operands.ParseDestText | assembler.cpp:119-146 | printing a well-formed destination and classifying the text gives back the destination |
| Operands.ParseDestIndexed | assembler.cpp:132-139 | `R`+digits and `A`+digits destinations give a register or a port with that number |
| Operands.SplitCondition | assembler.cpp:16-21 | the condition is cut at the first occurrence of the first operator, in priority order, that occurs in it; no earlier operator occurs anywhere; none exactly when no operator occurs |
| Operands.LessEqualBeforeLess | cpu.cpp:35-51 | a condition containing `<=` is never split at `<` |
| Operands.CanonicalFirst | assembler.cpp:16-21 | in `a op b` with operator-free sides, no operator of higher priority than op occurs |
| Operands.CanonicalOnly | assembler.cpp:17 | in `a op b` with operator-free sides, op occurs only right after a |
| Operands.SplitCanonical | assembler.cpp:16-21 | `a op b` with operator-free sides splits into exactly a, op and b |
| Assembler.ConditionOperand | assembler.cpp:34-61 | a condition operand fails as empty exactly when it is empty, and is otherwise classified like a source |
| Assembler.EncodeCondition | assembler.cpp:13-81 | no condition means unconditional; a condition without an operator is an error; otherwise the comparison is the split's operator and both sides are well-formed operands |
| Assembler.EncodeLine | assembler.cpp:9-146 | a line encodes exactly when its condition, source and destination all do; a condition error is reported first; every record it makes is well formed |
| Assembler.MachineFields | assembler.cpp:151-159 | machine code has 4 fields without a condition and 9 with one |
| Assembler.MachineCode | assembler.cpp:151-159 | the printed machine code splits into exactly those fields: 4 or 9 tokens |
| Assembler.ConvertLine | assembler.cpp:9-162 | `convert_line` fails exactly when encoding fails; on success `string_to_instr` reads its output back as the encoded record, in 4 or 9 tokens |
| Assembler.DecodeProgram | assembler.cpp:164-173 | the output has the input's length and order, line k reading back as line k's record; the error is that of the first line that fails |
| Assembler.AssembleProgram | src/computer.cpp:25-26 | `decode_program` then `string_to_instr` on every line gives line k's record at slot k, and fails exactly as `decode_program` does |
| Assembler.AssembleEach | assembler.cpp:164-173 | when every line encodes to its record, the program assembles to exactly those records |
| Assembler.FirstFailure | assembler.cpp:168-170 | the first line that fails decides the program's error |
| Assembler.TokenInt | assembler.cpp:185-194 | `get_int`: a missing token gives the default; a present one gives its `stoi` value, or an error naming its index |
| Assembler.Header | assembler.cpp:196-199 | a missing header token reads as 0 (so an empty code gives (0,0) for source and destination); the header is read exactly when every present token among the first four is an integer, and then holds their values; otherwise the error names the first token that is not |
| Assembler.HeaderOfFields | assembler.cpp:196-199 | the header of printed machine code reads back as the record's source and destination |
| Assembler.ConditionFields | assembler.cpp:211-215 | the guard holds tokens 4 to 7 as the two condition operands and the comparison named by the ninth token; it is read exactly when tokens 4 to 7 are integers, and otherwise the error names the first that is not |
| Assembler.ConditionOfFields | assembler.cpp:211-215 | the condition fields of printed machine code read back as the record's condition |
| Assembler.StringToInstr | assembler.cpp:176-230 | source and destination are the header's and a header error is passed on; the record is unconditional exactly when there are at most 4 tokens, and then both condition operands are (-1, 0); 5 to 8 tokens are an error; with 9 or more the guard is the one read from tokens 4 to 8, whose error is passed on; an empty code is the all-zero move |
| Assembler.StringToInstrOfMachineCode | assembler.cpp:151-227 | reading printed machine code gives back every field of the record |
| Assembler.FieldNumber | assembler.cpp:151-157 | each printed numeric field reads back as the record's number in that position |
| Assembler.ShortConditionRefused | assembler.cpp:206-210 | a code with a valid header and 5 to 8 tokens is refused for missing condition fields |
| Assembler.Disassemble | assembler.cpp:84-146 | every encoded record has an assembly text: blank-free source and destination, and an empty condition exactly when the record is unconditional |
| Assembler.EncodeConditionText | assembler.cpp:13-81 | the printed condition of a guard encodes back to that guard |
| Assembler.EncodeDisassemble | assembler.cpp:9-146 | encoding the assembly text of any encoded record gives back that record |
| Converter.ConditionWords | converter.cpp:21-30 | the condition words are those after the first two, minus a `?` in third position |
| Converter.LineFields | converter.cpp:7-35 | a line parses exactly when it has two or more tokens, and otherwise fails naming the line; source and destination are its first two tokens; the condition splits into the remaining words |
| Converter.ParseRawInstruction | converter.cpp:7-35 | the imperative tokenizer and joiner return the same result as the line reading |
| Converter.JoinFrom | converter.cpp:27-30 | the join loop produces the words from the start index joined by single spaces |
| Converter.TrimJoined | converter.cpp:31 | words joined by single spaces trim to themselves, so the final `trim` changes nothing |
| Converter.LineFieldsOfFormat | converter.cpp:7-35 | a line written as `src dest ? condition` (or without a condition) reads back as its three texts |
| Converter.PlaceholderOptional | converter.cpp:24-25 | a line reads the same with or without the `?` placeholder |
| Converter.ProgramLines | converter.cpp:37-46 | `parse_program_lines` never returns more instructions than lines |
| Converter.PrefixFailure | converter.cpp:40-43 | an error in the first i lines is the error of the whole program |
| Converter.ParseProgramLines | converter.cpp:37-46 | the loop returns the same result as the program reading |
| Converter.TrimEmpty | cpu.cpp:19-21 | a line trims to nothing only when it is empty |
| Converter.BlankLineRejected | converter.cpp:41-43 | a line of only blanks is not skipped: it fails for too few tokens |
| Converter.EmptyLineSkipped | converter.cpp:42 | an empty line anywhere in the program contributes nothing: removing it leaves the result unchanged |
| Converter.Kept | converter.cpp:40-44 | the kept lines are no more than the lines, and none of them is empty |
| Converter.KeptSnoc | converter.cpp:40-44 | one more line adds its trimmed text at the end, or nothing when that is empty |
| Converter.KeptAppend | converter.cpp:40-44 | the lines kept from two pieces of a program are those of the first followed by those of the second |
| Converter.ProgramLinesKept | converter.cpp:37-46 | `parse_program_lines` is `parse_raw_instruction` applied, in order, to exactly the trimmed non-empty lines, stopping at the first failure |
| Converter.ProgramOfLines | converter.cpp:37-46 | lines that each read as a given instruction produce exactly those instructions, in order |
| Converter.ProgramOfFormat | converter.cpp:37-46 | writing instructions one per line and reading the lines back gives the same instructions |
| Machine.Initial | src/cpu.cpp:243-248 | a new processor has the given number of zero registers, zero ALU ports, cleared flags, PC 0, no trigger, no halt, and an armed increment |
| Machine.UpdateAlu | src/cpu.cpp:49-93 | `update_alu`: changes nothing with trigger 0; touches only the result, the flags and the trigger; add/sub/mul give the true result or 0 with OF set; division truncates; a division by zero or INT_MIN / -1 faults with flags cleared and the trigger kept; ZF and NF follow the result; other triggers leave the result |
| Machine.ReadSource | src/cpu.cpp:159-197 | a constant reads its value, a register or port within range reads that register or port, flags 1..4 read the trigger and the zero, negative and overflow bits, and the program counter reads `pc`; a register source succeeds exactly within the registers, a port exactly for 0..2, a flag exactly for codes 1..4; other kinds fail |
| Machine.ConditionValue | src/cpu.cpp:109-134 | a missing operand type is an error; a constant reads its value; a register or port reads that register or port, or is an out-of-range error; flags 1..5 read the trigger and the zero, negative, overflow and halt bits and other flag codes are an error; the program counter reads `pc`; unknown types are an error |
| Machine.ConditionReadsLikeSource | src/cpu.cpp:109-134 | apart from the halt flag and the missing type, condition operands resolve exactly as sources do |
| Machine.CheckCondition | src/cpu.cpp:104-147 | no comparison is always true; otherwise it succeeds exactly when both operands resolve and holds exactly when the signed relation holds; an unknown mnemonic is false |
| Machine.WriteDest | src/cpu.cpp:200-238 | the discard changes nothing; only the addressed register changes, and register writes are bounds-checked; a write to port 1 or 2 stores the value and then runs `update_alu`, other ports fault with nothing changed; writing `AF` sets the trigger and runs `update_alu`; writing `HF` halts exactly on a non-zero value; other flags are read-only; a PC write jumps and disarms the increment; nothing else moves the counter; an unknown destination type faults; every fault except those raised by `update_alu` after a port or trigger write leaves the whole state unchanged |
| Machine.ExecLine | src/cpu.cpp:149-241 | `exec_line` does nothing when halted; it writes at most the destination register; only a halt write can halt; a completed line leaves no pending trigger; only a PC write moves the counter |
| Machine.Advance | src/cpu.cpp:274-280 | the counter moves by one when the increment is armed, and otherwise stays put; the increment is re-armed either way |
| Machine.Cycle | src/cpu.cpp:256-280 | a true condition runs the line with `exec_line`: its fault ends the cycle with that line's state, and otherwise the counter steps as `Advance` says from the state the line left; a false condition skips the line and advances; a failing condition faults with the state unchanged; after a cycle the increment is armed again; halt is kept |
| Machine.Run | src/cpu.cpp:253-283 | a finished run has its counter outside the program, or, when it stops on halt, is halted; the register count and the halt bit are kept |
| Machine.RunEnds | src/cpu.cpp:253 | a counter outside the program, or a halt when runs stop on halt, ends the run at once; no fuel left means out of fuel |
| MachineFacts.AddOverflowSetsZero | src/cpu.cpp:58-60 | INT_MAX + 1 stores 0 and sets both OF and ZF |
| MachineFacts.DivisionByZeroKeepsResult | src/cpu.cpp:70-76 | a division by zero faults, keeps the result and the trigger, and clears the flags |
| MachineFacts.AluPortWriteOnlyStores | src/cpu.cpp:208-214 | with no trigger pending, a port write only stores the value |
| MachineFacts.TriggerWriteComputes | src/cpu.cpp:216-221 | writing `AF` is a recompute with the written trigger |
| MachineFacts.ResultPortNotWritable | src/cpu.cpp:209-211 | writing port A0 faults and changes nothing |
| MachineFacts.HaltFlagReadableOnlyInConditions | src/cpu.cpp:174-190 | flag 5 is rejected as a source but reads the halt bit in a condition |
| MachineFacts.ExecReadsThenWrites | src/cpu.cpp:149-238 | an unhalted `exec_line` runs the pending ALU operation, stops on its fault, then reads the source once, stops on a read fault, and otherwise writes that value to the destination, whatever its kind |
| MachineFacts.ExecWritesRegister | src/cpu.cpp:203-207 | a register move changes exactly that register |
| MachineFacts.FalseConditionSkips | src/cpu.cpp:259-280 | a false condition moves the counter by exactly one |
| MachineFacts.JumpLandsExactly | src/cpu.cpp:232-235 | a jump lands on the written address: that one increment is suppressed and the next is armed |
| MachineFacts.ZeroInstructionIsNoOp | src/computer.cpp:17 | the all-zero record of fresh memory is a no-op that advances the counter |
| MachineFacts.RunFuelMonotone | src/computer.cpp:89-113 | a run that ended within its cycle bound ends the same way with a larger bound |
| MachineFacts.HaltedRunStops | src/computer.cpp:90 | `run_from_ram` does nothing on a halted processor |
| MachineFacts.HaltedRunWalksOff | src/cpu.cpp:253-283 | given one cycle per remaining line, `exec_prog` on a halted processor finishes with nothing changed but the counter |
| Cpu.Cpu.constructor | src/cpu.cpp:243-248 | the new object is the initial processor state |
| Cpu.Cpu.UpdateAlu | src/cpu.cpp:49-93 | the in-place recompute leaves exactly the state and fault of `Machine.UpdateAlu` |
| Cpu.Cpu.ReadSource | src/cpu.cpp:159-197 | reads a source as `Machine.ReadSource` does, without changing the object |
| Cpu.Cpu.ConditionValue | src/cpu.cpp:109-134 | resolves a condition operand as `Machine.ConditionValue` does, without changing the object |
| Cpu.Cpu.CheckCondition | src/cpu.cpp:104-147 | evaluates a condition as `Machine.CheckCondition` does, without changing the object |
| Cpu.Cpu.WriteDest | src/cpu.cpp:200-238 | the in-place write leaves exactly the state and fault of `Machine.WriteDest` |
| Cpu.Cpu.ExecLine | src/cpu.cpp:149-241 | the in-place `exec_line` leaves exactly the state and fault of `Machine.ExecLine` |
| Cpu.Cpu.Cycle | src/cpu.cpp:256-280 | one loop turn in place matches `Machine.Cycle` |
| Cpu.Cpu.RunStep | src/cpu.cpp:253-283 | one turn keeps the run's outcome: what remains to run from the new state is what was left to run |
| Cpu.Cpu.ExecProg | src/cpu.cpp:250-290 | the `exec_prog` loop ends with the status and state of `Machine.Run` without stopping on halt |
| Computer.SlotInBoundsExact | src/computer.cpp:70-73 | the byte check of `read_program` admits exactly the whole slots of memory |
| Computer.RangeFitsExact | src/computer.cpp:53-57 | the byte check of `put_program` admits exactly the ranges of whole slots |
| Computer.PartialSlotAdmitted | src/computer.cpp:83-84 | with 50 bytes of memory, start 1 passes the check although slot 1 is not whole |
| Computer.RunGuardAsWrittenAdmits | src/computer.cpp:83-84 | the check admits the whole slots, plus a trailing partial slot |
| Computer.Store | src/computer.cpp:59-64 | slot start+k holds record k; every other slot is unchanged |
| Computer.Load | src/computer.cpp:45-65 | a negative start is refused; an empty program changes nothing; otherwise the load fails exactly when the program does not fit; no failure is an address or assembly error |
| Computer.LoadRaw | src/computer.cpp:20-43 | the start is checked before the lines are assembled; an assembly error is passed on; otherwise the records are loaded |
| Computer.LoadRawWhole | src/computer.cpp:20-43 | lines that assemble to exactly as many records as there are slots fill memory with them |
| Computer.Peek | src/computer.cpp:67-77 | a read succeeds exactly at an address of memory, and returns that slot |
| Computer.PeekAfterLoad | src/computer.cpp:59-77 | after a load, the program's slots read back its records and every other slot reads as before |
| Computer.RunFrom | src/computer.cpp:79-114 | the run starts exactly when the start is a slot of memory, and a negative or too large start gives its own error; a run that starts is the halt-stopping fetch loop `Machine.Run` from the processor with its counter set to the start and the increment re-armed; a finished run is halted or has its counter outside memory |
| Computer.Computer.constructor | src/computer.cpp:12-18 | memory of the given size holds only zero records; the processor is initial |
| Computer.Computer.PutProgram | src/computer.cpp:45-65 | the memory after the call is `Load`'s result; on an error, memory is unchanged |
| Computer.Computer.PutRawProgram | src/computer.cpp:20-43 | the memory after the call is `LoadRaw`'s result; on an error, memory is unchanged |
| Computer.Computer.ReadProgram | src/computer.cpp:67-77 | returns exactly `Peek` of memory, without changing anything |
| Computer.Computer.RunFromRam | src/computer.cpp:79-114 | ends in `RunFrom`'s status and state; on a start error, the processor is unchanged |
| Computer.Computer.Fetch | src/computer.cpp:89-113 | the fetch loop ends with the status and state of `Machine.Run`, stopping on halt |
| Legacy.ConvertCondition | cpu.cpp:30-58 | no condition gives an empty comparison; otherwise it succeeds exactly when an operator is found, and fails naming the condition |
| Legacy.ConvertLine | cpu.cpp:27-126 | a line converts exactly when its condition, source and destination do; the record is unconditional exactly when the condition is empty |
| Legacy.ConvertLineAgrees | cpu.cpp:27-126 | whatever the newer assembler accepts, this revision accepts with the same operands and comparison, its condition texts classifying as the typed operands |
| Legacy.ConditionKeptAsText | cpu.cpp:35-53 | a condition `a op b` keeps trimmed a and b as text, with comparison op |
| Legacy.DecodeProgram | cpu.cpp:127-136 | same length and order as the input, each element being that line's conversion |
| Legacy.GetFlagValue | cpu.cpp:212-219 | only `ZF`, `NF` and `OF` are accepted, and they read 0 or 1; any other name fails |
| Legacy.FlagNamesAgree | cpu.cpp:212-219 | those three names read the same flag as the typed condition operands |
| Legacy.CheckCondition | cpu.cpp:221-249 | no comparison is true; otherwise it succeeds exactly when the flag name and the integer right side are valid, and holds exactly when the relation holds |
| Legacy.CheckConditionAgrees | cpu.cpp:221-249 | for a flag against a constant, both revisions decide the condition the same way |
| Legacy.EvalCondition | cpu.cpp:221-249 | the method returns exactly `Legacy.CheckCondition` of the object's state |
| Legacy.Cycle | cpu.cpp:356-381 | a false condition skips and advances; a failing condition faults with the state unchanged; the increment is re-armed |
| Legacy.CycleAgrees | cpu.cpp:372-374 | when the condition holds, a turn executes the line as the newer processor does |
| Legacy.Step | cpu.cpp:356-381 | one in-place turn matches `Legacy.Cycle` |
| Legacy.Run | cpu.cpp:352-392 | a finished run has its counter outside the program; the register count and the halt bit are kept |
| Legacy.UnconditionalRunAgrees | cpu.cpp:352-392 | for programs without conditions, this loop runs exactly like the newer one |
| Legacy.RunStep | cpu.cpp:355-388 | one turn keeps the run's outcome |
| Legacy.ExecProg | cpu.cpp:352-392 | the loop ends with the status and state of `Legacy.Run` |
| Results.MapAll | assembler.cpp:168-170 | a map that stops at the first failure: succeeds exactly when every element does, keeps the length, and fails with the first element's error |
| Results.MapAllSnoc | assembler.cpp:168-170 | mapping one more element extends a successful result by that element's value, or fails with the first failure |
| Demo.DemoReads | yatta.cpp:12-28 | `parse_program_lines` reads the twelve lines as the twelve texts |
| Demo.DemoAssembles | yatta.cpp:35-36 | the twelve texts assemble to the twelve records |
| Demo.DemoRun | yatta.cpp:39 | from the initial state with four registers, at least twelve cycles halt at slot 12 with R0 = 1, R1 = 0, R2 = 20, R3 = 30, result 40 and ZF = 0 |
| Demo.DemoLoads | yatta.cpp:30-36 | loading the program at slot 0 of twelve zero slots fills them with its records |
| Demo.DemoRunsFromRam | yatta.cpp:39 | `run_from_ram(0)` on that memory ends in the same final state |
| Demo.Boot | yatta.cpp:27-39 | the driver reports a bad line as a read error; when it succeeds, the lines were read, assembled, and were not empty |
| Demo.Drive | yatta.cpp:27-39 | the driver on a `Computer` object returns exactly what `Boot` describes |
| Demo.DemoBoots | yatta.cpp:12-39 | yatta.cpp as written halts with the final state above |

## Left out

- Console output (`print_register_file`, the `cout` tracing in `exec_prog`) is left out; it does not affect the state.
- The shell, `main.cpp` and the root `computer.cpp` revision are not part of this model. The root revision builds its processor from uninitialised members and copies to memory without a check.
- Background threads and file loading in the shell are left out (concurrency and I/O).
- The `bus` vector is not modelled; no instruction uses it.
- `get_flag_value` in src/cpu.cpp:95-102 is not modelled: nothing in the typed path calls it. The older revision's `get_flag_value` is `Legacy.GetFlagValue`.
- Machine.Run, Cpu.Cpu.ExecProg, Computer.Computer.Fetch, Legacy.Run: each takes a `fuel` bound on cycles, because a self-jump never terminates. Running out is the status `OutOfFuel`.
- Machine.Run: requires the program length to fit in an int, as `static_cast<int>(prog.size())` assumes.
- Computer.Computer.constructor: takes the memory size as a `nat` that fits in an int. A negative size, which makes `memory.resize` throw in the source (src/computer.cpp:17), is excluded; the source's `int` byte count could also overflow for huge programs.
- Cpu.Cpu.constructor: takes the register count as a `nat`. A negative count, which makes `regs.resize` throw in the source (src/cpu.cpp:246), is excluded.
- Demo.Boot, Demo.Drive: require `|lines| * 40` to fit in an int, as yatta.cpp's `mem_bytes` does.
- Computer.Computer.Fetch, Computer.RunFrom: both the start check and the loop bound are taken on whole slots (the corrected `SlotInBounds`), so the trailing partial slot that src/computer.cpp:83-84 and line 89 admit is never fetched.
- Machine.UpdateAlu, Cpu.Cpu.UpdateAlu: subtraction with an INT_MIN subtrahend follows the corrected `Alu.CheckSub` rather than the code as written (src/cpu.cpp:63), where `-INT_MIN` is undefined; `Alu.SubtractAsWritten` models the as-written result.
- Memory is modelled as whole 40-byte record slots, not bytes. `memcpy`, `strncpy` into `char comp[8]` and byte layout are left out. `comp` is an enum, with `Unknown` for a mnemonic that matches none.
- Registers and the trigger are declared `unsigned` but hold values read and written as `int`; they are modelled as 32-bit signed values.
- `INT_MIN / -1` in `update_alu` is undefined behaviour in C++; the model faults with `DivisionOverflow`.
- A `stoi` that goes out of range throws in the source; the model returns `NumberOutOfRange` (assembler) or an error (`string_to_instr`).
- `istringstream >>` is modelled as splitting at the six C whitespace characters; locales are left out.
- The older revision's `exec_line` and `update_alu` (cpu.cpp:140-343) are the same text as src/cpu.cpp's, so `Legacy` reuses `Machine.ExecLine`.
- converter.cpp calls the `trim` declared in src/parser.hpp:6, whose definition (parser.cpp) is not part of this model. The model takes it to be the `trim` of cpu.cpp:18-25, which returns an all-blank string unchanged; `Converter.TrimEmpty` and `Converter.BlankLineRejected` rest on that.
- Mismatches between headers and sources (assembler.hpp against assembler.cpp, computer.hpp against src/computer.cpp) are left out; the sources are modelled.

## Findings

| source | as written | input that shows it | evidently intended | confidence | as-written member | corrected member |
|---|---|---|---|---|---|---|
| src/cpu.cpp:63 | subtraction computes `check_add_overflow(a, -b)`; `-b` wraps for b = INT_MIN | a = 0, b = INT_MIN gives INT_MIN with no overflow; a = -1, b = INT_MIN reports overflow for INT_MAX | overflow exactly when a - b leaves the int range | high, not executed | Alu.SubtractAsWritten | Alu.CheckSub |
| src/computer.cpp:83-89 | `run_from_ram` checks only that the slot's first byte lies in memory, both for the start (lines 83-84) and on every turn of the loop (line 89), while `read_program` requires the whole record | 50 bytes of memory, start 1: the check passes, and a 40-byte copy from byte 40 reads past the end; with 128 bytes, counter 3 passes the loop test (120 < 128) and the copy reads bytes 120-159 | the whole slot lies in memory, as in `read_program` (src/computer.cpp:70-73) | high, not executed | Computer.RunGuardAsWritten | Computer.SlotInBounds |
