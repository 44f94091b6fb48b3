/** The encoder of assembler.cpp: a line of assembly becomes a typed record
    (`EncodeLine`), the record is printed as space-separated machine code
    (`MachineCode`, `ConvertLine`) and machine code is read back into a record
    (`StringToInstr`). */
module Assembler {
  import opened Results
  import opened Ints
  import opened Text
  import opened Isa
  import opened Operands

  /** The condition part of a record: two typed operands and a comparison. */
  datatype Guard = Guard(cond1: Operand, cond2: Operand, comp: Comp)

  /** No condition: both operand types -1 and an empty comparison
      (assembler.cpp:76-81). */
  const Unconditional: Guard := Guard(NoOperand, NoOperand, NoComp)

  /** A record the encoder can produce: classified operands, a known
      comparison, and the "no operand" pair exactly when there is none. */
  predicate IsEncoded(i: Instruction)
  {
    IsWellFormed(i.source) && IsWellFormedDest(i.dest) && i.comp != Unknown &&
    (if i.comp == NoComp then i.cond1 == NoOperand && i.cond2 == NoOperand
     else IsWellFormed(i.cond1) && IsWellFormed(i.cond2))
  }

  // ------------------------------------------------------------ encoding

  /** One side of a condition (assembler.cpp:34-61): the source rules, except
      that an empty side is an error of its own. */
  function ConditionOperand(tok: string): (r: Result<Operand, AsmError>)
    ensures r == Failure(EmptyOperand) <==> tok == []
    ensures r.Success? ==> IsWellFormed(r.value)
    ensures tok != [] ==> r == ParseOperand(tok, Condition)
  {
    if tok == [] then Failure(EmptyOperand) else ParseOperand(tok, Condition)
  }

  /** The condition block of `convert_line` (assembler.cpp:13-81). */
  function EncodeCondition(condition: string): (r: Result<Guard, AsmError>)
    ensures condition == [] ==> r == Success(Unconditional)
    ensures condition != [] && SplitCondition(condition).None? ==>
              r == Failure(NoOperator(condition))
    ensures condition != [] && r.Success? ==>
              SplitCondition(condition).Some? &&
              r.value.comp == SplitCondition(condition).value.comp &&
              IsWellFormed(r.value.cond1) && IsWellFormed(r.value.cond2)
  {
    if condition == [] then Success(Unconditional)
    else
      match SplitCondition(condition)
      case None => Failure(NoOperator(condition))
      case Some(Split(lhs, comp, rhs)) =>
        var a :- ConditionOperand(Trim(lhs));
        var b :- ConditionOperand(Trim(rhs));
        Success(Guard(a, b, comp))
  }

  /** The typed record `convert_line` builds (assembler.cpp:9-146): the
      condition is encoded first, then the source, then the destination; the
      first error is the one reported. */
  function EncodeLine(raw: RawInstruction): (r: Result<Instruction, AsmError>)
    ensures r.Success? ==> IsEncoded(r.value)
    ensures r.Success? <==>
      EncodeCondition(raw.condition).Success? &&
      ParseOperand(raw.src, Source).Success? && ParseDest(raw.dest).Success?
    ensures EncodeCondition(raw.condition).Failure? ==>
      r == Failure(EncodeCondition(raw.condition).error)
  {
    var g :- EncodeCondition(raw.condition);
    var src :- ParseOperand(raw.src, Source);
    var dst :- ParseDest(raw.dest);
    Success(Instruction(src, dst, g.cond1, g.cond2, g.comp))
  }

  /** The fields of the machine-code line (assembler.cpp:151-159): four
      header numbers, and the four condition numbers and the mnemonic when
      there is a condition. */
  function MachineFields(i: Instruction): (f: seq<string>)
    requires i.comp != Unknown
    ensures AreWords(f)
    ensures |f| == if i.comp == NoComp then 4 else 9
  {
    var texts := NumberTexts(FieldNumbers(i));
    if i.comp == NoComp then texts[..4] else texts + [Mnemonic(i.comp)]
  }

  /** The numbers of the eight numeric machine-code fields, in order. */
  function FieldNumbers(i: Instruction): (ns: seq<Int32>)
    ensures |ns| == 8
  {
    [i.source.kind, i.source.value, i.dest.kind, i.dest.value,
     i.cond1.kind, i.cond1.value, i.cond2.kind, i.cond2.value]
  }

  /** Each number written out in decimal, as `operator<<` writes an `int`. */
  function NumberTexts(ns: seq<Int32>): (ts: seq<string>)
    ensures |ts| == |ns| && AreWords(ts)
    ensures forall k :: 0 <= k < |ns| ==> ts[k] == IntToString(ns[k] as int)
  {
    seq(|ns|, k requires 0 <= k < |ns| => IntToString(ns[k] as int))
  }

  /** The machine-code line of a record: its fields separated by single
      spaces. */
  function MachineCode(i: Instruction): (code: string)
    requires i.comp != Unknown
    ensures Tokens(code) == MachineFields(i)
    ensures |Tokens(code)| == if i.comp == NoComp then 4 else 9
  {
    TokensOfJoin(MachineFields(i));
    JoinSpaced(MachineFields(i))
  }

  /** `convert_line` of assembler.cpp: assembly to machine code. Decoding the
      result gives back the record the line encodes. */
  function ConvertLine(raw: RawInstruction): (r: Result<string, AsmError>)
    ensures r.Success? <==> EncodeLine(raw).Success?
    ensures r.Failure? ==> r.error == EncodeLine(raw).error
    ensures r.Success? ==> StringToInstr(r.value) == Success(EncodeLine(raw).value)
    ensures r.Success? ==>
      |Tokens(r.value)| == if EncodeLine(raw).value.comp == NoComp then 4 else 9
  {
    var i :- EncodeLine(raw);
    StringToInstrOfMachineCode(i);
    Success(MachineCode(i))
  }

  /** `decode_program` of assembler.cpp (assembler.cpp:164-173): every line in
      order; the first bad line aborts. */
  function DecodeProgram(raws: seq<RawInstruction>): (r: Result<seq<string>, AsmError>)
    ensures r.Success? <==> forall k :: 0 <= k < |raws| ==> EncodeLine(raws[k]).Success?
    ensures r.Success? ==> |r.value| == |raws|
    ensures r.Success? ==>
      forall k :: 0 <= k < |raws| ==> StringToInstr(r.value[k]) == Success(EncodeLine(raws[k]).value)
    ensures r.Failure? ==>
      exists k :: 0 <= k < |raws| && EncodeLine(raws[k]) == Failure(r.error)
                  && forall j :: 0 <= j < k ==> EncodeLine(raws[j]).Success?
  {
    MapAll(ConvertLine, raws)
  }

  /** The records a program assembles to, as the computer stores them: each
      line is converted to machine code and read back. */
  function AssembleProgram(raws: seq<RawInstruction>): (r: Result<seq<Instruction>, AsmError>)
    ensures r.Success? <==> DecodeProgram(raws).Success?
    ensures r.Success? ==> |r.value| == |raws|
    ensures r.Success? ==>
      forall k :: 0 <= k < |raws| ==> StringToInstr(DecodeProgram(raws).value[k]) == Success(r.value[k])
    ensures r.Success? ==> forall k :: 0 <= k < |r.value| ==> IsEncoded(r.value[k])
    ensures r.Failure? ==> DecodeProgram(raws) == Failure(r.error)
  {
    var r := MapAll(EncodeLine, raws);
    assert r.Failure? ==> DecodeProgram(raws).Failure? by {
      if r.Failure? {
        var k :| 0 <= k < |raws| && EncodeLine(raws[k]) == Failure(r.error)
                 && forall j :: 0 <= j < k ==> EncodeLine(raws[j]).Success?;
        FirstFailure(raws, k, r.error);
      }
    }
    r
  }

  /** A program whose every line encodes assembles to those records, in
      order. */
  lemma AssembleEach(raws: seq<RawInstruction>, prog: seq<Instruction>)
    requires |raws| == |prog|
    requires forall k :: 0 <= k < |raws| ==> EncodeLine(raws[k]) == Success(prog[k])
    ensures AssembleProgram(raws) == Success(prog)
  {
    var d := DecodeProgram(raws);
    var r := AssembleProgram(raws);
    assert d.Success?;
    forall k | 0 <= k < |raws|
      ensures r.value[k] == prog[k]
    {
      assert StringToInstr(d.value[k]) == Success(prog[k]);
      assert StringToInstr(d.value[k]) == Success(r.value[k]);
    }
    assert r.value == prog;
  }

  /** Whichever failing line comes first decides the error of the program. */
  lemma FirstFailure(raws: seq<RawInstruction>, k: nat, e: AsmError)
    requires k < |raws| && EncodeLine(raws[k]) == Failure(e)
    requires forall j :: 0 <= j < k ==> EncodeLine(raws[j]).Success?
    ensures DecodeProgram(raws) == Failure(e)
  {
    var r := DecodeProgram(raws);
    assert r.Failure?;
    var m :| 0 <= m < |raws| && EncodeLine(raws[m]) == Failure(r.error)
             && forall j :: 0 <= j < m ==> EncodeLine(raws[j]).Success?;
    assert m >= k;
    assert m <= k;
  }

  // ------------------------------------------------------------ decoding

  /** Why machine code cannot be read. */
  datatype CodeError = NotAnInteger(index: nat) | MissingConditionFields(count: nat)

  /** `get_int` (assembler.cpp:185-194): `stoi` of a token when it exists, the
      default when the line is shorter. */
  function TokenInt(ts: seq<string>, index: nat, default: Int32): (r: Result<Int32, CodeError>)
    ensures index >= |ts| ==> r == Success(default)
    ensures index < |ts| ==> (r.Success? <==> StoI(ts[index]).Success?)
    ensures index < |ts| && r.Success? ==> r.value == StoI(ts[index]).value
    ensures r.Failure? ==> r.error == NotAnInteger(index)
  {
    if index < |ts| then
      match StoI(ts[index])
      case Success(v) => Success(v)
      case Failure(_) => Failure(NotAnInteger(index))
    else Success(default)
  }

  /** The number token `k` holds, or `default` when there is none. */
  function FieldOr(ts: seq<string>, k: nat, default: Int32): Int32
  {
    if k < |ts| && StoI(ts[k]).Success? then StoI(ts[k]).value else default
  }

  /** The tokens from `lo` up to `hi` that exist all read as integers. */
  predicate NumbersFrom(ts: seq<string>, lo: nat, hi: nat)
  {
    forall k :: lo <= k < hi && k < |ts| ==> StoI(ts[k]).Success?
  }

  /** Extending the range by one token. */
  lemma NumbersSnoc(ts: seq<string>, lo: nat, k: nat)
    requires lo <= k
    ensures NumbersFrom(ts, lo, k + 1) <==> NumbersFrom(ts, lo, k) && (k < |ts| ==> StoI(ts[k]).Success?)
  {
  }

  /** The four header numbers (assembler.cpp:196-199), read in order; a
      missing one reads as 0, and the first token that is no integer is
      the error. */
  function Header(ts: seq<string>): (r: Result<(Operand, Operand), CodeError>)
    ensures ts == [] ==> r == Success((Operand(0, 0), Operand(0, 0)))
    ensures r.Success? <==> NumbersFrom(ts, 0, 4)
    ensures r.Success? ==>
      r.value == (Operand(FieldOr(ts, 0, 0), FieldOr(ts, 1, 0)), Operand(FieldOr(ts, 2, 0), FieldOr(ts, 3, 0)))
    ensures r.Failure? ==>
      r.error.NotAnInteger? && r.error.index < 4 && r.error.index < |ts| &&
      StoI(ts[r.error.index]).Failure? && NumbersFrom(ts, 0, r.error.index)
  {
    NumbersSnoc(ts, 0, 0); NumbersSnoc(ts, 0, 1); NumbersSnoc(ts, 0, 2); NumbersSnoc(ts, 0, 3);
    var sourceKind := TokenInt(ts, 0, 0);
    var sourceValue := TokenInt(ts, 1, 0);
    var destKind := TokenInt(ts, 2, 0);
    var destValue := TokenInt(ts, 3, 0);
    if sourceKind.Failure? then Failure(sourceKind.error)
    else if sourceValue.Failure? then Failure(sourceValue.error)
    else if destKind.Failure? then Failure(destKind.error)
    else if destValue.Failure? then Failure(destValue.error)
    else Success((Operand(sourceKind.value, sourceValue.value), Operand(destKind.value, destValue.value)))
  }

  /** The condition fields of a line of at least nine tokens
      (assembler.cpp:211-215). */
  function ConditionFields(ts: seq<string>): (r: Result<Guard, CodeError>)
    requires |ts| >= 9
    ensures r.Success? ==> r.value.comp == CompOfMnemonic(ts[8]) && r.value.comp != NoComp
    ensures r.Success? <==> NumbersFrom(ts, 4, 8)
    ensures r.Success? ==>
      r.value == Guard(Operand(FieldOr(ts, 4, NoKind), FieldOr(ts, 5, 0)),
                       Operand(FieldOr(ts, 6, NoKind), FieldOr(ts, 7, 0)), CompOfMnemonic(ts[8]))
    ensures r.Failure? ==>
      r.error.NotAnInteger? && 4 <= r.error.index < 8 &&
      StoI(ts[r.error.index]).Failure? && NumbersFrom(ts, 4, r.error.index)
  {
    NumbersSnoc(ts, 4, 4); NumbersSnoc(ts, 4, 5); NumbersSnoc(ts, 4, 6); NumbersSnoc(ts, 4, 7);
    var kind1 := TokenInt(ts, 4, NoKind);
    var value1 := TokenInt(ts, 5, 0);
    var kind2 := TokenInt(ts, 6, NoKind);
    var value2 := TokenInt(ts, 7, 0);
    if kind1.Failure? then Failure(kind1.error)
    else if value1.Failure? then Failure(value1.error)
    else if kind2.Failure? then Failure(kind2.error)
    else if value2.Failure? then Failure(value2.error)
    else Success(Guard(Operand(kind1.value, value1.value), Operand(kind2.value, value2.value), CompOfMnemonic(ts[8])))
  }

  /** `string_to_instr` (assembler.cpp:176-230): four header numbers (missing
      ones read as 0); more than four tokens must be at least nine, the
      condition numbers and the mnemonic. */
  function StringToInstr(code: string): (r: Result<Instruction, CodeError>)
    ensures r.Success? ==> (r.value.comp == NoComp <==> |Tokens(code)| <= 4)
    ensures r.Success? && r.value.comp == NoComp ==>
      r.value.cond1 == NoOperand && r.value.cond2 == NoOperand
    ensures 4 < |Tokens(code)| < 9 ==> r.Failure?
    ensures Tokens(code) == [] ==>
      r == Success(Instruction(Operand(0, 0), Operand(0, 0), NoOperand, NoOperand, NoComp))
    ensures Header(Tokens(code)).Failure? ==> r == Failure(Header(Tokens(code)).error)
    ensures r.Success? ==> (r.value.source, r.value.dest) == Header(Tokens(code)).value
    ensures 4 < |Tokens(code)| < 9 && Header(Tokens(code)).Success? ==>
      r == Failure(MissingConditionFields(|Tokens(code)|))
    ensures |Tokens(code)| >= 9 ==>
      (r.Success? <==> Header(Tokens(code)).Success? && ConditionFields(Tokens(code)).Success?)
    ensures |Tokens(code)| >= 9 && r.Success? ==>
      Guard(r.value.cond1, r.value.cond2, r.value.comp) == ConditionFields(Tokens(code)).value
    ensures |Tokens(code)| >= 9 && Header(Tokens(code)).Success? && ConditionFields(Tokens(code)).Failure? ==>
      r == Failure(ConditionFields(Tokens(code)).error)
  {
    var ts := Tokens(code);
    var header :- Header(ts);
    if |ts| > 4 then
      if |ts| < 9 then Failure(MissingConditionFields(|ts|))
      else
        var g :- ConditionFields(ts);
        Success(Instruction(header.0, header.1, g.cond1, g.cond2, g.comp))
    else
      Success(Instruction(header.0, header.1, NoOperand, NoOperand, NoComp))
  }

  /** Reading back the machine code of a record gives the record. */
  lemma StringToInstrOfMachineCode(i: Instruction)
    requires i.comp != Unknown
    requires i.comp == NoComp ==> i.cond1 == NoOperand && i.cond2 == NoOperand
    ensures StringToInstr(MachineCode(i)) == Success(i)
  {
    var ts := MachineFields(i);
    assert Tokens(MachineCode(i)) == ts;
    HeaderOfFields(i);
    if i.comp != NoComp {
      ConditionOfFields(i);
    }
  }

  lemma HeaderOfFields(i: Instruction)
    requires i.comp != Unknown
    ensures Header(MachineFields(i)) == Success((i.source, i.dest))
  {
    var ns := FieldNumbers(i);
    assert ns[0] == i.source.kind && ns[1] == i.source.value;
    assert ns[2] == i.dest.kind && ns[3] == i.dest.value;
    FieldNumber(i, 0);
    FieldNumber(i, 1);
    FieldNumber(i, 2);
    FieldNumber(i, 3);
    HeaderOfNumbers(MachineFields(i), i.source, i.dest);
  }

  /** Every numeric field of the machine code reads back with `stoi`. */
  lemma FieldNumber(i: Instruction, k: nat)
    requires i.comp != Unknown && k < |MachineFields(i)| && k < 8
    ensures StoI(MachineFields(i)[k]) == Success(FieldNumbers(i)[k])
  {
    var ts, ns := MachineFields(i), FieldNumbers(i);
    assert ts[k] == NumberTexts(ns)[k];
    StoIOfIntToString(ns[k]);
  }

  lemma HeaderOfNumbers(ts: seq<string>, source: Operand, dest: Operand)
    requires |ts| >= 4
    requires StoI(ts[0]) == Success(source.kind) && StoI(ts[1]) == Success(source.value)
    requires StoI(ts[2]) == Success(dest.kind) && StoI(ts[3]) == Success(dest.value)
    ensures Header(ts) == Success((source, dest))
  {
  }

  lemma ConditionOfFields(i: Instruction)
    requires i.comp != Unknown && i.comp != NoComp
    ensures ConditionFields(MachineFields(i)) == Success(Guard(i.cond1, i.cond2, i.comp))
  {
    ConditionNumbers(i);
    var ts := MachineFields(i);
    assert CompOfMnemonic(ts[8]) == i.comp by { assert ts[8] == Mnemonic(i.comp); }
    ConditionOfNumbers(ts, Guard(i.cond1, i.cond2, i.comp));
  }

  /** The four condition numbers of the machine code read back. */
  lemma ConditionNumbers(i: Instruction)
    requires i.comp != Unknown && i.comp != NoComp
    ensures StoI(MachineFields(i)[4]) == Success(i.cond1.kind)
    ensures StoI(MachineFields(i)[5]) == Success(i.cond1.value)
    ensures StoI(MachineFields(i)[6]) == Success(i.cond2.kind)
    ensures StoI(MachineFields(i)[7]) == Success(i.cond2.value)
  {
    var ns := FieldNumbers(i);
    assert ns[4] == i.cond1.kind && ns[5] == i.cond1.value;
    assert ns[6] == i.cond2.kind && ns[7] == i.cond2.value;
    FieldNumber(i, 4);
    FieldNumber(i, 5);
    FieldNumber(i, 6);
    FieldNumber(i, 7);
  }

  lemma ConditionOfNumbers(ts: seq<string>, g: Guard)
    requires |ts| >= 9 && CompOfMnemonic(ts[8]) == g.comp
    requires StoI(ts[4]) == Success(g.cond1.kind) && StoI(ts[5]) == Success(g.cond1.value)
    requires StoI(ts[6]) == Success(g.cond2.kind) && StoI(ts[7]) == Success(g.cond2.value)
    ensures ConditionFields(ts) == Success(g)
  {
  }

  /** Machine code with more than four tokens but fewer than nine is refused
      once its header reads, naming how many tokens it has. */
  lemma ShortConditionRefused(code: string)
    requires 4 < |Tokens(code)| < 9
    requires forall k :: 0 <= k < 4 ==> StoI(Tokens(code)[k]).Success?
    ensures StringToInstr(code) == Failure(MissingConditionFields(|Tokens(code)|))
  {
    var ts := Tokens(code);
    assert StoI(ts[0]).Success? && StoI(ts[1]).Success? && StoI(ts[2]).Success? && StoI(ts[3]).Success?;
  }

  // ------------------------------------------------------------ disassembly

  /** The canonical assembly text of an encoded condition. */
  function ConditionText(g: Guard): (s: string)
    requires g.comp != NoComp && g.comp != Unknown
    requires IsWellFormed(g.cond1) && IsWellFormed(g.cond2)
  {
    OperandText(g.cond1) + " " + OperatorText(g.comp) + " " + OperandText(g.cond2)
  }

  /** The canonical assembly of an encoded record. */
  function Disassemble(i: Instruction): (raw: RawInstruction)
    requires IsEncoded(i)
    ensures raw.src != [] && NoSpace(raw.src) && raw.dest != [] && NoSpace(raw.dest)
    ensures raw.condition == [] <==> i.comp == NoComp
  {
    RawInstruction(OperandText(i.source), DestText(i.dest),
                   if i.comp == NoComp then "" else ConditionText(Guard(i.cond1, i.cond2, i.comp)))
  }

  /** Encoding the canonical text of an encoded condition gives it back. */
  lemma EncodeConditionText(g: Guard)
    requires g.comp != NoComp && g.comp != Unknown
    requires IsWellFormed(g.cond1) && IsWellFormed(g.cond2)
    ensures EncodeCondition(ConditionText(g)) == Success(g)
  {
    var t1, t2 := OperandText(g.cond1), OperandText(g.cond2);
    var a, b := t1 + " ", " " + t2;
    assert ConditionText(g) == a + OperatorText(g.comp) + b;
    PaddedSides(t1, t2);
    SplitCanonical(a, g.comp, b);
    ParseOperandText(g.cond1, Condition);
    ParseOperandText(g.cond2, Condition);
  }

  /** A side padded by the single spaces around the operator trims back to
      itself and brings in no operator character. */
  lemma PaddedSides(t1: string, t2: string)
    requires t1 != [] && NoSpace(t1) && NoOperatorChar(t1)
    requires t2 != [] && NoSpace(t2) && NoOperatorChar(t2)
    ensures NoOperatorChar(t1 + " ") && NoOperatorChar(" " + t2)
    ensures Trim(t1 + " ") == t1 && Trim(" " + t2) == t2
  {
    PaddedRight(t1);
    PaddedLeft(t2);
  }

  lemma PaddedRight(t: string)
    requires t != [] && NoSpace(t) && NoOperatorChar(t)
    ensures NoOperatorChar(t + " ") && Trim(t + " ") == t
  {
    var a := t + " ";
    assert NoOperatorChar(a) by {
      forall i | 0 <= i < |a| ensures !IsOperatorChar(a[i]) {
        if i < |t| { assert a[i] == t[i]; }
      }
    }
    assert Trim(a) == t by {
      assert AllTrimChars("") && AllTrimChars(" ");
      TrimPadded("", t, " ");
      assert "" + t + " " == a;
    }
  }

  lemma PaddedLeft(t: string)
    requires t != [] && NoSpace(t) && NoOperatorChar(t)
    ensures NoOperatorChar(" " + t) && Trim(" " + t) == t
  {
    var b := " " + t;
    assert NoOperatorChar(b) by {
      forall i | 0 <= i < |b| ensures !IsOperatorChar(b[i]) {
        if i > 0 { assert b[i] == t[i - 1]; }
      }
    }
    assert Trim(b) == t by {
      assert AllTrimChars("") && AllTrimChars(" ");
      TrimPadded(" ", t, "");
      assert " " + t + "" == b;
    }
  }

  /** Disassembling an encoded record and encoding the text gives the record
      back: the encoder loses nothing. */
  lemma EncodeDisassemble(i: Instruction)
    requires IsEncoded(i)
    ensures EncodeLine(Disassemble(i)) == Success(i)
  {
    if i.comp != NoComp {
      EncodeConditionText(Guard(i.cond1, i.cond2, i.comp));
    }
    ParseOperandText(i.source, Source);
    ParseDestText(i.dest);
  }
}
