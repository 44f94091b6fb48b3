/** Operand classification and condition splitting. Both revisions of
    `convert_line` (cpu.cpp:27-126 and assembler.cpp:9-146) classify source,
    destination and condition tokens with the same rules and split a
    condition on the same ordered operator table; this module holds those
    rules once. */
module Operands {
  import opened Results
  import opened Ints
  import opened Text
  import opened Isa

  /** Which field of the line a token came from (it only shapes the error). */
  datatype Field = Source | Destination | Condition

  /** The exceptions the assembler throws. */
  datatype AsmError =
    | UnknownSymbol(field: Field, token: string)
    | UnknownFlag(field: Field, token: string)
    | EmptyOperand
    | NoOperator(condition: string)
    | NumberOutOfRange(token: string)

  // ------------------------------------------------------------ token shapes

  predicate IsNumeral(tok: string) { tok != [] && AllDigits(tok) }

  /** `R` followed by a digit (anything may follow the digit). */
  predicate IsRegisterName(tok: string) { |tok| > 1 && tok[0] == 'R' && IsDigit(tok[1]) }

  /** `A` followed by a digit. */
  predicate IsPortName(tok: string) { |tok| > 1 && tok[0] == 'A' && IsDigit(tok[1]) }

  /** Any token whose second character is `F`, whatever its length. */
  predicate IsFlagName(tok: string) { |tok| > 1 && tok[1] == 'F' }

  /** The flag code of the letter in front of `F`. */
  function FlagCode(c: char): (r: Option<Int32>)
    ensures r.Some? ==> AluTriggerFlag <= r.value <= HaltFlag
  {
    match c
    case 'A' => Some(AluTriggerFlag)
    case 'Z' => Some(ZeroFlag)
    case 'N' => Some(NegativeFlag)
    case 'O' => Some(OverflowFlag)
    case 'H' => Some(HaltFlag)
    case _ => None
  }

  function FlagLetter(code: Int32): (c: char)
    requires AluTriggerFlag <= code <= HaltFlag
    ensures FlagCode(c) == Some(code) && !IsDigit(c) && c != 'R' && c != 'P'
  {
    if code == 1 then 'A' else if code == 2 then 'Z' else if code == 3 then 'N'
    else if code == 4 then 'O' else 'H'
  }

  /** `stoi` applied to the digits of `tok`; the only way it can fail here is
      a value beyond `int`. */
  function Number(digits: string, tok: string): (r: Result<Int32, AsmError>)
    ensures digits != [] && IsDigit(digits[0]) && r.Success? ==> r.value >= 0
  {
    match StoI(digits)
    case Success(v) => Success(v)
    case Failure(_) => Failure(NumberOutOfRange(tok))
  }

  /** An operand the classifier can produce: a known kind, a non-negative
      value, a flag code 1..5, and value 0 for the program counter. */
  predicate IsWellFormed(op: Operand)
  {
    Constant <= op.kind <= ProgramCounter && op.value >= 0 &&
    (op.kind == Flag ==> AluTriggerFlag <= op.value <= HaltFlag) &&
    (op.kind == ProgramCounter ==> op.value == 0)
  }

  /** A destination the classifier can produce: discard is `(0, 0)` and only
      the trigger and halt flags are named. */
  predicate IsWellFormedDest(op: Operand)
  {
    IsWellFormed(op) &&
    (op.kind == Constant ==> op.value == 0) &&
    (op.kind == Flag ==> op.value == AluTriggerFlag || op.value == HaltFlag)
  }

  // ------------------------------------------------------------ classifiers

  /** Source-operand classification (cpu.cpp:61-94, assembler.cpp:84-117; the
      condition operands of assembler.cpp:34-61 use the same rules). The rules
      are tried in order: numeral, `PC`, register, flag, ALU port. */
  function ParseOperand(tok: string, field: Field): (r: Result<Operand, AsmError>)
    ensures r.Success? ==> IsWellFormed(r.value)
    ensures tok == [] ==> r.Failure?
    ensures IsNumeral(tok) ==> r.Failure? || r.value.kind == Constant
    ensures IsRegisterName(tok) ==> r.Failure? || r.value.kind == Register
    ensures IsFlagName(tok) && !IsRegisterName(tok) && tok != "PC" && !IsNumeral(tok) ==>
              r == (match FlagCode(tok[0])
                    case Some(code) => Success(Operand(Flag, code))
                    case None => Failure(UnknownFlag(field, tok)))
    ensures r.Success? && r.value.kind == AluPort ==> IsPortName(tok) && !IsFlagName(tok)
  {
    if IsNumeral(tok) then
      var v :- Number(tok, tok);
      Success(Operand(Constant, v))
    else if tok == "PC" then
      Success(Operand(ProgramCounter, 0))
    else if IsRegisterName(tok) then
      var v :- Number(tok[1..], tok);
      Success(Operand(Register, v))
    else if IsFlagName(tok) then
      match FlagCode(tok[0])
      case Some(code) => Success(Operand(Flag, code))
      case None => Failure(UnknownFlag(field, tok))
    else if IsPortName(tok) then
      var v :- Number(tok[1..], tok);
      Success(Operand(AluPort, v))
    else
      Failure(UnknownSymbol(field, tok))
  }

  /** Destination classification (cpu.cpp:97-123, assembler.cpp:119-146):
      `PC`, `AF`, `HF`, register, ALU port, and a numeral meaning "discard". */
  function ParseDest(tok: string): (r: Result<Operand, AsmError>)
    ensures r.Success? ==> IsWellFormedDest(r.value)
    ensures IsNumeral(tok) ==> r == Success(Operand(Constant, 0))
    ensures r.Success? && r.value.kind == Flag ==> tok == "AF" || tok == "HF"
    ensures r.Failure? && r.error.NumberOutOfRange? ==> IsRegisterName(tok) || IsPortName(tok)
  {
    NamesAreNotNumerals(tok);
    if tok == "PC" then Success(Operand(ProgramCounter, 0))
    else if tok == "AF" then Success(Operand(Flag, AluTriggerFlag))
    else if tok == "HF" then Success(Operand(Flag, HaltFlag))
    else if IsRegisterName(tok) then
      var v :- Number(tok[1..], tok);
      Success(Operand(Register, v))
    else if IsPortName(tok) then
      var v :- Number(tok[1..], tok);
      Success(Operand(AluPort, v))
    else if IsNumeral(tok) then Success(Operand(Constant, 0))
    else Failure(UnknownSymbol(Destination, tok))
  }

  lemma NamesAreNotNumerals(tok: string)
    ensures IsNumeral(tok) ==> tok != "PC" && tok != "AF" && tok != "HF"
    ensures IsNumeral(tok) ==> !IsRegisterName(tok) && !IsPortName(tok) && !IsFlagName(tok)
  {
    if IsNumeral(tok) {
      assert IsDigit(tok[0]);
      if |tok| > 1 { assert IsDigit(tok[1]); }
    }
  }

  // ------------------------------------------------------------ canonical text

  /** The characters comparison operators are made of. */
  predicate IsOperatorChar(c: char) { c == '=' || c == '!' || c == '<' || c == '>' }

  predicate NoOperatorChar(s: string) { forall i :: 0 <= i < |s| ==> !IsOperatorChar(s[i]) }

  /** The canonical spelling of a well-formed operand. */
  function OperandText(op: Operand): (s: string)
    requires IsWellFormed(op)
    ensures s != [] && NoSpace(s) && NoOperatorChar(s)
  {
    if op.kind == Constant then NatToString(op.value as nat)
    else if op.kind == Register then "R" + NatToString(op.value as nat)
    else if op.kind == AluPort then "A" + NatToString(op.value as nat)
    else if op.kind == Flag then [FlagLetter(op.value), 'F']
    else "PC"
  }

  lemma NumberOfDigits(op: Operand, tok: string)
    requires op.value >= 0
    requires tok == NatToString(op.value as nat)
    ensures Number(tok, tok) == Success(op.value)
    ensures forall t :: Number(tok, t) == Success(op.value)
  {
  }

  /** Classifying the canonical spelling of an operand gives the operand back. */
  lemma ParseOperandText(op: Operand, field: Field)
    requires IsWellFormed(op)
    ensures ParseOperand(OperandText(op), field) == Success(op)
  {
    var tok := OperandText(op);
    if op.kind == Constant {
      NumberOfDigits(op, tok);
    } else if op.kind == Register || op.kind == AluPort {
      IndexedNameText(op, field);
    } else if op.kind == Flag {
      assert tok[0] == FlagLetter(op.value) && tok[1] == 'F';
      assert !IsNumeral(tok) by { assert !IsDigit(tok[0]); }
      assert !IsRegisterName(tok) && tok != "PC";
    }
  }

  lemma IndexedNameText(op: Operand, field: Field)
    requires IsWellFormed(op) && (op.kind == Register || op.kind == AluPort)
    ensures ParseOperand(OperandText(op), field) == Success(op)
  {
    var tok := OperandText(op);
    var digits := NatToString(op.value as nat);
    NumberOfDigits(op, digits);
    assert tok == [if op.kind == Register then 'R' else 'A'] + digits;
    IndexedName(tok, digits, op.value);
    ParseIndexed(tok, field, op);
  }

  /** Classifying `R` or `A` in front of digits that read as a number. */
  lemma ParseIndexed(tok: string, field: Field, op: Operand)
    requires |tok| > 1 && IsDigit(tok[1]) && !IsNumeral(tok) && tok != "PC" && !IsFlagName(tok)
    requires op.kind == (if tok[0] == 'R' then Register else AluPort)
    requires tok[0] == 'R' || tok[0] == 'A'
    requires Number(tok[1..], tok) == Success(op.value)
    ensures ParseOperand(tok, field) == Success(op)
  {
  }

  /** A letter in front of the digits of a number: no numeral, not `PC`,
      no flag, and its digits read back as the number. */
  lemma IndexedName(tok: string, digits: string, v: Int32)
    requires |tok| >= 1 && tok[1..] == digits && (tok[0] == 'R' || tok[0] == 'A')
    requires digits != [] && AllDigits(digits)
    requires Number(digits, tok) == Success(v)
    ensures |tok| > 1 && IsDigit(tok[1]) && !IsNumeral(tok) && tok != "PC" && !IsFlagName(tok)
    ensures Number(tok[1..], tok) == Success(v)
  {
    assert tok[1] == digits[0];
    assert !IsDigit(tok[0]);
  }

  /** The canonical spelling of a well-formed destination. */
  function DestText(op: Operand): (s: string)
    requires IsWellFormedDest(op)
    ensures s != [] && NoSpace(s) && NoOperatorChar(s)
  {
    if op.kind == Constant then "0" else OperandText(op)
  }

  /** Classifying the canonical spelling of a destination gives it back. */
  lemma ParseDestText(op: Operand)
    requires IsWellFormedDest(op)
    ensures ParseDest(DestText(op)) == Success(op)
  {
    var tok := DestText(op);
    if op.kind == Register || op.kind == AluPort {
      IndexedDestText(op);
    } else if op.kind == Constant {
      assert IsNumeral(tok);
    }
  }

  lemma IndexedDestText(op: Operand)
    requires IsWellFormedDest(op) && (op.kind == Register || op.kind == AluPort)
    ensures ParseDest(DestText(op)) == Success(op)
  {
    var tok := DestText(op);
    var digits := NatToString(op.value as nat);
    assert tok == [if op.kind == Register then 'R' else 'A'] + digits;
    assert tok[1..] == digits;
    NumberOfDigits(op, digits);
    ParseDestIndexed(tok);
  }

  /** A letter followed by a digit is read as a register or port index. */
  lemma ParseDestIndexed(tok: string)
    requires |tok| > 1 && IsDigit(tok[1])
    ensures tok[0] == 'R' && Number(tok[1..], tok).Success? ==>
              ParseDest(tok) == Success(Operand(Register, Number(tok[1..], tok).value))
    ensures tok[0] == 'A' && Number(tok[1..], tok).Success? ==>
              ParseDest(tok) == Success(Operand(AluPort, Number(tok[1..], tok).value))
  {
    assert tok != "PC" && tok != "AF" && tok != "HF" by {
      assert tok[1] != 'C' && tok[1] != 'F';
    }
  }

  // ------------------------------------------------------------ conditions

  /** `ops_ordered`: the operators in the order they are searched for, the
      two-character ones before their one-character prefixes. */
  const Operators: seq<string> := ["==", "!=", "<=", ">=", "<", ">"]

  /** `ops_map`, position by position. */
  const OperatorComps: seq<Comp> := [Eq, Ne, Le, Ge, Lt, Gt]

  /** The position of a comparison's operator in the search order. */
  function Priority(c: Comp): (i: nat)
    requires c != NoComp && c != Unknown
    ensures i < 6 && OperatorComps[i] == c
  {
    match c
    case Eq => 0
    case Ne => 1
    case Le => 2
    case Ge => 3
    case Lt => 4
    case Gt => 5
  }

  function OperatorText(c: Comp): string
    requires c != NoComp && c != Unknown
  {
    Operators[Priority(c)]
  }

  /** A condition cut at its operator; both sides are still untrimmed. */
  datatype Split = Split(lhs: string, comp: Comp, rhs: string)

  function SplitFrom(cond: string, i: nat): (r: Option<Split>)
    requires i <= 6
    ensures r.Some? ==> r.value.comp != NoComp && r.value.comp != Unknown
    ensures r.Some? ==> i <= Priority(r.value.comp)
    ensures r.Some? ==>
      Find(cond, OperatorText(r.value.comp)) == Some(|r.value.lhs|) &&
      cond == r.value.lhs + OperatorText(r.value.comp) + r.value.rhs
    ensures r.Some? ==> forall j :: i <= j < Priority(r.value.comp) ==> !Contains(cond, Operators[j])
    ensures r.None? ==> forall j :: i <= j < 6 ==> !Contains(cond, Operators[j])
    decreases 6 - i
  {
    if i == 6 then None
    else
      match Find(cond, Operators[i])
      case Some(p) =>
        var op := Operators[i];
        assert cond == cond[..p] + op + cond[p + |op|..] by {
          assert cond[p..p + |op|] == op;
          assert cond == cond[..p] + cond[p..p + |op|] + cond[p + |op|..];
        }
        Some(Split(cond[..p], OperatorComps[i], cond[p + |op|..]))
      case None => SplitFrom(cond, i + 1)
  }

  /** The operator search of both `convert_line`s (cpu.cpp:35-53,
      assembler.cpp:16-21): the first operator of `Operators` that occurs in
      `cond` wins, and the text is cut at its leftmost occurrence. */
  function SplitCondition(cond: string): (r: Option<Split>)
    ensures r.Some? ==> r.value.comp != NoComp && r.value.comp != Unknown
    ensures r.Some? ==> cond == r.value.lhs + OperatorText(r.value.comp) + r.value.rhs
    ensures r.Some? ==>
      forall k :: 0 <= k < |r.value.lhs| ==> !OccursAt(cond, OperatorText(r.value.comp), k)
    ensures r.Some? ==>
      forall j :: 0 <= j < Priority(r.value.comp) ==> !Contains(cond, Operators[j])
    ensures r.None? <==> forall j :: 0 <= j < 6 ==> !Contains(cond, Operators[j])
  {
    var r := SplitFrom(cond, 0);
    assert r.Some? ==> Contains(cond, Operators[Priority(r.value.comp)]) by {
      if r.Some? {
        assert OccursAt(cond, OperatorText(r.value.comp), |r.value.lhs|);
      }
    }
    r
  }

  /** A condition containing `<=` is never cut at `<`. */
  lemma LessEqualBeforeLess(cond: string)
    requires Contains(cond, "<=")
    ensures SplitCondition(cond).Some? && SplitCondition(cond).value.comp != Lt
  {
    assert Operators[2] == "<=";
  }

  /** An occurrence of an operator-only pattern in `a + m + b`, where `a` and
      `b` hold no operator character, lies inside `m`. */
  lemma OccurrenceInside(a: string, m: string, b: string, pat: string, k: int)
    requires NoOperatorChar(a) && NoOperatorChar(b)
    requires pat != [] && forall i :: 0 <= i < |pat| ==> IsOperatorChar(pat[i])
    requires OccursAt(a + m + b, pat, k)
    ensures |a| <= k && k + |pat| <= |a| + |m|
    ensures OccursAt(m, pat, k - |a|)
  {
    var s := a + m + b;
    assert s[k..k + |pat|][0] == s[k];
    var e := k + |pat| - 1;
    assert s[k..k + |pat|][|pat| - 1] == s[e];
    assert s[k..k + |pat|] == m[k - |a|..k - |a| + |pat|];
  }

  lemma OperatorChars(j: nat)
    requires j < 6
    ensures Operators[j] != [] && forall i :: 0 <= i < |Operators[j]| ==> IsOperatorChar(Operators[j][i])
  {
  }

  lemma EndsOfOccurrence(s: string, pat: string, k: int)
    requires pat != [] && OccursAt(s, pat, k)
    ensures s[k] == pat[0] && s[k + |pat| - 1] == pat[|pat| - 1]
  {
    assert s[k..k + |pat|][0] == s[k];
    assert s[k..k + |pat|][|pat| - 1] == s[k + |pat| - 1];
  }

  /** No operator searched before a comparison's own occurs inside its text. */
  lemma NoEarlierOperatorInside(c: Comp, j: nat, x: int)
    requires c != NoComp && c != Unknown && j < Priority(c)
    ensures !OccursAt(OperatorText(c), Operators[j], x)
  {
    if OccursAt(OperatorText(c), Operators[j], x) {
      EndsOfOccurrence(OperatorText(c), Operators[j], x);
      assert false;
    }
  }

  /** In `a op b` no operator of higher priority than `op` occurs. */
  lemma CanonicalFirst(a: string, c: Comp, b: string, j: nat)
    requires c != NoComp && c != Unknown && j < Priority(c)
    requires NoOperatorChar(a) && NoOperatorChar(b)
    ensures !Contains(a + OperatorText(c) + b, Operators[j])
  {
    var s := a + OperatorText(c) + b;
    forall k ensures !OccursAt(s, Operators[j], k) {
      EarlierOperatorAbsent(a, c, b, j, k);
    }
  }

  lemma EarlierOperatorAbsent(a: string, c: Comp, b: string, j: nat, k: int)
    requires c != NoComp && c != Unknown && j < Priority(c)
    requires NoOperatorChar(a) && NoOperatorChar(b)
    ensures !OccursAt(a + OperatorText(c) + b, Operators[j], k)
  {
    if OccursAt(a + OperatorText(c) + b, Operators[j], k) {
      OperatorChars(j);
      OccurrenceInside(a, OperatorText(c), b, Operators[j], k);
      NoEarlierOperatorInside(c, j, k - |a|);
      assert false;
    }
  }

  /** In `a op b` the operator occurs only right after `a`. */
  lemma CanonicalOnly(a: string, c: Comp, b: string, k: int)
    requires c != NoComp && c != Unknown
    requires NoOperatorChar(a) && NoOperatorChar(b)
    requires OccursAt(a + OperatorText(c) + b, OperatorText(c), k)
    ensures k == |a|
  {
    OperatorChars(Priority(c));
    OccurrenceInside(a, OperatorText(c), b, OperatorText(c), k);
  }

  /** A condition written as `lhs op rhs`, with no operator character in
      either side, is cut exactly at that operator. */
  lemma SplitCanonical(a: string, c: Comp, b: string)
    requires c != NoComp && c != Unknown
    requires NoOperatorChar(a) && NoOperatorChar(b)
    ensures SplitCondition(a + OperatorText(c) + b) == Some(Split(a, c, b))
  {
    var op := OperatorText(c);
    var s := a + op + b;
    assert s[|a|..|a| + |op|] == op;
    assert Contains(s, Operators[Priority(c)]) by {
      assert OccursAt(s, op, |a|);
    }
    var r := SplitCondition(s);
    var sp := r.value;
    var q := OperatorText(sp.comp);
    assert OccursAt(s, q, |sp.lhs|) by {
      assert s[|sp.lhs|..|sp.lhs| + |q|] == q;
    }
    if Priority(sp.comp) < Priority(c) {
      CanonicalFirst(a, c, b, Priority(sp.comp));
      assert false;
    }
    assert sp.comp == c by {
      assert OperatorComps[Priority(sp.comp)] == sp.comp;
      assert OperatorComps[Priority(c)] == c;
    }
    CanonicalOnly(a, c, b, |sp.lhs|);
    assert sp.lhs == s[..|a|] == a;
    assert sp.rhs == s[|a| + |op|..] == b;
  }
}
