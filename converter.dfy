/** The text front end of converter.cpp: one line of assembly is read as
    whitespace-separated words — source, destination, an optional `?`
    placeholder and the words of the condition — and a program is read line
    by line. */
module Converter {
  import opened Results
  import opened Text
  import opened Isa

  /** The one exception of `parse_raw_instruction`. */
  datatype LineError = TooFewTokens(line: string)

  // ------------------------------------------------------------ joined words

  /** Joining two non-empty runs of words puts one space between them. */
  lemma {:induction false} JoinSpacedAppend(xs: seq<string>, ys: seq<string>)
    requires |xs| >= 1 && |ys| >= 1
    ensures JoinSpaced(xs + ys) == JoinSpaced(xs) + " " + JoinSpaced(ys)
    decreases |xs|
  {
    TailOfAppend(xs, ys);
    if |xs| > 1 {
      JoinSpacedAppend(xs[1..], ys);
      assert xs[0] + " " + (JoinSpaced(xs[1..]) + " " + JoinSpaced(ys))
          == (xs[0] + " " + JoinSpaced(xs[1..])) + " " + JoinSpaced(ys);
    }
  }

  /** Words joined by spaces begin with the first word's first character and
      end with the last word's last character. */
  lemma {:induction false} JoinEnds(ts: seq<string>)
    requires AreWords(ts) && ts != []
    ensures JoinSpaced(ts) != []
    ensures JoinSpaced(ts)[0] == ts[0][0]
    ensures JoinSpaced(ts)[|JoinSpaced(ts)| - 1] == ts[|ts| - 1][|ts[|ts| - 1]| - 1]
    decreases |ts|
  {
    if |ts| > 1 {
      WordsTail(ts);
      JoinEnds(ts[1..]);
    }
  }

  /** `trim` leaves words joined by spaces alone. */
  lemma TrimJoined(ts: seq<string>)
    requires AreWords(ts)
    ensures Trim(JoinSpaced(ts)) == JoinSpaced(ts)
  {
    if ts != [] {
      var s := JoinSpaced(ts);
      JoinEnds(ts);
      assert !IsSpace(ts[0][0]);
      var last := ts[|ts| - 1];
      assert !IsSpace(last[|last| - 1]);
      TrimKeptEnds(s);
    }
  }

  // ------------------------------------------------------------ one line

  /** The words that make up the condition: those after the destination,
      without a `?` placeholder in third place. */
  function ConditionWords(ts: seq<string>): (ws: seq<string>)
    requires |ts| >= 2
    ensures |ts| == 2 ==> ws == []
    ensures |ts| > 2 && ts[2] == "?" ==> ws == ts[3..]
    ensures |ts| > 2 && ts[2] != "?" ==> ws == ts[2..]
  {
    if |ts| == 2 then []
    else if ts[2] == "?" then ts[3..]
    else ts[2..]
  }

  /** What `parse_raw_instruction` (converter.cpp:7-35) returns for `line`:
      at least two words are required; the source and destination are the
      first two, the condition is the rest joined by single spaces. */
  function LineFields(line: string): (r: Result<RawInstruction, LineError>)
    ensures r.Success? <==> |Tokens(line)| >= 2
    ensures r.Failure? ==> r.error == TooFewTokens(line)
    ensures r.Success? ==> r.value.src == Tokens(line)[0] && r.value.dest == Tokens(line)[1]
    ensures r.Success? ==> Tokens(r.value.condition) == ConditionWords(Tokens(line))
  {
    var ts := Tokens(line);
    if |ts| < 2 then Failure(TooFewTokens(line))
    else
      var ws := ConditionWords(ts);
      WordsFrom(ts, |ts| - |ws|);
      assert ts[|ts| - |ws|..] == ws;
      TokensOfJoin(ws);
      Success(RawInstruction(ts[0], ts[1], JoinSpaced(ws)))
  }

  /** The words from some position on are words. */
  lemma WordsFrom(ts: seq<string>, start: nat)
    requires AreWords(ts) && start <= |ts|
    ensures AreWords(ts[start..])
  {
    forall k | 0 <= k < |ts[start..]| ensures ts[start..][k] != [] && NoSpace(ts[start..][k]) {
      assert ts[start..][k] == ts[start + k];
    }
  }

  /** One more word on the condition being joined. */
  lemma JoinStep(ts: seq<string>, start: nat, i: nat)
    requires AreWords(ts) && start <= i < |ts|
    ensures JoinSpaced(ts[start..i + 1]) ==
      if i == start then ts[i] else JoinSpaced(ts[start..i]) + " " + ts[i]
    ensures i > start ==> JoinSpaced(ts[start..i]) != []
  {
    if i > start {
      var xs := ts[start..i];
      assert AreWords(xs) by {
        forall k | 0 <= k < |xs| ensures xs[k] != [] && NoSpace(xs[k]) {
          assert xs[k] == ts[start + k];
        }
      }
      JoinSpacedAppend(xs, [ts[i]]);
      assert xs + [ts[i]] == ts[start..i + 1];
      JoinEnds(xs);
    } else {
      assert ts[start..i + 1] == [ts[i]];
    }
  }

  /** The loop of `parse_raw_instruction` that joins the words from
      `start` on, a space before every word but the first
      (converter.cpp:27-30). */
  method JoinFrom(tokens: seq<string>, start: nat) returns (condition: string)
    requires AreWords(tokens) && start <= |tokens|
    ensures condition == JoinSpaced(tokens[start..])
  {
    condition := "";
    var i := start;
    assert tokens[start..i] == [];
    while i < |tokens|
      invariant start <= i <= |tokens|
      invariant condition == JoinSpaced(tokens[start..i])
      invariant condition == [] <==> i == start
    {
      JoinStep(tokens, start, i);
      if condition != [] {
        condition := condition + " ";
      } else {
        assert "" + tokens[i] == tokens[i];
      }
      condition := condition + tokens[i];
      i := i + 1;
    }
    assert tokens[start..i] == tokens[start..];
  }

  /** `parse_raw_instruction` (converter.cpp:7-35). */
  method ParseRawInstruction(line: string) returns (r: Result<RawInstruction, LineError>)
    ensures r == LineFields(line)
  {
    var tokens := Tokens(line);
    if |tokens| < 2 {
      return Failure(TooFewTokens(line));
    }
    var src := Trim(tokens[0]);
    var dest := Trim(tokens[1]);
    var condition := "";
    if |tokens| > 2 {
      var start := if tokens[2] == "?" then 3 else 2;
      WordsFrom(tokens, start);
      condition := JoinFrom(tokens, start);
      assert tokens[start..] == ConditionWords(tokens);
      TrimJoined(tokens[start..]);
      condition := Trim(condition);
    }
    TrimNoSpace(tokens[0]);
    TrimNoSpace(tokens[1]);
    return Success(RawInstruction(src, dest, condition));
  }

  /** The line a raw instruction is written as: source, destination and,
      when there is a condition, `?` and the condition. */
  function FormatLine(raw: RawInstruction): string
  {
    if raw.condition == [] then raw.src + " " + raw.dest
    else raw.src + " " + raw.dest + " ? " + raw.condition
  }

  /** Words written with single spaces. */
  predicate IsCanonical(s: string)
  {
    JoinSpaced(Tokens(s)) == s
  }

  predicate IsWord(w: string)
  {
    w != [] && NoSpace(w)
  }

  /** The words of a written line. */
  function FormatTokens(raw: RawInstruction): seq<string>
  {
    if raw.condition == [] then [raw.src, raw.dest]
    else [raw.src, raw.dest, "?"] + Tokens(raw.condition)
  }

  /** The words of a written line are words. */
  lemma FormatWords(raw: RawInstruction)
    requires IsWord(raw.src) && IsWord(raw.dest)
    ensures AreWords(FormatTokens(raw))
  {
    if raw.condition != [] {
      GuardedWords(raw.src, raw.dest, Tokens(raw.condition));
    } else {
      WordsCons(raw.dest, []);
      WordsCons(raw.src, [raw.dest]);
    }
  }

  lemma GuardedWords(src: string, dest: string, ws: seq<string>)
    requires IsWord(src) && IsWord(dest) && AreWords(ws)
    ensures AreWords([src, dest, "?"] + ws)
  {
    assert [src, dest, "?"] + ws == [src] + ([dest] + (["?"] + ws));
    WordsCons("?", ws);
    WordsCons(dest, ["?"] + ws);
    WordsCons(src, [dest] + (["?"] + ws));
  }

  /** Two words joined by a space. */
  lemma JoinTwo(a: string, b: string)
    ensures JoinSpaced([a, b]) == a + " " + b
  {
    assert [a, b][1..] == [b];
  }

  /** A written line is its words joined by single spaces. */
  lemma FormatJoin(raw: RawInstruction)
    requires IsWord(raw.src) && IsWord(raw.dest) && IsCanonical(raw.condition)
    ensures JoinSpaced(FormatTokens(raw)) == FormatLine(raw)
  {
    if raw.condition == [] {
      JoinTwo(raw.src, raw.dest);
    } else {
      var ws := Tokens(raw.condition);
      assert JoinSpaced(ws) == raw.condition;
      assert ws != [];
      GuardedJoin(raw.src, raw.dest, ws, raw.condition);
    }
  }

  /** Source, destination, `?` and the condition words, joined. */
  lemma GuardedJoin(src: string, dest: string, ws: seq<string>, condition: string)
    requires ws != [] && JoinSpaced(ws) == condition
    ensures JoinSpaced([src, dest, "?"] + ws) == src + " " + dest + " ? " + condition
  {
    var front := [src, dest, "?"];
    assert JoinSpaced(front) == src + " " + (dest + " " + "?") by {
      assert front[1..] == [dest, "?"];
      JoinTwo(dest, "?");
    }
    JoinSpacedAppend(front, ws);
    assert src + " " + (dest + " " + "?") + " " + condition
        == src + " " + dest + " ? " + condition;
  }

  /** `LineFields` of a line whose words are known. */
  lemma LineFieldsOfWords(line: string, ts: seq<string>)
    requires Tokens(line) == ts && |ts| >= 2
    ensures LineFields(line) == Success(RawInstruction(ts[0], ts[1], JoinSpaced(ConditionWords(ts))))
  {
  }

  /** Reading back a written line gives the same raw instruction. */
  lemma LineFieldsOfFormat(raw: RawInstruction)
    requires IsWord(raw.src) && IsWord(raw.dest) && IsCanonical(raw.condition)
    ensures LineFields(FormatLine(raw)) == Success(raw)
  {
    var ts := FormatTokens(raw);
    assert Tokens(FormatLine(raw)) == ts by {
      FormatWords(raw);
      FormatJoin(raw);
      TokensOfJoin(ts);
    }
    assert JoinSpaced(ConditionWords(ts)) == raw.condition by {
      if raw.condition != [] {
        DropPrefix([raw.src, raw.dest, "?"], Tokens(raw.condition));
      }
    }
    LineFieldsOfWords(FormatLine(raw), ts);
  }

  /** The `?` placeholder may be left out. */
  lemma PlaceholderOptional(src: string, dest: string, ws: seq<string>)
    requires IsWord(src) && IsWord(dest) && AreWords(ws) && ws != [] && ws[0] != "?"
    ensures LineFields(JoinSpaced([src, dest] + ws)) == LineFields(JoinSpaced([src, dest, "?"] + ws))
  {
    var a, b := [src, dest] + ws, [src, dest, "?"] + ws;
    DropPrefix([src, dest], ws);
    DropPrefix([src, dest, "?"], ws);
    assert ConditionWords(a) == ws == ConditionWords(b);
    assert AreWords(a) by {
      assert a == [src] + ([dest] + ws);
      WordsCons(dest, ws);
      WordsCons(src, [dest] + ws);
    }
    GuardedWords(src, dest, ws);
    LineFieldsOfJoin(a);
    LineFieldsOfJoin(b);
  }

  /** Reading fields from words joined by single spaces. */
  lemma LineFieldsOfJoin(ts: seq<string>)
    requires AreWords(ts) && |ts| >= 2
    ensures LineFields(JoinSpaced(ts)) == Success(RawInstruction(ts[0], ts[1], JoinSpaced(ConditionWords(ts))))
  {
    TokensOfJoin(ts);
    LineFieldsOfWords(JoinSpaced(ts), ts);
  }

  // ------------------------------------------------------------ a program

  /** What `parse_program_lines` (converter.cpp:37-46) returns: lines that
      trim to nothing are skipped, the others parsed in order, the first
      bad one aborting. */
  function ProgramLines(lines: seq<string>): (r: Result<seq<RawInstruction>, LineError>)
    ensures r.Success? ==> |r.value| <= |lines|
    decreases |lines|
  {
    if lines == [] then Success([])
    else
      var init :- ProgramLines(lines[..|lines| - 1]);
      var s := Trim(lines[|lines| - 1]);
      if s == [] then Success(init)
      else
        var raw :- LineFields(s);
        Success(init + [raw])
  }

  /** An error in the first `i` lines is the error of the whole program. */
  lemma {:induction false} PrefixFailure(lines: seq<string>, i: nat)
    requires i <= |lines| && ProgramLines(lines[..i]).Failure?
    ensures ProgramLines(lines) == ProgramLines(lines[..i])
    decreases |lines|
  {
    if i < |lines| {
      var init := lines[..|lines| - 1];
      assert init[..i] == lines[..i];
      PrefixFailure(init, i);
    } else {
      assert lines[..i] == lines;
    }
  }

  /** One more line after a prefix that reads as `out`. */
  lemma NextLine(lines: seq<string>, i: nat, out: seq<RawInstruction>)
    requires i < |lines| && ProgramLines(lines[..i]) == Success(out)
    ensures ProgramLines(lines[..i + 1]) ==
      if Trim(lines[i]) == [] then Success(out)
      else match LineFields(Trim(lines[i]))
        case Failure(e) => Failure(e)
        case Success(raw) => Success(out + [raw])
  {
    assert lines[..i + 1][..i] == lines[..i];
  }

  /** `parse_program_lines` (converter.cpp:37-46). */
  method ParseProgramLines(lines: seq<string>) returns (r: Result<seq<RawInstruction>, LineError>)
    ensures r == ProgramLines(lines)
  {
    var out: seq<RawInstruction> := [];
    var i := 0;
    while i < |lines|
      invariant 0 <= i <= |lines|
      invariant ProgramLines(lines[..i]) == Success(out)
    {
      NextLine(lines, i, out);
      var s := Trim(lines[i]);
      if s != [] {
        var raw := ParseRawInstruction(s);
        if raw.Failure? {
          PrefixFailure(lines, i + 1);
          return Failure(raw.error);
        }
        out := out + [raw.value];
      }
      i := i + 1;
    }
    assert lines[..i] == lines;
    return Success(out);
  }

  /** `trim` gives the empty string only for the empty line: a line of
      blanks is not skipped. */
  lemma TrimEmpty(l: string)
    ensures Trim(l) == [] <==> l == []
  {
    if l != [] && !AllTrimChars(l) {
      assert Trim(l) != [];
    }
  }

  /** A line made only of blanks is not skipped but handed to
      `parse_raw_instruction`, which finds no words in it and throws: such a
      line makes the whole program fail. */
  lemma BlankLineRejected(lines: seq<string>, l: string)
    requires ProgramLines(lines).Success?
    requires l != [] && AllTrimChars(l)
    ensures ProgramLines(lines + [l]) == Failure(TooFewTokens(l))
  {
    SpacesDropped(l);
    var c := lines + [l];
    assert c[..|lines|] == lines && c[..|lines| + 1] == c;
    NextLine(c, |lines|, ProgramLines(lines).value);
  }

  /** The lines `parse_program_lines` hands on, trimmed and in order: those
      that do not trim to nothing. */
  function Kept(lines: seq<string>): (ks: seq<string>)
    ensures |ks| <= |lines|
    ensures forall k :: 0 <= k < |ks| ==> ks[k] != []
    decreases |lines|
  {
    if lines == [] then []
    else Kept(lines[..|lines| - 1]) + KeptLine(lines[|lines| - 1])
  }

  /** One line's share of `Kept`: its trimmed text, unless that is empty. */
  function KeptLine(line: string): seq<string>
  {
    var s := Trim(line);
    if s == [] then [] else [s]
  }

  /** One more line adds its own share at the end. */
  lemma KeptSnoc(lines: seq<string>, line: string)
    ensures Kept(lines + [line]) == Kept(lines) + KeptLine(line)
  {
    var c := lines + [line];
    assert c[..|c| - 1] == lines;
  }

  /** Keeping distributes over concatenation. */
  lemma {:induction false} KeptAppend(a: seq<string>, b: seq<string>)
    ensures Kept(a + b) == Kept(a) + Kept(b)
    decreases |b|
  {
    if b == [] {
      assert a + b == a;
    } else {
      var n := |b| - 1;
      var init := b[..n];
      assert b == init + [b[n]];
      assert a + b == (a + init) + [b[n]];
      KeptSnoc(a + init, b[n]);
      KeptSnoc(init, b[n]);
      KeptAppend(a, init);
      assert (Kept(a) + Kept(init)) + KeptLine(b[n]) == Kept(a) + (Kept(init) + KeptLine(b[n]));
    }
  }

  /** `parse_program_lines` reads exactly the kept lines, each with
      `parse_raw_instruction`, in order, stopping at the first that fails. */
  lemma {:induction false} ProgramLinesKept(lines: seq<string>)
    ensures ProgramLines(lines) == MapAll(LineFields, Kept(lines))
    decreases |lines|
  {
    if lines == [] {
      assert MapAll(LineFields, []) == Success([]);
    } else {
      var n := |lines| - 1;
      var init := lines[..n];
      ProgramLinesKept(init);
      var s := Trim(lines[n]);
      assert lines[..n + 1] == lines;
      if s == [] {
        assert Kept(lines) == Kept(init);
        if ProgramLines(init).Failure? {
          PrefixFailure(lines, n);
        } else {
          NextLine(lines, n, ProgramLines(init).value);
        }
      } else {
        assert Kept(lines) == Kept(init) + [s];
        MapAllSnoc(LineFields, Kept(init), s);
        if ProgramLines(init).Failure? {
          PrefixFailure(lines, n);
        } else {
          NextLine(lines, n, ProgramLines(init).value);
        }
      }
    }
  }

  /** An empty line is skipped wherever it stands. */
  lemma EmptyLineSkipped(a: seq<string>, b: seq<string>)
    ensures ProgramLines(a + [""] + b) == ProgramLines(a + b)
  {
    TrimEmpty("");
    KeptSnoc(a, "");
    assert Kept(a + [""]) == Kept(a);
    KeptAppend(a + [""], b);
    KeptAppend(a, b);
    assert Kept(a + [""] + b) == Kept(a + b);
    ProgramLinesKept(a + [""] + b);
    ProgramLinesKept(a + b);
  }

  /** A program written one instruction per line. */
  function FormatProgram(raws: seq<RawInstruction>): (lines: seq<string>)
    ensures |lines| == |raws| && forall k :: 0 <= k < |raws| ==> lines[k] == FormatLine(raws[k])
  {
    seq(|raws|, k requires 0 <= k < |raws| => FormatLine(raws[k]))
  }

  /** One more line that trims to itself and parses. */
  lemma ProgramLinesSnoc(lines: seq<string>, l: string, raw: RawInstruction)
    requires ProgramLines(lines).Success?
    requires l != [] && Trim(l) == l && LineFields(l) == Success(raw)
    ensures ProgramLines(lines + [l]) == Success(ProgramLines(lines).value + [raw])
  {
    assert (lines + [l])[..|lines|] == lines;
  }

  /** Lines that each trim to themselves and parse read as the program of
      their parses, in order. */
  lemma {:induction false} ProgramOfLines(lines: seq<string>, raws: seq<RawInstruction>)
    requires |lines| == |raws|
    requires forall k :: 0 <= k < |lines| ==>
      lines[k] != [] && Trim(lines[k]) == lines[k] && LineFields(lines[k]) == Success(raws[k])
    ensures ProgramLines(lines) == Success(raws)
    decreases |lines|
  {
    if lines != [] {
      var n := |lines| - 1;
      ProgramOfLines(lines[..n], raws[..n]);
      SplitLast(lines);
      SplitLast(raws);
      ProgramLinesSnoc(lines[..n], lines[n], raws[n]);
    }
  }

  /** A written line trims to itself and is not empty. */
  lemma FormatTrimmed(raw: RawInstruction)
    requires IsWord(raw.src) && IsWord(raw.dest) && IsCanonical(raw.condition)
    ensures FormatLine(raw) != [] && Trim(FormatLine(raw)) == FormatLine(raw)
  {
    FormatWords(raw);
    FormatJoin(raw);
    TrimJoined(FormatTokens(raw));
  }

  /** A sequence is its front followed by its last element. */
  lemma FormatProgramSnoc(init: seq<RawInstruction>, raw: RawInstruction)
    ensures FormatProgram(init + [raw]) == FormatProgram(init) + [FormatLine(raw)]
  {
  }

  /** A raw instruction that can be written on one line and read back:
      one-word source and destination, condition in single-spaced words. */
  predicate Writable(raw: RawInstruction)
  {
    IsWord(raw.src) && IsWord(raw.dest) && IsCanonical(raw.condition)
  }

  /** Reading back a written program gives the same raw instructions. */
  lemma {:induction false} ProgramOfFormat(raws: seq<RawInstruction>)
    requires forall k :: 0 <= k < |raws| ==> Writable(raws[k])
    ensures ProgramLines(FormatProgram(raws)) == Success(raws)
    decreases |raws|
  {
    if raws != [] {
      var n := |raws| - 1;
      var init, raw := raws[..n], raws[n];
      SplitLast(raws);
      FormatProgramSnoc(init, raw);
      assert forall k :: 0 <= k < |init| ==> Writable(init[k]) by {
        forall k | 0 <= k < |init| ensures Writable(init[k]) {
          assert init[k] == raws[k];
        }
      }
      assert Writable(raw);
      ProgramOfFormat(init);
      FormatTrimmed(raw);
      LineFieldsOfFormat(raw);
      ProgramLinesSnoc(FormatProgram(init), FormatLine(raw), raw);
    }
  }
}
