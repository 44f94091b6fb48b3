/** The string routines the assembler and the line tokenizer are built from:
    `trim` (cpu.cpp), and the behaviour of the C++ library calls they use —
    `std::string::find`, reading words with `operator>>`, `std::stoi` and
    `std::to_string`. */
module Text {
  import opened Results
  import opened Ints

  /** `isdigit` in the C locale. */
  predicate IsDigit(c: char) { '0' <= c <= '9' }

  /** The four characters `trim` strips. */
  predicate IsTrimChar(c: char) { c == ' ' || c == '\t' || c == '\n' || c == '\r' }

  /** `isspace` in the C locale: what separates words read with `operator>>`
      and what `stoi` skips before a number. */
  predicate IsSpace(c: char) { IsTrimChar(c) || c == '\U{000B}' || c == '\U{000C}' }

  predicate AllDigits(s: string) { forall i :: 0 <= i < |s| ==> IsDigit(s[i]) }

  predicate AllTrimChars(s: string) { forall i :: 0 <= i < |s| ==> IsTrimChar(s[i]) }

  predicate NoSpace(s: string) { forall i :: 0 <= i < |s| ==> !IsSpace(s[i]) }

  // ---------------------------------------------------------------- sequences

  /** Sequence facts stated once for any element type, so that proofs about
      sequences of strings do not reason about the strings themselves. */
  lemma SplitFirst<T>(s: seq<T>)
    requires s != []
    ensures [s[0]] + s[1..] == s
  {
  }

  lemma Singleton<T>(s: seq<T>)
    requires |s| == 1
    ensures s == [s[0]]
  {
  }

  lemma TailOfAppend<T>(xs: seq<T>, ys: seq<T>)
    requires xs != []
    ensures (xs + ys)[0] == xs[0] && (xs + ys)[1..] == xs[1..] + ys
  {
  }

  lemma AppendEmpty<T>(s: seq<T>)
    ensures s + [] == s
  {
  }

  lemma SplitLast<T>(s: seq<T>)
    requires s != []
    ensures s[..|s| - 1] + [s[|s| - 1]] == s
  {
  }

  lemma DropPrefix<T>(h: seq<T>, t: seq<T>)
    ensures (h + t)[|h|..] == t
    ensures forall k :: 0 <= k < |h| ==> (h + t)[k] == h[k]
  {
  }

  // ---------------------------------------------------------------- trim

  /** `find_first_not_of(" \t\n\r", i)`: the first index from `i` on whose
      character `trim` keeps. */
  function FirstKept(s: string, i: nat): (r: Option<nat>)
    requires i <= |s|
    ensures r.Some? ==> i <= r.value < |s| && !IsTrimChar(s[r.value])
    ensures r.Some? ==> forall k :: i <= k < r.value ==> IsTrimChar(s[k])
    ensures r.None? ==> forall k :: i <= k < |s| ==> IsTrimChar(s[k])
    decreases |s| - i
  {
    if i == |s| then None
    else if !IsTrimChar(s[i]) then Some(i)
    else FirstKept(s, i + 1)
  }

  /** `find_last_not_of(" \t\n\r")` within the first `n` characters: the
      last index below `n` whose character `trim` keeps. */
  function LastKept(s: string, n: nat): (r: Option<nat>)
    requires n <= |s|
    ensures r.Some? ==> r.value < n && !IsTrimChar(s[r.value])
    ensures r.Some? ==> forall k :: r.value < k < n ==> IsTrimChar(s[k])
    ensures r.None? ==> forall k :: 0 <= k < n ==> IsTrimChar(s[k])
    decreases n
  {
    if n == 0 then None
    else if !IsTrimChar(s[n - 1]) then Some(n - 1)
    else LastKept(s, n - 1)
  }

  /** Only trim characters before `i` and from `j` on. */
  predicate TrimmedAround(s: string, i: nat, j: nat)
    requires i <= j <= |s|
  {
    (forall k :: 0 <= k < i ==> IsTrimChar(s[k])) &&
    (forall k :: j <= k < |s| ==> IsTrimChar(s[k]))
  }

  /** `r` occurs in `s` at `i` with only trim characters around it. */
  predicate SitsAt(s: string, i: int, r: string)
  {
    0 <= i <= |s| - |r| && s[i..i + |r|] == r && TrimmedAround(s, i, i + |r|)
  }

  /** `r` is `s` with a run of trim characters removed from each end, and no
      trim character is left at either end of `r`. */
  ghost predicate IsStrippedFrom(s: string, r: string)
  {
    r != [] && !IsTrimChar(r[0]) && !IsTrimChar(r[|r| - 1]) && exists i :: SitsAt(s, i, r)
  }

  /** `trim` of cpu.cpp (cpu.cpp:18-25): strips " \t\n\r" from both ends —
      except that a string made only of those characters (the empty string
      included) comes back unchanged, not empty. */
  function Trim(s: string): (r: string)
    ensures AllTrimChars(s) ==> r == s
    ensures !AllTrimChars(s) ==> IsStrippedFrom(s, r)
  {
    match FirstKept(s, 0)
    case None => s
    case Some(first) =>
      assert !IsTrimChar(s[first]);
      var last := LastKept(s, |s|).value;
      var r := s[first..last + 1];
      assert !AllTrimChars(s) && IsStrippedFrom(s, r) by {
        assert r[0] == s[first] && r[|r| - 1] == s[last];
        assert SitsAt(s, first, r);
      }
      r
  }

  /** A string that starts and ends with a kept character is left alone. */
  lemma TrimKeptEnds(s: string)
    requires s != [] && !IsTrimChar(s[0]) && !IsTrimChar(s[|s| - 1])
    ensures Trim(s) == s
  {
    assert FirstKept(s, 0) == Some(0);
    assert LastKept(s, |s|) == Some(|s| - 1);
    assert s[0..|s|] == s;
  }

  lemma TrimNoSpace(s: string)
    requires NoSpace(s)
    ensures Trim(s) == s
  {
    if s != [] {
      TrimKeptEnds(s);
    }
  }

  /** `find_first_not_of` skips a run of trim characters. */
  lemma {:induction false} FirstKeptAfter(s: string, i: nat, j: nat)
    requires i <= j < |s| && !IsTrimChar(s[j])
    requires forall k :: i <= k < j ==> IsTrimChar(s[k])
    ensures FirstKept(s, i) == Some(j)
    decreases j - i
  {
    if i < j {
      FirstKeptAfter(s, i + 1, j);
    }
  }

  /** `find_last_not_of` skips a run of trim characters. */
  lemma {:induction false} LastKeptBefore(s: string, n: nat, j: nat)
    requires j < n <= |s| && !IsTrimChar(s[j])
    requires forall k :: j < k < n ==> IsTrimChar(s[k])
    ensures LastKept(s, n) == Some(j)
    decreases n
  {
    if j < n - 1 {
      LastKeptBefore(s, n - 1, j);
    }
  }

  /** Trimming a word padded with trim characters gives back the word. */
  lemma TrimPadded(pre: string, w: string, post: string)
    requires w != [] && NoSpace(w) && AllTrimChars(pre) && AllTrimChars(post)
    ensures Trim(pre + w + post) == w
  {
    var s := pre + w + post;
    var i, j := |pre|, |pre| + |w|;
    assert s[i] == w[0] && s[j - 1] == w[|w| - 1];
    assert forall k :: 0 <= k < i ==> s[k] == pre[k];
    assert forall k :: j <= k < |s| ==> s[k] == post[k - j];
    FirstKeptAfter(s, 0, i);
    LastKeptBefore(s, |s|, j - 1);
    assert s[i..j] == w;
  }

  // ---------------------------------------------------------------- find

  predicate OccursAt(s: string, pat: string, k: int)
  {
    0 <= k && k + |pat| <= |s| && s[k..k + |pat|] == pat
  }

  ghost predicate Contains(s: string, pat: string)
  {
    exists k :: OccursAt(s, pat, k)
  }

  function FindFrom(s: string, pat: string, i: nat): (r: Option<nat>)
    ensures r.Some? ==> i <= r.value && OccursAt(s, pat, r.value)
    ensures r.Some? ==> forall k :: i <= k < r.value ==> !OccursAt(s, pat, k)
    ensures r.None? ==> forall k :: i <= k ==> !OccursAt(s, pat, k)
    decreases |s| - i
  {
    if i + |pat| > |s| then None
    else if s[i..i + |pat|] == pat then Some(i)
    else FindFrom(s, pat, i + 1)
  }

  /** `std::string::find`: the leftmost position at which `pat` occurs. */
  function Find(s: string, pat: string): (r: Option<nat>)
    ensures r.Some? ==> OccursAt(s, pat, r.value)
    ensures r.Some? ==> forall k :: 0 <= k < r.value ==> !OccursAt(s, pat, k)
    ensures r.None? <==> !Contains(s, pat)
  {
    FindFrom(s, pat, 0)
  }

  // ---------------------------------------------------------------- words

  function DropSpaces(s: string): (r: string)
    ensures |r| <= |s| && r == s[|s| - |r|..]
    ensures r != [] ==> !IsSpace(r[0])
    ensures forall k :: 0 <= k < |s| - |r| ==> IsSpace(s[k])
    decreases |s|
  {
    if s != [] && IsSpace(s[0]) then
      var r := DropSpaces(s[1..]);
      assert forall k :: 1 <= k < |s| - |r| ==> s[k] == s[1..][k - 1];
      r
    else s
  }

  /** The longest prefix of `s` without a space. */
  function Word(s: string): (w: string)
    ensures |w| <= |s| && w == s[..|w|] && NoSpace(w)
    ensures |w| < |s| ==> IsSpace(s[|w|])
    decreases |s|
  {
    if s != [] && !IsSpace(s[0]) then [s[0]] + Word(s[1..]) else []
  }

  /** The words `while (iss >> t) tokens.push_back(t)` collects from `s`:
      the maximal runs of non-space characters, in order. */
  function Tokens(s: string): (ts: seq<string>)
    ensures AreWords(ts)
    ensures |ts| <= |s|
    ensures ts == [] <==> forall k :: 0 <= k < |s| ==> IsSpace(s[k])
    ensures s != [] && !IsSpace(s[0]) ==> ts != [] && ts[0] == Word(s)
    decreases |s|
  {
    var t := DropSpaces(s);
    if t == [] then []
    else
      var w := Word(t);
      assert w != [] by { assert !IsSpace(t[0]); }
      var rest := Tokens(t[|w|..]);
      WordsCons(w, rest);
      [w] + rest
  }

  /** Words separated by single spaces. */
  function JoinSpaced(ts: seq<string>): string
    decreases |ts|
  {
    if |ts| == 0 then ""
    else if |ts| == 1 then ts[0]
    else ts[0] + " " + JoinSpaced(ts[1..])
  }

  predicate AreWords(ts: seq<string>)
  {
    forall k :: 0 <= k < |ts| ==> ts[k] != [] && NoSpace(ts[k])
  }

  lemma WordsCons(w: string, ts: seq<string>)
    requires w != [] && NoSpace(w) && AreWords(ts)
    ensures AreWords([w] + ts)
  {
    forall k | 0 <= k < |[w] + ts|
      ensures ([w] + ts)[k] != [] && NoSpace(([w] + ts)[k])
    {
      if k > 0 {
        assert ([w] + ts)[k] == ts[k - 1];
      }
    }
  }

  lemma WordOfPrefix(w: string, rest: string)
    requires NoSpace(w)
    requires rest == [] || IsSpace(rest[0])
    ensures Word(w + rest) == w
    decreases |w|
  {
    if w != [] {
      assert (w + rest)[1..] == w[1..] + rest;
      WordOfPrefix(w[1..], rest);
    }
  }

  /** Reading back words joined by single spaces gives the same words. */
  lemma {:induction false} TokensOfJoin(ts: seq<string>)
    requires AreWords(ts)
    ensures Tokens(JoinSpaced(ts)) == ts
    decreases |ts|
  {
    if |ts| <= 1 {
      TokensOfShortJoin(ts);
    } else {
      WordsTail(ts);
      TokensOfJoin(ts[1..]);
      TokensOfLongJoin(ts);
    }
  }

  lemma TokensOfShortJoin(ts: seq<string>)
    requires AreWords(ts) && |ts| <= 1
    ensures Tokens(JoinSpaced(ts)) == ts
  {
    if |ts| == 0 {
      assert Tokens("") == [];
    } else {
      assert JoinSpaced(ts) == ts[0];
      TokensOfOneWord(ts[0]);
      Singleton(ts);
    }
  }

  /** A single word reads back as itself. */
  lemma TokensOfOneWord(w: string)
    requires w != [] && NoSpace(w)
    ensures Tokens(w) == [w]
  {
    assert DropSpaces(w) == w by { assert !IsSpace(w[0]); }
    AppendEmpty(w);
    WordOfPrefix(w, "");
    assert w[|w|..] == [];
    assert Tokens([]) == [];
  }

  lemma TokensOfLongJoin(ts: seq<string>)
    requires AreWords(ts) && |ts| > 1
    requires Tokens(JoinSpaced(ts[1..])) == ts[1..]
    ensures Tokens(JoinSpaced(ts)) == ts
  {
    JoinSpacedCons(ts);
    TokensCons(ts[0], JoinSpaced(ts[1..]));
    SplitFirst(ts);
  }

  /** A word, a space and more text read as the word and then the words of
      the rest. */
  lemma TokensCons(w: string, tail: string)
    requires w != [] && NoSpace(w)
    ensures Tokens(w + (" " + tail)) == [w] + Tokens(tail)
  {
    assert IsSpace((" " + tail)[0]);
    TokensOfWord(w, " " + tail);
    TokensSkipSpace(' ', tail);
  }

  lemma JoinSpacedCons(ts: seq<string>)
    requires |ts| > 1
    ensures JoinSpaced(ts) == ts[0] + (" " + JoinSpaced(ts[1..]))
  {
  }

  lemma WordsTail(ts: seq<string>)
    requires AreWords(ts) && |ts| > 0
    ensures AreWords(ts[1..])
  {
    forall k | 0 <= k < |ts[1..]| ensures ts[1..][k] != [] && NoSpace(ts[1..][k]) {
      assert ts[1..][k] == ts[k + 1];
    }
  }

  /** Reading a word followed by a space or by nothing yields that word first. */
  lemma TokensOfWord(w: string, rest: string)
    requires w != [] && NoSpace(w)
    requires rest == [] || IsSpace(rest[0])
    ensures Tokens(w + rest) == [w] + Tokens(rest)
  {
    var s := w + rest;
    assert s[0] == w[0];
    assert DropSpaces(s) == s;
    WordOfPrefix(w, rest);
    assert s[|w|..] == rest;
  }

  /** A leading blank of any of the six kinds is skipped. */
  lemma TokensSkipSpace(c: char, t: string)
    requires IsSpace(c)
    ensures Tokens([c] + t) == Tokens(t)
  {
    var s := [c] + t;
    assert s[0] == c && s[1..] == t;
    assert DropSpaces(s) == DropSpaces(t);
    TokensAfterBlanks(s, t);
  }

  /** The words depend only on what follows the leading blanks. */
  lemma TokensAfterBlanks(s: string, t: string)
    requires DropSpaces(s) == DropSpaces(t)
    ensures Tokens(s) == Tokens(t)
  {
  }

  /** Reading character by character: a blank is skipped, and anything else
      starts a word that runs to the next blank. This fixes `Tokens` on every
      input. */
  lemma TokensStep(s: string)
    requires s != []
    ensures IsSpace(s[0]) ==> Tokens(s) == Tokens(s[1..])
    ensures !IsSpace(s[0]) ==> Tokens(s) == [Word(s)] + Tokens(s[|Word(s)|..])
  {
    assert s == [s[0]] + s[1..];
    if IsSpace(s[0]) {
      TokensSkipSpace(s[0], s[1..]);
    } else {
      var w := Word(s);
      assert s == w + s[|w|..];
      TokensOfWord(w, s[|w|..]);
    }
  }

  lemma WordsNoSpace(ts: seq<string>)
    requires AreWords(ts)
    ensures NoSpace(JoinSpaced(ts)) <==> |ts| <= 1
    ensures JoinSpaced(ts) == [] <==> ts == []
    decreases |ts|
  {
    if |ts| > 1 {
      var s := JoinSpaced(ts);
      assert s[|ts[0]|] == ' ';
      WordsNoSpace(ts[1..]);
    }
  }

  // ---------------------------------------------------------------- numbers

  function DigitValue(c: char): (d: nat)
    requires IsDigit(c)
    ensures d < 10
  {
    (c as int) - ('0' as int)
  }

  function DigitChar(d: nat): (c: char)
    requires d < 10
    ensures IsDigit(c) && DigitValue(c) == d
  {
    ('0' as int + d) as char
  }

  /** The value of a string of decimal digits. */
  function DigitsValue(s: string): nat
    requires AllDigits(s)
    decreases |s|
  {
    if s == [] then 0 else DigitsValue(s[..|s| - 1]) * 10 + DigitValue(s[|s| - 1])
  }

  /** The longest prefix of `s` made of digits. */
  function DigitRun(s: string): (d: string)
    ensures |d| <= |s| && d == s[..|d|] && AllDigits(d)
    ensures |d| < |s| ==> !IsDigit(s[|d|])
    decreases |s|
  {
    if s != [] && IsDigit(s[0]) then [s[0]] + DigitRun(s[1..]) else []
  }

  lemma DigitRunOfDigits(s: string)
    requires AllDigits(s)
    ensures DigitRun(s) == s
  {
  }

  datatype NumberError = NotANumber | OutOfRange

  /** `std::stoi` (base 10): skips leading white space, reads an optional sign
      and the longest run of digits after it, ignores whatever follows; fails
      when there is no digit or when the value does not fit in an `int`. */
  function StoI(s: string): (r: Result<Int32, NumberError>)
    ensures s != [] && AllDigits(s) && DigitsValue(s) <= MaxInt ==> r == Success(DigitsValue(s) as Int32)
    ensures s != [] && AllDigits(s) && DigitsValue(s) > MaxInt ==> r == Failure(OutOfRange)
    ensures AllTrimChars(s) ==> r == Failure(NotANumber)
    ensures s != [] && IsDigit(s[0]) ==> r.Success? || r == Failure(OutOfRange)
    ensures s != [] && IsDigit(s[0]) && r.Success? ==> r.value >= 0
  {
    var t := DropSpaces(s);
    var negative := t != [] && t[0] == '-';
    var u := if t != [] && (t[0] == '-' || t[0] == '+') then t[1..] else t;
    var d := DigitRun(u);
    StoIOfDigits(s, t, d);
    if d == [] then Failure(NotANumber) else StoIValue(d, negative)
  }

  lemma StoIOfDigits(s: string, t: string, d: string)
    requires t == DropSpaces(s)
    requires d == DigitRun(if t != [] && (t[0] == '-' || t[0] == '+') then t[1..] else t)
    ensures s != [] && AllDigits(s) ==> t == s && d == s
    ensures AllTrimChars(s) ==> t == [] && d == []
    ensures s != [] && IsDigit(s[0]) ==> t == s && d != [] && !(t[0] == '-')
  {
    if s != [] && AllDigits(s) {
      assert !IsSpace(s[0]);
      DigitRunOfDigits(s);
    }
    if AllTrimChars(s) {
      SpacesDropped(s);
    }
    if s != [] && IsDigit(s[0]) {
      assert !IsSpace(s[0]);
    }
  }

  lemma SpacesDropped(s: string)
    requires AllTrimChars(s)
    ensures DropSpaces(s) == []
    decreases |s|
  {
    if s != [] {
      assert AllTrimChars(s[1..]);
      SpacesDropped(s[1..]);
    }
  }

  function StoIValue(d: string, negative: bool): (r: Result<Int32, NumberError>)
    requires AllDigits(d)
  {
    var v := if negative then -(DigitsValue(d) as int) else DigitsValue(d) as int;
    if InRange(v) then Success(v as Int32) else Failure(OutOfRange)
  }

  /** The decimal digits of `n`, without leading zeros. */
  function NatToString(n: nat): (s: string)
    ensures s != [] && AllDigits(s) && DigitsValue(s) == n
    ensures s[0] == '0' ==> n == 0
    decreases n
  {
    if n < 10 then [DigitChar(n)]
    else
      var s := NatToString(n / 10) + [DigitChar(n % 10)];
      assert s[..|s| - 1] == NatToString(n / 10);
      s
  }

  /** `std::to_string` of an integer. */
  function IntToString(n: int): (s: string)
    ensures s != [] && NoSpace(s)
  {
    if n < 0 then "-" + NatToString(-n) else NatToString(n)
  }

  /** `std::stoi` reads back what `std::to_string` writes. */
  lemma StoIOfIntToString(n: Int32)
    ensures StoI(IntToString(n as int)) == Success(n)
  {
    var s := IntToString(n as int);
    var digits := NatToString(Abs(n as int));
    assert !IsSpace(s[0]);
    assert DropSpaces(s) == s;
    DigitRunOfDigits(digits);
    if n < 0 {
      assert s[1..] == digits;
      assert !AllDigits(s);
    }
  }
}
