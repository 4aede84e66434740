/**
 * The std::string and stream primitives the program leans on: whitespace
 * tokenisation (`istream >> std::string`), line splitting (`std::getline`),
 * the C-locale character classes, decimal printing (`std::to_string`,
 * `operator<<`) and the prefix parses `std::stoi` and `atoi`.
 */
module Text {
  import opened Wrappers

  /** std::isspace in the C locale: space, \t, \n, \v, \f, \r. */
  predicate IsSpace(c: char)
  {
    c == ' ' || 9 <= c as int <= 13
  }

  /** std::isdigit in the C locale. */
  predicate IsDigit(c: char)
  {
    '0' <= c <= '9'
  }

  predicate IsUpper(c: char)
  {
    'A' <= c <= 'Z'
  }

  predicate IsLower(c: char)
  {
    'a' <= c <= 'z'
  }

  /** std::isalnum in the C locale. */
  predicate IsAlnum(c: char)
  {
    IsUpper(c) || IsLower(c) || IsDigit(c)
  }

  predicate AllDigits(s: string)
  {
    forall i :: 0 <= i < |s| ==> IsDigit(s[i])
  }

  /** A token that `>>` can produce: non-empty, no whitespace. */
  predicate IsWord(w: string)
  {
    |w| > 0 && forall i :: 0 <= i < |w| ==> !IsSpace(w[i])
  }

  /** Length of the longest whitespace-free prefix. */
  function WordLength(s: string): (n: nat)
    ensures n <= |s|
    ensures forall i :: 0 <= i < n ==> !IsSpace(s[i])
    ensures n < |s| ==> IsSpace(s[n])
  {
    if s == [] || IsSpace(s[0]) then 0 else 1 + WordLength(s[1..])
  }

  /** The tokens read by repeated `iss >> token` (or an istream_iterator<std::string>). */
  function Words(s: string): (r: seq<string>)
    ensures forall i :: 0 <= i < |r| ==> IsWord(r[i])
    decreases |s|
  {
    if s == [] then []
    else if IsSpace(s[0]) then Words(s[1..])
    else
      var n := WordLength(s);
      [s[..n]] + Words(s[n..])
  }

  /** A word followed by the end of the text or by whitespace is the first token. */
  lemma {:induction false} WordsOfWordThen(w: string, rest: string)
    requires IsWord(w)
    requires rest == [] || IsSpace(rest[0])
    ensures Words(w + rest) == [w] + Words(rest)
  {
    WordLengthOf(w, rest);
    assert (w + rest)[..|w|] == w;
    assert (w + rest)[|w|..] == rest;
  }

  lemma {:induction false} WordLengthOf(w: string, rest: string)
    requires forall i :: 0 <= i < |w| ==> !IsSpace(w[i])
    requires rest == [] || IsSpace(rest[0])
    ensures WordLength(w + rest) == |w|
    decreases |w|
  {
    if w == [] {
    } else {
      assert (w + rest)[1..] == w[1..] + rest;
      WordLengthOf(w[1..], rest);
    }
  }

  /** Leading whitespace is skipped. */
  lemma {:induction false} WordsAfterSpaces(sp: string, rest: string)
    requires forall i :: 0 <= i < |sp| ==> IsSpace(sp[i])
    ensures Words(sp + rest) == Words(rest)
    decreases |sp|
  {
    if sp != [] {
      var s := sp + rest;
      assert s[0] == sp[0] && IsSpace(sp[0]);
      assert s[1..] == sp[1..] + rest;
      assert Words(s) == Words(s[1..]);
      WordsAfterSpaces(sp[1..], rest);
    } else {
      assert sp + rest == rest;
    }
  }

  /** Words joined by single spaces tokenise back into the same words. */
  function JoinSpaced(ws: seq<string>): (r: string)
  {
    if ws == [] then "" else if |ws| == 1 then ws[0] else ws[0] + " " + JoinSpaced(ws[1..])
  }

  lemma {:induction false} WordsOfJoinSpaced(ws: seq<string>)
    requires forall i :: 0 <= i < |ws| ==> IsWord(ws[i])
    ensures Words(JoinSpaced(ws)) == ws
    decreases |ws|
  {
    if |ws| == 0 {
    } else if |ws| == 1 {
      WordsOfWordThen(ws[0], "");
      assert ws[0] + "" == ws[0];
    } else {
      var tail := JoinSpaced(ws[1..]);
      assert ws[0] + " " + tail == ws[0] + (" " + tail);
      WordsOfWordThen(ws[0], " " + tail);
      WordsAfterSpaces(" ", tail);
      WordsOfJoinSpaced(ws[1..]);
    }
  }

  /** Index of the first '\n', or |s| when there is none. */
  function NewlineIndex(s: string): (i: nat)
    ensures i <= |s|
    ensures forall j :: 0 <= j < i ==> s[j] != '\n'
    ensures i < |s| ==> s[i] == '\n'
  {
    if s == [] || s[0] == '\n' then 0 else 1 + NewlineIndex(s[1..])
  }

  /** The lines returned by repeated std::getline: a final segment ends a line even without '\n'. */
  function Lines(s: string): (r: seq<string>)
    ensures forall i :: 0 <= i < |r| ==> '\n' !in r[i]
    decreases |s|
  {
    if s == [] then []
    else
      var i := NewlineIndex(s);
      if i == |s| then [s] else [s[..i]] + Lines(s[i + 1..])
  }

  /** The lines that `out << x << std::endl` adds to a file that ends with a newline. */
  function RecordLines(x: string): (r: seq<string>)
    ensures |r| >= 1
  {
    var r := Lines(x + "\n");
    LinesOfLine(x + "\n");
    r
  }

  lemma {:induction false} LinesOfLine(s: string)
    requires |s| > 0
    ensures |Lines(s)| >= 1
  {
  }

  /** A record without a newline character adds exactly one line. */
  lemma {:induction false} RecordLinesSingle(x: string)
    requires '\n' !in x
    ensures RecordLines(x) == [x]
  {
    var s := x + "\n";
    NewlineIndexOf(x, "\n");
    assert s[..|x|] == x;
    assert s[|x| + 1..] == [];
    assert Lines(s) == [x] + Lines([]);
  }

  lemma {:induction false} NewlineIndexOf(x: string, rest: string)
    requires '\n' !in x
    requires rest == [] || rest[0] == '\n'
    ensures NewlineIndex(x + rest) == |x|
    decreases |x|
  {
    if x != [] {
      assert (x + rest)[1..] == x[1..] + rest;
      assert x[0] in x;
      assert forall c :: c in x[1..] ==> c in x;
      NewlineIndexOf(x[1..], rest);
    }
  }

  /** Lines of text that ends with a newline: splitting is compatible with concatenation. */
  lemma {:induction false} LinesOfLineThen(x: string, rest: string)
    requires '\n' !in x
    ensures Lines(x + "\n" + rest) == [x] + Lines(rest)
  {
    var s := x + "\n" + rest;
    assert s == x + ("\n" + rest);
    NewlineIndexOf(x, "\n" + rest);
    assert s[..|x|] == x;
    assert s[|x| + 1..] == rest;
  }

  /** A text every line of which was completed by std::endl: appending to it starts a new line. */
  predicate EndsLine(s: string)
  {
    s == [] || s[|s| - 1] == '\n'
  }

  /** The content of a file written line by line, each followed by std::endl. */
  function Unlines(ls: seq<string>): (r: string)
    ensures EndsLine(r)
  {
    if ls == [] then "" else ls[0] + "\n" + Unlines(ls[1..])
  }

  lemma {:induction false} NewlineIndexPrefix(a: string, b: string)
    requires NewlineIndex(a) < |a|
    ensures NewlineIndex(a + b) == NewlineIndex(a)
    decreases |a|
  {
    if a[0] != '\n' {
      assert (a + b)[1..] == a[1..] + b;
      NewlineIndexPrefix(a[1..], b);
    }
  }

  /** getline on a file that ends with a newline, followed by more text, reads the two parts' lines in turn. */
  lemma {:induction false} LinesAppend(a: string, b: string)
    requires EndsLine(a)
    ensures Lines(a + b) == Lines(a) + Lines(b)
    decreases |a|
  {
    if a == [] {
      assert a + b == b;
    } else {
      var i := NewlineIndex(a);
      assert i < |a|;
      NewlineIndexPrefix(a, b);
      var s := a + b;
      assert s[..i] == a[..i];
      assert s[i + 1..] == a[i + 1..] + b;
      assert EndsLine(a[i + 1..]);
      LinesAppend(a[i + 1..], b);
    }
  }

  /** Lines written one by one with std::endl are read back unchanged. */
  lemma {:induction false} LinesOfUnlines(ls: seq<string>)
    requires forall k :: 0 <= k < |ls| ==> '\n' !in ls[k]
    ensures Lines(Unlines(ls)) == ls
    decreases |ls|
  {
    if ls != [] {
      LinesOfLineThen(ls[0], Unlines(ls[1..]));
      LinesOfUnlines(ls[1..]);
    }
  }

  /** Appending `x << std::endl` to a file that ends with a newline adds exactly the line x. */
  lemma {:induction false} LinesOfAppendedLine(c: string, x: string)
    requires EndsLine(c)
    requires '\n' !in x
    ensures Lines(c + x + "\n") == Lines(c) + [x]
  {
    assert c + x + "\n" == c + (x + "\n");
    LinesAppend(c, x + "\n");
    RecordLinesSingle(x);
  }

  lemma {:induction false} WordLengthPrefix(a: string, b: string)
    requires WordLength(a) < |a|
    ensures WordLength(a + b) == WordLength(a)
    decreases |a|
  {
    if !IsSpace(a[0]) {
      assert (a + b)[1..] == a[1..] + b;
      WordLengthPrefix(a[1..], b);
    }
  }

  /** A text that ends in whitespace, followed by more text, tokenises into the two parts' words in turn. */
  lemma {:induction false} WordsAppend(a: string, b: string)
    requires a == [] || IsSpace(a[|a| - 1])
    ensures Words(a + b) == Words(a) + Words(b)
    decreases |a|
  {
    var s := a + b;
    if a == [] {
      assert s == b;
    } else if IsSpace(a[0]) {
      assert s[1..] == a[1..] + b;
      WordsAppend(a[1..], b);
    } else {
      var n := WordLength(a);
      assert n < |a|;
      WordLengthPrefix(a, b);
      assert s[..n] == a[..n];
      assert s[n..] == a[n..] + b;
      WordsAppend(a[n..], b);
    }
  }

  // ---------------------------------------------------------------- decimal numbers

  function DigitChar(d: nat): (c: char)
    requires d < 10
    ensures IsDigit(c) && c as int - '0' as int == d
  {
    ('0' as int + d) as char
  }

  /** std::to_string of a non-negative value. */
  function NatToString(n: nat): (r: string)
    ensures |r| > 0 && AllDigits(r)
    ensures n < 10 <==> |r| == 1
  {
    if n < 10 then [DigitChar(n)] else NatToString(n / 10) + [DigitChar(n % 10)]
  }

  /** std::to_string of any int: a '-' before the digits of the magnitude. */
  function IntToString(n: int): (r: string)
    ensures |r| > 0 && (r[0] == '-' <==> n < 0)
  {
    if n < 0 then "-" + NatToString(-n) else NatToString(n)
  }

  /** The value of a run of decimal digits. */
  function DigitsValue(s: string): (v: nat)
    requires AllDigits(s)
    ensures |s| > 0 ==> v < Pow10(|s|)
  {
    if s == [] then 0
    else
      var init := s[..|s| - 1];
      assert AllDigits(init);
      DigitsValue(init) * 10 + (s[|s| - 1] as int - '0' as int)
  }

  function Pow10(k: nat): (p: nat)
    ensures p >= 1
  {
    if k == 0 then 1 else 10 * Pow10(k - 1)
  }

  /** Reading back the digits printed by NatToString gives the number. */
  lemma {:induction false} DigitsValueOfNatToString(n: nat)
    ensures DigitsValue(NatToString(n)) == n
  {
    var s := NatToString(n);
    if n >= 10 {
      assert s[..|s| - 1] == NatToString(n / 10);
      DigitsValueOfNatToString(n / 10);
    }
  }

  /** Length of the longest digit prefix. */
  function DigitRun(s: string): (n: nat)
    ensures n <= |s| && AllDigits(s[..n])
    ensures n < |s| ==> !IsDigit(s[n])
  {
    if s == [] || !IsDigit(s[0]) then 0
    else
      var k := DigitRun(s[1..]);
      assert s[..1 + k] == [s[0]] + s[1..][..k];
      1 + k
  }

  /** Number of leading whitespace characters. */
  function SpaceRun(s: string): (n: nat)
    ensures n <= |s|
    ensures forall i :: 0 <= i < n ==> IsSpace(s[i])
    ensures n < |s| ==> !IsSpace(s[n])
  {
    if s == [] || !IsSpace(s[0]) then 0 else 1 + SpaceRun(s[1..])
  }

  /**
   * The number at the start of s as strtol reads it: leading whitespace, an
   * optional sign, then the longest run of digits. None when there is no digit.
   */
  function LeadingInteger(s: string): (r: Option<int>)
    ensures r.Some? ==> exists k :: 0 <= k < |s| && IsDigit(s[k])
  {
    var t := s[SpaceRun(s)..];
    var signed := |t| > 0 && (t[0] == '-' || t[0] == '+');
    var u := if signed then t[1..] else t;
    var n := DigitRun(u);
    if n == 0 then None
    else
      assert IsDigit(u[0]);
      assert u[0] == s[|s| - |u|];
      var v: int := DigitsValue(u[..n]);
      Some(if signed && t[0] == '-' then -v else v)
  }

  const INT_MIN: int := -0x8000_0000
  const INT_MAX: int := 0x7FFF_FFFF

  /** std::stoi: the leading integer, or an exception (None) when there is none or it does not fit an int. */
  function Stoi(s: string): (r: Option<int>)
    ensures r.Some? ==> INT_MIN <= r.value <= INT_MAX
  {
    match LeadingInteger(s)
    case None => None
    case Some(v) => if INT_MIN <= v <= INT_MAX then Some(v) else None
  }

  /** atoi: the leading integer, or 0. Overflow, undefined in C, is not modelled. */
  function Atoi(s: string): (r: int)
    ensures LeadingInteger(s).None? ==> r == 0
  {
    match LeadingInteger(s)
    case None => 0
    case Some(v) => v
  }

  /** A decimal printed by std::to_string is read back by the prefix parse. */
  lemma {:induction false} LeadingIntegerOfNatToString(n: nat, rest: string)
    requires rest == [] || !IsDigit(rest[0])
    ensures LeadingInteger(NatToString(n) + rest) == Some(n)
  {
    var d := NatToString(n);
    var s := d + rest;
    assert SpaceRun(s) == 0 by { assert !IsSpace(s[0]); }
    assert s[0..] == s;
    DigitRunOf(d, rest);
    assert s[..|d|] == d;
    DigitsValueOfNatToString(n);
  }

  lemma {:induction false} DigitRunOf(d: string, rest: string)
    requires AllDigits(d)
    requires rest == [] || !IsDigit(rest[0])
    ensures DigitRun(d + rest) == |d|
    decreases |d|
  {
    if d != [] {
      assert (d + rest)[1..] == d[1..] + rest;
      DigitRunOf(d[1..], rest);
    }
  }
}
