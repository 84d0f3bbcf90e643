/**
 * Character classes and string helpers shared by the back end (Python) and
 * the front end (TypeScript) models.  Case mapping is written out for ASCII
 * and the Latin-1 Supplement, which is what the price files (decoded as
 * Latin-1) and the Portuguese product names use.
 */
module Text {

  predicate IsDigit(c: char) { '0' <= c <= '9' }

  predicate AllDigits(s: string) { forall i :: 0 <= i < |s| ==> IsDigit(s[i]) }

  predicate IsAsciiUpper(c: char) { 'A' <= c <= 'Z' }

  predicate IsAsciiLower(c: char) { 'a' <= c <= 'z' }

  predicate IsAsciiAlnum(c: char) { IsDigit(c) || IsAsciiUpper(c) || IsAsciiLower(c) }

  /** Whitespace as Python's `str.isspace`, `str.strip` and the regex class `\s` see it. */
  predicate IsPySpace(c: char) {
    c == ' ' || '\t' <= c <= '\r' || '\U{1C}' <= c <= '\U{1F}' || c == '\U{85}' || c == '\U{A0}'
    || c == '\U{1680}' || '\U{2000}' <= c <= '\U{200A}' || c == '\U{2028}' || c == '\U{2029}'
    || c == '\U{202F}' || c == '\U{205F}' || c == '\U{3000}'
  }

  /** Whitespace as JavaScript's `String.prototype.trim` sees it. */
  predicate IsJsSpace(c: char) {
    c == ' ' || '\t' <= c <= '\r' || c == '\U{A0}' || c == '\U{1680}' || '\U{2000}' <= c <= '\U{200A}'
    || c == '\U{2028}' || c == '\U{2029}' || c == '\U{202F}' || c == '\U{205F}' || c == '\U{3000}'
    || c == '\U{FEFF}'
  }

  /** Letters of the Latin-1 Supplement (the regex word class and case mapping know them). */
  predicate IsLatin1Letter(c: char) {
    c == '\U{AA}' || c == '\U{B5}' || c == '\U{BA}'
    || ('\U{C0}' <= c <= '\U{FF}' && c != '\U{D7}' && c != '\U{F7}')
  }

  /** Python's `\w` on the characters a Latin-1 decoded line can hold, plus the two
      capitals that title-casing such a line can produce. */
  predicate IsWordChar(c: char) {
    IsAsciiAlnum(c) || c == '_' || IsLatin1Letter(c) || c == '\U{B2}' || c == '\U{B3}' || c == '\U{B9}'
    || '\U{BC}' <= c <= '\U{BE}' || c == '\U{178}' || c == '\U{39C}'
  }

  /** Letters that have a case (Python's "cased" characters) within Latin-1. */
  predicate IsCased(c: char) { IsAsciiUpper(c) || IsAsciiLower(c) || IsLatin1Letter(c) }

  /** Lower-case mapping of one character (Python `str.lower`, JavaScript `toLowerCase`). */
  function LowerChar(c: char): (r: char)
    ensures IsPySpace(r) <==> IsPySpace(c)
    ensures IsDigit(r) <==> IsDigit(c)
  {
    if IsAsciiUpper(c) then (c as int + 32) as char
    else if '\U{C0}' <= c <= '\U{DE}' && c != '\U{D7}' then (c as int + 32) as char
    else c
  }

  /** Upper-case mapping of one character; the sharp s becomes two letters. */
  function UpperChar(c: char): (r: string)
    ensures 1 <= |r| <= 2
    ensures forall i :: 0 <= i < |r| ==> (IsPySpace(r[i]) <==> IsPySpace(c))
  {
    if IsAsciiLower(c) then [(c as int - 32) as char]
    else if c == '\U{DF}' then "SS"
    else if '\U{E0}' <= c <= '\U{FE}' && c != '\U{F7}' then [(c as int - 32) as char]
    else if c == '\U{FF}' then "\U{178}"
    else if c == '\U{B5}' then "\U{39C}"
    else [c]
  }

  /** Title-case mapping of one character (Python `str.title` on a word start). */
  function TitleChar(c: char): (r: string)
    ensures 1 <= |r| <= 2
    ensures forall i :: 0 <= i < |r| ==> (IsPySpace(r[i]) <==> IsPySpace(c))
  {
    if c == '\U{DF}' then "Ss" else UpperChar(c)
  }

  function Lower(s: string): (r: string)
    ensures |r| == |s|
    ensures forall i :: 0 <= i < |s| ==> r[i] == LowerChar(s[i])
  {
    if s == [] then [] else [LowerChar(s[0])] + Lower(s[1..])
  }

  function Upper(s: string): string
  {
    if s == [] then [] else UpperChar(s[0]) + Upper(s[1..])
  }

  lemma {:induction false} LowerIdempotent(s: string)
    ensures Lower(Lower(s)) == Lower(s)
  {
    if s != [] {
      LowerIdempotent(s[1..]);
      assert Lower(s)[1..] == Lower(s[1..]);
    }
  }

  /** Removes the leading characters that satisfy `p`. */
  function DropWhile(s: string, p: char -> bool): (r: string)
    ensures |r| <= |s| && r == s[|s| - |r|..]
    ensures r == [] || !p(r[0])
    ensures forall i :: 0 <= i < |s| - |r| ==> p(s[i])
  {
    if s != [] && p(s[0]) then DropWhile(s[1..], p) else s
  }

  /** Length of the longest prefix of `s` whose characters satisfy `p`. */
  function PrefixLen(s: string, p: char -> bool): (n: nat)
    ensures n <= |s|
    ensures forall i :: 0 <= i < n ==> p(s[i])
    ensures n == |s| || !p(s[n])
  {
    if s != [] && p(s[0]) then 1 + PrefixLen(s[1..], p) else 0
  }

  /** Removes the trailing characters that satisfy `p`. */
  function DropWhileEnd(s: string, p: char -> bool): (r: string)
    ensures |r| <= |s| && r == s[..|r|]
    ensures r == [] || !p(r[|r| - 1])
    ensures forall i :: |r| <= i < |s| ==> p(s[i])
  {
    if s != [] && p(s[|s| - 1]) then DropWhileEnd(s[..|s| - 1], p) else s
  }

  /** Removes leading and trailing characters that satisfy `p` (Python `strip`, JavaScript `trim`). */
  function Trim(s: string, p: char -> bool): (r: string)
    ensures r == [] || (!p(r[0]) && !p(r[|r| - 1]))
    ensures (forall i :: 0 <= i < |s| ==> p(s[i])) <==> r == []
  {
    DropWhileEnd(DropWhile(s, p), p)
  }

  function PyStrip(s: string): string { Trim(s, IsPySpace) }

  function JsTrim(s: string): string { Trim(s, IsJsSpace) }

  /** Python `re.sub(r'\s+', ' ', s)`: every maximal whitespace run becomes one space. */
  function CollapseSpaces(s: string): (r: string)
    ensures OnlySpaces(r) && NoDoubleSpace(r)
    ensures r == [] <==> s == []
    ensures r != [] ==> (r[0] == ' ' <==> IsPySpace(s[0]))
    ensures r != [] ==> (r[|r| - 1] == ' ' <==> IsPySpace(s[|s| - 1]))
    decreases |s|
  {
    if s == [] then []
    else if IsPySpace(s[0]) then
      var rest := DropWhile(s, IsPySpace);
      var tail := CollapseSpaces(rest);
      assert rest != [] ==> rest[|rest| - 1] == s[|s| - 1];
      ConsSpacing(' ', tail);
      [' '] + tail
    else
      var tail := CollapseSpaces(s[1..]);
      ConsSpacing(s[0], tail);
      [s[0]] + tail
  }

  /** Prepending a character keeps single spacing when it does not start a double space. */
  lemma ConsSpacing(c: char, tail: string)
    requires OnlySpaces(tail) && NoDoubleSpace(tail)
    requires IsPySpace(c) ==> c == ' ' && (tail == [] || !IsPySpace(tail[0]))
    ensures OnlySpaces([c] + tail) && NoDoubleSpace([c] + tail)
  {
    var r := [c] + tail;
    assert forall i :: 1 <= i < |r| ==> r[i] == tail[i - 1];
  }

  /** Collapsing keeps every non-whitespace character it was given, and adds only spaces. */
  lemma {:induction false} CollapseKeeps(s: string, p: char -> bool)
    requires forall i :: 0 <= i < |s| ==> p(s[i]) || IsPySpace(s[i])
    ensures forall i :: 0 <= i < |CollapseSpaces(s)| ==> CollapseSpaces(s)[i] == ' ' || p(CollapseSpaces(s)[i])
    decreases |s|
  {
    if s != [] {
      if IsPySpace(s[0]) {
        var rest := DropWhile(s, IsPySpace);
        CollapseKeeps(rest, p);
      } else {
        CollapseKeeps(s[1..], p);
      }
    }
  }

  /** Every whitespace character is a plain space. */
  predicate OnlySpaces(s: string) { forall i :: 0 <= i < |s| ==> IsPySpace(s[i]) ==> s[i] == ' ' }

  /** No two whitespace characters are adjacent. */
  predicate NoDoubleSpace(s: string) { forall i :: 0 <= i < |s| - 1 ==> !(IsPySpace(s[i]) && IsPySpace(s[i + 1])) }

  /** Words separated by single spaces, nothing at either end. */
  predicate Tidy(s: string)
  {
    OnlySpaces(s) && NoDoubleSpace(s) && (s == [] || (!IsPySpace(s[0]) && !IsPySpace(s[|s| - 1])))
  }

  /** `r` has the whitespace layout of `s`: same emptiness, same kind of character at
      both ends, and no new whitespace characters or runs. */
  predicate SameSpacing(s: string, r: string)
  {
    && (r == [] <==> s == [])
    && (s != [] ==> (IsPySpace(r[0]) <==> IsPySpace(s[0])) && (IsPySpace(r[|r| - 1]) <==> IsPySpace(s[|s| - 1])))
    && (OnlySpaces(s) ==> OnlySpaces(r))
    && (NoDoubleSpace(s) ==> NoDoubleSpace(r))
  }

  /** `s` starts with `t`. */
  predicate StartsWith(s: string, t: string) { |t| <= |s| && s[..|t|] == t }

  /** A string whose whitespace is single spaces with nothing at either end is its own collapse. */
  lemma {:induction false} CollapseTidyIdentity(s: string)
    requires OnlySpaces(s) && NoDoubleSpace(s)
    ensures CollapseSpaces(s) == s
    decreases |s|
  {
    if s != [] {
      if IsPySpace(s[0]) {
        assert |s| == 1 || !IsPySpace(s[1]);
        assert DropWhile(s, IsPySpace) == s[1..];
      }
      CollapseTidyIdentity(s[1..]);
    }
  }

  /** A slice of a string with single spaces has single spaces. */
  lemma SliceSpacing(s: string, i: nat, j: nat)
    requires i <= j <= |s| && OnlySpaces(s) && NoDoubleSpace(s)
    ensures OnlySpaces(s[i..j]) && NoDoubleSpace(s[i..j])
  {
    var t := s[i..j];
    assert forall k :: 0 <= k < |t| ==> t[k] == s[i + k];
  }

  /** Trimming keeps only characters it was given. */
  lemma TrimKeeps(s: string, q: char -> bool, p: char -> bool)
    requires forall i :: 0 <= i < |s| ==> p(s[i])
    ensures forall i :: 0 <= i < |Trim(s, q)| ==> p(Trim(s, q)[i])
  {
    var d := DropWhile(s, q);
    forall i | 0 <= i < |d|
      ensures p(d[i])
    {
      assert d[i] == s[|s| - |d| + i];
    }
    var r := DropWhileEnd(d, q);
    forall i | 0 <= i < |r|
      ensures p(r[i])
    {
      assert r[i] == d[i];
    }
  }

  /** Stripping a string with single spaces leaves a tidy one. */
  lemma StripTidy(s: string)
    requires OnlySpaces(s) && NoDoubleSpace(s)
    ensures Tidy(PyStrip(s))
  {
    var d := DropWhile(s, IsPySpace);
    SliceSpacing(s, |s| - |d|, |s|);
    var r := DropWhileEnd(d, IsPySpace);
    SliceSpacing(d, 0, |r|);
    assert r == PyStrip(s);
  }

  lemma LowerCharIdempotent(c: char)
    ensures LowerChar(LowerChar(c)) == LowerChar(c)
  {
  }

  /** `t` occurs in `s` as a contiguous substring (`s.includes(t)`, Python `t in s`). */
  predicate Contains(s: string, t: string)
    decreases |s|
  {
    StartsWith(s, t) || (s != [] && Contains(s[1..], t))
  }

  lemma ContainsSelf(s: string)
    ensures Contains(s, s)
  {
    assert StartsWith(s, s);
  }

  /** Keeps the ASCII digits of `s` (`value.replace(/\D/g, '')`). */
  function DigitsOf(s: string): (r: string)
    ensures AllDigits(r) && |r| <= |s|
  {
    if s == [] then [] else (if IsDigit(s[0]) then [s[0]] else []) + DigitsOf(s[1..])
  }

  lemma {:induction false} DigitsOfAppend(a: string, b: string)
    ensures DigitsOf(a + b) == DigitsOf(a) + DigitsOf(b)
  {
    if a != [] {
      assert (a + b)[1..] == a[1..] + b;
      DigitsOfAppend(a[1..], b);
    } else {
      assert a + b == b;
    }
  }

  lemma {:induction false} DigitsOfAllDigits(s: string)
    requires AllDigits(s)
    ensures DigitsOf(s) == s
  {
    if s != [] { DigitsOfAllDigits(s[1..]); }
  }

  function DigitValue(c: char): nat
    requires IsDigit(c)
  {
    c as int - '0' as int
  }

  function DigitChar(d: nat): (c: char)
    requires d < 10
    ensures IsDigit(c) && DigitValue(c) == d
  {
    ('0' as int + d) as char
  }

  /** Value of a string of decimal digits (leading zeros allowed). */
  function DigitsValue(s: string): nat
    requires AllDigits(s)
  {
    if s == [] then 0 else 10 * DigitsValue(s[..|s| - 1]) + DigitValue(s[|s| - 1])
  }

  /** Decimal representation of `n`, without leading zeros (`String(n)`, Python `str(n)`). */
  function NatToDecimal(n: nat): (r: string)
    ensures AllDigits(r) && r != []
    ensures |r| > 1 ==> r[0] != '0'
    ensures DigitsValue(r) == n
    decreases n
  {
    if n < 10 then [DigitChar(n)]
    else
      var r := NatToDecimal(n / 10) + [DigitChar(n % 10)];
      assert r[..|r| - 1] == NatToDecimal(n / 10);
      r
  }

  /** Leading zeros do not change a digit string's value. */
  lemma {:induction false} DigitsValueLeadingZero(s: string)
    requires AllDigits(s)
    ensures AllDigits("0" + s) && DigitsValue("0" + s) == DigitsValue(s)
  {
    if s != [] {
      assert ("0" + s)[..|"0" + s| - 1] == "0" + s[..|s| - 1];
      DigitsValueLeadingZero(s[..|s| - 1]);
    }
  }

  /** Leading zeros, however many, do not change a digit string's value. */
  lemma {:induction false} DigitsValueZeroPrefix(s: string, z: nat)
    requires AllDigits(s) && z <= |s|
    requires forall i :: 0 <= i < z ==> s[i] == '0'
    ensures DigitsValue(s[z..]) == DigitsValue(s)
    decreases z
  {
    if z > 0 {
      assert s[z - 1..] == "0" + s[z..];
      DigitsValueLeadingZero(s[z..]);
      DigitsValueZeroPrefix(s, z - 1);
    }
  }

  function Pow10(n: nat): (r: nat)
    ensures r >= 1
  {
    if n == 0 then 1 else 10 * Pow10(n - 1)
  }

  /** A string of `n` digits denotes a number below 10^n. */
  lemma {:induction false} DigitsValueBound(s: string)
    requires AllDigits(s)
    ensures DigitsValue(s) < Pow10(|s|)
  {
    if s != [] { DigitsValueBound(s[..|s| - 1]); }
  }

  /** `s.padStart(width, fill)` for a one-character fill. */
  function PadStart(s: string, width: int, fill: char): (r: string)
    ensures |r| == if |s| >= width then |s| else width
    ensures r[|r| - |s|..] == s
    ensures forall i :: 0 <= i < |r| - |s| ==> r[i] == fill
  {
    if |s| >= width then s else seq(width - |s|, _ => fill) + s
  }

  /** Padding digits with zeros keeps their value. */
  lemma PadZerosValue(s: string, width: int)
    requires AllDigits(s)
    ensures AllDigits(PadStart(s, width, '0'))
    ensures DigitsValue(PadStart(s, width, '0')) == DigitsValue(s)
  {
    var r := PadStart(s, width, '0');
    var z := |r| - |s|;
    assert forall i :: z <= i < |r| ==> r[i] == s[i - z];
    DigitsValueZeroPrefix(r, z);
  }

  /** Python's `int(s)` on a string: surrounding whitespace, an optional sign, and
      digits that may be grouped by single underscores. */
  function PyInt(s: string): (r: Option<int>)
  {
    var t := PyStrip(s);
    var neg := t != [] && t[0] == '-';
    var body := if t != [] && (t[0] == '-' || t[0] == '+') then t[1..] else t;
    if WellGroupedDigits(body) then
      var v: int := DigitsValue(DigitsOf(body));
      Some(if neg then -v else v)
    else None
  }

  /** Digits with optional single underscores between them (Python integer literal body). */
  predicate WellGroupedDigits(s: string)
  {
    && s != []
    && IsDigit(s[0]) && IsDigit(s[|s| - 1])
    && (forall i :: 0 <= i < |s| ==> IsDigit(s[i]) || s[i] == '_')
    && (forall i :: 0 <= i < |s| - 1 ==> !(s[i] == '_' && s[i + 1] == '_'))
  }

  /** Trimming leaves a string alone when neither end satisfies `p`. */
  lemma TrimUnchanged(s: string, p: char -> bool)
    requires s == [] || (!p(s[0]) && !p(s[|s| - 1]))
    ensures Trim(s, p) == s
  {
    assert DropWhile(s, p) == s;
    assert DropWhileEnd(s, p) == s;
  }

  lemma PyIntOfDigits(s: string)
    requires AllDigits(s) && s != []
    ensures PyInt(s) == Some(DigitsValue(s))
  {
    TrimUnchanged(s, IsPySpace);
    var t := PyStrip(s);
    assert t == s;
    assert IsDigit(t[0]);
    assert !(t[0] == '-' || t[0] == '+');
    assert WellGroupedDigits(s);
    DigitsOfAllDigits(s);
  }

  datatype Option<+T> = None | Some(value: T)

  /** A property of a JavaScript object passed in: absent, present but `undefined`,
      or given. */
  datatype Field<T> = Missing | Undefined | Given(value: T)
}
