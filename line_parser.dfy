/**
 * The fixed-width scale-file lines ("ITENSMGV.TXT") read by the Toledo file
 * monitor (BACKEND/app.py) and by the offline importer
 * (BACKEND/tools/import_from_txt.py).  Both read a line in one of two ways: a
 * structured pattern with a run of leading digit fields, or a positional
 * fallback for lines of at least 20 characters.  A "KG" (importer: also "UN")
 * word followed by digits overrides the code.  Prices are integer cents.
 */
module LineParser {
  import opened Text
  import opened NameFormat
  import opened Aggregation

  /** One parsed line: product code, display name, price in cents, active flag. */
  datatype Candidate = Candidate(code: string, name: string, cents: int, active: bool)

  function CodeOf(c: Candidate): string { c.code }

  function CentsOf(c: Candidate): real { c.cents as real }

  function RStrip(ln: string): string { DropWhileEnd(ln, IsPySpace) }

  // ---------------------------------------------------------------------------
  // Code after a unit word
  // ---------------------------------------------------------------------------

  predicate IsZeroChar(c: char) { c == '0' }

  /** The digit run that follows the leading whitespace of `rest`. */
  function DigitRun(rest: string): (d: string)
    ensures AllDigits(d)
  {
    var t := DropWhile(rest, IsPySpace);
    t[..PrefixLen(t, IsDigit)]
  }

  /** `\s*0*(\d{3,hi})` after a unit word, followed by the end of the line modulo
      whitespace (`anchored`, the monitor's `\s*$`) or by a non-digit (the importer's
      `(?=\D|$)`).  Leading zeros are dropped while at least three digits remain. */
  function CodeAfter(rest: string, hi: nat, anchored: bool): (r: Option<string>)
    ensures r.Some? ==> AllDigits(r.value) && 3 <= |r.value| <= hi && (|r.value| > 3 ==> r.value[0] != '0')
    ensures r.Some? ==> DigitsValue(r.value) == DigitsValue(DigitRun(rest))
  {
    var t := DropWhile(rest, IsPySpace);
    var b := PrefixLen(t, IsDigit);
    var d := t[..b];
    var lz := PrefixLen(d, IsZeroChar);
    if b < 3 then None
    else
      var z := if lz < b - 3 then lz else b - 3;
      if b - z > hi then None
      else if anchored && DropWhile(t[b..], IsPySpace) != [] then None
      else
        ZerosDropped(d, z);
        Some(d[z..])
  }

  /** Dropping `z` leading zeros from a digit run of at least three, keeping three
      digits, leaves a numeral of the same value that starts with a non-zero digit
      whenever it is longer than three. */
  lemma ZerosDropped(d: string, z: nat)
    requires AllDigits(d) && |d| >= 3
    requires z == (var lz := PrefixLen(d, IsZeroChar); if lz < |d| - 3 then lz else |d| - 3)
    ensures AllDigits(d[z..]) && |d[z..]| >= 3
    ensures |d[z..]| > 3 ==> d[z..][0] != '0'
    ensures DigitsValue(d[z..]) == DigitsValue(d)
  {
    DigitsValueZeroPrefix(d, z);
  }

  /** Leftmost unit word (bounded by `\b`) whose following digits form a code. */
  function MarkerCode(s: string, prevWord: bool, withUn: bool, hi: nat, anchored: bool): (r: Option<string>)
    ensures r.Some? ==> AllDigits(r.value) && 3 <= |r.value| <= hi && (|r.value| > 3 ==> r.value[0] != '0')
    decreases |s|
  {
    if s == [] then None
    else if UnitAt(s, prevWord, withUn) && CodeAfter(s[2..], hi, anchored).Some? then CodeAfter(s[2..], hi, anchored)
    else MarkerCode(s[1..], IsWordChar(s[0]), withUn, hi, anchored)
  }

  /** The monitor's `\bKG\b\s*0*(\d{3,6})\s*$`. */
  function MonitorCode(line: string): Option<string> { MarkerCode(line, false, false, 6, true) }

  /** A KG code wins over the 3-digit field at columns 6..9. */
  function MonitorLineCode(line: string): string
    requires |line| >= 9
  {
    var code := MonitorCode(line);
    if code.Some? then code.value else line[6..9]
  }

  /** The importer's `\b(?:KG|UN)\b\s*0*(\d{3,10})(?=\D|$)`. */
  function ImporterCode(line: string): Option<string> { MarkerCode(line, false, true, 10, false) }

  // ---------------------------------------------------------------------------
  // The monitor's line
  // ---------------------------------------------------------------------------

  /** Characters of the class `[A-Z\s\d]` under IGNORECASE. */
  predicate IsNameClass(c: char) { IsAsciiUpper(c) || IsAsciiLower(c) || IsDigit(c) || IsPySpace(c) }

  /** "kg" in any letter case at position `p`. */
  predicate KgAt(s: string, p: int)
  {
    0 <= p && p + 2 <= |s| && LowerChar(s[p]) == 'k' && LowerChar(s[p + 1]) == 'g'
  }

  /** The greatest position in 1..p where "kg" starts, or 0. */
  function LastKg(s: string, p: int): (q: int)
    ensures q == 0 || (1 <= q <= p && KgAt(s, q))
    ensures forall j :: q < j <= p && j >= 1 ==> !KgAt(s, j)
    decreases p
  {
    if p < 1 then 0 else if KgAt(s, p) then p else LastKg(s, p - 1)
  }

  /** First position where "kg" starts (`name_part.lower().find('kg')`), or -1. */
  function FindKg(s: string): (i: int)
    ensures -1 <= i && (i >= 0 ==> KgAt(s, i))
    ensures forall j :: 0 <= j < (if i < 0 then |s| else i) ==> !KgAt(s, j)
  {
    if |s| < 2 then -1
    else if KgAt(s, 0) then 0
    else
      var k := FindKg(s[1..]);
      assert forall j :: 1 <= j < |s| ==> KgAt(s, j) == KgAt(s[1..], j - 1);
      if k < 0 then -1 else k + 1
  }

  /** Group 5 of `^(\d{6})(\d{3})(\d{6})(\d{3})([A-Z\s\d]+)\s*kg` when the line matches:
      the name-class run after the 18 digits, cut before its last "kg". */
  function MonitorNameField(line: string): (r: Option<string>)
    ensures r.Some? ==> |line| >= 18 && AllDigits(line[..18])
  {
    if |line| < 18 || !AllDigits(line[..18]) then None
    else
      var run := line[18..][..PrefixLen(line[18..], IsNameClass)];
      var p := LastKg(run, |run| - 2);
      if p == 0 then None else Some(run[..p])
  }

  /** The 6-digit price field of a line with 18 leading digits is below 10^6 cents. */
  lemma PriceFieldBound(line: string)
    requires |line| >= 18 && AllDigits(line[..18])
    ensures AllDigits(line[9..15]) && 0 <= DigitsValue(line[9..15]) < 1000000
  {
    assert forall i :: 0 <= i < 6 ==> line[9..15][i] == line[..18][i + 9];
    DigitsValueBound(line[9..15]);
    assert Pow10(6) == 1000000;
  }

  /** One line of the monitored file.  A structured line takes the 3-digit field as
      code and the 6-digit field as price; otherwise lines under 20 characters and
      lines whose price slice is not an integer are skipped.  A KG code wins in both. */
  function ParseMonitorLine(ln: string): (r: Option<Candidate>)
    ensures var line := RStrip(ln);
      && (r.None? <==> MonitorNameField(line).None? && (|line| < 20 || PyInt(line[9..15]).None?))
      && (r.Some? ==> r.value.active && Tidy(r.value.name))
      && (r.Some? && MonitorNameField(line).Some? ==> r.value == MonitorStructuredItem(line, MonitorNameField(line).value))
      && (r.Some? && MonitorNameField(line).None? ==>
            PyInt(line[9..15]) == Some(r.value.cents) && r.value == MonitorFallbackItem(line, r.value.cents))
  {
    var line := RStrip(ln);
    match MonitorNameField(line)
    case Some(field) => Some(MonitorStructuredItem(line, field))
    case None =>
      if |line| < 20 then None
      else match PyInt(line[9..15])
        case None => None
        case Some(cents) => Some(MonitorFallbackItem(line, cents))
  }

  /** The item of a line that matches the monitor's pattern, with group 5 `field`. */
  function MonitorStructuredItem(line: string, field: string): (c: Candidate)
    requires |line| >= 18 && AllDigits(line[..18])
    ensures c.active && Tidy(c.name)
    ensures c.cents == DigitsValue(line[9..15]) && 0 <= c.cents < 1000000
    ensures c.code == if MonitorCode(line).Some? then MonitorCode(line).value else line[6..9]
  {
    PriceFieldBound(line);
    Candidate(MonitorLineCode(line), FormatName(PyStrip(field)), DigitsValue(line[9..15]), true)
  }

  /** The item of any other line of at least 20 characters whose price slice reads as `cents`:
      the name is what precedes the first "kg" after column 18. */
  function MonitorFallbackItem(line: string, cents: int): (c: Candidate)
    requires |line| >= 20
    ensures c.active && Tidy(c.name) && c.cents == cents
    ensures c.code == if MonitorCode(line).Some? then MonitorCode(line).value else line[6..9]
  {
    var part := line[18..];
    var k := FindKg(part);
    var raw := PyStrip(if k >= 0 then part[..k] else part);
    Candidate(MonitorLineCode(line), FormatName(raw), cents, true)
  }

  // ---------------------------------------------------------------------------
  // The importer's line
  // ---------------------------------------------------------------------------

  /** `^(\d{2})(\d{7})(\d{6})(\d{3})(.+)$` on a right-stripped line. */
  predicate ImporterStructured(ln: string)
  {
    |ln| >= 19 && AllDigits(ln[..18]) && '\n' !in ln[18..]
  }

  /** One line of the importer.  A structured line takes the 7-digit field without
      its leading zeros as code; otherwise the rules are the monitor's.  The unit
      words "kg" and "un" are deleted from the name. */
  function ParseImporterLine(lnRaw: string): (r: Option<Candidate>)
    ensures var ln := RStrip(lnRaw);
      && (r.None? <==> !ImporterStructured(ln) && (|ln| < 20 || PyInt(ln[9..15]).None?))
      && (r.Some? ==> r.value.active && Tidy(r.value.name))
      && (r.Some? && ImporterStructured(ln) ==> r.value.cents == DigitsValue(ln[9..15]) && 0 <= r.value.cents < 1000000)
      && (r.Some? && !ImporterStructured(ln) ==> PyInt(ln[9..15]) == Some(r.value.cents))
      && (r.Some? && ImporterStructured(ln) ==> r.value == ImporterStructuredItem(ln))
      && (r.Some? && !ImporterStructured(ln) ==> r.value == ImporterFallbackItem(ln, r.value.cents))
  {
    var ln := RStrip(lnRaw);
    if ImporterStructured(ln) then Some(ImporterStructuredItem(ln))
    else if |ln| < 20 then None
    else match PyInt(ln[9..15])
      case None => None
      case Some(cents) => Some(ImporterFallbackItem(ln, cents))
  }

  /** `str(int(group 2))`: the 7-digit field without its leading zeros. */
  function FieldCode(ln: string): (code: string)
    requires ImporterStructured(ln)
    ensures AllDigits(code) && code != [] && (|code| > 1 ==> code[0] != '0')
    ensures DigitsValue(code) == DigitsValue(ln[2..9])
  {
    assert forall i :: 0 <= i < 7 ==> ln[2..9][i] == ln[..18][i + 2];
    NatToDecimal(DigitsValue(ln[2..9]))
  }

  /** The item of a structured importer line. */
  function ImporterStructuredItem(ln: string): (c: Candidate)
    requires ImporterStructured(ln)
    ensures c.active && Tidy(c.name)
    ensures c.cents == DigitsValue(ln[9..15]) && 0 <= c.cents < 1000000
    ensures c.code == if ImporterCode(ln).Some? then ImporterCode(ln).value else FieldCode(ln)
  {
    var raw := PyStrip(RemoveUnits(PyStrip(ln[18..])));
    PriceFieldBound(ln);
    var code := ImporterCode(ln);
    Candidate(if code.Some? then code.value else FieldCode(ln), FormatName(raw), DigitsValue(ln[9..15]), true)
  }

  /** The item of an unstructured importer line whose price slice reads as `cents`. */
  function ImporterFallbackItem(ln: string, cents: int): (c: Candidate)
    requires |ln| >= 20
    ensures c.active && Tidy(c.name) && c.cents == cents
    ensures c.code == if ImporterCode(ln).Some? then ImporterCode(ln).value else ln[6..9]
  {
    var code := ImporterCode(ln);
    var raw := PyStrip(RemoveUnits(ln[18..]));
    Candidate(if code.Some? then code.value else ln[6..9], FormatName(raw), cents, true)
  }

  // ---------------------------------------------------------------------------
  // Whole files
  // ---------------------------------------------------------------------------

  /** A parsed candidate is active and its name is tidy. */
  predicate Clean(c: Candidate) { c.active && Tidy(c.name) }

  /** A line of the importer's file (`importer`) or of the monitored file. */
  function ParseLine(importer: bool, ln: string): (r: Option<Candidate>)
    ensures r.Some? ==> Clean(r.value)
  {
    if importer then ParseImporterLine(ln) else ParseMonitorLine(ln)
  }

  /** The candidates of the lines that `parse` accepts, in line order. */
  function Parsed(lines: seq<string>, parse: string -> Option<Candidate>): seq<Candidate>
  {
    if lines == [] then []
    else
      var r := parse(lines[|lines| - 1]);
      Parsed(lines[..|lines| - 1], parse) + (if r.Some? then [r.value] else [])
  }

  function ParseAll(lines: seq<string>, importer: bool): seq<Candidate>
  {
    Parsed(lines, ln => ParseLine(importer, ln))
  }

  /** A parser whose every candidate is clean yields only clean candidates. */
  lemma {:induction false} ParsedClean(lines: seq<string>, parse: string -> Option<Candidate>)
    requires forall ln :: parse(ln).Some? ==> Clean(parse(ln).value)
    ensures forall i :: 0 <= i < |Parsed(lines, parse)| ==> Clean(Parsed(lines, parse)[i])
  {
    if lines != [] {
      ParsedClean(lines[..|lines| - 1], parse);
    }
  }

  /** The line loop: every line that parses contributes one candidate. */
  method ParseLines(lines: seq<string>, parse: string -> Option<Candidate>) returns (produtos: seq<Candidate>)
    ensures produtos == Parsed(lines, parse)
  {
    produtos := [];
    var n := 0;
    while n < |lines|
      invariant 0 <= n <= |lines|
      invariant produtos == Parsed(lines[..n], parse)
    {
      var r := parse(lines[n]);
      assert lines[..n + 1][..n] == lines[..n];
      if r.Some? {
        produtos := produtos + [r.value];
      }
      n := n + 1;
    }
    assert lines[..n] == lines;
  }

  /** Parse a file and keep one candidate per code: `parse_items` when `importer`,
      the parse-and-aggregate part of a monitor tick otherwise. */
  method ParseFile(lines: seq<string>, importer: bool) returns (items: seq<Candidate>)
    ensures var parsed := ParseAll(lines, importer);
      && items == Aggregate(parsed, CodeOf, CentsOf)
      && CodesUnique(items, CodeOf)
      && (forall k :: 0 <= k < |parsed| ==> IndexOfCode(items, CodeOf, parsed[k].code) >= 0)
      && AllWin(parsed, items, CodeOf, CentsOf)
    ensures forall i :: 0 <= i < |items| ==> Clean(items[i])
  {
    var produtos := ParseLines(lines, ln => ParseLine(importer, ln));
    ParsedClean(lines, ln => ParseLine(importer, ln));
    items := AggregateByCode(produtos, CodeOf, CentsOf);
    forall i | 0 <= i < |items|
      ensures Clean(items[i])
    {
      assert Survivor(produtos, CodeOf, CentsOf, items[i]);
      var j :| Wins(produtos, CodeOf, CentsOf, j) && produtos[j] == items[i];
    }
  }
}
