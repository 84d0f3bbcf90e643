/**
 * Product-name clean-up shared by the Toledo file monitor and the offline text
 * importer: strip, drop trailing groups of four or more digits, collapse
 * whitespace, title-case, then restore the accents of a fixed word table.  The
 * importer also deletes the unit words "kg" and "un" beforehand.
 */
module NameFormat {
  import opened Text

  // ---------------------------------------------------------------------------
  // Trailing digit groups: re.sub(r'(?:\s*[0-9]{4,})+$', '', s)
  // ---------------------------------------------------------------------------

  /** Reads `t` as `(?:\s*[0-9]{4,})+` up to its end; `run` is the length of the digit
      run being read (counted up to 4), or -1 between runs. */
  predicate GroupsFrom(t: string, run: int)
    decreases |t|
  {
    if t == [] then run >= 4
    else if IsPySpace(t[0]) then (run == -1 || run >= 4) && GroupsFrom(t[1..], -1)
    else IsDigit(t[0]) && GroupsFrom(t[1..], if run < 1 then 1 else if run < 4 then run + 1 else 4)
  }

  /** `t` is one or more groups "whitespace, then at least four digits", and nothing else. */
  predicate DigitGroups(t: string)
  {
    GroupsFrom(t, -1)
  }

  /** Leftmost position from `i` on where the digit-group tail starts, or |s|. */
  function TailStart(s: string, i: nat): (j: nat)
    requires i <= |s|
    ensures i <= j <= |s|
    ensures j < |s| ==> DigitGroups(s[j..])
    ensures forall k :: i <= k < j ==> !DigitGroups(s[k..])
    decreases |s| - i
  {
    if i == |s| then |s| else if DigitGroups(s[i..]) then i else TailStart(s, i + 1)
  }

  /** The string without its trailing digit groups (the regex's one leftmost match, if any). */
  function StripDigitTail(s: string): (r: string)
    ensures |r| <= |s| && r == s[..|r|]
    ensures |r| < |s| ==> DigitGroups(s[|r|..])
  {
    s[..TailStart(s, 0)]
  }

  /** Inside a run of four digits every continuation accepted between runs is accepted too. */
  lemma {:induction false} GroupsFromLongRun(t: string, run: int)
    requires GroupsFrom(t, run)
    ensures GroupsFrom(t, 4)
    decreases |t|
  {
    if t != [] {
      if IsPySpace(t[0]) {
      } else {
        GroupsFromLongRun(t[1..], if run < 1 then 1 else if run < 4 then run + 1 else 4);
      }
    }
  }

  /** Digit groups followed by digit groups are digit groups. */
  lemma {:induction false} GroupsFromAppend(x: string, y: string, run: int)
    requires GroupsFrom(x, run) && DigitGroups(y)
    ensures GroupsFrom(x + y, run)
    decreases |x|
  {
    if x == [] {
      assert x + y == y;
      GroupsFromLongRun(y, -1);
    } else {
      assert (x + y)[1..] == x[1..] + y;
      GroupsFromAppend(x[1..], y, if IsPySpace(x[0]) then -1 else if run < 1 then 1 else if run < 4 then run + 1 else 4);
    }
  }

  lemma DigitGroupsAppend(x: string, y: string)
    requires DigitGroups(x) && DigitGroups(y)
    ensures DigitGroups(x + y)
  {
    GroupsFromAppend(x, y, -1);
  }

  /** A whitespace character in front of digit groups still forms digit groups. */
  lemma DigitGroupsSpace(c: char, t: string)
    requires DigitGroups(t)
    ensures IsPySpace(c) ==> DigitGroups([c] + t)
  {
    assert ([c] + t)[1..] == t;
  }

  /** A digit-group piece cut off before a digit-group tail extends to the end. */
  lemma TailPieceLifts(s: string, j: nat, k: nat)
    requires k <= j <= |s|
    requires j == |s| || DigitGroups(s[j..])
    ensures DigitGroups(s[..j][k..]) ==> DigitGroups(s[k..])
  {
    if DigitGroups(s[..j][k..]) {
      if j < |s| {
        DigitGroupsAppend(s[..j][k..], s[j..]);
        assert s[..j][k..] + s[j..] == s[k..];
      } else {
        assert s[..j][k..] == s[k..];
      }
    }
  }

  /** Nothing is left to strip after stripping once. */
  lemma StripDigitTailIdempotent(s: string)
    ensures StripDigitTail(StripDigitTail(s)) == StripDigitTail(s)
  {
    var j := TailStart(s, 0);
    var t := s[..j];
    forall k | 0 <= k < j
      ensures !DigitGroups(t[k..])
    {
      TailPieceLifts(s, j, k);
    }
    assert TailStart(t, 0) == |t|;
  }

  /** Stripping the tail of a string with no whitespace at its ends leaves no whitespace at its ends. */
  lemma StripDigitTailEnds(s: string)
    requires s == [] || (!IsPySpace(s[0]) && !IsPySpace(s[|s| - 1]))
    ensures var r := StripDigitTail(s); r == [] || (!IsPySpace(r[0]) && !IsPySpace(r[|r| - 1]))
  {
    var j := TailStart(s, 0);
    if 0 < j < |s| {
      assert [s[j - 1]] + s[j..] == s[j - 1..];
      DigitGroupsSpace(s[j - 1], s[j..]);
    }
  }

  // ---------------------------------------------------------------------------
  // Title case: str.title()
  // ---------------------------------------------------------------------------

  /** Python's title-casing: a character following a cased character is lower-cased,
      any other is title-cased. */
  function TitleFrom(s: string, prevCased: bool): string
    decreases |s|
  {
    if s == [] then []
    else (if prevCased then [LowerChar(s[0])] else TitleChar(s[0])) + TitleFrom(s[1..], IsCased(s[0]))
  }

  function Title(s: string): string
  {
    TitleFrom(s, false)
  }

  /** Title-casing changes letters only: the whitespace layout is kept. */
  lemma {:induction false} TitleSpacing(s: string, prevCased: bool)
    ensures SameSpacing(s, TitleFrom(s, prevCased))
    decreases |s|
  {
    if s != [] {
      var head := if prevCased then [LowerChar(s[0])] else TitleChar(s[0]);
      TitleSpacing(s[1..], IsCased(s[0]));
      assert [s[0]] + s[1..] == s;
      SpacingConcat(s[0], s[1..], head, TitleFrom(s[1..], IsCased(s[0])));
    }
  }

  /** A character whose image is `head`, followed by a string whose image is `tail`. */
  lemma SpacingConcat(c: char, rest: string, head: string, tail: string)
    requires head != []
    requires forall i :: 0 <= i < |head| ==> (IsPySpace(head[i]) <==> IsPySpace(c))
    requires IsPySpace(c) ==> head == [c]
    requires SameSpacing(rest, tail)
    ensures SameSpacing([c] + rest, head + tail)
  {
    var s := [c] + rest;
    var r := head + tail;
    assert s[1..] == rest;
    if OnlySpaces(s) {
      assert forall i :: 0 <= i < |rest| ==> rest[i] == s[i + 1];
      assert OnlySpaces(rest);
      forall i | 0 <= i < |r| && IsPySpace(r[i])
        ensures r[i] == ' '
      {
        if i >= |head| { assert r[i] == tail[i - |head|]; }
      }
    }
    if NoDoubleSpace(s) {
      assert forall i :: 0 <= i < |rest| ==> rest[i] == s[i + 1];
      assert NoDoubleSpace(rest);
      forall i | 0 <= i < |r| - 1
        ensures !(IsPySpace(r[i]) && IsPySpace(r[i + 1]))
      {
        if i >= |head| {
          assert r[i] == tail[i - |head|] && r[i + 1] == tail[i + 1 - |head|];
        } else if i == |head| - 1 {
          assert r[i + 1] == tail[0];
          if IsPySpace(c) { assert s[1] == rest[0]; }
        }
      }
    }
  }

  // ---------------------------------------------------------------------------
  // Whole-word replacement: re.sub(r'\bWORD\b', REP, s)
  // ---------------------------------------------------------------------------

  predicate NoSpaceIn(s: string) { forall i :: 0 <= i < |s| ==> !IsPySpace(s[i]) }

  /** Replaces every occurrence of `pat` that stands as a whole word; `prevWord` says
      whether the character before `s` in the original string is a word character. */
  function ReplaceWordFrom(s: string, pat: string, rep: string, prevWord: bool): string
    requires pat != []
    decreases |s|
  {
    if s == [] then []
    else if WordAt(s, pat, prevWord) then rep + ReplaceWordFrom(s[|pat|..], pat, rep, IsWordChar(pat[|pat| - 1]))
    else [s[0]] + ReplaceWordFrom(s[1..], pat, rep, IsWordChar(s[0]))
  }

  /** `pat` starts `s` as a whole word (`\bpat\b` for a `pat` that begins and ends with
      word characters). */
  predicate WordAt(s: string, pat: string, prevWord: bool)
    requires pat != []
  {
    !prevWord && StartsWith(s, pat) && (|s| == |pat| || !IsWordChar(s[|pat|]))
  }

  /** Replacing words by words without whitespace keeps the whitespace layout. */
  lemma {:induction false} ReplaceWordSpacing(s: string, pat: string, rep: string, prevWord: bool)
    requires pat != [] && rep != [] && NoSpaceIn(pat) && NoSpaceIn(rep)
    ensures SameSpacing(s, ReplaceWordFrom(s, pat, rep, prevWord))
    decreases |s|
  {
    if s != [] {
      if WordAt(s, pat, prevWord) {
        ReplaceWordSpacing(s[|pat|..], pat, rep, IsWordChar(pat[|pat| - 1]));
        ReplaceSpacing(s, pat, rep, ReplaceWordFrom(s[|pat|..], pat, rep, IsWordChar(pat[|pat| - 1])));
      } else {
        ReplaceWordSpacing(s[1..], pat, rep, IsWordChar(s[0]));
        assert [s[0]] + s[1..] == s;
        SpacingConcat(s[0], s[1..], [s[0]], ReplaceWordFrom(s[1..], pat, rep, IsWordChar(s[0])));
      }
    }
  }

  lemma ReplaceSpacing(s: string, pat: string, rep: string, tail: string)
    requires pat != [] && rep != [] && NoSpaceIn(pat) && NoSpaceIn(rep)
    requires StartsWith(s, pat)
    requires SameSpacing(s[|pat|..], tail)
    ensures SameSpacing(s, rep + tail)
  {
    var rest := s[|pat|..];
    var r := rep + tail;
    assert s[0] == pat[0];
    if rest == [] {
      assert s[|s| - 1] == pat[|pat| - 1];
    } else {
      assert s[|s| - 1] == rest[|rest| - 1];
    }
    if OnlySpaces(s) {
      assert forall i :: 0 <= i < |rest| ==> rest[i] == s[i + |pat|];
      assert OnlySpaces(rest);
      forall i | 0 <= i < |r| && IsPySpace(r[i])
        ensures r[i] == ' '
      {
        if i >= |rep| { assert r[i] == tail[i - |rep|]; }
      }
    }
    if NoDoubleSpace(s) {
      assert forall i :: 0 <= i < |rest| ==> rest[i] == s[i + |pat|];
      assert NoDoubleSpace(rest);
      forall i | 0 <= i < |r| - 1
        ensures !(IsPySpace(r[i]) && IsPySpace(r[i + 1]))
      {
        if i >= |rep| {
          assert r[i] == tail[i - |rep|] && r[i + 1] == tail[i + 1 - |rep|];
        }
      }
    }
  }

  /** The accent table, in the order the substitutions are made. */
  const AccentTable: seq<(string, string)> := [
    ("Pao", "P\U{E3}o"),
    ("Frances", "Franc\U{EA}s"),
    ("File", "Fil\U{E9}"),
    ("Acem", "Ac\U{E9}m"),
    ("Coxao", "Cox\U{E3}o"),
    ("Melao", "Mel\U{E3}o"),
    ("Linguica", "Lingui\U{E7}a"),
    ("Perdigao", "Perdig\U{E3}o")
  ]

  predicate WellFormedTable(table: seq<(string, string)>)
  {
    forall k :: 0 <= k < |table| ==>
      table[k].0 != [] && table[k].1 != [] && NoSpaceIn(table[k].0) && NoSpaceIn(table[k].1)
  }

  /** Applies the whole-word substitutions of `table` one after the other. */
  function ApplyTable(s: string, table: seq<(string, string)>): string
    requires forall k :: 0 <= k < |table| ==> table[k].0 != []
    decreases |table|
  {
    if table == [] then s else ApplyTable(ReplaceWordFrom(s, table[0].0, table[0].1, false), table[1..])
  }

  lemma {:induction false} ApplyTableSpacing(s: string, table: seq<(string, string)>)
    requires WellFormedTable(table)
    ensures SameSpacing(s, ApplyTable(s, table))
    decreases |table|
  {
    if table != [] {
      var once := ReplaceWordFrom(s, table[0].0, table[0].1, false);
      ReplaceWordSpacing(s, table[0].0, table[0].1, false);
      ApplyTableSpacing(once, table[1..]);
    }
  }

  lemma AccentTableWellFormed()
    ensures WellFormedTable(AccentTable)
  {
    forall k | 0 <= k < |AccentTable|
      ensures NoSpaceIn(AccentTable[k].0) && NoSpaceIn(AccentTable[k].1)
    {
      LettersHaveNoSpace(AccentTable[k].0);
      LettersHaveNoSpace(AccentTable[k].1);
    }
  }

  /** A Latin-1 letter. */
  predicate IsLatinLetter(c: char) { 'A' <= c <= 'Z' || 'a' <= c <= 'z' || '\U{C0}' <= c <= '\U{FF}' }

  lemma LettersHaveNoSpace(s: string)
    requires forall i :: 0 <= i < |s| ==> IsLatinLetter(s[i])
    ensures NoSpaceIn(s)
  {
  }

  // ---------------------------------------------------------------------------
  // The whole pipeline
  // ---------------------------------------------------------------------------

  /** The display name made from a raw name field: words separated by single
      spaces, with no whitespace at either end, whatever the raw field held. */
  function FormatName(raw: string): (r: string)
    ensures Tidy(r)
  {
    var s1 := StripDigitTail(PyStrip(raw));
    StripDigitTailEnds(PyStrip(raw));
    CollapseTidy(s1);
    var s2 := CollapseSpaces(s1);
    var s3 := Title(s2);
    TitleSpacing(s2, false);
    AccentTableWellFormed();
    ApplyTableSpacing(s3, AccentTable);
    SpacingTidy(s2, s3);
    SpacingTidy(s3, ApplyTable(s3, AccentTable));
    ApplyTable(s3, AccentTable)
  }

  /** Collapsing the whitespace of a string with no whitespace at its ends tidies it. */
  lemma CollapseTidy(s: string)
    requires s == [] || (!IsPySpace(s[0]) && !IsPySpace(s[|s| - 1]))
    ensures Tidy(CollapseSpaces(s))
  {
    var r := CollapseSpaces(s);
    forall i | 0 <= i < |r| - 1
      ensures !(IsPySpace(r[i]) && IsPySpace(r[i + 1]))
    {
      assert r[i] == ' ' || !IsPySpace(r[i]);
      assert r[i + 1] == ' ' || !IsPySpace(r[i + 1]);
    }
  }

  lemma SpacingTidy(s: string, r: string)
    requires Tidy(s) && SameSpacing(s, r)
    ensures Tidy(r)
  {
  }

  // ---------------------------------------------------------------------------
  // Unit words: re.sub(r'\b(?:kg|un)\b', '', s, flags=re.IGNORECASE)
  // ---------------------------------------------------------------------------

  /** `c d` spells "kg" (or, when `withUn`, "un") in any letter case. */
  predicate IsUnit(c: char, d: char, withUn: bool)
  {
    (LowerChar(c) == 'k' && LowerChar(d) == 'g') || (withUn && LowerChar(c) == 'u' && LowerChar(d) == 'n')
  }

  /** A unit word bounded by `\b` on both sides starts `s`; `prevWord` tells whether
      the character before `s` is a word character. */
  predicate UnitAt(s: string, prevWord: bool, withUn: bool)
  {
    |s| >= 2 && !prevWord && IsUnit(s[0], s[1], withUn) && (|s| == 2 || !IsWordChar(s[2]))
  }

  predicate HasUnit(s: string, prevWord: bool, withUn: bool)
    decreases |s|
  {
    s != [] && (UnitAt(s, prevWord, withUn) || HasUnit(s[1..], IsWordChar(s[0]), withUn))
  }

  function RemoveUnitsFrom(s: string, prevWord: bool): (r: string)
    ensures |r| <= |s|
    decreases |s|
  {
    if s == [] then []
    else if UnitAt(s, prevWord, true) then RemoveUnitsFrom(s[2..], true)
    else [s[0]] + RemoveUnitsFrom(s[1..], IsWordChar(s[0]))
  }

  /** Deletes every "kg" and "un" that stands as a whole word. */
  function RemoveUnits(s: string): string
  {
    RemoveUnitsFrom(s, false)
  }

  /** After the deletion no unit word is left standing, even where two pieces
      of the original now meet. */
  lemma {:induction false} RemoveUnitsFromComplete(s: string, prevWord: bool, ctx: bool)
    requires ctx || !prevWord || s == [] || !IsWordChar(s[0])
    ensures !HasUnit(RemoveUnitsFrom(s, prevWord), ctx, true)
    decreases |s|
  {
    if s != [] {
      if UnitAt(s, prevWord, true) {
        RemoveUnitsFromComplete(s[2..], true, ctx);
      } else {
        var w := IsWordChar(s[0]);
        var out := RemoveUnitsFrom(s, prevWord);
        var tail := RemoveUnitsFrom(s[1..], w);
        assert out == [s[0]] + tail;
        assert out[1..] == tail;
        RemoveUnitsFromComplete(s[1..], w, w);
        KeptHeadNoUnit(s, prevWord, ctx);
      }
    }
  }

  /** A character kept in front of the cleaned rest starts a unit word only if the
      original already did at that place. */
  lemma KeptHeadNoUnit(s: string, prevWord: bool, ctx: bool)
    requires s != []
    requires ctx || !prevWord || !IsWordChar(s[0])
    ensures UnitAt([s[0]] + RemoveUnitsFrom(s[1..], IsWordChar(s[0])), ctx, true) ==> UnitAt(s, prevWord, true)
  {
    var tail := RemoveUnitsFrom(s[1..], IsWordChar(s[0]));
    var out := [s[0]] + tail;
    if UnitAt(out, ctx, true) {
      assert IsWordChar(s[0]);
      assert tail[0] == s[1];
      if |s| > 2 {
        var tail2 := RemoveUnitsFrom(s[2..], true);
        assert tail == [s[1]] + tail2;
        assert tail2[0] == s[2];
      }
    }
  }

  lemma RemoveUnitsComplete(s: string)
    ensures !HasUnit(RemoveUnits(s), false, true)
  {
    RemoveUnitsFromComplete(s, false, false);
  }
}
