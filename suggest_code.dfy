/**
 * The alternative code offered when a butcher product code is already taken
 * (`generate_suggested_code` in BACKEND/app.py).  Whether a code exists is a
 * query on the product table in the source; here it is the predicate `taken`.
 */
module SuggestCode {
  import opened Text

  /** Where `$` matches in `re.search(r'(\d+)$', s)`: the end of the string, or just
      before a final newline. */
  function MatchEnd(s: string): (e: nat)
    ensures e <= |s|
  {
    if s != [] && s[|s| - 1] == '\n' then |s| - 1 else |s|
  }

  /** The start of the longest run of digits that ends at `k`. */
  function RunStart(s: string, k: nat): (r: nat)
    requires k <= |s|
    ensures r <= k && AllDigits(s[r..k])
    ensures r == 0 || !IsDigit(s[r - 1])
    decreases k
  {
    if k > 0 && IsDigit(s[k - 1]) then
      var r := RunStart(s, k - 1);
      assert s[r..k] == s[r..k - 1] + [s[k - 1]];
      r
    else k
  }

  /** The span of the trailing number, if the pattern matches. */
  function TrailingNumber(s: string): (m: Option<(nat, nat)>)
    ensures m.Some? ==> m.value.0 < m.value.1 <= |s| && AllDigits(s[m.value.0..m.value.1])
  {
    var e := MatchEnd(s);
    var k := RunStart(s, e);
    if k < e then Some((k, e)) else None
  }

  /** The first suggestion: the trailing number incremented, or "1" appended. */
  function FirstSuggestion(base: string): string
  {
    match TrailingNumber(base)
    case Some((k, e)) => base[..k] + NatToDecimal(DigitsValue(base[k..e]) + 1)
    case None => base + "1"
  }

  /** `base_code + str(i)` for a single digit `i`. */
  function Alternative(base: string, i: nat): string
    requires i < 10
  {
    base + [DigitChar(i)]
  }

  /** The first free alternative among `i`, ..., 9. */
  function FirstFreeAlternative(base: string, taken: string -> bool, i: nat): (r: Option<string>)
    requires 2 <= i
    ensures r.Some? ==> !taken(r.value)
    ensures r.None? <==> forall j :: i <= j < 10 ==> taken(Alternative(base, j))
    decreases 10 - i
  {
    if i >= 10 then None
    else if !taken(Alternative(base, i)) then Some(Alternative(base, i))
    else FirstFreeAlternative(base, taken, i + 1)
  }

  /** The whole suggestion.  It is never a code that is taken; there is none
      exactly when the first suggestion and all eight alternatives are taken. */
  function SuggestedCode(base: string, taken: string -> bool): (r: Option<string>)
    ensures r.Some? ==> !taken(r.value)
    ensures r.None? <==> taken(FirstSuggestion(base)) && forall j :: 2 <= j < 10 ==> taken(Alternative(base, j))
  {
    var first := FirstSuggestion(base);
    if !taken(first) then Some(first) else FirstFreeAlternative(base, taken, 2)
  }

  /** The source's procedure, with its retry loop over 2..9. */
  method GenerateSuggestedCode(base: string, taken: string -> bool) returns (r: Option<string>)
    ensures r == SuggestedCode(base, taken)
  {
    var suggested := FirstSuggestion(base);
    if !taken(suggested) {
      return Some(suggested);
    }
    for i := 2 to 10
      invariant FirstFreeAlternative(base, taken, 2) == FirstFreeAlternative(base, taken, i)
    {
      var alt := Alternative(base, i);
      if !taken(alt) {
        return Some(alt);
      }
    }
    return None;
  }

  /** An alternative is the smallest free digit: every smaller one is taken. */
  lemma {:induction false} AlternativeIsSmallest(base: string, taken: string -> bool, i: nat, k: nat)
    requires 2 <= i <= k < 10
    requires FirstFreeAlternative(base, taken, i) == Some(Alternative(base, k))
    ensures forall j :: i <= j < k ==> taken(Alternative(base, j))
    decreases 10 - i
  {
    if i < k {
      assert Alternative(base, i)[|base|] != Alternative(base, k)[|base|];
      AlternativeIsSmallest(base, taken, i + 1, k);
    }
  }

  /** The first suggestion never equals the code it was made from: the trailing
      number grows by one, or a digit is appended. */
  lemma FirstSuggestionDiffers(base: string)
    ensures FirstSuggestion(base) != base
  {
    match TrailingNumber(base)
    case Some((k, e)) =>
      var v := DigitsValue(base[k..e]);
      var s := base[..k] + NatToDecimal(v + 1);
      if e == |base| {
        assert NatToDecimal(v + 1) != base[k..e];
        assert s[k..] == NatToDecimal(v + 1);
      } else {
        assert base[|base| - 1] == '\n';
        assert s[|s| - 1] == NatToDecimal(v + 1)[|NatToDecimal(v + 1)| - 1];
      }
    case None =>
  }

  /** With a trailing number, the suggestion keeps the text before it and carries
      the number plus one, without leading zeros. */
  lemma FirstSuggestionBumps(base: string, k: nat, e: nat)
    requires TrailingNumber(base) == Some((k, e))
    ensures var s := FirstSuggestion(base);
      && |s| > k && s[..k] == base[..k]
      && AllDigits(s[k..]) && DigitsValue(s[k..]) == DigitsValue(base[k..e]) + 1
      && (|s| - k > 1 ==> s[k] != '0')
  {
    var s := FirstSuggestion(base);
    assert s[k..] == NatToDecimal(DigitsValue(base[k..e]) + 1);
  }
}
