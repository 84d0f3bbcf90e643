/**
 * Name normalisation (`_norm_name` and the local `_norm` helpers in
 * BACKEND/app.py) and the keyword test that decides which products belong on
 * a department panel (`_match` in `perform_sync_department_panel`).
 *
 * Normalising decomposes every character (Unicode NFD), drops the combining
 * marks, lower-cases, collapses whitespace runs to one space and strips both
 * ends.  The Unicode database is not part of this model: the decomposition and
 * the combining-mark test are a parameter `u`.  Canonical reordering only
 * permutes combining marks, which are dropped anyway, so decomposing character
 * by character gives the same result.
 */
module NameMatch {
  import opened Text

  /** The two Unicode services normalisation relies on. */
  datatype UnicodeTables = UnicodeTables(decompose: char -> string, combining: char -> bool)

  /** The characters of `s` that are not combining marks, in order. */
  function DropMarks(u: UnicodeTables, s: string): (r: string)
    ensures |r| <= |s|
    ensures forall i :: 0 <= i < |r| ==> !u.combining(r[i])
  {
    if s == [] then [] else (if u.combining(s[0]) then [] else [s[0]]) + DropMarks(u, s[1..])
  }

  /** What is left of `c` once decomposed and stripped of its marks. */
  function Base(u: UnicodeTables, c: char): string
  {
    DropMarks(u, u.decompose(c))
  }

  /** `''.join(c for c in normalize('NFD', s) if not combining(c))`. */
  function StripAccents(u: UnicodeTables, s: string): string
  {
    if s == [] then [] else Base(u, s[0]) + StripAccents(u, s[1..])
  }

  /** `_norm_name(s)`; a missing name is the empty string. */
  function Norm(u: UnicodeTables, s: string): string
  {
    PyStrip(CollapseSpaces(Lower(StripAccents(u, s))))
  }

  /** `c` is its own accent-free form. */
  predicate Settled(u: UnicodeTables, c: char)
  {
    Base(u, c) == [c]
  }

  /** What the Unicode tables satisfy and idempotence needs: the lower-case form
      of a base character decomposes to itself, and so does the space. */
  ghost predicate Coherent(u: UnicodeTables)
  {
    && Settled(u, ' ')
    && forall c, i :: 0 <= i < |Base(u, c)| ==> Settled(u, LowerChar(Base(u, c)[i]))
  }

  /** The normalised name is words separated by single spaces, nothing at either end. */
  lemma NormTidy(u: UnicodeTables, s: string)
    ensures Tidy(Norm(u, s))
  {
    var c := CollapseSpaces(Lower(StripAccents(u, s)));
    assert OnlySpaces(c);
    StripTidy(c);
  }

  /** A character is "final" when lower-casing and accent stripping leave it alone. */
  predicate Final(u: UnicodeTables, c: char)
  {
    Settled(u, c) && LowerChar(c) == c
  }

  lemma {:induction false} StripAccentsLowerFinal(u: UnicodeTables, s: string)
    requires Coherent(u)
    ensures forall i :: 0 <= i < |StripAccents(u, s)| ==> Final(u, LowerChar(StripAccents(u, s)[i]))
  {
    if s != [] {
      StripAccentsLowerFinal(u, s[1..]);
      var b := Base(u, s[0]);
      var r := StripAccents(u, s);
      assert r == b + StripAccents(u, s[1..]);
      forall i | 0 <= i < |r|
        ensures Final(u, LowerChar(r[i]))
      {
        LowerCharIdempotent(r[i]);
        if i < |b| {
          assert Settled(u, LowerChar(b[i]));
        } else {
          assert r[i] == StripAccents(u, s[1..])[i - |b|];
        }
      }
    }
  }

  /** Every character of a normalised name is final. */
  lemma NormChars(u: UnicodeTables, s: string)
    requires Coherent(u)
    ensures forall i :: 0 <= i < |Norm(u, s)| ==> Final(u, Norm(u, s)[i])
  {
    var l := Lower(StripAccents(u, s));
    StripAccentsLowerFinal(u, s);
    assert Final(u, ' ');
    CollapseKeeps(l, c => Final(u, c));
    TrimKeeps(CollapseSpaces(l), IsPySpace, c => Final(u, c));
  }

  lemma {:induction false} StripAccentsSettled(u: UnicodeTables, s: string)
    requires forall i :: 0 <= i < |s| ==> Settled(u, s[i])
    ensures StripAccents(u, s) == s
  {
    if s != [] {
      StripAccentsSettled(u, s[1..]);
    }
  }

  lemma {:induction false} LowerFinal(s: string)
    requires forall i :: 0 <= i < |s| ==> LowerChar(s[i]) == s[i]
    ensures Lower(s) == s
  {
  }

  /** A tidy string of final characters is already normalised. */
  lemma NormFixed(u: UnicodeTables, t: string)
    requires Tidy(t) && forall i :: 0 <= i < |t| ==> Final(u, t[i])
    ensures Norm(u, t) == t
  {
    StripAccentsSettled(u, t);
    LowerFinal(t);
    CollapseTidyIdentity(t);
    TrimUnchanged(t, IsPySpace);
  }

  /** Normalising twice is normalising once. */
  lemma NormIdempotent(u: UnicodeTables, s: string)
    requires Coherent(u)
    ensures Norm(u, Norm(u, s)) == Norm(u, s)
  {
    NormTidy(u, s);
    NormChars(u, s);
    NormFixed(u, Norm(u, s));
  }

  /** `_match(name)`: in exact mode the normalised name is one of the normalised
      keywords; otherwise some normalised keyword occurs inside it. */
  predicate Matches(u: UnicodeTables, keywords: seq<string>, exact: bool, name: string)
  {
    var n := Norm(u, name);
    if exact then exists k :: k in keywords && Norm(u, k) == n
    else exists k :: k in keywords && Contains(n, Norm(u, k))
  }

  /** An exact match is also a substring match. */
  lemma ExactImpliesSubstring(u: UnicodeTables, keywords: seq<string>, name: string)
    requires Matches(u, keywords, true, name)
    ensures Matches(u, keywords, false, name)
  {
    var k :| k in keywords && Norm(u, k) == Norm(u, name);
    ContainsSelf(Norm(u, name));
  }

  /** Whether a name matches depends on its normalised form only, so a name and its
      normalisation match the same keywords. */
  lemma MatchNormalised(u: UnicodeTables, keywords: seq<string>, exact: bool, name: string)
    requires Coherent(u)
    ensures Matches(u, keywords, exact, Norm(u, name)) <==> Matches(u, keywords, exact, name)
  {
    NormIdempotent(u, name);
  }

  /** The empty name (an association whose product is gone) matches exactly when
      some keyword normalises to the empty string. */
  lemma EmptyNameMatch(u: UnicodeTables, keywords: seq<string>, exact: bool)
    ensures Matches(u, keywords, exact, "") <==> exists k :: k in keywords && Norm(u, k) == ""
  {
    assert Norm(u, "") == "" by {
      TrimUnchanged([], IsPySpace);
    }
    if exact {
    } else {
      forall k | k in keywords && Contains("", Norm(u, k))
        ensures Norm(u, k) == ""
      {
      }
      assert Contains("", "") by { ContainsSelf(""); }
    }
  }
}
