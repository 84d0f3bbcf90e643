/**
 * Product codes on the frontend (sistema-paineis-tv/src/types/index.ts): the code
 * proposed for a new product name, and the check on a code typed by the user.
 */
module ProductCode {
  import opened Text

  predicate IsCodeChar(c: char) { IsAsciiUpper(c) || IsDigit(c) }

  /** `replace(/[^A-Z0-9]/g, '')`. */
  function KeepCodeChars(s: string): (r: string)
    ensures forall i :: 0 <= i < |r| ==> IsCodeChar(r[i])
    ensures |r| <= |s|
  {
    if s == [] then [] else (if IsCodeChar(s[0]) then [s[0]] else []) + KeepCodeChars(s[1..])
  }

  /** The base of a generated code: the name upper-cased, without anything but A-Z
      and 0-9, cut to six characters. */
  function CodeBase(name: string): (b: string)
    ensures |b| <= 6 && forall i :: 0 <= i < |b| ==> IsCodeChar(b[i])
  {
    var kept := KeepCodeChars(Upper(name));
    if |kept| <= 6 then kept else kept[..6]
  }

  /** `${base}-${counter.toString().padStart(2, '0')}`. */
  function Candidate(base: string, counter: nat): string
  {
    base + "-" + PadStart(NatToDecimal(counter), 2, '0')
  }

  /** A candidate is the base, a hyphen and the counter's digits, at least two. */
  lemma CandidateParts(base: string, counter: nat)
    ensures var c, t := Candidate(base, counter), PadStart(NatToDecimal(counter), 2, '0');
      && |c| == |base| + 1 + |t| && |t| >= 2
      && c[..|base|] == base && c[|base|] == '-' && c[|base| + 1..] == t
      && AllDigits(t) && DigitsValue(t) == counter
  {
    var t := PadStart(NatToDecimal(counter), 2, '0');
    var c := base + ['-'] + t;
    assert Candidate(base, counter) == c;
    assert c[..|base|] == base;
    assert c[|base| + 1..] == t;
    PadZerosValue(NatToDecimal(counter), 2);
  }

  /** Different counters give different codes, and none of them is the base. */
  lemma CandidateInjective(base: string, i: nat, j: nat)
    ensures Candidate(base, i) != base
    ensures Candidate(base, i) == Candidate(base, j) ==> i == j
  {
    CandidateParts(base, i);
    CandidateParts(base, j);
  }

  /** The code tried at the `counter`-th test of the loop. */
  function Current(base: string, counter: nat): string
    requires counter >= 1
  {
    if counter == 1 then base else Candidate(base, counter - 1)
  }

  /** The candidates with counters 1 up to `n - 1`. */
  ghost function Candidates(base: string, n: nat): set<string>
  {
    if n <= 1 then {} else Candidates(base, n - 1) + {Candidate(base, n - 1)}
  }

  /** A candidate is neither the base nor one with a smaller counter. */
  lemma {:induction false} CandidatesFresh(base: string, n: nat, m: nat)
    requires n <= m
    ensures Candidate(base, m) !in Candidates(base, n) && base !in Candidates(base, n)
  {
    if n > 1 {
      CandidatesFresh(base, n - 1, m);
      CandidateInjective(base, n - 1, m);
    }
  }

  lemma {:induction false} CandidatesWithin(base: string, existing: seq<string>, n: nat)
    requires forall i :: 1 <= i < n ==> Candidate(base, i) in existing
    ensures forall x :: x in Candidates(base, n) ==> x in existing
  {
    if n > 1 {
      CandidatesWithin(base, existing, n - 1);
    }
  }

  /** The codes tried before the `counter`-th test. */
  ghost function Tried(base: string, counter: nat): set<string>
    requires counter >= 1
  {
    (if counter > 1 then {base} else {}) + Candidates(base, counter - 1)
  }

  lemma TriedStep(base: string, counter: nat)
    requires counter >= 1
    ensures Tried(base, counter + 1) == Tried(base, counter) + {Current(base, counter)}
    ensures Current(base, counter) !in Tried(base, counter)
  {
    if counter > 1 {
      CandidatesFresh(base, counter - 1, counter - 1);
      CandidateInjective(base, counter - 1, counter - 1);
    }
  }

  lemma {:induction false} TriedSize(base: string, counter: nat)
    requires counter >= 1
    ensures |Tried(base, counter)| == counter - 1
  {
    if counter == 1 {
      assert Tried(base, counter) == {};
    } else {
      TriedSize(base, counter - 1);
      TriedStep(base, counter - 1);
    }
  }

  lemma {:induction false} SeqSetSize(s: seq<string>)
    ensures |set x | x in s| <= |s|
  {
    if s != [] {
      var init := s[..|s| - 1];
      SeqSetSize(init);
      assert (set x | x in s) == (set x | x in init) + {s[|s| - 1]};
    }
  }

  /** While the loop runs, the codes it has found taken are distinct existing
      codes, so it cannot run more often than there are existing codes. */
  lemma TriedBound(base: string, existing: seq<string>, counter: nat)
    requires counter >= 1 && Current(base, counter) in existing
    requires counter > 1 ==> base in existing
    requires forall i :: 1 <= i < counter - 1 ==> Candidate(base, i) in existing
    ensures counter <= |existing|
  {
    var pool := set x | x in existing;
    var tried := Tried(base, counter + 1);
    assert tried <= pool by {
      assert counter > 1 ==> Candidate(base, counter - 1) == Current(base, counter);
      CandidatesWithin(base, existing, counter);
    }
    assert |tried| == counter by {
      TriedSize(base, counter + 1);
    }
    SubsetSize(tried, pool);
    SeqSetSize(existing);
  }

  lemma SubsetSize(a: set<string>, b: set<string>)
    requires a <= b
    ensures |a| <= |b|
  {
    assert b == a + (b - a);
  }

  /** `generateProductCode`: the base when it is free, else the base with the
      smallest free counter from 1 up. */
  method GenerateProductCode(name: string, existing: seq<string>) returns (code: string)
    ensures code !in existing
    ensures CodeBase(name) !in existing ==> code == CodeBase(name)
    ensures CodeBase(name) in existing ==> exists n :: code == Candidate(CodeBase(name), n) && TakenBelow(CodeBase(name), existing, n)
  {
    var base := CodeBase(name);
    code := base;
    var counter := 1;
    while code in existing
      invariant 1 <= counter <= |existing| + 1 && code == Current(base, counter)
      invariant counter > 1 ==> base in existing
      invariant forall i :: 1 <= i < counter - 1 ==> Candidate(base, i) in existing
      decreases |existing| - counter
    {
      TriedBound(base, existing, counter);
      code := Candidate(base, counter);
      counter := counter + 1;
    }
    if counter > 1 {
      assert code == Candidate(base, counter - 1) && TakenBelow(base, existing, counter - 1);
    }
  }

  /** The counters 1 up to `n - 1` all give taken codes. */
  predicate TakenBelow(base: string, existing: seq<string>, n: nat)
  {
    n >= 1 && forall i :: 1 <= i < n ==> Candidate(base, i) in existing
  }

  // ---------------------------------------------------------------------------
  // Checking a code
  // ---------------------------------------------------------------------------

  datatype ValidationResult = ValidationResult(isValid: bool, error: Option<string>)

  const MsgRequired := "Código é obrigatório"
  const MsgTooShort := "Código deve ter pelo menos 2 caracteres"
  const MsgChars := "Código deve conter apenas letras maiúsculas, números e hífens"

  /** `/^[A-Z0-9-]+$/`. */
  predicate CodeShape(s: string)
  {
    |s| > 0 && forall i :: 0 <= i < |s| ==> IsCodeChar(s[i]) || s[i] == '-'
  }

  /** A blank string has no code character. */
  lemma BlankIsNotCode(s: string)
    requires JsTrim(s) == []
    ensures !CodeShape(s)
  {
    if s != [] {
      assert IsJsSpace(s[0]);
    }
  }

  /** The message `validateProductCode` reports, if any. */
  function CodeError(code: string): Option<string>
  {
    if JsTrim(code) == [] then Some(MsgRequired)
    else if |code| < 2 then Some(MsgTooShort)
    else if !CodeShape(code) then Some(MsgChars)
    else None
  }

  /** A blank code is reported first, then a short one, then one with other
      characters; there is no message exactly when the code is at least two
      characters of A-Z, 0-9 and '-'. */
  lemma CodeErrorSpec(code: string)
    ensures CodeError(code).None? <==> |code| >= 2 && CodeShape(code)
    ensures JsTrim(code) == [] ==> CodeError(code) == Some(MsgRequired)
    ensures JsTrim(code) != [] && |code| < 2 ==> CodeError(code) == Some(MsgTooShort)
  {
    if JsTrim(code) == [] {
      BlankIsNotCode(code);
    }
  }

  /** `validateProductCode`. */
  function ValidateProductCode(code: string): (r: ValidationResult)
    ensures r.isValid <==> |code| >= 2 && CodeShape(code)
    ensures r.isValid <==> r.error.None?
  {
    CodeErrorSpec(code);
    var e := CodeError(code);
    ValidationResult(e.None?, e)
  }

  /** A candidate is at least three characters of A-Z, 0-9 and '-'. */
  lemma CandidateShape(base: string, n: nat)
    requires forall i :: 0 <= i < |base| ==> IsCodeChar(base[i])
    ensures |Candidate(base, n)| >= 3 && CodeShape(Candidate(base, n))
  {
    var t := PadStart(NatToDecimal(n), 2, '0');
    PadZerosValue(NatToDecimal(n), 2);
    var rest := "-" + t;
    assert forall i :: 0 <= i < |rest| ==> IsCodeChar(rest[i]) || rest[i] == '-';
    assert Candidate(base, n) == base + rest;
  }

  /** A generated code passes the check unless it is a base shorter than two
      characters: a name with fewer than two letters or digits yields such a code,
      which the check then refuses. */
  lemma GeneratedCodeValid(base: string, n: nat)
    requires forall i :: 0 <= i < |base| ==> IsCodeChar(base[i])
    ensures ValidateProductCode(base).isValid <==> |base| >= 2
    ensures n >= 1 ==> ValidateProductCode(Candidate(base, n)).isValid
  {
    if n >= 1 {
      CandidateShape(base, n);
    }
  }
}
