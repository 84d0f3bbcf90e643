/**
 * Input masks on the frontend (`applyMask` in sistema-paineis-tv/src/components/base/Input.tsx):
 * the value loses every non-digit, then a chain of first-match regex replacements
 * punctuates it as a CPF, a CNPJ, a phone number or a CEP.  The replacements are
 * modelled as written; each chain is then proved equal to a layout by digit count.
 */
module InputMask {
  import opened Text
  import FormValidation

  // ---------------------------------------------------------------------------
  // The two kinds of replacement
  // ---------------------------------------------------------------------------

  /** `w` digits start at index `i`. */
  predicate DigitRun(s: string, i: nat, w: nat)
  {
    i + w <= |s| && forall t :: i <= t < i + w ==> IsDigit(s[t])
  }

  /** Where a regex of `w` digits matches first, searching from `i`. */
  function FirstRun(s: string, w: nat, i: nat): (r: Option<nat>)
    ensures r.Some? ==> i <= r.value && DigitRun(s, r.value, w) && forall j :: i <= j < r.value ==> !DigitRun(s, j, w)
    ensures r.None? ==> forall j :: i <= j ==> !DigitRun(s, j, w)
    decreases |s| - i
  {
    if i + w > |s| then None
    else if DigitRun(s, i, w) then Some(i)
    else FirstRun(s, w, i + 1)
  }

  /** `s.replace(/(\d{a})(\d{lo,hi})/, open + '$1' + mid + '$2')`, with `need == a + lo`:
      the first run of `need` digits gets `open` before it and `mid` after its first
      `a` digits.  How many digits the second group takes does not change the
      result, so `hi` does not appear. */
  function Replace(s: string, a: nat, need: nat, open: string, mid: string): string
    requires a < need
  {
    match FirstRun(s, need, 0)
    case None => s
    case Some(i) => Splice(s, i, a, open, mid)
  }

  /** `open` inserted at `i` and `mid` after `a` more characters. */
  function Splice(s: string, i: nat, a: nat, open: string, mid: string): string
    requires i + a <= |s|
  {
    s[..i] + open + s[i..i + a] + mid + s[i + a..]
  }

  /** `(-\d{k})\d+?$` matches at `j`: a hyphen, `k` digits and at least one more, all
      digits to the end. */
  predicate TailAt(s: string, k: nat, j: nat)
  {
    j + 1 + k < |s| && s[j] == '-' && forall t :: j < t < |s| ==> IsDigit(s[t])
  }

  function FirstTail(s: string, k: nat, i: nat): (r: Option<nat>)
    ensures r.Some? ==> i <= r.value && TailAt(s, k, r.value) && forall j :: i <= j < r.value ==> !TailAt(s, k, j)
    ensures r.None? ==> forall j :: i <= j ==> !TailAt(s, k, j)
    decreases |s| - i
  {
    if i + 1 + k >= |s| then None
    else if TailAt(s, k, i) then Some(i)
    else FirstTail(s, k, i + 1)
  }

  /** `s.replace(/(-\d{k})\d+?$/, '$1')`: the digits after the hyphen are cut to `k`. */
  function CutTail(s: string, k: nat): string
  {
    match FirstTail(s, k, 0)
    case None => s
    case Some(j) => s[..j + 1 + k]
  }

  // ---------------------------------------------------------------------------
  // The masks as written
  // ---------------------------------------------------------------------------

  function MaskCpf(d: string): string
  {
    var s1 := Replace(d, 3, 4, "", ".");
    var s2 := Replace(s1, 3, 4, "", ".");
    var s3 := Replace(s2, 3, 4, "", "-");
    CutTail(s3, 2)
  }

  function MaskCnpj(d: string): string
  {
    var s1 := Replace(d, 2, 3, "", ".");
    var s2 := Replace(s1, 3, 4, "", ".");
    var s3 := Replace(s2, 3, 4, "", "/");
    var s4 := Replace(s3, 4, 5, "", "-");
    CutTail(s4, 2)
  }

  function MaskPhone(d: string): string
  {
    var s1 := Replace(d, 2, 3, "(", ") ");
    var s2 := Replace(s1, 5, 6, "", "-");
    CutTail(s2, 4)
  }

  function MaskCep(d: string): string
  {
    var s1 := Replace(d, 5, 6, "", "-");
    CutTail(s1, 3)
  }

  /** `applyMask(value, maskType)`; the currency format (`toLocaleString`) is the
      parameter `currency`, given the digits of the value. */
  function ApplyMask(value: string, maskType: string, currency: string -> string): (r: string)
    ensures maskType !in {"cpf", "cnpj", "phone", "cep", "currency"} ==> r == value
  {
    var clean := DigitsOf(value);
    if maskType == "cpf" then MaskCpf(clean)
    else if maskType == "cnpj" then MaskCnpj(clean)
    else if maskType == "phone" then MaskPhone(clean)
    else if maskType == "cep" then MaskCep(clean)
    else if maskType == "currency" then currency(clean)
    else value
  }

  // ---------------------------------------------------------------------------
  // Replacements on punctuated digits
  // ---------------------------------------------------------------------------

  ghost predicate NoRun(p: string, w: nat) { forall j: nat :: !DigitRun(p, j, w) }

  predicate NoDigits(s: string) { forall i :: 0 <= i < |s| ==> !IsDigit(s[i]) }

  /** Ends in something other than a digit (or is empty). */
  predicate Closed(p: string) { p == [] || !IsDigit(p[|p| - 1]) }

  /** A prefix made of digit groups shorter than `w`, each closed by punctuation,
      stays free of `w`-digit runs. */
  lemma NoRunUnit(p: string, seg: string, sep: string, w: nat)
    requires NoRun(p, w) && Closed(p)
    requires AllDigits(seg) && |seg| < w && sep != [] && NoDigits(sep)
    ensures NoRun(p + seg + sep, w) && Closed(p + seg + sep)
  {
    var q := p + seg + sep;
    forall j: nat
      ensures !DigitRun(q, j, w)
    {
      if j + w > |q| {
      } else if j + w <= |p| {
        assert !DigitRun(p, j, w);
        var t :| j <= t < j + w && !IsDigit(p[t]);
        assert q[t] == p[t];
      } else if j < |p| {
        assert q[|p| - 1] == p[|p| - 1];
      } else if j < |p| + |seg| {
        assert q[|p| + |seg|] == sep[0];
      } else {
        assert q[j] == sep[j - |p| - |seg|];
      }
    }
  }

  lemma NoRunEmpty(w: nat)
    requires w >= 1
    ensures NoRun([], w)
  {
  }

  lemma NoRunWider(p: string, w: nat, v: nat)
    requires NoRun(p, w) && w <= v
    ensures NoRun(p, v)
  {
    forall j: nat ensures !DigitRun(p, j, v) {
      if j + v <= |p| {
        assert !DigitRun(p, j, w);
      }
    }
  }

  /** On plain digits the first run is at the start, if there are enough. */
  lemma FirstRunDigits(d: string, need: nat)
    requires AllDigits(d)
    ensures FirstRun(d, need, 0) == if |d| >= need then Some(0) else None
  {
    if |d| >= need {
      assert DigitRun(d, 0, need);
    }
  }

  /** A replacement on plain digits. */
  lemma ReplaceDigits(d: string, a: nat, need: nat, open: string, mid: string)
    requires AllDigits(d) && a < need
    ensures Replace(d, a, need, open, mid) == if |d| >= need then open + d[..a] + mid + d[a..] else d
  {
    FirstRunDigits(d, need);
    if |d| >= need {
      assert d[..0] + open == open;
    }
  }

  /** No run starts inside a punctuated prefix. */
  lemma NoRunPrefix(p: string, t: string, need: nat)
    requires NoRun(p, need) && Closed(p)
    ensures forall j: nat :: j < |p| ==> !DigitRun(p + t, j, need)
  {
    var s := p + t;
    forall j: nat | j < |p|
      ensures !DigitRun(s, j, need)
    {
      if j + need <= |p| {
        assert !DigitRun(p, j, need);
        var k :| j <= k < j + need && !IsDigit(p[k]);
        assert s[k] == p[k];
      } else {
        assert s[|p| - 1] == p[|p| - 1];
      }
    }
  }

  /** After a punctuated prefix, the first run is where the digits start, if they
      are enough. */
  lemma FirstRunAfter(p: string, t: string, need: nat)
    requires NoRun(p, need) && Closed(p) && AllDigits(t)
    ensures FirstRun(p + t, need, 0) == if |t| >= need then Some(|p|) else None
  {
    var s := p + t;
    NoRunPrefix(p, t, need);
    if |t| >= need {
      assert DigitRun(s, |p|, need) by {
        forall k | |p| <= k < |p| + need ensures IsDigit(s[k]) { assert s[k] == t[k - |p|]; }
      }
    } else {
      assert forall j: nat :: j >= |p| ==> !DigitRun(s, j, need);
    }
  }

  /** A replacement on a punctuated prefix followed by digits acts on the digits. */
  lemma ReplaceAfter(p: string, t: string, a: nat, need: nat, open: string, mid: string)
    requires NoRun(p, need) && Closed(p) && AllDigits(t) && a < need
    ensures Replace(p + t, a, need, open, mid) == p + Replace(t, a, need, open, mid)
  {
    FirstRunAfter(p, t, need);
    FirstRunDigits(t, need);
    if |t| >= need {
      SpliceShift(p, t, a, open, mid);
    }
  }

  lemma SpliceShift(p: string, t: string, a: nat, open: string, mid: string)
    requires a <= |t|
    ensures Splice(p + t, |p|, a, open, mid) == p + Splice(t, 0, a, open, mid)
  {
    var s := p + t;
    assert s[..|p|] == p && s[|p|..|p| + a] == t[..a] && s[|p| + a..] == t[a..];
    assert t[..0] == [];
  }

  predicate NoDash(s: string) { forall i :: 0 <= i < |s| ==> s[i] != '-' }

  /** Without a hyphen nothing is cut. */
  lemma CutNoDash(s: string, k: nat)
    requires NoDash(s)
    ensures CutTail(s, k) == s
  {
  }

  /** After the only hyphen, the digits are cut to `k`. */
  lemma CutAfter(p: string, t: string, k: nat)
    requires NoDash(p) && AllDigits(t)
    ensures CutTail(p + "-" + t, k) == if |t| > k then p + "-" + t[..k] else p + "-" + t
  {
    var s := p + "-" + t;
    forall j | 0 <= j < |p| ensures !TailAt(s, k, j) {
      assert s[j] == p[j];
    }
    if |t| > k {
      assert TailAt(s, k, |p|) by {
        forall i | |p| < i < |s| ensures IsDigit(s[i]) { assert s[i] == t[i - |p| - 1]; }
      }
      assert FirstTail(s, k, 0) == Some(|p|);
      assert s[..|p| + 1 + k] == p + "-" + t[..k];
    } else {
      assert forall j :: j >= |p| ==> !TailAt(s, k, j);
      assert FirstTail(s, k, 0) == None;
    }
  }

  // ---------------------------------------------------------------------------
  // Layouts by digit count
  // ---------------------------------------------------------------------------

  function Min(a: int, b: int): int { if a < b then a else b }

  /** 000.000.000-00, cut short as digits run out. */
  function CpfLayout(d: string): string
  {
    var n := |d|;
    if n <= 3 then d
    else if n <= 6 then d[..3] + "." + d[3..]
    else if n <= 9 then d[..3] + "." + d[3..6] + "." + d[6..]
    else d[..3] + "." + d[3..6] + "." + d[6..9] + "-" + d[9..Min(n, 11)]
  }

  /** The first replacement on plain digits, when they are enough: punctuation
      after the first `a`. */
  lemma InsertFirst(d: string, a: nat, need: nat, mid: string)
    requires AllDigits(d) && a < need <= |d| && mid != [] && NoDigits(mid)
    ensures Replace(d, a, need, "", mid) == (d[..a] + mid) + d[a..]
    ensures NoRun(d[..a] + mid, need) && Closed(d[..a] + mid)
  {
    ReplaceDigits(d, a, need, "", mid);
    NoRunUnit([], d[..a], mid, need);
    assert [] + d[..a] + mid == d[..a] + mid;
  }

  /** A later replacement, when the digits after the punctuated prefix are enough. */
  lemma InsertNext(p: string, t: string, a: nat, need: nat, mid: string)
    requires NoRun(p, need) && Closed(p) && AllDigits(t) && a < need <= |t| && mid != [] && NoDigits(mid)
    ensures Replace(p + t, a, need, "", mid) == (p + t[..a] + mid) + t[a..]
    ensures NoRun(p + t[..a] + mid, need) && Closed(p + t[..a] + mid)
  {
    assert Replace(p + t, a, need, "", mid) == p + ("" + t[..a] + mid + t[a..]) by {
      ReplaceAfter(p, t, a, need, "", mid);
      ReplaceDigits(t, a, need, "", mid);
    }
    assert p + ("" + t[..a] + mid + t[a..]) == (p + t[..a] + mid) + t[a..];
    NoRunUnit(p, t[..a], mid, need);
  }

  /** A later replacement, when the digits after the prefix are too few. */
  lemma KeepNext(p: string, t: string, a: nat, need: nat, mid: string)
    requires NoRun(p, need) && Closed(p) && AllDigits(t) && a < need && |t| < need
    ensures Replace(p + t, a, need, "", mid) == p + t
  {
    ReplaceAfter(p, t, a, need, "", mid);
    ReplaceDigits(t, a, need, "", mid);
  }

  lemma CutNoDashDigits(p: string, t: string, k: nat)
    requires NoDash(p) && AllDigits(t)
    ensures CutTail(p + t, k) == p + t
  {
    assert NoDash(p + t);
    CutNoDash(p + t, k);
  }

  lemma MaskCpfLayout(d: string)
    requires AllDigits(d)
    ensures MaskCpf(d) == CpfLayout(d)
  {
    var n := |d|;
    if n < 4 {
      ReplaceDigits(d, 3, 4, "", ".");
      ReplaceDigits(d, 3, 4, "", "-");
      CutNoDash(d, 2);
      return;
    }
    var p1 := d[..3] + ".";
    InsertFirst(d, 3, 4, ".");
    if n < 7 {
      KeepNext(p1, d[3..], 3, 4, ".");
      KeepNext(p1, d[3..], 3, 4, "-");
      CutNoDash(p1 + d[3..], 2);
    } else {
      var p2 := p1 + d[3..6] + ".";
      InsertNext(p1, d[3..], 3, 4, ".");
      assert d[3..][..3] == d[3..6] && d[3..][3..] == d[6..];
      CpfLast(d, p2);
    }
  }

  /** The last replacement, after `000.000.`. */
  lemma CpfLast(d: string, p2: string)
    requires AllDigits(d) && |d| >= 7
    requires p2 == d[..3] + "." + d[3..6] + "."
    requires NoRun(p2, 4) && Closed(p2)
    ensures CutTail(Replace(p2 + d[6..], 3, 4, "", "-"), 2) == CpfLayout(d)
  {
    var n := |d|;
    if n < 10 {
      KeepNext(p2, d[6..], 3, 4, "-");
      CutNoDash(p2 + d[6..], 2);
      return;
    }
    var p3 := p2 + d[6..9];
    InsertNext(p2, d[6..], 3, 4, "-");
    assert d[6..][..3] == d[6..9] && d[6..][3..] == d[9..];
    assert NoDash(p3);
    CutAfter(p3, d[9..], 2);
    if n > 11 {
      assert d[9..][..2] == d[9..11];
    } else {
      assert d[9..] == d[9..n];
    }
  }

  /** 00.000.000/0000-00, cut short as digits run out. */
  function CnpjLayout(d: string): string
  {
    var n := |d|;
    if n <= 2 then d
    else if n <= 5 then d[..2] + "." + d[2..]
    else if n <= 8 then d[..2] + "." + d[2..5] + "." + d[5..]
    else if n <= 12 then d[..2] + "." + d[2..5] + "." + d[5..8] + "/" + d[8..]
    else d[..2] + "." + d[2..5] + "." + d[5..8] + "/" + d[8..12] + "-" + d[12..Min(n, 14)]
  }

  lemma MaskCnpjLayout(d: string)
    requires AllDigits(d)
    ensures MaskCnpj(d) == CnpjLayout(d)
  {
    var n := |d|;
    if n < 3 {
      ReplaceDigits(d, 2, 3, "", ".");
      ReplaceDigits(d, 3, 4, "", ".");
      ReplaceDigits(d, 4, 5, "", "-");
      CutNoDash(d, 2);
      return;
    }
    var p1 := d[..2] + ".";
    InsertFirst(d, 2, 3, ".");
    NoRunWider(p1, 3, 4);
    NoRunWider(p1, 3, 5);
    if n < 6 {
      KeepNext(p1, d[2..], 3, 4, ".");
      KeepNext(p1, d[2..], 3, 4, "/");
      KeepNext(p1, d[2..], 4, 5, "-");
      CutNoDash(p1 + d[2..], 2);
    } else {
      CnpjFromSix(d);
    }
  }

  /** The CNPJ mask once the second replacement applies. */
  lemma CnpjFromSix(d: string)
    requires AllDigits(d) && |d| >= 6
    ensures MaskCnpj(d) == CnpjLayout(d)
  {
    var n := |d|;
    var p1 := d[..2] + ".";
    InsertFirst(d, 2, 3, ".");
    NoRunWider(p1, 3, 4);
    var p2 := p1 + d[2..5] + ".";
    InsertNext(p1, d[2..], 3, 4, ".");
    assert d[2..][..3] == d[2..5] && d[2..][3..] == d[5..];
    NoRunWider(p2, 4, 5);
    if n < 9 {
      KeepNext(p2, d[5..], 3, 4, "/");
      KeepNext(p2, d[5..], 4, 5, "-");
      CutNoDash(p2 + d[5..], 2);
    } else {
      var p3 := p2 + d[5..8] + "/";
      InsertNext(p2, d[5..], 3, 4, "/");
      assert d[5..][..3] == d[5..8] && d[5..][3..] == d[8..];
      CnpjLast(d, p3);
    }
  }

  /** The last two replacements, after `00.000.000/`. */
  lemma CnpjLast(d: string, p3: string)
    requires AllDigits(d) && |d| >= 9
    requires p3 == d[..2] + "." + d[2..5] + "." + d[5..8] + "/"
    requires NoRun(p3, 4) && Closed(p3)
    ensures CutTail(Replace(p3 + d[8..], 4, 5, "", "-"), 2) == CnpjLayout(d)
  {
    var n := |d|;
    NoRunWider(p3, 4, 5);
    if n < 13 {
      KeepNext(p3, d[8..], 4, 5, "-");
      CutNoDash(p3 + d[8..], 2);
      return;
    }
    var p4 := p3 + d[8..12];
    InsertNext(p3, d[8..], 4, 5, "-");
    assert d[8..][..4] == d[8..12] && d[8..][4..] == d[12..];
    assert NoDash(p4);
    CutAfter(p4, d[12..], 2);
    if n > 14 {
      assert d[12..][..2] == d[12..14];
    } else {
      assert d[12..] == d[12..n];
    }
  }

  /** (00) 00000-0000 as written: the hyphen always follows five digits. */
  function PhoneLayout(d: string): string
  {
    var n := |d|;
    if n <= 2 then d
    else if n <= 7 then "(" + d[..2] + ") " + d[2..]
    else "(" + d[..2] + ") " + d[2..7] + "-" + d[7..Min(n, 11)]
  }

  lemma MaskPhoneLayout(d: string)
    requires AllDigits(d)
    ensures MaskPhone(d) == PhoneLayout(d)
  {
    var n := |d|;
    ReplaceDigits(d, 2, 3, "(", ") ");
    if n < 3 {
      ReplaceDigits(d, 5, 6, "", "-");
      CutNoDash(d, 4);
    } else {
      var p1 := "(" + d[..2] + ") ";
      NoRunUnit("(", d[..2], ") ", 3);
      NoRunWider(p1, 3, 6);
      PhoneLast(d, p1);
    }
  }

  /** The hyphen replacement, after `(00) `. */
  lemma PhoneLast(d: string, p1: string)
    requires AllDigits(d) && |d| >= 3
    requires p1 == "(" + d[..2] + ") "
    requires NoRun(p1, 6) && Closed(p1)
    ensures CutTail(Replace(p1 + d[2..], 5, 6, "", "-"), 4) == PhoneLayout(d)
  {
    var n := |d|;
    if n < 8 {
      KeepNext(p1, d[2..], 5, 6, "-");
      CutNoDash(p1 + d[2..], 4);
      return;
    }
    var p2 := p1 + d[2..7];
    InsertNext(p1, d[2..], 5, 6, "-");
    assert d[2..][..5] == d[2..7] && d[2..][5..] == d[7..];
    assert NoDash(p2);
    CutAfter(p2, d[7..], 4);
    if n > 11 {
      assert d[7..][..4] == d[7..11];
    } else {
      assert d[7..] == d[7..n];
    }
  }

  /** 00000-000, cut short as digits run out. */
  function CepLayout(d: string): string
  {
    var n := |d|;
    if n <= 5 then d
    else d[..5] + "-" + d[5..Min(n, 8)]
  }

  lemma MaskCepLayout(d: string)
    requires AllDigits(d)
    ensures MaskCep(d) == CepLayout(d)
  {
    var n := |d|;
    if n < 6 {
      ReplaceDigits(d, 5, 6, "", "-");
      CutNoDash(d, 3);
      return;
    }
    assert Replace(d, 5, 6, "", "-") == d[..5] + "-" + d[5..] by {
      ReplaceDigits(d, 5, 6, "", "-");
    }
    assert NoDash(d[..5]);
    CutAfter(d[..5], d[5..], 3);
    if n > 8 {
      assert d[5..][..3] == d[5..8];
    } else {
      assert d[5..] == d[5..n];
    }
  }

  // ---------------------------------------------------------------------------
  // What the masks keep
  // ---------------------------------------------------------------------------

  lemma {:induction false} DigitsOfNone(s: string)
    requires NoDigits(s)
    ensures DigitsOf(s) == []
  {
    if s != [] {
      DigitsOfNone(s[1..]);
    }
  }

  /** Punctuation between digit groups disappears when the digits are taken back. */
  lemma DigitsJoin(a: string, sep: string, b: string)
    requires NoDigits(sep) && AllDigits(b)
    ensures DigitsOf(a + sep + b) == DigitsOf(a) + b
  {
    DigitsOfAppend(a + sep, b);
    DigitsOfAppend(a, sep);
    DigitsOfNone(sep);
    DigitsOfAllDigits(b);
  }

  /** A CPF layout holds the first eleven digits, and only depends on them. */
  lemma CpfLayoutDigits(d: string)
    requires AllDigits(d)
    ensures DigitsOf(CpfLayout(d)) == d[..Min(|d|, 11)]
    ensures CpfLayout(d[..Min(|d|, 11)]) == CpfLayout(d)
  {
    var n := |d|;
    var e := d[..Min(n, 11)];
    if n <= 3 {
      DigitsOfAllDigits(d);
    } else {
      DigitsOfAllDigits(d[..3]);
      DigitsJoin(d[..3], ".", d[3..Min(n, 6)]);
      assert d[..3] + d[3..Min(n, 6)] == d[..Min(n, 6)];
      if n > 6 {
        CpfLayoutDigitsLong(d);
      } else {
        assert d[3..n] == d[3..] && d[..n] == d;
        assert d[..3] + d[3..] == d;
      }
    }
  }

  lemma CpfLayoutDigitsLong(d: string)
    requires AllDigits(d) && |d| > 6
    requires DigitsOf(d[..3] + "." + d[3..6]) == d[..6]
    ensures DigitsOf(CpfLayout(d)) == d[..Min(|d|, 11)]
    ensures CpfLayout(d[..Min(|d|, 11)]) == CpfLayout(d)
  {
    var n := |d|;
    var e := d[..Min(n, 11)];
    DigitsJoin(d[..3] + "." + d[3..6], ".", d[6..Min(n, 9)]);
    if n > 9 {
      DigitsJoin(d[..3] + "." + d[3..6] + "." + d[6..9], "-", d[9..Min(n, 11)]);
      assert d[..6] + d[6..9] + d[9..Min(n, 11)] == e;
      assert e[..3] == d[..3] && e[3..6] == d[3..6] && e[6..9] == d[6..9] && e[9..] == d[9..Min(n, 11)];
    } else {
      assert d[6..n] == d[6..] && d[..n] == d;
      assert d[..6] + d[6..] == d;
    }
  }

  /** A CNPJ layout holds the first fourteen digits, and only depends on them. */
  lemma CnpjLayoutDigits(d: string)
    requires AllDigits(d)
    ensures DigitsOf(CnpjLayout(d)) == d[..Min(|d|, 14)]
    ensures CnpjLayout(d[..Min(|d|, 14)]) == CnpjLayout(d)
  {
    var n := |d|;
    var e := d[..Min(n, 14)];
    if n <= 2 {
      DigitsOfAllDigits(d);
    } else {
      DigitsOfAllDigits(d[..2]);
      DigitsJoin(d[..2], ".", d[2..Min(n, 5)]);
      if n <= 5 {
        assert d[2..n] == d[2..] && d[..n] == d;
        assert d[..2] + d[2..] == d;
      } else {
        DigitsJoin(d[..2] + "." + d[2..5], ".", d[5..Min(n, 8)]);
        if n <= 8 {
          assert d[5..n] == d[5..] && d[..n] == d;
          assert d[..2] + d[2..5] + d[5..] == d;
        } else {
          CnpjLayoutDigitsLong(d);
        }
      }
    }
  }

  lemma CnpjLayoutDigitsLong(d: string)
    requires AllDigits(d) && |d| > 8
    requires DigitsOf(d[..2] + "." + d[2..5] + "." + d[5..8]) == d[..8]
    ensures DigitsOf(CnpjLayout(d)) == d[..Min(|d|, 14)]
    ensures CnpjLayout(d[..Min(|d|, 14)]) == CnpjLayout(d)
  {
    var n := |d|;
    var e := d[..Min(n, 14)];
    var p := d[..2] + "." + d[2..5] + "." + d[5..8];
    DigitsJoin(p, "/", d[8..Min(n, 12)]);
    if n <= 12 {
      assert d[8..n] == d[8..] && d[..n] == d;
      assert d[..8] + d[8..] == d;
    } else {
      DigitsJoin(p + "/" + d[8..12], "-", d[12..Min(n, 14)]);
      assert d[..8] + d[8..12] + d[12..Min(n, 14)] == e;
      assert e[..2] == d[..2] && e[2..5] == d[2..5] && e[5..8] == d[5..8];
      assert e[8..12] == d[8..12] && e[12..] == d[12..Min(n, 14)];
    }
  }

  /** A phone layout holds the first eleven digits, and only depends on them. */
  lemma PhoneLayoutDigits(d: string)
    requires AllDigits(d)
    ensures DigitsOf(PhoneLayout(d)) == d[..Min(|d|, 11)]
    ensures PhoneLayout(d[..Min(|d|, 11)]) == PhoneLayout(d)
  {
    var n := |d|;
    var e := d[..Min(n, 11)];
    if n <= 2 {
      DigitsOfAllDigits(d);
    } else {
      assert DigitsOf("(") == [];
      DigitsJoin("(", [], d[..2]);
      assert "(" + [] + d[..2] == "(" + d[..2];
      DigitsJoin("(" + d[..2], ") ", d[2..Min(n, 7)]);
      if n <= 7 {
        assert d[2..n] == d[2..] && d[..n] == d;
        assert d[..2] + d[2..] == d;
      } else {
        DigitsJoin("(" + d[..2] + ") " + d[2..7], "-", d[7..Min(n, 11)]);
        assert d[..2] + d[2..7] + d[7..Min(n, 11)] == e;
        assert e[..2] == d[..2] && e[2..7] == d[2..7] && e[7..] == d[7..Min(n, 11)];
      }
    }
  }

  /** A CEP layout holds the first eight digits, and only depends on them. */
  lemma CepLayoutDigits(d: string)
    requires AllDigits(d)
    ensures DigitsOf(CepLayout(d)) == d[..Min(|d|, 8)]
    ensures CepLayout(d[..Min(|d|, 8)]) == CepLayout(d)
  {
    var n := |d|;
    var e := d[..Min(n, 8)];
    if n <= 5 {
      DigitsOfAllDigits(d);
    } else {
      DigitsOfAllDigits(d[..5]);
      DigitsJoin(d[..5], "-", d[5..Min(n, 8)]);
      assert d[..5] + d[5..Min(n, 8)] == e;
      assert e[..5] == d[..5] && e[5..] == d[5..Min(n, 8)];
    }
  }

  /** How many digits each mask keeps. */
  function KeptDigits(maskType: string): nat
  {
    if maskType == "cpf" || maskType == "phone" then 11
    else if maskType == "cnpj" then 14
    else 8
  }

  /** A masked value keeps the first digits of the value, as many as the mask has
      room for, and masking it again changes nothing: the field re-masks its own
      text on every keystroke. */
  lemma MaskStable(value: string, maskType: string, currency: string -> string)
    requires maskType in {"cpf", "cnpj", "phone", "cep"}
    ensures var d := DigitsOf(value); var r := ApplyMask(value, maskType, currency);
      && DigitsOf(r) == d[..Min(|d|, KeptDigits(maskType))]
      && ApplyMask(r, maskType, currency) == r
  {
    var d := DigitsOf(value);
    var e := d[..Min(|d|, KeptDigits(maskType))];
    if maskType == "cpf" {
      MaskCpfLayout(d);
      CpfLayoutDigits(d);
      MaskCpfLayout(e);
    } else if maskType == "cnpj" {
      MaskCnpjLayout(d);
      CnpjLayoutDigits(d);
      MaskCnpjLayout(e);
    } else if maskType == "phone" {
      MaskPhoneLayout(d);
      PhoneLayoutDigits(d);
      MaskPhoneLayout(e);
    } else {
      MaskCepLayout(d);
      CepLayoutDigits(d);
      MaskCepLayout(e);
    }
  }

  /** Masking a CPF or a CNPJ that is not longer than the mask does not change the
      verdict of the matching validation rule. */
  lemma MaskKeepsVerdict(value: string, currency: string -> string)
    ensures |DigitsOf(value)| <= 11 ==>
      (FormValidation.CpfValid(ApplyMask(value, "cpf", currency)) <==> FormValidation.CpfValid(value))
    ensures |DigitsOf(value)| <= 14 ==>
      (FormValidation.CnpjValid(ApplyMask(value, "cnpj", currency)) <==> FormValidation.CnpjValid(value))
  {
    var d := DigitsOf(value);
    MaskStable(value, "cpf", currency);
    MaskStable(value, "cnpj", currency);
    assert d[..|d|] == d;
  }

  // ---------------------------------------------------------------------------
  // The phone mask against the phone rule
  // ---------------------------------------------------------------------------

  /** `(aa) b-c` with two, four or five, and four digits passes the phone rule. */
  lemma PhoneShape(a: string, b: string, c: string)
    requires AllDigits(a) && AllDigits(b) && AllDigits(c)
    requires |a| == 2 && (|b| == 4 || |b| == 5) && |c| == 4
    ensures FormValidation.PhoneOk("(" + a + ") " + b + "-" + c)
  {
    var s := "(" + a + ") " + b + "-" + c;
    assert s[1..3] == a && s[5..|s| - 5] == b && s[|s| - 4..] == c;
    assert s[3] == ')' && s[4] == ' ' && s[|s| - 5] == '-';
  }

  /** Eleven digits or more: the written mask gives a phone the rule accepts. */
  lemma MaskPhoneEleven(d: string)
    requires AllDigits(d) && |d| >= 11
    ensures FormValidation.PhoneOk(MaskPhone(d))
  {
    MaskPhoneLayout(d);
    PhoneShape(d[..2], d[2..7], d[7..11]);
  }

  /** Ten digits (a landline with its area code): the written mask puts the hyphen
      after five digits and leaves three after it, which the phone rule refuses. */
  lemma MaskPhoneTen(d: string)
    requires AllDigits(d) && |d| == 10
    ensures !FormValidation.PhoneOk(MaskPhone(d))
  {
    MaskPhoneLayout(d);
    var s := PhoneLayout(d);
    assert s == "(" + d[..2] + ") " + d[2..7] + "-" + d[7..10];
    assert |s| == 14 && s[9] == d[6];
  }

  /** The phone mask the rule expects: the hyphen before the last four digits once
      the number has ten of them, `(00) 0000-0000` or `(00) 00000-0000`. */
  function MaskPhoneIntended(d: string): string
  {
    var n := |d|;
    if n <= 2 then d
    else if n <= 6 then "(" + d[..2] + ") " + d[2..]
    else if n <= 10 then "(" + d[..2] + ") " + d[2..6] + "-" + d[6..]
    else "(" + d[..2] + ") " + d[2..7] + "-" + d[7..11]
  }

  /** With ten digits or more the intended mask passes the phone rule. */
  lemma MaskPhoneIntendedOk(d: string)
    requires AllDigits(d) && |d| >= 10
    ensures FormValidation.PhoneOk(MaskPhoneIntended(d))
  {
    if |d| == 10 {
      PhoneShape(d[..2], d[2..6], d[6..]);
    } else {
      PhoneShape(d[..2], d[2..7], d[7..11]);
    }
  }

  /** The intended mask keeps the first eleven digits, and differs from the written
      mask only for seven to ten digits. */
  lemma MaskPhoneIntendedDigits(d: string)
    requires AllDigits(d)
    ensures DigitsOf(MaskPhoneIntended(d)) == d[..Min(|d|, 11)]
    ensures (|d| <= 6 || |d| >= 11) ==> MaskPhoneIntended(d) == MaskPhone(d)
  {
    var n := |d|;
    if 6 < n <= 10 {
      PhoneIntendedMidDigits(d);
    } else {
      MaskPhoneLayout(d);
      PhoneLayoutDigits(d);
    }
  }

  lemma PhoneIntendedMidDigits(d: string)
    requires AllDigits(d) && 6 < |d| <= 10
    ensures DigitsOf(MaskPhoneIntended(d)) == d
  {
    assert DigitsOf("(") == [];
    DigitsJoin("(", [], d[..2]);
    assert "(" + [] + d[..2] == "(" + d[..2];
    DigitsJoin("(" + d[..2], ") ", d[2..6]);
    DigitsJoin("(" + d[..2] + ") " + d[2..6], "-", d[6..]);
    assert d[..2] + d[2..6] + d[6..] == d;
  }
}
