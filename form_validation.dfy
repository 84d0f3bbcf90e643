/**
 * Form validation on the frontend (sistema-paineis-tv/src/components/ui/FormValidation.tsx):
 * the stock rules a field can carry — CPF and CNPJ check digits, lengths, password
 * confirmation, digit-only and alphanumeric values, e-mail, password and phone
 * shapes — and `FormField.validate`, which collects the messages of a field.
 */
module FormValidation {
  import opened Text

  /** `ValidationRule`: a test on the value and the message shown when it fails. */
  datatype Rule = Rule(test: string -> bool, message: string)

  // ---------------------------------------------------------------------------
  // CPF and CNPJ
  // ---------------------------------------------------------------------------

  /** `^(\d)\1{n}$` on a string of digits: every digit equals the first. */
  predicate AllSame(d: string)
  {
    forall i :: 0 <= i < |d| ==> d[i] == d[0]
  }

  /** The check digit of a weighted sum, modulo 11: 0 when the remainder is 0 or 1,
      else 11 minus the remainder. */
  function Mod11Check(sum: int): (c: nat)
    ensures c < 10
  {
    if sum % 11 < 2 then 0 else 11 - sum % 11
  }

  /** The first `n` CPF digits weighted `top`, `top - 1`, ... */
  function CpfSum(d: string, n: nat, top: nat): nat
    requires AllDigits(d) && n <= |d| && n <= top
  {
    if n == 0 then 0 else CpfSum(d, n - 1, top) + DigitValue(d[n - 1]) * (top - (n - 1))
  }

  /** A CPF: the digits of the value (anything else ignored) are eleven, not all
      the same, and the last two are the check digits of the nine and ten before. */
  predicate CpfValid(value: string)
  {
    var d := DigitsOf(value);
    && |d| == 11 && !AllSame(d)
    && DigitValue(d[9]) == Mod11Check(CpfSum(d, 9, 10))
    && DigitValue(d[10]) == Mod11Check(CpfSum(d, 10, 11))
  }

  /** The remainder the CPF rule computes, `(sum * 10) % 11` with 10 and 11 read
      as 0, is the mod-11 check digit. */
  lemma CpfRemainderIsCheck(sum: nat)
    ensures var r := (sum * 10) % 11; (if r == 10 || r == 11 then 0 else r) == Mod11Check(sum)
  {
    var q, m := sum / 11, sum % 11;
    assert sum == 11 * q + m;
    if m == 0 {
      assert sum * 10 == 11 * (10 * q);
    } else {
      assert sum * 10 == 11 * (10 * q + m - 1) + (11 - m);
    }
  }

  /** `validationRules.cpf.test`. */
  method CpfTest(value: string) returns (ok: bool)
    ensures ok == CpfValid(value)
  {
    var cpf := DigitsOf(value);
    if |cpf| != 11 {
      return false;
    }
    if AllSame(cpf) {
      return false;
    }
    var sum := 0;
    for i := 0 to 9
      invariant sum == CpfSum(cpf, i, 10)
    {
      sum := sum + DigitValue(cpf[i]) * (10 - i);
    }
    var remainder := (sum * 10) % 11;
    if remainder == 10 || remainder == 11 {
      remainder := 0;
    }
    CpfRemainderIsCheck(sum);
    if remainder != DigitValue(cpf[9]) {
      return false;
    }
    sum := 0;
    for i := 0 to 10
      invariant sum == CpfSum(cpf, i, 11)
    {
      sum := sum + DigitValue(cpf[i]) * (11 - i);
    }
    remainder := (sum * 10) % 11;
    if remainder == 10 || remainder == 11 {
      remainder := 0;
    }
    CpfRemainderIsCheck(sum);
    ok := remainder == DigitValue(cpf[10]);
  }

  /** The weight of digit `k` of `n` in a CNPJ sum: 2 for the last, rising to 9
      and starting again at 2, from right to left. */
  function CnpjWeight(n: nat, k: nat): nat
    requires k < n
  {
    2 + (n - 1 - k) % 8
  }

  /** The first `upto` of `n` digits, each times its CNPJ weight. */
  function CnpjSum(d: string, n: nat, upto: nat): nat
    requires AllDigits(d) && upto <= n <= |d|
  {
    if upto == 0 then 0 else CnpjSum(d, n, upto - 1) + DigitValue(d[upto - 1]) * CnpjWeight(n, upto - 1)
  }

  /** A CNPJ: fourteen digits, not all the same, the last two the check digits of
      the twelve and thirteen before. */
  predicate CnpjValid(value: string)
  {
    var d := DigitsOf(value);
    && |d| == 14 && !AllSame(d)
    && DigitValue(d[12]) == Mod11Check(CnpjSum(d, 12, 12))
    && DigitValue(d[13]) == Mod11Check(CnpjSum(d, 13, 13))
  }

  /** Counting `pos` down from 9 to 2 and back to 9 walks the weights. */
  lemma CnpjWeightStep(n: nat, k: nat)
    requires k + 1 < n
    ensures CnpjWeight(n, k + 1) == if CnpjWeight(n, k) - 1 < 2 then 9 else CnpjWeight(n, k) - 1
  {
    var m := (n - 1 - k) % 8;
    assert n - 1 - k == 8 * ((n - 1 - k) / 8) + m;
    if m == 0 {
      assert n - 2 - k == 8 * ((n - 1 - k) / 8 - 1) + 7;
    } else {
      assert n - 2 - k == 8 * ((n - 1 - k) / 8) + (m - 1);
    }
  }

  /** One loop of the CNPJ rule: the digits of `numbers` times a weight `pos` that
      starts at `length - 7`, counts down and wraps from 1 to 9. */
  method CnpjLoop(numbers: string) returns (sum: nat)
    requires AllDigits(numbers) && (|numbers| == 12 || |numbers| == 13)
    ensures sum == CnpjSum(numbers, |numbers|, |numbers|)
  {
    var length := |numbers|;
    sum := 0;
    var pos := length - 7;
    var i := length;
    while i >= 1
      invariant 0 <= i <= length
      invariant sum == CnpjSum(numbers, length, length - i)
      invariant i >= 1 ==> pos == CnpjWeight(length, length - i)
    {
      ghost var k := length - i;
      assert CnpjSum(numbers, length, k + 1) == CnpjSum(numbers, length, k) + DigitValue(numbers[k]) * CnpjWeight(length, k);
      sum := sum + DigitValue(numbers[length - i]) * pos;
      if i > 1 {
        CnpjWeightStep(length, length - i);
      }
      pos := pos - 1;
      if pos < 2 {
        pos := 9;
      }
      i := i - 1;
    }
  }

  lemma CnpjSumPrefix(d: string, n: nat, upto: nat, m: nat)
    requires AllDigits(d) && upto <= n <= m <= |d|
    ensures CnpjSum(d[..m], n, upto) == CnpjSum(d, n, upto)
  {
    if upto > 0 {
      CnpjSumPrefix(d, n, upto - 1, m);
    }
  }

  /** `validationRules.cnpj.test`. */
  method CnpjTest(value: string) returns (ok: bool)
    ensures ok == CnpjValid(value)
  {
    var cnpj := DigitsOf(value);
    if |cnpj| != 14 {
      return false;
    }
    if AllSame(cnpj) {
      return false;
    }
    var length := |cnpj| - 2;
    var numbers := cnpj[..length];
    var digits := cnpj[length..];
    var sum := CnpjLoop(numbers);
    CnpjSumPrefix(cnpj, 12, 12, 12);
    var result := if sum % 11 < 2 then 0 else 11 - sum % 11;
    if result != DigitValue(digits[0]) {
      return false;
    }
    length := length + 1;
    numbers := cnpj[..length];
    sum := CnpjLoop(numbers);
    CnpjSumPrefix(cnpj, 13, 13, 13);
    result := if sum % 11 < 2 then 0 else 11 - sum % 11;
    ok := result == DigitValue(digits[1]);
  }

  /** Both verdicts read only the digits: a character that is not a digit can be
      put anywhere in the value without changing them. */
  lemma VerdictsIgnoreNonDigits(a: string, c: char, b: string)
    requires !IsDigit(c)
    ensures CpfValid(a + [c] + b) == CpfValid(a + b)
    ensures CnpjValid(a + [c] + b) == CnpjValid(a + b)
  {
    DigitsOfAppend(a + [c], b);
    DigitsOfAppend(a, [c]);
    DigitsOfAppend(a, b);
    assert DigitsOf([c]) == [];
    assert DigitsOf(a + [c] + b) == DigitsOf(a + b);
  }

  // ---------------------------------------------------------------------------
  // The other stock rules
  // ---------------------------------------------------------------------------

  /** `[^\s@]`. */
  predicate EmailChar(c: char) { !IsJsSpace(c) && c != '@' }

  predicate EmailChars(s: string) { forall i :: 0 <= i < |s| ==> EmailChar(s[i]) }

  /** `^[^\s@]+@[^\s@]+\.[^\s@]+$`. */
  predicate EmailOk(s: string)
  {
    exists k, j :: 0 < k && k + 1 < j < |s| - 1 && s[k] == '@' && s[j] == '.'
      && EmailChars(s[..k]) && EmailChars(s[k + 1..j]) && EmailChars(s[j + 1..])
  }

  predicate PasswordSymbol(c: char) { c in "@$!%*?&" }

  /** `^(?=.*[a-z])(?=.*[A-Z])(?=.*\d)(?=.*[@$!%*?&])[A-Za-z\d@$!%*?&]{8,}$`. */
  predicate PasswordOk(s: string)
  {
    && |s| >= 8
    && (forall i :: 0 <= i < |s| ==> IsAsciiAlnum(s[i]) || PasswordSymbol(s[i]))
    && (exists i :: 0 <= i < |s| && IsAsciiLower(s[i]))
    && (exists i :: 0 <= i < |s| && IsAsciiUpper(s[i]))
    && (exists i :: 0 <= i < |s| && IsDigit(s[i]))
    && (exists i :: 0 <= i < |s| && PasswordSymbol(s[i]))
  }

  /** `^\(\d{2}\)\s\d{4,5}-\d{4}$`. */
  predicate PhoneOk(s: string)
  {
    && (|s| == 14 || |s| == 15)
    && s[0] == '(' && AllDigits(s[1..3]) && s[3] == ')' && IsJsSpace(s[4])
    && AllDigits(s[5..|s| - 5]) && s[|s| - 5] == '-' && AllDigits(s[|s| - 4..])
  }

  /** A phone the rule accepts has ten or eleven digits. */
  lemma PhoneDigits(s: string)
    requires PhoneOk(s)
    ensures |DigitsOf(s)| == |s| - 4
  {
    assert s == s[..1] + s[1..3] + s[3..5] + s[5..|s| - 5] + s[|s| - 5..|s| - 4] + s[|s| - 4..];
    DigitsOfAppend(s[..1] + s[1..3] + s[3..5] + s[5..|s| - 5] + s[|s| - 5..|s| - 4], s[|s| - 4..]);
    DigitsOfAppend(s[..1] + s[1..3] + s[3..5] + s[5..|s| - 5], s[|s| - 5..|s| - 4]);
    DigitsOfAppend(s[..1] + s[1..3] + s[3..5], s[5..|s| - 5]);
    DigitsOfAppend(s[..1] + s[1..3], s[3..5]);
    DigitsOfAppend(s[..1], s[1..3]);
    DigitsOfAllDigits(s[1..3]);
    DigitsOfAllDigits(s[5..|s| - 5]);
    DigitsOfAllDigits(s[|s| - 4..]);
    assert DigitsOf(s[..1]) == [];
    assert DigitsOf(s[3..5]) == [] by {
      assert !IsDigit(s[4]);
      assert s[3..5] == [s[3]] + [s[4]];
    }
    assert DigitsOf(s[|s| - 5..|s| - 4]) == [];
  }

  /** `^\d+$`. */
  predicate NumericOk(s: string) { |s| > 0 && AllDigits(s) }

  /** `^[a-zA-Z0-9]+$`. */
  predicate AlphanumericOk(s: string) { |s| > 0 && forall i :: 0 <= i < |s| ==> IsAsciiAlnum(s[i]) }

  const EmailRule := Rule(EmailOk, "Digite um email válido")
  const PasswordRule := Rule(PasswordOk, "Senha deve ter 8+ caracteres, incluindo maiúscula, minúscula, número e símbolo")
  const PhoneRule := Rule(PhoneOk, "Digite um telefone válido: (11) 99999-9999")
  const CpfRule := Rule(CpfValid, "Digite um CPF válido")
  const CnpjRule := Rule(CnpjValid, "Digite um CNPJ válido")
  const NumericRule := Rule(NumericOk, "Digite apenas números")
  const AlphanumericRule := Rule(AlphanumericOk, "Digite apenas letras e números")

  /** `validationRules.minLength(min)`. */
  function MinLength(min: nat): (r: Rule)
    ensures forall v :: r.test(v) <==> |v| >= min
  {
    Rule(v => |v| >= min, "Deve ter pelo menos " + NatToDecimal(min) + " caracteres")
  }

  /** `validationRules.maxLength(max)`. */
  function MaxLength(max: nat): (r: Rule)
    ensures forall v :: r.test(v) <==> |v| <= max
  {
    Rule(v => |v| <= max, "Deve ter no máximo " + NatToDecimal(max) + " caracteres")
  }

  /** `validationRules.confirmPassword(original)`. */
  function ConfirmPassword(original: string): (r: Rule)
    ensures forall v :: r.test(v) <==> v == original
  {
    Rule(v => v == original, "As senhas não coincidem")
  }

  /** Digits are alphanumeric: whatever the numeric rule accepts, so does the
      alphanumeric rule, and a value passes both length rules for `n` exactly when
      it is `n` long. */
  lemma RuleRelations(v: string, n: nat)
    ensures NumericRule.test(v) ==> AlphanumericRule.test(v)
    ensures MinLength(n).test(v) && MaxLength(n).test(v) <==> |v| == n
  {
  }

  // ---------------------------------------------------------------------------
  // A field
  // ---------------------------------------------------------------------------

  /** The messages of the rules `val` fails, in rule order; none for an empty value. */
  function FailedMessages(rules: seq<Rule>, val: string): seq<string>
  {
    if rules == [] then []
    else
      var last := rules[|rules| - 1];
      FailedMessages(rules[..|rules| - 1], val) + (if val != [] && !last.test(val) then [last.message] else [])
  }

  /** The message of a required field left blank. */
  function RequiredMessage(fieldLabel: string): string { fieldLabel + " é obrigatório" }

  /** The messages `validate` collects. */
  function FieldErrors(fieldLabel: string, required: bool, rules: seq<Rule>, val: string): seq<string>
  {
    (if required && JsTrim(val) == [] then [RequiredMessage(fieldLabel)] else []) + FailedMessages(rules, val)
  }

  /** One message per failed rule, in rule order; an empty value fails none. */
  lemma {:induction false} FailedMessagesSpec(rules: seq<Rule>, val: string)
    ensures val == [] ==> FailedMessages(rules, val) == []
    ensures FailedMessages(rules, val) == [] <==> val == [] || forall i :: 0 <= i < |rules| ==> rules[i].test(val)
    ensures forall i :: 0 <= i < |rules| && val != [] && !rules[i].test(val) ==> rules[i].message in FailedMessages(rules, val)
    ensures forall m :: m in FailedMessages(rules, val) ==> exists i :: 0 <= i < |rules| && rules[i].message == m && !rules[i].test(val)
  {
    if rules != [] {
      var init := rules[..|rules| - 1];
      FailedMessagesSpec(init, val);
      assert forall i :: 0 <= i < |init| ==> init[i] == rules[i];
    }
  }

  /** The field is valid iff it is not a blank required field and a non-empty value
      passes every rule; a blank required field gets "<label> é obrigatório" first. */
  lemma FieldErrorsSpec(fieldLabel: string, required: bool, rules: seq<Rule>, val: string)
    ensures FieldErrors(fieldLabel, required, rules, val) == [] <==>
      !(required && JsTrim(val) == []) && (val == [] || forall i :: 0 <= i < |rules| ==> rules[i].test(val))
    ensures required && JsTrim(val) == [] ==> FieldErrors(fieldLabel, required, rules, val)[0] == RequiredMessage(fieldLabel)
    ensures val == [] ==> FieldErrors(fieldLabel, required, rules, val) == if required then [RequiredMessage(fieldLabel)] else []
  {
    FailedMessagesSpec(rules, val);
    if val == [] {
      assert JsTrim(val) == [];
    }
  }

  /** `FormField` as far as validation goes: its fieldLabel, whether it is required, its
      rules, and the messages of the last validation. */
  class FormField {
    const fieldLabel: string
    const required: bool
    const rules: seq<Rule>
    var errors: seq<string>

    constructor (fieldLabel: string, required: bool, rules: seq<Rule>)
      ensures this.fieldLabel == fieldLabel && this.required == required && this.rules == rules
      ensures errors == []
    {
      this.fieldLabel := fieldLabel;
      this.required := required;
      this.rules := rules;
      errors := [];
    }

    /** `validate(val)`: stores the messages and answers whether there are none. */
    method Validate(val: string) returns (ok: bool)
      modifies this
      ensures errors == FieldErrors(fieldLabel, required, rules, val)
      ensures ok <==> errors == []
    {
      var newErrors: seq<string> := [];
      if required && JsTrim(val) == [] {
        newErrors := newErrors + [RequiredMessage(fieldLabel)];
      }
      for n := 0 to |rules|
        invariant newErrors == (if required && JsTrim(val) == [] then [RequiredMessage(fieldLabel)] else []) + FailedMessages(rules[..n], val)
      {
        var rule := rules[n];
        assert rules[..n + 1][..n] == rules[..n];
        if val != [] && !rule.test(val) {
          newErrors := newErrors + [rule.message];
        }
      }
      assert rules[..|rules|] == rules;
      errors := newErrors;
      ok := |newErrors| == 0;
    }
  }
}
