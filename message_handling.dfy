/**
 * The validation rules of the frontend message hooks and the field check that
 * runs them (sistema-paineis-tv/src/hooks/useMessageHandling.ts).  A rule takes
 * any JavaScript value and answers null, a message, or throws; the field check
 * records the first real message per field.  `Number(s)` on a string is the
 * parameter `parse`, and numbers are reals or NaN.
 */
module MessageHandling {
  import opened Text
  import ProductCode

  datatype Num = NaN | Real(value: real)

  /** The JavaScript values a rule can be given. */
  datatype JsValue = Undefined | Null | Bool(b: bool) | Number(n: Num) | Str(s: string)

  /** JavaScript truthiness. */
  predicate Truthy(v: JsValue)
  {
    match v
    case Undefined => false
    case Null => false
    case Bool(b) => b
    case Number(n) => n.Real? && n.value != 0.0
    case Str(s) => s != ""
  }

  /** `Number(value)`. */
  function ToNumber(v: JsValue, parse: string -> Num): Num
  {
    match v
    case Undefined => NaN
    case Null => Real(0.0)
    case Bool(b) => Real(if b then 1.0 else 0.0)
    case Number(n) => n
    case Str(s) => parse(s)
  }

  /** A rule's answer: null, a message, or an exception. */
  datatype Verdict = Pass | Message(text: string) | Throws

  type Rule = JsValue -> Verdict

  /** `String(n)` for an integer. */
  function IntToDecimal(i: int): string
  {
    if i < 0 then "-" + NatToDecimal(-i) else NatToDecimal(i)
  }

  /** `message || fallback` for an optional message. */
  function OrDefault(message: Option<string>, fallback: string): string
  {
    if message.Some? && message.value != "" then message.value else fallback
  }

  /** `validationRules.required(message)`. */
  function Required(message: string): Rule
  {
    v => if !Truthy(v) || (v.Str? && JsTrim(v.s) == "") then Message(message) else Pass
  }

  /** `validationRules.minLength(min, message)`: only strings have a length; any
      other value compares `undefined < min`, which is false. */
  function MinLength(min: int, message: Option<string>): Rule
  {
    v => if Truthy(v) && v.Str? && |v.s| < min then Message(OrDefault(message, "Mínimo " + IntToDecimal(min) + " caracteres")) else Pass
  }

  /** `validationRules.maxLength(max, message)`. */
  function MaxLength(max: int, message: Option<string>): Rule
  {
    v => if Truthy(v) && v.Str? && |v.s| > max then Message(OrDefault(message, "Máximo " + IntToDecimal(max) + " caracteres")) else Pass
  }

  /** `validationRules.numeric(message)`. */
  function Numeric(message: string, parse: string -> Num): Rule
  {
    v => if Truthy(v) && ToNumber(v, parse).NaN? then Message(message) else Pass
  }

  /** `validationRules.positive(message)`: `NaN <= 0` is false. */
  function Positive(message: string, parse: string -> Num): Rule
  {
    v => if Truthy(v) && ToNumber(v, parse).Real? && ToNumber(v, parse).value <= 0.0 then Message(message) else Pass
  }

  /** `validationRules.range(min, max, message)`. */
  function Range(min: int, max: int, message: Option<string>, parse: string -> Num): Rule
  {
    v =>
      var num := ToNumber(v, parse);
      if Truthy(v) && (num.NaN? || num.value < min as real || num.value > max as real)
      then Message(OrDefault(message, "Deve estar entre " + IntToDecimal(min) + " e " + IntToDecimal(max)))
      else Pass
  }

  /** `/^[A-Z0-9]+$/`. */
  predicate UpperAlnum(s: string)
  {
    s != "" && forall i :: 0 <= i < |s| ==> ProductCode.IsCodeChar(s[i])
  }

  /** `validationRules.codeFormat(message)`: a truthy value that is not a string
      has no `toUpperCase`, so the rule throws. */
  function CodeFormat(message: string): Rule
  {
    v =>
      if !Truthy(v) then Pass
      else if !v.Str? then Throws
      else if UpperAlnum(Upper(v.s)) then Pass
      else Message(message)
  }

  /** `required` answers with its message exactly for falsy values and blank
      strings, and never throws. */
  lemma RequiredSpec(message: string, v: JsValue)
    ensures Required(message)(v) != Throws
    ensures Required(message)(v) == Message(message) <==> !Truthy(v) || (v.Str? && JsTrim(v.s) == "")
  {
  }

  /** Every rule but `required` lets a falsy value through. */
  lemma FalsyPasses(v: JsValue, min: int, max: int, message: Option<string>, text: string, parse: string -> Num)
    requires !Truthy(v)
    ensures MinLength(min, message)(v) == Pass && MaxLength(max, message)(v) == Pass
    ensures Numeric(text, parse)(v) == Pass && Positive(text, parse)(v) == Pass
    ensures Range(min, max, message, parse)(v) == Pass && CodeFormat(text)(v) == Pass
  {
  }

  /** `positive` passes the number 0, which is falsy, but not the string "0", and
      refuses negative numbers. */
  lemma PositiveZero(message: string, parse: string -> Num, x: real)
    requires parse("0") == Real(0.0)
    ensures Positive(message, parse)(Number(Real(0.0))) == Pass
    ensures Positive(message, parse)(Str("0")) == Message(message)
    ensures x < 0.0 ==> Positive(message, parse)(Number(Real(x))) == Message(message)
  {
  }

  /** `range` answers with a message exactly for a truthy value that is not a
      number or lies outside [min, max]. */
  lemma RangeSpec(min: int, max: int, message: Option<string>, parse: string -> Num, v: JsValue)
    ensures Range(min, max, message, parse)(v).Message? <==>
      Truthy(v) && (ToNumber(v, parse).NaN? || !(min as real <= ToNumber(v, parse).value <= max as real))
    ensures Range(min, max, message, parse)(v) != Throws
  {
  }

  /** The length rules together: a non-empty string passes `minLength(n)` and
      `maxLength(n)` exactly when it has `n` characters. */
  lemma LengthRules(n: int, message: Option<string>, s: string)
    requires s != ""
    ensures MinLength(n, message)(Str(s)) == Pass && MaxLength(n, message)(Str(s)) == Pass <==> |s| == n
  {
  }

  /** One character upper-cases to A-Z and 0-9 only when it is an ASCII letter or
      digit or the sharp s. */
  lemma UpperCharCode(c: char)
    ensures (forall i :: 0 <= i < |UpperChar(c)| ==> ProductCode.IsCodeChar(UpperChar(c)[i]))
      <==> IsAsciiAlnum(c) || c == '\U{DF}'
  {
    if '\U{E0}' <= c <= '\U{FE}' && c != '\U{F7}' {
      assert !ProductCode.IsCodeChar(UpperChar(c)[0]);
    } else if c == '\U{FF}' {
      assert UpperChar(c)[0] == '\U{178}';
    } else if c == '\U{B5}' {
      assert UpperChar(c) == "\U{39C}";
      assert !ProductCode.IsCodeChar(UpperChar(c)[0]);
    } else if c != '\U{DF}' {
      assert |UpperChar(c)| == 1 && (ProductCode.IsCodeChar(UpperChar(c)[0]) <==> IsAsciiAlnum(c));
    }
  }

  /** The upper-cased string has only A-Z and 0-9 exactly when the string has only
      ASCII letters, digits and the sharp s, which upper-cases to "SS". */
  lemma {:induction false} UpperAlnumChars(s: string)
    ensures (forall i :: 0 <= i < |Upper(s)| ==> ProductCode.IsCodeChar(Upper(s)[i]))
      <==> forall i :: 0 <= i < |s| ==> IsAsciiAlnum(s[i]) || s[i] == '\U{DF}'
  {
    if s != [] {
      UpperAlnumChars(s[1..]);
      var u := UpperChar(s[0]);
      assert Upper(s) == u + Upper(s[1..]);
      var t := Upper(s[1..]);
      UpperCharCode(s[0]);
      assert Upper(s) == u + t;
      assert forall i :: 1 <= i < |s| ==> s[i] == s[1..][i - 1];
      assert (forall i :: 0 <= i < |u + t| ==> ProductCode.IsCodeChar((u + t)[i]))
        <==> (forall i :: 0 <= i < |u| ==> ProductCode.IsCodeChar(u[i])) && (forall i :: 0 <= i < |t| ==> ProductCode.IsCodeChar(t[i]))
      by {
        assert forall i :: 0 <= i < |u| ==> (u + t)[i] == u[i];
        assert forall i :: 0 <= i < |t| ==> (u + t)[|u| + i] == t[i];
      }
    }
  }

  /** `codeFormat` on a non-empty string passes exactly the strings of ASCII
      letters, digits and sharp s. */
  lemma CodeFormatSpec(message: string, s: string)
    requires s != ""
    ensures CodeFormat(message)(Str(s)) == Pass <==> forall i :: 0 <= i < |s| ==> IsAsciiAlnum(s[i]) || s[i] == '\U{DF}'
    ensures CodeFormat(message)(Str(s)) != Pass ==> CodeFormat(message)(Str(s)) == Message(message)
  {
    UpperAlnumChars(s);
    assert |Upper(s)| > 0 by {
      assert Upper(s) == UpperChar(s[0]) + Upper(s[1..]);
    }
  }

  // ---------------------------------------------------------------------------
  // Validating a field
  // ---------------------------------------------------------------------------

  /** A verdict that stops the check: an exception, or a message that is not empty
      (an empty message is falsy and counts as a pass). */
  predicate Stops(r: Verdict) { r.Throws? || (r.Message? && r.text != "") }

  /** The verdict of the first rule that stops the check, or `Pass`. */
  function FirstStop(rules: seq<Rule>, v: JsValue): (r: Verdict)
    ensures r == Pass || Stops(r)
  {
    if rules == [] then Pass
    else if Stops(rules[0](v)) then rules[0](v)
    else FirstStop(rules[1..], v)
  }

  /** The check passes exactly when no rule stops it; otherwise it stops at a rule
      all of whose predecessors passed. */
  lemma {:induction false} FirstStopSpec(rules: seq<Rule>, v: JsValue)
    ensures FirstStop(rules, v) == Pass <==> forall i :: 0 <= i < |rules| ==> !Stops(rules[i](v))
    ensures FirstStop(rules, v) != Pass ==>
      exists i :: 0 <= i < |rules| && rules[i](v) == FirstStop(rules, v) && forall j :: 0 <= j < i ==> !Stops(rules[j](v))
  {
    if rules != [] {
      FirstStopSpec(rules[1..], v);
      assert forall i :: 1 <= i < |rules| ==> rules[i] == rules[1..][i - 1];
      if !Stops(rules[0](v)) && FirstStop(rules, v) != Pass {
        var i :| 0 <= i < |rules[1..]| && rules[1..][i](v) == FirstStop(rules, v)
          && forall j :: 0 <= j < i ==> !Stops(rules[1..][j](v));
        assert rules[i + 1](v) == FirstStop(rules, v);
      }
    }
  }

  /** What `validateField` returns: null, the message, or the exception. */
  datatype Outcome = NoError | Error(message: string) | Raised

  /** `useFormValidation`: the error recorded per field. */
  class FormValidation {
    var validationErrors: map<string, string>

    constructor ()
      ensures validationErrors == map[]
    {
      validationErrors := map[];
    }

    /** `validateField(fieldName, value, rules)`: the first stopping rule's message
        is recorded and returned; when every rule passes the field's error is
        cleared; an exception leaves the errors as they were. */
    method ValidateField(fieldName: string, value: JsValue, rules: seq<Rule>) returns (outcome: Outcome)
      modifies this
      ensures FirstStop(rules, value).Message? ==>
        outcome == Error(FirstStop(rules, value).text) && HasErrors()
        && validationErrors == old(validationErrors)[fieldName := FirstStop(rules, value).text]
      ensures FirstStop(rules, value) == Pass ==>
        outcome == NoError && validationErrors == old(validationErrors) - {fieldName}
      ensures FirstStop(rules, value) == Throws ==>
        outcome == Raised && validationErrors == old(validationErrors)
    {
      for i := 0 to |rules|
        invariant FirstStop(rules, value) == FirstStop(rules[i..], value)
      {
        var error := rules[i](value);
        if error.Throws? {
          return Raised;
        }
        if error.Message? && error.text != "" {
          validationErrors := validationErrors[fieldName := error.text];
          return Error(error.text);
        }
        assert rules[i..][1..] == rules[i + 1..];
      }
      validationErrors := validationErrors - {fieldName};
      outcome := NoError;
    }

    /** `clearFieldError(fieldName)`. */
    method ClearFieldError(fieldName: string)
      modifies this
      ensures validationErrors == old(validationErrors) - {fieldName}
      ensures fieldName !in validationErrors
    {
      validationErrors := validationErrors - {fieldName};
    }

    /** `clearAllErrors()`. */
    method ClearAllErrors()
      modifies this
      ensures validationErrors == map[]
      ensures !HasErrors()
    {
      validationErrors := map[];
    }

    /** `hasErrors()`: some field has an error recorded. */
    predicate HasErrors()
      reads this
    {
      |validationErrors| > 0
    }
  }
}
