/**
 * The reconciler `import_processed_butcher_data_inner` (BACKEND/app.py): raw
 * product records are checked and pre-aggregated by code (highest price wins),
 * then each aggregated record either updates the product with its code —
 * unless the price moved by more than the configured percentage, in which case
 * it is quarantined as a price conflict — or creates a product at the smallest
 * free screen position.  In preview mode nothing is written but the counts are
 * the same.  Prices are exact decimals (`real`).
 */
module Reconcile {
  import opened Text
  import opened Aggregation
  import opened Catalog

  /** The `preco`/`price` value of a record: a JSON number, a string, or absent. */
  datatype PriceInput = Num(value: real) | Str(text: string) | NoPrice

  /** One input record; a missing code is the empty (falsy) code. */
  datatype RawRecord = RawRecord(code: string, name: string, price: PriceInput, active: bool)

  /** A record that passed the checks. */
  datatype Incoming = Incoming(code: string, name: string, price: real, active: bool)

  /** The messages appended to `errors`, each naming the record's `nome`. */
  datatype RecordError = MissingCode(name: string) | InvalidPrice(name: string)

  datatype Checked = Accepted(item: Incoming) | Rejected(error: RecordError)

  function InCode(it: Incoming): string { it.code }

  function InPrice(it: Incoming): real { it.price }

  // ---------------------------------------------------------------------------
  // Reading a price
  // ---------------------------------------------------------------------------

  /** `s.replace(c, '')`. */
  function RemoveChar(s: string, c: char): (r: string)
    ensures c !in r && |r| <= |s|
  {
    if s == [] then [] else (if s[0] == c then [] else [s[0]]) + RemoveChar(s[1..], c)
  }

  lemma {:induction false} RemoveCharAppend(x: string, y: string, c: char)
    ensures RemoveChar(x + y, c) == RemoveChar(x, c) + RemoveChar(y, c)
  {
    if x != [] {
      assert (x + y)[1..] == x[1..] + y;
      RemoveCharAppend(x[1..], y, c);
    } else {
      assert x + y == y;
    }
  }

  lemma {:induction false} RemoveCharAbsent(s: string, c: char)
    requires c !in s
    ensures RemoveChar(s, c) == s
  {
    if s != [] {
      RemoveCharAbsent(s[1..], c);
    }
  }

  /** `s.replace(a, b)` for single characters. */
  function ReplaceChar(s: string, a: char, b: char): (r: string)
    ensures |r| == |s|
    ensures forall i :: 0 <= i < |s| ==> r[i] == (if s[i] == a then b else s[i])
  {
    if s == [] then [] else [if s[0] == a then b else s[0]] + ReplaceChar(s[1..], a, b)
  }

  /** The rewrite applied to string prices: thousands dots dropped, the decimal comma
      turned into a point. */
  function BrazilianToPoint(s: string): string
  {
    ReplaceChar(RemoveChar(s, '.'), ',', '.')
  }

  /** Index of the first `c` in `s`, or -1. */
  function IndexOf(s: string, c: char): (i: int)
    ensures -1 <= i < |s|
    ensures i >= 0 ==> s[i] == c
    ensures forall j :: 0 <= j < (if i < 0 then |s| else i) ==> s[j] != c
  {
    if s == [] then -1
    else if s[0] == c then 0
    else
      var k := IndexOf(s[1..], c);
      if k < 0 then -1 else k + 1
  }

  /** An unsigned numeral: digits with at most one point and at least one digit. */
  function UnsignedNumeral(body: string): Option<real>
  {
    var k := IndexOf(body, '.');
    var whole := if k < 0 then body else body[..k];
    var frac := if k < 0 then [] else body[k + 1..];
    if |whole| + |frac| > 0 && AllDigits(whole) && AllDigits(frac) then Some(DecimalValue(whole, frac))
    else None
  }

  /** An optional sign followed by an unsigned numeral. */
  function SignedNumeral(t: string): Option<real>
  {
    if t != [] && t[0] == '-' then
      match UnsignedNumeral(t[1..])
      case Some(v) => Some(-v)
      case None => None
    else if t != [] && t[0] == '+' then UnsignedNumeral(t[1..])
    else UnsignedNumeral(t)
  }

  /** `Decimal(s)` for plain decimal numerals, surrounding whitespace allowed. */
  function ParseDecimal(s: string): Option<real>
  {
    SignedNumeral(PyStrip(s))
  }

  /** The value of the numeral `whole.frac`. */
  function DecimalValue(whole: string, frac: string): real
    requires AllDigits(whole) && AllDigits(frac)
  {
    DigitsValue(whole) as real + DigitsValue(frac) as real / Pow10(|frac|) as real
  }

  /** `Decimal(str(preco_raw))` after the string rewrite; an absent price fails. */
  function ReadPrice(p: PriceInput): Option<real>
  {
    match p
    case Num(v) => Some(v)
    case Str(s) => ParseDecimal(BrazilianToPoint(s))
    case NoPrice => None
  }

  /** A string that starts and ends with a digit or a point is read unsigned and unstripped. */
  lemma PlainNumeral(s: string)
    requires s != [] && (s[0] == '.' || IsDigit(s[0])) && (s[|s| - 1] == '.' || IsDigit(s[|s| - 1]))
    ensures ParseDecimal(s) == UnsignedNumeral(s)
  {
    TrimUnchanged(s, IsPySpace);
  }

  /** In `whole.frac` with a digit-only `whole`, the first point follows `whole`. */
  lemma PointAfterWhole(whole: string, frac: string)
    requires AllDigits(whole)
    ensures IndexOf(whole + "." + frac, '.') == |whole|
  {
    var s := whole + "." + frac;
    NoSeparators(whole);
    forall j | 0 <= j < |whole|
      ensures s[j] != '.'
    {
      assert s[j] == whole[j];
    }
    assert s[|whole|] == '.';
  }

  lemma UnsignedOfNumeral(whole: string, frac: string)
    requires AllDigits(whole) && AllDigits(frac) && |whole| + |frac| > 0
    ensures UnsignedNumeral(whole + "." + frac) == Some(DecimalValue(whole, frac))
  {
    var s := whole + "." + frac;
    PointAfterWhole(whole, frac);
    assert s[..|whole|] == whole;
    assert s[|whole| + 1..] == frac;
  }

  lemma DecimalOfNumeral(whole: string, frac: string)
    requires AllDigits(whole) && AllDigits(frac) && |whole| + |frac| > 0
    ensures ParseDecimal(whole + "." + frac) == Some(DecimalValue(whole, frac))
  {
    var s := whole + "." + frac;
    assert s[|whole|] == '.';
    PlainNumeral(s);
    UnsignedOfNumeral(whole, frac);
  }

  /** A numeral without a fraction has its integer value. */
  lemma NoFraction(whole: string)
    requires AllDigits(whole)
    ensures DecimalValue(whole, []) == DigitsValue(whole) as real
  {
    assert DigitsValue([]) == 0 && Pow10(0) == 1;
  }

  lemma UnsignedOfDigits(digits: string)
    requires AllDigits(digits) && digits != []
    ensures UnsignedNumeral(digits) == Some(DecimalValue(digits, []))
  {
    NoSeparators(digits);
  }

  lemma DecimalOfDigits(digits: string)
    requires AllDigits(digits) && digits != []
    ensures ParseDecimal(digits) == Some(DigitsValue(digits) as real)
  {
    PlainNumeral(digits);
    UnsignedOfDigits(digits);
    NoFraction(digits);
  }

  /** "32,90" reads as 32.90: the comma is the decimal separator. */
  lemma CommaIsDecimalPoint(whole: string, frac: string)
    requires AllDigits(whole) && AllDigits(frac) && |whole| + |frac| > 0
    ensures ReadPrice(Str(whole + "," + frac)) == Some(DecimalValue(whole, frac))
  {
    var s := whole + "," + frac;
    assert '.' !in s by {
      assert forall j :: 0 <= j < |s| ==> s[j] == ',' || IsDigit(s[j]);
    }
    RemoveCharAbsent(s, '.');
    assert ReplaceChar(s, ',', '.') == whole + "." + frac;
    DecimalOfNumeral(whole, frac);
  }

  lemma NoSeparators(s: string)
    requires AllDigits(s)
    ensures '.' !in s && ',' !in s
  {
    forall j | 0 <= j < |s|
      ensures s[j] != '.' && s[j] != ','
    {
      assert IsDigit(s[j]);
    }
  }

  lemma DropPoint(whole: string, frac: string)
    requires AllDigits(whole) && AllDigits(frac)
    ensures RemoveChar(whole + "." + frac, '.') == whole + frac
  {
    var tail := ['.'] + frac;
    assert whole + "." + frac == whole + tail;
    RemoveCharAppend(whole, tail, '.');
    assert tail[1..] == frac;
    NoSeparators(whole);
    NoSeparators(frac);
    RemoveCharAbsent(whole, '.');
    RemoveCharAbsent(frac, '.');
    assert RemoveChar(tail, '.') == frac;
  }

  /** "32.90" reads as 3290: a point is a thousands separator and is dropped. */
  lemma PointIsThousandsSeparator(whole: string, frac: string)
    requires AllDigits(whole) && AllDigits(frac) && |whole| + |frac| > 0
    ensures ReadPrice(Str(whole + "." + frac)) == Some(DigitsValue(whole + frac) as real)
  {
    DropPoint(whole, frac);
    var d := whole + frac;
    assert AllDigits(d) by {
      forall j | 0 <= j < |d|
        ensures IsDigit(d[j])
      {
        if j < |whole| {
          assert d[j] == whole[j];
        } else {
          assert d[j] == frac[j - |whole|];
        }
      }
    }
    assert ReplaceChar(d, ',', '.') == d;
    DecimalOfDigits(d);
  }

  // ---------------------------------------------------------------------------
  // Checking and pre-aggregation
  // ---------------------------------------------------------------------------

  /** A record without a code, then one whose price does not read, is rejected. */
  function Check(r: RawRecord): Checked
  {
    if r.code == "" then Rejected(MissingCode(r.name))
    else match ReadPrice(r.price)
      case None => Rejected(InvalidPrice(r.name))
      case Some(v) => Accepted(Incoming(r.code, r.name, v, r.active))
  }

  /** The accepted records, in input order. */
  function ValidItems(rs: seq<RawRecord>): seq<Incoming>
  {
    if rs == [] then []
    else
      var c := Check(rs[|rs| - 1]);
      ValidItems(rs[..|rs| - 1]) + (if c.Accepted? then [c.item] else [])
  }

  /** The error of each rejected record, in input order. */
  function RecordErrors(rs: seq<RawRecord>): seq<RecordError>
  {
    if rs == [] then []
    else
      var c := Check(rs[|rs| - 1]);
      RecordErrors(rs[..|rs| - 1]) + (if c.Rejected? then [c.error] else [])
  }

  /** Every record is either accepted or reported, never both. */
  lemma {:induction false} CheckPartition(rs: seq<RawRecord>)
    ensures |ValidItems(rs)| + |RecordErrors(rs)| == |rs|
  {
    if rs != [] {
      CheckPartition(rs[..|rs| - 1]);
    }
  }

  /** Every accepted record has a code and comes from an input record whose price reads. */
  lemma {:induction false} ValidItemsFromInput(rs: seq<RawRecord>)
    ensures forall i :: 0 <= i < |ValidItems(rs)| ==>
      exists j :: 0 <= j < |rs| && Check(rs[j]) == Accepted(ValidItems(rs)[i])
    ensures forall i :: 0 <= i < |ValidItems(rs)| ==> ValidItems(rs)[i].code != ""
  {
    if rs != [] {
      var pre := rs[..|rs| - 1];
      ValidItemsFromInput(pre);
      var v := ValidItems(rs);
      forall i | 0 <= i < |v|
        ensures exists j :: 0 <= j < |rs| && Check(rs[j]) == Accepted(v[i])
        ensures v[i].code != ""
      {
        if i < |ValidItems(pre)| {
          var j :| 0 <= j < |pre| && Check(pre[j]) == Accepted(ValidItems(pre)[i]);
          assert rs[j] == pre[j];
          assert Check(pre[j]).item.code == pre[j].code;
        } else {
          assert Check(rs[|rs| - 1]) == Accepted(v[i]);
        }
      }
    } else {
      assert ValidItems(rs) == [];
    }
  }

  /** The dictionary `aggregated`: one accepted record per code, highest price first seen. */
  function PreAggregate(rs: seq<RawRecord>): seq<Incoming>
  {
    Aggregate(ValidItems(rs), InCode, InPrice)
  }

  // ---------------------------------------------------------------------------
  // Reconciling one aggregated record
  // ---------------------------------------------------------------------------

  /** `price_delta_limit_pct` and `name_similarity_min`; a missing setting is 0. */
  datatype Limits = Limits(deltaLimit: real, similarityMin: real)

  /** What the monitor and the text-import route pass: no limits at all. */
  const NoLimits := Limits(0.0, 0.0)

  /** The configured defaults used by the API import route (40 % and 0.6). */
  const ConfiguredLimits := Limits(40.0, 0.6)

  /** The similarity ratio of two lower-cased names (difflib) and the butcher-word
      test (a regular expression); neither is part of this model. */
  datatype Oracles = Oracles(similarity: (string, string) -> real, isButcher: string -> bool)

  function Abs(x: real): real { if x < 0.0 then -x else x }

  /** `delta_pct`: the price change as a percentage of the stored price, 0 when the
      stored price is not positive. */
  function Delta(current: real, incoming: real): (d: real)
    ensures d >= 0.0
  {
    if current > 0.0 then Abs(incoming - current) / current * 100.0 else 0.0
  }

  /** `price_delta_limit_pct and delta_pct > price_delta_limit_pct`. */
  predicate Quarantined(lim: Limits, current: real, incoming: real)
  {
    lim.deltaLimit != 0.0 && Delta(current, incoming) > lim.deltaLimit
  }

  /** For a positive stored price the test is the exact cross-multiplied comparison. */
  lemma QuarantineCrossMultiplied(lim: Limits, current: real, incoming: real)
    requires current > 0.0
    ensures Quarantined(lim, current, incoming) <==>
      lim.deltaLimit != 0.0 && Abs(incoming - current) * 100.0 > lim.deltaLimit * current
  {
    var a := Abs(incoming - current);
    var d := a / current * 100.0;
    assert d * current == a * 100.0;
    if d > lim.deltaLimit {
      assert d * current > lim.deltaLimit * current;
    } else {
      assert d * current <= lim.deltaLimit * current;
    }
  }

  /** The incoming name replaces the stored one when it is a butcher name and the
      stored one is not, when no minimum similarity is set, or when the names are
      similar enough. */
  predicate NameAccepted(o: Oracles, lim: Limits, current: string, incoming: string)
  {
    || (o.isButcher(incoming) && !o.isButcher(current))
    || lim.similarityMin == 0.0
    || o.similarity(Lower(current), Lower(incoming)) >= lim.similarityMin
  }

  /** The rows the reconciler writes, and the id counter for new rows. */
  datatype Tables = Tables(products: seq<Product>, history: seq<PriceChange>, conflicts: seq<Conflict>, nextId: nat)

  datatype Step = Step(tables: Tables, quarantined: bool)

  /** One iteration of the reconciler's loop. */
  function ImportItem(t: Tables, it: Incoming, lim: Limits, o: Oracles, preview: bool, job: Option<string>): Step
  {
    match ProductAt(t.products, it.code)
    case Some(p) =>
      var i := IndexOfCode(t.products, ProductCode, it.code);
      var d := Delta(p.price, it.price);
      if Quarantined(lim, p.price, it.price) then
        var c := Conflict(job, it.code, PriceConflict, p.name, it.name, p.price, it.price, d);
        Step(if preview then t else t.(conflicts := t.conflicts + [c]), true)
      else if preview then Step(t, false)
      else
        var ok := NameAccepted(o, lim, p.name, it.name);
        var h := PriceChange(it.code, p.name, p.price, it.price, d, job);
        // the stored price is already the new one when a name conflict is recorded
        var c := Conflict(job, it.code, NameConflict, p.name, it.name, it.price, it.price, d);
        var q := p.(price := it.price, name := if ok then it.name else p.name, active := it.active);
        Step(t.(products := t.products[i := q], history := t.history + [h],
                conflicts := if ok then t.conflicts else t.conflicts + [c]), false)
    case None =>
      if preview then Step(t, false)
      else
        var pos := SmallestFree(Positions(t.products));
        var q := Product(t.nextId, it.code, it.name, it.price, pos, it.active);
        Step(t.(products := t.products + [q], nextId := t.nextId + 1), false)
  }

  /** The state after the loop, `success_count` and `quarantine_count`. */
  datatype Tally = Tally(tables: Tables, imported: nat, quarantined: nat)

  function ImportItems(t: Tables, items: seq<Incoming>, lim: Limits, o: Oracles, preview: bool, job: Option<string>): Tally
  {
    if items == [] then Tally(t, 0, 0)
    else
      var pre := ImportItems(t, items[..|items| - 1], lim, o, preview, job);
      var s := ImportItem(pre.tables, items[|items| - 1], lim, o, preview, job);
      Tally(s.tables, pre.imported + 1, pre.quarantined + if s.quarantined then 1 else 0)
  }

  /** Reconciling one more item is one more step of the loop. */
  lemma ImportItemsStep(t: Tables, items: seq<Incoming>, n: nat, lim: Limits, o: Oracles, preview: bool, job: Option<string>)
    requires n < |items|
    ensures var pre := ImportItems(t, items[..n], lim, o, preview, job);
      var s := ImportItem(pre.tables, items[n], lim, o, preview, job);
      ImportItems(t, items[..n + 1], lim, o, preview, job)
        == Tally(s.tables, pre.imported + 1, pre.quarantined + if s.quarantined then 1 else 0)
  {
    assert items[..n + 1][..n] == items[..n];
  }

  /** The dictionary the source returns. */
  datatype Report = Report(imported: nat, errors: seq<RecordError>, quarantined: nat, preview: bool)

  datatype Outcome = Outcome(tables: Tables, report: Report)

  /** The whole reconciler: check, pre-aggregate, reconcile. */
  function ImportRecords(t: Tables, rs: seq<RawRecord>, lim: Limits, o: Oracles, preview: bool, job: Option<string>): Outcome
  {
    var tally := ImportItems(t, PreAggregate(rs), lim, o, preview, job);
    Outcome(tally.tables, Report(tally.imported, RecordErrors(rs), tally.quarantined, preview))
  }

  // ---------------------------------------------------------------------------
  // Properties
  // ---------------------------------------------------------------------------

  /** A quarantined record leaves the product alone and adds one price conflict. */
  lemma QuarantineKeepsProduct(t: Tables, it: Incoming, lim: Limits, o: Oracles, job: Option<string>)
    requires ProductAt(t.products, it.code).Some?
    requires Quarantined(lim, ProductAt(t.products, it.code).value.price, it.price)
    ensures var p := ProductAt(t.products, it.code).value;
      var s := ImportItem(t, it, lim, o, false, job);
      && s.quarantined
      && s.tables.products == t.products && s.tables.history == t.history && s.tables.nextId == t.nextId
      && s.tables.conflicts == t.conflicts + [Conflict(job, it.code, PriceConflict, p.name, it.name, p.price, it.price, Delta(p.price, it.price))]
  {
  }

  /** A record that is not quarantined updates price and active flag, logs the price
      change, and takes the new name unless the name rule refuses it, in which case
      one name conflict is recorded. */
  lemma AcceptedUpdatesProduct(t: Tables, it: Incoming, lim: Limits, o: Oracles, job: Option<string>)
    requires ProductAt(t.products, it.code).Some?
    requires !Quarantined(lim, ProductAt(t.products, it.code).value.price, it.price)
    ensures var p := ProductAt(t.products, it.code).value;
      var s := ImportItem(t, it, lim, o, false, job);
      var ok := NameAccepted(o, lim, p.name, it.name);
      && !s.quarantined
      && ProductAt(s.tables.products, it.code) == Some(p.(price := it.price, active := it.active, name := if ok then it.name else p.name))
      && |s.tables.products| == |t.products|
      && (forall c :: c != it.code ==> ProductAt(s.tables.products, c) == ProductAt(t.products, c))
      && s.tables.history == t.history + [PriceChange(it.code, p.name, p.price, it.price, Delta(p.price, it.price), job)]
      && (ok ==> s.tables.conflicts == t.conflicts)
      && (!ok ==> s.tables.conflicts == t.conflicts + [Conflict(job, it.code, NameConflict, p.name, it.name, it.price, it.price, Delta(p.price, it.price))])
  {
    var p := ProductAt(t.products, it.code).value;
    var i := IndexOfCode(t.products, ProductCode, it.code);
    var ok := NameAccepted(o, lim, p.name, it.name);
    var q := p.(price := it.price, name := if ok then it.name else p.name, active := it.active);
    forall c
      ensures IndexOfCode(t.products[i := q], ProductCode, c) == IndexOfCode(t.products, ProductCode, c)
    {
      IndexOfCodeUpdate(t.products, i, q, ProductCode, c);
    }
  }

  /** A new code becomes a new product at the smallest position no product uses. */
  lemma NewCodeTakesSmallestFreePosition(t: Tables, it: Incoming, lim: Limits, o: Oracles, job: Option<string>)
    requires ProductAt(t.products, it.code).None?
    ensures var s := ImportItem(t, it, lim, o, false, job);
      && !s.quarantined
      && s.tables.products[..|t.products|] == t.products
      && ProductAt(s.tables.products, it.code).Some?
      && var q := ProductAt(s.tables.products, it.code).value;
      && q.id == t.nextId && q.name == it.name && q.price == it.price && q.active == it.active
      && q.position >= 1
      && q.position !in Positions(t.products)
      && (forall n :: 1 <= n < q.position ==> n in Positions(t.products))
  {
    var pos := SmallestFree(Positions(t.products));
    var q := Product(t.nextId, it.code, it.name, it.price, pos, it.active);
    var ps := t.products + [q];
    assert ps[..|t.products|] == t.products;
    assert IndexOfCode(ps, ProductCode, it.code) == |t.products|;
  }

  /** Preview writes nothing. */
  lemma {:induction false} PreviewWritesNothing(t: Tables, items: seq<Incoming>, lim: Limits, o: Oracles, job: Option<string>)
    ensures ImportItems(t, items, lim, o, true, job).tables == t
  {
    if items != [] {
      PreviewWritesNothing(t, items[..|items| - 1], lim, o, job);
    }
  }

  /** Every aggregated record is counted as imported, quarantined or not. */
  lemma {:induction false} ImportedCountsAll(t: Tables, items: seq<Incoming>, lim: Limits, o: Oracles, preview: bool, job: Option<string>)
    ensures ImportItems(t, items, lim, o, preview, job).imported == |items|
  {
    if items != [] {
      ImportedCountsAll(t, items[..|items| - 1], lim, o, preview, job);
    }
  }

  /** The loop only touches the products whose codes it reads. */
  lemma {:induction false} OtherCodesUntouched(t: Tables, items: seq<Incoming>, lim: Limits, o: Oracles, preview: bool, job: Option<string>, c: string)
    requires forall k :: 0 <= k < |items| ==> items[k].code != c
    ensures ProductAt(ImportItems(t, items, lim, o, preview, job).tables.products, c) == ProductAt(t.products, c)
  {
    if items != [] {
      var pre := items[..|items| - 1];
      OtherCodesUntouched(t, pre, lim, o, preview, job, c);
      var u := ImportItems(t, pre, lim, o, preview, job).tables;
      var it := items[|items| - 1];
      var ps := u.products;
      match ProductAt(ps, it.code)
      case Some(p) =>
        var i := IndexOfCode(ps, ProductCode, it.code);
        var q := p.(price := it.price, name := if NameAccepted(o, lim, p.name, it.name) then it.name else p.name, active := it.active);
        IndexOfCodeUpdate(ps, i, q, ProductCode, c);
      case None =>
        var q := Product(u.nextId, it.code, it.name, it.price, SmallestFree(Positions(ps)), it.active);
        IndexOfCodeAppend(ps, q, ProductCode, c);
    }
  }

  /** The record `it` would be quarantined against the products `ps`. */
  predicate QuarantineDue(ps: seq<Product>, it: Incoming, lim: Limits)
  {
    ProductAt(ps, it.code).Some? && Quarantined(lim, ProductAt(ps, it.code).value.price, it.price)
  }

  /** How many of `items` would be quarantined against the products `ps`. */
  function QuarantineCount(ps: seq<Product>, items: seq<Incoming>, lim: Limits): nat
  {
    if items == [] then 0
    else QuarantineCount(ps, items[..|items| - 1], lim) + if QuarantineDue(ps, items[|items| - 1], lim) then 1 else 0
  }

  /** `quarantine_count` is the number of aggregated records whose stored product's
      price moved by more than the limit, judged against the prices before the
      import, in preview and in a live run alike. */
  lemma {:induction false} QuarantineCountExact(t: Tables, items: seq<Incoming>, lim: Limits, o: Oracles, preview: bool, job: Option<string>)
    requires CodesUnique(items, InCode)
    ensures ImportItems(t, items, lim, o, preview, job).quarantined == QuarantineCount(t.products, items, lim)
  {
    if items != [] {
      var pre := items[..|items| - 1];
      var it := items[|items| - 1];
      assert CodesUnique(pre, InCode);
      QuarantineCountExact(t, pre, lim, o, preview, job);
      forall k | 0 <= k < |pre|
        ensures pre[k].code != it.code
      {
        assert InCode(items[k]) != InCode(items[|items| - 1]);
      }
      OtherCodesUntouched(t, pre, lim, o, preview, job, it.code);
    }
  }

  /** Preview reports the counts a live run would. */
  lemma PreviewCountsMatchLive(t: Tables, rs: seq<RawRecord>, lim: Limits, o: Oracles, job: Option<string>)
    ensures var live := ImportRecords(t, rs, lim, o, false, job);
      var dry := ImportRecords(t, rs, lim, o, true, job);
      && dry.tables == t
      && dry.report.imported == live.report.imported == |PreAggregate(rs)|
      && dry.report.quarantined == live.report.quarantined
      && dry.report.errors == live.report.errors
  {
    var items := PreAggregate(rs);
    AggregateShape(ValidItems(rs), InCode, InPrice);
    PreviewWritesNothing(t, items, lim, o, job);
    ImportedCountsAll(t, items, lim, o, true, job);
    ImportedCountsAll(t, items, lim, o, false, job);
    QuarantineCountExact(t, items, lim, o, true, job);
    QuarantineCountExact(t, items, lim, o, false, job);
  }

  /** Without limits (the monitor and the text-import route) nothing is ever
      quarantined and no conflict is recorded. */
  lemma {:induction false} NoLimitsNoConflicts(t: Tables, items: seq<Incoming>, o: Oracles, preview: bool, job: Option<string>)
    ensures ImportItems(t, items, NoLimits, o, preview, job).quarantined == 0
    ensures ImportItems(t, items, NoLimits, o, preview, job).tables.conflicts == t.conflicts
  {
    if items != [] {
      NoLimitsNoConflicts(t, items[..|items| - 1], o, preview, job);
    }
  }

  /** Codes stay unique and ids stay fresh across an import. */
  lemma {:induction false} ImportKeepsRowsWellFormed(t: Tables, items: seq<Incoming>, lim: Limits, o: Oracles, preview: bool, job: Option<string>, assocs: seq<Association>)
    requires CodesUnique(t.products, ProductCode) && IdsBelow(t.products, assocs, t.nextId)
    ensures var u := ImportItems(t, items, lim, o, preview, job).tables;
      CodesUnique(u.products, ProductCode) && IdsBelow(u.products, assocs, u.nextId) && t.nextId <= u.nextId
  {
    if items != [] {
      ImportKeepsRowsWellFormed(t, items[..|items| - 1], lim, o, preview, job, assocs);
      var u := ImportItems(t, items[..|items| - 1], lim, o, preview, job).tables;
      ImportItemKeepsRowsWellFormed(u, items[|items| - 1], lim, o, preview, job, assocs);
    }
  }

  lemma ImportItemKeepsRowsWellFormed(t: Tables, it: Incoming, lim: Limits, o: Oracles, preview: bool, job: Option<string>, assocs: seq<Association>)
    requires CodesUnique(t.products, ProductCode) && IdsBelow(t.products, assocs, t.nextId)
    ensures var u := ImportItem(t, it, lim, o, preview, job).tables;
      CodesUnique(u.products, ProductCode) && IdsBelow(u.products, assocs, u.nextId) && t.nextId <= u.nextId
  {
    var u := ImportItem(t, it, lim, o, preview, job).tables;
    if ProductAt(t.products, it.code).None? && !preview {
      assert u.products == t.products + [u.products[|t.products|]];
      assert forall i :: 0 <= i < |t.products| ==> u.products[i] == t.products[i];
    } else if ProductAt(t.products, it.code).Some? {
      var i := IndexOfCode(t.products, ProductCode, it.code);
      assert forall j :: 0 <= j < |t.products| && j != i ==> u.products[j] == t.products[j];
    }
  }
}
