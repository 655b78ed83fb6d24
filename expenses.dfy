/**
 * The expense record, its JSON form, and the conversion of an add request's
 * JSON body into the fields of a new record, with the errors that conversion
 * reports.
 */
module Expenses {
  import opened Wrappers
  import opened Dates

  /** A JSON value as the request parser delivers it. Numbers are exact. */
  datatype JsonValue =
    | JNull
    | JBool(b: bool)
    | JNumber(n: real)
    | JString(s: string)
    | JArray(items: seq<JsonValue>)
    | JObject(fields: map<string, JsonValue>)

  /** One stored expense. A `None` description is a SQL NULL. */
  datatype Expense = Expense(id: int, amount: real, category: string, description: Option<string>, date: Date)

  /** The fields of a new expense once its request has been converted; the store adds the id. */
  datatype Draft = Draft(amount: real, category: string, description: Option<string>, date: Date)

  /** Why an add request was refused. Each is reported to the client as a bad request. */
  datatype AddError =
    | NotAnObject                  // the body is not a JSON object, so it cannot be indexed by field name
    | MissingField(name: string)   // a required field is absent
    | AmountNotANumber             // the amount does not convert to a number
    | DateNotText                  // the date is not a string
    | DateUnparseable              // the date string is not in the `%Y-%m-%d` format or not a real date
    | CategoryNull                 // the category is null, refused by the NOT NULL column
    | CategoryNotText              // the category is neither a string nor null
    | DescriptionNotText           // the description is neither a string nor null

  function DraftOf(e: Expense): Draft {
    Draft(e.amount, e.category, e.description, e.date)
  }

  // ---------------------------------------------------------------------------
  // Converting the amount

  /** Index of the first '.' in `s`, or `|s|` when there is none. */
  function IndexOfDot(s: string): (k: nat)
    ensures k <= |s| && '.' !in s[..k]
    ensures k < |s| ==> s[k] == '.'
  {
    if s == [] then 0
    else if s[0] == '.' then 0
    else
      var k := 1 + IndexOfDot(s[1..]);
      assert s[..k] == [s[0]] + s[1..][..k - 1];
      k
  }

  /** The number a numeral with digits `whole` before the point and `fraction` after it denotes. */
  function NumeralValue(whole: string, fraction: string): (v: real)
    requires AllDigits(whole) && AllDigits(fraction)
    ensures v >= 0.0
  {
    DigitsValue(whole) as real + DigitsValue(fraction) as real / Pow10(|fraction|) as real
  }

  /** The numeral's value is all its digits read as one whole number, scaled down by one power of ten per fraction digit. */
  lemma NumeralValueScaled(whole: string, fraction: string)
    requires AllDigits(whole) && AllDigits(fraction)
    ensures AllDigits(whole + fraction)
    ensures NumeralValue(whole, fraction) == DigitsValue(whole + fraction) as real / Pow10(|fraction|) as real
  {
    DigitsShift(whole, fraction);
    OverScale(DigitsValue(whole), DigitsValue(fraction), Pow10(|fraction|));
  }

  /** `n + b / m` is `(n * m + b) / m`. */
  lemma OverScale(n: nat, b: nat, m: nat)
    requires m > 0
    ensures n as real + b as real / m as real == (n * m + b) as real / m as real
  {
    assert (n * m) as real == n as real * m as real;
  }

  /** One more digit: the arithmetic step of `DigitsShift`. */
  lemma ShiftStep(a: int, p: int, b: int, c: int, w: int, v: int, pow: int, f: int)
    requires w == a * p + b && v == 10 * w + c && pow == 10 * p && f == 10 * b + c
    ensures v == a * pow + f
  {
    assert a * pow == 10 * (a * p);
  }

  /** Appending digits shifts the number left by their count and adds their value. */
  lemma {:induction false} DigitsShift(whole: string, fraction: string)
    requires AllDigits(whole) && AllDigits(fraction)
    ensures AllDigits(whole + fraction)
    ensures DigitsValue(whole + fraction) == DigitsValue(whole) * Pow10(|fraction|) + DigitsValue(fraction)
  {
    var s := whole + fraction;
    if fraction != [] {
      var init, last := fraction[..|fraction| - 1], fraction[|fraction| - 1];
      assert s[..|s| - 1] == whole + init && s[|s| - 1] == last;
      DigitsShift(whole, init);
      var w := DigitsValue(whole + init);
      assert DigitsValue(s) == 10 * w + DigitValue(last);
      assert fraction[..|fraction| - 1] == init;
      ShiftStep(DigitsValue(whole), Pow10(|init|), DigitsValue(init), DigitValue(last),
                w, DigitsValue(s), Pow10(|fraction|), DigitsValue(fraction));
    } else {
      assert s == whole;
    }
  }

  /** An unsigned decimal numeral: digits, optionally a point and more digits, with at least one digit. */
  function ParseUnsigned(s: string): (r: Option<real>)
    ensures r.Some? ==> s != [] && r.value >= 0.0
    ensures r.Some? ==> forall i :: 0 <= i < |s| ==> IsDigit(s[i]) || s[i] == '.'
  {
    var k := IndexOfDot(s);
    var whole, fraction := s[..k], if k < |s| then s[k + 1..] else "";
    if AllDigits(whole) && AllDigits(fraction) && (whole != [] || fraction != []) then
      assert forall i :: 0 <= i < |s| ==> IsDigit(s[i]) || s[i] == '.' by {
        forall i | 0 <= i < |s| ensures IsDigit(s[i]) || s[i] == '.' {
          if i < k {
            assert s[i] == whole[i];
          } else if i > k {
            assert s[i] == fraction[i - k - 1];
          }
        }
      }
      Some(NumeralValue(whole, fraction))
    else
      None
  }

  /** Converts a numeral with an optional sign, as a number conversion of a string does. */
  function ParseDecimal(s: string): (r: Option<real>)
    ensures r.Some? ==> s != [] && forall i :: 0 <= i < |s| ==> IsDigit(s[i]) || s[i] in "+-."
    ensures r.Some? && s[0] != '-' ==> r.value >= 0.0
    ensures r.Some? && s[0] == '-' ==> r.value <= 0.0
  {
    if s == [] then None
    else if s[0] == '-' || s[0] == '+' then
      var u := ParseUnsigned(s[1..]);
      if u.None? then None
      else
        assert forall i :: 1 <= i < |s| ==> s[i] == s[1..][i - 1];
        if s[0] == '-' then Some(-u.value) else u
    else ParseUnsigned(s)
  }

  lemma ParseUnsignedOfDigits(s: string)
    requires s != [] && AllDigits(s)
    ensures ParseUnsigned(s) == Some(DigitsValue(s) as real)
  {
    NoDotInDigits(s);
    assert s[..|s|] == s && s + "" == s;
    assert DigitsValue("") == 0 && Pow10(0) == 1;
  }

  /** A string of digits has no decimal point. */
  lemma {:induction false} NoDotInDigits(s: string)
    requires AllDigits(s)
    ensures IndexOfDot(s) == |s|
  {
    if s != [] {
      assert IsDigit(s[0]);
      assert AllDigits(s[1..]) by {
        assert forall i :: 0 <= i < |s[1..]| ==> s[1..][i] == s[i + 1];
      }
      NoDotInDigits(s[1..]);
    }
  }

  /** A numeral made of digits alone converts to the number it denotes, with or without a sign. */
  lemma ParseDecimalOfDigits(s: string)
    requires s != [] && AllDigits(s)
    ensures ParseDecimal(s) == Some(DigitsValue(s) as real)
    ensures ParseDecimal("-" + s) == Some(-(DigitsValue(s) as real))
    ensures ParseDecimal("+" + s) == Some(DigitsValue(s) as real)
  {
    ParseUnsignedOfDigits(s);
    assert IsDigit(s[0]);
    ParseDecimalSigned(s);
  }

  lemma ParseUnsignedOfPointed(whole: string, fraction: string)
    requires AllDigits(whole) && AllDigits(fraction) && whole + fraction != []
    ensures ParseUnsigned(whole + "." + fraction) == Some(NumeralValue(whole, fraction))
  {
    var s := whole + "." + fraction;
    var k := IndexOfDot(s);
    assert s[|whole|] == '.';
    assert k == |whole|;
    assert s[..k] == whole && s[k + 1..] == fraction;
  }

  /** A sign in front negates the unsigned numeral (minus) or leaves it as it is (plus). */
  lemma ParseDecimalSigned(u: string)
    requires u != [] && u[0] != '-' && u[0] != '+'
    ensures ParseDecimal(u) == ParseUnsigned(u)
    ensures ParseDecimal("-" + u) == (match ParseUnsigned(u) case Some(x) => Some(-x) case None => None)
    ensures ParseDecimal("+" + u) == ParseUnsigned(u)
  {
    assert ("-" + u)[1..] == u;
    assert ("+" + u)[1..] == u;
  }

  /**
   * A numeral with a decimal point converts to the whole part plus the
   * fraction read as tenths, hundredths and so on, with or without a sign.
   */
  lemma ParseDecimalOfPointed(whole: string, fraction: string)
    requires AllDigits(whole) && AllDigits(fraction) && whole + fraction != []
    ensures ParseDecimal(whole + "." + fraction) == Some(NumeralValue(whole, fraction))
    ensures ParseDecimal("-" + (whole + "." + fraction)) == Some(-NumeralValue(whole, fraction))
    ensures ParseDecimal("+" + (whole + "." + fraction)) == Some(NumeralValue(whole, fraction))
  {
    ParseUnsignedOfPointed(whole, fraction);
    UnsignedStart(whole, fraction);
    ParseDecimalSigned(whole + "." + fraction);
  }

  /** A numeral with a point starts with a digit or the point, never with a sign. */
  lemma UnsignedStart(whole: string, fraction: string)
    requires AllDigits(whole)
    ensures var u := whole + "." + fraction; u != [] && u[0] != '-' && u[0] != '+'
  {
    var u := whole + "." + fraction;
    if whole != [] {
      assert u[0] == whole[0] && IsDigit(whole[0]);
    } else {
      assert u == ['.'] + fraction;
    }
  }

  lemma ParseUnsignedShape(u: string)
    requires ParseUnsigned(u).Some?
    ensures exists whole, fraction ::
      && AllDigits(whole) && AllDigits(fraction) && whole + fraction != []
      && (u == whole + fraction || u == whole + "." + fraction)
      && ParseUnsigned(u).value == NumeralValue(whole, fraction)
  {
    var k := IndexOfDot(u);
    var whole, fraction := u[..k], if k < |u| then u[k + 1..] else "";
    if k < |u| {
      assert u == whole + "." + fraction;
    } else {
      assert u == whole + fraction;
    }
    assert ParseUnsigned(u).value == NumeralValue(whole, fraction);
  }

  /**
   * Every numeral the conversion accepts has that shape: an optional sign,
   * then digits, or digits, a point and digits, with at least one digit;
   * its value is the numeral's value, negated after a minus sign.
   */
  lemma ParseDecimalShape(s: string)
    requires ParseDecimal(s).Some?
    ensures var u := if s[0] == '-' || s[0] == '+' then s[1..] else s;
      exists whole, fraction ::
        && AllDigits(whole) && AllDigits(fraction) && whole + fraction != []
        && (u == whole + fraction || u == whole + "." + fraction)
        && ParseDecimal(s).value == (if s[0] == '-' then -NumeralValue(whole, fraction) else NumeralValue(whole, fraction))
  {
    var u := if s[0] == '-' || s[0] == '+' then s[1..] else s;
    assert ParseUnsigned(u).Some?;
    assert ParseDecimal(s).value == if s[0] == '-' then -ParseUnsigned(u).value else ParseUnsigned(u).value;
    ParseUnsignedShape(u);
  }

  /** The number conversion of the amount field: numbers as they are, booleans as 1 and 0, numeral strings. */
  function ParseAmount(v: JsonValue): (r: Option<real>)
    ensures r.None? <==> v.JNull? || v.JArray? || v.JObject? || (v.JString? && ParseDecimal(v.s).None?)
    ensures v.JNumber? ==> r == Some(v.n)
    ensures v.JBool? ==> r == Some(if v.b then 1.0 else 0.0)
    ensures v.JString? ==> r == ParseDecimal(v.s)
  {
    match v
    case JNumber(n) => Some(n)
    case JBool(b) => Some(if b then 1.0 else 0.0)
    case JString(s) => ParseDecimal(s)
    case _ => None
  }

  /** A string or null: what a text column can hold. */
  predicate IsTextOrNull(v: JsonValue) {
    v.JString? || v.JNull?
  }

  /** The text a string JSON value stores; `None` (a SQL NULL) for anything else. */
  function TextOf(v: JsonValue): Option<string> {
    if v.JString? then Some(v.s) else None
  }

  // ---------------------------------------------------------------------------
  // The add request

  /** The amount is present and converts to a number. */
  predicate AmountConverts(f: map<string, JsonValue>) {
    "amount" in f && ParseAmount(f["amount"]).Some?
  }

  /**
   * The request fields convert up to the commit: the amount converts, the
   * category is present, and the date is a string that parses.
   */
  predicate ConvertsBeforeCommit(f: map<string, JsonValue>) {
    && AmountConverts(f)
    && "category" in f
    && "date" in f && f["date"].JString? && ParseDate(f["date"].s).Some?
  }

  /** The description as the record receives it: the field, or the empty string when it is absent. */
  function DescriptionOf(f: map<string, JsonValue>): JsonValue {
    if "description" in f then f["description"] else JString("")
  }

  /** An array or an object: a value the database cannot bind to a column. */
  predicate Unbindable(v: JsonValue) {
    v.JArray? || v.JObject?
  }

  /**
   * Converts the body of an add request into the fields of a new expense.
   * The fields are taken in the order amount, category, description, date,
   * and the first one that fails decides the error. At the commit the
   * category and then the description are bound to their columns, which
   * fails for an array or an object; only then is the category's NOT NULL
   * constraint checked. A missing description stands for the empty string.
   */
  function ParseExpenseRequest(body: JsonValue): (r: Result<Draft, AddError>)
    ensures !body.JObject? ==> r == Failure(NotAnObject)
    ensures body.JObject? && "amount" !in body.fields ==> r == Failure(MissingField("amount"))
    ensures body.JObject? && "amount" in body.fields && ParseAmount(body.fields["amount"]).None?
      ==> r == Failure(AmountNotANumber)
    ensures body.JObject? && AmountConverts(body.fields) && "category" !in body.fields
      ==> r == Failure(MissingField("category"))
    ensures body.JObject? && AmountConverts(body.fields) && "category" in body.fields && "date" !in body.fields
      ==> r == Failure(MissingField("date"))
    ensures body.JObject? && AmountConverts(body.fields) && "category" in body.fields && "date" in body.fields
      && !body.fields["date"].JString?
      ==> r == Failure(DateNotText)
    ensures body.JObject? && AmountConverts(body.fields) && "category" in body.fields && "date" in body.fields
      && body.fields["date"].JString? && ParseDate(body.fields["date"].s).None?
      ==> r == Failure(DateUnparseable)
    ensures r.Success? ==>
      var f := body.fields;
      && "amount" in f && ParseAmount(f["amount"]) == Some(r.value.amount)
      && "category" in f && f["category"] == JString(r.value.category)
      && r.value.description == (if "description" in f then TextOf(f["description"]) else Some(""))
      && "date" in f && f["date"].JString? && ParseDate(f["date"].s) == Some(r.value.date)
    ensures r.Success? ==> ValidDate(r.value.date)
    ensures body.JObject? && ConvertsBeforeCommit(body.fields) && Unbindable(body.fields["category"])
      ==> r == Failure(CategoryNotText)
    ensures body.JObject? && ConvertsBeforeCommit(body.fields) && !Unbindable(body.fields["category"])
      && Unbindable(DescriptionOf(body.fields))
      ==> r == Failure(DescriptionNotText)
    ensures body.JObject? && ConvertsBeforeCommit(body.fields) && !Unbindable(DescriptionOf(body.fields))
      && body.fields["category"].JNull?
      ==> r == Failure(CategoryNull)
    ensures body.JObject? && ConvertsBeforeCommit(body.fields) && !Unbindable(DescriptionOf(body.fields))
      && !IsTextOrNull(body.fields["category"])
      ==> r == Failure(CategoryNotText)
    ensures body.JObject? && ConvertsBeforeCommit(body.fields) && body.fields["category"].JString?
      && !IsTextOrNull(DescriptionOf(body.fields))
      ==> r == Failure(DescriptionNotText)
    ensures r.Success? <==>
      && body.JObject? && ConvertsBeforeCommit(body.fields) && body.fields["category"].JString?
      && IsTextOrNull(DescriptionOf(body.fields))
  {
    if !body.JObject? then Failure(NotAnObject)
    else
      var f := body.fields;
      if "amount" !in f then Failure(MissingField("amount"))
      else if ParseAmount(f["amount"]).None? then Failure(AmountNotANumber)
      else if "category" !in f then Failure(MissingField("category"))
      else if "date" !in f then Failure(MissingField("date"))
      else if !f["date"].JString? then Failure(DateNotText)
      else if ParseDate(f["date"].s).None? then Failure(DateUnparseable)
      else
        var category, description := f["category"], DescriptionOf(f);
        if Unbindable(category) then Failure(CategoryNotText)
        else if Unbindable(description) then Failure(DescriptionNotText)
        else if category.JNull? then Failure(CategoryNull)
        else if !category.JString? then Failure(CategoryNotText)
        else if !IsTextOrNull(description) then Failure(DescriptionNotText)
        else Success(Draft(ParseAmount(f["amount"]).value, category.s, TextOf(description),
                           ParseDate(f["date"].s).value))
  }

  /** The JSON object an expense is serialized as (without its creation timestamp). */
  function ToJson(e: Expense): (j: JsonValue)
    requires ValidDate(e.date)
    ensures j.JObject? && j.fields.Keys == {"id", "amount", "category", "description", "date"}
    ensures j.fields["id"] == JNumber(e.id as real)
    ensures j.fields["amount"] == JNumber(e.amount) && j.fields["category"] == JString(e.category)
    ensures j.fields["description"] == (if e.description.Some? then JString(e.description.value) else JNull)
    ensures j.fields["date"] == JString(IsoFormat(e.date))
  {
    JObject(map[
      "id" := JNumber(e.id as real),
      "amount" := JNumber(e.amount),
      "category" := JString(e.category),
      "description" := (match e.description case Some(t) => JString(t) case None => JNull),
      "date" := JString(IsoFormat(e.date))])
  }

  /**
   * A request with a numeric amount, a category and an ISO date but no
   * description is accepted, and the description is stored as the empty string.
   */
  lemma AcceptedWithoutDescription(amount: real, category: string, date: Date)
    requires ValidDate(date)
    ensures var body := JObject(map["amount" := JNumber(amount), "category" := JString(category),
                                    "date" := JString(IsoFormat(date))]);
      ParseExpenseRequest(body) == Success(Draft(amount, category, Some(""), date))
  {
    ParseIsoFormat(date);
  }

  /** Posting an expense's own JSON form back is accepted and reproduces its fields. */
  lemma ResubmitSerialized(e: Expense)
    requires ValidDate(e.date)
    ensures ParseExpenseRequest(ToJson(e)) == Success(DraftOf(e))
  {
    ParseIsoFormat(e.date);
  }
}
