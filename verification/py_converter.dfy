/** The wx text converter: parse a control's text as a number, keep it
    between optional bounds, and format the kept number back to text.

  Only `IntegerConverter` is modelled. `int(text)` is modelled on its plain
  grammar, an optional sign followed by decimal digits; the format string
  is either the default `"{}"` (Python's `str`) or an opaque formatter.
 */
module PyConverter {
  import opened Wrappers
  import opened PyProxy
  import PyChoices

  /** `int(text)` on an optional `+` or `-` and at least one digit;
      anything else raises ValueError. */
  function ParseInt(text: string): (r: Result<Value>)
    ensures r.Ok? <==> SignedDigits(text)
    ensures r.Err? ==> r.error == ValueError
  {
    if |text| > 0 && (text[0] == '-' || text[0] == '+') then
      var digits := text[1..];
      if |digits| > 0 && PyChoices.IsDigits(digits) then
        var n: Value := PyChoices.ParseDigits(digits);
        Ok(if text[0] == '-' then -n else n)
      else Err(ValueError)
    else if |text| > 0 && PyChoices.IsDigits(text) then Ok(PyChoices.ParseDigits(text))
    else Err(ValueError)
  }

  ghost predicate SignedDigits(text: string) {
    var digits := if |text| > 0 && (text[0] == '-' || text[0] == '+') then text[1..] else text;
    |digits| > 0 && PyChoices.IsDigits(digits)
  }

  /** `str` reads back through `int`. */
  lemma ParseFormatted(v: Value)
    ensures ParseInt(PyChoices.DefaultToString(v)) == Ok(v)
  {
    var n: nat := if v < 0 then -v else v;
    var digits := PyChoices.NatToString(n);
    PyChoices.NatToStringRoundTrip(n);
    if v < 0 {
      assert PyChoices.DefaultToString(v)[1..] == digits;
    } else {
      assert PyChoices.DefaultToString(v) == digits;
    }
  }

  /** The format string: `"{}"`, or another one seen as a function. */
  datatype Format = DefaultFormat | CustomFormat(format: Value -> string)

  /** `Converter(rangeLow, rangeHigh, formatString)`. */
  datatype Converter = Converter(rangeLow: Option<Value>, rangeHigh: Option<Value>, format: Format)

  /** `Format(value)`. */
  function FormatValue(c: Converter, v: Value): string {
    match c.format
    case DefaultFormat => PyChoices.DefaultToString(v)
    case CustomFormat(f) => f(v)
  }

  /** `Check(text)`: convert, raise to the low bound when set, then cap at
      the high bound when set, and pair the number with its text. With
      crossed bounds the high bound wins. */
  function Check(c: Converter, text: string): (r: Result<(Value, string)>)
    ensures r.Err? <==> ParseInt(text).Err?
    ensures r.Err? ==> r.error == ValueError
    ensures r.Ok? ==> r.value.1 == FormatValue(c, r.value.0)
    ensures r.Ok? && c.rangeLow.None? && c.rangeHigh.None? ==> r.value.0 == ParseInt(text).value
    ensures r.Ok? && c.rangeHigh.Some? ==> r.value.0 <= c.rangeHigh.value
    ensures r.Ok? && c.rangeLow.Some? && (c.rangeHigh.None? || c.rangeLow.value <= c.rangeHigh.value) ==>
      c.rangeLow.value <= r.value.0
    ensures r.Ok? && InBounds(c, ParseInt(text).value) ==> r.value.0 == ParseInt(text).value
  {
    var n :- ParseInt(text);
    var raised := if c.rangeLow.Some? then (if c.rangeLow.value >= n then c.rangeLow.value else n) else n;
    var capped := if c.rangeHigh.Some? then (if raised <= c.rangeHigh.value then raised else c.rangeHigh.value)
                  else raised;
    Ok((capped, FormatValue(c, capped)))
  }

  /** The number lies within every bound that is set. */
  ghost predicate InBounds(c: Converter, v: Value) {
    (c.rangeLow.None? || c.rangeLow.value <= v) && (c.rangeHigh.None? || v <= c.rangeHigh.value)
  }

  /** `IntegerConverter.ComparesEqual`. */
  function ComparesEqual(first: Value, second: Value): bool {
    first == second
  }

  /** With the default format and ordered bounds, checking the text a
      check produced gives back the same number and text. */
  lemma CheckStable(c: Converter, text: string)
    requires c.format == DefaultFormat
    requires c.rangeLow.None? || c.rangeHigh.None? || c.rangeLow.value <= c.rangeHigh.value
    requires Check(c, text).Ok?
    ensures var (n, s) := Check(c, text).value;
      Check(c, s).Ok? && ComparesEqual(Check(c, s).value.0, n) && Check(c, s).value.1 == s
  {
    var (n, s) := Check(c, text).value;
    ParseFormatted(n);
    assert InBounds(c, n);
  }
}
