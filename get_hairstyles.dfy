/** The `GET /api/get-hairstyles` handler: it reads optional filters from
    the query string, silently drops values it does not recognise, clamps
    `maxRecords`, and returns the matching reference styles. */
module GetHairstyles {
  import opened Basics
  import opened Text
  import opened EnumParsing
  import opened ReferenceBase

  /** The URL's query string as name/value pairs in order of appearance. */
  datatype SearchParams = SearchParams(entries: seq<(string, string)>)

  const MinMaxRecords := 1
  const MaxMaxRecords := 100

  /** `Math.min(100, Math.max(1, n))` for a numeric `n`. */
  function ClampRecords(n: NumberValue): int
    requires !n.NaN?
  {
    match n
    case PlusInfinity => MaxMaxRecords
    case MinusInfinity => MinMaxRecords
    case Integral(v) => if v < MinMaxRecords then MinMaxRecords else if v > MaxMaxRecords then MaxMaxRecords else v
  }

  /** The `maxRecords` the handler passes on: omitted when the parameter is
      absent, empty or not a number, otherwise clamped to [1, 100]. */
  function ParseMaxRecords(param: Option<string>): (r: Option<int>)
    ensures r.Some? ==> MinMaxRecords <= r.value <= MaxMaxRecords
    ensures param.None? || param == Some("") ==> r.None?
    ensures param.Some? && param.value != "" ==> (r.None? <==> ToNumber(param.value).NaN?)
    ensures r.Some? && ToNumber(param.value).Integral? ==>
              var n := ToNumber(param.value).value;
              r.value == (if n < MinMaxRecords then MinMaxRecords else if n > MaxMaxRecords then MaxMaxRecords else n)
    ensures r.Some? && ToNumber(param.value).PlusInfinity? ==> r.value == MaxMaxRecords
    ensures r.Some? && ToNumber(param.value).MinusInfinity? ==> r.value == MinMaxRecords
  {
    if param.Some? && param.value != "" && !ToNumber(param.value).NaN?
    then Some(ClampRecords(ToNumber(param.value)))
    else None
  }

  /** A decimal `maxRecords` is clamped into [1, 100]. */
  lemma ParseMaxRecordsOfDecimal(n: nat)
    ensures ParseMaxRecords(Some(NatToDecimal(n))) == Some(if n < 1 then 1 else if n > 100 then 100 else n)
  {
    ToNumberOfDecimal(n);
    DecimalRoundTrip(n);
  }

  /** "0" becomes 1. */
  lemma ParseMaxRecordsZero()
    ensures ParseMaxRecords(Some("0")) == Some(1)
  {
    ParseMaxRecordsOfDecimal(0);
    assert NatToDecimal(0) == "0";
  }

  /** "500" becomes 100. */
  lemma ParseMaxRecordsFiveHundred()
    ensures ParseMaxRecords(Some("500")) == Some(100)
  {
    ParseMaxRecordsOfDecimal(500);
    FiveHundredPrinted();
  }

  /** `Number("12px")` is `NaN`, so a unit suffix omits `maxRecords`. */
  lemma ParseMaxRecordsUnitSuffix()
    ensures ParseMaxRecords(Some("12px")) == None
  {
    var s := "12px";
    assert !IsJsWhitespace(s[0]) && !IsJsWhitespace(s[|s| - 1]);
    assert TrimStart(s) == s && TrimEnd(s) == s;
    assert Unsigned(s) == s && !IsDigit(s[2]);
    assert !SignedDigits(s) && !IsInfinity(s);
  }

  /** `Number("Infinity")` is infinite and clamps to 100. */
  lemma ParseMaxRecordsInfinity()
    ensures ParseMaxRecords(Some("Infinity")) == Some(100)
  {
    var s := "Infinity";
    assert !IsJsWhitespace(s[0]) && !IsJsWhitespace(s[|s| - 1]);
    assert TrimStart(s) == s && TrimEnd(s) == s;
  }

  /** `Number("-Infinity")` is infinite and clamps to 1. */
  lemma ParseMaxRecordsMinusInfinity()
    ensures ParseMaxRecords(Some("-Infinity")) == Some(1)
  {
    var s := "-Infinity";
    assert !IsJsWhitespace(s[0]) && !IsJsWhitespace(s[|s| - 1]);
    assert TrimStart(s) == s && TrimEnd(s) == s;
  }

  lemma FiveHundredPrinted()
    ensures NatToDecimal(500) == "500"
  {
    assert NatToDecimal(5) == "5";
    assert NatToDecimal(50) == NatToDecimal(5) + [DigitChar(0)];
    assert NatToDecimal(500) == NatToDecimal(50) + [DigitChar(0)];
  }

  /** The handler's JSON response. */
  datatype Response = Ok(data: seq<ReferenceStyle>) | InternalError

  /** The `params` object: starts empty and receives each field that
      parsed. An absent value leaves its field out, which is the same as
      storing the absent value. */
  method AssembleParams(haircolor: Option<string>, ethnicity: Option<string>, sex: Option<string>,
                        length: Option<string>, maxRecords: Option<int>)
    returns (params: GetReferenceStylesParams)
    ensures params == GetReferenceStylesParams(haircolor, ethnicity, sex, length, maxRecords)
  {
    params := NoParams;
    if maxRecords.Some? { params := params.(maxRecords := maxRecords); }
    if haircolor.Some? { params := params.(haircolor := haircolor); }
    if ethnicity.Some? { params := params.(ethnicity := ethnicity); }
    if sex.Some? { params := params.(sex := sex); }
    if length.Some? { params := params.(length := length); }
  }

  /** `GET`: each filter goes through `asEnum`, `maxRecords` through the
      clamp, and the `params` object receives only the fields that parsed;
      a failure of the catalog lookup is the only way to a 500. Returns the
      response and the `params` passed to `getReferenceStyles`. */
  method HandleGet(sp: SearchParams, airtable: SelectQuery -> Result<seq<AirtableRecord>, Error>)
    returns (resp: Response, params: GetReferenceStylesParams)
    ensures params.haircolor == AsEnum(FirstValue(sp.entries, "haircolor"), HairColors)
    ensures params.ethnicity == AsEnum(FirstValue(sp.entries, "ethnicity"), Ethnicities)
    ensures params.sex == AsEnum(FirstValue(sp.entries, "sex"), Sexes)
    ensures params.length == AsEnum(FirstValue(sp.entries, "length"), Lengths)
    ensures params.maxRecords == ParseMaxRecords(FirstValue(sp.entries, "maxRecords"))
    ensures resp.InternalError? <==> airtable(QueryFor(params)).Failure?
    ensures resp.Ok? ==> resp.data == ReferenceStyles(airtable(QueryFor(params)).value)
  {
    var haircolor := AsEnum(FirstValue(sp.entries, "haircolor"), HairColors);
    var ethnicity := AsEnum(FirstValue(sp.entries, "ethnicity"), Ethnicities);
    var sex := AsEnum(FirstValue(sp.entries, "sex"), Sexes);
    var length := AsEnum(FirstValue(sp.entries, "length"), Lengths);
    var maxRecords := ParseMaxRecords(FirstValue(sp.entries, "maxRecords"));

    params := AssembleParams(haircolor, ethnicity, sex, length, maxRecords);
    var data := GetReferenceStyles(params, airtable);
    resp := if data.Success? then Ok(data.value) else InternalError;
  }
}
