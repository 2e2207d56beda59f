/** The reference-style catalog: the Airtable filter formula built from the
    query parameters (`buildFilterFormula`), the `select` query it is sent
    with, and the conversion of the returned records into reference styles
    (`getReferenceStyles`). The Airtable service itself is a parameter. */
module ReferenceBase {
  import opened Basics
  import opened Text

  /** The lower-case values each categorical column may take. */
  const HairColors: seq<string> := ["black", "brown", "blonde"]
  const Ethnicities: seq<string> := ["asian", "black", "white", "brown"]
  const Sexes: seq<string> := ["male", "female"]
  const Lengths: seq<string> := ["short", "medium", "long"]

  /** `GetReferenceStylesParams`: every field optional. */
  datatype GetReferenceStylesParams = GetReferenceStylesParams(
    haircolor: Option<string>,
    ethnicity: Option<string>,
    sex: Option<string>,
    length: Option<string>,
    maxRecords: Option<int>)

  const NoParams := GetReferenceStylesParams(None, None, None, None, None)

  /** The two conditions every query carries: a photo and a name. */
  const PhotoCondition: string := "NOT({Photo} = BLANK())"
  const NameCondition: string := "NOT({Name} = '')"

  const DefaultMaxRecords := 20

  /** The columns a caller may filter on, in the order the formula lists them. */
  const FilterColumns: seq<string> := ["Sex", "Ethnicity", "Hair Color", "Length"]

  /** The condition that selects rows whose `column`, lower-cased, is `value`. */
  function FieldCondition(column: string, value: string): string {
    "LOWER({" + column + "})='" + value + "'"
  }

  /** `if (params.x)`: a parameter takes part when present and non-empty. */
  predicate Supplied(v: Option<string>) {
    v.Some? && v.value != ""
  }

  /** The parameter that filters `column`. */
  function ParamFor(p: GetReferenceStylesParams, column: string): Option<string> {
    if column == "Sex" then p.sex
    else if column == "Ethnicity" then p.ethnicity
    else if column == "Hair Color" then p.haircolor
    else if column == "Length" then p.length
    else None
  }

  /** The conditions contributed by the supplied parameters of `columns`,
      in the order of `columns`. */
  function SuppliedConditions(p: GetReferenceStylesParams, columns: seq<string>): seq<string> {
    if columns == [] then []
    else ConditionFor(columns[0], ParamFor(p, columns[0])) + SuppliedConditions(p, columns[1..])
  }

  /** The condition one parameter contributes: one when supplied, none otherwise. */
  function ConditionFor(column: string, v: Option<string>): seq<string> {
    if Supplied(v) then [FieldCondition(column, v.value)] else []
  }

  /** The conditions of the formula: the two base conditions, then one per
      supplied parameter in column order. */
  function Conditions(p: GetReferenceStylesParams): seq<string> {
    [PhotoCondition, NameCondition] + SuppliedConditions(p, FilterColumns)
  }

  /** The formula: the conjunction of all conditions. */
  function FilterFormula(p: GetReferenceStylesParams): (f: string)
    ensures |f| >= 5 && f[..4] == "AND(" && f[|f| - 1] == ')'
  {
    var f := "AND(" + Join(Conditions(p), ",") + ")";
    assert f[..4] == "AND(";
    f
  }

  /** `buildFilterFormula`: pushes one condition per supplied parameter onto
      the two base conditions, then joins them under `AND(...)`. */
  method BuildFilterFormula(params: GetReferenceStylesParams) returns (formula: string)
    ensures formula == FilterFormula(params)
  {
    var conditions := [PhotoCondition, NameCondition];
    if Supplied(params.sex) {
      conditions := conditions + [FieldCondition("Sex", params.sex.value)];
    }
    assert conditions == [PhotoCondition, NameCondition] + ConditionFor("Sex", params.sex);
    if Supplied(params.ethnicity) {
      conditions := conditions + [FieldCondition("Ethnicity", params.ethnicity.value)];
    }
    assert conditions == [PhotoCondition, NameCondition] + ConditionFor("Sex", params.sex)
                         + ConditionFor("Ethnicity", params.ethnicity);
    if Supplied(params.haircolor) {
      conditions := conditions + [FieldCondition("Hair Color", params.haircolor.value)];
    }
    assert conditions == [PhotoCondition, NameCondition] + ConditionFor("Sex", params.sex)
                         + ConditionFor("Ethnicity", params.ethnicity)
                         + ConditionFor("Hair Color", params.haircolor);
    if Supplied(params.length) {
      conditions := conditions + [FieldCondition("Length", params.length.value)];
    }
    assert conditions == [PhotoCondition, NameCondition] + ConditionFor("Sex", params.sex)
                         + ConditionFor("Ethnicity", params.ethnicity)
                         + ConditionFor("Hair Color", params.haircolor)
                         + ConditionFor("Length", params.length);
    formula := "AND(" + Join(conditions, ",") + ")";
    ConditionsInColumnOrder(params);
  }

  /** Each filter column reads its own parameter. */
  lemma ParamForColumns(p: GetReferenceStylesParams)
    ensures ParamFor(p, "Sex") == p.sex && ParamFor(p, "Ethnicity") == p.ethnicity
    ensures ParamFor(p, "Hair Color") == p.haircolor && ParamFor(p, "Length") == p.length
  {
    assert "Ethnicity"[0] != "Sex"[0];
    assert "Hair Color"[0] != "Sex"[0] && "Hair Color"[0] != "Ethnicity"[0];
    assert "Length"[0] != "Sex"[0] && "Length"[0] != "Ethnicity"[0] && "Length"[0] != "Hair Color"[0];
  }

  /** The conditions come in a fixed order: the photo and name conditions,
      then sex, ethnicity, hair colour and length, each only when supplied. */
  lemma ConditionsInColumnOrder(p: GetReferenceStylesParams)
    ensures Conditions(p)
         == [PhotoCondition, NameCondition]
            + ConditionFor("Sex", p.sex)
            + ConditionFor("Ethnicity", p.ethnicity)
            + ConditionFor("Hair Color", p.haircolor)
            + ConditionFor("Length", p.length)
  {
    ParamForColumns(p);
    var cols := FilterColumns;
    assert cols[1..] == ["Ethnicity", "Hair Color", "Length"];
    assert cols[1..][1..] == ["Hair Color", "Length"];
    assert cols[1..][1..][1..] == ["Length"];
    assert cols[1..][1..][1..][1..] == [];
    assert SuppliedConditions(p, ["Length"]) == ConditionFor("Length", p.length);
    assert SuppliedConditions(p, ["Hair Color", "Length"])
        == ConditionFor("Hair Color", p.haircolor) + ConditionFor("Length", p.length);
    assert SuppliedConditions(p, ["Ethnicity", "Hair Color", "Length"])
        == ConditionFor("Ethnicity", p.ethnicity) + ConditionFor("Hair Color", p.haircolor)
           + ConditionFor("Length", p.length);
  }

  /** Number of parameters among `columns` that are supplied. */
  function CountSupplied(p: GetReferenceStylesParams, columns: seq<string>): nat {
    if columns == [] then 0
    else (if Supplied(ParamFor(p, columns[0])) then 1 else 0) + CountSupplied(p, columns[1..])
  }

  /** Each supplied parameter adds exactly one condition to the base two. */
  lemma {:induction false} ConditionCount(p: GetReferenceStylesParams, columns: seq<string>)
    ensures |SuppliedConditions(p, columns)| == CountSupplied(p, columns)
  {
    if columns != [] {
      ConditionCount(p, columns[1..]);
    }
  }

  /** A column name is read back from its condition: the character after
      "LOWER({" is the column's first letter, and the value is what stands
      between "='" and the final quote. */
  lemma FieldConditionParts(column: string, value: string)
    requires column != ""
    ensures |FieldCondition(column, value)| == |column| + |value| + 12
    ensures FieldCondition(column, value)[0] == 'L'
    ensures FieldCondition(column, value)[7] == column[0]
    ensures FieldCondition(column, value)[|column| + 11..|column| + 11 + |value|] == value
  {
    var s := FieldCondition(column, value);
    assert s == "LOWER({" + column + "})='" + value + "'";
    assert s[7] == column[0];
    assert s[|column| + 11..|column| + 11 + |value|] == value;
  }

  /** Distinct columns or distinct values give distinct conditions, and no
      field condition equals a base condition. */
  lemma FieldConditionInjective(c1: string, v1: string, c2: string, v2: string)
    requires c1 in FilterColumns && c2 in FilterColumns
    requires FieldCondition(c1, v1) == FieldCondition(c2, v2)
    ensures c1 == c2 && v1 == v2
  {
    FieldConditionParts(c1, v1);
    FieldConditionParts(c2, v2);
    assert c1[0] == c2[0];
    assert c1 == c2;
  }

  /** The condition for `column` and `value` is in the formula exactly when
      that column's parameter is supplied with that value. */
  lemma {:induction false} SuppliedConditionMembership(p: GetReferenceStylesParams, columns: seq<string>, column: string, value: string)
    requires column in FilterColumns
    requires forall c :: c in columns ==> c in FilterColumns
    requires forall i, j :: 0 <= i < j < |columns| ==> columns[i] != columns[j]
    ensures FieldCondition(column, value) in SuppliedConditions(p, columns)
        <==> column in columns && Supplied(ParamFor(p, column)) && ParamFor(p, column).value == value
  {
    if columns != [] {
      SuppliedConditionMembership(p, columns[1..], column, value);
      var v := ParamFor(p, columns[0]);
      if Supplied(v) && FieldCondition(columns[0], v.value) == FieldCondition(column, value) {
        FieldConditionInjective(columns[0], v.value, column, value);
      }
      if column == columns[0] {
        assert column !in columns[1..] by {
          forall k | 0 <= k < |columns[1..]| ensures columns[1..][k] != column {
            assert columns[1..][k] == columns[k + 1];
          }
        }
      }
    }
  }

  /** The formula holds a condition for `column` (one of the filter columns)
      and `value` exactly when that parameter is supplied with that value;
      unsupplied parameters add nothing. */
  lemma ConditionMembership(p: GetReferenceStylesParams, column: string, value: string)
    requires column in FilterColumns
    ensures FieldCondition(column, value) in Conditions(p)
        <==> Supplied(ParamFor(p, column)) && ParamFor(p, column).value == value
  {
    SuppliedConditionMembership(p, FilterColumns, column, value);
    FieldConditionParts(column, value);
    assert FieldCondition(column, value) != PhotoCondition;
    assert FieldCondition(column, value) != NameCondition;
  }

  /** The formula always starts with the two base conditions. */
  lemma FormulaStartsWithBase(p: GetReferenceStylesParams)
    ensures |FilterFormula(p)| >= |"AND(" + PhotoCondition + "," + NameCondition|
    ensures FilterFormula(p)[..|"AND(" + PhotoCondition + "," + NameCondition|]
         == "AND(" + PhotoCondition + "," + NameCondition
  {
    var rest := SuppliedConditions(p, FilterColumns);
    var cs := Conditions(p);
    assert cs[1..] == [NameCondition] + rest;
    var tail := Join(cs[1..], ",");
    assert tail[..|NameCondition|] == NameCondition by {
      if rest == [] {
        assert cs[1..] == [NameCondition];
      } else {
        assert cs[1..][1..] == rest;
      }
    }
    assert Join(cs, ",") == PhotoCondition + "," + tail;
  }

  /** Without parameters the formula is exactly the two base conditions. */
  lemma FormulaWithoutParams()
    ensures FilterFormula(NoParams) == "AND(" + PhotoCondition + "," + NameCondition + ")"
  {
    ConditionsInColumnOrder(NoParams);
    assert Conditions(NoParams) == [PhotoCondition, NameCondition];
    JoinPair(PhotoCondition, NameCondition, ",");
  }

  lemma JoinPair(a: string, b: string, sep: string)
    ensures Join([a, b], sep) == a + sep + b
  {
    assert [a, b][1..] == [b];
  }

  /** The `select` options sent to the `Main` table. */
  datatype SelectQuery = SelectQuery(
    maxRecords: int,
    view: string,
    filterByFormula: string,
    fields: seq<string>)

  const SelectedFields: seq<string> :=
    ["Name", "Photo", "Length", "Sex", "Ethnicity", "Hair Color", "External Link"]

  /** The query `getReferenceStyles` sends: `maxRecords` defaults to 20 and
      the formula is built from the other parameters only. */
  function QueryFor(p: GetReferenceStylesParams): (q: SelectQuery)
    ensures q.maxRecords == (if p.maxRecords.Some? then p.maxRecords.value else DefaultMaxRecords)
    ensures q.filterByFormula == FilterFormula(p.(maxRecords := None))
    ensures q.filterByFormula == FilterFormula(p)
  {
    ConditionsInColumnOrder(p);
    ConditionsInColumnOrder(p.(maxRecords := None));
    SelectQuery(p.maxRecords.GetOr(DefaultMaxRecords), "Grid view", FilterFormula(p.(maxRecords := None)), SelectedFields)
  }

  /** A photo attachment of a record. */
  datatype Attachment = Attachment(url: Option<string>)

  /** A row of the `Main` table as Airtable returns it; any cell may be empty. */
  datatype AirtableRecord = AirtableRecord(
    name: Option<string>,
    photo: Option<seq<Attachment>>,
    length: Option<string>,
    sex: Option<string>,
    ethnicity: Option<string>,
    hairColor: Option<string>,
    externalLink: Option<string>)

  /** `ReferenceStyle`. The categorical fields are whatever the cell held,
      lower-cased; they are not checked against the enum values. */
  datatype ReferenceStyle = ReferenceStyle(
    imageUrl: string,
    name: string,
    haircolor: string,
    ethnicity: string,
    sex: string,
    length: string,
    externalLink: Option<string>)

  /** `record.get('Name') || ''`. */
  function NameOf(rec: AirtableRecord): string {
    rec.name.GetOr("")
  }

  /** `attachments[0]?.url || ''`. */
  function ImageUrlOf(rec: AirtableRecord): string {
    var attachments := rec.photo.GetOr([]);
    if attachments == [] then "" else attachments[0].url.GetOr("")
  }

  /** `String(cell || '').toLowerCase()`. */
  function Attribute(cell: Option<string>): string {
    ToLower(cell.GetOr(""))
  }

  /** The conversion of one record: dropped (`None`) without a name or a
      photo URL, otherwise its lower-cased attributes with an empty
      external link turned into `undefined`. */
  function ToReferenceStyle(rec: AirtableRecord): (r: Option<ReferenceStyle>)
    ensures r.Some? <==> NameOf(rec) != "" && ImageUrlOf(rec) != ""
    ensures r.Some? ==> r.value.name == NameOf(rec) && r.value.imageUrl == ImageUrlOf(rec)
    ensures r.Some? ==> (r.value.length == Attribute(rec.length)
                      && r.value.sex == Attribute(rec.sex)
                      && r.value.ethnicity == Attribute(rec.ethnicity)
                      && r.value.haircolor == Attribute(rec.hairColor))
    ensures r.Some? ==> (r.value.externalLink.Some? <==> rec.externalLink.Some? && rec.externalLink.value != "")
    ensures r.Some? && r.value.externalLink.Some? ==> r.value.externalLink == rec.externalLink
  {
    var name := NameOf(rec);
    var imageUrl := ImageUrlOf(rec);
    var externalLink := if rec.externalLink == Some("") then None else rec.externalLink;
    if imageUrl == "" || name == "" then None
    else Some(ReferenceStyle(imageUrl, name, Attribute(rec.hairColor), Attribute(rec.ethnicity),
                             Attribute(rec.sex), Attribute(rec.length), externalLink))
  }

  /** `.filter(v => v !== null)`: the present values, in order. */
  function Present<T(!new)>(xs: seq<Option<T>>): (r: seq<T>)
    ensures |r| <= |xs|
    ensures forall y :: y in r <==> Some(y) in xs
  {
    if xs == [] then []
    else (if xs[0].Some? then [xs[0].value] else []) + Present(xs[1..])
  }

  /** Filtering distributes over concatenation, so it keeps input order. */
  lemma {:induction false} PresentAppend<T(!new)>(a: seq<Option<T>>, b: seq<Option<T>>)
    ensures Present(a + b) == Present(a) + Present(b)
  {
    if a != [] {
      assert (a + b)[1..] == a[1..] + b;
      PresentAppend(a[1..], b);
    } else {
      assert a + b == b;
    }
  }

  /** The records converted and filtered, as `getReferenceStyles` returns them. */
  function ReferenceStyles(records: seq<AirtableRecord>): (styles: seq<ReferenceStyle>)
    ensures |styles| <= |records|
    ensures forall s :: s in styles ==> s.name != "" && s.imageUrl != ""
  {
    var converted := seq(|records|, i requires 0 <= i < |records| => ToReferenceStyle(records[i]));
    assert forall s :: s in Present(converted) ==> s.name != "" && s.imageUrl != "" by {
      forall s | s in Present(converted) ensures s.name != "" && s.imageUrl != "" {
        var i :| 0 <= i < |converted| && converted[i] == Some(s);
        assert ToReferenceStyle(records[i]) == Some(s);
      }
    }
    Present(converted)
  }

  /** The surviving styles are exactly the conversions of the records that
      have a name and a photo URL; each has a non-empty name and URL. */
  lemma ReferenceStylesMembership(records: seq<AirtableRecord>, s: ReferenceStyle)
    ensures s in ReferenceStyles(records)
        <==> exists i :: 0 <= i < |records| && ToReferenceStyle(records[i]) == Some(s)
    ensures s in ReferenceStyles(records) ==> s.name != "" && s.imageUrl != ""
  {
    var converted := seq(|records|, i requires 0 <= i < |records| => ToReferenceStyle(records[i]));
    if s in ReferenceStyles(records) {
      var i :| 0 <= i < |converted| && converted[i] == Some(s);
      assert ToReferenceStyle(records[i]) == Some(s);
    }
    if exists i :: 0 <= i < |records| && ToReferenceStyle(records[i]) == Some(s) {
      var i :| 0 <= i < |records| && ToReferenceStyle(records[i]) == Some(s);
      assert converted[i] == Some(s);
    }
  }

  /** Conversion keeps input order: the styles of two batches of records
      are the styles of the first followed by those of the second. */
  lemma ReferenceStylesAppend(a: seq<AirtableRecord>, b: seq<AirtableRecord>)
    ensures ReferenceStyles(a + b) == ReferenceStyles(a) + ReferenceStyles(b)
  {
    var ca := seq(|a|, i requires 0 <= i < |a| => ToReferenceStyle(a[i]));
    var cb := seq(|b|, i requires 0 <= i < |b| => ToReferenceStyle(b[i]));
    var ab := a + b;
    assert seq(|ab|, i requires 0 <= i < |ab| => ToReferenceStyle(ab[i])) == ca + cb;
    PresentAppend(ca, cb);
  }

  /** `getReferenceStyles`: one `select` call on the `Main` table (an
      oracle that may fail), then the conversion of what it returned. */
  function GetReferenceStyles(params: GetReferenceStylesParams,
                              airtable: SelectQuery -> Result<seq<AirtableRecord>, Error>)
    : (r: Result<seq<ReferenceStyle>, Error>)
    ensures airtable(QueryFor(params)).Failure? ==> r == Failure(airtable(QueryFor(params)).error)
    ensures airtable(QueryFor(params)).Success? ==> r == Success(ReferenceStyles(airtable(QueryFor(params)).value))
    ensures r.Success? ==> forall s :: s in r.value ==> s.name != "" && s.imageUrl != ""
  {
    match airtable(QueryFor(params))
    case Failure(e) => Failure(e)
    case Success(records) => Success(ReferenceStyles(records))
  }
}
