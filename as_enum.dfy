/** Case-insensitive parsing of a query-string value into one of a fixed
    set of lower-case enum members (`asEnum`). */
module EnumParsing {
  import opened Basics
  import opened Text

  /** `asEnum(value, allowed)`: `null`/`undefined` gives `null`; otherwise
      the lower-cased value when `allowed` includes it, else `null`. */
  function AsEnum(value: Option<string>, allowed: seq<string>): (r: Option<string>)
    ensures value.None? ==> r.None?
    ensures r.Some? ==> r.value in allowed
    ensures r.Some? ==> r.value == ToLower(value.value)
    ensures value.Some? ==> (r.Some? <==> ToLower(value.value) in allowed)
  {
    match value
    case None => None
    case Some(v) =>
      var lowered := ToLower(v);
      if lowered in allowed then Some(lowered) else None
  }

  /** Two strings equal up to the case of their letters. */
  predicate EqualIgnoringCase(a: string, b: string) {
    |a| == |b| && forall i :: 0 <= i < |a| ==> LowerChar(a[i]) == LowerChar(b[i])
  }

  /** Inputs that differ only in letter case parse to the same member. */
  lemma AsEnumIgnoresCase(a: string, b: string, allowed: seq<string>)
    requires EqualIgnoringCase(a, b)
    ensures AsEnum(Some(a), allowed) == AsEnum(Some(b), allowed)
  {
    assert ToLower(a) == ToLower(b);
  }

  /** A parsed member parses to itself: the result is a fixed point. */
  lemma AsEnumIdempotent(value: Option<string>, allowed: seq<string>)
    ensures AsEnum(AsEnum(value, allowed), allowed) == AsEnum(value, allowed)
  {
    if value.Some? {
      ToLowerIdempotent(value.value);
    }
  }
}
