/** The handful of JavaScript string operations the core relies on:
    `toLowerCase`, `includes`, `join`, the white-space trimming shared by
    `parseInt` and `Number`, `parseInt(s, 10)`, `Number(s)`, decimal
    printing of integers and the decoding of a byte buffer into text. */
module Text {
  import opened Basics

  /** `toLowerCase` on one character (ASCII letters only). */
  function LowerChar(c: char): char {
    if 'A' <= c <= 'Z' then (c as int + 32) as char else c
  }

  /** `String.prototype.toLowerCase` (ASCII letters only). */
  function ToLower(s: string): string {
    seq(|s|, i requires 0 <= i < |s| => LowerChar(s[i]))
  }

  /** Lower-casing twice is lower-casing once. */
  lemma ToLowerIdempotent(s: string)
    ensures ToLower(ToLower(s)) == ToLower(s)
  {
    var t := ToLower(s);
    forall i | 0 <= i < |s| ensures ToLower(t)[i] == t[i] {
      assert t[i] == LowerChar(s[i]);
    }
  }

  /** `s.includes(sub)`. */
  predicate Contains(s: string, sub: string) {
    exists i :: 0 <= i <= |s| - |sub| && OccursAt(s, sub, i)
  }

  /** `sub` occurs in `s` starting at index `i`. */
  predicate OccursAt(s: string, sub: string, i: int)
    requires 0 <= i <= |s| - |sub|
  {
    s[i..i + |sub|] == sub
  }

  /** `xs.join(sep)`. */
  function Join(xs: seq<string>, sep: string): string {
    if |xs| == 0 then ""
    else if |xs| == 1 then xs[0]
    else xs[0] + sep + Join(xs[1..], sep)
  }

  /** The characters ECMAScript's `parseInt` and `Number` skip around a
      numeral: white space and line terminators (StrWhiteSpaceChar). */
  predicate IsJsWhitespace(c: char) {
    c == '\t' || c == '\n' || c == '\U{B}' || c == '\U{C}' || c == '\r' || c == ' '
    || c == '\U{A0}' || c == '\U{1680}' || ('\U{2000}' <= c <= '\U{200A}')
    || c == '\U{2028}' || c == '\U{2029}' || c == '\U{202F}' || c == '\U{205F}'
    || c == '\U{3000}' || c == '\U{FEFF}'
  }

  function TrimStart(s: string): (r: string)
    ensures |r| <= |s|
    ensures r == s[|s| - |r|..]
    ensures r == [] || !IsJsWhitespace(r[0])
  {
    if s != [] && IsJsWhitespace(s[0]) then TrimStart(s[1..]) else s
  }

  /** `TrimStart` removes white space and nothing else. */
  lemma {:induction false} TrimStartRemovesOnlySpace(s: string)
    ensures forall i :: 0 <= i < |s| - |TrimStart(s)| ==> IsJsWhitespace(s[i])
  {
    if s != [] && IsJsWhitespace(s[0]) {
      TrimStartRemovesOnlySpace(s[1..]);
      assert forall i :: 1 <= i < |s| ==> s[i] == s[1..][i - 1];
    }
  }

  function TrimEnd(s: string): (r: string)
    ensures |r| <= |s|
    ensures r == s[..|r|]
    ensures r == [] || !IsJsWhitespace(r[|r| - 1])
  {
    if s != [] && IsJsWhitespace(s[|s| - 1]) then TrimEnd(s[..|s| - 1]) else s
  }

  /** `TrimEnd` removes white space and nothing else. */
  lemma {:induction false} TrimEndRemovesOnlySpace(s: string)
    ensures forall i :: |TrimEnd(s)| <= i < |s| ==> IsJsWhitespace(s[i])
  {
    if s != [] && IsJsWhitespace(s[|s| - 1]) {
      TrimEndRemovesOnlySpace(s[..|s| - 1]);
    }
  }

  predicate IsDigit(c: char) { '0' <= c <= '9' }

  predicate AllDigits(s: string) { forall i :: 0 <= i < |s| ==> IsDigit(s[i]) }

  function DigitValue(c: char): nat
    requires IsDigit(c)
  {
    c as int - '0' as int
  }

  function DigitChar(d: nat): char
    requires d < 10
  {
    ('0' as int + d) as char
  }

  /** The value of a string of decimal digits. */
  function DecimalValue(digits: string): nat
    requires AllDigits(digits)
  {
    if digits == [] then 0
    else DecimalValue(digits[..|digits| - 1]) * 10 + DigitValue(digits[|digits| - 1])
  }

  /** The longest prefix of `s` made of decimal digits. */
  function DigitPrefix(s: string): (r: string)
    ensures AllDigits(r)
    ensures r == [] <==> s == [] || !IsDigit(s[0])
  {
    if s != [] && IsDigit(s[0]) then [s[0]] + DigitPrefix(s[1..]) else []
  }

  /** A numeral's start: a digit, or a sign followed by a digit. */
  predicate StartsWithDigit(t: string) {
    (t != [] && IsDigit(t[0])) || (|t| >= 2 && (t[0] == '-' || t[0] == '+') && IsDigit(t[1]))
  }

  /** A numeral without its sign, if it has one. */
  function Unsigned(t: string): string {
    if t != [] && (t[0] == '-' || t[0] == '+') then t[1..] else t
  }

  /** `parseInt(s, 10)`: skip leading white space, take an optional sign,
      then the longest run of decimal digits; `None` stands for `NaN`, the
      result when there is no digit. */
  function ParseInt(s: string): (r: Option<int>)
    ensures r.Some? <==> StartsWithDigit(TrimStart(s))
    ensures r.Some? && r.value < 0 ==> TrimStart(s)[0] == '-'
    ensures r.Some? && TrimStart(s)[0] == '-' ==> r.value <= 0
  {
    LeadingInteger(TrimStart(s))
  }

  /** The integer a string starts with: an optional sign, then the longest
      run of decimal digits. */
  function LeadingInteger(t: string): (r: Option<int>)
    ensures r.Some? <==> StartsWithDigit(t)
    ensures r.Some? && r.value < 0 ==> t[0] == '-'
    ensures r.Some? && t[0] == '-' ==> r.value <= 0
  {
    var digits := DigitPrefix(Unsigned(t));
    if digits == [] then None
    else if t != [] && t[0] == '-' then Some(-(DecimalValue(digits) as int))
    else Some(DecimalValue(digits))
  }

  /** What `Number(s)` gives for the numerals the model covers. */
  datatype NumberValue = Integral(value: int) | PlusInfinity | MinusInfinity | NaN

  /** An optional sign followed by at least one decimal digit, and nothing
      else. */
  predicate SignedDigits(t: string) {
    Unsigned(t) != [] && AllDigits(Unsigned(t))
  }

  /** The integer a `SignedDigits` string denotes. */
  function SignedValue(t: string): int
    requires SignedDigits(t)
  {
    if t[0] == '-' then -(DecimalValue(Unsigned(t)) as int) else DecimalValue(Unsigned(t))
  }

  /** The infinite numerals `Number` accepts. */
  predicate IsInfinity(t: string) {
    t == "Infinity" || t == "+Infinity" || t == "-Infinity"
  }

  /** `Number(s)` on a string: white space around the numeral is ignored, a
      blank string is 0, a signed run of decimal digits is that integer and
      (+/-)"Infinity" is infinite; everything else is `NaN` here. Wherever
      it reads an integer from a non-blank string, `parseInt` reads the
      same integer. */
  function ToNumber(s: string): (r: NumberValue)
    ensures TrimEnd(TrimStart(s)) == "" ==> r == Integral(0)
    ensures SignedDigits(TrimEnd(TrimStart(s))) ==> r == Integral(SignedValue(TrimEnd(TrimStart(s))))
    ensures r.PlusInfinity? <==> TrimEnd(TrimStart(s)) == "Infinity" || TrimEnd(TrimStart(s)) == "+Infinity"
    ensures r.MinusInfinity? <==> TrimEnd(TrimStart(s)) == "-Infinity"
    ensures r.NaN? <==> TrimEnd(TrimStart(s)) != "" && !SignedDigits(TrimEnd(TrimStart(s)))
                        && !IsInfinity(TrimEnd(TrimStart(s)))
    ensures r.Integral? && TrimEnd(TrimStart(s)) != "" ==> ParseInt(s) == Some(r.value)
  {
    var ts := TrimStart(s);
    var t := TrimEnd(ts);
    var r := NumeralValue(t);
    if r.Integral? && t != "" then
      TrimEndRemovesOnlySpace(ts);
      NumeralThenSpace(ts, t);
      r
    else r
  }

  /** The value of a numeral with no white space around it. */
  function NumeralValue(t: string): (r: NumberValue)
    ensures t == "" ==> r == Integral(0)
    ensures SignedDigits(t) ==> r == Integral(SignedValue(t))
    ensures r.PlusInfinity? <==> t == "Infinity" || t == "+Infinity"
    ensures r.MinusInfinity? <==> t == "-Infinity"
    ensures r.NaN? <==> t != "" && !SignedDigits(t) && !IsInfinity(t)
    ensures r.Integral? && t != "" ==> SignedDigits(t)
  {
    if t == "" then Integral(0)
    else if t == "Infinity" || t == "+Infinity" then PlusInfinity
    else if t == "-Infinity" then MinusInfinity
    else if SignedDigits(t) then Integral(SignedValue(t))
    else NaN
  }

  /** `n.toString()` for a non-negative integer. */
  function NatToDecimal(n: nat): string {
    if n < 10 then [DigitChar(n)] else NatToDecimal(n / 10) + [DigitChar(n % 10)]
  }

  /** `n.toString()` / `${n}` for any integer. */
  function IntToDecimal(n: int): string {
    if n < 0 then "-" + NatToDecimal(-n) else NatToDecimal(n)
  }

  /** Decoding a byte buffer as text (one character per byte). */
  function DecodeBytes(b: Bytes): (s: string)
    ensures |s| == |b|
  {
    seq(|b|, i requires 0 <= i < |b| => (b[i] as int) as char)
  }

  /** Printing a natural number gives a non-empty run of digits whose value
      is that number. */
  lemma {:induction false} DecimalRoundTrip(n: nat)
    ensures NatToDecimal(n) != [] && AllDigits(NatToDecimal(n))
    ensures DecimalValue(NatToDecimal(n)) == n
  {
    if n >= 10 {
      DecimalRoundTrip(n / 10);
      var p := NatToDecimal(n / 10);
      var s := p + [DigitChar(n % 10)];
      assert s[..|s| - 1] == p;
    }
  }

  /** The digit prefix of digits followed by a non-digit is those digits. */
  lemma {:induction false} DigitPrefixOf(digits: string, rest: string)
    requires AllDigits(digits)
    requires rest == [] || !IsDigit(rest[0])
    ensures DigitPrefix(digits + rest) == digits
  {
    if digits != [] {
      assert (digits + rest)[1..] == digits[1..] + rest;
      DigitPrefixOf(digits[1..], rest);
    } else {
      assert digits + rest == rest;
    }
  }

  /** A numeral followed by white space only. */
  lemma NumeralThenSpace(ts: string, t: string)
    requires t != [] && |t| <= |ts| && t == ts[..|t|]
    requires forall i :: |t| <= i < |ts| ==> IsJsWhitespace(ts[i])
    requires SignedDigits(t)
    ensures LeadingInteger(ts) == LeadingInteger(t)
    ensures LeadingInteger(t) == Some(SignedValue(t))
  {
    var w := ts[|t|..];
    assert ts == t + w;
    UnsignedAppend(t, w);
    TrailingSpaceIgnored(Unsigned(t), w);
    DigitPrefixOf(Unsigned(t), []);
    assert Unsigned(t) + [] == Unsigned(t);
    assert DigitPrefix(Unsigned(ts)) == Unsigned(t) == DigitPrefix(Unsigned(t));
    assert ts[0] == t[0];
  }

  /** White space after a numeral stays after it once the sign is gone. */
  lemma UnsignedAppend(t: string, w: string)
    requires t != []
    ensures Unsigned(t + w) == Unsigned(t) + w
  {
    assert (t + w)[0] == t[0];
    if t[0] == '-' || t[0] == '+' {
      assert (t + w)[1..] == t[1..] + w;
    }
  }

  /** Digits followed by white space: the white space ends the numeral. */
  lemma TrailingSpaceIgnored(digits: string, w: string)
    requires AllDigits(digits)
    requires forall i :: 0 <= i < |w| ==> IsJsWhitespace(w[i])
    ensures DigitPrefix(digits + w) == digits
  {
    assert w == [] || !IsDigit(w[0]);
    DigitPrefixOf(digits, w);
  }

  /** `TrimStart` drops a leading run of white space and stops at the
      first other character. */
  lemma {:induction false} TrimStartSkipsSpace(ws: string, t: string)
    requires forall i :: 0 <= i < |ws| ==> IsJsWhitespace(ws[i])
    requires t == [] || !IsJsWhitespace(t[0])
    ensures TrimStart(ws + t) == t
  {
    if ws == [] {
      assert ws + t == t;
    } else {
      assert (ws + t)[1..] == ws[1..] + t;
      TrimStartSkipsSpace(ws[1..], t);
    }
  }

  /** `parseInt` skips leading white space, takes an optional sign and
      reads the digits up to the first non-digit, ignoring whatever follows:
      " +12px" gives 12 and "-12px" gives -12. */
  lemma ParseIntLeadingInteger(ws: string, sign: string, digits: string, rest: string)
    requires forall i :: 0 <= i < |ws| ==> IsJsWhitespace(ws[i])
    requires sign == "" || sign == "+" || sign == "-"
    requires digits != [] && AllDigits(digits)
    requires rest == [] || !IsDigit(rest[0])
    ensures ParseInt(ws + sign + digits + rest)
            == Some(if sign == "-" then -(DecimalValue(digits) as int) else DecimalValue(digits))
  {
    var t := sign + digits + rest;
    assert ws + sign + digits + rest == ws + t;
    SignedStartIsNotSpace(sign, digits, rest);
    TrimStartSkipsSpace(ws, t);
    SignedLeadingInteger(sign, digits, rest);
  }

  /** A numeral starts with a sign or a digit, neither of them white space. */
  lemma SignedStartIsNotSpace(sign: string, digits: string, rest: string)
    requires sign == "" || sign == "+" || sign == "-"
    requires digits != [] && AllDigits(digits)
    ensures !IsJsWhitespace((sign + digits + rest)[0])
  {
    var c := (sign + digits + rest)[0];
    assert c == (if sign == "" then digits[0] else sign[0]);
    assert IsDigit(digits[0]);
    assert c == '+' || c == '-' || '0' <= c <= '9';
  }

  /** The leading integer of a signed digit run followed by a non-digit. */
  lemma SignedLeadingInteger(sign: string, digits: string, rest: string)
    requires sign == "" || sign == "+" || sign == "-"
    requires digits != [] && AllDigits(digits)
    requires rest == [] || !IsDigit(rest[0])
    ensures LeadingInteger(sign + digits + rest)
            == Some(if sign == "-" then -(DecimalValue(digits) as int) else DecimalValue(digits))
  {
    if sign == "" {
      assert sign + digits + rest == digits + rest;
      UnsignedLeadingInteger(digits, rest);
    } else {
      assert sign + digits + rest == [sign[0]] + (digits + rest);
      SignThenLeadingInteger(sign[0], digits, rest);
    }
  }

  /** Digits followed by a non-digit read as their value. */
  lemma UnsignedLeadingInteger(digits: string, rest: string)
    requires digits != [] && AllDigits(digits)
    requires rest == [] || !IsDigit(rest[0])
    ensures LeadingInteger(digits + rest) == Some(DecimalValue(digits))
  {
    DigitPrefixOf(digits, rest);
    assert (digits + rest)[0] == digits[0] && IsDigit(digits[0]);
  }

  /** A sign, then digits followed by a non-digit: the digits' value, negated
      after '-'. */
  lemma SignThenLeadingInteger(c: char, digits: string, rest: string)
    requires c == '+' || c == '-'
    requires digits != [] && AllDigits(digits)
    requires rest == [] || !IsDigit(rest[0])
    ensures LeadingInteger([c] + (digits + rest))
            == Some(if c == '-' then -(DecimalValue(digits) as int) else DecimalValue(digits))
  {
    var t := [c] + (digits + rest);
    assert t[0] == c && t[1..] == digits + rest;
    DigitPrefixOf(digits, rest);
    assert DigitPrefix(Unsigned(t)) == digits;
  }

  /** A bare run of digits has no white space to trim and is its own
      unsigned numeral. */
  lemma DigitsAreNumeral(s: string)
    requires s != [] && AllDigits(s)
    ensures TrimStart(s) == s && TrimEnd(s) == s
    ensures SignedDigits(s) && SignedValue(s) == DecimalValue(s)
  {
    assert IsDigit(s[0]) && IsDigit(s[|s| - 1]);
    assert !IsJsWhitespace(s[0]) && !IsJsWhitespace(s[|s| - 1]);
    assert Unsigned(s) == s;
  }

  /** `parseInt` reads back what `toString` printed. */
  lemma ParseIntOfDecimal(n: nat)
    ensures ParseInt(NatToDecimal(n)) == Some(n)
  {
    var s := NatToDecimal(n);
    DecimalRoundTrip(n);
    DigitsAreNumeral(s);
    UnsignedLeadingInteger(s, []);
    assert s + [] == s;
  }

  /** `Number` reads back what `toString` printed. */
  lemma ToNumberOfDecimal(n: nat)
    ensures ToNumber(NatToDecimal(n)) == Integral(n)
  {
    DecimalRoundTrip(n);
    DigitsAreNumeral(NatToDecimal(n));
  }
}
