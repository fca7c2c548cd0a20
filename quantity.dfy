/**
 * The count-mode value extractor `parseQuantity` of scripts/build_latest.js and the part of
 * JavaScript's `parseInt(text, 10)` it relies on (section 19.2.5 of ECMA-262): skip leading
 * white space, take an optional sign, then the longest run of decimal digits; no digits at
 * all gives NaN, which `parseQuantity` turns into "missing".
 */
module Quantity {

  import opened Wrappers
  import opened JsString

  /** A numeral begins `t`: a digit, or a sign followed by a digit. */
  predicate StartsNumeral(t: string)
  {
    || (|t| > 0 && IsDigit(t[0]))
    || (|t| > 1 && (t[0] == '+' || t[0] == '-') && IsDigit(t[1]))
  }

  /** `parseInt` on text that no longer starts with white space: an optional sign, then
      the longest run of decimal digits; no digits at all is NaN. */
  function ParseNumeral(t: string): (r: Option<int>)
    ensures r.None? <==> !StartsNumeral(t)
  {
    var signed := |t| > 0 && (t[0] == '+' || t[0] == '-');
    var digits := DigitPrefix(if signed then t[1..] else t);
    var magnitude: int := if digits == [] then 0 else DigitsValue(digits);
    if digits == [] then None
    else if signed && t[0] == '-' then Some(-magnitude)
    else Some(magnitude)
  }

  /** `parseInt(s, 10)`, with `None` for NaN. The answer is missing exactly when no
      numeral follows the leading white space. */
  function ParseInt(s: string): (r: Option<int>)
    ensures r.None? <==> !StartsNumeral(TrimStart(s))
  {
    ParseNumeral(TrimStart(s))
  }

  /** `parseQuantity(str)`: `null`/`undefined` is missing; otherwise every `,` is removed
      and the rest goes through `parseInt(…, 10)`, NaN becoming missing. */
  function ParseQuantity(cell: Option<string>): (r: Option<int>)
    ensures cell.None? ==> r.None?
    ensures cell.Some? ==> (r.None? <==> !StartsNumeral(TrimStart(RemoveAll(cell.value, ','))))
  {
    match cell
    case None => None
    case Some(s) => ParseInt(RemoveAll(s, ','))
  }

  /** The numeral `String(n)` of an integer. */
  function Numeral(n: int): string
  {
    if n < 0 then "-" + Decimal(-n) else Decimal(n)
  }

  /** A string of digits with a `,` between every group of three, counted from the right. */
  function Grouped(d: string): (r: string)
    decreases |d|
  {
    if |d| <= 3 then d else Grouped(d[..|d| - 3]) + "," + d[|d| - 3..]
  }

  /** The numeral of `n` with thousands separators, as in "1,234,567" or "-1,234". */
  function WithSeparators(n: int): string
  {
    if n < 0 then "-" + Grouped(Decimal(-n)) else Grouped(Decimal(n))
  }

  lemma {:induction false} TrimStartNonSpace(ws: string, t: string)
    requires forall i :: 0 <= i < |ws| ==> IsWhiteSpace(ws[i])
    requires t == [] || !IsWhiteSpace(t[0])
    ensures TrimStart(ws + t) == t
  {
    if ws == [] {
      assert ws + t == t;
    } else {
      assert (ws + t)[1..] == ws[1..] + t;
      TrimStartNonSpace(ws[1..], t);
    }
  }

  /** A non-negative numeral followed by a non-digit is read as its value. */
  lemma {:induction false} ParseDigits(d: string, tail: string)
    requires AllDigits(d) && d != []
    requires tail == [] || !IsDigit(tail[0])
    ensures ParseNumeral(d + tail) == Some(DigitsValue(d))
  {
    assert (d + tail)[0] == d[0];
    DigitPrefixOfNumeral(d, tail);
  }

  /** A negative numeral followed by a non-digit is read as its value. */
  lemma {:induction false} ParseNegative(d: string, tail: string)
    requires AllDigits(d) && d != []
    requires tail == [] || !IsDigit(tail[0])
    ensures ParseNumeral("-" + d + tail) == Some(-(DigitsValue(d) as int))
  {
    var t := "-" + d + tail;
    assert t[0] == '-';
    assert t[1..] == d + tail;
    DigitPrefixOfNumeral(d, tail);
    assert DigitPrefix(t[1..]) == d;
  }

  /** `parseInt` reads back any integer numeral, whatever white space precedes it and
      whatever non-digit text follows it. */
  lemma {:induction false} ParseIntNumeral(ws: string, n: int, tail: string)
    requires forall i :: 0 <= i < |ws| ==> IsWhiteSpace(ws[i])
    requires tail == [] || !IsDigit(tail[0])
    ensures ParseInt(ws + Numeral(n) + tail) == Some(n)
  {
    var u := Numeral(n) + tail;
    assert ws + Numeral(n) + tail == ws + u;
    ParseNumeralOf(n, tail);
    TrimStartNonSpace(ws, u);
  }

  lemma {:induction false} NumeralStart(n: int, tail: string)
    ensures Numeral(n) + tail != []
    ensures !IsWhiteSpace((Numeral(n) + tail)[0])
  {
  }

  lemma {:induction false} ParseNegativeNumeral(n: int, tail: string)
    requires n < 0
    requires tail == [] || !IsDigit(tail[0])
    ensures ParseNumeral(Numeral(n) + tail) == Some(n)
  {
    var d := Decimal(-n);
    DecimalValue(-n);
    assert Numeral(n) == "-" + d;
    ParseNegative(d, tail);
  }

  lemma {:induction false} ParseNonNegativeNumeral(n: int, tail: string)
    requires n >= 0
    requires tail == [] || !IsDigit(tail[0])
    ensures ParseNumeral(Numeral(n) + tail) == Some(n)
  {
    var d := Decimal(n);
    DecimalValue(n);
    assert Numeral(n) == d;
    ParseDigits(d, tail);
  }

  /** The numeral of `n` followed by a non-digit is read as `n`, and does not start
      with white space. */
  lemma {:induction false} ParseNumeralOf(n: int, tail: string)
    requires tail == [] || !IsDigit(tail[0])
    ensures Numeral(n) + tail != []
    ensures !IsWhiteSpace((Numeral(n) + tail)[0])
    ensures ParseNumeral(Numeral(n) + tail) == Some(n)
  {
    NumeralStart(n, tail);
    if n < 0 {
      ParseNegativeNumeral(n, tail);
    } else {
      ParseNonNegativeNumeral(n, tail);
    }
  }

  /** `parseInt(String(n), 10)` is `n`. */
  lemma {:induction false} ParseIntOfNumeral(n: int)
    ensures ParseInt(Numeral(n)) == Some(n)
  {
    ParseIntNumeral([], n, []);
    assert [] + Numeral(n) + [] == Numeral(n);
  }

  lemma {:induction false} RemoveAllAppend(a: string, b: string, c: char)
    ensures RemoveAll(a + b, c) == RemoveAll(a, c) + RemoveAll(b, c)
  {
    if a == [] {
      assert a + b == b;
    } else {
      assert (a + b)[1..] == a[1..] + b;
      RemoveAllAppend(a[1..], b, c);
    }
  }

  lemma {:induction false} RemoveSeparators(d: string)
    requires AllDigits(d)
    ensures RemoveAll(Grouped(d), ',') == d
  {
    if |d| <= 3 {
      RemoveAllAbsent(d, ',');
    } else {
      var hi, lo := d[..|d| - 3], d[|d| - 3..];
      RemoveSeparators(hi);
      RemoveAllAppend(Grouped(hi) + ",", lo, ',');
      RemoveAllAppend(Grouped(hi), ",", ',');
      RemoveAllAbsent(lo, ',');
      assert hi + lo == d;
    }
  }

  /** Thousands separators do not change the quantity read: "1,234" gives 1234. */
  lemma {:induction false} ParseQuantitySeparators(n: int)
    ensures ParseQuantity(Some(WithSeparators(n))) == Some(n)
  {
    var d := Decimal(if n < 0 then -n else n);
    RemoveSeparators(d);
    if n < 0 {
      assert WithSeparators(n) == "-" + Grouped(d);
      RemoveAllAppend("-", Grouped(d), ',');
      assert RemoveAll("-", ',') == "-";
      assert Numeral(n) == "-" + d;
    } else {
      assert WithSeparators(n) == Grouped(d);
      assert Numeral(n) == d;
    }
    assert RemoveAll(WithSeparators(n), ',') == Numeral(n);
    ParseIntOfNumeral(n);
  }

  /** Commas are removed before parsing: removing them first changes nothing. */
  lemma {:induction false} ParseQuantityIgnoresCommas(s: string)
    ensures ParseQuantity(Some(s)) == ParseQuantity(Some(RemoveAll(s, ',')))
  {
    RemoveAllIdempotent(s, ',');
  }

  /** Examples: thousands separators are dropped and zero is a present value. */
  lemma ParseQuantityNumbers()
    ensures ParseQuantity(Some("1,234")) == Some(1234)
    ensures ParseQuantity(Some("0")) == Some(0)
  {
    assert Decimal(1234) == "1234";
    assert Grouped("1234") == "1,234";
    ParseQuantitySeparators(1234);
    assert Decimal(0) == "0";
    ParseQuantitySeparators(0);
  }

  /** Example: leading white space is skipped and a minus sign is read. */
  lemma ParseQuantitySigned()
    ensures ParseQuantity(Some(" -7")) == Some(-7)
  {
    assert Numeral(-7) == "-7" by {
      assert Decimal(7) == "7";
    }
    ParseIntNumeral(" ", -7, "");
    assert " " + Numeral(-7) + "" == " -7";
    RemoveAllAbsent(" -7", ',');
  }

  /** A numeral holds no comma. */
  lemma {:induction false} RemoveAllNumeral(n: int)
    ensures RemoveAll(Numeral(n), ',') == Numeral(n)
  {
    var d := Decimal(if n < 0 then -n else n);
    assert forall i :: 0 <= i < |d| ==> d[i] != ',' by {
      assert AllDigits(d);
    }
    RemoveAllAbsent(d, ',');
    if n < 0 {
      assert Numeral(n) == "-" + d;
      RemoveAllAppend("-", d, ',');
      assert RemoveAll("-", ',') == "-";
    } else {
      assert Numeral(n) == d;
    }
  }

  /** `parseInt` reads a numeral followed by a non-digit as the numeral's value. */
  lemma {:induction false} ParseIntNumeralThen(n: int, tail: string)
    requires tail == [] || !IsDigit(tail[0])
    ensures ParseInt(Numeral(n) + tail) == Some(n)
  {
    var none: string := [];
    assert none + Numeral(n) + tail == Numeral(n) + tail;
    ParseIntNumeral(none, n, tail);
  }

  /** A numeral followed by text that starts with a non-digit and holds no comma is read
      as the numeral's value: `parseInt` ignores whatever follows the digits. */
  lemma {:induction false} ParseQuantityNumeralThen(n: int, tail: string)
    requires tail == [] || !IsDigit(tail[0])
    requires ',' !in tail
    ensures ParseQuantity(Some(Numeral(n) + tail)) == Some(n)
  {
    RemoveAllNumeral(n);
    RemoveAllAbsent(tail, ',');
    RemoveAllAppend(Numeral(n), tail, ',');
    ParseIntNumeralThen(n, tail);
  }

  lemma NumeralTwelve()
    ensures Numeral(12) == "12"
  {
    assert Decimal(1) == "1";
    assert Decimal(12) == Decimal(1) + "2";
  }

  /** Example: `parseInt` stops at the first non-digit, so text after the numeral is
      ignored. */
  lemma ParseQuantityTrailingText()
    ensures ParseQuantity(Some("12abc")) == Some(12)
  {
    NumeralTwelve();
    ParseQuantityNumeralThen(12, "abc");
    assert Numeral(12) + "abc" == "12abc";
  }

  /** Example: a fractional part is ignored. */
  lemma ParseQuantityFraction()
    ensures ParseQuantity(Some("12.5")) == Some(12)
  {
    NumeralTwelve();
    ParseQuantityNumeralThen(12, ".5");
    assert Numeral(12) + ".5" == "12.5";
  }

  /** Examples: a missing cell, an empty cell and text without a numeral are missing. */
  lemma ParseQuantityMissing()
    ensures ParseQuantity(None) == None
    ensures ParseQuantity(Some("")) == None
    ensures ParseQuantity(Some("abc")) == None
  {
    assert RemoveAll("abc", ',') == "abc" by { RemoveAllAbsent("abc", ','); }
    assert TrimStart("abc") == "abc";
    assert !StartsNumeral("abc");
  }
}
