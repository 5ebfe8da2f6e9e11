/**
 * The year that `new Date(`${v}T00:00:00Z`).getUTCFullYear()` yields, following
 * the Date Time String Format of ECMAScript (section 21.4.1.32 of ECMA-262):
 * with the time "T00:00:00Z" appended, the text before it must be a date of the
 * form YYYY, YYYY-MM or YYYY-MM-DD (MM from 01 to 12, DD from 01 to 31).
 * Any other text gives an invalid date, whose year is NaN: `None` here.
 */
module JsDate {
  import opened Wrappers
  import opened Decimal
  import opened JsValues

  /** A two-digit field whose value lies in [lo, hi]. */
  predicate TwoDigitsIn(s: string, lo: nat, hi: nat) {
    |s| == 2 && AllDigits(s) && lo <= DigitsValue(s) <= hi
  }

  /** The year of a date-only string in the Date Time String Format. */
  function IsoYear(s: string): (y: Option<int>)
    ensures y.Some? ==> 0 <= y.value < 10000
  {
    if |s| < 4 || !AllDigits(s[..4]) then None
    else if |s| == 4 then Some(DigitsValue(s[..4]))
    else if |s| < 7 || s[4] != '-' || !TwoDigitsIn(s[5..7], 1, 12) then None
    else if |s| == 7 then Some(DigitsValue(s[..4]))
    else if |s| == 10 && s[7] == '-' && TwoDigitsIn(s[8..10], 1, 31) then Some(DigitsValue(s[..4]))
    else None
  }

  /**
   * The UTC year of the value written into the template literal: a string is
   * used as it is, and only a number can render as another valid date.
   */
  function UtcFullYear(v: Value): (y: Option<int>)
    ensures y.Some? ==> 0 <= y.value < 10000
  {
    match v
    case Str(s) => IsoYear(s)
    // a number renders as its digits; only 1000 to 9999 give four of them
    case Num(Finite(r)) => if r == r.Floor as real && 1000.0 <= r <= 9999.0 then Some(r.Floor) else None
    // "undefined", "null", "true", "false", "NaN" are no dates
    case _ => None
  }

  /** YYYY-MM-DD, YYYY-MM and YYYY, written with zero padding, all give back the year. */
  lemma IsoYearOfFormatted(y: nat, m: nat, d: nat)
    requires y < 10000 && 1 <= m <= 12 && 1 <= d <= 31
    ensures IsoYear(Digits(y, 4)) == Some(y)
    ensures IsoYear(Digits(y, 4) + "-" + Digits(m, 2)) == Some(y)
    ensures IsoYear(Digits(y, 4) + "-" + Digits(m, 2) + "-" + Digits(d, 2)) == Some(y)
  {
    DigitsRoundTrip(y, 4);
    DigitsRoundTrip(m, 2);
    DigitsRoundTrip(d, 2);
    var yy, mm, dd := Digits(y, 4), Digits(m, 2), Digits(d, 2);
    assert yy[..4] == yy;
    IsoYearOfParts(yy, mm, dd);
  }

  /** The month and the full date of a valid year, month and day field carry the year. */
  lemma IsoYearOfParts(yy: string, mm: string, dd: string)
    requires |yy| == 4 && AllDigits(yy) && TwoDigitsIn(mm, 1, 12) && TwoDigitsIn(dd, 1, 31)
    ensures IsoYear(yy + "-" + mm) == Some(DigitsValue(yy))
    ensures IsoYear(yy + "-" + mm + "-" + dd) == Some(DigitsValue(yy))
  {
    var ym := yy + "-" + mm;
    assert ym[..4] == yy && ym[4] == '-' && ym[5..7] == mm;
    var ymd := ym + "-" + dd;
    assert ymd[..4] == yy && ymd[4] == '-' && ymd[5..7] == mm && ymd[7] == '-' && ymd[8..10] == dd;
  }

  /**
   * A string with a year has one of the three lengths, the year is its first
   * four digits, and its month and day fields are dash-separated and in range.
   */
  lemma IsoYearShape(s: string)
    requires IsoYear(s).Some?
    ensures |s| == 4 || |s| == 7 || |s| == 10
    ensures AllDigits(s[..4]) && IsoYear(s).value == DigitsValue(s[..4])
    ensures |s| >= 7 ==> s[4] == '-' && TwoDigitsIn(s[5..7], 1, 12)
    ensures |s| == 10 ==> s[7] == '-' && TwoDigitsIn(s[8..10], 1, 31)
  {
  }

  /** A month outside 01..12 makes the whole date invalid, whatever the day. */
  lemma IsoYearRejectsMonth(y: nat, m: nat, d: nat)
    requires y < 10000 && 12 < m < 100 && d < 100
    ensures IsoYear(Digits(y, 4) + "-" + Digits(m, 2) + "-" + Digits(d, 2)) == None
  {
    DigitsRoundTrip(m, 2);
    var s := Digits(y, 4) + "-" + Digits(m, 2) + "-" + Digits(d, 2);
    assert s[5..7] == Digits(m, 2);
  }
}
