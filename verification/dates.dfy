/** Calendar dates and their `strftime("%Y-%m-%d")` rendering. */
module Dates {
  import opened Options
  import opened Decimal

  datatype Date = Date(year: nat, month: nat, day: nat)

  function DaysInMonth(year: nat, month: nat): nat
    requires 1 <= month <= 12
  {
    if month == 2 then
      (if (year % 4 == 0 && year % 100 != 0) || year % 400 == 0 then 29 else 28)
    else if month == 4 || month == 6 || month == 9 || month == 11 then 30
    else 31
  }

  /** A calendar date whose year prints with exactly four digits under `%Y`. */
  predicate ValidDate(d: Date) {
    && 1000 <= d.year <= 9999
    && 1 <= d.month <= 12
    && 1 <= d.day <= DaysInMonth(d.year, d.month)
  }

  /** `d.strftime("%Y-%m-%d")`, e.g. "2024-03-07". */
  function FormatDate(d: Date): (r: string)
    requires ValidDate(d)
    ensures |r| == 10 && r[4] == '-' && r[7] == '-'
    ensures AllDigits(r[..4]) && AllDigits(r[5..7]) && AllDigits(r[8..])
  {
    var r := PadDigits(d.year, 4) + "-" + PadDigits(d.month, 2) + "-" + PadDigits(d.day, 2);
    assert r[..4] == PadDigits(d.year, 4);
    assert r[5..7] == PadDigits(d.month, 2);
    assert r[8..] == PadDigits(d.day, 2);
    r
  }

  /** Reads a "YYYY-MM-DD" string; `None` for any other shape or an impossible date. */
  function ParseDate(s: string): Option<Date> {
    if |s| == 10 && s[4] == '-' && s[7] == '-'
       && AllDigits(s[..4]) && AllDigits(s[5..7]) && AllDigits(s[8..])
    then
      var d := Date(ParseDigits(s[..4]), ParseDigits(s[5..7]), ParseDigits(s[8..]));
      if ValidDate(d) then Some(d) else None
    else None
  }

  /** Every formatted date reads back as the same date. */
  lemma ParseFormatDate(d: Date)
    requires ValidDate(d)
    ensures ParseDate(FormatDate(d)) == Some(d)
  {
    var r := FormatDate(d);
    assert r[..4] == PadDigits(d.year, 4);
    assert r[5..7] == PadDigits(d.month, 2);
    assert r[8..] == PadDigits(d.day, 2);
    ParsePadDigits(d.year, 4);
    ParsePadDigits(d.month, 2);
    ParsePadDigits(d.day, 2);
  }
}
