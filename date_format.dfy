/** The `formatMonthYear` / `formatDateRange` pair that every theme and PDF
    section carries its own copy of. The copies differ only in the month
    table, the separator, the label for an ongoing entry and what an
    unknown month prints, so they are one definition over a `DateStyle`. */
module DateFormat {
  import opened Wrappers
  import opened JsString

  /** What a month with no table entry prints: `months[i]` interpolated
      as is ("undefined"), or `months[i] || month` (the raw segment). */
  datatype Fallback = PrintUndefined | RawMonth

  datatype DateStyle = DateStyle(months: seq<string>, fallback: Fallback, separator: string, present: string)

  /** `const [year, month] = dateStr.split('-')`: the first piece, and the
      second if there is one (None is `undefined`). */
  function YearPart(d: string): string {
    Split(d, '-')[0]
  }

  function MonthPart(d: string): Option<string> {
    var parts := Split(d, '-');
    if |parts| >= 2 then Some(parts[1]) else None
  }

  /** `!year || !month` fails to hold. */
  predicate HasYearAndMonth(d: string) {
    YearPart(d) != "" && MonthPart(d).Some? && MonthPart(d).value != ""
  }

  /** The table entry `parseInt(month, 10) - 1` selects, if any. */
  function MonthIndex(style: DateStyle, month: string): (r: Option<nat>)
    ensures r.Some? ==> r.value < |style.months|
  {
    var n := ParseInt(month);
    if n.Some? && 1 <= n.value <= |style.months| then Some(n.value - 1) else None
  }

  /** The month as printed. */
  function MonthName(style: DateStyle, month: string): string {
    var idx := MonthIndex(style, month);
    match style.fallback
    case PrintUndefined => if idx.Some? then style.months[idx.value] else "undefined"
    case RawMonth => if idx.Some? && style.months[idx.value] != "" then style.months[idx.value] else month
  }

  /** `formatMonthYear`: "" stays "", a date lacking a year or a month
      segment comes back unchanged, any other gives "<month> <year>". */
  function FormatMonthYear(style: DateStyle, d: string): (r: string)
    ensures d == "" ==> r == ""
    ensures d != "" && !HasYearAndMonth(d) ==> r == d
    ensures HasYearAndMonth(d) ==> r == MonthName(style, MonthPart(d).value) + " " + YearPart(d)
  {
    if d == "" then ""
    else if !HasYearAndMonth(d) then d
    else MonthName(style, MonthPart(d).value) + " " + YearPart(d)
  }

  /** The part after the separator. */
  function EndLabel(style: DateStyle, endDate: string, current: Option<bool>): string {
    if current == Some(true) then style.present else FormatMonthYear(style, endDate)
  }

  /** `formatDateRange`: nothing without a start date; otherwise start,
      separator, and the present label or the formatted end. */
  function FormatDateRange(style: DateStyle, startDate: string, endDate: string, current: Option<bool>): (r: string)
    ensures startDate == "" ==> r == ""
    ensures startDate != "" ==> r == FormatMonthYear(style, startDate) + style.separator + EndLabel(style, endDate, current)
    ensures startDate != "" && current == Some(true) ==> r == FormatMonthYear(style, startDate) + style.separator + style.present
  {
    if startDate == "" then ""
    else FormatMonthYear(style, startDate) + style.separator + EndLabel(style, endDate, current)
  }

  /** An ongoing entry never looks at its end date. */
  lemma CurrentIgnoresEnd(style: DateStyle, startDate: string, end1: string, end2: string)
    ensures FormatDateRange(style, startDate, end1, Some(true)) == FormatDateRange(style, startDate, end2, Some(true))
  {
  }

  /** The first piece of a split is everything before the first separator. */
  lemma SplitHead(a: string, b: string)
    requires '-' !in a
    ensures Split(a + "-" + b, '-')[0] == a
    ensures Split(a + "-" + b, '-')[1..] == Split(b, '-')
  {
    var s := a + "-" + b;
    IndexOfAfter(a, '-', b);
    assert s[..|a|] == a;
    assert s[|a| + 1..] == b;
  }

  /** The segments of "<year>-<month>". */
  lemma DateParts(y: string, m: string)
    requires '-' !in y && '-' !in m
    ensures YearPart(y + "-" + m) == y
    ensures MonthPart(y + "-" + m) == Some(m)
  {
    SplitHead(y, m);
    assert Split(m, '-') == [m];
  }

  /** Anything after a second `-` (a day, say) is ignored. */
  lemma DatePartsWithDay(y: string, m: string, rest: string)
    requires '-' !in y && '-' !in m
    ensures YearPart(y + "-" + (m + "-" + rest)) == y
    ensures MonthPart(y + "-" + (m + "-" + rest)) == Some(m)
  {
    SplitHead(y, m + "-" + rest);
    SplitHead(m, rest);
  }

  /** A year with no month segment ("2020") is returned unchanged. */
  lemma YearOnlyUnchanged(style: DateStyle, y: string)
    requires '-' !in y
    ensures FormatMonthYear(style, y) == y
  {
  }

  /** An empty month segment ("2020-") or an empty year ("-05") returns the
      input unchanged. */
  lemma EmptySegmentUnchanged(style: DateStyle, y: string, m: string)
    requires '-' !in y && '-' !in m
    requires y == "" || m == ""
    ensures FormatMonthYear(style, y + "-" + m) == y + "-" + m
  {
    DateParts(y, m);
  }

  /** A digits-only month selects the entry its number names. */
  lemma DigitsMonthIndex(style: DateStyle, m: string)
    requires m != "" && AllDigits(m) && 1 <= DigitsValue(m) <= |style.months|
    ensures MonthIndex(style, m) == Some(DigitsValue(m) - 1)
  {
    var v := DigitsValue(m);
    assert ParseInt(m) == Some(v) by { ParseDigits(m); }
  }

  /** Digits never include the date separator. */
  lemma DigitsNoHyphen(m: string)
    requires AllDigits(m)
    ensures '-' !in m
  {
  }

  /** A month whose number has a table entry prints that entry before the year. */
  lemma KnownMonth(style: DateStyle, y: string, m: string)
    requires y != "" && '-' !in y
    requires m != "" && AllDigits(m) && 1 <= DigitsValue(m) <= |style.months|
    requires style.months[DigitsValue(m) - 1] != ""
    ensures FormatMonthYear(style, y + "-" + m) == style.months[DigitsValue(m) - 1] + " " + y
  {
    var v := DigitsValue(m);
    assert '-' !in m by { DigitsNoHyphen(m); }
    assert MonthIndex(style, m) == Some(v - 1) by { DigitsMonthIndex(style, m); }
    KnownMonthName(style, m, v - 1);
    assert FormatMonthYear(style, y + "-" + m) == MonthName(style, m) + " " + y by { MonthDate(style, y, m); }
  }

  /** A month with a non-empty table entry prints that entry in either style. */
  lemma KnownMonthName(style: DateStyle, m: string, idx: nat)
    requires MonthIndex(style, m) == Some(idx) && style.months[idx] != ""
    ensures MonthName(style, m) == style.months[idx]
  {
  }

  /** A well-formed "<year>-<month>" prints the month's name and the year. */
  lemma MonthDate(style: DateStyle, y: string, m: string)
    requires y != "" && '-' !in y && m != "" && '-' !in m
    ensures FormatMonthYear(style, y + "-" + m) == MonthName(style, m) + " " + y
  {
    var d := y + "-" + m;
    DateParts(y, m);
    assert HasYearAndMonth(d);
  }

  /** A month with no table entry (not a number, 0, or past the table)
      prints "undefined" or itself, according to the style. */
  lemma UnknownMonth(style: DateStyle, y: string, m: string)
    requires y != "" && '-' !in y && m != "" && '-' !in m
    requires MonthIndex(style, m).None?
    ensures FormatMonthYear(style, y + "-" + m)
      == (if style.fallback == PrintUndefined then "undefined" else m) + " " + y
  {
    MonthDate(style, y, m);
  }

  /** A digits-only month number outside 1..12 has no entry in a
      twelve-month table. */
  lemma OutOfRangeDigits(style: DateStyle, m: string)
    requires |style.months| == 12
    requires m != "" && AllDigits(m) && (DigitsValue(m) == 0 || DigitsValue(m) > 12)
    ensures MonthIndex(style, m).None?
  {
    ParseDigits(m);
  }

  /** An ongoing entry whose start month has a table entry: the month name,
      the year, the separator and the present label. */
  lemma CurrentKnownRange(style: DateStyle, y: string, m: string, endDate: string)
    requires y != "" && '-' !in y
    requires m != "" && AllDigits(m) && 1 <= DigitsValue(m) <= |style.months|
    requires style.months[DigitsValue(m) - 1] != ""
    ensures FormatDateRange(style, y + "-" + m, endDate, Some(true))
      == style.months[DigitsValue(m) - 1] + " " + y + (style.separator + style.present)
  {
    KnownMonth(style, y, m);
    ConcatAssoc(style.months[DigitsValue(m) - 1] + " " + y, style.separator, style.present);
  }

  /** A finished entry with both months in the table prints both. */
  lemma ClosedKnownRange(style: DateStyle, y1: string, m1: string, y2: string, m2: string, current: Option<bool>)
    requires current != Some(true)
    requires y1 != "" && '-' !in y1 && y2 != "" && '-' !in y2
    requires m1 != "" && AllDigits(m1) && 1 <= DigitsValue(m1) <= |style.months|
    requires m2 != "" && AllDigits(m2) && 1 <= DigitsValue(m2) <= |style.months|
    requires style.months[DigitsValue(m1) - 1] != "" && style.months[DigitsValue(m2) - 1] != ""
    ensures FormatDateRange(style, y1 + "-" + m1, y2 + "-" + m2, current)
      == style.months[DigitsValue(m1) - 1] + " " + y1 + style.separator + style.months[DigitsValue(m2) - 1] + " " + y2
  {
    KnownMonth(style, y1, m1);
    KnownMonth(style, y2, m2);
  }

  /** A finished entry without an end date ends in a bare separator. */
  lemma MissingEndDate(style: DateStyle, startDate: string, current: Option<bool>)
    requires startDate != "" && current != Some(true)
    ensures FormatDateRange(style, startDate, "", current) == FormatMonthYear(style, startDate) + style.separator
  {
  }

  /** A numeric month outside 1..12 in a twelve-month table prints
      "undefined" or the month as written, according to the style. */
  lemma OutOfRangeMonth(style: DateStyle, y: string, m: string)
    requires |style.months| == 12
    requires y != "" && '-' !in y
    requires m != "" && AllDigits(m) && (DigitsValue(m) == 0 || DigitsValue(m) > 12)
    ensures FormatMonthYear(style, y + "-" + m)
      == (if style.fallback == PrintUndefined then "undefined" else m) + " " + y
  {
    DigitsNoHyphen(m);
    OutOfRangeDigits(style, m);
    UnknownMonth(style, y, m);
  }

  /** An ongoing entry whose numeric start month is outside 1..12 in a
      twelve-month table. */
  lemma CurrentOutOfRange(style: DateStyle, y: string, m: string, endDate: string)
    requires |style.months| == 12
    requires y != "" && '-' !in y
    requires m != "" && AllDigits(m) && (DigitsValue(m) == 0 || DigitsValue(m) > 12)
    ensures FormatDateRange(style, y + "-" + m, endDate, Some(true))
      == (if style.fallback == PrintUndefined then "undefined" else m) + " " + y + (style.separator + style.present)
  {
    OutOfRangeMonth(style, y, m);
    ConcatAssoc((if style.fallback == PrintUndefined then "undefined" else m) + " " + y, style.separator, style.present);
  }
}
