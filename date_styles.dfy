/** The five copies of `formatMonthYear` / `formatDateRange`, each as a
    `DateStyle`, with what each prints for a known month and for a month
    number past the table. */
module DateStyles {
  import opened Wrappers
  import opened JsString
  import opened DateFormat

  const SpanishShort: seq<string> := ["Ene", "Feb", "Mar", "Abr", "May", "Jun", "Jul", "Ago", "Sep", "Oct", "Nov", "Dic"]
  const EnglishShort: seq<string> := ["Jan", "Feb", "Mar", "Apr", "May", "Jun", "Jul", "Aug", "Sep", "Oct", "Nov", "Dec"]
  const EnglishLong: seq<string> := ["January", "February", "March", "April", "May", "June",
    "July", "August", "September", "October", "November", "December"]

  /** The programador layout: `${start} → ${end}`. */
  const Arrow := DateStyle(SpanishShort, PrintUndefined, " → ", "Presente")

  /** The moderno and academico layouts, which carry identical copies:
      `${start} – ${end}` with an en dash. */
  const EnDash := DateStyle(SpanishShort, PrintUndefined, " – ", "Presente")

  /** The basic layout's own PDF document (`themes/basic/index.tsx`). */
  const BasicStyle := DateStyle(EnglishShort, PrintUndefined, " - ", "Present")

  /** The basic HTML preview: full month names, `months[i] || month`. */
  const HtmlPreview := DateStyle(EnglishLong, RawMonth, " - ", "Present")

  /** The shared PDF experience and education sections: `months[i] || month`. */
  const PdfSections := DateStyle(EnglishShort, RawMonth, " - ", "Present")

  /** The month number of a well-formed "<year>-<mm>". */
  predicate GoodMonth(m: string) {
    m != "" && AllDigits(m) && 1 <= DigitsValue(m) <= 12
  }

  /** A numeric month no table has an entry for. */
  predicate BadMonth(m: string) {
    m != "" && AllDigits(m) && (DigitsValue(m) == 0 || DigitsValue(m) > 12)
  }

  /** No month table has an empty name. */
  lemma NoBlankEntry(months: seq<string>, i: nat)
    requires months == SpanishShort || months == EnglishShort || months == EnglishLong
    requires i < |months|
    ensures months[i] != ""
  {
    assert months[i] in months;
    assert "" !in months;
  }

  predicate GoodYear(y: string) {
    y != "" && '-' !in y
  }

  lemma ArrowCurrent(y: string, m: string, endDate: string)
    requires GoodYear(y) && GoodMonth(m)
    ensures FormatDateRange(Arrow, y + "-" + m, endDate, Some(true))
      == SpanishShort[DigitsValue(m) - 1] + " " + y + " → Presente"
  {
    assert SpanishShort[DigitsValue(m) - 1] != "" by { NoBlankEntry(SpanishShort, DigitsValue(m) - 1); }
    assert Arrow.separator + Arrow.present == " → Presente";
    CurrentKnownRange(Arrow, y, m, endDate);
  }

  lemma ArrowBadMonth(y: string, m: string)
    requires GoodYear(y) && BadMonth(m)
    ensures FormatMonthYear(Arrow, y + "-" + m) == "undefined " + y
  {
    OutOfRangeMonth(Arrow, y, m);
  }

  lemma EnDashCurrent(y: string, m: string, endDate: string)
    requires GoodYear(y) && GoodMonth(m)
    ensures FormatDateRange(EnDash, y + "-" + m, endDate, Some(true))
      == SpanishShort[DigitsValue(m) - 1] + " " + y + " – Presente"
  {
    assert SpanishShort[DigitsValue(m) - 1] != "" by { NoBlankEntry(SpanishShort, DigitsValue(m) - 1); }
    assert EnDash.separator + EnDash.present == " – Presente";
    CurrentKnownRange(EnDash, y, m, endDate);
  }

  lemma EnDashBadMonth(y: string, m: string)
    requires GoodYear(y) && BadMonth(m)
    ensures FormatMonthYear(EnDash, y + "-" + m) == "undefined " + y
  {
    OutOfRangeMonth(EnDash, y, m);
  }

  lemma BasicStyleCurrent(y: string, m: string, endDate: string)
    requires GoodYear(y) && GoodMonth(m)
    ensures FormatDateRange(BasicStyle, y + "-" + m, endDate, Some(true))
      == EnglishShort[DigitsValue(m) - 1] + " " + y + " - Present"
  {
    assert EnglishShort[DigitsValue(m) - 1] != "" by { NoBlankEntry(EnglishShort, DigitsValue(m) - 1); }
    assert BasicStyle.separator + BasicStyle.present == " - Present";
    CurrentKnownRange(BasicStyle, y, m, endDate);
  }

  lemma BasicStyleBadMonth(y: string, m: string)
    requires GoodYear(y) && BadMonth(m)
    ensures FormatMonthYear(BasicStyle, y + "-" + m) == "undefined " + y
  {
    OutOfRangeMonth(BasicStyle, y, m);
  }

  lemma HtmlPreviewCurrent(y: string, m: string, endDate: string)
    requires GoodYear(y) && GoodMonth(m)
    ensures FormatDateRange(HtmlPreview, y + "-" + m, endDate, Some(true))
      == EnglishLong[DigitsValue(m) - 1] + " " + y + " - Present"
  {
    assert EnglishLong[DigitsValue(m) - 1] != "" by { NoBlankEntry(EnglishLong, DigitsValue(m) - 1); }
    assert HtmlPreview.separator + HtmlPreview.present == " - Present";
    CurrentKnownRange(HtmlPreview, y, m, endDate);
  }

  /** The raw-month fallback prints the month as written: "2020-13" gives "13 2020". */
  lemma HtmlPreviewBadMonth(y: string, m: string)
    requires GoodYear(y) && BadMonth(m)
    ensures FormatMonthYear(HtmlPreview, y + "-" + m) == m + " " + y
  {
    OutOfRangeMonth(HtmlPreview, y, m);
  }

  /** An ongoing entry of the HTML preview whose month is past the table. */
  lemma HtmlPreviewCurrentBadMonth(y: string, m: string, endDate: string)
    requires GoodYear(y) && BadMonth(m)
    ensures FormatDateRange(HtmlPreview, y + "-" + m, endDate, Some(true)) == m + " " + y + " - Present"
  {
    assert HtmlPreview.separator + HtmlPreview.present == " - Present";
    CurrentOutOfRange(HtmlPreview, y, m, endDate);
  }

  lemma PdfSectionsCurrent(y: string, m: string, endDate: string)
    requires GoodYear(y) && GoodMonth(m)
    ensures FormatDateRange(PdfSections, y + "-" + m, endDate, Some(true))
      == EnglishShort[DigitsValue(m) - 1] + " " + y + " - Present"
  {
    assert EnglishShort[DigitsValue(m) - 1] != "" by { NoBlankEntry(EnglishShort, DigitsValue(m) - 1); }
    assert PdfSections.separator + PdfSections.present == " - Present";
    CurrentKnownRange(PdfSections, y, m, endDate);
  }

  lemma PdfSectionsBadMonth(y: string, m: string)
    requires GoodYear(y) && BadMonth(m)
    ensures FormatMonthYear(PdfSections, y + "-" + m) == m + " " + y
  {
    OutOfRangeMonth(PdfSections, y, m);
  }

  /** The two English PDF styles agree on every date whose month has an
      entry; they differ only in what a month past the table prints. */
  lemma PdfStylesAgreeOnGoodMonths(y: string, m: string)
    requires GoodYear(y) && GoodMonth(m)
    ensures FormatMonthYear(PdfSections, y + "-" + m) == FormatMonthYear(BasicStyle, y + "-" + m)
  {
    assert EnglishShort[DigitsValue(m) - 1] != "" by { NoBlankEntry(EnglishShort, DigitsValue(m) - 1); }
    KnownMonth(PdfSections, y, m);
    KnownMonth(BasicStyle, y, m);
  }
}
