/**
  `formatDateRange` (src/utils/date.ts): the trip header's date range.

  Each argument arrives already parsed: absent (`null`, `undefined` or ""),
  present but not a valid date, or a valid calendar date. The month
  abbreviations of `date-fns`' English locale are written out as a table.
  To show that every string the formatter produces is unambiguous, the
  module also defines a reader for those strings and proves that reading a
  formatted range gives back what the two arguments mean.
 */
module DateRange {
  import opened Common
  import opened JsText

  type Month = m: int | 1 <= m <= 12 witness 1
  type Day = d: int | 1 <= d <= 31 witness 1

  /**
    A year of the common era. `yyyy` prints the year of the era, so year 0
    (1 BC) would print as 0001, the same as year 1; only years from 1 on
    are represented.
   */
  type Year = y: int | y >= 1 witness 1

  /** A valid date in the local calendar. */
  datatype Date = Date(year: Year, month: Month, day: Day)

  /** One argument of `formatDateRange`. */
  datatype DateArg = Absent | Invalid | Valid(date: Date)

  /** The `MMM` pattern: English three-letter month abbreviations. */
  const MonthNames: seq<string> :=
    ["Jan", "Feb", "Mar", "Apr", "May", "Jun", "Jul", "Aug", "Sep", "Oct", "Nov", "Dec"]

  function MonthAbbrev(m: Month): (s: string)
    ensures |s| == 3
  {
    MonthNames[m - 1]
  }

  /** `format(d, "MMM d")`. */
  function MonthDay(d: Date): string {
    MonthAbbrev(d.month) + " " + NatToString(d.day)
  }

  /** `format(d, "yyyy")`: the year with at least four digits. */
  function YearText(y: nat): string {
    ZeroPad(NatToString(y), 4)
  }

  /** `format(d, "MMM d, yyyy")`. */
  function FullDate(d: Date): string {
    MonthDay(d) + ", " + YearText(d.year)
  }

  /**
    `formatDateRange(start, end)`. The header's opening tells which kind of
    range it shows: "Ongoing" exactly when the arguments carry no usable
    date, "Until " exactly for an end alone, "From " exactly for a start
    alone, and the start's month for two dates.
   */
  function FormatDateRange(start: DateArg, end: DateArg): (r: string)
    ensures r == "Ongoing" <==> Meaning(start, end) == Ongoing
    ensures (start.Absent? && end.Absent?) || start.Invalid? || end.Invalid? ==> r == "Ongoing"
    ensures "Until " <= r <==> Meaning(start, end).Until?
    ensures "From " <= r <==> Meaning(start, end).From?
    ensures Meaning(start, end).Between? ==> MonthAbbrev(start.date.month) <= r
  {
    OngoingIsNoPrefix();
    if start.Absent? && end.Absent? then
      "Ongoing"
    else if start.Absent? && end.Valid? then
      "Until " + FullDate(end.date)
    else if start.Valid? && end.Absent? then
      "From " + FullDate(start.date)
    else if !start.Valid? || !end.Valid? then
      "Ongoing"
    else
      var out := TwoDates(start.date, end.date);
      NotAKeyword(start.date.month, out[3..], out);
      out
  }

  /**
    The header for two valid dates: the day range within one month, the
    year once for two dates in one year, and two full dates otherwise. It
    starts with the start's month.
   */
  function TwoDates(s: Date, e: Date): (out: string)
    ensures MonthAbbrev(s.month) <= out
  {
    if s.month == e.month && s.year == e.year then
      MonthDay(s) + "-" + NatToString(e.day) + ", " + YearText(e.year)
    else if s.year == e.year then
      MonthDay(s) + " - " + FullDate(e)
    else
      FullDate(s) + " - " + FullDate(e)
  }

  /** "Ongoing" starts like neither "Until " nor "From ". */
  lemma OngoingIsNoPrefix()
    ensures !("Until " <= "Ongoing") && !("From " <= "Ongoing")
  {
    assert "Ongoing"[0] == 'O';
  }

  // ---------------------------------------------------------------------
  // What a pair of arguments means, and a reader for the formatted text
  // ---------------------------------------------------------------------

  /** What the header conveys about the trip's dates. */
  datatype RangeView = Ongoing | Until(end: Date) | From(start: Date) | Between(start: Date, end: Date)

  /**
    Only a valid end without a start, a valid start without an end, or two
    valid dates carry information; every other combination reads "Ongoing".
   */
  function Meaning(start: DateArg, end: DateArg): RangeView {
    match (start, end)
    case (Absent, Valid(e)) => Until(e)
    case (Valid(s), Absent) => From(s)
    case (Valid(s), Valid(e)) => Between(s, e)
    case _ => Ongoing
  }

  /** Reads a literal prefix. */
  function ReadLit(s: string, lit: string): Option<string> {
    if lit <= s then Some(s[|lit|..]) else None
  }

  function FindMonth(name: string, k: nat): (r: Option<Month>)
    requires k <= 12
    decreases 12 - k
  {
    if k == 12 then None
    else if MonthNames[k] == name then Some(k + 1)
    else FindMonth(name, k + 1)
  }

  /** Reads a month abbreviation. */
  function ReadMonth(s: string): Option<(Month, string)> {
    if |s| < 3 then None
    else
      var m :- FindMonth(s[..3], 0);
      Some((m, s[3..]))
  }

  /** The length of the longest prefix of decimal digits. */
  function DigitRun(s: string): (n: nat)
    ensures n <= |s| && AllDigits(s[..n])
    ensures n < |s| ==> !IsDigit(s[n])
  {
    if s != [] && IsDigit(s[0]) then
      var n := 1 + DigitRun(s[1..]);
      assert s[..n] == [s[0]] + s[1..][..n - 1];
      n
    else
      0
  }

  /** Reads a non-empty run of digits as a number. */
  function ReadNumber(s: string): Option<(nat, string)> {
    var n := DigitRun(s);
    if n == 0 then None else Some((DigitsValue(s[..n]), s[n..]))
  }

  /** Reads a day of the month. */
  function ReadDay(s: string): Option<(Day, string)> {
    var p :- ReadNumber(s);
    if 1 <= p.0 <= 31 then Some((p.0 as Day, p.1)) else None
  }

  /** Reads `MMM d, yyyy`. */
  function ReadFullDate(s: string): Option<(Date, string)> {
    var m :- ReadMonth(s);
    var r1 :- ReadLit(m.1, " ");
    var d :- ReadDay(r1);
    var r2 :- ReadLit(d.1, ", ");
    var y :- ReadNumber(r2);
    if y.0 == 0 then None else Some((Date(y.0, m.0, d.0), y.1))
  }

  /** Reads a whole header produced by `FormatDateRange`. */
  function ReadRange(s: string): Option<RangeView> {
    if s == "Ongoing" then
      Some(Ongoing)
    else if "Until " <= s then
      var e :- ReadFullDate(s[6..]);
      if e.1 == "" then Some(Until(e.0)) else None
    else if "From " <= s then
      var b :- ReadFullDate(s[5..]);
      if b.1 == "" then Some(From(b.0)) else None
    else
      ReadTwoDates(s)
  }

  /** Reads a header that starts with a date: `MMM d` and what follows it. */
  function ReadTwoDates(s: string): Option<RangeView> {
    var m :- ReadMonth(s);
    var r1 :- ReadLit(m.1, " ");
    var d :- ReadDay(r1);
    ReadRangeTail(m.0, d.0, d.1)
  }

  /** Reads what follows the first `MMM d` of a two-date header. */
  function ReadRangeTail(m: Month, d: Day, rest: string): Option<RangeView> {
    if "-" <= rest then
      // MMM d-d, yyyy
      var d2 :- ReadDay(rest[1..]);
      var r2 :- ReadLit(d2.1, ", ");
      var y :- ReadNumber(r2);
      if y.0 == 0 || y.1 != "" then None else Some(Between(Date(y.0, m, d), Date(y.0, m, d2.0)))
    else if " - " <= rest then
      // MMM d - MMM d, yyyy
      var e :- ReadFullDate(rest[3..]);
      if e.1 == "" then Some(Between(Date(e.0.year, m, d), e.0)) else None
    else
      // MMM d, yyyy - MMM d, yyyy
      var r2 :- ReadLit(rest, ", ");
      var y :- ReadNumber(r2);
      var r3 :- ReadLit(y.1, " - ");
      var e :- ReadFullDate(r3);
      if y.0 == 0 || e.1 != "" then None else Some(Between(Date(y.0, m, d), e.0))
  }

  // ---------------------------------------------------------------------
  // Reading back what was formatted
  // ---------------------------------------------------------------------

  lemma ReadLitOf(lit: string, rest: string)
    ensures ReadLit(lit + rest, lit) == Some(rest)
  {
    assert lit <= lit + rest;
    assert (lit + rest)[|lit|..] == rest;
  }

  lemma ReadMonthOf(m: Month, rest: string)
    ensures ReadMonth(MonthAbbrev(m) + rest) == Some((m, rest))
  {
    var s := MonthAbbrev(m) + rest;
    assert s[..3] == MonthAbbrev(m);
    assert s[3..] == rest;
    FindsEachMonth(m);
  }

  /** Every abbreviation is found, at its own month: no two months share one. */
  lemma FindsEachMonth(m: Month)
    ensures FindMonth(MonthAbbrev(m), 0) == Some(m)
  {
    if m == 1 { assert FindMonth("Jan", 0) == Some(1); }
    else if m == 2 { assert FindMonth("Feb", 0) == Some(2); }
    else if m == 3 { assert FindMonth("Mar", 0) == Some(3); }
    else if m == 4 { assert FindMonth("Apr", 0) == Some(4); }
    else if m == 5 { assert FindMonth("May", 0) == Some(5); }
    else if m == 6 { assert FindMonth("Jun", 0) == Some(6); }
    else if m == 7 { assert FindMonth("Jul", 0) == Some(7); }
    else if m == 8 { assert FindMonth("Aug", 0) == Some(8); }
    else if m == 9 { assert FindMonth("Sep", 0) == Some(9); }
    else if m == 10 { assert FindMonth("Oct", 0) == Some(10); }
    else if m == 11 { assert FindMonth("Nov", 0) == Some(11); }
    else { assert FindMonth("Dec", 0) == Some(12); }
  }

  lemma {:induction false} DigitRunOf(digits: string, rest: string)
    requires AllDigits(digits)
    requires rest == [] || !IsDigit(rest[0])
    ensures DigitRun(digits + rest) == |digits|
  {
    if digits != [] {
      assert (digits + rest)[1..] == digits[1..] + rest;
      DigitRunOf(digits[1..], rest);
    } else {
      assert digits + rest == rest;
    }
  }

  lemma ReadNumberOf(digits: string, rest: string)
    requires digits != [] && AllDigits(digits)
    requires rest == [] || !IsDigit(rest[0])
    ensures ReadNumber(digits + rest) == Some((DigitsValue(digits), rest))
  {
    DigitRunOf(digits, rest);
    assert (digits + rest)[..|digits|] == digits;
    assert (digits + rest)[|digits|..] == rest;
  }

  lemma ReadDayOf(d: Day, rest: string)
    requires rest == [] || !IsDigit(rest[0])
    ensures ReadDay(NatToString(d) + rest) == Some((d, rest))
  {
    ReadNumberOf(NatToString(d), rest);
    NatToStringValue(d);
  }

  lemma ReadYearOf(y: nat, rest: string)
    requires rest == [] || !IsDigit(rest[0])
    ensures ReadNumber(YearText(y) + rest) == Some((y, rest))
  {
    NatToStringValue(y);
    ZeroPadValue(NatToString(y), 4);
    ReadNumberOf(YearText(y), rest);
  }

  lemma ReadFullDateOf(d: Date, rest: string)
    requires rest == [] || !IsDigit(rest[0])
    ensures ReadFullDate(FullDate(d) + rest) == Some((d, rest))
  {
    var day, year := NatToString(d.day), YearText(d.year);
    var r2 := year + rest;
    var r1 := day + (", " + r2);
    var r0 := " " + r1;
    assert FullDate(d) + rest == MonthAbbrev(d.month) + r0;
    ReadMonthOf(d.month, r0);
    ReadLitOf(" ", r1);
    ReadDayOf(d.day, ", " + r2);
    ReadLitOf(", ", r2);
    ReadYearOf(d.year, rest);
  }

  /** No month abbreviation begins like "Ongoing", "Until " or "From ". */
  lemma MonthInitials(m: Month)
    ensures var a := MonthAbbrev(m); (a[0] != 'O' || a[1] != 'n') && a[0] != 'U' && (a[0] != 'F' || a[1] != 'r')
  {
    if m <= 6 {
      assert m == 1 || m == 2 || m == 3 || m == 4 || m == 5 || m == 6;
    } else {
      assert m == 7 || m == 8 || m == 9 || m == 10 || m == 11 || m == 12;
    }
  }

  /** A formatted full date starts with its month abbreviation. */
  lemma FullDateStartsWithMonth(d: Date, rest: string)
    ensures (FullDate(d) + rest)[..3] == MonthAbbrev(d.month)
  {
  }

  /** A two-date header never starts like "Ongoing", "Until " or "From ". */
  lemma NotAKeyword(m: Month, rest: string, out: string)
    requires out == MonthAbbrev(m) + rest
    ensures out != "Ongoing" && !("Until " <= out) && !("From " <= out)
  {
    MonthInitials(m);
    assert out[0] == MonthAbbrev(m)[0] && out[1] == MonthAbbrev(m)[1];
  }

  lemma ReadUntil(e: Date)
    ensures ReadRange(FormatDateRange(Absent, Valid(e))) == Some(Until(e))
  {
    var out := FormatDateRange(Absent, Valid(e));
    assert out == "Until " + FullDate(e);
    assert out[6..] == FullDate(e) + "";
    ReadFullDateOf(e, "");
  }

  lemma ReadFrom(s: Date)
    ensures ReadRange(FormatDateRange(Valid(s), Absent)) == Some(From(s))
  {
    var out := FormatDateRange(Valid(s), Absent);
    assert out == "From " + FullDate(s);
    assert out[0] == 'F' && out != "Ongoing" && !("Until " <= out);
    assert "From " <= out;
    assert out[5..] == FullDate(s) + "";
    ReadFullDateOf(s, "");
  }

  /** A two-date header is read by its first `MMM d`, then by what follows. */
  lemma ReadTwoDatesOf(m: Month, d: Day, rest: string, out: string)
    requires rest == [] || !IsDigit(rest[0])
    requires out == MonthAbbrev(m) + (" " + (NatToString(d) + rest))
    ensures ReadRange(out) == ReadRangeTail(m, d, rest)
  {
    NotAKeyword(m, " " + (NatToString(d) + rest), out);
    ReadMonthOf(m, " " + (NatToString(d) + rest));
    ReadLitOf(" ", NatToString(d) + rest);
    ReadDayOf(d, rest);
  }

  lemma ReadSameMonth(s: Date, e: Date)
    requires s.month == e.month && s.year == e.year
    ensures ReadRange(FormatDateRange(Valid(s), Valid(e))) == Some(Between(s, e))
  {
    var out := TwoDates(s, e);
    assert FormatDateRange(Valid(s), Valid(e)) == out;
    var r3 := YearText(e.year);
    var r2 := NatToString(e.day) + (", " + r3);
    SameMonthShape(s, e, out, r2);
    ReadTwoDatesOf(s.month, s.day, "-" + r2, out);
    assert ("-" + r2)[1..] == r2;
    ReadDayOf(e.day, ", " + r3);
    ReadLitOf(", ", r3);
    assert r3 == r3 + "";
    ReadYearOf(e.year, "");
  }

  lemma ReadSameYear(s: Date, e: Date)
    requires s.month != e.month && s.year == e.year
    ensures ReadRange(FormatDateRange(Valid(s), Valid(e))) == Some(Between(s, e))
  {
    var out := TwoDates(s, e);
    assert FormatDateRange(Valid(s), Valid(e)) == out;
    var tail := FullDate(e);
    Regroup5(MonthAbbrev(s.month), " ", NatToString(s.day), " - ", tail);
    ReadTwoDatesOf(s.month, s.day, " - " + tail, out);
    SameYearTail(s.month, s.day, e);
  }

  lemma SameYearTail(m: Month, d: Day, e: Date)
    ensures ReadRangeTail(m, d, " - " + FullDate(e)) == Some(Between(Date(e.year, m, d), e))
  {
    var tail := FullDate(e);
    var rest := " - " + tail;
    assert rest[0] == ' ';
    assert !("-" <= rest) && " - " <= rest;
    assert rest[3..] == tail + "";
    ReadFullDateOf(e, "");
  }

  lemma ReadDifferentYears(s: Date, e: Date)
    requires s.year != e.year
    ensures ReadRange(FormatDateRange(Valid(s), Valid(e))) == Some(Between(s, e))
  {
    var out := TwoDates(s, e);
    assert FormatDateRange(Valid(s), Valid(e)) == out;
    var tail := FullDate(e);
    var r3 := " - " + tail;
    var r2 := YearText(s.year) + r3;
    DifferentYearsShape(s, e, out, r2);
    ReadTwoDatesOf(s.month, s.day, ", " + r2, out);
    DifferentYearsTail(s.month, s.day, s.year, e);
  }

  lemma DifferentYearsTail(m: Month, d: Day, y: Year, e: Date)
    ensures ReadRangeTail(m, d, ", " + (YearText(y) + (" - " + FullDate(e)))) == Some(Between(Date(y, m, d), e))
  {
    var tail := FullDate(e);
    var r3 := " - " + tail;
    var r2 := YearText(y) + r3;
    var rest := ", " + r2;
    assert rest[0] == ',';
    assert !("-" <= rest) && !(" - " <= rest);
    ReadLitOf(", ", r2);
    ReadYearOf(y, r3);
    ReadLitOf(" - ", tail);
    assert tail == tail + "";
    ReadFullDateOf(e, "");
  }

  lemma SameMonthShape(s: Date, e: Date, out: string, r2: string)
    requires s.month == e.month && s.year == e.year
    requires out == TwoDates(s, e)
    requires r2 == NatToString(e.day) + (", " + YearText(e.year))
    ensures out == MonthAbbrev(s.month) + (" " + (NatToString(s.day) + ("-" + r2)))
  {
    Regroup7(MonthAbbrev(s.month), " ", NatToString(s.day), "-", NatToString(e.day), ", ", YearText(e.year));
  }

  lemma DifferentYearsShape(s: Date, e: Date, out: string, r2: string)
    requires s.year != e.year
    requires out == TwoDates(s, e)
    requires r2 == YearText(s.year) + (" - " + FullDate(e))
    ensures out == MonthAbbrev(s.month) + (" " + (NatToString(s.day) + (", " + r2)))
  {
    Regroup7(MonthAbbrev(s.month), " ", NatToString(s.day), ", ", YearText(s.year), " - ", FullDate(e));
  }

  /** Regrouping a concatenation of five pieces to the right. */
  lemma Regroup5(a: string, b: string, c: string, d: string, e: string)
    ensures a + b + c + d + e == a + (b + (c + (d + e)))
  {
  }

  /** Regrouping a concatenation of seven pieces to the right. */
  lemma Regroup7(a: string, b: string, c: string, d: string, e: string, f: string, g: string)
    ensures a + b + c + d + e + f + g == a + (b + (c + (d + (e + (f + g)))))
  {
  }

  /**
    The formatter loses nothing: reading the header back yields exactly what
    the two arguments mean. In particular distinct meaningful ranges never
    share a header, and "Ongoing" appears exactly when the arguments carry
    no usable date.
   */
  lemma ReadFormatted(start: DateArg, end: DateArg)
    ensures ReadRange(FormatDateRange(start, end)) == Some(Meaning(start, end))
  {
    match (start, end)
    case (Absent, Valid(e)) => ReadUntil(e);
    case (Valid(s), Absent) => ReadFrom(s);
    case (Valid(s), Valid(e)) =>
      if s.month == e.month && s.year == e.year {
        ReadSameMonth(s, e);
      } else if s.year == e.year {
        ReadSameYear(s, e);
      } else {
        ReadDifferentYears(s, e);
      }
    case _ =>
  }

  /** Only a valid end: "Until " and the end date, which can be read back. */
  lemma OnlyEnd(e: Date)
    ensures var out := FormatDateRange(Absent, Valid(e));
      "Until " <= out && ReadFullDate(out[6..]) == Some((e, ""))
  {
    var out := FormatDateRange(Absent, Valid(e));
    assert out[6..] == FullDate(e) + "";
    ReadFullDateOf(e, "");
  }

  /** Only a valid start: "From " and the start date, which can be read back. */
  lemma OnlyStart(s: Date)
    ensures var out := FormatDateRange(Valid(s), Absent);
      "From " <= out && ReadFullDate(out[5..]) == Some((s, ""))
  {
    var out := FormatDateRange(Valid(s), Absent);
    assert out[5..] == FullDate(s) + "";
    ReadFullDateOf(s, "");
  }

  lemma YearTexts()
    ensures YearText(2025) == "2025" && YearText(2026) == "2026"
  {
    assert NatToString(20) == "20";
    assert NatToString(202) == "202";
    assert NatToString(2025) == "2025" && NatToString(2026) == "2026";
  }

  /** Same month and year: `MMM d-d, yyyy`, as in the source's first example. */
  lemma SameMonthExample(s: Date, e: Date)
    requires s == Date(2025, 10, 20) && e == Date(2025, 10, 22)
    ensures FormatDateRange(Valid(s), Valid(e)) == "Oct 20-22, 2025"
  {
    assert FormatDateRange(Valid(s), Valid(e)) == TwoDates(s, e) == MonthDay(s) + "-" + NatToString(e.day) + ", " + YearText(e.year);
    YearTexts();
    assert NatToString(20) == "20" && NatToString(22) == "22";
    assert MonthDay(s) == "Oct 20";
  }

  /** Same year, different months: `MMM d - MMM d, yyyy`. */
  lemma SameYearExample(s: Date, e: Date)
    requires s == Date(2025, 9, 30) && e == Date(2025, 10, 2)
    ensures FormatDateRange(Valid(s), Valid(e)) == "Sep 30 - Oct 2, 2025"
  {
    assert FormatDateRange(Valid(s), Valid(e)) == TwoDates(s, e);
    SameYearText(s, e);
  }

  lemma SameYearText(s: Date, e: Date)
    requires s == Date(2025, 9, 30) && e == Date(2025, 10, 2)
    ensures TwoDates(s, e) == "Sep 30 - Oct 2, 2025"
  {
    SeptemberThirtieth(s);
    OctoberSecond(e);
    assert TwoDates(s, e) == "Sep 30" + " - " + "Oct 2, 2025";
  }

  lemma SeptemberThirtieth(d: Date)
    requires d == Date(2025, 9, 30)
    ensures MonthDay(d) == "Sep 30"
  {
    assert NatToString(30) == "30";
  }

  lemma OctoberSecond(d: Date)
    requires d == Date(2025, 10, 2)
    ensures FullDate(d) == "Oct 2, 2025"
  {
    YearTexts();
    assert NatToString(2) == "2";
    assert MonthDay(d) == "Oct 2";
  }

  /** Different years: two full dates joined by " - ". */
  lemma DifferentYearsExample(s: Date, e: Date)
    requires s == Date(2025, 12, 30) && e == Date(2026, 1, 2)
    ensures FormatDateRange(Valid(s), Valid(e)) == "Dec 30, 2025 - Jan 2, 2026"
  {
    assert FormatDateRange(Valid(s), Valid(e)) == TwoDates(s, e);
    DifferentYearsText(s, e);
  }

  lemma DifferentYearsText(s: Date, e: Date)
    requires s == Date(2025, 12, 30) && e == Date(2026, 1, 2)
    ensures TwoDates(s, e) == "Dec 30, 2025 - Jan 2, 2026"
  {
    DecemberThirtieth(s);
    JanuarySecond(e);
    assert TwoDates(s, e) == "Dec 30, 2025" + " - " + "Jan 2, 2026";
    assert "Dec 30, 2025" + " - " == "Dec 30, 2025 - ";
  }

  lemma DecemberThirtieth(d: Date)
    requires d == Date(2025, 12, 30)
    ensures FullDate(d) == "Dec 30, 2025"
  {
    YearTexts();
    assert NatToString(30) == "30";
    assert MonthDay(d) == "Dec 30";
  }

  lemma JanuarySecond(d: Date)
    requires d == Date(2026, 1, 2)
    ensures FullDate(d) == "Jan 2, 2026"
  {
    YearTexts();
    assert NatToString(2) == "2";
    assert MonthDay(d) == "Jan 2";
  }
}
