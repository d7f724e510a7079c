/**
 * The reports of showReports: four calendar windows built from today's date,
 * the vendor search and the custom search, each run through the query engine.
 */
module Reports {
  import opened Wrappers
  import opened Text
  import opened Calendar
  import opened Codec
  import opened Query

  /** Menu entries 1 to 6 of the reports screen. */
  datatype Report =
    | MonthToDate
    | PreviousMonth
    | YearToDate
    | PreviousYear
    | VendorSearch(input: string)
    | CustomSearch(startIn: string, endIn: string, descIn: string, vendorIn: string, amountIn: string)

  /**
   * `today.minusMonths(1).withDayOfMonth(1)`: the first day of the month
   * before today's, which is December of the year before in January.
   */
  function PreviousMonthStart(today: Date): (r: Date)
    requires ValidDate(today)
    ensures ValidDate(r) && r.day == 1
  {
    if today.month == 1 then Date(today.year - 1, 12, 1) else Date(today.year, today.month - 1, 1)
  }

  /** The inclusive window [start, end] a calendar report passes to filterByDate. */
  function Window(r: Report, today: Date): (w: (Date, Date))
    requires ValidDate(today) && !r.VendorSearch? && !r.CustomSearch?
    ensures ValidDate(w.0) && ValidDate(w.1) && OnOrBefore(w.0, w.1)
  {
    match r
    case MonthToDate => (Date(today.year, today.month, 1), today)
    case PreviousMonth =>
      var start := PreviousMonthStart(today);
      (start, Date(start.year, start.month, LengthOfMonth(start.year, start.month)))
    case YearToDate => (Date(today.year, 1, 1), today)
    case PreviousYear => (Date(today.year - 1, 1, 1), Date(today.year - 1, 12, 31))
  }

  /** The query each report runs; the vendor query is the answer trimmed and lower-cased. */
  function ReportFilter(r: Report, today: Date): Filter
    requires ValidDate(today)
  {
    match r
    case VendorSearch(input) => ByVendor(ToLower(Trim(input)))
    case CustomSearch(s, e, d, v, a) => Custom(CustomCriteria(s, e, d, v, a))
    case _ => var w := Window(r, today); ByDate(w.0, w.1)
  }

  /** One pass through a reports menu entry: the transactions it shows. */
  method RunReport(transactions: seq<Transaction>, r: Report, today: Date) returns (results: seq<Transaction>)
    requires ValidDate(today)
    ensures results == Select(transactions, ReportFilter(r, today))
  {
    match r {
      case VendorSearch(input) =>
        var v := ToLower(Trim(input));
        results := SearchByVendor(transactions, v);
      case CustomSearch(s, e, d, v, a) =>
        results := RunCustomSearch(transactions, s, e, d, v, a);
      case _ =>
        var w := Window(r, today);
        results := FilterByDate(transactions, w.0, w.1);
    }
  }

  // ----- What each window holds, for real calendar dates -----

  /** Month to date: this month, up to and including today. */
  lemma MonthToDateWindow(today: Date, d: Date)
    requires ValidDate(today) && ValidDate(d)
    ensures var w := Window(MonthToDate, today);
            InRange(w.0, w.1, d) <==> d.year == today.year && d.month == today.month && d.day <= today.day
  {
  }

  /** Previous month: every day of the calendar month before today's, and nothing else. */
  lemma PreviousMonthWindow(today: Date, d: Date)
    requires ValidDate(today) && ValidDate(d)
    ensures var w := Window(PreviousMonth, today);
            InRange(w.0, w.1, d) <==>
              if today.month == 1 then d.year == today.year - 1 && d.month == 12
              else d.year == today.year && d.month == today.month - 1
  {
  }

  /** The previous-month window ends the day before the first of this month. */
  lemma PreviousMonthAdjoins(today: Date)
    requires ValidDate(today)
    ensures NextDay(Window(PreviousMonth, today).1) == Date(today.year, today.month, 1)
  {
  }

  /** Year to date: this year, up to and including today. */
  lemma YearToDateWindow(today: Date, d: Date)
    requires ValidDate(today) && ValidDate(d)
    ensures var w := Window(YearToDate, today);
            InRange(w.0, w.1, d) <==> d.year == today.year && OnOrBefore(d, today)
  {
  }

  /** Previous year: every day of the year before today's. */
  lemma PreviousYearWindow(today: Date, d: Date)
    requires ValidDate(today) && ValidDate(d)
    ensures var w := Window(PreviousYear, today);
            InRange(w.0, w.1, d) <==> d.year == today.year - 1
  {
  }

  /** The previous month of March is February, 29 days long in a leap year and 28 otherwise. */
  lemma FebruaryWindows()
    ensures Window(PreviousMonth, Date(2024, 3, 15)) == (Date(2024, 2, 1), Date(2024, 2, 29))
    ensures Window(PreviousMonth, Date(2023, 3, 15)) == (Date(2023, 2, 1), Date(2023, 2, 28))
    ensures Window(PreviousMonth, Date(1900, 3, 1)) == (Date(1900, 2, 1), Date(1900, 2, 28))
    ensures Window(PreviousMonth, Date(2000, 3, 31)) == (Date(2000, 2, 1), Date(2000, 2, 29))
  {
  }

  /** In January the previous month is December of the previous year. */
  lemma JanuaryWindow()
    ensures Window(PreviousMonth, Date(2024, 1, 10)) == (Date(2023, 12, 1), Date(2023, 12, 31))
  {
  }

  /** A calendar report shows exactly the loaded transactions dated inside its window, in file order. */
  lemma {:induction false} CalendarReportMembership(ts: seq<Transaction>, r: Report, today: Date, t: Transaction)
    requires ValidDate(today) && !r.VendorSearch? && !r.CustomSearch?
    ensures var w := Window(r, today);
            t in Select(ts, ReportFilter(r, today)) <==> t in ts && InRange(w.0, w.1, t.date)
    ensures IsSubsequence(Select(ts, ReportFilter(r, today)), ts)
  {
    SelectMembership(ts, ReportFilter(r, today), t);
    SelectIsSubsequence(ts, ReportFilter(r, today));
  }

  /** The vendor report ignores surrounding spaces and case in the typed answer. */
  lemma {:induction false} VendorReportMembership(ts: seq<Transaction>, input: string, today: Date, t: Transaction)
    requires ValidDate(today)
    ensures t in Select(ts, ReportFilter(VendorSearch(input), today)) <==>
            t in ts && Contains(ToLower(t.vendor), ToLower(Trim(input)))
  {
    var q := ToLower(Trim(input));
    assert ReportFilter(VendorSearch(input), today) == ByVendor(q);
    SelectMembership(ts, ByVendor(q), t);
    assert Keeps(ByVendor(q), t) == VendorMatches(q, t);
  }
}
