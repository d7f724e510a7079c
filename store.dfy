/**
 * The transactions file: a sequence of lines, or no file at all. The file is
 * only ever created with its header line or extended by one line at the end;
 * every screen of the ledger reads it afresh.
 */
module Store {
  import opened Wrappers
  import opened Text
  import opened Lines
  import opened Decimal
  import opened Calendar
  import opened Codec
  import opened Query
  import opened Balance
  import opened Reports

  datatype FileState = Absent | Present(lines: seq<string>)

  /** ensureCsvExists: a missing file is created holding the header line; an existing one is left alone. */
  function Ensured(f: FileState): (r: FileState)
    ensures r.Present?
    ensures f.Present? ==> r == f
    ensures f.Absent? ==> r.lines == [Header]
  {
    if f.Absent? then Present([Header]) else f
  }

  /** `-Math.abs(amount)` for an expense, `Math.abs(amount)` for a payment. */
  function Signed(isExpense: bool, amount: real): (r: real)
    ensures Abs(r) == Abs(amount)
    ensures isExpense ==> r <= 0.0
    ensures !isExpense ==> r >= 0.0
  {
    if isExpense then -Abs(amount) else Abs(amount)
  }

  /**
   * The line addTransaction writes: today's date, the time with its
   * nano-of-second cleared, the text with '|' replaced, and the signed amount
   * with two decimals (an expense always prints its '-' sign).
   */
  function EntryLine(today: Date, now: Time, description: string, vendor: string, isExpense: bool, amount: real): string
    requires ValidDate(today) && 0 <= today.year <= 9999 && ValidTime(now)
  {
    EncodeLine(today, now.(nano := 0), description, vendor, isExpense, Abs(amount))
  }

  /** The transaction that line reads back as. */
  function Entry(today: Date, now: Time, description: string, vendor: string, isExpense: bool, amount: real): Transaction {
    Transaction(today, now.(nano := 0), Trim(Sanitize(description)), Trim(Sanitize(vendor)),
                CentsValue(isExpense, RoundHalfUp(Abs(amount))))
  }

  /** The file of the ledger, changed in place by the operations that write it. */
  class LedgerFile {
    var state: FileState

    constructor (initial: FileState)
      ensures state == initial
    {
      state := initial;
    }

    /** ensureCsvExists. */
    method EnsureCsvExists()
      modifies this
      ensures state == Ensured(old(state))
    {
      if state.Absent? {
        state := Present([Header]);
      }
    }

    /** readTransactions: makes sure the file exists, then decodes it line by line. */
    method ReadTransactions() returns (transactions: seq<Transaction>, skipped: seq<string>)
      modifies this
      ensures state == Ensured(old(state))
      ensures transactions == Loaded(state.lines) && skipped == Rejected(state.lines)
    {
      EnsureCsvExists();
      transactions, skipped := DecodeLines(state.lines);
    }

    /**
     * addTransaction: makes sure the file exists, then, when the amount
     * parses, appends the entry line with its terminator, and nothing when it
     * does not. The file then holds the physical lines readLine finds in what
     * was written: one line, unless the description or the vendor holds a
     * line break.
     */
    method AddTransaction(description: string, vendor: string, amountText: string, isExpense: bool, today: Date, now: Time)
      returns (saved: bool)
      requires ValidDate(today) && 0 <= today.year <= 9999 && ValidTime(now)
      modifies this
      ensures saved <==> ParseAmount(amountText).Some?
      ensures saved ==> state == Present(Ensured(old(state)).lines
                                         + ReadLines(EntryLine(today, now, description, vendor, isExpense, ParseAmount(amountText).value) + "\n"))
      ensures !saved ==> state == Ensured(old(state))
    {
      EnsureCsvExists();
      var time := now.(nano := 0);
      var parsed := ParseAmount(amountText);
      if parsed.None? {
        return false;
      }
      var amount := Signed(isExpense, parsed.value);
      var line := EncodeLine(today, time, description, vendor, isExpense, Abs(amount));
      state := Present(state.lines + ReadLines(line + "\n"));
      saved := true;
    }

    /** addExpense. */
    method AddExpense(description: string, vendor: string, amountText: string, today: Date, now: Time)
      returns (saved: bool)
      requires ValidDate(today) && 0 <= today.year <= 9999 && ValidTime(now)
      modifies this
      ensures saved <==> ParseAmount(amountText).Some?
      ensures saved ==> state == Present(Ensured(old(state)).lines
                                         + ReadLines(EntryLine(today, now, description, vendor, true, ParseAmount(amountText).value) + "\n"))
      ensures !saved ==> state == Ensured(old(state))
    {
      saved := AddTransaction(description, vendor, amountText, true, today, now);
    }

    /** addPayment. */
    method AddPayment(description: string, vendor: string, amountText: string, today: Date, now: Time)
      returns (saved: bool)
      requires ValidDate(today) && 0 <= today.year <= 9999 && ValidTime(now)
      modifies this
      ensures saved <==> ParseAmount(amountText).Some?
      ensures saved ==> state == Present(Ensured(old(state)).lines
                                         + ReadLines(EntryLine(today, now, description, vendor, false, ParseAmount(amountText).value) + "\n"))
      ensures !saved ==> state == Ensured(old(state))
    {
      saved := AddTransaction(description, vendor, amountText, false, today, now);
    }

    /** showFiltered, without the printing: the transactions the listing shows. */
    method ShowFiltered(kind: Kind) returns (shown: seq<Transaction>)
      modifies this
      ensures state == Ensured(old(state))
      ensures shown == Select(Loaded(state.lines), ByType(kind))
    {
      var data, _ := ReadTransactions();
      shown := FilterByType(data, kind);
    }

    /** displayBalance, without the printing: the three totals it shows. */
    method DisplayBalance() returns (income: real, expenses: real, net: real)
      modifies this
      ensures state == Ensured(old(state))
      ensures var ts := Loaded(state.lines);
              income == IncomeTotal(ts) && expenses == ExpenseTotal(ts) && net == AmountTotal(ts)
    {
      var transactions, _ := ReadTransactions();
      income, expenses, net := ComputeBalance(transactions);
    }

    /** One report of showReports, without the printing: the transactions it shows. */
    method ShowReport(r: Report, today: Date) returns (shown: seq<Transaction>)
      requires ValidDate(today)
      modifies this
      ensures state == Ensured(old(state))
      ensures shown == Select(Loaded(state.lines), ReportFilter(r, today))
    {
      var transactions, _ := ReadTransactions();
      shown := RunReport(transactions, r, today);
    }
  }

  // ----- Properties of the file operations -----

  /** Making sure the file exists a second time changes nothing. */
  lemma EnsuredIdempotent(f: FileState)
    ensures Ensured(Ensured(f)) == Ensured(f)
  {
  }

  /** A newly created file holds no transactions and no invalid rows. */
  lemma FreshFileIsEmpty()
    ensures Loaded(Ensured(Absent).lines) == [] && Rejected(Ensured(Absent).lines) == []
  {
    HeaderIsHeader();
    HeaderOnly(Header);
  }

  /** The stored amount has the sign the entry kind demands and is the typed amount rounded to cents. */
  lemma {:induction false} EntryAmount(today: Date, now: Time, description: string, vendor: string, isExpense: bool, amount: real)
    ensures var stored := Entry(today, now, description, vendor, isExpense, amount).amount;
            && (isExpense ==> stored <= 0.0)
            && (!isExpense ==> stored >= 0.0)
            && -0.005 < Abs(stored) - Abs(amount) <= 0.005
  {
    var m := Abs(amount);
    var cents := RoundHalfUp(m);
    var v := CentsValue(false, cents);
    RoundingError(m);
    var stored := Entry(today, now, description, vendor, isExpense, amount).amount;
    assert stored == CentsValue(isExpense, cents);
    assert v >= 0.0;
    assert stored == if isExpense then -v else v;
    assert Abs(stored) == v;
  }

  /**
   * Whatever the file held, an entry whose description and vendor hold no
   * line break is written as one physical line, and reading the file then
   * gives what it gave before followed by the entry, and no new invalid row.
   */
  lemma {:induction false} ReadAfterAppend(lines: seq<string>, today: Date, now: Time, description: string, vendor: string, isExpense: bool, amount: real)
    requires ValidDate(today) && 0 <= today.year <= 9999 && ValidTime(now)
    requires NoLineBreak(description) && NoLineBreak(vendor)
    ensures var line := EntryLine(today, now, description, vendor, isExpense, amount);
            ReadLines(line + "\n") == [line]
            && Loaded(lines + ReadLines(line + "\n")) == Loaded(lines) + [Entry(today, now, description, vendor, isExpense, amount)]
            && Rejected(lines + ReadLines(line + "\n")) == Rejected(lines)
  {
    var time := now.(nano := 0);
    var line := EntryLine(today, now, description, vendor, isExpense, amount);
    EncodedLineBreaks(today, time, description, vendor, isExpense, Abs(amount));
    ReadOneLine(line);
    DecodeEncode(today, time, description, vendor, isExpense, Abs(amount));
    EncodedLineIsData(today, time, description, vendor, isExpense, Abs(amount));
    AppendDataLine(lines, line);
  }

  /**
   * An entry whose description or vendor holds a line break does not reach
   * the file as one line: readLine finds two lines or more in what was written.
   */
  lemma {:induction false} BrokenEntrySplits(today: Date, now: Time, description: string, vendor: string, isExpense: bool, amount: real)
    requires ValidDate(today) && 0 <= today.year <= 9999 && ValidTime(now)
    requires !NoLineBreak(description) || !NoLineBreak(vendor)
    ensures |ReadLines(EntryLine(today, now, description, vendor, isExpense, amount) + "\n")| >= 2
  {
    var time := now.(nano := 0);
    var line := EntryLine(today, now, description, vendor, isExpense, amount);
    EncodedLineBreaks(today, time, description, vendor, isExpense, Abs(amount));
    ReadBrokenLine(line);
  }

  /**
   * An entry whose description holds one line feed is lost: Java writes it
   * as two physical lines of three fields each, readLine returns them
   * separately, and the read loop skips both. Reading the file gives what it
   * gave before, with no new invalid row.
   */
  lemma {:induction false} DescriptionBreakLost(lines: seq<string>, today: Date, now: Time, x: string, y: string, vendor: string, isExpense: bool, amount: real)
    requires ValidDate(today) && 0 <= today.year <= 9999 && ValidTime(now)
    requires NoLineBreak(x) && NoLineBreak(y) && NoLineBreak(vendor)
    ensures var written := ReadLines(EntryLine(today, now, x + "\n" + y, vendor, isExpense, amount) + "\n");
            |written| == 2
            && Loaded(lines + written) == Loaded(lines)
            && Rejected(lines + written) == Rejected(lines)
  {
    var first, second := BrokenDescriptionLine(today, now, x, y, vendor, isExpense, amount);
    ReadTwoLines(first, second);
    ShortLinesIgnored(lines, first, second);
  }

  /** The entry line of the description x + "\n" + y, cut at its line feed: two break-free pieces of three fields each. */
  lemma {:induction false} BrokenDescriptionLine(today: Date, now: Time, x: string, y: string, vendor: string, isExpense: bool, amount: real)
    returns (first: string, second: string)
    requires ValidDate(today) && 0 <= today.year <= 9999 && ValidTime(now)
    requires NoLineBreak(x) && NoLineBreak(y) && NoLineBreak(vendor)
    ensures EntryLine(today, now, x + "\n" + y, vendor, isExpense, amount) == first + "\n" + second
    ensures NoLineBreak(first) && NoLineBreak(second)
    ensures |Split(first, Delimiter)| == 3 && |Split(second, Delimiter)| == 3
  {
    var time := now.(nano := 0);
    var d, t, a := FormatDate(today), FormatTime(time), Fixed2(isExpense, Abs(amount));
    var sx, sy, v := Sanitize(x), Sanitize(y), Sanitize(vendor);
    DateFieldClean(today);
    TimeFieldClean(time);
    AmountFieldClean(isExpense, Abs(amount));
    SanitizeBreak(x, y);
    SanitizeKeeps(vendor, '\n');
    SanitizeKeeps(vendor, '\r');
    first, second := d + "|" + t + "|" + sx, sy + "|" + v + "|" + a;
    BrokenJoin(d, t, sx, sy, v, a);
  }

  /**
   * "Cof\nfee" typed as the description of a 4.50 coffee: the new file
   * holds the header and two physical lines, and it loads nothing and
   * reports nothing.
   */
  lemma BrokenEntryExample(today: Date, now: Time)
    requires ValidDate(today) && 0 <= today.year <= 9999 && ValidTime(now)
    ensures var file := Ensured(Absent).lines + ReadLines(EntryLine(today, now, "Cof\nfee", "Cafe", true, 4.5) + "\n");
            |file| == 3 && Loaded(file) == [] && Rejected(file) == []
  {
    assert "Cof\nfee" == "Cof" + "\n" + "fee";
    DescriptionBreakLost([Header], today, now, "Cof", "fee", "Cafe", true, 4.5);
    FreshFileIsEmpty();
  }

  /** Appending never rewrites the lines already in the file. */
  lemma {:induction false} AppendKeepsEarlierLines(before: FileState, after: FileState, added: seq<string>)
    requires after == Present(Ensured(before).lines + added)
    ensures before.Present? ==> after.lines[..|before.lines|] == before.lines
    ensures |after.lines| == |Ensured(before).lines| + |added| && after.lines[|Ensured(before).lines|..] == added
  {
    assert after.lines[..|Ensured(before).lines|] == Ensured(before).lines;
  }

  /** A 4.50 coffee bought at the Cafe, entered into a new file, is stored and read back as -4.50. */
  lemma CoffeeExample(today: Date, now: Time)
    requires ValidDate(today) && 0 <= today.year <= 9999 && ValidTime(now)
    ensures ParseAmount("4.50") == Some(4.5)
    ensures Loaded(Ensured(Absent).lines + ReadLines(EntryLine(today, now, "Coffee", "Cafe", true, 4.5) + "\n"))
         == [Transaction(today, now.(nano := 0), "Coffee", "Cafe", -4.5)]
  {
    ParseAmountExample();
    CoffeeEntry(today, now);
    CoffeeText();
    FirstEntry(today, now, "Coffee", "Cafe", true, 4.5);
  }

  lemma CoffeeText()
    ensures NoLineBreak("Coffee") && NoLineBreak("Cafe")
  {
  }

  lemma CoffeeEntry(today: Date, now: Time)
    ensures Entry(today, now, "Coffee", "Cafe", true, 4.5) == Transaction(today, now.(nano := 0), "Coffee", "Cafe", -4.5)
  {
    PlainText("Coffee");
    PlainText("Cafe");
    assert RoundHalfUp(4.5) == 450;
  }

  /** A new file with one entry, whose text holds no line break, loads exactly that entry. */
  lemma {:induction false} FirstEntry(today: Date, now: Time, description: string, vendor: string, isExpense: bool, amount: real)
    requires ValidDate(today) && 0 <= today.year <= 9999 && ValidTime(now)
    requires NoLineBreak(description) && NoLineBreak(vendor)
    ensures Loaded(Ensured(Absent).lines + ReadLines(EntryLine(today, now, description, vendor, isExpense, amount) + "\n"))
         == [Entry(today, now, description, vendor, isExpense, amount)]
  {
    ReadAfterAppend(Ensured(Absent).lines, today, now, description, vendor, isExpense, amount);
    FreshFileIsEmpty();
  }

  /** Text without '|' and without surrounding blanks is stored and read back unchanged. */
  lemma {:induction false} PlainText(s: string)
    requires s != [] && Delimiter !in s && !IsTrimmable(s[0]) && !IsTrimmable(s[|s| - 1])
    ensures Trim(Sanitize(s)) == s
  {
    assert Sanitize(s) == s;
    TrimClean(s);
  }

  /** "4.50" is exactly what a 4.5 payment is written as, so it reads as 4.5. */
  lemma ParseAmountExample()
    ensures ParseAmount("4.50") == Some(4.5)
  {
    assert RoundHalfUp(4.5) == 450;
    assert NatToString(4) == "4" && FixedDigits(50, 2) == "50";
    assert Fixed2(false, 4.5) == "4.50";
    ParseFixed2(false, 4.5);
  }
}
