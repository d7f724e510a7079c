/**
 * The record codec of the ledger file: one transaction per line, five fields
 * `date|time|description|vendor|amount`, an optional header on the first
 * physical line, and blank, short or unreadable lines skipped.
 */
module Codec {
  import opened Wrappers
  import opened Text
  import opened Lines
  import opened Decimal
  import opened Calendar

  /** Ledger.Transaction; the sign of the amount alone tells an expense (< 0) from income (> 0). */
  datatype Transaction = Transaction(date: Date, time: Time, description: string, vendor: string, amount: real)

  /** The line ensureCsvExists writes into a new file. */
  const Header: string := "date|time|description|vendor|amount"

  const Delimiter: char := '|'

  /** The first physical line is a header when, trimmed and lower-cased, it starts with "date". */
  predicate IsHeader(line: string) {
    var lower := ToLower(Trim(line));
    StartsWith(lower, "date") || StartsWith(lower, "date|")
  }

  /** A line taken for the header has 'd' or 'D' as its first visible character. */
  lemma {:induction false} HeaderStartsWithD(line: string)
    requires IsHeader(line)
    ensures Trim(line) != [] && LowerChar(Trim(line)[0]) == 'd'
  {
    var lower := ToLower(Trim(line));
    if StartsWith(lower, "date") {
      assert lower[..4][0] == 'd';
    } else {
      assert lower[..5][0] == 'd';
    }
  }

  /** What the read loop does with one data line. */
  datatype LineOutcome =
    | Ignored                 // blank, or fewer than five fields: dropped without a message
    | Invalid(line: string)   // a date, time or amount that does not parse: "Skipping invalid row: " + line
    | Row(t: Transaction)

  /** The body of the read loop for a line that is not taken as the header. */
  function DecodeLine(line: string): LineOutcome {
    if IsBlank(line) then Ignored
    else
      var parts := Split(line, Delimiter);
      if |parts| < 5 then Ignored else DecodeFields(line, parts)
  }

  /** The try block: trim each of the first five fields and parse date, time and amount. */
  function DecodeFields(line: string, parts: seq<string>): LineOutcome
    requires |parts| >= 5
  {
    var date := ParseDate(Trim(parts[0]));
    var time := ParseTime(Trim(parts[1]));
    var amount := ParseAmount(Trim(parts[4]));
    if date.None? || time.None? || amount.None? then Invalid(line)
    else Row(Transaction(date.value, time.value, Trim(parts[2]), Trim(parts[3]), amount.value))
  }

  /** Each line of a run decoded by `decode`, in order. */
  function MapLines(decode: string -> LineOutcome, lines: seq<string>): (outs: seq<LineOutcome>)
    ensures |outs| == |lines|
  {
    seq(|lines|, k requires 0 <= k < |lines| => decode(lines[k]))
  }

  /** The outcome of every line of a run of data lines, in file order. */
  function Outcomes(lines: seq<string>): seq<LineOutcome> {
    MapLines(DecodeLine, lines)
  }

  function RowOf(out: LineOutcome): seq<Transaction> {
    if out.Row? then [out.t] else []
  }

  function InvalidOf(out: LineOutcome): seq<string> {
    if out.Invalid? then [out.line] else []
  }

  /** The transactions among a run of outcomes, in order. */
  function Transactions(outs: seq<LineOutcome>): seq<Transaction>
    decreases |outs|
  {
    if outs == [] then [] else Transactions(outs[..|outs| - 1]) + RowOf(outs[|outs| - 1])
  }

  /** The lines reported as invalid among a run of outcomes, in order. */
  function Diagnostics(outs: seq<LineOutcome>): seq<string>
    decreases |outs|
  {
    if outs == [] then [] else Diagnostics(outs[..|outs| - 1]) + InvalidOf(outs[|outs| - 1])
  }

  /** Where the data lines start: after the first line if that one is a header. */
  function BodyStart(lines: seq<string>): (k: nat)
    ensures k <= |lines| && k <= 1
  {
    if |lines| > 0 && IsHeader(lines[0]) then 1 else 0
  }

  /** What readTransactions returns for a file with these lines. */
  function Loaded(lines: seq<string>): seq<Transaction> {
    Transactions(Outcomes(lines[BodyStart(lines)..]))
  }

  /** The lines readTransactions reports as "Skipping invalid row". */
  function Rejected(lines: seq<string>): seq<string> {
    Diagnostics(Outcomes(lines[BodyStart(lines)..]))
  }

  /**
   * The read loop of readTransactions, with its `firstLine` flag: only the
   * first line is looked at as a possible header.
   */
  method DecodeLines(lines: seq<string>) returns (transactions: seq<Transaction>, skipped: seq<string>)
    ensures transactions == Loaded(lines)
    ensures skipped == Rejected(lines)
  {
    transactions, skipped := [], [];
    NothingReadYet(lines, 0);
    var firstLine := true;
    ghost var from := 0;
    var i := 0;
    while i < |lines|
      invariant 0 <= from <= i <= |lines|
      invariant firstLine <==> i == 0
      invariant i == 0 ==> from == 0
      invariant i > 0 ==> from == BodyStart(lines)
      invariant transactions == Transactions(Outcomes(lines[from..i]))
      invariant skipped == Diagnostics(Outcomes(lines[from..i]))
    {
      var line := lines[i];
      if firstLine {
        firstLine := false;
        if IsHeader(line) {
          assert BodyStart(lines) == 1;
          from, i := 1, 1;
          NothingReadYet(lines, 1);
          continue;
        }
        assert BodyStart(lines) == 0;
      }
      transactions, skipped := ReadLine(lines, from, i, transactions, skipped);
      i := i + 1;
    }
    assert lines[from..i] == lines[BodyStart(lines)..];
  }

  /** One iteration on a data line: decode it and record the outcome. */
  method ReadLine(lines: seq<string>, ghost from: nat, i: nat, transactions: seq<Transaction>, skipped: seq<string>)
    returns (transactions': seq<Transaction>, skipped': seq<string>)
    requires from <= i < |lines|
    requires transactions == Transactions(Outcomes(lines[from..i]))
    requires skipped == Diagnostics(Outcomes(lines[from..i]))
    ensures transactions' == Transactions(Outcomes(lines[from..i + 1]))
    ensures skipped' == Diagnostics(Outcomes(lines[from..i + 1]))
  {
    ReadStep(lines, from, i);
    transactions', skipped' := Record(DecodeLine(lines[i]), transactions, skipped);
  }

  /** The end of one iteration: keep a decoded row, report an invalid line, drop the rest. */
  method Record(outcome: LineOutcome, transactions: seq<Transaction>, skipped: seq<string>)
    returns (transactions': seq<Transaction>, skipped': seq<string>)
    ensures transactions' == transactions + RowOf(outcome)
    ensures skipped' == skipped + InvalidOf(outcome)
  {
    transactions', skipped' := transactions, skipped;
    match outcome
    case Row(t) =>
      transactions' := transactions + [t];
    case Invalid(line) =>
      skipped' := skipped + [line];
    case Ignored =>
  }

  /** Before the first data line nothing has been read. */
  lemma {:induction false} NothingReadYet(lines: seq<string>, k: nat)
    requires k <= |lines|
    ensures Transactions(Outcomes(lines[k..k])) == [] && Diagnostics(Outcomes(lines[k..k])) == []
  {
    assert lines[k..k] == [];
    assert Outcomes([]) == [];
  }

  /** One more data line adds its own outcome to what was read so far. */
  lemma {:induction false} ReadStep(lines: seq<string>, from: nat, i: nat)
    requires from <= i < |lines|
    ensures Transactions(Outcomes(lines[from..i + 1])) == Transactions(Outcomes(lines[from..i])) + RowOf(DecodeLine(lines[i]))
    ensures Diagnostics(Outcomes(lines[from..i + 1])) == Diagnostics(Outcomes(lines[from..i])) + InvalidOf(DecodeLine(lines[i]))
  {
    ReadStepWith(DecodeLine, lines, from, i);
  }

  lemma {:induction false} ReadStepWith(decode: string -> LineOutcome, lines: seq<string>, from: nat, i: nat)
    requires from <= i < |lines|
    ensures Transactions(MapLines(decode, lines[from..i + 1]))
         == Transactions(MapLines(decode, lines[from..i])) + RowOf(decode(lines[i]))
    ensures Diagnostics(MapLines(decode, lines[from..i + 1]))
         == Diagnostics(MapLines(decode, lines[from..i])) + InvalidOf(decode(lines[i]))
  {
    var outs := MapLines(decode, lines[from..i]);
    assert lines[from..i + 1] == lines[from..i] + [lines[i]];
    MapLinesAppend(decode, lines[from..i], [lines[i]]);
    assert MapLines(decode, [lines[i]]) == [decode(lines[i])];
    TransactionsSnoc(outs, decode(lines[i]));
  }

  lemma {:induction false} TransactionsSnoc(outs: seq<LineOutcome>, out: LineOutcome)
    ensures Transactions(outs + [out]) == Transactions(outs) + RowOf(out)
    ensures Diagnostics(outs + [out]) == Diagnostics(outs) + InvalidOf(out)
  {
    assert (outs + [out])[..|outs|] == outs;
  }

  // ----- properties of the reader -----

  lemma {:induction false} MapLinesAppend(decode: string -> LineOutcome, a: seq<string>, b: seq<string>)
    ensures MapLines(decode, a + b) == MapLines(decode, a) + MapLines(decode, b)
  {
  }

  /** Reading is line by line: the outcomes of two runs of lines are the outcomes of each, in order. */
  lemma {:induction false} OutcomesAppend(a: seq<string>, b: seq<string>)
    ensures Outcomes(a + b) == Outcomes(a) + Outcomes(b)
  {
    MapLinesAppend(DecodeLine, a, b);
  }

  lemma {:induction false} OutcomesSingle(line: string)
    ensures Outcomes([line]) == [DecodeLine(line)]
  {
  }

  /** The transactions and diagnostics of two runs of outcomes are those of each, in order. */
  lemma {:induction false} TransactionsAppend(a: seq<LineOutcome>, b: seq<LineOutcome>)
    ensures Transactions(a + b) == Transactions(a) + Transactions(b)
    ensures Diagnostics(a + b) == Diagnostics(a) + Diagnostics(b)
    decreases |b|
  {
    if b != [] {
      var b' := b[..|b| - 1];
      assert (a + b)[..|a + b| - 1] == a + b';
      TransactionsAppend(a, b');
    } else {
      assert a + b == a;
    }
  }

  /**
   * Only the very first physical line can be a header: it is dropped when it
   * looks like one and decoded otherwise, and every later line is decoded
   * whatever it starts with.
   */
  lemma {:induction false} OnlyFirstLineIsHeader(first: string, rest: seq<string>)
    ensures Loaded([first] + rest)
         == (if IsHeader(first) then [] else RowOf(DecodeLine(first))) + Transactions(Outcomes(rest))
    ensures Rejected([first] + rest)
         == (if IsHeader(first) then [] else InvalidOf(DecodeLine(first))) + Diagnostics(Outcomes(rest))
  {
    var lines := [first] + rest;
    SkipOrRead(lines, BodyStart(lines));
    assert lines[0] == first && lines[1..] == rest;
  }

  /** Reading from line k, which is 0 or 1, either skips the first line or decodes it first. */
  lemma {:induction false} SkipOrRead(lines: seq<string>, k: nat)
    requires lines != [] && k <= 1
    ensures Transactions(Outcomes(lines[k..]))
         == (if k == 1 then [] else RowOf(DecodeLine(lines[0]))) + Transactions(Outcomes(lines[1..]))
    ensures Diagnostics(Outcomes(lines[k..]))
         == (if k == 1 then [] else InvalidOf(DecodeLine(lines[0]))) + Diagnostics(Outcomes(lines[1..]))
  {
    SkipOrReadWith(DecodeLine, lines, k);
  }

  lemma {:induction false} SkipOrReadWith(decode: string -> LineOutcome, lines: seq<string>, k: nat)
    requires lines != [] && k <= 1
    ensures Transactions(MapLines(decode, lines[k..]))
         == (if k == 1 then [] else RowOf(decode(lines[0]))) + Transactions(MapLines(decode, lines[1..]))
    ensures Diagnostics(MapLines(decode, lines[k..]))
         == (if k == 1 then [] else InvalidOf(decode(lines[0]))) + Diagnostics(MapLines(decode, lines[1..]))
  {
    if k == 0 {
      var out := decode(lines[0]);
      var rest := MapLines(decode, lines[1..]);
      assert lines[0..] == [lines[0]] + lines[1..];
      MapLinesAppend(decode, [lines[0]], lines[1..]);
      assert MapLines(decode, [lines[0]]) == [out];
      assert MapLines(decode, lines[k..]) == [out] + rest;
      TransactionsAppend([out], rest);
      TransactionsSnoc([], out);
    }
  }

  /** A blank line is no header: its first visible character, if any, is whitespace, not 'd'. */
  lemma {:induction false} BlankIsNotHeader(line: string)
    requires IsBlank(line)
    ensures !IsHeader(line)
  {
    var trimmed := Trim(line);
    TrimInfix(line);
    if IsHeader(line) {
      HeaderStartsWithD(line);
      assert false;
    }
  }

  /** As the first line, a blank line is skipped and the next line is read as data. */
  lemma {:induction false} BlankFirstLine(first: string, rest: seq<string>)
    requires IsBlank(first)
    ensures Loaded([first] + rest) == Transactions(Outcomes(rest))
  {
    BlankIsNotHeader(first);
    OnlyFirstLineIsHeader(first, rest);
    assert DecodeLine(first) == Ignored;
  }

  /** A new last line never changes how the earlier lines read; it only adds its own outcome. */
  lemma {:induction false} LoadedAppend(lines: seq<string>, line: string)
    requires lines != []
    ensures Loaded(lines + [line]) == Loaded(lines) + RowOf(DecodeLine(line))
    ensures Rejected(lines + [line]) == Rejected(lines) + InvalidOf(DecodeLine(line))
  {
    BodyStartAppend(lines, line);
    AppendWith(DecodeLine, lines, line, BodyStart(lines));
  }

  /** Read from line k on, one more line at the end adds its own outcome. */
  lemma {:induction false} AppendWith(decode: string -> LineOutcome, lines: seq<string>, line: string, k: nat)
    requires k <= |lines|
    ensures Transactions(MapLines(decode, (lines + [line])[k..])) == Transactions(MapLines(decode, lines[k..])) + RowOf(decode(line))
    ensures Diagnostics(MapLines(decode, (lines + [line])[k..])) == Diagnostics(MapLines(decode, lines[k..])) + InvalidOf(decode(line))
  {
    assert (lines + [line])[k..] == lines[k..] + [line];
    MapLinesAppend(decode, lines[k..], [line]);
    assert MapLines(decode, [line]) == [decode(line)];
    TransactionsSnoc(MapLines(decode, lines[k..]), decode(line));
  }

  lemma {:induction false} BodyStartAppend(lines: seq<string>, line: string)
    requires lines != []
    ensures BodyStart(lines + [line]) == BodyStart(lines)
  {
    assert (lines + [line])[0] == lines[0];
  }

  /** A file of one line that is no header holds what that line decodes to. */
  lemma {:induction false} LoadedSingle(line: string)
    requires !IsHeader(line)
    ensures Loaded([line]) == RowOf(DecodeLine(line))
    ensures Rejected([line]) == InvalidOf(DecodeLine(line))
  {
    assert BodyStart([line]) == 0;
    SingleWith(DecodeLine, line);
  }

  lemma {:induction false} SingleWith(decode: string -> LineOutcome, line: string)
    ensures Transactions(MapLines(decode, [line][0..])) == RowOf(decode(line))
    ensures Diagnostics(MapLines(decode, [line][0..])) == InvalidOf(decode(line))
  {
    assert [line][0..] == [line];
    assert MapLines(decode, [line]) == [decode(line)];
    TransactionsSnoc([], decode(line));
  }

  /** Appending a line that is no header adds its own outcome to what any file loads, the empty file included. */
  lemma {:induction false} AppendDataLine(lines: seq<string>, line: string)
    requires !IsHeader(line)
    ensures Loaded(lines + [line]) == Loaded(lines) + RowOf(DecodeLine(line))
    ensures Rejected(lines + [line]) == Rejected(lines) + InvalidOf(DecodeLine(line))
  {
    if lines == [] {
      assert BodyStart(lines + [line]) == 0 == BodyStart(lines);
      AppendWith(DecodeLine, lines, line, 0);
    } else {
      LoadedAppend(lines, line);
    }
  }

  /** The line ensureCsvExists writes is recognised as a header. */
  lemma HeaderIsHeader()
    ensures IsHeader(Header)
  {
    var h := Header;
    assert h[0] == 'd' && h[1] == 'a' && h[2] == 't' && h[3] == 'e' && h[|h| - 1] == 't';
    TrimClean(h);
    assert h[..4] == "date";
    LowerCasePrefix(h, "date");
  }

  /** A line starting with a prefix that has no capitals still starts with it once lower-cased. */
  lemma {:induction false} LowerCasePrefix(s: string, prefix: string)
    requires StartsWith(s, prefix)
    requires forall k :: 0 <= k < |prefix| ==> !('A' <= prefix[k] <= 'Z')
    ensures StartsWith(ToLower(s), prefix)
  {
    assert forall k :: 0 <= k < |prefix| ==> ToLower(s)[k] == s[k];
  }

  /** A file holding a header line and nothing else loads nothing and rejects nothing. */
  lemma {:induction false} HeaderOnly(line: string)
    requires IsHeader(line)
    ensures Loaded([line]) == [] && Rejected([line]) == []
  {
    assert [line][1..] == [];
  }

  /** A transaction is loaded exactly when some data line decodes to it. */
  lemma {:induction false} TransactionsMembership(outs: seq<LineOutcome>, t: Transaction)
    ensures t in Transactions(outs) <==> Row(t) in outs
    decreases |outs|
  {
    if outs != [] {
      var init := outs[..|outs| - 1];
      TransactionsMembership(init, t);
      assert outs == init + [outs[|outs| - 1]];
    }
  }

  /** Every data line is loaded, reported invalid, or ignored; nothing is counted twice. */
  lemma {:induction false} OutcomesCount(outs: seq<LineOutcome>)
    ensures |Transactions(outs)| + |Diagnostics(outs)| + multiset(outs)[Ignored] == |outs|
    decreases |outs|
  {
    if outs != [] {
      var init := outs[..|outs| - 1];
      OutcomesCount(init);
      assert outs == init + [outs[|outs| - 1]];
    }
  }

  /**
   * Each transaction is loaded as often as a data line decodes to it, and each
   * invalid line reported as often as it occurs: both counts depend only on
   * which lines the file holds, not on their order.
   */
  lemma {:induction false} OutcomesMultiplicity(outs: seq<LineOutcome>, t: Transaction, line: string)
    ensures multiset(Transactions(outs))[t] == multiset(outs)[Row(t)]
    ensures multiset(Diagnostics(outs))[line] == multiset(outs)[Invalid(line)]
  {
    RowsMultiplicity(outs, t);
    InvalidMultiplicity(outs, line);
  }

  lemma {:induction false} RowsMultiplicity(outs: seq<LineOutcome>, t: Transaction)
    ensures multiset(Transactions(outs))[t] == multiset(outs)[Row(t)]
    decreases |outs|
  {
    if outs != [] {
      var init, last := outs[..|outs| - 1], outs[|outs| - 1];
      RowsMultiplicity(init, t);
      assert outs == init + [last];
      SnocCount(init, last, Row(t));
      var rows := Transactions(init);
      assert Transactions(outs) == rows + RowOf(last);
      if last.Row? {
        SnocCount(rows, last.t, t);
      } else {
        assert rows + RowOf(last) == rows;
      }
    }
  }

  /** Adding one element at the end counts it once more. */
  lemma {:induction false} SnocCount<T>(s: seq<T>, x: T, y: T)
    ensures multiset(s + [x])[y] == multiset(s)[y] + (if x == y then 1 else 0)
  {
    assert multiset(s + [x]) == multiset(s) + multiset{x};
  }

  lemma {:induction false} InvalidMultiplicity(outs: seq<LineOutcome>, line: string)
    ensures multiset(Diagnostics(outs))[line] == multiset(outs)[Invalid(line)]
    decreases |outs|
  {
    if outs != [] {
      var init, last := outs[..|outs| - 1], outs[|outs| - 1];
      InvalidMultiplicity(init, line);
      assert outs == init + [last];
      SnocCount(init, last, Invalid(line));
      var lines := Diagnostics(init);
      assert Diagnostics(outs) == lines + InvalidOf(last);
      if last.Invalid? {
        SnocCount(lines, last.line, line);
      } else {
        assert lines + InvalidOf(last) == lines;
      }
    }
  }

  /** A line with fewer than five fields is dropped; */
  lemma {:induction false} ShortLineIgnored(line: string)
    requires |Split(line, Delimiter)| < 5
    ensures DecodeLine(line) == Ignored
  {
  }

  /** Two lines of fewer than five fields appended to a non-empty file add no row and no invalid line. */
  lemma {:induction false} ShortLinesIgnored(lines: seq<string>, first: string, second: string)
    requires |Split(first, Delimiter)| < 5 && |Split(second, Delimiter)| < 5
    ensures Loaded(lines + [first, second]) == Loaded(lines)
    ensures Rejected(lines + [first, second]) == Rejected(lines)
  {
    var mid := lines + [first];
    assert lines + [first, second] == mid + [second];
    ShortLineAdded(lines, first);
    ShortLineAppended(mid, second);
  }

  /** A short line added to any file, the empty one included, adds no row and no invalid line. */
  lemma {:induction false} ShortLineAdded(lines: seq<string>, line: string)
    requires |Split(line, Delimiter)| < 5
    ensures Loaded(lines + [line]) == Loaded(lines)
    ensures Rejected(lines + [line]) == Rejected(lines)
  {
    if lines == [] {
      ShortFirstLine(line);
      assert lines + [line] == [line];
      assert Loaded(lines) == [] && Rejected(lines) == [];
    } else {
      ShortLineAppended(lines, line);
    }
  }

  /** A short line appended to a non-empty file adds no row and no invalid line. */
  lemma {:induction false} ShortLineAppended(lines: seq<string>, line: string)
    requires lines != [] && |Split(line, Delimiter)| < 5
    ensures Loaded(lines + [line]) == Loaded(lines)
    ensures Rejected(lines + [line]) == Rejected(lines)
  {
    ShortLineIgnored(line);
    LoadedAppend(lines, line);
  }

  /** A file holding one short line, header or not, loads nothing and rejects nothing. */
  lemma {:induction false} ShortFirstLine(line: string)
    requires |Split(line, Delimiter)| < 5
    ensures Loaded([line]) == [] && Rejected([line]) == []
  {
    if IsHeader(line) {
      HeaderOnly(line);
    } else {
      ShortDataLine(line);
    }
  }

  lemma {:induction false} ShortDataLine(line: string)
    requires !IsHeader(line) && |Split(line, Delimiter)| < 5
    ensures Loaded([line]) == [] && Rejected([line]) == []
  {
    ShortLineIgnored(line);
    LoadedSingle(line);
  }

  /** A line that is not blank and has five fields is decoded from its fields. */
  lemma {:induction false} DecodeDataLine(line: string)
    requires !IsBlank(line) && |Split(line, Delimiter)| >= 5
    ensures DecodeLine(line) == DecodeFields(line, Split(line, Delimiter))
  {
  }

  /** What DecodeFields gives when each of the three parsed fields is known. */
  lemma {:induction false} DecodeParsedFields(line: string, parts: seq<string>, date: Date, time: Time, amount: real)
    requires |parts| >= 5
    requires ParseDate(Trim(parts[0])) == Some(date)
    requires ParseTime(Trim(parts[1])) == Some(time)
    requires ParseAmount(Trim(parts[4])) == Some(amount)
    ensures DecodeFields(line, parts) == Row(Transaction(date, time, Trim(parts[2]), Trim(parts[3]), amount))
  {
  }

  /** Only the first five fields matter: the rest of the line is never looked at. */
  lemma {:induction false} DecodeFieldsPrefix(line: string, parts: seq<string>, line': string, parts': seq<string>)
    requires |parts| >= 5 && |parts'| >= 5 && parts[..5] == parts'[..5]
    ensures RowOf(DecodeFields(line, parts)) == RowOf(DecodeFields(line', parts'))
    ensures DecodeFields(line, parts).Invalid? == DecodeFields(line', parts').Invalid?
  {
    assert parts[0] == parts'[0] && parts[1] == parts'[1] && parts[2] == parts'[2];
    assert parts[3] == parts'[3] && parts[4] == parts'[4];
  }

  /** ... and fields after the fifth, empty or not, do not change what a line decodes to. */
  lemma {:induction false} ExtraFieldsIgnored(line: string, extra: string)
    requires |Split(line, Delimiter)| >= 5
    ensures RowOf(DecodeLine(line + [Delimiter] + extra)) == RowOf(DecodeLine(line))
    ensures DecodeLine(line + [Delimiter] + extra).Invalid? == DecodeLine(line).Invalid?
  {
    var longer := line + [Delimiter] + extra;
    var parts, parts' := Split(line, Delimiter), Split(longer, Delimiter);
    SplitAtSeparator(line, extra, Delimiter);
    assert parts' == parts + Split(extra, Delimiter);
    assert parts'[..5] == parts[..5];
    if IsBlank(line) {
      if Delimiter !in line {
        SplitWithoutSeparator(line, Delimiter);
      }
      assert false;
    }
    assert longer[|line|] == Delimiter && !IsWhitespace(Delimiter);
    DecodeDataLine(line);
    DecodeDataLine(longer);
    DecodeFieldsPrefix(line, parts, longer, parts');
  }

  // ----- the writer -----

  /** The text addTransaction writes in place of a description or vendor: '|' becomes a space. */
  function Sanitize(text: string): (r: string)
    ensures Delimiter !in r
  {
    Replace(text, Delimiter, ' ')
  }

  /**
   * The line addTransaction appends (without its line terminator). The amount
   * is given by the sign bit of the signed double and its magnitude.
   */
  function EncodeLine(date: Date, time: Time, description: string, vendor: string, negative: bool, magnitude: real): string
    requires ValidDate(date) && 0 <= date.year <= 9999 && ValidTime(time) && magnitude >= 0.0
  {
    Join([FormatDate(date), FormatTime(time), Sanitize(description), Sanitize(vendor), Fixed2(negative, magnitude)], Delimiter)
  }

  /** Decoding a written line gives back the date, the time, the trimmed sanitised text and the rounded amount. */
  lemma {:induction false} DecodeEncode(date: Date, time: Time, description: string, vendor: string, negative: bool, magnitude: real)
    requires ValidDate(date) && 0 <= date.year <= 9999 && ValidTime(time) && magnitude >= 0.0
    ensures DecodeLine(EncodeLine(date, time, description, vendor, negative, magnitude))
         == Row(Transaction(date, time, Trim(Sanitize(description)), Trim(Sanitize(vendor)),
                            CentsValue(negative, RoundHalfUp(magnitude))))
  {
    var line := EncodeLine(date, time, description, vendor, negative, magnitude);
    EncodedFields(date, time, description, vendor, negative, magnitude);
    WrittenFieldsRead(date, time, negative, magnitude);
    DecodeFiveFields(line, FormatDate(date), FormatTime(time), Sanitize(description), Sanitize(vendor),
                     Fixed2(negative, magnitude), date, time, CentsValue(negative, RoundHalfUp(magnitude)));
  }

  /** A non-blank line of exactly five fields whose date, time and amount parse decodes to a row. */
  lemma {:induction false} DecodeFiveFields(line: string, d: string, t: string, desc: string, vendor: string, a: string,
                         date: Date, time: Time, amount: real)
    requires !IsBlank(line) && Split(line, Delimiter) == [d, t, desc, vendor, a]
    requires ParseDate(Trim(d)) == Some(date) && ParseTime(Trim(t)) == Some(time) && ParseAmount(Trim(a)) == Some(amount)
    ensures DecodeLine(line) == Row(Transaction(date, time, Trim(desc), Trim(vendor), amount))
  {
    var parts := [d, t, desc, vendor, a];
    assert parts[0] == d && parts[1] == t && parts[2] == desc && parts[3] == vendor && parts[4] == a;
    DecodeDataLine(line);
    DecodeParsedFields(line, parts, date, time, amount);
  }

  /** The date, time and amount fields as written read back, trimmed, as what was written. */
  lemma WrittenFieldsRead(date: Date, time: Time, negative: bool, magnitude: real)
    requires ValidDate(date) && 0 <= date.year <= 9999 && ValidTime(time) && magnitude >= 0.0
    ensures ParseDate(Trim(FormatDate(date))) == Some(date)
    ensures ParseTime(Trim(FormatTime(time))) == Some(time)
    ensures ParseAmount(Trim(Fixed2(negative, magnitude))) == Some(CentsValue(negative, RoundHalfUp(magnitude)))
  {
    DateFieldReads(date);
    TimeFieldReads(time);
    AmountFieldReads(negative, magnitude);
  }

  lemma DateFieldReads(date: Date)
    requires ValidDate(date) && 0 <= date.year <= 9999
    ensures ParseDate(Trim(FormatDate(date))) == Some(date)
  {
    DateFieldClean(date);
    TrimClean(FormatDate(date));
    ParseFormatDate(date);
  }

  lemma TimeFieldReads(time: Time)
    requires ValidTime(time)
    ensures ParseTime(Trim(FormatTime(time))) == Some(time)
  {
    TimeFieldClean(time);
    TrimClean(FormatTime(time));
    ParseFormatTime(time);
  }

  lemma AmountFieldReads(negative: bool, magnitude: real)
    requires magnitude >= 0.0
    ensures ParseAmount(Trim(Fixed2(negative, magnitude))) == Some(CentsValue(negative, RoundHalfUp(magnitude)))
  {
    AmountFieldClean(negative, magnitude);
    TrimClean(Fixed2(negative, magnitude));
    ParseFixed2(negative, magnitude);
  }

  /** A written line splits back into the five fields it was joined from, and is not blank. */
  lemma {:induction false} EncodedFields(date: Date, time: Time, description: string, vendor: string, negative: bool, magnitude: real)
    requires ValidDate(date) && 0 <= date.year <= 9999 && ValidTime(time) && magnitude >= 0.0
    ensures var line := EncodeLine(date, time, description, vendor, negative, magnitude);
            Split(line, Delimiter) == [FormatDate(date), FormatTime(time), Sanitize(description), Sanitize(vendor), Fixed2(negative, magnitude)]
            && !IsBlank(line)
  {
    var d := FormatDate(date);
    var parts := [d, FormatTime(time), Sanitize(description), Sanitize(vendor), Fixed2(negative, magnitude)];
    var line := EncodeLine(date, time, description, vendor, negative, magnitude);
    FieldsClean(date, time, negative, magnitude);
    SplitJoin(parts, Delimiter);
    JoinFirst(parts, Delimiter);
    assert !IsWhitespace(line[0]);
  }

  /** The date, time and amount fields hold no delimiter and start and end with a visible character. */
  lemma FieldsClean(date: Date, time: Time, negative: bool, magnitude: real)
    requires ValidDate(date) && 0 <= date.year <= 9999 && ValidTime(time) && magnitude >= 0.0
    ensures var d := FormatDate(date); d[0] == FixedDigits(date.year, 4)[0] && !IsTrimmable(d[|d| - 1]) && Delimiter !in d
    ensures var t := FormatTime(time); !IsTrimmable(t[0]) && !IsTrimmable(t[|t| - 1]) && Delimiter !in t
    ensures var a := Fixed2(negative, magnitude); !IsTrimmable(a[0]) && !IsTrimmable(a[|a| - 1]) && Delimiter !in a
  {
    DateFieldClean(date);
    TimeFieldClean(time);
    AmountFieldClean(negative, magnitude);
  }

  /** The date field starts with the year's first digit, ends with a digit and holds no delimiter and no line break. */
  lemma DateFieldClean(date: Date)
    requires ValidDate(date) && 0 <= date.year <= 9999
    ensures var d := FormatDate(date); d[0] == FixedDigits(date.year, 4)[0] && !IsTrimmable(d[|d| - 1]) && Delimiter !in d
    ensures var d := FormatDate(date); IsDigit(d[0]) && IsDigit(d[|d| - 1]) && NoLineBreak(d)
  {
    var d := FormatDate(date);
    assert d[|d| - 1] == FixedDigits(date.day, 2)[1];
  }

  /** The time field starts and ends with a digit and holds no delimiter and no line break. */
  lemma TimeFieldClean(time: Time)
    requires ValidTime(time)
    ensures var t := FormatTime(time); !IsTrimmable(t[0]) && !IsTrimmable(t[|t| - 1]) && Delimiter !in t
    ensures var t := FormatTime(time); IsDigit(t[0]) && IsDigit(t[|t| - 1]) && NoLineBreak(t)
  {
    var hh := FixedDigits(time.hour, 2);
    var t := FormatTime(time);
    assert t[0] == hh[0];
    if time.nano != 0 {
      FractionRoundTrip(time.nano);
      var f := FractionDigits(time.nano);
      assert t[|t| - 1] == f[|f| - 1];
    } else {
      assert t[|t| - 1] == FixedDigits(time.second, 2)[1];
    }
  }

  /** The amount field starts with '-' exactly for an expense and with a digit otherwise, ends with a digit and holds no delimiter and no line break. */
  lemma AmountFieldClean(negative: bool, magnitude: real)
    requires magnitude >= 0.0
    ensures var a := Fixed2(negative, magnitude); !IsTrimmable(a[0]) && !IsTrimmable(a[|a| - 1]) && Delimiter !in a
    ensures var a := Fixed2(negative, magnitude); (a[0] == '-' <==> negative) && (!negative ==> IsDigit(a[0])) && IsDigit(a[|a| - 1])
    ensures NoLineBreak(Fixed2(negative, magnitude))
  {
    var cents := RoundHalfUp(magnitude);
    var a := Fixed2(negative, magnitude);
    var w := NatToString(cents / 100);
    assert a[0] == if negative then '-' else w[0];
    assert a[|a| - 1] == FixedDigits(cents % 100, 2)[1];
  }

  /** Cleaning the text changes only the delimiter, so every other character occurs in the result exactly when it occurs before. */
  lemma {:induction false} SanitizeKeeps(text: string, c: char)
    requires c != Delimiter && c != ' '
    ensures c in Sanitize(text) <==> c in text
  {
    var r := Sanitize(text);
    if c in text {
      var k :| 0 <= k < |text| && text[k] == c;
      assert r[k] == c;
    }
    if c in r {
      var k :| 0 <= k < |r| && r[k] == c;
      assert text[k] == c;
    }
  }

  /** Cleaning distributes over concatenation. */
  lemma {:induction false} SanitizeAppend(a: string, b: string)
    ensures Sanitize(a + b) == Sanitize(a) + Sanitize(b)
  {
    assert forall k :: 0 <= k < |a + b| ==> Sanitize(a + b)[k] == (Sanitize(a) + Sanitize(b))[k];
  }

  /** Cleaning a text with one line feed cleans the two sides and keeps the line feed. */
  lemma {:induction false} SanitizeBreak(x: string, y: string)
    requires NoLineBreak(x) && NoLineBreak(y)
    ensures Sanitize(x + "\n" + y) == Sanitize(x) + "\n" + Sanitize(y)
    ensures NoLineBreak(Sanitize(x)) && NoLineBreak(Sanitize(y))
  {
    SanitizeAppend(x + "\n", y);
    SanitizeAppend(x, "\n");
    assert Sanitize("\n") == "\n";
    SanitizeKeeps(x, '\n');
    SanitizeKeeps(x, '\r');
    SanitizeKeeps(y, '\n');
    SanitizeKeeps(y, '\r');
  }

  /**
   * A written line ends with a digit, and it holds a line break exactly when
   * the description or the vendor does.
   */
  lemma {:induction false} EncodedLineBreaks(date: Date, time: Time, description: string, vendor: string, negative: bool, magnitude: real)
    requires ValidDate(date) && 0 <= date.year <= 9999 && ValidTime(time) && magnitude >= 0.0
    ensures var line := EncodeLine(date, time, description, vendor, negative, magnitude);
            line != [] && IsDigit(line[|line| - 1])
            && (NoLineBreak(line) <==> NoLineBreak(description) && NoLineBreak(vendor))
  {
    var parts := [FormatDate(date), FormatTime(time), Sanitize(description), Sanitize(vendor), Fixed2(negative, magnitude)];
    DateFieldClean(date);
    TimeFieldClean(time);
    AmountFieldClean(negative, magnitude);
    JoinLast(parts, Delimiter);
    assert EncodeLine(date, time, description, vendor, negative, magnitude) == Join(parts, Delimiter);
    TextBreak(parts, '\n');
    TextBreak(parts, '\r');
    SanitizeKeeps(description, '\n');
    SanitizeKeeps(description, '\r');
    SanitizeKeeps(vendor, '\n');
    SanitizeKeeps(vendor, '\r');
  }

  /** In a joined line whose date, time and amount fields lack c, c can only come from the description or the vendor. */
  lemma {:induction false} TextBreak(parts: seq<string>, c: char)
    requires |parts| == 5 && c != Delimiter
    requires c !in parts[0] && c !in parts[1] && c !in parts[4]
    ensures c in Join(parts, Delimiter) <==> c in parts[2] || c in parts[3]
  {
    JoinMembership(parts, Delimiter, c);
    if c in Join(parts, Delimiter) {
      var k :| 0 <= k < |parts| && c in parts[k];
      assert k == 2 || k == 3;
    }
  }

  /**
   * Five clean fields whose third holds one line feed join to two break-free
   * pieces around that line feed, each of three fields.
   */
  lemma {:induction false} BrokenJoin(d: string, t: string, sx: string, sy: string, v: string, a: string)
    requires Delimiter !in d && Delimiter !in t && Delimiter !in sx && Delimiter !in sy && Delimiter !in v && Delimiter !in a
    requires NoLineBreak(d) && NoLineBreak(t) && NoLineBreak(sx) && NoLineBreak(sy) && NoLineBreak(v) && NoLineBreak(a)
    ensures var first, second := d + "|" + t + "|" + sx, sy + "|" + v + "|" + a;
            && Join([d, t, sx + "\n" + sy, v, a], Delimiter) == first + "\n" + second
            && NoLineBreak(first) && NoLineBreak(second)
            && |Split(first, Delimiter)| == 3 && |Split(second, Delimiter)| == 3
  {
    JoinFive(d, t, sx + "\n" + sy, v, a, Delimiter);
    ThreeFields(d, t, sx);
    ThreeFields(sy, v, a);
  }

  /** Three fields without the delimiter, joined by it, split back into three. */
  lemma {:induction false} ThreeFields(a: string, b: string, c: string)
    requires Delimiter !in a && Delimiter !in b && Delimiter !in c
    ensures |Split(a + "|" + b + "|" + c, Delimiter)| == 3
  {
    SplitAtSeparator(a, b + "|" + c, Delimiter);
    SplitAtSeparator(b, c, Delimiter);
    SplitWithoutSeparator(a, Delimiter);
    SplitWithoutSeparator(b, Delimiter);
    SplitWithoutSeparator(c, Delimiter);
    assert a + "|" + b + "|" + c == a + [Delimiter] + (b + [Delimiter] + c);
  }

  /** A line that starts with a digit is no header. */
  lemma {:induction false} DigitFirstNotHeader(line: string)
    requires line != [] && IsDigit(line[0])
    ensures !IsHeader(line)
  {
    assert TrimStart(line) == line;
    var trimmed := Trim(line);
    assert trimmed != [] && trimmed[0] == line[0];
    if IsHeader(line) {
      HeaderStartsWithD(line);
      assert false;
    }
  }

  /** A written line starts with the year's first digit, so it never looks like a header. */
  lemma {:induction false} EncodedLineIsData(date: Date, time: Time, description: string, vendor: string, negative: bool, magnitude: real)
    requires ValidDate(date) && 0 <= date.year <= 9999 && ValidTime(time) && magnitude >= 0.0
    ensures !IsHeader(EncodeLine(date, time, description, vendor, negative, magnitude))
  {
    var d := FormatDate(date);
    var parts := [d, FormatTime(time), Sanitize(description), Sanitize(vendor), Fixed2(negative, magnitude)];
    JoinFirst(parts, Delimiter);
    assert d[0] == FixedDigits(date.year, 4)[0];
    DigitFirstNotHeader(Join(parts, Delimiter));
  }
}
