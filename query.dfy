/**
 * The query engine: every listing the ledger shows is an order-preserving
 * filter over the loaded transactions. One specification function, `Select`,
 * describes them all; each Java filter loop is a method proved equal to it.
 */
module Query {
  import opened Wrappers
  import opened Text
  import opened Decimal
  import opened Calendar
  import opened Codec

  /** The optional constraints of a custom search, already normalised. */
  datatype Criteria = Criteria(
    start: Option<Date>,      // None: no lower bound
    end: Option<Date>,        // None: no upper bound
    description: string,      // lower-cased; empty: no constraint
    vendor: string,           // lower-cased; empty: no constraint
    amount: Option<real>)     // None: no constraint

  /**
   * The type argument of showFiltered. The menu passes "ALL", "EXPENSE" or
   * "INCOME"; the switch treats every string but the last two as ALL.
   */
  datatype Kind = All | Expense | Income

  /** The four kinds of listing. */
  datatype Filter =
    | ByType(kind: Kind)             // showFiltered
    | ByDate(start: Date, end: Date) // filterByDate, both ends included
    | ByVendor(query: string)        // searchByVendor, the query already lower-cased
    | Custom(criteria: Criteria)     // the row test of runCustomSearch

  /** How far an amount may be from the searched amount and still match. */
  const Tolerance: real := 0.0001

  /** The switch of showFiltered. */
  predicate KeepsType(kind: Kind, t: Transaction) {
    match kind
    case Expense => t.amount < 0.0
    case Income => t.amount > 0.0
    case All => true
  }

  /** The test of filterByDate: on or after start and on or before end. */
  predicate InRange(start: Date, end: Date, d: Date) {
    OnOrBefore(start, d) && OnOrBefore(d, end)
  }

  /** The vendor, lower-cased, contains the query. */
  predicate VendorMatches(query: string, t: Transaction) {
    Contains(ToLower(t.vendor), query)
  }

  /** A row passes a custom search when it fails none of the supplied criteria. */
  predicate Matches(c: Criteria, t: Transaction) {
    && (c.start.None? || !Before(t.date, c.start.value))
    && (c.end.None? || !Before(c.end.value, t.date))
    && (c.description == [] || Contains(ToLower(t.description), c.description))
    && (c.vendor == [] || Contains(ToLower(t.vendor), c.vendor))
    && (c.amount.None? || Abs(t.amount - c.amount.value) <= Tolerance)
  }

  predicate Keeps(f: Filter, t: Transaction) {
    match f
    case ByType(kind) => KeepsType(kind, t)
    case ByDate(start, end) => InRange(start, end, t.date)
    case ByVendor(query) => VendorMatches(query, t)
    case Custom(c) => Matches(c, t)
  }

  /** The transactions a filter keeps, in their original order. */
  function Select(ts: seq<Transaction>, f: Filter): seq<Transaction>
    decreases |ts|
  {
    if ts == [] then []
    else Select(ts[..|ts| - 1], f) + (if Keeps(f, ts[|ts| - 1]) then [ts[|ts| - 1]] else [])
  }

  /** The step every filter loop takes. */
  lemma {:induction false} SelectSnoc(ts: seq<Transaction>, i: nat, f: Filter)
    requires i < |ts|
    ensures Select(ts[..i + 1], f) == Select(ts[..i], f) + (if Keeps(f, ts[i]) then [ts[i]] else [])
  {
    assert ts[..i + 1][..i] == ts[..i];
  }

  // ----- the filter loops -----

  /** The loop of showFiltered. */
  method FilterByType(data: seq<Transaction>, kind: Kind) returns (out: seq<Transaction>)
    ensures out == Select(data, ByType(kind))
  {
    out := [];
    var i := 0;
    while i < |data|
      invariant 0 <= i <= |data|
      invariant out == Select(data[..i], ByType(kind))
    {
      var t := data[i];
      SelectSnoc(data, i, ByType(kind));
      match kind {
        case Expense => if t.amount < 0.0 { out := out + [t]; }
        case Income => if t.amount > 0.0 { out := out + [t]; }
        case All => out := out + [t];
      }
      i := i + 1;
    }
    assert data[..i] == data;
  }

  /** filterByDate. */
  method FilterByDate(transactions: seq<Transaction>, start: Date, end: Date) returns (out: seq<Transaction>)
    ensures out == Select(transactions, ByDate(start, end))
  {
    out := [];
    var i := 0;
    while i < |transactions|
      invariant 0 <= i <= |transactions|
      invariant out == Select(transactions[..i], ByDate(start, end))
    {
      var t := transactions[i];
      SelectSnoc(transactions, i, ByDate(start, end));
      if (t.date == start || Before(start, t.date)) && (t.date == end || Before(t.date, end)) {
        out := out + [t];
      }
      i := i + 1;
    }
    assert transactions[..i] == transactions;
  }

  /** searchByVendor; the caller has already trimmed and lower-cased the query. */
  method SearchByVendor(transactions: seq<Transaction>, vendorLower: string) returns (out: seq<Transaction>)
    ensures out == Select(transactions, ByVendor(vendorLower))
  {
    out := [];
    var i := 0;
    while i < |transactions|
      invariant 0 <= i <= |transactions|
      invariant out == Select(transactions[..i], ByVendor(vendorLower))
    {
      var t := transactions[i];
      SelectSnoc(transactions, i, ByVendor(vendorLower));
      if Contains(ToLower(t.vendor), vendorLower) {
        out := out + [t];
      }
      i := i + 1;
    }
    assert transactions[..i] == transactions;
  }

  /**
   * The criteria runCustomSearch builds from its five answers: each is trimmed,
   * the two text ones lower-cased; an empty date or amount, or one that does
   * not parse, becomes no constraint.
   */
  function CustomCriteria(startIn: string, endIn: string, descIn: string, vendorIn: string, amountIn: string): (c: Criteria)
    ensures c.start == ParseDate(Trim(startIn)) && c.end == ParseDate(Trim(endIn))
    ensures c.description == ToLower(Trim(descIn)) && c.vendor == ToLower(Trim(vendorIn))
    ensures c.amount == ParseAmount(amountIn)
  {
    var startStr, endStr, amtStr := Trim(startIn), Trim(endIn), Trim(amountIn);
    var start := if startStr == [] then None else ParseDate(startStr);
    var end := if endStr == [] then None else ParseDate(endStr);
    var amount := if amtStr == [] then None else ParseAmount(amtStr);
    TrimIdempotent(amountIn);
    Criteria(start, end, ToLower(Trim(descIn)), ToLower(Trim(vendorIn)), amount)
  }

  /** A date bound that is used is exactly the date that was typed, surrounding blanks aside. */
  lemma {:induction false} CriteriaDatesAsTyped(startIn: string, endIn: string, descIn: string, vendorIn: string, amountIn: string)
    ensures var c := CustomCriteria(startIn, endIn, descIn, vendorIn, amountIn);
            && (c.start.Some? ==> FormatDate(c.start.value) == Trim(startIn))
            && (c.end.Some? ==> FormatDate(c.end.value) == Trim(endIn))
  {
    var c := CustomCriteria(startIn, endIn, descIn, vendorIn, amountIn);
    if c.start.Some? { FormatParseDate(Trim(startIn)); }
    if c.end.Some? { FormatParseDate(Trim(endIn)); }
  }

  /**
   * runCustomSearch given its five answers as typed: the answers become
   * criteria, then the row loop runs. Java parses the amount again for every
   * row; the text never changes, so it is parsed once here.
   */
  method RunCustomSearch(data: seq<Transaction>, startIn: string, endIn: string, descIn: string, vendorIn: string, amountIn: string)
    returns (out: seq<Transaction>)
    ensures out == Select(data, Custom(CustomCriteria(startIn, endIn, descIn, vendorIn, amountIn)))
  {
    var startStr, endStr := Trim(startIn), Trim(endIn);
    var desc, vendor := ToLower(Trim(descIn)), ToLower(Trim(vendorIn));
    var amtStr := Trim(amountIn);
    var start: Option<Date> := None;
    var end: Option<Date> := None;
    var amount: Option<real> := None;
    if startStr != [] { start := ParseDate(startStr); }
    if endStr != [] { end := ParseDate(endStr); }
    if amtStr != [] { amount := ParseAmount(amtStr); }
    var c := Criteria(start, end, desc, vendor, amount);
    assert c == CustomCriteria(startIn, endIn, descIn, vendorIn, amountIn);
    out := SearchByCriteria(data, c);
  }

  /** The row loop of runCustomSearch: a row is skipped as soon as one supplied criterion fails. */
  method SearchByCriteria(data: seq<Transaction>, c: Criteria) returns (out: seq<Transaction>)
    ensures out == Select(data, Custom(c))
  {
    out := [];
    var i := 0;
    while i < |data|
      invariant 0 <= i <= |data|
      invariant out == Select(data[..i], Custom(c))
    {
      var t := data[i];
      SelectSnoc(data, i, Custom(c));
      i := i + 1;
      if c.start.Some? && Before(t.date, c.start.value) { continue; }
      if c.end.Some? && Before(c.end.value, t.date) { continue; }
      if c.description != [] && !Contains(ToLower(t.description), c.description) { continue; }
      if c.vendor != [] && !Contains(ToLower(t.vendor), c.vendor) { continue; }
      if c.amount.Some? && Abs(t.amount - c.amount.value) > Tolerance { continue; }
      out := out + [t];
    }
    assert data[..i] == data;
  }

  // ----- properties of the listings -----

  /** A listing holds exactly the input rows its filter keeps. */
  lemma {:induction false} SelectMembership(ts: seq<Transaction>, f: Filter, t: Transaction)
    ensures t in Select(ts, f) <==> t in ts && Keeps(f, t)
    decreases |ts|
  {
    if ts != [] {
      var init := ts[..|ts| - 1];
      SelectMembership(init, f, t);
      assert ts == init + [ts[|ts| - 1]];
    }
  }

  /** `a` is `b` with some elements left out, the rest in the same order. */
  predicate IsSubsequence(a: seq<Transaction>, b: seq<Transaction>)
    decreases |b|
  {
    if b == [] then a == []
    else
      || (a != [] && a[|a| - 1] == b[|b| - 1] && IsSubsequence(a[..|a| - 1], b[..|b| - 1]))
      || IsSubsequence(a, b[..|b| - 1])
  }

  /** Every listing is an order-preserving subsequence of its input. */
  lemma {:induction false} SelectIsSubsequence(ts: seq<Transaction>, f: Filter)
    ensures IsSubsequence(Select(ts, f), ts)
    decreases |ts|
  {
    if ts != [] {
      var init, last := ts[..|ts| - 1], ts[|ts| - 1];
      SelectIsSubsequence(init, f);
      var s := Select(init, f);
      if Keeps(f, last) {
        var s' := s + [last];
        assert Select(ts, f) == s' && s'[..|s'| - 1] == s;
      } else {
        assert Select(ts, f) == s;
      }
    }
  }

  /** Filtering a concatenation filters each part. */
  lemma {:induction false} SelectAppend(a: seq<Transaction>, b: seq<Transaction>, f: Filter)
    ensures Select(a + b, f) == Select(a, f) + Select(b, f)
    decreases |b|
  {
    if b == [] {
      assert a + b == a;
    } else {
      var b' := b[..|b| - 1];
      assert (a + b)[..|a + b| - 1] == a + b';
      SelectAppend(a, b', f);
    }
  }

  /** Two filters that keep the same rows give the same listing. */
  lemma {:induction false} SelectSameTest(ts: seq<Transaction>, f: Filter, g: Filter)
    requires forall k :: 0 <= k < |ts| ==> (Keeps(f, ts[k]) <==> Keeps(g, ts[k]))
    ensures Select(ts, f) == Select(ts, g)
    decreases |ts|
  {
    if ts != [] {
      var init := ts[..|ts| - 1];
      assert forall k :: 0 <= k < |init| ==> init[k] == ts[k];
      SelectSameTest(init, f, g);
    }
  }

  /** A filter that keeps every row gives back its input. */
  lemma {:induction false} SelectEverything(ts: seq<Transaction>, f: Filter)
    requires forall k :: 0 <= k < |ts| ==> Keeps(f, ts[k])
    ensures Select(ts, f) == ts
    decreases |ts|
  {
    if ts != [] {
      var init := ts[..|ts| - 1];
      assert forall k :: 0 <= k < |init| ==> init[k] == ts[k];
      SelectEverything(init, f);
      assert init + [ts[|ts| - 1]] == ts;
    }
  }

  /** Listing all returns the input unchanged. */
  lemma {:induction false} ListAll(ts: seq<Transaction>)
    ensures Select(ts, ByType(All)) == ts
  {
    SelectEverything(ts, ByType(All));
  }

  /** EXPENSE keeps exactly the negative amounts and INCOME exactly the positive ones. */
  lemma {:induction false} ExpenseIncomeMembership(ts: seq<Transaction>, t: Transaction)
    ensures t in Select(ts, ByType(Expense)) <==> t in ts && t.amount < 0.0
    ensures t in Select(ts, ByType(Income)) <==> t in ts && t.amount > 0.0
  {
    SelectMembership(ts, ByType(Expense), t);
    SelectMembership(ts, ByType(Income), t);
  }

  /** No row is listed both as an expense and as income, and a zero amount is in neither listing. */
  lemma {:induction false} ExpenseIncomeDisjoint(ts: seq<Transaction>, t: Transaction)
    ensures !(t in Select(ts, ByType(Expense)) && t in Select(ts, ByType(Income)))
    ensures t.amount == 0.0 ==> t !in Select(ts, ByType(Expense)) && t !in Select(ts, ByType(Income))
  {
    ExpenseIncomeMembership(ts, t);
  }

  /** The rows with a zero amount, in order: listed only under ALL. */
  function ZeroRows(ts: seq<Transaction>): seq<Transaction>
    decreases |ts|
  {
    if ts == [] then []
    else ZeroRows(ts[..|ts| - 1]) + (if ts[|ts| - 1].amount == 0.0 then [ts[|ts| - 1]] else [])
  }

  /** The three parts of a non-empty input gain its last row, and only that row, over its other rows. */
  lemma {:induction false} TypeStep(ts: seq<Transaction>)
    requires ts != []
    ensures var init := ts[..|ts| - 1];
            && multiset(Select(ts, ByType(Expense))) + multiset(Select(ts, ByType(Income))) + multiset(ZeroRows(ts))
               == multiset(Select(init, ByType(Expense))) + multiset(Select(init, ByType(Income))) + multiset(ZeroRows(init)) + multiset{ts[|ts| - 1]}
            && multiset(ts) == multiset(init) + multiset{ts[|ts| - 1]}
  {
    assert ts == ts[..|ts| - 1] + [ts[|ts| - 1]];
  }

  /** The expense rows, the income rows and the zero rows together are the whole input. */
  lemma {:induction false} TypePartition(ts: seq<Transaction>)
    ensures multiset(Select(ts, ByType(Expense))) + multiset(Select(ts, ByType(Income))) + multiset(ZeroRows(ts))
         == multiset(ts)
    decreases |ts|
  {
    if ts != [] {
      TypePartition(ts[..|ts| - 1]);
      TypeStep(ts);
    }
  }

  /** filterByDate keeps a row exactly when its date lies in the window, both ends included. */
  lemma {:induction false} DateWindowMembership(ts: seq<Transaction>, start: Date, end: Date, t: Transaction)
    ensures t in Select(ts, ByDate(start, end))
        <==> t in ts && !Before(t.date, start) && !Before(end, t.date)
  {
    SelectMembership(ts, ByDate(start, end), t);
  }

  /** The first and the last day of a window are both listed. */
  lemma {:induction false} DateWindowInclusive(ts: seq<Transaction>, start: Date, end: Date, t: Transaction)
    requires t in ts && OnOrBefore(start, end)
    requires t.date == start || t.date == end
    ensures t in Select(ts, ByDate(start, end))
  {
    SelectMembership(ts, ByDate(start, end), t);
  }

  /** With every answer left blank, the custom search lists everything. */
  lemma {:induction false} BlankCustomSearch(ts: seq<Transaction>, blank1: string, blank2: string, blank3: string, blank4: string, blank5: string)
    requires Trim(blank1) == [] && Trim(blank2) == [] && Trim(blank3) == [] && Trim(blank4) == [] && Trim(blank5) == []
    ensures Select(ts, Custom(CustomCriteria(blank1, blank2, blank3, blank4, blank5))) == ts
  {
    BlankCriteria(blank1, blank2, blank3, blank4, blank5);
    SelectEverything(ts, Custom(Criteria(None, None, [], [], None)));
  }

  /** Five blank answers give criteria that constrain nothing. */
  lemma BlankCriteria(blank1: string, blank2: string, blank3: string, blank4: string, blank5: string)
    requires Trim(blank1) == [] && Trim(blank2) == [] && Trim(blank3) == [] && Trim(blank4) == [] && Trim(blank5) == []
    ensures CustomCriteria(blank1, blank2, blank3, blank4, blank5) == Criteria(None, None, [], [], None)
  {
    var c := CustomCriteria(blank1, blank2, blank3, blank4, blank5);
    assert ParseDate([]).None? && ParseSigned([]).None?;
    assert ToLower([]) == [];
    assert c.start == None && c.end == None;
    assert c.description == [] && c.vendor == [];
    assert c.amount == None;
  }

  /** A start date that does not parse constrains nothing, as if left blank, whatever the other answers. */
  lemma {:induction false} UnparseableStartIgnored(startIn: string, endIn: string, descIn: string, vendorIn: string, amountIn: string)
    requires ParseDate(Trim(startIn)).None?
    ensures CustomCriteria(startIn, endIn, descIn, vendorIn, amountIn) == CustomCriteria("", endIn, descIn, vendorIn, amountIn)
  {
    var c, blank := CustomCriteria(startIn, endIn, descIn, vendorIn, amountIn), CustomCriteria("", endIn, descIn, vendorIn, amountIn);
    NoDateInBlank();
    assert c.start == None == blank.start;
  }

  /** An end date that does not parse constrains nothing, as if left blank, whatever the other answers. */
  lemma {:induction false} UnparseableEndIgnored(startIn: string, endIn: string, descIn: string, vendorIn: string, amountIn: string)
    requires ParseDate(Trim(endIn)).None?
    ensures CustomCriteria(startIn, endIn, descIn, vendorIn, amountIn) == CustomCriteria(startIn, "", descIn, vendorIn, amountIn)
  {
    var c, blank := CustomCriteria(startIn, endIn, descIn, vendorIn, amountIn), CustomCriteria(startIn, "", descIn, vendorIn, amountIn);
    NoDateInBlank();
    assert c.end == None == blank.end;
  }

  /** A blank date answer gives no date. */
  lemma NoDateInBlank()
    ensures ParseDate(Trim("")) == None
  {
    assert Trim("") == "";
  }

  /** An amount that does not parse constrains nothing, as if left blank, whatever the other answers. */
  lemma {:induction false} UnparseableAmountIgnored(startIn: string, endIn: string, descIn: string, vendorIn: string, amountIn: string)
    requires ParseAmount(amountIn).None?
    ensures CustomCriteria(startIn, endIn, descIn, vendorIn, amountIn) == CustomCriteria(startIn, endIn, descIn, vendorIn, "")
  {
    assert Trim("") == "";
    assert ParseSigned("").None?;
  }

  /** With all three unparseable, only the two text answers are left. */
  lemma {:induction false} UnparseableCriteriaIgnored(startIn: string, endIn: string, descIn: string, vendorIn: string, amountIn: string)
    requires ParseDate(Trim(startIn)).None? && ParseDate(Trim(endIn)).None? && ParseAmount(amountIn).None?
    ensures CustomCriteria(startIn, endIn, descIn, vendorIn, amountIn) == CustomCriteria("", "", descIn, vendorIn, "")
  {
    UnparseableStartIgnored(startIn, endIn, descIn, vendorIn, amountIn);
    NoDateInBlank();
    UnparseableEndIgnored("", endIn, descIn, vendorIn, amountIn);
    UnparseableAmountIgnored("", "", descIn, vendorIn, amountIn);
  }

  /** A custom search by dates alone is filterByDate over the same window. */
  lemma {:induction false} CustomDatesOnly(ts: seq<Transaction>, start: Date, end: Date)
    ensures Select(ts, Custom(Criteria(Some(start), Some(end), "", "", None))) == Select(ts, ByDate(start, end))
  {
    SelectSameTest(ts, Custom(Criteria(Some(start), Some(end), "", "", None)), ByDate(start, end));
  }

  /** The empty needle is contained in every text. */
  lemma ContainsEmpty(s: string)
    ensures Contains(s, [])
  {
    assert StartsWith(s[0..], []);
  }

  /** A custom search by the vendor alone is searchByVendor with the same query; a blank one keeps every row in both. */
  lemma {:induction false} CustomVendorOnly(ts: seq<Transaction>, vendor: string)
    ensures Select(ts, Custom(Criteria(None, None, "", vendor, None))) == Select(ts, ByVendor(vendor))
  {
    if vendor == [] {
      forall k | 0 <= k < |ts|
        ensures Contains(ToLower(ts[k].vendor), vendor)
      {
        ContainsEmpty(ToLower(ts[k].vendor));
      }
    }
    SelectSameTest(ts, Custom(Criteria(None, None, "", vendor, None)), ByVendor(vendor));
  }

  /** Each criterion narrows the listing: a custom search keeps a row only if every supplied test passes. */
  lemma {:induction false} CustomSearchMembership(ts: seq<Transaction>, c: Criteria, t: Transaction)
    ensures t in Select(ts, Custom(c)) <==>
              && t in ts
              && (c.start.Some? ==> OnOrBefore(c.start.value, t.date))
              && (c.end.Some? ==> OnOrBefore(t.date, c.end.value))
              && (c.description != [] ==> Contains(ToLower(t.description), c.description))
              && (c.vendor != [] ==> Contains(ToLower(t.vendor), c.vendor))
              && (c.amount.Some? ==> -Tolerance <= t.amount - c.amount.value <= Tolerance)
  {
    SelectMembership(ts, Custom(c), t);
  }

  lemma CafeMatches()
    ensures Contains(ToLower("Cafe123"), "caf")
  {
    var lower := ToLower("Cafe123");
    assert lower[0] == 'c' && lower[1] == 'a' && lower[2] == 'f';
    assert lower[0..][..3] == "caf";
    assert StartsWith(lower[0..], "caf");
  }

  lemma StoreDoesNotMatch()
    ensures !Contains(ToLower("Store"), "caf")
  {
    var lower := ToLower("Store");
    assert forall k :: 0 <= k < |lower| ==> lower[k] != 'c';
    MissingFirstCharacter(lower, "caf");
  }

  /** The vendor query "caf" finds "Cafe123" but not "Store". */
  lemma VendorSearchExample(date: Date, time: Time)
    ensures var cafe := Transaction(date, time, "Coffee", "Cafe123", -4.5);
            var store := Transaction(date, time, "Milk", "Store", -3.0);
            Select([cafe, store], ByVendor("caf")) == [cafe]
  {
    var cafe := Transaction(date, time, "Coffee", "Cafe123", -4.5);
    var store := Transaction(date, time, "Milk", "Store", -3.0);
    CafeMatches();
    StoreDoesNotMatch();
    assert [cafe, store][..1] == [cafe];
    assert [cafe][..0] == [];
    assert Select([cafe], ByVendor("caf")) == [cafe];
  }
}
