/** The logic of `src/components/Dashboard.jsx`: month keys, the interest
    collected per month, the months offered in the selector, the payments of
    the selected month and the four figures shown. */
module Dashboard {
  import opened JsValues
  import opened Decimal
  import opened DateUtils
  import opened Rows
  import Text
  import LoanUtils

  /** `String(year)` */
  function YearString(y: int): string
  {
    if y >= 0 then FromNat(y) else "-" + FromNat(-y)
  }

  /** `getMonthYear(dateString)`: 'Unknown Date' for a falsy input;
      otherwise the year and the zero-padded month; an unparsable date gives
      `NaN` for both. */
  function GetMonthYear(dateString: Val): (r: string)
    ensures !Truthy(dateString) ==> r == "Unknown Date"
    ensures Truthy(dateString) && DateOf(dateString).None? ==> r == "NaN-NaN"
  {
    if !Truthy(dateString) then "Unknown Date"
    else match DateOf(dateString)
      case None => "NaN-NaN"
      case Some(d) => YearString(d.year) + "-" + ZeroPad(d.month, 2)
  }

  /** For a date string YYYY-MM-DD whose year has four significant digits,
      the month key is its first seven characters, YYYY-MM. */
  lemma MonthYearIsDatePrefix(s: string)
    requires ParseDate(s).Some? && s[0] != '0'
    ensures GetMonthYear(Str(s)) == s[..7]
  {
    var d := ParseDate(s).value;
    ParseDateFields(s);
    assert GetMonthYear(Str(s)) == YearString(d.year) + "-" + ZeroPad(d.month, 2);
    assert YearString(d.year) == s[..4] by {
      FromNatValue(s[..4]);
    }
    assert ZeroPad(d.month, 2) == s[5..7] by {
      TwoDigitPad(s[5..7]);
    }
    assert s[..7] == s[..4] + "-" + s[5..7];
  }

  /** Two digits are what `padStart(2, '0')` writes for their number. */
  lemma TwoDigitPad(t: string)
    requires |t| == 2 && AllDigits(t)
    ensures ZeroPad(Value(t), 2) == t
  {
    ValueBound(t);
    assert Pow10(2) == 100;
    ValueInjective(ZeroPad(Value(t), 2), t);
  }

  /** `if (!totals[key]) totals[key] = 0; totals[key] += amount;` */
  function AddToMonth(m: map<string, Val>, key: string, amount: Val): map<string, Val>
  {
    var start := if key in m && Truthy(m[key]) then m[key] else Num(0.0);
    m[key := Plus(start, amount)]
  }

  /** The dictionary a `forEach` builds that adds the `amount` of every row
      `counted` accepts to the entry `keyOf` names, the rows taken in order. */
  function Totals(rows: seq<Obj>, counted: Obj -> bool, keyOf: Obj -> string): map<string, Val>
  {
    if rows == [] then map[]
    else
      var m := Totals(rows[..|rows| - 1], counted, keyOf);
      var p := rows[|rows| - 1];
      if counted(p) then AddToMonth(m, keyOf(p), Get(p, "amount")) else m
  }

  /** What one row adds to the sum of the entry `key`. */
  function Contribution(p: Obj, counted: Obj -> bool, keyOf: Obj -> string, key: string): real
  {
    if counted(p) && keyOf(p) == key && Get(p, "amount").Num? then Get(p, "amount").n else 0.0
  }

  /** The sum of the numeric amounts of the counted rows of one entry: the
      reference the dictionary is measured against. */
  function KeySum(rows: seq<Obj>, counted: Obj -> bool, keyOf: Obj -> string, key: string): real
  {
    if rows == [] then 0.0
    else KeySum(rows[..|rows| - 1], counted, keyOf, key) + Contribution(rows[|rows| - 1], counted, keyOf, key)
  }

  /** Every counted row has a numeric amount. */
  predicate AmountsNumeric(rows: seq<Obj>, counted: Obj -> bool)
  {
    forall i :: 0 <= i < |rows| && counted(rows[i]) ==> Get(rows[i], "amount").Num?
  }

  lemma AmountsNumericPrefix(rows: seq<Obj>, counted: Obj -> bool, n: nat)
    requires AmountsNumeric(rows, counted) && n <= |rows|
    ensures AmountsNumeric(rows[..n], counted)
  {
    forall i | 0 <= i < n && counted(rows[..n][i]) ensures Get(rows[..n][i], "amount").Num? {
      assert rows[..n][i] == rows[i];
    }
  }

  /** The entries present are exactly the keys of counted rows. */
  lemma {:induction false} TotalsKeys(rows: seq<Obj>, counted: Obj -> bool, keyOf: Obj -> string, key: string)
    ensures key in Totals(rows, counted, keyOf) <==>
      exists i :: 0 <= i < |rows| && counted(rows[i]) && keyOf(rows[i]) == key
  {
    if rows != [] {
      var n := |rows| - 1;
      var init := rows[..n];
      assert forall i :: 0 <= i < n ==> init[i] == rows[i];
      TotalsKeys(init, counted, keyOf, key);
    }
  }

  /** Adding a number to an entry whose running total is `before` (absent
      meaning 0) leaves `before + amount`, even when `before` is 0 and the
      entry is reset first. */
  lemma AddToMonthSum(m: map<string, Val>, key: string, amount: real, before: real)
    requires key in m ==> m[key] == Num(before)
    requires key !in m ==> before == 0.0
    ensures key in AddToMonth(m, key, Num(amount))
    ensures AddToMonth(m, key, Num(amount))[key] == Num(before + amount)
  {
  }

  /** When the amounts of counted rows are numbers, each entry holds the sum
      of its amounts, and a missing entry has nothing to sum. */
  lemma {:induction false} TotalsMeaning(rows: seq<Obj>, counted: Obj -> bool, keyOf: Obj -> string, key: string)
    requires AmountsNumeric(rows, counted)
    ensures key !in Totals(rows, counted, keyOf) ==> KeySum(rows, counted, keyOf, key) == 0.0
    ensures key in Totals(rows, counted, keyOf) ==>
      Totals(rows, counted, keyOf)[key] == Num(KeySum(rows, counted, keyOf, key))
  {
    if rows != [] {
      var n := |rows| - 1;
      var init, p := rows[..n], rows[n];
      AmountsNumericPrefix(rows, counted, n);
      TotalsMeaning(init, counted, keyOf, key);
      var m := Totals(init, counted, keyOf);
      if counted(p) {
        var amount := Get(p, "amount");
        assert amount.Num?;
        if keyOf(p) == key {
          AddToMonthSum(m, key, amount.n, KeySum(init, counted, keyOf, key));
        } else {
          assert Contribution(p, counted, keyOf, key) == 0.0;
        }
      }
    }
  }

  /** A payment the monthly figures count: paid, with a payment date. */
  predicate Counted(p: Obj)
  {
    LoanUtils.IsPaid(p) && Truthy(Get(p, "payment_date"))
  }

  /** `getMonthYear(payment.payment_date)` */
  function MonthOf(p: Obj): string
  {
    GetMonthYear(Get(p, "payment_date"))
  }

  /** The dictionary the `forEach` of `monthlyInterestData` builds. */
  function MonthlyTotals(payments: seq<Obj>): map<string, Val>
  {
    Totals(payments, Counted, MonthOf)
  }

  /** One bar of the chart. */
  datatype ChartRow = ChartRow(name: string, interestCollected: Val)

  function Names(chart: seq<ChartRow>): (r: seq<string>)
    ensures |r| == |chart| && forall i :: 0 <= i < |chart| ==> r[i] == chart[i].name
  {
    seq(|chart|, i requires 0 <= i < |chart| => chart[i].name)
  }

  /** The `forEach` of `monthlyInterestData`: the dictionary, and its keys
      in the order they were added (the order `Object.keys` reports). */
  method FillMonthlyData(payments: seq<Obj>) returns (monthlyData: map<string, Val>, keys: seq<string>)
    ensures monthlyData == MonthlyTotals(payments)
    ensures forall k :: k in keys <==> k in monthlyData
    ensures forall a, b :: 0 <= a < b < |keys| ==> keys[a] != keys[b]
  {
    monthlyData := map[];
    keys := [];
    var i := 0;
    while i < |payments|
      invariant 0 <= i <= |payments|
      invariant monthlyData == MonthlyTotals(payments[..i])
      invariant ListsKeys(keys, monthlyData)
    {
      var p := payments[i];
      TotalsStep(payments, Counted, MonthOf, i);
      if Counted(p) {
        var monthYear := MonthOf(p);
        ghost var before, beforeKeys := monthlyData, keys;
        if monthYear !in monthlyData {
          keys := keys + [monthYear];
        }
        if !(monthYear in monthlyData && Truthy(monthlyData[monthYear])) {
          monthlyData := monthlyData[monthYear := Num(0.0)];
        }
        monthlyData := monthlyData[monthYear := Plus(monthlyData[monthYear], Get(p, "amount"))];
        ResetThenAdd(before, monthYear, Get(p, "amount"));
        KeysStep(beforeKeys, before, monthYear, Get(p, "amount"));
      }
      i := i + 1;
    }
    assert payments[..i] == payments;
  }

  /** One more row extends the dictionary by that row alone. */
  lemma TotalsStep(rows: seq<Obj>, counted: Obj -> bool, keyOf: Obj -> string, i: nat)
    requires i < |rows|
    ensures Totals(rows[..i + 1], counted, keyOf) ==
      var m := Totals(rows[..i], counted, keyOf);
      if counted(rows[i]) then AddToMonth(m, keyOf(rows[i]), Get(rows[i], "amount")) else m
  {
    assert rows[..i + 1][..i] == rows[..i];
  }

  /** Resetting a falsy entry to 0 and then adding is `AddToMonth`. */
  lemma ResetThenAdd(m: map<string, Val>, key: string, amount: Val)
    ensures AddToMonth(m, key, amount) ==
      var m1 := if !(key in m && Truthy(m[key])) then m[key := Num(0.0)] else m;
      m1[key := Plus(m1[key], amount)]
  {
  }

  /** `keys` lists the keys of `m`, each once, as `Object.keys` does. */
  ghost predicate ListsKeys(keys: seq<string>, m: map<string, Val>)
  {
    && (forall k :: k in keys <==> k in m)
    && (forall a, b :: 0 <= a < b < |keys| ==> keys[a] != keys[b])
  }

  /** A key new to the dictionary goes to the end of the list of its keys. */
  lemma KeysStep(keys: seq<string>, m: map<string, Val>, key: string, amount: Val)
    requires ListsKeys(keys, m)
    ensures ListsKeys(if key in m then keys else keys + [key], AddToMonth(m, key, amount))
  {
  }

  /** `monthlyInterestData`: the months of the dictionary sorted, each with
      its total. */
  method MonthlyInterestData(payments: seq<Obj>) returns (chart: seq<ChartRow>)
    ensures Text.StrictlyAscending(Names(chart))
    ensures forall m :: m in Names(chart) <==> m in MonthlyTotals(payments)
    ensures forall i :: 0 <= i < |chart| ==>
      chart[i].name in MonthlyTotals(payments) && chart[i].interestCollected == MonthlyTotals(payments)[chart[i].name]
  {
    var monthlyData, keys := FillMonthlyData(payments);
    var sortedMonths := Text.SortStrings(keys);
    Text.SortDistinct(keys);
    assert forall k :: k in sortedMonths <==> k in keys by {
      forall k ensures k in sortedMonths <==> k in keys {
        assert k in sortedMonths <==> k in multiset(sortedMonths);
        assert k in keys <==> k in multiset(keys);
      }
    }
    chart := seq(|sortedMonths|, j requires 0 <= j < |sortedMonths| =>
      ChartRow(sortedMonths[j], monthlyData[sortedMonths[j]]));
    assert Names(chart) == sortedMonths;
  }

  /** `availableMonths`: 'all', then the distinct chart months sorted. */
  function AvailableMonths(chart: seq<ChartRow>): (r: seq<string>)
    ensures |r| >= 1 && r[0] == "all"
    ensures Text.StrictlyAscending(r[1..])
    ensures forall m :: m in r[1..] <==> m in Names(chart)
  {
    var distinct := Text.Dedup(Names(chart));
    var sorted := Text.SortStrings(distinct);
    Text.SortDistinct(distinct);
    assert forall m :: m in sorted <==> m in distinct by {
      forall m ensures m in sorted <==> m in distinct {
        assert m in sorted <==> m in multiset(sorted);
        assert m in distinct <==> m in multiset(distinct);
      }
    }
    assert (["all"] + sorted)[1..] == sorted;
    ["all"] + sorted
  }

  /** Over the chart of `monthlyInterestData`, whose months are already
      distinct and sorted, the selector lists 'all' followed by exactly the
      chart's months in the chart's order. */
  lemma AvailableMonthsOfChart(chart: seq<ChartRow>)
    requires Text.StrictlyAscending(Names(chart))
    ensures AvailableMonths(chart) == ["all"] + Names(chart)
  {
    Text.DedupDistinct(Names(chart));
    Text.SortSorted(Names(chart));
  }

  /** The callback of a filter on one entry: a counted row whose key is
      `key`. */
  function Selector(counted: Obj -> bool, keyOf: Obj -> string, key: string): Obj -> bool
  {
    p => counted(p) && keyOf(p) == key
  }

  /** `filteredPayments`: every payment for 'all'; otherwise the counted
      payments of the selected month. */
  function SelectedPayments(payments: seq<Obj>, selectedMonth: string): (r: seq<Obj>)
    ensures selectedMonth == "all" ==> r == payments
    ensures selectedMonth != "all" ==>
      forall p :: p in r <==> p in payments && Counted(p) && MonthOf(p) == selectedMonth
  {
    if selectedMonth == "all" then payments
    else
      FilterMembers(payments, Selector(Counted, MonthOf, selectedMonth));
      Filter(payments, Selector(Counted, MonthOf, selectedMonth))
  }

  /** `rows.reduce((sum, r) => sum + (r[key] || 0), 0)` */
  function SumOrZero(rows: seq<Obj>, key: string): (r: Val)
    ensures rows == [] ==> r == Num(0.0)
    ensures r.Num? || r == NaN
  {
    if rows == [] then Num(0.0)
    else Plus(SumOrZero(rows[..|rows| - 1], key), Or(Get(rows[|rows| - 1], key), Num(0.0)))
  }

  /** The number a field contributes to the sum when it holds a number. */
  function NumberOrZero(v: Val): real
  {
    if v.Num? then v.n else 0.0
  }

  function PlainSum(rows: seq<Obj>, key: string): real
  {
    if rows == [] then 0.0
    else PlainSum(rows[..|rows| - 1], key) + NumberOrZero(Get(rows[|rows| - 1], key))
  }

  /** Every value of `key` is a number or falsy. */
  predicate NumericOrFalsy(rows: seq<Obj>, key: string)
  {
    forall i :: 0 <= i < |rows| ==> Get(rows[i], key).Num? || !Truthy(Get(rows[i], key))
  }

  lemma AddOrZero(sum: real, v: Val)
    requires v.Num? || !Truthy(v)
    ensures Plus(Num(sum), Or(v, Num(0.0))) == Num(sum + NumberOrZero(v))
  {
  }

  lemma NumericOrFalsyPrefix(rows: seq<Obj>, key: string, n: nat)
    requires NumericOrFalsy(rows, key) && n <= |rows|
    ensures NumericOrFalsy(rows[..n], key)
  {
    forall i | 0 <= i < n ensures Get(rows[..n][i], key).Num? || !Truthy(Get(rows[..n][i], key)) {
      assert rows[..n][i] == rows[i];
    }
  }

  /** When every value is a number or missing, the reduction is the plain
      sum, a missing value counting as 0. */
  lemma {:induction false} SumOrZeroIsPlainSum(rows: seq<Obj>, key: string)
    requires NumericOrFalsy(rows, key)
    ensures SumOrZero(rows, key) == Num(PlainSum(rows, key))
  {
    if rows != [] {
      var n := |rows| - 1;
      var init, v := rows[..n], Get(rows[n], key);
      NumericOrFalsyPrefix(rows, key, n);
      SumOrZeroIsPlainSum(init, key);
      AddOrZero(PlainSum(init, key), v);
      assert SumOrZero(rows, key) == Plus(SumOrZero(init, key), Or(v, Num(0.0)));
      assert Plus(SumOrZero(init, key), Or(v, Num(0.0))) == Num(PlainSum(init, key) + NumberOrZero(v));
      assert PlainSum(rows, key) == PlainSum(init, key) + NumberOrZero(v);
    }
  }

  /** `totalLoansGiven` */
  function TotalLoansGiven(loans: seq<Obj>): (r: Val)
    ensures NumericOrFalsy(loans, "loan_amount") ==> r == Num(PlainSum(loans, "loan_amount"))
  {
    assert NumericOrFalsy(loans, "loan_amount") ==>
      SumOrZero(loans, "loan_amount") == Num(PlainSum(loans, "loan_amount")) by {
      if NumericOrFalsy(loans, "loan_amount") {
        SumOrZeroIsPlainSum(loans, "loan_amount");
      }
    }
    SumOrZero(loans, "loan_amount")
  }

  /** `totalInterestCollected`, over the selected payments: when the paid
      ones carry numbers, the sum of their amounts. */
  function TotalInterestCollected(selected: seq<Obj>): (r: Val)
    ensures LoanUtils.PaidAmountsNumeric(selected) ==> r == Num(LoanUtils.PaidSum(selected))
  {
    PaidAmountsSum(selected);
    SumOrZero(Filter(selected, LoanUtils.IsPaid), "amount")
  }

  lemma SumOrZeroAppend(rows: seq<Obj>, x: Obj, key: string)
    ensures SumOrZero(rows + [x], key) == Plus(SumOrZero(rows, key), Or(Get(x, key), Num(0.0)))
  {
    assert (rows + [x])[..|rows|] == rows;
  }

  lemma FilterSnoc(init: seq<Obj>, p: Obj, keep: Obj -> bool)
    ensures Filter(init + [p], keep) == Filter(init, keep) + (if keep(p) then [p] else [])
  {
    FilterAppend(init, [p], keep);
    assert [p][1..] == [];
  }

  /** Summing the amounts of the counted rows of one entry, missing
      amounts as 0, gives the entry's reference sum. */
  lemma {:induction false} SelectorSum(rows: seq<Obj>, counted: Obj -> bool, keyOf: Obj -> string, key: string)
    requires AmountsNumeric(rows, counted)
    ensures SumOrZero(Filter(rows, Selector(counted, keyOf, key)), "amount") == Num(KeySum(rows, counted, keyOf, key))
  {
    var sel := Selector(counted, keyOf, key);
    if rows != [] {
      var n := |rows| - 1;
      var init, p := rows[..n], rows[n];
      assert rows == init + [p];
      AmountsNumericPrefix(rows, counted, n);
      SelectorSum(init, counted, keyOf, key);
      FilterSnoc(init, p, sel);
      var before := Filter(init, sel);
      if sel(p) {
        var v := Get(p, "amount");
        assert v.Num?;
        SumOrZeroAppend(before, p, "amount");
        AddOrZero(KeySum(init, counted, keyOf, key), v);
        assert Filter(rows, sel) == before + [p];
        assert Contribution(p, counted, keyOf, key) == NumberOrZero(v);
        assert KeySum(rows, counted, keyOf, key) == KeySum(init, counted, keyOf, key) + NumberOrZero(v);
      } else {
        assert Filter(rows, sel) == before;
        assert Contribution(p, counted, keyOf, key) == 0.0;
        assert KeySum(rows, counted, keyOf, key) == KeySum(init, counted, keyOf, key);
      }
    }
  }

  /** With a month selected, the interest card shows the same figure as
      that month's bar in the chart: the sum of the month's paid amounts. */
  lemma SelectedMonthMatchesChart(payments: seq<Obj>, month: string)
    requires month != "all" && AmountsNumeric(payments, Counted) && month in MonthlyTotals(payments)
    ensures TotalInterestCollected(SelectedPayments(payments, month)) == MonthlyTotals(payments)[month]
    ensures MonthlyTotals(payments)[month] == Num(KeySum(payments, Counted, MonthOf, month))
  {
    var sel := Selector(Counted, MonthOf, month);
    var selected := Filter(payments, sel);
    FilterMembers(payments, sel);
    forall i | 0 <= i < |selected| ensures LoanUtils.IsPaid(selected[i]) {
      assert selected[i] in selected;
    }
    FilterKeepsAll(selected, LoanUtils.IsPaid);
    SelectorSum(payments, Counted, MonthOf, month);
    TotalsMeaning(payments, Counted, MonthOf, month);
  }

  /** The paid amounts, missing ones as 0, sum to the reference
      `PaidSum` when every paid payment carries a number. */
  lemma {:induction false} PaidAmountsSum(rows: seq<Obj>)
    ensures LoanUtils.PaidAmountsNumeric(rows) ==>
      SumOrZero(Filter(rows, LoanUtils.IsPaid), "amount") == Num(LoanUtils.PaidSum(rows))
  {
    if rows != [] && LoanUtils.PaidAmountsNumeric(rows) {
      var n := |rows| - 1;
      var init, p := rows[..n], rows[n];
      assert rows == init + [p];
      forall i | 0 <= i < |init| && LoanUtils.IsPaid(init[i]) ensures Get(init[i], "amount").Num? {
        assert init[i] == rows[i];
      }
      PaidAmountsSum(init);
      PaidAmountsStep(init, p);
    }
  }

  /** One more payment adds its amount to both sums when it is paid, and
      nothing otherwise. */
  lemma PaidAmountsStep(init: seq<Obj>, p: Obj)
    requires SumOrZero(Filter(init, LoanUtils.IsPaid), "amount") == Num(LoanUtils.PaidSum(init))
    requires LoanUtils.IsPaid(p) ==> Get(p, "amount").Num?
    ensures SumOrZero(Filter(init + [p], LoanUtils.IsPaid), "amount") == Num(LoanUtils.PaidSum(init + [p]))
  {
    FilterSnoc(init, p, LoanUtils.IsPaid);
    LoanUtils.PaidSumAppend(init, p);
    var before := Filter(init, LoanUtils.IsPaid);
    if LoanUtils.IsPaid(p) {
      assert Filter(init + [p], LoanUtils.IsPaid) == before + [p];
      SumOrZeroAppend(before, p, "amount");
      AddOrZero(LoanUtils.PaidSum(init), Get(p, "amount"));
    } else {
      assert Filter(init + [p], LoanUtils.IsPaid) == before;
    }
  }

  /** With 'all' selected, the interest card shows the same figure as
      `calculateTotalInterestPaid` over the same payments. */
  lemma AllMonthsIsTotalInterestPaid(payments: seq<Obj>)
    requires LoanUtils.PaidAmountsNumeric(payments)
    ensures TotalInterestCollected(SelectedPayments(payments, "all")) == Num(LoanUtils.PaidSum(payments))
    ensures TotalInterestCollected(SelectedPayments(payments, "all")) == LoanUtils.CalculateTotalInterestPaid(payments)
  {
    LoanUtils.TotalIsPaidSum(payments);
  }

  predicate IsOngoing(l: Obj)
  {
    HasKey(l, "status", Str("ongoing"))
  }

  predicate IsFullyPaid(l: Obj)
  {
    HasKey(l, "status", Str("fully_paid"))
  }

  /** `activeLoans`: none exactly when no loan is 'ongoing'. */
  function ActiveLoans(loans: seq<Obj>): (r: nat)
    ensures r <= |loans|
    ensures r == 0 <==> forall l :: l in loans ==> !IsOngoing(l)
  {
    FilterMembers(loans, IsOngoing);
    assert Filter(loans, IsOngoing) != [] ==> Filter(loans, IsOngoing)[0] in Filter(loans, IsOngoing);
    |Filter(loans, IsOngoing)|
  }

  /** `completedLoans`: none exactly when no loan is 'fully_paid'. */
  function CompletedLoans(loans: seq<Obj>): (r: nat)
    ensures r <= |loans|
    ensures r == 0 <==> forall l :: l in loans ==> !IsFullyPaid(l)
  {
    FilterMembers(loans, IsFullyPaid);
    assert Filter(loans, IsFullyPaid) != [] ==> Filter(loans, IsFullyPaid)[0] in Filter(loans, IsFullyPaid);
    |Filter(loans, IsFullyPaid)|
  }

  /** `activeLoans` counts the 'ongoing' loans: none in an empty list, and
      one more for each further 'ongoing' loan. */
  lemma ActiveLoansCount(loans: seq<Obj>, l: Obj)
    ensures ActiveLoans([]) == 0
    ensures ActiveLoans(loans + [l]) == ActiveLoans(loans) + (if IsOngoing(l) then 1 else 0)
  {
    FilterSnoc(loans, l, IsOngoing);
  }

  /** `completedLoans` counts the 'fully_paid' loans: none in an empty
      list, and one more for each further 'fully_paid' loan. */
  lemma CompletedLoansCount(loans: seq<Obj>, l: Obj)
    ensures CompletedLoans([]) == 0
    ensures CompletedLoans(loans + [l]) == CompletedLoans(loans) + (if IsFullyPaid(l) then 1 else 0)
  {
    FilterSnoc(loans, l, IsFullyPaid);
  }

  /** A loan is counted at most once, so the two counters never exceed the
      number of loans. */
  lemma {:induction false} CountersBounded(loans: seq<Obj>)
    ensures ActiveLoans(loans) + CompletedLoans(loans) <= |loans|
  {
    if loans != [] {
      CountersBounded(loans[1..]);
    }
  }
}
