/** The logic of `src/components/DuePayments.jsx`: the filter and sort its
    effect computes, the status text of a payment and the customer name of a
    loan. This view reads the camelCase fields `dueDate` and `customerId`. */
module DuePayments {
  import opened JsValues
  import opened Decimal
  import opened DateUtils
  import opened Rows
  import LoanUtils
  import LoanDetails

  /** The due day a payment shows here: its `dueDate` when that is truthy
      and parses. */
  function ShownDueDate(p: Obj): (r: Option<Date>)
    ensures r.Some? ==> Truthy(Get(p, "dueDate")) && ValidDate(r.value)
    ensures r.None? <==> !Truthy(Get(p, "dueDate")) || DateOf(Get(p, "dueDate")).None?
  {
    if !Truthy(Get(p, "dueDate")) then None else DateOf(Get(p, "dueDate"))
  }

  /** The test of the `filter` callback for the selected filter. */
  predicate Kept(p: Obj, filter: string, clock: Clock): (r: bool)
    ensures r ==> ShownDueDate(p).Some?
    ensures filter == "all" ==> (r <==> ShownDueDate(p).Some?)
  {
    match ShownDueDate(p)
    case None => false
    case Some(due) =>
      var today := DayNumber(clock.today);
      if filter == "due_today" then due == clock.today
      else if filter == "this_week" then today <= DayNumber(due) <= today + 7
      else if filter == "overdue" then DayNumber(due) < today && !LoanUtils.IsPaid(p)
      else if filter == "paid" then LoanUtils.IsPaid(p)
      else true
  }

  /** The sort key: the due day's number, for payments the filter kept. */
  function DueKey(p: Obj): int
  {
    match ShownDueDate(p)
    case None => 0
    case Some(d) => DayNumber(d)
  }

  /** The list the effect stores for the `payments` prop (`None` when it is
      missing or not an array) under the selected filter. */
  function FilteredPayments(payments: Option<seq<Obj>>, filter: string, clock: Clock): (r: seq<Obj>)
    ensures payments.None? ==> r == []
    ensures forall p :: p in r <==> payments.Some? && p in payments.value && Kept(p, filter, clock)
    ensures forall i, j :: 0 <= i < j < |r| ==> DueKey(r[i]) <= DueKey(r[j])
    ensures payments.Some? ==> multiset(r) <= multiset(payments.value)
    ensures payments.Some? ==> multiset(r) == multiset(Filter(payments.value, p => Kept(p, filter, clock)))
  {
    match payments
    case None => []
    case Some(ps) =>
      var keep := p => Kept(p, filter, clock);
      var kept := Filter(ps, keep);
      FilterMembers(ps, keep);
      var sorted := SortBy(kept, DueKey);
      SortByMembers(kept, DueKey);
      FilterSubMultiset(ps, keep);
      sorted
  }

  /** Payments due on the same day are listed in the order the `payments`
      prop gives them, since the sort is stable. */
  lemma FilteredPaymentsStable(ps: seq<Obj>, filter: string, clock: Clock, v: int)
    ensures Filter(FilteredPayments(Some(ps), filter, clock), p => DueKey(p) == v)
         == Filter(ps, p => Kept(p, filter, clock) && DueKey(p) == v)
  {
    var keep := p => Kept(p, filter, clock);
    var same := p => DueKey(p) == v;
    SortByStable(Filter(ps, keep), DueKey, same, v);
    FilterFilter(ps, keep, same, p => Kept(p, filter, clock) && DueKey(p) == v);
  }

  /** A payment with no `dueDate`, or one that does not parse, is listed
      under no filter. */
  lemma NoDueDateNeverListed(payments: Option<seq<Obj>>, filter: string, clock: Clock, p: Obj)
    requires !Truthy(Get(p, "dueDate")) || DateOf(Get(p, "dueDate")).None?
    ensures p !in FilteredPayments(payments, filter, clock)
  {
  }

  /** Rows as the store keeps them carry `due_date` and no `dueDate`, so
      none of them is ever listed. */
  lemma StoreRowsNeverListed(payments: Option<seq<Obj>>, filter: string, clock: Clock, p: Obj)
    requires "dueDate" !in p
    ensures p !in FilteredPayments(payments, filter, clock)
  {
  }

  /** What each filter keeps, for a payment whose due date parses: the same
      calendar day as today; today up to seven days on, both ends included;
      before today and not paid; paid; everything. */
  lemma FilterMeaning(p: Obj, clock: Clock)
    requires ValidClock(clock) && ShownDueDate(p).Some?
    ensures var due := ShownDueDate(p).value;
      && (Kept(p, "due_today", clock) <==> due == clock.today)
      && (Kept(p, "this_week", clock) <==> 0 <= DayNumber(due) - DayNumber(clock.today) <= 7)
      && (Kept(p, "overdue", clock) <==> Precedes(due, clock.today) && Get(p, "status") != Str("paid"))
      && (Kept(p, "paid", clock) <==> Get(p, "status") == Str("paid"))
      && Kept(p, "all", clock)
  {
    var due := ShownDueDate(p).value;
    if Precedes(due, clock.today) {
      DayNumberMonotone(due, clock.today);
    } else if Precedes(clock.today, due) {
      DayNumberMonotone(clock.today, due);
    }
  }

  /** The whole days from today's midnight to the payment's `dueDate`;
      `None` where that difference is `NaN`. */
  function DaysLeft(p: Obj, clock: Clock): Option<int>
  {
    match DateOf(Get(p, "dueDate"))
    case None => None
    case Some(d) => Some(DayNumber(d) - DayNumber(clock.today))
  }

  /** `getPaymentStatusText(payment)` */
  function PaymentStatusText(p: Obj, clock: Clock): (r: string)
    ensures LoanUtils.IsPaid(p) ==> r == "Paid"
  {
    if LoanUtils.IsPaid(p) then "Paid"
    else match DaysLeft(p, clock)
      case None => "Due in NaNd"
      case Some(days) =>
        if days < 0 then "Overdue (" + FromNat(-days) + "d)"
        else if days == 0 then "Due Today"
        else "Due in " + FromNat(days) + "d"
  }

  /** For an unpaid payment whose truthy `dueDate` parses, the text follows
      the sign of `getDaysUntilDue` and writes its magnitude: 'Overdue (Nd)'
      N days late, 'Due Today', or 'Due in Nd'. */
  lemma StatusTextFollowsDaysUntilDue(p: Obj, clock: Clock)
    requires !LoanUtils.IsPaid(p) && ShownDueDate(p).Some?
    ensures GetDaysUntilDue(Get(p, "dueDate"), clock).Some?
    ensures var days := GetDaysUntilDue(Get(p, "dueDate"), clock).value;
      && (days < 0 ==> exists n: nat :: n > 0 && n == -days && PaymentStatusText(p, clock) == "Overdue (" + FromNat(n) + "d)")
      && (days == 0 ==> PaymentStatusText(p, clock) == "Due Today")
      && (days > 0 ==> PaymentStatusText(p, clock) == "Due in " + FromNat(days) + "d")
  {
    var days := GetDaysUntilDue(Get(p, "dueDate"), clock).value;
    if days < 0 {
      var n: nat := -days;
      assert PaymentStatusText(p, clock) == "Overdue (" + FromNat(n) + "d)";
    }
  }

  /** The number in a status text reads back as the days it counts. */
  lemma StatusTextNumber(p: Obj, clock: Clock)
    requires !LoanUtils.IsPaid(p) && DaysLeft(p, clock).Some? && DaysLeft(p, clock).value != 0
    ensures var days := DaysLeft(p, clock).value;
      var n: nat := if days < 0 then -days else days;
      var text := PaymentStatusText(p, clock);
      var prefix := if days < 0 then "Overdue (" else "Due in ";
      && |text| > |prefix| + 1
      && text[..|prefix|] == prefix
      && AllDigits(text[|prefix|..|text| - (if days < 0 then 2 else 1)])
      && Value(text[|prefix|..|text| - (if days < 0 then 2 else 1)]) == n
  {
    var days := DaysLeft(p, clock).value;
    var n: nat := if days < 0 then -days else days;
    var prefix := if days < 0 then "Overdue (" else "Due in ";
    var suffix := if days < 0 then "d)" else "d";
    var text := PaymentStatusText(p, clock);
    assert text == prefix + FromNat(n) + suffix;
    assert text[|prefix|..|text| - |suffix|] == FromNat(n);
  }

  /** `new Date(payment.dueDate) < today` in the icon and the colour, with
      `today` set to midnight: false when the date does not parse. */
  predicate DueBeforeMidnight(p: Obj, clock: Clock)
  {
    IsOverdue(Get(p, "dueDate"), Clock(clock.today, 0))
  }

  /** `getPaymentStatusIcon(payment)` of this view. */
  function PaymentStatusIcon(p: Obj, clock: Clock): (r: LoanDetails.Icon)
    ensures r == LoanDetails.CheckCircle <==> LoanUtils.IsPaid(p)
    ensures r == LoanDetails.AlertTriangle <==> !LoanUtils.IsPaid(p) && DueBeforeMidnight(p, clock)
    ensures r == LoanDetails.ClockIcon <==> !LoanUtils.IsPaid(p) && !DueBeforeMidnight(p, clock)
  {
    if StrictEq(Get(p, "status"), Str("paid")) then LoanDetails.CheckCircle
    else if IsOverdue(Get(p, "dueDate"), Clock(clock.today, 0)) then LoanDetails.AlertTriangle
    else LoanDetails.ClockIcon
  }

  /** `getPaymentStatusColor(payment)` of this view. */
  function PaymentStatusColor(p: Obj, clock: Clock): (r: string)
    ensures r == "bg-green-100 text-green-800" <==> PaymentStatusIcon(p, clock) == LoanDetails.CheckCircle
    ensures r == "bg-red-100 text-red-800" <==> PaymentStatusIcon(p, clock) == LoanDetails.AlertTriangle
    ensures r == "bg-yellow-100 text-yellow-800" <==> PaymentStatusIcon(p, clock) == LoanDetails.ClockIcon
  {
    if StrictEq(Get(p, "status"), Str("paid")) then "bg-green-100 text-green-800"
    else if IsOverdue(Get(p, "dueDate"), Clock(clock.today, 0)) then "bg-red-100 text-red-800"
    else "bg-yellow-100 text-yellow-800"
  }

  /** For an unpaid payment whose truthy `dueDate` parses, the icon and the
      colour say overdue exactly when the status text does: when the due day
      is before today. */
  lemma IconAgreesWithText(p: Obj, clock: Clock)
    requires ValidClock(clock) && !LoanUtils.IsPaid(p) && ShownDueDate(p).Some?
    ensures PaymentStatusIcon(p, clock) == LoanDetails.AlertTriangle <==> Precedes(ShownDueDate(p).value, clock.today)
    ensures PaymentStatusIcon(p, clock) == LoanDetails.AlertTriangle <==> GetDaysUntilDue(Get(p, "dueDate"), clock).value < 0
  {
    IsOverdueMeaning(Get(p, "dueDate"), Clock(clock.today, 0));
    DaysUntilDueSign(Get(p, "dueDate"), clock);
  }

  /** This view's icon is `LoanDetails`' classification read from `dueDate`
      at today's midnight rather than at the current instant. */
  lemma IconIsClassifyAtMidnight(p: Obj, clock: Clock)
    ensures var q := p["due_date" := Get(p, "dueDate")];
      PaymentStatusIcon(p, clock) == LoanDetails.PaymentStatusIcon(q, Clock(clock.today, 0))
  {
    var q := p["due_date" := Get(p, "dueDate")];
    assert Get(q, "status") == Get(p, "status") by {
      assert "status"[0] != "due_date"[0];
    }
  }

  /** The two views disagree on a payment due today once midnight has
      passed: `LoanDetails` shows it overdue, this view pending. */
  lemma DueTodayDisagrees(p: Obj, clock: Clock)
    requires ValidClock(clock) && clock.msOfDay > 0 && !LoanUtils.IsPaid(p)
    requires Get(p, "dueDate") == Get(p, "due_date") && DateOf(Get(p, "due_date")) == Some(clock.today)
    ensures PaymentStatusIcon(p, clock) == LoanDetails.ClockIcon
    ensures LoanDetails.PaymentStatusIcon(p, clock) == LoanDetails.AlertTriangle
  {
    IsOverdueMeaning(Get(p, "dueDate"), Clock(clock.today, 0));
    IsOverdueMeaning(Get(p, "due_date"), clock);
  }

  /** `getCustomerName(loanId)` with the `loans` and `customers` props
      (`None` when undefined). */
  function GetCustomerName(loanId: Val, loans: Option<seq<Obj>>, customers: Option<seq<Obj>>): (r: Val)
    ensures loans.None? || (loans.Some? && Find(loans.value, "id", loanId).None?) ==> r == Str("Unknown")
  {
    var loan := if loans.None? then None else Find(loans.value, "id", loanId);
    match loan
    case None => Str("Unknown")
    case Some(l) =>
      var customer := if customers.None? then None else Find(customers.value, "id", Get(l, "customerId"));
      match customer
      case None => Str("Unknown Customer")
      case Some(c) => Get(c, "name")
  }

  /** A loan is found but no customer has its `customerId`: the name is
      'Unknown Customer'; otherwise it is the first such customer's name. */
  lemma CustomerNameCases(loanId: Val, loans: seq<Obj>, customers: Option<seq<Obj>>)
    requires Find(loans, "id", loanId).Some?
    ensures var cid := Get(Find(loans, "id", loanId).value, "customerId");
      && (customers.None? || Find(customers.value, "id", cid).None? ==>
            GetCustomerName(loanId, Some(loans), customers) == Str("Unknown Customer"))
      && (customers.Some? && Find(customers.value, "id", cid).Some? ==>
            GetCustomerName(loanId, Some(loans), customers) == Get(Find(customers.value, "id", cid).value, "name"))
  {
  }

  /** Loans as the store keeps them carry `customer_id` and no
      `customerId`; when every customer has an id, such a loan's customer is
      never found. */
  lemma StoreLoanCustomerUnknown(loanId: Val, loans: seq<Obj>, customers: seq<Obj>)
    requires Find(loans, "id", loanId).Some? && "customerId" !in Find(loans, "id", loanId).value
    requires forall i :: 0 <= i < |customers| ==> "id" in customers[i] && customers[i]["id"] != Undefined
    ensures GetCustomerName(loanId, Some(loans), Some(customers)) == Str("Unknown Customer")
  {
    var cid := Get(Find(loans, "id", loanId).value, "customerId");
    assert cid == Undefined;
    assert forall i :: 0 <= i < |customers| ==> !HasKey(customers[i], "id", cid);
  }
}
