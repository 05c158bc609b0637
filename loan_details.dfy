/** The logic of `src/components/LoanDetails.jsx`: the in-place sort of the
    loan's payments by due date, the next payment entry, the payment
    classification shown as icon, colour and badge, the buttons offered, and
    the routing of a recorded payment. */
module LoanDetails {
  import opened JsValues
  import opened DateUtils
  import opened LoanUtils

  /** The day number of a payment's `due_date`, `None` when it does not parse. */
  function DueDay(p: Obj): Option<int>
  {
    match DateOf(Get(p, "due_date"))
    case None => None
    case Some(d) => Some(DayNumber(d))
  }

  /** `p` is due no earlier than `q`. A comparator that meets an unparsable
      date returns `NaN`; the model orders such payments as the earliest. */
  predicate DueNotBefore(p: Obj, q: Obj)
  {
    DueDay(q).None? || (DueDay(p).Some? && DueDay(p).value >= DueDay(q).value)
  }

  /** The order of a sort by due date: latest first when `descending`
      (line 39), earliest first otherwise (line 174). */
  predicate InOrder(p: Obj, q: Obj, descending: bool)
  {
    if descending then DueNotBefore(p, q) else DueNotBefore(q, p)
  }

  lemma InOrderTotal(p: Obj, q: Obj, descending: bool)
    ensures InOrder(p, q, descending) || InOrder(q, p, descending)
  {
  }

  lemma InOrderTransitive(p: Obj, q: Obj, s: Obj, descending: bool)
    requires InOrder(p, q, descending) && InOrder(q, s, descending)
    ensures InOrder(p, s, descending)
  {
  }

  ghost predicate SortedByDue(s: seq<Obj>, descending: bool)
  {
    forall i, j :: 0 <= i < j < |s| ==> InOrder(s[i], s[j], descending)
  }

  /** `s` is in the order `le`. */
  ghost predicate SortedBy(s: seq<Obj>, le: (Obj, Obj) -> bool)
  {
    forall i, j :: 0 <= i < j < |s| ==> le(s[i], s[j])
  }

  /** `le` is a total preorder: a comparator `Array.prototype.sort` can
      rely on. */
  ghost predicate TotalPreorder(le: (Obj, Obj) -> bool)
  {
    && (forall p, q :: le(p, q) || le(q, p))
    && (forall p, q, s :: le(p, q) && le(q, s) ==> le(p, s))
  }

  /** `payments.sort(comparator)` on the array itself, by due date, as an
      insertion sort by adjacent swaps. */
  method SortByDueDate(a: array<Obj>, descending: bool)
    modifies a
    ensures SortedByDue(a[..], descending)
    ensures multiset(a[..]) == old(multiset(a[..]))
  {
    var le := (p, q) => InOrder(p, q, descending);
    forall p, q ensures le(p, q) || le(q, p) {
      InOrderTotal(p, q, descending);
    }
    forall p, q, s | le(p, q) && le(q, s) ensures le(p, s) {
      InOrderTransitive(p, q, s, descending);
    }
    InsertionSort(a, le);
  }

  method InsertionSort(a: array<Obj>, le: (Obj, Obj) -> bool)
    requires TotalPreorder(le)
    modifies a
    ensures SortedBy(a[..], le)
    ensures multiset(a[..]) == old(multiset(a[..]))
  {
    var i := 0;
    while i < a.Length
      invariant 0 <= i <= a.Length
      invariant SortedBy(a[..i], le)
      invariant multiset(a[..]) == old(multiset(a[..]))
    {
      InsertAt(a, i, le);
      i := i + 1;
    }
    assert a[..a.Length] == a[..];
  }

  /** Moves `a[i]` down past every payment that must follow it, so that the
      first `i + 1` payments are in order. */
  method InsertAt(a: array<Obj>, i: nat, le: (Obj, Obj) -> bool)
    requires TotalPreorder(le)
    requires i < a.Length && SortedBy(a[..i], le)
    modifies a
    ensures SortedBy(a[..i + 1], le)
    ensures multiset(a[..]) == old(multiset(a[..]))
  {
    var j := i;
    InsertStart(a[..], i, le);
    while j > 0 && !le(a[j - 1], a[j])
      invariant 0 <= j <= i
      invariant multiset(a[..]) == old(multiset(a[..]))
      invariant SortedAroundHole(a[..], j, i, le)
    {
      ghost var before := a[..];
      SwapStep(before, j, i, le);
      a[j - 1], a[j] := a[j], a[j - 1];
      assert a[..] == before[j - 1 := before[j]][j := before[j - 1]];
      j := j - 1;
    }
    InsertDone(a[..], j, i, le);
  }

  /** The first `i + 1` payments are in order except for the one at `j`,
      which is in order with every payment after it. */
  ghost predicate SortedAroundHole(s: seq<Obj>, j: nat, i: nat, le: (Obj, Obj) -> bool)
    requires j <= i < |s|
  {
    && (forall k, l :: 0 <= k < l <= i && k != j && l != j ==> le(s[k], s[l]))
    && (forall l :: j < l <= i ==> le(s[j], s[l]))
  }

  lemma InsertStart(s: seq<Obj>, i: nat, le: (Obj, Obj) -> bool)
    requires i < |s| && SortedBy(s[..i], le)
    ensures SortedAroundHole(s, i, i, le)
  {
    forall k, l | 0 <= k < l <= i && k != i && l != i ensures le(s[k], s[l]) {
      assert s[..i][k] == s[k] && s[..i][l] == s[l];
    }
  }

  /** One swap of `InsertAt` keeps the payments and moves the hole down. */
  lemma SwapStep(s: seq<Obj>, j: nat, i: nat, le: (Obj, Obj) -> bool)
    requires TotalPreorder(le) && 0 < j <= i < |s| && !le(s[j - 1], s[j])
    requires SortedAroundHole(s, j, i, le)
    ensures multiset(s[j - 1 := s[j]][j := s[j - 1]]) == multiset(s)
    ensures SortedAroundHole(s[j - 1 := s[j]][j := s[j - 1]], j - 1, i, le)
  {
    var t := s[j - 1 := s[j]][j := s[j - 1]];
    assert t[j - 1] == s[j] && t[j] == s[j - 1];
    assert le(s[j], s[j - 1]);
    forall k, l | 0 <= k < l <= i && k != j - 1 && l != j - 1 ensures le(t[k], t[l]) {
      if l == j {
        assert t[k] == s[k];
      } else if k == j {
        assert t[l] == s[l];
      } else {
        assert t[k] == s[k] && t[l] == s[l];
      }
    }
    forall l | j - 1 < l <= i ensures le(t[j - 1], t[l]) {
      if l > j {
        assert t[l] == s[l];
      }
    }
  }

  /** Once the payment before the hole is in order with it, or the hole is
      at the front, the first `i + 1` payments are in order. */
  lemma InsertDone(s: seq<Obj>, j: nat, i: nat, le: (Obj, Obj) -> bool)
    requires TotalPreorder(le) && j <= i < |s| && SortedAroundHole(s, j, i, le)
    requires j == 0 || le(s[j - 1], s[j])
    ensures SortedBy(s[..i + 1], le)
  {
    forall k, l | 0 <= k < l <= i ensures le(s[k], s[l]) {
      if l == j && k < j - 1 {
        assert le(s[k], s[j - 1]);
      }
    }
    assert forall k :: 0 <= k <= i ==> s[..i + 1][k] == s[k];
  }

  /** `getNextMonthDate(date)` as a value: the date string, or `null`. */
  function NextDueDate(date: Val): (r: Val)
    ensures r == Null <==> GetNextMonthDate(date).None?
    ensures r != Null ==> r == Str(GetNextMonthDate(date).value)
  {
    match GetNextMonthDate(date)
    case None => Null
    case Some(s) => Str(s)
  }

  /** The entry `generateNextPayment` passes on for `loan`, given the
      payment the sort put first, if any. */
  function NextPaymentEntry(loan: Obj, last: Option<Obj>, env: Env): (r: Obj)
    ensures Get(r, "amount") == CalculateMonthlyInterest(Get(loan, "loan_amount"), Get(loan, "interest_rate"))
    ensures Get(r, "status") == Str("pending") && Get(r, "type") == Str("interest")
    ensures Get(r, "loanId") == Get(loan, "id")
    ensures last.Some? ==> Get(r, "dueDate") == NextDueDate(Get(last.value, "due_date"))
    ensures last.None? ==> Get(r, "dueDate") == NextDueDate(Get(loan, "start_date"))
    ensures Get(r, "id") == Str(GeneratePaymentId(env)) && Get(r, "created_at") == Str(env.nowIso)
  {
    var due := match last
      case Some(p) => NextDueDate(Get(p, "due_date"))
      case None => NextDueDate(Get(loan, "start_date"));
    assert "amount"[0] == 'a' && "status"[0] == 's' && "loanId"[0] == 'l';
    map["id" := Str(GeneratePaymentId(env)), "loanId" := Get(loan, "id"),
        "amount" := CalculateMonthlyInterest(Get(loan, "loan_amount"), Get(loan, "interest_rate")),
        "dueDate" := due, "status" := Str("pending"), "type" := Str("interest"),
        "created_at" := Str(env.nowIso)]
  }

  /** `generateNextPayment()`: sorts the payments in place, latest due date
      first, and builds the entry due one month after the first of them, or
      one month after the loan's start when there is none. */
  method GenerateNextPayment(payments: array<Obj>, loan: Obj, env: Env) returns (entry: Obj)
    modifies payments
    ensures multiset(payments[..]) == old(multiset(payments[..]))
    ensures SortedByDue(payments[..], true)
    ensures payments.Length > 0 ==> forall k :: 0 <= k < payments.Length ==> DueNotBefore(payments[0], payments[k])
    ensures entry == NextPaymentEntry(loan, if payments.Length > 0 then Some(payments[0]) else None, env)
  {
    SortByDueDate(payments, true);
    if payments.Length > 0 {
      SortedFirstNotBefore(payments[..]);
      entry := NextPaymentEntry(loan, Some(payments[0]), env);
    } else {
      entry := NextPaymentEntry(loan, None, env);
    }
  }

  lemma SortedFirstNotBefore(s: seq<Obj>)
    requires SortedByDue(s, true) && |s| > 0
    ensures forall k :: 0 <= k < |s| ==> DueNotBefore(s[0], s[k])
  {
    forall k | 0 <= k < |s| ensures DueNotBefore(s[0], s[k]) {
      if k > 0 {
        assert InOrder(s[0], s[k], true);
      }
    }
  }

  /** The payment the sort puts first is the latest of the loan's payments
      whose due date parses, so the next due date follows the latest one. */
  lemma FirstIsLatest(s: seq<Obj>, k: nat)
    requires SortedByDue(s, true) && 0 < k < |s| && DueDay(s[k]).Some?
    ensures DueDay(s[0]).Some? && DueDay(s[0]).value >= DueDay(s[k]).value
  {
    assert InOrder(s[0], s[k], true);
  }

  /** The three ways a payment is shown. */
  datatype PaymentClass = PaidClass | OverdueClass | PendingClass

  /** Status 'paid' wins; otherwise a due date before now makes the payment
      overdue; everything else is pending. */
  function Classify(p: Obj, clock: Clock): (r: PaymentClass)
    ensures r == PaidClass <==> IsPaid(p)
    ensures r == OverdueClass ==> DateOf(Get(p, "due_date")).Some?
    ensures !IsPaid(p) && DateOf(Get(p, "due_date")) == Some(clock.today) ==>
      (r == OverdueClass <==> clock.msOfDay > 0)
  {
    if IsPaid(p) then PaidClass
    else if IsOverdue(Get(p, "due_date"), clock) then OverdueClass
    else PendingClass
  }

  datatype Icon = CheckCircle | AlertTriangle | ClockIcon

  /** `getPaymentStatusIcon(payment)` */
  function PaymentStatusIcon(p: Obj, clock: Clock): (r: Icon)
    ensures r == CheckCircle <==> Classify(p, clock) == PaidClass
    ensures r == AlertTriangle <==> Classify(p, clock) == OverdueClass
    ensures r == ClockIcon <==> Classify(p, clock) == PendingClass
  {
    if StrictEq(Get(p, "status"), Str("paid")) then CheckCircle
    else if IsOverdue(Get(p, "due_date"), clock) && !StrictEq(Get(p, "status"), Str("paid")) then AlertTriangle
    else ClockIcon
  }

  /** `getPaymentStatusColor(payment)` */
  function PaymentStatusColor(p: Obj, clock: Clock): (r: string)
    ensures r == "status-paid" <==> Classify(p, clock) == PaidClass
    ensures r == "status-overdue" <==> Classify(p, clock) == OverdueClass
    ensures r == "status-pending" <==> Classify(p, clock) == PendingClass
  {
    if StrictEq(Get(p, "status"), Str("paid")) then "status-paid"
    else if IsOverdue(Get(p, "due_date"), clock) && !StrictEq(Get(p, "status"), Str("paid")) then "status-overdue"
    else "status-pending"
  }

  /** The text of a payment's badge. */
  function PaymentBadgeText(p: Obj, clock: Clock): (r: string)
    ensures r == "Paid" <==> Classify(p, clock) == PaidClass
    ensures r == "Overdue" <==> Classify(p, clock) == OverdueClass
    ensures r == "Pending" <==> Classify(p, clock) == PendingClass
  {
    if StrictEq(Get(p, "status"), Str("paid")) then "Paid"
    else if IsOverdue(Get(p, "due_date"), clock) && !StrictEq(Get(p, "status"), Str("paid")) then "Overdue"
    else "Pending"
  }

  /** A payment that is not paid is overdue exactly when its due day is
      earlier than today, or is today once midnight has passed. */
  lemma ClassifyMeaning(p: Obj, clock: Clock)
    requires ValidClock(clock) && !IsPaid(p) && DateOf(Get(p, "due_date")).Some?
    ensures var d := DateOf(Get(p, "due_date")).value;
      Classify(p, clock) == OverdueClass <==> Precedes(d, clock.today) || (d == clock.today && clock.msOfDay > 0)
  {
    IsOverdueMeaning(Get(p, "due_date"), clock);
  }

  /** 'Record Payment' is offered for a payment. */
  predicate OffersRecordPayment(p: Obj)
  {
    StrictEq(Get(p, "status"), Str("pending"))
  }

  /** The button is offered only for pending payments, so never for a paid
      one. */
  lemma RecordPaymentOnlyUnpaid(p: Obj, clock: Clock)
    requires OffersRecordPayment(p)
    ensures Classify(p, clock) != PaidClass
    ensures Get(p, "status") == Str("pending")
  {
  }

  /** 'Add Payment Entry' is disabled. */
  predicate AddEntryDisabled(loan: Obj)
  {
    StrictEq(Get(loan, "status"), Str("fully_paid"))
  }

  /** 'Mark as Fully Paid' is shown. */
  predicate ShowsMarkFullyPaid(loan: Obj)
  {
    !StrictEq(Get(loan, "status"), Str("fully_paid"))
  }

  /** A fully paid loan offers neither action; any other loan offers both. */
  lemma ButtonsFollowStatus(loan: Obj)
    ensures Get(loan, "status") == Str("fully_paid") ==> AddEntryDisabled(loan) && !ShowsMarkFullyPaid(loan)
    ensures Get(loan, "status") != Str("fully_paid") ==> !AddEntryDisabled(loan) && ShowsMarkFullyPaid(loan)
  {
  }

  /** The store handler a recorded payment is passed to. */
  datatype Call = UpdatePaymentCall(data: Obj) | AddPaymentCall(data: Obj)

  /** `handleRecordPayment(paymentData)` with the payment selected, if any:
      the handler called, and the selection afterwards, which is always
      cleared. */
  function RecordPayment(selected: Option<Obj>, paymentData: Obj): (r: (Call, Option<Obj>))
    ensures selected.Some? ==> r.0 == UpdatePaymentCall(paymentData)
    ensures selected.None? ==> r.0 == AddPaymentCall(paymentData)
    ensures r.1 == None
  {
    (if selected.Some? then UpdatePaymentCall(paymentData) else AddPaymentCall(paymentData), None)
  }
}
