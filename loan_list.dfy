/** The helpers of `src/components/LoanList.jsx`: the customer name and the
    status colour of a loan card, the amounts a card defaults to zero, and
    the customers the create-loan form is offered. */
module LoanList {
  import opened JsValues
  import opened Rows
  import opened DateUtils
  import opened LoanUtils
  import DataContext

  /** `getCustomerName(customerId)`: the name of the first customer with
      that id, else 'Unknown Customer'. */
  function CustomerName(customerId: Val, customers: seq<Obj>): (r: Val)
    ensures (forall j :: 0 <= j < |customers| ==> !HasKey(customers[j], "id", customerId)) ==>
      r == Str("Unknown Customer")
    ensures forall j :: IsFirst(customers, "id", customerId, j) ==> r == Get(customers[j], "name")
  {
    var found := FirstIndex(customers, "id", customerId);
    assert forall j | IsFirst(customers, "id", customerId, j) :: found == Some(j) by {
      forall j | IsFirst(customers, "id", customerId, j) ensures found == Some(j) {
        FirstIndexIsFirst(customers, "id", customerId, j);
      }
    }
    match found
    case None => Str("Unknown Customer")
    case Some(j) => Get(customers[j], "name")
  }

  /** `getStatusColor(status)` */
  function StatusColor(status: string): (c: string)
    ensures c == "status-paid" || c == "status-overdue" || c == "status-pending"
    ensures (c == "status-paid" <==> status == "Fully Paid") && (c == "status-overdue" <==> status == "Overdue")
  {
    if status == "Fully Paid" then "status-paid"
    else if status == "Overdue" then "status-overdue"
    else "status-pending"
  }

  /** The colour of a card follows the loan's state: paid for a closed
      loan, overdue when a pending payment is late, pending otherwise. */
  lemma LoanStatusColor(loan: Obj, payments: seq<Obj>, clock: Clock)
    ensures var closed := StrictEq(Get(loan, "status"), Str("fully_paid"));
      var late := exists i :: 0 <= i < |payments| && IsOverduePending(payments[i], clock);
      var c := StatusColor(GetLoanStatus(loan, payments, clock));
      && (c == "status-paid" <==> closed)
      && (c == "status-overdue" <==> !closed && late)
      && (c == "status-pending" <==> !closed && !late)
  {
    LoanStatusCases(loan, payments, clock);
  }

  /** `v !== undefined && v !== null ? v : 0` */
  function OrZero(v: Val): (r: Val)
    ensures v != Undefined && v != Null ==> r == v
    ensures v == Undefined || v == Null ==> r == Num(0.0)
  {
    if v != Undefined && v != Null then v else Num(0.0)
  }

  /** Defaulting changes the monthly interest only where an amount or a
      rate is `undefined`: `null` already counts as 0 in arithmetic. */
  lemma OrZeroOnlyForUndefined(amount: Val, rate: Val)
    requires amount != Undefined && rate != Undefined
    ensures CalculateMonthlyInterest(OrZero(amount), OrZero(rate)) == CalculateMonthlyInterest(amount, rate)
  {
    assert ToNumber(OrZero(amount)) == ToNumber(amount);
    assert ToNumber(OrZero(rate)) == ToNumber(rate);
  }

  /** A loan with no `loan_amount` shows 0 interest where the bare
      calculation would give `NaN`. */
  lemma MissingAmountShowsZero(rate: Val)
    requires ToNumber(rate).Num?
    ensures CalculateMonthlyInterest(OrZero(Undefined), OrZero(rate)) == Num(0.0)
    ensures CalculateMonthlyInterest(Undefined, rate) == NaN
  {
    assert ToNumber(OrZero(rate)).Num?;
  }

  /** What one card of the list shows. */
  datatype Card = Card(customerName: Val, status: string, color: string,
                       loanAmount: Val, interestRate: Val, monthlyInterest: Val)

  /** The card of `loan`: the loan's payments are those with its id, its
      status and colour follow from them, and the interest is computed on
      the defaulted amount and rate. */
  function LoanCard(loan: Obj, customers: seq<Obj>, payments: seq<Obj>, clock: Clock): (c: Card)
    ensures c.customerName == CustomerName(Get(loan, "customer_id"), customers)
    ensures c.color == StatusColor(c.status)
    ensures c.status == GetLoanStatus(loan, DataContext.PaymentsOfLoan(payments, Get(loan, "id")), clock)
    ensures Get(loan, "loan_amount") != Undefined && Get(loan, "interest_rate") != Undefined ==>
      c.monthlyInterest == CalculateMonthlyInterest(Get(loan, "loan_amount"), Get(loan, "interest_rate"))
    ensures StrictEq(Get(loan, "status"), Str("fully_paid")) ==> c.status == "Fully Paid" && c.color == "status-paid"
  {
    var loanPayments := DataContext.PaymentsOfLoan(payments, Get(loan, "id"));
    var status := GetLoanStatus(loan, loanPayments, clock);
    var loanAmount := OrZero(Get(loan, "loan_amount"));
    var interestRate := OrZero(Get(loan, "interest_rate"));
    assert Get(loan, "loan_amount") != Undefined && Get(loan, "interest_rate") != Undefined ==>
      CalculateMonthlyInterest(loanAmount, interestRate) == CalculateMonthlyInterest(Get(loan, "loan_amount"), Get(loan, "interest_rate")) by {
      if Get(loan, "loan_amount") != Undefined && Get(loan, "interest_rate") != Undefined {
        OrZeroOnlyForUndefined(Get(loan, "loan_amount"), Get(loan, "interest_rate"));
      }
    }
    Card(CustomerName(Get(loan, "customer_id"), customers), status, StatusColor(status),
         loanAmount, interestRate, CalculateMonthlyInterest(loanAmount, interestRate))
  }

  /** `customers.filter(c => c.status === 'active')`: the customers the
      create-loan form offers. */
  function ActiveCustomers(customers: seq<Obj>): (r: seq<Obj>)
    ensures forall c :: c in r <==> c in customers && StrictEq(Get(c, "status"), Str("active"))
    ensures multiset(r) <= multiset(customers)
  {
    var keep := c => HasKey(c, "status", Str("active"));
    FilterMembers(customers, keep);
    FilterSubMultiset(customers, keep);
    Filter(customers, keep)
  }
}
