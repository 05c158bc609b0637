/** The calculators of `src/utils/loanUtils.js`: interest, totals, balance,
    loan status and identifier generation. */
module LoanUtils {
  import opened JsValues
  import opened Decimal
  import Text
  import opened DateUtils

  /** The sources `Date.now()`, `Math.random()` and
      `new Date().toISOString()` read, passed in: the time in milliseconds,
      the digits that follow "0." in `Math.random().toString(36)`, and the
      current instant as an ISO 8601 string. */
  datatype Env = Env(nowMs: nat, randomDigits: string, nowIso: string)

  /** `Math.random().toString(36).substr(2, 9)`: at most nine random digits. */
  function Token(env: Env): (t: string)
    ensures |t| <= 9 && |t| <= |env.randomDigits| && t == env.randomDigits[..|t|]
  {
    if |env.randomDigits| <= 9 then env.randomDigits else env.randomDigits[..9]
  }

  /** The three parts of a generated identifier. */
  datatype IdParts = IdParts(prefix: string, timestamp: nat, token: string)

  /** Reads an identifier of the form `<prefix>-<digits>-<token>` back into its
      parts; `None` when it does not have that form. */
  function SplitId(id: string): (r: Option<IdParts>)
    ensures r.Some? ==> '-' !in r.value.prefix
  {
    var p := Text.BeforeFirst(id, '-');
    if |p| == |id| then None
    else
      var rest := id[|p| + 1..];
      var t := Text.BeforeFirst(rest, '-');
      if |t| == |rest| || t == [] || !AllDigits(t) then None
      else Some(IdParts(p, Value(t), rest[|t| + 1..]))
  }

  /** `prefix + '-' + Date.now() + '-' + Math.random().toString(36).substr(2, 9)` */
  function GenerateId(prefix: string, env: Env): (r: string)
    ensures |r| > |prefix| + 1 && r[..|prefix| + 1] == prefix + "-"
  {
    prefix + "-" + FromNat(env.nowMs) + "-" + Token(env)
  }

  /** A generated identifier reads back as its prefix, the time it was made
      and the random token. */
  lemma GeneratedIdSplits(prefix: string, env: Env)
    requires '-' !in prefix
    ensures SplitId(GenerateId(prefix, env)) == Some(IdParts(prefix, env.nowMs, Token(env)))
  {
    SplitGenerated(prefix, FromNat(env.nowMs), Token(env));
  }

  lemma SplitGenerated(prefix: string, digits: string, token: string)
    requires '-' !in prefix && AllDigits(digits) && digits != []
    ensures SplitId(prefix + "-" + digits + "-" + token) == Some(IdParts(prefix, Value(digits), token))
  {
    var rest := digits + "-" + token;
    var id := prefix + "-" + rest;
    assert prefix + "-" + digits + "-" + token == id;
    assert Text.BeforeFirst(id, '-') == prefix by {
      BeforeFirstBoundary(prefix, rest);
    }
    assert id[|prefix| + 1..] == rest;
    assert Text.BeforeFirst(rest, '-') == digits by {
      NoSeparatorInDigits(digits);
      BeforeFirstBoundary(digits, token);
    }
    assert rest[|digits| + 1..] == token;
    assert |prefix| != |id| && |digits| != |rest|;
    assert SplitId(id) == Some(IdParts(prefix, Value(digits), token));
  }

  lemma NoSeparatorInDigits(digits: string)
    requires AllDigits(digits)
    ensures '-' !in digits
  {
    forall i | 0 <= i < |digits|
      ensures digits[i] != '-'
    {
      assert IsDigit(digits[i]);
    }
  }

  /** The part before the first separator of `a + sep + b`, when `a` holds no
      separator, is `a`. */
  lemma {:induction false} BeforeFirstBoundary(a: string, b: string)
    requires '-' !in a
    ensures Text.BeforeFirst(a + "-" + b, '-') == a
  {
    if a != [] {
      BeforeFirstBoundary(a[1..], b);
      assert (a + "-" + b)[1..] == a[1..] + "-" + b;
    }
  }

  /** `generateLoanId()` */
  function GenerateLoanId(env: Env): (r: string)
    ensures |r| > 5 && r[..5] == "LOAN-"
  {
    GenerateId("LOAN", env)
  }

  /** `generateCustomerId()` */
  function GenerateCustomerId(env: Env): (r: string)
    ensures |r| > 5 && r[..5] == "CUST-"
  {
    GenerateId("CUST", env)
  }

  /** `generatePaymentId()` */
  function GeneratePaymentId(env: Env): (r: string)
    ensures |r| > 4 && r[..4] == "PAY-"
  {
    GenerateId("PAY", env)
  }

  /** The three kinds of identifier carry their own prefix, and none is
      empty, so each is truthy. */
  lemma GeneratedIdShapes(env: Env)
    ensures SplitId(GenerateLoanId(env)) == Some(IdParts("LOAN", env.nowMs, Token(env)))
    ensures SplitId(GenerateCustomerId(env)) == Some(IdParts("CUST", env.nowMs, Token(env)))
    ensures SplitId(GeneratePaymentId(env)) == Some(IdParts("PAY", env.nowMs, Token(env)))
    ensures GenerateLoanId(env) != "" && GenerateCustomerId(env) != "" && GeneratePaymentId(env) != ""
  {
    GeneratedIdSplits("LOAN", env);
    GeneratedIdSplits("CUST", env);
    GeneratedIdSplits("PAY", env);
  }

  /** Identifiers generated at different instants, or for different kinds of
      entity, differ. */
  lemma GeneratedIdsDiffer(p1: string, e1: Env, p2: string, e2: Env)
    requires '-' !in p1 && '-' !in p2
    requires p1 != p2 || e1.nowMs != e2.nowMs || Token(e1) != Token(e2)
    ensures GenerateId(p1, e1) != GenerateId(p2, e2)
  {
    GeneratedIdSplits(p1, e1);
    GeneratedIdSplits(p2, e2);
  }

  /** `calculateMonthlyInterest(loanAmount, interestRate)`: the amount times
      the rate, over 100, with no rounding. */
  function CalculateMonthlyInterest(loanAmount: Val, interestRate: Val): (r: Val)
    ensures ToNumber(loanAmount).Num? && ToNumber(interestRate).Num? ==>
      r == Num(ToNumber(loanAmount).n * ToNumber(interestRate).n / 100.0)
    ensures r.Num? || r == NaN
  {
    var product := Times(loanAmount, interestRate);
    assert ToNumber(loanAmount).Num? && ToNumber(interestRate).Num? ==>
      product == Num(ToNumber(loanAmount).n * ToNumber(interestRate).n);
    Percent(product)
  }

  /** A positive amount at a positive rate earns positive interest, and at a
      rate of 100 the interest is the whole amount. */
  lemma MonthlyInterestPositive(amount: real, rate: real)
    requires amount > 0.0 && rate > 0.0
    ensures CalculateMonthlyInterest(Num(amount), Num(rate)).n > 0.0
    ensures CalculateMonthlyInterest(Num(amount), Num(100.0)) == Num(amount)
  {
  }

  predicate IsPaid(p: Obj)
  {
    StrictEq(Get(p, "status"), Str("paid"))
  }

  /** `calculateTotalInterestPaid(payments)`: `reduce` from 0, adding the
      amount of each payment whose status is exactly 'paid'. */
  function CalculateTotalInterestPaid(payments: seq<Obj>): (r: Val)
    ensures payments == [] ==> r == Num(0.0)
  {
    if payments == [] then Num(0.0)
    else
      var total := CalculateTotalInterestPaid(payments[..|payments| - 1]);
      var p := payments[|payments| - 1];
      if IsPaid(p) then Plus(total, Get(p, "amount")) else total
  }

  /** The plain sum of the paid amounts, the reference the fold is measured
      against. */
  function PaidSum(payments: seq<Obj>): real
  {
    if payments == [] then 0.0
    else
      var p := payments[0];
      (if IsPaid(p) && Get(p, "amount").Num? then Get(p, "amount").n else 0.0) + PaidSum(payments[1..])
  }

  predicate PaidAmountsNumeric(payments: seq<Obj>)
  {
    forall i :: 0 <= i < |payments| && IsPaid(payments[i]) ==> Get(payments[i], "amount").Num?
  }

  lemma {:induction false} PaidSumAppend(payments: seq<Obj>, p: Obj)
    ensures PaidSum(payments + [p])
      == PaidSum(payments) + (if IsPaid(p) && Get(p, "amount").Num? then Get(p, "amount").n else 0.0)
  {
    if payments != [] {
      PaidSumAppend(payments[1..], p);
      assert (payments + [p])[1..] == payments[1..] + [p];
    }
  }

  /** When every paid payment carries a number, the total is the sum of the
      paid amounts: other statuses contribute nothing. */
  lemma {:induction false} TotalIsPaidSum(payments: seq<Obj>)
    requires PaidAmountsNumeric(payments)
    ensures CalculateTotalInterestPaid(payments) == Num(PaidSum(payments))
  {
    if payments != [] {
      var init := payments[..|payments| - 1];
      var p := payments[|payments| - 1];
      TotalIsPaidSum(init);
      PaidSumAppend(init, p);
      assert payments == init + [p];
    }
  }

  /** Appending a payment that is not paid leaves the total unchanged. */
  lemma AppendUnpaid(payments: seq<Obj>, p: Obj)
    requires !IsPaid(p)
    ensures CalculateTotalInterestPaid(payments + [p]) == CalculateTotalInterestPaid(payments)
  {
    assert (payments + [p])[..|payments|] == payments;
  }

  /** `calculateRemainingBalance(loanAmount, totalInterestPaid, isFullyPaid)`:
      nothing is owed on a fully paid loan; otherwise the whole principal,
      whatever interest has been paid. */
  function CalculateRemainingBalance(loanAmount: Val, totalInterestPaid: Val, isFullyPaid: Val): (r: Val)
    ensures Truthy(isFullyPaid) ==> r == Num(0.0)
    ensures !Truthy(isFullyPaid) ==> r == loanAmount
  {
    if Truthy(isFullyPaid) then Num(0.0) else loanAmount
  }

  /** The payment filter of `getLoanStatus`: pending and due strictly before now. */
  predicate IsOverduePending(p: Obj, clock: Clock)
  {
    StrictEq(Get(p, "status"), Str("pending")) && IsOverdue(Get(p, "due_date"), clock)
  }

  function CountOverduePending(payments: seq<Obj>, clock: Clock): (n: nat)
    ensures n <= |payments|
    ensures n > 0 <==> exists i :: 0 <= i < |payments| && IsOverduePending(payments[i], clock)
  {
    if payments == [] then 0
    else
      var rest := CountOverduePending(payments[1..], clock);
      assert forall i :: 1 <= i < |payments| ==> payments[i] == payments[1..][i - 1];
      (if IsOverduePending(payments[0], clock) then 1 else 0) + rest
  }

  /** `getLoanStatus(loan, payments)` */
  function GetLoanStatus(loan: Obj, payments: seq<Obj>, clock: Clock): (r: string)
    ensures r == "Fully Paid" || r == "Overdue" || r == "Active"
    ensures StrictEq(Get(loan, "status"), Str("fully_paid")) ==> r == "Fully Paid"
  {
    if StrictEq(Get(loan, "status"), Str("fully_paid")) then "Fully Paid"
    else if CountOverduePending(payments, clock) > 0 then "Overdue"
    else "Active"
  }

  /** 'Overdue' exactly when the loan is not fully paid and some pending
      payment falls due before now; a paid payment never counts, however
      late. 'Active' in every remaining case. */
  lemma LoanStatusCases(loan: Obj, payments: seq<Obj>, clock: Clock)
    ensures var closed := StrictEq(Get(loan, "status"), Str("fully_paid"));
      var late := exists i :: 0 <= i < |payments| && IsOverduePending(payments[i], clock);
      && (GetLoanStatus(loan, payments, clock) == "Fully Paid" <==> closed)
      && (GetLoanStatus(loan, payments, clock) == "Overdue" <==> !closed && late)
      && (GetLoanStatus(loan, payments, clock) == "Active" <==> !closed && !late)
  {
  }

  /** A pending payment is late exactly when its due day is earlier than
      today, or is today once midnight has passed. */
  lemma OverduePendingMeaning(p: Obj, clock: Clock)
    requires ValidClock(clock) && DateOf(Get(p, "due_date")).Some?
    ensures var d := DateOf(Get(p, "due_date")).value;
      IsOverduePending(p, clock) <==>
        Get(p, "status") == Str("pending") && (Precedes(d, clock.today) || (d == clock.today && clock.msOfDay > 0))
  {
    IsOverdueMeaning(Get(p, "due_date"), clock);
  }
}
