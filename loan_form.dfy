/** `src/components/LoanForm.jsx`: the state the dialog opens with and the
    guards and defaults of `handleSubmit`. */
module LoanForm {
  import opened JsValues
  import opened Decimal
  import opened LoanUtils
  import opened Submission
  import DataContext

  const RequiredMessage := "Please fill in all required fields"
  const AmountMessage := "Loan amount must be greater than 0"
  const RateMessage := "Interest rate must be greater than 0"

  /** The state of the form for a new loan. */
  function BlankForm(nowIso: string): Obj
  {
    map["customerId" := Str(""), "loanAmount" := Str(""), "interestRate" := Str(""),
        "startDate" := Str(Today(nowIso)), "status" := Str("ongoing"), "id" := Undefined]
  }

  /** `v` is `snake || camel || fallback`. */
  predicate Prefers(v: Val, snake: Val, camel: Val, fallback: Val)
  {
    && (Truthy(snake) ==> v == snake)
    && (!Truthy(snake) && Truthy(camel) ==> v == camel)
    && (!Truthy(snake) && !Truthy(camel) ==> v == fallback)
  }

  /** The state of the form editing `loan`: each field from the snake_case
      column, else from the camelCase spelling, else a default. */
  function EditForm(loan: Obj, nowIso: string): (f: Obj)
    ensures Prefers(Get(f, "customerId"), Get(loan, "customer_id"), Get(loan, "customerId"), Str(""))
    ensures Prefers(Get(f, "loanAmount"), Get(loan, "loan_amount"), Get(loan, "loanAmount"), Str(""))
    ensures Prefers(Get(f, "interestRate"), Get(loan, "interest_rate"), Get(loan, "interestRate"), Str(""))
    ensures Prefers(Get(f, "startDate"), Get(loan, "start_date"), Get(loan, "startDate"), Str(Today(nowIso)))
    ensures Get(f, "status") == Or(Get(loan, "status"), Str("ongoing"))
    ensures Get(f, "id") == Get(loan, "id")
  {
    map["customerId" := Or(Or(Get(loan, "customer_id"), Get(loan, "customerId")), Str("")),
        "loanAmount" := Or(Or(Get(loan, "loan_amount"), Get(loan, "loanAmount")), Str("")),
        "interestRate" := Or(Or(Get(loan, "interest_rate"), Get(loan, "interestRate")), Str("")),
        "startDate" := Or(Or(Get(loan, "start_date"), Get(loan, "startDate")), Str(Today(nowIso))),
        "status" := Or(Get(loan, "status"), Str("ongoing")),
        "id" := Get(loan, "id")]
  }

  /** The three required fields are filled in. */
  predicate Filled(formData: Obj)
  {
    Truthy(Get(formData, "customerId")) && Truthy(Get(formData, "loanAmount")) && Truthy(Get(formData, "interestRate"))
  }

  /** `handleSubmit` with the form state, the loan being edited (`None`
      for a new one) and the sources of the id and the time. */
  function HandleSubmit(formData: Obj, loan: Option<Obj>, env: Env): (r: Outcome)
    ensures !r.Threw?
    ensures r == Rejected(RequiredMessage) <==> !Filled(formData)
    ensures r == Rejected(AmountMessage) <==>
      Filled(formData) && AtMostZero(ParseFloatOf(Get(formData, "loanAmount")))
    ensures r == Rejected(RateMessage) <==>
      Filled(formData) && !AtMostZero(ParseFloatOf(Get(formData, "loanAmount")))
      && AtMostZero(ParseFloatOf(Get(formData, "interestRate")))
    ensures r.Submitted? ==>
      && (ParseFloatOf(Get(formData, "loanAmount")) == NaN || ParseFloatOf(Get(formData, "loanAmount")).n > 0.0)
      && (ParseFloatOf(Get(formData, "interestRate")) == NaN || ParseFloatOf(Get(formData, "interestRate")).n > 0.0)
  {
    var amount := ParseFloatOf(Get(formData, "loanAmount"));
    var rate := ParseFloatOf(Get(formData, "interestRate"));
    assert RequiredMessage[0] == 'P' && AmountMessage[0] == 'L' && RateMessage[0] == 'I';
    if !Filled(formData) then Rejected(RequiredMessage)
    else if AtMostZero(amount) then Rejected(AmountMessage)
    else if AtMostZero(rate) then Rejected(RateMessage)
    else
      PositiveOrNaN(amount);
      PositiveOrNaN(rate);
      Submitted(LoanData(formData, loan, env))
  }

  /** A parsed number that is not at most 0 is positive, or `NaN`. */
  lemma PositiveOrNaN(v: Val)
    requires (v.Num? || v == NaN) && !AtMostZero(v)
    ensures v == NaN || v.n > 0.0
  {
  }

  /** The record an accepted form hands to `onSubmit`: the customer and the
      start date as entered, the amount and the rate as parsed numbers. */
  function LoanData(formData: Obj, loan: Option<Obj>, env: Env): (rec: Obj)
    ensures Get(rec, "customerId") == Get(formData, "customerId")
    ensures Get(rec, "startDate") == Get(formData, "startDate")
    ensures Get(rec, "loanAmount") == ParseFloatOf(Get(formData, "loanAmount"))
    ensures Get(rec, "interestRate") == ParseFloatOf(Get(formData, "interestRate"))
  {
    DistinctKeys();
    map["id" := Or(Get(formData, "id"), Str(GenerateLoanId(env))),
        "customerId" := Get(formData, "customerId"),
        "loanAmount" := ParseFloatOf(Get(formData, "loanAmount")),
        "interestRate" := ParseFloatOf(Get(formData, "interestRate")),
        "startDate" := Get(formData, "startDate"),
        "status" := Or(Get(formData, "status"), Str("ongoing")),
        "created_at" := if loan.Some? && Truthy(Get(loan.value, "created_at")) then Get(loan.value, "created_at")
                        else Str(env.nowIso)]
  }

  /** The defaults of the record: the id kept when there is one and
      generated otherwise, the status 'ongoing' unless one is set, and the
      creation time of the edited loan, else now. */
  lemma LoanDataDefaults(formData: Obj, loan: Option<Obj>, env: Env)
    ensures var rec := LoanData(formData, loan, env);
      && (Truthy(Get(formData, "id")) ==> Get(rec, "id") == Get(formData, "id"))
      && (!Truthy(Get(formData, "id")) ==> Get(rec, "id") == Str(GenerateLoanId(env)))
      && (Truthy(Get(formData, "status")) ==> Get(rec, "status") == Get(formData, "status"))
      && (!Truthy(Get(formData, "status")) ==> Get(rec, "status") == Str("ongoing"))
      && (loan.Some? && Truthy(Get(loan.value, "created_at")) ==> Get(rec, "created_at") == Get(loan.value, "created_at"))
      && (!(loan.Some? && Truthy(Get(loan.value, "created_at"))) ==> Get(rec, "created_at") == Str(env.nowIso))
  {
    DistinctKeys();
  }

  /** The keys of the record that have the same length differ. */
  lemma DistinctKeys()
    ensures "customerId" != "loanAmount" && "customerId" != "created_at" && "loanAmount" != "created_at"
  {
    assert "customerId"[1] == 'u' && "loanAmount"[1] == 'o' && "created_at"[1] == 'r';
  }

  /** A form submitted as it opens for a new loan is rejected: its
      required fields are empty. */
  lemma BlankFormRejected(nowIso: string, env: Env)
    ensures HandleSubmit(BlankForm(nowIso), None, env) == Rejected(RequiredMessage)
  {
    assert !Truthy(Get(BlankForm(nowIso), "customerId"));
  }

  /** An accepted loan whose amount and rate parse to numbers earns a
      positive monthly interest. */
  lemma AcceptedInterestPositive(formData: Obj, loan: Option<Obj>, env: Env)
    requires HandleSubmit(formData, loan, env).Submitted?
    requires ParseFloatOf(Get(formData, "loanAmount")).Num? && ParseFloatOf(Get(formData, "interestRate")).Num?
    ensures var rec := HandleSubmit(formData, loan, env).record;
      var interest := CalculateMonthlyInterest(Get(rec, "loanAmount"), Get(rec, "interestRate"));
      interest.Num? && interest.n > 0.0
  {
    var amount, rate := ParseFloatOf(Get(formData, "loanAmount")), ParseFloatOf(Get(formData, "interestRate"));
    var rec := HandleSubmit(formData, loan, env).record;
    assert amount.n > 0.0 && rate.n > 0.0;
    assert rec == LoanData(formData, loan, env) by {
      SubmittedRecord(formData, loan, env);
    }
    MonthlyInterestPositive(amount.n, rate.n);
  }

  lemma SubmittedRecord(formData: Obj, loan: Option<Obj>, env: Env)
    requires HandleSubmit(formData, loan, env).Submitted?
    ensures HandleSubmit(formData, loan, env).record == LoanData(formData, loan, env)
  {
  }

  /** The row `handleAddLoan` inserts for an accepted new loan carries what
      was entered, under the column names, with the record's id. */
  lemma SubmitThenInsert(formData: Obj, env: Env, insertEnv: Env)
    requires HandleSubmit(formData, None, env).Submitted?
    ensures var row := DataContext.LoanInsert(HandleSubmit(formData, None, env).record, insertEnv);
      && Get(row, "customer_id") == Get(formData, "customerId")
      && Get(row, "loan_amount") == ParseFloatOf(Get(formData, "loanAmount"))
      && Get(row, "interest_rate") == ParseFloatOf(Get(formData, "interestRate"))
      && Get(row, "start_date") == Get(formData, "startDate")
      && Get(row, "id") == Get(HandleSubmit(formData, None, env).record, "id")
  {
    var rec := HandleSubmit(formData, None, env).record;
    SubmittedRecord(formData, None, env);
    LoanDataDefaults(formData, None, env);
    assert Truthy(Get(rec, "id")) by {
      GeneratedIdShapes(env);
    }
  }

  /** A loan row as the store keeps it, with the fields the edit form needs. */
  predicate EditableRow(loan: Obj)
  {
    && Truthy(Get(loan, "customer_id")) && Truthy(Get(loan, "start_date")) && Truthy(Get(loan, "status"))
    && Get(loan, "loan_amount").Num? && Get(loan, "loan_amount").n > 0.0
    && Get(loan, "interest_rate").Num? && Get(loan, "interest_rate").n > 0.0
  }

  /** Opening a stored loan for editing and submitting it unchanged is
      accepted, and `handleUpdateLoan` sends back the five columns the row
      already has. */
  lemma EditRoundTrip(loan: Obj, nowIso: string, env: Env)
    requires EditableRow(loan)
    ensures HandleSubmit(EditForm(loan, nowIso), Some(loan), env).Submitted?
    ensures var sent := DataContext.LoanUpdate(HandleSubmit(EditForm(loan, nowIso), Some(loan), env).record);
      && sent["customer_id"] == Get(loan, "customer_id")
      && sent["loan_amount"] == Get(loan, "loan_amount")
      && sent["interest_rate"] == Get(loan, "interest_rate")
      && sent["start_date"] == Get(loan, "start_date")
      && sent["status"] == Get(loan, "status")
  {
    var f := EditForm(loan, nowIso);
    assert Filled(f);
    assert ParseFloatOf(Get(f, "loanAmount")) == Get(loan, "loan_amount");
    assert ParseFloatOf(Get(f, "interestRate")) == Get(loan, "interest_rate");
    assert HandleSubmit(f, Some(loan), env).Submitted?;
    SubmittedRecord(f, Some(loan), env);
    var rec := LoanData(f, Some(loan), env);
    LoanDataDefaults(f, Some(loan), env);
    assert Get(rec, "customerId") == Get(loan, "customer_id");
    assert Get(rec, "loanAmount") == Get(loan, "loan_amount");
    assert Get(rec, "interestRate") == Get(loan, "interest_rate");
    assert Get(rec, "startDate") == Get(loan, "start_date");
    assert Get(rec, "status") == Get(loan, "status");
  }
}
