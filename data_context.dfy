/** The client-side entity store of `src/contexts/DataContext.jsx`: three
    cached collections and the handlers that change them after a remote call.
    Each remote call is reduced to what it reports back, passed in by the
    caller. */
module DataContext {
  import opened JsValues
  import opened Rows
  import opened LoanUtils

  /** What an insert or update reports: an error, or the first row it
      returns (`data[0]`). */
  datatype Reply = Failed(message: string) | Returned(row: Obj)

  /** What a remote delete reports. */
  datatype Ack = Done | Refused(message: string)

  /** What the query for a customer's loans reports: an error, or the ids of
      the loans it found. */
  datatype LoansQuery = QueryFailed(message: string) | Found(loanIds: seq<Val>)

  /** `delete o[k]` on a copy of `o`. */
  function Without(o: Obj, k: string): (r: Obj)
    ensures k !in r
    ensures forall j :: j != k ==> (j in r <==> j in o)
    ensures forall j :: j in r ==> r[j] == o[j]
  {
    o - {k}
  }

  /** The row `handleAddCustomer` inserts: the given fields, an id and a
      creation time filled in only when the given ones are falsy, and no
      `createdAt`. */
  function CustomerInsert(customerData: Obj, env: Env): (r: Obj)
    ensures "createdAt" !in r
    ensures Truthy(Get(customerData, "id")) ==> Get(r, "id") == Get(customerData, "id")
    ensures !Truthy(Get(customerData, "id")) ==> Get(r, "id") == Str(GenerateCustomerId(env))
    ensures Truthy(Get(customerData, "created_at")) ==> Get(r, "created_at") == Get(customerData, "created_at")
    ensures !Truthy(Get(customerData, "created_at")) ==> Get(r, "created_at") == Str(env.nowIso)
  {
    var filled := map["id" := Or(Get(customerData, "id"), Str(GenerateCustomerId(env))),
                      "created_at" := Or(Get(customerData, "created_at"), Str(env.nowIso))];
    Without(Spread(customerData, filled), "createdAt")
  }

  /** Every other field of the new customer is inserted as given. */
  lemma CustomerInsertKeepsFields(customerData: Obj, env: Env)
    ensures forall k :: k != "id" && k != "created_at" && k != "createdAt" ==>
      (k in CustomerInsert(customerData, env) <==> k in customerData)
      && Get(CustomerInsert(customerData, env), k) == Get(customerData, k)
  {
  }

  /** The fields `handleUpdateCustomer` sends: the given ones, without either
      spelling of the creation time. */
  function CustomerUpdate(updatedCustomer: Obj): (r: Obj)
    ensures "created_at" !in r && "createdAt" !in r
    ensures forall k :: k != "created_at" && k != "createdAt" ==>
      (k in r <==> k in updatedCustomer) && Get(r, k) == Get(updatedCustomer, k)
  {
    Without(Without(updatedCustomer, "created_at"), "createdAt")
  }

  /** The row `handleAddLoan` inserts: the camelCase fields of the form under
      their snake_case column names, status 'ongoing' unless one is given. */
  function LoanInsert(loanData: Obj, env: Env): (r: Obj)
    ensures Get(r, "customer_id") == Get(loanData, "customerId")
    ensures Get(r, "loan_amount") == Get(loanData, "loanAmount")
    ensures Get(r, "interest_rate") == Get(loanData, "interestRate")
    ensures Get(r, "start_date") == Get(loanData, "startDate")
    ensures !Truthy(Get(loanData, "status")) ==> Get(r, "status") == Str("ongoing")
    ensures Truthy(Get(loanData, "status")) ==> Get(r, "status") == Get(loanData, "status")
    ensures Truthy(Get(loanData, "id")) ==> Get(r, "id") == Get(loanData, "id")
    ensures !Truthy(Get(loanData, "id")) ==> Get(r, "id") == Str(GenerateLoanId(env))
    ensures Truthy(Get(loanData, "created_at")) ==> Get(r, "created_at") == Get(loanData, "created_at")
    ensures !Truthy(Get(loanData, "created_at")) ==> Get(r, "created_at") == Str(env.nowIso)
  {
    map["id" := Or(Get(loanData, "id"), Str(GenerateLoanId(env))),
        "customer_id" := Get(loanData, "customerId"),
        "loan_amount" := Get(loanData, "loanAmount"),
        "interest_rate" := Get(loanData, "interestRate"),
        "start_date" := Get(loanData, "startDate"),
        "status" := Or(Get(loanData, "status"), Str("ongoing")),
        "created_at" := Or(Get(loanData, "created_at"), Str(env.nowIso))]
  }

  /** The inserted loan row has exactly the seven columns of the table. */
  lemma LoanInsertColumns(loanData: Obj, env: Env)
    ensures LoanInsert(loanData, env).Keys ==
      {"id", "customer_id", "loan_amount", "interest_rate", "start_date", "status", "created_at"}
  {
  }

  /** The fields `handleUpdateLoan` sends: the five editable ones, renamed to
      their columns; the id only selects the row. */
  function LoanUpdate(updatedLoan: Obj): (r: Obj)
    ensures r.Keys == {"customer_id", "loan_amount", "interest_rate", "start_date", "status"}
    ensures r["customer_id"] == Get(updatedLoan, "customerId") && r["status"] == Get(updatedLoan, "status")
    ensures r["loan_amount"] == Get(updatedLoan, "loanAmount") && r["interest_rate"] == Get(updatedLoan, "interestRate")
    ensures r["start_date"] == Get(updatedLoan, "startDate")
  {
    map["customer_id" := Get(updatedLoan, "customerId"),
        "loan_amount" := Get(updatedLoan, "loanAmount"),
        "interest_rate" := Get(updatedLoan, "interestRate"),
        "start_date" := Get(updatedLoan, "startDate"),
        "status" := Get(updatedLoan, "status")]
  }

  /** The only field `handleCloseLoan` sends. */
  const CloseLoanUpdate: Obj := map["status" := Str("fully_paid")]

  /** The row `handleAddPayment` inserts for a payment of `loan`: its
      customer is the loan's, status 'pending' and type 'interest' unless
      given, and `payment_date` present only when a truthy one is given. */
  function PaymentInsert(paymentData: Obj, loan: Obj, env: Env): (r: Obj)
    ensures Get(r, "customer_id") == Get(loan, "customer_id")
    ensures Get(r, "loan_id") == Get(paymentData, "loanId")
    ensures Get(r, "due_date") == Get(paymentData, "dueDate")
    ensures Get(r, "amount") == Get(paymentData, "amount")
    ensures !Truthy(Get(paymentData, "status")) ==> Get(r, "status") == Str("pending")
    ensures !Truthy(Get(paymentData, "type")) ==> Get(r, "type") == Str("interest")
    ensures Truthy(Get(paymentData, "status")) ==> Get(r, "status") == Get(paymentData, "status")
    ensures Truthy(Get(paymentData, "type")) ==> Get(r, "type") == Get(paymentData, "type")
    ensures Truthy(Get(paymentData, "id")) ==> Get(r, "id") == Get(paymentData, "id")
    ensures !Truthy(Get(paymentData, "id")) ==> Get(r, "id") == Str(GeneratePaymentId(env))
    ensures Truthy(Get(paymentData, "created_at")) ==> Get(r, "created_at") == Get(paymentData, "created_at")
    ensures !Truthy(Get(paymentData, "created_at")) ==> Get(r, "created_at") == Str(env.nowIso)
  {
    var row := map["id" := Or(Get(paymentData, "id"), Str(GeneratePaymentId(env))),
                   "loan_id" := Get(paymentData, "loanId"),
                   "customer_id" := Get(loan, "customer_id"),
                   "amount" := Get(paymentData, "amount"),
                   "due_date" := Get(paymentData, "dueDate"),
                   "status" := Or(Get(paymentData, "status"), Str("pending")),
                   "type" := Or(Get(paymentData, "type"), Str("interest")),
                   "created_at" := Or(Get(paymentData, "created_at"), Str(env.nowIso))];
    if Truthy(Get(paymentData, "paymentDate")) then row["payment_date" := Get(paymentData, "paymentDate")] else row
  }

  /** The inserted payment has a `payment_date` only when a truthy one was
      given, and then it is that one. */
  lemma PaymentInsertDate(paymentData: Obj, loan: Obj, env: Env)
    ensures "payment_date" in PaymentInsert(paymentData, loan, env) <==> Truthy(Get(paymentData, "paymentDate"))
    ensures Truthy(Get(paymentData, "paymentDate")) ==>
      PaymentInsert(paymentData, loan, env)["payment_date"] == Get(paymentData, "paymentDate")
  {
  }

  /** The fields `handleUpdatePayment` sends, read from the camelCase
      `dueDate` and `paymentDate` of its argument. */
  function PaymentUpdate(updatedPayment: Obj): (r: Obj)
    ensures r.Keys == {"amount", "due_date", "payment_date", "status", "type"}
    ensures r["due_date"] == Get(updatedPayment, "dueDate")
    ensures r["payment_date"] == Get(updatedPayment, "paymentDate")
    ensures r["amount"] == Get(updatedPayment, "amount") && r["status"] == Get(updatedPayment, "status")
    ensures r["type"] == Get(updatedPayment, "type")
  {
    map["amount" := Get(updatedPayment, "amount"),
        "due_date" := Get(updatedPayment, "dueDate"),
        "payment_date" := Get(updatedPayment, "paymentDate"),
        "status" := Get(updatedPayment, "status"),
        "type" := Get(updatedPayment, "type")]
  }

  /** `payments.filter(p => p.loan_id === loanId)` */
  function PaymentsOfLoan(payments: seq<Obj>, loanId: Val): (r: seq<Obj>)
    ensures forall p :: p in r <==> p in payments && HasKey(p, "loan_id", loanId)
  {
    var keep := p => HasKey(p, "loan_id", loanId);
    FilterMembers(payments, keep);
    Filter(payments, keep)
  }

  /** The payments of a loan in a concatenation of caches are those of each
      part, in cache order. */
  lemma PaymentsOfLoanAppend(a: seq<Obj>, b: seq<Obj>, loanId: Val)
    ensures PaymentsOfLoan(a + b, loanId) == PaymentsOfLoan(a, loanId) + PaymentsOfLoan(b, loanId)
  {
    FilterAppend(a, b, p => HasKey(p, "loan_id", loanId));
  }

  /** The delete cascade succeeds when the loan query, the delete by loan
      (issued only when loans were found), the delete of the customer's
      payments, of its loans and of the customer itself all succeed. */
  predicate CascadeSucceeds(query: LoansQuery, byLoan: Ack, direct: Ack, loansDeleted: Ack, customerDeleted: Ack)
  {
    && query.Found?
    && (query.loanIds == [] || byLoan.Done?)
    && direct.Done? && loansDeleted.Done? && customerDeleted.Done?
  }

  function RemainingCustomers(customers: seq<Obj>, customerId: Val): (r: seq<Obj>)
    ensures forall c :: c in r <==> c in customers && !HasKey(c, "id", customerId)
  {
    var keep := c => !HasKey(c, "id", customerId);
    FilterMembers(customers, keep);
    Filter(customers, keep)
  }

  function RemainingLoans(loans: seq<Obj>, customerId: Val): (r: seq<Obj>)
    ensures forall l :: l in r <==> l in loans && !HasKey(l, "customer_id", customerId)
  {
    var keep := l => !HasKey(l, "customer_id", customerId);
    FilterMembers(loans, keep);
    Filter(loans, keep)
  }

  /** The test a cached payment passes to stay after its customer is
      deleted: its loan, looked up in the loans cached before the delete,
      exists and belongs to another customer, and the payment's own
      customer is another one too. */
  predicate PaymentSurvives(p: Obj, loans: seq<Obj>, customerId: Val)
  {
    match Find(loans, "id", Get(p, "loan_id"))
    case None => false
    case Some(loan) => !HasKey(loan, "customer_id", customerId) && !HasKey(p, "customer_id", customerId)
  }

  function RemainingPayments(payments: seq<Obj>, loans: seq<Obj>, customerId: Val): (r: seq<Obj>)
    ensures forall p :: p in r <==> p in payments && PaymentSurvives(p, loans, customerId)
  {
    var keep := p => PaymentSurvives(p, loans, customerId);
    FilterMembers(payments, keep);
    Filter(payments, keep)
  }

  /** A payment whose loan is not cached is dropped by the cascade as well. */
  lemma UncachedLoanPaymentDropped(payments: seq<Obj>, loans: seq<Obj>, customerId: Val, p: Obj)
    requires forall i :: 0 <= i < |loans| ==> !HasKey(loans[i], "id", Get(p, "loan_id"))
    ensures p !in RemainingPayments(payments, loans, customerId)
  {
  }

  /** Every payment that survives the cascade still finds a loan with its
      `loan_id` among the loans that survive it. */
  lemma SurvivorsKeepALoan(payments: seq<Obj>, loans: seq<Obj>, customerId: Val, p: Obj)
    requires p in RemainingPayments(payments, loans, customerId)
    ensures Find(RemainingLoans(loans, customerId), "id", Get(p, "loan_id")).Some?
  {
    var loan := Find(loans, "id", Get(p, "loan_id")).value;
    var kept := RemainingLoans(loans, customerId);
    assert loan in kept;
    var i :| 0 <= i < |kept| && kept[i] == loan;
    assert HasKey(kept[i], "id", Get(p, "loan_id"));
  }

  /** After the cascade no customer, loan or payment refers to the deleted
      customer id. */
  lemma CascadeLeavesNoTrace(customers: seq<Obj>, loans: seq<Obj>, payments: seq<Obj>, customerId: Val)
    ensures forall c :: c in RemainingCustomers(customers, customerId) ==> !HasKey(c, "id", customerId)
    ensures forall l :: l in RemainingLoans(loans, customerId) ==> !HasKey(l, "customer_id", customerId)
    ensures forall p :: p in RemainingPayments(payments, loans, customerId) ==> !HasKey(p, "customer_id", customerId)
  {
  }

  class Store {
    var customers: seq<Obj>
    var loans: seq<Obj>
    var payments: seq<Obj>

    /** The three caches start empty. */
    constructor()
      ensures customers == [] && loans == [] && payments == []
    {
      customers := [];
      loans := [];
      payments := [];
    }

    /** `handleAddCustomer(customerData)`: on success the returned row is
        appended and returned; on failure nothing changes. */
    method AddCustomer(customerData: Obj, env: Env, reply: Reply) returns (sent: Obj, added: Option<Obj>)
      modifies this
      ensures sent == CustomerInsert(customerData, env)
      ensures reply.Failed? ==> added == None && customers == old(customers)
      ensures reply.Returned? ==> added == Some(reply.row) && customers == old(customers) + [reply.row]
      ensures loans == old(loans) && payments == old(payments)
    {
      sent := CustomerInsert(customerData, env);
      if reply.Failed? {
        return sent, None;
      }
      customers := customers + [reply.row];
      added := Some(reply.row);
    }

    /** `handleUpdateCustomer(updatedCustomer)`: on success every cached
        customer with that id becomes the returned row. */
    method UpdateCustomer(updatedCustomer: Obj, reply: Reply) returns (sent: Obj)
      modifies this
      ensures sent == CustomerUpdate(updatedCustomer)
      ensures reply.Failed? ==> customers == old(customers)
      ensures reply.Returned? ==>
        customers == ReplaceWhere(old(customers), "id", Get(updatedCustomer, "id"), _ => reply.row)
      ensures loans == old(loans) && payments == old(payments)
    {
      sent := CustomerUpdate(updatedCustomer);
      if reply.Failed? {
        return;
      }
      var row := reply.row;
      customers := ReplaceWhere(customers, "id", Get(updatedCustomer, "id"), _ => row);
    }

    /** `handleDeleteCustomer(customerId)`: the four remote steps in order,
        stopping at the first failure; the caches change only when all of
        them succeed. */
    method DeleteCustomer(customerId: Val, query: LoansQuery, byLoan: Ack, direct: Ack,
                          loansDeleted: Ack, customerDeleted: Ack) returns (deleted: bool)
      modifies this
      ensures deleted <==> CascadeSucceeds(query, byLoan, direct, loansDeleted, customerDeleted)
      ensures !deleted ==> customers == old(customers) && loans == old(loans) && payments == old(payments)
      ensures deleted ==> customers == RemainingCustomers(old(customers), customerId)
      ensures deleted ==> loans == RemainingLoans(old(loans), customerId)
      ensures deleted ==> payments == RemainingPayments(old(payments), old(loans), customerId)
    {
      if query.QueryFailed? {
        return false;
      }
      if query.loanIds != [] && byLoan.Refused? {
        return false;
      }
      if direct.Refused? {
        return false;
      }
      if loansDeleted.Refused? {
        return false;
      }
      if customerDeleted.Refused? {
        return false;
      }
      var cachedLoans := loans;
      customers := RemainingCustomers(customers, customerId);
      loans := RemainingLoans(loans, customerId);
      payments := RemainingPayments(payments, cachedLoans, customerId);
      deleted := true;
    }

    /** `handleAddLoan(loanData)`: without a cached customer of that id no
        request is made and nothing changes. */
    method AddLoan(loanData: Obj, env: Env, reply: Reply) returns (sent: Option<Obj>)
      modifies this
      ensures Find(old(customers), "id", Get(loanData, "customerId")).None? ==>
        sent == None && loans == old(loans)
      ensures Find(old(customers), "id", Get(loanData, "customerId")).Some? ==>
        sent == Some(LoanInsert(loanData, env))
        && loans == (if reply.Returned? then old(loans) + [reply.row] else old(loans))
      ensures customers == old(customers) && payments == old(payments)
    {
      if Find(customers, "id", Get(loanData, "customerId")).None? {
        return None;
      }
      sent := Some(LoanInsert(loanData, env));
      if reply.Failed? {
        return;
      }
      loans := loans + [reply.row];
    }

    /** `handleUpdateLoan(updatedLoan)` */
    method UpdateLoan(updatedLoan: Obj, reply: Reply) returns (sent: Obj)
      modifies this
      ensures sent == LoanUpdate(updatedLoan)
      ensures reply.Failed? ==> loans == old(loans)
      ensures reply.Returned? ==> loans == ReplaceWhere(old(loans), "id", Get(updatedLoan, "id"), _ => reply.row)
      ensures customers == old(customers) && payments == old(payments)
    {
      sent := LoanUpdate(updatedLoan);
      if reply.Failed? {
        return;
      }
      var row := reply.row;
      loans := ReplaceWhere(loans, "id", Get(updatedLoan, "id"), _ => row);
    }

    /** `handleCloseLoan(loanId)`: asks only for status 'fully_paid' and
        puts the returned row in place of the loan. */
    method CloseLoan(loanId: Val, reply: Reply) returns (sent: Obj)
      modifies this
      ensures sent == CloseLoanUpdate
      ensures reply.Failed? ==> loans == old(loans)
      ensures reply.Returned? ==> loans == ReplaceWhere(old(loans), "id", loanId, _ => reply.row)
      ensures customers == old(customers) && payments == old(payments)
    {
      sent := CloseLoanUpdate;
      if reply.Failed? {
        return;
      }
      var row := reply.row;
      loans := ReplaceWhere(loans, "id", loanId, _ => row);
    }

    /** `handleAddPayment(paymentData)`: without a cached loan of that id no
        request is made and nothing changes; otherwise the first such loan
        supplies the payment's customer. */
    method AddPayment(paymentData: Obj, env: Env, reply: Reply) returns (sent: Option<Obj>)
      modifies this
      ensures Find(old(loans), "id", Get(paymentData, "loanId")).None? ==>
        sent == None && payments == old(payments)
      ensures Find(old(loans), "id", Get(paymentData, "loanId")).Some? ==>
        sent == Some(PaymentInsert(paymentData, Find(old(loans), "id", Get(paymentData, "loanId")).value, env))
        && payments == (if reply.Returned? then old(payments) + [reply.row] else old(payments))
      ensures customers == old(customers) && loans == old(loans)
    {
      var loan := Find(loans, "id", Get(paymentData, "loanId"));
      if loan.None? {
        return None;
      }
      sent := Some(PaymentInsert(paymentData, loan.value, env));
      if reply.Failed? {
        return;
      }
      payments := payments + [reply.row];
    }

    /** `handleUpdatePayment(updatedPayment)`: the returned row is spread
        over each cached payment with that id, so fields the server leaves
        out keep their cached values. */
    method UpdatePayment(updatedPayment: Obj, reply: Reply) returns (sent: Obj)
      modifies this
      ensures sent == PaymentUpdate(updatedPayment)
      ensures reply.Failed? ==> payments == old(payments)
      ensures reply.Returned? ==>
        payments == ReplaceWhere(old(payments), "id", Get(updatedPayment, "id"), p => Spread(p, reply.row))
      ensures customers == old(customers) && loans == old(loans)
    {
      sent := PaymentUpdate(updatedPayment);
      if reply.Failed? {
        return;
      }
      var row := reply.row;
      payments := ReplaceWhere(payments, "id", Get(updatedPayment, "id"), p => Spread(p, row));
    }

    /** `getLoanPayments(loanId)` */
    function GetLoanPayments(loanId: Val): (r: seq<Obj>)
      reads this
      ensures forall p :: p in r <==> p in payments && HasKey(p, "loan_id", loanId)
    {
      PaymentsOfLoan(payments, loanId)
    }
  }

  /** A merged payment keeps every cached field the returned row lacks and
      takes every field it has. */
  lemma MergeKeepsUnreturnedFields(cached: Obj, returned: Obj, k: string)
    ensures k !in returned ==> Get(Spread(cached, returned), k) == Get(cached, k)
    ensures k in returned ==> Get(Spread(cached, returned), k) == returned[k]
  {
  }
}
