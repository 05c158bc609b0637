/** `src/components/PaymentForm.jsx`: the state the dialog opens with and
    the guard and the record of `handleSubmit`. */
module PaymentForm {
  import opened JsValues
  import opened Decimal
  import opened Submission
  import Text
  import DataContext

  const InvalidAmount := "Please enter a valid payment amount"

  /** The state of the form when it opens, for the selected payment or for
      none: the payment's amount, else empty, and the date part of its
      `payment_date`, else today. `None` where `split` is called on a date
      that is not a string, which throws. */
  function Prefill(payment: Option<Obj>, nowIso: string): (r: Option<Obj>)
    ensures payment.None? ==> r == Some(map["amount" := Str(""), "paymentDate" := Str(Today(nowIso))])
    ensures r.None? <==> payment.Some? && Truthy(Get(payment.value, "payment_date")) && !Get(payment.value, "payment_date").Str?
    ensures r.Some? ==> r.value.Keys == {"amount", "paymentDate"}
    ensures r.Some? && payment.Some? ==> r.value["amount"] == Or(Get(payment.value, "amount"), Str(""))
    ensures r.Some? && payment.Some? && Get(payment.value, "payment_date").Str? && Truthy(Get(payment.value, "payment_date")) ==>
      r.value["paymentDate"] == Str(Text.BeforeFirst(Get(payment.value, "payment_date").s, 'T'))
    ensures r.Some? && payment.Some? && !Truthy(Get(payment.value, "payment_date")) ==>
      r.value["paymentDate"] == Str(Today(nowIso))
  {
    match payment
    case None => Some(map["amount" := Str(""), "paymentDate" := Str(Today(nowIso))])
    case Some(p) =>
      var date := Get(p, "payment_date");
      var amount := Or(Get(p, "amount"), Str(""));
      if !Truthy(date) then Some(map["amount" := amount, "paymentDate" := Str(Today(nowIso))])
      else if date.Str? then Some(map["amount" := amount, "paymentDate" := Str(Text.BeforeFirst(date.s, 'T'))])
      else None
  }

  /** The date part of an ISO date-time is what precedes the 'T'; a bare
      date is kept whole. */
  lemma DatePart(date: string, time: string)
    requires 'T' !in date
    ensures Text.BeforeFirst(date + "T" + time, 'T') == date
    ensures Text.BeforeFirst(date, 'T') == date
  {
    var s := date + "T" + time;
    assert forall i :: 0 <= i < |date| ==> s[i] == date[i];
    assert s[|date|] == 'T';
    var r := Text.BeforeFirst(s, 'T');
    assert 'T' in s[..|date| + 1];
    assert s[..|date|] == date;
  }

  /** `{ ...payment }` of an optional payment: no fields when there is none. */
  function Fields(payment: Option<Obj>): Obj
  {
    match payment
    case None => map[]
    case Some(p) => p
  }

  /** `handleSubmit` with the form state and the selected payment (`None`
      when there is none): rejected when the amount is empty or parses to a
      number at most 0; otherwise the payment with the fields the form sets. */
  function HandleSubmit(formData: Obj, payment: Option<Obj>): (r: Outcome)
    ensures !r.Threw?
    ensures r.Rejected? <==>
      !Truthy(Get(formData, "amount")) || AtMostZero(ParseFloatOf(Get(formData, "amount")))
    ensures r.Rejected? ==> r.message == InvalidAmount
  {
    var amount := Get(formData, "amount");
    if !Truthy(amount) || AtMostZero(ParseFloatOf(amount)) then Rejected(InvalidAmount)
    else Submitted(Spread(Fields(payment), Recorded(formData)))
  }

  /** The fields an accepted form sets: the parsed amount, the entered date
      and status 'paid'. */
  function Recorded(formData: Obj): Obj
  {
    map["amount" := ParseFloatOf(Get(formData, "amount")),
        "payment_date" := Get(formData, "paymentDate"),
        "status" := Str("paid")]
  }

  /** An accepted record is marked paid whatever the payment's status was,
      and carries the parsed amount, which is positive or `NaN`, and the
      entered date. */
  lemma AcceptedRecord(formData: Obj, payment: Option<Obj>)
    requires HandleSubmit(formData, payment).Submitted?
    ensures var rec := HandleSubmit(formData, payment).record;
      var parsed := ParseFloatOf(Get(formData, "amount"));
      && Get(rec, "status") == Str("paid")
      && Get(rec, "amount") == parsed && (parsed == NaN || (parsed.Num? && parsed.n > 0.0))
      && Get(rec, "payment_date") == Get(formData, "paymentDate")
  {
    assert "amount"[0] == 'a' && "status"[0] == 's';
    var parsed := ParseFloatOf(Get(formData, "amount"));
    assert !AtMostZero(parsed);
  }

  /** Every other field of the payment is handed on as it was. */
  lemma AcceptedKeepsFields(formData: Obj, payment: Option<Obj>, k: string)
    requires HandleSubmit(formData, payment).Submitted?
    requires k != "amount" && k != "payment_date" && k != "status"
    ensures var rec := HandleSubmit(formData, payment).record;
      (k in rec <==> k in Fields(payment)) && Get(rec, k) == Get(Fields(payment), k)
  {
  }

  /** Recording a pending payment of a positive amount straight from the
      form as it opens: accepted, with the same amount, the date part of
      the stored date, and the rest of the row unchanged but its status. */
  lemma PrefillThenSubmit(payment: Obj, amount: real, date: string, time: string, nowIso: string)
    requires Get(payment, "amount") == Num(amount) && amount > 0.0
    requires Get(payment, "payment_date") == Str(date + "T" + time) && 'T' !in date
    ensures Prefill(Some(payment), nowIso).Some?
    ensures var f := Prefill(Some(payment), nowIso).value;
      HandleSubmit(f, Some(payment)) ==
        Submitted(payment["amount" := Num(amount)]["payment_date" := Str(date)]["status" := Str("paid")])
  {
    DatePart(date, time);
    var f := Prefill(Some(payment), nowIso).value;
    assert Get(f, "amount") == Num(amount);
    assert Get(f, "paymentDate") == Str(date);
    assert !AtMostZero(ParseFloatOf(Num(amount)));
  }

  /** What `handleUpdatePayment` sends for a record built from a row of the
      store: the row holds `due_date` and `payment_date` but no `dueDate`
      or `paymentDate`, which are the fields the update reads, so the
      request carries the amount and status 'paid' and neither date. */
  lemma UpdateDropsDates(formData: Obj, row: Obj)
    requires HandleSubmit(formData, Some(row)).Submitted?
    requires "dueDate" !in row && "paymentDate" !in row
    ensures var sent := JsValues.Serialized(DataContext.PaymentUpdate(HandleSubmit(formData, Some(row)).record));
      && "due_date" !in sent && "payment_date" !in sent
      && Get(sent, "status") == Str("paid")
  {
    var rec := HandleSubmit(formData, Some(row)).record;
    AcceptedRecord(formData, Some(row));
    AcceptedKeepsFields(formData, Some(row), "dueDate");
    AcceptedKeepsFields(formData, Some(row), "paymentDate");
    assert Get(rec, "dueDate") == Undefined && Get(rec, "paymentDate") == Undefined;
    var update := DataContext.PaymentUpdate(rec);
    assert update["due_date"] == Undefined && update["payment_date"] == Undefined;
    assert update["status"] == Str("paid");
  }
}
