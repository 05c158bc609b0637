/** `src/components/CustomerForm.jsx`: the state the dialog opens with and
    the guard and the defaults of `handleSubmit`. */
module CustomerForm {
  import opened JsValues
  import opened LoanUtils
  import opened Submission
  import Text
  import DataContext

  const NameRequired := "Customer name is required"

  /** The state of the form, for the selected customer or for none: each
      field the customer's, else empty. */
  function Prefill(customer: Option<Obj>): (f: Obj)
    ensures f.Keys == {"name", "description", "mobile"}
    ensures forall k :: k in f ==> f[k] == Or(Field(customer, k), Str(""))
  {
    map["name" := Or(Field(customer, "name"), Str("")),
        "description" := Or(Field(customer, "description"), Str("")),
        "mobile" := Or(Field(customer, "mobile"), Str(""))]
  }

  /** `handleSubmit` with the form state, the customer being edited (`None`
      for a new one) and the sources of the id and the time: `trim` throws
      on a name that is not a string, a name of white space only is
      rejected, and otherwise the form's fields go on with the defaults. */
  function HandleSubmit(formData: Obj, customer: Option<Obj>, env: Env): (r: Outcome)
    ensures r.Threw? <==> !Get(formData, "name").Str?
    ensures r.Rejected? <==> Get(formData, "name").Str? && Text.Blank(Get(formData, "name").s)
    ensures r.Rejected? ==> r.message == NameRequired
  {
    var name := Get(formData, "name");
    if !name.Str? then Threw
    else
      Text.TrimMeaning(name.s);
      if Text.Trim(name.s) == [] then Rejected(NameRequired)
      else Submitted(Spread(formData, Defaults(customer, env)))
  }

  /** The fields the form adds: the customer's id, status and creation time,
      else a fresh id, 'active' and now. */
  function Defaults(customer: Option<Obj>, env: Env): Obj
  {
    map["id" := Or(Field(customer, "id"), Str(GenerateCustomerId(env))),
        "status" := Or(Field(customer, "status"), Str("active")),
        "created_at" := Or(Field(customer, "created_at"), Str(env.nowIso))]
  }

  /** The defaults keep the customer's id, status and creation time where
      they are set and take a fresh id, 'active' and now where not. */
  lemma DefaultsRule(customer: Option<Obj>, env: Env)
    ensures var d := Defaults(customer, env);
      && d.Keys == {"id", "status", "created_at"}
      && (Truthy(Field(customer, "id")) ==> d["id"] == Field(customer, "id"))
      && (!Truthy(Field(customer, "id")) ==> d["id"] == Str(GenerateCustomerId(env)))
      && (Truthy(Field(customer, "status")) ==> d["status"] == Field(customer, "status"))
      && (!Truthy(Field(customer, "status")) ==> d["status"] == Str("active"))
      && (Truthy(Field(customer, "created_at")) ==> d["created_at"] == Field(customer, "created_at"))
      && (!Truthy(Field(customer, "created_at")) ==> d["created_at"] == Str(env.nowIso))
  {
  }

  /** An accepted record carries the defaults over whatever the form holds
      under those keys. */
  lemma AcceptedDefaults(formData: Obj, customer: Option<Obj>, env: Env)
    requires HandleSubmit(formData, customer, env).Submitted?
    ensures var rec := HandleSubmit(formData, customer, env).record;
      && Get(rec, "id") == Defaults(customer, env)["id"]
      && Get(rec, "status") == Defaults(customer, env)["status"]
      && Get(rec, "created_at") == Defaults(customer, env)["created_at"]
  {
    SubmittedRecord(formData, customer, env);
    DefaultsRule(customer, env);
  }

  lemma SubmittedRecord(formData: Obj, customer: Option<Obj>, env: Env)
    requires HandleSubmit(formData, customer, env).Submitted?
    ensures HandleSubmit(formData, customer, env).record == Spread(formData, Defaults(customer, env))
  {
  }

  /** Every other field goes on as entered; in particular the name is not
      trimmed. */
  lemma AcceptedKeepsFields(formData: Obj, customer: Option<Obj>, env: Env, k: string)
    requires HandleSubmit(formData, customer, env).Submitted?
    requires k != "id" && k != "status" && k != "created_at"
    ensures var rec := HandleSubmit(formData, customer, env).record;
      (k in rec <==> k in formData) && Get(rec, k) == Get(formData, k)
  {
    SubmittedRecord(formData, customer, env);
  }

  /** Editing a customer whose name is a string that is not blank and
      submitting the form as it opens is accepted, with the customer's
      fields and its id, status and creation time. */
  lemma EditRoundTrip(customer: Obj, env: Env)
    requires Get(customer, "name").Str? && !Text.Blank(Get(customer, "name").s)
    requires Truthy(Get(customer, "id")) && Truthy(Get(customer, "status")) && Truthy(Get(customer, "created_at"))
    ensures HandleSubmit(Prefill(Some(customer)), Some(customer), env).Submitted?
    ensures var rec := HandleSubmit(Prefill(Some(customer)), Some(customer), env).record;
      && rec.Keys == {"name", "description", "mobile", "id", "status", "created_at"}
      && Get(rec, "name") == Get(customer, "name")
      && Get(rec, "id") == Get(customer, "id")
      && Get(rec, "status") == Get(customer, "status")
      && Get(rec, "created_at") == Get(customer, "created_at")
  {
    var f := Prefill(Some(customer));
    assert Get(f, "name") == Get(customer, "name") by {
      assert Get(customer, "name") != Str([]) by {
        assert Text.Blank([]);
      }
    }
    AcceptedDefaults(f, Some(customer), env);
    AcceptedKeepsFields(f, Some(customer), env, "name");
  }

  /** The row `handleAddCustomer` inserts for an accepted new customer
      carries the record's id, which is never empty, the entered name and
      status 'active'. */
  lemma SubmitThenInsert(formData: Obj, env: Env, insertEnv: Env)
    requires HandleSubmit(formData, None, env).Submitted?
    ensures var rec := HandleSubmit(formData, None, env).record;
      var row := DataContext.CustomerInsert(rec, insertEnv);
      && Get(row, "id") == Str(GenerateCustomerId(env)) && GenerateCustomerId(env) != []
      && Get(row, "name") == Get(formData, "name")
      && Get(row, "status") == Str("active")
  {
    var rec := HandleSubmit(formData, None, env).record;
    AcceptedDefaults(formData, None, env);
    AcceptedKeepsFields(formData, None, env, "name");
    GeneratedIdShapes(env);
    DataContext.CustomerInsertKeepsFields(rec, insertEnv);
  }

  /** What `handleUpdateCustomer` sends for an accepted edit: the customer's
      id and status and the entered name, and no creation time, so the
      stored one stays. */
  lemma SubmitThenUpdate(formData: Obj, customer: Obj, env: Env)
    requires HandleSubmit(formData, Some(customer), env).Submitted?
    requires Truthy(Get(customer, "id")) && Truthy(Get(customer, "status"))
    ensures var sent := DataContext.CustomerUpdate(HandleSubmit(formData, Some(customer), env).record);
      && "created_at" !in sent
      && Get(sent, "id") == Get(customer, "id")
      && Get(sent, "status") == Get(customer, "status")
      && Get(sent, "name") == Get(formData, "name")
  {
    AcceptedDefaults(formData, Some(customer), env);
    AcceptedKeepsFields(formData, Some(customer), env, "name");
  }
}
