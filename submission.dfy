/** What a form's `handleSubmit` does with its state: it shows an error
    toast and returns, it hands a record to `onSubmit`, or it stops on a
    `TypeError` before either. */
module Submission {
  import opened JsValues
  import Text

  datatype Outcome = Rejected(message: string) | Submitted(record: Obj) | Threw

  /** `o?.k` for an optional object: `undefined` when there is none. */
  function Field(o: Option<Obj>, k: string): (r: Val)
  {
    match o
    case None => Undefined
    case Some(x) => Get(x, k)
  }

  /** `new Date().toISOString().split('T')[0]`: the date part of the current
      instant. */
  function Today(nowIso: string): string
  {
    Text.BeforeFirst(nowIso, 'T')
  }
}
