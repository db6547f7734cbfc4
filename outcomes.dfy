/** What a handler reports back, in place of its flash message and redirect. */
module Outcomes {

  import opened Schema
  import opened Forms

  datatype Outcome =
    | Ok
    | NotFound              // `abort(404)` or `get_or_404`
    | InUse                 // refused: the row is still referenced
    | Duplicate             // refused: the name or the part id is taken
    | Invalid(errors: seq<FormError>)  // the submitted form does not validate
    | NoRoute               // the part has no route template
    | Rejected              // the stage is not in the route or is already completed
    | Unchanged             // the submitted value equals the stored one

  /** The tables a request leaves behind and what it reports. */
  datatype Step = Step(db: Tables, out: Outcome)
}
