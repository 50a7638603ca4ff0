/** Values shared by the merge-join model: tuples, join keys, operator
    statuses and the failures the operator can raise. */
module Types {

  datatype Option<+T> = None | Some(value: T)

  /** A field of a Pig tuple. The join only moves fields around, so three
      kinds are enough to tell fields apart. */
  datatype Datum = NullField | Number(i: int) | Text(s: string)

  type Tuple = seq<Datum>

  /** A join key: `None` stands for a null key, which makes a row unjoinable. */
  type Key = Option<int>

  /** A tuple reference that may be Java's null (the payload of a
      non-OK `Result`). */
  type Row = Option<Tuple>

  /** An operator `Result`: its `POStatus` together with the tuple it carries
      when the status is `STATUS_OK`. */
  datatype Result = Ok(t: Tuple) | Null | Eop | Err

  /** The exceptions `getNextTuple` can raise.
      NotSortedLeft, NotSortedRight: ExecException 1102.
      KeyPlanBroken: ExecException 2167 (key extraction did not yield a key).
      RightInputFailed: ExecException 2176 (right pipeline leaf gave ERR or NULL).
      PipelineShape: FrontendException 2168 (right plan without exactly one root and one leaf).
      NullDereference: a Java NullPointerException (a compareTo against a null
      key, or a null tuple reference taken from the state). */
  datatype Failure =
    | NotSortedLeft
    | NotSortedRight
    | KeyPlanBroken
    | RightInputFailed
    | PipelineShape
    | NullDereference

  /** What one call of `getNextTuple` does: returns a result, throws, or
      never returns at all. */
  datatype Outcome = Returned(r: Result) | Thrown(f: Failure) | Hang

  /** The output of the key-extraction plan (a `POLocalRearrange`) for one
      tuple: a key when its status is OK, otherwise a broken plan. */
  datatype KeyOut = KeyOk(k: Key) | KeyFailed

  /** What the optional right-side pipeline makes of one raw right tuple:
      one output tuple, nothing (its leaf answers EOP), or an ERR/NULL status. */
  datatype PipeOut = Pass(t: Tuple) | Drop | Broken

  /** The shape of a right-side pipeline plan. */
  datatype PipelinePlan = PipelinePlan(roots: nat, leaves: nat, transform: Tuple -> PipeOut)

  datatype Setup = Configured(pipeline: Option<Tuple -> PipeOut>) | Rejected(f: Failure)

  /** `setupRightPipeline`: a present plan must have exactly one root and one
      leaf; no plan means right tuples are used as the loader returns them. */
  function SetupRightPipeline(plan: Option<PipelinePlan>): (r: Setup)
    ensures r.Rejected? <==> plan.Some? && (plan.value.roots != 1 || plan.value.leaves != 1)
    ensures r.Rejected? ==> r.f == PipelineShape
    ensures r.Configured? ==> (r.pipeline.Some? <==> plan.Some?)
    ensures r.Configured? && plan.Some? ==>
              forall t :: r.pipeline.value(t) == plan.value.transform(t)
  {
    match plan
    case None => Configured(None)
    case Some(p) =>
      if p.roots != 1 || p.leaves != 1 then Rejected(PipelineShape)
      else Configured(Some(p.transform))
  }
}
