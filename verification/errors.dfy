/** Error values of the evaluator.

    The source divides by zero in two places. On plain integer boxes both raise
    Python's ZeroDivisionError; on the numpy boxes of the XML loader the first
    division yields `nan` instead. The model keeps the two apart as errors, so
    that contracts can say which one happened.
 */
module Errors {

  datatype EvalError =
    /** Two overlapping boxes whose union has zero area: `cross / 0` in computeIOU. */
    | ZeroUnion
    /** No IoU was collected: `sum([]) / len([])` in evalue_accuracy. */
    | EmptyEvaluation

  datatype Result<+T> = Ok(value: T) | Err(error: EvalError)

}
