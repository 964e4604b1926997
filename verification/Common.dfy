/** Types shared by all parts. */
module Common {

  datatype Option<+T> = None | Some(value: T) {
    predicate IsFailure() {
      None?
    }

    function PropagateFailure<U>(): Option<U>
      requires None?
    {
      None
    }

    function Extract(): T
      requires Some?
    {
      value
    }
  }

  /** `&&` and `||` between pipelines. */
  datatype AndOrOp = OpAnd | OpOr
}
