/** What a step of a worker may meet: nothing, an exception, or the end of the process. */
module Faults {
  datatype Signal = Ok | Raised | Crashed {
    predicate IsFailure() {
      !Ok?
    }

    function PropagateFailure(): Signal {
      this
    }
  }
}
