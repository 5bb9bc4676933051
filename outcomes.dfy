/** The result of an operation that either completes or stops with a message
    (an error printed before the process exits, or an exception thrown). */
module Outcomes {
  datatype Outcome = Pass | Fail(message: string)
}
