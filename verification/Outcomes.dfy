/** The ways a call in the QR encoder can end. */
module Outcomes {

  // The encoder throws RangeError on bad arguments and Error when an internal assertion fails.
  datatype Outcome<+T> = Done(value: T) | RangeError | AssertionError
}
