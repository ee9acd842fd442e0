/** Failures of the platform. */
module Faults {

  /** Whether the platform fails the next call; a reliable one never does. */
  method Fault(reliable: bool) returns (fault: bool)
    ensures reliable ==> !fault
  {
    fault := *;
    fault := fault && !reliable;
  }
}
