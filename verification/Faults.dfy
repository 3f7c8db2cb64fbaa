/** API calls that may fail for no reason the caller can see. */
module Faults {

  /** Whether this call is lost, or its answer. */
  method Fails(faulty: bool) returns (fails: bool)
    ensures fails ==> faulty
  {
    fails := *;
    fails := fails && faulty;
  }
}
