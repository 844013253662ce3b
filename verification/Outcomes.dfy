/** Vocabulary shared by every part of the model: optional values, and what can happen to one
    remote call. */
module Outcomes {

  datatype Option<+T> = None | Some(value: T)

  /** What the network does to one call.
      - Done: the other side carried it out and the caller saw success.
      - Failed: the other side did nothing and the caller saw an error.
      - Lost: the other side carried it out but the reply was lost, so the caller saw an error. */
  datatype Outcome = Done | Failed | Lost {

    /** What the caller sees. */
    predicate Ok() {
      Done?
    }

    /** What the other side did. */
    predicate Effective() {
      !Failed?
    }
  }
}
