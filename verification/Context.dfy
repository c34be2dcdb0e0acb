/** Values that may be missing. */
module Options {

  datatype Option<T> = None | Some(value: T)
}

/** Operation contexts. */
module Contexts {

  /** An operation context. It ends after some number of checks that nobody knows
      beforehand, and stays ended. */
  class Ctx {
    var budget: nat

    constructor (budget: nat)
      ensures this.budget == budget
    {
      this.budget := budget;
    }

    method Err() returns (ended: bool)
      modifies this
      ensures ended ==> budget == old(budget) == 0
      ensures !ended ==> budget < old(budget)
    {
      ended := budget == 0;
      if !ended {
        budget := budget - 1;
      }
    }
  }
}
