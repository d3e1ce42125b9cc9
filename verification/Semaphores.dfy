/** A counting semaphore in place; blocking is the business of the transition systems. */
module Semaphores {
  class Semaphore {
    var value: nat

    constructor (initial: nat)
      ensures value == initial
    {
      value := initial;
    }

    /** The wait operation at the moment it succeeds. */
    method P()
      requires value > 0
      modifies this
      ensures value == old(value) - 1
    {
      value := value - 1;
    }

    method V()
      modifies this
      ensures value == old(value) + 1
    {
      value := value + 1;
    }
  }
}
