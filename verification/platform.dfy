/** Guid.NewGuid() and DateTime.Now, which the records call when they are
    built, held as explicit state: a counter of the identifiers handed out so
    far and the current reading of the clock. */
module Platform {

  class Runtime {
    /** Every identifier handed out so far is below this one. */
    var nextGuid: nat
    /** The clock, in ticks. */
    var now: int

    ghost predicate Valid()
      reads this
    {
      nextGuid >= 1
    }

    constructor (start: int)
      ensures Valid() && nextGuid == 1 && now == start
    {
      nextGuid := 1;
      now := start;
    }

    /** A fresh identifier: never Guid.Empty (0) and never handed out before. */
    method NewGuid() returns (g: nat)
      requires Valid()
      modifies this
      ensures Valid() && g == old(nextGuid) && g != 0 && nextGuid == g + 1 && now == old(now)
    {
      g := nextGuid;
      nextGuid := nextGuid + 1;
    }

    /** Time passing between operations (Thread.Sleep in the tests). */
    method Advance(ticks: nat)
      modifies this
      ensures now == old(now) + ticks && nextGuid == old(nextGuid)
    {
      now := now + ticks;
    }
  }
}
