/** A wall clock that only `Sleep` moves: the caller is alone, and sleeps exactly as long as it asks. */
module Clocks {
  import opened Basics

  /** The loops that wait sleep for the whole wait, or for a tenth of a second if that is less. */
  function Nap(wait: real): real { Min(wait, 0.1) }

  class Clock {
    var now: real
    /** The longest time that was ever slept at a stretch. */
    ghost var longest: real

    constructor (now: real)
      ensures this.now == now && longest == 0.0
    {
      this.now, longest := now, 0.0;
    }

    method Sleep(seconds: real)
      requires seconds >= 0.0
      modifies this
      ensures now == old(now) + seconds
      ensures longest == if seconds > old(longest) then seconds else old(longest)
    {
      now := now + seconds;
      longest := if seconds > longest then seconds else longest;
    }
  }
}
