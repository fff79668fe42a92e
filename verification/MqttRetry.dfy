/** How long the MQTT task waits before it tries again: longer with each failure in a row, and part of
    the way at random. */
module MqttRetry {
  import opened Numerals

  const UINT32_MAX: nat := 0xFFFF_FFFF
  const RETRY_WAIT_MIN_MS: nat := 2000
  const RETRY_WAIT_MAX_MS: nat := 300000
  /** The task waits this much at a time, so that the application can stop it. */
  const WAIT_MS: nat := 1000

  function Min(a: nat, b: nat): nat { if a < b then a else b }

  /** The wait after n failures in a row and one more: doubled with each, up to the longest. */
  function Wait(n: nat, longest: nat): nat {
    Min(RETRY_WAIT_MIN_MS * Pow2(n), longest)
  }

  class Retry {
    /** The longest wait the application set, or 0. */
    const waitMax: nat
    /** retry_wait_ms and wait_left_ms */
    var next: nat
    var left: nat
    /** How many failures there have been in a row, and how long the task has waited since the last. */
    ghost var failures: nat
    ghost var waited: nat

    constructor (waitMax: nat)
      requires waitMax <= UINT32_MAX
      ensures this.waitMax == waitMax && failures == 0 && left == 0 && Valid()
    {
      this.waitMax := waitMax;
      next, left, failures, waited := RETRY_WAIT_MIN_MS, 0, 0, 0;
    }

    /** What was waited and what is left of a wait are half to all of what the failures in a row make
        it. */
    ghost predicate Valid()
      reads this
    {
      && waitMax <= UINT32_MAX && next <= UINT32_MAX && left <= Longest()
      && next == NextAfter(failures, Longest())
      && (failures > 0 ==> Wait(failures - 1, Longest()) / 2 <= waited + left <= Wait(failures - 1, Longest()))
    }

    function Longest(): nat {
      if waitMax != 0 then waitMax else RETRY_WAIT_MAX_MS
    }

    /** _schedule_retry(). What it makes of the thing's ID and the wait is whatever it is. */
    method Schedule()
      requires Valid()
      modifies this
      ensures Valid() && failures == old(failures) + 1 && waited == 0
      ensures Wait(old(failures), Longest()) / 2 <= left <= Wait(old(failures), Longest())
    {
      var longest := if waitMax != 0 then waitMax else RETRY_WAIT_MAX_MS;
      var wait := if next < longest then next else longest;
      NthWait(failures, longest);
      var hash: nat := *;
      left := wait / 2 + hash % (wait / 2 + 1);
      next := if wait > longest / 2 then longest else wait * 2;
      failures, waited := failures + 1, 0;
    }

    /** RECV_SUBACK, once the broker has granted the subscription: losing that is a new failure, the
        first in a row. */
    method Restart()
      requires Valid()
      modifies this`next, this`failures
      ensures Valid() && failures == 0
    {
      next, failures := RETRY_WAIT_MIN_MS, 0;
    }

    /** A turn of the task's loop spent waiting. */
    method Pass()
      requires Valid() && left > 0
      modifies this`left, this`waited
      ensures Valid() && waited + left == old(waited + left) && left == if old(left) <= WAIT_MS then 0 else old(left) - WAIT_MS
    {
      var turn := if left < WAIT_MS then left else WAIT_MS;
      left, waited := left - turn, waited + turn;
    }
  }

  /** The wait kept for the next failure, after n in a row. */
  function NextAfter(n: nat, longest: nat): nat {
    if n == 0 then RETRY_WAIT_MIN_MS else Min(2 * Min(NextAfter(n - 1, longest), longest), longest)
  }

  /** The wait doubles with each failure in a row, up to the longest. */
  lemma {:induction false} NthWait(n: nat, longest: nat)
    ensures Min(NextAfter(n, longest), longest) == Wait(n, longest)
  {
    if n > 0 {
      NthWait(n - 1, longest);
    }
  }
}
