/** src/helper.rs: the three polling loops against their deadlines. What a poll sees is up to the
    other processes, here a function of the poll's number; a sleep may last longer than asked. */
module Waiting {
  import opened Outcomes

  const POLL_MILLIS: int := 100
  const READY_POLL_MILLIS: int := 50
  const READY_LIMIT_MILLIS: int := 30_000

  datatype ExitVerdict = Cancelled | ParentGone | ExitTimedOut

  datatype ConfirmVerdict = Confirmed | ChildGone | ConfirmTimedOut

  datatype ReadyVerdict = HelperIsReady | HelperDied | ReadyTimedOut

  /** Neither of two observations was made in the first `n` polls. */
  predicate NothingSeen(a: nat -> bool, b: nat -> bool, n: nat) {
    forall k: nat | k < n :: !a(k) && !b(k)
  }

  /** Wait for the parent's exit: at most ten polls a second and one more, the marker read before
      each look at the parent and once more after its exit has been seen. */
  method WaitForExit(timeoutSecs: nat, cancel: nat -> bool, gone: nat -> bool, cancelAfterExit: bool, late: nat -> nat)
    returns (verdict: ExitVerdict, polls: nat)
    ensures 1 <= polls <= 10 * timeoutSecs + 1
    ensures NothingSeen(cancel, gone, polls - 1)
    ensures verdict == ParentGone <==> !cancel(polls - 1) && gone(polls - 1) && !cancelAfterExit
    ensures verdict == ExitTimedOut <==> !cancel(polls - 1) && !gone(polls - 1)
    ensures verdict == ExitTimedOut ==> Slept(100, late, polls - 1) >= 1000 * timeoutSecs
    ensures forall k: nat | k < polls - 1 :: Slept(100, late, k) < 1000 * timeoutSecs
  {
    var now, deadline := 0, 1000 * timeoutSecs;
    polls := 0;
    while true
      invariant POLL_MILLIS * polls <= now
      invariant polls <= 10 * timeoutSecs
      invariant NothingSeen(cancel, gone, polls)
      invariant now == Slept(POLL_MILLIS, late, polls)
      invariant forall k: nat | k < polls :: Slept(100, late, k) < 1000 * timeoutSecs
      decreases 10 * timeoutSecs - polls
    {
      polls := polls + 1;
      if cancel(polls - 1) { return ExitVerdict.Cancelled, polls; }
      if gone(polls - 1) { break; }
      if now >= deadline { return ExitTimedOut, polls; }
      now := now + POLL_MILLIS + late(polls - 1);
    }
    if cancelAfterExit { return ExitVerdict.Cancelled, polls; }
    return ParentGone, polls;
  }

  /** Wait for the restarted application to confirm: a confirmation that a poll finds is honoured
      even if the application has exited by then. */
  method WaitForConfirmation(timeoutSecs: nat, confirmed: nat -> bool, childGone: nat -> bool, late: nat -> nat)
    returns (verdict: ConfirmVerdict, polls: nat)
    ensures 1 <= polls <= 10 * timeoutSecs + 1
    ensures NothingSeen(confirmed, childGone, polls - 1)
    ensures verdict == Confirmed <==> confirmed(polls - 1)
    ensures verdict == ChildGone <==> !confirmed(polls - 1) && childGone(polls - 1)
    ensures verdict == ConfirmTimedOut ==> Slept(100, late, polls - 1) >= 1000 * timeoutSecs
    ensures forall k: nat | k < polls - 1 :: Slept(100, late, k) < 1000 * timeoutSecs
  {
    var now, deadline := 0, 1000 * timeoutSecs;
    polls := 0;
    while true
      invariant POLL_MILLIS * polls <= now
      invariant polls <= 10 * timeoutSecs
      invariant NothingSeen(confirmed, childGone, polls)
      invariant now == Slept(POLL_MILLIS, late, polls)
      invariant forall k: nat | k < polls :: Slept(100, late, k) < 1000 * timeoutSecs
      decreases 10 * timeoutSecs - polls
    {
      polls := polls + 1;
      if confirmed(polls - 1) { return Confirmed, polls; }
      if childGone(polls - 1) { return ChildGone, polls; }
      if now >= deadline { return ConfirmTimedOut, polls; }
      now := now + POLL_MILLIS + late(polls - 1);
    }
  }

  /** The parent's wait for the helper to say that it is ready, at most 600 polls. */
  method WaitForReady(ready: nat -> bool, helperDied: nat -> bool, late: nat -> nat)
    returns (verdict: ReadyVerdict, polls: nat)
    ensures 1 <= polls <= 600
    ensures NothingSeen(ready, helperDied, polls - 1)
    ensures verdict == HelperIsReady <==> ready(polls - 1)
    ensures verdict == ReadyTimedOut <==> NothingSeen(ready, helperDied, polls)
    ensures verdict == ReadyTimedOut ==> Slept(50, late, polls) >= 30_000
    ensures forall k: nat | k < polls :: Slept(50, late, k) < 30_000
  {
    var now := 0;
    polls := 0;
    while now < READY_LIMIT_MILLIS
      invariant READY_POLL_MILLIS * polls <= now
      invariant polls <= 600 && (polls == 0 ==> now == 0)
      invariant NothingSeen(ready, helperDied, polls)
      invariant now == Slept(READY_POLL_MILLIS, late, polls)
      invariant forall k: nat | k < polls :: Slept(50, late, k) < 30_000
      decreases 600 - polls
    {
      polls := polls + 1;
      if ready(polls - 1) { return HelperIsReady, polls; }
      if helperDied(polls - 1) { return HelperDied, polls; }
      now := now + READY_POLL_MILLIS + late(polls - 1);
    }
    return ReadyTimedOut, polls;
  }
}
