/** Result types shared by every module. */
module Outcomes {

  datatype Option<+T> = None | Some(value: T)

  /** The error kinds of src/error.rs that the modelled code distinguishes. */
  datatype Error =
    | Cancelled
    | Signature
    | Invalid
    | UnsafePath
    | SizeLimit
    | HashMismatch
    | Busy
    | HelperFailed
    | Recovery
    | Io

  datatype Result<+T> = Success(value: T) | Failure(error: Error)

  /** How a call that changes durable state ends. `Crashed` means that the process died
      inside the call: nothing after that point ran and all of its memory is lost. */
  datatype Outcome = Ok | Err(error: Error) | Crashed

  /** How long the first `n` pauses of a loop have lasted: each at least its nominal length. */
  function Slept(pause: nat, late: nat -> nat, n: nat): (total: nat)
    ensures total >= pause * n
  {
    if n == 0 then 0 else Slept(pause, late, n - 1) + pause + late(n - 1)
  }

  lemma SleptOnce(pause: nat, late: nat -> nat, n: nat)
    ensures Slept(pause, late, 0) == 0
    ensures Slept(pause, late, n + 1) == Slept(pause, late, n) + pause + late(n)
  {
  }
}
