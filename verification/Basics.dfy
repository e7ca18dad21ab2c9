/** Vocabulary shared by every module: optional values, process ids and the monotonic clock. */
module Basics {

  datatype Option<+T> = None | Some(value: T)

  type Pid = nat

  /** A reading of the monotonic clock, in nanoseconds. */
  type Time = nat

  const SECOND: nat := 1_000_000_000
  const MILLISECOND: nat := 1_000_000

  /** Size of the unsigned 64-bit range in which the release build adds two second counts. */
  const U64_RANGE: nat := 0x1_0000_0000_0000_0000

  function Min(a: nat, b: nat): nat { if a <= b then a else b }

  function Max(a: nat, b: nat): nat { if a <= b then b else a }

  /** Subtraction that stops at zero. */
  function Monus(a: nat, b: nat): nat { if a <= b then 0 else a - b }
}
