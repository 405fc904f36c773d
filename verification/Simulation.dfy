/**
 Vocabulary shared by the component models: optional values and the 48-bit
 station addresses that frames carry.  Simulated time is a `real`.
 */
module Simulation {

  datatype Option<+T> = None | Some(value: T)

  /** A station address read as one 48-bit number, first octet most significant. */
  type Address = a: nat | a < 0x1_0000_0000_0000

  const BROADCAST: Address := 0xFFFF_FFFF_FFFF
  const UNSPECIFIED: Address := 0

  function Max(x: real, y: real): real {
    if x < y then y else x
  }
}
