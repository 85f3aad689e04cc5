/**
 Keys that keep large definitions folded.  A predicate of the form
 "forall key :: Open(tag, key) ==> body" means the same as body, but the verifier
 looks inside only where a proof mentions Open with the predicate's tag.
 */
module Folding {
  predicate Open(tag: nat, key: int) {
    true
  }

  const TERM: nat := 1
  const TERMS: nat := 2
  const ARG: nat := 3
  const ARGS: nat := 4
  const READY: nat := 5
  const INDEX: nat := 6
  const ORDER: nat := 7
  const BUILT: nat := 8
  const AT: nat := 9
  const WRITTEN: nat := 10
  const CODE: nat := 11
  const GOING: nat := 12
  const TURNING: nat := 13
  const DOES: nat := 14
  const HEAP: nat := 15
  const CHAIN: nat := 16
  const ARENA: nat := 17
  const LINKED: nat := 18
  const BUILDING: nat := 19
  const TREE: nat := 20
  const SOUND: nat := 21
  const NEUTRAL: nat := 22
  const LOCKED: nat := 23
  const STORED: nat := 24
  const PATH: nat := 25
  const GOES: nat := 26
  const CLOSED: nat := 27
  const NAMED: nat := 28
  const EFFECT: nat := 29
  const ACCESS: nat := 30
  const CAN: nat := 31
}
