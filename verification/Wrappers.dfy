/** The optional value, and a key for definitions that proofs unfold only on demand. */
module Wrappers {
  datatype Option<+T> = None | Some(value: T)

  /** A predicate of the form `forall key {:trigger Unlock(key)} :: Unlock(key) ==> ...` says what
      follows the arrow, but a proof only sees that after `assert Unlock(0)`. */
  predicate Unlock(key: nat) {
    true
  }
}
