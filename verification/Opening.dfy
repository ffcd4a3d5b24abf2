/**
 Predicates that are carried along closed.

 `forall key :: Opened(key) ==> P` is P, but a proof sees what P says only where it mentions Opened.
 */
module Opening {
  predicate Opened(key: nat) { true }
}
