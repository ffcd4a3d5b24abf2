/** The key operations a hash table is parameterised by: the virtual CalcKeyHash and EqualKeys. */
module HashKeys {
  import opened Words

  datatype KeyOps<!K> = KeyOps(equal: (K, K) -> bool, hash: K -> dword)

  /** What the table relies on: key equality is an equivalence, and equal keys hash alike. */
  ghost predicate Lawful<K(!new)>(ops: KeyOps<K>) {
    && (forall a :: ops.equal(a, a))
    && (forall a, b :: ops.equal(a, b) ==> ops.equal(b, a))
    && (forall a, b, c :: ops.equal(a, b) && ops.equal(b, c) ==> ops.equal(a, c))
    && (forall a, b :: ops.equal(a, b) ==> ops.hash(a) == ops.hash(b))
  }
}
