/** Types and helpers shared by the components. */
module Wrappers {
  datatype Option<+T> = None | Some(value: T)

  datatype Result<+T, +E> = Ok(value: T) | Err(error: E)

  /** A 128-bit identifier, of which only equality matters. */
  datatype Uuid = Uuid(bits: nat)

  lemma SameMap<K(!new), V>(a: map<K, V>, b: map<K, V>)
    requires forall k :: (k in a <==> k in b) && (k in a ==> a[k] == b[k])
    ensures a == b
  {
  }
}
