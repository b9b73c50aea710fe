/** Shared by several components. */
module Common {
  datatype Option<+T> = None | Some(value: T)

  lemma ProductGrows(a: nat, b: nat, c: nat)
    ensures a <= b ==> a * c <= b * c
  {
  }
}
