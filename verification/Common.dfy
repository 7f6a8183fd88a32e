/** What several models share. */
module Wrappers {
  datatype Option<T> = None | Some(value: T)
}

module Arithmetic {

  /** One more than the largest uint32_t. */
  const U32 := 0x1_0000_0000

  lemma MulMonotone(a: nat, b: nat, c: nat)
    requires a <= b
    ensures a * c <= b * c
  {
  }
}
