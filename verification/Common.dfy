/** What several modules need. */
module Common {
  import TreeIndex

  datatype Option<T> = None | Some(value: T)

  /** The number of values of 32 bits. */
  const WRAP := 0x1_0000_0000

  /** Sums can be wrapped around early. */
  lemma WrapAdd(a: nat, b: nat)
    ensures (a % WRAP + b % WRAP) % WRAP == (a + b) % WRAP
  {
    var p, q, c := a / WRAP, b / WRAP, a % WRAP + b % WRAP;
    assert a == WRAP * p + a % WRAP && b == WRAP * q + b % WRAP && c == WRAP * (c / WRAP) + c % WRAP;
    TreeIndex.DivModUnique(a + b, WRAP, p + q + c / WRAP, c % WRAP);
  }
}
