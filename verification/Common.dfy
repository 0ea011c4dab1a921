/** Small types and facts shared by every part of the model. */
module Common {
  datatype Option<+T> = None | Some(value: T)

  /** An unsigned 8-bit value of the C sources. */
  type byte = i: int | 0 <= i < 256

  /** The terminator of a C string. */
  const NUL: char := 0 as char

  predicate NulFree(s: string) {
    forall k :: 0 <= k < |s| ==> s[k] != NUL
  }

  lemma {:induction false} Multiples(a: nat, b: nat, c: nat)
    requires a < b
    ensures a * c + c <= b * c
    decreases b
  {
    assert b * c == (b - 1) * c + c;
    if a + 1 < b { Multiples(a, b - 1, c); }
  }

  /** Quotient and remainder are the only numbers that can stand for them. */
  lemma QuotientIs(w: nat, c: nat, q: nat, r: nat)
    requires w == q * c + r && r < c
    ensures w / c == q && w % c == r
  {
    if q < w / c { Multiples(q, w / c, c); }
    if w / c < q { Multiples(w / c, q, c); }
  }
}
