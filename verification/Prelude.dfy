/** Small value types shared by every module. */
module Prelude {
  datatype Option<+T> = None | Some(value: T)

  datatype Result<+T, +E> = Ok(value: T) | Err(error: E)

  const PAGE_SIZE: nat := 4096
  const U64_MAX: nat := 0xFFFF_FFFF_FFFF_FFFF

  /** `2^k`. */
  function Pow2(k: nat): (r: nat)
    ensures r > 0
  {
    if k == 0 then 1 else 2 * Pow2(k - 1)
  }

  lemma {:induction false} Pow2Monotone(j: nat, k: nat)
    requires j <= k
    ensures Pow2(j) <= Pow2(k)
    ensures j < k ==> 2 * Pow2(j) <= Pow2(k)
    decreases k - j
  {
    if j < k {
      Pow2Monotone(j + 1, k);
    }
  }

  predicate Differ<T(==)>(s: seq<T>, i: int, j: int) {
    0 <= i < |s| && 0 <= j < |s| && s[i] != s[j]
  }

  /** No element occurs twice. */
  predicate Distinct<T(==)>(s: seq<T>) {
    forall i, j {:trigger Differ(s, i, j)} :: 0 <= i < |s| && 0 <= j < |s| && i != j ==> Differ(s, i, j)
  }

  function Min(a: int, b: int): int {
    if a <= b then a else b
  }

  function Max(a: int, b: int): int {
    if a <= b then b else a
  }
}
