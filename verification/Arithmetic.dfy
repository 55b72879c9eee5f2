/** Facts about numbers and sequences shared by the models. */
module Arithmetic {
  function Min(a: int, b: int): int {
    if a < b then a else b
  }

  lemma Associative<T>(a: seq<T>, b: seq<T>, c: seq<T>)
    ensures a + b + c == a + (b + c)
  {
  }
}
