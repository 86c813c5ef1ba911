/** What several components share. */
module Common {

  datatype Option<+T> = None | Some(value: T)

  predicate Distinct<T(==)>(s: seq<T>) {
    forall j, k | 0 <= j < k < |s| :: s[j] != s[k]
  }

  function Product(a: nat, b: nat): nat { a * b }

  lemma AddProduct(n: nat, c: nat)
    ensures n * c + c == (n + 1) * c
  {
  }

  lemma SplitProduct(a: nat, b: nat, c: nat)
    ensures a * c + b * c == (a + b) * c == c * (a + b)
  {
  }
}
