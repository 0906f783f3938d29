/** What several of the models share. */
module Common {

  datatype Option<+T> = None | Some(value: T)

  const INT_MAX: nat := 0x7FFF_FFFF

  const NUL: char := '\0'

  function Max(a: nat, b: nat): nat { if a > b then a else b }

  predicate PowerOf2(n: nat)
    decreases n
  {
    n == 1 || (n > 1 && n % 2 == 0 && PowerOf2(n / 2))
  }
}
