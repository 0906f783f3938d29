/** Unsigned integers as byte strings, and two's complement reinterpretation. */
module ByteOrder {

  type byte = x: int | 0 <= x < 256
  type bytes = seq<byte>

  function Pow256(n: nat): (r: nat)
    ensures r > 0
  {
    if n == 0 then 1 else 256 * Pow256(n - 1)
  }

  /** n bytes, least significant first. */
  function Little(v: nat, n: nat): (b: bytes)
    ensures |b| == n
  {
    if n == 0 then [] else [v % 256] + Little(v / 256, n - 1)
  }

  function Value(b: bytes): nat {
    if b == [] then 0 else b[0] + 256 * Value(b[1..])
  }

  lemma {:induction false} ValueOfLittle(v: nat, n: nat)
    requires v < Pow256(n)
    ensures Value(Little(v, n)) == v
  {
    if n > 0 {
      ValueOfLittle(v / 256, n - 1);
      assert Little(v, n)[1..] == Little(v / 256, n - 1);
    }
  }

  lemma {:induction false} ValueSnoc(b: bytes, x: byte)
    ensures Value(b + [x]) == Value(b) + x * Pow256(|b|)
  {
    if b == [] {
      assert [x][1..] == [];
    } else {
      ValueSnoc(b[1..], x);
      assert x * Pow256(|b|) == 256 * (x * Pow256(|b| - 1));
      assert (b + [x])[1..] == b[1..] + [x];
    }
  }

  const TWO_TO_31: int := 0x8000_0000
  const TWO_TO_32: int := 0x1_0000_0000
  const TWO_TO_63: int := 0x8000_0000_0000_0000
  const TWO_TO_64: int := 0x1_0000_0000_0000_0000

  lemma Powers()
    ensures Pow256(4) == TWO_TO_32 && Pow256(8) == TWO_TO_64
  {
    assert Pow256(4) == TWO_TO_32;
  }

  /** Reinterpreting between signed and unsigned words of the given modulus. */
  function Wrap(i: int, m: int): (u: nat)
    requires m > 0
  {
    i % m
  }

  function Signed(u: nat, m: int): int {
    if u < m / 2 then u else u - m
  }

  /** Quotient and remainder are unique. */
  lemma ModUnique(x: int, n: int, q: int, r: int)
    requires n > 0 && x == q * n + r && 0 <= r < n
    ensures x % n == r
  {
    var k := x / n;
    assert x == n * k + x % n;
    assert (q - k) * n == x % n - r by { assert (q - k) * n == q * n - n * k; }
    SmallMultiple(q - k, n);
  }

  lemma SmallMultiple(d: int, n: int)
    requires n > 0 && -n < d * n < n
    ensures d == 0
  {
  }
}
