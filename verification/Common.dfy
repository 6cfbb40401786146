/** Small shared definitions: optional values, powers of two and sums over an index range. */
module Common {

  datatype Option<+T> = None | Some(value: T)

  type bit = b: int | 0 <= b <= 1

  type byte = x: int | 0 <= x < 256

  /** A raw 64-bit sample. */
  type word = x: int | 0 <= x < 0x1_0000_0000_0000_0000

  function Pow2(n: nat): (r: nat)
    ensures r > 0
  {
    if n == 0 then 1 else 2 * Pow2(n - 1)
  }

  function Max(a: int, b: int): int {
    if a < b then b else a
  }

  function Min(a: int, b: int): int {
    if b < a then b else a
  }

  // ---- remainders ----

  lemma ModIs(a: int, n: nat, q: int, r: nat)
    requires n > 0 && a == q * n + r && r < n
    ensures a % n == r && a / n == q
  {
    var d := q - a / n;
    assert d * n == a % n - r;
    assert d > 0 ==> d * n >= n;
    assert d < 0 ==> d * n <= -(n as int);
  }

  lemma ModSmall(v: nat, n: nat)
    requires v < n
    ensures v % n == v
  {
    ModIs(v, n, 0, v);
  }

  lemma ModPlusMultiple(a: int, k: int, n: nat)
    requires n > 0
    ensures (a + k * n) % n == a % n
  {
    var q := a / n;
    assert a + k * n == (q + k) * n + a % n;
    ModIs(a + k * n, n, q + k, a % n);
  }

  /** Reducing a summand first changes nothing. */
  lemma ModAdd(a: int, b: int, n: nat)
    requires n > 0
    ensures (a % n + b) % n == (a + b) % n
  {
    assert a == (a / n) * n + a % n;
    ModPlusMultiple(a % n + b, a / n, n);
  }
}
