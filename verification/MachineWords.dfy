/** Machine words, and what remains of a number modulo a power of two. */
module MachineWords {
  type U16 = x: int | 0 <= x < 0x1_0000
  type U32 = x: int | 0 <= x < 0x1_0000_0000

  function Low16(value: int): U16 { value % 0x1_0000 }

  function Low32(value: int): U32 { value % 0x1_0000_0000 }

  function Min(a: nat, b: nat): nat { if a <= b then a else b }

  /** The quotient, rounded up. */
  function CeilDiv(a: nat, b: nat): nat
    requires b > 0
  {
    (a + b - 1) / b
  }

  lemma CeilDivBounds(a: nat, b: nat)
    requires b > 0
    ensures a <= CeilDiv(a, b) * b < a + b
    ensures a > 0 ==> CeilDiv(a, b) > 0
  {
    if a > 0 { assert CeilDiv(a, b) != 0 by { assert a <= CeilDiv(a, b) * b; } }
  }

  function Power2(n: nat): (p: nat)
    ensures p > 0
  {
    if n == 0 then 1 else 2 * Power2(n - 1)
  }

  lemma PowersOfTwo()
    ensures Power2(8) == 0x100 && Power2(16) == 0x1_0000
  {
    assert Power2(4) == 16;
    assert Power2(12) == 0x1000;
  }

  lemma Of32(x: int, q: int, r: int)
    requires x == q * 0x1_0000_0000 + r && 0 <= r < 0x1_0000_0000
    ensures x % 0x1_0000_0000 == r
  {
  }

  lemma Of31(x: int, q: int, r: int)
    requires x == q * 0x8000_0000 + r && 0 <= r < 0x8000_0000
    ensures x % 0x8000_0000 == r
  {
  }

  lemma Of16(x: int, q: int, r: int)
    requires x == q * 0x1_0000 + r && 0 <= r < 0x1_0000
    ensures x % 0x1_0000 == r
  {
  }

  /** Doubling a number drops its top bit. */
  lemma Doubled32(n: int)
    ensures 2 * n % 0x1_0000_0000 == 2 * (n % 0x8000_0000)
    ensures (2 * n + 1) % 0x1_0000_0000 == 2 * (n % 0x8000_0000) + 1
  {
    var q, r := n / 0x8000_0000, n % 0x8000_0000;
    Of32(2 * n, q, 2 * r);
    Of32(2 * n + 1, q, 2 * r + 1);
  }

  lemma Difference31(a: int, b: int)
    ensures (b - a) % 0x8000_0000 == 0 <==> a % 0x8000_0000 == b % 0x8000_0000
  {
    var p, r := a / 0x8000_0000, a % 0x8000_0000;
    var q, s := b / 0x8000_0000, b % 0x8000_0000;
    if s >= r { Of31(b - a, q - p, s - r); } else { Of31(b - a, q - p - 1, s - r + 0x8000_0000); }
  }

  /** Additions may be done on the residues. */
  lemma Added16(n: int, k: int)
    ensures (n % 0x1_0000 + k) % 0x1_0000 == (n + k) % 0x1_0000
  {
    var q, p := n / 0x1_0000, (n % 0x1_0000 + k) / 0x1_0000;
    Of16(n + k, q + p, (n % 0x1_0000 + k) % 0x1_0000);
  }

  lemma Added32(n: int, k: int)
    ensures (n % 0x1_0000_0000 + k) % 0x1_0000_0000 == (n + k) % 0x1_0000_0000
  {
    var q, p := n / 0x1_0000_0000, (n % 0x1_0000_0000 + k) / 0x1_0000_0000;
    Of32(n + k, q + p, (n % 0x1_0000_0000 + k) % 0x1_0000_0000);
  }

  /** Different numbers less than a round apart leave different residues. */
  lemma Apart16(m: int, n: int)
    requires m < n < m + 0x1_0000
    ensures m % 0x1_0000 != n % 0x1_0000
    ensures n % 0x1_0000 > m % 0x1_0000 ==> n % 0x1_0000 - m % 0x1_0000 == n - m
  {
    var p, q := m / 0x1_0000, n / 0x1_0000;
    assert n - m == (q - p) * 0x1_0000 + (n % 0x1_0000 - m % 0x1_0000);
  }

  /** The difference of two residues is the residue of the difference. */
  lemma Subtracted32(m: int, n: int)
    ensures (n % 0x1_0000_0000 - m % 0x1_0000_0000) % 0x1_0000_0000 == (n - m) % 0x1_0000_0000
  {
    var d := n % 0x1_0000_0000 - m % 0x1_0000_0000;
    var p, q := m / 0x1_0000_0000, n / 0x1_0000_0000;
    Of32(n - m, q - p + d / 0x1_0000_0000, d % 0x1_0000_0000);
  }
}
