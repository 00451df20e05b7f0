/**
  Wrapping counters over fixed rings: facts that the pipe, the console and the disk queue share.
  `m` is the number of values of a counter and `size` the number of slots of a ring.
 */
module Counters {
  // No value occurs twice.
  ghost predicate Distinct(q: seq<int>) {
    forall i, j :: 0 <= i < j < |q| ==> q[i] != q[j]
  }

  // Quotient and remainder are unique.
  lemma DivMod(n: int, m: int, q: int, r: int)
    requires m > 0 && n == m * q + r && 0 <= r < m
    ensures n / m == q && n % m == r
  {
    var d := n / m - q;
    assert n == m * (n / m) + n % m;
    assert m * d == m * (n / m) - m * q;
    Multiple(m, d);
  }

  // A multiple of m strictly between -m and m is 0.
  lemma Multiple(m: int, d: int)
    requires m > 0 && -m < m * d < m
    ensures d == 0
  {
    assert d >= 1 ==> m * d >= m;
    assert d <= -1 ==> m * d <= -m;
  }

  // Adding a multiple of m changes nothing.
  lemma Shift(n: int, m: int, k: int)
    requires m > 0
    ensures (n + m * k) % m == n % m
  {
    assert n + m * k == m * (n / m + k) + n % m;
    DivMod(n + m * k, m, n / m + k, n % m);
  }

  /** A counter that wraps after whole turns of the ring leads to the same slot as an unbounded one. */
  lemma SameSlot(n: nat, size: nat, turns: nat)
    requires size > 0 && turns > 0
    ensures size * turns > 0 && (n % (size * turns)) % size == n % size
  {
    assert size * turns >= size by { assert size * (turns - 1) >= 0; }
    var m := size * turns;
    var q := n / m;
    assert n == m * q + n % m && m * q == size * (turns * q);
    Shift(n % m, size, turns * q);
  }

  lemma Step(n: nat, m: nat)
    requires m > 0
    ensures (n % m + 1) % m == (n + 1) % m
    ensures n > 0 ==> (n % m + m - 1) % m == (n - 1) % m
  {
    assert n + 1 == n % m + 1 + m * (n / m);
    Shift(n % m + 1, m, n / m);
    assert n - 1 == n % m + m - 1 + m * (n / m - 1);
    Shift(n % m + m - 1, m, n / m - 1);
  }

  /** Counts less than m apart have different remainders. */
  lemma Apart(a: nat, b: nat, m: nat)
    requires a < b < a + m
    ensures m > 0 && a % m != b % m
  {
    assert a == m * (a / m) + a % m && b == m * (b / m) + b % m;
    if a % m == b % m {
      var d := b / m - a / m;
      assert b - a == m * d;
      Multiple(m, d);
      assert false;
    }
  }

  /** The wrapped difference of counts less than m apart is their difference. */
  lemma Distance(a: nat, b: nat, m: nat)
    requires a <= b < a + m
    ensures m > 0 && (b % m + m - a % m) % m == b - a
  {
    var k := b / m - a / m;
    assert a == m * (a / m) + a % m && b == m * (b / m) + b % m;
    assert b % m + m - a % m == b - a + m * (1 - k);
    Shift(b - a, m, 1 - k);
    DivMod(b - a, m, 0, b - a);
  }
}
