/** Fixed-width unsigned integers and the two bit tricks of the shared queue:
    `c & (c - 1)` as a power-of-two test and `x & (c - 1)` as a remainder. */
module MachineWords {

  const TWO_32: int := 0x1_0000_0000
  const TWO_64: int := 0x1_0000_0000_0000_0000

  type uint8 = x: int | 0 <= x < 0x100
  type uint16 = x: int | 0 <= x < 0x1_0000
  type uint32 = x: int | 0 <= x < 0x1_0000_0000
  type uint64 = x: int | 0 <= x < 0x1_0000_0000_0000_0000
  type int32 = x: int | -0x8000_0000 <= x < 0x8000_0000

  /** Unsigned 64-bit addition and subtraction wrap around. */
  function Add64(x: uint64, y: uint64): uint64 {
    if x + y < TWO_64 then x + y else x + y - TWO_64
  }

  function Sub64(x: uint64, y: uint64): uint64 {
    if x >= y then x - y else x - y + TWO_64
  }

  /** Bitwise conjunction, bit by bit from the least significant one. */
  function BitAnd(x: nat, y: nat): nat {
    if x == 0 || y == 0 then 0 else 2 * BitAnd(x / 2, y / 2) + (x % 2) * (y % 2)
  }

  function Pow2(k: nat): (r: nat)
    ensures r >= 1
  {
    if k == 0 then 1 else 2 * Pow2(k - 1)
  }

  ghost predicate IsPow2(c: nat) {
    exists k: nat :: c == Pow2(k)
  }

  lemma {:induction false} BitAndSelf(x: nat)
    ensures BitAnd(x, x) == x
  {
    if x == 0 {
    } else {
      BitAndSelf(x / 2);
    }
  }

  /** The creation check `(c & (c - 1)) == 0` admits exactly 0 and the powers of two. */
  lemma PowerOfTwoTest(c: uint64)
    ensures BitAnd(c, Sub64(c, 1)) == 0 <==> c == 0 || IsPow2(c)
  {
    if c != 0 {
      PowerOfTwoTestPositive(c);
    }
  }

  lemma {:induction false} PowerOfTwoTestPositive(c: nat)
    requires c > 0
    ensures BitAnd(c, c - 1) == 0 <==> IsPow2(c)
  {
    if c == 1 {
      assert Pow2(0) == 1;
    } else if c % 2 == 1 {
      BitAndSelf(c / 2);
      assert (c - 1) / 2 == c / 2;
      if k: nat :| c == Pow2(k) {
        assert false;
      }
    } else {
      PowerOfTwoTestPositive(c / 2);
      assert (c - 1) / 2 == c / 2 - 1;
      if k: nat :| c == Pow2(k) {
        assert k > 0 && c / 2 == Pow2(k - 1);
      }
      if k: nat :| c / 2 == Pow2(k) {
        assert c == Pow2(k + 1);
      }
    }
  }

  lemma {:induction false} Pow2Grows(j: nat, k: nat)
    requires j <= k
    ensures Pow2(j) <= Pow2(k)
  {
    if j == k {
    } else {
      Pow2Grows(j, k - 1);
    }
  }

  lemma {:induction false} Pow2Add(j: nat, k: nat)
    ensures Pow2(j + k) == Pow2(j) * Pow2(k)
  {
    if j == 0 {
    } else {
      Pow2Add(j - 1, k);
    }
  }

  lemma Pow2Square(k: nat, v: nat)
    requires Pow2(k) == v
    ensures Pow2(k + k) == v * v
  {
    Pow2Add(k, k);
  }

  lemma Pow2Of4()
    ensures Pow2(4) == 0x10
  {}

  lemma Pow2Of64()
    ensures Pow2(64) == TWO_64
  {
    hide Pow2;
    Pow2Of4();
    Pow2Square(4, 0x10);
    Pow2Square(8, 0x100);
    Pow2Square(16, 0x1_0000);
    Pow2Square(32, 0x1_0000_0000);
  }

  /** A 64-bit power of two is at most 2^63. */
  lemma PowerFitsHalf(c: uint64)
    requires IsPow2(c)
    ensures c <= 0x8000_0000_0000_0000
  {
    var k: nat :| c == Pow2(k);
    Pow2Of64();
    assert Pow2(64) == 2 * Pow2(63);
    if k <= 63 {
      Pow2Grows(k, 63);
    } else {
      Pow2Grows(64, k);
    }
  }

  /** Masking with `c - 1` is the remainder modulo `c` whenever `c` is a power of two. */
  lemma MaskIsMod(x: nat, c: nat)
    requires c > 0 && IsPow2(c)
    ensures BitAnd(x, c - 1) == x % c < c
  {
    var k: nat :| c == Pow2(k);
    MaskIsModPow(x, k);
  }

  lemma {:induction false} MaskIsModPow(x: nat, k: nat)
    ensures BitAnd(x, Pow2(k) - 1) == x % Pow2(k)
  {
    if k == 0 {
      assert x % 1 == 0;
    } else if x == 0 {
      ModUnique(0, Pow2(k), 0, 0);
    } else {
      var c := Pow2(k - 1);
      calc {
        BitAnd(x, Pow2(k) - 1);
        { BitAndOnes(x, c); }
        2 * BitAnd(x / 2, c - 1) + x % 2;
        { MaskIsModPow(x / 2, k - 1); }
        2 * (x / 2 % c) + x % 2;
        { ModDouble(x, c); }
        x % Pow2(k);
      }
    }
  }

  lemma BitAndOnes(x: nat, c: nat)
    requires x > 0 && c > 0
    ensures BitAnd(x, 2 * c - 1) == 2 * BitAnd(x / 2, c - 1) + x % 2
  {}

  lemma ModDouble(x: nat, c: nat)
    requires c > 0
    ensures x % (2 * c) == 2 * (x / 2 % c) + x % 2
  {
    var q, r := x / 2 / c, x / 2 % c;
    assert x / 2 == c * q + r;
    assert 2 * c * q == 2 * (c * q);
    ModUnique(x, 2 * c, q, 2 * r + x % 2);
  }

  lemma MulAtLeast(d: nat, n: int)
    requires n >= 1
    ensures d * n >= d
  {}

  lemma ModUnique(x: nat, d: nat, q: nat, r: nat)
    requires r < d && x == d * q + r
    ensures x % d == r && x / d == q
  {
    var q', r' := x / d, x % d;
    assert x == d * q' + r';
    assert d * (q - q') == d * q - d * q' && d * (q' - q) == d * q' - d * q;
    if q > q' {
      MulAtLeast(d, q - q');
    } else if q < q' {
      MulAtLeast(d, q' - q);
    }
  }

  /** Indices less than `c` apart occupy different slots of a ring of `c` slots. */
  lemma SlotsDiffer(i: nat, j: nat, c: nat)
    requires i < j < i + c
    ensures i % c != j % c
  {
    var qi, qj := i / c, j / c;
    assert i == c * qi + i % c && j == c * qj + j % c;
    assert c * (qj - qi) == c * qj - c * qi && c * (qi - qj) == c * qi - c * qj;
    if qj > qi {
      MulAtLeast(c, qj - qi);
    } else if qj < qi {
      MulAtLeast(c, qi - qj);
    }
  }
}
