/** Bytes, machine words and bitwise operators over unbounded integers. */
module Bits {

  type byte = b: int | 0 <= b < 256

  datatype Option<+T> = None | Some(value: T)

  /** What a call comes to that may slice or index out of range: it panics, or returns. */
  datatype Attempt<+T> = Panics | Returns(value: T)

  /** Number of values of a `u32`. */
  const WORD: nat := 0x1_0000_0000

  function Min(a: int, b: int): int { if a < b then a else b }

  function Pow2(k: nat): (r: nat)
    ensures r > 0
  {
    if k == 0 then 1 else 2 * Pow2(k - 1)
  }

  /** `a & b`, bit by bit from the lowest. */
  function And(a: nat, b: nat): nat {
    if a == 0 || b == 0 then 0 else (a % 2) * (b % 2) + 2 * And(a / 2, b / 2)
  }

  /** `a ^ b` on the low `bits` bits. */
  function XorBits(a: nat, b: nat, bits: nat): (r: nat)
    ensures r < Pow2(bits)
  {
    if bits == 0 then 0
    else (if a % 2 == b % 2 then 0 else 1) + 2 * XorBits(a / 2, b / 2, bits - 1)
  }

  lemma {:induction false} XorCancels(a: nat, b: nat, bits: nat)
    requires a < Pow2(bits)
    ensures XorBits(XorBits(a, b, bits), b, bits) == a
  {
    if bits > 0 { XorCancels(a / 2, b / 2, bits - 1); }
  }

  lemma Pow2Of8() ensures Pow2(8) == 256 {
    assert Pow2(4) == 16;
  }

  /** `a ^ b` on bytes. */
  function Xor(a: byte, b: byte): byte {
    Pow2Of8();
    XorBits(a, b, 8)
  }

  lemma XorTwice(a: byte, b: byte)
    ensures Xor(Xor(a, b), b) == a
  {
    Pow2Of8();
    XorCancels(a, b, 8);
  }

  lemma {:induction false} Pow2Doubles(k: nat, j: nat)
    requires j <= k
    ensures Pow2(j) <= Pow2(k) && Pow2(k) % Pow2(j) == 0
  {
    if j < k {
      Pow2Doubles(k - 1, j);
      MulMod(2, Pow2(k - 1), Pow2(j));
    } else if k > 0 {
      Pow2Doubles(k - 1, k - 1);
    }
  }

  lemma MulMod(a: nat, x: nat, n: nat)
    requires n > 0 && x % n == 0
    ensures (a * x) % n == 0
  {
    assert x == n * (x / n);
    assert a * x == n * (a * (x / n));
    DivUnique(a * x, n, a * (x / n), 0);
  }

  lemma DivUnique(x: int, n: int, q: int, r: int)
    requires x == n * q + r && 0 <= r < n
    ensures x / n == q && x % n == r
  {
    var e := x / n - q;
    assert n * e == r - x % n by { assert x == n * (x / n) + x % n; }
    assert e >= 1 ==> n * e >= n;
    assert e <= -1 ==> n * e <= -n;
  }

  /** Masking with a power of two less one is the remainder: `x & (size - 1)`. */
  lemma {:induction false} MaskIsMod(x: nat, k: nat)
    ensures And(x, Pow2(k) - 1) == x % Pow2(k)
  {
    hide *;
    Pow2Step(k);
    if k == 0 {
      MaskNone(x);
    } else {
      var p := Pow2(k - 1);
      MaskIsMod(x / 2, k - 1);
      MaskStep(x, p);
      ModDouble(x, p);
    }
  }

  lemma Pow2Step(k: nat)
    ensures Pow2(k) == if k == 0 then 1 else 2 * Pow2(k - 1)
  {
  }

  lemma MaskNone(x: nat)
    ensures And(x, 0) == x % 1
  {
  }

  lemma MaskStep(x: nat, p: nat)
    requires p > 0
    ensures And(x, 2 * p - 1) == 2 * And(x / 2, p - 1) + x % 2
  {
    assert (2 * p - 1) % 2 == 1 && (2 * p - 1) / 2 == p - 1;
  }

  lemma ModDouble(x: nat, p: nat)
    requires p > 0
    ensures x % (2 * p) == 2 * (x / 2 % p) + x % 2
  {
    var h := x / 2;
    var q := h / p;
    assert h == p * q + h % p;
    assert x == 2 * h + x % 2;
    assert 2 * (p * q) == (2 * p) * q;
    DivUnique(x, 2 * p, q, 2 * (h % p) + x % 2);
  }

  lemma ModMod(x: nat, m: nat, n: nat)
    requires n > 0 && m > 0 && m % n == 0
    ensures (x % m) % n == x % n
  {
    var c := m / n;
    assert m == n * c;
    assert x == m * (x / m) + x % m;
    assert m * (x / m) == n * (c * (x / m));
    var y := x % m;
    assert y == n * (y / n) + y % n;
    assert x == n * (c * (x / m) + y / n) + y % n;
    DivUnique(x, n, c * (x / m) + y / n, y % n);
  }

  lemma ModDistinct(a: nat, b: nat, n: nat)
    requires a < b < a + n
    ensures a % n != b % n
  {
    var q, r, d := a / n, a % n, b - a;
    assert a == n * q + r;
    if r + d < n {
      DivUnique(b, n, q, r + d);
    } else {
      assert n * (q + 1) == n * q + n;
      DivUnique(b, n, q + 1, r + d - n);
    }
  }

  // ------------------------------------------------------------ u32 words

  /** `a.wrapping_add(b)` and `a.wrapping_sub(b)`. */
  function WAdd(a: nat, b: nat): nat { (a + b) % WORD }
  function WSub(a: int, b: int): nat { (a - b) % WORD }

  lemma WordOfSum(a: nat, b: nat)
    ensures WAdd(a % WORD, b) == (a + b) % WORD
  {
  }

  lemma WordSmall(a: int, b: int)
    requires 0 <= a - b < WORD
    ensures WSub(a, b) == a - b
  {
  }

  lemma WordDifference(a: nat, b: nat)
    requires b <= a < b + WORD
    ensures WSub(a % WORD, b % WORD) == a - b
  {
  }

  // ----------------------------------------------------- big-endian fields

  function Pow256(n: nat): (r: nat)
    ensures r > 0
  {
    if n == 0 then 1 else 256 * Pow256(n - 1)
  }

  /** Value of big-endian bytes. */
  function Be(s: seq<byte>): (v: nat)
    ensures v < Pow256(|s|)
  {
    if s == [] then 0
    else
      var last: nat := s[|s| - 1];
      Be(s[..|s| - 1]) * 256 + last
  }

  /** The low `n` bytes of `v`, big-endian. */
  function ToBe(v: nat, n: nat): (s: seq<byte>)
    ensures |s| == n
  {
    if n == 0 then [] else ToBe(v / 256, n - 1) + [v % 256]
  }

  lemma {:induction false} BeOfToBe(v: nat, n: nat)
    requires v < Pow256(n)
    ensures Be(ToBe(v, n)) == v
  {
    if n > 0 {
      BeOfToBe(v / 256, n - 1);
      assert ToBe(v, n)[..n - 1] == ToBe(v / 256, n - 1);
    }
  }

  lemma {:induction false} ToBeOfBe(s: seq<byte>)
    ensures ToBe(Be(s), |s|) == s
  {
    hide *;
    if s == [] {
    } else {
      var init, last: nat := s[..|s| - 1], s[|s| - 1];
      ToBeOfBe(init);
      BeStep(s);
      DivUnique(Be(s), 256, Be(init), last);
      ToBeStep(Be(s), |s|);
      assert s == init + [s[|s| - 1]];
    }
  }

  lemma BeStep(s: seq<byte>)
    requires s != []
    ensures var last: nat := s[|s| - 1]; Be(s) == 256 * Be(s[..|s| - 1]) + last
  {
  }

  lemma ToBeStep(v: nat, n: nat)
    requires n > 0
    ensures ToBe(v, n) == ToBe(v / 256, n - 1) + [v % 256]
  {
  }
}
