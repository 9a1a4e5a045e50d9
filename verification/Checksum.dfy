/**
  The internet checksum of RFC 1071 as the Retry path computes it: 16-bit words
  summed into a `u32`, folded, complemented.
 */
module Checksum {
  import opened Bits

  const ONES: nat := 0xffff

  // ----------------------------------------------------------- specification

  /** Sum of the big-endian 16-bit words, an odd last byte padded with zero. */
  function Sum16(s: seq<byte>): (r: nat)
    ensures 2 * r <= ONES * (|s| + 1)
  {
    if s == [] then 0
    else
      var hi: nat := s[0];
      if |s| == 1 then hi * 256
      else
        var lo: nat := s[1];
        hi * 256 + lo + Sum16(s[2..])
  }

  /** End-around-carry fold to 16 bits. */
  function Fold(acc: nat): (r: nat)
    ensures r <= ONES
    decreases acc
  {
    if acc <= ONES then acc else Fold(acc % 65_536 + acc / 65_536)
  }

  /** Folding keeps the residue modulo 0xffff, and reaches zero only from zero. */
  lemma {:induction false} FoldResidue(acc: nat)
    ensures Fold(acc) % ONES == acc % ONES && (Fold(acc) == 0 <==> acc == 0)
    decreases acc
  {
    if acc > ONES {
      var next := acc % 65_536 + acc / 65_536;
      FoldResidue(next);
      var k, q := next / ONES, acc / 65_536;
      assert next == ONES * k + next % ONES;
      assert acc == ONES * (k + q) + next % ONES;
      hide Fold;
      DivUnique(acc, ONES, k + q, next % ONES);
    }
  }

  /** What a receiver tests: the words, stored checksum included, sum to all ones. */
  predicate Verifies(total: nat) { Fold(total) == ONES }

  lemma VerifiesExactly(total: nat)
    ensures Verifies(total) <==> total > 0 && total % ONES == 0
  {
    FoldResidue(total);
  }

  lemma {:induction false} SumAppend(a: seq<byte>, b: seq<byte>)
    requires |a| % 2 == 0
    ensures Sum16(a + b) == Sum16(a) + Sum16(b)
  {
    if a == [] {
      assert a + b == b;
    } else {
      SumAppend(a[2..], b);
      assert (a + b)[2..] == a[2..] + b;
    }
  }

  /** A 16-bit value stored big-endian at `at`. */
  function Store16(f: seq<byte>, at: nat, v: nat): (r: seq<byte>)
    requires at + 2 <= |f| && v < 65_536
    ensures |r| == |f|
  {
    f[at := v / 256][at + 1 := v % 256]
  }

  /** Storing `c` in a zeroed, word-aligned field adds `c` to the sum. */
  lemma SumWithField(s: seq<byte>, at: nat, c: nat)
    requires at % 2 == 0 && at + 2 <= |s| && s[at] == 0 && s[at + 1] == 0 && c <= ONES
    ensures Sum16(Store16(s, at, c)) == Sum16(s) + c
  {
    var hi: byte, lo: byte := c / 256, c % 256;
    SumFieldOf(s, at, hi, lo);
  }

  lemma SumFieldOf(s: seq<byte>, at: nat, hi: byte, lo: byte)
    requires at % 2 == 0 && at + 2 <= |s| && s[at] == 0 && s[at + 1] == 0
    ensures var h: nat, l: nat := hi, lo; Sum16(s[at := hi][at + 1 := lo]) == Sum16(s) + (h * 256 + l)
  {
    var pre, post := s[..at], s[at + 2..];
    var zero: seq<byte>, word: seq<byte> := [0, 0] + post, [hi, lo] + post;
    SumPair(0, 0, post);
    SumPair(hi, lo, post);
    SumAppend(pre, zero);
    SumAppend(pre, word);
    hide Sum16;
    assert s == pre + zero;
    assert s[at := hi][at + 1 := lo] == pre + word;
  }

  lemma SumPair(hi: byte, lo: byte, rest: seq<byte>)
    ensures var h: nat, l: nat := hi, lo; Sum16([hi, lo] + rest) == h * 256 + l + Sum16(rest)
  {
    assert ([hi, lo] + rest)[2..] == rest;
  }

  // -------------------------------------------------------------------- code

  /** `fold_slice`: the words of `bytes` added to a wrapping `u32` accumulator. */
  method FoldSlice(acc0: nat, bytes: seq<byte>) returns (acc: nat)
    requires acc0 < WORD
    ensures acc == (acc0 + Sum16(bytes)) % WORD
    ensures acc0 + Sum16(bytes) < WORD ==> acc == acc0 + Sum16(bytes)
  {
    acc := acc0;
    var i := 0;
    while i + 1 < |bytes|
      invariant 0 <= i <= |bytes| && acc < WORD
      invariant (acc + Sum16(bytes[i..])) % WORD == (acc0 + Sum16(bytes)) % WORD
    {
      var hi: nat, lo: nat := bytes[i], bytes[i + 1];
      assert bytes[i..][2..] == bytes[i + 2..];
      WordOfSum(acc + (hi * 256 + lo), Sum16(bytes[i + 2..]));
      acc := WAdd(acc, hi * 256 + lo);
      i := i + 2;
    }
    if i < |bytes| {
      var hi: nat := bytes[i];
      acc := WAdd(acc, hi * 256);
    }
  }

  /** The folding loop shared by both checksums. */
  method FoldLoop(acc0: nat) returns (acc: nat)
    ensures acc == Fold(acc0)
  {
    acc := acc0;
    while acc > ONES
      invariant Fold(acc) == Fold(acc0)
    {
      acc := acc % 65_536 + acc / 65_536;
    }
  }

  /** `ones_complement_sum`; a slice this short cannot wrap the accumulator. */
  method OnesComplementSum(bytes: seq<byte>) returns (sum: nat)
    requires |bytes| <= 0x1_0000
    ensures sum == ONES - Fold(Sum16(bytes))
  {
    var acc := FoldSlice(0, bytes);
    var folded := FoldLoop(acc);
    sum := ONES - folded;
  }
}
