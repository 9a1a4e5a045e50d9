/**
  The payload ciphers of QUIC-LB connection IDs (section 5 of
  draft-ietf-quic-load-balancers-21): one AES block, or a four-pass Feistel
  network. AES itself is an arbitrary pair of block functions.
 */
module Cipher {
  import opened Bits

  const ZERO_BLOCK: seq<byte> := [0, 0, 0, 0, 0, 0, 0, 0, 0, 0, 0, 0, 0, 0, 0, 0]

  type Block = s: seq<byte> | |s| == 16 witness ZERO_BLOCK

  datatype Aes = Aes(encrypt: Block -> Block, decrypt: Block -> Block) {
    /** What is assumed of AES: decryption undoes encryption. */
    ghost predicate Inverse() {
      forall b: Block :: decrypt(encrypt(b)) == b
    }
  }

  // ---------------------------------------------------------- specification

  /** Round block of pass `i`: the half copied over a zero block, `i` folded into byte 0.
      The block has no slice for a half of more than 16 bytes. */
  function RoundBlock(half: seq<byte>, i: byte): (r: Attempt<Block>)
    ensures r.Returns? <==> |half| <= 16
  {
    if |half| > |ZERO_BLOCK| then Panics
    else
      var b := half + ZERO_BLOCK[|half|..];
      Returns(b[0 := Xor(b[0], i)])
  }

  /** `for j in 0..dst.len() { dst[j] ^= mask[j] }`. */
  function XorEach(dst: seq<byte>, mask: seq<byte>): (r: Attempt<seq<byte>>)
    ensures r.Returns? <==> |dst| <= |mask|
    ensures r.Returns? ==> |r.value| == |dst| && forall j :: 0 <= j < |dst| ==> r.value[j] == Xor(dst[j], mask[j])
  {
    if dst == [] then Returns([])
    else if mask == [] then Panics
    else
      match XorEach(dst[1..], mask[1..])
      case Panics => Panics
      case Returns(rest) => Returns([Xor(dst[0], mask[0])] + rest)
  }

  function Pass(p: seq<byte>, sid: nat, i: byte, aes: Aes): (r: Attempt<seq<byte>>)
    requires sid <= |p|
    ensures r.Returns? ==> |r.value| == |p|
  {
    var left, right := p[..sid], p[sid..];
    if i % 2 == 0 then
      match RoundBlock(right, i)
      case Panics => Panics
      case Returns(block) =>
        match XorEach(left, aes.encrypt(block))
        case Panics => Panics
        case Returns(x) => Returns(x + right)
    else
      match RoundBlock(left, i)
      case Panics => Panics
      case Returns(block) =>
        match XorEach(right, aes.encrypt(block))
        case Panics => Panics
        case Returns(x) => Returns(left + x)
  }

  /** Passes one after the other. */
  function Passes(p: seq<byte>, sid: nat, order: seq<byte>, aes: Aes): (r: Attempt<seq<byte>>)
    requires sid <= |p|
    ensures r.Returns? ==> |r.value| == |p|
    decreases |order|
  {
    if order == [] then Returns(p)
    else
      match Pass(p, sid, order[0], aes)
      case Panics => Panics
      case Returns(q) => Passes(q, sid, order[1..], aes)
  }

  const UP: seq<byte> := [0, 1, 2, 3]
  const DOWN: seq<byte> := [3, 2, 1, 0]

  function Encrypt4(p: seq<byte>, sid: nat, aes: Aes): Attempt<seq<byte>>
    requires sid <= |p|
  {
    Passes(p, sid, UP, aes)
  }

  function Decrypt4(p: seq<byte>, sid: nat, aes: Aes): Attempt<seq<byte>>
    requires sid <= |p|
  {
    Passes(p, sid, DOWN, aes)
  }

  // ------------------------------------------------------- when passes panic

  /** Every pass puts one half into the block and the block over the other, so whichever
      half is too long, every pass panics. */
  lemma PassPanicsExactly(p: seq<byte>, sid: nat, i: byte, aes: Aes)
    requires sid <= |p|
    ensures Pass(p, sid, i, aes).Panics? <==> sid > 16 || |p| - sid > 16
  {
  }

  lemma {:induction false} PassesPanicExactly(p: seq<byte>, sid: nat, order: seq<byte>, aes: Aes)
    requires sid <= |p|
    ensures Passes(p, sid, order, aes).Panics? <==> order != [] && (sid > 16 || |p| - sid > 16)
    decreases |order|
  {
    if order != [] {
      PassPanicsExactly(p, sid, order[0], aes);
      var m := Pass(p, sid, order[0], aes);
      hide Pass;
      if m.Returns? { PassesPanicExactly(m.value, sid, order[1..], aes); }
    }
  }

  // ------------------------------------------------------------- inversion

  lemma XorEachTwice(dst: seq<byte>, mask: seq<byte>)
    requires |dst| <= |mask|
    ensures XorEach(XorEach(dst, mask).value, mask) == Returns(dst)
  {
    var x := XorEach(dst, mask).value;
    forall j | 0 <= j < |dst| ensures XorEach(x, mask).value[j] == dst[j] {
      XorTwice(dst[j], mask[j]);
    }
    assert XorEach(x, mask).value == dst;
  }

  /** Every pass that returns is undone by itself, for every block function whatever. */
  lemma PassTwice(p: seq<byte>, sid: nat, i: byte, aes: Aes)
    requires sid <= |p| && Pass(p, sid, i, aes).Returns?
    ensures Pass(Pass(p, sid, i, aes).value, sid, i, aes) == Returns(p)
  {
    var left, right := p[..sid], p[sid..];
    assert p == left + right;
    var q := Pass(p, sid, i, aes).value;
    hide XorEach, RoundBlock;
    if i % 2 == 0 {
      var mask := aes.encrypt(RoundBlock(right, i).value);
      assert q[sid..] == right && q[..sid] == XorEach(left, mask).value;
      XorEachTwice(left, mask);
    } else {
      var mask := aes.encrypt(RoundBlock(left, i).value);
      assert q[..sid] == left && q[sid..] == XorEach(right, mask).value;
      XorEachTwice(right, mask);
    }
  }

  lemma {:induction false} PassesSnoc(p: seq<byte>, sid: nat, order: seq<byte>, i: byte, aes: Aes)
    requires sid <= |p|
    ensures Passes(p, sid, order + [i], aes) ==
            (var m := Passes(p, sid, order, aes); if m.Panics? then Panics else Pass(m.value, sid, i, aes))
    decreases |order|
  {
    if order == [] {
      assert order + [i] == [i];
    } else {
      assert (order + [i])[1..] == order[1..] + [i];
      var m := Pass(p, sid, order[0], aes);
      if m.Returns? { PassesSnoc(m.value, sid, order[1..], i, aes); }
      hide Pass;
    }
  }

  function Reversed(order: seq<byte>): seq<byte> {
    if order == [] then [] else Reversed(order[1..]) + [order[0]]
  }

  /** Any sequence of passes that returns is undone by the same passes backwards. */
  lemma {:induction false} PassesUndone(p: seq<byte>, sid: nat, order: seq<byte>, aes: Aes)
    requires sid <= |p| && Passes(p, sid, order, aes).Returns?
    ensures Passes(Passes(p, sid, order, aes).value, sid, Reversed(order), aes) == Returns(p)
    decreases |order|
  {
    if order != [] {
      var i, rest := order[0], order[1..];
      var m := Pass(p, sid, i, aes).value;
      var q := Passes(m, sid, rest, aes).value;
      assert Passes(p, sid, order, aes) == Returns(q) && Reversed(order) == Reversed(rest) + [i];
      PassTwice(p, sid, i, aes);
      PassesUndone(m, sid, rest, aes);
      hide Pass, Passes, Reversed;
      PassesSnoc(q, sid, Reversed(rest), i, aes);
    }
  }

  /** The decoder's four passes undo the encoder's, and the encoder's undo the
      decoder's, for every block function, split and payload. */
  lemma FourPassInverse(p: seq<byte>, sid: nat, aes: Aes)
    requires sid <= |p| <= sid + 16 && sid <= 16
    ensures Encrypt4(p, sid, aes).Returns? && Decrypt4(Encrypt4(p, sid, aes).value, sid, aes) == Returns(p)
    ensures Decrypt4(p, sid, aes).Returns? && Encrypt4(Decrypt4(p, sid, aes).value, sid, aes) == Returns(p)
  {
    Backwards();
    PassesPanicExactly(p, sid, UP, aes);
    PassesPanicExactly(p, sid, DOWN, aes);
    hide Passes;
    PassesUndone(p, sid, UP, aes);
    PassesUndone(p, sid, DOWN, aes);
  }

  lemma Backwards()
    ensures Reversed(UP) == DOWN && Reversed(DOWN) == UP
  {
    hide Reversed;
    ReversedFour(0, 1, 2, 3);
    ReversedFour(3, 2, 1, 0);
  }

  lemma ReversedFour(a: byte, b: byte, c: byte, d: byte)
    ensures Reversed([a, b, c, d]) == [d, c, b, a]
  {
    hide Reversed;
    ReversedCons(d, []);
    ReversedCons(c, [d]);
    ReversedCons(b, [c, d]);
    ReversedCons(a, [b, c, d]);
    ReversedNil();
    assert [d] == [d] + [] && [c, d] == [c] + [d] && [b, c, d] == [b] + [c, d] && [a, b, c, d] == [a] + [b, c, d];
  }

  lemma ReversedNil()
    ensures Reversed([]) == []
  {
  }

  lemma ReversedCons(x: byte, order: seq<byte>)
    ensures Reversed([x] + order) == Reversed(order) + [x]
  {
    assert ([x] + order)[1..] == order;
  }

  // ------------------------------------------------------------------- code

  /** `for j in 0..len { buf[at + j] ^= ga[j] }`; false where `ga` is indexed past its end. */
  method XorInPlace(buf: array<byte>, at: nat, len: nat, ga: Block) returns (ok: bool)
    requires at + len <= buf.Length
    modifies buf
    ensures ok <==> len <= 16
    ensures ok ==> buf[at..at + len] == XorEach(old(buf[at..at + len]), ga).value
    ensures buf[..at] == old(buf[..at]) && buf[at + len..] == old(buf[at + len..])
  {
    hide XorEach;
    var j := 0;
    while j < len
      invariant 0 <= j <= len && j <= 16
      invariant forall k :: 0 <= k < buf.Length ==>
        buf[k] == if at <= k < at + j then Xor(old(buf[k]), ga[k - at]) else old(buf[k])
    {
      if j >= |ga| { return false; }
      buf[at + j] := Xor(buf[at + j], ga[j]);
      j := j + 1;
    }
    ok := true;
  }

  /** The round block as the code assembles it: zeros, a copied prefix, one XOR. */
  method BuildBlock(half: seq<byte>, i: byte) returns (block: Attempt<Block>)
    ensures block == RoundBlock(half, i)
  {
    var b := new byte[16](_ => 0);
    if |half| > b.Length { return Panics; }
    var j := 0;
    while j < |half|
      invariant 0 <= j <= |half|
      invariant forall k :: 0 <= k < 16 ==> b[k] == if k < j then half[k] else 0
    {
      b[j] := half[j];
      j := j + 1;
    }
    assert b[..] == half + ZERO_BLOCK[|half|..];
    b[0] := Xor(b[0], i);
    block := Returns(b[..]);
  }

  /** One pass over the first `sid + nonce` bytes of `buf`; false where it panics. */
  method PassInPlace(buf: array<byte>, sid: nat, nonce: nat, i: byte, aes: Aes) returns (ok: bool)
    requires sid + nonce <= buf.Length
    modifies buf
    ensures ok <==> Pass(old(buf[..sid + nonce]), sid, i, aes).Returns?
    ensures ok ==> buf[..sid + nonce] == Pass(old(buf[..sid + nonce]), sid, i, aes).value
    ensures buf[sid + nonce..] == old(buf[sid + nonce..])
  {
    hide XorEach, RoundBlock;
    ghost var q := buf[..sid + nonce];
    var left, right := buf[..sid], buf[sid..sid + nonce];
    ghost var rest := buf[sid + nonce..];
    assert q[..sid] == left && q[sid..] == right && buf[sid..] == right + rest;
    if i % 2 == 0 {
      var block := BuildBlock(right, i);
      if block.Panics? { return false; }
      ok := XorInPlace(buf, 0, sid, aes.encrypt(block.value));
      assert buf[sid..] == right + rest;
      assert buf[sid..sid + nonce] == right && buf[sid + nonce..] == rest;
    } else {
      var block := BuildBlock(left, i);
      if block.Panics? { return false; }
      ok := XorInPlace(buf, sid, nonce, aes.encrypt(block.value));
    }
    assert buf[..sid + nonce] == buf[..sid] + buf[sid..sid + nonce];
  }

  /** A loop over passes in the given order; false at the first that panics. */
  method PassesInPlace(buf: array<byte>, sid: nat, nonce: nat, order: seq<byte>, aes: Aes) returns (ok: bool)
    requires sid + nonce <= buf.Length
    modifies buf
    ensures ok <==> Passes(old(buf[..sid + nonce]), sid, order, aes).Returns?
    ensures ok ==> buf[..sid + nonce] == Passes(old(buf[..sid + nonce]), sid, order, aes).value
    ensures buf[sid + nonce..] == old(buf[sid + nonce..])
  {
    hide Pass, Passes;
    ghost var p := buf[..sid + nonce];
    PassesNone(p, sid, aes);
    for k := 0 to |order|
      invariant Passes(p, sid, order[..k], aes) == Returns(buf[..sid + nonce])
      invariant buf[sid + nonce..] == old(buf[sid + nonce..])
    {
      PassesSnoc(p, sid, order[..k], order[k], aes);
      assert order[..k + 1] == order[..k] + [order[k]];
      ok := PassInPlace(buf, sid, nonce, order[k], aes);
      if !ok {
        PassesPrefix(p, sid, order, k + 1, aes);
        return;
      }
    }
    assert order[..|order|] == order;
    ok := true;
  }

  lemma PassesNone(p: seq<byte>, sid: nat, aes: Aes)
    requires sid <= |p|
    ensures Passes(p, sid, [], aes) == Returns(p)
  {
  }

  lemma {:induction false} PassesPrefix(p: seq<byte>, sid: nat, order: seq<byte>, k: nat, aes: Aes)
    requires sid <= |p| && k <= |order| && Passes(p, sid, order[..k], aes).Panics?
    ensures Passes(p, sid, order, aes).Panics?
  {
    PassesPanicExactly(p, sid, order[..k], aes);
    PassesPanicExactly(p, sid, order, aes);
  }

  /** The encoder: passes 0 to 3. */
  method EncryptFourPass(buf: array<byte>, sid: nat, nonce: nat, aes: Aes) returns (ok: bool)
    requires sid + nonce <= buf.Length
    modifies buf
    ensures ok <==> Encrypt4(old(buf[..sid + nonce]), sid, aes).Returns?
    ensures ok ==> buf[..sid + nonce] == Encrypt4(old(buf[..sid + nonce]), sid, aes).value
    ensures buf[sid + nonce..] == old(buf[sid + nonce..])
  {
    ok := PassesInPlace(buf, sid, nonce, UP, aes);
  }

  /** The decoder: passes 3 to 0, on its 19-byte buffer. */
  method DecryptFourPass(buf: array<byte>, sid: nat, nonce: nat, aes: Aes) returns (ok: bool)
    requires sid + nonce <= buf.Length == 19
    modifies buf
    ensures ok <==> Decrypt4(old(buf[..sid + nonce]), sid, aes).Returns?
    ensures ok ==> buf[..sid + nonce] == Decrypt4(old(buf[..sid + nonce]), sid, aes).value
    ensures buf[sid + nonce..] == old(buf[sid + nonce..])
  {
    ok := PassesInPlace(buf, sid, nonce, DOWN, aes);
  }
}
