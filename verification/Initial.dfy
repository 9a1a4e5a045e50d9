/**
  QUIC v1/v2 Initial long headers (section 17.2.2 of RFC 9000, section 3.2 of
  RFC 9369): the strict parser, and the encodings it must accept.
 */
module Initial {
  import opened Bits

  const QUIC_V1: nat := 1
  const QUIC_V2: nat := 0x6b33_43cf
  const MAX_CID: nat := 20

  datatype Header = Header(
    firstByte: byte, version: nat, dcid: seq<byte>, scid: seq<byte>, token: seq<byte>, length: nat, pnOffset: nat)

  datatype ParseError =
    | Truncated | NotLongHeader | FixedBitUnset | NotInitial | UnsupportedVersion(version: nat)
    | DcidLengthInvalid | ScidLengthInvalid | TokenLengthInvalid | LengthInvalid | LengthOverrun

  datatype Result = Ok(header: Header) | Err(error: ParseError)

  // ----------------------------------------------------------- varints

  /** Bytes a varint's first byte announces: 1, 2, 4 or 8. */
  function VarintSize(first: byte): nat {
    if first < 64 then 1 else if first < 128 then 2 else if first < 192 then 4 else 8
  }

  /** Value and size of the varint at the front of `buf` (section 16 of RFC 9000). */
  function ReadVarint(buf: seq<byte>): (r: Option<(nat, nat)>)
    ensures r.Some? ==> r.value.1 in {1, 2, 4, 8} && r.value.1 <= |buf|
  {
    if buf == [] then None
    else
      var size := VarintSize(buf[0]);
      if |buf| < size then None else Some((Be([buf[0] % 64] + buf[1..size]), size))
  }

  /** The decoder's loop over the accumulator. */
  method DecodeVarint(buf: seq<byte>) returns (r: Option<(nat, nat)>)
    ensures r == ReadVarint(buf)
  {
    if buf == [] { return None; }
    var size := VarintSize(buf[0]);
    if |buf| < size { return None; }
    var value: nat := buf[0] % 64;
    var i := 1;
    while i < size
      invariant 1 <= i <= size
      invariant value == Be([buf[0] % 64] + buf[1..i])
    {
      var b: nat := buf[i];
      assert ([buf[0] % 64] + buf[1..i + 1])[..i] == [buf[0] % 64] + buf[1..i];
      value := value * 256 + b;
      i := i + 1;
    }
    r := Some((value, size));
  }

  predicate LegalVarint(v: nat, width: nat) {
    || (width == 1 && v < 64) || (width == 2 && v < 16_384)
    || (width == 4 && v < 0x4000_0000) || (width == 8 && v < 0x4000_0000_0000_0000)
  }

  /** `v` as a varint of the given width; the two top bits carry the width. */
  function Varint(v: nat, width: nat): (s: seq<byte>)
    requires LegalVarint(v, width)
    ensures |s| == width
  {
    var tag := if width == 1 then 0 else if width == 2 then 64 else if width == 4 then 128 else 192;
    var s := ToBe(v, width);
    TopByteSmall(v, width);
    [s[0] + tag] + s[1..]
  }

  lemma Widths()
    ensures Pow256(1) == 256 && Pow256(2) == 65_536 && Pow256(3) == 0x100_0000 && Pow256(4) == 0x1_0000_0000
    ensures Pow256(7) == 0x100_0000_0000_0000 && Pow256(8) == 0x1_0000_0000_0000_0000
  {
    assert Pow256(5) == 0x100_0000_0000;
    assert Pow256(6) == 0x1_0000_0000_0000;
  }

  lemma {:induction false} FirstByte(v: nat, n: nat)
    requires n > 0 && v < Pow256(n)
    ensures ToBe(v, n)[0] == v / Pow256(n - 1)
  {
    if n > 1 {
      FirstByte(v / 256, n - 1);
      DivDiv(v, 256, Pow256(n - 2));
    }
  }

  lemma DivDiv(v: nat, a: nat, b: nat)
    requires a > 0 && b > 0
    ensures a * b > 0 && v / a / b == v / (a * b)
  {
    var w, r := v / a, v % a;
    var q, s := w / b, w % b;
    assert v == a * w + r && w == b * q + s;
    Regroup(a, b, q, s, r);
    RestBelow(a, b, s, r);
    DivUnique(v, a * b, q, a * s + r);
  }

  lemma Regroup(a: int, b: int, q: int, s: int, r: int)
    ensures a * (b * q + s) + r == (a * b) * q + (a * s + r)
  {
    assert a * (b * q + s) == a * (b * q) + a * s;
    assert a * (b * q) == (a * b) * q;
  }

  lemma RestBelow(a: int, b: int, s: int, r: int)
    requires 0 <= s < b && 0 <= r < a
    ensures 0 <= a * s + r < a * b
  {
    var t := b - (s + 1);
    MulNonNegative(a, s);
    MulNonNegative(a, t);
    assert a * b == a * (s + 1) + a * t by { assert b == (s + 1) + t; }
  }

  lemma MulNonNegative(a: int, b: int)
    requires a >= 0 && b >= 0
    ensures a * b >= 0
  {
  }

  lemma TopByteSmall(v: nat, width: nat)
    requires LegalVarint(v, width)
    ensures v < Pow256(width) && ToBe(v, width)[0] < 64
  {
    Widths();
    FirstByte(v, width);
  }

  lemma TopByteLegal(v: nat, width: nat)
    requires (width == 1 || width == 2 || width == 4 || width == 8) && v < Pow256(width) && ToBe(v, width)[0] < 64
    ensures LegalVarint(v, width)
  {
    Widths();
    FirstByte(v, width);
    hide ToBe, Pow256;
    if width == 1 {
    } else if width == 2 {
    } else if width == 4 {
    } else {
    }
  }

  /** Any legal encoding of a value, minimal or not, reads back as that value. */
  lemma VarintRoundTrip(v: nat, width: nat, rest: seq<byte>)
    requires LegalVarint(v, width)
    ensures ReadVarint(Varint(v, width) + rest) == Some((v, width))
  {
    TopByteSmall(v, width);
    BeOfToBe(v, width);
    var buf := Varint(v, width) + rest;
    assert [buf[0] % 64] + buf[1..width] == ToBe(v, width);
  }

  /** Every varint that reads is the legal encoding of what it reads as. */
  lemma VarintTiles(buf: seq<byte>)
    requires ReadVarint(buf).Some?
    ensures var (v, size) := ReadVarint(buf).value;
            LegalVarint(v, size) && buf[..size] == Varint(v, size)
  {
    hide Be, ToBe, Pow256;
    var (v, size) := ReadVarint(buf).value;
    var s := [buf[0] % 64] + buf[1..size];
    ToBeOfBe(s);
    assert v == Be(s) && v < Pow256(size) && ToBe(v, size) == s;
    TopByteLegal(v, size);
  }

  // ------------------------------------------------------------ the parser

  /** Type bits of an Initial in this version; v2 permutes them. */
  function InitialType(version: nat): nat { if version == QUIC_V2 then 1 else 0 }

  function ParseStrict(packet: seq<byte>): Result {
    if |packet| < 9 then Err(Truncated)
    else if packet[0] < 0x80 then Err(NotLongHeader)
    else if packet[0] % 128 < 64 then Err(FixedBitUnset)
    else
      var version := Be(packet[1..5]);
      var ptype := packet[0] / 16 % 4;
      if (version == QUIC_V1 || version == QUIC_V2) && ptype != InitialType(version) then Err(NotInitial)
      else if version != QUIC_V1 && version != QUIC_V2 then Err(UnsupportedVersion(version))
      else ParseCids(packet, version)
  }

  function ParseCids(packet: seq<byte>, version: nat): Result
    requires |packet| >= 9
  {
    var dcidLen: nat := packet[5];
    var dcidEnd := 6 + dcidLen;
    if dcidLen > MAX_CID || |packet| < dcidEnd + 1 then Err(DcidLengthInvalid)
    else
      var scidLen: nat := packet[dcidEnd];
      var scidEnd := dcidEnd + 1 + scidLen;
      if scidLen > MAX_CID || |packet| < scidEnd then Err(ScidLengthInvalid)
      else ParseToken(packet, version, packet[6..dcidEnd], packet[dcidEnd + 1..scidEnd], scidEnd)
  }

  function ParseToken(packet: seq<byte>, version: nat, dcid: seq<byte>, scid: seq<byte>, at: nat): Result
    requires 0 < at <= |packet|
  {
    match ReadVarint(packet[at..])
    case None => Err(TokenLengthInvalid)
    case Some((tokenLen, tl)) =>
      var tokenEnd := at + tl + tokenLen;
      if |packet| < tokenEnd then Err(TokenLengthInvalid)
      else
        match ReadVarint(packet[tokenEnd..])
        case None => Err(LengthInvalid)
        case Some((length, ls)) =>
          var pnOffset := tokenEnd + ls;
          if |packet| < pnOffset + length then Err(LengthOverrun)
          else Ok(Header(packet[0], version, dcid, scid, packet[at + tl..tokenEnd], length, pnOffset))
  }

  // ---------------------------------------------------------- serialisation

  /** Header fields a sender may put in an Initial. */
  predicate Sendable(h: Header) {
    && (h.version == QUIC_V1 || h.version == QUIC_V2)
    && h.firstByte >= 0xc0 && h.firstByte / 16 % 4 == InitialType(h.version)
    && |h.dcid| <= MAX_CID && |h.scid| <= MAX_CID
  }

  function CidPart(h: Header): (s: seq<byte>)
    requires Sendable(h)
    ensures |s| == 7 + |h.dcid| + |h.scid|
  {
    [h.firstByte] + ToBe(h.version, 4) + [|h.dcid|] + h.dcid + [|h.scid|] + h.scid
  }

  /** The header on the wire, token length and Length in the given varint widths. */
  function Wire(h: Header, tokenWidth: nat, lengthWidth: nat): (s: seq<byte>)
    requires Sendable(h) && LegalVarint(|h.token|, tokenWidth) && LegalVarint(h.length, lengthWidth)
    ensures |s| == 7 + |h.dcid| + |h.scid| + tokenWidth + |h.token| + lengthWidth
  {
    CidPart(h) + (Varint(|h.token|, tokenWidth) + (h.token + Varint(h.length, lengthWidth)))
  }

  lemma VersionBytes(version: nat)
    requires version == QUIC_V1 || version == QUIC_V2
    ensures Be(ToBe(version, 4)) == version
  {
    Widths();
    BeOfToBe(version, 4);
  }

  lemma ParsesCidPart(h: Header, rest: seq<byte>)
    requires Sendable(h) && |rest| >= 2
    ensures var p := CidPart(h) + rest;
            ParseStrict(p) == ParseToken(p, h.version, h.dcid, h.scid, |CidPart(h)|)
  {
    hide Be, ToBe, ParseToken, ParseCids, CidPart, ParseStrict;
    var p := CidPart(h) + rest;
    VersionBytes(h.version);
    CidPartBytes(h, rest);
    StrictReads(p, h.version);
    CidsRead(p, h.version, h.dcid, h.scid);
  }

  lemma StrictReads(p: seq<byte>, version: nat)
    requires |p| >= 9 && p[0] >= 0xc0 && p[0] / 16 % 4 == InitialType(version)
    requires Be(p[1..5]) == version && (version == QUIC_V1 || version == QUIC_V2)
    ensures ParseStrict(p) == ParseCids(p, version)
  {
    hide ParseCids, Be;
  }

  lemma CidPartBytes(h: Header, rest: seq<byte>)
    requires Sendable(h)
    ensures var p, d := CidPart(h) + rest, 6 + |h.dcid|;
            && p[0] == h.firstByte && p[1..5] == ToBe(h.version, 4) && p[5] == |h.dcid| && p[6..d] == h.dcid
            && p[d] == |h.scid| && p[d + 1..d + 1 + |h.scid|] == h.scid
  {
    hide ToBe, InitialType;
  }

  lemma CidsRead(p: seq<byte>, version: nat, dcid: seq<byte>, scid: seq<byte>)
    requires |dcid| <= MAX_CID && |scid| <= MAX_CID && |p| >= 9 && |p| >= 7 + |dcid| + |scid|
    requires p[5] == |dcid| && p[6 + |dcid|] == |scid|
    requires p[6..6 + |dcid|] == dcid && p[7 + |dcid|..7 + |dcid| + |scid|] == scid
    ensures ParseCids(p, version) == ParseToken(p, version, dcid, scid, 7 + |dcid| + |scid|)
  {
    hide ParseToken;
  }

  lemma SliceOfTail(p: seq<byte>, at: nat, i: nat, j: nat)
    requires at <= |p| && i <= j <= |p| - at
    ensures p[at..][i..j] == p[at + i..at + j]
  {
  }

  lemma ParsesTokenPart(p: seq<byte>, at: nat, h: Header, tw: nat, lw: nat, payload: seq<byte>)
    requires 0 < at <= |p| && LegalVarint(|h.token|, tw) && LegalVarint(h.length, lw) && |payload| >= h.length
    requires p[at..] == Varint(|h.token|, tw) + (h.token + (Varint(h.length, lw) + payload))
    requires h.firstByte == p[0] && h.pnOffset == at + tw + |h.token| + lw
    ensures ParseToken(p, h.version, h.dcid, h.scid, at) == Ok(h)
  {
    hide ReadVarint, Varint, LegalVarint;
    var lv := Varint(h.length, lw) + payload;
    var tokenEnd := at + tw + |h.token|;
    VarintRoundTrip(|h.token|, tw, h.token + lv);
    VarintRoundTrip(h.length, lw, payload);
    var q := p[at..];
    assert |p| == at + |q|;
    SliceOfTail(p, at, tw + |h.token|, |q|);
    assert q[tw + |h.token|..] == lv;
    SliceOfTail(p, at, tw, tw + |h.token|);
    assert q[tw..tw + |h.token|] == h.token;
  }

  /** Every Initial a sender can write, with any legal varint widths and at least
      `length` bytes after it, parses back to its own fields. */
  lemma SerialisedParses(h: Header, tokenWidth: nat, lengthWidth: nat, payload: seq<byte>)
    requires Sendable(h) && LegalVarint(|h.token|, tokenWidth) && LegalVarint(h.length, lengthWidth)
    requires h.pnOffset == |Wire(h, tokenWidth, lengthWidth)| && |payload| >= h.length
    ensures ParseStrict(Wire(h, tokenWidth, lengthWidth) + payload) == Ok(h)
  {
    var rest := Varint(|h.token|, tokenWidth) + (h.token + (Varint(h.length, lengthWidth) + payload));
    var p := Wire(h, tokenWidth, lengthWidth) + payload;
    assert p == CidPart(h) + rest;
    assert p[0] == h.firstByte && p[|CidPart(h)|..] == rest;
    ParsesCidPart(h, rest);
    hide *;
    ParsesTokenPart(p, |CidPart(h)|, h, tokenWidth, lengthWidth, payload);
  }

  lemma CidPartTiles(packet: seq<byte>)
    requires ParseStrict(packet).Ok?
    ensures var h := ParseStrict(packet).header; var at := 7 + |h.dcid| + |h.scid|;
            && Sendable(h) && at <= |packet| && packet[..at] == CidPart(h)
            && ParseStrict(packet) == ParseToken(packet, h.version, h.dcid, h.scid, at)
  {
    hide ParseStrict, Be, ToBe, ParseToken, ParseCids;
    var h := ParseStrict(packet).header;
    StrictFields(packet);
    ToBeOfBe(packet[1..5]);
    CidsTile(packet, Be(packet[1..5]));
    var d, at := 6 + |h.dcid|, 7 + |h.dcid| + |h.scid|;
    TileSix(packet, d, at);
  }

  lemma TileSix(p: seq<byte>, d: nat, at: nat)
    requires 6 <= d < at <= |p|
    ensures p[..at] == [p[0]] + p[1..5] + [p[5]] + p[6..d] + [p[d]] + p[d + 1..at]
  {
    var head, tail := [p[0]] + p[1..5] + [p[5]], [p[d]] + p[d + 1..at];
    assert p[..6] == head && p[d..at] == tail;
    assert p[..at] == p[..6] + p[6..d] + p[d..at];
  }

  lemma StrictFields(packet: seq<byte>)
    requires ParseStrict(packet).Ok?
    ensures |packet| >= 9 && ParseStrict(packet) == ParseCids(packet, Be(packet[1..5]))
    ensures var version := Be(packet[1..5]);
            && (version == QUIC_V1 || version == QUIC_V2)
            && packet[0] >= 0x80 && packet[0] % 128 >= 64 && packet[0] / 16 % 4 == InitialType(version)
  {
    hide Be, ParseCids;
  }

  lemma CidsTile(p: seq<byte>, version: nat)
    requires |p| >= 9 && ParseCids(p, version).Ok?
    ensures var h := ParseCids(p, version).header; var d, at := 6 + |h.dcid|, 7 + |h.dcid| + |h.scid|;
            && h.firstByte == p[0] && h.version == version && |h.dcid| <= MAX_CID && |h.scid| <= MAX_CID && at <= |p|
            && p[5] == |h.dcid| && p[d] == |h.scid| && p[6..d] == h.dcid && p[d + 1..at] == h.scid
            && ParseCids(p, version) == ParseToken(p, version, h.dcid, h.scid, at)
  {
    hide ReadVarint;
  }

  lemma TokenPartTiles(p: seq<byte>, version: nat, dcid: seq<byte>, scid: seq<byte>, at: nat) returns (tw: nat, lw: nat)
    requires 0 < at <= |p| && ParseToken(p, version, dcid, scid, at).Ok?
    ensures var h := ParseToken(p, version, dcid, scid, at).header;
            && LegalVarint(|h.token|, tw) && LegalVarint(h.length, lw)
            && at <= h.pnOffset && h.pnOffset + h.length <= |p|
            && p[at..h.pnOffset] == Varint(|h.token|, tw) + (h.token + Varint(h.length, lw))
  {
    hide Varint, LegalVarint, ReadVarint;
    var h := ParseToken(p, version, dcid, scid, at).header;
    VarintTiles(p[at..]);
    tw := ReadVarint(p[at..]).value.1;
    var tokenEnd := at + tw + |h.token|;
    VarintTiles(p[tokenEnd..]);
    lw := ReadVarint(p[tokenEnd..]).value.1;
    assert p[at..at + tw] == p[at..][..tw] && p[tokenEnd..h.pnOffset] == p[tokenEnd..][..lw];
    assert h.token == p[at + tw..tokenEnd] && tokenEnd + lw == h.pnOffset;
    ThreeSlices(p, at, at + tw, tokenEnd, h.pnOffset);
  }

  lemma ThreeSlices(p: seq<byte>, a: nat, b: nat, c: nat, d: nat)
    requires a <= b <= c <= d <= |p|
    ensures p[a..d] == p[a..b] + (p[b..c] + p[c..d])
  {
  }

  /** Conversely every successful parse accounts for every byte up to the packet
      number: the packet is the header's own encoding, followed by at least `length`
      bytes. With `SerialisedParses`, parsing and serialising are inverse. */
  lemma ParsedTiles(packet: seq<byte>) returns (tokenWidth: nat, lengthWidth: nat)
    requires ParseStrict(packet).Ok?
    ensures var h := ParseStrict(packet).header;
            && Sendable(h) && LegalVarint(|h.token|, tokenWidth) && LegalVarint(h.length, lengthWidth)
            && h.pnOffset + h.length <= |packet| && packet[..h.pnOffset] == Wire(h, tokenWidth, lengthWidth)
  {
    hide ParseStrict, ParseToken, CidPart, Sendable, LegalVarint, Varint;
    CidPartTiles(packet);
    var h := ParseStrict(packet).header;
    var at := 7 + |h.dcid| + |h.scid|;
    tokenWidth, lengthWidth := TokenPartTiles(packet, h.version, h.dcid, h.scid, at);
    assert packet[..h.pnOffset] == packet[..at] + packet[at..h.pnOffset];
  }
}
