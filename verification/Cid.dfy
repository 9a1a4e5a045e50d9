/**
  QUIC-LB connection IDs: the backend's encoder (`quic-lb-core`) and the load
  balancer's decoder (`pesigitg-routing`), two separate implementations, and the
  proof that what one mints the other routes.
 */
module Cid {
  import opened Bits
  import opened Cipher
  import opened Routes

  // ------------------------------------------------------------- extraction

  predicate IsLong(quic: seq<byte>)
    requires quic != []
  {
    quic[0] >= 0x80
  }

  function FirstCidOctet(quic: seq<byte>): Option<byte> {
    if quic == [] then None
    else if IsLong(quic) then
      if |quic| < 7 || quic[5] == 0 then None else Some(quic[6])
    else
      if |quic| < 2 then None else Some(quic[1])
  }

  function ExtractRawDcid(quic: seq<byte>, cidLen: nat): (r: Option<seq<byte>>)
    ensures r.Some? ==> r.value != []
  {
    if quic == [] then None
    else
      var dcid :=
        if IsLong(quic) then
          if |quic| < 6 then []
          else
            var len: nat := quic[5];
            if |quic| < 6 + len then [] else quic[6..6 + len]
        else
          if |quic| < 1 + cidLen then [] else quic[1..1 + cidLen];
      if dcid == [] then None else Some(dcid)
  }

  function ExtractScid(quic: seq<byte>): (r: Option<seq<byte>>)
    ensures r.Some? ==> r.value != []
  {
    if quic == [] || !IsLong(quic) || |quic| < 6 then None
    else
      var dcidLen: nat := quic[5];
      var at := 6 + dcidLen;
      if |quic| < at + 1 then None
      else
        var len: nat := quic[at];
        if len == 0 || |quic| < at + 1 + len then None else Some(quic[at + 1..at + 1 + len])
  }

  /** `lookup_config`: the DCID and the config its first octet selects. */
  function LookupConfig(quic: seq<byte>, table: Table): (r: Option<(seq<byte>, RouteConfig)>)
    ensures r.Some? ==> r.value.0 != [] && table.Get(r.value.0[0] / 32) == Some(r.value.1)
  {
    match FirstCidOctet(quic)
    case None => None
    case Some(octet) =>
      var id := octet / 32;
      if id == 7 then None
      else match table.Get(id)
        case None => None
        case Some(config) =>
          match ExtractRawDcid(quic, config.CidLen())
          case None => None
          case Some(dcid) => Some((dcid, config))
  }

  // --------------------------------------------------------------- decoding

  /** The plaintext `server_id || nonce` of a CID payload. */
  function DecryptPayload(p: seq<byte>, config: RouteConfig): (r: Attempt<seq<byte>>)
    requires config.WellFormed() && |p| == config.PayloadLen()
    ensures r.Returns? ==> |r.value| == |p|
  {
    match config.encryption
    case Plaintext => Returns(p)
    case SinglePass(aes) => Returns(aes.decrypt(p))
    case FourPass(aes) => Decrypt4(p, config.sidLen, aes)
  }

  /** The server a CID names: the first whose id is the decrypted server id. */
  function ServerOf(dcid: seq<byte>, config: RouteConfig): (r: Attempt<Option<nat>>)
    requires config.WellFormed()
    ensures r.Returns? && r.value.Some? ==> r.value.value < |config.servers|
  {
    if |dcid| < config.CidLen() then Returns(None)
    else
      match DecryptPayload(dcid[1..config.CidLen()], config)
      case Panics => Panics
      case Returns(plain) => Returns(FindServerIdx(config.servers, plain[..config.sidLen]))
  }

  /** A config no CID of full length can be decoded with. */
  predicate Undecodable(config: RouteConfig) { config.encryption.FourPass? && config.nonceLen > 16 }

  lemma ResolvingPanicsExactly(dcid: seq<byte>, config: RouteConfig)
    requires config.WellFormed()
    ensures ServerOf(dcid, config).Panics? <==> |dcid| >= config.CidLen() && Undecodable(config)
  {
    hide Passes;
    if |dcid| >= config.CidLen() && config.encryption.FourPass? {
      PassesPanicExactly(dcid[1..config.CidLen()], config.sidLen, DOWN, config.encryption.aes);
    }
  }

  /** Validation does not keep the four-pass cipher inside its block: of the configs it
      accepts, decoding a CID of full length panics exactly for the keyed ones with a
      nonce of more than 16 bytes, whatever the CID holds. */
  lemma DecodingPanicsExactly(raw: RawConfig, dcid: seq<byte>)
    requires Acceptable(raw)
    ensures var config := Validate(raw).value;
            ServerOf(dcid, config).Panics? <==> raw.key.Some? && raw.nonceLen > 16 && |dcid| >= config.CidLen()
  {
    hide ServerOf;
    ResolvingPanicsExactly(dcid, Validate(raw).value);
  }

  /** One such config: a one-byte server id and a 17-byte nonce. */
  lemma LongNonceCannotDecode(aes: Aes, dcid: seq<byte>) returns (raw: RawConfig)
    requires |dcid| >= 19
    ensures raw == RawConfig(0, 1, 17, Some(aes), [RawServer([7], V4([10, 0, 0, 1]), None, false)], None)
    ensures Acceptable(raw) && ServerOf(dcid, Validate(raw).value).Panics?
  {
    raw := RawConfig(0, 1, 17, Some(aes), [RawServer([7], V4([10, 0, 0, 1]), None, false)], None);
    DecodingPanicsExactly(raw, dcid);
  }

  /** `resolve_server_idx`, on its zeroed 19-byte stack buffer. */
  method ResolveServerIdx(dcid: seq<byte>, config: RouteConfig) returns (r: Attempt<Option<nat>>)
    requires config.WellFormed()
    ensures r == ServerOf(dcid, config)
  {
    hide Passes, FindServerIdx;
    var payloadLen, sidLen := config.PayloadLen(), config.sidLen;
    if |dcid| < 1 + payloadLen { return Returns(None); }
    var buf := new byte[19](_ => 0);
    ghost var p := dcid[1..1 + payloadLen];
    for j := 0 to payloadLen
      invariant forall k :: 0 <= k < j ==> buf[k] == p[k]
    {
      buf[j] := dcid[1 + j];
    }
    assert buf[..payloadLen] == p;
    match config.encryption {
      case Plaintext =>
      case SinglePass(aes) =>
        var block := aes.decrypt(buf[..16]);
        forall k | 0 <= k < 16 { buf[k] := block[k]; }
        assert buf[..16] == block;
      case FourPass(aes) =>
        var ok := DecryptFourPass(buf, sidLen, payloadLen - sidLen, aes);
        if !ok { return Panics; }
    }
    assert buf[..sidLen] == buf[..payloadLen][..sidLen];
    r := Returns(FindServerIdx(config.servers, buf[..sidLen]));
  }

  // --------------------------------------------------------------- encoding

  datatype Encoder = Encoder(
    configId: nat, serverId: seq<byte>, nonceLen: nat, encryption: Encryption, encodeCidLength: bool)
  {
    /** The assertions of `QuicLbEncoder::new`. */
    predicate Valid() {
      configId <= 6 && 1 <= |serverId| <= 15 && 4 <= nonceLen <= 18 && |serverId| + nonceLen <= 19
    }

    function CidLen(): nat { 1 + |serverId| + nonceLen }

    /** First octet; `r` is the random byte used when the length is not encoded. */
    function FirstOctet(r: byte): byte
      requires Valid()
    {
      configId * 32 + (if encodeCidLength then (CidLen() - 1) % 32 else r % 32)
    }

    /** The payload on the wire for a given nonce. */
    function Payload(nonce: seq<byte>): (p: Attempt<seq<byte>>)
      requires Valid() && |nonce| == nonceLen
      ensures p.Returns? ==> |p.value| == |serverId| + nonceLen
    {
      var plain := serverId + nonce;
      match encryption
      case Plaintext => Returns(plain)
      case SinglePass(aes) =>
        if |plain| > |ZERO_BLOCK| then Panics else Returns(aes.encrypt(plain + ZERO_BLOCK[|plain|..])[..|plain|])
      case FourPass(aes) => Encrypt4(plain, |serverId|, aes)
    }

    function Mint(nonce: seq<byte>, r: byte): (cid: Attempt<seq<byte>>)
      requires Valid() && |nonce| == nonceLen
      ensures cid.Returns? ==> |cid.value| == CidLen()
    {
      match Payload(nonce)
      case Panics => Panics
      case Returns(p) => Returns([FirstOctet(r)] + p)
    }
  }

  /** Of the encoders `new` builds, minting panics exactly for those whose payload
      overruns the single block or whose nonce overruns the round block. */
  lemma MintingPanicsExactly(enc: Encoder, nonce: seq<byte>, r: byte)
    requires enc.Valid() && |nonce| == enc.nonceLen
    ensures enc.Mint(nonce, r).Panics? <==>
            || (enc.encryption.SinglePass? && |enc.serverId| + enc.nonceLen > 16)
            || (enc.encryption.FourPass? && enc.nonceLen > 16)
  {
    if enc.encryption.FourPass? {
      PassesPanicExactly(enc.serverId + nonce, |enc.serverId|, UP, enc.encryption.aes);
      hide Passes;
    }
  }

  /** One such encoder. */
  lemma LongNonceCannotMint(aes: Aes, nonce: seq<byte>, r: byte) returns (enc: Encoder)
    requires |nonce| == 17
    ensures enc == Encoder(0, [7], 17, FourPass(aes), false) && enc.Valid() && enc.Mint(nonce, r).Panics?
  {
    enc := Encoder(0, [7], 17, FourPass(aes), false);
    MintingPanicsExactly(enc, nonce, r);
  }

  /** `encode_into`, given the random bytes it draws. A buffer too short for the CID is
      refused by an assertion. */
  method EncodeInto(enc: Encoder, buf: array<byte>, nonce: seq<byte>, r: byte) returns (n: Attempt<nat>)
    requires enc.Valid() && |nonce| == enc.nonceLen
    modifies buf
    ensures n.Panics? <==> buf.Length < enc.CidLen() || enc.Mint(nonce, r).Panics?
    ensures n.Panics? ==> buf[..] == old(buf[..])
    ensures n.Returns? ==>
      n.value == enc.CidLen() && buf[..n.value] == enc.Mint(nonce, r).value && buf[n.value..] == old(buf[n.value..])
  {
    hide Passes, Encoder.FirstOctet;
    if buf.Length < enc.CidLen() { return Panics; }
    var payload := EncodePayload(enc, nonce);
    if payload.Panics? { return Panics; }
    hide Encoder.Payload;
    var p, len := payload.value, enc.CidLen();
    ghost var rest := buf[len..];
    buf[0] := enc.FirstOctet(r);
    for j := 0 to |p|
      invariant buf[0] == enc.FirstOctet(r) && buf[len..] == rest
      invariant forall k :: 0 <= k < j ==> buf[1 + k] == p[k]
    {
      buf[1 + j] := p[j];
    }
    assert buf[1..len] == p;
    n := Returns(len);
  }

  /** The payload, encrypted in place in the encoder's 19-byte buffer. */
  method EncodePayload(enc: Encoder, nonce: seq<byte>) returns (p: Attempt<seq<byte>>)
    requires enc.Valid() && |nonce| == enc.nonceLen
    ensures p == enc.Payload(nonce)
  {
    hide Passes;
    var sidLen := |enc.serverId|;
    var len := sidLen + enc.nonceLen;
    var plain := enc.serverId + nonce;
    var payload := new byte[19](i requires 0 <= i => if i < len then plain[i] else 0);
    assert payload[..len] == plain;
    match enc.encryption {
      case Plaintext =>
      case SinglePass(aes) =>
        if len > 16 { return Panics; }
        var block := aes.encrypt(payload[..len] + ZERO_BLOCK[len..]);
        forall k | 0 <= k < 16 { payload[k] := block[k]; }
        assert payload[..len] == block[..len];
      case FourPass(aes) =>
        var ok := EncryptFourPass(payload, sidLen, enc.nonceLen, aes);
        if !ok { return Panics; }
    }
    p := Returns(payload[..len]);
  }

  // -------------------------------------------------------------- agreement

  /** A backend configured with this config: same id, lengths and cipher. */
  ghost predicate Matches(enc: Encoder, config: RouteConfig) {
    && enc.configId == config.configId && |enc.serverId| == config.sidLen
    && enc.nonceLen == config.nonceLen && enc.encryption == config.encryption
  }

  /** AES decryption undoes AES encryption where a block is decrypted. */
  ghost predicate AesOk(e: Encryption) { e.SinglePass? ==> e.aes.Inverse() }

  lemma PayloadDecodes(enc: Encoder, config: RouteConfig, nonce: seq<byte>)
    requires enc.Valid() && config.WellFormed() && Matches(enc, config) && AesOk(config.encryption)
    requires |nonce| == enc.nonceLen && enc.Payload(nonce).Returns?
    ensures DecryptPayload(enc.Payload(nonce).value, config) == Returns(enc.serverId + nonce)
  {
    var plain := enc.serverId + nonce;
    match config.encryption {
      case Plaintext =>
      case SinglePass(aes) =>
        assert plain + ZERO_BLOCK[16..] == plain;
        assert aes.encrypt(plain)[..16] == aes.encrypt(plain);
        assert enc.Payload(nonce) == Returns(aes.encrypt(plain));
        assert aes.decrypt(aes.encrypt(plain)) == plain;
      case FourPass(aes) =>
        PassesPanicExactly(plain, config.sidLen, UP, aes);
        hide Passes;
        FourPassInverse(plain, config.sidLen, aes);
    }
  }

  /** Decoding a CID that a matching encoder mints recovers the minting server. */
  lemma MintedDecodes(enc: Encoder, config: RouteConfig, nonce: seq<byte>, r: byte)
    requires enc.Valid() && config.WellFormed() && Matches(enc, config) && AesOk(config.encryption)
    requires |nonce| == enc.nonceLen && enc.Mint(nonce, r).Returns?
    ensures DecryptPayload(enc.Payload(nonce).value, config) == Returns(enc.serverId + nonce)
    ensures ServerOf(enc.Mint(nonce, r).value, config) == Returns(FindServerIdx(config.servers, enc.serverId))
  {
    PayloadDecodes(enc, config, nonce);
    hide Encoder.Payload, DecryptPayload, Encoder.FirstOctet, FindServerIdx;
    assert enc.Mint(nonce, r).value[1..config.CidLen()] == enc.Payload(nonce).value;
    assert (enc.serverId + nonce)[..config.sidLen] == enc.serverId;
  }

  /** A QUIC packet with this DCID: any long header, or any short header, with
      anything after it. */
  predicate Carries(quic: seq<byte>, dcid: seq<byte>) {
    && quic != []
    && if IsLong(quic) then |quic| >= 6 + |dcid| && quic[5] == |dcid| && quic[6..6 + |dcid|] == dcid
       else |quic| >= 1 + |dcid| && quic[1..1 + |dcid|] == dcid
  }

  /** End to end: for every config in the table, every server of it, every nonce and
      every random first-octet bit, a packet carrying the minted CID selects that
      config and resolves to the first server holding the minting server's id. */
  lemma MintedRoutes(enc: Encoder, table: Table, nonce: seq<byte>, r: byte, cid: seq<byte>, quic: seq<byte>)
    requires enc.Valid() && table.Valid() && |nonce| == enc.nonceLen && enc.Mint(nonce, r) == Returns(cid)
    requires table.Get(enc.configId).Some? && Matches(enc, table.Get(enc.configId).value)
    requires AesOk(enc.encryption) && Carries(quic, cid)
    ensures var config := table.Get(enc.configId).value;
            && LookupConfig(quic, table) == Some((cid, config))
            && ServerOf(cid, config) == Returns(FindServerIdx(config.servers, enc.serverId))
  {
    var config := table.Get(enc.configId).value;
    MintedDecodes(enc, config, nonce, r);
    assert cid[0] / 32 == enc.configId;
    CarriedIsExtracted(quic, cid);
    hide Encoder.Mint, ServerOf, FirstCidOctet, ExtractRawDcid, Carries;
  }

  lemma CarriedIsExtracted(quic: seq<byte>, cid: seq<byte>)
    requires Carries(quic, cid) && cid != []
    ensures FirstCidOctet(quic) == Some(cid[0]) && ExtractRawDcid(quic, |cid|) == Some(cid)
  {
    var at := if IsLong(quic) then 6 else 1;
    assert quic[at] == quic[at..at + |cid|][0];
  }
}
