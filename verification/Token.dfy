/**
  Retry tokens: an 8-byte timestamp and a truncated HMAC binding it to the
  client's address and the original DCID. HMAC-SHA256 is an arbitrary function.
 */
module Token {
  import opened Bits
  import opened Routes
  import opened Initial

  const ZERO_DIGEST: seq<byte> :=
    [0, 0, 0, 0, 0, 0, 0, 0, 0, 0, 0, 0, 0, 0, 0, 0, 0, 0, 0, 0, 0, 0, 0, 0, 0, 0, 0, 0, 0, 0, 0, 0]

  type Digest = d: seq<byte> | |d| == 32 witness ZERO_DIGEST
  type Hmac = (seq<byte>, seq<byte>) -> Digest

  const TS_LEN: nat := 8
  const MAC_LEN: nat := 16
  const TOKEN_LEN: nat := 24
  const MAX_ODCID: nat := 20
  const U64: nat := 0x1_0000_0000_0000_0000

  predicate AddrOk(a: IpAddr) { match a case V4(o) => |o| == 4 case V6(o) => |o| == 16 }

  datatype TokenKey = TokenKey(secret: seq<byte>, hmac: Hmac)

  /** What `feed` puts through the HMAC: family, address, timestamp, ODCID length, ODCID. */
  function Fed(client: IpAddr, ts: seq<byte>, odcid: seq<byte>): seq<byte>
    requires |odcid| <= MAX_ODCID
  {
    [if client.V4? then 4 else 6] + client.octets + ts + [|odcid|] + odcid
  }

  function Tag(key: TokenKey, client: IpAddr, ts: seq<byte>, odcid: seq<byte>): (t: seq<byte>)
    requires |odcid| <= MAX_ODCID
    ensures |t| == MAC_LEN
  {
    key.hmac(key.secret, Fed(client, ts, odcid))[..MAC_LEN]
  }

  /** The fed bytes determine everything the token binds: nothing is ambiguous. */
  lemma FedInjective(a: IpAddr, ts: seq<byte>, o: seq<byte>, a': IpAddr, ts': seq<byte>, o': seq<byte>)
    requires AddrOk(a) && AddrOk(a') && |ts| == |ts'| == TS_LEN && |o| <= MAX_ODCID && |o'| <= MAX_ODCID
    requires Fed(a, ts, o) == Fed(a', ts', o')
    ensures a == a' && ts == ts' && o == o'
  {
    var f, f', n := Fed(a, ts, o), Fed(a', ts', o'), |a.octets|;
    assert f[0] == f'[0];
    assert a.octets == f[1..1 + n] && a'.octets == f'[1..1 + n];
    assert ts == f[1 + n..1 + n + TS_LEN] && ts' == f'[1 + n..1 + n + TS_LEN];
    assert o == f[2 + n + TS_LEN..] && o' == f'[2 + n + TS_LEN..];
  }

  /** Mint a token; `None` is the refusal of an ODCID over 20 bytes. */
  function Mint(key: TokenKey, client: IpAddr, odcid: seq<byte>, nowMs: nat): (r: Option<seq<byte>>)
    ensures r.Some? <==> |odcid| <= MAX_ODCID
    ensures r.Some? ==> |r.value| == TOKEN_LEN
  {
    if |odcid| > MAX_ODCID then None
    else
      var ts := ToBe(nowMs, TS_LEN);
      Some(ts + Tag(key, client, ts, odcid))
  }

  /** `mint`, filling its 24-byte buffer. */
  method MintToken(key: TokenKey, client: IpAddr, odcid: seq<byte>, nowMs: nat) returns (r: Option<seq<byte>>)
    ensures r == Mint(key, client, odcid, nowMs)
  {
    if |odcid| > MAX_ODCID { return None; }
    var out := new byte[TOKEN_LEN](_ => 0);
    var ts := ToBe(nowMs, TS_LEN);
    forall i | 0 <= i < TS_LEN { out[i] := ts[i]; }
    var full := Tag(key, client, ts, odcid);
    forall i | 0 <= i < MAC_LEN { out[TS_LEN + i] := full[i]; }
    assert out[..] == ts + full;
    r := Some(out[..]);
  }

  datatype Verdict = Valid | Invalid | Expired

  function Verify(key: TokenKey, token: seq<byte>, client: IpAddr, odcid: seq<byte>, nowMs: nat,
                  lifetimeMs: nat): Verdict {
    if |token| != TOKEN_LEN || |odcid| > MAX_ODCID then Invalid
    else
      var ts := token[..TS_LEN];
      var tsMs := Be(ts);
      if token[TS_LEN..] != Tag(key, client, ts, odcid) then Invalid
      else if tsMs > nowMs then Invalid
      else if nowMs - tsMs > lifetimeMs then Expired
      else Valid
  }

  /** A minted token is accepted exactly during its lifetime: invalid before its
      issue, expired after `lifetimeMs`. */
  lemma MintedVerifies(key: TokenKey, client: IpAddr, odcid: seq<byte>, at: nat, nowMs: nat, lifetimeMs: nat)
    requires |odcid| <= MAX_ODCID && at < U64
    ensures Verify(key, Mint(key, client, odcid, at).value, client, odcid, nowMs, lifetimeMs)
         == if nowMs < at then Invalid else if nowMs <= at + lifetimeMs then Valid else Expired
  {
    Widths();
    BeOfToBe(at, TS_LEN);
    var token, ts := Mint(key, client, odcid, at).value, ToBe(at, TS_LEN);
    assert token[..TS_LEN] == ts && token[TS_LEN..] == Tag(key, client, ts, odcid);
  }

  /** A token minted for one client and ODCID is accepted for another only if the
      truncated HMAC collides on two different messages. */
  lemma TokenIsBound(key: TokenKey, client: IpAddr, odcid: seq<byte>, at: nat,
                     client': IpAddr, odcid': seq<byte>, nowMs: nat, lifetimeMs: nat) returns (m: seq<byte>,
                     m': seq<byte>)
    requires AddrOk(client) && AddrOk(client') && |odcid| <= MAX_ODCID
    requires (client, odcid) != (client', odcid')
    requires Verify(key, Mint(key, client, odcid, at).value, client', odcid', nowMs, lifetimeMs).Valid?
    ensures m != m' && key.hmac(key.secret, m)[..MAC_LEN] == key.hmac(key.secret, m')[..MAC_LEN]
  {
    var token, ts := Mint(key, client, odcid, at).value, ToBe(at, TS_LEN);
    assert token[..TS_LEN] == ts && token[TS_LEN..] == Tag(key, client, ts, odcid);
    m, m' := Fed(client, ts, odcid), Fed(client', ts, odcid');
    if m == m' { FedInjective(client, ts, odcid, client', ts, odcid'); }
  }
}
