/**
  QUIC Retry packets (section 17.2.5 of RFC 9000) with the integrity tag of
  section 5.8 of RFC 9001 and section 3.2 of RFC 9369. AES-128-GCM over empty
  plaintext is an arbitrary function of key, nonce and associated data.
 */
module RetryPacket {
  import opened Bits
  import opened Initial

  const ZERO_TAG: seq<byte> := [0, 0, 0, 0, 0, 0, 0, 0, 0, 0, 0, 0, 0, 0, 0, 0]
  type Tag = t: seq<byte> | |t| == 16 witness ZERO_TAG
  type Gcm = (seq<byte>, seq<byte>, seq<byte>) -> Tag

  const KEY_V1: seq<byte> :=
    [0xbe, 0x0c, 0x69, 0x0b, 0x9f, 0x66, 0x57, 0x5a, 0x1d, 0x76, 0x6b, 0x54, 0xe3, 0x68, 0xc8, 0x4e]
  const NONCE_V1: seq<byte> := [0x46, 0x15, 0x99, 0xd3, 0x5d, 0x63, 0x2b, 0xf2, 0x23, 0x98, 0x25, 0xbb]
  const KEY_V2: seq<byte> :=
    [0x8f, 0xb4, 0xb0, 0x1b, 0x56, 0xac, 0x48, 0xe2, 0x60, 0xfb, 0xcb, 0xce, 0xad, 0x7c, 0xcc, 0x92]
  const NONCE_V2: seq<byte> := [0xd8, 0x69, 0x69, 0xbc, 0x2d, 0x7c, 0x6d, 0x99, 0x90, 0xef, 0xb0, 0x4a]

  const TAG_LEN: nat := 16
  const PSEUDO_MAX: nat := 1024

  datatype BuildError = OutputTooSmall | CidTooLong | PseudoTooLong | UnsupportedVersion
  datatype BuildResult = Built(n: nat) | Failed(error: BuildError)

  predicate KnownVersion(v: nat) { v == QUIC_V1 || v == QUIC_V2 }

  /** Everything before the tag. */
  function Body(version: nat, dcid: seq<byte>, scid: seq<byte>, token: seq<byte>): (b: seq<byte>)
    requires KnownVersion(version) && |dcid| <= MAX_CID && |scid| <= MAX_CID
    ensures |b| == 7 + |dcid| + |scid| + |token|
  {
    [if version == QUIC_V1 then 0xf0 else 0xc0] + ToBe(version, 4) + [|dcid|] + dcid + [|scid|] + scid + token
  }

  function IntegrityTag(version: nat, odcid: seq<byte>, body: seq<byte>, gcm: Gcm): Tag
    requires KnownVersion(version) && |odcid| <= MAX_CID
  {
    var pseudo := [|odcid|] + odcid + body;
    if version == QUIC_V1 then gcm(KEY_V1, NONCE_V1, pseudo) else gcm(KEY_V2, NONCE_V2, pseudo)
  }

  function Retry(version: nat, odcid: seq<byte>, dcid: seq<byte>, scid: seq<byte>, token: seq<byte>,
                 gcm: Gcm): (r: seq<byte>)
    requires KnownVersion(version) && |odcid| <= MAX_CID && |dcid| <= MAX_CID && |scid| <= MAX_CID
    ensures |r| == 7 + |dcid| + |scid| + |token| + TAG_LEN
  {
    var body := Body(version, dcid, scid, token);
    body + IntegrityTag(version, odcid, body, gcm)
  }

  /** Copy `src` to offset `off` and return the offset after it. */
  method Append(out: array<byte>, off: nat, src: seq<byte>) returns (next: nat)
    requires off + |src| <= out.Length
    modifies out
    ensures next == off + |src|
    ensures out[..next] == old(out[..off]) + src
    ensures forall i :: next <= i < out.Length ==> out[i] == old(out[i])
  {
    next := off + |src|;
    forall i | 0 <= i < |src| { out[off + i] := src[i]; }
  }

  lemma BodyParts(version: nat, dcid: seq<byte>, scid: seq<byte>, token: seq<byte>)
    requires KnownVersion(version) && |dcid| <= MAX_CID && |scid| <= MAX_CID
    ensures Body(version, dcid, scid, token)
         == [if version == QUIC_V1 then 0xf0 else 0xc0] + ToBe(version, 4) + ([|dcid|] + dcid) + ([|scid|] + scid)
            + token
  {
    hide ToBe;
  }

  /** The body's fields in order, with a moving offset. */
  method WriteBody(out: array<byte>, version: nat, dcid: seq<byte>, scid: seq<byte>,
                   token: seq<byte>) returns (off: nat)
    requires KnownVersion(version) && |dcid| <= MAX_CID && |scid| <= MAX_CID
    requires 7 + |dcid| + |scid| + |token| <= out.Length
    modifies out
    ensures off == 7 + |dcid| + |scid| + |token| && out[..off] == Body(version, dcid, scid, token)
    ensures forall i :: off <= i < out.Length ==> out[i] == old(out[i])
  {
    hide ToBe;
    var head := [if version == QUIC_V1 then 0xf0 else 0xc0] + ToBe(version, 4);
    var d, s := [|dcid|] + dcid, [|scid|] + scid;
    BodyParts(version, dcid, scid, token);
    hide Body;
    off := Append(out, 0, head);
    assert out[..off] == head;
    off := Append(out, off, d);
    off := Append(out, off, s);
    off := Append(out, off, token);
    assert out[..off] == head + d + s + token;
  }

  /** `build_retry`. */
  method BuildRetry(out: array<byte>, version: nat, odcid: seq<byte>, dcid: seq<byte>, scid: seq<byte>,
                    token: seq<byte>, gcm: Gcm)
    returns (r: BuildResult)
    modifies out
    ensures r.Built? <==>
      && KnownVersion(version) && |odcid| <= MAX_CID && |dcid| <= MAX_CID && |scid| <= MAX_CID
      && 7 + |dcid| + |scid| + |token| + TAG_LEN <= out.Length
      && 8 + |odcid| + |dcid| + |scid| + |token| <= PSEUDO_MAX
    ensures r.Built? ==> r.n <= out.Length && out[..r.n] == Retry(version, odcid, dcid, scid, token, gcm)
    ensures r.Built? ==> forall i :: r.n <= i < out.Length ==> out[i] == old(out[i])
  {
    if |odcid| > MAX_CID || |dcid| > MAX_CID || |scid| > MAX_CID { return Failed(CidTooLong); }
    if !KnownVersion(version) { return Failed(BuildError.UnsupportedVersion); }
    var bodyLen := 7 + |dcid| + |scid| + |token|;
    var total := bodyLen + TAG_LEN;
    if out.Length < total { return Failed(OutputTooSmall); }

    var off := WriteBody(out, version, dcid, scid, token);
    if 1 + |odcid| + off > PSEUDO_MAX { return Failed(PseudoTooLong); }
    off := Append(out, off, IntegrityTag(version, odcid, out[..off], gcm));
    r := Built(off);
  }

  /** A Retry is never mistaken for an Initial, in either version's type encoding. */
  lemma RetryIsNotInitial(version: nat, odcid: seq<byte>, dcid: seq<byte>, scid: seq<byte>, token: seq<byte>, gcm: Gcm)
    requires KnownVersion(version) && |odcid| <= MAX_CID && |dcid| <= MAX_CID && |scid| <= MAX_CID
    ensures ParseStrict(Retry(version, odcid, dcid, scid, token, gcm)) == Err(NotInitial)
  {
    hide Retry, ParseCids, ToBe, Be;
    RetryParts(version, odcid, dcid, scid, token, gcm);
    VersionBytes(version);
  }

  lemma RetryParts(version: nat, odcid: seq<byte>, dcid: seq<byte>, scid: seq<byte>, token: seq<byte>, gcm: Gcm)
    requires KnownVersion(version) && |odcid| <= MAX_CID && |dcid| <= MAX_CID && |scid| <= MAX_CID
    ensures var p, at, end := Retry(version, odcid, dcid, scid, token, gcm), 6 + |dcid|, 7 + |dcid| + |scid|;
            && p[0] == (if version == QUIC_V1 then 0xf0 else 0xc0) && p[1..5] == ToBe(version, 4)
            && p[5] == |dcid| && p[6..at] == dcid && p[at] == |scid| && p[at + 1..end] == scid
            && p[end..|p| - TAG_LEN] == token
            && p[|p| - TAG_LEN..] == IntegrityTag(version, odcid, p[..|p| - TAG_LEN], gcm)
  {
    hide ToBe, IntegrityTag;
    var p, body := Retry(version, odcid, dcid, scid, token, gcm), Body(version, dcid, scid, token);
    assert p[..|p| - TAG_LEN] == body;
  }

  // ------------------------------------------------------ the client's side

  /** What a client reads out of a Retry. */
  datatype Fields = Fields(version: nat, dcid: seq<byte>, scid: seq<byte>, token: seq<byte>, tag: seq<byte>)

  function ReadRetry(p: seq<byte>): Option<Fields> {
    if |p| < 7 + TAG_LEN || p[0] < 0xc0 then None
    else
      var dcidLen: nat := p[5];
      var at := 6 + dcidLen;
      if |p| < at + 1 + TAG_LEN then None
      else
        var scidLen: nat := p[at];
        var end := at + 1 + scidLen;
        if |p| < end + TAG_LEN then None
        else Some(Fields(Be(p[1..5]), p[6..at], p[at + 1..end], p[end..|p| - TAG_LEN], p[|p| - TAG_LEN..]))
  }

  /** A client reads back exactly the fields the Retry was built from. */
  lemma RetryReads(version: nat, odcid: seq<byte>, dcid: seq<byte>, scid: seq<byte>, token: seq<byte>, gcm: Gcm)
    requires KnownVersion(version) && |odcid| <= MAX_CID && |dcid| <= MAX_CID && |scid| <= MAX_CID
    ensures var p := Retry(version, odcid, dcid, scid, token, gcm);
            ReadRetry(p) == Some(Fields(version, dcid, scid, token,
                                        IntegrityTag(version, odcid, p[..|p| - TAG_LEN], gcm)))
  {
    hide Retry, IntegrityTag, ToBe, Be;
    RetryParts(version, odcid, dcid, scid, token, gcm);
    VersionBytes(version);
  }
}
