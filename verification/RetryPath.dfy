/**
  The Retry datapath: classify an Initial, and rewrite its frame in place into a
  Retry that goes back to the sender.
 */
module RetryPath {
  import opened Bits
  import opened Routes
  import opened Wire
  import opened Checksum
  import I = Initial
  import T = Token
  import P = RetryPacket

  datatype Mode = Observe | Always | Load

  /** `[retry]` settings. `rate` is what the load tracker reports and `trigger` the
      configured threshold; both matter only in load mode. */
  datatype RetryConfig = RetryConfig(
    enabled: bool, key: T.TokenKey, lifetimeMs: nat, mode: Mode, ports: set<nat>, trigger: nat, rate: nat, gcm: P.Gcm)

  datatype Outcome = Skip | Forward | Emitted

  datatype Detail = NoDetail | ParseError | TokenValid | TokenInvalid | TokenExpired | Issued | Observed

  // ---------------------------------------------------------------- layout

  datatype Layout = Layout(
    isV4: bool, ipHdrLen: nat, udpOffset: nat, quicOffset: nat,
    srcMac: seq<byte>, srcIp: IpAddr, dstIp: IpAddr, srcPort: nat, dstPort: nat)
  {
    predicate Ok() {
      && |srcMac| == 6 && srcPort < 65_536 && dstPort < 65_536
      && quicOffset == udpOffset + UDP_HDR && udpOffset == ETH_HDR + ipHdrLen
      && if isV4 then
           && srcIp.V4? && dstIp.V4? && |srcIp.octets| == |dstIp.octets| == 4
           && 20 <= ipHdrLen <= 60 && ipHdrLen % 4 == 0
         else srcIp.V6? && dstIp.V6? && |srcIp.octets| == |dstIp.octets| == 16 && ipHdrLen == 40
    }
  }

  /** UDP only, and IPv6 only without extension headers. */
  function FromParsed(p: Parsed): Option<Layout> {
    match p.l4
    case Icmp(_, _) => None
    case Udp(udp, quic, srcPort, dstPort) =>
      if !p.isV4 && p.ipHdrLen > IPV6_HDR then None
      else Some(Layout(p.isV4, p.ipHdrLen, udp, quic, p.srcMac, p.srcAddr, p.dstAddr, srcPort, dstPort))
  }

  lemma LayoutOfFrame(frame: seq<byte>)
    requires ParseFrame(frame).Some? && FromParsed(ParseFrame(frame).value).Some?
    ensures FromParsed(ParseFrame(frame).value).value.Ok()
  {
  }

  // ------------------------------------------------------------ classifier

  datatype Decision = DoSkip | DoForward | DoEmit

  /** Whether this mode answers an unvalidated Initial, and the Initials counted so far. */
  function Gate(cfg: RetryConfig, pending: nat): (bool, nat) {
    match cfg.mode
    case Always => (true, pending)
    case Observe => (false, pending)
    case Load => (cfg.rate >= cfg.trigger, pending + 1)
  }

  function Classify(h: I.Header, src: IpAddr, cfg: RetryConfig, nowMs: nat, pending: nat): (Decision, Detail, nat) {
    var (emit, counted) := Gate(cfg, pending);
    var decision := if emit then DoEmit else DoSkip;
    if |h.token| == T.TOKEN_LEN then
      match T.Verify(cfg.key, h.token, src, h.dcid, nowMs, cfg.lifetimeMs)
      case Valid => (DoForward, TokenValid, pending)
      case Invalid => (decision, TokenInvalid, counted)
      case Expired => (decision, TokenExpired, counted)
    else (decision, if emit then Issued else Observed, counted)
  }

  // -------------------------------------------------------------- rewriting

  function B16(v: nat): (s: seq<byte>)
    requires v < 65_536
    ensures |s| == 2
  {
    [v / 256, v % 256]
  }

  function EtherType(l: Layout): (s: seq<byte>)
    ensures |s| == 2
  {
    if l.isV4 then [0x08, 0x00] else [0x86, 0xdd]
  }

  function IpHeader(l: Layout, n: nat): (s: seq<byte>)
    requires l.Ok() && n <= 128
    ensures |s| == if l.isV4 then 20 else 40
  {
    if l.isV4 then
      [0x45, 0x00] + B16(28 + n) + [0, 0, 0x40, 0x00, 64, PROTO_UDP, 0, 0] + l.dstIp.octets + l.srcIp.octets
    else
      [0x60, 0, 0, 0] + B16(8 + n) + [PROTO_UDP, 64] + l.dstIp.octets + l.srcIp.octets
  }

  function UdpHeader(l: Layout, n: nat): (s: seq<byte>)
    requires l.Ok() && n <= 128
    ensures |s| == 8
  {
    B16(l.dstPort) + B16(l.srcPort) + B16(8 + n) + [0, 0]
  }

  /** Reply headers with zero checksums: addresses and ports reversed, our MAC as source. */
  function Headers(l: Layout, local: Mac, n: nat): (h: seq<byte>)
    requires l.Ok() && n <= 128
    ensures |h| == if l.isV4 then 42 else 62
  {
    l.srcMac + local + EtherType(l) + IpHeader(l, n) + UdpHeader(l, n)
  }

  /** `write_ipv4_checksum` with the received header length. */
  function WithIpv4Checksum(f: seq<byte>, ip: nat, hdrLen: nat): (r: seq<byte>)
    requires ip + hdrLen <= |f| && 12 <= hdrLen
    ensures |r| == |f|
  {
    var z := Store16(f, ip + 10, 0);
    Store16(z, ip + 10, ONES - Fold(Sum16(z[ip..ip + hdrLen])))
  }

  /** Pseudo-header and UDP sum of an IPv6 frame (section 8.1 of RFC 8200). */
  function Ipv6UdpSum(f: seq<byte>, ip: nat, udp: nat): nat
    requires ip + 40 <= |f| && udp + 8 <= |f| && udp + U16(f, udp + 4) <= |f|
  {
    var len := U16(f, udp + 4);
    Sum16(f[ip + 8..ip + 40]) + len + PROTO_UDP + Sum16(f[udp..udp + len])
  }

  function WithIpv6UdpChecksum(f: seq<byte>, ip: nat, udp: nat): (r: seq<byte>)
    requires ip + 40 <= udp && udp + 8 <= |f| && udp + U16(f, udp + 4) <= |f|
    ensures |r| == |f|
  {
    var z := Store16(f, udp + 6, 0);
    var sum := ONES - Fold(Ipv6UdpSum(z, ip, udp));
    Store16(z, udp + 6, if sum == 0 then ONES else sum)
  }

  /** The frame `emit` leaves behind. */
  function Reply(l: Layout, local: Mac, retry: seq<byte>): (f: seq<byte>)
    requires l.Ok() && 40 <= |retry| <= 128
    ensures |f| == |retry| + if l.isV4 then 42 else 62
  {
    var f := Headers(l, local, |retry|) + retry;
    if l.isV4 then WithIpv4Checksum(f, ETH_HDR, l.ipHdrLen)
    else
      assert f[58..60] == B16(8 + |retry|);
      WithIpv6UdpChecksum(f, ETH_HDR, l.udpOffset)
  }

  /** What `try_handle` does to a parsed frame: outcome, detail, frame bytes and the
      batch's Initial tally. `capacity` is the size of the frame's UMEM chunk. */
  datatype Handled = Handled(outcome: Outcome, detail: Detail, frame: seq<byte>, pending: nat)

  /** The Retry for an Initial: DCID echoes the client's SCID, SCID reuses the ODCID. */
  function RetryFor(h: I.Header, l: Layout, cfg: RetryConfig, nowMs: nat): (r: seq<byte>)
    requires P.KnownVersion(h.version) && |h.dcid| <= I.MAX_CID && |h.scid| <= I.MAX_CID
    ensures |r| == 47 + |h.dcid| + |h.scid|
  {
    P.Retry(h.version, h.dcid, h.scid, h.dcid, T.Mint(cfg.key, l.srcIp, h.dcid, nowMs).value, cfg.gcm)
  }

  predicate Answerable(l: Layout, h: I.Header) {
    l.Ok() && P.KnownVersion(h.version) && |h.dcid| <= I.MAX_CID && |h.scid| <= I.MAX_CID
  }

  function HandleInitial(frame: seq<byte>, l: Layout, h: I.Header, cfg: RetryConfig, local: Mac, nowMs: nat,
                         capacity: nat, pending: nat): Handled
    requires Answerable(l, h)
  {
    var (decision, detail, pending') := Classify(h, l.srcIp, cfg, nowMs, pending);
    match decision
    case DoForward => Handled(Forward, detail, frame, pending')
    case DoSkip => Handled(Skip, detail, frame, pending')
    case DoEmit =>
      var reply := Reply(l, local, RetryFor(h, l, cfg, nowMs));
      if |reply| > capacity then Handled(Skip, detail, frame, pending')
      else Handled(Emitted, detail, reply, pending')
  }

  /** Packets that are simply not Initials, as against broken ones. */
  predicate Silent(e: I.ParseError) {
    e.NotLongHeader? || e.NotInitial? || e.FixedBitUnset? || e.UnsupportedVersion? || e.Truncated?
  }

  function TryHandle(frame: seq<byte>, parsed: Parsed, cfg: Option<RetryConfig>, local: Mac, nowMs: nat,
                     capacity: nat, pending: nat): Handled
    requires ParseFrame(frame) == Some(parsed)
  {
    if cfg.None? || !cfg.value.enabled then Handled(Skip, NoDetail, frame, pending)
    else
      match FromParsed(parsed)
      case None => Handled(Skip, NoDetail, frame, pending)
      case Some(l) =>
        if cfg.value.ports != {} && l.dstPort !in cfg.value.ports then Handled(Skip, NoDetail, frame, pending)
        else
          match I.ParseStrict(frame[l.quicOffset..])
          case Err(e) =>
            Handled(Skip, if Silent(e) then NoDetail else ParseError, frame, pending)
          case Ok(h) =>
            LayoutOfFrame(frame);
            I.CidPartTiles(frame[l.quicOffset..]);
            HandleInitial(frame, l, h, cfg.value, local, nowMs, capacity, pending)
  }

  /** An emitted Retry is always counted: its detail is never the silent one; and a
      frame is changed only by emitting. */
  lemma EmittedIsCounted(frame: seq<byte>, parsed: Parsed, cfg: Option<RetryConfig>, local: Mac, nowMs: nat,
                         capacity: nat, pending: nat)
    requires ParseFrame(frame) == Some(parsed)
    ensures var r := TryHandle(frame, parsed, cfg, local, nowMs, capacity, pending);
            && (r.outcome.Emitted? ==> !r.detail.NoDetail? && !r.detail.ParseError? && !r.detail.TokenValid?)
            && (r.outcome.Emitted? ==> |r.frame| <= capacity)
            && (!r.outcome.Emitted? ==> r.frame == frame)
            && (r.outcome.Forward? <==> r.detail.TokenValid?)
  {
    hide I.ParseStrict, Reply, ParseFrame, RetryFor, T.Verify, T.Mint, Layout.Ok, FromParsed;
  }

  /** The tally kept for the load mode decides nothing. */
  lemma OutcomeIgnoresTally(frame: seq<byte>, parsed: Parsed, cfg: Option<RetryConfig>, local: Mac, nowMs: nat,
                            capacity: nat,
                            pending: nat, pending': nat)
    requires ParseFrame(frame) == Some(parsed)
    ensures TryHandle(frame, parsed, cfg, local, nowMs, capacity, pending).outcome
         == TryHandle(frame, parsed, cfg, local, nowMs, capacity, pending').outcome
  {
    hide I.ParseStrict, Reply, ParseFrame, RetryFor, T.Verify, T.Mint, Layout.Ok, FromParsed;
  }

  lemma IcmpIsSkipped(frame: seq<byte>, parsed: Parsed, cfg: Option<RetryConfig>, local: Mac, nowMs: nat,
                      capacity: nat, pending: nat)
    requires ParseFrame(frame) == Some(parsed) && parsed.l4.Icmp?
    ensures TryHandle(frame, parsed, cfg, local, nowMs, capacity, pending).outcome.Skip?
  {
    hide I.ParseStrict, HandleInitial, ParseFrame;
  }

  // ---------------------------------------------------------- the reply

  /** The checksum writers touch only their own two bytes. */
  lemma ReplyBytes(l: Layout, local: Mac, retry: seq<byte>)
    requires l.Ok() && 40 <= |retry| <= 128
    ensures var f, g := Reply(l, local, retry), Headers(l, local, |retry|) + retry;
            var at := if l.isV4 then 24 else 60;
            forall i :: 0 <= i < |f| && i != at && i != at + 1 ==> f[i] == g[i]
  {
  }

  lemma PlainV4Parses(f: seq<byte>)
    requires |f| >= 42 && U16(f, 12) == ETH_P_IP && f[14] == 0x45 && f[23] == PROTO_UDP
    ensures ParseFrame(f) == Some(Parsed(true, 20, f[6..12], V4(f[26..30]), V4(f[30..34]),
                                         Udp(34, 42, U16(f, 34), U16(f, 36))))
  {
  }

  lemma PlainV6Parses(f: seq<byte>)
    requires |f| >= 62 && U16(f, 12) == ETH_P_IPV6 && f[20] == PROTO_UDP
    ensures ParseFrame(f) == Some(Parsed(false, 40, f[6..12], V6(f[22..38]), V6(f[38..54]),
                                         Udp(54, 62, U16(f, 54), U16(f, 56))))
  {
    assert Walk(f, PROTO_UDP, 54, MAX_EXT_HDRS, true) == Some((PROTO_UDP, 54));
  }

  /** The reply parses as the same flow reversed, from our MAC, with the Retry as its
      whole payload. */
  lemma ReplyReverses(l: Layout, local: Mac, retry: seq<byte>)
    requires l.Ok() && 40 <= |retry| <= 128
    ensures var f := Reply(l, local, retry); var udp := if l.isV4 then 34 else 54;
            && ParseFrame(f) == Some(Parsed(l.isV4, udp - ETH_HDR, local, l.dstIp, l.srcIp,
                                            Udp(udp, udp + UDP_HDR, l.dstPort, l.srcPort)))
            && f[udp + UDP_HDR..] == retry && f[..6] == l.srcMac
  {
    hide Reply, Headers, ParseFrame, U16, Layout.Ok;
    SameFamily(l);
    ReplyBytes(l, local, retry);
    HeaderFields(l, local, retry);
    var f, g := Reply(l, local, retry), Headers(l, local, |retry|) + retry;
    var udp := if l.isV4 then 34 else 54;
    assert |f| == |g| == udp + UDP_HDR + |retry|;
    assert f[udp + UDP_HDR..] == g[udp + UDP_HDR..] && f[..6] == g[..6] && f[6..12] == g[6..12];
    SameU16(f, g, 12);
    SameU16(f, g, udp);
    SameU16(f, g, udp + 2);
    if l.isV4 {
      assert f[26..30] == g[26..30] && f[30..34] == g[30..34];
      PlainV4Parses(f);
    } else {
      assert f[22..38] == g[22..38] && f[38..54] == g[38..54];
      PlainV6Parses(f);
    }
  }

  lemma SameFamily(l: Layout)
    requires l.Ok()
    ensures if l.isV4 then l.dstIp.V4? && l.srcIp.V4? else l.dstIp.V6? && l.srcIp.V6?
  {
  }

  lemma SameU16(f: seq<byte>, g: seq<byte>, at: nat)
    requires at + 2 <= |f| && at + 2 <= |g| && f[at] == g[at] && f[at + 1] == g[at + 1]
    ensures U16(f, at) == U16(g, at)
  {
  }

  lemma HeaderFields(l: Layout, local: Mac, retry: seq<byte>)
    requires l.Ok() && 40 <= |retry| <= 128
    ensures var g := Headers(l, local, |retry|) + retry; var udp := if l.isV4 then 34 else 54;
            && g[..6] == l.srcMac && g[6..12] == local && g[udp + UDP_HDR..] == retry
            && U16(g, udp) == l.dstPort && U16(g, udp + 2) == l.srcPort && U16(g, udp + 4) == 8 + |retry|
            && U16(g, 12) == (if l.isV4 then ETH_P_IP else ETH_P_IPV6)
            && (l.isV4 ==> g[14] == 0x45 && g[23] == PROTO_UDP)
            && (l.isV4 ==> g[26..30] == l.dstIp.octets && g[30..34] == l.srcIp.octets)
            && (!l.isV4 ==> g[20] == PROTO_UDP && g[22..38] == l.dstIp.octets && g[38..54] == l.srcIp.octets)
  {
    hide Headers, IpHeader, UdpHeader, EtherType;
    HeaderParts(l, local, retry);
    EtherUdpFields(l, local, retry);
    IpHeaderFields(l, local, retry);
  }

  lemma EtherUdpFields(l: Layout, local: Mac, retry: seq<byte>)
    requires l.Ok() && 40 <= |retry| <= 128
    ensures var g := Headers(l, local, |retry|) + retry; var udp := if l.isV4 then 34 else 54;
            && U16(g, udp) == l.dstPort && U16(g, udp + 2) == l.srcPort && U16(g, udp + 4) == 8 + |retry|
            && U16(g, 12) == (if l.isV4 then ETH_P_IP else ETH_P_IPV6)
  {
    hide Headers, IpHeader, UdpHeader, EtherType, U16, Layout.Ok;
    var g, udp := Headers(l, local, |retry|) + retry, if l.isV4 then 34 else 54;
    var u := UdpHeader(l, |retry|);
    HeaderParts(l, local, retry);
    UdpFields(l, |retry|);
    EtherField(l);
    SliceU16(g, 12, 0, EtherType(l));
    SliceU16(g, udp, 0, u);
    SliceU16(g, udp, 2, u);
    SliceU16(g, udp, 4, u);
  }

  lemma EtherField(l: Layout)
    ensures U16(EtherType(l), 0) == if l.isV4 then ETH_P_IP else ETH_P_IPV6
  {
  }

  lemma IpHeaderFields(l: Layout, local: Mac, retry: seq<byte>)
    requires l.Ok() && 40 <= |retry| <= 128
    ensures var g := Headers(l, local, |retry|) + retry;
            && (l.isV4 ==> g[14] == 0x45 && g[23] == PROTO_UDP)
            && (l.isV4 ==> g[26..30] == l.dstIp.octets && g[30..34] == l.srcIp.octets)
            && (!l.isV4 ==> g[20] == PROTO_UDP && g[22..38] == l.dstIp.octets && g[38..54] == l.srcIp.octets)
  {
    hide Headers, IpHeader, UdpHeader, EtherType, Layout.Ok;
    var g, ip := Headers(l, local, |retry|) + retry, IpHeader(l, |retry|);
    HeaderParts(l, local, retry);
    IpFields(l, |retry|);
    assert g[14..14 + |ip|] == ip;
    if l.isV4 {
      SliceParts(g, 14, ip, 0, 0);
      SliceParts(g, 14, ip, 9, 9);
      SliceParts(g, 14, ip, 12, 16);
      SliceParts(g, 14, ip, 16, 20);
    } else {
      SliceParts(g, 14, ip, 6, 6);
      SliceParts(g, 14, ip, 8, 24);
      SliceParts(g, 14, ip, 24, 40);
    }
  }

  lemma SliceParts(g: seq<byte>, at: nat, s: seq<byte>, i: nat, j: nat)
    requires i <= j <= |s| && at + |s| <= |g| && s == g[at..at + |s|]
    ensures g[at + i..at + j] == s[i..j] && (i < |s| ==> g[at + i] == s[i])
  {
    assert forall k :: 0 <= k < |s| ==> g[at + k] == s[k];
  }

  lemma SliceU16(g: seq<byte>, at: nat, i: nat, s: seq<byte>)
    requires i + 2 <= |s| && at + |s| <= |g| && s == g[at..at + |s|]
    ensures U16(g, at + i) == U16(s, i)
  {
  }

  lemma HeaderParts(l: Layout, local: Mac, retry: seq<byte>)
    requires l.Ok() && 40 <= |retry| <= 128
    ensures var g := Headers(l, local, |retry|) + retry; var udp := if l.isV4 then 34 else 54;
            && |g| == udp + 8 + |retry|
            && g[..6] == l.srcMac && g[6..12] == local && g[12..14] == EtherType(l)
            && g[14..udp] == IpHeader(l, |retry|)
            && g[udp..udp + 8] == UdpHeader(l, |retry|) && g[udp + 8..] == retry
  {
    hide EtherType, IpHeader, UdpHeader;
  }

  lemma IpFields(l: Layout, n: nat)
    requires l.Ok() && n <= 128
    ensures var ip := IpHeader(l, n);
            if l.isV4 then
              && ip[0] == 0x45 && ip[9] == PROTO_UDP
              && ip[12..16] == l.dstIp.octets && ip[16..20] == l.srcIp.octets
            else ip[6] == PROTO_UDP && ip[8..24] == l.dstIp.octets && ip[24..40] == l.srcIp.octets
  {
  }

  lemma UdpFields(l: Layout, n: nat)
    requires l.Ok() && n <= 128
    ensures var u := UdpHeader(l, n); U16(u, 0) == l.dstPort && U16(u, 2) == l.srcPort && U16(u, 4) == 8 + n
  {
  }

  // --------------------------------------------------------- round trip

  /** The Initial a frame carries, as `try_handle` sees it. */
  predicate CarriesInitial(frame: seq<byte>, l: Layout, h: I.Header) {
    && ParseFrame(frame).Some? && FromParsed(ParseFrame(frame).value) == Some(l)
    && l.quicOffset <= |frame| && I.ParseStrict(frame[l.quicOffset..]) == I.Ok(h)
  }

  lemma EmittedIsReply(frame: seq<byte>, l: Layout, h: I.Header, cfg: RetryConfig, local: Mac, nowMs: nat,
                       capacity: nat, pending: nat)
    requires CarriesInitial(frame, l, h)
    requires TryHandle(frame, ParseFrame(frame).value, Some(cfg), local, nowMs, capacity, pending).outcome.Emitted?
    ensures l.Ok() && P.KnownVersion(h.version) && |h.dcid| <= I.MAX_CID && |h.scid| <= I.MAX_CID
    ensures TryHandle(frame, ParseFrame(frame).value, Some(cfg), local, nowMs, capacity, pending).frame
         == Reply(l, local, RetryFor(h, l, cfg, nowMs))
  {
    hide I.ParseStrict, Reply, ParseFrame, T.Verify, T.Mint, P.Retry, Layout.Ok, FromParsed, Classify;
    LayoutOfFrame(frame);
    I.CidPartTiles(frame[l.quicOffset..]);
  }

  /** `f` is the sender's flow reversed; the client reads from it its own SCID, the
      original DCID as the new server CID and a fresh token; and it is not itself an
      Initial. */
  predicate Answers(f: seq<byte>, l: Layout, h: I.Header, cfg: RetryConfig, local: Mac, nowMs: nat) {
    var udp := if l.isV4 then 34 else 54;
    && ParseFrame(f) == Some(Parsed(l.isV4, udp - ETH_HDR, local, l.dstIp, l.srcIp,
                                    Udp(udp, udp + UDP_HDR, l.dstPort, l.srcPort)))
    && |f| >= udp + UDP_HDR && f[..6] == l.srcMac
    && I.ParseStrict(f[udp + UDP_HDR..]) == I.Err(I.NotInitial)
    && (l.ipHdrLen == 20 || !l.isV4 ==> ChecksumVerifies(f, l.isV4))
    && var r := P.ReadRetry(f[udp + UDP_HDR..]);
       && r.Some? && r.value.version == h.version && r.value.dcid == h.scid && r.value.scid == h.dcid
       && |h.dcid| <= T.MAX_ODCID && Some(r.value.token) == T.Mint(cfg.key, l.srcIp, h.dcid, nowMs)
  }

  /** Every emitted reply is such an answer. */
  lemma EmittedReply(frame: seq<byte>, l: Layout, h: I.Header, cfg: RetryConfig, local: Mac, nowMs: nat,
                     capacity: nat, pending: nat)
    requires CarriesInitial(frame, l, h)
    requires TryHandle(frame, ParseFrame(frame).value, Some(cfg), local, nowMs, capacity, pending).outcome.Emitted?
    ensures Answers(TryHandle(frame, ParseFrame(frame).value, Some(cfg), local, nowMs, capacity, pending).frame,
                    l, h, cfg, local, nowMs)
  {
    hide TryHandle, CarriesInitial, Answers, Reply, RetryFor, ParseFrame, Layout.Ok;
    EmittedIsReply(frame, l, h, cfg, local, nowMs, capacity, pending);
    ReplyAnswers(l, h, cfg, local, nowMs);
  }

  lemma ReplyAnswers(l: Layout, h: I.Header, cfg: RetryConfig, local: Mac, nowMs: nat)
    requires Answerable(l, h)
    ensures Answers(Reply(l, local, RetryFor(h, l, cfg, nowMs)), l, h, cfg, local, nowMs)
  {
    hide Reply, P.Retry, P.ReadRetry, I.ParseStrict, ParseFrame, T.Mint, ChecksumVerifies;
    var token := T.Mint(cfg.key, l.srcIp, h.dcid, nowMs).value;
    var retry := P.Retry(h.version, h.dcid, h.scid, h.dcid, token, cfg.gcm);
    ReplyReverses(l, local, retry);
    P.RetryReads(h.version, h.dcid, h.scid, h.dcid, token, cfg.gcm);
    P.RetryIsNotInitial(h.version, h.dcid, h.scid, h.dcid, token, cfg.gcm);
    ReplyChecksum(l, local, retry);
  }

  /** The test a receiver makes of a reply: the IPv4 header sum, or the IPv6 UDP sum with
      its pseudo-header and a checksum that is present. */
  predicate ChecksumVerifies(f: seq<byte>, isV4: bool) {
    if isV4 then |f| >= 34 && Verifies(Sum16(f[14..34]))
    else |f| >= 62 && 54 + U16(f, 58) <= |f| && U16(f, 60) != 0 && Verifies(Ipv6UdpSum(f, 14, 54))
  }

  lemma ReplyChecksum(l: Layout, local: Mac, retry: seq<byte>)
    requires l.Ok() && 40 <= |retry| <= 128
    ensures l.ipHdrLen == 20 || !l.isV4 ==> ChecksumVerifies(Reply(l, local, retry), l.isV4)
  {
    hide Reply, Sum16, Verifies, Ipv6UdpSum, U16;
    if l.isV4 && l.ipHdrLen == 20 { Ipv4ReplyVerifies(l, local, retry); }
    if !l.isV4 { Ipv6ReplyVerifies(l, local, retry); }
  }

  /** The client's answer: an Initial from the same address, addressed to the CID and
      carrying the token that were read from the reply, is forwarded in every mode and
      at every load while the token lives, under any config with the same key. */
  lemma AnsweredIsForwarded(l: Layout, h: I.Header, cfg: RetryConfig, nowMs: nat, r: P.Fields,
                            frame: seq<byte>, l2: Layout, h2: I.Header, cfg2: RetryConfig, local: Mac, nowMs2: nat,
                            capacity: nat, pending: nat)
    requires |h.dcid| <= T.MAX_ODCID && r.scid == h.dcid && Some(r.token) == T.Mint(cfg.key, l.srcIp, h.dcid, nowMs)
    requires CarriesInitial(frame, l2, h2) && h2.dcid == r.scid && h2.token == r.token && l2.srcIp == l.srcIp
    requires cfg2.enabled && cfg2.key == cfg.key && (cfg2.ports == {} || l2.dstPort in cfg2.ports)
    requires nowMs < T.U64 && nowMs <= nowMs2 <= nowMs + cfg2.lifetimeMs
    ensures TryHandle(frame, ParseFrame(frame).value, Some(cfg2), local, nowMs2, capacity, pending)
         == Handled(Forward, TokenValid, frame, pending)
  {
    hide I.ParseStrict, Reply, ParseFrame, RetryFor, T.Verify, T.Mint, Layout.Ok, FromParsed;
    T.MintedVerifies(cfg.key, l.srcIp, h.dcid, nowMs, nowMs2, cfg2.lifetimeMs);
  }

  /** The whole round trip: what the client reads from an emitted reply and sends back
      in its next Initial, from the same address and in time, gets it forwarded. */
  lemma RetryRoundTrip(frame: seq<byte>, l: Layout, h: I.Header, cfg: RetryConfig, local: Mac, nowMs: nat,
                       capacity: nat, pending: nat,
                       r: P.Fields, frame2: seq<byte>, l2: Layout, h2: I.Header, cfg2: RetryConfig, nowMs2: nat,
                       capacity2: nat, pending2: nat)
    requires CarriesInitial(frame, l, h)
    requires var out := TryHandle(frame, ParseFrame(frame).value, Some(cfg), local, nowMs, capacity, pending);
             var quic := if l.isV4 then 42 else 62;
             out.outcome.Emitted? && |out.frame| >= quic && P.ReadRetry(out.frame[quic..]) == Some(r)
    requires CarriesInitial(frame2, l2, h2) && h2.dcid == r.scid && h2.token == r.token && l2.srcIp == l.srcIp
    requires cfg2.enabled && cfg2.key == cfg.key && (cfg2.ports == {} || l2.dstPort in cfg2.ports)
    requires nowMs < T.U64 && nowMs <= nowMs2 <= nowMs + cfg2.lifetimeMs
    ensures TryHandle(frame2, ParseFrame(frame2).value, Some(cfg2), local, nowMs2, capacity2, pending2)
         == Handled(Forward, TokenValid, frame2, pending2)
  {
    assert UDP_HDR == 8;
    hide *;
    EmittedReply(frame, l, h, cfg, local, nowMs, capacity, pending);
    AnsweredIsForwarded(l, h, cfg, nowMs, r, frame2, l2, h2, cfg2, local, nowMs2, capacity2, pending2);
  }

  // ---------------------------------------------------------- checksums

  /** The receiver's IPv4 test on a reply passes exactly when the bytes summed beyond
      the 20-byte header it carries (there are some when the received header had
      options) sum to a multiple of 0xffff. */
  lemma Ipv4ChecksumExactly(f: seq<byte>, ip: nat, hdrLen: nat)
    requires ip + hdrLen <= |f| && 20 <= hdrLen && f[ip] > 0
    ensures Verifies(Sum16(WithIpv4Checksum(f, ip, hdrLen)[ip..ip + 20]))
       <==> Sum16(f[ip + 20..ip + hdrLen]) % ONES == 0
  {
    hide Sum16, Fold, Verifies, WithIpv4Checksum, Store16;
    var head, over := Store16(f, ip + 10, 0)[ip..ip + 20], f[ip + 20..ip + hdrLen];
    var s := Sum16(head) + Sum16(over);
    var c := ONES - Fold(s);
    StoredInHeader(f, ip, hdrLen);
    SumWithField(head, 10, c);
    SumPositive(head);
    FoldResidue(s);
    VerifiesExactly(Sum16(head) + c);
    Complement(Sum16(head), Sum16(over), Fold(s));
  }

  /** The 20 header bytes after the checksum was stored. */
  lemma StoredInHeader(f: seq<byte>, ip: nat, hdrLen: nat)
    requires ip + hdrLen <= |f| && 20 <= hdrLen
    ensures var head, over := Store16(f, ip + 10, 0)[ip..ip + 20], f[ip + 20..ip + hdrLen];
            && head[0] == f[ip] && head[10] == 0 && head[11] == 0
            && WithIpv4Checksum(f, ip, hdrLen)[ip..ip + 20]
               == Store16(head, 10, ONES - Fold(Sum16(head) + Sum16(over)))
  {
    hide Sum16, Fold;
    var z := Store16(f, ip + 10, 0);
    var head, over := z[ip..ip + 20], f[ip + 20..ip + hdrLen];
    assert z[ip..ip + hdrLen] == head + over;
    SumAppend(head, over);
  }

  lemma SumPositive(s: seq<byte>)
    requires s != [] && s[0] > 0
    ensures Sum16(s) > 0
  {
  }

  lemma Complement(head: nat, over: nat, folded: nat)
    requires folded <= ONES && folded % ONES == (head + over) % ONES
    ensures (head + (ONES - folded)) % ONES == 0 <==> over % ONES == 0
  {
  }

  /** For the reply those bytes are the start of its UDP header and of the Retry. */
  lemma Ipv4ReplyExactly(l: Layout, local: Mac, retry: seq<byte>)
    requires l.Ok() && l.isV4 && 40 <= |retry| <= 128
    ensures 20 <= l.ipHdrLen <= 60
    ensures ChecksumVerifies(Reply(l, local, retry), true) <==>
            Sum16((UdpHeader(l, |retry|) + retry)[..l.ipHdrLen - 20]) % ONES == 0
  {
    hide Reply, Headers, UdpHeader, IpHeader, EtherType, WithIpv4Checksum, Sum16, Verifies;
    var g, over := Headers(l, local, |retry|) + retry, UdpHeader(l, |retry|) + retry;
    HeaderParts(l, local, retry);
    IpHeaderFields(l, local, retry);
    ReplyIsChecksummed(l, local, retry);
    assert g[34..] == g[34..42] + g[42..];
    assert g[34..ETH_HDR + l.ipHdrLen] == over[..l.ipHdrLen - 20];
    Ipv4ChecksumExactly(g, ETH_HDR, l.ipHdrLen);
  }

  /** So without options the reply's IPv4 checksum verifies. */
  lemma Ipv4ReplyVerifies(l: Layout, local: Mac, retry: seq<byte>)
    requires l.Ok() && l.isV4 && l.ipHdrLen == 20 && 40 <= |retry| <= 128
    ensures ChecksumVerifies(Reply(l, local, retry), true)
  {
    hide Reply, UdpHeader, ChecksumVerifies;
    Ipv4ReplyExactly(l, local, retry);
  }

  /** The IPv6 UDP checksum of every reply verifies over the pseudo-header, is never the
      reserved zero, and its sum fits the `u32` accumulator. */
  lemma Ipv6ChecksumVerifies(f: seq<byte>, ip: nat, udp: nat)
    requires ip + 40 <= udp && udp + 8 <= |f| && U16(f, udp + 4) >= 8 && udp + U16(f, udp + 4) <= |f|
    ensures var g := WithIpv6UdpChecksum(f, ip, udp);
            && U16(g, udp + 6) != 0 && U16(g, udp + 4) == U16(f, udp + 4)
            && Verifies(Ipv6UdpSum(g, ip, udp)) && Ipv6UdpSum(g, ip, udp) < WORD
  {
    hide Sum16, Fold;
    var z := Store16(f, udp + 6, 0);
    assert U16(z, udp + 4) == U16(f, udp + 4) && z[udp + 6] == 0 && z[udp + 7] == 0;
    var base := Ipv6UdpSum(z, ip, udp);
    assert base < WORD - ONES;
    var c := StoredChecksum(base);
    hide *;
    Ipv6SumWithField(z, ip, udp, c);
  }

  /** The stored value: the complement of the folded sum, all ones in place of zero. */
  lemma {:induction false} StoredChecksum(base: nat) returns (c: nat)
    requires base < WORD - ONES
    ensures c == var sum := ONES - Fold(base); if sum == 0 then ONES else sum
    ensures 0 < c <= ONES && Verifies(base + c)
  {
    hide Fold, Verifies;
    FoldResidue(base);
    c := if Fold(base) == ONES then ONES else ONES - Fold(base);
    VerifiesExactly(base + c);
    Complement(base, 0, Fold(base));
  }

  lemma Ipv6SumWithField(z: seq<byte>, ip: nat, udp: nat, c: nat)
    requires ip + 40 <= udp && udp + 8 <= |z| && U16(z, udp + 4) >= 8 && udp + U16(z, udp + 4) <= |z|
    requires z[udp + 6] == 0 && z[udp + 7] == 0 && c <= ONES
    ensures var g := Store16(z, udp + 6, c);
            && U16(g, udp + 4) == U16(z, udp + 4) && U16(g, udp + 6) == c
            && Ipv6UdpSum(g, ip, udp) == Ipv6UdpSum(z, ip, udp) + c
  {
    var g, len := Store16(z, udp + 6, c), U16(z, udp + 4);
    var seg := z[udp..udp + len];
    SumWithField(seg, 6, c);
    assert g[udp..udp + len] == Store16(seg, 6, c);
    assert g[ip + 8..ip + 40] == z[ip + 8..ip + 40];
    hide Sum16;
  }

  lemma Ipv6ReplyVerifies(l: Layout, local: Mac, retry: seq<byte>)
    requires l.Ok() && !l.isV4 && 40 <= |retry| <= 128
    ensures var f := Reply(l, local, retry);
            && U16(f, 58) == 8 + |retry| && U16(f, 60) != 0
            && Verifies(Ipv6UdpSum(f, ETH_HDR, 54)) && Ipv6UdpSum(f, ETH_HDR, 54) < WORD
  {
    HeaderFields(l, local, retry);
    Ipv6ChecksumVerifies(Headers(l, local, |retry|) + retry, ETH_HDR, 54);
  }

  /** With one word of received options the sum runs into the UDP ports, so the reply's
      IPv4 checksum verifies only for ports that cancel. */
  lemma Ipv4OptionsExactly(l: Layout, local: Mac, retry: seq<byte>)
    requires l.Ok() && l.isV4 && l.ipHdrLen == 24 && 40 <= |retry| <= 128
    ensures ChecksumVerifies(Reply(l, local, retry), true) <==> (l.srcPort + l.dstPort) % ONES == 0
  {
    hide Reply, ChecksumVerifies, Sum16;
    var over := (UdpHeader(l, |retry|) + retry)[..4];
    Ipv4ReplyExactly(l, local, retry);
    SumPorts(l.dstPort, l.srcPort);
    assert over == B16(l.dstPort) + B16(l.srcPort);
  }

  lemma SumPorts(a: nat, b: nat)
    requires a < 65_536 && b < 65_536
    ensures Sum16(B16(a) + B16(b)) == a + b
  {
    hide Sum16;
    var v, w := B16(a), B16(b);
    SumPair(v[0], v[1], w);
    SumPair(w[0], w[1], []);
    assert [v[0], v[1]] + w == v + w && [w[0], w[1]] + [] == w;
    assert Sum16([]) == 0 by { SumNothing(); }
  }

  lemma SumNothing()
    ensures Sum16([]) == 0
  {
  }

  /** A UDP frame from port 1 to port 443 with one word of IPv4 options, carrying the
      smallest Initial. */
  const OPTIONS_HEADERS: seq<byte> :=
    seq(46, i => if i == 12 then 8 else if i == 14 then 0x46 else if i == 23 then PROTO_UDP
                 else if i == 39 || i == 40 then 1 else if i == 41 then 187 else 0)
  const SMALL_INITIAL: I.Header := I.Header(0xc0, I.QUIC_V1, [], [], [], 0, 9)

  lemma SmallInitialParses()
    ensures |I.Wire(SMALL_INITIAL, 1, 1)| == 9 && I.ParseStrict(I.Wire(SMALL_INITIAL, 1, 1)) == I.Ok(SMALL_INITIAL)
  {
    var quic := I.Wire(SMALL_INITIAL, 1, 1);
    I.SerialisedParses(SMALL_INITIAL, 1, 1, []);
    hide I.ParseStrict, I.Wire;
    assert quic + [] == quic;
  }

  lemma OptionsParse(f: seq<byte>)
    requires |f| >= 46 && U16(f, 12) == ETH_P_IP && f[14] == 0x46 && f[23] == PROTO_UDP
    ensures ParseFrame(f) == Some(Parsed(true, 24, f[6..12], V4(f[26..30]), V4(f[30..34]),
                                         Udp(38, 46, U16(f, 38), U16(f, 40))))
  {
  }

  lemma OptionsFrameCarries(frame: seq<byte>) returns (l: Layout)
    requires frame == OPTIONS_HEADERS + I.Wire(SMALL_INITIAL, 1, 1)
    ensures CarriesInitial(frame, l, SMALL_INITIAL)
    ensures l.isV4 && l.ipHdrLen == 24 && l.srcPort == 1 && l.dstPort == 443
  {
    hide I.ParseStrict, I.Wire, ParseFrame, I.Varint;
    SmallInitialParses();
    var quic := I.Wire(SMALL_INITIAL, 1, 1);
    assert frame[46..] == quic;
    assert U16(frame, 12) == ETH_P_IP && frame[14] == 0x46 && frame[23] == PROTO_UDP;
    assert U16(frame, 38) == 1 && U16(frame, 40) == 443;
    OptionsParse(frame);
    l := FromParsed(ParseFrame(frame).value).value;
  }

  /** It is answered, and with an IPv4 checksum that does not verify. */
  lemma OptionsBreakChecksum(frame: seq<byte>, cfg: RetryConfig, local: Mac, nowMs: nat, pending: nat)
    requires frame == OPTIONS_HEADERS + I.Wire(SMALL_INITIAL, 1, 1)
    requires cfg.enabled && cfg.mode.Always? && cfg.ports == {}
    ensures ParseFrame(frame).Some?
    ensures var out := TryHandle(frame, ParseFrame(frame).value, Some(cfg), local, nowMs, 2048, pending);
            out.outcome.Emitted? && |out.frame| >= 34 && !ChecksumVerifies(out.frame, true)
  {
    var l := OptionsFrameCarries(frame);
    var h := SMALL_INITIAL;
    assert h.token == [];
    hide *;
    AlwaysEmits(frame, l, h, cfg, local, nowMs, pending);
    EmittedIsReply(frame, l, h, cfg, local, nowMs, 2048, pending);
    var token := T.Mint(cfg.key, l.srcIp, h.dcid, nowMs).value;
    BadOptionsChecksum(l, local, P.Retry(h.version, h.dcid, h.scid, h.dcid, token, cfg.gcm));
  }

  lemma BadOptionsChecksum(l: Layout, local: Mac, retry: seq<byte>)
    requires l.Ok() && l.isV4 && l.ipHdrLen == 24 && l.srcPort == 1 && l.dstPort == 443 && 40 <= |retry| <= 128
    ensures |Reply(l, local, retry)| >= 34 && !ChecksumVerifies(Reply(l, local, retry), true)
  {
    hide Reply, ChecksumVerifies;
    Ipv4OptionsExactly(l, local, retry);
  }

  lemma AlwaysEmits(frame: seq<byte>, l: Layout, h: I.Header, cfg: RetryConfig, local: Mac, nowMs: nat, pending: nat)
    requires CarriesInitial(frame, l, h) && cfg.enabled && cfg.mode.Always? && cfg.ports == {} && h.token == []
    ensures TryHandle(frame, ParseFrame(frame).value, Some(cfg), local, nowMs, 2048, pending).outcome.Emitted?
  {
    hide TryHandle, CarriesInitial, Reply, RetryFor, Classify, Layout.Ok, ParseFrame;
    InitialIsHandled(frame, l, h, cfg, local, nowMs, 2048, pending);
    AlwaysDecides(h, l.srcIp, cfg, nowMs, pending);
  }

  lemma AlwaysDecides(h: I.Header, src: IpAddr, cfg: RetryConfig, nowMs: nat, pending: nat)
    requires cfg.mode.Always? && h.token == []
    ensures Classify(h, src, cfg, nowMs, pending) == (DoEmit, Issued, pending)
  {
  }

  lemma InitialIsHandled(frame: seq<byte>, l: Layout, h: I.Header, cfg: RetryConfig, local: Mac, nowMs: nat,
                         capacity: nat,
                         pending: nat)
    requires CarriesInitial(frame, l, h) && cfg.enabled && (cfg.ports == {} || l.dstPort in cfg.ports)
    ensures Answerable(l, h)
    ensures TryHandle(frame, ParseFrame(frame).value, Some(cfg), local, nowMs, capacity, pending)
         == HandleInitial(frame, l, h, cfg, local, nowMs, capacity, pending)
  {
    hide I.ParseStrict, ParseFrame, Layout.Ok, FromParsed, HandleInitial;
    LayoutOfFrame(frame);
    I.CidPartTiles(frame[l.quicOffset..]);
  }

  // -------------------------------------------------------------------- code

  /** `write_ipv4_checksum` on the first `n` bytes of a chunk. */
  method WriteIpv4Checksum(chunk: array<byte>, n: nat, ip: nat, hdrLen: nat)
    requires ip + hdrLen <= n <= chunk.Length && 12 <= hdrLen <= 60
    modifies chunk
    ensures chunk[..n] == WithIpv4Checksum(old(chunk[..n]), ip, hdrLen)
  {
    hide Sum16, Fold;
    chunk[ip + 10] := 0;
    chunk[ip + 11] := 0;
    ghost var z := chunk[..n];
    assert z == Store16(old(chunk[..n]), ip + 10, 0);
    var words := chunk[ip..ip + hdrLen];
    assert words == z[ip..ip + hdrLen];
    var sum := OnesComplementSum(words);
    chunk[ip + 10] := sum / 256;
    chunk[ip + 11] := sum % 256;
    assert chunk[..n] == Store16(z, ip + 10, sum);
  }

  method PlusWord(acc: nat, v: nat) returns (r: nat)
    requires acc < WORD && v < WORD
    ensures acc + v < WORD ==> r == acc + v
    ensures r < WORD
  {
    r := WAdd(acc, v);
  }

  lemma Ipv6SumParts(z: seq<byte>, ip: nat, udp: nat)
    requires ip + 40 <= udp && udp + 8 <= |z| && udp + U16(z, udp + 4) <= |z|
    ensures var len := U16(z, udp + 4);
            Ipv6UdpSum(z, ip, udp) == Sum16(z[ip + 8..ip + 40]) + len + PROTO_UDP + Sum16(z[udp..udp + len]) < WORD
    ensures PROTO_UDP == 17
  {
    hide Sum16;
  }

  /** The four `wrapping_add`s and the fold of `write_ipv6_udp_checksum`. */
  method Ipv6UdpChecksum(z: seq<byte>, ip: nat, udp: nat) returns (sum: nat)
    requires ip + 40 <= udp && udp + 8 <= |z| && udp + U16(z, udp + 4) <= |z|
    ensures 0 < sum <= ONES && sum == (var s := ONES - Fold(Ipv6UdpSum(z, ip, udp)); if s == 0 then ONES else s)
  {
    assert 0 < ONES < WORD;
    hide *;
    Ipv6SumParts(z, ip, udp);
    var len := U16(z, udp + 4);
    var addresses, segment := z[ip + 8..ip + 40], z[udp..udp + len];
    var acc := FoldSlice(0, addresses);
    assert acc == Sum16(addresses);
    acc := PlusWord(acc, len);
    acc := PlusWord(acc, PROTO_UDP);
    acc := FoldSlice(acc, segment);
    acc := FoldLoop(acc);
    sum := ONES - acc;
    if sum == 0 { sum := ONES; }
  }

  method WriteIpv6UdpChecksum(chunk: array<byte>, n: nat, ip: nat, udp: nat)
    requires n <= chunk.Length && ip + 40 <= udp && udp + 8 <= n && udp + U16(chunk[..n], udp + 4) <= n
    modifies chunk
    ensures chunk[..n] == WithIpv6UdpChecksum(old(chunk[..n]), ip, udp)
  {
    chunk[udp + 6] := 0;
    chunk[udp + 7] := 0;
    var z := chunk[..n];
    assert z == Store16(old(chunk[..n]), udp + 6, 0);
    assert U16(z, udp + 4) == U16(old(chunk[..n]), udp + 4);
    hide U16, Ipv6UdpSum;
    var sum := Ipv6UdpChecksum(z, ip, udp);
    chunk[udp + 6] := sum / 256;
    chunk[udp + 7] := sum % 256;
    assert chunk[..n] == Store16(z, udp + 6, sum);
  }

  /** `out[off..off + n].copy_from_slice(src)`. */
  method Put(out: array<byte>, off: nat, src: seq<byte>)
    requires off + |src| <= out.Length
    modifies out
    ensures out[..off + |src|] == old(out[..off]) + src && out[off..off + |src|] == src
    ensures forall i :: 0 <= i < out.Length && !(off <= i < off + |src|) ==> out[i] == old(out[i])
  {
    forall i | 0 <= i < |src| { out[off + i] := src[i]; }
  }

  /** A two-byte field. */
  method Put16(out: array<byte>, off: nat, v: nat)
    requires off + 2 <= out.Length && v < 65_536
    modifies out
    ensures out[off] == v / 256 && out[off + 1] == v % 256
    ensures forall i :: 0 <= i < out.Length && i != off && i != off + 1 ==> out[i] == old(out[i])
  {
    Put(out, off, B16(v));
    assert out[off..off + 2][0] == v / 256 && out[off..off + 2][1] == v % 256;
  }

  /** The IPv4 header's fields at their offsets: version, length and identification, */
  method WriteIpv4Start(out: array<byte>, n: nat)
    requires n <= 128 && out.Length == 64
    modifies out
    ensures out[14..20] == [0x45, 0] + B16(28 + n) + [0, 0] && out[..14] == old(out[..14])
  {
    var ip := ETH_HDR;
    out[ip], out[ip + 1] := 0x45, 0;
    Put16(out, ip + 2, IPV4_HDR + UDP_HDR + n);
    Put16(out, ip + 4, 0);
  }

  /** then flags, TTL, protocol and the checksum's place, */
  method WriteIpv4Middle(out: array<byte>)
    requires out.Length == 64
    modifies out
    ensures out[20..26] == [0x40, 0, 64, PROTO_UDP, 0, 0] && out[..20] == old(out[..20])
  {
    var ip := ETH_HDR;
    Put16(out, ip + 6, 0x4000);
    out[ip + 8], out[ip + 9] := 64, PROTO_UDP;
    Put16(out, ip + 10, 0);
  }

  /** then the addresses. */
  method WriteIpv4Header(out: array<byte>, l: Layout, n: nat)
    requires l.Ok() && l.isV4 && n <= 128 && out.Length == 64
    modifies out
    ensures out[14..34] == IpHeader(l, n) && out[..14] == old(out[..14])
  {
    var ip := ETH_HDR;
    WriteIpv4Start(out, n);
    ghost var start := out[..20];
    assert start == out[..14] + out[14..20];
    WriteIpv4Middle(out);
    hide B16;
    assert out[..26] == start + out[20..26];
    ghost var fixed := out[..26];
    Put(out, ip + 12, l.dstIp.octets);
    Put(out, ip + 16, l.srcIp.octets);
    assert out[..26] == fixed && out[26..30] == l.dstIp.octets;
    assert out[14..34] == out[..26][14..] + out[26..30] + out[30..34];
    assert fixed[14..] == start[14..] + [0x40, 0, 64, PROTO_UDP, 0, 0];
  }

  /** The IPv6 header's fields at their offsets. */
  method WriteIpv6Header(out: array<byte>, l: Layout, n: nat)
    requires l.Ok() && !l.isV4 && n <= 128 && out.Length == 64
    modifies out
    ensures out[14..54] == IpHeader(l, n) && out[..14] == old(out[..14])
  {
    var ip := ETH_HDR;
    out[ip], out[ip + 1], out[ip + 2], out[ip + 3] := 0x60, 0, 0, 0;
    Put(out, ip + 4, B16(UDP_HDR + n));
    out[ip + 6], out[ip + 7] := PROTO_UDP, 64;
    ghost var fixed := out[14..22];
    assert fixed == [0x60, 0, 0, 0] + B16(8 + n) + [PROTO_UDP, 64];
    Put(out, ip + 8, l.dstIp.octets);
    Put(out, ip + 24, l.srcIp.octets);
    hide B16;
    assert out[14..22] == fixed && out[22..38] == l.dstIp.octets;
    assert out[14..54] == out[14..22] + out[22..38] + out[38..54];
  }

  method WriteUdpHeader(out: array<byte>, udp: nat, l: Layout, n: nat)
    requires l.Ok() && n <= 128 && udp + 8 <= out.Length
    modifies out
    ensures out[udp..udp + 8] == UdpHeader(l, n) && out[..udp] == old(out[..udp])
  {
    hide B16;
    ghost var before := out[..udp];
    Put(out, udp, B16(l.dstPort));
    Put(out, udp + 2, B16(l.srcPort));
    Put(out, udp + 4, B16(UDP_HDR + n));
    Put(out, udp + 6, [0, 0]);
    assert out[..udp + 8] == before + UdpHeader(l, n);
    assert out[udp..udp + 8] == out[..udp + 8][udp..];
  }

  /** `build_reflected_headers`, field by field at fixed offsets of the scratch buffer. */
  method BuildReflectedHeaders(out: array<byte>, l: Layout, local: Mac, n: nat) returns (len: nat)
    requires l.Ok() && n <= 128 && out.Length == 64
    modifies out
    ensures len == (if l.isV4 then 42 else 62) && out[..len] == Headers(l, local, n)
  {
    Put(out, 0, l.srcMac);
    Put(out, 6, local);
    Put(out, 12, if l.isV4 then [0x08, 0x00] else [0x86, 0xdd]);
    ghost var eth := out[..14];
    assert eth == l.srcMac + local + EtherType(l) by { assert eth == out[..6] + out[6..12] + out[12..14]; }
    var udp: nat;
    if l.isV4 {
      WriteIpv4Header(out, l, n);
      udp := ETH_HDR + IPV4_HDR;
    } else {
      WriteIpv6Header(out, l, n);
      udp := ETH_HDR + IPV6_HDR;
    }
    ghost var ip := out[14..udp];
    assert out[..14] == eth && ip == IpHeader(l, n);
    hide IpHeader, UdpHeader, EtherType;
    ghost var before := out[..udp];
    assert before == eth + ip;
    WriteUdpHeader(out, udp, l, n);
    len := udp + UDP_HDR;
    assert out[..len] == before + out[udp..udp + 8];
  }

  /** `emit` on a UMEM chunk: on success the first `len` bytes are the reply, and a reply
      that does not fit leaves the chunk alone. */
  method Emit(chunk: array<byte>, l: Layout, h: I.Header, cfg: RetryConfig, local: Mac, nowMs: nat)
    returns (outcome: Outcome, len: nat)
    requires l.Ok() && P.KnownVersion(h.version) && |h.dcid| <= I.MAX_CID && |h.scid| <= I.MAX_CID
    modifies chunk
    ensures outcome == if |Reply(l, local, RetryFor(h, l, cfg, nowMs))| <= chunk.Length then Emitted else Skip
    ensures outcome.Emitted? ==> len <= chunk.Length && chunk[..len] == Reply(l, local, RetryFor(h, l, cfg, nowMs))
    ensures outcome.Skip? ==> chunk[..] == old(chunk[..])
  {
    hide WithIpv4Checksum, WithIpv6UdpChecksum, Headers, P.Retry, T.Mint;
    var token := T.MintToken(cfg.key, l.srcIp, h.dcid, nowMs);
    var retryBuf := new byte[128](_ => 0);
    var built := P.BuildRetry(retryBuf, h.version, h.dcid, h.scid, h.dcid, token.value, cfg.gcm);
    var retry := retryBuf[..built.n];
    assert retry == RetryFor(h, l, cfg, nowMs);
    var hdrBuf := new byte[64](_ => 0);
    var hdrLen := BuildReflectedHeaders(hdrBuf, l, local, |retry|);
    var headers := hdrBuf[..hdrLen];
    len := hdrLen + |retry|;
    if len > chunk.Length { return Skip, 0; }
    Commit(chunk, l, local, headers, retry);
    outcome := Emitted;
  }

  lemma ReplyIsChecksummed(l: Layout, local: Mac, retry: seq<byte>)
    requires l.Ok() && 40 <= |retry| <= 128
    ensures var f := Headers(l, local, |retry|) + retry;
            && |f| == |retry| + (if l.isV4 then 42 else 62)
            && if l.isV4 then
                 20 <= l.ipHdrLen <= 60 && Reply(l, local, retry) == WithIpv4Checksum(f, ETH_HDR, l.ipHdrLen)
               else
                 && l.udpOffset == 54 && U16(f, 58) == 8 + |retry|
                 && Reply(l, local, retry) == WithIpv6UdpChecksum(f, ETH_HDR, 54)
  {
    HeaderFields(l, local, retry);
    hide Headers, WithIpv4Checksum, WithIpv6UdpChecksum;
  }

  /** Headers and payload copied into place, then the checksum. */
  method Commit(chunk: array<byte>, l: Layout, local: Mac, headers: seq<byte>, retry: seq<byte>)
    requires l.Ok() && 40 <= |retry| <= 128 && headers == Headers(l, local, |retry|)
    requires |headers| + |retry| <= chunk.Length
    modifies chunk
    ensures chunk[..|headers| + |retry|] == Reply(l, local, retry)
  {
    hide Headers, Reply, WithIpv4Checksum, WithIpv6UdpChecksum, Layout.Ok;
    var f, v4, hdrLen, udp := headers + retry, l.isV4, l.ipHdrLen, l.udpOffset;
    ReplyIsChecksummed(l, local, retry);
    hide *;
    var n := P.Append(chunk, 0, headers);
    n := P.Append(chunk, n, retry);
    assert chunk[..n] == f;
    if v4 {
      WriteIpv4Checksum(chunk, n, ETH_HDR, hdrLen);
    } else {
      WriteIpv6UdpChecksum(chunk, n, ETH_HDR, udp);
    }
  }

  /** `try_handle` on the chunk that holds a frame of `n` bytes. */
  method HandleInPlace(chunk: array<byte>, n: nat, parsed: Parsed, cfg: Option<RetryConfig>, local: Mac, nowMs: nat,
                       pending: nat)
    returns (outcome: Outcome, detail: Detail, len: nat, counted: nat)
    requires n <= chunk.Length && ParseFrame(chunk[..n]) == Some(parsed)
    modifies chunk
    ensures len <= chunk.Length
    ensures TryHandle(old(chunk[..n]), parsed, cfg, local, nowMs, chunk.Length, pending)
         == Handled(outcome, detail, chunk[..len], counted)
  {
    hide I.ParseStrict, ParseFrame, FromParsed, HandleInitial, Layout.Ok;
    var frame := chunk[..n];
    outcome, detail, len, counted := Skip, NoDetail, n, pending;
    if cfg.None? || !cfg.value.enabled { return; }
    var layout := FromParsed(parsed);
    if layout.None? { return; }
    var l := layout.value;
    if cfg.value.ports != {} && l.dstPort !in cfg.value.ports { return; }
    LayoutOfFrame(frame);
    QuicInFrame(frame);
    var initial := I.ParseStrict(frame[l.quicOffset..]);
    if initial.Err? {
      var e := initial.error;
      if !Silent(e) { detail := ParseError; }
      return;
    }
    I.CidPartTiles(frame[l.quicOffset..]);
    outcome, detail, len, counted := InitialInPlace(chunk, n, l, initial.header, cfg.value, local, nowMs, pending);
  }

  method InitialInPlace(chunk: array<byte>, n: nat, l: Layout, h: I.Header, cfg: RetryConfig, local: Mac,
                        nowMs: nat, pending: nat)
    returns (outcome: Outcome, detail: Detail, len: nat, counted: nat)
    requires n <= chunk.Length && Answerable(l, h)
    modifies chunk
    ensures len <= chunk.Length
    ensures HandleInitial(old(chunk[..n]), l, h, cfg, local, nowMs, chunk.Length, pending)
         == Handled(outcome, detail, chunk[..len], counted)
  {
    hide Reply, RetryFor, Classify, Layout.Ok;
    ghost var frame := chunk[..n];
    var (decision, why, tally) := Classify(h, l.srcIp, cfg, nowMs, pending);
    outcome, detail, len, counted := Skip, why, n, tally;
    if decision.DoForward? {
      outcome := Forward;
    } else if decision.DoEmit? {
      var emitted, m := Emit(chunk, l, h, cfg, local, nowMs);
      outcome := emitted;
      if emitted.Emitted? { len := m; } else { assert chunk[..][..n] == frame; }
    }
  }

  lemma QuicInFrame(frame: seq<byte>)
    requires ParseFrame(frame).Some? && FromParsed(ParseFrame(frame).value).Some?
    ensures FromParsed(ParseFrame(frame).value).value.quicOffset <= |frame|
  {
  }
}
