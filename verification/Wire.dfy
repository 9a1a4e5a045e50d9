/**
  Ethernet, IP and UDP layout of a received frame: the daemon's parser
  (`parse_frame`), the XDP program's own parser, and their agreement.
 */
module Wire {
  import opened Bits
  import opened Routes

  const ETH_HDR := 14
  const IPV4_HDR := 20
  const IPV6_HDR := 40
  const UDP_HDR := 8
  const ICMP_HDR := 8
  const MAX_EXT_HDRS := 6

  const PROTO_HOPOPTS := 0
  const PROTO_ICMP := 1
  const PROTO_UDP := 17
  const PROTO_ROUTING := 43
  const PROTO_FRAGMENT := 44
  const PROTO_ICMPV6 := 58
  const PROTO_DSTOPTS := 60

  const ETH_P_IP := 0x0800
  const ETH_P_IPV6 := 0x86dd

  /** Big-endian `u16` at `at`. */
  function U16(s: seq<byte>, at: nat): (v: nat)
    requires at + 2 <= |s|
    ensures v < 65_536
  {
    var hi: nat, lo: nat := s[at], s[at + 1];
    hi * 256 + lo
  }

  datatype Flow = Flow(srcAddr: IpAddr, dstAddr: IpAddr, srcPort: nat, dstPort: nat)

  datatype L4 =
    | Udp(udpOffset: nat, quicOffset: nat, srcPort: nat, dstPort: nat)
    | Icmp(innerQuicOffset: nat, reversed: Flow)

  datatype Parsed = Parsed(
    isV4: bool, ipHdrLen: nat, srcMac: seq<byte>, srcAddr: IpAddr, dstAddr: IpAddr, l4: L4)

  // -------------------------------------------- IPv6 extension header walks

  predicate IsExt(next: byte) { next == PROTO_HOPOPTS || next == PROTO_ROUTING || next == PROTO_DSTOPTS }

  /** Where a walk may stop: UDP, and in an outer header also ICMPv6. */
  predicate IsEnd(next: byte, outer: bool) { next == PROTO_UDP || (outer && next == PROTO_ICMPV6) }

  /** The daemon's walk with `left` headers to go: the protocol found and its offset. */
  function Walk(frame: seq<byte>, next: byte, offset: nat, left: nat, outer: bool): (r: Option<(byte, nat)>)
    ensures r.Some? ==> offset <= r.value.1
    decreases left
  {
    if left == 0 || IsEnd(next, outer) then Some((next, offset))
    else if next == PROTO_FRAGMENT then
      if offset >= |frame| then None
      else Walk(frame, frame[offset], offset + 8, left - 1, outer)
    else if IsExt(next) then
      if offset + 1 >= |frame| then None
      else
        var ext: nat := frame[offset + 1];
        Walk(frame, frame[offset], offset + (ext + 1) * 8, left - 1, outer)
    else None
  }

  /** The daemon's loop. */
  method WalkHeaders(frame: seq<byte>, first: byte, start: nat, outer: bool) returns (r: Option<(byte, nat)>)
    ensures r == Walk(frame, first, start, MAX_EXT_HDRS, outer)
  {
    var next: byte, offset: nat := first, start;
    for i := 0 to MAX_EXT_HDRS
      invariant Walk(frame, first, start, MAX_EXT_HDRS, outer) == Walk(frame, next, offset, MAX_EXT_HDRS - i, outer)
    {
      if IsEnd(next, outer) { break; }
      if next == PROTO_FRAGMENT {
        if offset >= |frame| { return None; }
        next := frame[offset];
        offset := offset + 8;
      } else if IsExt(next) {
        if offset + 1 >= |frame| { return None; }
        next := frame[offset];
        var ext: nat := frame[offset + 1];
        offset := offset + (ext + 1) * 8;
      } else {
        return None;
      }
    }
    r := Some((next, offset));
  }

  // ---------------------------------------------------------- parse_frame

  function ParseFrame(frame: seq<byte>): (r: Option<Parsed>)
    ensures r.Some? ==> |frame| >= ETH_HDR + IPV4_HDR && r.value.srcMac == frame[6..12]
    ensures r.Some? && r.value.l4.Udp? ==>
      var l4 := r.value.l4;
      l4.udpOffset == ETH_HDR + r.value.ipHdrLen && l4.quicOffset == l4.udpOffset + UDP_HDR <= |frame|
    ensures r.Some? && r.value.l4.Icmp? ==> 12 <= r.value.l4.innerQuicOffset <= |frame| + 4
  {
    if |frame| < ETH_HDR then None
    else if U16(frame, 12) == ETH_P_IP then ParseIpv4(frame)
    else if U16(frame, 12) == ETH_P_IPV6 then ParseIpv6(frame)
    else None
  }

  function ParseIpv4(frame: seq<byte>): Option<Parsed>
    requires |frame| >= ETH_HDR
  {
    if |frame| < ETH_HDR + IPV4_HDR then None
    else
      var ihl := frame[ETH_HDR] % 16 * 4;
      if ihl < IPV4_HDR then None
      else
        var src, dst := V4(frame[26..30]), V4(frame[30..34]);
        if frame[ETH_HDR + 9] == PROTO_UDP then
          var udp := ETH_HDR + ihl;
          if udp + UDP_HDR > |frame| then None
          else Some(Parsed(true, ihl, frame[6..12], src, dst,
                           Udp(udp, udp + UDP_HDR, U16(frame, udp), U16(frame, udp + 2))))
        else if frame[ETH_HDR + 9] == PROTO_ICMP then
          match InnerIpv4(frame, ETH_HDR + ihl)
          case None => None
          case Some(l4) => Some(Parsed(true, ihl, frame[6..12], src, dst, l4))
        else None
  }

  /** The packet echoed in an ICMP error at `icmp`, as the client-to-server flow. */
  function InnerIpv4(frame: seq<byte>, icmp: nat): Option<L4> {
    if |frame| < icmp + ICMP_HDR || (frame[icmp] != 3 && frame[icmp] != 11) then None
    else
      var ip := icmp + ICMP_HDR;
      if |frame| < ip + IPV4_HDR then None
      else
        var ihl := frame[ip] % 16 * 4;
        var udp := ip + ihl;
        if ihl < IPV4_HDR || frame[ip + 9] != PROTO_UDP || udp + 4 > |frame| then None
        else Some(Icmp(udp + UDP_HDR,
                       Flow(V4(frame[ip + 16..ip + 20]), V4(frame[ip + 12..ip + 16]),
                            U16(frame, udp + 2), U16(frame, udp))))
  }

  function ParseIpv6(frame: seq<byte>): Option<Parsed>
    requires |frame| >= ETH_HDR
  {
    if |frame| < ETH_HDR + IPV6_HDR then None
    else
      var src, dst := V6(frame[22..38]), V6(frame[38..54]);
      match Walk(frame, frame[ETH_HDR + 6], ETH_HDR + IPV6_HDR, MAX_EXT_HDRS, true)
      case None => None
      case Some((next, offset)) =>
        var len := offset - ETH_HDR;
        if next == PROTO_UDP then
          if offset + UDP_HDR > |frame| then None
          else Some(Parsed(false, len, frame[6..12], src, dst,
                           Udp(offset, offset + UDP_HDR, U16(frame, offset), U16(frame, offset + 2))))
        else if next == PROTO_ICMPV6 then
          match InnerIpv6(frame, offset)
          case None => None
          case Some(l4) => Some(Parsed(false, len, frame[6..12], src, dst, l4))
        else None
  }

  function InnerIpv6(frame: seq<byte>, icmp: nat): Option<L4> {
    if |frame| < icmp + ICMP_HDR || !(1 <= frame[icmp] <= 3) then None
    else
      var ip := icmp + ICMP_HDR;
      if |frame| < ip + IPV6_HDR then None
      else
        match Walk(frame, frame[ip + 6], ip + IPV6_HDR, MAX_EXT_HDRS, false)
        case None => None
        case Some((next, udp)) =>
          if next != PROTO_UDP || udp + 4 > |frame| then None
          else Some(Icmp(udp + UDP_HDR,
                         Flow(V6(frame[ip + 24..ip + 40]), V6(frame[ip + 8..ip + 24]),
                              U16(frame, udp + 2), U16(frame, udp))))
  }
}

/** The XDP program's parser, with its own bounds checks and its own walks. */
module XdpFilter {
  import opened Bits
  import opened Wire

  /** `Result<Option<u16>, ()>`: abort, pass to the kernel, or look the port up. */
  datatype Found = Abort | NoPort | Port(port: nat)

  datatype WalkEnd = WalkAbort | WalkNoPort | At(next: byte, offset: nat)

  /** One bounded walk, as the program takes it; lengths are masked to five bits. */
  function XdpWalk(frame: seq<byte>, next: byte, offset: nat, left: nat, outer: bool): WalkEnd
    decreases left
  {
    if left == 0 || IsEnd(next, outer) then At(next, offset)
    else if next == PROTO_FRAGMENT then
      if offset + 1 > |frame| then WalkAbort
      else XdpWalk(frame, frame[offset], offset + 8, left - 1, outer)
    else if IsExt(next) then
      if offset + 1 > |frame| || offset + 2 > |frame| then WalkAbort
      else
        var ext: nat := frame[offset + 1] % 32;
        XdpWalk(frame, frame[offset], offset + (ext + 1) * 8, left - 1, outer)
    else WalkNoPort
  }

  method XdpWalkHeaders(frame: seq<byte>, first: byte, start: nat, outer: bool) returns (r: WalkEnd)
    ensures r == XdpWalk(frame, first, start, MAX_EXT_HDRS, outer)
  {
    var next: byte, offset: nat, i: nat := first, start, 0;
    while i < MAX_EXT_HDRS
      invariant 0 <= i <= MAX_EXT_HDRS
      invariant XdpWalk(frame, first, start, MAX_EXT_HDRS, outer)
             == XdpWalk(frame, next, offset, MAX_EXT_HDRS - i, outer)
    {
      if IsEnd(next, outer) { break; }
      if next == PROTO_FRAGMENT {
        if offset + 1 > |frame| { return WalkAbort; }
        next := frame[offset];
        offset := offset + 8;
      } else if IsExt(next) {
        if offset + 1 > |frame| { return WalkAbort; }
        next := frame[offset];
        if offset + 2 > |frame| { return WalkAbort; }
        var ext: nat := frame[offset + 1] % 32;
        offset := offset + (ext + 1) * 8;
      } else {
        return WalkNoPort;
      }
      i := i + 1;
    }
    r := At(next, offset);
  }

  function ReadPort(frame: seq<byte>, at: nat): Found {
    if at + 2 > |frame| then Abort else Port(U16(frame, at))
  }

  function XdpPort(frame: seq<byte>): Found {
    if 14 > |frame| then Abort
    else if U16(frame, 12) == ETH_P_IP then XdpIpv4(frame)
    else if U16(frame, 12) == ETH_P_IPV6 then XdpIpv6(frame)
    else NoPort
  }

  function XdpIpv4(frame: seq<byte>): Found {
    if ETH_HDR + 1 > |frame| then Abort
    else
      var ihl := frame[ETH_HDR] % 16 * 4;
      if ihl < IPV4_HDR || ETH_HDR + 10 > |frame| then Abort
      else if frame[ETH_HDR + 9] == PROTO_UDP then ReadPort(frame, ETH_HDR + ihl + 2)
      else if frame[ETH_HDR + 9] == PROTO_ICMP then
        var icmp := ETH_HDR + ihl;
        if icmp + 1 > |frame| then Abort
        else if frame[icmp] != 3 && frame[icmp] != 11 then NoPort
        else
          var ip := icmp + ICMP_HDR;
          if ip + 1 > |frame| then Abort
          else
            var inner := frame[ip] % 16 * 4;
            if inner < IPV4_HDR then NoPort
            else if ip + 10 > |frame| then Abort
            else if frame[ip + 9] != PROTO_UDP then NoPort
            else ReadPort(frame, ip + inner)
      else NoPort
  }

  function XdpIpv6(frame: seq<byte>): Found {
    if ETH_HDR + 7 > |frame| then Abort
    else
      match XdpWalk(frame, frame[ETH_HDR + 6], ETH_HDR + IPV6_HDR, MAX_EXT_HDRS, true)
      case WalkAbort => Abort
      case WalkNoPort => NoPort
      case At(next, offset) =>
        if next == PROTO_UDP then ReadPort(frame, offset + 2)
        else if next == PROTO_ICMPV6 then
          if offset + 1 > |frame| then Abort
          else if !(1 <= frame[offset] <= 3) then NoPort
          else
            var ip := offset + ICMP_HDR;
            if ip + 7 > |frame| then Abort
            else
              match XdpWalk(frame, frame[ip + 6], ip + IPV6_HDR, MAX_EXT_HDRS, false)
              case WalkAbort => Abort
              case WalkNoPort => NoPort
              case At(inner, udp) => if inner != PROTO_UDP then NoPort else ReadPort(frame, udp)
        else NoPort
  }

  // ------------------------------------------------------------- agreement

  /** The offsets `Walk` passes through, by its own recursion. */
  function WalkTrace(frame: seq<byte>, next: byte, offset: nat, left: nat, outer: bool): (v: seq<nat>)
    ensures v != [] && v[0] == offset
    decreases left
  {
    if left == 0 || IsEnd(next, outer) then [offset]
    else if next == PROTO_FRAGMENT then
      if offset >= |frame| then [offset]
      else [offset] + WalkTrace(frame, frame[offset], offset + 8, left - 1, outer)
    else if IsExt(next) then
      if offset + 1 >= |frame| then [offset]
      else
        var ext: nat := frame[offset + 1];
        [offset] + WalkTrace(frame, frame[offset], offset + (ext + 1) * 8, left - 1, outer)
    else [offset]
  }

  /** The offsets `XdpWalk` passes through, by its own recursion. */
  function XdpTrace(frame: seq<byte>, next: byte, offset: nat, left: nat, outer: bool): (v: seq<nat>)
    ensures v != [] && v[0] == offset
    decreases left
  {
    if left == 0 || IsEnd(next, outer) then [offset]
    else if next == PROTO_FRAGMENT then
      if offset + 1 > |frame| then [offset]
      else [offset] + XdpTrace(frame, frame[offset], offset + 8, left - 1, outer)
    else if IsExt(next) then
      if offset + 1 > |frame| || offset + 2 > |frame| then [offset]
      else
        var ext: nat := frame[offset + 1] % 32;
        [offset] + XdpTrace(frame, frame[offset], offset + (ext + 1) * 8, left - 1, outer)
    else [offset]
  }

  /** The traces end where the walks end. */
  lemma {:induction false} WalkTraceEnds(frame: seq<byte>, next: byte, offset: nat, left: nat, outer: bool)
    ensures var r, v := Walk(frame, next, offset, left, outer), WalkTrace(frame, next, offset, left, outer);
            r.Some? ==> v[|v| - 1] == r.value.1
    decreases left
  {
    if left == 0 || IsEnd(next, outer) {
    } else if next == PROTO_FRAGMENT {
      if offset < |frame| { WalkTraceEnds(frame, frame[offset], offset + 8, left - 1, outer); }
    } else if IsExt(next) && offset + 1 < |frame| {
      var ext: nat := frame[offset + 1];
      WalkTraceEnds(frame, frame[offset], offset + (ext + 1) * 8, left - 1, outer);
    }
  }

  lemma {:induction false} XdpTraceEnds(frame: seq<byte>, next: byte, offset: nat, left: nat, outer: bool)
    ensures var r, v := XdpWalk(frame, next, offset, left, outer), XdpTrace(frame, next, offset, left, outer);
            r.At? ==> v[|v| - 1] == r.offset
    decreases left
  {
    if left == 0 || IsEnd(next, outer) {
    } else if next == PROTO_FRAGMENT {
      if offset < |frame| { XdpTraceEnds(frame, frame[offset], offset + 8, left - 1, outer); }
    } else if IsExt(next) && offset + 1 < |frame| {
      var ext: nat := frame[offset + 1] % 32;
      XdpTraceEnds(frame, frame[offset], offset + (ext + 1) * 8, left - 1, outer);
    }
  }

  /** Every extension header the daemon's walk reads declares a length of at most 31. */
  predicate SmallHeaders(frame: seq<byte>, next: byte, offset: nat, left: nat, outer: bool)
    decreases left
  {
    if left == 0 || IsEnd(next, outer) then true
    else if next == PROTO_FRAGMENT then
      offset < |frame| ==> SmallHeaders(frame, frame[offset], offset + 8, left - 1, outer)
    else if IsExt(next) && offset + 1 < |frame| then
      var ext: nat := frame[offset + 1];
      ext <= 31 && SmallHeaders(frame, frame[offset], offset + (ext + 1) * 8, left - 1, outer)
    else true
  }

  lemma SameTail(x: nat, a: seq<nat>, b: seq<nat>)
    ensures [x] + a == [x] + b <==> a == b
  {
    assert ([x] + a)[1..] == a && ([x] + b)[1..] == b;
  }

  /** One extension header: the traces part there exactly when its length is masked. */
  lemma ExtensionStep(offset: nat, ext: nat, x: seq<nat>, w: seq<nat>, small: bool)
    requires x != [] && w != [] && w[0] == offset + (ext + 1) * 8 && x[0] == offset + (ext % 32 + 1) * 8
    requires ext <= 31 ==> (x == w <==> small)
    ensures [offset] + x == [offset] + w <==> ext <= 31 && small
  {
    SameTail(offset, x, w);
  }

  /** The two walks pass through the same offsets exactly when every length fits five bits. */
  lemma {:induction false} WalksVisitSameExactly(frame: seq<byte>, next: byte, offset: nat, left: nat, outer: bool)
    ensures XdpTrace(frame, next, offset, left, outer) == WalkTrace(frame, next, offset, left, outer)
       <==> SmallHeaders(frame, next, offset, left, outer)
    decreases left, 1
  {
    if left == 0 || IsEnd(next, outer) {
    } else if next == PROTO_FRAGMENT {
      if offset < |frame| {
        WalksVisitSameExactly(frame, frame[offset], offset + 8, left - 1, outer);
        SameTail(offset, XdpTrace(frame, frame[offset], offset + 8, left - 1, outer),
                 WalkTrace(frame, frame[offset], offset + 8, left - 1, outer));
      }
    } else if IsExt(next) && offset + 1 < |frame| {
      ExtensionVisits(frame, next, offset, left, outer);
    }
  }

  lemma {:induction false} ExtensionVisits(frame: seq<byte>, next: byte, offset: nat, left: nat, outer: bool)
    requires left > 0 && !IsEnd(next, outer) && IsExt(next) && offset + 1 < |frame|
    ensures XdpTrace(frame, next, offset, left, outer) == WalkTrace(frame, next, offset, left, outer)
       <==> SmallHeaders(frame, next, offset, left, outer)
    decreases left, 0
  {
    var ext: nat, n := frame[offset + 1], frame[offset];
    var far, near := offset + (ext + 1) * 8, offset + (ext % 32 + 1) * 8;
    var x, w := XdpTrace(frame, n, near, left - 1, outer), WalkTrace(frame, n, far, left - 1, outer);
    var small := SmallHeaders(frame, n, far, left - 1, outer);
    assert XdpTrace(frame, next, offset, left, outer) == [offset] + x;
    assert WalkTrace(frame, next, offset, left, outer) == [offset] + w;
    assert SmallHeaders(frame, next, offset, left, outer) <==> ext <= 31 && small;
    hide *;
    WalksVisitSameExactly(frame, n, far, left - 1, outer);
    ExtensionStep(offset, ext, x, w, small);
  }

  /** And then they end alike: at the same header, or both without one. */
  lemma {:induction false} WalksAgree(frame: seq<byte>, next: byte, offset: nat, left: nat, outer: bool)
    requires SmallHeaders(frame, next, offset, left, outer)
    ensures var d, x := Walk(frame, next, offset, left, outer), XdpWalk(frame, next, offset, left, outer);
            if d.Some? then x == At(d.value.0, d.value.1) else !x.At?
    decreases left
  {
    if left == 0 || IsEnd(next, outer) {
    } else if next == PROTO_FRAGMENT {
      if offset < |frame| { WalksAgree(frame, frame[offset], offset + 8, left - 1, outer); }
    } else if IsExt(next) && offset + 1 < |frame| {
      var ext: nat := frame[offset + 1];
      WalksAgree(frame, frame[offset], offset + (ext + 1) * 8, left - 1, outer);
    }
  }

  /** The port of the flow a parsed frame belongs to, seen from the client. */
  function FlowPort(p: Parsed): nat {
    match p.l4
    case Udp(_, _, _, dstPort) => dstPort
    case Icmp(_, reversed) => reversed.dstPort
  }

  /** All extension headers of an IPv6 frame, outer and echoed, are short. */
  predicate ShortExtensions(frame: seq<byte>) {
    |frame| >= ETH_HDR + IPV6_HDR && U16(frame, 12) == ETH_P_IPV6 ==>
      && SmallHeaders(frame, frame[ETH_HDR + 6], ETH_HDR + IPV6_HDR, MAX_EXT_HDRS, true)
      && match Walk(frame, frame[ETH_HDR + 6], ETH_HDR + IPV6_HDR, MAX_EXT_HDRS, true)
         case Some((next, offset)) =>
           next == PROTO_ICMPV6 && |frame| >= offset + ICMP_HDR + IPV6_HDR ==>
             SmallHeaders(frame, frame[offset + ICMP_HDR + 6], offset + ICMP_HDR + IPV6_HDR, MAX_EXT_HDRS, false)
         case None => true
  }

  lemma Ipv4ParsersAgree(frame: seq<byte>)
    requires |frame| >= ETH_HDR && ParseIpv4(frame).Some?
    ensures XdpIpv4(frame) == Port(FlowPort(ParseIpv4(frame).value))
  {
  }

  lemma Ipv6ParsersAgree(frame: seq<byte>)
    requires |frame| >= ETH_HDR && U16(frame, 12) == ETH_P_IPV6 && ParseIpv6(frame).Some? && ShortExtensions(frame)
    ensures XdpIpv6(frame) == Port(FlowPort(ParseIpv6(frame).value))
  {
    hide Walk, XdpWalk, SmallHeaders;
    var first, start := frame[ETH_HDR + 6], ETH_HDR + IPV6_HDR;
    WalksAgree(frame, first, start, MAX_EXT_HDRS, true);
    var (next, offset) := Walk(frame, first, start, MAX_EXT_HDRS, true).value;
    if next == PROTO_ICMPV6 {
      var ip := offset + ICMP_HDR;
      WalksAgree(frame, frame[ip + 6], ip + IPV6_HDR, MAX_EXT_HDRS, false);
    }
  }

  /** Every frame the daemon can route reaches it: the XDP program finds in it exactly
      the port the daemon will route by. */
  lemma ParsersAgree(frame: seq<byte>)
    requires ParseFrame(frame).Some? && ShortExtensions(frame)
    ensures XdpPort(frame) == Port(FlowPort(ParseFrame(frame).value))
  {
    hide ParseIpv4, ParseIpv6, XdpIpv4, XdpIpv6, ShortExtensions;
    if U16(frame, 12) == ETH_P_IP { Ipv4ParsersAgree(frame); } else { Ipv6ParsersAgree(frame); }
  }

  /** A hop-by-hop header of declared length 32 before UDP port 1. */
  const LONG_EXT: seq<byte> :=
    seq(334, i => if i == 12 then 0x86 else if i == 13 then 0xdd
                  else if i == 54 then PROTO_UDP else if i == 55 then 32
                  else if i == 321 then 1 else 0)

  /** Without the bound the parsers can disagree. */
  lemma LongExtensionDisagrees()
    ensures ParseFrame(LONG_EXT).Some? && FlowPort(ParseFrame(LONG_EXT).value) == 1
    ensures XdpPort(LONG_EXT) == Port(0)
  {
    var f := LONG_EXT;
    assert f[20] == PROTO_HOPOPTS && f[54] == PROTO_UDP && f[55] == 32;
    assert Walk(f, PROTO_HOPOPTS, 54, 6, true) == Walk(f, PROTO_UDP, 318, 5, true);
    assert XdpWalk(f, PROTO_HOPOPTS, 54, 6, true) == XdpWalk(f, PROTO_UDP, 62, 5, true);
  }
}
