/**
  The packet pipeline after parsing: CID routing, connection-table stickiness and
  fallback hashing, with the rewrite of the destination MAC.
 */
module Forwarding {
  import opened Bits
  import opened Routes
  import opened Cid
  import opened Wire
  import opened ConnTable
  import opened Fallback

  datatype Verdict =
    | CidForward(configId: nat)
    | CidForwardDraining(configId: nat)
    | FallbackForward
    | IcmpForward
    | CidUnroutableNoServer
    | CidUnroutableBadServerId
    | Pass

  predicate Forwards(v: Verdict) {
    v.CidForward? || v.CidForwardDraining? || v.FallbackForward? || v.IcmpForward?
  }

  /** What handling one packet does: the verdict, the frame and the table after it. */
  datatype Outcome = Outcome(verdict: Verdict, frame: seq<byte>, conn: Conn)

  /** Destination and source MAC replaced, everything from byte 12 on kept. */
  function Rewrite(frame: seq<byte>, mac: Mac, local: Mac): (r: seq<byte>)
    requires |frame| >= 12
    ensures |r| == |frame| && r[..6] == mac && r[6..12] == local && r[12..] == frame[12..]
  {
    mac + local + frame[12..]
  }

  /** Hash-based choice; `hash` stands for the flow's FxHash. */
  function FallbackMac(flow: Flow, pool: seq<Server>, hash: Flow -> nat): Option<Mac> {
    if pool == [] then None else pool[hash(flow) % |pool|].mac
  }

  /** Everything a packet's handling depends on besides the connection table. */
  datatype Ctx = Ctx(table: Table, local: Mac, now: Time, hash: Flow -> nat)

  function FallbackKey(quic: seq<byte>, table: Table): Option<DcidKey> {
    match table.FallbackCidLen()
    case None => None
    case Some(len) => match ExtractRawDcid(quic, len)
      case None => None
      case Some(dcid) => Some(KeyOf(dcid))
  }

  /** The slow path of `process_udp`: table hit, else hash and remember, else pass. */
  function FallbackUdp(frame: seq<byte>, quic: seq<byte>, flow: Flow, conn: Conn, ctx: Ctx): Outcome
    requires |frame| >= 12
  {
    var key := FallbackKey(quic, ctx.table);
    match Lookup(conn, flow, key, ctx.now)
    case Some(mac) => Outcome(FallbackForward, Rewrite(frame, mac, ctx.local), conn)
    case None =>
      match FallbackMac(flow, ctx.table.fallback, ctx.hash)
      case Some(mac) =>
        Outcome(FallbackForward, Rewrite(frame, mac, ctx.local), Insert(conn, flow, key, mac, ctx.now))
      case None => Outcome(Pass, frame, conn)
  }

  /** What the CID alone decides, before the connection table is looked at. */
  datatype Decision =
    | ToServer(dcid: seq<byte>, configId: nat, server: Server, mac: Mac)
    | Unroutable(known: bool)
    | ToFallback

  function Decide(quic: seq<byte>, table: Table): (r: Attempt<Decision>)
    requires table.Valid()
    ensures r.Returns? && r.value.ToServer? ==> r.value.server.mac == Some(r.value.mac)
  {
    match LookupConfig(quic, table)
    case None => Returns(ToFallback)
    case Some((dcid, config)) =>
      match ServerOf(dcid, config)
      case Panics => Panics
      case Returns(idx) =>
        if idx.Some? && config.servers[idx.value].healthy && config.servers[idx.value].mac.Some? then
          var server := config.servers[idx.value];
          Returns(ToServer(dcid, config.configId, server, server.mac.value))
        else if |dcid| > config.PayloadLen() then Returns(Unroutable(idx.Some?))
        else Returns(ToFallback)
  }

  /** `process_udp`. */
  function Udp(frame: seq<byte>, quicOffset: nat, flow: Flow, conn: Conn, ctx: Ctx): Attempt<Outcome>
    requires 12 <= quicOffset <= |frame| && ctx.table.Valid()
  {
    var quic := frame[quicOffset..];
    match Decide(quic, ctx.table)
    case Panics => Panics
    case Returns(decision) => Returns(
      match decision
      case ToServer(dcid, configId, server, mac) =>
        Outcome(if server.draining then CidForwardDraining(configId) else CidForward(configId),
                Rewrite(frame, mac, ctx.local), RecordDcid(conn, KeyOf(dcid), mac, ctx.now))
      case Unroutable(known) => Outcome(if known then CidUnroutableNoServer else CidUnroutableBadServerId, frame, conn)
      case ToFallback => FallbackUdp(frame, quic, flow, conn, ctx))
  }

  /** MAC the source CID of the echoed packet names, if it names one. */
  function ScidMac(quic: seq<byte>, table: Table): Attempt<Option<Mac>>
    requires table.Valid()
  {
    match ExtractScid(quic)
    case None => Returns(None)
    case Some(scid) =>
      var id := scid[0] / 32;
      if id == 7 || table.Get(id).None? then Returns(None)
      else
        var config := table.Get(id).value;
        match ServerOf(scid, config)
        case Panics => Panics
        case Returns(idx) => Returns(if idx.Some? then config.servers[idx.value].mac else None)
  }

  /** `process_icmp`: slices the frame at the echoed QUIC packet, wherever the parser put
      that. */
  function IcmpError(frame: seq<byte>, innerQuicOffset: nat, reversed: Flow, conn: Conn, ctx: Ctx): Attempt<Outcome>
    requires |frame| >= 12 && ctx.table.Valid()
  {
    if innerQuicOffset > |frame| then Panics
    else
      match ScidMac(frame[innerQuicOffset..], ctx.table)
      case Panics => Panics
      case Returns(Some(mac)) => Returns(Outcome(IcmpForward, Rewrite(frame, mac, ctx.local), conn))
      case Returns(None) =>
        match Lookup(conn, reversed, None, ctx.now)
        case Some(mac) => Returns(Outcome(IcmpForward, Rewrite(frame, mac, ctx.local), conn))
        case None => Returns(Outcome(Pass, frame, conn))
  }

  // -------------------------------------------------------------------- code

  method WriteMacs(chunk: array<byte>, n: nat, mac: Mac, local: Mac)
    requires 12 <= n <= chunk.Length
    modifies chunk
    ensures chunk[..n] == Rewrite(old(chunk[..n]), mac, local)
  {
    forall i | 0 <= i < 6 { chunk[i] := mac[i]; }
    forall i | 0 <= i < 6 { chunk[6 + i] := local[i]; }
  }

  /** `process_udp`, on the `n` bytes of a frame in its chunk, and the worker's table. */
  method ProcessUdp(chunk: array<byte>, n: nat, quicOffset: nat, flow: Flow, conn: ConnectionTable, ctx: Ctx)
    returns (verdict: Attempt<Verdict>)
    requires 12 <= quicOffset <= n <= chunk.Length && ctx.table.Valid()
    modifies chunk, conn
    ensures var o := Udp(old(chunk[..n]), quicOffset, flow, old(conn.View()), ctx);
            && (verdict.Panics? <==> o.Panics?)
            && (verdict.Returns? ==> o == Returns(Outcome(verdict.value, chunk[..n], conn.View())))
  {
    var quic := chunk[quicOffset..n];
    assert quic == chunk[..n][quicOffset..];
    var found := LookupConfig(quic, ctx.table);
    if found.Some? {
      var (dcid, config) := found.value;
      var resolved := ResolveServerIdx(dcid, config);
      if resolved.Panics? { return Panics; }
      var idx := resolved.value;
      if idx.Some? {
        var server := config.servers[idx.value];
        if server.healthy && server.mac.Some? {
          conn.RecordKey(KeyOf(dcid), server.mac.value, ctx.now);
          WriteMacs(chunk, n, server.mac.value, ctx.local);
          return Returns(if server.draining then CidForwardDraining(config.configId) else CidForward(config.configId));
        }
      }
      if |dcid| > config.PayloadLen() {
        return Returns(if idx.Some? then CidUnroutableNoServer else CidUnroutableBadServerId);
      }
    }
    var key := FallbackKey(quic, ctx.table);
    var hit := conn.LookupMac(flow, key, ctx.now);
    if hit.Some? {
      WriteMacs(chunk, n, hit.value, ctx.local);
      return Returns(FallbackForward);
    }
    var chosen := FallbackMac(flow, ctx.table.fallback, ctx.hash);
    if chosen.Some? {
      conn.InsertFlow(flow, key, chosen.value, ctx.now);
      WriteMacs(chunk, n, chosen.value, ctx.local);
      return Returns(FallbackForward);
    }
    verdict := Returns(Pass);
  }

  /** The part of `process_icmp` that looks at the echoed packet's source CID. */
  method ResolveScid(quic: seq<byte>, table: Table) returns (mac: Attempt<Option<Mac>>)
    requires table.Valid()
    ensures mac == ScidMac(quic, table)
  {
    var scid := ExtractScid(quic);
    if scid.None? { return Returns(None); }
    var id := scid.value[0] / 32;
    if id == 7 { return Returns(None); }
    var config := table.Get(id);
    if config.None? { return Returns(None); }
    var resolved := ResolveServerIdx(scid.value, config.value);
    if resolved.Panics? { return Panics; }
    var idx := resolved.value;
    mac := Returns(if idx.Some? then config.value.servers[idx.value].mac else None);
  }

  /** `process_icmp`. */
  method ProcessIcmp(chunk: array<byte>, n: nat, innerQuicOffset: nat, reversed: Flow, conn: ConnectionTable, ctx: Ctx)
    returns (verdict: Attempt<Verdict>)
    requires 12 <= n <= chunk.Length && ctx.table.Valid()
    modifies chunk
    ensures var o := IcmpError(old(chunk[..n]), innerQuicOffset, reversed, conn.View(), ctx);
            && (verdict.Panics? <==> o.Panics?)
            && (verdict.Returns? ==> o == Returns(Outcome(verdict.value, chunk[..n], conn.View())))
  {
    hide ScidMac, Rewrite, Lookup;
    if innerQuicOffset > n { return Panics; }
    var quic := chunk[innerQuicOffset..n];
    assert quic == chunk[..n][innerQuicOffset..];
    var named := ResolveScid(quic, ctx.table);
    if named.Panics? { return Panics; }
    if named.value.Some? {
      WriteMacs(chunk, n, named.value.value, ctx.local);
      return Returns(IcmpForward);
    }
    var hit := conn.LookupMac(reversed, None, ctx.now);
    if hit.Some? {
      WriteMacs(chunk, n, hit.value, ctx.local);
      return Returns(IcmpForward);
    }
    verdict := Returns(Pass);
  }

  // ------------------------------------------------------ single packets

  /** Forwarding rewrites the two MACs and nothing else; any other verdict leaves the
      frame and the table exactly as they were. */
  lemma VerdictsFrame(frame: seq<byte>, offset: nat, flow: Flow, conn: Conn, ctx: Ctx, icmp: bool, o: Outcome)
    requires 12 <= offset <= |frame| && ctx.table.Valid()
    requires icmp ==> IcmpError(frame, offset, flow, conn, ctx) == Returns(o)
    requires !icmp ==> Udp(frame, offset, flow, conn, ctx) == Returns(o)
    ensures |o.frame| == |frame| && o.frame[12..] == frame[12..]
    ensures Forwards(o.verdict) ==> o.frame[6..12] == ctx.local
    ensures !Forwards(o.verdict) ==> o.frame == frame && o.conn == conn
  {
    hide Decide, ScidMac, Lookup;
  }

  /** A UDP packet panics the worker exactly when its CID selects an undecodable config
      and is long enough to be decoded. */
  lemma UdpPanicsExactly(frame: seq<byte>, offset: nat, flow: Flow, conn: Conn, ctx: Ctx)
    requires 12 <= offset <= |frame| && ctx.table.Valid()
    ensures Udp(frame, offset, flow, conn, ctx).Panics? <==>
            var found := LookupConfig(frame[offset..], ctx.table);
            found.Some? && Undecodable(found.value.1) && |found.value.0| >= found.value.1.CidLen()
  {
    var found := LookupConfig(frame[offset..], ctx.table);
    if found.Some? { ResolvingPanicsExactly(found.value.0, found.value.1); }
    hide ServerOf, LookupConfig, FallbackUdp;
  }

  /** The SCID of the echoed packet selects an undecodable config and is long enough. */
  predicate EchoUndecodable(quic: seq<byte>, table: Table) {
    var scid := ExtractScid(quic);
    scid.Some? && scid.value[0] / 32 != 7 && table.Get(scid.value[0] / 32).Some?
    && var config := table.Get(scid.value[0] / 32).value;
       Undecodable(config) && |scid.value| >= config.CidLen()
  }

  /** An ICMP error panics the worker exactly when the frame ends before the echoed QUIC
      packet would begin, or that packet's SCID cannot be decoded. */
  lemma IcmpPanicsExactly(frame: seq<byte>, inner: nat, reversed: Flow, conn: Conn, ctx: Ctx)
    requires |frame| >= 12 && ctx.table.Valid()
    ensures IcmpError(frame, inner, reversed, conn, ctx).Panics? <==>
            |frame| < inner || EchoUndecodable(frame[inner..], ctx.table)
  {
    if inner <= |frame| {
      var scid := ExtractScid(frame[inner..]);
      if scid.Some? && scid.value[0] / 32 != 7 && ctx.table.Get(scid.value[0] / 32).Some? {
        ResolvingPanicsExactly(scid.value, ctx.table.Get(scid.value[0] / 32).value);
      }
      hide ServerOf, ExtractScid, Lookup;
    }
  }

  /** What is expected of a packet whose CID names server `i` of a config. */
  predicate Delivered(o: Outcome, config: RouteConfig, i: Option<nat>, frame: seq<byte>, conn: Conn, local: Mac)
    requires |frame| >= 12 && (i.Some? ==> i.value < |config.servers|)
  {
    if i.None? then o == Outcome(CidUnroutableBadServerId, frame, conn)
    else
      var s := config.servers[i.value];
      if s.healthy && s.mac.Some? then
        && o.frame == Rewrite(frame, s.mac.value, local)
        && o.verdict == (if s.draining then CidForwardDraining(config.configId) else CidForward(config.configId))
      else o == Outcome(CidUnroutableNoServer, frame, conn)
  }

  /** A packet carrying a CID minted for a server of a live config goes to the first
      server with that id when it is healthy and resolved, and is dropped as
      unroutable, never hashed elsewhere, when it is not. */
  lemma MintedIsForwarded(enc: Encoder, nonce: seq<byte>, r: byte, cid: seq<byte>,
                          frame: seq<byte>, offset: nat, flow: Flow, conn: Conn, ctx: Ctx)
    requires enc.Valid() && ctx.table.Valid() && |nonce| == enc.nonceLen && AesOk(enc.encryption)
    requires ctx.table.Get(enc.configId).Some? && Matches(enc, ctx.table.Get(enc.configId).value)
    requires enc.Mint(nonce, r) == Returns(cid) && 12 <= offset <= |frame| && Carries(frame[offset..], cid)
    ensures var config := ctx.table.Get(enc.configId).value;
            var o, i := Udp(frame, offset, flow, conn, ctx), FindServerIdx(config.servers, enc.serverId);
            o.Returns? && Delivered(o.value, config, i, frame, conn, ctx.local)
  {
    MintedRoutes(enc, ctx.table, nonce, r, cid, frame[offset..]);
    hide ServerOf, LookupConfig, FallbackUdp, Rewrite, Carries, FindServerIdx;
  }

  /** The fallback path passes a packet up only for want of any eligible server. */
  lemma FallbackPassesExactly(frame: seq<byte>, quic: seq<byte>, flow: Flow, conn: Conn, ctx: Ctx)
    requires |frame| >= 12 && Consistent(ctx.table)
    ensures FallbackUdp(frame, quic, flow, conn, ctx).verdict.Pass? <==>
            Lookup(conn, flow, FallbackKey(quic, ctx.table), ctx.now).None? && ctx.table.fallback == []
  {
    PoolMembers(AllServers(ctx.table.slots));
    if ctx.table.fallback != [] {
      assert ctx.table.fallback[ctx.hash(flow) % |ctx.table.fallback|] in ctx.table.fallback;
    }
  }

  // ------------------------------------------------------------ whole runs

  /** What a worker's connection table lives through. Every packet may see its own
      route table, as published tables are swapped under the worker. */
  datatype Packet =
    | UdpPacket(frame: seq<byte>, offset: nat, flow: Flow, ctx: Ctx)
    | IcmpPacket(frame: seq<byte>, offset: nat, flow: Flow, ctx: Ctx)
    | SweepTick(now: Time)

  predicate PacketOk(p: Packet) {
    match p
    case UdpPacket(frame, offset, _, ctx) => 12 <= offset <= |frame| && ctx.table.Valid()
    case IcmpPacket(frame, _, _, ctx) => |frame| >= 12 && ctx.table.Valid()
    case SweepTick(_) => true
  }

  function TimeOf(p: Packet): Time { if p.SweepTick? then p.now else p.ctx.now }

  function Handle(conn: Conn, p: Packet): Attempt<Outcome>
    requires PacketOk(p)
  {
    match p
    case UdpPacket(frame, offset, flow, ctx) => Udp(frame, offset, flow, conn, ctx)
    case IcmpPacket(frame, offset, flow, ctx) => IcmpError(frame, offset, flow, conn, ctx)
    case SweepTick(now) => Returns(Outcome(Pass, [], Sweep(conn, now)))
  }

  /** The table after a packet. A worker that panics is gone; its table is left as it was,
      so that what is proved of every history holds up to that point too. */
  function ConnAfter(conn: Conn, p: Packet): Conn
    requires PacketOk(p)
  {
    if Handle(conn, p).Returns? then Handle(conn, p).value.conn else conn
  }

  ghost predicate History(ps: seq<Packet>) {
    && (forall i :: 0 <= i < |ps| ==> PacketOk(ps[i]))
    && forall i, j :: 0 <= i < j < |ps| ==> TimeOf(ps[i]) <= TimeOf(ps[j])
  }

  /** The connection table before packet `k` of a history. */
  function ConnAt(start: Time, ps: seq<Packet>, k: nat): Conn
    requires k <= |ps| && forall i :: 0 <= i < |ps| ==> PacketOk(ps[i])
  {
    if k == 0 then Conn(map[], map[], start) else ConnAfter(ConnAt(start, ps, k - 1), ps[k - 1])
  }

  /** The packet's CID decides nothing, so the fallback path takes it. */
  predicate ReachesFallback(p: Packet)
    requires PacketOk(p)
  {
    p.UdpPacket? && Decide(p.frame[p.offset..], p.ctx.table) == Returns(ToFallback)
  }

  /** The packet takes the fallback path and is assigned by hash, not by the table. */
  predicate Assigns(conn: Conn, p: Packet)
    requires PacketOk(p)
  {
    && ReachesFallback(p) && FallbackMac(p.flow, p.ctx.table.fallback, p.ctx.hash).Some?
    && Lookup(conn, p.flow, FallbackKey(p.frame[p.offset..], p.ctx.table), p.ctx.now).None?
  }

  /** Handling a packet keeps a live flow entry, whoever the packet belongs to. */
  lemma LiveEntryStays(conn: Conn, p: Packet, flow: Flow)
    requires PacketOk(p) && flow in conn.byFlow && conn.byFlow[flow].Live(TimeOf(p))
    ensures var c := ConnAfter(conn, p); flow in c.byFlow && c.byFlow[flow] == conn.byFlow[flow]
  {
    hide Decide, ScidMac, FallbackMac, FallbackKey, KeyOf, Rewrite;
  }

  predicate Holds(conn: Conn, flow: Flow, e: Entry) { flow in conn.byFlow && conn.byFlow[flow] == e }

  lemma AssignWrites(conn: Conn, p: Packet)
    requires PacketOk(p) && Assigns(conn, p)
    ensures var o := Handle(conn, p);
            && o.Returns? && o.value.verdict == FallbackForward && |o.value.frame| >= 12
            && p.UdpPacket? && Holds(ConnAfter(conn, p), p.flow, Entry(o.value.frame[..6], TimeOf(p) + ENTRY_TTL))
  {
    hide Decide, Lookup, FallbackMac, FallbackKey, KeyOf, Rewrite;
  }

  lemma ConnAtNext(start: Time, ps: seq<Packet>, k: nat)
    requires (forall i :: 0 <= i < |ps| ==> PacketOk(ps[i])) && k < |ps|
    ensures ConnAt(start, ps, k + 1) == ConnAfter(ConnAt(start, ps, k), ps[k])
  {
    hide ConnAfter, PacketOk;
  }

  lemma EntryStays(start: Time, ps: seq<Packet>, k: nat, flow: Flow, e: Entry)
    requires (forall i :: 0 <= i < |ps| ==> PacketOk(ps[i])) && k < |ps|
    requires Holds(ConnAt(start, ps, k), flow, e) && e.Live(TimeOf(ps[k]))
    ensures Holds(ConnAt(start, ps, k + 1), flow, e)
  {
    hide ConnAt, ConnAfter, PacketOk;
    ConnAtNext(start, ps, k);
    LiveEntryStays(ConnAt(start, ps, k), ps[k], flow);
  }

  /** An entry outlasts every packet that comes while it lives. */
  lemma {:induction false} EntryLasts(start: Time, ps: seq<Packet>, i: nat, k: nat, flow: Flow, e: Entry)
    requires History(ps) && i <= k <= |ps| && Holds(ConnAt(start, ps, i), flow, e)
    requires i < k ==> e.Live(TimeOf(ps[k - 1]))
    ensures Holds(ConnAt(start, ps, k), flow, e)
    decreases k
  {
    hide ConnAt, Holds, PacketOk;
    if i < k {
      assert i < k - 1 ==> TimeOf(ps[k - 2]) <= TimeOf(ps[k - 1]);
      EntryLasts(start, ps, i, k - 1, flow, e);
      EntryStays(start, ps, k - 1, flow, e);
    }
  }

  lemma EntrySticks(start: Time, ps: seq<Packet>, i: nat, k: nat)
    requires History(ps) && i < k <= |ps| && Assigns(ConnAt(start, ps, i), ps[i])
    requires TimeOf(ps[k - 1]) < TimeOf(ps[i]) + ENTRY_TTL
    ensures var o := Handle(ConnAt(start, ps, i), ps[i]);
            && o.Returns? && |o.value.frame| >= 12 && ps[i].UdpPacket?
            && Holds(ConnAt(start, ps, k), ps[i].flow, Entry(o.value.frame[..6], TimeOf(ps[i]) + ENTRY_TTL))
  {
    hide ConnAt, Handle, Assigns, PacketOk, ConnAfter, Holds;
    var conn := ConnAt(start, ps, i);
    ConnAtNext(start, ps, i);
    AssignWrites(conn, ps[i]);
    var e := Entry(Handle(conn, ps[i]).value.frame[..6], TimeOf(ps[i]) + ENTRY_TTL);
    EntryLasts(start, ps, i + 1, k, ps[i].flow, e);
  }

  /** A packet that reaches the fallback path while its flow's entry lives goes to the
      entry's MAC. */
  lemma EntryForwards(conn: Conn, p: Packet)
    requires PacketOk(p) && ReachesFallback(p) && p.flow in conn.byFlow && conn.byFlow[p.flow].Live(TimeOf(p))
    ensures var o := Handle(conn, p);
            && o.Returns? && o.value.verdict == FallbackForward && |o.value.frame| >= 12
            && o.value.frame[..6] == conn.byFlow[p.flow].mac
  {
    hide Decide, FallbackMac, FallbackKey;
  }

  /** Flow affinity: once the fallback path assigns a flow at time t, every later packet of
      that flow that reaches the fallback path before t + 5 s is forwarded, and to the same
      MAC, whatever other packets, sweeps and table swaps come between. */
  lemma FlowAffinity(start: Time, ps: seq<Packet>, i: nat, j: nat)
    requires History(ps) && i < j < |ps| && Assigns(ConnAt(start, ps, i), ps[i])
    requires ReachesFallback(ps[j]) && ps[j].flow == ps[i].flow && TimeOf(ps[j]) < TimeOf(ps[i]) + ENTRY_TTL
    ensures var first, later := Handle(ConnAt(start, ps, i), ps[i]), Handle(ConnAt(start, ps, j), ps[j]);
            && first.Returns? && later.Returns? && later.value.verdict == FallbackForward
            && |first.value.frame| >= 12 && |later.value.frame| >= 12
            && later.value.frame[..6] == first.value.frame[..6]
  {
    assert TimeOf(ps[j - 1]) <= TimeOf(ps[j]);
    EntrySticks(start, ps, i, j);
    hide Handle, Assigns, ReachesFallback;
    EntryForwards(ConnAt(start, ps, j), ps[j]);
  }

  // ---------------------------------------------------------- provenance

  /** The table holds a healthy server with this MAC. */
  predicate HealthyMac(t: Table, mac: seq<byte>) {
    exists s :: s in AllServers(t.slots) && s.healthy && s.mac.Some? && s.mac.value == mac
  }

  lemma {:induction false} SlotServersListed(slots: Slots, i: nat, s: Server)
    requires i < |slots| && slots[i].Some? && s in slots[i].value.servers
    ensures s in AllServers(slots)
  {
    if i < |slots| - 1 { SlotServersListed(slots[..|slots| - 1], i, s); }
  }

  lemma PoolMacHealthy(t: Table, flow: Flow, hash: Flow -> nat)
    requires Consistent(t) && FallbackMac(flow, t.fallback, hash).Some?
    ensures HealthyMac(t, FallbackMac(flow, t.fallback, hash).value)
  {
    PoolMembers(AllServers(t.slots));
    var s := t.fallback[hash(flow) % |t.fallback|];
    assert s in t.fallback;
  }

  /** An entry was written by an earlier packet from a table that then held a healthy
      server with that MAC. */
  ghost predicate Sourced(ps: seq<Packet>, k: nat, e: Entry) {
    exists i :: 0 <= i < k <= |ps| && ps[i].UdpPacket? && HealthyMac(ps[i].ctx.table, e.mac)
                && e.expires == ps[i].ctx.now + ENTRY_TTL
  }

  ghost predicate AllSourced(ps: seq<Packet>, k: nat, c: Conn) {
    && (forall f :: f in c.byFlow ==> Sourced(ps, k, c.byFlow[f]))
    && (forall d :: d in c.byDcid ==> Sourced(ps, k, c.byDcid[d]))
  }

  /** What a packet may write to the table: nothing, a DCID entry or a flow entry. */
  datatype Write = Nothing | ForDcid(key: DcidKey, mac: Mac) | ForFlow(alias: Option<DcidKey>, mac: Mac)

  predicate Wrote(conn: Conn, p: Packet, w: Write, c: Conn)
    requires p.UdpPacket?
  {
    match w
    case Nothing => c == conn
    case ForDcid(key, mac) => c == RecordDcid(conn, key, mac, p.ctx.now) && HealthyMac(p.ctx.table, mac)
    case ForFlow(alias, mac) => c == Insert(conn, p.flow, alias, mac, p.ctx.now) && HealthyMac(p.ctx.table, mac)
  }

  lemma DecidedIsHealthy(quic: seq<byte>, t: Table)
    requires t.Valid() && Decide(quic, t).Returns? && Decide(quic, t).value.ToServer?
    ensures HealthyMac(t, Decide(quic, t).value.mac)
  {
    var (dcid, config) := LookupConfig(quic, t).value;
    var s := Decide(quic, t).value.server;
    assert t.slots[dcid[0] / 32] == Some(config) && s in config.servers && s.healthy;
    SlotServersListed(t.slots, dcid[0] / 32, s);
  }

  lemma WriteOf(conn: Conn, p: Packet) returns (w: Write)
    requires PacketOk(p) && p.UdpPacket? && Consistent(p.ctx.table)
    ensures Wrote(conn, p, w, ConnAfter(conn, p))
  {
    var t, quic := p.ctx.table, p.frame[p.offset..];
    var d := Decide(quic, t);
    if d.Returns? && d.value.ToServer? {
      DecidedIsHealthy(quic, t);
      hide Decide, HealthyMac, RecordDcid, KeyOf, Rewrite;
      return ForDcid(KeyOf(d.value.dcid), d.value.mac);
    }
    var chosen := FallbackMac(p.flow, t.fallback, p.ctx.hash);
    if chosen.Some? { PoolMacHealthy(t, p.flow, p.ctx.hash); }
    hide Decide, HealthyMac, FallbackMac, FallbackKey, Lookup, Insert, Rewrite;
    if ConnAfter(conn, p) == conn { return Nothing; }
    w := ForFlow(FallbackKey(quic, t), chosen.value);
  }

  /** A packet adds to the table only an entry for a healthy MAC of its own route
      table, dated now. */
  lemma NewEntries(conn: Conn, p: Packet, e: Entry)
    requires PacketOk(p) && (p.UdpPacket? ==> Consistent(p.ctx.table))
    requires var c := ConnAfter(conn, p);
             || (e in c.byFlow.Values && e !in conn.byFlow.Values)
             || (e in c.byDcid.Values && e !in conn.byDcid.Values)
    ensures p.UdpPacket? && HealthyMac(p.ctx.table, e.mac) && e.expires == p.ctx.now + ENTRY_TTL
  {
    match p
    case UdpPacket(_, _, flow, ctx) =>
      var w := WriteOf(conn, p);
      hide Udp, HealthyMac, Insert, RecordDcid, ConnAfter;
      match w {
        case Nothing =>
        case ForDcid(key, mac) => InsertValues(conn, flow, Some(key), mac, ctx.now, e);
        case ForFlow(alias, mac) => InsertValues(conn, flow, alias, mac, ctx.now, e);
      }
    case IcmpPacket(frame, offset, flow, ctx) => IcmpWritesNothing(frame, offset, flow, conn, ctx);
    case SweepTick(now) => SweepValues(conn, now, e);
  }

  lemma InsertValues(conn: Conn, flow: Flow, alias: Option<DcidKey>, mac: Mac, now: Time, e: Entry)
    ensures var c := Insert(conn, flow, alias, mac, now);
            && (e in c.byFlow.Values ==> e in conn.byFlow.Values || e == Entry(mac, now + ENTRY_TTL))
            && (e in c.byDcid.Values ==> e in conn.byDcid.Values || e == Entry(mac, now + ENTRY_TTL))
    ensures alias.Some? ==>
              var c := RecordDcid(conn, alias.value, mac, now);
              && c.byFlow == conn.byFlow
              && (e in c.byDcid.Values ==> e in conn.byDcid.Values || e == Entry(mac, now + ENTRY_TTL))
  {
  }

  lemma SweepValues(conn: Conn, now: Time, e: Entry)
    ensures var c := Sweep(conn, now);
            (e in c.byFlow.Values ==> e in conn.byFlow.Values) && (e in c.byDcid.Values ==> e in conn.byDcid.Values)
  {
  }

  lemma IcmpWritesNothing(frame: seq<byte>, offset: nat, flow: Flow, conn: Conn, ctx: Ctx)
    requires |frame| >= 12 && ctx.table.Valid()
    ensures var o := IcmpError(frame, offset, flow, conn, ctx); o.Returns? ==> o.value.conn == conn
  {
    hide ScidMac, Lookup, Rewrite;
  }

  lemma SourcedLater(ps: seq<Packet>, k: nat, e: Entry)
    requires 0 < k <= |ps| && Sourced(ps, k - 1, e)
    ensures Sourced(ps, k, e)
  {
    var i :| 0 <= i < k - 1 && ps[i].UdpPacket? && HealthyMac(ps[i].ctx.table, e.mac)
             && e.expires == ps[i].ctx.now + ENTRY_TTL;
    assert ps[i].UdpPacket? && i < k;
    hide HealthyMac;
  }

  lemma StepSourced(ps: seq<Packet>, k: nat, c0: Conn, c: Conn, e: Entry)
    requires 0 < k <= |ps| && PacketOk(ps[k - 1]) && c == ConnAfter(c0, ps[k - 1]) && AllSourced(ps, k - 1, c0)
    requires ps[k - 1].UdpPacket? ==> Consistent(ps[k - 1].ctx.table)
    requires e in c.byFlow.Values || e in c.byDcid.Values
    ensures Sourced(ps, k, e)
  {
    hide ConnAfter, HealthyMac, PacketOk;
    if e in c0.byFlow.Values {
      var f :| f in c0.byFlow && c0.byFlow[f] == e;
      SourcedLater(ps, k, e);
    } else if e in c0.byDcid.Values {
      var d :| d in c0.byDcid && c0.byDcid[d] == e;
      SourcedLater(ps, k, e);
    } else {
      NewEntries(c0, ps[k - 1], e);
      assert ps[k - 1].UdpPacket?;
    }
  }

  /** The UDP packets of a history see consistent tables. */
  ghost predicate SeesConsistent(ps: seq<Packet>) {
    forall i :: 0 <= i < |ps| && ps[i].UdpPacket? ==> Consistent(ps[i].ctx.table)
  }

  lemma {:induction false} EntriesSourced(start: Time, ps: seq<Packet>, k: nat)
    requires History(ps) && SeesConsistent(ps) && k <= |ps|
    ensures AllSourced(ps, k, ConnAt(start, ps, k))
  {
    if k > 0 {
      EntriesSourced(start, ps, k - 1);
      var c0, c := ConnAt(start, ps, k - 1), ConnAt(start, ps, k);
      hide ConnAfter, Sourced, PacketOk, Consistent;
      forall f | f in c.byFlow ensures Sourced(ps, k, c.byFlow[f]) { StepSourced(ps, k, c0, c, c.byFlow[f]); }
      forall d | d in c.byDcid ensures Sourced(ps, k, c.byDcid[d]) { StepSourced(ps, k, c0, c, c.byDcid[d]); }
    }
  }

  lemma FallbackReached(conn: Conn, p: Packet)
    requires PacketOk(p) && Handle(conn, p).Returns? && Handle(conn, p).value.verdict.FallbackForward?
    ensures ReachesFallback(p)
  {
    hide Decide, ScidMac, FallbackUdp, Lookup;
  }

  /** Where a fallback forward takes its MAC from: a live entry, or the pool. */
  lemma FallbackSource(conn: Conn, p: Packet) returns (e: Option<Entry>)
    requires PacketOk(p) && ReachesFallback(p) && Handle(conn, p).Returns?
    requires Handle(conn, p).value.verdict.FallbackForward?
    ensures var mac := Handle(conn, p).value.frame[..6];
            if e.Some? then
              && (e.value in conn.byFlow.Values || e.value in conn.byDcid.Values)
              && e.value.Live(TimeOf(p)) && e.value.mac == mac
            else FallbackMac(p.flow, p.ctx.table.fallback, p.ctx.hash) == Some(mac)
  {
    var key := FallbackKey(p.frame[p.offset..], p.ctx.table);
    hide Decide, FallbackKey, FallbackMac, Insert;
    if p.flow in conn.byFlow && conn.byFlow[p.flow].Live(TimeOf(p)) { return Some(conn.byFlow[p.flow]); }
    if key.Some? && key.value in conn.byDcid && conn.byDcid[key.value].Live(TimeOf(p)) {
      return Some(conn.byDcid[key.value]);
    }
    e := None;
  }

  /** Every fallback forward goes to a MAC that a table some packet saw less than 5 s
      earlier held for a healthy server. */
  lemma FallbackIsRecentlyHealthy(start: Time, ps: seq<Packet>, j: nat)
    requires History(ps) && SeesConsistent(ps) && j < |ps|
    requires var o := Handle(ConnAt(start, ps, j), ps[j]); o.Returns? && o.value.verdict.FallbackForward?
    ensures ps[j].UdpPacket?
    ensures exists i :: 0 <= i <= j && ps[i].UdpPacket? && ps[j].ctx.now < ps[i].ctx.now + ENTRY_TTL
                        && HealthyMac(ps[i].ctx.table, Handle(ConnAt(start, ps, j), ps[j]).value.frame[..6])
  {
    EntriesSourced(start, ps, j);
    var p, c := ps[j], ConnAt(start, ps, j);
    FallbackReached(c, p);
    var e := FallbackSource(c, p);
    if e.None? { PoolMacHealthy(p.ctx.table, p.flow, p.ctx.hash); }
    hide Handle, HealthyMac, ReachesFallback, ConnAt, FallbackMac, Consistent;
    if e.None? {
      assert p.ctx.now < ps[j].ctx.now + ENTRY_TTL;
    } else {
      assert Sourced(ps, j, e.value);
    }
  }
}
