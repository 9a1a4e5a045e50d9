/**
  The worker's dispatch of one received batch: parse, Retry, routing, bookkeeping, and
  the split of the descriptors into those to transmit and those to recycle.
 */
module Dispatch {
  import opened Bits
  import opened Cid
  import opened Wire
  import opened ConnTable
  import opened Stats
  import F = Forwarding
  import L = LoadRate
  import R = RetryPath

  /** A received frame and the size of its UMEM chunk. */
  datatype Frame = Frame(bytes: seq<byte>, capacity: nat)

  /** The configuration snapshot and clock readings of one batch. */
  datatype Env = Env(ctx: F.Ctx, retry: Option<R.RetryConfig>, nowMs: nat)

  /** `process_packet_parsed`. */
  function Route(bytes: seq<byte>, parsed: Parsed, conn: Conn, ctx: F.Ctx): Attempt<F.Outcome>
    requires ParseFrame(bytes) == Some(parsed) && ctx.table.Valid()
  {
    match parsed.l4
    case Udp(_, quic, srcPort, dstPort) =>
      F.Udp(bytes, quic, Flow(parsed.srcAddr, parsed.dstAddr, srcPort, dstPort), conn, ctx)
    case Icmp(inner, reversed) => F.IcmpError(bytes, inner, reversed, conn, ctx)
  }

  /** What happened to one frame. No verdict means a Retry was emitted in its place. */
  datatype Handled = Handled(
    outcome: R.Outcome, detail: R.Detail, verdict: Option<F.Verdict>, bytes: seq<byte>, conn: Conn, pending: nat)

  function HandleFrame(f: Frame, conn: Conn, pending: nat, env: Env): Attempt<Handled>
    requires env.ctx.table.Valid()
  {
    match ParseFrame(f.bytes)
    case None => Returns(Handled(R.Skip, R.NoDetail, Some(F.Pass), f.bytes, conn, pending))
    case Some(parsed) =>
      var r := R.TryHandle(f.bytes, parsed, env.retry, env.ctx.local, env.nowMs, f.capacity, pending);
      if r.outcome.Emitted? then Returns(Handled(r.outcome, r.detail, None, r.frame, conn, r.pending))
      else
        match Route(f.bytes, parsed, conn, env.ctx)
        case Panics => Panics
        case Returns(o) => Returns(Handled(r.outcome, r.detail, Some(o.verdict), o.frame, o.conn, r.pending))
  }

  predicate Transmits(h: Handled) { h.verdict.None? || F.Forwards(h.verdict.value) }

  /** The frames of a batch in order, each seeing the table the ones before left. */
  function HandleAll(fs: seq<Frame>, conn: Conn, env: Env): (hs: Attempt<seq<Handled>>)
    requires env.ctx.table.Valid()
    ensures hs.Returns? ==> |hs.value| == |fs|
  {
    if fs == [] then Returns([])
    else
      match HandleAll(fs[..|fs| - 1], conn, env)
      case Panics => Panics
      case Returns(hs) =>
        match HandleFrame(fs[|fs| - 1], ConnAfter(hs, conn), PendingAfter(hs), env)
        case Panics => Panics
        case Returns(h) => Returns(hs + [h])
  }

  function ConnAfter(hs: seq<Handled>, conn: Conn): Conn { if hs == [] then conn else hs[|hs| - 1].conn }
  function PendingAfter(hs: seq<Handled>): nat { if hs == [] then 0 else hs[|hs| - 1].pending }

  // -------------------------------------------------- frames that panic

  /** The kind of frame that panics the worker, by its bytes and the snapshot alone: an ICMP
      error that ends between the echoed ports and the end of the echoed UDP header, or a
      CID to be decoded with a config that cannot decode, unless a Retry is sent instead. */
  predicate FramePanics(f: Frame, env: Env)
    requires env.ctx.table.Valid()
  {
    var parsed := ParseFrame(f.bytes);
    parsed.Some? &&
    match parsed.value.l4
    case Icmp(inner, _) =>
      inner - 4 <= |f.bytes| < inner || (inner <= |f.bytes| && F.EchoUndecodable(f.bytes[inner..], env.ctx.table))
    case Udp(_, quic, _, _) =>
      var found := LookupConfig(f.bytes[quic..], env.ctx.table);
      && found.Some? && Undecodable(found.value.1) && |found.value.0| >= found.value.1.CidLen()
      && !R.TryHandle(f.bytes, parsed.value, env.retry, env.ctx.local, env.nowMs, f.capacity, 0).outcome.Emitted?
  }

  /** Routing a parsed ICMP error panics exactly when the frame ends inside the echoed UDP
      header, or the echoed SCID cannot be decoded. */
  lemma EchoPanicsExactly(bytes: seq<byte>, parsed: Parsed, conn: Conn, ctx: F.Ctx)
    requires ParseFrame(bytes) == Some(parsed) && parsed.l4.Icmp? && ctx.table.Valid()
    ensures var inner := parsed.l4.innerQuicOffset;
            Route(bytes, parsed, conn, ctx).Panics? <==>
            || inner - 4 <= |bytes| < inner
            || (inner <= |bytes| && F.EchoUndecodable(bytes[inner..], ctx.table))
  {
    F.IcmpPanicsExactly(bytes, parsed.l4.innerQuicOffset, parsed.l4.reversed, conn, ctx);
    hide ParseFrame, F.IcmpError, F.EchoUndecodable;
  }

  /** Smallest such frames: an ICMP and an ICMPv6 error around four echoed UDP bytes. */
  const SHORT_ECHO_V4: seq<byte> :=
    seq(66, i => if i == 12 then 8 else if i == 14 || i == 42 then 0x45 else if i == 23 then PROTO_ICMP
                 else if i == 34 then 11 else if i == 51 then PROTO_UDP else 0)
  const SHORT_ECHO_V6: seq<byte> :=
    seq(106, i => if i == 12 then 0x86 else if i == 13 then 0xdd else if i == 20 then PROTO_ICMPV6
                  else if i == 54 then 1 else if i == 68 then PROTO_UDP else 0)

  lemma ShortEchoV4Panics(conn: Conn, pending: nat, env: Env)
    requires env.ctx.table.Valid()
    ensures HandleFrame(Frame(SHORT_ECHO_V4, 2048), conn, pending, env).Panics?
  {
    var f := SHORT_ECHO_V4;
    assert U16(f, 12) == ETH_P_IP && f[14] == 0x45 && f[23] == PROTO_ICMP;
    assert f[34] == 11 && f[42] == 0x45 && f[51] == PROTO_UDP;
    assert ParseFrame(f).Some? && ParseFrame(f).value.l4.Icmp? && ParseFrame(f).value.l4.innerQuicOffset == 70;
    EchoPanicsExactly(f, ParseFrame(f).value, conn, env.ctx);
    hide ParseFrame, Route;
  }

  lemma ShortEchoV6Panics(conn: Conn, pending: nat, env: Env)
    requires env.ctx.table.Valid()
    ensures HandleFrame(Frame(SHORT_ECHO_V6, 2048), conn, pending, env).Panics?
  {
    var f := SHORT_ECHO_V6;
    assert U16(f, 12) == ETH_P_IPV6 && f[20] == PROTO_ICMPV6 && f[54] == 1 && f[68] == PROTO_UDP;
    assert Walk(f, PROTO_ICMPV6, 54, 6, true) == Some((PROTO_ICMPV6, 54));
    assert Walk(f, PROTO_UDP, 102, 6, false) == Some((PROTO_UDP, 102));
    assert ParseFrame(f).Some? && ParseFrame(f).value.l4.Icmp? && ParseFrame(f).value.l4.innerQuicOffset == 110;
    EchoPanicsExactly(f, ParseFrame(f).value, conn, env.ctx);
    hide ParseFrame, Route;
  }

  lemma HandlingPanicsExactly(f: Frame, conn: Conn, pending: nat, env: Env)
    requires env.ctx.table.Valid()
    ensures HandleFrame(f, conn, pending, env).Panics? <==> FramePanics(f, env)
  {
    if ParseFrame(f.bytes).Some? {
      var parsed := ParseFrame(f.bytes).value;
      R.OutcomeIgnoresTally(f.bytes, parsed, env.retry, env.ctx.local, env.nowMs, f.capacity, pending, 0);
      match parsed.l4
      case Icmp(inner, reversed) =>
        EchoPanicsExactly(f.bytes, parsed, conn, env.ctx);
        R.IcmpIsSkipped(f.bytes, parsed, env.retry, env.ctx.local, env.nowMs, f.capacity, pending);
        hide ParseFrame, R.TryHandle, Route, F.EchoUndecodable;
      case Udp(_, quic, srcPort, dstPort) =>
        F.UdpPanicsExactly(f.bytes, quic, Flow(parsed.srcAddr, parsed.dstAddr, srcPort, dstPort), conn, env.ctx);
        hide ParseFrame, R.TryHandle, F.Udp, LookupConfig, Undecodable;
    }
  }

  /** Dispatching a batch panics exactly when some frame in it is of that kind. */
  lemma {:induction false} BatchPanicsExactly(fs: seq<Frame>, conn: Conn, env: Env)
    requires env.ctx.table.Valid()
    ensures HandleAll(fs, conn, env).Panics? <==> exists f :: f in fs && FramePanics(f, env)
  {
    if fs != [] {
      var n := |fs| - 1;
      BatchPanicsExactly(fs[..n], conn, env);
      var hs := HandleAll(fs[..n], conn, env);
      assert fs == fs[..n] + [fs[n]];
      if hs.Returns? { HandlingPanicsExactly(fs[n], ConnAfter(hs.value, conn), PendingAfter(hs.value), env); }
      hide HandleFrame, FramePanics;
    }
  }

  // ---------------------------------------------------------- soundness

  /** A verdict names a real slot, a Retry is never emitted silently, and the retry
      counters see each frame at most once. */
  predicate Sound(h: Handled) {
    && (h.verdict.None? <==> h.outcome.Emitted?)
    && (h.outcome.Emitted? ==> !h.detail.NoDetail? && !h.detail.ParseError? && !h.detail.TokenValid?)
    && (h.verdict.Some? && (h.verdict.value.CidForward? || h.verdict.value.CidForwardDraining?) ==>
          h.verdict.value.configId < CONFIGS)
  }

  lemma RouteNamesSlot(bytes: seq<byte>, parsed: Parsed, conn: Conn, ctx: F.Ctx)
    requires ParseFrame(bytes) == Some(parsed) && ctx.table.Valid() && Route(bytes, parsed, conn, ctx).Returns?
    ensures var v := Route(bytes, parsed, conn, ctx).value.verdict;
            (v.CidForward? || v.CidForwardDraining?) ==> v.configId < CONFIGS
  {
    hide ServerOf, F.ScidMac;
  }

  lemma HandledIsSound(f: Frame, conn: Conn, pending: nat, env: Env)
    requires env.ctx.table.Valid() && HandleFrame(f, conn, pending, env).Returns?
    ensures Sound(HandleFrame(f, conn, pending, env).value)
  {
    if ParseFrame(f.bytes).Some? {
      var parsed := ParseFrame(f.bytes).value;
      R.EmittedIsCounted(f.bytes, parsed, env.retry, env.ctx.local, env.nowMs, f.capacity, pending);
      if Route(f.bytes, parsed, conn, env.ctx).Returns? { RouteNamesSlot(f.bytes, parsed, conn, env.ctx); }
      hide ParseFrame, R.TryHandle, Route;
    }
  }

  // ------------------------------------------------------------- bookkeeping

  function One(b: bool): nat { if b then 1 else 0 }

  /** What one frame adds to the books. */
  function Entry(h: Handled): (c: Counters)
    requires Sound(h)
    ensures |c.byConfig| == CONFIGS
  {
    var v := if h.verdict.Some? then h.verdict.value else F.Pass;
    var routed := h.verdict.Some?;
    var cid := v.CidForward? || v.CidForwardDraining?;
    Counters(One(routed && F.Forwards(v)), One(cid), if cid then ZEROS[v.configId := 1] else ZEROS,
             One(v.FallbackForward?), One(v.CidUnroutableNoServer?), One(v.CidUnroutableBadServerId?),
             One(v.CidForwardDraining?), One(v.IcmpForward?), One(routed && v.Pass?),
             One(!h.detail.NoDetail?), One(h.outcome.Emitted?), One(h.detail.TokenValid?),
             One(h.detail.TokenInvalid?), One(h.detail.TokenExpired?), One(h.detail.ParseError?))
  }

  function Totals(hs: seq<Handled>): (c: Counters)
    requires forall h :: h in hs ==> Sound(h)
    ensures |c.byConfig| == CONFIGS
  {
    if hs == [] then ZERO else Plus(Totals(hs[..|hs| - 1]), Entry(hs[|hs| - 1]))
  }

  lemma SumOneHot(id: nat)
    requires id < CONFIGS
    ensures L.Sum(ZEROS[id := 1]) == 1
  {
    var a, b := ZEROS[..id], ZEROS[id + 1..];
    assert ZEROS[id := 1] == a + ([1] + b);
    SumZero(a);
    SumZero(b);
    L.SumConcat([1], b);
    L.SumConcat(a, [1] + b);
    assert L.Sum([1]) == 1 by { assert [1][..0] == []; }
  }

  lemma EntryBalanced(h: Handled)
    requires Sound(h)
    ensures Balanced(Entry(h), 1)
  {
    hide L.Sum, ZEROS;
    EntryCids(h);
  }

  lemma EntryCids(h: Handled)
    requires Sound(h)
    ensures L.Sum(Entry(h).byConfig) == Entry(h).cidRouted
  {
    hide L.Sum;
    if h.verdict.Some? && (h.verdict.value.CidForward? || h.verdict.value.CidForwardDraining?) {
      SumOneHot(h.verdict.value.configId);
    } else {
      assert forall i :: 0 <= i < |ZEROS| ==> ZEROS[i] == 0;
      SumZero(ZEROS);
    }
  }

  /** The books of any batch balance against its size. */
  lemma {:induction false} TotalsBalanced(hs: seq<Handled>)
    requires forall h :: h in hs ==> Sound(h)
    ensures Balanced(Totals(hs), |hs|)
  {
    hide L.Sum, Plus, Entry, Sound;
    if hs == [] {
      ZeroBalanced();
    } else {
      var n := |hs| - 1;
      TotalsBalanced(hs[..n]);
      EntryBalanced(hs[n]);
      PlusBalanced(Totals(hs[..n]), n, Entry(hs[n]), 1);
      hide Balanced;
    }
  }

  /** Positions of the frames to transmit, or of those to recycle, in order. */
  function Chosen(hs: seq<Handled>, transmit: bool): seq<nat> {
    if hs == [] then []
    else Chosen(hs[..|hs| - 1], transmit) + if Transmits(hs[|hs| - 1]) == transmit then [|hs| - 1] else []
  }

  lemma EntryChosen(h: Handled)
    requires Sound(h)
    ensures Entry(h).forwarded + Entry(h).issued == One(Transmits(h))
    ensures Entry(h).noServer + Entry(h).badServerId + Entry(h).passed == One(!Transmits(h))
  {
  }

  /** The sizes of the two lists are in the books, and add up to the batch. */
  lemma {:induction false} ChosenCounts(hs: seq<Handled>)
    requires forall h :: h in hs ==> Sound(h)
    ensures var c := Totals(hs);
            && |Chosen(hs, true)| == c.forwarded + c.issued
            && |Chosen(hs, false)| == c.noServer + c.badServerId + c.passed
    ensures |Chosen(hs, true)| + |Chosen(hs, false)| == |hs|
  {
    hide Entry, Transmits, Sound;
    if hs == [] {
    } else {
      var n := |hs| - 1;
      ChosenCounts(hs[..n]);
      EntryChosen(hs[n]);
    }
  }

  /** Each list holds exactly the frames it is for. */
  lemma {:induction false} ChosenExactly(hs: seq<Handled>, transmit: bool, i: nat)
    ensures i in Chosen(hs, transmit) <==> i < |hs| && Transmits(hs[i]) == transmit
  {
    if hs != [] {
      ChosenExactly(hs[..|hs| - 1], transmit, i);
    }
  }

  lemma ByConfigOf(h: Handled, s: seq<nat>)
    requires Sound(h) && |s| == CONFIGS
    ensures var v := h.verdict;
            PlusEach(s, Entry(h).byConfig) ==
            if v.Some? && (v.value.CidForward? || v.value.CidForwardDraining?)
            then s[v.value.configId := s[v.value.configId] + 1] else s
  {
  }

  /** The records the loop makes for one frame. */
  method Record(h: Handled, batch: BatchStats)
    requires Sound(h) && |batch.c.byConfig| == CONFIGS
    modifies batch
    ensures batch.c == Plus(old(batch.c), Entry(h))
  {
    ByConfigOf(h, batch.c.byConfig);
    hide PlusEach;
    batch.RecordRetry(h.outcome, h.detail);
    if h.verdict.Some? {
      match h.verdict.value {
        case CidForward(id) => batch.RecordCidForward(id);
        case CidForwardDraining(id) =>
          batch.RecordCidForward(id);
          batch.RecordDrainingForward();
        case FallbackForward => batch.RecordFallbackForward();
        case IcmpForward => batch.RecordIcmpForward();
        case CidUnroutableNoServer => batch.RecordUnroutable(true);
        case CidUnroutableBadServerId => batch.RecordUnroutable(false);
        case Pass => batch.RecordPass();
      }
    }
  }

  predicate AllAreSound(hs: seq<Handled>) { forall h :: h in hs ==> Sound(h) }

  /** What the loop has produced once it has handled `hs`. */
  datatype Progress = Progress(tx: seq<nat>, recycle: seq<nat>, bytes: seq<seq<byte>>, conn: Conn, pending: nat)

  function After(hs: seq<Handled>, conn: Conn): Progress {
    Progress(Chosen(hs, true), Chosen(hs, false), seq(|hs|, i requires 0 <= i < |hs| => hs[i].bytes),
             ConnAfter(hs, conn), PendingAfter(hs))
  }

  function Extended(p: Progress, i: nat, h: Handled): Progress {
    Progress(if Transmits(h) then p.tx + [i] else p.tx, if Transmits(h) then p.recycle else p.recycle + [i],
             p.bytes + [h.bytes], h.conn, h.pending)
  }

  lemma AfterOneMore(hs: seq<Handled>, conn: Conn, h: Handled)
    ensures After(hs + [h], conn) == Extended(After(hs, conn), |hs|, h)
  {
    assert (hs + [h])[..|hs|] == hs;
    var p := After(hs, conn);
    assert p.tx + [] == p.tx && p.recycle + [] == p.recycle;
    assert After(hs + [h], conn).bytes == p.bytes + [h.bytes];
    hide Transmits;
  }

  lemma TotalsOneMore(hs: seq<Handled>, h: Handled)
    requires AllAreSound(hs) && Sound(h)
    ensures AllAreSound(hs + [h]) && Totals(hs + [h]) == Plus(Totals(hs), Entry(h))
  {
    assert (hs + [h])[..|hs|] == hs;
    hide Sound, Entry, Plus;
  }

  lemma HandleOneMore(fs: seq<Frame>, conn: Conn, env: Env, i: nat)
    requires env.ctx.table.Valid() && i < |fs| && HandleAll(fs[..i], conn, env).Returns?
    ensures var hs := HandleAll(fs[..i], conn, env).value;
            var h := HandleFrame(fs[i], ConnAfter(hs, conn), PendingAfter(hs), env);
            && HandleAll(fs[..i + 1], conn, env) == (if h.Panics? then Panics else Returns(hs + [h.value]))
            && (h.Returns? ==> Sound(h.value))
  {
    hide HandleFrame;
    assert fs[..i + 1][..i] == fs[..i];
    var hs := HandleAll(fs[..i], conn, env).value;
    if HandleFrame(fs[i], ConnAfter(hs, conn), PendingAfter(hs), env).Returns? {
      HandledIsSound(fs[i], ConnAfter(hs, conn), PendingAfter(hs), env);
    }
  }

  lemma {:induction false} PrefixPanics(fs: seq<Frame>, conn: Conn, env: Env, i: nat)
    requires env.ctx.table.Valid() && i <= |fs| && HandleAll(fs[..i], conn, env).Panics?
    ensures HandleAll(fs, conn, env).Panics?
  {
    if i == |fs| {
      assert fs[..i] == fs;
    } else {
      assert fs[..|fs| - 1][..i] == fs[..i];
      PrefixPanics(fs[..|fs| - 1], conn, env, i);
    }
  }

  lemma Started(conn: Conn, env: Env)
    requires env.ctx.table.Valid()
    ensures AllAreSound([]) && Totals([]) == ZERO && After([], conn) == Progress([], [], [], conn, 0)
    ensures HandleAll([], conn, env) == Returns([])
  {
  }

  // -------------------------------------------------------------------- code

  /** One turn of the loop on a chunk holding a frame of `n` bytes. */
  method HandleInPlace(chunk: array<byte>, n: nat, conn: ConnectionTable, env: Env, pending: nat)
    returns (h: Attempt<Handled>, len: nat)
    requires n <= chunk.Length && env.ctx.table.Valid()
    modifies chunk, conn
    ensures h == HandleFrame(Frame(old(chunk[..n]), chunk.Length), old(conn.View()), pending, env)
    ensures h.Returns? ==> len <= chunk.Length && chunk[..len] == h.value.bytes && conn.View() == h.value.conn
  {
    hide ParseFrame, R.TryHandle, F.Udp, F.IcmpError;
    var frame := chunk[..n];
    len := n;
    var parsed := ParseFrame(frame);
    if parsed.None? {
      return Returns(Handled(R.Skip, R.NoDetail, Some(F.Pass), frame, conn.View(), pending)), n;
    }
    ghost var r := R.TryHandle(frame, parsed.value, env.retry, env.ctx.local, env.nowMs, chunk.Length, pending);
    R.EmittedIsCounted(frame, parsed.value, env.retry, env.ctx.local, env.nowMs, chunk.Length, pending);
    var outcome, detail, m, counted :=
      R.HandleInPlace(chunk, n, parsed.value, env.retry, env.ctx.local, env.nowMs, pending);
    assert r == R.Handled(outcome, detail, chunk[..m], counted);
    if outcome.Emitted? {
      return Returns(Handled(outcome, detail, None, chunk[..m], conn.View(), counted)), m;
    }
    assert chunk[..m] == frame && m == n;
    var verdict;
    match parsed.value.l4 {
      case Udp(_, quic, srcPort, dstPort) =>
        var flow := Flow(parsed.value.srcAddr, parsed.value.dstAddr, srcPort, dstPort);
        verdict := F.ProcessUdp(chunk, n, quic, flow, conn, env.ctx);
      case Icmp(inner, reversed) =>
        verdict := F.ProcessIcmp(chunk, n, inner, reversed, conn, env.ctx);
    }
    if verdict.Panics? { return Panics, 0; }
    h := Returns(Handled(outcome, detail, Some(verdict.value), chunk[..n], conn.View(), counted));
  }

  /** Frames of the given lengths in chunks of their own. */
  ghost predicate Held(chunks: seq<array<byte>>, lens: seq<nat>) {
    && |lens| == |chunks| && (forall i :: 0 <= i < |chunks| ==> lens[i] <= chunks[i].Length)
    && forall i, j :: 0 <= i < j < |chunks| ==> chunks[i] != chunks[j]
  }

  ghost function FramesOf(chunks: seq<array<byte>>, lens: seq<nat>): (fs: seq<Frame>)
    requires Held(chunks, lens)
    reads chunks
    ensures |fs| == |chunks|
    ensures forall i :: 0 <= i < |fs| ==> fs[i] == Frame(chunks[i][..lens[i]], chunks[i].Length)
  {
    seq(|chunks|, i requires 0 <= i < |chunks| reads chunks => Frame(chunks[i][..lens[i]], chunks[i].Length))
  }

  /** The first `|hs|` chunks hold what handling left in them. */
  ghost predicate Rewritten(chunks: seq<array<byte>>, lens: seq<nat>, hs: seq<Handled>)
    reads chunks
  {
    && |lens| == |hs| <= |chunks|
    && forall k :: 0 <= k < |hs| ==> lens[k] <= chunks[k].Length && chunks[k][..lens[k]] == hs[k].bytes
  }

  /** The chunks from `i` on still hold what was received. */
  ghost predicate Waiting(chunks: seq<array<byte>>, lens: seq<nat>, fs: seq<Frame>, i: nat)
    requires |lens| == |chunks| == |fs|
    reads chunks
  {
    forall k :: i <= k < |chunks| ==>
      lens[k] <= chunks[k].Length && fs[k] == Frame(chunks[k][..lens[k]], chunks[k].Length)
  }

  lemma NoneHandled(chunks: seq<array<byte>>, lens: seq<nat>)
    requires Held(chunks, lens)
    ensures Rewritten(chunks, [], []) && Waiting(chunks, lens, FramesOf(chunks, lens), 0)
  {
  }

  /** One turn of the loop: frame, books and the descriptor's list. */
  method DispatchOne(chunk: array<byte>, n: nat, i: nat, conn: ConnectionTable, env: Env, batch: BatchStats,
                     p: Progress,
                     ghost hs: seq<Handled>, ghost c0: Conn)
    returns (ok: bool, len: nat, p': Progress, ghost h: Attempt<Handled>)
    requires n <= chunk.Length && env.ctx.table.Valid() && i == |hs|
    requires AllAreSound(hs) && batch.c == Totals(hs) && p == After(hs, c0) && conn.View() == p.conn
    modifies chunk, conn, batch
    ensures h == HandleFrame(Frame(old(chunk[..n]), chunk.Length), ConnAfter(hs, c0), PendingAfter(hs), env)
    ensures ok <==> h.Returns?
    ensures ok ==> len <= chunk.Length && chunk[..len] == h.value.bytes && AllAreSound(hs + [h.value])
    ensures ok ==> batch.c == Totals(hs + [h.value]) && p' == After(hs + [h.value], c0) && conn.View() == p'.conn
  {
    hide HandleFrame, Totals, Plus, Entry, Sound, Transmits, Chosen;
    var g, m := HandleInPlace(chunk, n, conn, env, p.pending);
    h, len, p' := g, m, p;
    if g.Panics? { return false, len, p', h; }
    HandledIsSound(Frame(old(chunk[..n]), chunk.Length), ConnAfter(hs, c0), PendingAfter(hs), env);
    TotalsOneMore(hs, g.value);
    AfterOneMore(hs, c0, g.value);
    hide After;
    Record(g.value, batch);
    ok, p' := true, Extended(p, i, g.value);
  }

  /** The same among the batch's chunks: the others keep what they hold. */
  method DispatchAt(chunks: seq<array<byte>>, lens: seq<nat>, i: nat, conn: ConnectionTable, env: Env,
                    batch: BatchStats,
                    p: Progress, done: seq<nat>, ghost fs: seq<Frame>, ghost hs: seq<Handled>, ghost c0: Conn)
    returns (ok: bool, p': Progress, done': seq<nat>, ghost h: Attempt<Handled>)
    requires Held(chunks, lens) && i < |chunks| == |fs| && env.ctx.table.Valid() && i == |hs|
    requires AllAreSound(hs) && batch.c == Totals(hs) && p == After(hs, c0) && conn.View() == p.conn
    requires Rewritten(chunks, done, hs) && Waiting(chunks, lens, fs, i)
    modifies chunks[i], conn, batch
    ensures h == HandleFrame(fs[i], ConnAfter(hs, c0), PendingAfter(hs), env) && (ok <==> h.Returns?)
    ensures ok ==> Rewritten(chunks, done', hs + [h.value]) && Waiting(chunks, lens, fs, i + 1)
    ensures ok ==> AllAreSound(hs + [h.value]) && batch.c == Totals(hs + [h.value])
    ensures ok ==> p' == After(hs + [h.value], c0) && conn.View() == p'.conn
  {
    hide HandleFrame, Totals, Sound, After, ConnAfter, PendingAfter;
    var len;
    ok, len, p', h := DispatchOne(chunks[i], lens[i], i, conn, env, batch, p, hs, c0);
    done' := done + [len];
  }

  /** The loop over the received descriptors, rewriting each frame in its chunk. */
  method DispatchAll(chunks: seq<array<byte>>, lens: seq<nat>, conn: ConnectionTable, env: Env, batch: BatchStats)
    returns (ok: bool, p: Progress, lens': seq<nat>)
    requires Held(chunks, lens) && env.ctx.table.Valid() && batch.c == ZERO
    modifies chunks, conn, batch
    ensures var hs := HandleAll(old(FramesOf(chunks, lens)), old(conn.View()), env);
            && (ok <==> hs.Returns?)
            && (ok ==> AllAreSound(hs.value) && batch.c == Totals(hs.value) && Rewritten(chunks, lens', hs.value)
                       && p == After(hs.value, old(conn.View())) && conn.View() == p.conn)
  {
    hide HandleAll, HandleFrame, Totals, Sound, ZERO, After, Rewritten, Waiting;
    ghost var fs, c0, hs: seq<Handled> := FramesOf(chunks, lens), conn.View(), [];
    p, lens' := Progress([], [], [], conn.View(), 0), [];
    Started(c0, env);
    assert fs[..0] == [];
    NoneHandled(chunks, lens);
    for i := 0 to |chunks|
      invariant HandleAll(fs[..i], c0, env) == Returns(hs) && |hs| == i && AllAreSound(hs)
      invariant batch.c == Totals(hs) && p == After(hs, c0) && conn.View() == p.conn
      invariant Rewritten(chunks, lens', hs) && Waiting(chunks, lens, fs, i)
    {
      HandleOneMore(fs, c0, env, i);
      ghost var h;
      ok, p, lens', h := DispatchAt(chunks, lens, i, conn, env, batch, p, lens', fs, hs, c0);
      if !ok {
        PrefixPanics(fs, c0, env, i + 1);
        return;
      }
      hs := hs + [h.value];
    }
    assert fs[..|fs|] == fs;
    ok := true;
  }

  /** One turn of the worker loop from reception to flush. If the books balanced before,
      they balance after, and every received frame is transmitted or recycled, once; a
      batch that panics is received and never flushed. */
  method RunBatch(chunks: seq<array<byte>>, lens: seq<nat>, conn: ConnectionTable, env: Env, stats: WorkerStats)
    returns (ok: bool, p: Progress, lens': seq<nat>)
    requires Held(chunks, lens) && env.ctx.table.Valid() && Balanced(stats.c, stats.rx)
    modifies chunks, conn, stats
    ensures var hs := HandleAll(old(FramesOf(chunks, lens)), old(conn.View()), env);
            && stats.rx == old(stats.rx) + |chunks| && stats.peak == old(stats.peak) && (ok <==> hs.Returns?)
            && (ok ==> Balanced(stats.c, stats.rx) && AllAreSound(hs.value)
                       && stats.c == Plus(old(stats.c), Totals(hs.value))
                       && Rewritten(chunks, lens', hs.value) && p == After(hs.value, old(conn.View()))
                       && conn.View() == p.conn && |p.tx| + |p.recycle| == |chunks|)
            && (!ok ==> stats.c == old(stats.c))
  {
    hide L.Sum, HandleAll, Totals, Chosen, Plus, Sound;
    stats.RecordRx(|chunks|);
    var batch := new BatchStats();
    ghost var fs, c0 := FramesOf(chunks, lens), conn.View();
    ok, p, lens' := DispatchAll(chunks, lens, conn, env, batch);
    if !ok { return; }
    ghost var all := HandleAll(fs, c0, env).value;
    TotalsBalanced(all);
    ChosenCounts(all);
    PlusBalanced(stats.c, old(stats.rx), Totals(all), |all|);
    batch.Flush(stats);
  }
}
