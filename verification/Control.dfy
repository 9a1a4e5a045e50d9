/**
  The control loop: start-up, SIGHUP reload and the periodic check, each of which may
  publish a route table, and the workers' snapshots of what is published.
 */
module ControlLoop {
  import opened Bits
  import opened Routes
  import opened Fallback
  import opened ConnTable
  import opened Wire
  import F = Forwarding
  import H = Health

  /** The kernel's neighbour table; a failed query finds nobody. */
  type Neighbours = map<IpAddr, Mac>

  // ------------------------------------------------------------ building slots

  /** Slots after filing the first `n` configs under their ids. */
  function Filed(raws: seq<RawConfig>, n: nat): (slots: Slots)
    requires n <= |raws| && forall i :: 0 <= i < |raws| ==> Acceptable(raws[i])
    ensures |slots| == 7
  {
    if n == 0 then seq(7, _ => None) else Filed(raws, n - 1)[raws[n - 1].configId := Some(Validate(raws[n - 1]).value)]
  }

  lemma NoneFiled(raws: seq<RawConfig>, slots: Slots)
    requires |slots| == 7 && forall i :: 0 <= i < 7 ==> slots[i] == None
    requires forall i :: 0 <= i < |raws| ==> Acceptable(raws[i])
    ensures Filed(raws, 0) == slots
  {
  }

  lemma FiledOneMore(raws: seq<RawConfig>, n: nat)
    requires n < |raws| && forall i :: 0 <= i < |raws| ==> Acceptable(raws[i])
    ensures Filed(raws, n + 1) == Filed(raws, n)[raws[n].configId := Some(Validate(raws[n]).value)]
  {
    hide Validate;
  }

  /** `from_str`: validate everything, then file it. */
  method FromRoutes(raws: seq<RawConfig>) returns (r: Option<Slots>)
    ensures r.Some? <==> Accepted(raws)
    ensures r.Some? ==> r.value == Filed(raws, |raws|)
  {
    hide Validate, Filed;
    var configs := ParseRoutes(raws);
    if configs.Err? { return None; }
    var slots := new Option<RouteConfig>[7](_ => None);
    NoneFiled(raws, slots[..]);
    for n := 0 to |raws|
      invariant slots[..] == Filed(raws, n)
    {
      FiledOneMore(raws, n);
      slots[configs.value[n].configId] := Some(configs.value[n]);
    }
    r := Some(slots[..]);
  }

  function Resolved(s: Server, table: Neighbours): Server {
    if s.mac.None? && s.address in table then s.(mac := Some(table[s.address])) else s
  }

  function ResolvedAll(servers: seq<Server>, table: Neighbours): seq<Server> {
    seq(|servers|, i requires 0 <= i < |servers| => Resolved(servers[i], table))
  }

  function ResolvedIn(slot: Option<RouteConfig>, table: Neighbours): Option<RouteConfig> {
    if slot.Some? then Some(slot.value.(servers := ResolvedAll(slot.value.servers, table))) else None
  }

  /** Every config is resolved by a query of its own. */
  function ResolvedSlots(slots: Slots, tables: nat -> Neighbours): (r: Slots)
    ensures |r| == |slots| && forall i :: 0 <= i < |r| ==> r[i] == ResolvedIn(slots[i], tables(i))
  {
    seq(|slots|, i requires 0 <= i < |slots| => ResolvedIn(slots[i], tables(i)))
  }

  /** `resolve_macs`: fills in the missing MACs only. */
  method ResolveMacs(servers: seq<Server>, table: Neighbours) returns (r: seq<Server>)
    ensures r == ResolvedAll(servers, table)
  {
    r := servers;
    for i := 0 to |servers|
      invariant |r| == |servers|
      invariant forall k :: 0 <= k < |r| ==> r[k] == if k < i then Resolved(servers[k], table) else servers[k]
    {
      if r[i].mac.Some? { continue; }
      if r[i].address in table { r := r[i := r[i].(mac := Some(table[r[i].address]))]; }
    }
  }

  method ResolveSlots(slots: Slots, tables: nat -> Neighbours) returns (r: Slots)
    ensures r == ResolvedSlots(slots, tables)
  {
    r := [];
    for i := 0 to |slots|
      invariant r == ResolvedSlots(slots, tables)[..i]
    {
      var slot := slots[i];
      if slot.Some? {
        var servers := ResolveMacs(slot.value.servers, tables(i));
        slot := Some(slot.value.(servers := servers));
      }
      r := r + [slot];
    }
  }

  predicate HasUnresolved(slots: Slots) { exists s :: s in AllServers(slots) && s.mac.None? }

  // ---------------------------------------------------------- control steps

  /** The published table and the health checker's memory. */
  datatype Daemon = Daemon(live: Table, health: H.Health)

  function Started(raws: seq<RawConfig>, tables: nat -> Neighbours): Daemon
    requires Accepted(raws)
  {
    Daemon(Rebuilt(ResolvedSlots(Filed(raws, |raws|), tables)), map[])
  }

  datatype Step =
    | Sighup(file: Option<seq<RawConfig>>, tables: nat -> Neighbours, now: nat)   // None: the file could not be read
    | Recheck(tables: nat -> Neighbours, results: map<IpAddr, bool>, now: nat)

  /** The slots a check works on: the live ones, with missing MACs looked up if there are any. */
  function Worked(slots: Slots, tables: nat -> Neighbours): Slots {
    if HasUnresolved(slots) then ResolvedSlots(slots, tables) else slots
  }

  /** What a check tracks and what it makes of the health state. */
  function Tracking(d: Daemon, step: Step): H.Health
    requires step.Recheck?
  {
    H.Tracked(d.health, step.now, H.AddressesOf(Worked(d.live.slots, step.tables)))
  }

  function Probed(d: Daemon, step: Step): H.Health
    requires step.Recheck?
  {
    H.After(d.health, H.Check(step.now, H.AddressesOf(Worked(d.live.slots, step.tables)), step.results))
  }

  /** Whether a check stores a new table. */
  predicate Republishes(d: Daemon, step: Step)
    requires step.Recheck?
  {
    HasUnresolved(d.live.slots) || H.Flipped(Tracking(d, step), Probed(d, step))
  }

  predicate ProbesSomething(d: Daemon, step: Step)
    requires step.Recheck?
  {
    H.Due(Tracking(d, step), step.now) != {}
  }

  /** The copy of the slots after a check: mirrored only if something was probed. */
  function Learnt(d: Daemon, step: Step): Slots
    requires step.Recheck?
  {
    var slots := Worked(d.live.slots, step.tables);
    if ProbesSomething(d, step) then H.Mirror(slots, Probed(d, step)) else slots
  }

  function Do(d: Daemon, step: Step): Daemon {
    match step
    case Sighup(file, tables, now) =>
      Daemon(if file.Some? && Accepted(file.value) then Started(file.value, tables).live else d.live,
             H.After(d.health, H.ResetBackoff(now)))
    case Recheck(_, _, _) =>
      Daemon(if Republishes(d, step) then Rebuilt(Learnt(d, step)) else d.live, Probed(d, step))
  }

  /** The daemon's main thread. */
  class Controller {
    var live: Table
    const health: H.HealthChecker

    ghost function View(): Daemon
      reads this, health
    {
      Daemon(live, health.state)
    }

    constructor (raws: seq<RawConfig>, tables: nat -> Neighbours)
      requires Accepted(raws)
      ensures View() == Started(raws, tables) && fresh(health)
    {
      var slots := FromRoutes(raws);
      var resolved := ResolveSlots(slots.value, tables);
      var pool := RebuildFallback(resolved);
      live := Table(resolved, pool);
      health := new H.HealthChecker();
    }

    /** SIGHUP: `reload_config`, then every backoff timer is reset. */
    method Reload(file: Option<seq<RawConfig>>, tables: nat -> Neighbours, now: nat)
      modifies this, health
      ensures View() == Do(old(View()), Sighup(file, tables, now))
    {
      if file.Some? {
        var slots := FromRoutes(file.value);
        if slots.Some? {
          var resolved := ResolveSlots(slots.value, tables);
          var pool := RebuildFallback(resolved);
          live := Table(resolved, pool);
        }
      }
      health.ResetBackoffs(now);
    }

    /** `check_and_rebuild`, on a copy of the live table that is stored back only if a MAC
        was missing or a server's health flipped. */
    method CheckAndRebuild(tables: nat -> Neighbours, results: map<IpAddr, bool>, now: nat) returns (rebuild: bool)
      modifies this, health
      ensures View() == Do(old(View()), Recheck(tables, results, now))
      ensures rebuild == Republishes(old(View()), Recheck(tables, results, now))
    {
      hide AllServers, PoolOf, HasUnresolved, ResolvedSlots;
      hide H.After, H.Tracked, H.Flipped, H.Due, H.Mirror, H.AddressesOf;
      var slots := live.slots;
      rebuild := HasMissingMac(slots);
      if rebuild { slots := ResolveSlots(slots, tables); }
      assert slots == Worked(live.slots, tables);
      var changed;
      changed, slots := health.CheckAll(slots, results, now);
      if changed { rebuild := true; }
      if rebuild {
        var pool := RebuildFallback(slots);
        live := Table(slots, pool);
      }
    }
  }

  /** `has_unresolved_macs`. */
  method HasMissingMac(slots: Slots) returns (r: bool)
    ensures r <==> HasUnresolved(slots)
  {
    for i := 0 to |slots|
      invariant forall s :: s in AllServers(slots[..i]) ==> s.mac.Some?
    {
      var servers := ServersOf(slots[i]);
      for k := 0 to |servers|
        invariant forall s :: s in servers[..k] ==> s.mac.Some?
      {
        if servers[k].mac.None? {
          F.SlotServersListed(slots, i, servers[k]);
          return true;
        }
      }
      assert servers[..|servers|] == servers;
      assert slots[..i + 1][..i] == slots[..i];
    }
    assert slots[..|slots|] == slots;
    r := false;
  }

  // ----------------------------------------------- every published table

  /** Slots that differ at most in what is learnt about their servers. */
  ghost predicate SameConfig(a: RouteConfig, b: RouteConfig) {
    && a == b.(servers := a.servers) && |a.servers| == |b.servers|
    && (forall k :: 0 <= k < |a.servers| ==> a.servers[k].id == b.servers[k].id)
    && forall k :: 0 <= k < |a.servers| ==> a.servers[k].address == b.servers[k].address
  }

  ghost predicate SameSlots(a: Slots, b: Slots) {
    && |a| == |b|
    && forall i :: 0 <= i < |a| ==> a[i].Some? == b[i].Some? && (a[i].Some? ==> SameConfig(a[i].value, b[i].value))
  }

  lemma SameStaysValid(a: Slots, b: Slots)
    requires SameSlots(a, b) && ValidSlots(a)
    ensures ValidSlots(b)
  {
    forall i | 0 <= i < 7 && b[i].Some? ensures b[i].value.configId == i && b[i].value.WellFormed() {
      assert SameConfig(a[i].value, b[i].value);
    }
  }

  lemma ResolvingKeepsSlots(slots: Slots, tables: nat -> Neighbours)
    ensures SameSlots(slots, ResolvedSlots(slots, tables))
  {
    var b := ResolvedSlots(slots, tables);
    forall i | 0 <= i < |slots| && slots[i].Some? ensures b[i].Some? && SameConfig(slots[i].value, b[i].value) {
      assert b[i].value == slots[i].value.(servers := ResolvedAll(slots[i].value.servers, tables(i)));
    }
  }

  lemma MirroringKeepsSlots(slots: Slots, state: H.Health)
    ensures SameSlots(slots, H.Mirror(slots, state))
  {
    var b := H.Mirror(slots, state);
    forall i | 0 <= i < |slots| && slots[i].Some? ensures b[i].Some? && SameConfig(slots[i].value, b[i].value) {
      assert b[i].value == slots[i].value.(servers := H.ShownAll(slots[i].value.servers, state));
    }
  }

  lemma LearntStaysValid(d: Daemon, step: Step)
    requires step.Recheck? && ValidSlots(d.live.slots)
    ensures ValidSlots(Learnt(d, step))
  {
    var slots := d.live.slots;
    var worked := Worked(slots, step.tables);
    ResolvingKeepsSlots(slots, step.tables);
    SameStaysValid(slots, ResolvedSlots(slots, step.tables));
    MirroringKeepsSlots(worked, Probed(d, step));
    hide H.Mirror, ResolvedSlots, HasUnresolved, Probed, ProbesSomething, SameSlots, ValidSlots;
    SameStaysValid(worked, H.Mirror(worked, Probed(d, step)));
  }

  lemma {:induction false} FiledIsValid(raws: seq<RawConfig>, n: nat)
    requires n <= |raws| && forall i :: 0 <= i < |raws| ==> Acceptable(raws[i])
    ensures ValidSlots(Filed(raws, n))
  {
    if n > 0 { FiledIsValid(raws, n - 1); }
  }

  predicate Good(t: Table) { t.Valid() && Consistent(t) }

  lemma StartedIsGood(raws: seq<RawConfig>, tables: nat -> Neighbours)
    requires Accepted(raws)
    ensures Good(Started(raws, tables).live)
  {
    var slots := Filed(raws, |raws|);
    FiledIsValid(raws, |raws|);
    ResolvingKeepsSlots(slots, tables);
    SameStaysValid(slots, ResolvedSlots(slots, tables));
  }

  /** Every control step leaves a published table with validated configs in their slots and
      exactly the pool those slots call for. */
  lemma StepStaysGood(d: Daemon, step: Step)
    requires Good(d.live)
    ensures Good(Do(d, step).live)
  {
    match step
    case Sighup(file, tables, _) =>
      if file.Some? && Accepted(file.value) { StartedIsGood(file.value, tables); }
    case Recheck(_, _, _) =>
      LearntStaysValid(d, step);
      hide Learnt, Republishes, Probed;
  }

  // ------------------------------------------------ the daemon and a worker

  /** Control steps, and the worker's: it reads the clock and sweeps, loads a snapshot of
      the published table, and handles frames with both. */
  datatype Event =
    | Control(step: Step)
    | Turn(now: Time)
    | Load
    | Udp(frame: seq<byte>, offset: nat, flow: Flow)
    | Icmp(frame: seq<byte>, offset: nat, flow: Flow)

  datatype World = World(d: Daemon, snapshot: Table, now: Time)

  /** What does not change while the daemon runs. */
  datatype Setup = Setup(raws: seq<RawConfig>, tables: nat -> Neighbours, start: Time, local: Mac, hash: Flow -> nat)

  function WorldAt(u: Setup, es: seq<Event>): World
    requires Accepted(u.raws)
  {
    if es == [] then
      var d := Started(u.raws, u.tables);
      World(d, d.live, u.start)
    else
      var w := WorldAt(u, es[..|es| - 1]);
      Next(w, es[|es| - 1])
  }

  function Next(w: World, e: Event): World {
    match e
    case Control(step) => w.(d := Do(w.d, step))
    case Turn(now) => w.(now := now)
    case Load => w.(snapshot := w.d.live)
    case _ => w
  }

  /** The packet an event brings, with what the worker knows when it handles it. */
  function NewPackets(u: Setup, w: World, e: Event): seq<F.Packet> {
    match e
    case Turn(now) => [F.SweepTick(now)]
    case Udp(frame, offset, flow) => [F.UdpPacket(frame, offset, flow, F.Ctx(w.snapshot, u.local, w.now, u.hash))]
    case Icmp(frame, offset, flow) => [F.IcmpPacket(frame, offset, flow, F.Ctx(w.snapshot, u.local, w.now, u.hash))]
    case _ => []
  }

  function PacketsOf(u: Setup, es: seq<Event>): seq<F.Packet>
    requires Accepted(u.raws)
  {
    if es == [] then []
    else PacketsOf(u, es[..|es| - 1]) + NewPackets(u, WorldAt(u, es[..|es| - 1]), es[|es| - 1])
  }

  predicate Allowed(w: World, e: Event) {
    match e
    case Turn(now) => now >= w.now
    case Udp(frame, offset, _) => 12 <= offset <= |frame|
    case Icmp(frame, _, _) => |frame| >= 12
    case _ => true
  }

  /** Frames come parsed, and the worker's clock does not go back. */
  ghost predicate IsHistory(u: Setup, es: seq<Event>)
    requires Accepted(u.raws)
  {
    if es == [] then true else IsHistory(u, es[..|es| - 1]) && Allowed(WorldAt(u, es[..|es| - 1]), es[|es| - 1])
  }

  /** In every history both the published table and the worker's snapshot are good. */
  lemma {:induction false} TablesStayGood(u: Setup, es: seq<Event>)
    requires Accepted(u.raws)
    ensures Good(WorldAt(u, es).d.live) && Good(WorldAt(u, es).snapshot)
  {
    if es == [] {
      StartedIsGood(u.raws, u.tables);
    } else {
      var es', e := es[..|es| - 1], es[|es| - 1];
      TablesStayGood(u, es');
      if e.Control? { StepStaysGood(WorldAt(u, es').d, e.step); }
      hide Good, Do, Started;
    }
  }

  /** A table that was published at some point of a history. */
  ghost predicate Published(u: Setup, es: seq<Event>, t: Table)
    requires Accepted(u.raws)
  {
    exists m :: 0 <= m <= |es| && WorldAt(u, es[..m]).d.live == t
  }

  lemma PublishedLater(u: Setup, es: seq<Event>, t: Table)
    requires Accepted(u.raws) && es != [] && Published(u, es[..|es| - 1], t)
    ensures Published(u, es, t)
  {
    var es' := es[..|es| - 1];
    var m :| 0 <= m <= |es'| && WorldAt(u, es'[..m]).d.live == t;
    assert es'[..m] == es[..m];
    hide WorldAt;
  }

  /** A snapshot is always a published table. */
  lemma {:induction false} SnapshotIsPublished(u: Setup, es: seq<Event>)
    requires Accepted(u.raws)
    ensures Published(u, es, WorldAt(u, es).snapshot)
  {
    if es == [] {
      assert WorldAt(u, es[..0]).d.live == WorldAt(u, es).snapshot;
    } else if es[|es| - 1].Load? {
      var es' := es[..|es| - 1];
      assert WorldAt(u, es[..|es'|]).d.live == WorldAt(u, es).snapshot;
    } else {
      SnapshotIsPublished(u, es[..|es| - 1]);
      PublishedLater(u, es, WorldAt(u, es).snapshot);
    }
  }

  predicate Fitting(p: F.Packet, w: World) {
    && F.PacketOk(p) && F.TimeOf(p) <= w.now && (!p.SweepTick? ==> Consistent(p.ctx.table))
  }

  lemma NewPacketsFit(u: Setup, w: World, e: Event)
    requires Good(w.snapshot) && Allowed(w, e)
    ensures Next(w, e).now >= w.now
    ensures forall p :: p in NewPackets(u, w, e) ==>
              Fitting(p, Next(w, e)) && F.TimeOf(p) == Next(w, e).now && (!p.SweepTick? ==> p.ctx.table == w.snapshot)
  {
  }

  /** The packets of a history are in order, and every one saw a good, published table. */
  lemma {:induction false} PacketsFit(u: Setup, es: seq<Event>)
    requires Accepted(u.raws) && IsHistory(u, es)
    ensures forall p :: p in PacketsOf(u, es) ==> Fitting(p, WorldAt(u, es))
    ensures F.History(PacketsOf(u, es))
    ensures forall p :: p in PacketsOf(u, es) && !p.SweepTick? ==> Published(u, es, p.ctx.table)
  {
    if es != [] {
      var es', e := es[..|es| - 1], es[|es| - 1];
      PacketsFit(u, es');
      TablesStayGood(u, es');
      SnapshotIsPublished(u, es');
      var w, ps := WorldAt(u, es'), PacketsOf(u, es');
      NewPacketsFit(u, w, e);
      assert WorldAt(u, es) == Next(w, e) && PacketsOf(u, es) == ps + NewPackets(u, w, e);
      hide WorldAt, PacketsOf, NewPackets, Next, Published, IsHistory;
      forall p | p in PacketsOf(u, es) && !p.SweepTick? ensures Published(u, es, p.ctx.table) {
        PublishedLater(u, es, p.ctx.table);
      }
      InOrder(ps, w, NewPackets(u, w, e), Next(w, e));
    }
  }

  lemma InOrder(ps: seq<F.Packet>, w: World, qs: seq<F.Packet>, w': World)
    requires F.History(ps) && w.now <= w'.now
    requires forall p :: p in ps ==> Fitting(p, w)
    requires forall p :: p in qs ==> Fitting(p, w') && F.TimeOf(p) == w'.now
    ensures F.History(ps + qs) && forall p :: p in ps + qs ==> Fitting(p, w')
  {
    var all := ps + qs;
    forall i, j | 0 <= i < j < |all| ensures F.TimeOf(all[i]) <= F.TimeOf(all[j]) {
      assert all[i] in ps || all[i] in qs;
      assert all[j] in ps || all[j] in qs;
      if j < |ps| { assert all[i] == ps[i] && all[j] == ps[j]; }
    }
    forall i | 0 <= i < |all| ensures F.PacketOk(all[i]) { assert all[i] in ps || all[i] in qs; }
  }

  /** How packet `j` of a history is handled. */
  ghost function HandledAt(u: Setup, es: seq<Event>, j: nat): Attempt<F.Outcome>
    requires Accepted(u.raws) && IsHistory(u, es) && j < |PacketsOf(u, es)|
  {
    PacketsFit(u, es);
    F.Handle(F.ConnAt(u.start, PacketsOf(u, es), j), PacketsOf(u, es)[j])
  }

  /** Every fallback forward of every history of reloads, checks, snapshots and packets goes
      to a MAC that a published table, in use less than 5 s earlier, held for a healthy
      server. */
  lemma FallbackUsesPublished(u: Setup, es: seq<Event>, j: nat)
    requires Accepted(u.raws) && IsHistory(u, es) && j < |PacketsOf(u, es)|
    requires HandledAt(u, es, j).Returns? && HandledAt(u, es, j).value.verdict.FallbackForward?
    ensures var ps := PacketsOf(u, es);
            && ps[j].UdpPacket?
            && exists i :: 0 <= i <= j && ps[i].UdpPacket? && ps[j].ctx.now < ps[i].ctx.now + ENTRY_TTL
                 && Published(u, es, ps[i].ctx.table)
                 && F.HealthyMac(ps[i].ctx.table, HandledAt(u, es, j).value.frame[..6])
  {
    PacketsFit(u, es);
    var ps := PacketsOf(u, es);
    forall i | 0 <= i < |ps| && ps[i].UdpPacket? ensures Consistent(ps[i].ctx.table) {
      assert ps[i] in ps && Fitting(ps[i], WorldAt(u, es));
    }
    hide PacketsOf, WorldAt, IsHistory, Published, F.HealthyMac, F.Handle, F.ConnAt;
    F.FallbackIsRecentlyHealthy(u.start, ps, j);
  }

  // ------------------------------------- does the table show the health state?

  /** A server's flag in the table is what the checker remembers of its address; one it
      does not know is down. */
  predicate Remembers(state: H.Health, s: Server) {
    s.healthy <==> s.address in state && state[s.address].healthy
  }

  predicate Agrees(slots: Slots, state: H.Health) {
    forall i, k :: 0 <= i < |slots| && slots[i].Some? && 0 <= k < |slots[i].value.servers| ==>
      Remembers(state, slots[i].value.servers[k])
  }

  /** Two states that hold the same of every address in the slots. */
  lemma SameAnswers(slots: Slots, a: H.Health, b: H.Health)
    requires forall x :: x in H.AddressesOf(slots) ==> ((x in a && a[x].healthy) <==> (x in b && b[x].healthy))
    ensures Agrees(slots, a) <==> Agrees(slots, b)
  {
    forall i, k | 0 <= i < |slots| && slots[i].Some? && 0 <= k < |slots[i].value.servers|
      ensures Remembers(a, slots[i].value.servers[k]) <==> Remembers(b, slots[i].value.servers[k])
    {
      assert slots[i].value.servers[k].address in H.AddressesOf(slots);
    }
  }

  lemma ResolvingKeepsFlags(slots: Slots, tables: nat -> Neighbours, state: H.Health)
    ensures H.AddressesOf(ResolvedSlots(slots, tables)) == H.AddressesOf(slots)
    ensures Agrees(ResolvedSlots(slots, tables), state) <==> Agrees(slots, state)
  {
    var r := ResolvedSlots(slots, tables);
    forall i, k | 0 <= i < |slots| && slots[i].Some? && 0 <= k < |slots[i].value.servers|
      ensures r[i].Some? && |r[i].value.servers| == |slots[i].value.servers|
      ensures r[i].value.servers[k].address == slots[i].value.servers[k].address
      ensures Remembers(state, r[i].value.servers[k]) <==> Remembers(state, slots[i].value.servers[k])
    {
      assert r[i] == ResolvedIn(slots[i], tables(i));
    }
    assert forall i :: 0 <= i < |r| ==> r[i] == ResolvedIn(slots[i], tables(i));
    forall a ensures a in H.AddressesOf(r) <==> a in H.AddressesOf(slots) {
      if a in H.AddressesOf(slots) {
        var i, k :| 0 <= i < |slots| && slots[i].Some? && 0 <= k < |slots[i].value.servers|
                    && slots[i].value.servers[k].address == a;
        assert r[i].value.servers[k].address == a;
      }
    }
  }

  lemma MirrorAgrees(slots: Slots, state: H.Health)
    requires H.AddressesOf(slots) <= state.Keys
    ensures Agrees(H.Mirror(slots, state), state)
  {
    var m := H.Mirror(slots, state);
    forall i, k | 0 <= i < |m| && m[i].Some? && 0 <= k < |m[i].value.servers|
      ensures Remembers(state, m[i].value.servers[k])
    {
      assert slots[i].value.servers[k].address in H.AddressesOf(slots);
    }
  }

  lemma ProbedKeys(d: Daemon, step: Step)
    requires step.Recheck?
    ensures Probed(d, step).Keys == H.AddressesOf(Worked(d.live.slots, step.tables))
  {
    hide H.AddressesOf, Worked, H.Probe, H.Restrict, H.Due;
  }

  /** After a check the published table agrees with the health state exactly when the check
      probed something and stored the table, or it agreed before. */
  lemma RecheckAgreesExactly(d: Daemon, step: Step)
    requires step.Recheck?
    ensures Agrees(Do(d, step).live.slots, Do(d, step).health) <==>
            (Republishes(d, step) && ProbesSomething(d, step)) || Agrees(d.live.slots, d.health)
  {
    hide Probed, Tracking, Agrees, HasUnresolved, Republishes, ProbesSomething, H.AddressesOf;
    var slots, after := Worked(d.live.slots, step.tables), Probed(d, step);
    ResolvingKeepsFlags(d.live.slots, step.tables, d.health);
    ProbedKeys(d, step);
    if Republishes(d, step) && ProbesSomething(d, step) {
      MirrorAgrees(slots, after);
    } else {
      QuietCheck(d, step);
      SameAnswers(slots, d.health, after);
      SameAnswers(d.live.slots, d.health, after);
    }
  }

  /** A check that does not both probe and store changes no flag it remembers. */
  lemma QuietCheck(d: Daemon, step: Step)
    requires step.Recheck? && !(Republishes(d, step) && ProbesSomething(d, step))
    ensures forall x :: x in H.AddressesOf(Worked(d.live.slots, step.tables)) ==>
              ((x in d.health && d.health[x].healthy) <==> (x in Probed(d, step) && Probed(d, step)[x].healthy))
  {
    var t, after := Tracking(d, step), Probed(d, step);
    forall x | x in t ensures t[x].healthy == after[x].healthy {
      assert !H.Flipped(t, after);
      assert !(x in t && x in after && t[x].healthy != after[x].healthy);
    }
  }

  /** After a SIGHUP: a refused file changes nothing; an accepted one takes every flag down,
      so the table agrees exactly when the checker remembers none of its servers as up. */
  lemma ReloadAgreesExactly(d: Daemon, step: Step)
    requires step.Sighup?
    ensures var d' := Do(d, step);
            if step.file.Some? && Accepted(step.file.value) then
              Agrees(d'.live.slots, d'.health) <==>
              forall x :: x in H.AddressesOf(d'.live.slots) && x in d.health ==> !d.health[x].healthy
            else Agrees(d'.live.slots, d'.health) <==> Agrees(d.live.slots, d.health)
  {
    var d' := Do(d, step);
    if step.file.Some? && Accepted(step.file.value) {
      ReloadedAllDown(step.file.value, step.tables);
      hide Started, Filed, ResolvedSlots;
      AllDownAgrees(d'.live.slots, d'.health);
    } else {
      SameAnswers(d.live.slots, d.health, d'.health);
    }
  }

  predicate AllDown(slots: Slots) {
    forall i, k :: 0 <= i < |slots| && slots[i].Some? && 0 <= k < |slots[i].value.servers| ==>
      !slots[i].value.servers[k].healthy
  }

  lemma {:induction false} FiledAllDown(raws: seq<RawConfig>, n: nat)
    requires n <= |raws| && forall i :: 0 <= i < |raws| ==> Acceptable(raws[i])
    ensures AllDown(Filed(raws, n))
  {
    if n > 0 { FiledAllDown(raws, n - 1); }
  }

  lemma ReloadedAllDown(raws: seq<RawConfig>, tables: nat -> Neighbours)
    requires Accepted(raws)
    ensures AllDown(ResolvedSlots(Filed(raws, |raws|), tables))
  {
    FiledAllDown(raws, |raws|);
    var slots := Filed(raws, |raws|);
    var r := ResolvedSlots(slots, tables);
    hide Filed, ResolvedSlots;
    forall i, k | 0 <= i < |r| && r[i].Some? && 0 <= k < |r[i].value.servers| ensures !r[i].value.servers[k].healthy {
      assert r[i] == ResolvedIn(slots[i], tables(i));
    }
  }

  lemma AllDownAgrees(slots: Slots, state: H.Health)
    requires AllDown(slots)
    ensures Agrees(slots, state) <==> forall x :: x in H.AddressesOf(slots) && x in state ==> !state[x].healthy
  {
    if Agrees(slots, state) {
      forall x | x in H.AddressesOf(slots) && x in state ensures !state[x].healthy {
        var i, k :| 0 <= i < |slots| && slots[i].Some? && 0 <= k < |slots[i].value.servers|
                    && slots[i].value.servers[k].address == x;
        assert Remembers(state, slots[i].value.servers[k]);
      }
    } else {
      var i, k :| 0 <= i < |slots| && slots[i].Some? && 0 <= k < |slots[i].value.servers|
                  && !Remembers(state, slots[i].value.servers[k]);
      assert slots[i].value.servers[k].address in H.AddressesOf(slots);
    }
  }

  predicate Reloads(e: Event) { e.Control? && e.step.Sighup? && e.step.file.Some? && Accepted(e.step.file.value) }

  /** An accepted reload whose file lists a server the checker remembers as up. */
  ghost predicate Darkens(d: Daemon, e: Event) {
    Reloads(e) && exists x :: x in H.AddressesOf(Do(d, e.step).live.slots) && x in d.health && d.health[x].healthy
  }

  /** A check that both probed something and stored the table. */
  predicate Shows(d: Daemon, e: Event) {
    e.Control? && e.step.Recheck? && Republishes(d, e.step) && ProbesSomething(d, e.step)
  }

  lemma EventAgreesExactly(w: World, e: Event)
    ensures var d, d' := w.d, Next(w, e).d;
            Agrees(d'.live.slots, d'.health) <==>
            if Reloads(e) then !Darkens(d, e) else Shows(d, e) || Agrees(d.live.slots, d.health)
  {
    hide Do, Agrees, Accepted, Republishes, ProbesSomething, H.AddressesOf;
    if e.Control? {
      if e.step.Recheck? { RecheckAgreesExactly(w.d, e.step); } else { ReloadAgreesExactly(w.d, e.step); }
    }
  }

  /** Event `r` took a server that was up out of the table's pool, and since then there was
      neither another accepted reload nor a check that both probed and stored. */
  ghost predicate DarkSince(u: Setup, es: seq<Event>, r: nat)
    requires Accepted(u.raws) && r < |es|
  {
    && Darkens(WorldAt(u, es[..r]).d, es[r])
    && forall j :: r < j < |es| ==> !Reloads(es[j]) && !Shows(WorldAt(u, es[..j]).d, es[j])
  }

  ghost predicate IsDark(u: Setup, es: seq<Event>)
    requires Accepted(u.raws)
  {
    exists r: nat :: r < |es| && DarkSince(u, es, r)
  }

  lemma DarkSinceStep(u: Setup, es: seq<Event>, r: nat)
    requires Accepted(u.raws) && r < |es|
    ensures var es', e := es[..|es| - 1], es[|es| - 1];
            DarkSince(u, es, r) <==>
            if r == |es'| then Darkens(WorldAt(u, es').d, e)
            else DarkSince(u, es', r) && !Reloads(e) && !Shows(WorldAt(u, es').d, e)
  {
    hide Accepted, WorldAt, Darkens, Reloads, Shows;
    var es' := es[..|es| - 1];
    assert forall j :: 0 <= j <= |es'| ==> es[..j] == es'[..j];
    assert es'[..|es'|] == es';
  }

  lemma IsDarkStep(u: Setup, es: seq<Event>)
    requires Accepted(u.raws) && es != []
    ensures var es', e := es[..|es| - 1], es[|es| - 1];
            IsDark(u, es) <==>
            Darkens(WorldAt(u, es').d, e) || (IsDark(u, es') && !Reloads(e) && !Shows(WorldAt(u, es').d, e))
  {
    hide Accepted, WorldAt, Darkens, Reloads, Shows, DarkSince;
    var es' := es[..|es| - 1];
    forall r: nat | r < |es| { DarkSinceStep(u, es, r); }
    DarkSinceStep(u, es, |es'|);
    if IsDark(u, es') {
      var r: nat :| r < |es'| && DarkSince(u, es', r);
      DarkSinceStep(u, es, r);
    }
  }

  /** Over every history the published table agrees with the health state exactly when no
      accepted reload listed a server known as up, except before another accepted reload
      or a check that both probed and stored. */
  lemma {:induction false} AgreesExactly(u: Setup, es: seq<Event>)
    requires Accepted(u.raws)
    ensures Agrees(WorldAt(u, es).d.live.slots, WorldAt(u, es).d.health) <==> !IsDark(u, es)
  {
    if es == [] {
      StartAgrees(u);
    } else {
      var es', e := es[..|es| - 1], es[|es| - 1];
      AgreesExactly(u, es');
      WorldNext(u, es);
      hide *;
      IsDarkStep(u, es);
      EventAgreesExactly(WorldAt(u, es'), e);
      DarkensReloads(WorldAt(u, es').d, e);
    }
  }

  lemma StartAgrees(u: Setup)
    requires Accepted(u.raws)
    ensures Agrees(WorldAt(u, []).d.live.slots, WorldAt(u, []).d.health)
  {
    hide Accepted, Agrees, H.AddressesOf, AllDown, ResolvedSlots, Filed, AllServers, PoolOf;
    ReloadedAllDown(u.raws, u.tables);
    AllDownAgrees(Started(u.raws, u.tables).live.slots, map[]);
  }

  lemma WorldNext(u: Setup, es: seq<Event>)
    requires Accepted(u.raws) && es != []
    ensures WorldAt(u, es) == Next(WorldAt(u, es[..|es| - 1]), es[|es| - 1])
  {
    hide Accepted, Next;
  }

  lemma DarkensReloads(d: Daemon, e: Event)
    ensures Darkens(d, e) ==> Reloads(e)
  {
    hide Reloads;
  }

  /** In particular as long as no reload is accepted. */
  lemma AgreesWithoutReloads(u: Setup, es: seq<Event>)
    requires Accepted(u.raws) && forall e :: e in es ==> !Reloads(e)
    ensures Agrees(WorldAt(u, es).d.live.slots, WorldAt(u, es).d.health)
  {
    hide Accepted, WorldAt, Agrees, Reloads;
    AgreesExactly(u, es);
    forall r: nat | r < |es| ensures !DarkSince(u, es, r) { assert es[r] in es; }
  }

  // ------------------------------------------------ a reload that stays dark

  const ADDRESS: IpAddr := V4([10, 0, 0, 1])
  const ONE: seq<RawConfig> :=
    [RawConfig(0, 1, 4, None, [RawServer([7], ADDRESS, Some([2, 0, 0, 0, 0, 1]), false)], None)]
  const ONE_DOWN: Server := Server([7], ADDRESS, Some([2, 0, 0, 0, 0, 1]), false, false, 0, None)

  function OneSlot(s: Server): Slots { [Some(RouteConfig(0, 1, 4, Plaintext, [s])), None, None, None, None, None,
                   None] }

  lemma OneSlotServers(s: Server)
    ensures AllServers(OneSlot(s)) == [s] && H.AddressesOf(OneSlot(s)) == {s.address}
    ensures PoolOf(AllServers(OneSlot(s))) == if Eligible(s) then [s] else []
  {
    OnlyFirst(OneSlot(s), 7);
    assert OneSlot(s)[..7] == OneSlot(s);
    assert [s][..0] == [];
    assert OneSlot(s)[0].value.servers[0].address == s.address;
  }

  lemma {:induction false} OnlyFirst(slots: Slots, n: nat)
    requires 1 <= n <= |slots| && slots[0].Some? && forall i :: 1 <= i < |slots| ==> slots[i].None?
    ensures AllServers(slots[..n]) == slots[0].value.servers
  {
    assert slots[..n][..n - 1] == slots[..n - 1];
    if n == 1 {
      assert slots[..0] == [];
    } else {
      OnlyFirst(slots, n - 1);
    }
  }

  lemma OneIsDown(tables: nat -> Neighbours)
    ensures Accepted(ONE) && ResolvedSlots(Filed(ONE, 1), tables) == OneSlot(ONE_DOWN)
  {
    var config := Validate(ONE[0]).value;
    assert config.servers == [ONE_DOWN];
    assert Filed(ONE, 1) == Filed(ONE, 0)[0 := Some(config)];
    assert Filed(ONE, 1) == OneSlot(ONE_DOWN);
    assert ResolvedAll([ONE_DOWN], tables(0)) == [ONE_DOWN];
    var r := ResolvedSlots(Filed(ONE, 1), tables);
    assert forall i :: 0 <= i < 7 ==> r[i] == ResolvedIn(Filed(ONE, 1)[i], tables(i));
    assert r[0] == OneSlot(ONE_DOWN)[0];
  }

  /** The checker knows the only server as up, and the published table has it down and an
      empty pool. */
  ghost predicate Dark(d: Daemon) {
    && d.live == Rebuilt(OneSlot(ONE_DOWN)) && d.live.fallback == []
    && d.health.Keys == {ADDRESS} && d.health[ADDRESS].healthy
  }

  /** The server answers every probe. */
  predicate Answers(step: Step) { step.Recheck? && ADDRESS in step.results && step.results[ADDRESS] }

  lemma DarkStays(d: Daemon, step: Step)
    requires Dark(d) && Answers(step)
    ensures Dark(Do(d, step))
  {
    OneSlotServers(ONE_DOWN);
    hide AllServers, PoolOf;
    var slots := OneSlot(ONE_DOWN);
    assert !HasUnresolved(slots) && Worked(slots, step.tables) == slots;
    var t, after := Tracking(d, step), Probed(d, step);
    assert t[ADDRESS].healthy && after[ADDRESS].healthy && t.Keys == after.Keys == {ADDRESS};
    assert !H.Flipped(t, after);
  }

  ghost predicate KnownUp(state: H.Health) { state.Keys == {ADDRESS} && state[ADDRESS].healthy }

  lemma FirstCheck(d: Daemon, first: Step)
    requires Answers(first) && d.live.slots == OneSlot(ONE_DOWN) && d.health == map[]
    ensures KnownUp(Do(d, first).health)
  {
    hide AllServers, PoolOf, OneSlot, Republishes, Learnt;
    OneSlotServers(ONE_DOWN);
    assert !HasUnresolved(d.live.slots) && Worked(d.live.slots, first.tables) == OneSlot(ONE_DOWN);
    var t, after := Tracking(d, first), Probed(d, first);
    assert t.Keys == {ADDRESS} && t[ADDRESS] == H.Fresh(first.now);
    assert after.Keys == {ADDRESS} && after[ADDRESS].healthy;
  }

  lemma ReloadDarkens(d: Daemon, hup: Step)
    requires KnownUp(d.health) && hup.Sighup? && hup.file == Some(ONE)
    ensures Dark(Do(d, hup))
  {
    hide AllServers, PoolOf, OneSlot, Filed, ResolvedSlots;
    OneIsDown(hup.tables);
    OneSlotServers(ONE_DOWN);
  }

  lemma CheckedThenReloaded(tables: nat -> Neighbours, first: Step, hup: Step)
    requires Answers(first) && hup.Sighup? && hup.file == Some(ONE)
    ensures Accepted(ONE) && Dark(Do(Do(Started(ONE, tables), first), hup))
  {
    hide AllServers, PoolOf, OneSlot, Filed, ResolvedSlots, Accepted, Do, Dark, KnownUp, Answers;
    OneIsDown(tables);
    var d := Started(ONE, tables);
    FirstCheck(d, first);
    ReloadDarkens(Do(d, first), hup);
  }

  function DoAll(d: Daemon, steps: seq<Step>): Daemon {
    if steps == [] then d else Do(DoAll(d, steps[..|steps| - 1]), steps[|steps| - 1])
  }

  /** The mirror in the health checker is meant to bring the flags back on the next probe
      after a reload, but it works on a copy that is stored only when a flag flips or a MAC
      is missing. So one server that answers every probe, with its MAC configured, is up
      before a reload of the same file, and down with an empty pool after it, through any
      number of further checks. */
  lemma {:induction false} ReloadStaysDark(tables: nat -> Neighbours, first: Step, hup: Step, later: seq<Step>)
    requires Answers(first) && hup.Sighup? && hup.file == Some(ONE) && forall s :: s in later ==> Answers(s)
    ensures Accepted(ONE) && Dark(DoAll(Do(Do(Started(ONE, tables), first), hup), later))
  {
    CheckedThenReloaded(tables, first, hup);
    hide Do, Dark, Started;
    if later != [] {
      ReloadStaysDark(tables, first, hup, later[..|later| - 1]);
      DarkStays(DoAll(Do(Do(Started(ONE, tables), first), hup), later[..|later| - 1]), later[|later| - 1]);
    }
  }
}
