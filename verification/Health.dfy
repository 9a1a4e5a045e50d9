/**
  The health checker: per-address state driven by probe results, its backoff, and the
  mirror of that state onto the route table.
 */
module Health {
  import opened Bits
  import opened Routes

  const FAILURE_THRESHOLD: nat := 3
  /** Seconds. */
  const PROBE_INTERVAL: nat := 5
  const BACKOFF_SCHEDULE: seq<nat> := [10, 30, 60, 300]

  datatype ServerHealth = ServerHealth(
    failures: nat, healthy: bool, nextProbe: nat, transitions: nat, stateSince: nat, everHealthy: bool)

  type Health = map<IpAddr, ServerHealth>

  function Backoff(failures: nat): nat {
    if failures < FAILURE_THRESHOLD then PROBE_INTERVAL
    else BACKOFF_SCHEDULE[Min(failures - FAILURE_THRESHOLD, |BACKOFF_SCHEDULE| - 1)]
  }

  /** The delay never shrinks as failures mount, and stays between 5 s and 300 s. */
  lemma BackoffMonotone(m: nat, n: nat)
    requires m <= n
    ensures PROBE_INTERVAL <= Backoff(m) <= Backoff(n) <= 300
  {
    assert BACKOFF_SCHEDULE[0] == 10 && BACKOFF_SCHEDULE[1] == 30;
    assert BACKOFF_SCHEDULE[2] == 60 && BACKOFF_SCHEDULE[3] == 300;
  }

  function Fresh(now: nat): ServerHealth { ServerHealth(0, false, now, 0, now, false) }

  /** One probe result applied to one server. */
  function Probe(s: ServerHealth, ok: bool, now: nat): ServerHealth {
    if ok then
      var up := s.(failures := 0, nextProbe := now + PROBE_INTERVAL);
      if s.healthy then up
      else up.(healthy := true, stateSince := now, everHealthy := true,
               transitions := s.transitions + (if s.everHealthy then 1 else 0))
    else
      var down := s.(failures := s.failures + 1, nextProbe := now + Backoff(s.failures + 1));
      if s.healthy && down.failures >= FAILURE_THRESHOLD then
        down.(healthy := false, stateSince := now, transitions := s.transitions + 1)
      else down
  }

  // ------------------------------------------- what one server's history means

  datatype Event = Probed(ok: bool, at: nat) | Reset(at: nat)

  function React(s: ServerHealth, e: Event): ServerHealth {
    match e
    case Probed(ok, at) => Probe(s, ok, at)
    case Reset(at) => s.(nextProbe := at)
  }

  function Track(born: nat, h: seq<Event>): ServerHealth {
    if h == [] then Fresh(born) else React(Track(born, h[..|h| - 1]), h[|h| - 1])
  }

  /** Failures since the last success. */
  function Trailing(h: seq<Event>): nat {
    if h == [] then 0
    else
      match h[|h| - 1]
      case Probed(ok, _) => if ok then 0 else Trailing(h[..|h| - 1]) + 1
      case Reset(_) => Trailing(h[..|h| - 1])
  }

  predicate EverUp(h: seq<Event>) { exists i :: 0 <= i < |h| && h[i].Probed? && h[i].ok }

  /** Up: reached at least once, and fewer than three failures since the last success. */
  predicate Up(h: seq<Event>) { EverUp(h) && Trailing(h) < FAILURE_THRESHOLD }

  /** How often `Up` changed along the history. */
  function FlipCount(h: seq<Event>): nat {
    if h == [] then 0 else FlipCount(h[..|h| - 1]) + if Up(h[..|h| - 1]) != Up(h) then 1 else 0
  }

  /** When `Up` last changed. */
  function LastFlip(born: nat, h: seq<Event>): nat {
    if h == [] then born else if Up(h[..|h| - 1]) != Up(h) then h[|h| - 1].at else LastFlip(born, h[..|h| - 1])
  }

  function NextProbe(born: nat, h: seq<Event>): nat {
    if h == [] then born
    else
      match h[|h| - 1]
      case Probed(_, at) => at + Backoff(Trailing(h))
      case Reset(at) => at
  }

  lemma EverUpStep(h: seq<Event>)
    requires h != []
    ensures EverUp(h) <==> EverUp(h[..|h| - 1]) || (h[|h| - 1].Probed? && h[|h| - 1].ok)
  {
    var p := h[..|h| - 1];
    if EverUp(p) {
      var i :| 0 <= i < |p| && p[i].Probed? && p[i].ok;
      assert h[i] == p[i];
    }
    if EverUp(h) {
      var i :| 0 <= i < |h| && h[i].Probed? && h[i].ok;
      assert i < |p| ==> p[i] == h[i];
    }
  }

  /** The stored fields mean what they are named for, after every history: in particular
      a server is healthy exactly when it was reached and fewer than three probes have
      failed since, and the first time up is not counted as a transition. */
  lemma {:induction false} TrackMeans(born: nat, h: seq<Event>)
    ensures var s := Track(born, h);
            && s.failures == Trailing(h) && s.healthy == Up(h) && s.everHealthy == EverUp(h)
            && s.transitions + (if EverUp(h) then 1 else 0) == FlipCount(h)
            && s.stateSince == LastFlip(born, h) && s.nextProbe == NextProbe(born, h)
  {
    if h == [] {
    } else {
      TrackMeans(born, h[..|h| - 1]);
      EverUpStep(h);
      hide EverUp;
    }
  }

  lemma {:induction false} FlipParity(h: seq<Event>)
    ensures FlipCount(h) % 2 == 1 <==> Up(h)
  {
    if h != [] { FlipParity(h[..|h| - 1]); }
  }

  /** Once a server has been up, its transition count is even exactly while it is up. */
  lemma TransitionParity(born: nat, h: seq<Event>)
    requires EverUp(h)
    ensures Track(born, h).transitions % 2 == 0 <==> Track(born, h).healthy
  {
    TrackMeans(born, h);
    FlipParity(h);
  }

  // ---------------------------------------------------------- the whole checker

  datatype Tick = Check(now: nat, addrs: set<IpAddr>, results: map<IpAddr, bool>) | ResetBackoff(now: nat)

  /** State for exactly the configured addresses: removed ones evicted, new ones fresh. */
  function Tracked(state: Health, now: nat, addrs: set<IpAddr>): Health {
    map a | a in addrs :: if a in state then state[a] else Fresh(now)
  }

  function Due(state: Health, now: nat): set<IpAddr> { set a | a in state && now >= state[a].nextProbe }

  function Applied(state: Health, probes: map<IpAddr, bool>, now: nat): Health {
    map a | a in state :: if a in probes then Probe(state[a], probes[a], now) else state[a]
  }

  /** Results of the probes that were due and came back. */
  function Restrict(results: map<IpAddr, bool>, due: set<IpAddr>): map<IpAddr, bool> {
    map a | a in results && a in due :: results[a]
  }

  function After(state: Health, tick: Tick): Health {
    match tick
    case Check(now, addrs, results) =>
      var t := Tracked(state, now, addrs);
      Applied(t, Restrict(results, Due(t, now)), now)
    case ResetBackoff(now) => map a | a in state :: state[a].(nextProbe := now)
  }

  function StateOf(ticks: seq<Tick>): Health {
    if ticks == [] then map[] else After(StateOf(ticks[..|ticks| - 1]), ticks[|ticks| - 1])
  }

  /** What happened to an address since it last entered the configuration: when that was
      and the events since. Probes happen only when due by the events alone. */
  datatype Life = Life(born: nat, events: seq<Event>)

  function LifeOf(ticks: seq<Tick>, a: IpAddr): Option<Life> {
    if ticks == [] then None
    else
      var before := LifeOf(ticks[..|ticks| - 1], a);
      match ticks[|ticks| - 1]
      case Check(now, addrs, results) =>
        if a !in addrs then None
        else
          var l := if before.Some? then before.value else Life(now, []);
          if a in results && now >= NextProbe(l.born, l.events) then
            Some(Life(l.born, l.events + [Probed(results[a], now)]))
          else Some(l)
      case ResetBackoff(now) =>
        if before.Some? then Some(Life(before.value.born, before.value.events + [Reset(now)])) else None
  }

  lemma TrackAppend(born: nat, h: seq<Event>, e: Event)
    ensures Track(born, h + [e]) == React(Track(born, h), e)
  {
    assert (h + [e])[..|h|] == h;
  }

  /** After any run of checks, reloads and resets, the state tracks exactly the addresses
      with a life, each by its own events and no other's. */
  lemma {:induction false} StateTracksLives(ticks: seq<Tick>, a: IpAddr)
    ensures a in StateOf(ticks) <==> LifeOf(ticks, a).Some?
    ensures LifeOf(ticks, a).Some? ==>
              StateOf(ticks)[a] == Track(LifeOf(ticks, a).value.born, LifeOf(ticks, a).value.events)
  {
    if ticks != [] {
      var before, tick := ticks[..|ticks| - 1], ticks[|ticks| - 1];
      StateTracksLives(before, a);
      StepTracksLife(StateOf(before), LifeOf(before, a), tick, ticks, a);
    }
  }

  lemma StepTracksLife(state: Health, life: Option<Life>, tick: Tick, ticks: seq<Tick>, a: IpAddr)
    requires ticks != [] && tick == ticks[|ticks| - 1] && life == LifeOf(ticks[..|ticks| - 1], a)
    requires a in state <==> life.Some?
    requires life.Some? ==> state[a] == Track(life.value.born, life.value.events)
    ensures a in After(state, tick) <==> LifeOf(ticks, a).Some?
    ensures LifeOf(ticks, a).Some? ==>
              After(state, tick)[a] == Track(LifeOf(ticks, a).value.born, LifeOf(ticks, a).value.events)
  {
    match tick
    case Check(now, addrs, results) =>
      var l := if life.Some? then life.value else Life(now, []);
      TrackMeans(l.born, l.events);
      if a in results { TrackAppend(l.born, l.events, Probed(results[a], now)); }
      hide Track, Probe, NextProbe;
    case ResetBackoff(now) =>
      if life.Some? { TrackAppend(life.value.born, life.value.events, Reset(now)); }
      hide Track, Probe, NextProbe;
  }

  /** No probe comes before the previous one's backoff has run out or was reset. */
  lemma {:induction false} ProbesArePaced(ticks: seq<Tick>, a: IpAddr, i: nat)
    requires LifeOf(ticks, a).Some? && i < |LifeOf(ticks, a).value.events| && LifeOf(ticks, a).value.events[i].Probed?
    ensures var l := LifeOf(ticks, a).value; l.events[i].at >= NextProbe(l.born, l.events[..i])
  {
    var before := LifeOf(ticks[..|ticks| - 1], a);
    var l := LifeOf(ticks, a).value;
    if before.Some? && i < |before.value.events| {
      ProbesArePaced(ticks[..|ticks| - 1], a, i);
      assert l.events[..i] == before.value.events[..i];
    } else {
      assert l.events[..i] == if before.Some? then before.value.events else [];
    }
  }

  // ------------------------------------------------------------------ mirror

  /** A server entry showing the tracked state of its address. */
  function Shown(server: Server, state: Health): Server {
    if server.address in state then
      var s := state[server.address];
      server.(healthy := s.healthy, transitions := s.transitions, stateSince := Some(s.stateSince))
    else server
  }

  function ShownAll(servers: seq<Server>, state: Health): seq<Server> {
    seq(|servers|, i requires 0 <= i < |servers| => Shown(servers[i], state))
  }

  function ShownIn(slot: Option<RouteConfig>, state: Health): Option<RouteConfig> {
    if slot.Some? then Some(slot.value.(servers := ShownAll(slot.value.servers, state))) else None
  }

  function Mirror(slots: Slots, state: Health): Slots {
    seq(|slots|, i requires 0 <= i < |slots| => ShownIn(slots[i], state))
  }

  function AddressesOf(slots: Slots): set<IpAddr> {
    set i, k | 0 <= i < |slots| && slots[i].Some? && 0 <= k < |slots[i].value.servers| ::
      slots[i].value.servers[k].address
  }

  /** A check reports a change exactly when some server's health flipped. */
  predicate Flipped(before: Health, after: Health) {
    exists a :: a in before && a in after && before[a].healthy != after[a].healthy
  }

  class HealthChecker {
    var state: Health

    constructor ()
      ensures state == map[]
    {
      state := map[];
    }

    method ResetBackoffs(now: nat)
      modifies this
      ensures state == After(old(state), ResetBackoff(now))
    {
      var todo := state.Keys;
      while todo != {}
        invariant todo <= state.Keys == old(state).Keys
        invariant forall a :: a in state ==>
          state[a] == if a in todo then old(state)[a] else old(state)[a].(nextProbe := now)
        decreases |todo|
      {
        var a :| a in todo;
        state := state[a := state[a].(nextProbe := now)];
        todo := todo - {a};
      }
    }

    /** One address of it: known from now on, and due or not. */
    method Visit(a: IpAddr, now: nat) returns (isDue: bool)
      modifies this
      ensures state == if a in old(state) then old(state) else old(state)[a := Fresh(now)]
      ensures isDue <==> now >= state[a].nextProbe
    {
      if a !in state { state := state[a := Fresh(now)]; }
      isDue := now >= state[a].nextProbe;
    }

    /** Phase one of `check`: evict, insert, and collect the due addresses. */
    method Refresh(addrs: set<IpAddr>, now: nat) returns (due: set<IpAddr>)
      modifies this
      ensures state == Tracked(old(state), now, addrs) && due == Due(state, now)
    {
      state := map a | a in state && a in addrs :: state[a];
      due := {};
      var todo := addrs;
      while todo != {}
        invariant todo <= addrs && addrs - todo <= state.Keys <= addrs
        invariant forall a :: a in state ==> state[a] == if a in old(state) then old(state)[a] else Fresh(now)
        invariant forall a :: a in old(state) && a in addrs ==> a in state
        invariant forall a :: a in due <==> a in addrs - todo && now >= state[a].nextProbe
        decreases |todo|
      {
        var a :| a in todo;
        var isDue := Visit(a, now);
        if isDue { due := due + {a}; }
        todo := todo - {a};
      }
      assert state.Keys == addrs;
    }

    /** The first loop of `apply_probe_results`. */
    method ApplyProbes(probes: map<IpAddr, bool>, now: nat) returns (changed: bool)
      requires probes.Keys <= state.Keys
      modifies this
      ensures state == Applied(old(state), probes, now) && (changed <==> Flipped(old(state), state))
    {
      hide Probe, Flipped;
      changed := false;
      NothingFlipped(state);
      var todo := probes.Keys;
      while todo != {}
        invariant todo <= probes.Keys && state.Keys == old(state).Keys
        invariant forall a :: a in state ==>
          state[a] == if a in probes && a !in todo then Probe(old(state)[a], probes[a], now) else old(state)[a]
        invariant changed <==> Flipped(old(state), state)
        decreases |todo|
      {
        var a :| a in todo;
        var s := state[a];
        var s' := Probe(s, probes[a], now);
        ghost var before := state;
        state := state[a := s'];
        if s'.healthy != s.healthy { changed := true; }
        FlippedStep(old(state), before, a, s');
        todo := todo - {a};
      }
    }

    /** `check`, with what the probes of the due addresses returned as `results`. A probe
        task that died leaves its address out. */
    method CheckAll(slots: Slots, results: map<IpAddr, bool>, now: nat)
      returns (changed: bool, slots': Slots)
      modifies this
      ensures state == After(old(state), Check(now, AddressesOf(slots), results))
      ensures var t := Tracked(old(state), now, AddressesOf(slots));
              && (changed <==> Flipped(t, state))
              && slots' == if Due(t, now) == {} then slots else Mirror(slots, state)
    {
      var due := Refresh(AddressesOf(slots), now);
      ghost var t := state;
      var probes := Restrict(results, due);
      if due == {} {
        assert Applied(t, probes, now) == t;
        return false, slots;
      }
      changed := ApplyProbes(probes, now);
      slots' := MirrorOnto(slots);
    }

    /** The second loop of `apply_probe_results`. */
    method MirrorOnto(slots: Slots) returns (slots': Slots)
      ensures slots' == Mirror(slots, state)
    {
      slots' := [];
      for i := 0 to |slots|
        invariant slots' == Mirror(slots, state)[..i]
      {
        var slot := slots[i];
        if slot.Some? {
          var servers := slot.value.servers;
          for k := 0 to |servers|
            invariant |servers| == |slot.value.servers|
            invariant forall j :: 0 <= j < |servers| ==>
              servers[j] == if j < k then Shown(slot.value.servers[j], state) else slot.value.servers[j]
          {
            servers := servers[k := Shown(servers[k], state)];
          }
          assert servers == ShownAll(slot.value.servers, state);
          slot := Some(slot.value.(servers := servers));
        }
        slots' := slots' + [slot];
      }
    }
  }

  lemma NothingFlipped(h: Health)
    ensures !Flipped(h, h)
  {
  }

  lemma FlippedStep(first: Health, before: Health, a: IpAddr, s: ServerHealth)
    requires first.Keys == before.Keys && a in before && before[a] == first[a]
    ensures Flipped(first, before[a := s]) <==> Flipped(first, before) || s.healthy != first[a].healthy
  {
    var after := before[a := s];
    if Flipped(first, before) {
      var b :| b in first && b in before && first[b].healthy != before[b].healthy;
      assert b in after && first[b].healthy != after[b].healthy;
    }
    if s.healthy != first[a].healthy { assert a in after && first[a].healthy != after[a].healthy; }
    if Flipped(first, after) {
      var b :| b in first && b in after && first[b].healthy != after[b].healthy;
      assert b == a || before[b].healthy != first[b].healthy;
    }
  }

  /** After every check that had anything to probe, in every run, each server in the table
      shows its own address's history: up exactly by the three-failure rule, flips counted
      and dated. */
  lemma TableShowsHistory(ticks: seq<Tick>, slots: Slots, i: nat, k: nat)
    requires ticks != [] && ticks[|ticks| - 1].Check? && ticks[|ticks| - 1].addrs == AddressesOf(slots)
    requires i < |slots| && slots[i].Some? && k < |slots[i].value.servers|
    ensures var shown := Mirror(slots, StateOf(ticks))[i];
            var life := LifeOf(ticks, slots[i].value.servers[k].address);
            && life.Some? && shown.Some? && |shown.value.servers| == |slots[i].value.servers|
            && var server, h := shown.value.servers[k], life.value.events;
               && server.healthy == Up(h) && server.stateSince == Some(LastFlip(life.value.born, h))
               && server.transitions + (if EverUp(h) then 1 else 0) == FlipCount(h)
               && server.(healthy := false, transitions := 0, stateSince := None)
                  == slots[i].value.servers[k].(healthy := false, transitions := 0, stateSince := None)
  {
    var a := slots[i].value.servers[k].address;
    assert a in AddressesOf(slots);
    StateTracksLives(ticks, a);
    var life := LifeOf(ticks, a).value;
    TrackMeans(life.born, life.events);
    hide StateOf, Track, Up, EverUp, FlipCount, LastFlip;
  }
}
