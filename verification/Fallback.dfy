/**
  The fallback pool of a route table.
 */
module Fallback {
  import opened Bits
  import opened Routes

  // ----------------------------------------------------------- specification

  /** All servers of all active configs, in slot order. */
  function AllServers(slots: Slots): seq<Server> {
    if slots == [] then []
    else AllServers(slots[..|slots| - 1]) + ServersOf(slots[|slots| - 1])
  }

  function ServersOf(slot: Option<RouteConfig>): seq<Server> {
    if slot.Some? then slot.value.servers else []
  }

  predicate Eligible(s: Server) { s.healthy && s.mac.Some? && !s.draining }

  /** Server `k` is the first eligible one with its address. */
  predicate FirstOfAddress(all: seq<Server>, k: nat)
    requires k < |all|
  {
    Eligible(all[k]) && forall j :: 0 <= j < k && Eligible(all[j]) ==> all[j].address != all[k].address
  }

  /** The pool: exactly the first eligible server per address, in order. */
  function PoolOf(all: seq<Server>): seq<Server> {
    if all == [] then []
    else PoolOf(all[..|all| - 1]) + if FirstOfAddress(all, |all| - 1) then [all[|all| - 1]] else []
  }

  predicate HasAddress(pool: seq<Server>, a: IpAddr) { exists i :: 0 <= i < |pool| && pool[i].address == a }

  predicate EligibleAt(all: seq<Server>, a: IpAddr) {
    exists k :: 0 <= k < |all| && Eligible(all[k]) && all[k].address == a
  }

  lemma HasAddressAppend(pool: seq<Server>, s: Server, a: IpAddr)
    ensures HasAddress(pool + [s], a) <==> HasAddress(pool, a) || s.address == a
  {
    var q := pool + [s];
    if HasAddress(pool, a) {
      var i :| 0 <= i < |pool| && pool[i].address == a;
      assert q[i].address == a;
    }
    if s.address == a { assert q[|pool|].address == a; }
  }

  lemma EligibleAtAppend(init: seq<Server>, s: Server, a: IpAddr)
    ensures EligibleAt(init + [s], a) <==> EligibleAt(init, a) || (Eligible(s) && s.address == a)
  {
    var q := init + [s];
    if EligibleAt(init, a) {
      var i :| 0 <= i < |init| && Eligible(init[i]) && init[i].address == a;
      assert Eligible(q[i]) && q[i].address == a;
    }
    if Eligible(s) && s.address == a { assert Eligible(q[|init|]) && q[|init|].address == a; }
  }

  lemma FirstMeansUnseen(init: seq<Server>, s: Server)
    ensures FirstOfAddress(init + [s], |init|) <==> Eligible(s) && !EligibleAt(init, s.address)
  {
    var q := init + [s];
    assert forall j :: 0 <= j < |init| ==> q[j] == init[j];
  }

  /** The pool has an address exactly when some eligible server has it. */
  lemma {:induction false} PoolCovers(all: seq<Server>, a: IpAddr)
    ensures HasAddress(PoolOf(all), a) <==> EligibleAt(all, a)
  {
    if all != [] {
      var init, last := all[..|all| - 1], all[|all| - 1];
      assert all == init + [last];
      PoolCovers(init, a);
      HasAddressAppend(PoolOf(init), last, a);
      EligibleAtAppend(init, last, a);
      FirstMeansUnseen(init, last);
      assert PoolOf(init) + [] == PoolOf(init);
    }
  }

  /** Pool members are eligible servers of the table, no two with one address. */
  lemma {:induction false} PoolMembers(all: seq<Server>)
    ensures forall s :: s in PoolOf(all) ==> s in all && Eligible(s)
    ensures forall i, j :: 0 <= i < j < |PoolOf(all)| ==> PoolOf(all)[i].address != PoolOf(all)[j].address
  {
    if all != [] {
      var init, last := all[..|all| - 1], all[|all| - 1];
      assert all == init + [last];
      PoolMembers(init);
      FirstMeansUnseen(init, last);
      PoolCovers(init, last.address);
    }
  }

  /** One more server joins the pool exactly when the loop of the code adds it. */
  lemma PoolOneMore(init: seq<Server>, s: Server)
    ensures PoolOf(init + [s]) ==
            if Eligible(s) && !HasAddress(PoolOf(init), s.address) then PoolOf(init) + [s] else PoolOf(init)
  {
    assert (init + [s])[..|init|] == init;
    FirstMeansUnseen(init, s);
    PoolCovers(init, s.address);
  }

  lemma NoServers()
    ensures PoolOf(AllServers([])) == []
  {
  }

  lemma ServersOneMore(slots: Slots, slot: Option<RouteConfig>)
    ensures AllServers(slots + [slot]) == AllServers(slots) + ServersOf(slot)
  {
    assert (slots + [slot])[..|slots|] == slots;
  }

  // -------------------------------------------------------------------- code

  /** `rebuild_fallback_servers` over the table's slots. */
  method RebuildFallback(slots: Slots) returns (pool: seq<Server>)
    ensures pool == PoolOf(AllServers(slots))
  {
    hide PoolOf, AllServers;
    pool := [];
    NoServers();
    for i := 0 to |slots|
      invariant pool == PoolOf(AllServers(slots[..i]))
    {
      pool := AddServers(pool, ServersOf(slots[i]), AllServers(slots[..i]));
      ServersOneMore(slots[..i], slots[i]);
      assert slots[..i + 1] == slots[..i] + [slots[i]];
    }
    assert slots[..|slots|] == slots;
  }

  /** Its inner loop, over the servers of one active config. */
  method AddServers(pool0: seq<Server>, servers: seq<Server>, ghost before: seq<Server>) returns (pool: seq<Server>)
    requires pool0 == PoolOf(before)
    ensures pool == PoolOf(before + servers)
  {
    hide PoolOf;
    pool := pool0;
    assert before + servers[..0] == before;
    for k := 0 to |servers|
      invariant pool == PoolOf(before + servers[..k])
    {
      var server := servers[k];
      PoolOneMore(before + servers[..k], server);
      assert before + servers[..k + 1] == before + servers[..k] + [server];
      if server.healthy && server.mac.Some? && !server.draining && !HasAddress(pool, server.address) {
        pool := pool + [server];
      }
    }
    assert servers[..|servers|] == servers;
  }

  /** A table that carries exactly the pool its own slots call for. */
  predicate Consistent(t: Table) { t.fallback == PoolOf(AllServers(t.slots)) }

  function Rebuilt(slots: Slots): Table { Table(slots, PoolOf(AllServers(slots))) }
}
