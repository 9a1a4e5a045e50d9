/**
  The per-worker connection table: a TTL cache over 4-tuples and DCIDs, swept
  lazily. Times are milliseconds of a monotonic clock.
 */
module ConnTable {
  import opened Bits
  import opened Routes
  import opened Wire

  type Time = nat

  const ENTRY_TTL: Time := 5000
  const SWEEP_INTERVAL: Time := 5000

  // ------------------------------------------------------------- DCID keys

  const MAX_DCID: nat := 20

  datatype DcidKey = DcidKey(len: nat, bytes: seq<byte>)

  function ZeroPad(s: seq<byte>, n: nat): (r: seq<byte>)
    requires |s| <= n
    ensures |r| == n && r[..|s|] == s
  {
    s + seq(n - |s|, _ => 0)
  }

  /** `DcidKey::from_slice`: the first 20 bytes, zero-padded, with their count. */
  function KeyOf(dcid: seq<byte>): DcidKey {
    var len := Min(|dcid|, MAX_DCID);
    DcidKey(len, ZeroPad(dcid[..len], MAX_DCID))
  }

  /** Keys collide exactly when the DCIDs agree on their first 20 bytes. */
  lemma KeyCollides(a: seq<byte>, b: seq<byte>)
    ensures KeyOf(a) == KeyOf(b) <==> a[..Min(|a|, MAX_DCID)] == b[..Min(|b|, MAX_DCID)]
  {
    var ka, kb := KeyOf(a), KeyOf(b);
    if ka == kb {
      assert a[..ka.len] == ka.bytes[..ka.len];
      assert b[..kb.len] == kb.bytes[..kb.len];
    }
  }

  // ------------------------------------------------------------- the table

  datatype Entry = Entry(mac: Mac, expires: Time) {
    predicate Live(now: Time) { now < expires }
  }

  datatype Conn = Conn(byFlow: map<Flow, Entry>, byDcid: map<DcidKey, Entry>, lastSweep: Time)

  function Lookup(c: Conn, flow: Flow, dcid: Option<DcidKey>, now: Time): Option<Mac> {
    if flow in c.byFlow && c.byFlow[flow].Live(now) then Some(c.byFlow[flow].mac)
    else if dcid.Some? && dcid.value in c.byDcid && c.byDcid[dcid.value].Live(now) then
      Some(c.byDcid[dcid.value].mac)
    else None
  }

  function Insert(c: Conn, flow: Flow, dcid: Option<DcidKey>, mac: Mac, now: Time): Conn {
    var e := Entry(mac, now + ENTRY_TTL);
    c.(byFlow := c.byFlow[flow := e],
       byDcid := if dcid.Some? then c.byDcid[dcid.value := e] else c.byDcid)
  }

  function RecordDcid(c: Conn, key: DcidKey, mac: Mac, now: Time): Conn {
    c.(byDcid := c.byDcid[key := Entry(mac, now + ENTRY_TTL)])
  }

  /** `now.duration_since(last_sweep)` saturates at zero. */
  function Sweep(c: Conn, now: Time): Conn {
    if now - c.lastSweep < SWEEP_INTERVAL then c
    else Conn(map f | f in c.byFlow && c.byFlow[f].Live(now) :: c.byFlow[f],
              map k | k in c.byDcid && c.byDcid[k].Live(now) :: c.byDcid[k],
              now)
  }

  class ConnectionTable {
    var byFlow: map<Flow, Entry>
    var byDcid: map<DcidKey, Entry>
    var lastSweep: Time

    function View(): Conn reads this { Conn(byFlow, byDcid, lastSweep) }

    constructor (now: Time)
      ensures View() == Conn(map[], map[], now)
    {
      byFlow, byDcid, lastSweep := map[], map[], now;
    }

    method LookupMac(flow: Flow, dcid: Option<DcidKey>, now: Time) returns (r: Option<Mac>)
      ensures r == Lookup(View(), flow, dcid, now)
    {
      if flow in byFlow {
        var entry := byFlow[flow];
        if now < entry.expires { return Some(entry.mac); }
      }
      if dcid.Some? && dcid.value in byDcid {
        var entry := byDcid[dcid.value];
        if now < entry.expires { return Some(entry.mac); }
      }
      r := None;
    }

    method InsertFlow(flow: Flow, dcid: Option<DcidKey>, mac: Mac, now: Time)
      modifies this
      ensures View() == Insert(old(View()), flow, dcid, mac, now)
    {
      byFlow := byFlow[flow := Entry(mac, now + ENTRY_TTL)];
      if dcid.Some? {
        byDcid := byDcid[dcid.value := Entry(mac, now + ENTRY_TTL)];
      }
    }

    method RecordKey(key: DcidKey, mac: Mac, now: Time)
      modifies this
      ensures View() == RecordDcid(old(View()), key, mac, now)
    {
      byDcid := byDcid[key := Entry(mac, now + ENTRY_TTL)];
    }

    method MaybeSweep(now: Time)
      modifies this
      ensures View() == Sweep(old(View()), now)
    {
      if now - lastSweep < SWEEP_INTERVAL { return; }
      lastSweep := now;
      byFlow := map f | f in byFlow && byFlow[f].Live(now) :: byFlow[f];
      byDcid := map k | k in byDcid && byDcid[k].Live(now) :: byDcid[k];
    }
  }

  // --------------------------------------------------------------- history

  datatype Event =
    | Inserted(flow: Flow, dcid: Option<DcidKey>, mac: Mac, at: Time)
    | Recorded(key: DcidKey, mac: Mac, at: Time)
    | Swept(at: Time)

  function Step(c: Conn, e: Event): Conn {
    match e
    case Inserted(flow, dcid, mac, at) => Insert(c, flow, dcid, mac, at)
    case Recorded(key, mac, at) => RecordDcid(c, key, mac, at)
    case Swept(at) => Sweep(c, at)
  }

  /** The table after a history, from an empty table created at `start`. */
  function Replay(start: Time, h: seq<Event>): Conn {
    if h == [] then Conn(map[], map[], start) else Step(Replay(start, h[..|h| - 1]), h[|h| - 1])
  }

  /** The clock never runs backwards. */
  predicate Ordered(h: seq<Event>) {
    forall i, j :: 0 <= i < j < |h| ==> h[i].at <= h[j].at
  }

  /** A record of a server choice: which MAC, and when. */
  datatype Record = Record(mac: Mac, at: Time)

  /** The newest record for a flow (or for a DCID key) in the whole history, sweeps
      ignored. */
  function NewestForFlow(h: seq<Event>, flow: Flow): Option<Record> {
    if h == [] then None
    else
      var e := h[|h| - 1];
      if e.Inserted? && e.flow == flow then Some(Record(e.mac, e.at)) else NewestForFlow(h[..|h| - 1], flow)
  }

  function NewestForKey(h: seq<Event>, key: DcidKey): Option<Record> {
    if h == [] then None
    else
      var e := h[|h| - 1];
      if (e.Inserted? && e.dcid == Some(key)) || (e.Recorded? && e.key == key) then Some(Record(e.mac, e.at))
      else NewestForKey(h[..|h| - 1], key)
  }

  predicate Fresh(r: Option<Record>, now: Time) { r.Some? && now < r.value.at + ENTRY_TTL }

  /** What a lookup should answer, read off the history. */
  function Answer(h: seq<Event>, flow: Flow, dcid: Option<DcidKey>, now: Time): Option<Mac> {
    if Fresh(NewestForFlow(h, flow), now) then Some(NewestForFlow(h, flow).value.mac)
    else if dcid.Some? && Fresh(NewestForKey(h, dcid.value), now) then Some(NewestForKey(h, dcid.value).value.mac)
    else None
  }

  /** An index agrees with the newest record: it holds it, or it has expired by `upTo`. */
  predicate Holds<K>(m: map<K, Entry>, k: K, newest: Option<Record>, upTo: Time) {
    match newest
    case None => k !in m
    case Some(r) => if k in m then m[k] == Entry(r.mac, r.at + ENTRY_TTL) else r.at + ENTRY_TTL <= upTo
  }

  lemma {:induction false} TableHoldsHistory(start: Time, h: seq<Event>, flow: Flow, key: DcidKey, now: Time)
    requires Ordered(h) && (h != [] ==> h[|h| - 1].at <= now)
    ensures Holds(Replay(start, h).byFlow, flow, NewestForFlow(h, flow), now)
    ensures Holds(Replay(start, h).byDcid, key, NewestForKey(h, key), now)
  {
    if h != [] {
      var h', e := h[..|h| - 1], h[|h| - 1];
      TableHoldsHistory(start, h', flow, key, e.at);
    }
  }

  /** The swept table answers every lookup as the unswept history would. */
  lemma LookupAgreesWithHistory(start: Time, h: seq<Event>, flow: Flow, dcid: Option<DcidKey>, now: Time)
    requires Ordered(h) && (h != [] ==> h[|h| - 1].at <= now)
    ensures Lookup(Replay(start, h), flow, dcid, now) == Answer(h, flow, dcid, now)
  {
    TableHoldsHistory(start, h, flow, if dcid.Some? then dcid.value else DcidKey(0, []), now);
  }

  function WithoutSweeps(h: seq<Event>): seq<Event> {
    if h == [] then []
    else WithoutSweeps(h[..|h| - 1]) + if h[|h| - 1].Swept? then [] else [h[|h| - 1]]
  }

  lemma {:induction false} SweepsLeaveRecords(h: seq<Event>, flow: Flow, key: DcidKey)
    ensures NewestForFlow(WithoutSweeps(h), flow) == NewestForFlow(h, flow)
    ensures NewestForKey(WithoutSweeps(h), key) == NewestForKey(h, key)
  {
    if h != [] {
      var u, e := WithoutSweeps(h[..|h| - 1]), h[|h| - 1];
      SweepsLeaveRecords(h[..|h| - 1], flow, key);
      assert (u + [e])[..|u|] == u && u + [] == u;
    }
  }

  lemma {:induction false} SweepsLeaveOrder(h: seq<Event>, now: Time)
    requires Ordered(h) && (h != [] ==> h[|h| - 1].at <= now)
    ensures Ordered(WithoutSweeps(h))
    ensures forall i :: 0 <= i < |WithoutSweeps(h)| ==> WithoutSweeps(h)[i].at <= now
  {
    if h != [] {
      SweepsLeaveOrder(h[..|h| - 1], h[|h| - 1].at);
    }
  }

  /** No sweep, wherever it fell, changes any answer from then on. */
  lemma SweepingIsInvisible(start: Time, h: seq<Event>, flow: Flow, dcid: Option<DcidKey>, now: Time)
    requires Ordered(h) && (h != [] ==> h[|h| - 1].at <= now)
    ensures Lookup(Replay(start, h), flow, dcid, now) == Lookup(Replay(start, WithoutSweeps(h)), flow, dcid, now)
  {
    var key := if dcid.Some? then dcid.value else DcidKey(0, []);
    SweepsLeaveRecords(h, flow, key);
    SweepsLeaveOrder(h, now);
    LookupAgreesWithHistory(start, h, flow, dcid, now);
    LookupAgreesWithHistory(start, WithoutSweeps(h), flow, dcid, now);
  }
}
