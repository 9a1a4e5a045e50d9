/**
  Packet accounting: the per-batch counters, their flush into a worker's slot, and the
  aggregate over all slots.
 */
module Stats {
  import R = RetryPath
  import L = LoadRate

  const CONFIGS: nat := 7

  datatype Counters = Counters(
    forwarded: nat, cidRouted: nat, byConfig: seq<nat>, fallback: nat, noServer: nat, badServerId: nat,
    draining: nat, icmp: nat, passed: nat, seen: nat, issued: nat, validated: nat, invalid: nat, expired: nat,
    parseErrors: nat)

  const ZEROS: seq<nat> := [0, 0, 0, 0, 0, 0, 0]
  const ZERO: Counters := Counters(0, 0, ZEROS, 0, 0, 0, 0, 0, 0, 0, 0, 0, 0, 0, 0)

  function PlusEach(a: seq<nat>, b: seq<nat>): (r: seq<nat>)
    requires |a| == |b|
    ensures |r| == |a|
  {
    seq(|a|, i requires 0 <= i < |a| => a[i] + b[i])
  }

  function Plus(a: Counters, b: Counters): Counters
    requires |a.byConfig| == |b.byConfig|
  {
    Counters(a.forwarded + b.forwarded, a.cidRouted + b.cidRouted, PlusEach(a.byConfig, b.byConfig),
             a.fallback + b.fallback, a.noServer + b.noServer, a.badServerId + b.badServerId,
             a.draining + b.draining, a.icmp + b.icmp, a.passed + b.passed, a.seen + b.seen, a.issued + b.issued,
             a.validated + b.validated, a.invalid + b.invalid, a.expired + b.expired, a.parseErrors + b.parseErrors)
  }

  /** The books balance against `rx` received frames: every frame is in exactly one of the
      terminal counters, and the breakdowns add up. */
  predicate Balanced(c: Counters, rx: nat) {
    && |c.byConfig| == CONFIGS
    && rx == c.forwarded + c.noServer + c.badServerId + c.passed + c.issued
    && c.forwarded == c.cidRouted + c.fallback + c.icmp
    && c.cidRouted == L.Sum(c.byConfig) && c.draining <= c.cidRouted
    && c.issued + c.validated + c.parseErrors <= c.seen
    && c.validated + c.invalid + c.expired + c.parseErrors <= c.seen
  }

  lemma {:induction false} SumPlus(a: seq<nat>, b: seq<nat>)
    requires |a| == |b|
    ensures L.Sum(PlusEach(a, b)) == L.Sum(a) + L.Sum(b)
  {
    if a != [] {
      var n := |a| - 1;
      SumPlus(a[..n], b[..n]);
      assert PlusEach(a, b)[..n] == PlusEach(a[..n], b[..n]);
    }
  }

  lemma {:induction false} SumZero(s: seq<nat>)
    ensures L.Sum(s) == 0 <==> forall i :: 0 <= i < |s| ==> s[i] == 0
  {
    if s != [] {
      var n := |s| - 1;
      SumZero(s[..n]);
      assert forall i :: 0 <= i < n ==> s[..n][i] == s[i];
    }
  }

  lemma ZeroBalanced()
    ensures Balanced(ZERO, 0)
  {
    hide L.Sum;
    assert forall i :: 0 <= i < |ZEROS| ==> ZEROS[i] == 0;
    SumZero(ZEROS);
  }

  lemma PlusBalanced(a: Counters, ra: nat, b: Counters, rb: nat)
    requires Balanced(a, ra) && Balanced(b, rb)
    ensures Balanced(Plus(a, b), ra + rb)
  {
    SumPlus(a.byConfig, b.byConfig);
  }

  // ----------------------------------------------------------- accumulators

  class BatchStats {
    var c: Counters

    constructor ()
      ensures c == ZERO
    {
      c := ZERO;
    }

    method RecordCidForward(configId: nat)
      requires configId < |c.byConfig|
      modifies this
      ensures c == old(c).(cidRouted := old(c).cidRouted + 1, forwarded := old(c).forwarded + 1,
                           byConfig := old(c).byConfig[configId := old(c).byConfig[configId] + 1])
    {
      c := c.(cidRouted := c.cidRouted + 1);
      c := c.(byConfig := c.byConfig[configId := c.byConfig[configId] + 1]);
      c := c.(forwarded := c.forwarded + 1);
    }

    method RecordFallbackForward()
      modifies this
      ensures c == old(c).(fallback := old(c).fallback + 1, forwarded := old(c).forwarded + 1)
    {
      c := c.(fallback := c.fallback + 1);
      c := c.(forwarded := c.forwarded + 1);
    }

    method RecordIcmpForward()
      modifies this
      ensures c == old(c).(icmp := old(c).icmp + 1, forwarded := old(c).forwarded + 1)
    {
      c := c.(icmp := c.icmp + 1);
      c := c.(forwarded := c.forwarded + 1);
    }

    method RecordDrainingForward()
      modifies this
      ensures c == old(c).(draining := old(c).draining + 1)
    {
      c := c.(draining := c.draining + 1);
    }

    method RecordUnroutable(known: bool)
      modifies this
      ensures known ==> c == old(c).(noServer := old(c).noServer + 1)
      ensures !known ==> c == old(c).(badServerId := old(c).badServerId + 1)
    {
      if known { c := c.(noServer := c.noServer + 1); } else { c := c.(badServerId := c.badServerId + 1); }
    }

    method RecordPass()
      modifies this
      ensures c == old(c).(passed := old(c).passed + 1)
    {
      c := c.(passed := c.passed + 1);
    }

    /** A silent detail records nothing at all, not even an emission. */
    method RecordRetry(outcome: R.Outcome, detail: R.Detail)
      modifies this
      ensures detail.NoDetail? ==> c == old(c)
      ensures !detail.NoDetail? ==>
        c == old(c).(seen := old(c).seen + 1, issued := old(c).issued + (if outcome.Emitted? then 1 else 0),
                     validated := old(c).validated + (if detail.TokenValid? then 1 else 0),
                     invalid := old(c).invalid + (if detail.TokenInvalid? then 1 else 0),
                     expired := old(c).expired + (if detail.TokenExpired? then 1 else 0),
                     parseErrors := old(c).parseErrors + (if detail.ParseError? then 1 else 0))
    {
      match detail {
        case NoDetail => return;
        case ParseError => c := c.(parseErrors := c.parseErrors + 1);
        case TokenValid => c := c.(validated := c.validated + 1);
        case TokenInvalid => c := c.(invalid := c.invalid + 1);
        case TokenExpired => c := c.(expired := c.expired + 1);
        case Issued =>
        case Observed =>
      }
      c := c.(seen := c.seen + 1);
      if outcome.Emitted? { c := c.(issued := c.issued + 1); }
    }

    /** Adds only what is not zero, and the per-config counters only behind `cidRouted`;
        for balanced books that is the whole batch. */
    method Flush(target: WorkerStats)
      requires |target.c.byConfig| == CONFIGS && |c.byConfig| == CONFIGS && c.cidRouted == L.Sum(c.byConfig)
      modifies target`c
      ensures target.c == Plus(old(target.c), c)
    {
      hide L.Sum;
      var t := target.c;
      t := t.(forwarded := AddIfAny(t.forwarded, c.forwarded));
      if c.cidRouted > 0 {
        t := t.(cidRouted := t.cidRouted + c.cidRouted);
        var each := FlushEach(t.byConfig, c.byConfig);
        t := t.(byConfig := each);
      }
      SumZero(c.byConfig);
      hide AddIfAny;
      assert t.byConfig == PlusEach(target.c.byConfig, c.byConfig);
      t := t.(fallback := AddIfAny(t.fallback, c.fallback));
      t := t.(noServer := AddIfAny(t.noServer, c.noServer));
      t := t.(badServerId := AddIfAny(t.badServerId, c.badServerId));
      t := t.(draining := AddIfAny(t.draining, c.draining));
      t := t.(icmp := AddIfAny(t.icmp, c.icmp));
      t := t.(passed := AddIfAny(t.passed, c.passed));
      t := t.(seen := AddIfAny(t.seen, c.seen));
      t := t.(issued := AddIfAny(t.issued, c.issued));
      t := t.(validated := AddIfAny(t.validated, c.validated));
      t := t.(invalid := AddIfAny(t.invalid, c.invalid));
      t := t.(expired := AddIfAny(t.expired, c.expired));
      t := t.(parseErrors := AddIfAny(t.parseErrors, c.parseErrors));
      target.c := t;
    }
  }

  /** The guarded add of `flush`. */
  function AddIfAny(t: nat, n: nat): (r: nat)
    ensures r == t + n
  {
    if n > 0 then t + n else t
  }

  method FlushEach(into: seq<nat>, from: seq<nat>) returns (r: seq<nat>)
    requires |into| == |from|
    ensures r == PlusEach(into, from)
  {
    r := into;
    for i := 0 to |from|
      invariant |r| == |into|
      invariant forall k :: 0 <= k < |r| ==> r[k] == into[k] + if k < i then from[k] else 0
    {
      if from[i] > 0 { r := r[i := r[i] + from[i]]; }
    }
  }

  class WorkerStats {
    var rx: nat
    var c: Counters
    var peak: nat

    constructor ()
      ensures rx == 0 && c == ZERO && peak == 0 && Balanced(c, rx)
    {
      hide *;
      ZeroBalanced();
      rx, c, peak := 0, ZERO, 0;
    }

    method RecordRx(n: nat)
      modifies this`rx
      ensures rx == old(rx) + n
    {
      rx := rx + n;
    }

    /** A running maximum. */
    method RecordPendingFill(depth: nat)
      modifies this`peak
      ensures peak == (if depth > old(peak) then depth else old(peak))
    {
      if depth > peak { peak := depth; }
    }
  }

  // -------------------------------------------------------------- aggregate

  datatype Snapshot = Snapshot(rx: nat, c: Counters, peak: nat)

  /** Frames the flushed counters account for. */
  function Accounted(c: Counters): nat { c.forwarded + c.noServer + c.badServerId + c.passed + c.issued }

  /** A slot between its flushes: received frames are recorded before their batch is
      flushed, so the books balance against the frames accounted for and `rx` may be
      ahead. */
  predicate Settled(s: Snapshot) { Balanced(s.c, Accounted(s.c)) && Accounted(s.c) <= s.rx }

  predicate Sized(slots: seq<Snapshot>) { forall s :: s in slots ==> |s.c.byConfig| == CONFIGS }

  /** Counters and receptions summed over the slots; the peak is the largest. */
  function Aggregated(slots: seq<Snapshot>): (t: Snapshot)
    requires Sized(slots)
    ensures |t.c.byConfig| == CONFIGS
  {
    if slots == [] then Snapshot(0, ZERO, 0) else Joined(Aggregated(slots[..|slots| - 1]), slots[|slots| - 1])
  }

  function Joined(t: Snapshot, s: Snapshot): Snapshot
    requires |t.c.byConfig| == |s.c.byConfig|
  {
    Snapshot(t.rx + s.rx, Plus(t.c, s.c), if s.peak > t.peak then s.peak else t.peak)
  }

  lemma JoinedSettled(t: Snapshot, s: Snapshot)
    requires Settled(t) && Settled(s)
    ensures Settled(Joined(t, s))
    ensures Accounted(t.c) == t.rx && Accounted(s.c) == s.rx ==> Accounted(Joined(t, s).c) == Joined(t, s).rx
  {
    PlusBalanced(t.c, Accounted(t.c), s.c, Accounted(s.c));
    hide L.Sum, PlusEach;
  }

  lemma ZeroAccounted()
    ensures Accounted(ZERO) == 0
  {
    hide ZEROS;
  }

  lemma NoneSettled()
    ensures Settled(Snapshot(0, ZERO, 0))
  {
    hide Balanced, L.Sum, ZERO, Accounted;
    ZeroBalanced();
    ZeroAccounted();
  }

  /** Aggregating settled slots gives a settled total, and a total that balances against
      everything received when every slot does. */
  lemma {:induction false} AggregateSettled(slots: seq<Snapshot>)
    requires Sized(slots) && forall s :: s in slots ==> Settled(s)
    ensures Settled(Aggregated(slots))
    ensures (forall s :: s in slots ==> Accounted(s.c) == s.rx) ==>
              Accounted(Aggregated(slots).c) == Aggregated(slots).rx
  {
    hide Settled, Joined, Accounted, ZERO;
    if slots == [] {
      NoneSettled();
      ZeroAccounted();
    } else {
      var n := |slots| - 1;
      AggregateSettled(slots[..n]);
      JoinedSettled(Aggregated(slots[..n]), slots[n]);
    }
  }

  lemma {:induction false} AggregatePeak(slots: seq<Snapshot>, i: nat)
    requires Sized(slots) && i < |slots|
    ensures slots[i].peak <= Aggregated(slots).peak
  {
    hide Plus;
    var n := |slots| - 1;
    if i < n { AggregatePeak(slots[..n], i); }
  }

  /** `StatsTable::aggregate`, on what its loads returned of each slot in turn. */
  method Aggregate(slots: seq<Snapshot>) returns (total: Snapshot)
    requires Sized(slots)
    ensures total == Aggregated(slots)
    ensures (forall s :: s in slots ==> Settled(s)) ==> Settled(total)
    ensures (forall s :: s in slots ==> Balanced(s.c, s.rx)) ==> Balanced(total.c, total.rx)
  {
    total := Snapshot(0, ZERO, 0);
    for i := 0 to |slots|
      invariant Sized(slots[..i]) && total == Aggregated(slots[..i])
    {
      var peak := if slots[i].peak > total.peak then slots[i].peak else total.peak;
      assert slots[..i + 1][..i] == slots[..i];
      total := Snapshot(total.rx + slots[i].rx, Plus(total.c, slots[i].c), peak);
    }
    assert slots[..|slots|] == slots;
    AggregateClaims(slots);
  }

  lemma AggregateClaims(slots: seq<Snapshot>)
    requires Sized(slots)
    ensures (forall s :: s in slots ==> Settled(s)) ==> Settled(Aggregated(slots))
    ensures (forall s :: s in slots ==> Balanced(s.c, s.rx)) ==> Balanced(Aggregated(slots).c, Aggregated(slots).rx)
  {
    hide L.Sum, Aggregated;
    if forall s :: s in slots ==> Settled(s) { AggregateSettled(slots); }
    if forall s :: s in slots ==> Balanced(s.c, s.rx) {
      assert forall s :: s in slots ==> Settled(s) && Accounted(s.c) == s.rx;
      AggregateSettled(slots);
    }
  }
}
