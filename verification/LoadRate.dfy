/**
  The Initial-rate tracker that workers share: a one-second window, a count and the
  count of the window before. `record_batch` is modelled twice, as an object whose
  calls do not overlap, and atomic operation by atomic operation for any number of
  workers.
 */
module LoadRate {
  function Sum(s: seq<nat>): nat {
    if s == [] then 0 else Sum(s[..|s| - 1]) + s[|s| - 1]
  }

  lemma {:induction false} SumConcat(a: seq<nat>, b: seq<nat>)
    ensures Sum(a + b) == Sum(a) + Sum(b)
  {
    if b == [] {
      assert a + b == a;
    } else {
      SumConcat(a, b[..|b| - 1]);
      assert (a + b)[..|a + b| - 1] == a + b[..|b| - 1];
    }
  }

  // ------------------------------------------------------- calls one by one

  /** One `record_batch` call: a tally and the second it was flushed in. */
  datatype Call = Call(count: nat, sec: nat)

  datatype Tracker = Tracker(windowSec: nat, windowCount: nat, lastRate: nat)

  function Record(t: Tracker, c: Call): Tracker {
    if c.sec == t.windowSec then t.(windowCount := t.windowCount + c.count)
    else Tracker(c.sec, c.count, t.windowCount)
  }

  function Replay(h: seq<Call>): Tracker {
    if h == [] then Tracker(0, 0, 0) else Record(Replay(h[..|h| - 1]), h[|h| - 1])
  }

  /** All calls of `h` fall in second `sec`. */
  predicate Within(h: seq<Call>, sec: nat) { forall i :: 0 <= i < |h| ==> h[i].sec == sec }

  function Counts(h: seq<Call>): seq<nat> { seq(|h|, i requires 0 <= i < |h| => h[i].count) }

  /** `last` is the maximal final run of equal seconds of `h`; the tracker starts in
      second 0, so an empty history ends in an empty run of second 0. */
  predicate EndsInRun(h: seq<Call>, before: seq<Call>, last: seq<Call>, sec: nat) {
    && h == before + last && Within(last, sec)
    && (last == [] ==> before == [] && sec == 0)
    && (before == [] || before[|before| - 1].sec != sec)
  }

  /** `h` ends in the runs `b` and then `c`: the current second, which is being filled,
      is the one of `c`, and what the tracker reports is the total of `b` (zero while
      still in the initial second 0). */
  predicate LastRuns(h: seq<Call>, t: Tracker, a: seq<Call>, b: seq<Call>, c: seq<Call>) {
    && h == a + b + c && EndsInRun(h, a + b, c, t.windowSec)
    && t.windowCount == Sum(Counts(c)) && t.lastRate == Sum(Counts(b))
    && if a + b == [] then b == [] else EndsInRun(a + b, a, b, h[|a + b| - 1].sec)
  }

  /** The reported rate, for any clock: the total of the run of equal seconds before
      the last one. */
  lemma {:induction false} RateIsPreviousRun(h: seq<Call>) returns (a: seq<Call>, b: seq<Call>, c: seq<Call>)
    ensures LastRuns(h, Replay(h), a, b, c)
  {
    hide *;
    if h == [] {
      a, b, c := [], [], [];
      NothingYet();
    } else {
      var h0, x := h[..|h| - 1], h[|h| - 1];
      var a0, b0, c0 := RateIsPreviousRun(h0);
      assert h == h0 + [x];
      OneMore(h0, x, 0);
      if x.sec == Replay(h0).windowSec {
        a, b, c := a0, b0, c0 + [x];
        LastRunGrows(h0, Replay(h0), a0, b0, c0, x);
      } else {
        a, b, c := a0 + b0, c0, [x];
        LastRunEnds(h0, Replay(h0), a0, b0, c0, x);
      }
    }
  }

  lemma NothingYet()
    ensures LastRuns([], Replay([]), [], [], [])
  {
  }

  lemma LastRunGrows(h: seq<Call>, t: Tracker, a: seq<Call>, b: seq<Call>, c: seq<Call>, x: Call)
    requires LastRuns(h, t, a, b, c) && x.sec == t.windowSec
    ensures LastRuns(h + [x], Record(t, x), a, b, c + [x])
  {
    assert h + [x] == a + b + (c + [x]);
    CountsOneMore(c, x);
    RunGoesOn(h, a + b, c, x);
    hide Sum, Counts, EndsInRun;
  }

  lemma LastRunEnds(h: seq<Call>, t: Tracker, a: seq<Call>, b: seq<Call>, c: seq<Call>, x: Call)
    requires LastRuns(h, t, a, b, c) && x.sec != t.windowSec
    ensures LastRuns(h + [x], Record(t, x), a + b, c, [x])
  {
    assert [] + [x] == [x] && Counts([]) == [] && Sum([]) == 0;
    CountsOneMore([], x);
    RunBegins(h, a + b, c, t.windowSec, x);
    assert h == [] ==> c == [];
    hide Sum, Counts, EndsInRun;
  }

  lemma CountsOneMore(h: seq<Call>, x: Call)
    ensures Sum(Counts(h + [x])) == Sum(Counts(h)) + x.count
  {
    assert Counts(h + [x]) == Counts(h) + [x.count];
    SumOneMore(Counts(h), x.count);
  }

  lemma RunGoesOn(h: seq<Call>, before: seq<Call>, last: seq<Call>, x: Call)
    requires EndsInRun(h, before, last, x.sec)
    ensures EndsInRun(h + [x], before, last + [x], x.sec)
    ensures forall i :: 0 <= i < |before| ==> (h + [x])[i] == h[i]
  {
    assert h + [x] == before + (last + [x]);
  }

  lemma RunBegins(h: seq<Call>, before: seq<Call>, last: seq<Call>, sec: nat, x: Call)
    requires EndsInRun(h, before, last, sec) && x.sec != sec
    ensures EndsInRun(h + [x], h, [x], x.sec)
    ensures h != [] ==> h[|h| - 1].sec == sec && (h + [x])[|h| - 1] == h[|h| - 1]
  {
    if h != [] { assert h[|h| - 1] == last[|last| - 1]; }
  }

  predicate Monotone(h: seq<Call>) { forall i, j :: 0 <= i <= j < |h| ==> h[i].sec <= h[j].sec }

  function At(h: seq<Call>, sec: nat): nat {
    if h == [] then 0 else At(h[..|h| - 1], sec) + if h[|h| - 1].sec == sec then h[|h| - 1].count else 0
  }

  lemma {:induction false} AtConcat(a: seq<Call>, b: seq<Call>, sec: nat)
    ensures At(a + b, sec) == At(a, sec) + At(b, sec)
  {
    if b == [] {
      assert a + b == a;
    } else {
      AtConcat(a, b[..|b| - 1], sec);
      assert (a + b)[..|a + b| - 1] == a + b[..|b| - 1];
    }
  }

  lemma {:induction false} AtOfRun(h: seq<Call>, sec: nat)
    requires Within(h, sec)
    ensures At(h, sec) == Sum(Counts(h))
  {
    if h != [] {
      AtOfRun(h[..|h| - 1], sec);
      assert Counts(h) == Counts(h[..|h| - 1]) + [h[|h| - 1].count];
    }
  }

  lemma {:induction false} AtElsewhere(h: seq<Call>, sec: nat)
    requires forall i :: 0 <= i < |h| ==> h[i].sec != sec
    ensures At(h, sec) == 0
  {
    if h != [] { AtElsewhere(h[..|h| - 1], sec); }
  }

  predicate TwoSeconds(h: seq<Call>) { exists i, j :: 0 <= i < j < |h| && h[i].sec != h[j].sec }

  /** The documented reading, that the rate is everything recorded in the second before,
      holds exactly when nothing was recorded in that second before its last run. */
  lemma RateIsSecondExactly(h: seq<Call>) returns (a: seq<Call>, b: seq<Call>, c: seq<Call>)
    requires TwoSeconds(h)
    ensures h == a + b + c && b != [] && EndsInRun(h, a + b, c, Replay(h).windowSec)
    ensures EndsInRun(a + b, a, b, b[0].sec)
    ensures Replay(h).lastRate == At(h, b[0].sec) <==> At(a, b[0].sec) == 0
  {
    a, b, c := RateIsPreviousRun(h);
    assert a + b != [] by { assert [] + c == c; }
    var p := b[0].sec;
    assert p == h[|a + b| - 1].sec by { assert h[|a + b| - 1] == b[|b| - 1]; }
    RunTotal(a, b, c, p, Replay(h).windowSec);
  }

  /** In particular with a clock that does not go back: the rate is then everything
      recorded in the last second, before the current one, in which anything was. */
  lemma RateIsLastFullSecond(h: seq<Call>, i: nat)
    requires Monotone(h) && i < |h| && h[i].sec < h[|h| - 1].sec
    requires forall j :: i < j < |h| ==> h[j].sec == h[|h| - 1].sec
    ensures Replay(h).lastRate == At(h, h[i].sec)
  {
    assert h[i].sec != h[|h| - 1].sec && i < |h| - 1;
    var a, b, c := RateIsSecondExactly(h);
    hide Replay, At;
    EndOfRuns(h, a + b, c, i);
    assert (a + b)[i] == b[|b| - 1];
    SecondsGrow(h, a, b, c);
    AtElsewhere(a, b[0].sec);
  }

  lemma EndOfRuns(h: seq<Call>, ab: seq<Call>, c: seq<Call>, i: nat)
    requires i < |h| && h[i].sec < h[|h| - 1].sec && forall j :: i < j < |h| ==> h[j].sec == h[|h| - 1].sec
    requires exists q :: EndsInRun(h, ab, c, q)
    ensures i == |ab| - 1 && h[i] == ab[i]
  {
    var q :| EndsInRun(h, ab, c, q);
    assert forall k :: 0 <= k < |ab| ==> h[k] == ab[k];
    assert forall k :: 0 <= k < |c| ==> h[|ab| + k] == c[k];
    assert h[|h| - 1].sec == q;
    assert i < |ab|;
    assert h[|ab| - 1].sec != q;
  }

  lemma SecondsGrow(h: seq<Call>, a: seq<Call>, b: seq<Call>, c: seq<Call>)
    requires Monotone(h) && h == a + b + c && b != [] && (a == [] || a[|a| - 1].sec != b[0].sec)
    ensures forall k :: 0 <= k < |a| ==> a[k].sec != b[0].sec
  {
    forall k | 0 <= k < |a| ensures a[k].sec != b[0].sec {
      assert h[k] == a[k] && h[|a| - 1] == a[|a| - 1] && h[|a|] == b[0];
    }
  }

  lemma RunTotal(a: seq<Call>, b: seq<Call>, c: seq<Call>, p: nat, q: nat)
    requires Within(b, p) && Within(c, q) && p != q
    ensures At(a + b + c, p) == At(a, p) + Sum(Counts(b))
  {
    AtOfRun(b, p);
    AtElsewhere(c, p);
    AtConcat(a + b, c, p);
    AtConcat(a, b, p);
  }

  lemma OneMore(h: seq<Call>, c: Call, sec: nat)
    ensures Replay(h + [c]) == Record(Replay(h), c)
    ensures At(h + [c], sec) == At(h, sec) + if c.sec == sec then c.count else 0
  {
    assert (h + [c])[..|h|] == h;
  }

  /** Without that: a flush stamped one second late reopens the window, and the rate
      reported next is an empty run's although second 1 held 100 Initials. */
  lemma LateFlushHidesRate() returns (h: seq<Call>)
    ensures h == [Call(100, 1), Call(3, 2), Call(0, 1), Call(50, 2)]
    ensures Replay(h) == Tracker(2, 50, 0) && At(h, 1) == 100
  {
    h := [];
    assert Replay(h) == Tracker(0, 0, 0) && At(h, 1) == 0;
    hide Replay, At;
    OneMore(h, Call(100, 1), 1);
    h := h + [Call(100, 1)];
    OneMore(h, Call(3, 2), 1);
    h := h + [Call(3, 2)];
    OneMore(h, Call(0, 1), 1);
    h := h + [Call(0, 1)];
    OneMore(h, Call(50, 2), 1);
    h := h + [Call(50, 2)];
  }

  /** The shared tracker as an object, with the calls it has taken. */
  class LoadRateTracker {
    var windowSec: nat
    var windowCount: nat
    var lastRate: nat
    ghost var calls: seq<Call>

    ghost predicate Valid() reads this { Tracker(windowSec, windowCount, lastRate) == Replay(calls) }

    constructor ()
      ensures Valid() && calls == []
    {
      windowSec, windowCount, lastRate, calls := 0, 0, 0, [];
    }

    method RecordBatch(count: nat, nowMs: nat)
      requires Valid()
      modifies this
      ensures Valid() && calls == old(calls) + [Call(count, nowMs / 1000)]
    {
      OneMore(calls, Call(count, nowMs / 1000), 0);
      calls := calls + [Call(count, nowMs / 1000)];
      hide Replay;
      var nowSec := nowMs / 1000;
      var cur := windowSec;
      if nowSec != cur {
        windowSec := nowSec;
        var prev := windowCount;
        windowCount := 0;
        lastRate := prev;
      }
      if count > 0 { windowCount := windowCount + count; }
    }

    /** What the retry gate compares with the trigger: the total of the run of equal
        seconds `b` before the last one. */
    method Rate() returns (r: nat, ghost a: seq<Call>, ghost b: seq<Call>, ghost c: seq<Call>)
      requires Valid()
      ensures r == Replay(calls).lastRate
      ensures LastRuns(calls, Replay(calls), a, b, c) && r == Sum(Counts(b))
    {
      r := lastRate;
      a, b, c := RateIsPreviousRun(calls);
    }
  }

  // ------------------------------------------------- any number of workers

  /** Where a worker is inside `record_batch`. */
  datatype Pc =
    | Idle
    | Loading(n: nat, sec: nat)
    | Exchanging(n: nat, sec: nat, cur: nat)
    | Swapping(n: nat)
    | Storing(n: nat, prev: nat, block: nat)
    | Adding(n: nat)

  /** The three atomics, the workers, and a log: every tally added, in the order of the
      additions, cut into `blocks` by the swaps with `window` still open; and the blocks
      stored to `lastRate`, in order. */
  datatype Shared = Shared(
    windowSec: nat, windowCount: nat, lastRate: nat, pcs: seq<Pc>,
    added: seq<nat>, blocks: seq<seq<nat>>, window: seq<nat>, published: seq<nat>)

  datatype Step = Begin(w: nat, n: nat, sec: nat) | Advance(w: nat)

  predicate Can(s: Shared, step: Step) {
    && step.w < |s.pcs|
    && (step.Begin? <==> s.pcs[step.w].Idle?)
  }

  function Do(s: Shared, step: Step): Shared
    requires Can(s, step)
  {
    var w := step.w;
    match s.pcs[w]
    case Idle => s.(pcs := s.pcs[w := Loading(step.n, step.sec)])
    case Loading(n, sec) =>
      s.(pcs := s.pcs[w := if sec != s.windowSec then Exchanging(n, sec, s.windowSec) else Adding(n)])
    case Exchanging(n, sec, cur) =>
      if s.windowSec == cur then s.(windowSec := sec, pcs := s.pcs[w := Swapping(n)])
      else s.(pcs := s.pcs[w := Adding(n)])
    case Swapping(n) =>
      s.(windowCount := 0, pcs := s.pcs[w := Storing(n, s.windowCount, |s.blocks|)],
         blocks := s.blocks + [s.window], window := [])
    case Storing(n, prev, block) =>
      s.(lastRate := prev, pcs := s.pcs[w := Adding(n)], published := s.published + [block])
    case Adding(n) =>
      if n > 0 then
        s.(windowCount := s.windowCount + n, pcs := s.pcs[w := Idle], added := s.added + [n], window := s.window + [n])
      else s.(pcs := s.pcs[w := Idle])
  }

  predicate Start(s: Shared) {
    && s.windowSec == s.windowCount == s.lastRate == 0
    && s.added == s.window == s.published == [] && s.blocks == []
    && forall w :: 0 <= w < |s.pcs| ==> s.pcs[w] == Idle
  }

  predicate IsRun(run: seq<Shared>, steps: seq<Step>) {
    && |run| == |steps| + 1 && Start(run[0])
    && forall i :: 0 <= i < |steps| ==> Can(run[i], steps[i]) && run[i + 1] == Do(run[i], steps[i])
  }

  function Flatten(blocks: seq<seq<nat>>): seq<nat> {
    if blocks == [] then [] else Flatten(blocks[..|blocks| - 1]) + blocks[|blocks| - 1]
  }

  /** The blocks and the open window partition the additions, in order. */
  predicate Partitioned(s: Shared) { s.added == Flatten(s.blocks) + s.window && s.windowCount == Sum(s.window) }

  predicate InFlight(s: Shared, block: nat) {
    exists w :: 0 <= w < |s.pcs| && s.pcs[w].Storing? && s.pcs[w].block == block
  }

  /** A worker between swap and store holds a block of its own, not yet published. */
  predicate Held(s: Shared) {
    && (forall w :: 0 <= w < |s.pcs| && s.pcs[w].Storing? ==>
          && s.pcs[w].block < |s.blocks| && s.pcs[w].block !in s.published
          && s.pcs[w].prev == Sum(s.blocks[s.pcs[w].block]))
    && (forall v, w :: 0 <= v < w < |s.pcs| && s.pcs[v].Storing? && s.pcs[w].Storing? ==>
          s.pcs[v].block != s.pcs[w].block)
  }

  predicate PublishedOnce(s: Shared) {
    && (forall i, j :: 0 <= i < j < |s.published| ==> s.published[i] != s.published[j])
    && (forall b :: b in s.published ==> b < |s.blocks|)
  }

  predicate Covered(s: Shared) { forall b: nat :: b < |s.blocks| ==> b in s.published || InFlight(s, b) }

  predicate Owned(s: Shared) { Held(s) && PublishedOnce(s) && Covered(s) }

  /** The rate on offer is the total of the block published last. */
  predicate Reported(s: Shared) {
    if s.published == [] then s.lastRate == 0
    else s.published[|s.published| - 1] < |s.blocks| && s.lastRate == Sum(s.blocks[s.published[|s.published| - 1]])
  }

  predicate Inv(s: Shared) { Partitioned(s) && Owned(s) && Reported(s) }

  lemma FlattenOneMore(blocks: seq<seq<nat>>, b: seq<nat>)
    ensures Flatten(blocks + [b]) == Flatten(blocks) + b
  {
    assert (blocks + [b])[..|blocks|] == blocks;
  }

  lemma SumOneMore(s: seq<nat>, n: nat)
    ensures Sum(s + [n]) == Sum(s) + n
  {
    assert (s + [n])[..|s|] == s;
  }

  lemma SumNone()
    ensures Sum([]) == 0
  {
  }

  lemma StepPartitions(s: Shared, step: Step)
    requires Can(s, step) && Partitioned(s)
    ensures Partitioned(Do(s, step))
  {
    hide Flatten, Sum;
    FlattenOneMore(s.blocks, s.window);
    if s.pcs[step.w].Adding? { SumOneMore(s.window, s.pcs[step.w].n); }
    SumNone();
  }

  lemma StepHolds(s: Shared, step: Step, s': Shared)
    requires Can(s, step) && Held(s) && PublishedOnce(s) && Partitioned(s) && s' == Do(s, step)
    ensures Held(s') && PublishedOnce(s')
  {
    var w := step.w;
    match s.pcs[w]
    case Swapping(n) =>
      assert forall b :: 0 <= b < |s.blocks| ==> s'.blocks[b] == s.blocks[b];
    case Storing(n, prev, block) =>
      assert forall v :: 0 <= v < |s.pcs| && v != w && s.pcs[v].Storing? ==> s.pcs[v].block != block;
    case _ =>
      assert s'.blocks == s.blocks && s'.published == s.published && !s'.pcs[w].Storing?;
  }

  lemma StepCovers(s: Shared, step: Step, s': Shared)
    requires Can(s, step) && Covered(s) && s' == Do(s, step)
    ensures Covered(s')
  {
    var w := step.w;
    forall b: nat | b < |s'.blocks| ensures b in s'.published || InFlight(s', b) {
      if b == |s.blocks| {
        assert s'.pcs[w].Storing? && s'.pcs[w].block == b;
      } else if b !in s.published {
        var v :| 0 <= v < |s.pcs| && s.pcs[v].Storing? && s.pcs[v].block == b;
        assert v == w || s'.pcs[v] == s.pcs[v];
      }
    }
  }

  lemma StepReports(s: Shared, step: Step)
    requires Can(s, step) && Held(s) && Reported(s)
    ensures Reported(Do(s, step))
  {
    hide Sum;
  }

  lemma StepKeeps(s: Shared, step: Step)
    requires Can(s, step) && Inv(s)
    ensures Inv(Do(s, step))
  {
    hide Partitioned, Held, PublishedOnce, Covered, Reported, Do;
    StepPartitions(s, step);
    StepHolds(s, step, Do(s, step));
    StepCovers(s, step, Do(s, step));
    StepReports(s, step);
  }

  lemma {:induction false} RunInv(run: seq<Shared>, steps: seq<Step>, i: nat)
    requires IsRun(run, steps) && i < |run|
    ensures Inv(run[i])
  {
    if i == 0 {
    } else {
      RunInv(run, steps, i - 1);
      StepKeeps(run[i - 1], steps[i - 1]);
    }
  }

  /** Whatever the interleaving and the clocks: the additions are cut, in order, into the
      blocks swapped out and the window still open, so none is counted twice or lost; the
      reported rate is zero or the total of one block; and once no worker is between its
      swap and its store, every block has been published exactly once. */
  lemma RatesPartitionInitials(run: seq<Shared>, steps: seq<Step>, i: nat)
    requires IsRun(run, steps) && i < |run|
    ensures run[i].added == Flatten(run[i].blocks) + run[i].window && run[i].windowCount == Sum(run[i].window)
    ensures run[i].lastRate == 0 || exists b :: 0 <= b < |run[i].blocks| && run[i].lastRate == Sum(run[i].blocks[b])
    ensures forall j, k :: 0 <= j < k < |run[i].published| ==> run[i].published[j] != run[i].published[k]
    ensures (forall w :: 0 <= w < |run[i].pcs| ==> !run[i].pcs[w].Storing?) ==>
              forall b: nat :: b in run[i].published <==> b < |run[i].blocks|
  {
    RunInv(run, steps, i);
    var s := run[i];
    if s.published != [] {
      assert s.lastRate == Sum(s.blocks[s.published[|s.published| - 1]]);
    }
  }

  function Atomics(s: Shared): Tracker { Tracker(s.windowSec, s.windowCount, s.lastRate) }

  function Advances(s: Shared, w: nat, k: nat): Shared
    requires w < |s.pcs|
    decreases k
  {
    if k == 0 || s.pcs[w].Idle? then s else Advances(Do(s, Advance(w)), w, k - 1)
  }

  /** A call that no other worker interrupts takes at most five atomic steps and does
      what `Record` says. */
  lemma AloneIsRecord(s: Shared, w: nat, n: nat, sec: nat)
    requires w < |s.pcs| && s.pcs[w].Idle?
    ensures var s' := Advances(Do(s, Begin(w, n, sec)), w, 5);
            s'.pcs[w].Idle? && Atomics(s') == Record(Atomics(s), Call(n, sec))
  {
    var s0 := Do(s, Begin(w, n, sec));
    var s1 := Do(s0, Advance(w));
    var s2 := Do(s1, Advance(w));
    if sec == s.windowSec {
      assert Advances(s1, w, 4) == Advances(s2, w, 3) == s2;
    } else {
      var s3 := Do(s2, Advance(w));
      var s4 := Do(s3, Advance(w));
      var s5 := Do(s4, Advance(w));
      assert Advances(s2, w, 3) == Advances(s3, w, 2) == Advances(s4, w, 1) == s5;
    }
  }

  // ----------------------------------------------------- who wins a window

  /** The exchange of this step succeeds. */
  predicate Wins(s: Shared, step: Step) {
    Can(s, step) && s.pcs[step.w].Exchanging? && s.windowSec == s.pcs[step.w].cur
  }

  /** Workers exchange only towards another second. */
  lemma {:induction false} ExchangesDiffer(run: seq<Shared>, steps: seq<Step>, i: nat, w: nat)
    requires IsRun(run, steps) && i < |run| && w < |run[i].pcs| && run[i].pcs[w].Exchanging?
    ensures run[i].pcs[w].sec != run[i].pcs[w].cur
  {
    if i > 0 && steps[i - 1].w != w {
      assert run[i] == Do(run[i - 1], steps[i - 1]);
      ExchangesDiffer(run, steps, i - 1, w);
    } else if i > 0 {
      assert run[i] == Do(run[i - 1], steps[i - 1]);
    }
  }

  /** A second becomes current only by a winning exchange towards it. */
  lemma {:induction false} Reopened(run: seq<Shared>, steps: seq<Step>, i: nat, j: nat, c: nat) returns (k: nat)
    requires IsRun(run, steps) && i <= j < |run| && run[i].windowSec != c && run[j].windowSec == c
    ensures i <= k < j && Wins(run[k], steps[k]) && run[k].pcs[steps[k].w].sec == c
    decreases j
  {
    k := j - 1;
    assert run[j] == Do(run[k], steps[k]);
    if run[k].windowSec == c { k := Reopened(run, steps, i, k, c); }
  }

  /** Each time a second is the current one, at most one worker wins the exchange away
      from it: between two such wins another worker has made it current again. */
  lemma OneWinner(run: seq<Shared>, steps: seq<Step>, i: nat, j: nat) returns (k: nat)
    requires IsRun(run, steps) && i < j < |steps| && Wins(run[i], steps[i]) && Wins(run[j], steps[j])
    requires run[i].pcs[steps[i].w].cur == run[j].pcs[steps[j].w].cur
    ensures i < k < j && Wins(run[k], steps[k]) && run[k].pcs[steps[k].w].sec == run[i].pcs[steps[i].w].cur
  {
    ExchangesDiffer(run, steps, i, steps[i].w);
    assert run[i + 1] == Do(run[i], steps[i]);
    k := Reopened(run, steps, i + 1, j, run[i].pcs[steps[i].w].cur);
  }
}
