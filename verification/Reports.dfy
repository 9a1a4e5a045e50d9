/**
  Reports: `aggregate` loads the workers' counters one by one while the workers go on
  adding to them, and the main loop logs the difference to the report before.
 */
module Reports {
  import opened Stats
  import L = LoadRate
  import T = Token

  /** The words of a slot, in the order in which `aggregate` loads them. */
  const WORDS: nat := 23
  const PEAK: nat := 16

  type Words = w: seq<nat> | |w| == 23 witness seq(23, _ => 0)

  function WordsOf(s: Snapshot): Words
    requires |s.c.byConfig| == CONFIGS
  {
    [s.rx, s.c.forwarded, s.c.cidRouted] + s.c.byConfig
    + [s.c.noServer, s.c.badServerId, s.c.fallback, s.c.draining, s.c.icmp, s.c.passed, s.peak,
       s.c.seen, s.c.issued, s.c.validated, s.c.invalid, s.c.expired, s.c.parseErrors]
  }

  function SnapshotOf(w: Words): (s: Snapshot)
    ensures |s.c.byConfig| == CONFIGS
  {
    Snapshot(w[0],
             Counters(w[1], w[2], w[3..10], w[12], w[10], w[11], w[13], w[14], w[15],
                      w[17], w[18], w[19], w[20], w[21], w[22]),
             w[PEAK])
  }

  /** The adds of `flush`, in its own order: add `i` goes to word `Target(i)`. */
  const ADDS: nat := 21

  function Target(i: nat): nat {
    if i <= 8 then i + 1 else if i == 9 then 12 else if i <= 11 then i else if i <= 14 then i + 1 else i + 2
  }

  /** Word `k` is one of those, and its add comes at `done` or later. */
  predicate Remains(k: nat, done: nat) {
    && k != 0 && k != PEAK
    && done <= if k <= 9 then k - 1 else if k == 12 then 9 else if k <= 11 then k else if k <= 15 then k - 1 else k - 2
  }

  // ---------------------------------------------------------------- machine

  /** Where a worker is in its loop: between batches, with `n` frames received and not yet
      flushed, or `done` adds into its flush. */
  datatype Work = Idle | Dispatching(n: nat) | Flushing(batch: Counters, done: nat)

  datatype Slot = Slot(words: Words, work: Work)

  /** All slots, and what the report in progress has loaded so far. */
  datatype World = World(slots: seq<Slot>, loads: seq<nat>)

  datatype Step =
    | Receive(w: nat, n: nat)
    | Deepen(w: nat, depth: nat)
    | BeginFlush(w: nat, batch: Counters)
    | AddNext(w: nat)
    | EndFlush(w: nat)
    | BeginRead
    | LoadNext

  predicate Reads(step: Step) { step.BeginRead? || step.LoadNext? }

  /** A batch is flushed with books that balance against its frames: that is what
      `Dispatch.TotalsBalanced` proves of every batch. */
  predicate CanWork(work: Work, step: Step) {
    match step
    case Receive(_, _) => work.Idle?
    case BeginFlush(_, batch) => work.Dispatching? && Balanced(batch, work.n)
    case AddNext(_) => work.Flushing? && work.done < ADDS && |work.batch.byConfig| == CONFIGS
    case EndFlush(_) => work.Flushing? && work.done == ADDS
    case _ => true
  }

  predicate Can(s: World, step: Step) {
    match step
    case BeginRead => true
    case LoadNext => |s.loads| < |s.slots| * WORDS
    case _ => step.w < |s.slots| && CanWork(s.slots[step.w].work, step)
  }

  /** The words a batch adds; where it has nothing to add the code skips the store. */
  function BatchWords(batch: Counters): Words
    requires |batch.byConfig| == CONFIGS
  {
    WordsOf(Snapshot(0, batch, 0))
  }

  function Worked(s: Slot, step: Step): Slot
    requires !Reads(step) && CanWork(s.work, step)
  {
    match step
    case Receive(_, n) => Slot(s.words[0 := s.words[0] + n], Dispatching(n))
    case Deepen(_, depth) => s.(words := s.words[PEAK := if depth > s.words[PEAK] then depth else s.words[PEAK]])
    case BeginFlush(_, batch) => s.(work := Flushing(batch, 0))
    case AddNext(_) =>
      var k := Target(s.work.done);
      Slot(s.words[k := s.words[k] + BatchWords(s.work.batch)[k]], s.work.(done := s.work.done + 1))
    case EndFlush(_) => s.(work := Idle)
  }

  function WordAt(s: World, p: nat): nat
    requires p < |s.slots| * WORDS
  {
    s.slots[p / WORDS].words[p % WORDS]
  }

  function Do(s: World, step: Step): World
    requires Can(s, step)
  {
    match step
    case BeginRead => s.(loads := [])
    case LoadNext => s.(loads := s.loads + [WordAt(s, |s.loads|)])
    case _ => s.(slots := s.slots[step.w := Worked(s.slots[step.w], step)])
  }

  predicate Start(s: World) {
    s.loads == [] && forall w :: 0 <= w < |s.slots| ==> s.slots[w] == Slot(seq(WORDS, _ => 0), Idle)
  }

  predicate IsRun(run: seq<World>, steps: seq<Step>) {
    && |run| == |steps| + 1 && Start(run[0])
    && forall i :: 0 <= i < |steps| ==> Can(run[i], steps[i]) && run[i + 1] == Do(run[i], steps[i])
  }

  // ------------------------------------------------- books between flushes

  /** The words once the flush in progress is through. */
  function Completed(words: Words, batch: Counters, done: nat): Words
    requires |batch.byConfig| == CONFIGS
  {
    seq(WORDS, k requires 0 <= k < WORDS => words[k] + if Remains(k, done) then BatchWords(batch)[k] else 0)
  }

  /** A slot's books balance against all it received, or all but the frames of the batch
      being dispatched; in mid-flush, once the adds still to come are counted. */
  predicate Kept(s: Slot) {
    match s.work
    case Idle => Balanced(SnapshotOf(s.words).c, s.words[0])
    case Dispatching(n) => n <= s.words[0] && Balanced(SnapshotOf(s.words).c, s.words[0] - n)
    case Flushing(batch, done) =>
      |batch.byConfig| == CONFIGS && Balanced(SnapshotOf(Completed(s.words, batch, done)).c, s.words[0])
  }

  lemma SameCounters(a: Words, b: Words)
    requires forall k :: 0 < k < WORDS && k != PEAK ==> a[k] == b[k]
    ensures SnapshotOf(a).c == SnapshotOf(b).c
  {
    assert a[3..10] == b[3..10];
  }

  lemma BatchRoundTrip(batch: Counters)
    requires |batch.byConfig| == CONFIGS
    ensures SnapshotOf(BatchWords(batch)) == Snapshot(0, batch, 0)
  {
    assert BatchWords(batch)[3..10] == batch.byConfig;
  }

  lemma CountersAdd(a: Words, b: Words, sum: Words)
    requires forall k :: 0 < k < WORDS && k != PEAK ==> sum[k] == a[k] + b[k]
    ensures SnapshotOf(sum).c == Plus(SnapshotOf(a).c, SnapshotOf(b).c)
  {
    assert sum[3..10] == PlusEach(a[3..10], b[3..10]);
  }

  /** The adds one by one come to what the flush as a whole is specified to do. */
  lemma FlushAdds(words: Words, batch: Counters)
    requires |batch.byConfig| == CONFIGS
    ensures SnapshotOf(Completed(words, batch, 0))
         == Snapshot(words[0], Plus(SnapshotOf(words).c, batch), words[PEAK])
  {
    hide WordsOf, Plus, PlusEach;
    BatchRoundTrip(batch);
    CountersAdd(words, BatchWords(batch), Completed(words, batch, 0));
  }

  lemma FlushBegins(words: Words, batch: Counters, rx: nat, n: nat)
    requires Balanced(SnapshotOf(words).c, rx) && Balanced(batch, n)
    ensures Balanced(SnapshotOf(Completed(words, batch, 0)).c, rx + n)
  {
    hide Balanced, SnapshotOf, Completed, Plus;
    BalancedSize(batch, n);
    FlushAdds(words, batch);
    PlusBalanced(SnapshotOf(words).c, rx, batch, n);
  }

  lemma BalancedSize(c: Counters, rx: nat)
    requires Balanced(c, rx)
    ensures |c.byConfig| == CONFIGS
  {
    hide L.Sum;
  }

  lemma AddCompletes(words: Words, batch: Counters, done: nat)
    requires |batch.byConfig| == CONFIGS && done < ADDS
    ensures var k := Target(done);
            k < WORDS && Completed(words[k := words[k] + BatchWords(batch)[k]], batch, done + 1)
                      == Completed(words, batch, done)
  {
    hide BatchWords;
  }

  lemma NothingRemains(words: Words, batch: Counters)
    requires |batch.byConfig| == CONFIGS
    ensures Completed(words, batch, ADDS) == words
  {
    hide BatchWords;
  }

  lemma WorkKeeps(s: Slot, step: Step)
    requires Kept(s) && !Reads(step) && CanWork(s.work, step)
    ensures Kept(Worked(s, step))
  {
    hide Balanced, SnapshotOf, Completed, BatchWords, Target;
    var s' := Worked(s, step);
    match step
    case Receive(_, _) => SameCounters(s.words, s'.words);
    case Deepen(_, _) =>
      SameCounters(s.words, s'.words);
      if s.work.Flushing? { DeepenCompletes(s.words, s'.words, s.work.batch, s.work.done); }
    case BeginFlush(_, batch) =>
      BalancedSize(batch, s.work.n);
      FlushBegins(s.words, batch, s.words[0] - s.work.n, s.work.n);
    case AddNext(_) =>
      AddCompletes(s.words, s.work.batch, s.work.done);
      TargetIsCounter(s.work.done);
    case EndFlush(_) => NothingRemains(s.words, s.work.batch);
  }

  lemma TargetIsCounter(i: nat)
    requires i < ADDS
    ensures 0 < Target(i) < WORDS && Target(i) != PEAK
  {
  }

  lemma DeepenCompletes(words: Words, words': Words, batch: Counters, done: nat)
    requires |batch.byConfig| == CONFIGS && forall k :: 0 <= k < WORDS && k != PEAK ==> words[k] == words'[k]
    ensures SnapshotOf(Completed(words, batch, done)).c == SnapshotOf(Completed(words', batch, done)).c
  {
    hide SnapshotOf, BatchWords;
    SameCounters(Completed(words, batch, done), Completed(words', batch, done));
  }

  lemma StartKept()
    ensures Kept(Slot(seq(WORDS, _ => 0), Idle))
  {
    hide Balanced, ZERO;
    var w: Words := seq(WORDS, _ => 0);
    assert SnapshotOf(w).c == ZERO by { ZeroWords(w); }
    ZeroBalanced();
  }

  lemma ZeroWords(w: Words)
    requires forall k :: 0 <= k < WORDS ==> w[k] == 0
    ensures SnapshotOf(w).c == ZERO
  {
    assert w[3..10] == ZEROS;
  }

  /** In every run, whatever the others do, a slot's books balance against the frames it
      received between batches, and against all but the current batch until that is
      flushed. Only a flush in progress shows books that do not balance, and they do once
      its remaining adds are counted. */
  lemma {:induction false} BooksBetweenFlushes(run: seq<World>, steps: seq<Step>, i: nat, w: nat)
    requires IsRun(run, steps) && i < |run| && w < |run[i].slots|
    ensures Kept(run[i].slots[w])
  {
    hide Kept, Worked, CanWork;
    if i == 0 {
      StartKept();
    } else {
      var s, step := run[i - 1], steps[i - 1];
      assert run[i] == Do(s, step);
      BooksBetweenFlushes(run, steps, i - 1, w);
      if !Reads(step) && step.w == w { WorkKeeps(s.slots[w], step); }
    }
  }

  // ------------------------------------------------------- reading the words

  lemma WorkGrows(s: Slot, step: Step, k: nat)
    requires !Reads(step) && CanWork(s.work, step) && k < WORDS
    ensures s.words[k] <= Worked(s, step).words[k]
  {
    hide BatchWords;
  }

  lemma StepGrows(s: World, step: Step, p: nat)
    requires Can(s, step) && p < |s.slots| * WORDS
    ensures |Do(s, step).slots| == |s.slots| && WordAt(s, p) <= WordAt(Do(s, step), p)
  {
    hide Worked, CanWork;
    if !Reads(step) { WorkGrows(s.slots[step.w], step, p % WORDS); }
  }

  lemma {:induction false} WordsGrow(run: seq<World>, steps: seq<Step>, i: nat, j: nat, p: nat)
    requires IsRun(run, steps) && i <= j < |run| && p < |run[i].slots| * WORDS
    ensures |run[j].slots| == |run[i].slots| && WordAt(run[i], p) <= WordAt(run[j], p)
    decreases j
  {
    hide WordAt, Do, Can;
    if i < j {
      WordsGrow(run, steps, i, j - 1, p);
      assert run[j] == Do(run[j - 1], steps[j - 1]);
      StepGrows(run[j - 1], steps[j - 1], p);
    }
  }

  lemma {:induction false} SameWorkers(run: seq<World>, steps: seq<Step>, i: nat, j: nat)
    requires IsRun(run, steps) && i <= j < |run|
    ensures |run[j].slots| == |run[i].slots|
    decreases j
  {
    hide Worked, CanWork, WordAt;
    if i < j {
      SameWorkers(run, steps, i, j - 1);
      assert run[j] == Do(run[j - 1], steps[j - 1]);
    }
  }

  /** One report, from before its first load to state `j`; workers may act at any time. */
  predicate Reading(run: seq<World>, steps: seq<Step>, i: nat, j: nat) {
    && IsRun(run, steps) && i <= j < |run| && run[i].loads == []
    && forall k :: i <= k < j ==> !steps[k].BeginRead?
  }

  /** What was loaded of a word lies between its values at the start of the report and
      now. */
  lemma {:induction false} LoadsBounded(run: seq<World>, steps: seq<Step>, i: nat, j: nat, p: nat)
    requires Reading(run, steps, i, j) && p < |run[j].loads|
    ensures |run[j].slots| == |run[i].slots| && p < |run[j].slots| * WORDS
    ensures WordAt(run[i], p) <= run[j].loads[p] <= WordAt(run[j], p)
    decreases j
  {
    hide WordAt, Worked, CanWork;
    var s, step := run[j - 1], steps[j - 1];
    assert run[j] == Do(s, step);
    SameWorkers(run, steps, i, j - 1);
    if p < |s.loads| {
      LoadsBounded(run, steps, i, j - 1, p);
      StepGrows(s, step, p);
    } else {
      WordsGrow(run, steps, i, j - 1, p);
      StepGrows(s, step, p);
    }
  }

  // ------------------------------------------------------------ whole reports

  predicate Below(a: Snapshot, b: Snapshot) {
    && a.rx <= b.rx && a.peak <= b.peak && CountersBelow(a.c, b.c)
  }

  predicate CountersBelow(a: Counters, b: Counters) {
    && a.forwarded <= b.forwarded && a.cidRouted <= b.cidRouted && a.fallback <= b.fallback
    && a.noServer <= b.noServer && a.badServerId <= b.badServerId && a.draining <= b.draining
    && a.icmp <= b.icmp && a.passed <= b.passed && a.seen <= b.seen && a.issued <= b.issued
    && a.validated <= b.validated && a.invalid <= b.invalid && a.expired <= b.expired
    && a.parseErrors <= b.parseErrors
    && |a.byConfig| == |b.byConfig| && forall i :: 0 <= i < |a.byConfig| ==> a.byConfig[i] <= b.byConfig[i]
  }

  lemma WordsBelow(a: Words, b: Words)
    requires forall k :: 0 <= k < WORDS ==> a[k] <= b[k]
    ensures Below(SnapshotOf(a), SnapshotOf(b))
  {
  }

  lemma JoinedBelow(t: Snapshot, s: Snapshot, t': Snapshot, s': Snapshot)
    requires Below(t, t') && Below(s, s') && |t.c.byConfig| == |s.c.byConfig|
    ensures Below(Joined(t, s), Joined(t', s'))
  {
  }

  lemma {:induction false} AggregatedBelow(a: seq<Snapshot>, b: seq<Snapshot>)
    requires Sized(a) && Sized(b) && |a| == |b| && forall i :: 0 <= i < |a| ==> Below(a[i], b[i])
    ensures Below(Aggregated(a), Aggregated(b))
  {
    hide Joined, Below, ZERO;
    if a == [] {
      BelowSelf(Aggregated(a));
    } else {
      var n := |a| - 1;
      AggregatedBelow(a[..n], b[..n]);
      JoinedBelow(Aggregated(a[..n]), a[n], Aggregated(b[..n]), b[n]);
    }
  }

  lemma BelowSelf(a: Snapshot)
    ensures Below(a, a)
  {
  }

  lemma BelowTransitive(a: Snapshot, b: Snapshot, c: Snapshot)
    requires Below(a, b) && Below(b, c)
    ensures Below(a, c)
  {
  }

  lemma BelowAntisymmetric(a: Snapshot, b: Snapshot)
    requires Below(a, b) && Below(b, a)
    ensures a == b
  {
    assert a.c.byConfig == b.c.byConfig;
  }

  /** What the slots hold, and what a complete report loaded of each. */
  function Shown(s: World): (r: seq<Snapshot>)
    ensures |r| == |s.slots| && Sized(r)
  {
    seq(|s.slots|, w requires 0 <= w < |s.slots| => SnapshotOf(s.slots[w].words))
  }

  predicate Complete(s: World) { |s.loads| == |s.slots| * WORDS }

  function Loaded(s: World): (r: seq<Snapshot>)
    requires Complete(s)
    ensures |r| == |s.slots| && Sized(r)
  {
    seq(|s.slots|, w requires 0 <= w < |s.slots| => SnapshotOf(s.loads[w * WORDS..w * WORDS + WORDS]))
  }

  lemma WordOfSlot(s: World, w: nat, k: nat)
    requires w < |s.slots| && k < WORDS
    ensures w * WORDS + k < |s.slots| * WORDS && WordAt(s, w * WORDS + k) == s.slots[w].words[k]
  {
  }

  lemma SlotBounded(run: seq<World>, steps: seq<Step>, i: nat, j: nat, w: nat)
    requires Reading(run, steps, i, j) && Complete(run[j]) && w < |run[j].slots|
    ensures |run[i].slots| == |run[j].slots|
    ensures Below(Shown(run[i])[w], Loaded(run[j])[w]) && Below(Loaded(run[j])[w], Shown(run[j])[w])
  {
    hide WordAt, Below, SnapshotOf, IsRun;
    SameWorkers(run, steps, i, j);
    var got: Words := run[j].loads[w * WORDS..w * WORDS + WORDS];
    forall k: nat | k < WORDS ensures run[i].slots[w].words[k] <= got[k] <= run[j].slots[w].words[k] {
      WordOfSlot(run[i], w, k);
      WordOfSlot(run[j], w, k);
      LoadsBounded(run, steps, i, j, w * WORDS + k);
    }
    WordsBelow(run[i].slots[w].words, got);
    WordsBelow(got, run[j].slots[w].words);
  }

  /** A report lies, counter by counter, between the totals when it began and when it
      ended. */
  lemma ReportBounded(run: seq<World>, steps: seq<Step>, i: nat, j: nat)
    requires Reading(run, steps, i, j) && Complete(run[j])
    ensures Below(Aggregated(Shown(run[i])), Aggregated(Loaded(run[j])))
    ensures Below(Aggregated(Loaded(run[j])), Aggregated(Shown(run[j])))
  {
    hide Below, Shown, Loaded, Aggregated, IsRun;
    SameWorkers(run, steps, i, j);
    forall w: nat | w < |run[j].slots|
      ensures Below(Shown(run[i])[w], Loaded(run[j])[w]) && Below(Loaded(run[j])[w], Shown(run[j])[w])
    {
      SlotBounded(run, steps, i, j, w);
    }
    AggregatedBelow(Shown(run[i]), Loaded(run[j]));
    AggregatedBelow(Loaded(run[j]), Shown(run[j]));
  }

  lemma KeptIsSettled(s: Slot)
    requires Kept(s) && !s.work.Flushing?
    ensures Settled(SnapshotOf(s.words))
  {
    hide L.Sum;
  }

  /** So a report during which no worker stores anything is the state itself, and its
      books balance if no worker is inside its flush. */
  lemma QuietReport(run: seq<World>, steps: seq<Step>, i: nat, j: nat)
    requires Reading(run, steps, i, j) && Complete(run[j]) && Shown(run[i]) == Shown(run[j])
    ensures Aggregated(Loaded(run[j])) == Aggregated(Shown(run[j]))
    ensures (forall w :: 0 <= w < |run[j].slots| ==> !run[j].slots[w].work.Flushing?) ==>
              Settled(Aggregated(Loaded(run[j])))
  {
    hide Below, Loaded, Aggregated, IsRun, Settled, Kept, SnapshotOf;
    ReportBounded(run, steps, i, j);
    BelowAntisymmetric(Aggregated(Shown(run[i])), Aggregated(Loaded(run[j])));
    if forall w :: 0 <= w < |run[j].slots| ==> !run[j].slots[w].work.Flushing? {
      forall w: nat | w < |run[j].slots| ensures Settled(Shown(run[j])[w]) {
        BooksBetweenFlushes(run, steps, j, w);
        KeptIsSettled(run[j].slots[w]);
      }
      AggregateSettled(Shown(run[j]));
    }
  }

  predicate SameCounts(a: Snapshot, b: Snapshot) { a.rx == b.rx && a.c == b.c }

  lemma SnapshotsSame(a: Words, b: Words)
    ensures SameCounts(SnapshotOf(a), SnapshotOf(b)) <==> forall k :: 0 <= k < WORDS && k != PEAK ==> a[k] == b[k]
  {
    if SameCounts(SnapshotOf(a), SnapshotOf(b)) {
      assert forall k :: 3 <= k < 10 ==> a[k] == a[3..10][k - 3] && b[k] == b[3..10][k - 3];
    } else if forall k :: 0 <= k < WORDS && k != PEAK ==> a[k] == b[k] {
      SameCounters(a, b);
    }
  }

  lemma EachSame(a: seq<nat>, b: seq<nat>, a': seq<nat>, b': seq<nat>)
    requires |a| == |b| == |a'| == |b'|
    requires forall i :: 0 <= i < |a| ==> a[i] <= a'[i] && b[i] <= b'[i]
    ensures PlusEach(a, b) == PlusEach(a', b') <==> a == a' && b == b'
  {
    if PlusEach(a, b) == PlusEach(a', b') {
      forall i | 0 <= i < |a| ensures a[i] == a'[i] && b[i] == b'[i] {
        assert PlusEach(a, b)[i] == PlusEach(a', b')[i];
      }
    }
  }

  lemma JoinedSame(t: Snapshot, s: Snapshot, t': Snapshot, s': Snapshot)
    requires Below(t, t') && Below(s, s') && |t.c.byConfig| == |s.c.byConfig|
    ensures SameCounts(Joined(t, s), Joined(t', s')) <==> SameCounts(t, t') && SameCounts(s, s')
  {
    hide PlusEach;
    EachSame(t.c.byConfig, s.c.byConfig, t'.c.byConfig, s'.c.byConfig);
  }

  predicate AllSame(a: seq<Snapshot>, b: seq<Snapshot>)
    requires |a| == |b|
  {
    forall i :: 0 <= i < |a| ==> SameCounts(a[i], b[i])
  }

  lemma AllSameStep(a: seq<Snapshot>, b: seq<Snapshot>)
    requires |a| == |b|
    ensures AllSame(a, b) <==>
            a == [] || (AllSame(a[..|a| - 1], b[..|a| - 1]) && SameCounts(a[|a| - 1], b[|a| - 1]))
  {
    hide SameCounts;
    if a != [] {
      var n := |a| - 1;
      assert forall i :: 0 <= i < n ==> a[..n][i] == a[i] && b[..n][i] == b[i];
    }
  }

  lemma {:induction false} AggregatedSame(a: seq<Snapshot>, b: seq<Snapshot>)
    requires Sized(a) && Sized(b) && |a| == |b| && forall i :: 0 <= i < |a| ==> Below(a[i], b[i])
    ensures SameCounts(Aggregated(a), Aggregated(b)) <==> AllSame(a, b)
  {
    hide Joined, Below, SameCounts, AllSame, ZERO;
    AllSameStep(a, b);
    if a == [] {
      SameSelf(Aggregated(a));
    } else {
      var n := |a| - 1;
      AggregatedSame(a[..n], b[..n]);
      AggregatedBelow(a[..n], b[..n]);
      JoinedSame(Aggregated(a[..n]), a[n], Aggregated(b[..n]), b[n]);
    }
  }

  lemma SameSelf(a: Snapshot)
    ensures SameCounts(a, a)
  {
  }

  /** What was loaded of slot `w`, except its peak, is what it held in state `i`. */
  predicate LoadedAsAt(run: seq<World>, i: nat, j: nat, w: nat)
    requires i < |run| && j < |run| && Complete(run[j]) && |run[i].slots| == |run[j].slots| && w < |run[j].slots|
  {
    var got: Words := run[j].loads[w * WORDS..w * WORDS + WORDS];
    forall k :: 0 <= k < WORDS && k != PEAK ==> got[k] == run[i].slots[w].words[k]
  }

  /** A report counts what there was when it began exactly when no worker had added to a
      counter before it was loaded. */
  lemma StartReportExactly(run: seq<World>, steps: seq<Step>, i: nat, j: nat)
    requires Reading(run, steps, i, j) && Complete(run[j])
    ensures |run[i].slots| == |run[j].slots|
    ensures SameCounts(Aggregated(Shown(run[i])), Aggregated(Loaded(run[j]))) <==>
            forall w :: 0 <= w < |run[j].slots| ==> LoadedAsAt(run, i, j, w)
  {
    hide Below, SnapshotOf, SameCounts, Aggregated, IsRun;
    SameWorkers(run, steps, i, j);
    forall w: nat | w < |run[j].slots|
      ensures Below(Shown(run[i])[w], Loaded(run[j])[w])
      ensures SameCounts(Shown(run[i])[w], Loaded(run[j])[w]) <==> LoadedAsAt(run, i, j, w)
    {
      SlotBounded(run, steps, i, j, w);
      SnapshotsSame(run[i].slots[w].words, run[j].loads[w * WORDS..w * WORDS + WORDS]);
    }
    AggregatedSame(Shown(run[i]), Loaded(run[j]));
  }

  /** A report in progress can be finished, the workers at rest. */
  lemma {:induction false} Finished(run: seq<World>, steps: seq<Step>, i: nat)
    returns (run': seq<World>, steps': seq<Step>)
    requires Reading(run, steps, i, |steps|) && |run[|steps|].loads| <= |run[|steps|].slots| * WORDS
    ensures run <= run' && steps <= steps' && Reading(run', steps', i, |steps'|) && Complete(run'[|steps'|])
    ensures run[|steps|].loads <= run'[|steps'|].loads && run'[|steps'|].slots == run[|steps|].slots
    decreases |run[|steps|].slots| * WORDS - |run[|steps|].loads|
  {
    hide Start, WordAt, Worked, CanWork;
    run', steps' := run, steps;
    var s := run[|steps|];
    if !Complete(s) {
      run', steps' := Finished(run + [Do(s, LoadNext)], steps + [LoadNext], i);
    }
  }

  /** One frame, forwarded from the fallback pool. */
  const ONE_FORWARD: Counters := Counters(1, 0, ZEROS, 1, 0, 0, 0, 0, 0, 0, 0, 0, 0, 0, 0)

  lemma OneForwardBalanced()
    ensures Balanced(ONE_FORWARD, 1)
  {
    hide L.Sum;
    SumZero(ZEROS);
  }

  lemma TornLoads() returns (run: seq<World>, steps: seq<Step>)
    ensures Reading(run, steps, 0, |steps|) && |run[|steps|].slots| == 1 && run[|steps|].loads == [0, 1]
  {
    hide Balanced;
    OneForwardBalanced();
    var s0 := World([Slot(seq(WORDS, _ => 0), Idle)], []);
    var s1 := Do(s0, LoadNext);
    var s2 := Do(s1, Receive(0, 1));
    var s3 := Do(s2, BeginFlush(0, ONE_FORWARD));
    var s4 := Do(s3, AddNext(0));
    run := [s0, s1, s2, s3, s4, Do(s4, LoadNext)];
    steps := [LoadNext, Receive(0, 1), BeginFlush(0, ONE_FORWARD), AddNext(0), LoadNext];
    assert s4.slots[0].words[1] == 1;
  }

  /** And otherwise it need not be the state at any point in time: `rx_packets` is loaded first, so a batch
      that arrives and is flushed right after is reported as forwarded and not received. */
  lemma TornReport() returns (run: seq<World>, steps: seq<Step>, total: Snapshot)
    ensures Reading(run, steps, 0, |steps|) && Complete(run[|steps|]) && total == Aggregated(Loaded(run[|steps|]))
    ensures total.rx == 0 && total.c.forwarded == 1
  {
    hide IsRun, ZERO, PlusEach;
    run, steps := TornLoads();
    run, steps := Finished(run, steps, 0);
    var s := run[|steps|];
    total := Aggregated(Loaded(s));
    assert Loaded(s)[..0] == [];
    assert s.loads[0] == 0 && s.loads[1] == 1;
    ZeroCounts();
  }

  lemma ZeroCounts()
    ensures ZERO.forwarded == 0 && Aggregated([]) == Snapshot(0, ZERO, 0)
  {
  }

  // ---------------------------------------------------------------- deltas

  function WSub64(a: nat, b: nat): nat { (a - b) % T.U64 }

  /** `Snapshot::delta`; the peak is not a rate and is kept. */
  function Delta(cur: Snapshot, prev: Snapshot): Snapshot
    requires |cur.c.byConfig| == |prev.c.byConfig|
  {
    var c, p := cur.c, prev.c;
    Snapshot(WSub64(cur.rx, prev.rx),
             Counters(WSub64(c.forwarded, p.forwarded), WSub64(c.cidRouted, p.cidRouted),
                      seq(|c.byConfig|, i requires 0 <= i < |c.byConfig| => WSub64(c.byConfig[i], p.byConfig[i])),
                      WSub64(c.fallback, p.fallback), WSub64(c.noServer, p.noServer),
                      WSub64(c.badServerId, p.badServerId), WSub64(c.draining, p.draining),
                      WSub64(c.icmp, p.icmp), WSub64(c.passed, p.passed), WSub64(c.seen, p.seen),
                      WSub64(c.issued, p.issued), WSub64(c.validated, p.validated), WSub64(c.invalid, p.invalid),
                      WSub64(c.expired, p.expired), WSub64(c.parseErrors, p.parseErrors)),
             cur.peak)
  }

  /** Every counter is a `u64`. */
  predicate Fits(s: Snapshot) { s.rx < T.U64 && CountersBelow(s.c, MOST) }

  const MOST: Counters :=
    var m := T.U64 - 1;
    Counters(m, m, [m, m, m, m, m, m, m], m, m, m, m, m, m, m, m, m, m, m, m)

  lemma WSub64Exactly(a: nat, b: nat)
    requires a < T.U64 && b < T.U64
    ensures b + WSub64(a, b) == a <==> b <= a
  {
  }

  /** A delta adds up to the newer report exactly when no counter went back. */
  lemma DeltaExactly(cur: Snapshot, prev: Snapshot)
    requires Fits(cur) && Fits(prev)
    ensures prev.rx + Delta(cur, prev).rx == cur.rx && Plus(prev.c, Delta(cur, prev).c) == cur.c
       <==> prev.rx <= cur.rx && CountersBelow(prev.c, cur.c)
  {
    hide WSub64;
    var c, p := cur.c, prev.c;
    WSub64Exactly(cur.rx, prev.rx);
    WSub64Exactly(c.forwarded, p.forwarded);
    WSub64Exactly(c.cidRouted, p.cidRouted);
    WSub64Exactly(c.fallback, p.fallback);
    WSub64Exactly(c.noServer, p.noServer);
    WSub64Exactly(c.badServerId, p.badServerId);
    WSub64Exactly(c.draining, p.draining);
    WSub64Exactly(c.icmp, p.icmp);
    WSub64Exactly(c.passed, p.passed);
    WSub64Exactly(c.seen, p.seen);
    WSub64Exactly(c.issued, p.issued);
    WSub64Exactly(c.validated, p.validated);
    WSub64Exactly(c.invalid, p.invalid);
    WSub64Exactly(c.expired, p.expired);
    WSub64Exactly(c.parseErrors, p.parseErrors);
    EachExactly(c.byConfig, p.byConfig, Delta(cur, prev).c.byConfig);
  }

  lemma EachExactly(a: seq<nat>, b: seq<nat>, d: seq<nat>)
    requires |a| == |b| == |d| && forall i :: 0 <= i < |a| ==> a[i] < T.U64 && b[i] < T.U64
    requires forall i :: 0 <= i < |a| ==> d[i] == WSub64(a[i], b[i])
    ensures PlusEach(b, d) == a <==> forall i :: 0 <= i < |a| ==> b[i] <= a[i]
  {
    hide WSub64;
    forall i | 0 <= i < |a| ensures b[i] + d[i] == a[i] <==> b[i] <= a[i] { WSub64Exactly(a[i], b[i]); }
    if PlusEach(b, d) == a {
      forall i | 0 <= i < |a| ensures b[i] <= a[i] { assert PlusEach(b, d)[i] == a[i]; }
    }
  }

  /** Whatever the workers do during and between them, of two reports the later one is
      nowhere below the earlier, so the logged delta is the true difference. */
  lemma ReportsGrow(run: seq<World>, steps: seq<Step>, i: nat, j: nat, k: nat, l: nat)
    requires Reading(run, steps, i, j) && Complete(run[j]) && Reading(run, steps, k, l) && Complete(run[l]) && j <= k
    ensures Below(Aggregated(Loaded(run[j])), Aggregated(Loaded(run[l])))
    ensures var prev, cur := Aggregated(Loaded(run[j])), Aggregated(Loaded(run[l]));
            Fits(cur) ==> prev.rx + Delta(cur, prev).rx == cur.rx && Plus(prev.c, Delta(cur, prev).c) == cur.c
  {
    hide Shown, Loaded, Aggregated, IsRun, CountersBelow, Delta, Plus, Complete;
    ReportBounded(run, steps, i, j);
    ReportBounded(run, steps, k, l);
    ShownGrows(run, steps, j, k);
    var prev, cur := Aggregated(Loaded(run[j])), Aggregated(Loaded(run[l]));
    BelowTransitive(prev, Aggregated(Shown(run[j])), Aggregated(Shown(run[k])));
    BelowTransitive(prev, Aggregated(Shown(run[k])), cur);
    if Fits(cur) {
      FitsBelow(prev, cur);
      DeltaExactly(cur, prev);
    }
  }

  lemma FitsBelow(a: Snapshot, b: Snapshot)
    requires Below(a, b) && Fits(b)
    ensures Fits(a)
  {
  }

  lemma ShownGrows(run: seq<World>, steps: seq<Step>, j: nat, k: nat)
    requires IsRun(run, steps) && j <= k < |run|
    ensures Below(Aggregated(Shown(run[j])), Aggregated(Shown(run[k])))
  {
    hide WordAt, Below, SnapshotOf, IsRun, Aggregated;
    SameWorkers(run, steps, j, k);
    forall w: nat | w < |run[j].slots| ensures Below(Shown(run[j])[w], Shown(run[k])[w]) {
      forall n: nat | n < WORDS ensures run[j].slots[w].words[n] <= run[k].slots[w].words[n] {
        WordOfSlot(run[j], w, n);
        WordOfSlot(run[k], w, n);
        WordsGrow(run, steps, j, k, w * WORDS + n);
      }
      WordsBelow(run[j].slots[w].words, run[k].slots[w].words);
    }
    AggregatedBelow(Shown(run[j]), Shown(run[k]));
  }
}
