/**
  The AF_XDP single-producer/single-consumer ring, as a protocol between two
  parties that interleave freely. One party is the daemon, the other the kernel;
  both follow the same discipline, so each ring is this protocol with the roles
  assigned one way or the other.

  A produce is split into the loads of the index words, one store per slot and
  the publishing store of `producer`; a consume likewise. Index words are `u32`
  and wrap. The state also records every entry ever published and ever released,
  so that properties of whole histories can be stated.
 */
module RingProtocol {
  import opened Bits

  /** `w & mask` with `mask = size - 1`. */
  function Masked(w: nat, size: nat): nat
    requires size > 0
  {
    And(w, size - 1)
  }

  datatype Producer<T> =
    | ProducerIdle
    | Writing(entries: seq<T>, prod0: nat, n: nat, written: nat)

  datatype Consumer<T> =
    | ConsumerIdle
    | Reading(cons0: nat, n: nat, out: seq<T>)

  datatype Ring<T> = Ring(
    order: nat,          // size is 2^order
    slots: seq<T>,       // descriptor array
    prod: nat,           // shared `producer` word
    cons: nat,           // shared `consumer` word
    producer: Producer<T>,
    consumer: Consumer<T>,
    start: nat,          // where the indices stood when the history began
    sent: seq<T>,        // everything published so far
    recv: seq<T>)        // everything released so far
  {
    function Size(): nat { Pow2(order) }

    /** Slot of index word `w`: `w & mask`. */
    function Slot(w: nat): nat { Masked(w, Size()) }

    /** The abstract queue: published and not yet released. */
    function Queue(): seq<T> {
      if |recv| <= |sent| then sent[|recv|..] else []
    }
  }

  // ---------------------------------------------------------------- steps

  datatype Step<T> =
    | BeginProduce(offer: seq<T>)
    | WriteSlot
    | PublishProduce
    | BeginConsume(room: nat)
    | ReadSlot
    | PublishConsume

  /** When a party may take the step; the step itself does not test memory bounds. */
  predicate Enabled<T>(r: Ring<T>, step: Step<T>) {
    match step
    case BeginProduce(offer) => r.producer.ProducerIdle? && offer != []
    case WriteSlot => r.producer.Writing? && r.producer.written < r.producer.n
    case PublishProduce => r.producer.Writing? && r.producer.written == r.producer.n
    case BeginConsume(room) => r.consumer.ConsumerIdle? && room > 0
    case ReadSlot => r.consumer.Reading? && |r.consumer.out| < r.consumer.n
    case PublishConsume => r.consumer.Reading? && |r.consumer.out| == r.consumer.n
  }

  /** The step touches only the `size` slots of the array and the caller's buffer. */
  predicate InBounds<T>(r: Ring<T>, step: Step<T>)
    requires Enabled(r, step)
  {
    match step
    case WriteSlot => r.producer.written < |r.producer.entries|
                      && r.Slot(WAdd(r.producer.prod0, r.producer.written)) < |r.slots|
    case PublishProduce => r.producer.n <= |r.producer.entries|
    case ReadSlot => r.Slot(WAdd(r.consumer.cons0, |r.consumer.out|)) < |r.slots|
    case _ => true
  }

  function Apply<T>(r: Ring<T>, step: Step<T>): Ring<T>
    requires Enabled(r, step) && InBounds(r, step)
  {
    match step
    case BeginProduce(offer) =>
      var free := WSub(r.Size(), WSub(r.prod, r.cons));
      r.(producer := Writing(offer, r.prod, Min(free, |offer|), 0))
    case WriteSlot =>
      var p := r.producer;
      r.(slots := r.slots[r.Slot(WAdd(p.prod0, p.written)) := p.entries[p.written]],
         producer := p.(written := p.written + 1))
    case PublishProduce =>
      var p := r.producer;
      r.(prod := WAdd(p.prod0, p.n), producer := ProducerIdle, sent := r.sent + p.entries[..p.n])
    case BeginConsume(room) =>
      var available := WSub(r.prod, r.cons);
      r.(consumer := Reading(r.cons, Min(available, room), []))
    case ReadSlot =>
      var c := r.consumer;
      r.(consumer := c.(out := c.out + [r.slots[r.Slot(WAdd(c.cons0, |c.out|))]]))
    case PublishConsume =>
      var c := r.consumer;
      r.(cons := WAdd(c.cons0, c.n), consumer := ConsumerIdle, recv := r.recv + c.out)
  }

  /** One step of either party. A step out of bounds could lead anywhere. */
  ghost predicate Next<T(!new)>(r: Ring<T>, r': Ring<T>) {
    exists step :: Enabled(r, step) && (InBounds(r, step) ==> r' == Apply(r, step))
  }

  /** An idle ring whose two words agree, wherever they stand. */
  ghost predicate Init<T>(r: Ring<T>) {
    && r.order < 32 && |r.slots| == r.Size()
    && r.producer.ProducerIdle? && r.consumer.ConsumerIdle?
    && r.sent == [] && r.recv == []
    && r.prod == r.cons == r.start % WORD
  }

  ghost predicate IsRun<T(!new)>(run: seq<Ring<T>>) {
    && run != [] && Init(run[0])
    && forall i :: 0 <= i < |run| - 1 ==> Next(run[i], run[i + 1])
  }

  // ------------------------------------------------------------ invariant

  ghost predicate Shape<T>(r: Ring<T>) {
    && r.order < 32 && |r.slots| == r.Size()
    && r.recv <= r.sent && |r.sent| - |r.recv| <= r.Size()
    && r.prod == (r.start + |r.sent|) % WORD
    && r.cons == (r.start + |r.recv|) % WORD
  }

  /** Slot that history position `j` occupies. */
  ghost function At<T>(r: Ring<T>, j: nat): nat {
    (r.start + j) % r.Size()
  }

  /** Published, unreleased entries are still in their slots. */
  ghost predicate Intact<T>(r: Ring<T>)
    requires |r.slots| == r.Size() && |r.recv| <= |r.sent|
  {
    forall j: nat :: |r.recv| <= j < |r.sent| ==> r.slots[At(r, j)] == r.sent[j]
  }

  ghost predicate ProducerOk<T>(r: Ring<T>)
    requires Shape(r)
  {
    r.producer.Writing? ==>
      var p := r.producer;
      && p.prod0 == r.prod && p.written <= p.n <= |p.entries|
      && |r.sent| + p.n - |r.recv| <= r.Size()
      && forall i: nat :: i < p.written ==> r.slots[At(r, |r.sent| + i)] == p.entries[i]
  }

  ghost predicate ConsumerOk<T>(r: Ring<T>)
    requires Shape(r)
  {
    r.consumer.Reading? ==>
      var c := r.consumer;
      && c.cons0 == r.cons && |c.out| <= c.n <= |r.sent| - |r.recv|
      && c.out == r.sent[|r.recv|..|r.recv| + |c.out|]
  }

  ghost predicate Inv<T>(r: Ring<T>) {
    Shape(r) && Intact(r) && ProducerOk(r) && ConsumerOk(r)
  }

  lemma Pow2OfWord() ensures Pow2(32) == WORD && Pow2(31) < WORD {
    assert Pow2(4) == 16;
    assert Pow2(8) == 256;
    assert Pow2(12) == 4096;
    assert Pow2(16) == 65_536;
    assert Pow2(20) == 0x10_0000;
    assert Pow2(24) == 0x100_0000;
    assert Pow2(28) == 0x1000_0000;
  }

  lemma SizeFits(order: nat)
    requires order < 32
    ensures Pow2(order) < WORD && WORD % Pow2(order) == 0
  {
    Pow2OfWord();
    hide *;
    Pow2Doubles(32, order);
    Pow2Doubles(31, order);
  }

  // --------------------------------------------------------------- proofs

  /** A wrapped index word, masked, is the slot of the unwrapped position. */
  lemma SlotOfWord<T>(r: Ring<T>, j: nat, i: nat)
    requires r.order < 32
    ensures r.Slot(WAdd((r.start + j) % WORD, i)) == At(r, j + i)
  {
    SizeFits(r.order);
    WordOfSum(r.start + j, i);
    MaskIsMod((r.start + j + i) % WORD, r.order);
    ModMod(r.start + j + i, WORD, r.Size());
  }

  /** The unsigned difference of the words is the queue length, across wrap-around. */
  lemma WordsMeasureQueue<T>(r: Ring<T>)
    requires Shape(r)
    ensures WSub(r.prod, r.cons) == |r.Queue()| <= r.Size()
    ensures WSub(r.Size(), WSub(r.prod, r.cons)) == r.Size() - |r.Queue()|
  {
    hide Pow2, WSub;
    SizeFits(r.order);
    WordDifference(r.start + |r.sent|, r.start + |r.recv|);
    WordSmall(r.Size(), |r.sent| - |r.recv|);
  }

  lemma InitInv<T>(r: Ring<T>)
    requires Init(r)
    ensures Inv(r)
  {
  }

  lemma WriteKeepsOthers<T>(r: Ring<T>, v: T, j: nat, k: nat)
    requires |r.slots| == r.Size() && |r.recv| <= j < k < |r.recv| + r.Size()
    ensures r.slots[At(r, k) := v][At(r, j)] == r.slots[At(r, j)]
  {
    ModDistinct(r.start + j, r.start + k, r.Size());
  }

  lemma WriteKeepsInv<T>(r: Ring<T>)
    requires Inv(r) && Enabled(r, WriteSlot)
    ensures InBounds(r, WriteSlot) && Inv(Apply(r, WriteSlot))
  {
    var p := r.producer;
    var k := |r.sent| + p.written;
    SlotOfWord(r, |r.sent|, p.written);
    var r' := Apply(r, WriteSlot);
    hide WAdd, WSub, Pow2, Masked;
    assert Wrote(r, r');
    WroteInv(r, r');
  }

  ghost predicate Wrote<T>(r: Ring<T>, r': Ring<T>)
    requires |r.slots| == r.Size() && r.producer.Writing? && r.producer.written < |r.producer.entries|
  {
    var p := r.producer;
    r' == r.(slots := r.slots[At(r, |r.sent| + p.written) := p.entries[p.written]],
             producer := p.(written := p.written + 1))
  }

  lemma SameSlots<T>(r: Ring<T>, r': Ring<T>)
    requires |r.slots| == r.Size() && r'.order == r.order && r'.start == r.start
    ensures r'.Size() == r.Size() && forall j: nat :: At(r', j) == At(r, j) < |r.slots|
  {
  }

  lemma WroteSlots<T>(r: Ring<T>, r': Ring<T>)
    requires |r.slots| == r.Size() && |r.recv| <= |r.sent| && r.producer.Writing?
    requires r.producer.written < |r.producer.entries| && |r.sent| + r.producer.written < |r.recv| + r.Size()
    requires Wrote(r, r')
    ensures var k := |r.sent| + r.producer.written;
            && (forall j: nat :: At(r', j) == At(r, j) < |r.slots|)
            && (forall j: nat :: |r.recv| <= j < k ==> r'.slots[At(r, j)] == r.slots[At(r, j)])
            && r'.slots[At(r, k)] == r.producer.entries[r.producer.written]
  {
    hide Pow2, At, Ring.Size;
    var p := r.producer;
    var k := |r.sent| + p.written;
    SameSlots(r, r');
    forall j: nat | |r.recv| <= j < k ensures r'.slots[At(r, j)] == r.slots[At(r, j)] {
      WriteKeepsOthers(r, p.entries[p.written], j, k);
    }
  }

  lemma WroteIntact<T>(r: Ring<T>, r': Ring<T>)
    requires Shape(r) && Intact(r) && ProducerOk(r) && Enabled(r, WriteSlot)
    requires r.producer.written < |r.producer.entries| && Wrote(r, r')
    ensures |r'.slots| == r'.Size() && Intact(r')
  {
    hide Pow2, At, Ring.Size;
    SameSlots(r, r');
    WroteSlots(r, r');
  }

  lemma WroteProducer<T>(r: Ring<T>, r': Ring<T>)
    requires Shape(r) && ProducerOk(r) && Enabled(r, WriteSlot)
    requires r.producer.written < |r.producer.entries| && Wrote(r, r')
    ensures Shape(r') && ProducerOk(r')
  {
    hide Pow2, At, Ring.Size;
    SameSlots(r, r');
    WroteSlots(r, r');
  }

  lemma WroteInv<T>(r: Ring<T>, r': Ring<T>)
    requires Inv(r) && Enabled(r, WriteSlot) && r.producer.written < |r.producer.entries| && Wrote(r, r')
    ensures Inv(r')
  {
    hide Pow2, At, Intact, ProducerOk, Ring.Size;
    WroteIntact(r, r');
    WroteProducer(r, r');
  }

  /** The producer's index store: what it wrote joins the queue. */
  ghost predicate Published<T>(r: Ring<T>, r': Ring<T>) {
    && r.producer.Writing? && r.producer.written == r.producer.n <= |r.producer.entries|
    && r' == r.(prod := r'.prod, producer := ProducerIdle, sent := r.sent + r.producer.entries[..r.producer.n])
  }

  lemma PublishedIntact<T>(r: Ring<T>, r': Ring<T>)
    requires Shape(r) && Intact(r) && ProducerOk(r) && Published(r, r')
    ensures Intact(r')
  {
    hide Pow2, At, Ring.Size;
    var p := r.producer;
    SameSlots(r, r');
    forall j: nat | |r'.recv| <= j < |r'.sent| ensures r'.slots[At(r', j)] == r'.sent[j] {
      if |r.sent| <= j {
        var i: nat := j - |r.sent|;
        assert r.slots[At(r, |r.sent| + i)] == p.entries[i];
      }
    }
  }

  lemma PublishedShape<T>(r: Ring<T>, r': Ring<T>)
    requires Shape(r) && ProducerOk(r) && ConsumerOk(r) && Published(r, r')
    requires r'.prod == (r.start + |r.sent| + r.producer.n) % WORD
    ensures Shape(r') && ProducerOk(r') && ConsumerOk(r')
  {
    hide Pow2, At, Ring.Size;
    SameSlots(r, r');
  }

  lemma PublishKeepsInv<T>(r: Ring<T>)
    requires Inv(r) && Enabled(r, PublishProduce)
    ensures InBounds(r, PublishProduce) && Inv(Apply(r, PublishProduce))
  {
    hide Pow2, WAdd, At, Intact, ConsumerOk, Ring.Size;
    WordOfSum(r.start + |r.sent|, r.producer.n);
    var r' := Apply(r, PublishProduce);
    PublishedShape(r, r');
    PublishedIntact(r, r');
  }

  lemma ReadKeepsInv<T>(r: Ring<T>)
    requires Inv(r) && Enabled(r, ReadSlot)
    ensures InBounds(r, ReadSlot) && Inv(Apply(r, ReadSlot))
  {
    hide WAdd, Pow2, At, Ring.Slot, Ring.Size;
    var k := |r.recv| + |r.consumer.out|;
    SlotOfWord(r, |r.recv|, |r.consumer.out|);
    SameSlots(r, r);
    assert r.slots[At(r, k)] == r.sent[k];
    var r' := Apply(r, ReadSlot);
    SameSlots(r, r');
  }

  lemma ReleaseKeepsInv<T>(r: Ring<T>)
    requires Inv(r) && Enabled(r, PublishConsume)
    ensures InBounds(r, PublishConsume) && Inv(Apply(r, PublishConsume))
  {
    hide WAdd, Pow2, At, Ring.Size;
    WordOfSum(r.start + |r.recv|, r.consumer.n);
    SameSlots(r, Apply(r, PublishConsume));
  }

  lemma StepKeepsInv<T>(r: Ring<T>, step: Step<T>)
    requires Inv(r) && Enabled(r, step)
    ensures InBounds(r, step) && Inv(Apply(r, step))
  {
    match step
    case WriteSlot => WriteKeepsInv(r);
    case PublishProduce => PublishKeepsInv(r);
    case BeginProduce(_) => WordsMeasureQueue(r);
    case BeginConsume(_) => WordsMeasureQueue(r);
    case ReadSlot => ReadKeepsInv(r);
    case PublishConsume => ReleaseKeepsInv(r);
  }

  lemma {:induction false} RunInv<T(!new)>(run: seq<Ring<T>>, i: nat)
    requires IsRun(run) && i < |run|
    ensures Inv(run[i])
  {
    if i == 0 {
      InitInv(run[0]);
    } else {
      RunInv(run, i - 1);
      var r := run[i - 1];
      assert Next(r, run[i]);
      var step :| Enabled(r, step) && (InBounds(r, step) ==> run[i] == Apply(r, step));
      StepKeepsInv(r, step);
    }
  }

  /** Safety of every ring in every state of every interleaving: what has been
      released is a prefix of what was published (in order, nothing lost, repeated
      or overwritten), the ring never holds more than its size, and the wrapping
      index words measure it exactly. */
  lemma RingSafety<T(!new)>(run: seq<Ring<T>>, i: nat)
    requires IsRun(run) && i < |run|
    ensures var r := run[i];
            && r.recv <= r.sent
            && |r.Queue()| <= r.Size()
            && WSub(r.prod, r.cons) == |r.Queue()|
            && (forall j :: 0 <= j < |r.Queue()| ==>
                 r.Slot(WAdd(r.cons, j)) < |r.slots| && r.slots[r.Slot(WAdd(r.cons, j))] == r.Queue()[j])
    ensures forall step :: Enabled(run[i], step) ==> InBounds(run[i], step)
  {
    hide Pow2, At, WAdd, WSub, Apply, Ring.Slot, Ring.Size;
    RunInv(run, i);
    var r := run[i];
    WordsMeasureQueue(r);
    SameSlots(r, r);
    forall j | 0 <= j < |r.Queue()|
      ensures r.Slot(WAdd(r.cons, j)) < |r.slots| && r.slots[r.Slot(WAdd(r.cons, j))] == r.Queue()[j]
    {
      SlotOfWord(r, |r.recv|, j);
      assert r.slots[At(r, |r.recv| + j)] == r.sent[|r.recv| + j];
    }
    forall step | Enabled(r, step) ensures InBounds(r, step) {
      StepKeepsInv(r, step);
    }
  }

  /** Each step refines a bounded FIFO queue: only the two publishing steps change
      it, by appending the accepted prefix of the offer or by removing from the
      front exactly what was read. */
  lemma StepRefinesQueue<T>(r: Ring<T>, step: Step<T>)
    requires Inv(r) && Enabled(r, step)
    ensures InBounds(r, step)
    ensures var r' := Apply(r, step);
            && r'.recv <= r'.sent
            && match step
               case PublishProduce =>
                 r'.Queue() == r.Queue() + r.producer.entries[..r.producer.n]
               case PublishConsume =>
                 r.Queue() == r.consumer.out + r'.Queue()
               case BeginProduce(offer) =>
                 && r'.Queue() == r.Queue()
                 && r'.producer.n == Min(r.Size() - |r.Queue()|, |offer|)
               case BeginConsume(room) =>
                 && r'.Queue() == r.Queue()
                 && r'.consumer.n == Min(|r.Queue()|, room)
               case _ => r'.Queue() == r.Queue()
  {
    StepKeepsInv(r, step);
    hide WAdd, WSub, Pow2, Masked, At, Intact, Inv, InBounds;
    match step
    case PublishProduce => PublishesQueue(r, step);
    case PublishConsume => PublishesQueue(r, step);
    case BeginProduce(_) => BeginsOnQueue(r, step);
    case BeginConsume(_) => BeginsOnQueue(r, step);
    case _ => BeginsOnQueue(r, step);
  }

  lemma PublishesQueue<T>(r: Ring<T>, step: Step<T>)
    requires Inv(r) && Enabled(r, step) && InBounds(r, step) && (step.PublishProduce? || step.PublishConsume?)
    ensures var r' := Apply(r, step);
            && r'.recv <= r'.sent
            && (step.PublishProduce? ==> r'.Queue() == r.Queue() + r.producer.entries[..r.producer.n])
            && (step.PublishConsume? ==> r.Queue() == r.consumer.out + r'.Queue())
  {
    hide WAdd, WSub, Pow2, Masked, At, Intact;
  }

  lemma BeginsOnQueue<T>(r: Ring<T>, step: Step<T>)
    requires Inv(r) && Enabled(r, step) && InBounds(r, step) && !step.PublishProduce? && !step.PublishConsume?
    ensures var r' := Apply(r, step);
            && r'.recv <= r'.sent && r'.Queue() == r.Queue()
            && (step.BeginProduce? ==>
                  r'.producer.Writing? && r'.producer.n == Min(r.Size() - |r.Queue()|, |step.offer|))
            && (step.BeginConsume? ==> r'.consumer.Reading? && r'.consumer.n == Min(|r.Queue()|, step.room))
  {
    WordsMeasureQueue(r);
    hide WAdd, WSub, Pow2, Masked, At, Intact;
  }

  // ---------------------------------------------------- undisturbed operations

  /** A step, if it can be taken. */
  function Take<T>(r: Ring<T>, step: Step<T>): Ring<T> {
    if Enabled(r, step) && InBounds(r, step) then Apply(r, step) else r
  }

  function Repeat<T>(r: Ring<T>, step: Step<T>, k: nat): Ring<T> {
    if k == 0 then r else Take(Repeat(r, step, k - 1), step)
  }

  lemma RepeatNone<T>(r: Ring<T>, step: Step<T>)
    ensures Repeat(r, step, 0) == r
  {
  }

  /** A whole `produce` in the protocol's own steps, the other party at rest. */
  function ProduceAlone<T>(r: Ring<T>, offer: seq<T>): Ring<T> {
    var begun := Take(r, BeginProduce(offer));
    Take(Repeat(begun, WriteSlot, if begun.producer.Writing? then begun.producer.n else 0), PublishProduce)
  }

  /** A whole `consume`. */
  function ConsumeAlone<T>(r: Ring<T>, room: nat): Ring<T> {
    var begun := Take(r, BeginConsume(room));
    Take(Repeat(begun, ReadSlot, if begun.consumer.Reading? then begun.consumer.n else 0), PublishConsume)
  }

  /** Any step a party is ready for is taken, keeps the invariant and acts on the queue as
      `StepRefinesQueue` says; copies and begins leave it alone. */
  lemma Taken<T>(r: Ring<T>, step: Step<T>)
    requires Inv(r) && Enabled(r, step)
    ensures InBounds(r, step) && Take(r, step) == Apply(r, step) && Inv(Take(r, step))
    ensures !step.PublishProduce? && !step.PublishConsume? ==> Take(r, step).Queue() == r.Queue()
  {
    StepKeepsInv(r, step);
    hide Inv, Apply;
    if !step.PublishProduce? && !step.PublishConsume? { BeginsOnQueue(r, step); }
  }

  /** The three parts of a `produce`, each in the terms the code uses. */
  lemma ProduceBegins<T>(r: Ring<T>, offer: seq<T>)
    requires Inv(r) && r.producer.ProducerIdle? && offer != []
    ensures var n := Min(WSub(r.Size(), WSub(r.prod, r.cons)), |offer|); var b := Take(r, BeginProduce(offer));
            && b == r.(producer := Writing(offer, r.prod, n, 0)) && Inv(b) && b.Queue() == r.Queue()
            && n == Min(r.Size() - |r.Queue()|, |offer|) >= 0 && |r.slots| == r.Size()
  {
    Taken(r, BeginProduce(offer));
    WordsMeasureQueue(r);
    hide Inv, WSub;
  }

  lemma ProduceCopies<T>(b: Ring<T>, r: Ring<T>, i: nat)
    requires Inv(r) && r == Repeat(b, WriteSlot, i) && r.producer.Writing? && r.producer.written < r.producer.n
    ensures var p, r' := r.producer, Repeat(b, WriteSlot, i + 1);
            var at := Masked(WAdd(p.prod0, p.written), r.Size());
            && at < |r.slots| && p.written < |p.entries| && Inv(r') && r'.Queue() == r.Queue()
            && r' == r.(slots := r.slots[at := p.entries[p.written]], producer := p.(written := p.written + 1))
  {
    Taken(r, WriteSlot);
    hide Inv, Masked, WAdd;
  }

  lemma ProduceEnds<T>(r0: Ring<T>, offer: seq<T>, r: Ring<T>)
    requires Inv(r) && r.producer.Writing? && r.producer.written == r.producer.n
    requires var b := Take(r0, BeginProduce(offer)); b.producer.Writing? && r == Repeat(b, WriteSlot, b.producer.n)
    ensures var p := r.producer; var r' := ProduceAlone(r0, offer);
            && p.n <= |p.entries| && Inv(r') && r'.Queue() == r.Queue() + p.entries[..p.n]
            && r' == r.(prod := WAdd(p.prod0, p.n), producer := ProducerIdle, sent := r.sent + p.entries[..p.n])
  {
    Taken(r, PublishProduce);
    PublishesQueue(r, PublishProduce);
    hide Inv, WAdd, Repeat;
  }

  /** The three parts of a `consume`. */
  lemma ConsumeBegins<T>(r: Ring<T>, room: nat)
    requires Inv(r) && r.consumer.ConsumerIdle? && room > 0
    ensures var n := Min(WSub(r.prod, r.cons), room); var b := Take(r, BeginConsume(room));
            && b == r.(consumer := Reading(r.cons, n, [])) && Inv(b) && b.Queue() == r.Queue()
            && n == Min(|r.Queue()|, room) && |r.slots| == r.Size()
  {
    Taken(r, BeginConsume(room));
    WordsMeasureQueue(r);
    hide Inv, WSub;
  }

  lemma ConsumeCopies<T>(b: Ring<T>, r: Ring<T>, i: nat)
    requires Inv(r) && r == Repeat(b, ReadSlot, i) && r.consumer.Reading? && |r.consumer.out| < r.consumer.n
    ensures var c, r' := r.consumer, Repeat(b, ReadSlot, i + 1);
            var at := Masked(WAdd(c.cons0, |c.out|), r.Size());
            && at < |r.slots| && Inv(r') && r'.Queue() == r.Queue()
            && r' == r.(consumer := c.(out := c.out + [r.slots[at]]))
  {
    Taken(r, ReadSlot);
    hide Inv, Masked, WAdd;
  }

  lemma ConsumeEnds<T>(r0: Ring<T>, room: nat, r: Ring<T>)
    requires Inv(r) && r.consumer.Reading? && |r.consumer.out| == r.consumer.n
    requires var b := Take(r0, BeginConsume(room)); b.consumer.Reading? && r == Repeat(b, ReadSlot, b.consumer.n)
    ensures var c := r.consumer; var r' := ConsumeAlone(r0, room);
            && Inv(r') && r.Queue() == c.out + r'.Queue()
            && r' == r.(cons := WAdd(c.cons0, c.n), consumer := ConsumerIdle, recv := r.recv + c.out)
  {
    Taken(r, PublishConsume);
    PublishesQueue(r, PublishConsume);
    hide Inv, WAdd, Repeat;
  }

  /** A ring attached to words that delimit `n` entries, read from its slots. */
  lemma AttachedInv<T>(r: Ring<T>, n: nat)
    requires r.order < 32 && |r.slots| == r.Size() && n <= r.Size() && r.recv == [] && |r.sent| == n
    requires r.start < WORD && r.cons == r.start && r.prod == (r.start + n) % WORD
    requires r.producer.ProducerIdle? && r.consumer.ConsumerIdle?
    requires forall j :: 0 <= j < n ==> r.sent[j] == r.slots[(r.start + j) % r.Size()]
    ensures Inv(r) && r.Queue() == r.sent
  {
    hide Pow2;
  }
}
