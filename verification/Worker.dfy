/**
  Movement of UMEM frames between the four rings, the kernel and the worker loop
  (`worker_loop_generic`), down to the single slot copies of each ring operation.

  Frames are chunk indices. The kernel is an arbitrary party: it may at any time
  take entries from the fill and tx rings and give any frame it holds back through
  the rx or completion ring. The worker follows its loop, one ring operation at a
  time; every verdict of the dispatch is possible. `Restart` is the hand-off at
  loop exit: the process ends, its locals vanish, and a successor adopts the rings.
 */
module WorkerLoop {
  import opened Bits
  import R = RingProtocol

  type Frame = nat
  type FrameRing = R.Ring<Frame>

  const BATCH: nat := 64

  datatype Pc =
    | Top | RefillPending | TakeCompletions | ReturnCompletions
    | Poll | Receive | Dispatch | Transmit | Recycle | Stopped

  datatype State = State(
    fill: FrameRing, rx: FrameRing, tx: FrameRing, comp: FrameRing,
    kernelRx: multiset<Frame>,   // taken from fill, not yet given to rx
    kernelTx: multiset<Frame>,   // taken from tx, not yet given to comp
    pc: Pc,
    pending: seq<Frame>,         // pending_fill
    completed: seq<Frame>,       // comp_descs[..consumed]
    received: seq<Frame>,        // rx_descs still to dispatch
    toTx: seq<Frame>,            // tx_batch
    toRecycle: seq<Frame>)       // recycle_batch

  datatype RingId = Fill | Rx | Tx | Comp

  function RingOf(s: State, id: RingId): FrameRing {
    match id case Fill => s.fill case Rx => s.rx case Tx => s.tx case Comp => s.comp
  }

  /** `s` after one step of a ring's protocol. */
  function Move(s: State, id: RingId, rs: R.Step<Frame>): State
    requires R.Enabled(RingOf(s, id), rs)
  {
    var r := RingOf(s, id);
    var r' := if R.InBounds(r, rs) then R.Apply(r, rs) else r;
    match id
    case Fill => s.(fill := r')
    case Rx => s.(rx := r')
    case Tx => s.(tx := r')
    case Comp => s.(comp := r')
  }

  datatype Step =
    | Copy(id: RingId, rs: R.Step<Frame>)                   // either party: one slot
    | KernelBegin(id: RingId, rs: R.Step<Frame>)
    | KernelPublish(id: RingId)
    | WorkerBegin
    | WorkerPublish
    | EnterLoop
    | LeaveLoop
    | PollResult(ready: bool)
    | DispatchOne(forward: bool)
    | DispatchEnd
    | Restart

  // ------------------------------------------------------ the worker's loop

  /** The ring operation of each program point, and the frames it offers. */
  predicate Producing(pc: Pc) { pc.RefillPending? || pc.ReturnCompletions? || pc.Transmit? || pc.Recycle? }
  predicate Consuming(pc: Pc) { pc.TakeCompletions? || pc.Receive? }

  function Target(pc: Pc): RingId
    requires Producing(pc) || Consuming(pc)
  {
    match pc
    case Transmit => Tx
    case TakeCompletions => Comp
    case Receive => Rx
    case _ => Fill
  }

  function Offer(s: State): seq<Frame>
    requires Producing(s.pc)
  {
    match s.pc
    case RefillPending => s.pending
    case ReturnCompletions => s.completed
    case Transmit => s.toTx
    case Recycle => s.toRecycle
  }

  /** Bookkeeping after a produce that accepted the first `n` offered frames. */
  function AfterProduce(s: State, n: nat): State
    requires Producing(s.pc) && n <= |Offer(s)|
  {
    match s.pc
    case RefillPending => s.(pending := s.pending[n..], pc := TakeCompletions)
    case ReturnCompletions => s.(pending := s.pending + s.completed[n..], completed := [], pc := Poll)
    case Transmit => s.(pending := s.pending + s.toTx[n..], toTx := [], pc := Recycle)
    case Recycle => s.(pending := s.pending + s.toRecycle[n..], toRecycle := [], pc := Top)
  }

  /** Bookkeeping after a consume that returned `got`. */
  function AfterConsume(s: State, got: seq<Frame>): State
    requires Consuming(s.pc)
  {
    if s.pc.TakeCompletions? then s.(completed := got, pc := if got == [] then Poll else ReturnCompletions)
    else s.(received := got, pc := if got == [] then Top else Dispatch)
  }

  /** The next received frame goes to one of the two batches. */
  function Dispatched(s: State, forward: bool): State
    requires s.received != []
  {
    var f := s.received[0];
    if forward then s.(received := s.received[1..], toTx := s.toTx + [f])
    else s.(received := s.received[1..], toRecycle := s.toRecycle + [f])
  }

  // ---------------------------------------------------------- transitions

  /** Which ends of which rings belong to the kernel. */
  predicate KernelEnd(id: RingId, rs: R.Step<Frame>) {
    match id
    case Fill => rs.BeginConsume? || rs.PublishConsume?
    case Tx => rs.BeginConsume? || rs.PublishConsume?
    case _ => rs.BeginProduce? || rs.PublishProduce?
  }

  function KernelPublishStep(id: RingId): R.Step<Frame> {
    if id.Fill? || id.Tx? then R.PublishConsume else R.PublishProduce
  }

  predicate Can(s: State, step: Step) {
    match step
    case Copy(id, rs) => (rs.WriteSlot? || rs.ReadSlot?) && R.Enabled(RingOf(s, id), rs)
    case KernelBegin(id, rs) =>
      && KernelEnd(id, rs) && (rs.BeginProduce? || rs.BeginConsume?) && R.Enabled(RingOf(s, id), rs)
      && (rs.BeginProduce? ==> multiset(rs.offer) <= (if id.Rx? then s.kernelRx else s.kernelTx))
    case KernelPublish(id) => R.Enabled(RingOf(s, id), KernelPublishStep(id))
    case WorkerBegin =>
      || (Producing(s.pc) && R.Enabled(RingOf(s, Target(s.pc)), R.BeginProduce(Offer(s))))
      || (Consuming(s.pc) && R.Enabled(RingOf(s, Target(s.pc)), R.BeginConsume(BATCH)))
    case WorkerPublish =>
      || (Producing(s.pc) && (Offer(s) == [] || R.Enabled(RingOf(s, Target(s.pc)), R.PublishProduce)))
      || (Consuming(s.pc) && R.Enabled(RingOf(s, Target(s.pc)), R.PublishConsume))
    case EnterLoop => s.pc.Top?
    case LeaveLoop => s.pc.Top?
    case PollResult(_) => s.pc.Poll?
    case DispatchOne(_) => s.pc.Dispatch? && s.received != []
    case DispatchEnd => s.pc.Dispatch? && s.received == []
    case Restart => s.pc.Stopped?
  }

  function Do(s: State, step: Step): State
    requires Can(s, step)
  {
    match step
    case Copy(id, rs) => Move(s, id, rs)
    case KernelBegin(id, rs) => Move(s, id, rs)
    case KernelPublish(id) =>
      var s' := Move(s, id, KernelPublishStep(id));
      match id {
        case Fill => s'.(kernelRx := s.kernelRx + multiset(s.fill.consumer.out))
        case Tx => s'.(kernelTx := s.kernelTx + multiset(s.tx.consumer.out))
        case Rx => s'.(kernelRx := s.kernelRx - multiset(Accepted(s.rx)))
        case Comp => s'.(kernelTx := s.kernelTx - multiset(Accepted(s.comp)))
      }
    case WorkerBegin =>
      Move(s, Target(s.pc), if Producing(s.pc) then R.BeginProduce(Offer(s)) else R.BeginConsume(BATCH))
    case WorkerPublish =>
      if Consuming(s.pc) then
        AfterConsume(Move(s, Target(s.pc), R.PublishConsume), RingOf(s, Target(s.pc)).consumer.out)
      else if Offer(s) == [] then
        AfterProduce(s, 0)
      else
        AfterProduce(Move(s, Target(s.pc), R.PublishProduce), Min(RingOf(s, Target(s.pc)).producer.n, |Offer(s)|))
    case EnterLoop => s.(pc := if s.pending == [] then TakeCompletions else RefillPending)
    case LeaveLoop => s.(pc := Stopped)
    case PollResult(ready) => s.(pc := if ready then Receive else Top)
    case DispatchOne(forward) => Dispatched(s, forward)
    case DispatchEnd => s.(pc := Transmit)
    case Restart => s.(pc := Top, pending := [], completed := [], received := [], toTx := [], toRecycle := [])
  }

  /** What the publishing store of a produce hands over. */
  function Accepted(r: FrameRing): seq<Frame>
    requires r.producer.Writing?
  {
    r.producer.entries[..Min(r.producer.n, |r.producer.entries|)]
  }

  // ------------------------------------------------------------ invariants

  ghost predicate RingsOk(s: State) {
    R.Inv(s.fill) && R.Inv(s.rx) && R.Inv(s.tx) && R.Inv(s.comp)
  }

  function Count(q: seq<Frame>, f: Frame): nat { multiset(q)[f] }

  function InRings(s: State, f: Frame): nat {
    Count(s.fill.Queue(), f) + Count(s.rx.Queue(), f) + Count(s.tx.Queue(), f) + Count(s.comp.Queue(), f)
  }

  function InKernel(s: State, f: Frame): nat { s.kernelRx[f] + s.kernelTx[f] }

  function InWorker(s: State, f: Frame): nat {
    Count(s.pending, f) + Count(s.completed, f) + Count(s.received, f)
    + Count(s.toTx, f) + Count(s.toRecycle, f)
  }

  /** How many owners hold `f`, over all places a frame can be. */
  function Owners(s: State, f: Frame): nat {
    InRings(s, f) + InKernel(s, f) + InWorker(s, f)
  }

  /** A ring operation in progress on the worker's end belongs to the current
      program point, and the kernel still holds what it is offering. */
  ghost predicate OpsOk(s: State) {
    && (s.fill.producer.Writing? ==>
          Producing(s.pc) && Target(s.pc) == Fill && s.fill.producer.entries == Offer(s) != [])
    && (s.tx.producer.Writing? ==> s.pc.Transmit? && s.tx.producer.entries == s.toTx != [])
    && (s.comp.consumer.Reading? ==> s.pc.TakeCompletions?)
    && (s.rx.consumer.Reading? ==> s.pc.Receive?)
    && (s.rx.producer.Writing? ==> multiset(s.rx.producer.entries) <= s.kernelRx)
    && (s.comp.producer.Writing? ==> multiset(s.comp.producer.entries) <= s.kernelTx)
  }

  /** Batches are filled only where the loop fills them. */
  ghost predicate BatchesOk(s: State) {
    && (s.completed != [] ==> s.pc.ReturnCompletions?)
    && (s.received != [] ==> s.pc.Dispatch?)
    && (s.toTx != [] ==> s.pc.Dispatch? || s.pc.Transmit?)
    && (s.toRecycle != [] ==> s.pc.Dispatch? || s.pc.Transmit? || s.pc.Recycle?)
  }

  ghost predicate Inv(s: State) {
    RingsOk(s) && OpsOk(s) && BatchesOk(s)
  }

  // --------------------------------------------------------------- proofs

  predicate SameOps(r: FrameRing, r': FrameRing) {
    && r'.producer.Writing? == r.producer.Writing?
    && (r.producer.Writing? ==> r'.producer.entries == r.producer.entries && r'.producer.n == r.producer.n)
    && r'.consumer.Reading? == r.consumer.Reading?
  }

  /** `s'` differs from `s` only in ring `id`. */
  predicate OnlyRing(s: State, s': State, id: RingId) {
    s' == match id
          case Fill => s.(fill := s'.fill)
          case Rx => s.(rx := s'.rx)
          case Tx => s.(tx := s'.tx)
          case Comp => s.(comp := s'.comp)
  }

  /** Effect of a ring step on its queue and on the operations in progress. */
  predicate Effect(r: FrameRing, r': FrameRing, rs: R.Step<Frame>)
    requires R.Enabled(r, rs)
  {
    match rs
    case PublishProduce =>
      && r.producer.n <= |r.producer.entries| && r'.Queue() == r.Queue() + Accepted(r)
      && r'.producer.ProducerIdle? && r'.consumer == r.consumer
    case PublishConsume =>
      && r.Queue() == r.consumer.out + r'.Queue()
      && r'.consumer.ConsumerIdle? && r'.producer == r.producer
    case BeginProduce(offer) =>
      && r'.Queue() == r.Queue() && r'.consumer == r.consumer
      && r'.producer.Writing? && r'.producer.entries == offer
      && r'.producer.n == Min(r.Size() - |r.Queue()|, |offer|)
    case BeginConsume(_) =>
      r'.Queue() == r.Queue() && r'.consumer.Reading? && r'.producer == r.producer
    case _ =>
      r'.Queue() == r.Queue() && SameOps(r, r')
  }

  lemma RingStep(r: FrameRing, rs: R.Step<Frame>)
    requires R.Inv(r) && R.Enabled(r, rs)
    ensures R.InBounds(r, rs) && R.Inv(R.Apply(r, rs)) && r.Size() == R.Apply(r, rs).Size()
    ensures Effect(r, R.Apply(r, rs), rs)
  {
    R.StepKeepsInv(r, rs);
    R.StepRefinesQueue(r, rs);
  }

  /** Every ring step changes one ring, as a FIFO. */
  lemma Moved(s: State, id: RingId, rs: R.Step<Frame>)
    requires RingsOk(s) && R.Enabled(RingOf(s, id), rs)
    ensures var s' := Move(s, id, rs);
            && OnlyRing(s, s', id) && RingsOk(s')
            && RingOf(s, id).Size() == RingOf(s', id).Size()
            && Effect(RingOf(s, id), RingOf(s', id), rs)
  {
    RingStep(RingOf(s, id), rs);
    var s' := Move(s, id, rs);
    assert OnlyRing(s, s', id) && RingOf(s', id) == R.Apply(RingOf(s, id), rs);
    hide R.Inv, R.Apply, Effect;
  }

  /** What one ring gains or loses, the rings together gain or lose. */
  lemma RingsChange(s: State, s': State, id: RingId, f: Frame)
    requires OnlyRing(s, s', id)
    ensures InRings(s', f) + Count(RingOf(s, id).Queue(), f) == InRings(s, f) + Count(RingOf(s', id).Queue(), f)
    ensures InKernel(s', f) == InKernel(s, f) && InWorker(s', f) == InWorker(s, f)
  {
    hide Count;
    match id
    case Fill =>
    case Rx =>
    case Tx =>
    case Comp =>
  }

  lemma CountAppend(a: seq<Frame>, b: seq<Frame>, f: Frame)
    ensures Count(a + b, f) == Count(a, f) + Count(b, f)
  {
  }

  lemma CountSplit(q: seq<Frame>, n: nat, f: Frame)
    requires n <= |q|
    ensures Count(q, f) == Count(q[..n], f) + Count(q[n..], f)
  {
    assert q == q[..n] + q[n..];
  }

  /** The step is one its party may begin here. */
  predicate MayBegin(s: State, id: RingId, rs: R.Step<Frame>) {
    match (id, rs)
    case (Fill, BeginProduce(offer)) => Producing(s.pc) && Target(s.pc) == Fill && offer == Offer(s)
    case (Tx, BeginProduce(offer)) => s.pc.Transmit? && offer == s.toTx
    case (Rx, BeginProduce(offer)) => multiset(offer) <= s.kernelRx
    case (Comp, BeginProduce(offer)) => multiset(offer) <= s.kernelTx
    case (Rx, BeginConsume(_)) => s.pc.Receive?
    case (Comp, BeginConsume(_)) => s.pc.TakeCompletions?
    case (_, BeginConsume(_)) => true
    case _ => false
  }

  lemma OpsBegun(s: State, s': State, id: RingId, rs: R.Step<Frame>)
    requires OpsOk(s) && OnlyRing(s, s', id)
    requires R.Enabled(RingOf(s, id), rs) && Effect(RingOf(s, id), RingOf(s', id), rs)
    requires rs.WriteSlot? || rs.ReadSlot? || MayBegin(s, id, rs)
    ensures OpsOk(s')
  {
    match id
    case Fill =>
    case Rx =>
    case Tx =>
    case Comp =>
  }

  lemma QuietCount(s: State, s': State, id: RingId, rs: R.Step<Frame>, f: Frame)
    requires OnlyRing(s, s', id) && R.Enabled(RingOf(s, id), rs) && Effect(RingOf(s, id), RingOf(s', id), rs)
    requires !rs.PublishProduce? && !rs.PublishConsume?
    ensures Owners(s', f) == Owners(s, f)
  {
    assert RingOf(s', id).Queue() == RingOf(s, id).Queue();
    RingsChange(s, s', id, f);
    hide InRings, InWorker, InKernel, OnlyRing, RingOf, Effect, R.Enabled;
  }

  lemma OnlyRingBatches(s: State, s': State, id: RingId)
    requires BatchesOk(s) && OnlyRing(s, s', id)
    ensures BatchesOk(s')
  {
  }

  /** Copies and begins move no frame. */
  lemma QuietKeeps(s: State, id: RingId, rs: R.Step<Frame>, f: Frame)
    requires Inv(s) && R.Enabled(RingOf(s, id), rs)
    requires rs.WriteSlot? || rs.ReadSlot? || MayBegin(s, id, rs)
    ensures Inv(Move(s, id, rs)) && Owners(Move(s, id, rs), f) == Owners(s, f)
  {
    hide R.Inv, R.Enabled, Move, Effect, OnlyRing, RingOf, RingsOk, OpsOk, BatchesOk, Owners;
    Moved(s, id, rs);
    var s' := Move(s, id, rs);
    OpsBegun(s, s', id, rs);
    OnlyRingBatches(s, s', id);
    QuietCount(s, s', id, rs, f);
  }

  /** The kernel taking frames out of the fill or tx ring. */
  predicate Took(s: State, s1: State, s': State, id: RingId) {
    && (id.Fill? || id.Tx?) && OnlyRing(s, s1, id)
    && R.Enabled(RingOf(s, id), R.PublishConsume)
    && Effect(RingOf(s, id), RingOf(s1, id), R.PublishConsume)
    && var out := multiset(RingOf(s, id).consumer.out);
       s' == if id.Fill? then s1.(kernelRx := s.kernelRx + out) else s1.(kernelTx := s.kernelTx + out)
  }

  lemma KernelTookInv(s: State, s1: State, s': State, id: RingId)
    requires Inv(s) && RingsOk(s1) && Took(s, s1, s', id)
    ensures Inv(s')
  {
    hide R.Inv, R.Enabled;
    if id.Fill? {} else {}
  }

  lemma OwnersAdd(s: State, f: Frame)
    ensures Owners(s, f) == InRings(s, f) + InKernel(s, f) + InWorker(s, f)
  {
  }

  lemma KernelTookCount(s: State, s1: State, s': State, id: RingId, f: Frame)
    requires Took(s, s1, s', id)
    ensures Owners(s', f) == Owners(s, f)
  {
    var out, left := RingOf(s, id).consumer.out, RingOf(s1, id).Queue();
    assert RingOf(s, id).Queue() == out + left;
    RingsChange(s, s1, id, f);
    CountAppend(out, left, f);
    assert InRings(s', f) == InRings(s1, f) && InWorker(s', f) == InWorker(s1, f);
    assert InKernel(s', f) == InKernel(s, f) + Count(out, f);
    OwnersAdd(s, f);
    OwnersAdd(s', f);
    hide *;
  }

  lemma KernelLoses(held: multiset<Frame>, entries: seq<Frame>, n: nat, f: Frame)
    requires multiset(entries) <= held && n <= |entries|
    ensures (held - multiset(entries[..n]))[f] + Count(entries[..n], f) == held[f]
  {
    CountSplit(entries, n, f);
  }

  /** The kernel giving frames it holds back through the rx or completion ring. */
  predicate GaveBack(s: State, s1: State, s': State, id: RingId) {
    && (id.Rx? || id.Comp?) && OnlyRing(s, s1, id)
    && R.Enabled(RingOf(s, id), R.PublishProduce)
    && Effect(RingOf(s, id), RingOf(s1, id), R.PublishProduce)
    && var given := multiset(Accepted(RingOf(s, id)));
       s' == if id.Rx? then s1.(kernelRx := s.kernelRx - given) else s1.(kernelTx := s.kernelTx - given)
  }

  lemma KernelGaveCount(s: State, s1: State, s': State, id: RingId, f: Frame)
    requires OpsOk(s) && GaveBack(s, s1, s', id)
    ensures Owners(s', f) == Owners(s, f)
  {
    var r := RingOf(s, id);
    var n: nat, given := r.producer.n, Accepted(r);
    assert RingOf(s1, id).Queue() == r.Queue() + given && given == r.producer.entries[..n];
    RingsChange(s, s1, id, f);
    CountAppend(r.Queue(), given, f);
    assert InRings(s', f) == InRings(s1, f) && InWorker(s', f) == InWorker(s1, f);
    if id.Rx? {
      KernelLoses(s.kernelRx, r.producer.entries, n, f);
    } else {
      KernelLoses(s.kernelTx, r.producer.entries, n, f);
    }
    assert InKernel(s', f) + Count(given, f) == InKernel(s, f);
    OwnersAdd(s, f);
    OwnersAdd(s', f);
    hide *;
  }

  lemma KernelGaveOps(s: State, s1: State, s': State, id: RingId)
    requires OpsOk(s) && GaveBack(s, s1, s', id)
    ensures OpsOk(s')
  {
    hide R.Ring.Queue, Accepted;
    if id.Rx? {} else {}
  }

  lemma KernelGaveInv(s: State, s1: State, s': State, id: RingId)
    requires Inv(s) && RingsOk(s1) && GaveBack(s, s1, s', id)
    ensures Inv(s')
  {
    KernelGaveOps(s, s1, s', id);
    hide R.Inv, OpsOk, Effect, R.Enabled, Accepted;
    if id.Rx? {} else {}
  }

  /** The worker publishing the produce of its program point. */
  predicate Gave(s: State, s1: State) {
    && Producing(s.pc) && OnlyRing(s, s1, Target(s.pc))
    && R.Enabled(RingOf(s, Target(s.pc)), R.PublishProduce)
    && Effect(RingOf(s, Target(s.pc)), RingOf(s1, Target(s.pc)), R.PublishProduce)
  }

  lemma GaveOffered(s: State, s1: State)
    requires OpsOk(s) && Gave(s, s1)
    ensures s1.pc == s.pc && Offer(s1) == Offer(s)
    ensures var r := RingOf(s, Target(s.pc));
            && r.producer.n <= |Offer(s)|
            && RingOf(s1, Target(s.pc)).Queue() == r.Queue() + Offer(s)[..r.producer.n]
  {
    hide R.Ring.Queue;
  }

  lemma WorkerGaveInv(s: State, s1: State, n: nat)
    requires Inv(s) && RingsOk(s1) && Gave(s, s1) && n <= |Offer(s)|
    ensures Inv(AfterProduce(s1, n))
  {
    hide R.Inv, R.Ring.Queue, Accepted;
    match s.pc
    case RefillPending =>
    case ReturnCompletions =>
    case Transmit =>
    case Recycle =>
  }

  lemma WorkerGaveCount(s: State, s1: State, n: nat, f: Frame)
    requires Producing(s.pc) && s1.pc == s.pc && OnlyRing(s, s1, Target(s.pc))
    requires Offer(s1) == Offer(s) && n <= |Offer(s)|
    requires RingOf(s1, Target(s.pc)).Queue() == RingOf(s, Target(s.pc)).Queue() + Offer(s)[..n]
    ensures Owners(AfterProduce(s1, n), f) == Owners(s, f)
  {
    OwnersAdd(s, f);
    OwnersAdd(AfterProduce(s1, n), f);
    hide *;
    RingsChange(s, s1, Target(s.pc), f);
    CountAppend(RingOf(s, Target(s.pc)).Queue(), Offer(s)[..n], f);
    WorkerKeepsRest(s1, n, f);
  }

  /** The worker's produces: accepted frames leave it, the rest stay pending. */
  lemma WorkerGave(s: State, s1: State, f: Frame)
    requires Inv(s) && RingsOk(s1) && Gave(s, s1)
    ensures var s' := AfterProduce(s1, Min(RingOf(s, Target(s.pc)).producer.n, |Offer(s)|));
            Inv(s') && Owners(s', f) == Owners(s, f)
  {
    var n := RingOf(s, Target(s.pc)).producer.n;
    GaveOffered(s, s1);
    assert OnlyRing(s, s1, Target(s.pc)) && Min(n, |Offer(s)|) == n;
    hide *;
    WorkerGaveInv(s, s1, n);
    WorkerGaveCount(s, s1, n, f);
  }

  lemma WorkerKeepsRest(s: State, n: nat, f: Frame)
    requires Producing(s.pc) && n <= |Offer(s)|
    ensures var s' := AfterProduce(s, n);
            && InRings(s', f) == InRings(s, f) && InKernel(s', f) == InKernel(s, f)
            && InWorker(s', f) + Count(Offer(s)[..n], f) == InWorker(s, f)
  {
    CountSplit(Offer(s), n, f);
    CountAppend(s.pending, Offer(s)[n..], f);
    assert Count([], f) == 0;
    hide Count;
    match s.pc
    case RefillPending =>
    case ReturnCompletions =>
    case Transmit =>
    case Recycle =>
  }

  /** The worker publishing the consume of its program point. */
  predicate Got(s: State, s1: State) {
    && Consuming(s.pc) && OnlyRing(s, s1, Target(s.pc))
    && R.Enabled(RingOf(s, Target(s.pc)), R.PublishConsume)
    && Effect(RingOf(s, Target(s.pc)), RingOf(s1, Target(s.pc)), R.PublishConsume)
  }

  lemma WorkerTookInv(s: State, s1: State)
    requires Inv(s) && RingsOk(s1) && Got(s, s1)
    ensures Inv(AfterConsume(s1, RingOf(s, Target(s.pc)).consumer.out))
  {
    hide R.Inv, R.Ring.Queue;
    if s.pc.Receive? {} else {}
  }

  lemma GotConsumed(s: State, s1: State)
    requires BatchesOk(s) && Got(s, s1)
    ensures s1.pc == s.pc && s1.completed == s1.received == []
    ensures var r := RingOf(s, Target(s.pc)); r.Queue() == r.consumer.out + RingOf(s1, Target(s.pc)).Queue()
  {
    hide R.Ring.Queue;
  }

  lemma WorkerTakes(s: State, got: seq<Frame>, f: Frame)
    requires Consuming(s.pc) && s.completed == s.received == []
    ensures var s' := AfterConsume(s, got);
            && InRings(s', f) == InRings(s, f) && InKernel(s', f) == InKernel(s, f)
            && InWorker(s', f) == InWorker(s, f) + Count(got, f)
  {
    assert Count([], f) == 0;
    hide Count;
  }

  lemma WorkerTookCount(s: State, s1: State, out: seq<Frame>, f: Frame)
    requires Consuming(s.pc) && s1.pc == s.pc && OnlyRing(s, s1, Target(s.pc)) && s1.completed == s1.received == []
    requires RingOf(s, Target(s.pc)).Queue() == out + RingOf(s1, Target(s.pc)).Queue()
    ensures Owners(AfterConsume(s1, out), f) == Owners(s, f)
  {
    OwnersAdd(s, f);
    OwnersAdd(AfterConsume(s1, out), f);
    hide *;
    RingsChange(s, s1, Target(s.pc), f);
    CountAppend(out, RingOf(s1, Target(s.pc)).Queue(), f);
    WorkerTakes(s1, out, f);
  }

  lemma WorkerTook(s: State, s1: State, f: Frame)
    requires Inv(s) && RingsOk(s1) && Got(s, s1)
    ensures var s' := AfterConsume(s1, RingOf(s, Target(s.pc)).consumer.out);
            Inv(s') && Owners(s', f) == Owners(s, f)
  {
    var out := RingOf(s, Target(s.pc)).consumer.out;
    GotConsumed(s, s1);
    assert OnlyRing(s, s1, Target(s.pc));
    hide *;
    WorkerTookInv(s, s1);
    WorkerTookCount(s, s1, out, f);
  }

  lemma PublishKeeps(s: State, step: Step, f: Frame)
    requires Inv(s) && Can(s, step) && (step.KernelPublish? || step.WorkerPublish?)
    ensures Inv(Do(s, step)) && Owners(Do(s, step), f) == Owners(s, f)
  {
    hide R.Inv, InRings, InWorker, InKernel;
    if step.KernelPublish? {
      var id, rs := step.id, KernelPublishStep(step.id);
      Moved(s, id, rs);
      var s1, s' := Move(s, id, rs), Do(s, step);
      if id.Fill? || id.Tx? {
        KernelTookInv(s, s1, s', id);
        KernelTookCount(s, s1, s', id, f);
      } else {
        KernelGaveInv(s, s1, s', id);
        KernelGaveCount(s, s1, s', id, f);
      }
    } else if Consuming(s.pc) {
      Moved(s, Target(s.pc), R.PublishConsume);
      WorkerTook(s, Move(s, Target(s.pc), R.PublishConsume), f);
    } else if Offer(s) == [] {
      NothingOffered(s, f);
    } else {
      Moved(s, Target(s.pc), R.PublishProduce);
      WorkerGave(s, Move(s, Target(s.pc), R.PublishProduce), f);
    }
  }

  lemma NothingOffered(s: State, f: Frame)
    requires Inv(s) && Producing(s.pc) && Offer(s) == []
    ensures Inv(AfterProduce(s, 0)) && Owners(AfterProduce(s, 0), f) == Owners(s, f)
  {
    hide R.Inv;
    assert s.pending + [] == s.pending && s.pending[0..] == s.pending;
  }

  lemma DispatchKeeps(s: State, forward: bool, f: Frame)
    requires Inv(s) && s.pc.Dispatch? && s.received != []
    ensures Inv(Dispatched(s, forward)) && Owners(Dispatched(s, forward), f) == Owners(s, f)
  {
    DispatchCount(s, forward, f);
    hide R.Inv, Owners;
  }

  lemma DispatchCount(s: State, forward: bool, f: Frame)
    requires s.received != []
    ensures Owners(Dispatched(s, forward), f) == Owners(s, f)
  {
    var s', x, rest := Dispatched(s, forward), [s.received[0]], s.received[1..];
    assert s.received == x + rest;
    CountAppend(x, rest, f);
    CountAppend(if forward then s.toTx else s.toRecycle, x, f);
    hide Count;
    assert InRings(s', f) == InRings(s, f) && InKernel(s', f) == InKernel(s, f);
    hide InRings, InKernel;
    if forward {} else {}
  }

  /** The steps that touch no ring and no frame. */
  predicate Jumps(step: Step) {
    step.EnterLoop? || step.LeaveLoop? || step.PollResult? || step.DispatchEnd? || step.Restart?
  }

  lemma JumpKeeps(s: State, step: Step, f: Frame)
    requires Inv(s) && Can(s, step) && Jumps(step) && (step.Restart? ==> s.pending == [])
    ensures Inv(Do(s, step)) && Owners(Do(s, step), f) == Owners(s, f)
  {
    hide Owners, RingsOk, OpsOk, BatchesOk;
    JumpInv(s, step);
    JumpOwners(s, step, f);
  }

  lemma JumpInv(s: State, step: Step)
    requires Inv(s) && Can(s, step) && Jumps(step)
    ensures Inv(Do(s, step))
  {
    hide R.Inv, R.Enabled, Move;
  }

  lemma JumpOwners(s: State, step: Step, f: Frame)
    requires BatchesOk(s) && Can(s, step) && Jumps(step) && (step.Restart? ==> s.pending == [])
    ensures Owners(Do(s, step), f) == Owners(s, f)
  {
    hide R.Enabled, R.Ring.Queue, Move;
  }

  /** Every step of every party keeps the number of owners of every frame; a restart
      does so when nothing is pending. */
  lemma StepKeeps(s: State, step: Step, f: Frame)
    requires Inv(s) && Can(s, step)
    requires step.Restart? ==> s.pending == []
    ensures Inv(Do(s, step)) && Owners(Do(s, step), f) == Owners(s, f)
  {
    hide Inv, Owners, Move, AfterProduce, AfterConsume, Dispatched, R.Enabled;
    match step
    case Copy(id, rs) => QuietKeeps(s, id, rs, f);
    case KernelBegin(id, rs) => QuietKeeps(s, id, rs, f);
    case WorkerBegin =>
      QuietKeeps(s, Target(s.pc), if Producing(s.pc) then R.BeginProduce(Offer(s)) else R.BeginConsume(BATCH), f);
    case KernelPublish(_) => PublishKeeps(s, step, f);
    case WorkerPublish => PublishKeeps(s, step, f);
    case DispatchOne(forward) => DispatchKeeps(s, forward, f);
    case _ => JumpKeeps(s, step, f);
  }

  // ------------------------------------------------------------ whole runs

  ghost predicate Next(s: State, s': State) {
    exists step :: Can(s, step) && s' == Do(s, step)
  }

  /** Every frame of the UMEM has exactly one owner, and no other address any. */
  ghost predicate SingleOwner(s: State, frames: set<Frame>) {
    forall f :: Owners(s, f) == if f in frames then 1 else 0
  }

  /** A start: the worker idle and nothing in progress, every frame of the UMEM in
      one place. The rings' words may stand anywhere. */
  ghost predicate Init(s: State, frames: set<Frame>) {
    && RingsOk(s) && s.pc.Top?
    && s.fill.producer.ProducerIdle? && s.tx.producer.ProducerIdle?
    && s.rx.consumer.ConsumerIdle? && s.comp.consumer.ConsumerIdle?
    && s.rx.producer.ProducerIdle? && s.comp.producer.ProducerIdle?
    && s.pending == s.completed == s.received == s.toTx == s.toRecycle == []
    && SingleOwner(s, frames)
  }

  ghost predicate IsRun(run: seq<State>, frames: set<Frame>) {
    && run != [] && Init(run[0], frames)
    && forall i :: 0 <= i < |run| - 1 ==> Next(run[i], run[i + 1])
  }

  lemma NextKeeps(s: State, s': State, frames: set<Frame>)
    requires Inv(s) && SingleOwner(s, frames) && Next(s, s') && (s.pc.Stopped? ==> s.pending == [])
    ensures Inv(s') && SingleOwner(s', frames)
  {
    var step :| Can(s, step) && s' == Do(s, step);
    assert step.Restart? ==> s.pc.Stopped?;
    hide Can, Do, Inv, Owners;
    forall f ensures Owners(s', f) == Owners(s, f) { StepKeeps(s, step, f); }
    StepKeeps(s, step, 0);
  }

  /** In one process lifetime no frame is lost or duplicated, whatever the ring sizes
      and however short the produces come up. */
  lemma {:induction false} FramesConserved(run: seq<State>, frames: set<Frame>, i: nat)
    requires IsRun(run, frames) && i < |run|
    requires forall j :: 0 <= j < i ==> !run[j].pc.Stopped?
    ensures Inv(run[i]) && SingleOwner(run[i], frames)
  {
    if i > 0 {
      FramesConserved(run, frames, i - 1);
      assert Next(run[i - 1], run[i]);
      hide *;
      NextKeeps(run[i - 1], run[i], frames);
    } else {
      hide R.Inv;
    }
  }

  // --------------------------------------------------- full-sized rings

  /** `bootstrap` and `adopt` give the fill and tx rings one slot per frame. */
  ghost predicate Sized(s: State, frames: set<Frame>) {
    |frames| <= s.fill.Size() && |frames| <= s.tx.Size()
  }

  /** No produce of the worker is short, so nothing ever waits for the fill ring. */
  predicate NeverShort(s: State) {
    && (s.fill.producer.Writing? ==> s.fill.producer.n == |s.fill.producer.entries|)
    && (s.tx.producer.Writing? ==> s.tx.producer.n == |s.tx.producer.entries|)
    && s.pending == [] && !s.pc.RefillPending?
  }

  lemma {:induction false} DistinctFit(q: seq<Frame>, frames: set<Frame>)
    requires forall f :: Count(q, f) <= if f in frames then 1 else 0
    ensures |q| <= |frames|
  {
    if q != [] {
      var x := q[0];
      assert multiset(q)[x] > 0;
      forall f ensures Count(q[1..], f) <= if f in frames - {x} then 1 else 0 {
        CountSplit(q, 1, f);
        assert q[..1] == [x];
      }
      DistinctFit(q[1..], frames - {x});
    }
  }

  /** Singly owned frames not yet in a ring fit into it. */
  lemma OfferFits(s: State, frames: set<Frame>)
    requires Producing(s.pc) && SingleOwner(s, frames)
    ensures |RingOf(s, Target(s.pc)).Queue()| + |Offer(s)| <= |frames|
  {
    var q := RingOf(s, Target(s.pc)).Queue();
    forall f ensures Count(q + Offer(s), f) <= if f in frames then 1 else 0 {
      CountAppend(q, Offer(s), f);
      assert Owners(s, f) <= if f in frames then 1 else 0;
      hide Count;
    }
    DistinctFit(q + Offer(s), frames);
  }

  lemma RingStepKeepsNeverShort(s: State, frames: set<Frame>, id: RingId, rs: R.Step<Frame>)
    requires Inv(s) && SingleOwner(s, frames) && Sized(s, frames) && NeverShort(s)
    requires R.Enabled(RingOf(s, id), rs)
    requires (id.Fill? || id.Tx?) && rs.BeginProduce? ==> Producing(s.pc) && id == Target(s.pc) && rs.offer == Offer(s)
    ensures NeverShort(Move(s, id, rs)) && Sized(Move(s, id, rs), frames)
  {
    Moved(s, id, rs);
    var s' := Move(s, id, rs);
    if (id.Fill? || id.Tx?) && rs.BeginProduce? { OfferFits(s, frames); }
    hide R.Inv, Move, SingleOwner, RingsOk;
    match id
    case Fill =>
    case Rx =>
    case Tx =>
    case Comp =>
  }

  lemma OffersAll(s: State)
    requires OpsOk(s) && NeverShort(s) && Producing(s.pc) && RingOf(s, Target(s.pc)).producer.Writing?
    ensures RingOf(s, Target(s.pc)).producer.n == |Offer(s)|
  {
  }

  lemma MoveKeepsWorker(s: State, id: RingId, rs: R.Step<Frame>)
    requires R.Enabled(RingOf(s, id), rs)
    ensures var s1 := Move(s, id, rs);
            && s1.pc == s.pc && s1.pending == s.pending && s1.completed == s.completed
            && s1.toTx == s.toTx && s1.toRecycle == s.toRecycle
  {
    hide R.Apply;
  }

  lemma ProduceKeepsNeverShort(s: State, frames: set<Frame>)
    requires Inv(s) && SingleOwner(s, frames) && Sized(s, frames) && NeverShort(s)
    requires Producing(s.pc) && Offer(s) != [] && R.Enabled(RingOf(s, Target(s.pc)), R.PublishProduce)
    ensures var n := Min(RingOf(s, Target(s.pc)).producer.n, |Offer(s)|);
            var s' := AfterProduce(Move(s, Target(s.pc), R.PublishProduce), n);
            NeverShort(s') && Sized(s', frames)
  {
    hide R.Inv, SingleOwner;
    var id := Target(s.pc);
    var n := RingOf(s, id).producer.n;
    OffersAll(s);
    var s1 := Move(s, id, R.PublishProduce);
    MoveKeepsWorker(s, id, R.PublishProduce);
    hide R.Enabled, Move, OpsOk, BatchesOk, RingsOk, RingOf;
    RingStepKeepsNeverShort(s, frames, id, R.PublishProduce);
    assert Offer(s)[n..] == [];
    match s.pc
    case RefillPending =>
    case ReturnCompletions =>
    case Transmit =>
    case Recycle =>
  }

  lemma WorkerKeepsNeverShort(s: State, frames: set<Frame>)
    requires Inv(s) && SingleOwner(s, frames) && Sized(s, frames) && NeverShort(s) && Can(s, WorkerPublish)
    ensures NeverShort(Do(s, WorkerPublish)) && Sized(Do(s, WorkerPublish), frames)
  {
    hide Inv, SingleOwner, R.Enabled, Move;
    if Consuming(s.pc) {
      RingStepKeepsNeverShort(s, frames, Target(s.pc), R.PublishConsume);
    } else if Offer(s) != [] {
      ProduceKeepsNeverShort(s, frames);
    }
  }

  lemma StepKeepsNeverShort(s: State, frames: set<Frame>, step: Step)
    requires Inv(s) && SingleOwner(s, frames) && Sized(s, frames) && NeverShort(s) && Can(s, step)
    ensures NeverShort(Do(s, step)) && Sized(Do(s, step), frames)
  {
    hide Inv, SingleOwner, R.Enabled, Move, Accepted, AfterProduce, AfterConsume;
    match step
    case Copy(id, rs) => RingStepKeepsNeverShort(s, frames, id, rs);
    case KernelBegin(id, rs) => RingStepKeepsNeverShort(s, frames, id, rs);
    case WorkerBegin =>
      RingStepKeepsNeverShort(s, frames, Target(s.pc),
        if Producing(s.pc) then R.BeginProduce(Offer(s)) else R.BeginConsume(BATCH));
    case KernelPublish(id) => RingStepKeepsNeverShort(s, frames, id, KernelPublishStep(id));
    case WorkerPublish => WorkerKeepsNeverShort(s, frames);
    case _ =>
  }

  /** With full-sized rings, across any number of hand-offs to successor processes:
      every frame keeps exactly one owner, `pending_fill` is always empty, and when a
      worker stops every frame is in a ring or with the kernel. */
  lemma {:induction false} HandoffLosesNothing(run: seq<State>, frames: set<Frame>, i: nat)
    requires IsRun(run, frames) && Sized(run[0], frames) && i < |run|
    ensures Inv(run[i]) && SingleOwner(run[i], frames) && Sized(run[i], frames) && NeverShort(run[i])
    ensures run[i].pc.Stopped? ==>
              forall f :: f in frames ==> InRings(run[i], f) + InKernel(run[i], f) == 1
  {
    if i == 0 {
      hide R.Inv;
    } else {
      HandoffLosesNothing(run, frames, i - 1);
      var s := run[i - 1];
      assert Next(s, run[i]);
      NextKeeps(s, run[i], frames);
      var step :| Can(s, step) && run[i] == Do(s, step);
      StepKeepsNeverShort(s, frames, step);
    }
    AllHandedOver(run[i], frames);
  }

  lemma AllHandedOver(s: State, frames: set<Frame>)
    requires Inv(s) && SingleOwner(s, frames) && NeverShort(s)
    ensures s.pc.Stopped? ==> forall f :: f in frames ==> InRings(s, f) + InKernel(s, f) == 1
  {
    hide R.Inv;
    if s.pc.Stopped? {
      forall f | f in frames ensures InRings(s, f) + InKernel(s, f) == 1 {
        assert Owners(s, f) == 1 && InWorker(s, f) == 0;
      }
    }
  }
}
