/**
  The daemon's side of the rings as code: `Ring::produce` and `Ring::consume`
  over a shared descriptor array, and the `AdoptedSocket` operations built on
  them. A call is one pass through the steps of the ring protocol, so what it does
  to the queue follows from the protocol; what other steps may come between is
  settled there for every interleaving.
 */
module AdoptedSocket {
  import opened Bits
  import R = RingProtocol

  /** The `n` entries that index word `cons` and its successors denote. */
  ghost function Window<T>(slots: seq<T>, cons: nat, n: nat): (q: seq<T>)
    requires |slots| > 0
  {
    seq(n, j requires 0 <= j < n => slots[(cons + j) % |slots|])
  }

  class Ring<T> {
    const descs: array<T>
    var producer: nat
    var consumer: nat
    ghost const order: nat
    ghost const start: nat
    ghost var sent: seq<T>
    ghost var recv: seq<T>

    /** The ring at rest, as the protocol sees it. */
    ghost function Proto(): R.Ring<T>
      reads this, descs
    {
      R.Ring(order, descs[..], producer, consumer, R.ProducerIdle, R.ConsumerIdle, start, sent, recv)
    }

    ghost predicate Valid()
      reads this, descs
    {
      R.Inv(Proto())
    }

    ghost function Queue(): seq<T>
      reads this, descs
    {
      Proto().Queue()
    }

    /** Index words that delimit at most a ring full. */
    static predicate WordsFit(size: nat, order: nat, producer: nat, consumer: nat) {
      order < 32 && size == Pow2(order) && producer < WORD && consumer < WORD && WSub(producer, consumer) <= size
    }

    /** `ring_mmap`: attach to words and descriptors the kernel already holds; the queue is
        what lies between the words. */
    constructor (descs: array<T>, producer: nat, consumer: nat, ghost order: nat)
      ensures this.descs == descs && this.producer == producer && this.consumer == consumer
      ensures WordsFit(descs.Length, order, producer, consumer) ==>
                Valid() && descs.Length > 0 && Queue() == Window(descs[..], consumer, WSub(producer, consumer))
    {
      this.descs, this.producer, this.consumer := descs, producer, consumer;
      this.order, this.start, this.recv := order, consumer, [];
      this.sent := if descs.Length == 0 then [] else Window(descs[..], consumer, WSub(producer, consumer));
      new;
      if WordsFit(descs.Length, order, producer, consumer) { R.AttachedInv(Proto(), WSub(producer, consumer)); }
    }

    lemma QueueFits()
      requires Valid()
      ensures |Queue()| <= descs.Length
    {
      R.WordsMeasureQueue(Proto());
    }

    /** Append as much of `entries` as fits. */
    method Produce(entries: seq<T>) returns (n: nat)
      requires Valid()
      modifies this`producer, this`sent, descs
      ensures Valid()
      ensures entries != [] ==> Proto() == R.ProduceAlone(old(Proto()), entries)
      ensures n == Min(descs.Length - |old(Queue())|, |entries|)
      ensures Queue() == old(Queue()) + entries[..n]
    {
      if entries == [] { QueueFits(); return 0; }
      ghost var r0 := Proto();
      var prod, cons := producer, consumer;
      R.ProduceBegins(r0, entries);
      assert r0.Size() == |r0.slots|;
      var free := WSub(descs.Length, WSub(prod, cons));
      n := Min(free, |entries|);
      ghost var begun := R.Take(r0, R.BeginProduce(entries));
      assert begun.slots == descs[..];
      hide *;
      ghost var r := WriteAll(entries, prod, n, begun);
      R.ProduceEnds(r0, entries, r);
      producer := WAdd(prod, n);
      sent := sent + entries[..n];
    }

    /** The slot copies of a produce. */
    method WriteAll(entries: seq<T>, prod: nat, n: nat, ghost begun: R.Ring<T>) returns (ghost r: R.Ring<T>)
      requires R.Inv(begun) && begun == Proto().(producer := R.Writing(entries, prod, n, 0)) && n <= |entries|
      requires begun.Size() == descs.Length && begun.slots == descs[..]
      modifies descs
      ensures R.Inv(r) && r == R.Repeat(begun, R.WriteSlot, n) && r.Queue() == begun.Queue()
      ensures r == begun.(slots := descs[..], producer := R.Writing(entries, prod, n, n))
    {
      hide R.Inv, R.Repeat, R.Masked, R.Ring.Queue, Pow2, And, WAdd;
      r := begun;
      R.RepeatNone(begun, R.WriteSlot);
      for i := 0 to n
        invariant R.Inv(r) && r == R.Repeat(begun, R.WriteSlot, i) && r.Queue() == begun.Queue()
        invariant r.Size() == descs.Length
        invariant r == begun.(slots := descs[..], producer := R.Writing(entries, prod, n, i))
      {
        R.ProduceCopies(begun, r, i);
        var at := R.Masked(WAdd(prod, i), descs.Length);
        ghost var before := descs[..];
        descs[at] := entries[i];
        assert descs[..] == before[at := entries[i]];
        r := R.Repeat(begun, R.WriteSlot, i + 1);
      }
    }

    /** Move the oldest entries, at most `out.Length`, into the front of `out`. */
    method Consume(out: array<T>) returns (n: nat)
      requires Valid() && out != descs
      modifies this`consumer, this`recv, out
      ensures Valid()
      ensures out.Length > 0 ==> Proto() == R.ConsumeAlone(old(Proto()), out.Length)
      ensures n == Min(|old(Queue())|, out.Length)
      ensures out[..n] == old(Queue())[..n] && out[n..] == old(out[n..])
      ensures Queue() == old(Queue())[n..]
    {
      if out.Length == 0 { return 0; }
      ghost var r0 := Proto();
      var cons, prod := consumer, producer;
      R.ConsumeBegins(r0, out.Length);
      assert r0.Size() == |r0.slots|;
      var available := WSub(prod, cons);
      n := Min(available, out.Length);
      ghost var begun := R.Take(r0, R.BeginConsume(out.Length));
      assert begun.slots == descs[..];
      hide *;
      ghost var r := ReadAll(out, cons, n, begun);
      R.ConsumeEnds(r0, out.Length, r);
      consumer := WAdd(cons, n);
      recv := recv + out[..n];
    }

    /** The slot copies of a consume. */
    method ReadAll(out: array<T>, cons: nat, n: nat, ghost begun: R.Ring<T>) returns (ghost r: R.Ring<T>)
      requires R.Inv(begun) && begun == Proto().(consumer := R.Reading(cons, n, [])) && n <= out.Length && out != descs
      requires begun.Size() == descs.Length && begun.slots == descs[..]
      modifies out
      ensures R.Inv(r) && r == R.Repeat(begun, R.ReadSlot, n) && r.Queue() == begun.Queue()
      ensures r == begun.(consumer := R.Reading(cons, n, out[..n])) && out[n..] == old(out[n..])
    {
      hide R.Inv, R.Repeat, R.Masked, R.Ring.Queue, Pow2, And, WAdd;
      r := begun;
      R.RepeatNone(begun, R.ReadSlot);
      for i := 0 to n
        invariant R.Inv(r) && r == R.Repeat(begun, R.ReadSlot, i) && r.Queue() == begun.Queue()
        invariant r.Size() == descs.Length
        invariant r == begun.(consumer := R.Reading(cons, n, out[..i])) && out[i..] == old(out[i..])
        invariant descs[..] == begun.slots
      {
        R.ConsumeCopies(begun, r, i);
        out[i] := descs[R.Masked(WAdd(cons, i), descs.Length)];
        assert out[..i + 1] == out[..i] + [out[i]];
        r := R.Repeat(begun, R.ReadSlot, i + 1);
      }
    }
  }

  /** `xdp_desc`: a UMEM address with the length of the packet in it. */
  datatype Desc = Desc(addr: nat, len: nat, options: nat)

  function Addrs(descs: seq<Desc>): seq<nat> {
    seq(|descs|, i requires 0 <= i < |descs| => descs[i].addr)
  }

  /** The bridge of `complete_descs`: bare addresses as empty descriptors. */
  method Describe(scratch: array<Desc>, addrs: seq<nat>)
    requires |addrs| <= scratch.Length
    modifies scratch
    ensures Addrs(scratch[..|addrs|]) == addrs && scratch[|addrs|..] == old(scratch[|addrs|..])
  {
    for i := 0 to |addrs|
      invariant forall j :: 0 <= j < i ==> scratch[j].addr == addrs[j]
      invariant scratch[|addrs|..] == old(scratch[|addrs|..])
    {
      scratch[i] := Desc(addrs[i], 0, 0);
    }
  }

  class Socket {
    const rx: Ring<Desc>
    const tx: Ring<Desc>
    const fill: Ring<nat>
    const comp: Ring<nat>

    /** `adopt`: rehydrate a socket from rings inherited across a restart. */
    constructor (rx: Ring<Desc>, tx: Ring<Desc>, fill: Ring<nat>, comp: Ring<nat>)
      requires rx.Valid() && tx.Valid() && fill.Valid() && comp.Valid()
      requires rx != tx && rx.descs != tx.descs && fill != comp && fill.descs != comp.descs
      ensures Valid()
      ensures this.rx == rx && this.tx == tx && this.fill == fill && this.comp == comp
    {
      this.rx, this.tx, this.fill, this.comp := rx, tx, fill, comp;
    }

    ghost predicate Valid()
      reads rx, tx, fill, comp, rx.descs, tx.descs, fill.descs, comp.descs
    {
      && rx.Valid() && tx.Valid() && fill.Valid() && comp.Valid()
      && rx != tx && rx.descs != tx.descs
      && fill != comp && fill.descs != comp.descs
    }

    /** `poll_recv`; `ready` is whether the poll reported the socket readable. */
    method PollRecv(out: array<Desc>, ready: bool) returns (n: nat)
      requires Valid() && out != rx.descs && out != tx.descs
      modifies rx`consumer, rx`recv, out
      ensures Valid()
      ensures n == if ready then Min(|old(rx.Queue())|, out.Length) else 0
      ensures out[..n] == old(rx.Queue())[..n] && out[n..] == old(out[n..])
      ensures rx.Queue() == old(rx.Queue())[n..]
    {
      if !ready { return 0; }
      n := rx.Consume(out);
    }

    method Transmit(descs: seq<Desc>) returns (n: nat)
      requires Valid()
      modifies tx`producer, tx`sent, tx.descs
      ensures Valid()
      ensures n == Min(tx.descs.Length - |old(tx.Queue())|, |descs|)
      ensures tx.Queue() == old(tx.Queue()) + descs[..n]
      ensures rx.Queue() == old(rx.Queue())
    {
      n := tx.Produce(descs);
    }

    method RefillDescs(descs: seq<Desc>) returns (n: nat)
      requires Valid()
      modifies fill`producer, fill`sent, fill.descs
      ensures Valid()
      ensures n == Min(fill.descs.Length - |old(fill.Queue())|, |descs|)
      ensures fill.Queue() == old(fill.Queue()) + Addrs(descs[..n])
      ensures comp.Queue() == old(comp.Queue())
    {
      n := fill.Produce(Addrs(descs));
      assert Addrs(descs)[..n] == Addrs(descs[..n]);
    }

    /** Drain completions into `scratch` and hand their frames straight back to the
        fill ring; what did not fit is left in `scratch[refilled..consumed]`. */
    method CompleteDescs(scratch: array<Desc>) returns (consumed: nat, refilled: nat)
      requires Valid() && scratch != rx.descs && scratch != tx.descs
      modifies comp`consumer, comp`recv, fill`producer, fill`sent, fill.descs, scratch
      ensures Valid()
      ensures consumed == Min(|old(comp.Queue())|, scratch.Length)
      ensures refilled == Min(fill.descs.Length - |old(fill.Queue())|, consumed)
      ensures comp.Queue() == old(comp.Queue())[consumed..]
      ensures fill.Queue() == old(fill.Queue()) + old(comp.Queue())[..refilled]
      ensures Addrs(scratch[..consumed]) == old(comp.Queue())[..consumed]
      ensures scratch[consumed..] == old(scratch[consumed..])
    {
      hide R.Inv, R.ConsumeAlone, R.ProduceAlone, R.Ring.Queue;
      ghost var q := comp.Queue();
      var addrs := new nat[scratch.Length](_ => 0);
      consumed := comp.Consume(addrs);
      var taken := addrs[..consumed];
      Describe(scratch, taken);
      refilled := 0;
      fill.QueueFits();
      if consumed > 0 {
        refilled := fill.Produce(taken);
        assert taken[..refilled] == q[..refilled];
      }
    }
  }
}
