/** The buffered ledger's data and the operations its writer and its callers perform on them. */
module AsyncLedger {

  const QUEUE_SIZE: nat := 4096
  const BATCH_SIZE: nat := 256

  /** The queue carries events and flush barriers. */
  datatype Item = Event(id: nat) | Barrier(flush: nat)

  /** `handed` are the batches given to the inner ledger, `stored` what it wrote of them, `logged` the
      numbers of dropped events reported so far. */
  datatype Ledger = Ledger(
    queue: seq<Item>, batch: seq<nat>, handed: seq<seq<nat>>, stored: seq<nat>, acks: set<nat>,
    dropped: nat, reported: nat, logged: seq<int>)

  function Flat(batches: seq<seq<nat>>): seq<nat> {
    if |batches| == 0 then [] else Flat(batches[..|batches| - 1]) + batches[|batches| - 1]
  }

  /** The events of a queue, in order. */
  function Events(queue: seq<Item>): seq<nat> {
    if |queue| == 0 then [] else (if queue[0].Event? then [queue[0].id] else []) + Events(queue[1..])
  }

  function Barriers(queue: seq<Item>): set<nat> {
    set i | 0 <= i < |queue| && queue[i].Barrier? :: queue[i].flush
  }

  predicate HasRoom(l: Ledger) { |l.queue| < QUEUE_SIZE }

  function Offered(l: Ledger, id: nat): Ledger {
    if HasRoom(l) then l.(queue := l.queue + [Event(id)]) else l.(dropped := l.dropped + 1)
  }

  /** The inner ledger is given the batch and writes its first `written` events; an empty batch is not
      worth a call. A failed write is not retried. */
  function Committed(l: Ledger, written: nat): Ledger
    requires written <= |l.batch|
  {
    if |l.batch| == 0 then l
    else l.(batch := [], handed := l.handed + [l.batch], stored := l.stored + l.batch[..written])
  }

  function Popped(l: Ledger): Ledger
    requires |l.queue| > 0
  {
    l.(queue := l.queue[1..])
  }

  function Batched(l: Ledger, id: nat): Ledger { l.(batch := l.batch + [id]) }

  function Acked(l: Ledger, flush: nat): Ledger { l.(acks := l.acks + {flush}) }

  function Reported(l: Ledger): Ledger {
    if l.dropped == l.reported then l else l.(logged := l.logged + [l.dropped - l.reported], reported := l.dropped)
  }

  function Sum(numbers: seq<int>): int {
    if |numbers| == 0 then 0 else Sum(numbers[..|numbers| - 1]) + numbers[|numbers| - 1]
  }

  // ---------------------------------------------------------------- sequences

  lemma FlatGrows(batches: seq<seq<nat>>, b: seq<nat>)
    ensures Flat(batches + [b]) == Flat(batches) + b
  {
    assert (batches + [b])[..|batches|] == batches;
  }

  lemma Regroup(x: seq<nat>, y: seq<nat>, z: seq<nat>)
    ensures x + (y + z) == (x + y) + z
  {
  }

  lemma {:induction false} EventsJoin(a: seq<Item>, b: seq<Item>)
    ensures Events(a + b) == Events(a) + Events(b)
  {
    if |a| == 0 {
      assert a + b == b;
    } else {
      assert (a + b)[1..] == a[1..] + b;
      EventsJoin(a[1..], b);
      Regroup(if a[0].Event? then [a[0].id] else [], Events(a[1..]), Events(b));
    }
  }

  lemma EventsPush(queue: seq<Item>, item: Item)
    ensures Events(queue + [item]) == Events(queue) + if item.Event? then [item.id] else []
  {
    EventsJoin(queue, [item]);
    assert [item][1..] == [];
  }

  /** The first `sizes[i]` events of each batch, batch after batch. */
  function Prefixes(batches: seq<seq<nat>>, sizes: seq<nat>): seq<nat>
    requires |batches| == |sizes| && forall i :: 0 <= i < |sizes| ==> sizes[i] <= |batches[i]|
  {
    if |sizes| == 0 then []
    else
      var last := |sizes| - 1;
      Prefixes(batches[..last], sizes[..last]) + batches[last][..sizes[last]]
  }

  lemma PrefixesGrow(batches: seq<seq<nat>>, sizes: seq<nat>, batch: seq<nat>, size: nat)
    requires |batches| == |sizes| && (forall i :: 0 <= i < |sizes| ==> sizes[i] <= |batches[i]|) && size <= |batch|
    ensures Prefixes(batches + [batch], sizes + [size]) == Prefixes(batches, sizes) + batch[..size]
  {
    assert (batches + [batch])[..|sizes|] == batches && (sizes + [size])[..|sizes|] == sizes;
  }

  lemma {:induction false} WholePrefixes(batches: seq<seq<nat>>, sizes: seq<nat>)
    requires |batches| == |sizes| && forall i :: 0 <= i < |sizes| ==> sizes[i] == |batches[i]|
    ensures Prefixes(batches, sizes) == Flat(batches)
  {
    if |sizes| > 0 {
      var last := |sizes| - 1;
      WholePrefixes(batches[..last], sizes[..last]);
      assert batches[last][..sizes[last]] == batches[last];
    }
  }

  /** Everything offered to the inner ledger, about to be, or waiting. */
  function Pipeline(l: Ledger): seq<nat> { Flat(l.handed) + l.batch + Events(l.queue) }

  lemma CommitKeepsPipeline(l: Ledger, written: nat)
    requires written <= |l.batch|
    ensures Flat(Committed(l, written).handed) == Flat(l.handed) + l.batch
    ensures Pipeline(Committed(l, written)) == Pipeline(l)
  {
    FlatGrows(l.handed, l.batch);
  }

  lemma PopKeepsPipeline(l: Ledger)
    requires |l.queue| > 0
    ensures var l' := if l.queue[0].Event? then Batched(Popped(l), l.queue[0].id) else Popped(l);
            Pipeline(l') == Pipeline(l)
  {
  }

  // ---------------------------------------------------------------- the code

  /** One item taken by the writer with nobody interfering: what `accept` does. */
  function Accepted(l: Ledger, item: Item, written: nat): Ledger
    requires written <= |l.batch| + 1 && (item.Barrier? ==> written <= |l.batch|)
  {
    match item
    case Barrier(flush) => Acked(Committed(l, written), flush)
    case Event(id) =>
      var l' := Batched(l, id);
      if |l'.batch| >= BATCH_SIZE then Committed(l', written) else l'
  }

  /** The inner ledger, of which only the outcome of a write is known here. */
  function Outcome(batch: seq<nat>, failAt: nat): nat { if failAt < |batch| then failAt else |batch| }

  class Async {
    var queue: seq<Item>
    var batch: seq<nat>
    var handed: seq<seq<nat>>
    var stored: seq<nat>
    var acks: set<nat>
    var dropped: nat
    var reported: nat
    var logged: seq<int>

    constructor ()
      ensures Snapshot() == Ledger([], [], [], [], {}, 0, 0, [])
    {
      queue, batch, handed, stored, acks, dropped, reported, logged := [], [], [], [], {}, 0, 0, [];
    }

    function Snapshot(): Ledger
      reads this
    {
      Ledger(queue, batch, handed, stored, acks, dropped, reported, logged)
    }

    method WriteEvent(id: nat)
      modifies this
      ensures Snapshot() == Offered(old(Snapshot()), id)
    {
      if |queue| < QUEUE_SIZE {
        queue := queue + [Event(id)];
      } else {
        dropped := dropped + 1;
      }
    }

    /** `failAt` is where the inner ledger fails, if it does. */
    method Commit(failAt: nat)
      modifies this
      ensures Snapshot() == Committed(old(Snapshot()), Outcome(old(batch), failAt))
    {
      if |batch| == 0 {
        return;
      }
      var i := 0;
      ghost var before := stored;
      while i < |batch| && i != failAt
        invariant 0 <= i <= Outcome(batch, failAt) && stored == before + batch[..i]
        invariant batch == old(batch) && queue == old(queue) && handed == old(handed) && acks == old(acks)
        invariant dropped == old(dropped) && reported == old(reported) && logged == old(logged)
      {
        stored := stored + [batch[i]];
        i := i + 1;
      }
      handed := handed + [batch];
      batch := [];
    }

    method Accept(item: Item, failAt: nat)
      modifies this
      ensures var l := old(Snapshot());
              var batch := if item.Event? then l.batch + [item.id] else l.batch;
              Snapshot() == Accepted(l, item, Outcome(batch, failAt))
    {
      if item.Barrier? {
        Commit(failAt);
        acks := acks + {item.flush};
        return;
      }
      batch := batch + [item.id];
      if |batch| >= BATCH_SIZE {
        Commit(failAt);
      }
    }

    method ReportDropped()
      modifies this
      ensures Snapshot() == Reported(old(Snapshot()))
    {
      if dropped == reported {
        return;
      }
      logged := logged + [dropped - reported];
      reported := dropped;
    }

    /** The loop after quit, with nobody interfering. */
    method Drain(failures: nat -> nat)
      modifies this
      ensures Snapshot() == Drained(old(Snapshot()), failures, 0)
    {
      var turn: nat := 0;
      while |queue| > 0
        invariant Drained(Snapshot(), failures, turn) == Drained(old(Snapshot()), failures, 0)
        decreases |queue|
      {
        var item := queue[0];
        queue := queue[1..];
        Accept(item, failures(turn));
        turn := turn + 1;
      }
      Commit(failures(turn));
      ReportDropped();
    }
  }

  /** A commit writes the events of the batch one after the other up to the one that fails, hands the batch over
      whole, and touches nothing else. */
  lemma CommitWritesUntilFailure(l: Ledger, failAt: nat)
    requires |l.batch| > 0
    ensures var l' := Committed(l, Outcome(l.batch, failAt));
            && l.stored <= l'.stored && |l'.stored| <= |l.stored| + |l.batch|
            && (forall i :: 0 <= i < |l.batch| ==>
                  (|l.stored| + i < |l'.stored| <==> i < failAt)
                  && (|l.stored| + i < |l'.stored| ==> l'.stored[|l.stored| + i] == l.batch[i]))
            && l' == l.(batch := [], handed := l.handed + [l.batch], stored := l'.stored)
  {
  }

  function Taken(l: Ledger, failAt: nat): Ledger
    requires |l.queue| > 0
  {
    var item := l.queue[0];
    Accepted(Popped(l), item, if item.Event? then Outcome(l.batch + [item.id], failAt) else Outcome(l.batch, failAt))
  }

  function Drained(l: Ledger, failures: nat -> nat, turn: nat): Ledger
    decreases |l.queue|
  {
    if |l.queue| == 0 then Reported(Committed(l, Outcome(l.batch, failures(turn))))
    else Drained(Taken(l, failures(turn)), failures, turn + 1)
  }

  ghost predicate BatchesFit(l: Ledger) {
    |l.batch| < BATCH_SIZE && forall b :: b in l.handed ==> 0 < |b| <= BATCH_SIZE
  }

  lemma TakenKeepsBarriers(l: Ledger, failAt: nat)
    requires |l.queue| > 0
    ensures Taken(l, failAt).acks + Barriers(Taken(l, failAt).queue) == l.acks + Barriers(l.queue)
  {
    var tail, item := l.queue[1..], l.queue[0];
    BarriersSplit(l.queue);
    assert Taken(l, failAt).queue == tail;
  }

  lemma BarriersSplit(queue: seq<Item>)
    requires |queue| > 0
    ensures Barriers(queue) == (if queue[0].Barrier? then {queue[0].flush} else {}) + Barriers(queue[1..])
  {
    forall i | 0 < i < |queue| && queue[i].Barrier? ensures queue[i].flush in Barriers(queue[1..]) {
      assert queue[1..][i - 1] == queue[i];
    }
  }

  lemma TakenKeeps(l: Ledger, failAt: nat)
    requires |l.queue| > 0 && BatchesFit(l)
    ensures Pipeline(Taken(l, failAt)) == Pipeline(l) && BatchesFit(Taken(l, failAt))
    ensures l.handed <= Taken(l, failAt).handed
  {
    AcceptKeepsPipeline(l, l.queue[0], failAt);
  }

  lemma LastCommit(l: Ledger, written: nat)
    requires |l.queue| == 0 && BatchesFit(l) && written <= |l.batch|
    ensures var l' := Committed(l, written);
            && l'.queue == [] && l'.batch == [] && Flat(l'.handed) == Pipeline(l)
            && l'.acks == l.acks + Barriers(l.queue) && BatchesFit(l') && l.handed <= l'.handed
  {
    CommitKeepsPipeline(l, written);
  }

  /** Draining hands over everything in order, acknowledges every barrier, and keeps the batches short. */
  lemma {:induction false} DrainEmpties(l: Ledger, failures: nat -> nat, turn: nat)
    requires BatchesFit(l)
    ensures var l' := Drained(l, failures, turn);
            && l'.queue == [] && l'.batch == [] && Flat(l'.handed) == Pipeline(l)
            && l'.acks == l.acks + Barriers(l.queue)
            && BatchesFit(l') && l.handed <= l'.handed && l'.reported == l'.dropped
    decreases |l.queue|
  {
    if |l.queue| == 0 {
      LastCommit(l, Outcome(l.batch, failures(turn)));
    } else {
      TakenKeeps(l, failures(turn));
      TakenKeepsBarriers(l, failures(turn));
      DrainEmpties(Taken(l, failures(turn)), failures, turn + 1);
    }
  }

  lemma OutcomeWhole(batch: seq<nat>, failAt: nat)
    requires |batch| <= failAt
    ensures Outcome(batch, failAt) == |batch|
  {
  }

  lemma CommitStoresWhole(l: Ledger)
    requires l.stored == Flat(l.handed)
    ensures var l' := Committed(l, |l.batch|); l'.stored == Flat(l'.handed)
  {
    FlatGrows(l.handed, l.batch);
    assert l.batch[..|l.batch|] == l.batch;
  }

  lemma TakenStores(l: Ledger, failAt: nat)
    requires |l.queue| > 0 && BatchesFit(l) && failAt >= BATCH_SIZE && l.stored == Flat(l.handed)
    ensures Taken(l, failAt).stored == Flat(Taken(l, failAt).handed)
  {
    var item := l.queue[0];
    if item.Event? {
      OutcomeWhole(l.batch + [item.id], failAt);
      CommitStoresWhole(Batched(Popped(l), item.id));
    } else {
      OutcomeWhole(l.batch, failAt);
      CommitStoresWhole(Popped(l));
    }
  }

  /** While no write fails, draining leaves everything in the inner ledger, in order. */
  lemma {:induction false} DrainStores(l: Ledger, failures: nat -> nat, turn: nat)
    requires BatchesFit(l) && l.stored == Flat(l.handed) && forall t :: failures(t) >= BATCH_SIZE
    ensures Drained(l, failures, turn).stored == Flat(l.handed) + l.batch + Events(l.queue)
    decreases |l.queue|
  {
    if |l.queue| == 0 {
      OutcomeWhole(l.batch, failures(turn));
      CommitStoresWhole(l);
      LastCommit(l, |l.batch|);
    } else {
      var next := Taken(l, failures(turn));
      TakenKeeps(l, failures(turn));
      TakenStores(l, failures(turn));
      DrainStores(next, failures, turn + 1);
    }
  }

  lemma AcceptKeepsPipeline(l: Ledger, item: Item, failAt: nat)
    requires |l.queue| > 0 && l.queue[0] == item
    ensures var batch := if item.Event? then l.batch + [item.id] else l.batch;
            Pipeline(Accepted(Popped(l), item, Outcome(batch, failAt))) == Pipeline(l)
  {
    PopKeepsPipeline(l);
    var batch := if item.Event? then l.batch + [item.id] else l.batch;
    if item.Event? {
      CommitKeepsPipeline(Batched(Popped(l), item.id), Outcome(batch, failAt));
    } else {
      CommitKeepsPipeline(Popped(l), Outcome(batch, failAt));
    }
  }
}
