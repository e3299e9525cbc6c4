/** The buffered ledger as a protocol: any number of request handlers, flushers and closers, one writer,
    every interleaving of their steps. */
module LedgerProtocol {
  import opened AsyncLedger

  /** What the writer does once the batch is committed. */
  datatype Next = Continue | Acknowledge(flush: nat) | Report | Finish

  /** Where the writer is: at a select, about to commit, about to close an ack, about to report, about to
      close `stopped`, gone. */
  datatype Pc = Select | Commit(next: Next) | CloseAck(flush: nat) | Reporting(last: bool) | Stopping | Gone

  /** A flush call: before its barrier is queued, waiting, or returned. `mark` is how many events had been
      accepted when the call began. */
  datatype Flush =
    | Calling(mark: nat) | Waiting(mark: nat) | ByAck(mark: nat) | ByStopped(mark: nat) | Cancelled(mark: nat)

  /** `offered`, `accepted`, `behind` and `lastPoll` record the history: events offered, events queued in
      order, events queued before each barrier, events queued before the writer's last empty poll. */
  datatype State = State(
    l: Ledger, pc: Pc, draining: bool, quit: bool, innerClosed: bool, closers: nat, flushes: map<nat, Flush>,
    offered: nat, accepted: seq<nat>, behind: map<nat, nat>, lastPoll: nat)

  datatype Step =
    | Write
    | CallFlush(flush: nat) | QueueBarrier(flush: nat)
    | ReturnAcked(flush: nat) | ReturnStopped(flush: nat) | Cancel(flush: nat)
    | CallClose | ReturnClose
    | Receive | Tick | SeeQuit | EmptyPoll | DoCommit(written: nat) | DoCloseAck | DoReport | CloseStopped

  const INIT := State(Ledger([], [], [], [], {}, 0, 0, []), Select, false, false, false, 0, map[], 0, [], map[], 0)

  predicate InFlight(s: State, f: nat) { f in s.flushes && (s.flushes[f].Calling? || s.flushes[f].Waiting?) }

  predicate Enabled(s: State, step: Step) {
    match step
    case Write => true
    case CallFlush(f) => f !in s.flushes
    case QueueBarrier(f) => f in s.flushes && s.flushes[f].Calling? && HasRoom(s.l)
    case ReturnAcked(f) => f in s.flushes && s.flushes[f].Waiting? && f in s.l.acks
    case ReturnStopped(f) => InFlight(s, f) && s.pc.Gone?
    case Cancel(f) => InFlight(s, f)
    case CallClose => true
    case ReturnClose => s.closers > 0 && s.pc.Gone?
    case Receive => s.pc.Select? && |s.l.queue| > 0
    case Tick => s.pc.Select? && !s.draining
    case SeeQuit => s.pc.Select? && !s.draining && s.quit
    case EmptyPoll => s.pc.Select? && s.draining && |s.l.queue| == 0
    case DoCommit(written) => s.pc.Commit? && written <= |s.l.batch|
    case DoCloseAck => s.pc.CloseAck?
    case DoReport => s.pc.Reporting?
    case CloseStopped => s.pc.Stopping?
  }

  /** The writer's place once a commit is done. */
  function Then(next: Next): Pc {
    match next
    case Continue => Select
    case Acknowledge(f) => CloseAck(f)
    case Report => Reporting(false)
    case Finish => Reporting(true)
  }

  function Received(s: State): State
    requires |s.l.queue| > 0
  {
    match s.l.queue[0]
    case Barrier(f) => s.(l := Popped(s.l), pc := Commit(Acknowledge(f)))
    case Event(id) =>
      var l := Batched(Popped(s.l), id);
      s.(l := l, pc := if |l.batch| >= BATCH_SIZE then Commit(Continue) else Select)
  }

  function Apply(s: State, step: Step): State
    requires Enabled(s, step)
  {
    match step
    case Write =>
      s.(l := Offered(s.l, s.offered), offered := s.offered + 1,
         accepted := if HasRoom(s.l) then s.accepted + [s.offered] else s.accepted)
    case CallFlush(f) => s.(flushes := s.flushes[f := Calling(|s.accepted|)])
    case QueueBarrier(f) =>
      s.(l := s.l.(queue := s.l.queue + [Barrier(f)]), behind := s.behind[f := |s.accepted|],
         flushes := s.flushes[f := Waiting(s.flushes[f].mark)])
    case ReturnAcked(f) => s.(flushes := s.flushes[f := ByAck(s.flushes[f].mark)])
    case ReturnStopped(f) => s.(flushes := s.flushes[f := ByStopped(s.flushes[f].mark)])
    case Cancel(f) => s.(flushes := s.flushes[f := Cancelled(s.flushes[f].mark)])
    case CallClose => s.(quit := true, closers := s.closers + 1)
    case ReturnClose => s.(innerClosed := true, closers := s.closers - 1)
    case Receive => Received(s)
    case Tick => s.(pc := Commit(Report))
    case SeeQuit => s.(draining := true)
    case EmptyPoll => s.(pc := Commit(Finish), lastPoll := |s.accepted|)
    case DoCommit(written) => s.(l := Committed(s.l, written), pc := Then(s.pc.next))
    case DoCloseAck => s.(l := Acked(s.l, s.pc.flush), pc := Select)
    case DoReport => s.(l := Reported(s.l), pc := if s.pc.last then Stopping else Select)
    case CloseStopped => s.(pc := Gone)
  }

  /** The state after a run from the start, and the runs that can happen. */
  ghost predicate Legal(steps: seq<Step>)
    decreases |steps|, 0
  {
    |steps| == 0 || (Legal(steps[..|steps| - 1]) && Enabled(After(steps[..|steps| - 1]), steps[|steps| - 1]))
  }

  ghost function After(steps: seq<Step>): State
    requires Legal(steps)
    decreases |steps|, 1
  {
    if |steps| == 0 then INIT else Apply(After(steps[..|steps| - 1]), steps[|steps| - 1])
  }

  // ---------------------------------------------------------------- order and counts

  ghost predicate Increasing(s: seq<nat>) { forall i, j :: 0 <= i < j < |s| ==> s[i] < s[j] }

  /** Handed over, then the batch, then the queue: together the accepted events, in order. */
  ghost predicate InOrder(s: State) {
    && Pipeline(s.l) == s.accepted
    && Increasing(s.accepted) && (forall i :: 0 <= i < |s.accepted| ==> s.accepted[i] < s.offered)
    && s.offered == |s.accepted| + s.l.dropped
  }

  lemma StepKeepsOrder(s: State, step: Step)
    requires InOrder(s) && Enabled(s, step)
    ensures InOrder(Apply(s, step))
  {
    match step
    case Write => EventsPush(s.l.queue, Event(s.offered));
    case QueueBarrier(f) => EventsPush(s.l.queue, Barrier(f));
    case Receive => PopKeepsPipeline(s.l);
    case DoCommit(written) => CommitKeepsPipeline(s.l, written);
    case _ =>
  }

  /** Bounds of the queue, the batch and every batch handed over. */
  ghost predicate Bounded(s: State) {
    && |s.l.queue| <= QUEUE_SIZE
    && |s.l.batch| <= BATCH_SIZE && (|s.l.batch| == BATCH_SIZE ==> s.pc.Commit?)
    && (forall b :: b in s.l.handed ==> 0 < |b| <= BATCH_SIZE)
  }

  lemma StepKeepsBounds(s: State, step: Step)
    requires Bounded(s) && Enabled(s, step)
    ensures Bounded(Apply(s, step))
  {
  }

  /** What the inner ledger wrote: accepted events, in order, none twice. */
  ghost predicate StoredInOrder(s: State) {
    && Increasing(s.l.stored)
    && forall i :: 0 <= i < |s.l.stored| ==> s.l.stored[i] in Flat(s.l.handed)
  }

  lemma StepKeepsStored(s: State, step: Step)
    requires InOrder(s) && StoredInOrder(s) && Enabled(s, step)
    ensures StoredInOrder(Apply(s, step))
  {
    if step.DoCommit? && |s.l.batch| > 0 {
      CommitExtendsStored(s, step.written);
    }
  }

  lemma CommitExtendsStored(s: State, written: nat)
    requires InOrder(s) && StoredInOrder(s) && written <= |s.l.batch| && |s.l.batch| > 0
    ensures StoredInOrder(s.(l := Committed(s.l, written)))
  {
    var flat, more := Flat(s.l.handed), s.l.batch[..written];
    FlatGrows(s.l.handed, s.l.batch);
    forall a, b | a in flat && b in more ensures a < b {
      var i :| 0 <= i < |flat| && flat[i] == a;
      var j :| 0 <= j < |more| && more[j] == b;
      assert s.accepted[i] == a && s.accepted[|flat| + j] == b;
    }
    forall i, j | 0 <= i < j < |more| ensures more[i] < more[j] {
      assert s.accepted[|flat| + i] == more[i] && s.accepted[|flat| + j] == more[j];
    }
    var all := s.l.stored + more;
    forall i, j | 0 <= i < j < |all| ensures all[i] < all[j] {
      if i < |s.l.stored| <= j {
        assert s.l.stored[i] in flat && more[j - |s.l.stored|] in more;
      }
    }
    forall i | 0 <= i < |all| ensures all[i] in flat + s.l.batch {
      if i < |s.l.stored| {
        assert all[i] in flat;
      } else {
        assert all[i] in s.l.batch;
      }
    }
  }

  // ---------------------------------------------------------------- barriers

  /** The writer holds the barrier it took from the queue. */
  predicate Holds(s: State, f: nat) { s.pc == Commit(Acknowledge(f)) || s.pc == CloseAck(f) }

  ghost predicate QueuedAt(s: State, f: nat, i: int) { 0 <= i < |s.l.queue| && s.l.queue[i] == Barrier(f) }

  /** Events that will have been handed over when the barrier at `i` is acknowledged. */
  function Ahead(l: Ledger, i: nat): nat
    requires i <= |l.queue|
  {
    |Flat(l.handed)| + |l.batch| + |Events(l.queue[..i])|
  }

  /** Every barrier is in one place, and knows how many events precede it. */
  ghost predicate BarriersPlaced(s: State) {
    && (forall f, i :: QueuedAt(s, f, i) ==>
          f in s.behind && s.behind[f] == Ahead(s.l, i) && f !in s.l.acks && !Holds(s, f))
    && (forall f, i, j :: QueuedAt(s, f, i) && QueuedAt(s, f, j) ==> i == j)
    && (s.pc.Commit? && s.pc.next.Acknowledge? ==>
          s.pc.next.flush in s.behind && s.behind[s.pc.next.flush] == Ahead(s.l, 0) && s.pc.next.flush !in s.l.acks)
    && (s.pc.CloseAck? ==>
          && s.pc.flush in s.behind && s.behind[s.pc.flush] == |Flat(s.l.handed)|
          && s.l.batch == [] && s.pc.flush !in s.l.acks)
    && (forall f :: f in s.l.acks ==> f in s.behind && s.behind[f] <= |Flat(s.l.handed)|)
  }

  /** No barrier gets lost. */
  ghost predicate BarriersKept(s: State) {
    forall f :: f in s.behind ==> f in s.l.acks || Holds(s, f) || exists i :: QueuedAt(s, f, i)
  }

  /** Flush calls agree with their barriers. */
  ghost predicate FlushesMatch(s: State) {
    && (forall f :: f in s.behind ==> f in s.flushes && !s.flushes[f].Calling?)
    && (forall f :: f in s.flushes ==> s.flushes[f].mark <= |s.accepted|)
    && (forall f :: f in s.flushes && (s.flushes[f].Waiting? || s.flushes[f].ByAck?) ==>
          f in s.behind && s.flushes[f].mark <= s.behind[f])
    && (forall f :: f in s.flushes && s.flushes[f].ByAck? ==> f in s.l.acks)
  }

  predicate Returns(step: Step) { step.ReturnAcked? || step.ReturnStopped? || step.Cancel? }

  lemma CallsKeepFlushes(s: State, step: Step)
    requires FlushesMatch(s) && Enabled(s, step) && (step.CallFlush? || step.QueueBarrier? || Returns(step))
    ensures FlushesMatch(Apply(s, step))
  {
  }

  lemma StepKeepsFlushes(s: State, step: Step)
    requires FlushesMatch(s) && Enabled(s, step)
    ensures FlushesMatch(Apply(s, step))
  {
    if step.CallFlush? || step.QueueBarrier? || Returns(step) {
      CallsKeepFlushes(s, step);
    } else {
      var s' := Apply(s, step);
      assert s'.flushes == s.flushes && s'.behind == s.behind && s.l.acks <= s'.l.acks && |s.accepted| <= |s'.accepted|;
    }
  }

  lemma AppendKeepsPlaces(s: State, item: Item)
    requires BarriersPlaced(s)
    ensures var l' := s.l.(queue := s.l.queue + [item]);
            forall f, i :: 0 <= i < |s.l.queue| && l'.queue[i] == Barrier(f) ==>
              QueuedAt(s, f, i) && s.behind[f] == Ahead(l', i)
  {
    var l' := s.l.(queue := s.l.queue + [item]);
    forall f, i | 0 <= i < |s.l.queue| && l'.queue[i] == Barrier(f)
      ensures QueuedAt(s, f, i) && s.behind[f] == Ahead(l', i)
    {
      assert QueuedAt(s, f, i);
      assert l'.queue[..i] == s.l.queue[..i];
    }
  }

  lemma QueueKeepsBarriers(s: State, f: nat)
    requires BarriersPlaced(s) && FlushesMatch(s) && InOrder(s) && Enabled(s, QueueBarrier(f))
    ensures BarriersPlaced(Apply(s, QueueBarrier(f)))
  {
    var s' := Apply(s, QueueBarrier(f));
    AppendKeepsPlaces(s, Barrier(f));
    assert s'.l.queue[..|s.l.queue|] == s.l.queue;
    forall g, i | QueuedAt(s', g, i)
      ensures (i < |s.l.queue| && QueuedAt(s, g, i) && g != f && s'.behind[g] == Ahead(s'.l, i))
           || (i == |s.l.queue| && g == f)
    {
      if i < |s.l.queue| {
        assert QueuedAt(s, g, i);
      }
    }
    assert s'.behind[f] == Ahead(s'.l, |s.l.queue|);
  }

  lemma WriteKeepsBarriers(s: State)
    requires BarriersPlaced(s)
    ensures BarriersPlaced(Apply(s, Write))
  {
    var s' := Apply(s, Write);
    if HasRoom(s.l) {
      AppendKeepsPlaces(s, Event(s.offered));
      forall g, i | QueuedAt(s', g, i) ensures QueuedAt(s, g, i) && s'.behind[g] == Ahead(s'.l, i) {
        assert i < |s.l.queue|;
      }
    } else {
      forall g, i | QueuedAt(s', g, i) ensures QueuedAt(s, g, i) {}
    }
  }

  /** Taking the head moves every other barrier up without changing what precedes it. */
  lemma ReceiveShifts(s: State, f: nat, i: int)
    requires BarriersPlaced(s) && Enabled(s, Receive) && QueuedAt(Received(s), f, i)
    ensures QueuedAt(s, f, i + 1) && s.behind[f] == Ahead(Received(s).l, i)
  {
    var q := s.l.queue;
    assert QueuedAt(s, f, i + 1);
    assert q[..i + 1] == [q[0]] + q[1..][..i];
    EventsJoin([q[0]], q[1..][..i]);
    assert [q[0]][1..] == [];
  }

  lemma ReceiveKeepsBarriers(s: State)
    requires BarriersPlaced(s) && Enabled(s, Receive)
    ensures BarriersPlaced(Received(s))
  {
    var s', head := Received(s), s.l.queue[0];
    forall f, i | QueuedAt(s', f, i) ensures QueuedAt(s, f, i + 1) && s.behind[f] == Ahead(s'.l, i) {
      ReceiveShifts(s, f, i);
    }
    if head.Barrier? {
      assert QueuedAt(s, head.flush, 0);
      assert s.l.queue[..0] == s'.l.queue[..0] == [];
    }
  }

  lemma CommitKeepsBarriers(s: State, written: nat)
    requires BarriersPlaced(s) && Enabled(s, DoCommit(written))
    ensures BarriersPlaced(Apply(s, DoCommit(written)))
  {
    var s' := Apply(s, DoCommit(written));
    CommitKeepsPipeline(s.l, written);
    forall f, i | QueuedAt(s', f, i) ensures QueuedAt(s, f, i) && s.behind[f] == Ahead(s'.l, i) {
      assert QueuedAt(s, f, i);
    }
    assert s.l.queue[..0] == [];
  }

  lemma OthersKeepBarriers(s: State, step: Step)
    requires BarriersPlaced(s) && Enabled(s, step)
    requires !step.Write? && !step.QueueBarrier? && !step.Receive? && !step.DoCommit?
    ensures BarriersPlaced(Apply(s, step))
  {
    var s' := Apply(s, step);
    forall f, i ensures QueuedAt(s', f, i) <==> QueuedAt(s, f, i) {}
    assert s'.l.queue == s.l.queue && s'.l.batch == s.l.batch && s'.l.handed == s.l.handed;
  }

  lemma StepKeepsBarriers(s: State, step: Step)
    requires BarriersPlaced(s) && FlushesMatch(s) && InOrder(s) && Enabled(s, step)
    ensures BarriersPlaced(Apply(s, step))
  {
    match step
    case Write => WriteKeepsBarriers(s);
    case QueueBarrier(f) => QueueKeepsBarriers(s, f);
    case Receive => ReceiveKeepsBarriers(s);
    case DoCommit(written) => CommitKeepsBarriers(s, written);
    case _ => OthersKeepBarriers(s, step);
  }

  lemma StepLosesNoBarrier(s: State, step: Step)
    requires BarriersKept(s) && Enabled(s, step)
    ensures BarriersKept(Apply(s, step))
  {
    var s' := Apply(s, step);
    forall f | f in s'.behind ensures f in s'.l.acks || Holds(s', f) || exists i :: QueuedAt(s', f, i) {
      if step == QueueBarrier(f) {
        assert QueuedAt(s', f, |s.l.queue|);
      } else if f !in s.l.acks && !Holds(s, f) {
        var i :| QueuedAt(s, f, i);
        if step.Receive? {
          assert i > 0 ==> QueuedAt(s', f, i - 1);
        } else {
          assert QueuedAt(s', f, i);
        }
      }
    }
  }

  // ---------------------------------------------------------------- closing

  predicate Finishing(s: State) { s.pc == Commit(Finish) || s.pc == Reporting(true) || s.pc.Stopping? || s.pc.Gone? }

  /** After its last empty poll the writer has taken exactly the events queued before it; it only finishes
      after quit; the inner ledger is closed only once it is gone. */
  ghost predicate Closes(s: State) {
    && (Finishing(s) ==> s.draining && |Flat(s.l.handed)| + |s.l.batch| == s.lastPoll)
    && (Finishing(s) && !s.pc.Commit? ==> s.l.batch == [])
    && (s.draining ==> s.quit)
    && (s.innerClosed ==> s.pc.Gone?)
    && s.lastPoll <= |s.accepted|
  }

  lemma CommitKeepsClosing(s: State, written: nat)
    requires Closes(s) && s.pc.Commit? && written <= |s.l.batch|
    ensures Closes(s.(l := Committed(s.l, written), pc := Then(s.pc.next)))
  {
    var l := Committed(s.l, written);
    FlatGrows(s.l.handed, s.l.batch);
    assert |Flat(l.handed)| + |l.batch| == |Flat(s.l.handed)| + |s.l.batch| && l.batch == [];
    assert Finishing(s.(l := l, pc := Then(s.pc.next))) <==> s.pc.next.Finish?;
  }

  lemma PollKeepsClosing(s: State)
    requires Closes(s) && InOrder(s) && Enabled(s, EmptyPoll)
    ensures Closes(Apply(s, EmptyPoll))
  {
    assert Events(s.l.queue) == [];
  }

  lemma StepKeepsClosing(s: State, step: Step)
    requires Closes(s) && InOrder(s) && Enabled(s, step)
    ensures Closes(Apply(s, step))
  {
    match step
    case DoCommit(written) => CommitKeepsClosing(s, written);
    case EmptyPoll => PollKeepsClosing(s);
    case _ =>
  }

  /** Reported drops add up to the counter they were taken from. */
  ghost predicate Counted(s: State) { Sum(s.l.logged) == s.l.reported <= s.l.dropped }

  lemma StepKeepsCounts(s: State, step: Step)
    requires Counted(s) && Enabled(s, step)
    ensures Counted(Apply(s, step))
  {
    if step.DoReport? && s.l.dropped != s.l.reported {
      var more := s.l.logged + [s.l.dropped - s.l.reported];
      assert more[..|s.l.logged|] == s.l.logged;
    }
  }

  ghost predicate Invariant(s: State) {
    && InOrder(s) && Bounded(s) && StoredInOrder(s) && BarriersPlaced(s)
    && BarriersKept(s) && FlushesMatch(s) && Closes(s) && Counted(s)
  }

  lemma StepKeepsInvariant(s: State, step: Step)
    requires Invariant(s) && Enabled(s, step)
    ensures Invariant(Apply(s, step))
  {
    StepKeepsOrder(s, step);
    StepKeepsBounds(s, step);
    StepKeepsStored(s, step);
    StepKeepsBarriers(s, step);
    StepLosesNoBarrier(s, step);
    StepKeepsFlushes(s, step);
    StepKeepsClosing(s, step);
    StepKeepsCounts(s, step);
  }

  /** Every interleaving keeps the invariant. */
  lemma {:induction false} RunsKeepInvariant(steps: seq<Step>)
    requires Legal(steps)
    ensures Invariant(After(steps))
  {
    if |steps| > 0 {
      RunsKeepInvariant(steps[..|steps| - 1]);
      StepKeepsInvariant(After(steps[..|steps| - 1]), steps[|steps| - 1]);
    }
  }

  // ---------------------------------------------------------------- what callers get

  /** Nothing is handed over twice or out of order, nothing accepted is lost on the way, nothing is miscounted,
      no batch exceeds its size. */
  lemma EveryRunIsInOrder(steps: seq<Step>)
    requires Legal(steps)
    ensures var s := After(steps);
            && Flat(s.l.handed) + s.l.batch + Events(s.l.queue) == s.accepted
            && Increasing(Flat(s.l.handed)) && Increasing(s.l.stored)
            && s.offered == |s.accepted| + s.l.dropped
            && (forall b :: b in s.l.handed ==> 0 < |b| <= BATCH_SIZE) && |s.l.queue| <= QUEUE_SIZE
            && Sum(s.l.logged) <= s.l.dropped
  {
    RunsKeepInvariant(steps);
    var s := After(steps);
    assert forall i :: 0 <= i < |Flat(s.l.handed)| ==> Flat(s.l.handed)[i] == s.accepted[i];
  }

  /** Once a barrier is acknowledged every event queued before it has been handed to the inner ledger; when a
      flush has returned because of it, that is every event accepted before the call. */
  lemma AckedFlushIsABarrier(steps: seq<Step>, f: nat)
    requires Legal(steps) && f in After(steps).l.acks
    ensures var s := After(steps);
            && f in s.behind && s.behind[f] <= |s.accepted| && s.accepted[..s.behind[f]] <= Flat(s.l.handed)
            && f in s.flushes && (s.flushes[f].ByAck? ==> s.flushes[f].mark <= s.behind[f])
  {
    RunsKeepInvariant(steps);
    var s := After(steps);
    HandedIsPrefix(s, s.behind[f]);
  }

  /** How much a step wrote, if it committed anything. */
  function WrittenBy(s: State, step: Step): seq<nat> {
    if step.DoCommit? && |s.l.batch| > 0 then [step.written] else []
  }

  /** How much each commit of a run wrote; an empty batch is not committed. */
  ghost function Written(steps: seq<Step>): seq<nat>
    requires Legal(steps)
  {
    if |steps| == 0 then []
    else Written(steps[..|steps| - 1]) + WrittenBy(After(steps[..|steps| - 1]), steps[|steps| - 1])
  }

  ghost predicate StoredAs(l: Ledger, sizes: seq<nat>) {
    && |sizes| == |l.handed| && (forall i :: 0 <= i < |sizes| ==> sizes[i] <= |l.handed[i]|)
    && l.stored == Prefixes(l.handed, sizes)
  }

  lemma StepStores(s: State, step: Step, sizes: seq<nat>)
    requires Enabled(s, step) && StoredAs(s.l, sizes)
    ensures StoredAs(Apply(s, step).l, sizes + WrittenBy(s, step))
  {
    if step.DoCommit? && |s.l.batch| > 0 {
      PrefixesGrow(s.l.handed, sizes, s.l.batch, step.written);
    } else {
      assert sizes + WrittenBy(s, step) == sizes;
    }
  }

  /** The inner ledger has of each batch what its commit wrote, batch after batch. */
  lemma {:induction false} StoredIsWritten(steps: seq<Step>)
    requires Legal(steps)
    ensures var l, sizes := After(steps).l, Written(steps);
            && |sizes| == |l.handed| && (forall i :: 0 <= i < |sizes| ==> sizes[i] <= |l.handed[i]|)
            && l.stored == Prefixes(l.handed, sizes)
  {
    if |steps| > 0 {
      var front := steps[..|steps| - 1];
      StoredIsWritten(front);
      StepStores(After(front), steps[|steps| - 1], Written(front));
    }
  }

  predicate Whole(s: State, step: Step) { step.DoCommit? ==> step.written == |s.l.batch| }

  /** No write of the run failed: every commit wrote its whole batch. */
  ghost predicate NoFailures(steps: seq<Step>)
    requires Legal(steps)
  {
    |steps| == 0
    || (NoFailures(steps[..|steps| - 1]) && Whole(After(steps[..|steps| - 1]), steps[|steps| - 1]))
  }

  ghost predicate AllWhole(l: Ledger, sizes: seq<nat>) {
    |sizes| == |l.handed| && forall i :: 0 <= i < |sizes| ==> sizes[i] == |l.handed[i]|
  }

  lemma StepStaysWhole(s: State, step: Step, sizes: seq<nat>)
    requires Enabled(s, step) && Whole(s, step) && AllWhole(s.l, sizes)
    ensures AllWhole(Apply(s, step).l, sizes + WrittenBy(s, step))
  {
    if step.DoCommit? && |s.l.batch| > 0 {
      assert WrittenBy(s, step) == [|s.l.batch|] && Apply(s, step).l.handed == s.l.handed + [s.l.batch];
    } else {
      assert sizes + WrittenBy(s, step) == sizes && Apply(s, step).l.handed == s.l.handed;
    }
  }

  lemma {:induction false} WholeWrites(steps: seq<Step>)
    requires Legal(steps) && NoFailures(steps)
    ensures AllWhole(After(steps).l, Written(steps))
  {
    if |steps| > 0 {
      var front := steps[..|steps| - 1];
      WholeWrites(front);
      StepStaysWhole(After(front), steps[|steps| - 1], Written(front));
    }
  }

  /** While no write fails, what is handed over is stored. */
  lemma HandedIsStored(steps: seq<Step>)
    requires Legal(steps) && NoFailures(steps)
    ensures After(steps).l.stored == Flat(After(steps).l.handed)
  {
    StoredIsWritten(steps);
    WholeWrites(steps);
    WholePrefixes(After(steps).l.handed, Written(steps));
  }

  lemma HandedIsPrefix(s: State, n: nat)
    requires InOrder(s) && n <= |Flat(s.l.handed)|
    ensures n <= |s.accepted| && s.accepted[..n] <= Flat(s.l.handed)
  {
    var flat := Flat(s.l.handed);
    assert s.accepted[..n] == flat[..n];
  }

  /** When the writer is gone it has handed over exactly what was queued before its last empty poll, and
      every barrier that is not acknowledged was queued later. */
  lemma GoneMeansDrained(steps: seq<Step>)
    requires Legal(steps) && After(steps).pc.Gone?
    ensures var s := After(steps);
            && s.lastPoll <= |s.accepted| && Flat(s.l.handed) == s.accepted[..s.lastPoll]
            && Events(s.l.queue) == s.accepted[s.lastPoll..]
            && LateBarriers(s)
  {
    RunsKeepInvariant(steps);
    GoneState(After(steps));
  }

  /** Barriers without an acknowledgement were queued after the last empty poll and are queued still. */
  ghost predicate LateBarriers(s: State) {
    forall f :: f in s.behind && f !in s.l.acks ==> s.behind[f] >= s.lastPoll && exists i :: QueuedAt(s, f, i)
  }

  lemma GoneState(s: State)
    requires Invariant(s) && s.pc.Gone?
    ensures s.lastPoll <= |s.accepted| && Flat(s.l.handed) == s.accepted[..s.lastPoll]
    ensures Events(s.l.queue) == s.accepted[s.lastPoll..] && LateBarriers(s)
  {
    assert s.accepted == Flat(s.l.handed) + Events(s.l.queue);
    forall f | f in s.behind && f !in s.l.acks ensures s.behind[f] >= s.lastPoll && exists i :: QueuedAt(s, f, i) {
      var i :| QueuedAt(s, f, i);
    }
  }

  /** A flush that returns because the writer has stopped promises as much exactly when the call began
      before the writer's last empty poll. */
  lemma StoppedFlushIsABarrierOnlyBeforeLastPoll(steps: seq<Step>, f: nat)
    requires Legal(steps) && f in After(steps).flushes && After(steps).flushes[f].ByStopped? && After(steps).pc.Gone?
    ensures var s := After(steps);
            s.flushes[f].mark <= |s.accepted|
            && (s.accepted[..s.flushes[f].mark] <= Flat(s.l.handed) <==> s.flushes[f].mark <= s.lastPoll)
  {
    GoneMeansDrained(steps);
    RunsKeepInvariant(steps);
    var s := After(steps);
    if s.flushes[f].mark <= s.lastPoll {
      HandedIsPrefix(s, s.flushes[f].mark);
    }
  }

  /** A flush that was called with `mark` events accepted, before closing was asked for. */
  ghost predicate CalledOpen(s: State, f: nat, mark: nat) {
    && f in s.flushes && s.flushes[f].mark == mark <= |s.accepted|
    && (Finishing(s) ==> mark <= s.lastPoll)
    && (s.flushes[f].ByStopped? ==> s.pc.Gone?)
  }

  lemma StepKeepsCall(s: State, step: Step, f: nat, mark: nat)
    requires Closes(s) && Enabled(s, step) && CalledOpen(s, f, mark)
    ensures CalledOpen(Apply(s, step), f, mark)
  {
  }

  lemma {:induction false} CallStaysOpen(steps: seq<Step>, n: nat, f: nat)
    requires Legal(steps) && n < |steps| && Legal(steps[..n]) && steps[n] == CallFlush(f) && !After(steps[..n]).quit
    ensures CalledOpen(After(steps), f, |After(steps[..n]).accepted|)
  {
    var front, last := steps[..|steps| - 1], steps[|steps| - 1];
    RunsKeepInvariant(front);
    if n < |front| {
      assert front[..n] == steps[..n];
      CallStaysOpen(front, n, f);
      StepKeepsCall(After(front), last, f, |After(steps[..n]).accepted|);
    } else {
      assert front == steps[..n];
    }
  }

  /** What a flusher can rely on: a flush called before closing was asked for, whichever way it returns without error,
      has every event accepted before the call handed to the inner ledger. */
  lemma FlushBeforeCloseIsABarrier(steps: seq<Step>, n: nat, f: nat)
    requires Legal(steps) && n < |steps| && steps[n] == CallFlush(f) && Legal(steps[..n]) && !After(steps[..n]).quit
    requires f in After(steps).flushes && (After(steps).flushes[f].ByAck? || After(steps).flushes[f].ByStopped?)
    ensures After(steps[..n]).accepted <= Flat(After(steps).l.handed)
  {
    RunsKeepInvariant(steps);
    CallStaysOpen(steps, n, f);
    AcceptedGrows(steps, n);
    ReturnedFlush(After(steps), f, |After(steps[..n]).accepted|);
  }

  /** So while no write fails it is stored: a flush called before closing was asked for, and returned without error, has
      every event accepted before the call in the inner ledger, and so has an acknowledged barrier every event before
      it. */
  lemma FlushBeforeCloseIsStored(steps: seq<Step>, n: nat, f: nat)
    requires Legal(steps) && n < |steps| && steps[n] == CallFlush(f) && Legal(steps[..n]) && !After(steps[..n]).quit
    requires f in After(steps).flushes && (After(steps).flushes[f].ByAck? || After(steps).flushes[f].ByStopped?)
    requires NoFailures(steps)
    ensures After(steps[..n]).accepted <= After(steps).l.stored
  {
    FlushBeforeCloseIsABarrier(steps, n, f);
    HandedIsStored(steps);
  }

  lemma AckedFlushIsStored(steps: seq<Step>, f: nat)
    requires Legal(steps) && f in After(steps).l.acks && NoFailures(steps)
    ensures var s := After(steps);
            f in s.behind && s.behind[f] <= |s.accepted| && s.accepted[..s.behind[f]] <= s.l.stored
  {
    AckedFlushIsABarrier(steps, f);
    HandedIsStored(steps);
  }

  /** A drop is the one way an event is lost before the inner ledger, and happens only when 4096 items wait. */
  lemma DroppedExactlyWhenFull(steps: seq<Step>)
    requires Legal(steps)
    ensures var s, s' := After(steps), Apply(After(steps), Write);
            && |s.l.queue| <= 4096
            && (|s.l.queue| < 4096 ==>
                  s'.l == s.l.(queue := s.l.queue + [Event(s.offered)]) && s'.accepted == s.accepted + [s.offered])
            && (|s.l.queue| == 4096 ==> s'.l == s.l.(dropped := s.l.dropped + 1) && s'.accepted == s.accepted)
  {
    RunsKeepInvariant(steps);
  }

  /** The writer commits before the ticker does exactly when 256 events are together, or a barrier comes. */
  lemma CommitsWhenFullOrFlushed(steps: seq<Step>)
    requires Legal(steps) && Enabled(After(steps), Receive)
    ensures var s, s' := After(steps), Apply(After(steps), Receive);
            && |s.l.batch| < 256
            && (s'.pc.Commit? <==> s.l.queue[0].Barrier? || |s.l.batch| == 255)
            && (s.l.queue[0].Event? ==> s'.l.batch == s.l.batch + [s.l.queue[0].id])
            && s'.l.queue == s.l.queue[1..] && s'.l.handed == s.l.handed
  {
    RunsKeepInvariant(steps);
  }

  /** A report accounts for every drop so far. */
  lemma ReportsEveryDrop(steps: seq<Step>)
    requires Legal(steps) && Enabled(After(steps), DoReport)
    ensures Sum(Apply(After(steps), DoReport).l.logged) == After(steps).l.dropped
  {
    RunsKeepInvariant(steps);
    StepKeepsCounts(After(steps), DoReport);
  }

  /** When the ticker fires, the batch is committed and the drops are reported. */
  lemma TickCommitsAndReports(steps: seq<Step>) returns (longer: seq<Step>)
    requires Legal(steps) && Enabled(After(steps), Tick)
    ensures steps <= longer && |longer| == |steps| + 3 && Legal(longer)
    ensures var l, l' := After(steps).l, After(longer).l;
            && l'.batch == [] && Flat(l'.handed) == Flat(l.handed) + l.batch && l'.queue == l.queue
            && Sum(l'.logged) == l.dropped
  {
    var s;
    longer, s := Extend(steps, After(steps), Tick);
    longer, s := Extend(longer, s, DoCommit(|s.l.batch|));
    CommitKeepsPipeline(After(steps).l, |After(steps).l.batch|);
    ReportsEveryDrop(longer);
    longer, s := Extend(longer, s, DoReport);
  }

  lemma ReturnedFlush(s: State, f: nat, mark: nat)
    requires Invariant(s) && CalledOpen(s, f, mark) && (s.flushes[f].ByAck? || s.flushes[f].ByStopped?)
    ensures s.accepted[..mark] <= Flat(s.l.handed)
  {
    HandedIsPrefix(s, mark);
  }

  lemma StepAccepts(s: State, step: Step)
    requires Enabled(s, step)
    ensures s.accepted <= Apply(s, step).accepted
  {
  }

  lemma {:induction false} AcceptedGrows(steps: seq<Step>, n: nat)
    requires Legal(steps) && n <= |steps| && Legal(steps[..n])
    ensures After(steps[..n]).accepted <= After(steps).accepted
  {
    if n < |steps| {
      var front := steps[..|steps| - 1];
      assert front[..n] == steps[..n];
      AcceptedGrows(front, n);
      StepAccepts(After(front), steps[|steps| - 1]);
    } else {
      assert steps[..n] == steps;
    }
  }

  lemma Extend(steps: seq<Step>, s: State, step: Step) returns (longer: seq<Step>, next: State)
    requires Legal(steps) && After(steps) == s && Enabled(s, step)
    ensures longer == steps + [step] && Legal(longer) && next == Apply(s, step) && After(longer) == next
  {
    longer, next := steps + [step], Apply(s, step);
    assert longer[..|steps|] == steps;
  }

  /** Closing an idle ledger. */
  lemma CloseAtOnce() returns (steps: seq<Step>)
    ensures Legal(steps) && After(steps) == INIT.(pc := Gone, draining := true, quit := true, closers := 1)
  {
    var s: State;
    steps, s := Extend([], INIT, CallClose);
    steps, s := Extend(steps, s, SeeQuit);
    steps, s := Extend(steps, s, EmptyPoll);
    steps, s := Extend(steps, s, DoCommit(0));
    steps, s := Extend(steps, s, DoReport);
    steps, s := Extend(steps, s, CloseStopped);
  }

  /** The run that shows it: close, then write, then flush. The flush returns without error and the event
      it came after is in no batch. */
  lemma FlushAfterCloseWritesNothing() returns (steps: seq<Step>, f: nat)
    ensures Legal(steps) && f in After(steps).flushes && After(steps).flushes[f] == ByStopped(1)
    ensures After(steps).accepted == [0] && After(steps).l.handed == []
  {
    f := 7;
    steps := CloseAtOnce();
    var s := After(steps);
    steps, s := Extend(steps, s, Write);
    steps, s := Extend(steps, s, CallFlush(f));
    steps, s := Extend(steps, s, ReturnStopped(f));
  }

  /** The inner ledger is closed only when no commit can follow. */
  lemma InnerClosedLast(steps: seq<Step>, written: nat)
    requires Legal(steps) && After(steps).innerClosed
    ensures !Enabled(After(steps), DoCommit(written))
    ensures !Enabled(After(steps), EmptyPoll) && !Enabled(After(steps), Receive)
  {
    RunsKeepInvariant(steps);
    GoneDoesNothing(After(steps), written);
  }

  lemma GoneDoesNothing(s: State, written: nat)
    requires Closes(s) && s.innerClosed
    ensures !Enabled(s, DoCommit(written)) && !Enabled(s, EmptyPoll) && !Enabled(s, Receive)
  {
  }

  // ---------------------------------------------------------------- nobody waits for ever

  predicate WriterStep(step: Step) {
    || step.Receive? || step.SeeQuit? || step.EmptyPoll? || step.DoCommit?
    || step.DoCloseAck? || step.DoReport? || step.CloseStopped?
  }

  /** How far the writer is from being gone, once quit is asked for. */
  function Distance(s: State): nat {
    match s.pc
    case Gone => 0
    case Stopping => 1
    case Reporting(true) => 2
    case Commit(Finish) => 3
    case Select => 4 * |s.l.queue| + (if s.draining then 4 else 5)
    case CloseAck(_) => 4 * |s.l.queue| + 6
    case Reporting(false) => 4 * |s.l.queue| + 6
    case Commit(_) => 4 * |s.l.queue| + 7
  }

  /** The step the writer takes next; commits go through here. */
  function WriterMove(s: State): Step
    requires !s.pc.Gone?
  {
    match s.pc
    case Select => if |s.l.queue| > 0 then Receive else if s.draining then EmptyPoll else SeeQuit
    case Commit(_) => DoCommit(|s.l.batch|)
    case CloseAck(_) => DoCloseAck
    case Reporting(_) => DoReport
    case Stopping => CloseStopped
  }

  /** The writer is not blocked. */
  predicate CanMove(s: State) { !s.pc.Gone? && (s.quit || !s.pc.Select? || |s.l.queue| > 0) }

  lemma WriterAdvances(s: State)
    requires CanMove(s) && (s.draining ==> s.quit)
    ensures Enabled(s, WriterMove(s)) && WriterStep(WriterMove(s))
    ensures Distance(Apply(s, WriterMove(s))) < Distance(s)
    ensures var s' := Apply(s, WriterMove(s));
            && s'.quit == s.quit && s'.accepted == s.accepted
            && s'.behind == s.behind && s'.flushes == s.flushes && s'.closers == s.closers
  {
  }

  /** Nothing but steps of the writer after the first `n`. */
  ghost predicate OnlyWriterAfter(n: nat, steps: seq<Step>) { forall i :: n <= i < |steps| ==> WriterStep(steps[i]) }

  /** The writer's own moves, one after the other, until it is gone. */
  lemma {:induction false} WriterFinishes(steps: seq<Step>, s: State) returns (all: seq<Step>, t: State)
    requires Legal(steps) && After(steps) == s && Invariant(s) && s.quit
    ensures steps <= all && OnlyWriterAfter(|steps|, all) && Legal(all) && t == After(all)
    ensures Invariant(t) && t.pc.Gone? && t.accepted == s.accepted && t.behind == s.behind
    ensures (Finishing(s) ==> s.l.queue == []) ==> t.l.queue == []
    decreases Distance(s)
  {
    if s.pc.Gone? {
      all, t := steps, s;
    } else {
      var longer, next := Advance(steps, s);
      all, t := WriterFinishes(longer, next);
      assert all[|steps|] == longer[|steps|];
    }
  }

  lemma Advance(steps: seq<Step>, s: State) returns (longer: seq<Step>, next: State)
    requires Legal(steps) && After(steps) == s && Invariant(s) && CanMove(s)
    ensures WriterStep(WriterMove(s)) && longer == steps + [WriterMove(s)] && Legal(longer) && After(longer) == next
    ensures Invariant(next) && next.quit == s.quit && Distance(next) < Distance(s)
    ensures (Finishing(s) ==> s.l.queue == []) ==> (Finishing(next) ==> next.l.queue == [])
    ensures next.accepted == s.accepted && next.behind == s.behind && next.flushes == s.flushes
    ensures next.closers == s.closers
  {
    WriterAdvances(s);
    StepKeepsInvariant(s, WriterMove(s));
    if Finishing(s) ==> s.l.queue == [] {
      QueueWhenFinishing(s);
    }
    longer, next := Extend(steps, s, WriterMove(s));
  }

  lemma QueueWhenFinishing(s: State)
    requires !s.pc.Gone? && Enabled(s, WriterMove(s)) && (Finishing(s) ==> s.l.queue == [])
    ensures Finishing(Apply(s, WriterMove(s))) ==> Apply(s, WriterMove(s)).l.queue == []
  {
  }

  lemma DrainedState(s: State)
    requires Invariant(s) && s.pc.Gone? && s.l.queue == []
    ensures Flat(s.l.handed) == s.accepted && forall f :: f in s.behind ==> f in s.l.acks
  {
    forall f | f in s.behind ensures f in s.l.acks {
      assert forall i :: !QueuedAt(s, f, i);
    }
  }

  /** From any reachable state in which closing was asked for, the writer's own steps alone lead to its end, and every
      flusher, whether its barrier is queued yet or not, is free to return. Unless the writer was past its last poll
      already, every queued event is then handed over and every queued barrier acknowledged. */
  lemma CloseCompletes(steps: seq<Step>) returns (all: seq<Step>)
    requires Legal(steps) && After(steps).quit
    ensures steps <= all && OnlyWriterAfter(|steps|, all) && Legal(all) && After(all).pc.Gone?
    ensures forall f :: InFlight(After(all), f) ==> Enabled(After(all), ReturnStopped(f))
    ensures !Finishing(After(steps)) ==>
              && Flat(After(all).l.handed) == After(steps).accepted
              && forall f :: f in After(steps).behind ==> f in After(all).l.acks
  {
    RunsKeepInvariant(steps);
    var t := After(steps);
    all, t := WriterFinishes(steps, t);
    if !Finishing(After(steps)) {
      DrainedState(t);
    }
  }

  function Times(steps: seq<Step>, step: Step): nat {
    if |steps| == 0 then 0
    else Times(steps[..|steps| - 1], step) + if steps[|steps| - 1] == step then 1 else 0
  }

  /** Closers are those who called and have not returned. */
  lemma {:induction false} ClosersAreCounted(steps: seq<Step>)
    requires Legal(steps)
    ensures Times(steps, CallClose) == Times(steps, ReturnClose) + After(steps).closers
  {
    if |steps| > 0 {
      ClosersAreCounted(steps[..|steps| - 1]);
    }
  }

  lemma {:induction false} ClosersLeave(steps: seq<Step>, s: State) returns (all: seq<Step>, t: State)
    requires Legal(steps) && After(steps) == s && s.pc.Gone?
    ensures steps <= all && Legal(all) && t == After(all)
    ensures t == s.(closers := 0, innerClosed := s.innerClosed || s.closers > 0)
    decreases s.closers
  {
    if s.closers == 0 {
      all, t := steps, s;
    } else {
      var longer, next := Extend(steps, s, ReturnClose);
      all, t := ClosersLeave(longer, next);
    }
  }

  /** Once closing was asked for, every closer can return, and the inner ledger is then closed. */
  lemma EveryCloserCanReturn(steps: seq<Step>) returns (all: seq<Step>)
    requires Legal(steps) && After(steps).quit && After(steps).closers > 0
    ensures steps <= all && Legal(all) && After(all).closers == 0 && After(all).innerClosed && After(all).pc.Gone?
  {
    RunsKeepInvariant(steps);
    var t;
    all, t := WriterFinishesClosing(steps);
    all, t := ClosersLeave(all, t);
  }

  lemma WriterFinishesClosing(steps: seq<Step>) returns (all: seq<Step>, t: State)
    requires Legal(steps) && After(steps).quit && Invariant(After(steps))
    ensures steps <= all && Legal(all) && t == After(all) && t.pc.Gone? && t.closers == After(steps).closers
    decreases Distance(After(steps))
  {
    var s := After(steps);
    if s.pc.Gone? {
      all, t := steps, s;
    } else {
      var longer, next := Advance(steps, s);
      all, t := WriterFinishesClosing(longer);
    }
  }

  /** A flush whose context ends returns from wherever it is, and disturbs nothing; its barrier stays where it was. */
  lemma FlushCanBeCancelled(steps: seq<Step>, f: nat) returns (longer: seq<Step>)
    requires Legal(steps) && f in After(steps).flushes
    requires After(steps).flushes[f].Calling? || After(steps).flushes[f].Waiting?
    ensures steps <= longer && Legal(longer) && f in After(longer).flushes && !InFlight(After(longer), f)
    ensures After(longer).flushes[f].Cancelled? && After(longer).(flushes := After(steps).flushes) == After(steps)
    ensures forall g :: g != f ==> (InFlight(After(longer), g) <==> InFlight(After(steps), g))
  {
    var t;
    longer, t := Extend(steps, After(steps), Cancel(f));
  }

  /** A waiting flush is never stranded, closing or not: from any reachable state the writer's own steps
      alone lead to one in which the flush can return. */
  lemma WaitingFlushCanReturn(steps: seq<Step>, f: nat) returns (all: seq<Step>)
    requires Legal(steps) && f in After(steps).flushes && After(steps).flushes[f].Waiting?
    ensures steps <= all && OnlyWriterAfter(|steps|, all) && Legal(all) && After(all).flushes == After(steps).flushes
    ensures Enabled(After(all), ReturnAcked(f)) || Enabled(After(all), ReturnStopped(f))
  {
    RunsKeepInvariant(steps);
    var t := After(steps);
    all, t := WriterReaches(steps, t, f);
  }

  lemma {:induction false} WriterReaches(steps: seq<Step>, s: State, f: nat) returns (all: seq<Step>, t: State)
    requires Legal(steps) && After(steps) == s && Invariant(s) && f in s.flushes && s.flushes[f].Waiting?
    ensures steps <= all && OnlyWriterAfter(|steps|, all) && Legal(all) && t == After(all)
    ensures t.flushes == s.flushes && (f in t.l.acks || t.pc.Gone?)
    decreases Distance(s)
  {
    if f in s.l.acks || s.pc.Gone? {
      all, t := steps, s;
    } else {
      WaitingMeansWork(s, f);
      var longer, next := Advance(steps, s);
      all, t := WriterReaches(longer, next, f);
      assert all[|steps|] == longer[|steps|];
    }
  }

  /** An unacknowledged barrier is held by the writer or still queued, so the writer has something to do. */
  lemma WaitingMeansWork(s: State, f: nat)
    requires Invariant(s) && f in s.flushes && s.flushes[f].Waiting? && f !in s.l.acks && !s.pc.Gone?
    ensures CanMove(s)
  {
    assert f in s.behind;
  }
}
