/**
 The buffered auditor: any number of `Append` calls, one worker and any number of
 `Close` calls around a mutex, a wait group, a bounded channel and a stop channel.
 `Step` is one atomic action of one of them; a run is any interleaving.
 */
module AsyncAudit {
  import opened Protocol

  // ---- state ----

  datatype Reply = Accepted | RefusedClosed | RefusedContext

  /** An `Append` call past its entry check; `Selecting` and `Leaving` hold the wait group. */
  datatype Sender =
    | Selecting(event: AuditEvent)
    | Leaving(event: AuditEvent, reply: Reply)
    | Answered(event: AuditEvent, reply: Reply)

  /** The four steps inside the once-only part of `Close`, in order. */
  datatype Stage = Marking | Stopping | Joining | Sealing

  datatype Closer = Calling | Inside(stage: Stage) | Awaiting | Back(failed: bool)

  datatype Once = Untouched | Running(owner: nat) | Over

  /** `Draining` pulls what is queued, `Lingering` waits out the interval, `Flushing(true)` is the last flush. */
  datatype Worker = Receiving | Draining | Lingering | Flushing(last: bool) | Stopped

  /** An event with the number of the call that sent it. */
  datatype Entry = Entry(sender: nat, event: AuditEvent)

  datatype Write = Write(batch: seq<Entry>, ok: bool)

  /** The worker's own variables, and what it has handed to the store. */
  datatype Bench = Bench(worker: Worker, batch: seq<Entry>, writes: seq<Write>, failed: bool)

  /** What `Close` coordinates: the flag, the wait group, the two channel closings, and the closers. */
  datatype Gate = Gate(closed: bool, holders: int, stopClosed: bool, sealed: bool, once: Once, closers: seq<Closer>)

  datatype Shape = Shape(cap: nat, batchSize: nat, interval: bool)

  datatype Auditor = Auditor(shape: Shape, gate: Gate, senders: seq<Sender>, queue: seq<Entry>, bench: Bench,
                             accepted: seq<Entry>)

  function BatchSize(cap: nat): nat {
    if cap < 1 then 1 else if cap > 256 then 256 else cap
  }

  function New(cap: nat, interval: bool): Auditor {
    Auditor(Shape(cap, BatchSize(cap), interval), Gate(false, 0, false, false, Untouched, []), [], [],
            Bench(Receiving, [], [], false), [])
  }

  // ---- steps ----

  datatype Action =
    | Enter(event: AuditEvent)
    | Send(i: nat)
    | HandOver(i: nat)
    | SeeStop(i: nat)
    | Cancel(i: nat)
    | Leave(i: nat)
    | Receive
    | ReceiveSealed
    | TimeOut
    | BatchDone
    | Flush(ok: bool)
    | CallClose
    | EnterOnce(j: nat)
    | SkipOnce(j: nat)
    | Advance(j: nat)
    | Return(j: nat)

  /** Calls arriving from outside. */
  predicate Arrival(a: Action) {
    a.Enter? || a.CallClose?
  }

  predicate SenderAction(a: Action) {
    a.Enter? || a.Send? || a.HandOver? || a.SeeStop? || a.Cancel? || a.Leave?
  }

  predicate WorkerAction(a: Action) {
    a.Receive? || a.ReceiveSealed? || a.TimeOut? || a.BatchDone? || a.Flush?
  }

  predicate Selects(s: Auditor, i: nat) {
    i < |s.senders| && s.senders[i].Selecting?
  }

  predicate ClosesAt(g: Gate, j: nat, c: Closer) {
    j < |g.closers| && g.closers[j] == c
  }

  /** The worker is at a receive with room in its batch. */
  predicate Ready(b: Bench, size: nat) {
    b.worker.Receiving? || ((b.worker.Lingering? || b.worker.Draining?) && |b.batch| < size)
  }

  predicate SenderDue(s: Auditor, a: Action) {
    match a
    case Enter(_) => true
    case Send(i) => Selects(s, i) && |s.queue| < s.shape.cap
    case HandOver(i) => Selects(s, i) && s.queue == [] && Ready(s.bench, s.shape.batchSize)
    case SeeStop(i) => Selects(s, i) && s.gate.stopClosed
    case Cancel(i) => Selects(s, i)
    case Leave(i) => i < |s.senders| && s.senders[i].Leaving?
    case _ => false
  }

  predicate WorkerDue(b: Bench, size: nat, queue: seq<Entry>, sealed: bool, a: Action) {
    match a
    case Receive => queue != [] && Ready(b, size)
    case ReceiveSealed =>
      queue == [] && sealed && (b.worker.Receiving? || (b.worker.Lingering? && |b.batch| < size))
    case TimeOut => b.worker.Lingering? && |b.batch| < size
    case BatchDone =>
      (b.worker.Draining? && (queue == [] || |b.batch| >= size)) || (b.worker.Lingering? && |b.batch| >= size)
    case Flush(_) => b.worker.Flushing?
    case _ => false
  }

  predicate CloserDue(g: Gate, stopped: bool, a: Action) {
    match a
    case CallClose => true
    case EnterOnce(j) => ClosesAt(g, j, Calling) && g.once.Untouched?
    case SkipOnce(j) => ClosesAt(g, j, Calling) && g.once.Over?
    case Advance(j) =>
      j < |g.closers| && g.closers[j].Inside? && (g.closers[j].stage.Joining? ==> g.holders == 0)
    case Return(j) => ClosesAt(g, j, Awaiting) && stopped
    case _ => false
  }

  predicate Enabled(s: Auditor, a: Action) {
    if SenderAction(a) then SenderDue(s, a)
    else if WorkerAction(a) then WorkerDue(s.bench, s.shape.batchSize, s.queue, s.gate.sealed, a)
    else CloserDue(s.gate, s.bench.worker.Stopped?, a)
  }

  /** Taking one event: the first of a batch decides how the rest is gathered. */
  function Take(b: Bench, interval: bool, e: Entry): Bench {
    b.(batch := b.batch + [e],
       worker := if !b.worker.Receiving? then b.worker else if interval then Lingering else Draining)
  }

  function Holding(g: Gate, more: int): Gate {
    g.(holders := g.holders + more)
  }

  function StepSender(s: Auditor, a: Action): Auditor
    requires SenderDue(s, a)
  {
    if a.Enter? then
      if s.gate.closed then s.(senders := s.senders + [Answered(a.event, RefusedClosed)])
      else s.(senders := s.senders + [Selecting(a.event)], gate := Holding(s.gate, 1))
    else
      var event := s.senders[a.i].event;
      var entry := Entry(a.i, event);
      match a
      case Send(i) =>
        s.(senders := s.senders[i := Leaving(event, Accepted)],
           queue := s.queue + [entry], accepted := s.accepted + [entry])
      case HandOver(i) =>
        s.(senders := s.senders[i := Leaving(event, Accepted)],
           bench := Take(s.bench, s.shape.interval, entry), accepted := s.accepted + [entry])
      case SeeStop(i) => s.(senders := s.senders[i := Leaving(event, RefusedClosed)])
      case Cancel(i) => s.(senders := s.senders[i := Leaving(event, RefusedContext)])
      case Leave(i) =>
        s.(senders := s.senders[i := Answered(event, s.senders[i].reply)], gate := Holding(s.gate, -1))
  }

  /** The worker's next bench; only `Receive` also shortens the queue. */
  function StepBench(b: Bench, size: nat, interval: bool, queue: seq<Entry>, sealed: bool, a: Action): Bench
    requires WorkerDue(b, size, queue, sealed, a)
  {
    match a
    case Receive => Take(b, interval, queue[0])
    case ReceiveSealed => b.(worker := Flushing(true))
    case TimeOut => b.(worker := Draining)
    case BatchDone => b.(worker := Flushing(false))
    case Flush(ok) =>
      var next := if b.worker.last then Stopped else Receiving;
      if b.batch == [] then b.(worker := next)
      else Bench(next, [], b.writes + [Write(b.batch, ok)], b.failed || !ok)
  }

  function AdvanceClose(g: Gate, j: nat): Gate
    requires j < |g.closers| && g.closers[j].Inside?
  {
    match g.closers[j].stage
    case Marking => g.(closed := true, closers := g.closers[j := Inside(Stopping)])
    case Stopping => g.(stopClosed := true, closers := g.closers[j := Inside(Joining)])
    case Joining => g.(closers := g.closers[j := Inside(Sealing)])
    case Sealing => g.(sealed := true, once := Over, closers := g.closers[j := Awaiting])
  }

  function StepGate(g: Gate, stopped: bool, failed: bool, a: Action): Gate
    requires CloserDue(g, stopped, a)
  {
    match a
    case CallClose => g.(closers := g.closers + [Calling])
    case EnterOnce(j) => g.(once := Running(j), closers := g.closers[j := Inside(Marking)])
    case SkipOnce(j) => g.(closers := g.closers[j := Awaiting])
    case Advance(j) => AdvanceClose(g, j)
    case Return(j) => g.(closers := g.closers[j := Back(failed)])
  }

  function Step(s: Auditor, a: Action): Auditor
    requires Enabled(s, a)
  {
    if SenderAction(a) then StepSender(s, a)
    else if WorkerAction(a) then
      var bench := StepBench(s.bench, s.shape.batchSize, s.shape.interval, s.queue, s.gate.sealed, a);
      s.(bench := bench, queue := if a.Receive? then s.queue[1..] else s.queue)
    else s.(gate := StepGate(s.gate, s.bench.worker.Stopped?, s.bench.failed, a))
  }

  function After(s: Auditor, run: seq<Action>): Auditor {
    if run == [] then s
    else
      var t := After(s, run[..|run| - 1]);
      if Enabled(t, run[|run| - 1]) then Step(t, run[|run| - 1]) else t
  }

  // ---- what every state keeps ----

  /** Everything ever handed to the store, in order. */
  function Handed(writes: seq<Write>): seq<Entry> {
    if writes == [] then [] else Handed(writes[..|writes| - 1]) + writes[|writes| - 1].batch
  }

  predicate NothingLost(s: Auditor) {
    Handed(s.bench.writes) + s.bench.batch + s.queue == s.accepted
  }

  predicate Got(x: Sender, r: Reply) {
    !x.Selecting? && x.reply == r
  }

  predicate Listed(accepted: seq<Entry>, i: nat) {
    exists n :: 0 <= n < |accepted| && accepted[n].sender == i
  }

  /** The log of accepted events lists exactly the calls that are answered with success, once each. */
  predicate AcceptedMeansNil(senders: seq<Sender>, accepted: seq<Entry>) {
    && (forall n :: 0 <= n < |accepted| ==>
          var e := accepted[n];
          e.sender < |senders| && Got(senders[e.sender], Accepted) && senders[e.sender].event == e.event)
    && (forall i :: 0 <= i < |senders| && Got(senders[i], Accepted) ==> Listed(accepted, i))
    && (forall m, n :: 0 <= m < n < |accepted| ==> accepted[m].sender != accepted[n].sender)
  }

  predicate Bounded(s: Auditor) {
    && 1 <= s.shape.batchSize <= 256
    && |s.queue| <= s.shape.cap
    && |s.bench.batch| <= s.shape.batchSize
    && forall w :: w in s.bench.writes ==> 1 <= |w.batch| <= s.shape.batchSize
  }

  predicate WorkerSane(b: Bench, queue: seq<Entry>, sealed: bool) {
    && (b.worker.Receiving? || b.worker.Stopped? ==> b.batch == [])
    && ((b.worker.Flushing? && b.worker.last) || b.worker.Stopped? ==> sealed && queue == [])
    && (b.failed <==> exists w :: w in b.writes && !w.ok)
  }

  function Holds(x: Sender): nat {
    if x.Answered? then 0 else 1
  }

  function Holders(senders: seq<Sender>): seq<nat> {
    seq(|senders|, i requires 0 <= i < |senders| => Holds(senders[i]))
  }

  function Sum(xs: seq<nat>): nat {
    if xs == [] then 0 else Sum(xs[..|xs| - 1]) + xs[|xs| - 1]
  }

  /** The flags rise in the order `Close` raises them, and only one closer raises them. */
  predicate GateSane(g: Gate, b: Bench) {
    && (g.sealed ==> g.holders == 0)
    && (forall j :: 0 <= j < |g.closers| && g.closers[j].Inside? ==> g.once == Running(j))
    && (match g.once
        case Untouched => !g.closed && !g.stopClosed && !g.sealed
        case Running(j) =>
          && j < |g.closers| && g.closers[j].Inside?
          && (var k := g.closers[j].stage;
              && (g.closed <==> !k.Marking?)
              && (g.stopClosed <==> k.Joining? || k.Sealing?)
              && !g.sealed
              && (k.Sealing? ==> g.holders == 0))
        case Over => g.closed && g.stopClosed && g.sealed)
    && (forall j :: 0 <= j < |g.closers| && g.closers[j].Awaiting? ==> g.once.Over?)
    && (forall j :: 0 <= j < |g.closers| && g.closers[j].Back? ==>
          b.worker.Stopped? && g.closers[j].failed == b.failed)
  }

  /** The wait group counts the calls inside it. */
  predicate Counted(s: Auditor) {
    s.gate.holders == Sum(Holders(s.senders))
  }

  predicate Inv(s: Auditor) {
    && NothingLost(s) && AcceptedMeansNil(s.senders, s.accepted) && Bounded(s)
    && WorkerSane(s.bench, s.queue, s.gate.sealed) && GateSane(s.gate, s.bench) && Counted(s)
  }

  // ---- sums over the calls ----

  lemma {:induction false} SumUpdate(xs: seq<nat>, i: nat, x: nat)
    requires i < |xs|
    ensures Sum(xs[i := x]) == Sum(xs) - xs[i] + x
  {
    var n := |xs| - 1;
    if i == n {
      assert xs[i := x][..n] == xs[..n];
    } else {
      assert xs[i := x][..n] == xs[..n][i := x];
      SumUpdate(xs[..n], i, x);
    }
  }

  lemma SumAppend(xs: seq<nat>, x: nat)
    ensures Sum(xs + [x]) == Sum(xs) + x
  {
    assert (xs + [x])[..|xs|] == xs;
  }

  lemma {:induction false} SumZero(xs: seq<nat>, i: nat)
    requires i < |xs|
    ensures xs[i] <= Sum(xs)
  {
    if i < |xs| - 1 {
      SumZero(xs[..|xs| - 1], i);
    }
  }

  lemma HoldersUpdate(senders: seq<Sender>, i: nat, x: Sender)
    requires i < |senders|
    ensures Sum(Holders(senders[i := x])) == Sum(Holders(senders)) - Holds(senders[i]) + Holds(x)
  {
    assert Holders(senders[i := x]) == Holders(senders)[i := Holds(x)];
    SumUpdate(Holders(senders), i, Holds(x));
  }

  lemma HoldersAppend(senders: seq<Sender>, x: Sender)
    ensures Sum(Holders(senders + [x])) == Sum(Holders(senders)) + Holds(x)
  {
    assert Holders(senders + [x]) == Holders(senders) + [Holds(x)];
    SumAppend(Holders(senders), Holds(x));
  }

  /** With the wait group empty, no call is in its select. */
  lemma NoneSelecting(s: Auditor, i: nat)
    requires Counted(s) && s.gate.holders == 0
    ensures i < |s.senders| ==> s.senders[i].Answered?
  {
    if i < |s.senders| {
      SumZero(Holders(s.senders), i);
    }
  }

  // ---- the invariant is inductive ----

  lemma AcceptOne(senders: seq<Sender>, accepted: seq<Entry>, i: nat)
    requires AcceptedMeansNil(senders, accepted) && i < |senders| && senders[i].Selecting?
    ensures AcceptedMeansNil(senders[i := Leaving(senders[i].event, Accepted)], accepted + [Entry(i, senders[i].event)])
  {
    var more := accepted + [Entry(i, senders[i].event)];
    var moved := senders[i := Leaving(senders[i].event, Accepted)];
    forall k | 0 <= k < |moved| && Got(moved[k], Accepted)
      ensures Listed(more, k)
    {
      if k == i {
        assert more[|accepted|].sender == i;
      } else {
        assert Listed(accepted, k);
        var n :| 0 <= n < |accepted| && accepted[n].sender == k;
        assert more[n].sender == k;
      }
    }
  }

  /** A call that is not accepted at this step leaves the log's account of the others as it was. */
  lemma AcceptNone(senders: seq<Sender>, accepted: seq<Entry>, i: nat, x: Sender)
    requires AcceptedMeansNil(senders, accepted) && i < |senders|
    requires x.event == senders[i].event && (Got(x, Accepted) <==> Got(senders[i], Accepted))
    ensures AcceptedMeansNil(senders[i := x], accepted)
  {
  }

  lemma AcceptedStep(s: Auditor, a: Action)
    requires AcceptedMeansNil(s.senders, s.accepted) && SenderDue(s, a)
    ensures AcceptedMeansNil(StepSender(s, a).senders, StepSender(s, a).accepted)
  {
    var t := StepSender(s, a);
    if a.Enter? {
      assert forall i :: Listed(s.accepted, i) ==> Listed(t.accepted, i);
    } else if a.Send? || a.HandOver? {
      AcceptOne(s.senders, s.accepted, a.i);
    } else {
      AcceptNone(s.senders, s.accepted, a.i, t.senders[a.i]);
    }
  }

  lemma CountedStep(s: Auditor, a: Action)
    requires Counted(s) && SenderDue(s, a)
    ensures Counted(StepSender(s, a))
  {
    var t := StepSender(s, a);
    if a.Enter? {
      HoldersAppend(s.senders, t.senders[|s.senders|]);
    } else {
      HoldersUpdate(s.senders, a.i, t.senders[a.i]);
    }
  }

  lemma SenderStep(s: Auditor, a: Action)
    requires Inv(s) && SenderDue(s, a)
    ensures Inv(StepSender(s, a))
  {
    hide AcceptedMeansNil, Counted;
    AcceptedStep(s, a);
    CountedStep(s, a);
    if s.gate.holders == 0 && !a.Enter? {
      NoneSelecting(s, a.i);
    }
  }

  lemma HandedGrows(writes: seq<Write>, w: Write)
    ensures Handed(writes + [w]) == Handed(writes) + w.batch
  {
    assert (writes + [w])[..|writes|] == writes;
  }

  /** Moving the first of c to the end of b leaves the whole as it is. */
  lemma FirstMoves<T>(a: seq<T>, b: seq<T>, c: seq<T>)
    requires c != []
    ensures a + (b + [c[0]]) + c[1..] == a + b + c
  {
  }

  lemma NoneBetween<T>(a: seq<T>, b: seq<T>, c: seq<T>)
    ensures a + b + [] + c == a + b + c
  {
    assert a + b + [] == a + b;
  }

  lemma QueueStep(s: Auditor, a: Action)
    requires NothingLost(s) && Bounded(s) && WorkerSane(s.bench, s.queue, s.gate.sealed)
    requires WorkerAction(a) && Enabled(s, a)
    ensures NothingLost(Step(s, a)) && Bounded(Step(s, a))
  {
    hide Handed;
    var b := s.bench;
    if a.Receive? {
      FirstMoves(Handed(b.writes), b.batch, s.queue);
    } else if a.Flush? && b.batch != [] {
      HandedGrows(b.writes, Write(b.batch, a.ok));
      NoneBetween(Handed(b.writes), b.batch, s.queue);
    }
  }

  lemma WorkerStep(b: Bench, size: nat, interval: bool, queue: seq<Entry>, sealed: bool, a: Action)
    requires WorkerSane(b, queue, sealed) && WorkerDue(b, size, queue, sealed, a)
    ensures WorkerSane(StepBench(b, size, interval, queue, sealed, a), if a.Receive? then queue[1..] else queue, sealed)
    ensures !b.worker.Stopped?
  {
    if a.Flush? && b.batch != [] {
      var t := StepBench(b, size, interval, queue, sealed, a);
      assert t.writes[|b.writes|] == Write(b.batch, a.ok);
      assert forall w :: w in b.writes ==> w in t.writes;
    }
  }

  lemma BenchStep(s: Auditor, a: Action)
    requires Inv(s) && WorkerAction(a) && Enabled(s, a)
    ensures Inv(Step(s, a))
  {
    hide AcceptedMeansNil, NothingLost, Bounded, WorkerSane, StepBench;
    QueueStep(s, a);
    WorkerStep(s.bench, s.shape.batchSize, s.shape.interval, s.queue, s.gate.sealed, a);
  }

  lemma CloserStep(g: Gate, b: Bench, a: Action)
    requires GateSane(g, b) && CloserDue(g, b.worker.Stopped?, a)
    ensures var h := StepGate(g, b.worker.Stopped?, b.failed, a);
            GateSane(h, b) && h.holders == g.holders && (g.sealed ==> h.sealed)
  {
  }

  lemma InvStep(s: Auditor, a: Action)
    requires Inv(s) && Enabled(s, a)
    ensures Inv(Step(s, a))
  {
    hide StepSender, StepBench, StepGate;
    if SenderAction(a) {
      SenderStep(s, a);
    } else if WorkerAction(a) {
      BenchStep(s, a);
    } else {
      CloserStep(s.gate, s.bench, a);
    }
  }

  /** Every interleaving keeps all of it: handed to the store, in hand and queued, in order, is what was accepted. */
  lemma {:induction false} InvRun(cap: nat, interval: bool, run: seq<Action>)
    ensures Inv(After(New(cap, interval), run))
  {
    if run != [] {
      InvRun(cap, interval, run[..|run| - 1]);
      var t := After(New(cap, interval), run[..|run| - 1]);
      if Enabled(t, run[|run| - 1]) {
        InvStep(t, run[|run| - 1]);
      }
    }
  }

  /** After the channel is closed nobody is left that could send on it. */
  lemma NoSendOnSealed(cap: nat, interval: bool, run: seq<Action>, i: nat)
    requires After(New(cap, interval), run).gate.sealed
    ensures !Selects(After(New(cap, interval), run), i)
    ensures !Enabled(After(New(cap, interval), run), Send(i)) && !Enabled(After(New(cap, interval), run), HandOver(i))
  {
    InvRun(cap, interval, run);
    NoneSelecting(After(New(cap, interval), run), i);
  }

  /** Acceptance is final: later steps only add behind what was accepted. */
  lemma {:induction false} AcceptedOnlyGrows(s: Auditor, run: seq<Action>)
    ensures s.accepted <= After(s, run).accepted
  {
    if run != [] {
      var t, a := After(s, run[..|run| - 1]), run[|run| - 1];
      AcceptedOnlyGrows(s, run[..|run| - 1]);
      if Enabled(t, a) && SenderAction(a) {
        assert t.accepted <= StepSender(t, a).accepted;
      }
    }
  }

  // ---- what the calls are told ----

  predicate ClosedIsTrue(s: Auditor) {
    forall i :: 0 <= i < |s.senders| && Got(s.senders[i], RefusedClosed) ==> s.gate.closed
  }

  lemma ClosedIsTrueStep(s: Auditor, a: Action)
    requires Inv(s) && ClosedIsTrue(s) && Enabled(s, a)
    ensures ClosedIsTrue(Step(s, a))
  {
    hide AcceptedMeansNil, NothingLost, Bounded, WorkerSane, Counted, StepBench;
    if SenderAction(a) {
      forall i | 0 <= i < |Step(s, a).senders| && Got(Step(s, a).senders[i], RefusedClosed)
        ensures Step(s, a).gate.closed
      {
        if i < |s.senders| && Got(s.senders[i], RefusedClosed) {
        } else if a.Enter? {
        } else {
          assert s.senders[i] != Step(s, a).senders[i];
        }
      }
    }
  }

  /** A call is told "closed" only by an auditor whose closing has begun. */
  lemma {:induction false} RefusedClosedMeansClosed(cap: nat, interval: bool, run: seq<Action>)
    ensures ClosedIsTrue(After(New(cap, interval), run))
  {
    hide Step, Inv, ClosedIsTrue, Enabled;
    if run == [] {
      NewTellsNobody(cap, interval);
    } else {
      RefusedClosedMeansClosed(cap, interval, run[..|run| - 1]);
      InvRun(cap, interval, run[..|run| - 1]);
      var t := After(New(cap, interval), run[..|run| - 1]);
      if Enabled(t, run[|run| - 1]) {
        ClosedIsTrueStep(t, run[|run| - 1]);
      }
    }
  }

  lemma NewTellsNobody(cap: nat, interval: bool)
    ensures ClosedIsTrue(New(cap, interval))
  {
  }

  /** And it is told that its context ended only when that happened: at a step of its own, while it was waiting. */
  lemma {:induction false} RefusedContextWasCancelled(s: Auditor, run: seq<Action>, i: nat) returns (k: nat)
    requires s.senders == [] && i < |After(s, run).senders| && Got(After(s, run).senders[i], RefusedContext)
    ensures k < |run| && run[k] == Cancel(i) && Selects(After(s, run[..k]), i)
  {
    var n := |run| - 1;
    var before := After(s, run[..n]);
    if i < |before.senders| && Got(before.senders[i], RefusedContext) {
      k := RefusedContextWasCancelled(s, run[..n], i);
      assert run[..n][..k] == run[..k];
    } else {
      k := n;
      TurnedToContext(before, run[n], i);
    }
  }

  lemma TurnedToContext(s: Auditor, a: Action, i: nat)
    requires Enabled(s, a) && i < |Step(s, a).senders| && Got(Step(s, a).senders[i], RefusedContext)
    requires !(i < |s.senders| && Got(s.senders[i], RefusedContext))
    ensures a == Cancel(i) && Selects(s, i)
  {
    hide StepBench, StepGate;
  }

  // ---- who can move when ----

  /** A caller in its select can go on in exactly these ways; a caller elsewhere only leaves, once, with its answer. */
  lemma CallerMovesIff(s: Auditor, i: nat)
    ensures var waits := i < |s.senders| && s.senders[i].Selecting?;
            var w, room := s.bench.worker, |s.bench.batch| < s.shape.batchSize;
            && (Enabled(s, Send(i)) <==> waits && |s.queue| < s.shape.cap)
            && (Enabled(s, HandOver(i)) <==>
                  waits && s.queue == [] && (w == Receiving || (room && (w == Lingering || w == Draining))))
            && (Enabled(s, SeeStop(i)) <==> waits && s.gate.stopClosed)
            && (Enabled(s, Cancel(i)) <==> waits)
            && (Enabled(s, Leave(i)) <==> i < |s.senders| && s.senders[i].Leaving?)
            && forall e :: Enabled(s, Enter(e))
  {
  }

  /**
   What the worker can do at each of its stages. It chooses only while it lingers; at its first receive it waits
   for an event or the sealing, and it gives a batch up for flushing only when that is full or nothing is queued.
   */
  lemma WorkerMovesIff(s: Auditor, ok: bool)
    ensures var gets, ends := Enabled(s, Receive), Enabled(s, ReceiveSealed);
            var times, done, flushes := Enabled(s, TimeOut), Enabled(s, BatchDone), Enabled(s, Flush(ok));
            var room := |s.bench.batch| < s.shape.batchSize;
            match s.bench.worker
            case Receiving => (gets <==> s.queue != []) && (ends <==> s.queue == [] && s.gate.sealed)
                              && !times && !done && !flushes
            case Draining => (gets <==> s.queue != [] && room) && (done <==> !gets) && !ends && !times && !flushes
            case Lingering => (times <==> room) && (done <==> !room) && (gets <==> room && s.queue != [])
                              && (ends <==> room && s.queue == [] && s.gate.sealed) && !flushes
            case Flushing(_) => flushes && !gets && !ends && !times && !done
            case Stopped => !gets && !ends && !times && !done && !flushes
  {
  }

  /** One closer enters the once, the others wait until it is over; the wait group is waited for, and so is the worker. */
  lemma CloserMovesIff(s: Auditor, j: nat)
    requires j < |s.gate.closers|
    ensures Enabled(s, CallClose)
    ensures var enters, skips := Enabled(s, EnterOnce(j)), Enabled(s, SkipOnce(j));
            var goes, ends := Enabled(s, Advance(j)), Enabled(s, Return(j));
            match s.gate.closers[j]
            case Calling => (enters <==> s.gate.once == Untouched) && (skips <==> s.gate.once == Over)
                            && !goes && !ends
            case Inside(stage) => (goes <==> stage != Joining || s.gate.holders == 0) && !enters && !skips && !ends
            case Awaiting => (ends <==> s.bench.worker == Stopped) && !enters && !skips && !goes
            case Back(_) => !enters && !skips && !goes && !ends
  {
  }

  /** What arrives once closing has begun is refused at the door and never waits. */
  lemma ClosedRefusesAll(s: Auditor, e: AuditEvent)
    ensures var t := Step(s, Enter(e));
            && |t.senders| == |s.senders| + 1
            && t.senders[|s.senders|] == (if s.gate.closed then Answered(e, RefusedClosed) else Selecting(e))
  {
  }

  /** A batch is gathered for the interval exactly when there is one; without one only what is queued is taken along. */
  lemma FirstEventDecides(s: Auditor)
    requires s.bench.worker.Receiving? && s.queue != []
    ensures Enabled(s, Receive)
    ensures Step(s, Receive).bench.batch == s.bench.batch + [s.queue[0]] && Step(s, Receive).queue == s.queue[1..]
    ensures Step(s, Receive).bench.worker == (if s.shape.interval then Lingering else Draining)
  {
  }

  /** An event that comes later joins the batch, queued or handed over, and the worker goes on as it was. */
  lemma LaterEventsJoin(s: Auditor, a: Action)
    requires Enabled(s, a) && (a.Receive? || a.HandOver?) && s.bench.worker != Receiving
    ensures var entry := if a.Receive? then s.queue[0] else Entry(a.i, s.senders[a.i].event);
            var t := Step(s, a);
            && t.bench == s.bench.(batch := s.bench.batch + [entry])
            && t.queue == (if a.Receive? then s.queue[1..] else s.queue)
            && t.accepted == (if a.Receive? then s.accepted else s.accepted + [entry])
  {
  }

  /** Batches are as large as the queue, but at least one and at most 256. */
  lemma BatchSizeIs(cap: nat)
    ensures 1 <= BatchSize(cap) <= 256 && (1 <= cap <= 256 ==> BatchSize(cap) == cap) && BatchSize(cap) <= cap + 1
    ensures cap > 256 ==> BatchSize(cap) == 256
  {
  }

  // ---- closing ----

  function SenderWork(x: Sender): nat {
    match x
    case Selecting(_) => 6
    case Leaving(_, _) => 1
    case Answered(_, _) => 0
  }

  function CloserWork(c: Closer): nat {
    match c
    case Calling => 6
    case Inside(Marking) => 5
    case Inside(Stopping) => 4
    case Inside(Joining) => 3
    case Inside(Sealing) => 2
    case Awaiting => 1
    case Back(_) => 0
  }

  function WorkerWork(w: Worker): nat {
    match w
    case Lingering => 5
    case Draining => 4
    case Flushing(last) => if last then 1 else 3
    case Receiving => 2
    case Stopped => 0
  }

  function SendersWork(senders: seq<Sender>): seq<nat> {
    seq(|senders|, i requires 0 <= i < |senders| => SenderWork(senders[i]))
  }

  function ClosersWork(closers: seq<Closer>): seq<nat> {
    seq(|closers|, j requires 0 <= j < |closers| => CloserWork(closers[j]))
  }

  /** The work left in the calls under way and the events queued. */
  function Measure(s: Auditor): nat {
    Sum(SendersWork(s.senders)) + Sum(ClosersWork(s.gate.closers)) + 4 * |s.queue| + WorkerWork(s.bench.worker)
  }

  lemma SenderMoves(senders: seq<Sender>, i: nat, x: Sender)
    requires i < |senders|
    ensures Sum(SendersWork(senders[i := x])) == Sum(SendersWork(senders)) - SenderWork(senders[i]) + SenderWork(x)
  {
    assert SendersWork(senders[i := x]) == SendersWork(senders)[i := SenderWork(x)];
    SumUpdate(SendersWork(senders), i, SenderWork(x));
  }

  lemma CloserMoves(closers: seq<Closer>, j: nat, c: Closer)
    requires j < |closers|
    ensures Sum(ClosersWork(closers[j := c])) == Sum(ClosersWork(closers)) - CloserWork(closers[j]) + CloserWork(c)
  {
    assert ClosersWork(closers[j := c]) == ClosersWork(closers)[j := CloserWork(c)];
    SumUpdate(ClosersWork(closers), j, CloserWork(c));
  }

  /** What an arrival adds; an `Append` that finds the auditor closed adds nothing. */
  function Cost(s: Auditor, a: Action): nat {
    if a.CallClose? || (a.Enter? && !s.gate.closed) then 6 else 0
  }

  lemma SenderUsesWork(s: Auditor, a: Action)
    requires SenderDue(s, a)
    ensures a.Enter? ==> Measure(StepSender(s, a)) == Measure(s) + Cost(s, a)
    ensures !a.Enter? ==> Measure(StepSender(s, a)) < Measure(s)
  {
    var t := StepSender(s, a);
    if a.Enter? {
      var x := t.senders[|s.senders|];
      assert SendersWork(t.senders) == SendersWork(s.senders) + [SenderWork(x)];
      SumAppend(SendersWork(s.senders), SenderWork(x));
    } else {
      SenderMoves(s.senders, a.i, t.senders[a.i]);
    }
  }

  lemma CloserUsesWork(g: Gate, stopped: bool, failed: bool, a: Action)
    requires CloserDue(g, stopped, a)
    ensures var before, after := Sum(ClosersWork(g.closers)), Sum(ClosersWork(StepGate(g, stopped, failed, a).closers));
            if a.CallClose? then after == before + 6 else after < before
  {
    var h := StepGate(g, stopped, failed, a);
    if a.CallClose? {
      assert ClosersWork(h.closers) == ClosersWork(g.closers) + [6];
      SumAppend(ClosersWork(g.closers), 6);
    } else {
      CloserMoves(g.closers, a.j, h.closers[a.j]);
    }
  }

  /** Every step but an arrival uses up work. */
  lemma StepUsesWork(s: Auditor, a: Action)
    requires Enabled(s, a)
    ensures Arrival(a) ==> Measure(Step(s, a)) == Measure(s) + Cost(s, a)
    ensures !Arrival(a) ==> Measure(Step(s, a)) < Measure(s)
    ensures s.gate.closed ==> Step(s, a).gate.closed
  {
    if SenderAction(a) {
      SenderUsesWork(s, a);
    } else if !WorkerAction(a) {
      CloserUsesWork(s.gate, s.bench.worker.Stopped?, s.bench.failed, a);
    }
  }

  /** The steps of a run that are not arrivals and were due. */
  function Work(s: Auditor, run: seq<Action>): nat {
    if run == [] then 0
    else
      var n := |run| - 1;
      Work(s, run[..n]) + (if !Arrival(run[n]) && Enabled(After(s, run[..n]), run[n]) then 1 else 0)
  }

  function CloseCalls(run: seq<Action>): nat {
    if run == [] then 0 else CloseCalls(run[..|run| - 1]) + (if run[|run| - 1].CallClose? then 1 else 0)
  }

  /**
   Once closed, every schedule is finite: however the steps are ordered and however many
   more `Append` calls come, only so many steps are left.
   */
  lemma {:induction false} ClosingIsBounded(s: Auditor, run: seq<Action>)
    requires s.gate.closed
    ensures After(s, run).gate.closed
    ensures Work(s, run) + Measure(After(s, run)) <= Measure(s) + 6 * CloseCalls(run)
  {
    if run != [] {
      var n := |run| - 1;
      ClosingIsBounded(s, run[..n]);
      if Enabled(After(s, run[..n]), run[n]) {
        StepUsesWork(After(s, run[..n]), run[n]);
      }
    }
  }

  /** The k-th step of the run is due and is neither a call of `Append` nor one of `Close`. */
  predicate WorksAt(s: Auditor, run: seq<Action>, k: nat) {
    k < |run| && !run[k].Enter? && !run[k].CallClose? && Enabled(After(s, run[..k]), run[k])
  }

  /** What is bounded is the number of places in the run at which such a step was taken. */
  lemma {:induction false} WorkIsCounted(s: Auditor, run: seq<Action>)
    ensures Work(s, run) == |set k: nat | k < |run| && WorksAt(s, run, k)|
  {
    hide Enabled, After;
    if run != [] {
      var n := |run| - 1;
      var front := run[..n];
      WorkIsCounted(s, front);
      var before := set k: nat | k < n && WorksAt(s, front, k);
      var all := set k: nat | k < |run| && WorksAt(s, run, k);
      forall k: nat | k < n
        ensures WorksAt(s, front, k) == WorksAt(s, run, k)
      {
        assert front[..k] == run[..k];
      }
      assert all == before + if WorksAt(s, run, n) then {n} else {};
    }
  }

  lemma {:induction false} CloseCallsAreCounted(run: seq<Action>)
    ensures CloseCalls(run) == |set k | 0 <= k < |run| && run[k].CallClose?|
  {
    if run != [] {
      var n := |run| - 1;
      CloseCallsAreCounted(run[..n]);
      var before := set k | 0 <= k < n && run[..n][k].CallClose?;
      assert (set k | 0 <= k < |run| && run[k].CallClose?) == before + if run[n].CallClose? then {n} else {};
    }
  }

  predicate AllAnswered(s: Auditor) {
    forall i :: 0 <= i < |s.senders| ==> s.senders[i].Answered?
  }

  predicate AllBack(s: Auditor) {
    forall j :: 0 <= j < |s.gate.closers| ==> s.gate.closers[j].Back?
  }

  lemma {:induction false} SomeHolder(senders: seq<Sender>) returns (i: nat)
    requires Sum(Holders(senders)) > 0
    ensures i < |senders| && !senders[i].Answered?
  {
    var n := |senders| - 1;
    if senders[n].Answered? {
      assert Holders(senders)[..n] == Holders(senders[..n]);
      i := SomeHolder(senders[..n]);
    } else {
      i := n;
    }
  }

  /** No deadlock: once a `Close` is under way, some step is due until every call is back, and no context need end for it. */
  lemma NoDeadlock(s: Auditor) returns (a: Action)
    requires Inv(s) && !s.gate.once.Untouched?
    requires !(s.bench.worker.Stopped? && AllAnswered(s) && AllBack(s))
    ensures Enabled(s, a) && !Arrival(a) && !a.Cancel?
  {
    if !AllAnswered(s) {
      var i :| 0 <= i < |s.senders| && !s.senders[i].Answered?;
      if s.senders[i].Leaving? {
        a := Leave(i);
      } else {
        a := DueForClose(s, i);
      }
    } else if s.gate.once.Running? {
      var j := s.gate.once.owner;
      if s.gate.holders > 0 {
        var i := SomeHolder(s.senders);
      }
      a := Advance(j);
    } else if !s.bench.worker.Stopped? {
      a := match s.bench.worker
      case Receiving => if s.queue != [] then Receive else ReceiveSealed
      case Draining => if s.queue != [] && |s.bench.batch| < s.shape.batchSize then Receive else BatchDone
      case Lingering => if |s.bench.batch| < s.shape.batchSize then TimeOut else BatchDone
      case _ => Flush(true);
    } else {
      var j :| 0 <= j < |s.gate.closers| && !s.gate.closers[j].Back?;
      a := if s.gate.closers[j].Calling? then SkipOnce(j) else Return(j);
    }
  }

  /** A blocked sender never needs its context to end: either the stop is visible or the closer can move. */
  lemma DueForClose(s: Auditor, i: nat) returns (a: Action)
    requires Inv(s) && !s.gate.once.Untouched? && Selects(s, i)
    ensures Enabled(s, a) && !Arrival(a) && !a.Cancel?
  {
    a := if s.gate.stopClosed then SeeStop(i) else Advance(s.gate.once.owner);
  }

  /** Where a schedule with nothing left to do has ended: worker gone, all calls back, all accepted events handed over. */
  lemma CloseCompletes(cap: nat, interval: bool, run: seq<Action>)
    requires !After(New(cap, interval), run).gate.once.Untouched?
    requires forall a :: Enabled(After(New(cap, interval), run), a) ==> Arrival(a)
    ensures var s := After(New(cap, interval), run);
            s.bench.worker.Stopped? && AllAnswered(s) && AllBack(s) && Handed(s.bench.writes) == s.accepted
  {
    InvRun(cap, interval, run);
    var s := After(New(cap, interval), run);
    if !(s.bench.worker.Stopped? && AllAnswered(s) && AllBack(s)) {
      var a := NoDeadlock(s);
    }
    assert Handed(s.bench.writes) + [] + [] == Handed(s.bench.writes);
  }

  /** What the store holds: the batches whose write succeeded. */
  function Stored(writes: seq<Write>): seq<Entry> {
    if writes == [] then []
    else Stored(writes[..|writes| - 1]) + (if writes[|writes| - 1].ok then writes[|writes| - 1].batch else [])
  }

  lemma {:induction false} StoredAll(writes: seq<Write>)
    requires forall w :: w in writes ==> w.ok
    ensures Stored(writes) == Handed(writes)
  {
    if writes != [] {
      StoredAll(writes[..|writes| - 1]);
    }
  }

  /** A write that failed leaves the store short of what was handed to it. */
  lemma {:induction false} StoredIsShorter(writes: seq<Write>)
    requires forall w :: w in writes ==> w.batch != []
    ensures |Stored(writes)| <= |Handed(writes)|
    ensures |Stored(writes)| == |Handed(writes)| ==> forall w :: w in writes ==> w.ok
  {
    if writes != [] {
      StoredIsShorter(writes[..|writes| - 1]);
      assert writes == writes[..|writes| - 1] + [writes[|writes| - 1]];
    }
  }

  /**
   When an accepted event is as good as stored, in every run: exactly when the worker has nothing in hand, nothing
   is queued and no write has failed.
   */
  lemma AcceptedIsStoredIff(cap: nat, interval: bool, run: seq<Action>)
    ensures var s := After(New(cap, interval), run);
            Stored(s.bench.writes) == s.accepted <==> s.bench.batch == [] && s.queue == [] && !s.bench.failed
  {
    hide Handed, Stored, After, AcceptedMeansNil, GateSane, Counted;
    InvRun(cap, interval, run);
    var s := After(New(cap, interval), run);
    assert |s.accepted| == |Handed(s.bench.writes)| + |s.bench.batch| + |s.queue|;
    StoredIsShorter(s.bench.writes);
    if !s.bench.failed {
      StoredAll(s.bench.writes);
    }
    if s.bench.batch == [] && s.queue == [] {
      assert Handed(s.bench.writes) + [] + [] == Handed(s.bench.writes);
    }
  }

  /** A `Close` that returns nil means every accepted event is in the store, in order; an error means some is not. */
  lemma NilCloseMeansStored(cap: nat, interval: bool, run: seq<Action>, j: nat)
    requires var s := After(New(cap, interval), run); j < |s.gate.closers| && s.gate.closers[j].Back?
    ensures var s := After(New(cap, interval), run);
            && Handed(s.bench.writes) == s.accepted
            && (s.gate.closers[j].failed <==> exists w :: w in s.bench.writes && !w.ok)
            && (s.gate.closers[j].failed <==> Stored(s.bench.writes) != s.accepted)
  {
    InvRun(cap, interval, run);
    AcceptedIsStoredIff(cap, interval, run);
    var s := After(New(cap, interval), run);
    assert Handed(s.bench.writes) + [] + [] == Handed(s.bench.writes);
  }

  /** Before that, a nil `Append` only means queued: here one has returned and the store has nothing. */
  lemma AcceptedIsNotStored(e: AuditEvent)
    ensures var s := After(New(1, false), [Enter(e), Send(0), Leave(0)]);
            s.senders == [Answered(e, Accepted)] && s.bench.writes == [] && s.queue == [Entry(0, e)]
  {
    var run := [Enter(e), Send(0), Leave(0)];
    assert run[..2] == [Enter(e), Send(0)] && run[..2][..1] == [Enter(e)] && run[..2][..1][..0] == [];
    assert After(New(1, false), run[..2][..1][..0]) == New(1, false);
    var s1 := After(New(1, false), run[..2][..1]);
    assert s1.senders == [Selecting(e)];
    var s2 := After(New(1, false), run[..2]);
    assert s2.senders == [Leaving(e, Accepted)];
  }
}
