/** The two-phase park handshake that every blocking call of the sync primitives goes through,
    as a state machine over the waiter queues and the scheduler.

    A blocking call registers a pending entry in one section, migrates its state with the
    scheduler in a second, and rechecks its entry in a third. A waker decides an entry in one
    section and wakes the context in a later, separate step. Every section is one step here, so
    a run may put anything at all between two sections of the same call, including between a
    waker's section and the wake it owes. Which queue a call uses, and which entry a waker
    decides with what stamp, is left to the run: the results hold for all four primitives. */
module Handshake {
  import opened Wrappers
  import opened WaitQueue

  type Queue = nat

  /** Where a context's thread of control is. `Failed` is the "entry vanished" tripwire. */
  datatype Pc = Running | Registered | Migrated | Aborting | Unwinding | Parked | Queued | Failed

  /** `runnable`, `framesParked` and `rethrow` are the scheduler's fields; `queue` is the waiter
      list of the call the context is in; `outcome` is what that call was decided to return. */
  datatype Context = Context(pc: Pc, runnable: bool, framesParked: bool, rethrow: bool,
                             queue: Queue, outcome: Option<Phase>)

  /** A wake a section has promised and not yet delivered. */
  datatype Wake = Wake(ctx: Ctx, queue: Queue, stamp: Phase)

  datatype World = World(queues: map<Queue, seq<Waiter>>, ctxs: map<Ctx, Context>,
                         wakes: seq<Wake>, runQueue: seq<Ctx>)

  datatype Action =
    | Spawn(c: Ctx)
    | Register(c: Ctx, q: Queue, offer: int)
    | ParkFor(c: Ctx)
    | Recheck(c: Ctx)
    | Abort(c: Ctx)
    | Preempt(c: Ctx)
    | Land(c: Ctx)
    | Settle(q: Queue, stamp: Phase)
    | Deliver(k: nat)
    | Dispatch(i: nat)

  function At(qs: map<Queue, seq<Waiter>>, q: Queue): seq<Waiter> {
    if q in qs then qs[q] else []
  }

  predicate Is(w: World, c: Ctx, pc: Pc) {
    c in w.ctxs && w.ctxs[c].pc == pc
  }

  /** What must be true for a step to be taken: only where its context's control is. */
  predicate Enabled(w: World, a: Action) {
    match a
    case Spawn(c) => c !in w.ctxs
    case Register(c, _, _) => Is(w, c, Running)
    case ParkFor(c) => Is(w, c, Registered)
    case Recheck(c) => Is(w, c, Migrated)
    case Abort(c) => Is(w, c, Aborting)
    case Preempt(c) => Is(w, c, Running)
    case Land(c) => Is(w, c, Unwinding)
    case Settle(_, stamp) => IsStamp(stamp)
    case Deliver(k) => k < |w.wakes| && w.wakes[k].ctx in w.ctxs
    case Dispatch(i) => i < |w.runQueue| && w.runQueue[i] in w.ctxs
  }

  function Put(w: World, c: Ctx, x: Context): World {
    w.(ctxs := w.ctxs[c := x])
  }

  /** The recheck section: commit a pending entry, consume a stamped one. */
  function RecheckStep(w: World, c: Ctx): World
    requires c in w.ctxs
  {
    var x := w.ctxs[c];
    var (ws, result) := RecheckSpec(At(w.queues, x.queue), c);
    match result
    case Vanished => Put(w, c, x.(pc := Failed))
    case Commit => Put(w, c, x.(pc := Unwinding)).(queues := w.queues[x.queue := ws])
    case Consumed(stamp) => Put(w, c, x.(pc := Aborting, outcome := Some(stamp))).(queues := w.queues[x.queue := ws])
  }

  /** A waker's section: the first live entry is decided; a committed one is owed a wake. */
  function SettleStep(w: World, q: Queue, stamp: Phase): World {
    var ws := At(w.queues, q);
    var decided := w.(queues := w.queues[q := DecideFirst(ws, stamp)]);
    match WakeAfterDecide(ws)
    case None => if FirstLive(ws) < |ws| then decided else w
    case Some(c) =>
      if c in w.ctxs then
        Put(decided, c, w.ctxs[c].(outcome := Some(stamp))).(wakes := w.wakes + [Wake(c, q, stamp)])
      else
        decided.(wakes := w.wakes + [Wake(c, q, stamp)])
  }

  /** The scheduler's wake: it makes the context runnable whatever the context is doing, and
      queues it exactly when its frames have landed. */
  function DeliverStep(w: World, k: nat): World
    requires k < |w.wakes| && w.wakes[k].ctx in w.ctxs
  {
    var wake := w.wakes[k];
    var x := w.ctxs[wake.ctx];
    World(w.queues,
          w.ctxs[wake.ctx := x.(runnable := true, rethrow := x.rethrow || wake.stamp == Closed,
                                pc := if x.pc == Parked then Queued else x.pc)],
          w.wakes[..k] + w.wakes[k + 1..],
          if x.framesParked then w.runQueue + [wake.ctx] else w.runQueue)
  }

  function Apply(w: World, a: Action): World
    requires Enabled(w, a)
  {
    match a
    case Spawn(c) =>
      Put(w, c, Context(Queued, true, false, false, 0, None)).(runQueue := w.runQueue + [c])
    case Register(c, q, offer) =>
      Put(w, c, w.ctxs[c].(pc := Registered, queue := q))
      .(queues := w.queues[q := At(w.queues, q) + [Waiter(c, Pending, offer)]])
    case ParkFor(c) => Put(w, c, w.ctxs[c].(pc := Migrated, runnable := false))
    case Recheck(c) => RecheckStep(w, c)
    case Abort(c) => Put(w, c, w.ctxs[c].(pc := Running, runnable := true, outcome := None))
    case Preempt(c) => Put(w, c, w.ctxs[c].(pc := Unwinding))
    case Land(c) =>
      if w.ctxs[c].runnable then
        Put(w, c, w.ctxs[c].(pc := Queued)).(runQueue := w.runQueue + [c])
      else
        Put(w, c, w.ctxs[c].(pc := Parked, framesParked := true))
    case Settle(q, stamp) => SettleStep(w, q, stamp)
    case Deliver(k) => DeliverStep(w, k)
    case Dispatch(i) =>
      var c := w.runQueue[i];
      Put(w, c, w.ctxs[c].(pc := Running, framesParked := false, rethrow := false, outcome := None))
      .(runQueue := w.runQueue[..i] + w.runQueue[i + 1..])
  }

  const EMPTY := World(map[], map[], [], [])

  predicate IsRun(w: World, acts: seq<Action>)
    decreases |acts|
  {
    acts == [] || (Enabled(w, acts[0]) && IsRun(Apply(w, acts[0]), acts[1..]))
  }

  function After(w: World, acts: seq<Action>): World
    requires IsRun(w, acts)
    decreases |acts|
  {
    if acts == [] then w else After(Apply(w, acts[0]), acts[1..])
  }

  // ---------------------------------------------------------------- the invariant

  /** Asleep: the scheduler holds the context back until somebody wakes it. */
  predicate Waits(x: Context) {
    (x.pc == Unwinding || x.pc == Parked) && !x.runnable
  }

  predicate NeedsEntry(x: Context) {
    x.pc == Registered || x.pc == Migrated || (Waits(x) && x.outcome == None)
  }

  predicate InQueue(x: Context, phase: Phase) {
    if phase == Committed then Waits(x) && x.outcome == None
    else x.pc == Registered || x.pc == Migrated
  }

  predicate ContextOk(x: Context) {
    && (x.outcome.Some? ==> IsStamp(x.outcome.value))
    && (x.runnable ==> x.rethrow == (x.outcome == Some(Closed)))
    && (!x.runnable ==> !x.rethrow)
    && match x.pc
       case Running => x.runnable && !x.framesParked && x.outcome == None
       case Registered => x.runnable && !x.framesParked && x.outcome == None
       case Migrated => !x.runnable && !x.framesParked && x.outcome == None
       case Aborting => !x.runnable && !x.framesParked && x.outcome.Some?
       case Unwinding => !x.framesParked
       case Parked => !x.runnable && x.framesParked
       case Queued => x.runnable
       case Failed => false
  }

  ghost predicate ContextsOk(ctxs: map<Ctx, Context>) {
    forall c :: c in ctxs ==> ContextOk(ctxs[c])
  }

  predicate EntryOk(v: Waiter, q: Queue, ctxs: map<Ctx, Context>) {
    v.ctx in ctxs && ctxs[v.ctx].queue == q && InQueue(ctxs[v.ctx], v.phase)
  }

  ghost predicate EntriesOk(qs: map<Queue, seq<Waiter>>, ctxs: map<Ctx, Context>) {
    forall q, i :: 0 <= i < |At(qs, q)| ==> EntryOk(At(qs, q)[i], q, ctxs)
  }

  ghost predicate QueuesDistinct(qs: map<Queue, seq<Waiter>>) {
    forall q :: Distinct(At(qs, q))
  }

  ghost predicate Anchored(qs: map<Queue, seq<Waiter>>, ctxs: map<Ctx, Context>) {
    forall c :: c in ctxs && NeedsEntry(ctxs[c]) ==> Has(At(qs, ctxs[c].queue), c)
  }

  predicate WakeOk(wake: Wake, ctxs: map<Ctx, Context>) {
    && wake.ctx in ctxs && Waits(ctxs[wake.ctx])
    && ctxs[wake.ctx].queue == wake.queue && ctxs[wake.ctx].outcome == Some(wake.stamp)
  }

  ghost predicate WakesOk(wakes: seq<Wake>, ctxs: map<Ctx, Context>) {
    && (forall k :: 0 <= k < |wakes| ==> WakeOk(wakes[k], ctxs))
    && (forall j, k :: 0 <= j < k < |wakes| ==> wakes[j].ctx != wakes[k].ctx)
  }

  ghost predicate HasWake(wakes: seq<Wake>, c: Ctx) {
    exists k :: 0 <= k < |wakes| && wakes[k].ctx == c
  }

  ghost predicate WakesOwed(wakes: seq<Wake>, ctxs: map<Ctx, Context>) {
    forall c :: c in ctxs && Waits(ctxs[c]) && ctxs[c].outcome.Some? ==> HasWake(wakes, c)
  }

  ghost predicate RunQueueOk(runQueue: seq<Ctx>, ctxs: map<Ctx, Context>) {
    && (forall i, j :: 0 <= i < j < |runQueue| ==> runQueue[i] != runQueue[j])
    && (forall i :: 0 <= i < |runQueue| ==> runQueue[i] in ctxs && ctxs[runQueue[i]].pc == Queued)
    && (forall c :: c in ctxs && ctxs[c].pc == Queued ==> c in runQueue)
  }

  ghost predicate Inv(w: World) {
    && ContextsOk(w.ctxs)
    && EntriesOk(w.queues, w.ctxs)
    && QueuesDistinct(w.queues)
    && Anchored(w.queues, w.ctxs)
    && WakesOk(w.wakes, w.ctxs)
    && WakesOwed(w.wakes, w.ctxs)
    && RunQueueOk(w.runQueue, w.ctxs)
  }

  // ---------------------------------------------------------------- preservation

  lemma EntriesElsewhere(qs: map<Queue, seq<Waiter>>, ctxs: map<Ctx, Context>, c: Ctx, y: Context)
    requires EntriesOk(qs, ctxs) && Anchored(qs, ctxs)
    requires c in ctxs ==> !NeedsEntry(ctxs[c])
    requires !NeedsEntry(y)
    ensures EntriesOk(qs, ctxs[c := y]) && Anchored(qs, ctxs[c := y])
  {
  }

  lemma WakesElsewhere(wakes: seq<Wake>, ctxs: map<Ctx, Context>, c: Ctx, y: Context)
    requires WakesOk(wakes, ctxs) && WakesOwed(wakes, ctxs)
    requires c in ctxs ==> !Waits(ctxs[c]) || ctxs[c].outcome == None
    requires !Waits(y) || y.outcome == None
    ensures WakesOk(wakes, ctxs[c := y]) && WakesOwed(wakes, ctxs[c := y])
  {
  }

  lemma RunQueueElsewhere(rq: seq<Ctx>, ctxs: map<Ctx, Context>, c: Ctx, y: Context)
    requires RunQueueOk(rq, ctxs)
    requires c in ctxs ==> ctxs[c].pc != Queued
    requires y.pc != Queued
    ensures RunQueueOk(rq, ctxs[c := y])
  {
  }

  lemma RunQueuePush(rq: seq<Ctx>, ctxs: map<Ctx, Context>, c: Ctx, y: Context)
    requires RunQueueOk(rq, ctxs)
    requires c in ctxs ==> ctxs[c].pc != Queued
    requires y.pc == Queued
    ensures RunQueueOk(rq + [c], ctxs[c := y])
  {
    assert (rq + [c])[|rq|] == c;
    assert forall d :: d in rq ==> d in rq + [c];
  }

  lemma RunQueuePop(rq: seq<Ctx>, ctxs: map<Ctx, Context>, i: nat, y: Context)
    requires RunQueueOk(rq, ctxs) && i < |rq|
    requires y.pc != Queued
    ensures RunQueueOk(rq[..i] + rq[i + 1..], ctxs[rq[i] := y])
  {
    var rest := rq[..i] + rq[i + 1..];
    forall d | d in rq && d != rq[i]
      ensures d in rest
    {
      var j :| 0 <= j < |rq| && rq[j] == d;
      assert rest[if j < i then j else j - 1] == d;
    }
    assert forall j :: 0 <= j < |rest| ==> rest[j] == rq[if j < i then j else j + 1];
  }

  lemma WakePush(wakes: seq<Wake>, ctxs: map<Ctx, Context>, wake: Wake, y: Context)
    requires WakesOk(wakes, ctxs) && WakesOwed(wakes, ctxs)
    requires wake.ctx in ctxs ==> ctxs[wake.ctx].outcome == None
    requires Waits(y) && y.queue == wake.queue && y.outcome == Some(wake.stamp)
    ensures WakesOk(wakes + [wake], ctxs[wake.ctx := y]) && WakesOwed(wakes + [wake], ctxs[wake.ctx := y])
  {
    var more := wakes + [wake];
    assert more[|wakes|] == wake;
    forall c | HasWake(wakes, c)
      ensures HasWake(more, c)
    {
      var k :| 0 <= k < |wakes| && wakes[k].ctx == c;
      assert more[k].ctx == c;
    }
    assert HasWake(more, wake.ctx);
  }

  lemma WakePop(wakes: seq<Wake>, ctxs: map<Ctx, Context>, k: nat, y: Context)
    requires WakesOk(wakes, ctxs) && WakesOwed(wakes, ctxs) && k < |wakes|
    requires !Waits(y)
    ensures WakesOk(wakes[..k] + wakes[k + 1..], ctxs[wakes[k].ctx := y])
    ensures WakesOwed(wakes[..k] + wakes[k + 1..], ctxs[wakes[k].ctx := y])
  {
    var rest := wakes[..k] + wakes[k + 1..];
    assert forall j :: 0 <= j < |rest| ==> rest[j] == wakes[if j < k then j else j + 1];
    forall c | HasWake(wakes, c) && c != wakes[k].ctx
      ensures HasWake(rest, c)
    {
      var j :| 0 <= j < |wakes| && wakes[j].ctx == c;
      assert rest[if j < k then j else j - 1].ctx == c;
    }
  }

  /** One queue loses the entry of context `c`, which stops needing one. */
  lemma EntryLeaves(qs: map<Queue, seq<Waiter>>, ctxs: map<Ctx, Context>, q: Queue, i: nat, y: Context)
    requires EntriesOk(qs, ctxs) && Anchored(qs, ctxs) && QueuesDistinct(qs)
    requires i < |At(qs, q)| && !NeedsEntry(y)
    ensures var c, qs' := At(qs, q)[i].ctx, qs[q := Without(At(qs, q), i)];
            EntriesOk(qs', ctxs[c := y]) && Anchored(qs', ctxs[c := y]) && QueuesDistinct(qs')
  {
    var ws := At(qs, q);
    var c, qs' := ws[i].ctx, qs[q := Without(ws, i)];
    WithoutHas(ws, i);
    assert forall r :: At(qs', r) == if r == q then Without(ws, i) else At(qs, r);
    assert EntryOk(At(qs, q)[i], q, ctxs);
  }

  /** One queue changes the phase of the entry of context `c` in step with the context. */
  lemma EntryRephased(qs: map<Queue, seq<Waiter>>, ctxs: map<Ctx, Context>, q: Queue, i: nat, p: Phase, y: Context)
    requires EntriesOk(qs, ctxs) && Anchored(qs, ctxs) && QueuesDistinct(qs)
    requires i < |At(qs, q)| && y.queue == q && InQueue(y, p)
    ensures var ws := At(qs, q);
            var c, qs' := ws[i].ctx, qs[q := ws[i := ws[i].(phase := p)]];
            EntriesOk(qs', ctxs[c := y]) && Anchored(qs', ctxs[c := y]) && QueuesDistinct(qs')
  {
    var ws := At(qs, q);
    var c, ws' := ws[i].ctx, ws[i := ws[i].(phase := p)];
    var qs' := qs[q := ws'];
    RephaseHas(ws, i, p);
    assert forall r :: At(qs', r) == if r == q then ws' else At(qs, r);
    assert EntryOk(At(qs, q)[i], q, ctxs);
    assert ws'[i].ctx == c;
  }

  lemma EntryJoins(qs: map<Queue, seq<Waiter>>, ctxs: map<Ctx, Context>, q: Queue, v: Waiter, y: Context)
    requires EntriesOk(qs, ctxs) && Anchored(qs, ctxs) && QueuesDistinct(qs)
    requires v.ctx in ctxs ==> !NeedsEntry(ctxs[v.ctx])
    requires y.queue == q && InQueue(y, v.phase)
    ensures var qs' := qs[q := At(qs, q) + [v]];
            EntriesOk(qs', ctxs[v.ctx := y]) && Anchored(qs', ctxs[v.ctx := y]) && QueuesDistinct(qs')
  {
    var ws := At(qs, q);
    var qs' := qs[q := ws + [v]];
    forall i | 0 <= i < |ws|
      ensures ws[i].ctx != v.ctx
    {
      assert EntryOk(At(qs, q)[i], q, ctxs);
    }
    AppendHas(ws, v);
    assert forall r :: At(qs', r) == if r == q then ws + [v] else At(qs, r);
  }

  lemma SpawnInv(w: World, c: Ctx)
    requires Inv(w) && c !in w.ctxs
    ensures Inv(Apply(w, Spawn(c)))
  {
    var y := Context(Queued, true, false, false, 0, None);
    EntriesElsewhere(w.queues, w.ctxs, c, y);
    WakesElsewhere(w.wakes, w.ctxs, c, y);
    RunQueuePush(w.runQueue, w.ctxs, c, y);
  }

  lemma RegisterInv(w: World, c: Ctx, q: Queue, offer: int)
    requires Inv(w) && Is(w, c, Running)
    ensures Inv(Apply(w, Register(c, q, offer)))
  {
    var y := w.ctxs[c].(pc := Registered, queue := q);
    EntryJoins(w.queues, w.ctxs, q, Waiter(c, Pending, offer), y);
    WakesElsewhere(w.wakes, w.ctxs, c, y);
    RunQueueElsewhere(w.runQueue, w.ctxs, c, y);
  }

  lemma ParkForInv(w: World, c: Ctx)
    requires Inv(w) && Is(w, c, Registered)
    ensures Inv(Apply(w, ParkFor(c)))
  {
    var y := w.ctxs[c].(pc := Migrated, runnable := false);
    WakesElsewhere(w.wakes, w.ctxs, c, y);
    RunQueueElsewhere(w.runQueue, w.ctxs, c, y);
  }

  /** A context in its recheck always finds its entry, and the entry is not committed yet. */
  lemma EntryPresent(w: World, c: Ctx)
    requires Inv(w) && Is(w, c, Migrated)
    ensures var ws := At(w.queues, w.ctxs[c].queue); IndexOf(ws, c) < |ws| && ws[IndexOf(ws, c)].phase != Committed
  {
    var q := w.ctxs[c].queue;
    var ws := At(w.queues, q);
    assert Has(ws, c);
    var i := IndexOf(ws, c);
    if i < |ws| {
      assert EntryOk(At(w.queues, q)[i], q, w.ctxs);
    }
  }

  lemma RecheckInv(w: World, c: Ctx)
    requires Inv(w) && Is(w, c, Migrated)
    ensures Inv(Apply(w, Recheck(c)))
  {
    EntryPresent(w, c);
    hide *;
    if At(w.queues, w.ctxs[c].queue)[IndexOf(At(w.queues, w.ctxs[c].queue), c)].phase == Pending {
      CommitInv(w, c);
    } else {
      StampInv(w, c);
    }
  }

  lemma CommitInv(w: World, c: Ctx)
    requires Inv(w) && Is(w, c, Migrated)
    requires var ws := At(w.queues, w.ctxs[c].queue); IndexOf(ws, c) < |ws| && ws[IndexOf(ws, c)].phase == Pending
    ensures Inv(Apply(w, Recheck(c)))
  {
    hide EntriesOk, Anchored, QueuesDistinct, WakesOk, WakesOwed, RunQueueOk, IndexOf;
    var q, y := w.ctxs[c].queue, w.ctxs[c].(pc := Unwinding);
    ContextsUpdate(w.ctxs, c, y);
    hide ContextsOk, ContextOk;
    EntryRephased(w.queues, w.ctxs, q, IndexOf(At(w.queues, q), c), Committed, y);
    WakesElsewhere(w.wakes, w.ctxs, c, y);
    RunQueueElsewhere(w.runQueue, w.ctxs, c, y);
  }

  lemma ContextsUpdate(ctxs: map<Ctx, Context>, c: Ctx, y: Context)
    requires ContextsOk(ctxs)
    ensures ContextOk(y) ==> ContextsOk(ctxs[c := y])
    ensures c in ctxs ==> ContextOk(ctxs[c])
  {
  }

  lemma StampInv(w: World, c: Ctx)
    requires Inv(w) && Is(w, c, Migrated)
    requires var ws := At(w.queues, w.ctxs[c].queue);
             IndexOf(ws, c) < |ws| && ws[IndexOf(ws, c)].phase != Pending && ws[IndexOf(ws, c)].phase != Committed
    ensures Inv(Apply(w, Recheck(c)))
  {
    hide EntriesOk, Anchored, QueuesDistinct, WakesOk, WakesOwed, RunQueueOk, IndexOf;
    var q := w.ctxs[c].queue;
    var i := IndexOf(At(w.queues, q), c);
    var y := w.ctxs[c].(pc := Aborting, outcome := Some(At(w.queues, q)[i].phase));
    EntryLeaves(w.queues, w.ctxs, q, i, y);
    WakesElsewhere(w.wakes, w.ctxs, c, y);
    RunQueueElsewhere(w.runQueue, w.ctxs, c, y);
    ContextsUpdate(w.ctxs, c, y);
    hide ContextsOk;
  }

  /** Leaving the abort window, or starting to unwind a preempted context. */
  lemma TurnInv(w: World, a: Action)
    requires Inv(w) && Enabled(w, a) && (a.Abort? || a.Preempt?)
    ensures Inv(Apply(w, a))
  {
    var y := if a.Abort? then w.ctxs[a.c].(pc := Running, runnable := true, outcome := None)
             else w.ctxs[a.c].(pc := Unwinding);
    EntriesElsewhere(w.queues, w.ctxs, a.c, y);
    WakesElsewhere(w.wakes, w.ctxs, a.c, y);
    RunQueueElsewhere(w.runQueue, w.ctxs, a.c, y);
  }

  lemma LandInv(w: World, c: Ctx)
    requires Inv(w) && Is(w, c, Unwinding)
    ensures Inv(Apply(w, Land(c)))
  {
    var x := w.ctxs[c];
    if x.runnable {
      var y := x.(pc := Queued);
      EntriesElsewhere(w.queues, w.ctxs, c, y);
      WakesElsewhere(w.wakes, w.ctxs, c, y);
      RunQueuePush(w.runQueue, w.ctxs, c, y);
    } else {
      var y := x.(pc := Parked, framesParked := true);
      StillWaits(w.queues, w.wakes, w.ctxs, c, y);
      RunQueueElsewhere(w.runQueue, w.ctxs, c, y);
    }
  }

  lemma StillWaits(qs: map<Queue, seq<Waiter>>, wakes: seq<Wake>, ctxs: map<Ctx, Context>, c: Ctx, y: Context)
    requires EntriesOk(qs, ctxs) && Anchored(qs, ctxs) && WakesOk(wakes, ctxs) && WakesOwed(wakes, ctxs)
    requires c in ctxs && Waits(ctxs[c]) && Waits(y) && y.queue == ctxs[c].queue && y.outcome == ctxs[c].outcome
    ensures EntriesOk(qs, ctxs[c := y]) && Anchored(qs, ctxs[c := y])
    ensures WakesOk(wakes, ctxs[c := y]) && WakesOwed(wakes, ctxs[c := y])
  {
  }

  lemma SettleInv(w: World, q: Queue, stamp: Phase)
    requires Inv(w) && IsStamp(stamp)
    ensures Inv(Apply(w, Settle(q, stamp)))
  {
    var ws := At(w.queues, q);
    var i := FirstLive(ws);
    if i < |ws| {
      var x := w.ctxs[ws[i].ctx];
      assert EntryOk(At(w.queues, q)[i], q, w.ctxs);
      hide EntriesOk, Anchored, QueuesDistinct, WakesOk, WakesOwed, RunQueueOk, FirstLive;
      if ws[i].phase == Committed {
        var y := x.(outcome := Some(stamp));
        EntryLeaves(w.queues, w.ctxs, q, i, y);
        WakePush(w.wakes, w.ctxs, Wake(ws[i].ctx, q, stamp), y);
        RunQueueElsewhere(w.runQueue, w.ctxs, ws[i].ctx, y);
        ContextsUpdate(w.ctxs, ws[i].ctx, y);
        hide ContextsOk;
      } else {
        EntryRephased(w.queues, w.ctxs, q, i, stamp, x);
        assert w.ctxs[ws[i].ctx := x] == w.ctxs;
      }
    }
  }

  lemma DeliverInv(w: World, k: nat)
    requires Inv(w) && k < |w.wakes|
    ensures Enabled(w, Deliver(k)) && Inv(Apply(w, Deliver(k)))
  {
    var wake := w.wakes[k];
    assert WakeOk(w.wakes[k], w.ctxs);
    var x := w.ctxs[wake.ctx];
    var y := x.(runnable := true, rethrow := x.rethrow || wake.stamp == Closed,
                pc := if x.pc == Parked then Queued else x.pc);
    EntriesElsewhere(w.queues, w.ctxs, wake.ctx, y);
    WakePop(w.wakes, w.ctxs, k, y);
    if x.pc == Parked {
      RunQueuePush(w.runQueue, w.ctxs, wake.ctx, y);
    } else {
      RunQueueElsewhere(w.runQueue, w.ctxs, wake.ctx, y);
    }
  }

  lemma DispatchInv(w: World, i: nat)
    requires Inv(w) && i < |w.runQueue|
    ensures Enabled(w, Dispatch(i)) && Inv(Apply(w, Dispatch(i)))
  {
    var c := w.runQueue[i];
    var y := w.ctxs[c].(pc := Running, framesParked := false, rethrow := false, outcome := None);
    EntriesElsewhere(w.queues, w.ctxs, c, y);
    WakesElsewhere(w.wakes, w.ctxs, c, y);
    RunQueuePop(w.runQueue, w.ctxs, i, y);
  }

  lemma StepInv(w: World, a: Action)
    requires Inv(w) && Enabled(w, a)
    ensures Inv(Apply(w, a))
  {
    match a
    case Spawn(c) => SpawnInv(w, c);
    case Register(c, q, offer) => RegisterInv(w, c, q, offer);
    case ParkFor(c) => ParkForInv(w, c);
    case Recheck(c) => RecheckInv(w, c);
    case Abort(_) => TurnInv(w, a);
    case Preempt(_) => TurnInv(w, a);
    case Land(c) => LandInv(w, c);
    case Settle(q, stamp) => SettleInv(w, q, stamp);
    case Deliver(k) => DeliverInv(w, k);
    case Dispatch(i) => DispatchInv(w, i);
  }

  lemma {:induction false} RunInv(w: World, acts: seq<Action>)
    requires Inv(w) && IsRun(w, acts)
    ensures Inv(After(w, acts))
    decreases |acts|
  {
    if acts != [] {
      StepInv(w, acts[0]);
      RunInv(Apply(w, acts[0]), acts[1..]);
    }
  }

  ghost predicate Reached(w: World) {
    exists acts :: IsRun(EMPTY, acts) && After(EMPTY, acts) == w
  }

  lemma ReachedInv(w: World)
    requires Reached(w)
    ensures Inv(w)
  {
    var acts :| IsRun(EMPTY, acts) && After(EMPTY, acts) == w;
    RunInv(EMPTY, acts);
  }
}
