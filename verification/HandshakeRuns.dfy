/** What every interleaving of the two-phase park handshake keeps: no wakeup is lost, none is
    misdirected, and the tripwires on the way are unreachable. */
module HandshakeRuns {
  import opened Wrappers
  import opened WaitQueue
  import opened Handshake

  ghost predicate CommittedIn(ws: seq<Waiter>, c: Ctx) {
    exists i :: 0 <= i < |ws| && ws[i].ctx == c && ws[i].phase == Committed
  }

  ghost predicate OwedFor(wakes: seq<Wake>, c: Ctx, q: Queue) {
    exists k :: 0 <= k < |wakes| && wakes[k].ctx == c && wakes[k].queue == q
  }

  /** No wakeup is lost: a sleeping context is either still committed in the queue it sleeps on,
      or owed a wake for that very park; never both, never neither. */
  lemma NoLostWakeup(w: World, c: Ctx)
    requires Reached(w) && c in w.ctxs && Waits(w.ctxs[c])
    ensures CommittedIn(At(w.queues, w.ctxs[c].queue), c) <==> !OwedFor(w.wakes, c, w.ctxs[c].queue)
    ensures !OwedFor(w.wakes, c, w.ctxs[c].queue) ==> !HasWake(w.wakes, c)
  {
    ReachedInv(w);
    var q := w.ctxs[c].queue;
    if w.ctxs[c].outcome == None {
      assert Has(At(w.queues, q), c);
      var i :| 0 <= i < |At(w.queues, q)| && At(w.queues, q)[i].ctx == c;
      assert EntryOk(At(w.queues, q)[i], q, w.ctxs);
      assert At(w.queues, q)[i].phase == Committed;
    } else {
      assert HasWake(w.wakes, c);
      forall i | 0 <= i < |At(w.queues, q)| && At(w.queues, q)[i].ctx == c
        ensures At(w.queues, q)[i].phase != Committed
      {
        assert EntryOk(At(w.queues, q)[i], q, w.ctxs);
      }
    }
  }

  /** No wake is misdirected: whenever it is delivered, its target sleeps in the park the wake was
      promised for, has left every queue, and is owed no other wake; delivering it ends that
      sleep and queues the context once, as soon as its frames have landed. */
  lemma NoMisdirectedWake(w: World, k: nat)
    requires Reached(w) && k < |w.wakes|
    ensures var wake := w.wakes[k];
            && wake.ctx in w.ctxs && Waits(w.ctxs[wake.ctx]) && w.ctxs[wake.ctx].queue == wake.queue
            && (forall q :: !Has(At(w.queues, q), wake.ctx))
            && (forall j :: 0 <= j < |w.wakes| && j != k ==> w.wakes[j].ctx != wake.ctx)
            && wake.ctx !in w.runQueue
    ensures var c, w' := w.wakes[k].ctx, Apply(w, Deliver(k));
            && w'.ctxs[c].runnable && !HasWake(w'.wakes, c)
            && (w.ctxs[c].pc == Parked ==> w'.ctxs[c].pc == Queued && w'.runQueue == w.runQueue + [c])
            && (w.ctxs[c].pc == Unwinding ==> w'.ctxs[c].pc == Unwinding && w'.runQueue == w.runQueue)
  {
    ReachedInv(w);
    assert WakeOk(w.wakes[k], w.ctxs);
    var c := w.wakes[k].ctx;
    forall q, i | 0 <= i < |At(w.queues, q)|
      ensures At(w.queues, q)[i].ctx != c
    {
      assert EntryOk(At(w.queues, q)[i], q, w.ctxs);
    }
    assert forall i :: 0 <= i < |w.runQueue| ==> w.ctxs[w.runQueue[i]].pc == Queued;
    DeliverInv(w, k);
    WakesElsewhereNone(w, k);
  }

  lemma WakesElsewhereNone(w: World, k: nat)
    requires WakesOk(w.wakes, w.ctxs) && k < |w.wakes|
    ensures !HasWake(w.wakes[..k] + w.wakes[k + 1..], w.wakes[k].ctx)
  {
    var rest := w.wakes[..k] + w.wakes[k + 1..];
    forall j | 0 <= j < |rest|
      ensures rest[j].ctx != w.wakes[k].ctx
    {
      assert rest[j] == w.wakes[if j < k then j else j + 1];
    }
  }

  /** A context never has two entries, in one queue or in two. */
  lemma OneEntryAnywhere(w: World, q: Queue, i: nat, r: Queue, j: nat)
    requires Reached(w) && i < |At(w.queues, q)| && j < |At(w.queues, r)|
    requires At(w.queues, q)[i].ctx == At(w.queues, r)[j].ctx
    ensures q == r && i == j
  {
    ReachedInv(w);
    assert EntryOk(At(w.queues, q)[i], q, w.ctxs) && EntryOk(At(w.queues, r)[j], r, w.ctxs);
    assert Distinct(At(w.queues, q));
  }

  /** The "entry vanished" tripwires never fire. */
  lemma EntryNeverVanishes(w: World, c: Ctx)
    requires Reached(w) && c in w.ctxs
    ensures w.ctxs[c].pc != Failed
    ensures w.ctxs[c].pc == Migrated ==> RecheckSpec(At(w.queues, w.ctxs[c].queue), c).1 != Vanished
  {
    ReachedInv(w);
    assert ContextOk(w.ctxs[c]);
    if w.ctxs[c].pc == Migrated {
      EntryPresent(w, c);
    }
  }

  /** The run queue holds exactly the contexts waiting for a carrier, each once, and each finds its
      frames landed. A context resumes with the closed exception armed exactly when its own call
      was decided closed. */
  lemma QueuedOnce(w: World, c: Ctx)
    requires Reached(w) && c in w.ctxs
    ensures c in w.runQueue <==> w.ctxs[c].pc == Queued
    ensures multiset(w.runQueue)[c] <= 1
    ensures w.ctxs[c].pc == Queued ==> w.ctxs[c].runnable
    ensures w.ctxs[c].pc == Queued ==> w.ctxs[c].rethrow == (w.ctxs[c].outcome == Some(Closed))
  {
    ReachedInv(w);
    assert ContextOk(w.ctxs[c]);
    if c in w.runQueue {
      var i :| 0 <= i < |w.runQueue| && w.runQueue[i] == c;
      assert w.ctxs[w.runQueue[i]].pc == Queued;
    }
    OnceInMultiset(w.runQueue, c);
  }

  lemma {:induction false} OnceInMultiset(s: seq<Ctx>, c: Ctx)
    requires forall i, j :: 0 <= i < j < |s| ==> s[i] != s[j]
    ensures multiset(s)[c] <= 1
  {
    if s != [] {
      var rest := s[1..];
      assert s == [s[0]] + rest;
      OnceInMultiset(rest, c);
      if s[0] == c {
        assert forall j :: 0 <= j < |rest| ==> rest[j] != c;
        assert c !in rest;
      }
    }
  }

  /** When every owed wake has been delivered, every sleeper is somebody's to wake: its committed
      entry is in its queue, and deciding entries there reaches it. */
  lemma QuietSleepersAreReachable(w: World, c: Ctx)
    requires Reached(w) && w.wakes == [] && c in w.ctxs && Waits(w.ctxs[c])
    ensures HasLive(At(w.queues, w.ctxs[c].queue), c)
  {
    NoLostWakeup(w, c);
    var ws := At(w.queues, w.ctxs[c].queue);
    var i :| 0 <= i < |ws| && ws[i].ctx == c && ws[i].phase == Committed;
    assert Live(ws[i]);
  }
}
