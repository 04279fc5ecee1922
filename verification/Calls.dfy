/** What one primitive sees of the handshake on a queue of its own: who is waiting there, in
    arrival order, and which calls have been decided and not yet returned. Every step of the
    world changes these two views in one of four ways, whatever else it does. */
module Calls {
  import opened Wrappers
  import opened WaitQueue
  import opened Handshake

  /** The undecided calls on `q` with what they offer, oldest first. */
  function Waiting(w: World, q: Queue): seq<(Ctx, int)> {
    Offers(LiveOf(At(w.queues, q)))
  }

  /** The stamp context `c`'s call on `q` has been decided with and has not yet returned. */
  function Decided(w: World, q: Queue, c: Ctx): Option<Phase> {
    if c in w.ctxs && w.ctxs[c].queue == q then
      if w.ctxs[c].outcome.Some? then w.ctxs[c].outcome else Mailbox(At(w.queues, q), c)
    else None
  }

  /** The step hands control back to `c`: its blocking call, if it was in one, returns. */
  predicate Returns(w: World, a: Action, c: Ctx)
    requires Enabled(w, a)
  {
    (a.Abort? && a.c == c) || (a.Dispatch? && w.runQueue[a.i] == c)
  }

  /** The step is not a registration or a decision on `q`. */
  predicate Off(a: Action, q: Queue) {
    !(a.Register? && a.q == q) && !(a.Settle? && a.q == q)
  }

  lemma EntryFacts(w: World, q: Queue, i: nat)
    requires Inv(w)
    ensures Distinct(At(w.queues, q))
    ensures i < |At(w.queues, q)| ==> EntryOk(At(w.queues, q)[i], q, w.ctxs)
  {
  }

  /** A context that needs no entry has none. */
  lemma NoEntry(w: World, c: Ctx, q: Queue)
    requires Inv(w) && (c in w.ctxs ==> !NeedsEntry(w.ctxs[c]))
    ensures Mailbox(At(w.queues, q), c) == None
  {
    EntryFacts(w, q, IndexOf(At(w.queues, q), c));
  }

  /** A decision on `q` takes the oldest waiting call and decides it; nobody else notices. */
  lemma SettleView(w: World, q: Queue, stamp: Phase, c: Ctx)
    requires Inv(w) && IsStamp(stamp)
    ensures var w' := Apply(w, Settle(q, stamp));
            && (Waiting(w, q) == [] ==> w' == w && FirstLiveCtx(At(w.queues, q)) == None)
            && (Waiting(w, q) != [] ==>
                  && Waiting(w', q) == Waiting(w, q)[1..]
                  && FirstLiveCtx(At(w.queues, q)) == Some(Waiting(w, q)[0].0)
                  && At(w.queues, q)[FirstLive(At(w.queues, q))].value == Waiting(w, q)[0].1
                  && Decided(w, q, Waiting(w, q)[0].0) == None
                  && Decided(w', q, c) == if c == Waiting(w, q)[0].0 then Some(stamp) else Decided(w, q, c))
  {
    var ws := At(w.queues, q);
    var i := FirstLive(ws);
    OffersEmpty(ws);
    if i < |ws| {
      EntryFacts(w, q, i);
      SettleFirst(w, q, stamp, c);
    }
  }

  lemma SettleFirst(w: World, q: Queue, stamp: Phase, c: Ctx)
    requires IsStamp(stamp) && Distinct(At(w.queues, q)) && FirstLive(At(w.queues, q)) < |At(w.queues, q)|
    requires EntryOk(At(w.queues, q)[FirstLive(At(w.queues, q))], q, w.ctxs)
    requires var d := At(w.queues, q)[FirstLive(At(w.queues, q))].ctx;
             w.ctxs[d].outcome.Some? ==> w.ctxs[d].pc != Registered && w.ctxs[d].pc != Migrated
    ensures var w', v := Apply(w, Settle(q, stamp)), At(w.queues, q)[FirstLive(At(w.queues, q))];
            && Waiting(w, q) == [(v.ctx, v.value)] + Waiting(w', q)
            && Decided(w, q, v.ctx) == None
            && Decided(w', q, c) == if c == v.ctx then Some(stamp) else Decided(w, q, c)
  {
    var ws := At(w.queues, q);
    var i := FirstLive(ws);
    DecideFirstOffers(ws, stamp);
    IndexIsUnique(ws, i);
    assert At(Apply(w, Settle(q, stamp)).queues, q) == DecideFirst(ws, stamp);
    if ws[i].phase == Committed {
      MailboxWithout(ws, i, c);
    } else {
      MailboxRephased(ws, i, stamp, c);
    }
  }

  /** A registration on `q` joins the back of the line. */
  lemma RegisterView(w: World, c: Ctx, q: Queue, offer: int, d: Ctx)
    requires Inv(w) && Is(w, c, Running)
    ensures var w' := Apply(w, Register(c, q, offer));
            && Waiting(w', q) == Waiting(w, q) + [(c, offer)]
            && Decided(w', q, d) == Decided(w, q, d)
            && Decided(w, q, c) == None
  {
    NoEntry(w, c, q);
    assert ContextOk(w.ctxs[c]);
    RegisterLast(w, c, q, offer, d);
  }

  lemma RegisterLast(w: World, c: Ctx, q: Queue, offer: int, d: Ctx)
    requires Is(w, c, Running) && w.ctxs[c].outcome == None && Mailbox(At(w.queues, q), c) == None
    ensures var w' := Apply(w, Register(c, q, offer));
            && Waiting(w', q) == Waiting(w, q) + [(c, offer)]
            && Decided(w', q, d) == Decided(w, q, d)
  {
    var ws, w' := At(w.queues, q), Apply(w, Register(c, q, offer));
    var v := Waiter(c, Pending, offer);
    assert At(w'.queues, q) == ws + [v];
    AppendLive(ws, v);
    OffersConcat(LiveOf(ws), [v]);
    assert Offers([v]) == [(c, offer)] by {
      assert [v][1..] == [];
    }
    MailboxAppend(ws, v, d);
  }

  /** Any step off `q` leaves its waiting calls alone and returns, at most, a decided one. */
  lemma OffView(w: World, a: Action, q: Queue, c: Ctx)
    requires Inv(w) && Enabled(w, a) && Off(a, q)
    ensures var w' := Apply(w, a);
            && Waiting(w', q) == Waiting(w, q)
            && Decided(w', q, c) == if Returns(w, a, c) then None else Decided(w, q, c)
  {
    match a
    case Recheck(d) =>
      EntryPresent(w, d);
      EntryFacts(w, w.ctxs[d].queue, 0);
      assert ContextOk(w.ctxs[d]);
      RecheckView(w, d, q, c);
    case Settle(r, stamp) =>
      EntryFacts(w, r, FirstLive(At(w.queues, r)));
      SettleElsewhere(w, r, stamp, q, c);
    case Register(d, r, offer) =>
      NoEntry(w, d, q);
      assert ContextOk(w.ctxs[d]);
      RegisterElsewhere(w, d, r, offer, q, c);
    case Spawn(d) =>
      NoEntry(w, d, q);
      SchedulerView(w, a, q, c);
    case Abort(d) =>
      NoEntry(w, d, q);
      SchedulerView(w, a, q, c);
    case Dispatch(i) =>
      assert w.runQueue[i] in w.ctxs && w.ctxs[w.runQueue[i]].pc == Queued;
      NoEntry(w, w.runQueue[i], q);
      SchedulerView(w, a, q, c);
    case ParkFor(_) => SchedulerView(w, a, q, c);
    case Preempt(_) => SchedulerView(w, a, q, c);
    case Land(_) => SchedulerView(w, a, q, c);
    case Deliver(_) => SchedulerView(w, a, q, c);
  }

  /** The scheduler's own steps touch no queue. */
  lemma SchedulerView(w: World, a: Action, q: Queue, c: Ctx)
    requires Enabled(w, a) && !a.Register? && !a.Recheck? && !a.Settle?
    requires Returns(w, a, c) || (a.Spawn? && a.c == c) ==> Mailbox(At(w.queues, q), c) == None
    ensures var w' := Apply(w, a);
            && Waiting(w', q) == Waiting(w, q)
            && Decided(w', q, c) == if Returns(w, a, c) then None else Decided(w, q, c)
  {
    assert Apply(w, a).queues == w.queues;
  }

  lemma SettleElsewhere(w: World, r: Queue, stamp: Phase, q: Queue, c: Ctx)
    requires IsStamp(stamp) && r != q
    requires FirstLive(At(w.queues, r)) < |At(w.queues, r)|
             ==> EntryOk(At(w.queues, r)[FirstLive(At(w.queues, r))], r, w.ctxs)
    ensures var w' := Apply(w, Settle(r, stamp));
            Waiting(w', q) == Waiting(w, q) && Decided(w', q, c) == Decided(w, q, c)
  {
    assert At(Apply(w, Settle(r, stamp)).queues, q) == At(w.queues, q);
  }

  lemma RegisterElsewhere(w: World, d: Ctx, r: Queue, offer: int, q: Queue, c: Ctx)
    requires Is(w, d, Running) && w.ctxs[d].outcome == None && r != q && Mailbox(At(w.queues, q), d) == None
    ensures var w' := Apply(w, Register(d, r, offer));
            Waiting(w', q) == Waiting(w, q) && Decided(w', q, c) == Decided(w, q, c)
  {
    assert At(Apply(w, Register(d, r, offer)).queues, q) == At(w.queues, q);
  }

  lemma RecheckView(w: World, d: Ctx, q: Queue, c: Ctx)
    requires Is(w, d, Migrated) && w.ctxs[d].outcome == None && Distinct(At(w.queues, w.ctxs[d].queue))
    requires var ws := At(w.queues, w.ctxs[d].queue); IndexOf(ws, d) < |ws| && ws[IndexOf(ws, d)].phase != Committed
    ensures var w' := Apply(w, Recheck(d));
            && Waiting(w', q) == Waiting(w, q)
            && Decided(w', q, c) == Decided(w, q, c)
  {
    var r := w.ctxs[d].queue;
    var ws, w' := At(w.queues, r), Apply(w, Recheck(d));
    var i := IndexOf(ws, d);
    if r != q {
      assert At(w'.queues, q) == At(w.queues, q);
    } else if ws[i].phase == Pending {
      assert At(w'.queues, q) == ws[i := ws[i].(phase := Committed)];
      CommitLive(ws, i);
      MailboxRephased(ws, i, Committed, c);
    } else {
      assert At(w'.queues, q) == Without(ws, i);
      WithoutStampedLive(ws, i);
      MailboxWithout(ws, i, c);
    }
  }

  // ---------------------------------------------------------------- the views, all contexts at once

  /** `w'` is `w` with `c` at the back of `q`'s line. */
  ghost predicate Joined(w: World, w': World, q: Queue, c: Ctx, offer: int) {
    && Waiting(w', q) == Waiting(w, q) + [(c, offer)]
    && forall d :: Decided(w', q, d) == Decided(w, q, d)
  }

  /** `w'` is `w` with the front of `q`'s line decided. */
  ghost predicate Served(w: World, w': World, q: Queue, stamp: Phase) {
    && Waiting(w, q) != []
    && Waiting(w', q) == Waiting(w, q)[1..]
    && Decided(w, q, Waiting(w, q)[0].0) == None
    && forall d :: Decided(w', q, d) == if d == Waiting(w, q)[0].0 then Some(stamp) else Decided(w, q, d)
  }

  /** `w'` is `w`, as far as `q` can tell, but for the call of `returner` having returned. */
  ghost predicate Passed(w: World, w': World, q: Queue, returner: Option<Ctx>) {
    && Waiting(w', q) == Waiting(w, q)
    && forall d: Ctx :: Decided(w', q, d) == if Some(d) == returner then None else Decided(w, q, d)
  }

  /** The context whose call on `q` returns in the step, if any. */
  function Returner(w: World, a: Action, q: Queue): Option<Ctx>
    requires Enabled(w, a)
  {
    var c := if a.Abort? then Some(a.c) else if a.Dispatch? then Some(w.runQueue[a.i]) else None;
    if c.Some? && Decided(w, q, c.value).Some? then c else None
  }

  lemma RegisterJoins(w: World, c: Ctx, q: Queue, offer: int)
    requires Inv(w) && Is(w, c, Running)
    ensures Inv(Apply(w, Register(c, q, offer))) && Joined(w, Apply(w, Register(c, q, offer)), q, c, offer)
    ensures Decided(w, q, c) == None
  {
    RegisterInv(w, c, q, offer);
    forall d
      ensures Decided(Apply(w, Register(c, q, offer)), q, d) == Decided(w, q, d)
    {
      RegisterView(w, c, q, offer, d);
    }
    RegisterView(w, c, q, offer, c);
  }

  lemma SettleServes(w: World, q: Queue, stamp: Phase)
    requires Inv(w) && IsStamp(stamp)
    ensures Inv(Apply(w, Settle(q, stamp)))
    ensures if Waiting(w, q) == [] then Apply(w, Settle(q, stamp)) == w && FirstLiveCtx(At(w.queues, q)) == None
            else
              && Served(w, Apply(w, Settle(q, stamp)), q, stamp)
              && FirstLiveCtx(At(w.queues, q)) == Some(Waiting(w, q)[0].0)
  {
    SettleInv(w, q, stamp);
    forall d | Waiting(w, q) != []
      ensures Decided(Apply(w, Settle(q, stamp)), q, d)
              == if d == Waiting(w, q)[0].0 then Some(stamp) else Decided(w, q, d)
    {
      SettleView(w, q, stamp, d);
    }
    SettleView(w, q, stamp, 0);
  }

  lemma OffPasses(w: World, a: Action, q: Queue)
    requires Inv(w) && Enabled(w, a) && Off(a, q)
    ensures Inv(Apply(w, a)) && Passed(w, Apply(w, a), q, Returner(w, a, q))
  {
    StepInv(w, a);
    forall d: Ctx
      ensures Decided(Apply(w, a), q, d) == if Some(d) == Returner(w, a, q) then None else Decided(w, q, d)
    {
      OffView(w, a, q, d);
    }
    OffView(w, a, q, 0);
  }

  ghost predicate InLine(w: World, q: Queue, c: Ctx) {
    exists k :: 0 <= k < |Waiting(w, q)| && Waiting(w, q)[k].0 == c
  }

  /** A registered call stands in its queue's line, and its context goes on to park. */
  lemma RegisterLines(w: World, c: Ctx, q: Queue, offer: int)
    requires Inv(w) && Is(w, c, Running)
    ensures InLine(Apply(w, Register(c, q, offer)), q, c) && Is(Apply(w, Register(c, q, offer)), c, Registered)
  {
    RegisterView(w, c, q, offer, c);
    assert Waiting(Apply(w, Register(c, q, offer)), q)[|Waiting(w, q)|].0 == c;
  }

  /** A running context has no call under way on `q`, so it is not in the line either. */
  lemma RunnerNotInvolved(w: World, c: Ctx, q: Queue)
    requires Inv(w) && Is(w, c, Running)
    ensures Decided(w, q, c) == None && !InLine(w, q, c)
  {
    NoEntry(w, c, q);
    assert ContextOk(w.ctxs[c]);
    forall k | 0 <= k < |Waiting(w, q)|
      ensures Waiting(w, q)[k].0 != c
    {
      var i := OfferIsLive(At(w.queues, q), k);
      EntryFacts(w, q, i);
    }
  }

  /** The obligation a section leaves when it hands `to` out of its queue. */
  function Owed(q: Queue, to: Option<Ctx>, stamp: Phase): seq<Wake> {
    match to case None => [] case Some(c) => [Wake(c, q, stamp)]
  }

  /** A decision leaves the queue DecideFirst says, and owes the wake WakeAfterDecide says. */
  lemma SettleOwes(w: World, q: Queue, stamp: Phase)
    requires Inv(w) && IsStamp(stamp)
    ensures var w' := Apply(w, Settle(q, stamp));
            && At(w'.queues, q) == DecideFirst(At(w.queues, q), stamp)
            && w'.wakes == w.wakes + Owed(q, WakeAfterDecide(At(w.queues, q)), stamp)
            && (forall r :: r != q ==> At(w'.queues, r) == At(w.queues, r))
            && (FirstLiveCtx(At(w.queues, q)) == None ==> w' == w)
  {
  }

  /** The oldest waiting call is woken exactly when it has gone to sleep; before that its own
      recheck finds the decision. */
  lemma SettleWakesSleeper(w: World, q: Queue, stamp: Phase)
    requires Inv(w) && IsStamp(stamp) && Waiting(w, q) != []
    ensures var next := Waiting(w, q)[0].0;
            && next in w.ctxs
            && Apply(w, Settle(q, stamp)).wakes
               == w.wakes + (if Waits(w.ctxs[next]) then [Wake(next, q, stamp)] else [])
  {
    var ws := At(w.queues, q);
    OffersEmpty(ws);
    SettleView(w, q, stamp, 0);
    EntryFacts(w, q, FirstLive(ws));
    SettleOwes(w, q, stamp);
  }

  /** Deciding every call in `q`'s line. */
  function SettleAll(w: World, q: Queue, stamp: Phase, n: nat): World
    requires IsStamp(stamp)
    decreases n
  {
    if n == 0 then w else SettleAll(SettleStep(w, q, stamp), q, stamp, n - 1)
  }

  /** `w'` is `w` with every call in `q`'s line decided. */
  ghost predicate Cleared(w: World, w': World, q: Queue, stamp: Phase) {
    && Waiting(w', q) == []
    && forall d: Ctx :: Decided(w', q, d) == if InLine(w, q, d) then Some(stamp) else Decided(w, q, d)
  }

  lemma {:induction false} SettleAllClears(w: World, q: Queue, stamp: Phase)
    requires Inv(w) && IsStamp(stamp)
    ensures var w' := SettleAll(w, q, stamp, |Waiting(w, q)|); Inv(w') && Cleared(w, w', q, stamp)
    decreases |Waiting(w, q)|
  {
    hide Inv;
    if Waiting(w, q) != [] {
      var v := SettleStep(w, q, stamp);
      SettleServes(w, q, stamp);
      assert v == Apply(w, Settle(q, stamp));
      SettleAllClears(v, q, stamp);
      ServedThenCleared(w, v, SettleAll(v, q, stamp, |Waiting(v, q)|), q, stamp);
    }
  }

  lemma ServedThenCleared(w: World, v: World, w': World, q: Queue, stamp: Phase)
    requires Served(w, v, q, stamp) && Cleared(v, w', q, stamp)
    ensures Cleared(w, w', q, stamp)
  {
    LineShifts(w, v, q);
  }

  /** The queue and the wakes that deciding a whole line leaves. */
  lemma {:induction false} SettleAllOwes(w: World, q: Queue, stamp: Phase)
    requires Inv(w) && IsStamp(stamp)
    ensures var w' := SettleAll(w, q, stamp, |Waiting(w, q)|);
            && At(w'.queues, q) == DecideAll(At(w.queues, q), stamp)
            && w'.wakes == w.wakes + Wakes(q, CommittedCtxs(At(w.queues, q)), stamp)
    decreases |Waiting(w, q)|
  {
    var ws := At(w.queues, q);
    OffersEmpty(ws);
    if Waiting(w, q) == [] {
      DecideAllNone(ws, stamp);
      assert w.wakes + [] == w.wakes;
    } else {
      var v := SettleStep(w, q, stamp);
      SettleServes(w, q, stamp);
      SettleOwes(w, q, stamp);
      assert v == Apply(w, Settle(q, stamp));
      SettleAllOwes(v, q, stamp);
      DecideAllUnrolls(ws, stamp);
      WakesConcat(q, WakeAfterDecide(ws), CommittedCtxs(DecideFirst(ws, stamp)), stamp);
      Associates(w.wakes, Owed(q, WakeAfterDecide(ws), stamp), Wakes(q, CommittedCtxs(DecideFirst(ws, stamp)), stamp));
    }
  }

  lemma Associates(a: seq<Wake>, b: seq<Wake>, c: seq<Wake>)
    ensures (a + b) + c == a + (b + c)
  {
  }

  lemma LineShifts(w: World, v: World, q: Queue)
    requires Waiting(w, q) != [] && Waiting(v, q) == Waiting(w, q)[1..]
    ensures forall d: Ctx :: InLine(w, q, d) <==> d == Waiting(w, q)[0].0 || InLine(v, q, d)
  {
    forall d: Ctx | InLine(v, q, d)
      ensures InLine(w, q, d)
    {
      var k :| 0 <= k < |Waiting(v, q)| && Waiting(v, q)[k].0 == d;
      assert Waiting(w, q)[k + 1].0 == d;
    }
    forall d: Ctx | InLine(w, q, d) && d != Waiting(w, q)[0].0
      ensures InLine(v, q, d)
    {
      var k :| 0 <= k < |Waiting(w, q)| && Waiting(w, q)[k].0 == d;
      assert Waiting(v, q)[k - 1].0 == d;
    }
  }

  function Wakes(q: Queue, cs: seq<Ctx>, stamp: Phase): seq<Wake> {
    if cs == [] then [] else [Wake(cs[0], q, stamp)] + Wakes(q, cs[1..], stamp)
  }

  lemma WakesConcat(q: Queue, next: Option<Ctx>, cs: seq<Ctx>, stamp: Phase)
    ensures Wakes(q, (if next.Some? then [next.value] else []) + cs, stamp)
              == Owed(q, next, stamp) + Wakes(q, cs, stamp)
  {
    match next
    case None => assert [] + cs == cs;
    case Some(c) => assert ([c] + cs)[1..] == cs;
  }

  /** Deciding calls on `q` does not concern another queue. */
  lemma {:induction false} SettleAllPasses(w: World, q: Queue, stamp: Phase, n: nat, r: Queue)
    requires Inv(w) && IsStamp(stamp) && r != q
    ensures var w' := SettleAll(w, q, stamp, n);
            Inv(w') && Passed(w, w', r, None) && At(w'.queues, r) == At(w.queues, r)
    decreases n
  {
    hide Inv;
    if n > 0 {
      var v := SettleStep(w, q, stamp);
      assert v == Apply(w, Settle(q, stamp));
      OffPasses(w, Settle(q, stamp), r);
      SettleOwes(w, q, stamp);
      SettleAllPasses(v, q, stamp, n - 1, r);
      PassedTwice(w, v, SettleAll(v, q, stamp, n - 1), r);
    }
  }

  lemma PassedTwice(w: World, v: World, w': World, q: Queue)
    requires Passed(w, v, q, None) && Passed(v, w', q, None)
    ensures Passed(w, w', q, None)
  {
  }
}
