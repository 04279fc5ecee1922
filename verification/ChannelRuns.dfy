/** A Channel in a running program. Its sections are the slot functions on two waiter queues,
    the receivers' and the parked senders'; everything between the sections is the park
    handshake, and anything else may interleave anywhere. Values are numbered as senders offer
    them, and the state remembers which number a parked sender carries and what each delivery
    was, so that the results below can speak about every single send and receive. */
module ChannelRuns {
  import opened Wrappers
  import opened WaitQueue
  import opened SyncSlots
  import H = Handshake
  import opened Calls

  /** `offered` is every value a send has handed over, buffered or parked with, in order;
      `delivered` is every value a receiver has been given, in order; `lost` is what close
      dropped. `ticket[c]` numbers the value of `c`'s latest parked send, `receipt[c]` the
      latest delivery to `c`. */
  datatype State = State(w: H.World, buffered: seq<int>, closed: bool, capacity: nat, dest: map<Ctx, int>,
                         offered: seq<int>, delivered: seq<(Ctx, int)>, lost: seq<int>,
                         ticket: map<Ctx, nat>, receipt: map<Ctx, nat>)

  datatype Step =
    | DoSend(c: Ctx, v: int, mayPark: bool)
    | DoRecv(c: Ctx, mayPark: bool)
    | DoClose(c: Ctx)
    | Other(a: H.Action)

  /** Which channel: its receivers' queue and its parked senders' queue. */
  datatype Which = Which(recvs: H.Queue, sends: H.Queue)

  function Slot(l: Which, s: State): Chan {
    Chan(s.buffered, H.At(s.w.queues, l.recvs), s.closed, s.capacity, H.At(s.w.queues, l.sends), s.dest)
  }

  function Values(vs: seq<(Ctx, int)>): seq<int> {
    seq(|vs|, k requires 0 <= k < |vs| => vs[k].1)
  }

  /** How many values have been accepted into the first-in-first-out order. */
  function Accepted(s: State): nat {
    |s.delivered| + |s.buffered|
  }

  predicate Enabled(l: Which, s: State, step: Step) {
    match step
    case DoSend(c, _, _) => H.Is(s.w, c, H.Running)
    case DoRecv(c, _) => H.Is(s.w, c, H.Running)
    case DoClose(c) => H.Is(s.w, c, H.Running)
    case Other(a) => H.Enabled(s.w, a) && Off(a, l.recvs) && Off(a, l.sends)
  }

  function Delivering(s: State, c: Ctx, v: int): State {
    s.(delivered := s.delivered + [(c, v)], receipt := s.receipt[c := |s.delivered|], dest := s.dest[c := v])
  }

  function Apply(l: Which, s: State, step: Step): State
    requires Enabled(l, s, step)
  {
    match step
    case DoSend(c, v, mayPark) =>
      var (slot, r) := SendSpec(Slot(l, s), c, v, mayPark);
      (match r
       case SendClosed => s
       case SendRefused => s
       case HandedOff(to, _) =>
         Delivering(s, to, v).(w := H.Apply(s.w, H.Settle(l.recvs, Value)), offered := s.offered + [v])
       case Buffered => s.(buffered := slot.buffered, offered := s.offered + [v])
       case SendMustPark =>
         s.(w := H.Apply(s.w, H.Register(c, l.sends, v)), offered := s.offered + [v],
            ticket := s.ticket[c := |s.offered|]))
    case DoRecv(c, mayPark) =>
      var (slot, r) := RecvSpec(Slot(l, s), c, mayPark);
      (match r
       case Received(v, _) =>
         Delivering(s, c, v).(w := H.Apply(s.w, H.Settle(l.sends, Value)), buffered := slot.buffered)
       case RecvClosed => s
       case RecvRefused => s
       case RecvMustPark => s.(w := H.Apply(s.w, H.Register(c, l.recvs, 0))))
    case DoClose(_) =>
      if s.closed then s
      else
        var w1 := SettleAll(s.w, l.recvs, Closed, |Waiting(s.w, l.recvs)|);
        var w2 := SettleAll(w1, l.sends, Closed, |Waiting(w1, l.sends)|);
        s.(w := w2, closed := true, lost := Values(Waiting(s.w, l.sends)))
    case Other(a) => s.(w := H.Apply(s.w, a))
  }

  /** A freshly made channel, in any program that is already running. */
  ghost predicate Fresh(l: Which, s: State) {
    && H.Reached(s.w) && l.recvs != l.sends
    && Waiting(s.w, l.recvs) == [] && Waiting(s.w, l.sends) == []
    && (forall c: Ctx :: Decided(s.w, l.recvs, c) == None)
    && (forall c: Ctx :: Decided(s.w, l.sends, c) == None)
    && s == State(s.w, [], false, s.capacity, map[], [], [], [], map[], map[])
  }

  predicate IsRun(l: Which, s: State, steps: seq<Step>)
    decreases |steps|
  {
    steps == [] || (Enabled(l, s, steps[0]) && IsRun(l, Apply(l, s, steps[0]), steps[1..]))
  }

  function After(l: Which, s: State, steps: seq<Step>): State
    requires IsRun(l, s, steps)
    decreases |steps|
  {
    if steps == [] then s else After(l, Apply(l, s, steps[0]), steps[1..])
  }

  // ---------------------------------------------------------------- the invariant

  /** The first-in-first-out order: what was delivered, what is buffered, what is parked. */
  ghost predicate InOrder(l: Which, s: State) {
    s.offered == Values(s.delivered) + s.buffered + (if s.closed then s.lost else Values(Waiting(s.w, l.sends)))
  }

  ghost predicate Bounded(l: Which, s: State) {
    && (Waiting(s.w, l.recvs) != [] ==> s.buffered == [] && !s.closed)
    && (Waiting(s.w, l.sends) != [] ==> s.capacity > 0 && |s.buffered| == s.capacity && !s.closed)
    && (s.capacity > 0 ==> |s.buffered| <= s.capacity)
  }

  /** A parked sender carries the number of its value; once decided, the number says whether the
      value made it into the order. */
  ghost predicate Ticketed(q: H.Queue, w: H.World, ticket: map<Ctx, nat>, accepted: nat, offered: nat, closed: bool) {
    && (forall k :: 0 <= k < |Waiting(w, q)| ==>
          Waiting(w, q)[k].0 in ticket && ticket[Waiting(w, q)[k].0] == accepted + k)
    && (forall c: Ctx :: Decided(w, q, c).Some? ==>
          && c in ticket
          && (Decided(w, q, c) == Some(Value) ==> ticket[c] < accepted)
          && (Decided(w, q, c) != Some(Value) ==>
                Decided(w, q, c) == Some(Closed) && closed && accepted <= ticket[c] < offered))
  }

  /** A decided receiver has its value behind its result pointer, or the channel is drained. */
  ghost predicate Receipted(q: H.Queue, w: H.World, s: State) {
    forall c: Ctx :: Decided(w, q, c).Some? ==>
      && (Decided(w, q, c) == Some(Value) ==>
            c in s.receipt && s.receipt[c] < |s.delivered| && c in s.dest
                && s.delivered[s.receipt[c]] == (c, s.dest[c]))
      && (Decided(w, q, c) != Some(Value) ==> Decided(w, q, c) == Some(Closed) && s.closed && s.buffered == [])
  }

  ghost predicate Ok(l: Which, s: State) {
    && l.recvs != l.sends
    && InOrder(l, s)
    && Bounded(l, s)
    && Ticketed(l.sends, s.w, s.ticket, Accepted(s), |s.offered|, s.closed)
    && Receipted(l.recvs, s.w, s)
  }

  ghost predicate Inv(l: Which, s: State) {
    H.Inv(s.w) && Ok(l, s)
  }

  // ---------------------------------------------------------------- preservation

  lemma HandOffOk(l: Which, s: State, w': H.World, v: int)
    requires Ok(l, s) && Served(s.w, w', l.recvs, Value) && Passed(s.w, w', l.sends, None)
    ensures !s.closed && Ok(l, Delivering(s, Waiting(s.w, l.recvs)[0].0, v).(w := w', offered := s.offered + [v]))
  {
    assert Values(s.delivered + [(Waiting(s.w, l.recvs)[0].0, v)]) == Values(s.delivered) + [v];
  }

  lemma BufferOk(l: Which, s: State, v: int)
    requires Ok(l, s) && !s.closed && Waiting(s.w, l.recvs) == [] && !(s.capacity > 0 && |s.buffered| >= s.capacity)
    ensures Ok(l, s.(buffered := s.buffered + [v], offered := s.offered + [v]))
  {
    assert Values(s.delivered) + s.buffered + [] + [v] == Values(s.delivered) + (s.buffered + [v]) + [];
  }

  lemma ParkSendOk(l: Which, s: State, w': H.World, c: Ctx, v: int)
    requires Ok(l, s) && !s.closed && s.capacity > 0 && |s.buffered| >= s.capacity
    requires Decided(s.w, l.sends, c) == None && !InLine(s.w, l.sends, c) && Waiting(s.w, l.recvs) == []
    requires Joined(s.w, w', l.sends, c, v) && Passed(s.w, w', l.recvs, None)
    ensures Ok(l, s.(w := w', offered := s.offered + [v], ticket := s.ticket[c := |s.offered|]))
  {
    var line := Waiting(s.w, l.sends);
    assert Values(line + [(c, v)]) == Values(line) + [v];
    assert Values(s.delivered) + s.buffered + Values(line) + [v]
        == Values(s.delivered) + s.buffered + (Values(line) + [v]);
    assert |s.offered| == Accepted(s) + |line|;
    assert forall k :: 0 <= k < |line| ==> line[k].0 != c;
  }

  /** A receive that frees a buffer slot nobody waits for. */
  lemma TakeOk(l: Which, s: State, c: Ctx)
    requires Ok(l, s) && s.buffered != [] && Waiting(s.w, l.sends) == [] && Decided(s.w, l.recvs, c) == None
    ensures Ok(l, Delivering(s, c, s.buffered[0]).(buffered := s.buffered[1..]))
  {
    var v := s.buffered[0];
    assert s.buffered == [v] + s.buffered[1..];
    assert Values(s.delivered + [(c, v)]) == Values(s.delivered) + [v];
    assert Values(s.delivered) + ([v] + s.buffered[1..]) == Values(s.delivered) + [v] + s.buffered[1..];
  }

  /** A receive whose freed slot takes the value of the oldest parked sender. */
  lemma StageOk(l: Which, s: State, w': H.World, c: Ctx)
    requires Ok(l, s) && s.buffered != [] && Decided(s.w, l.recvs, c) == None
    requires Served(s.w, w', l.sends, Value) && Passed(s.w, w', l.recvs, None)
    ensures Ok(l, Delivering(s, c, s.buffered[0]).(w := w', buffered := s.buffered[1..] + [Waiting(s.w, l.sends)[0].1]))
  {
    var v, line := s.buffered[0], Waiting(s.w, l.sends);
    assert Values(line) == [line[0].1] + Values(line[1..]);
    StageOrder(s.delivered, s.buffered, line, c);
  }

  lemma StageOrder(delivered: seq<(Ctx, int)>, buffered: seq<int>, line: seq<(Ctx, int)>, c: Ctx)
    requires buffered != [] && line != []
    ensures Values(delivered) + buffered + Values(line)
            == Values(delivered + [(c, buffered[0])]) + (buffered[1..] + [line[0].1]) + Values(line[1..])
  {
    assert Values(delivered + [(c, buffered[0])]) == Values(delivered) + [buffered[0]];
    assert Values(line) == [line[0].1] + Values(line[1..]);
  }

  lemma ParkRecvOk(l: Which, s: State, w': H.World, c: Ctx)
    requires Ok(l, s) && !s.closed && s.buffered == []
    requires Joined(s.w, w', l.recvs, c, 0) && Passed(s.w, w', l.sends, None)
    ensures Ok(l, s.(w := w'))
  {
  }

  lemma CloseOk(l: Which, s: State, w1: H.World, w2: H.World)
    requires Ok(l, s) && !s.closed
    requires Cleared(s.w, w1, l.recvs, Closed) && Passed(s.w, w1, l.sends, None)
    requires Cleared(w1, w2, l.sends, Closed) && Passed(w1, w2, l.recvs, None)
    ensures Ok(l, s.(w := w2, closed := true, lost := Values(Waiting(s.w, l.sends))))
  {
    assert |s.offered| == Accepted(s) + |Waiting(s.w, l.sends)|;
    assert forall d: Ctx :: InLine(w1, l.sends, d) == InLine(s.w, l.sends, d);
  }

  lemma PassOk(l: Which, s: State, w': H.World, r1: Option<Ctx>, r2: Option<Ctx>)
    requires Ok(l, s) && Passed(s.w, w', l.recvs, r1) && Passed(s.w, w', l.sends, r2)
    ensures Ok(l, s.(w := w'))
  {
  }

  lemma SendInv(l: Which, s: State, c: Ctx, v: int, mayPark: bool)
    requires Inv(l, s) && H.Is(s.w, c, H.Running)
    ensures Inv(l, Apply(l, s, DoSend(c, v, mayPark)))
  {
    hide H.Inv, Ok;
    OkHolds(l, s);
    SettleServes(s.w, l.recvs, Value);
    OffPasses(s.w, H.Settle(l.recvs, Value), l.sends);
    OffersEmpty(H.At(s.w.queues, l.recvs));
    if !s.closed {
      if Waiting(s.w, l.recvs) != [] {
        HandOffOk(l, s, H.Apply(s.w, H.Settle(l.recvs, Value)), v);
      } else if !Full(Slot(l, s)) {
        BufferOk(l, s, v);
      } else if mayPark {
        RunnerNotInvolved(s.w, c, l.sends);
        RegisterJoins(s.w, c, l.sends, v);
        OffPasses(s.w, H.Register(c, l.sends, v), l.recvs);
        ParkSendOk(l, s, H.Apply(s.w, H.Register(c, l.sends, v)), c, v);
      }
    }
  }

  lemma OkHolds(l: Which, s: State)
    requires Ok(l, s)
    ensures l.recvs != l.sends && Bounded(l, s)
  {
  }

  lemma RecvInv(l: Which, s: State, c: Ctx, mayPark: bool)
    requires Inv(l, s) && H.Is(s.w, c, H.Running)
    ensures Inv(l, Apply(l, s, DoRecv(c, mayPark)))
  {
    hide H.Inv, Ok;
    OkHolds(l, s);
    RunnerNotInvolved(s.w, c, l.recvs);
    if s.buffered != [] {
      SettleServes(s.w, l.sends, Value);
      SettleView(s.w, l.sends, Value, 0);
      OffPasses(s.w, H.Settle(l.sends, Value), l.recvs);
      OffersEmpty(H.At(s.w.queues, l.sends));
      if Waiting(s.w, l.sends) == [] {
        TakeOk(l, s, c);
        assert s.buffered[1..] + [] == s.buffered[1..];
      } else {
        StageOk(l, s, H.Apply(s.w, H.Settle(l.sends, Value)), c);
      }
    } else if !s.closed && mayPark {
      RegisterJoins(s.w, c, l.recvs, 0);
      OffPasses(s.w, H.Register(c, l.recvs, 0), l.sends);
      ParkRecvOk(l, s, H.Apply(s.w, H.Register(c, l.recvs, 0)), c);
    }
  }

  lemma CloseInv(l: Which, s: State, c: Ctx)
    requires Inv(l, s) && H.Is(s.w, c, H.Running)
    ensures Inv(l, Apply(l, s, DoClose(c)))
  {
    hide H.Inv, Ok;
    OkHolds(l, s);
    if !s.closed {
      var w1 := SettleAll(s.w, l.recvs, Closed, |Waiting(s.w, l.recvs)|);
      var w2 := SettleAll(w1, l.sends, Closed, |Waiting(w1, l.sends)|);
      SettleAllClears(s.w, l.recvs, Closed);
      SettleAllPasses(s.w, l.recvs, Closed, |Waiting(s.w, l.recvs)|, l.sends);
      SettleAllClears(w1, l.sends, Closed);
      SettleAllPasses(w1, l.sends, Closed, |Waiting(w1, l.sends)|, l.recvs);
      CloseOk(l, s, w1, w2);
    }
  }

  lemma StepInv(l: Which, s: State, step: Step)
    requires Inv(l, s) && Enabled(l, s, step)
    ensures Inv(l, Apply(l, s, step))
  {
    hide H.Inv, Ok;
    match step
    case DoSend(c, v, mayPark) => SendInv(l, s, c, v, mayPark);
    case DoRecv(c, mayPark) => RecvInv(l, s, c, mayPark);
    case DoClose(c) => CloseInv(l, s, c);
    case Other(a) =>
      OffPasses(s.w, a, l.recvs);
      OffPasses(s.w, a, l.sends);
      PassOk(l, s, H.Apply(s.w, a), Returner(s.w, a, l.recvs), Returner(s.w, a, l.sends));
  }

  lemma {:induction false} RunInv(l: Which, s: State, steps: seq<Step>)
    requires Inv(l, s) && IsRun(l, s, steps)
    ensures Inv(l, After(l, s, steps))
    decreases |steps|
  {
    hide Inv;
    if steps != [] {
      StepInv(l, s, steps[0]);
      RunInv(l, Apply(l, s, steps[0]), steps[1..]);
    }
  }

  // ---------------------------------------------------------------- main results

  ghost predicate Reached(l: Which, s: State) {
    exists s0, steps :: Fresh(l, s0) && IsRun(l, s0, steps) && After(l, s0, steps) == s
  }

  lemma ReachedInv(l: Which, s: State)
    requires Reached(l, s)
    ensures Inv(l, s)
  {
    var s0, steps :| Fresh(l, s0) && IsRun(l, s0, steps) && After(l, s0, steps) == s;
    FreshInv(l, s0);
    hide H.Inv, Ok;
    RunInv(l, s0, steps);
  }

  lemma FreshInv(l: Which, s: State)
    requires Fresh(l, s)
    ensures Inv(l, s)
  {
    hide H.Inv, H.Reached;
    H.ReachedInv(s.w);
    assert Values([]) + [] + Values([]) == [];
  }

  /** The channel is a queue: everything offered, in the order it was offered, is what has been
      delivered, then what is buffered, then what parked senders hold (or held when it closed). */
  lemma ChannelIsFifo(l: Which, s: State)
    requires Reached(l, s)
    ensures s.offered == Values(s.delivered) + s.buffered + (if s.closed then s.lost else Values(Waiting(s.w, l.sends)))
  {
    ReachedInv(l, s);
  }

  /** Receivers wait only on an empty open channel; senders park only on a full, bounded, open one. */
  lemma WaitersMeanEmptyOrFull(l: Which, s: State)
    requires Reached(l, s)
    ensures FirstLiveCtx(H.At(s.w.queues, l.recvs)).Some? ==> s.buffered == [] && !s.closed
    ensures FirstLiveCtx(H.At(s.w.queues, l.sends)).Some? ==> 0 < s.capacity == |s.buffered| && !s.closed
    ensures s.capacity > 0 ==> |s.buffered| <= s.capacity
  {
    ReachedInv(l, s);
    OffersEmpty(H.At(s.w.queues, l.recvs));
    OffersEmpty(H.At(s.w.queues, l.sends));
  }

  /** A parked send returns success exactly when its value is among the accepted ones, and fails
      exactly when the channel closed with the value still outside. */
  lemma SendReportsItsValue(l: Which, s: State, a: H.Action, c: Ctx)
    requires Reached(l, s) && Enabled(l, s, Other(a)) && Returner(s.w, a, l.sends) == Some(c)
    ensures c in s.ticket && s.ticket[c] < |s.offered|
    ensures Decided(s.w, l.sends, c) == Some(Value) <==> s.ticket[c] < Accepted(s)
    ensures Decided(s.w, l.sends, c) == Some(Closed) <==> s.ticket[c] >= Accepted(s)
    ensures Decided(s.w, l.sends, c) == Some(Closed) ==> s.closed
  {
    ReachedInv(l, s);
  }

  /** Once closed, nothing is accepted any more: the order stays as it is, and deliveries only
      move its front. So a send that reported closed is never delivered. */
  lemma {:induction false} ClosedOrderIsFinal(l: Which, s: State, steps: seq<Step>, t: nat)
    requires Reached(l, s) && s.closed && IsRun(l, s, steps) && Accepted(s) <= t < |s.offered|
    ensures var s' := After(l, s, steps);
            && s'.closed && s'.offered == s.offered && Accepted(s') == Accepted(s)
            && |s'.delivered| <= t
  {
    ReachedInv(l, s);
    ClosedStays(l, s, steps);
  }

  lemma {:induction false} ClosedStays(l: Which, s: State, steps: seq<Step>)
    requires Inv(l, s) && s.closed && IsRun(l, s, steps)
    ensures var s' := After(l, s, steps);
            s'.closed && s'.offered == s.offered && Accepted(s') == Accepted(s)
    decreases |steps|
  {
    hide H.Inv, Ok;
    if steps != [] {
      StepInv(l, s, steps[0]);
      OkHolds(l, s);
      OffersEmpty(H.At(s.w.queues, l.sends));
      ClosedStays(l, Apply(l, s, steps[0]), steps[1..]);
    }
  }

  /** A parked receive returns a value exactly when that value was delivered to it, and it is what
      its result pointer holds; it raises closed only on a closed and drained channel. */
  lemma RecvReportsItsValue(l: Which, s: State, a: H.Action, c: Ctx)
    requires Reached(l, s) && Enabled(l, s, Other(a)) && Returner(s.w, a, l.recvs) == Some(c)
    ensures Decided(s.w, l.recvs, c) == Some(Value) || Decided(s.w, l.recvs, c) == Some(Closed)
    ensures Decided(s.w, l.recvs, c) == Some(Value) ==>
              c in s.dest && c in s.receipt && s.receipt[c] < |s.delivered|
                  && s.delivered[s.receipt[c]] == (c, s.dest[c])
    ensures Decided(s.w, l.recvs, c) == Some(Closed) ==> s.closed && s.buffered == []
  {
    ReachedInv(l, s);
  }

  /** Close never finds a value to drain: its delivery branches cannot fire. The waiting receivers
      and senders are all told the channel is closed, and close is the slot's close. */
  lemma CloseDrainsNothing(l: Which, s: State, c: Ctx)
    requires Reached(l, s) && !s.closed && H.Is(s.w, c, H.Running)
    ensures var (slot, r) := CloseSpec(Slot(l, s));
            var s' := Apply(l, s, DoClose(c));
            && r == ClosedNow([], CommittedCtxs(H.At(s.w.queues, l.recvs)), CommittedCtxs(H.At(s.w.queues, l.sends)))
            && Slot(l, s') == slot
            && s'.w.wakes == s.w.wakes + Wakes(l.recvs, r.closedRecvs, Closed) + Wakes(l.sends, r.closedSenders, Closed)
  {
    ReachedInv(l, s);
    hide H.Inv, Ok;
    OkHolds(l, s);
    OffersEmpty(H.At(s.w.queues, l.recvs));
    DrainGivesNothing(H.At(s.w.queues, l.recvs), s.buffered, s.dest);
    var w1 := SettleAll(s.w, l.recvs, Closed, |Waiting(s.w, l.recvs)|);
    SettleAllOwes(s.w, l.recvs, Closed);
    SettleAllPasses(s.w, l.recvs, Closed, |Waiting(s.w, l.recvs)|, l.sends);
    SettleAllOwes(w1, l.sends, Closed);
    SettleAllPasses(w1, l.sends, Closed, |Waiting(w1, l.sends)|, l.recvs);
  }

  ghost predicate SendIsSection(l: Which, s: State, c: Ctx, v: int, mayPark: bool)
    requires H.Is(s.w, c, H.Running)
  {
    var (slot, r) := SendSpec(Slot(l, s), c, v, mayPark);
    var s' := Apply(l, s, DoSend(c, v, mayPark));
    && Slot(l, s') == slot
    && s'.w.wakes == s.w.wakes + Owed(l.recvs, if r.HandedOff? then r.wakeReceiver else None, Value)
  }

  ghost predicate RecvIsSection(l: Which, s: State, c: Ctx, mayPark: bool)
    requires H.Is(s.w, c, H.Running)
  {
    var (slot, r) := RecvSpec(Slot(l, s), c, mayPark);
    var s' := Apply(l, s, DoRecv(c, mayPark));
    && Slot(l, s') == slot
    && s'.w.wakes == s.w.wakes + Owed(l.sends, if r.Received? then r.wakeSender else None, Value)
  }

  lemma SendSection(l: Which, s: State, c: Ctx, v: int, mayPark: bool)
    requires H.Inv(s.w) && l.recvs != l.sends && H.Is(s.w, c, H.Running)
    ensures SendIsSection(l, s, c, v, mayPark)
  {
    hide H.Inv, H.SettleStep, DecideFirst, WakeAfterDecide, FirstLiveCtx;
    SettleOwes(s.w, l.recvs, Value);
    assert s.w.wakes + [] == s.w.wakes;
  }

  lemma RecvSection(l: Which, s: State, c: Ctx, mayPark: bool)
    requires H.Inv(s.w) && l.recvs != l.sends && H.Is(s.w, c, H.Running)
    ensures RecvIsSection(l, s, c, mayPark)
  {
    hide H.Inv, H.SettleStep, DecideFirst, WakeAfterDecide;
    SettleOwes(s.w, l.sends, Value);
    assert s.w.wakes + [] == s.w.wakes;
  }

  /** Send and receive are the slot's sections, and owe exactly the wakes those return. */
  lemma StepsAreSections(l: Which, s: State, c: Ctx, v: int, mayPark: bool)
    requires Reached(l, s) && H.Is(s.w, c, H.Running)
    ensures SendIsSection(l, s, c, v, mayPark) && RecvIsSection(l, s, c, mayPark)
  {
    hide *;
    ReachedInv(l, s);
    InvParts(l, s);
    SendSection(l, s, c, v, mayPark);
    RecvSection(l, s, c, mayPark);
  }

  lemma InvParts(l: Which, s: State)
    requires Inv(l, s)
    ensures H.Inv(s.w) && l.recvs != l.sends
  {
  }

  // ---------------------------------------------------------------- what each call does

  /** What a settle owes the head of a line: a wake, if it has gone to sleep. */
  function WakeIfAsleep(w: H.World, c: Ctx, q: H.Queue, stamp: Phase): seq<H.Wake> {
    if c in w.ctxs && H.Waits(w.ctxs[c]) then [H.Wake(c, q, stamp)] else []
  }

  /** `v` has gone straight to the receiver that has waited longest. */
  ghost predicate GivenAway(l: Which, s: State, s': State, v: int)
    requires Waiting(s.w, l.recvs) != []
  {
    var to := Waiting(s.w, l.recvs)[0].0;
    && s'.delivered == s.delivered + [(to, v)] && s'.offered == s.offered + [v]
    && s'.dest == s.dest[to := v] && Decided(s'.w, l.recvs, to) == Some(Value)
    && Waiting(s'.w, l.recvs) == Waiting(s.w, l.recvs)[1..]
    && s'.w.wakes == s.w.wakes + WakeIfAsleep(s.w, to, l.recvs, Value)
    && s'.buffered == s.buffered && !s'.closed
  }

  /** `c` has joined the parked senders with its value and is on its way to sleep. */
  ghost predicate SendLined(l: Which, s: State, s': State, c: Ctx, v: int) {
    && Waiting(s'.w, l.sends) == Waiting(s.w, l.sends) + [(c, v)] && InLine(s'.w, l.sends, c)
    && H.Is(s'.w, c, H.Registered)
    && s' == s.(w := s'.w, offered := s.offered + [v], ticket := s'.ticket)
  }

  /** A send on an open channel goes to the longest waiting receiver, else into the buffer if that
      has room, else waits in line with its value, or changes nothing where it must not suspend. */
  lemma SendDoes(l: Which, s: State, c: Ctx, v: int, mayPark: bool)
    requires Reached(l, s) && H.Is(s.w, c, H.Running)
    ensures var s' := Apply(l, s, DoSend(c, v, mayPark));
            var r := SendSpec(Slot(l, s), c, v, mayPark).1;
            if s.closed then r == SendClosed && s' == s
            else if Waiting(s.w, l.recvs) != [] then
              r.HandedOff? && r.to == Waiting(s.w, l.recvs)[0].0 && GivenAway(l, s, s', v)
            else if s.capacity == 0 || |s.buffered| < s.capacity then
              r == Buffered && s' == s.(buffered := s.buffered + [v], offered := s.offered + [v])
            else if mayPark then r == SendMustPark && SendLined(l, s, s', c, v)
            else r == SendRefused && s' == s
  {
    hide H.Inv, H.Apply, InLine, Ticketed, Receipted, InOrder;
    ReachedInv(l, s);
    SettleServes(s.w, l.recvs, Value);
    OffersEmpty(H.At(s.w.queues, l.recvs));
    RegisterJoins(s.w, c, l.sends, v);
    RegisterLines(s.w, c, l.sends, v);
    if Waiting(s.w, l.recvs) != [] {
      SettleWakesSleeper(s.w, l.recvs, Value);
    }
  }

  /** The front of the buffer has gone to `c`, and the oldest parked sender's value, if there is
      one, has taken the free place at the back; that sender's call is decided. */
  ghost predicate TookFront(l: Which, s: State, s': State, c: Ctx)
    requires s.buffered != []
  {
    var v := s.buffered[0];
    && s'.delivered == s.delivered + [(c, v)] && s'.dest == s.dest[c := v]
    && s'.closed == s.closed && s'.offered == s.offered
    && (Waiting(s.w, l.sends) == [] ==> s'.buffered == s.buffered[1..] && s'.w == s.w)
    && (Waiting(s.w, l.sends) != [] ==>
          var (from, staged) := Waiting(s.w, l.sends)[0];
          && s'.buffered == s.buffered[1..] + [staged]
          && Waiting(s'.w, l.sends) == Waiting(s.w, l.sends)[1..] && Decided(s'.w, l.sends, from) == Some(Value)
          && s'.w.wakes == s.w.wakes + WakeIfAsleep(s.w, from, l.sends, Value))
  }

  /** A receive takes the front of the buffer whenever there is one, closed or not. On an empty
      channel it reports closed, waits in line, or changes nothing where it must not suspend. */
  lemma RecvDoes(l: Which, s: State, c: Ctx, mayPark: bool)
    requires Reached(l, s) && H.Is(s.w, c, H.Running)
    ensures var s' := Apply(l, s, DoRecv(c, mayPark));
            var r := RecvSpec(Slot(l, s), c, mayPark).1;
            if s.buffered != [] then r.Received? && r.value == s.buffered[0] && TookFront(l, s, s', c)
            else if s.closed then r == RecvClosed && s' == s
            else if mayPark then
              && r == RecvMustPark && s' == s.(w := s'.w)
              && Waiting(s'.w, l.recvs) == Waiting(s.w, l.recvs) + [(c, 0)] && InLine(s'.w, l.recvs, c)
              && H.Is(s'.w, c, H.Registered)
            else r == RecvRefused && s' == s
  {
    hide H.Inv, H.Apply, InLine, Ok, TookFront;
    ReachedInv(l, s);
    RegisterJoins(s.w, c, l.recvs, 0);
    RegisterLines(s.w, c, l.recvs, 0);
    if s.buffered != [] {
      RecvEffect(l, s, c, mayPark);
    }
  }

  lemma RecvEffect(l: Which, s: State, c: Ctx, mayPark: bool)
    requires Inv(l, s) && H.Is(s.w, c, H.Running) && s.buffered != []
    ensures TookFront(l, s, Apply(l, s, DoRecv(c, mayPark)), c)
  {
    hide H.Inv, H.Apply, InLine, Ok;
    OkHolds(l, s);
    SettleServes(s.w, l.sends, Value);
    SettleView(s.w, l.sends, Value, 0);
    OffersEmpty(H.At(s.w.queues, l.sends));
    if Waiting(s.w, l.sends) != [] {
      SettleWakesSleeper(s.w, l.sends, Value);
    }
  }

  function Receives(steps: seq<Step>): nat {
    if steps == [] then 0 else (if steps[0].DoRecv? then 1 else 0) + Receives(steps[1..])
  }

  /** Closing loses nothing that was accepted: in every continuation the receives, one by one and
      whoever calls them, get exactly what was buffered, in order, until nothing is left. */
  lemma ClosedDeliversEverything(l: Which, s: State, steps: seq<Step>)
    requires Reached(l, s) && s.closed && IsRun(l, s, steps)
    ensures var s', n := After(l, s, steps), Receives(steps);
            var m := if n < |s.buffered| then n else |s.buffered|;
            && Values(s'.delivered) == Values(s.delivered) + s.buffered[..m]
            && s'.buffered == s.buffered[m..]
  {
    ReachedInv(l, s);
    ClosedDelivers(l, s, steps);
  }

  lemma {:induction false} ClosedDelivers(l: Which, s: State, steps: seq<Step>)
    requires Inv(l, s) && s.closed && IsRun(l, s, steps)
    ensures var s', n := After(l, s, steps), Receives(steps);
            var m := if n < |s.buffered| then n else |s.buffered|;
            && Values(s'.delivered) == Values(s.delivered) + s.buffered[..m]
            && s'.buffered == s.buffered[m..]
    decreases |steps|
  {
    hide Inv;
    if steps == [] {
      assert s.buffered[..0] == [];
    } else {
      var z := Apply(l, s, steps[0]);
      StepInv(l, s, steps[0]);
      ClosedStep(l, s, steps[0]);
      ClosedDelivers(l, z, steps[1..]);
      hide Apply;
      if steps[0].DoRecv? && s.buffered != [] {
        DeliveredOneMore(s, z, After(l, s, steps), Receives(steps[1..]));
      }
    }
  }

  lemma ClosedStep(l: Which, s: State, step: Step)
    requires Inv(l, s) && s.closed && Enabled(l, s, step)
    ensures var z := Apply(l, s, step);
            && z.closed
            && (if step.DoRecv? && s.buffered != [] then
                  z.buffered == s.buffered[1..] && z.delivered == s.delivered + [(step.c, s.buffered[0])]
                else z.buffered == s.buffered && z.delivered == s.delivered)
  {
    hide H.Inv, InLine, Ok;
    OkHolds(l, s);
    if step.DoRecv? && s.buffered != [] {
      RecvEffect(l, s, step.c, step.mayPark);
    }
  }

  lemma DeliveredOneMore(s: State, z: State, s': State, n: nat)
    requires s.buffered != [] && z.buffered == s.buffered[1..]
    requires exists c :: z.delivered == s.delivered + [(c, s.buffered[0])]
    requires var m := if n < |z.buffered| then n else |z.buffered|;
             Values(s'.delivered) == Values(z.delivered) + z.buffered[..m] && s'.buffered == z.buffered[m..]
    ensures var m := if n + 1 < |s.buffered| then n + 1 else |s.buffered|;
            Values(s'.delivered) == Values(s.delivered) + s.buffered[..m] && s'.buffered == s.buffered[m..]
  {
    var c :| z.delivered == s.delivered + [(c, s.buffered[0])];
    assert Values(z.delivered) == Values(s.delivered) + [s.buffered[0]];
    var m := if n < |z.buffered| then n else |z.buffered|;
    assert s.buffered[..m + 1] == [s.buffered[0]] + z.buffered[..m];
    assert s.buffered[m + 1..] == z.buffered[m..];
  }

  /** A close tells everybody in line, receivers and senders, that the channel is closed, keeps what
      is buffered and drops what parked senders hold; a second one changes nothing. */
  lemma CloseDoes(l: Which, s: State, c: Ctx)
    requires Reached(l, s) && H.Is(s.w, c, H.Running)
    ensures var s' := Apply(l, s, DoClose(c));
            && (CloseSpec(Slot(l, s)).1 == AlreadyClosed <==> s.closed)
            && (s.closed ==> s' == s)
            && (!s.closed ==>
                  && s' == s.(w := s'.w, closed := true, lost := Values(Waiting(s.w, l.sends)))
                  && Cleared(s.w, s'.w, l.recvs, Closed) && Cleared(s.w, s'.w, l.sends, Closed))
  {
    hide H.Inv, Ok, InLine;
    ReachedInv(l, s);
    OkHolds(l, s);
    if !s.closed {
      var w1 := SettleAll(s.w, l.recvs, Closed, |Waiting(s.w, l.recvs)|);
      SettleAllClears(s.w, l.recvs, Closed);
      SettleAllPasses(s.w, l.recvs, Closed, |Waiting(s.w, l.recvs)|, l.sends);
      SettleAllClears(w1, l.sends, Closed);
      SettleAllPasses(w1, l.sends, Closed, |Waiting(w1, l.sends)|, l.recvs);
      SameLine(s.w, w1, l.sends);
    }
  }

  lemma SameLine(w: H.World, w1: H.World, q: H.Queue)
    requires Waiting(w1, q) == Waiting(w, q)
    ensures forall d: Ctx :: InLine(w1, q, d) == InLine(w, q, d)
  {
  }
}
