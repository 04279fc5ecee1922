/** The side-table slots of the sync primitives and the sections that run on them under the
    sync domain lock. Each method is one section; what it may not do inside the section (wake a
    context) it returns. Every section is proved equal to a function of the old slot; the runs
    that interleave these sections with the scheduler are in the modules built on Handshake. */
module SyncSlots {
  import opened Wrappers
  import opened WaitQueue

  // ---------------------------------------------------------------- locks

  /** A Mutex or ReentrantMutex slot as a value; a held Mutex counts as 1. */
  datatype Lock = Lock(owner: Option<Ctx>, count: nat, waiters: seq<Waiter>)

  datatype LockResult = Taken | MustPark | Refused

  datatype UnlockResult = NotOwner | Released(wake: Option<Ctx>)

  function LockSpec(reentrant: bool, s: Lock, c: Ctx, mayPark: bool): (Lock, LockResult) {
    if reentrant && s.owner == Some(c) then (s.(count := s.count + 1), Taken)
    else if s.owner == None then (s.(owner := Some(c), count := 1), Taken)
    else if !mayPark then (s, Refused)
    else (s.(waiters := s.waiters + [Waiter(c, Pending, 0)]), MustPark)
  }

  function TryLockSpec(reentrant: bool, s: Lock, c: Ctx): (Lock, bool) {
    if reentrant && s.owner == Some(c) then (s.(count := s.count + 1), true)
    else if s.owner == None then (s.(owner := Some(c), count := 1), true)
    else (s, false)
  }

  function UnlockSpec(reentrant: bool, s: Lock, c: Ctx): (Lock, UnlockResult) {
    if s.owner != Some(c) then (s, NotOwner)
    else if reentrant && s.count > 1 then (s.(count := s.count - 1), Released(None))
    else
      var next := FirstLiveCtx(s.waiters);
      (Lock(next, if next.Some? then 1 else 0, DecideFirst(s.waiters, Acquired)),
       Released(WakeAfterDecide(s.waiters)))
  }

  /** The stamp consumer shared by the Mutex, ReentrantMutex and Semaphore rechecks. */
  method ConsumeSyncWaiterStamp(waiters: seq<Waiter>, self: Ctx) returns (left: seq<Waiter>, r: RecheckResult)
    ensures (left, r) == RecheckSpec(waiters, self)
  {
    for i := 0 to |waiters|
      invariant forall j :: 0 <= j < i ==> waiters[j].ctx != self
    {
      if waiters[i].ctx != self {
        continue;
      }
      assert i == IndexOf(waiters, self);
      if waiters[i].phase == Pending {
        return waiters[i := waiters[i].(phase := Committed)], Commit;
      }
      return waiters[..i] + waiters[i + 1..], Consumed(waiters[i].phase);
    }
    return waiters, Vanished;
  }

  /** The handoff loop of unlock and release: skip dead mailboxes, pop a committed entry, stamp
      a pending one. */
  method HandOff(waiters: seq<Waiter>, stamp: Phase)
    returns (left: seq<Waiter>, next: Option<Ctx>, committed: bool)
    requires IsStamp(stamp)
    ensures left == DecideFirst(waiters, stamp)
    ensures next == FirstLiveCtx(waiters)
    ensures WakeAfterDecide(waiters) == if committed then next else None
  {
    for i := 0 to |waiters|
      invariant forall j :: 0 <= j < i ==> !Live(waiters[j])
    {
      if waiters[i].phase != Pending && waiters[i].phase != Committed {
        continue;
      }
      assert i == FirstLive(waiters);
      next := Some(waiters[i].ctx);
      if waiters[i].phase == Committed {
        return waiters[..i] + waiters[i + 1..], next, true;
      }
      return waiters[i := waiters[i].(phase := stamp)], next, false;
    }
    return waiters, None, false;
  }

  class MutexSlot {
    var owner: Option<Ctx>
    var waiters: seq<Waiter>

    function View(): Lock
      reads this
    {
      Lock(owner, if owner.Some? then 1 else 0, waiters)
    }

    constructor ()
      ensures View() == Lock(None, 0, [])
    {
      owner, waiters := None, [];
    }

    method TakeOrQueue(self: Ctx, mayPark: bool) returns (r: LockResult)
      modifies this
      ensures (View(), r) == LockSpec(false, old(View()), self, mayPark)
    {
      if owner == None {
        owner := Some(self);
        return Taken;
      }
      if !mayPark {
        return Refused;
      }
      waiters := waiters + [Waiter(self, Pending, 0)];
      return MustPark;
    }

    method TryTake(self: Ctx) returns (taken: bool)
      modifies this
      ensures (View(), taken) == TryLockSpec(false, old(View()), self)
    {
      taken := false;
      if owner == None {
        owner := Some(self);
        taken := true;
      }
    }

    method Unlock(self: Ctx) returns (r: UnlockResult)
      modifies this
      ensures (View(), r) == UnlockSpec(false, old(View()), self)
    {
      if owner != Some(self) {
        return NotOwner;
      }
      var left, next, committed := HandOff(waiters, Acquired);
      waiters := left;
      owner := next;
      return Released(if committed then next else None);
    }

    method Recheck(self: Ctx) returns (r: RecheckResult)
      modifies this
      ensures (waiters, r) == RecheckSpec(old(waiters), self) && owner == old(owner)
    {
      var left, result := ConsumeSyncWaiterStamp(waiters, self);
      waiters := left;
      return result;
    }
  }

  class RMutexSlot {
    var owner: Option<Ctx>
    var count: nat
    var waiters: seq<Waiter>

    /** Free exactly when the hold count is zero. */
    ghost predicate Valid()
      reads this
    {
      owner.Some? <==> count > 0
    }

    function View(): Lock
      reads this
    {
      Lock(owner, count, waiters)
    }

    constructor ()
      ensures Valid() && View() == Lock(None, 0, [])
    {
      owner, count, waiters := None, 0, [];
    }

    method TakeOrQueue(self: Ctx, mayPark: bool) returns (r: LockResult)
      requires Valid()
      modifies this
      ensures Valid() && (View(), r) == LockSpec(true, old(View()), self, mayPark)
    {
      if owner == Some(self) {
        count := count + 1;
        return Taken;
      }
      if owner == None {
        owner := Some(self);
        count := 1;
        return Taken;
      }
      if !mayPark {
        return Refused;
      }
      waiters := waiters + [Waiter(self, Pending, 0)];
      return MustPark;
    }

    method TryTake(self: Ctx) returns (taken: bool)
      requires Valid()
      modifies this
      ensures Valid() && (View(), taken) == TryLockSpec(true, old(View()), self)
    {
      taken := false;
      if owner == Some(self) {
        count := count + 1;
        taken := true;
      } else if owner == None {
        owner := Some(self);
        count := 1;
        taken := true;
      }
    }

    method Unlock(self: Ctx) returns (r: UnlockResult)
      requires Valid()
      modifies this
      ensures Valid() && (View(), r) == UnlockSpec(true, old(View()), self)
    {
      if owner != Some(self) {
        return NotOwner;
      }
      count := count - 1;
      if count > 0 {
        return Released(None);
      }
      var left, next, committed := HandOff(waiters, Acquired);
      waiters := left;
      owner := next;
      count := if next == None then 0 else 1;
      return Released(if committed then next else None);
    }

    method Recheck(self: Ctx) returns (r: RecheckResult)
      requires Valid()
      modifies this
      ensures Valid() && (waiters, r) == RecheckSpec(old(waiters), self)
      ensures owner == old(owner) && count == old(count)
    {
      var left, result := ConsumeSyncWaiterStamp(waiters, self);
      waiters := left;
      return result;
    }
  }

  // ---------------------------------------------------------------- semaphore

  datatype Sem = Sem(count: nat, waiters: seq<Waiter>)

  function AcquireSpec(s: Sem, c: Ctx, mayPark: bool): (Sem, LockResult) {
    if s.count > 0 then (s.(count := s.count - 1), Taken)
    else if !mayPark then (s, Refused)
    else (s.(waiters := s.waiters + [Waiter(c, Pending, 0)]), MustPark)
  }

  function TryAcquireSpec(s: Sem): (Sem, bool) {
    if s.count > 0 then (s.(count := s.count - 1), true) else (s, false)
  }

  function ReleaseSpec(s: Sem): (Sem, Option<Ctx>) {
    if FirstLiveCtx(s.waiters) == None then (s.(count := s.count + 1), None)
    else (s.(waiters := DecideFirst(s.waiters, Acquired)), WakeAfterDecide(s.waiters))
  }

  class SemaphoreSlot {
    var count: nat
    var waiters: seq<Waiter>

    function View(): Sem
      reads this
    {
      Sem(count, waiters)
    }

    /** `initial` has passed the constructor's non-negativity check. */
    constructor (initial: nat)
      ensures View() == Sem(initial, [])
    {
      count, waiters := initial, [];
    }

    method Acquire(self: Ctx, mayPark: bool) returns (r: LockResult)
      modifies this
      ensures (View(), r) == AcquireSpec(old(View()), self, mayPark)
    {
      if count > 0 {
        count := count - 1;
        return Taken;
      }
      if !mayPark {
        return Refused;
      }
      waiters := waiters + [Waiter(self, Pending, 0)];
      return MustPark;
    }

    method TryAcquire() returns (taken: bool)
      modifies this
      ensures (View(), taken) == TryAcquireSpec(old(View()))
    {
      taken := false;
      if count > 0 {
        count := count - 1;
        taken := true;
      }
    }

    method Release() returns (wake: Option<Ctx>)
      modifies this
      ensures (View(), wake) == ReleaseSpec(old(View()))
    {
      var left, next, committed := HandOff(waiters, Acquired);
      waiters := left;
      if next == None {
        count := count + 1;
      }
      return if committed then next else None;
    }
  }

  // ---------------------------------------------------------------- channel

  /** `dest` is the memory behind the receivers' saved result pointers. */
  datatype Chan = Chan(buffered: seq<int>, waiters: seq<Waiter>, closed: bool, capacity: nat,
                       pending: seq<Waiter>, dest: map<Ctx, int>)

  datatype SendResult =
    SendClosed | HandedOff(to: Ctx, wakeReceiver: Option<Ctx>) | Buffered | SendMustPark | SendRefused

  datatype RecvResult = Received(value: int, wakeSender: Option<Ctx>) | RecvClosed | RecvMustPark | RecvRefused

  function Full(s: Chan): bool {
    s.capacity > 0 && |s.buffered| >= s.capacity
  }

  function SendSpec(s: Chan, c: Ctx, v: int, mayPark: bool): (Chan, SendResult) {
    if s.closed then (s, SendClosed)
    else match FirstLiveCtx(s.waiters)
      case Some(to) =>
        (s.(waiters := DecideFirst(s.waiters, Value), dest := s.dest[to := v]),
         HandedOff(to, WakeAfterDecide(s.waiters)))
      case None =>
        if !Full(s) then (s.(buffered := s.buffered + [v]), Buffered)
        else if !mayPark then (s, SendRefused)
        else (s.(pending := s.pending + [Waiter(c, Pending, v)]), SendMustPark)
  }

  /** The value the freed buffer slot takes from the first live sender, if there is one. */
  function Staged(pending: seq<Waiter>): seq<int> {
    if FirstLive(pending) < |pending| then [pending[FirstLive(pending)].value] else []
  }

  function RecvSpec(s: Chan, c: Ctx, mayPark: bool): (Chan, RecvResult) {
    if s.buffered != [] then
      (s.(buffered := s.buffered[1..] + Staged(s.pending), pending := DecideFirst(s.pending, Value),
          dest := s.dest[c := s.buffered[0]]),
       Received(s.buffered[0], WakeAfterDecide(s.pending)))
    else if s.closed then (s, RecvClosed)
    else if !mayPark then (s, RecvRefused)
    else (s.(waiters := s.waiters + [Waiter(c, Pending, 0)]), RecvMustPark)
  }

  /** What close does to the receivers: buffered values drain to live ones in order, the rest
      are told the channel is closed. */
  datatype Drained = Drained(waiters: seq<Waiter>, buffered: seq<int>, dest: map<Ctx, int>,
                             valueWoken: seq<Ctx>, closedWoken: seq<Ctx>)

  function Drain(ws: seq<Waiter>, buffered: seq<int>, dest: map<Ctx, int>): Drained {
    if ws == [] then
      Drained([], buffered, dest, [], [])
    else if Live(ws[0]) && buffered != [] then
      var d := Drain(ws[1..], buffered[1..], dest[ws[0].ctx := buffered[0]]);
      if ws[0].phase == Committed then d.(valueWoken := [ws[0].ctx] + d.valueWoken)
      else d.(waiters := [ws[0].(phase := Value)] + d.waiters)
    else
      var d := Drain(ws[1..], buffered, dest);
      if ws[0].phase == Committed then d.(closedWoken := [ws[0].ctx] + d.closedWoken)
      else if ws[0].phase == Pending then d.(waiters := [ws[0].(phase := Closed)] + d.waiters)
      else d.(waiters := [ws[0]] + d.waiters)
  }

  /** A drain serves a front part of the queue: its live receivers are decided with a value each,
      the buffered ones in order, for as long as there are values; the others with closed. */
  lemma {:induction false} DrainServesFront(ws: seq<Waiter>, buffered: seq<int>, dest: map<Ctx, int>)
    returns (i: nat)
    ensures i <= |ws|
    ensures var n := |LiveOf(ws[..i])|;
            && n <= |buffered| && (n < |buffered| ==> LiveOf(ws[i..]) == [])
            && Drain(ws, buffered, dest)
               == Drained(DecideAll(ws[..i], Value) + DecideAll(ws[i..], Closed), buffered[n..],
                          Given(dest, LiveOf(ws[..i]), buffered[..n]), CommittedCtxs(ws[..i]), CommittedCtxs(ws[i..]))
  {
    if ws == [] || buffered == [] {
      i := 0;
      DrainGivesNothing(ws, buffered, dest);
      assert ws[..0] == [] && ws[0..] == ws;
      assert buffered[0..] == buffered;
    } else {
      var taken := Live(ws[0]);
      var rest := if taken then buffered[1..] else buffered;
      var left := if taken then dest[ws[0].ctx := buffered[0]] else dest;
      var j := DrainServesFront(ws[1..], rest, left);
      i := j + 1;
      DrainOneMore(ws, buffered, dest, j);
    }
  }

  /** Each receiver's destination set to its value; a later entry of the same context wins. */
  function Given(dest: map<Ctx, int>, live: seq<Waiter>, values: seq<int>): map<Ctx, int>
    requires |live| == |values|
    decreases |live|
  {
    if live == [] then dest else Given(dest[live[0].ctx := values[0]], live[1..], values[1..])
  }

  lemma {:induction false} EachGivenItsOwn(dest: map<Ctx, int>, live: seq<Waiter>, values: seq<int>, c: Ctx)
    requires |live| == |values| && Distinct(live)
    ensures forall k :: 0 <= k < |live| ==>
              live[k].ctx in Given(dest, live, values) && Given(dest, live, values)[live[k].ctx] == values[k]
    ensures !Has(live, c) ==>
              (c in Given(dest, live, values) <==> c in dest)
              && (c in dest ==> Given(dest, live, values)[c] == dest[c])
    decreases |live|
  {
    if live != [] {
      EachGivenItsOwn(dest[live[0].ctx := values[0]], live[1..], values[1..], c);
      EachGivenItsOwn(dest[live[0].ctx := values[0]], live[1..], values[1..], live[0].ctx);
      assert !Has(live[1..], live[0].ctx);
      assert !Has(live, c) ==> !Has(live[1..], c) && c != live[0].ctx;
    }
  }

  lemma DrainOneMore(ws: seq<Waiter>, buffered: seq<int>, dest: map<Ctx, int>, j: nat)
    requires ws != [] && buffered != [] && j < |ws|
    requires var rest := if Live(ws[0]) then buffered[1..] else buffered;
             var left := if Live(ws[0]) then dest[ws[0].ctx := buffered[0]] else dest;
             var n := |LiveOf(ws[1..][..j])|;
             && n <= |rest|
             && Drain(ws[1..], rest, left)
                == Drained(DecideAll(ws[1..][..j], Value) + DecideAll(ws[1..][j..], Closed), rest[n..],
                           Given(left, LiveOf(ws[1..][..j]), rest[..n]),
                           CommittedCtxs(ws[1..][..j]), CommittedCtxs(ws[1..][j..]))
    ensures var i := j + 1;
            var n := |LiveOf(ws[..i])|;
            && ws[i..] == ws[1..][j..] && n == |LiveOf(ws[1..][..j])| + (if Live(ws[0]) then 1 else 0)
            && n <= |buffered|
            && Drain(ws, buffered, dest)
               == Drained(DecideAll(ws[..i], Value) + DecideAll(ws[i..], Closed), buffered[n..],
                          Given(dest, LiveOf(ws[..i]), buffered[..n]), CommittedCtxs(ws[..i]), CommittedCtxs(ws[i..]))
  {
    hide DecideAll, CommittedCtxs, LiveOf;
    var front, tail := ws[..j + 1], ws[1..][..j];
    assert front[0] == ws[0] && front[1..] == tail;
    FrontUnfolds(front, Value);
    var n := |LiveOf(front)|;
    if Live(ws[0]) {
      assert buffered[..n][1..] == buffered[1..][..n - 1];
      assert buffered[n..] == buffered[1..][n - 1..];
    }
    var closed := DecideAll(ws[j + 1..], Closed);
    assert ws[1..][j..] == ws[j + 1..];
    forall head: seq<Waiter>
      ensures head + DecideAll(tail, Value) + closed == head + (DecideAll(tail, Value) + closed)
    {
    }
    assert [] + (DecideAll(tail, Value) + closed) == DecideAll(tail, Value) + closed;
  }

  lemma FrontUnfolds(ws: seq<Waiter>, stamp: Phase)
    requires ws != []
    ensures LiveOf(ws) == (if Live(ws[0]) then [ws[0]] else []) + LiveOf(ws[1..])
    ensures Live(ws[0]) ==> LiveOf(ws)[1..] == LiveOf(ws[1..])
    ensures !Live(ws[0]) ==> LiveOf(ws) == LiveOf(ws[1..])
    ensures CommittedCtxs(ws) == (if ws[0].phase == Committed then [ws[0].ctx] else []) + CommittedCtxs(ws[1..])
    ensures DecideAll(ws, stamp)
            == (if ws[0].phase == Committed then []
                else if ws[0].phase == Pending then [ws[0].(phase := stamp)]
                else [ws[0]]) + DecideAll(ws[1..], stamp)
  {
  }

  lemma NoneToDecide(stamp: Phase)
    ensures DecideAll([], stamp) == [] && CommittedCtxs([]) == []
  {
  }

  /** Draining a channel that has nothing buffered, or nobody waiting, gives no values out. */
  lemma {:induction false} DrainGivesNothing(ws: seq<Waiter>, buffered: seq<int>, dest: map<Ctx, int>)
    requires buffered == [] || FirstLive(ws) == |ws|
    ensures Drain(ws, buffered, dest) == Drained(DecideAll(ws, Closed), buffered, dest, [], CommittedCtxs(ws))
  {
    if ws != [] {
      DrainGivesNothing(ws[1..], buffered, dest);
    }
  }

  /** One entry's part in a drain. */
  lemma DrainUnfolds(ws: seq<Waiter>, buffered: seq<int>, dest: map<Ctx, int>)
    ensures ws == [] ==> Drain(ws, buffered, dest) == Drained([], buffered, dest, [], [])
    ensures ws != [] ==>
              var w, serve := ws[0], Live(ws[0]) && buffered != [];
              var d := Drain(ws, buffered, dest);
              var e := Drain(ws[1..], if serve then buffered[1..] else buffered,
                             if serve then dest[w.ctx := buffered[0]] else dest);
              && (w.phase == Committed && serve ==> d == e.(valueWoken := [w.ctx] + e.valueWoken))
              && (w.phase == Committed && !serve ==> d == e.(closedWoken := [w.ctx] + e.closedWoken))
              && (w.phase == Pending ==>
                    d == e.(waiters := [w.(phase := if serve then Value else Closed)] + e.waiters))
              && (!Live(w) ==> d == e.(waiters := [w] + e.waiters))
  {
  }

  /** A drain that continues one which has already kept and woken what is given. */
  ghost function After(kept: seq<Waiter>, valueWoken: seq<Ctx>, closedWoken: seq<Ctx>, d: Drained): Drained {
    Drained(kept + d.waiters, d.buffered, d.dest, valueWoken + d.valueWoken, closedWoken + d.closedWoken)
  }

  lemma AfterKept(kept: seq<Waiter>, w: Waiter, vw: seq<Ctx>, cw: seq<Ctx>, d: Drained, e: Drained)
    requires d == e.(waiters := [w] + e.waiters)
    ensures After(kept, vw, cw, d) == After(kept + [w], vw, cw, e)
  {
    assert kept + ([w] + e.waiters) == kept + [w] + e.waiters;
  }

  lemma AfterWoken(kept: seq<Waiter>, vw: seq<Ctx>, cw: seq<Ctx>, d: Drained, e: Drained)
    requires d.waiters == e.waiters && d.buffered == e.buffered && d.dest == e.dest
    ensures forall c :: d.valueWoken == [c] + e.valueWoken && d.closedWoken == e.closedWoken
              ==> After(kept, vw, cw, d) == After(kept, vw + [c], cw, e)
    ensures forall c :: d.valueWoken == e.valueWoken && d.closedWoken == [c] + e.closedWoken
              ==> After(kept, vw, cw, d) == After(kept, vw, cw + [c], e)
  {
    forall c ensures vw + ([c] + e.valueWoken) == vw + [c] + e.valueWoken {}
    forall c ensures cw + ([c] + e.closedWoken) == cw + [c] + e.closedWoken {}
  }

  datatype CloseResult = AlreadyClosed | ClosedNow(valueWoken: seq<Ctx>, closedRecvs: seq<Ctx>, closedSenders: seq<Ctx>)

  function CloseSpec(s: Chan): (Chan, CloseResult) {
    if s.closed then (s, AlreadyClosed)
    else
      var d := Drain(s.waiters, s.buffered, s.dest);
      (s.(closed := true, waiters := d.waiters, buffered := d.buffered, dest := d.dest,
          pending := DecideAll(s.pending, Closed)),
       ClosedNow(d.valueWoken, d.closedWoken, CommittedCtxs(s.pending)))
  }

  class ChannelSlot {
    var buffered: seq<int>
    var waiters: seq<Waiter>
    var closed: bool
    const capacity: nat
    var pending: seq<Waiter>
    var dest: map<Ctx, int>

    function View(): Chan
      reads this
    {
      Chan(buffered, waiters, closed, capacity, pending, dest)
    }

    /** Capacity 0 is unbounded; a negative one is refused before the slot exists. */
    constructor (capacity: nat)
      ensures View() == Chan([], [], false, capacity, [], map[])
    {
      buffered, waiters, closed, pending, dest := [], [], false, [], map[];
      this.capacity := capacity;
    }

    method HandoffToLiveWaiter(value: int) returns (to: Option<Ctx>, wake: Option<Ctx>)
      modifies `waiters, `dest
      ensures to == FirstLiveCtx(old(waiters)) && wake == WakeAfterDecide(old(waiters))
      ensures waiters == DecideFirst(old(waiters), Value)
      ensures dest == if to.Some? then old(dest)[to.value := value] else old(dest)
    {
      for i := 0 to |waiters|
        invariant unchanged(`waiters) && unchanged(`dest)
        invariant forall j :: 0 <= j < i ==> !Live(waiters[j])
      {
        if waiters[i].phase != Pending && waiters[i].phase != Committed {
          continue;
        }
        assert i == FirstLive(waiters);
        to := Some(waiters[i].ctx);
        dest := dest[waiters[i].ctx := value];
        if waiters[i].phase == Committed {
          wake := Some(waiters[i].ctx);
          waiters := waiters[..i] + waiters[i + 1..];
        } else {
          wake := None;
          waiters := waiters[i := waiters[i].(phase := Value)];
        }
        return;
      }
      return None, None;
    }

    method Send(self: Ctx, value: int, mayPark: bool) returns (r: SendResult)
      modifies this
      ensures (View(), r) == SendSpec(old(View()), self, value, mayPark)
    {
      if closed {
        return SendClosed;
      }
      var to, wake := HandoffToLiveWaiter(value);
      if to.Some? {
        return HandedOff(to.value, wake);
      }
      if capacity > 0 && |buffered| >= capacity {
        if !mayPark {
          return SendRefused;
        }
        pending := pending + [Waiter(self, Pending, value)];
        return SendMustPark;
      }
      buffered := buffered + [value];
      return Buffered;
    }

    method StagePendingSend() returns (wake: Option<Ctx>)
      modifies `buffered, `pending
      ensures buffered == old(buffered) + Staged(old(pending))
      ensures pending == DecideFirst(old(pending), Value) && wake == WakeAfterDecide(old(pending))
    {
      for i := 0 to |pending|
        invariant unchanged(`buffered) && unchanged(`pending)
        invariant forall j :: 0 <= j < i ==> !Live(pending[j])
      {
        if pending[i].phase == Pending {
          assert i == FirstLive(pending);
          buffered := buffered + [pending[i].value];
          pending := pending[i := pending[i].(phase := Value)];
          return None;
        }
        if pending[i].phase == Committed {
          assert i == FirstLive(pending);
          buffered := buffered + [pending[i].value];
          wake := Some(pending[i].ctx);
          pending := pending[..i] + pending[i + 1..];
          return;
        }
      }
      return None;
    }

    method Recv(self: Ctx, mayPark: bool) returns (r: RecvResult)
      modifies this
      ensures (View(), r) == RecvSpec(old(View()), self, mayPark)
    {
      if buffered != [] {
        var value := buffered[0];
        buffered := buffered[1..];
        var wake := StagePendingSend();
        dest := dest[self := value];
        return Received(value, wake);
      }
      if closed {
        return RecvClosed;
      }
      if !mayPark {
        return RecvRefused;
      }
      waiters := waiters + [Waiter(self, Pending, 0)];
      return RecvMustPark;
    }

    method CollectClosedRecvOutcomes() returns (valueWoken: seq<Ctx>, closedRecvs: seq<Ctx>)
      modifies `waiters, `buffered, `dest
      ensures Drained(waiters, buffered, dest, valueWoken, closedRecvs)
              == Drain(old(waiters), old(buffered), old(dest))
    {
      hide Drain;
      ghost var whole := Drain(waiters, buffered, dest);
      assert waiters[..0] == [] && waiters[0..] == waiters;
      valueWoken, closedRecvs := [], [];
      var i := 0;
      while i < |waiters|
        invariant i <= |waiters|
        invariant whole == After(waiters[..i], valueWoken, closedRecvs, Drain(waiters[i..], buffered, dest))
        decreases |waiters| - i
      {
        ghost var kept, rest := waiters[..i], waiters[i..];
        assert rest[0] == waiters[i] && rest[1..] == waiters[i + 1..];
        ghost var d := Drain(rest, buffered, dest);
        DrainUnfolds(rest, buffered, dest);
        if waiters[i].phase == Committed {
          if buffered != [] {
            dest := dest[waiters[i].ctx := buffered[0]];
            buffered := buffered[1..];
            valueWoken := valueWoken + [waiters[i].ctx];
          } else {
            closedRecvs := closedRecvs + [waiters[i].ctx];
          }
          waiters := waiters[..i] + waiters[i + 1..];
          assert waiters[..i] == kept && waiters[i..] == rest[1..];
          AfterWoken(kept, valueWoken, closedRecvs, d, Drain(rest[1..], buffered, dest));
        } else {
          if waiters[i].phase == Pending {
            if buffered != [] {
              dest := dest[waiters[i].ctx := buffered[0]];
              buffered := buffered[1..];
              waiters := waiters[i := waiters[i].(phase := Value)];
            } else {
              waiters := waiters[i := waiters[i].(phase := Closed)];
            }
          }
          i := i + 1;
          assert waiters[..i] == kept + [waiters[i - 1]] && waiters[i..] == rest[1..];
          AfterKept(kept, waiters[i - 1], valueWoken, closedRecvs, d, Drain(rest[1..], buffered, dest));
        }
      }
      DrainUnfolds([], buffered, dest);
      assert waiters[i..] == [];
      assert waiters[..i] == waiters;
    }

    method CollectClosedSenders() returns (closedSenders: seq<Ctx>)
      modifies `pending
      ensures pending == DecideAll(old(pending), Closed) && closedSenders == CommittedCtxs(old(pending))
    {
      hide DecideAll, CommittedCtxs;
      ghost var left, woken := DecideAll(pending, Closed), CommittedCtxs(pending);
      closedSenders := [];
      assert pending[..0] == [] && pending[0..] == pending;
      var i := 0;
      while i < |pending|
        invariant i <= |pending|
        invariant left == pending[..i] + DecideAll(pending[i..], Closed)
        invariant woken == closedSenders + CommittedCtxs(pending[i..])
        decreases |pending| - i
      {
        ghost var before, rest := pending, pending[i..];
        assert rest[0] == pending[i] && rest[1..] == pending[i + 1..];
        FrontUnfolds(rest, Closed);
        if pending[i].phase == Committed {
          closedSenders := closedSenders + [pending[i].ctx];
          pending := pending[..i] + pending[i + 1..];
          assert pending[..i] == before[..i] && pending[i..] == rest[1..];
        } else {
          if pending[i].phase == Pending {
            pending := pending[i := pending[i].(phase := Closed)];
          }
          i := i + 1;
          assert pending[..i] == before[..i - 1] + [pending[i - 1]] && pending[i..] == rest[1..];
        }
      }
      NoneToDecide(Closed);
      assert pending[i..] == [];
      assert pending[..i] == pending;
    }

    method Close() returns (r: CloseResult)
      modifies this
      ensures (View(), r) == CloseSpec(old(View()))
    {
      if closed {
        return AlreadyClosed;
      }
      closed := true;
      var valueWoken, closedRecvs := CollectClosedRecvOutcomes();
      var closedSenders := CollectClosedSenders();
      return ClosedNow(valueWoken, closedRecvs, closedSenders);
    }

    /** The recheck half of a parked receive. */
    method CommitOrAbortRecv(self: Ctx) returns (r: RecheckResult)
      modifies `waiters
      ensures (waiters, r) == RecheckSpec(old(waiters), self)
    {
      var left, result := ConsumeSyncWaiterStamp(waiters, self);
      waiters := left;
      return result;
    }

    /** The recheck half of a parked send. */
    method CommitOrAbortSend(self: Ctx) returns (r: RecheckResult)
      modifies `pending
      ensures (pending, r) == RecheckSpec(old(pending), self)
    {
      var left, result := ConsumeSyncWaiterStamp(pending, self);
      pending := left;
      return result;
    }
  }
}
