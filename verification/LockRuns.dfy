/** A Mutex or ReentrantMutex in a running program. The lock's sections are the slot functions;
    everything between them is the park handshake; and every other primitive, context and
    scheduler step may interleave anywhere. `depth` counts, per context, the lock() and
    tryLock() calls that have returned to the program and are not yet unlocked: it is what the
    program believes it holds. */
module LockRuns {
  import opened Wrappers
  import opened WaitQueue
  import opened SyncSlots
  import H = Handshake
  import opened Calls

  datatype State = State(w: H.World, owner: Option<Ctx>, count: nat, depth: map<Ctx, nat>,
                         arrived: seq<(Ctx, int)>, granted: seq<(Ctx, int)>)

  datatype Step =
    | DoLock(c: Ctx, mayPark: bool)
    | DoTryLock(c: Ctx)
    | DoUnlock(c: Ctx)
    | Other(a: H.Action)

  /** Which lock: its waiter queue, and whether it is a ReentrantMutex. */
  datatype Which = Which(q: H.Queue, reentrant: bool)

  function Depth(s: State, c: Ctx): nat {
    if c in s.depth then s.depth[c] else 0
  }

  function Slot(l: Which, s: State): Lock {
    Lock(s.owner, s.count, H.At(s.w.queues, l.q))
  }

  predicate Enabled(l: Which, s: State, step: Step) {
    match step
    case DoLock(c, _) => H.Is(s.w, c, H.Running)
    case DoTryLock(c) => H.Is(s.w, c, H.Running)
    case DoUnlock(c) => H.Is(s.w, c, H.Running)
    case Other(a) => H.Enabled(s.w, a) && Off(a, l.q)
  }

  function Returned(s: State, c: Ctx): map<Ctx, nat> {
    s.depth[c := Depth(s, c) + 1]
  }

  function Unwound(s: State, c: Ctx): map<Ctx, nat> {
    s.depth[c := if Depth(s, c) > 0 then Depth(s, c) - 1 else 0]
  }

  function Apply(l: Which, s: State, step: Step): State
    requires Enabled(l, s, step)
  {
    match step
    case DoLock(c, mayPark) =>
      var (slot, r) := LockSpec(l.reentrant, Slot(l, s), c, mayPark);
      (match r
       case Taken => s.(owner := slot.owner, count := slot.count, depth := Returned(s, c))
       case Refused => s
       case MustPark => s.(w := H.Apply(s.w, H.Register(c, l.q, 0)), arrived := s.arrived + [(c, 0)]))
    case DoTryLock(c) =>
      var (slot, taken) := TryLockSpec(l.reentrant, Slot(l, s), c);
      if taken then s.(owner := slot.owner, count := slot.count, depth := Returned(s, c)) else s
    case DoUnlock(c) =>
      var (slot, r) := UnlockSpec(l.reentrant, Slot(l, s), c);
      (match r
       case NotOwner => s
       case Released(_) =>
         var left := s.(owner := slot.owner, count := slot.count, depth := Unwound(s, c));
         if l.reentrant && s.count > 1 then left
         else match slot.owner
           case None => left
           case Some(next) =>
             left.(w := H.Apply(s.w, H.Settle(l.q, Acquired)), granted := s.granted + [(next, 0)]))
    case Other(a) =>
      var next := s.(w := H.Apply(s.w, a));
      match Returner(s.w, a, l.q)
      case Some(c) => next.(depth := Returned(s, c))
      case None => next
  }

  /** A freshly made lock, in any program that is already running. */
  ghost predicate Fresh(l: Which, s: State) {
    && H.Reached(s.w) && Waiting(s.w, l.q) == [] && (forall c: Ctx :: Decided(s.w, l.q, c) == None)
    && s.owner == None && s.count == 0 && s.depth == map[] && s.arrived == [] && s.granted == []
  }

  predicate IsRun(l: Which, s: State, steps: seq<Step>)
    decreases |steps|
  {
    steps == [] || (Enabled(l, s, steps[0]) && IsRun(l, Apply(l, s, steps[0]), steps[1..]))
  }

  function After(l: Which, s: State, steps: seq<Step>): State
    requires IsRun(l, s, steps)
    decreases |steps|
  {
    if steps == [] then s else After(l, Apply(l, s, steps[0]), steps[1..])
  }

  // ---------------------------------------------------------------- the invariant

  function InFlight(l: Which, w: H.World, c: Ctx): nat {
    if Decided(w, l.q, c).Some? then 1 else 0
  }

  ghost predicate OnlyOwnerDecided(l: Which, w: H.World, owner: Option<Ctx>) {
    forall c: Ctx :: Decided(w, l.q, c).Some? ==> owner == Some(c) && Decided(w, l.q, c) == Some(Acquired)
  }

  ghost predicate OnlyOwnerHolds(depth: map<Ctx, nat>, owner: Option<Ctx>) {
    forall c :: c in depth && depth[c] > 0 ==> owner == Some(c)
  }

  /** The lock's own part of the invariant. */
  ghost predicate Ok(l: Which, s: State) {
    && OnlyOwnerDecided(l, s.w, s.owner)
    && OnlyOwnerHolds(s.depth, s.owner)
    && (s.owner == None ==> s.count == 0 && Waiting(s.w, l.q) == [])
    && (s.owner.Some? ==>
          && s.count > 0
          && s.count == Depth(s, s.owner.value) + InFlight(l, s.w, s.owner.value)
          && (InFlight(l, s.w, s.owner.value) == 1 ==> s.count == 1))
    && (!l.reentrant ==> s.count <= 1)
    && s.arrived == s.granted + Waiting(s.w, l.q)
    && (forall k :: 0 <= k < |s.arrived| ==> s.arrived[k].1 == 0)
  }

  ghost predicate Inv(l: Which, s: State) {
    H.Inv(s.w) && Ok(l, s)
  }

  lemma TakeOk(l: Which, s: State, c: Ctx)
    requires Ok(l, s) && Decided(s.w, l.q, c) == None
    requires s.owner == None || (l.reentrant && s.owner == Some(c))
    ensures Ok(l, s.(owner := Some(c), count := s.count + 1, depth := Returned(s, c)))
  {
  }

  lemma QueueOk(l: Which, s: State, w': H.World, c: Ctx)
    requires Ok(l, s) && s.owner.Some? && Joined(s.w, w', l.q, c, 0)
    ensures Ok(l, s.(w := w', arrived := s.arrived + [(c, 0)]))
  {
    assert s.granted + (Waiting(s.w, l.q) + [(c, 0)]) == s.granted + Waiting(s.w, l.q) + [(c, 0)];
  }

  lemma ReleaseOk(l: Which, s: State, c: Ctx)
    requires Ok(l, s) && s.owner == Some(c) && Decided(s.w, l.q, c) == None
    ensures s.count > 1 ==> Ok(l, s.(count := s.count - 1, depth := Unwound(s, c)))
    ensures s.count == 1 && Waiting(s.w, l.q) == [] ==> Ok(l, s.(owner := None, count := 0, depth := Unwound(s, c)))
  {
  }

  /** The last unlock with somebody waiting: the oldest waiter becomes the owner. */
  lemma HandOverOk(l: Which, s: State, w': H.World, c: Ctx)
    requires Ok(l, s) && s.owner == Some(c) && s.count == 1 && Decided(s.w, l.q, c) == None
    requires Served(s.w, w', l.q, Acquired) && Waiting(s.w, l.q)[0].0 != c
    ensures var next := Waiting(s.w, l.q)[0].0;
            Ok(l, State(w', Some(next), 1, Unwound(s, c), s.arrived, s.granted + [(next, 0)]))
  {
    var front, rest := Waiting(s.w, l.q)[0], Waiting(s.w, l.q)[1..];
    assert s.arrived[|s.granted|] == front;
    assert Waiting(s.w, l.q) == [front] + rest;
    assert s.granted + ([front] + rest) == s.granted + [front] + rest;
  }

  lemma PassOk(l: Which, s: State, w': H.World, returner: Option<Ctx>)
    requires Ok(l, s) && Passed(s.w, w', l.q, returner)
    requires returner.Some? ==> Decided(s.w, l.q, returner.value).Some?
    ensures var s' := s.(w := w');
            Ok(l, if returner.Some? then s'.(depth := Returned(s, returner.value)) else s')
  {
  }

  lemma UnlockInv(l: Which, s: State, c: Ctx)
    requires Inv(l, s) && H.Is(s.w, c, H.Running)
    ensures Inv(l, Apply(l, s, DoUnlock(c)))
  {
    RunnerNotInvolved(s.w, c, l.q);
    if s.owner == Some(c) {
      ReleaseOk(l, s, c);
      SettleServes(s.w, l.q, Acquired);
      if s.count == 1 && Waiting(s.w, l.q) != [] {
        HandOverOk(l, s, H.Apply(s.w, H.Settle(l.q, Acquired)), c);
      }
    }
  }

  lemma StepInv(l: Which, s: State, step: Step)
    requires Inv(l, s) && Enabled(l, s, step)
    ensures Inv(l, Apply(l, s, step))
  {
    match step
    case DoLock(c, _) =>
      RunnerNotInvolved(s.w, c, l.q);
      if s.owner == None || (l.reentrant && s.owner == Some(c)) {
        TakeOk(l, s, c);
      } else if step.mayPark {
        RegisterJoins(s.w, c, l.q, 0);
        QueueOk(l, s, H.Apply(s.w, H.Register(c, l.q, 0)), c);
      }
    case DoTryLock(c) =>
      RunnerNotInvolved(s.w, c, l.q);
      if s.owner == None || (l.reentrant && s.owner == Some(c)) {
        TakeOk(l, s, c);
      }
    case DoUnlock(c) =>
      UnlockInv(l, s, c);
    case Other(a) =>
      OffPasses(s.w, a, l.q);
      PassOk(l, s, H.Apply(s.w, a), Returner(s.w, a, l.q));
  }

  lemma {:induction false} RunInv(l: Which, s: State, steps: seq<Step>)
    requires Inv(l, s) && IsRun(l, s, steps)
    ensures Inv(l, After(l, s, steps))
    decreases |steps|
  {
    if steps != [] {
      StepInv(l, s, steps[0]);
      RunInv(l, Apply(l, s, steps[0]), steps[1..]);
    }
  }

  // ---------------------------------------------------------------- main results

  ghost predicate Reached(l: Which, s: State) {
    exists s0, steps :: Fresh(l, s0) && IsRun(l, s0, steps) && After(l, s0, steps) == s
  }

  lemma ReachedInv(l: Which, s: State)
    requires Reached(l, s)
    ensures Inv(l, s)
  {
    var s0, steps :| Fresh(l, s0) && IsRun(l, s0, steps) && After(l, s0, steps) == s;
    H.ReachedInv(s0.w);
    RunInv(l, s0, steps);
  }

  /** Mutual exclusion: two contexts never both hold the lock, and a holder is the owner. */
  lemma MutualExclusion(l: Which, s: State, c: Ctx, d: Ctx)
    requires Reached(l, s) && Depth(s, c) > 0 && Depth(s, d) > 0
    ensures c == d && s.owner == Some(c)
  {
    ReachedInv(l, s);
  }

  /** The slot's hold count is exactly what the program still has to unlock, plus a grant on its
      way to the owner; it is zero exactly when the lock is free. A Mutex is held once. */
  lemma CountIsUnmatchedLocks(l: Which, s: State)
    requires Reached(l, s)
    ensures s.count == 0 <==> s.owner == None
    ensures s.owner.Some? ==> s.count == Depth(s, s.owner.value) + InFlight(l, s.w, s.owner.value)
    ensures !l.reentrant ==> s.count <= 1
  {
    ReachedInv(l, s);
  }

  /** A free lock has nobody waiting, and at most one grant is under way: the owner's. */
  lemma FreeMeansNobodyWaits(l: Which, s: State, i: nat, j: nat)
    requires Reached(l, s)
    requires var ws := H.At(s.w.queues, l.q); i < |ws| && j < |ws|
    ensures var ws := H.At(s.w.queues, l.q);
            && (s.owner == None ==> !Live(ws[i]))
            && (!Live(ws[i]) ==> ws[i].phase == Acquired && s.owner == Some(ws[i].ctx))
            && (!Live(ws[i]) && !Live(ws[j]) ==> i == j)
  {
    ReachedInv(l, s);
    var ws := H.At(s.w.queues, l.q);
    OffersEmpty(ws);
    StampOwned(l, s, i);
    StampOwned(l, s, j);
    EntryFacts(s.w, l.q, i);
  }

  lemma StampOwned(l: Which, s: State, i: nat)
    requires Inv(l, s) && i < |H.At(s.w.queues, l.q)|
    ensures var v := H.At(s.w.queues, l.q)[i]; !Live(v) ==> v.phase == Acquired && s.owner == Some(v.ctx)
  {
    var ws := H.At(s.w.queues, l.q);
    EntryFacts(s.w, l.q, i);
    IndexIsUnique(ws, i);
    if !Live(ws[i]) {
      assert H.ContextOk(s.w.ctxs[ws[i].ctx]);
      assert Decided(s.w, l.q, ws[i].ctx) == Some(ws[i].phase);
    }
  }

  /** Grants follow registration order: who has been granted, then who still waits, is the order
      in which calls registered. */
  lemma GrantsAreFifo(l: Which, s: State)
    requires Reached(l, s)
    ensures s.arrived == s.granted + Waiting(s.w, l.q)
  {
    ReachedInv(l, s);
  }

  /** A parked call is resumed only as the owner: when its context returns from the lock, the lock
      is its own, and the call then counts as held. */
  lemma ResumedOwnsTheLock(l: Which, s: State, a: H.Action, c: Ctx)
    requires Reached(l, s) && Enabled(l, s, Other(a)) && Returner(s.w, a, l.q) == Some(c)
    ensures s.owner == Some(c) && Depth(s, c) == 0
    ensures var s' := Apply(l, s, Other(a)); s'.owner == Some(c) && Depth(s', c) == 1 && s'.count == 1
  {
    ReachedInv(l, s);
    OffPasses(s.w, a, l.q);
  }

  /** A Mutex is not reentrant: a context that locks one it already holds waits for itself for
      ever; no continuation of the run frees the lock or lets the call return. */
  lemma {:induction false} SelfLockIsForever(l: Which, s: State, c: Ctx, steps: seq<Step>)
    requires !l.reentrant && Reached(l, s) && s.owner == Some(c) && InLine(s.w, l.q, c) && IsRun(l, s, steps)
    ensures After(l, s, steps).owner == Some(c) && InLine(After(l, s, steps).w, l.q, c)
    decreases |steps|
  {
    ReachedInv(l, s);
    SelfLockHolds(l, s, c, steps);
  }

  lemma {:induction false} SelfLockHolds(l: Which, s: State, c: Ctx, steps: seq<Step>)
    requires !l.reentrant && Inv(l, s) && s.owner == Some(c) && InLine(s.w, l.q, c) && IsRun(l, s, steps)
    ensures After(l, s, steps).owner == Some(c) && InLine(After(l, s, steps).w, l.q, c)
    decreases |steps|
  {
    if steps != [] {
      StepInv(l, s, steps[0]);
      SelfLockStep(l, s, c, steps[0]);
      SelfLockHolds(l, Apply(l, s, steps[0]), c, steps[1..]);
    }
  }

  lemma SelfLockStep(l: Which, s: State, c: Ctx, step: Step)
    requires !l.reentrant && Inv(l, s) && s.owner == Some(c) && InLine(s.w, l.q, c) && Enabled(l, s, step)
    ensures Apply(l, s, step).owner == Some(c) && InLine(Apply(l, s, step).w, l.q, c)
  {
    var k :| 0 <= k < |Waiting(s.w, l.q)| && Waiting(s.w, l.q)[k].0 == c;
    var w' := Apply(l, s, step).w;
    match step
    case DoLock(d, mayPark) =>
      if mayPark {
        RegisterJoins(s.w, d, l.q, 0);
        assert (Waiting(s.w, l.q) + [(d, 0)])[k].0 == c;
      }
    case DoTryLock(_) =>
    case DoUnlock(d) =>
      RunnerNotInvolved(s.w, d, l.q);
    case Other(a) =>
      OffPasses(s.w, a, l.q);
      assert Waiting(w', l.q)[k].0 == c;
  }

  /** The steps are the slot's sections: lock and unlock leave exactly the slot their functions
      say, and unlock owes exactly the wake its function returns. */
  lemma StepsAreSections(l: Which, s: State, c: Ctx, mayPark: bool)
    requires Reached(l, s) && H.Is(s.w, c, H.Running)
    ensures Slot(l, Apply(l, s, DoLock(c, mayPark))) == LockSpec(l.reentrant, Slot(l, s), c, mayPark).0
    ensures var (slot, r) := UnlockSpec(l.reentrant, Slot(l, s), c);
            && Slot(l, Apply(l, s, DoUnlock(c))) == slot
            && Apply(l, s, DoUnlock(c)).w.wakes == s.w.wakes + Owed(l.q, if r.Released? then r.wake else None, Acquired)
  {
    hide H.Inv;
    ReachedInv(l, s);
    SettleOwes(s.w, l.q, Acquired);
  }

  // ---------------------------------------------------------------- what each call does

  ghost predicate SameDepthsBut(s: State, s': State, c: Ctx) {
    forall d: Ctx :: d != c ==> Depth(s', d) == Depth(s, d)
  }

  /** `c` has come to hold the lock once more, and nothing else has happened. */
  ghost predicate Entered(s: State, s': State, c: Ctx) {
    && s'.owner == Some(c) && s'.count == s.count + 1
    && Depth(s', c) == Depth(s, c) + 1 && SameDepthsBut(s, s', c)
    && s'.w == s.w && s'.arrived == s.arrived && s'.granted == s.granted
  }

  /** `c` has joined the back of the line and is on its way to sleep; the holder keeps the lock. */
  ghost predicate Lined(l: Which, s: State, s': State, c: Ctx) {
    && Waiting(s'.w, l.q) == Waiting(s.w, l.q) + [(c, 0)] && InLine(s'.w, l.q, c)
    && H.Is(s'.w, c, H.Registered)
    && s'.owner == s.owner && s'.count == s.count && s'.depth == s.depth
    && s'.arrived == s.arrived + [(c, 0)] && s'.granted == s.granted
  }

  /** A lock() takes a free lock, or its own reentrant one; otherwise it waits in line, or changes
      nothing where it must not suspend. */
  lemma LockDoes(l: Which, s: State, c: Ctx, mayPark: bool)
    requires Reached(l, s) && H.Is(s.w, c, H.Running)
    ensures var s' := Apply(l, s, DoLock(c, mayPark));
            var r := LockSpec(l.reentrant, Slot(l, s), c, mayPark).1;
            if s.owner == None || (l.reentrant && s.owner == Some(c)) then r == Taken && Entered(s, s', c)
            else if mayPark then r == MustPark && Lined(l, s, s', c)
            else r == Refused && s' == s
  {
    hide H.Inv, H.Apply, InLine;
    ReachedInv(l, s);
    RegisterJoins(s.w, c, l.q, 0);
    RegisterLines(s.w, c, l.q, 0);
  }

  /** A tryLock() answers yes exactly when a lock() would not have had to wait, and never waits. */
  lemma TryLockDoes(l: Which, s: State, c: Ctx)
    requires Reached(l, s) && H.Is(s.w, c, H.Running)
    ensures var s' := Apply(l, s, DoTryLock(c));
            var taken := TryLockSpec(l.reentrant, Slot(l, s), c).1;
            && (taken <==> s.owner == None || (l.reentrant && s.owner == Some(c)))
            && (if taken then Entered(s, s', c) else s' == s)
  {
    ReachedInv(l, s);
  }

  /** The lock has gone from `c` to the head of the line, which is woken if it sleeps. */
  ghost predicate HandedOver(l: Which, s: State, s': State, c: Ctx)
    requires Waiting(s.w, l.q) != []
  {
    var next := Waiting(s.w, l.q)[0].0;
    && s'.owner == Some(next) && s'.count == 1 && Decided(s'.w, l.q, next) == Some(Acquired)
    && Waiting(s'.w, l.q) == Waiting(s.w, l.q)[1..] && s'.granted == s.granted + [Waiting(s.w, l.q)[0]]
    && next in s.w.ctxs
    && s'.w.wakes == s.w.wakes + (if H.Waits(s.w.ctxs[next]) then [H.Wake(next, l.q, Acquired)] else [])
    && Depth(s', c) == 0 && SameDepthsBut(s, s', c)
  }

  /** An unlock() by anybody but the holder changes nothing; the holder's counts down, and its last
      one hands the lock to the longest waiter or frees it. */
  lemma UnlockDoes(l: Which, s: State, c: Ctx)
    requires Reached(l, s) && H.Is(s.w, c, H.Running)
    ensures var s' := Apply(l, s, DoUnlock(c));
            && (UnlockSpec(l.reentrant, Slot(l, s), c).1 == NotOwner <==> s.owner != Some(c))
            && (s.owner != Some(c) ==> s' == s)
            && (s.owner == Some(c) ==> Depth(s, c) == s.count)
            && (s.owner == Some(c) && s.count > 1 ==>
                  s' == s.(count := s.count - 1, depth := s'.depth)
                  && Depth(s', c) == Depth(s, c) - 1 && SameDepthsBut(s, s', c))
            && (s.owner == Some(c) && s.count == 1 && Waiting(s.w, l.q) == [] ==>
                  s' == s.(owner := None, count := 0, depth := s'.depth)
                  && Depth(s', c) == 0 && SameDepthsBut(s, s', c))
            && (s.owner == Some(c) && s.count == 1 && Waiting(s.w, l.q) != [] ==> HandedOver(l, s, s', c))
  {
    hide H.Inv, H.Apply;
    ReachedInv(l, s);
    RunnerNotInvolved(s.w, c, l.q);
    SettleServes(s.w, l.q, Acquired);
    if Waiting(s.w, l.q) != [] {
      SettleWakesSleeper(s.w, l.q, Acquired);
      assert s.arrived[|s.granted|] == Waiting(s.w, l.q)[0];
    }
  }
}
