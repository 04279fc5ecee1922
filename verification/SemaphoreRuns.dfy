/** A Semaphore in a running program: its sections are the slot functions, everything between
    them is the park handshake, and anything else may interleave anywhere. The counters beside
    the slot are what an outside observer would tally. */
module SemaphoreRuns {
  import opened Wrappers
  import opened WaitQueue
  import opened SyncSlots
  import H = Handshake
  import opened Calls

  /** `released` counts release() calls, `taken` the permits taken straight from the counter,
      `resumed` the parked acquires that have returned, `inFlight` the contexts whose parked
      acquire has been granted and has not returned yet. */
  datatype State = State(w: H.World, count: nat, initial: nat, released: nat, taken: nat, resumed: nat,
                         inFlight: set<Ctx>, arrived: seq<(Ctx, int)>, granted: seq<(Ctx, int)>)

  datatype Step =
    | DoAcquire(c: Ctx, mayPark: bool)
    | DoTryAcquire(c: Ctx)
    | DoRelease(c: Ctx)
    | Other(a: H.Action)

  function Slot(q: H.Queue, s: State): Sem {
    Sem(s.count, H.At(s.w.queues, q))
  }

  predicate Enabled(q: H.Queue, s: State, step: Step) {
    match step
    case DoAcquire(c, _) => H.Is(s.w, c, H.Running)
    case DoTryAcquire(c) => H.Is(s.w, c, H.Running)
    case DoRelease(c) => H.Is(s.w, c, H.Running)
    case Other(a) => H.Enabled(s.w, a) && Off(a, q)
  }

  function Apply(q: H.Queue, s: State, step: Step): State
    requires Enabled(q, s, step)
  {
    match step
    case DoAcquire(c, mayPark) =>
      var (slot, r) := AcquireSpec(Slot(q, s), c, mayPark);
      (match r
       case Taken => s.(count := slot.count, taken := s.taken + 1)
       case Refused => s
       case MustPark => s.(w := H.Apply(s.w, H.Register(c, q, 0)), arrived := s.arrived + [(c, 0)]))
    case DoTryAcquire(c) =>
      var (slot, taken) := TryAcquireSpec(Slot(q, s));
      if taken then s.(count := slot.count, taken := s.taken + 1) else s
    case DoRelease(c) =>
      var (slot, wake) := ReleaseSpec(Slot(q, s));
      var left := s.(count := slot.count, released := s.released + 1);
      (match FirstLiveCtx(H.At(s.w.queues, q))
       case None => left
       case Some(next) => left.(w := H.Apply(s.w, H.Settle(q, Acquired)), granted := s.granted + [(next, 0)],
                                inFlight := s.inFlight + {next}))
    case Other(a) =>
      var next := s.(w := H.Apply(s.w, a));
      match Returner(s.w, a, q)
      case Some(c) => next.(resumed := s.resumed + 1, inFlight := s.inFlight - {c})
      case None => next
  }

  /** A freshly made semaphore, in any program that is already running. */
  ghost predicate Fresh(q: H.Queue, s: State) {
    && H.Reached(s.w) && Waiting(s.w, q) == [] && (forall c: Ctx :: Decided(s.w, q, c) == None)
    && s == State(s.w, s.initial, s.initial, 0, 0, 0, {}, [], [])
  }

  predicate IsRun(q: H.Queue, s: State, steps: seq<Step>)
    decreases |steps|
  {
    steps == [] || (Enabled(q, s, steps[0]) && IsRun(q, Apply(q, s, steps[0]), steps[1..]))
  }

  function After(q: H.Queue, s: State, steps: seq<Step>): State
    requires IsRun(q, s, steps)
    decreases |steps|
  {
    if steps == [] then s else After(q, Apply(q, s, steps[0]), steps[1..])
  }

  // ---------------------------------------------------------------- the invariant

  ghost predicate FlightsAreDecided(q: H.Queue, w: H.World, inFlight: set<Ctx>) {
    forall c: Ctx :: Decided(w, q, c) == if c in inFlight then Some(Acquired) else None
  }

  ghost predicate Ok(q: H.Queue, s: State) {
    && FlightsAreDecided(q, s.w, s.inFlight)
    && (s.count > 0 ==> Waiting(s.w, q) == [])
    && s.initial + s.released == s.count + s.taken + |s.granted|
    && |s.granted| == s.resumed + |s.inFlight|
    && s.arrived == s.granted + Waiting(s.w, q)
  }

  ghost predicate Inv(q: H.Queue, s: State) {
    H.Inv(s.w) && Ok(q, s)
  }

  lemma QueueOk(q: H.Queue, s: State, w': H.World, c: Ctx)
    requires Ok(q, s) && s.count == 0 && Joined(s.w, w', q, c, 0)
    ensures Ok(q, s.(w := w', arrived := s.arrived + [(c, 0)]))
  {
    assert s.granted + (Waiting(s.w, q) + [(c, 0)]) == s.granted + Waiting(s.w, q) + [(c, 0)];
  }

  lemma GrantOk(q: H.Queue, s: State, w': H.World, next: (Ctx, int))
    requires Ok(q, s) && Served(s.w, w', q, Acquired) && next == Waiting(s.w, q)[0]
    ensures Ok(q, s.(w := w', released := s.released + 1, granted := s.granted + [next],
                     inFlight := s.inFlight + {next.0}))
  {
    var rest := Waiting(s.w, q)[1..];
    assert Waiting(s.w, q) == [next] + rest;
    assert s.granted + ([next] + rest) == s.granted + [next] + rest;
    assert next.0 !in s.inFlight;
  }

  lemma PassOk(q: H.Queue, s: State, w': H.World, returner: Option<Ctx>)
    requires Ok(q, s) && Passed(s.w, w', q, returner)
    requires returner.Some? ==> Decided(s.w, q, returner.value).Some?
    ensures var s' := s.(w := w');
            Ok(q, if returner == None then s'
                  else s'.(resumed := s.resumed + 1, inFlight := s.inFlight - {returner.value}))
  {
  }

  /** Every registration of a semaphore offers 0, so a grant is known by its context. */
  ghost predicate OffersNothing(q: H.Queue, w: H.World) {
    forall k :: 0 <= k < |Waiting(w, q)| ==> Waiting(w, q)[k].1 == 0
  }

  lemma ReleaseInv(q: H.Queue, s: State, c: Ctx)
    requires Inv(q, s) && OffersNothing(q, s.w) && H.Is(s.w, c, H.Running)
    ensures Inv(q, Apply(q, s, DoRelease(c))) && OffersNothing(q, Apply(q, s, DoRelease(c)).w)
  {
    SettleServes(s.w, q, Acquired);
    if Waiting(s.w, q) != [] {
      GrantOk(q, s, H.Apply(s.w, H.Settle(q, Acquired)), Waiting(s.w, q)[0]);
    } else {
      assert s.granted + [] == s.granted;
    }
  }

  lemma AcquireInv(q: H.Queue, s: State, c: Ctx, mayPark: bool)
    requires Inv(q, s) && OffersNothing(q, s.w) && Enabled(q, s, DoAcquire(c, mayPark))
    ensures var s' := Apply(q, s, DoAcquire(c, mayPark)); Inv(q, s') && OffersNothing(q, s'.w)
  {
    if s.count == 0 && mayPark {
      RegisterJoins(s.w, c, q, 0);
      QueueOk(q, s, H.Apply(s.w, H.Register(c, q, 0)), c);
    }
  }

  lemma StepInv(q: H.Queue, s: State, step: Step)
    requires Inv(q, s) && OffersNothing(q, s.w) && Enabled(q, s, step)
    ensures Inv(q, Apply(q, s, step)) && OffersNothing(q, Apply(q, s, step).w)
  {
    match step
    case DoAcquire(c, mayPark) => AcquireInv(q, s, c, mayPark);
    case DoTryAcquire(_) =>
    case DoRelease(c) => ReleaseInv(q, s, c);
    case Other(a) =>
      OffPasses(s.w, a, q);
      PassOk(q, s, H.Apply(s.w, a), Returner(s.w, a, q));
  }

  lemma {:induction false} RunInv(q: H.Queue, s: State, steps: seq<Step>)
    requires Inv(q, s) && OffersNothing(q, s.w) && IsRun(q, s, steps)
    ensures Inv(q, After(q, s, steps))
    decreases |steps|
  {
    if steps != [] {
      StepInv(q, s, steps[0]);
      RunInv(q, Apply(q, s, steps[0]), steps[1..]);
    }
  }

  // ---------------------------------------------------------------- main results

  ghost predicate Reached(q: H.Queue, s: State) {
    exists s0, steps :: Fresh(q, s0) && IsRun(q, s0, steps) && After(q, s0, steps) == s
  }

  lemma ReachedInv(q: H.Queue, s: State)
    requires Reached(q, s)
    ensures Inv(q, s)
  {
    var s0, steps :| Fresh(q, s0) && IsRun(q, s0, steps) && After(q, s0, steps) == s;
    H.ReachedInv(s0.w);
    RunInv(q, s0, steps);
  }

  /** Permits are conserved: what was there at first and what was released is in the counter, or
      was acquired, or is on its way to exactly one acquirer per permit. */
  lemma PermitsConserved(q: H.Queue, s: State)
    requires Reached(q, s)
    ensures s.initial + s.released == s.count + (s.taken + s.resumed) + |s.inFlight|
    ensures forall c :: c in s.inFlight <==> Decided(s.w, q, c).Some?
  {
    ReachedInv(q, s);
  }

  /** A permit in the counter means nobody is waiting for one. */
  lemma WaitersMeanNoPermits(q: H.Queue, s: State)
    requires Reached(q, s) && FirstLive(H.At(s.w.queues, q)) < |H.At(s.w.queues, q)|
    ensures s.count == 0
  {
    ReachedInv(q, s);
    OffersEmpty(H.At(s.w.queues, q));
  }

  /** Handed-off permits go to the acquirers in the order they registered. */
  lemma GrantsAreFifo(q: H.Queue, s: State)
    requires Reached(q, s)
    ensures s.arrived == s.granted + Waiting(s.w, q)
  {
    ReachedInv(q, s);
  }

  /** A parked acquire resumes only on a permit that was handed to it, and uses it up. */
  lemma ResumedHasPermit(q: H.Queue, s: State, a: H.Action, c: Ctx)
    requires Reached(q, s) && Enabled(q, s, Other(a)) && Returner(s.w, a, q) == Some(c)
    ensures c in s.inFlight && c !in Apply(q, s, Other(a)).inFlight
    ensures Decided(s.w, q, c) == Some(Acquired) && Decided(Apply(q, s, Other(a)).w, q, c) == None
  {
    ReachedInv(q, s);
    OffPasses(s.w, a, q);
  }

  /** The steps are the slot's sections, and release owes exactly the wake its function returns. */
  lemma StepsAreSections(q: H.Queue, s: State, c: Ctx, mayPark: bool)
    requires Reached(q, s) && H.Is(s.w, c, H.Running)
    ensures Slot(q, Apply(q, s, DoAcquire(c, mayPark))) == AcquireSpec(Slot(q, s), c, mayPark).0
    ensures Slot(q, Apply(q, s, DoRelease(c))) == ReleaseSpec(Slot(q, s)).0
    ensures Apply(q, s, DoRelease(c)).w.wakes == s.w.wakes + Owed(q, ReleaseSpec(Slot(q, s)).1, Acquired)
  {
    ReachedInv(q, s);
    AcquireIsSection(q, s, c, mayPark);
    SettleOwes(s.w, q, Acquired);
    hide AcquireSpec;
  }

  lemma AcquireIsSection(q: H.Queue, s: State, c: Ctx, mayPark: bool)
    requires Inv(q, s) && H.Is(s.w, c, H.Running)
    ensures Slot(q, Apply(q, s, DoAcquire(c, mayPark))) == AcquireSpec(Slot(q, s), c, mayPark).0
  {
  }

  // ---------------------------------------------------------------- what each call does

  /** An acquire takes a permit when there is one; otherwise it waits in line, or changes nothing
      where it must not suspend. */
  lemma AcquireDoes(q: H.Queue, s: State, c: Ctx, mayPark: bool)
    requires Reached(q, s) && H.Is(s.w, c, H.Running)
    ensures var s' := Apply(q, s, DoAcquire(c, mayPark));
            var r := AcquireSpec(Slot(q, s), c, mayPark).1;
            if s.count > 0 then r == Taken && s' == s.(count := s.count - 1, taken := s.taken + 1)
            else if mayPark then
              && r == MustPark && s' == s.(w := s'.w, arrived := s.arrived + [(c, 0)])
              && Waiting(s'.w, q) == Waiting(s.w, q) + [(c, 0)] && InLine(s'.w, q, c)
              && H.Is(s'.w, c, H.Registered)
            else r == Refused && s' == s
  {
    hide H.Inv, H.Apply, InLine;
    ReachedInv(q, s);
    RegisterJoins(s.w, c, q, 0);
    RegisterLines(s.w, c, q, 0);
  }

  /** A tryAcquire takes a permit exactly when there is one, and never waits. */
  lemma TryAcquireDoes(q: H.Queue, s: State, c: Ctx)
    requires Reached(q, s) && H.Is(s.w, c, H.Running)
    ensures var s' := Apply(q, s, DoTryAcquire(c));
            && (TryAcquireSpec(Slot(q, s)).1 <==> s.count > 0)
            && s' == if s.count > 0 then s.(count := s.count - 1, taken := s.taken + 1) else s
  {
    ReachedInv(q, s);
  }

  /** A release hands its permit to the longest waiter, which is woken if it sleeps, and banks it
      when nobody waits. */
  lemma ReleaseDoes(q: H.Queue, s: State, c: Ctx)
    requires Reached(q, s) && H.Is(s.w, c, H.Running)
    ensures var s' := Apply(q, s, DoRelease(c));
            && s'.released == s.released + 1
            && (Waiting(s.w, q) == [] ==> s' == s.(count := s.count + 1, released := s.released + 1))
            && (Waiting(s.w, q) != [] ==>
                  var next := Waiting(s.w, q)[0].0;
                  && s'.count == 0 && s'.inFlight == s.inFlight + {next}
                  && Waiting(s'.w, q) == Waiting(s.w, q)[1..] && Decided(s'.w, q, next) == Some(Acquired)
                  && next in s.w.ctxs
                  && s'.w.wakes == s.w.wakes + (if H.Waits(s.w.ctxs[next]) then [H.Wake(next, q, Acquired)] else []))
  {
    hide H.Inv, H.Apply;
    ReachedInv(q, s);
    SettleServes(s.w, q, Acquired);
    if Waiting(s.w, q) != [] {
      SettleWakesSleeper(s.w, q, Acquired);
    }
  }
}
