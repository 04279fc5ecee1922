/** The stop-the-world rendezvous of the garbage collector: a thread registry with
    generation stamps, an executing bit per thread, one epoch in flight at a time, and
    arrival accounting that elects the last arriver as the collector.

    `State` is the value of the object's fields together with the thread-locals of every
    thread that ever registered here. Each function over `State` specifies one critical
    section; class `GcWorldStop` runs the same sections in place. What the protocol as a
    whole guarantees is proved in module WorldStopRuns. */
module WorldStop {
  import opened Wrappers

  type ThreadId = nat

  /** `stack` stands for the published evaluation-stack pointer. */
  datatype Entry = Entry(stack: int, executing: bool, live: bool, generation: nat)

  datatype Token = Token(generation: nat, index: nat)

  /** The thread-locals of one thread that point at this instance: the entry it was given
      (None once cleared) and the generation stamped at its registration. */
  datatype SelfSlot = SelfSlot(entry: Option<nat>, generation: nat)

  predicate Points(threads: seq<Entry>, selves: map<ThreadId, SelfSlot>, t: ThreadId) {
    t in selves && selves[t].entry.Some? && selves[t].entry.value < |threads|
  }

  /** The zombie discriminator: the entry is live and still carries this thread's stamp. */
  predicate IsCurrent(threads: seq<Entry>, selves: map<ThreadId, SelfSlot>, t: ThreadId) {
    && Points(threads, selves, t)
    && threads[selves[t].entry.value].live
    && threads[selves[t].entry.value].generation == selves[t].generation
  }

  /** A current thread whose executing bit is on. */
  predicate IsExecuting(threads: seq<Entry>, selves: map<ThreadId, SelfSlot>, t: ThreadId) {
    IsCurrent(threads, selves, t) && threads[selves[t].entry.value].executing
  }

  datatype State = State(
    requestEpoch: nat, completedEpoch: nat, expected: int, arrived: int,
    threads: seq<Entry>, freeIndices: seq<nat>, nextGeneration: nat,
    executingCount: int, stopActive: bool, stopCount: nat,
    selves: map<ThreadId, SelfSlot>)
  {
    /** Every stored index designates an entry: the registry never shrinks. */
    ghost predicate Wf() {
      && (forall k :: 0 <= k < |freeIndices| ==> freeIndices[k] < |threads|)
      && (forall t :: t in selves && selves[t].entry.Some? ==> selves[t].entry.value < |threads|)
    }

    predicate HasSelf(t: ThreadId) {
      Points(threads, selves, t)
    }

    function SelfIndex(t: ThreadId): nat
      requires HasSelf(t)
    {
      selves[t].entry.value
    }

    predicate Current(t: ThreadId) {
      IsCurrent(threads, selves, t)
    }

    predicate Executing(t: ThreadId) {
      IsExecuting(threads, selves, t)
    }

    predicate TokenLive(token: Token) {
      && token.generation != 0
      && token.index < |threads|
      && threads[token.index].live
      && threads[token.index].generation == token.generation
    }

    /** Membership as coded: liveness of whatever entry the pointer designates. */
    predicate ReportsRegistered(t: ThreadId) {
      HasSelf(t) && threads[SelfIndex(t)].live
    }
  }

  datatype RegisterOutcome = RegisterTripped | Registered(token: Token)
  datatype BeginOutcome = BeginTripped | BeginZombie | MustWait | Began
  datatype ArriveOutcome = ArriveTripped | NotLast | LastArriver

  const INITIAL := State(0, 0, 0, 0, [], [], 1, 0, false, 0, map[])

  function RegisterSpec(s: State, t: ThreadId, stack: int): (State, RegisterOutcome)
    requires s.Wf()
  {
    if s.ReportsRegistered(t) then
      (s, RegisterTripped)
    else
      var g := s.nextGeneration;
      var n := |s.freeIndices|;
      var e := Entry(stack, false, true, g);
      if n == 0 then
        (s.(nextGeneration := g + 1, threads := s.threads + [e],
            selves := s.selves[t := SelfSlot(Some(|s.threads|), g)]),
         Registered(Token(g, |s.threads|)))
      else
        var i := s.freeIndices[n - 1];
        (s.(nextGeneration := g + 1, threads := s.threads[i := e], freeIndices := s.freeIndices[..n - 1],
            selves := s.selves[t := SelfSlot(Some(i), g)]),
         Registered(Token(g, i)))
  }

  /** A stale token changes nothing; a token of a thread still executing trips. */
  function UnregisterSpec(s: State, t: ThreadId, token: Token): (r: (State, bool))
  {
    if !s.TokenLive(token) then
      (s, true)
    else if s.threads[token.index].executing then
      (s, false)
    else
      var cleared := s.HasSelf(t) && s.SelfIndex(t) == token.index;
      (s.(threads := s.threads[token.index := s.threads[token.index].(live := false)],
          freeIndices := s.freeIndices + [token.index],
          selves := if cleared then s.selves[t := s.selves[t].(entry := None)] else s.selves),
       true)
  }

  /** The flip that follows the wait; it does not look at the staleness of the entry again. */
  function FlipOnSpec(s: State, t: ThreadId): State
    requires s.HasSelf(t)
  {
    var i := s.SelfIndex(t);
    s.(executingCount := s.executingCount + 1, threads := s.threads[i := s.threads[i].(executing := true)])
  }

  /** The section up to the wait: MustWait means the caller now sleeps until no stop is in flight. */
  function BeginSpec(s: State, t: ThreadId): (State, BeginOutcome) {
    if !s.HasSelf(t) then (s, BeginTripped)
    else if !s.Current(t) then (s, BeginZombie)
    else if s.stopActive then (s, MustWait)
    else (FlipOnSpec(s, t), Began)
  }

  function FlipOffSpec(s: State, t: ThreadId): State
    requires s.HasSelf(t)
  {
    var i := s.SelfIndex(t);
    s.(executingCount := s.executingCount - 1, threads := s.threads[i := s.threads[i].(executing := false)])
  }

  function EndSpec(s: State, t: ThreadId): (State, ArriveOutcome) {
    if !s.HasSelf(t) then (s, ArriveTripped)
    else if !s.Current(t) then (s, NotLast)
    else if !s.Executing(t) then (s, ArriveTripped)
    else
      var off := FlipOffSpec(s, t);
      if !s.stopActive then (off, NotLast)
      else (off.(arrived := s.arrived + 1), if s.arrived + 1 == s.expected then LastArriver else NotLast)
  }

  function InitiateSpec(s: State, t: ThreadId): (State, ArriveOutcome) {
    if !s.Executing(t) then (s, ArriveTripped)
    else
      var req := if s.stopActive then s
                 else s.(requestEpoch := s.requestEpoch + 1, stopActive := true,
                         expected := s.executingCount, arrived := 0);
      (FlipOffSpec(req, t).(arrived := req.arrived + 1),
       if req.arrived + 1 == req.expected then LastArriver else NotLast)
  }

  /** The collector's quiescence gate; false is the tripwire. */
  predicate QuiescedSpec(s: State) {
    s.stopActive && s.arrived == s.expected
  }

  function CompleteSpec(s: State): State {
    s.(completedEpoch := if s.requestEpoch > s.completedEpoch then s.requestEpoch else s.completedEpoch,
       stopActive := false, stopCount := s.stopCount + 1)
  }

  function Retired(threads: seq<Entry>): (r: seq<Entry>)
    ensures |r| == |threads|
    ensures forall i :: 0 <= i < |r| ==> r[i] == threads[i].(live := false)
  {
    seq(|threads|, i requires 0 <= i < |threads| => threads[i].(live := false))
  }

  /** n-1, ..., 1, 0 */
  function Descending(n: nat): (r: seq<nat>)
    ensures |r| == n
    ensures forall k :: 0 <= k < n ==> r[k] == n - 1 - k
  {
    seq(n, k requires 0 <= k < n => n - 1 - k)
  }

  function ResetSpec(s: State): State {
    State(0, 0, 0, 0, Retired(s.threads), Descending(|s.threads|), s.nextGeneration, 0, false, 0, s.selves)
  }

  /** The published stacks of the live entries, in registration order. */
  function LiveStacks(threads: seq<Entry>): seq<int> {
    if threads == [] then []
    else
      var n := |threads| - 1;
      LiveStacks(threads[..n]) + (if threads[n].live then [threads[n].stack] else [])
  }

  /** The object itself. Each method is one critical section of the leaf mutex; the two
      waits on the condition variable are split into the section before the wait and the
      section after it, whose precondition is the wait predicate. */
  class GcWorldStop {
    var requestEpoch: nat
    var completedEpoch: nat
    var expected: int
    var arrived: int
    var threads: seq<Entry>
    var freeIndices: seq<nat>
    var nextGeneration: nat
    var executingCount: int
    var stopActive: bool
    var stopCount: nat
    var selves: map<ThreadId, SelfSlot>

    function View(): State
      reads this
    {
      State(requestEpoch, completedEpoch, expected, arrived, threads, freeIndices, nextGeneration,
            executingCount, stopActive, stopCount, selves)
    }

    ghost predicate Valid()
      reads this
    {
      View().Wf()
    }

    constructor ()
      ensures Valid() && View() == INITIAL
    {
      requestEpoch, completedEpoch, expected, arrived := 0, 0, 0, 0;
      threads, freeIndices, nextGeneration := [], [], 1;
      executingCount, stopActive, stopCount := 0, false, 0;
      selves := map[];
    }

    method RegisterThread(t: ThreadId, stack: int) returns (r: RegisterOutcome)
      requires Valid()
      modifies this
      ensures Valid()
      ensures (View(), r) == RegisterSpec(old(View()), t, stack)
    {
      if View().ReportsRegistered(t) {
        return RegisterTripped;
      }
      var generation := nextGeneration;
      nextGeneration := nextGeneration + 1;
      var index;
      if freeIndices == [] {
        index := |threads|;
        threads := threads + [Entry(stack, false, true, generation)];
      } else {
        index := freeIndices[|freeIndices| - 1];
        freeIndices := freeIndices[..|freeIndices| - 1];
        threads := threads[index := Entry(stack, false, true, generation)];
      }
      selves := selves[t := SelfSlot(Some(index), generation)];
      r := Registered(Token(generation, index));
    }

    method UnregisterThread(t: ThreadId, token: Token) returns (ok: bool)
      requires Valid()
      modifies this
      ensures Valid()
      ensures (View(), ok) == UnregisterSpec(old(View()), t, token)
    {
      if token.generation == 0 || token.index >= |threads| {
        return true;
      }
      var entry := threads[token.index];
      if !entry.live || entry.generation != token.generation {
        return true;
      }
      if entry.executing {
        return false;
      }
      threads := threads[token.index := entry.(live := false)];
      freeIndices := freeIndices + [token.index];
      if t in selves && selves[t].entry == Some(token.index) {
        selves := selves[t := selves[t].(entry := None)];
      }
      ok := true;
    }

    method BeginExecuting(t: ThreadId) returns (r: BeginOutcome)
      requires Valid()
      modifies this
      ensures Valid()
      ensures (View(), r) == BeginSpec(old(View()), t)
    {
      if !View().HasSelf(t) {
        return BeginTripped;
      }
      if !View().Current(t) {
        return BeginZombie;
      }
      if stopActive {
        return MustWait;
      }
      ResumeBegin(t);
      r := Began;
    }

    /** The continuation of BeginExecuting once the wait predicate holds. */
    method ResumeBegin(t: ThreadId)
      requires Valid() && View().HasSelf(t) && !stopActive
      modifies this
      ensures Valid()
      ensures View() == FlipOnSpec(old(View()), t)
    {
      var i := selves[t].entry.value;
      executingCount := executingCount + 1;
      threads := threads[i := threads[i].(executing := true)];
    }

    method EndExecuting(t: ThreadId) returns (r: ArriveOutcome)
      requires Valid()
      modifies this
      ensures Valid()
      ensures (View(), r) == EndSpec(old(View()), t)
    {
      if !View().HasSelf(t) {
        return ArriveTripped;
      }
      if !View().Current(t) {
        return NotLast;
      }
      var i := selves[t].entry.value;
      if !threads[i].executing {
        return ArriveTripped;
      }
      threads := threads[i := threads[i].(executing := false)];
      executingCount := executingCount - 1;
      if !stopActive {
        return NotLast;
      }
      arrived := arrived + 1;
      r := if arrived == expected then LastArriver else NotLast;
    }

    method InitiateAndArrive(t: ThreadId) returns (r: ArriveOutcome)
      requires Valid()
      modifies this
      ensures Valid()
      ensures (View(), r) == InitiateSpec(old(View()), t)
    {
      if !View().Executing(t) {
        return ArriveTripped;
      }
      var i := selves[t].entry.value;
      if !stopActive {
        requestEpoch := requestEpoch + 1;
        stopActive := true;
        expected := executingCount;
        arrived := 0;
      }
      threads := threads[i := threads[i].(executing := false)];
      executingCount := executingCount - 1;
      arrived := arrived + 1;
      r := if arrived == expected then LastArriver else NotLast;
    }

    method Complete()
      requires Valid()
      modifies this
      ensures Valid()
      ensures View() == CompleteSpec(old(View()))
    {
      if requestEpoch > completedEpoch {
        completedEpoch := requestEpoch;
      }
      stopActive := false;
      stopCount := stopCount + 1;
    }

    method Reset()
      requires Valid()
      modifies this
      ensures Valid()
      ensures View() == ResetSpec(old(View()))
    {
      requestEpoch, completedEpoch, expected, arrived := 0, 0, 0, 0;
      executingCount, stopActive, stopCount := 0, false, 0;
      ghost var was := threads;
      var i := 0;
      while i < |threads|
        invariant 0 <= i <= |threads| == |was|
        invariant forall k :: 0 <= k < i ==> threads[k] == was[k].(live := false)
        invariant forall k :: i <= k < |was| ==> threads[k] == was[k]
        invariant unchanged(`nextGeneration) && unchanged(`selves)
        invariant requestEpoch == completedEpoch == expected == arrived == executingCount == stopCount == 0
        invariant !stopActive
      {
        threads := threads[i := threads[i].(live := false)];
        i := i + 1;
      }
      assert threads == Retired(was);
      freeIndices := [];
      var j := |threads|;
      while j > 0
        invariant 0 <= j <= |threads|
        invariant threads == Retired(was)
        invariant |freeIndices| == |threads| - j
        invariant forall k :: 0 <= k < |freeIndices| ==> freeIndices[k] == |threads| - 1 - k
        invariant unchanged(`nextGeneration) && unchanged(`selves)
        invariant requestEpoch == completedEpoch == expected == arrived == executingCount == stopCount == 0
        invariant !stopActive
      {
        j := j - 1;
        freeIndices := freeIndices + [j];
      }
      assert freeIndices == Descending(|was|);
    }

    method RegisteredStacks() returns (roots: seq<int>)
      requires Valid()
      ensures roots == LiveStacks(threads)
    {
      roots := [];
      var i := 0;
      while i < |threads|
        invariant 0 <= i <= |threads|
        invariant roots == LiveStacks(threads[..i])
      {
        assert threads[..i + 1][..i] == threads[..i];
        if threads[i].live {
          roots := roots + [threads[i].stack];
        }
        i := i + 1;
      }
      assert threads[..i] == threads;
    }
  }
}
