/** Runs of the rendezvous: any number of threads take the critical sections of module
    WorldStop in any order, as long as each caller keeps the obligations of `Enabled`. */
module WorldStopRuns {
  import opened Wrappers
  import opened WorldStop

  /** Where a thread is inside the object: outside it, asleep in BeginExecuting, or asleep
      in WaitForCompletion on the epoch it read at entry. */
  datatype Pc = Free | InBegin | InWait(epoch: nat)

  /** The object plus what its callers know. `collector` is the thread whose arrival
      returned true and that has not completed yet, `elections` the epochs of all such
      returns, `owner` the thread each generation was issued to. */
  datatype System = System(
    st: State, pcs: map<ThreadId, Pc>, collector: Option<ThreadId>,
    ghost elections: seq<nat>, ghost owner: map<nat, ThreadId>)
  {
    function PcOf(t: ThreadId): Pc {
      if t in pcs then pcs[t] else Free
    }
  }

  datatype Action =
    | Register(t: ThreadId, stack: int)
    | Unregister(t: ThreadId, token: Token)
    | Begin(t: ThreadId)
    | ResumeBegin(t: ThreadId)
    | End(t: ThreadId)
    | Initiate(t: ThreadId)
    | Wait(t: ThreadId)
    | ResumeWait(t: ThreadId)
    | Complete(t: ThreadId)
    | Reset

  ghost const START := System(INITIAL, map[], None, [], map[])

  /** What the object demands of its callers. A sleeping thread calls nothing; the elected
      collector completes before it starts executing or waits again; nobody completes over
      an elected collector's head; a thread retires only its own entry; and Reset runs
      between runs, when nobody is asleep inside the object (see ResetExact). */
  ghost predicate Enabled(y: System, a: Action) {
    match a
    case Register(t, _) => y.PcOf(t) == Free && !y.st.ReportsRegistered(t)
    case Unregister(t, token) =>
      && y.PcOf(t) == Free
      && (y.st.TokenLive(token) ==>
            y.st.HasSelf(t) && y.st.selves[t] == SelfSlot(Some(token.index), token.generation)
            && !y.st.Executing(t))
    case Begin(t) => y.PcOf(t) == Free && y.st.HasSelf(t) && !y.st.Executing(t) && y.collector != Some(t)
    case ResumeBegin(t) => y.PcOf(t) == InBegin && y.st.HasSelf(t) && !y.st.stopActive
    case End(t) => y.PcOf(t) == Free && y.st.HasSelf(t) && (y.st.Current(t) ==> y.st.Executing(t))
    case Initiate(t) => y.PcOf(t) == Free && y.st.Executing(t)
    case Wait(t) => y.PcOf(t) == Free && !y.st.Executing(t) && y.collector != Some(t)
    case ResumeWait(t) => y.PcOf(t).InWait? && y.st.completedEpoch >= y.PcOf(t).epoch
    case Complete(t) => y.PcOf(t) == Free && (y.collector == None || y.collector == Some(t))
    case Reset => NobodyAsleep(y)
  }

  /** Nobody sleeps in BeginExecuting, nor in WaitForCompletion on an epoch ever requested. */
  ghost predicate NobodyAsleep(y: System) {
    forall t :: t in y.pcs ==> y.pcs[t] == Free || y.pcs[t] == InWait(0)
  }

  ghost function Arrival(y: System, t: ThreadId, next: (State, ArriveOutcome)): System {
    if next.1 == LastArriver then
      y.(st := next.0, collector := Some(t), elections := y.elections + [next.0.requestEpoch])
    else
      y.(st := next.0)
  }

  ghost function Apply(y: System, a: Action): System
    requires y.st.Wf() && Enabled(y, a)
  {
    match a
    case Register(t, stack) =>
      var (s, r) := RegisterSpec(y.st, t, stack);
      y.(st := s, owner := y.owner[y.st.nextGeneration := t])
    case Unregister(t, token) => y.(st := UnregisterSpec(y.st, t, token).0)
    case Begin(t) =>
      var (s, r) := BeginSpec(y.st, t);
      if r == MustWait then y.(pcs := y.pcs[t := InBegin]) else y.(st := s)
    case ResumeBegin(t) => y.(st := FlipOnSpec(y.st, t), pcs := y.pcs[t := Free])
    case End(t) => Arrival(y, t, EndSpec(y.st, t))
    case Initiate(t) => Arrival(y, t, InitiateSpec(y.st, t))
    case Wait(t) => y.(pcs := y.pcs[t := InWait(y.st.requestEpoch)])
    case ResumeWait(t) => y.(pcs := y.pcs[t := Free])
    case Complete(t) => y.(st := CompleteSpec(y.st), collector := None)
    case Reset => AfterReset(y)
  }

  ghost function AfterReset(y: System): System {
    y.(st := ResetSpec(y.st), collector := None, elections := [])
  }

  ghost predicate IsRun(y: System, acts: seq<Action>)
    decreases |acts|
  {
    acts == [] || (y.st.Wf() && Enabled(y, acts[0]) && IsRun(Apply(y, acts[0]), acts[1..]))
  }

  ghost function After(y: System, acts: seq<Action>): System
    requires IsRun(y, acts)
    decreases |acts|
  {
    if acts == [] then y else After(Apply(y, acts[0]), acts[1..])
  }

  // ---------------------------------------------------------------- the invariant

  /** The number of live entries whose executing bit is on. */
  ghost function Busy(threads: seq<Entry>): nat {
    if threads == [] then 0
    else
      var n := |threads| - 1;
      Busy(threads[..n]) + (if threads[n].live && threads[n].executing then 1 else 0)
  }

  ghost predicate Counted(s: State) {
    && s.executingCount == Busy(s.threads)
    && (s.stopActive ==> s.arrived + s.executingCount == s.expected && s.arrived >= 1)
    && s.requestEpoch == s.completedEpoch + (if s.stopActive then 1 else 0)
  }

  /** Generations are issued once: no two entries share one, and each stamp a thread holds
      was issued to that thread. */
  ghost predicate Stamped(threads: seq<Entry>, selves: map<ThreadId, SelfSlot>, next: nat,
                          owner: map<nat, ThreadId>)
  {
    && next > 0
    && (forall i :: 0 <= i < |threads| ==> 0 < threads[i].generation < next)
    && (forall i, j :: 0 <= i < j < |threads| ==> threads[i].generation != threads[j].generation)
    && (forall t :: t in selves ==>
          && 0 < selves[t].generation < next
          && selves[t].generation in owner
          && owner[selves[t].generation] == t)
  }

  /** Every live entry belongs to the one thread its generation was issued to. */
  ghost predicate Owned(threads: seq<Entry>, selves: map<ThreadId, SelfSlot>, owner: map<nat, ThreadId>) {
    forall i :: 0 <= i < |threads| && threads[i].live ==>
      && threads[i].generation in owner
      && owner[threads[i].generation] in selves
      && selves[owner[threads[i].generation]] == SelfSlot(Some(i), threads[i].generation)
  }

  /** Live and free indices partition the registry. */
  ghost predicate Partitioned(threads: seq<Entry>, free: seq<nat>) {
    && (forall k :: 0 <= k < |free| ==> free[k] < |threads| && !threads[free[k]].live)
    && (forall i :: 0 <= i < |threads| && !threads[i].live ==> i in free)
    && (forall k, l :: 0 <= k < l < |free| ==> free[k] != free[l])
  }

  ghost predicate Sleepers(threads: seq<Entry>, selves: map<ThreadId, SelfSlot>, pcs: map<ThreadId, Pc>,
                           requestEpoch: nat)
  {
    forall t :: t in pcs ==>
      && (pcs[t] == InBegin ==> IsCurrent(threads, selves, t) && !IsExecuting(threads, selves, t))
      && (pcs[t].InWait? ==> pcs[t].epoch <= requestEpoch && !IsExecuting(threads, selves, t))
  }

  ghost predicate CollectorIdle(threads: seq<Entry>, selves: map<ThreadId, SelfSlot>, pcs: map<ThreadId, Pc>,
                                collector: Option<ThreadId>)
  {
    collector.Some? ==>
      && (collector.value in pcs ==> pcs[collector.value] == Free)
      && !IsExecuting(threads, selves, collector.value)
  }

  /** A collector is elected exactly while the stop in flight has every arrival it waits
      for, and no epoch elects twice. */
  ghost predicate Elected(s: State, collector: Option<ThreadId>, elections: seq<nat>) {
    && (collector.Some? <==> s.stopActive && s.arrived == s.expected)
    && (forall k, l :: 0 <= k < l < |elections| ==> elections[k] < elections[l])
    && (forall k :: 0 <= k < |elections| ==> elections[k] <= s.requestEpoch)
    && (s.stopActive && collector == None ==> s.requestEpoch !in elections)
  }

  ghost predicate Inv(y: System) {
    && y.st.Wf()
    && Counted(y.st)
    && Stamped(y.st.threads, y.st.selves, y.st.nextGeneration, y.owner)
    && Owned(y.st.threads, y.st.selves, y.owner)
    && Partitioned(y.st.threads, y.st.freeIndices)
    && Sleepers(y.st.threads, y.st.selves, y.pcs, y.st.requestEpoch)
    && CollectorIdle(y.st.threads, y.st.selves, y.pcs, y.collector)
    && Elected(y.st, y.collector, y.elections)
  }

  // ---------------------------------------------------------------- counting

  lemma {:induction false} BusyUpdate(threads: seq<Entry>, i: nat, e: Entry)
    requires i < |threads|
    ensures Busy(threads[i := e]) == Busy(threads)
              - (if threads[i].live && threads[i].executing then 1 else 0)
              + (if e.live && e.executing then 1 else 0)
  {
    var n := |threads| - 1;
    if i == n {
      assert threads[i := e][..n] == threads[..n];
    } else {
      assert threads[i := e][..n] == threads[..n][i := e];
      BusyUpdate(threads[..n], i, e);
    }
  }

  lemma {:induction false} BusyPositive(threads: seq<Entry>, i: nat)
    requires i < |threads| && threads[i].live && threads[i].executing
    ensures Busy(threads) > 0
  {
    if i < |threads| - 1 {
      BusyPositive(threads[..|threads| - 1], i);
    }
  }

  lemma {:induction false} BusyWitness(threads: seq<Entry>) returns (i: nat)
    requires Busy(threads) > 0
    ensures i < |threads| && threads[i].live && threads[i].executing
  {
    var n := |threads| - 1;
    if threads[n].live && threads[n].executing {
      i := n;
    } else {
      i := BusyWitness(threads[..n]);
    }
  }

  lemma {:induction false} BusyNoneLive(threads: seq<Entry>)
    requires forall i :: 0 <= i < |threads| ==> !threads[i].live
    ensures Busy(threads) == 0
  {
    if threads != [] {
      BusyNoneLive(threads[..|threads| - 1]);
    }
  }

  // ---------------------------------------------------------------- preservation

  /** Issuing a fresh generation at index `i` (a free one, or one past the end). */
  lemma RegisterShape(threads: seq<Entry>, selves: map<ThreadId, SelfSlot>, next: nat, owner: map<nat, ThreadId>,
                      t: ThreadId, i: nat, e: Entry)
    requires Stamped(threads, selves, next, owner) && Owned(threads, selves, owner)
    requires i <= |threads| && (i < |threads| ==> !threads[i].live)
    requires e.generation == next && e.live && !e.executing
    requires !(Points(threads, selves, t) && threads[selves[t].entry.value].live)
    ensures var threads' := if i < |threads| then threads[i := e] else threads + [e];
            var selves' := selves[t := SelfSlot(Some(i), next)];
            && Stamped(threads', selves', next + 1, owner[next := t])
            && Owned(threads', selves', owner[next := t])
            && Busy(threads') == Busy(threads)
  {
    var threads' := if i < |threads| then threads[i := e] else threads + [e];
    RegisterStamped(threads, threads', selves, next, owner, t, i, e);
    RegisterOwned(threads, threads', selves, next, owner, t, i, e);
    hide Stamped, Owned;
    if i < |threads| {
      BusyUpdate(threads, i, e);
    } else {
      assert (threads + [e])[..|threads|] == threads;
    }
  }

  lemma RegisterStamped(threads: seq<Entry>, threads': seq<Entry>, selves: map<ThreadId, SelfSlot>, next: nat,
                        owner: map<nat, ThreadId>, t: ThreadId, i: nat, e: Entry)
    requires Stamped(threads, selves, next, owner) && e.generation == next
    requires |threads| <= |threads'| && i < |threads'| <= |threads| + 1 && (|threads'| > |threads| ==> i == |threads|)
    requires forall j :: 0 <= j < |threads'| ==> threads'[j] == if j == i then e else threads[j]
    ensures Stamped(threads', selves[t := SelfSlot(Some(i), next)], next + 1, owner[next := t])
  {
  }

  lemma RegisterOwned(threads: seq<Entry>, threads': seq<Entry>, selves: map<ThreadId, SelfSlot>, next: nat,
                      owner: map<nat, ThreadId>, t: ThreadId, i: nat, e: Entry)
    requires Stamped(threads, selves, next, owner) && Owned(threads, selves, owner) && e.generation == next
    requires |threads| <= |threads'| && i < |threads'| <= |threads| + 1 && (|threads'| > |threads| ==> i == |threads|)
    requires forall j :: 0 <= j < |threads'| ==> threads'[j] == if j == i then e else threads[j]
    requires !(Points(threads, selves, t) && threads[selves[t].entry.value].live)
    ensures Owned(threads', selves[t := SelfSlot(Some(i), next)], owner[next := t])
  {
    forall j | 0 <= j < |threads'| && j != i && threads'[j].live
      ensures threads'[j].generation in owner && owner[threads'[j].generation] in selves
                && owner[threads'[j].generation] != t
      ensures selves[owner[threads'[j].generation]] == SelfSlot(Some(j), threads[j].generation)
    {
      assert threads[j].live;
    }
  }

  /** A thread that sleeps or collects keeps its own standing when another registers. */
  lemma RegisterStanding(threads: seq<Entry>, selves: map<ThreadId, SelfSlot>, t: ThreadId, i: nat, e: Entry)
    requires i <= |threads| && (i < |threads| ==> !threads[i].live) && e.live && !e.executing
    requires !(Points(threads, selves, t) && threads[selves[t].entry.value].live)
    requires forall v :: v in selves && selves[v].entry.Some? ==> selves[v].entry.value < |threads|
    requires forall v :: v in selves ==> selves[v].generation < e.generation
    ensures var threads' := if i < |threads| then threads[i := e] else threads + [e];
            var selves' := selves[t := SelfSlot(Some(i), e.generation)];
            && (forall u :: u != t ==> IsCurrent(threads', selves', u) == IsCurrent(threads, selves, u))
            && (forall u :: IsExecuting(threads', selves', u) == IsExecuting(threads, selves, u))
  {
  }

  lemma StandingFrame(s: State, s': State, pcs: map<ThreadId, Pc>, collector: Option<ThreadId>, t: ThreadId)
    requires Sleepers(s.threads, s.selves, pcs, s.requestEpoch)
    requires CollectorIdle(s.threads, s.selves, pcs, collector)
    requires s'.requestEpoch >= s.requestEpoch
    requires t in pcs ==> pcs[t] == Free
    requires forall u :: u != t ==> IsCurrent(s'.threads, s'.selves, u) == IsCurrent(s.threads, s.selves, u)
    requires forall u :: IsExecuting(s'.threads, s'.selves, u) ==> IsExecuting(s.threads, s.selves, u)
    ensures Sleepers(s'.threads, s'.selves, pcs, s'.requestEpoch)
    ensures CollectorIdle(s'.threads, s'.selves, pcs, collector)
  {
  }

  lemma StampsBelow(threads: seq<Entry>, selves: map<ThreadId, SelfSlot>, next: nat, owner: map<nat, ThreadId>)
    requires Stamped(threads, selves, next, owner)
    ensures forall v :: v in selves ==> selves[v].generation < next
  {
  }

  lemma FreeBelow(threads: seq<Entry>, free: seq<nat>)
    requires Partitioned(threads, free)
    ensures forall k :: 0 <= k < |free| ==> free[k] < |threads|
  {
  }

  lemma RegisterAt(y: System, t: ThreadId, i: nat, e: Entry, s': State)
    requires Inv(y) && y.PcOf(t) == Free && !y.st.ReportsRegistered(t)
    requires e.generation == y.st.nextGeneration && e.live && !e.executing
    requires i <= |y.st.threads| && (i < |y.st.threads| ==> !y.st.threads[i].live)
    requires s' == y.st.(nextGeneration := e.generation + 1, freeIndices := s'.freeIndices,
                         threads := if i < |y.st.threads| then y.st.threads[i := e] else y.st.threads + [e],
                         selves := y.st.selves[t := SelfSlot(Some(i), e.generation)])
    requires Partitioned(s'.threads, s'.freeIndices)
    ensures Inv(y.(st := s', owner := y.owner[e.generation := t]))
  {
    hide Stamped, Owned, Partitioned, Sleepers, CollectorIdle;
    var s := y.st;
    RegisterShape(s.threads, s.selves, s.nextGeneration, y.owner, t, i, e);
    StampsBelow(s.threads, s.selves, s.nextGeneration, y.owner);
    FreeBelow(s'.threads, s'.freeIndices);
    RegisterStanding(s.threads, s.selves, t, i, e);
    StandingFrame(s, s', y.pcs, y.collector, t);
  }

  lemma RegisterInv(y: System, t: ThreadId, stack: int)
    requires Inv(y) && Enabled(y, Register(t, stack))
    ensures Inv(Apply(y, Register(t, stack)))
  {
    var s, s' := y.st, RegisterSpec(y.st, t, stack).0;
    var e := Entry(stack, false, true, s.nextGeneration);
    RegisterFree(s.threads, s.freeIndices, e);
    RegisterAt(y, t, if s.freeIndices == [] then |s.threads| else s.freeIndices[|s.freeIndices| - 1], e, s');
  }

  lemma RegisterFree(threads: seq<Entry>, free: seq<nat>, e: Entry)
    requires Partitioned(threads, free) && e.live
    ensures free == [] ==> Partitioned(threads + [e], free)
    ensures free != [] ==> Partitioned(threads[free[|free| - 1] := e], free[..|free| - 1])
  {
    if free != [] {
      var i := free[|free| - 1];
      forall j | 0 <= j < |threads| && j != i && !threads[j].live
        ensures j in free[..|free| - 1]
      {
        assert j in free;
      }
    }
  }

  /** Retiring the entry a thread owns: nobody else's standing changes. */
  lemma RetireShape(threads: seq<Entry>, free: seq<nat>, selves: map<ThreadId, SelfSlot>, next: nat,
                    owner: map<nat, ThreadId>, t: ThreadId)
    requires Stamped(threads, selves, next, owner) && Owned(threads, selves, owner) && Partitioned(threads, free)
    requires IsCurrent(threads, selves, t) && !IsExecuting(threads, selves, t)
    ensures var i := selves[t].entry.value;
            var threads' := threads[i := threads[i].(live := false)];
            var selves' := selves[t := selves[t].(entry := None)];
            && Stamped(threads', selves', next, owner)
            && Owned(threads', selves', owner)
            && Partitioned(threads', free + [i])
            && Busy(threads') == Busy(threads)
            && (forall u :: u != t ==> IsCurrent(threads', selves', u) == IsCurrent(threads, selves, u))
            && (forall u :: IsExecuting(threads', selves', u) == IsExecuting(threads, selves, u))
  {
    var i := selves[t].entry.value;
    BusyUpdate(threads, i, threads[i].(live := false));
    OneOwner(threads, selves, next, owner, t);
  }

  /** Two current threads never share an entry. */
  lemma OneOwner(threads: seq<Entry>, selves: map<ThreadId, SelfSlot>, next: nat,
                 owner: map<nat, ThreadId>, t: ThreadId)
    requires Stamped(threads, selves, next, owner) && IsCurrent(threads, selves, t)
    ensures forall u :: u != t && IsCurrent(threads, selves, u) ==> selves[u].entry != selves[t].entry
  {
  }

  lemma UnregisterInv(y: System, t: ThreadId, token: Token)
    requires Inv(y) && Enabled(y, Unregister(t, token))
    ensures Inv(Apply(y, Unregister(t, token)))
  {
    if y.st.TokenLive(token) {
      RetireShape(y.st.threads, y.st.freeIndices, y.st.selves, y.st.nextGeneration, y.owner, t);
    }
  }

  /** Flipping a current thread's bit: nobody else's standing changes. */
  lemma FlipShape(threads: seq<Entry>, free: seq<nat>, selves: map<ThreadId, SelfSlot>, next: nat,
                  owner: map<nat, ThreadId>, t: ThreadId, on: bool)
    requires Stamped(threads, selves, next, owner) && Owned(threads, selves, owner) && Partitioned(threads, free)
    requires IsCurrent(threads, selves, t) && on != IsExecuting(threads, selves, t)
    ensures var i := selves[t].entry.value;
            var threads' := threads[i := threads[i].(executing := on)];
            && Stamped(threads', selves, next, owner)
            && Owned(threads', selves, owner)
            && Partitioned(threads', free)
            && Busy(threads') == Busy(threads) + (if on then 1 else -1)
            && (forall u :: IsCurrent(threads', selves, u) == IsCurrent(threads, selves, u))
            && (forall u :: IsExecuting(threads', selves, u) == if u == t then on else IsExecuting(threads, selves, u))
  {
    var i := selves[t].entry.value;
    BusyUpdate(threads, i, threads[i].(executing := on));
    OneOwner(threads, selves, next, owner, t);
  }

  lemma BeginInv(y: System, t: ThreadId)
    requires Inv(y) && Enabled(y, Begin(t))
    ensures Inv(Apply(y, Begin(t)))
  {
    if y.st.Current(t) && !y.st.stopActive {
      FlipShape(y.st.threads, y.st.freeIndices, y.st.selves, y.st.nextGeneration, y.owner, t, true);
    }
  }

  lemma ResumeBeginInv(y: System, t: ThreadId)
    requires Inv(y) && Enabled(y, ResumeBegin(t))
    ensures Inv(Apply(y, ResumeBegin(t)))
  {
    FlipShape(y.st.threads, y.st.freeIndices, y.st.selves, y.st.nextGeneration, y.owner, t, true);
  }

  /** An arrival at a stop whose collector is not elected yet. */
  lemma ArrivalElects(s: State, elections: seq<nat>, t: ThreadId)
    requires Elected(s, None, elections) && s.stopActive
    ensures s.arrived + 1 != s.expected ==> Elected(s.(arrived := s.arrived + 1), None, elections)
    ensures s.arrived + 1 == s.expected ==>
              Elected(s.(arrived := s.arrived + 1), Some(t), elections + [s.requestEpoch])
  {
  }

  lemma EndInv(y: System, t: ThreadId)
    requires Inv(y) && Enabled(y, End(t))
    ensures Inv(Apply(y, End(t)))
  {
    if y.st.Current(t) {
      var s, y' := y.st, Apply(y, End(t));
      FlipShape(s.threads, s.freeIndices, s.selves, s.nextGeneration, y.owner, t, false);
      BusyPositive(s.threads, s.SelfIndex(t));
      StandingFrame(s, y'.st, y.pcs, y.collector, t);
      if s.stopActive {
        var off := FlipOffSpec(s, t);
        assert Elected(off, None, y.elections);
        ArrivalElects(off, y.elections, t);
      }
    }
  }

  /** The first requester fixes the arrivals to wait for; every requester is itself an arrival. */
  lemma InitiateCounts(s: State, elections: seq<nat>, t: ThreadId)
    requires s.Executing(t) && Counted(s) && Elected(s, None, elections)
    requires Busy(FlipOffSpec(s, t).threads) == Busy(s.threads) - 1
    ensures var (s', r) := InitiateSpec(s, t);
            && Counted(s')
            && if r == LastArriver then Elected(s', Some(t), elections + [s'.requestEpoch])
                 else Elected(s', None, elections)
  {
    hide Busy;
    var req := if s.stopActive then s
               else s.(requestEpoch := s.requestEpoch + 1, stopActive := true,
                       expected := s.executingCount, arrived := 0);
    var off := FlipOffSpec(req, t);
    assert Elected(off, None, elections);
    ArrivalElects(off, elections, t);
  }

  /** What an initiation leaves alone. */
  lemma InitiateFrame(y: System, t: ThreadId)
    requires y.st.Wf() && Enabled(y, Initiate(t))
    ensures var s, y' := y.st, Apply(y, Initiate(t));
            && y'.pcs == y.pcs && y'.owner == y.owner && y'.st.threads == FlipOffSpec(s, t).threads
            && y'.st.selves == s.selves && y'.st.freeIndices == s.freeIndices
                 && y'.st.nextGeneration == s.nextGeneration
            && y'.st.requestEpoch >= s.requestEpoch && y'.st.Wf()
  {
  }

  lemma InitiateInv(y: System, t: ThreadId)
    requires Inv(y) && Enabled(y, Initiate(t))
    ensures Inv(Apply(y, Initiate(t)))
  {
    var s, y' := y.st, Apply(y, Initiate(t));
    FlipShape(s.threads, s.freeIndices, s.selves, s.nextGeneration, y.owner, t, false);
    BusyPositive(s.threads, s.SelfIndex(t));
    assert y.collector == None;
    InitiateCounts(s, y.elections, t);
    InitiateFrame(y, t);
    hide Stamped, Owned, Partitioned, Busy, Elected, Counted, Sleepers, InitiateSpec;
    StandingFrame(s, y'.st, y.pcs, y.collector, t);
  }

  lemma ResetInv(y: System)
    requires Inv(y) && Enabled(y, Reset)
    ensures Inv(Apply(y, Reset))
  {
    var s' := ResetSpec(y.st);
    BusyNoneLive(s'.threads);
    forall i | 0 <= i < |s'.threads|
      ensures i in s'.freeIndices
    {
      assert s'.freeIndices[|s'.threads| - 1 - i] == i;
    }
  }

  lemma StepInv(y: System, a: Action)
    requires Inv(y) && Enabled(y, a)
    ensures Inv(Apply(y, a))
  {
    match a
    case Register(t, stack) => RegisterInv(y, t, stack);
    case Unregister(t, token) => UnregisterInv(y, t, token);
    case Begin(t) => BeginInv(y, t);
    case ResumeBegin(t) => ResumeBeginInv(y, t);
    case End(t) => EndInv(y, t);
    case Initiate(t) => InitiateInv(y, t);
    case Wait(t) =>
    case ResumeWait(t) =>
    case Complete(t) =>
    case Reset => ResetInv(y);
  }

  lemma {:induction false} RunInv(y: System, acts: seq<Action>)
    requires Inv(y) && IsRun(y, acts)
    ensures Inv(After(y, acts))
    decreases |acts|
  {
    if acts != [] {
      StepInv(y, acts[0]);
      RunInv(Apply(y, acts[0]), acts[1..]);
    }
  }

  // ---------------------------------------------------------------- main results

  /** Over every run: the denominator adds up while a stop is in flight, the two epochs are
      one stop apart, and no epoch has two collectors. */
  lemma RendezvousAddsUp(acts: seq<Action>)
    requires IsRun(START, acts)
    ensures var y := After(START, acts);
            && y.st.executingCount == Busy(y.st.threads)
            && (y.st.stopActive ==> y.st.arrived + Busy(y.st.threads) == y.st.expected)
            && y.st.requestEpoch == y.st.completedEpoch + (if y.st.stopActive then 1 else 0)
            && (forall k, l :: 0 <= k < l < |y.elections| ==> y.elections[k] != y.elections[l])
            && Partitioned(y.st.threads, y.st.freeIndices)
            && (forall i, j :: 0 <= i < j < |y.st.threads| ==>
                  y.st.threads[i].generation != y.st.threads[j].generation)
  {
    RunInv(START, acts);
  }

  /** From the arrival that elected a collector until it completes, whatever else happens,
      the quiescence gate passes and no current thread executes. */
  lemma {:induction false} QuiescentUntilComplete(y: System, acts: seq<Action>)
    requires Inv(y) && y.collector.Some? && IsRun(y, acts)
    requires forall k :: 0 <= k < |acts| ==> !acts[k].Complete? && !acts[k].Reset?
    ensures var z := After(y, acts);
            && z.collector == y.collector
            && QuiescedSpec(z.st)
            && z.st.requestEpoch == y.st.requestEpoch
            && (forall t :: !z.st.Executing(t))
    decreases |acts|
  {
    NobodyExecutes(y);
    if acts != [] {
      StepInv(y, acts[0]);
      QuiescentUntilComplete(Apply(y, acts[0]), acts[1..]);
    }
  }

  lemma NobodyExecutes(y: System)
    requires Inv(y) && y.collector.Some?
    ensures forall t :: !y.st.Executing(t)
  {
    forall t
      ensures !y.st.Executing(t)
    {
      if y.st.Executing(t) {
        BusyPositive(y.st.threads, y.st.SelfIndex(t));
      }
    }
  }

  /** While a stop is in flight nobody joins the denominator: a step either leaves the
      count alone or is an arrival that takes one away. */
  lemma StopOnlyDrains(y: System, a: Action)
    requires Inv(y) && Enabled(y, a) && y.st.stopActive && !a.Complete? && !a.Reset?
    ensures var z := Apply(y, a);
            && z.st.stopActive && z.st.expected == y.st.expected && z.st.requestEpoch == y.st.requestEpoch
            && z.st.executingCount
               == y.st.executingCount - (if (a.End? || a.Initiate?) && y.st.Executing(a.t) then 1 else 0)
  {
  }

  /** The rendezvous never gets stuck: from every reachable state a stop in flight ends
      after one arrival of each thread still executing and one Complete by the collector
      those arrivals elect, and then nobody asleep has anything left to wait for. */
  lemma {:induction false} StopCanFinish(y: System) returns (acts: seq<Action>)
    requires Inv(y) && y.st.stopActive
    ensures IsRun(y, acts) && |acts| == y.st.executingCount + 1
    ensures forall k :: 0 <= k < |acts| - 1 ==> acts[k].End?
    ensures acts[|acts| - 1].Complete?
    ensures !After(y, acts).st.stopActive && EveryoneReleased(After(y, acts))
    decreases y.st.executingCount
  {
    if y.collector.Some? {
      acts := CollectorFinishes(y);
    } else {
      var t := Straggler(y);
      var a := End(t);
      StepInv(y, a);
      StopOnlyDrains(y, a);
      var rest := StopCanFinish(Apply(y, a));
      acts := [a] + rest;
      assert acts[1..] == rest;
    }
  }

  lemma CollectorFinishes(y: System) returns (acts: seq<Action>)
    requires Inv(y) && y.collector.Some?
    ensures y.st.executingCount == 0
    ensures acts == [Complete(y.collector.value)] && IsRun(y, acts)
    ensures !After(y, acts).st.stopActive && EveryoneReleased(After(y, acts))
  {
    var a := Complete(y.collector.value);
    acts := [a];
    StepInv(y, a);
    NobodyExecutes(y);
    if y.st.executingCount > 0 {
      BusyStranger(y);
    }
    assert IsRun(Apply(y, a), acts[1..]);
    assert After(y, acts) == Apply(y, a);
  }

  ghost predicate EveryoneReleased(y: System) {
    forall t :: t in y.pcs ==>
      && (y.pcs[t] == InBegin ==> Enabled(y, ResumeBegin(t)))
      && (y.pcs[t].InWait? ==> Enabled(y, ResumeWait(t)))
  }

  /** A stop without a collector still waits for a thread that is awake and can arrive. */
  lemma Straggler(y: System) returns (t: ThreadId)
    requires Inv(y) && y.st.stopActive && y.collector == None
    ensures y.st.Executing(t) && Enabled(y, End(t))
  {
    var i := BusyWitness(y.st.threads);
    t := y.owner[y.st.threads[i].generation];
  }

  lemma BusyStranger(y: System)
    requires Inv(y) && y.st.executingCount > 0
    ensures exists t :: y.st.Executing(t)
  {
    var i := BusyWitness(y.st.threads);
    assert y.st.Executing(y.owner[y.st.threads[i].generation]);
  }

  /** A waiter is held exactly as long as the epoch it read is unfinished. */
  lemma WaiterHeldUntilCompletion(y: System, t: ThreadId)
    requires Inv(y) && t in y.pcs && y.pcs[t].InWait?
    ensures Enabled(y, ResumeWait(t)) <==> !(y.st.stopActive && y.pcs[t].epoch == y.st.requestEpoch)
  {
  }

  /** Nothing the thread can call now changes the state of the rendezvous, and it is not asleep. */
  ghost predicate Harmless(y: System, t: ThreadId) {
    && BeginSpec(y.st, t).0 == y.st && EndSpec(y.st, t).0 == y.st && InitiateSpec(y.st, t).0 == y.st
    && !Enabled(y, ResumeBegin(t))
    && forall token: Token :: Enabled(y, Unregister(t, token)) ==> UnregisterSpec(y.st, t, token).0 == y.st
  }

  /** Once a thread is not current, only its own new registration makes it current again: neither
      index reuse nor anybody's flips bring a zombie back into the denominator, and until it
      registers anew its own calls change no count and no entry. */
  lemma {:induction false} ZombieStaysOut(y: System, t: ThreadId, acts: seq<Action>)
    requires Inv(y) && IsRun(y, acts) && !y.st.Current(t)
    requires forall k :: 0 <= k < |acts| ==> !(acts[k].Register? && acts[k].t == t)
    ensures !After(y, acts).st.Current(t) && Harmless(After(y, acts), t)
    decreases |acts|
  {
    hide Harmless;
    if acts == [] {
      ZombieIsHarmless(y, t);
    } else {
      var a := acts[0];
      StepInv(y, a);
      ZombieStep(y, t, a);
      ZombieStaysOut(Apply(y, a), t, acts[1..]);
    }
  }

  lemma ZombieIsHarmless(y: System, t: ThreadId)
    requires Inv(y) && !y.st.Current(t)
    ensures Harmless(y, t)
  {
  }

  lemma ZombieStep(y: System, t: ThreadId, a: Action)
    requires Inv(y) && Enabled(y, a) && !y.st.Current(t) && !(a.Register? && a.t == t)
    ensures !Apply(y, a).st.Current(t)
  {
    match a
    case Register(u, stack) => StandingAfterRegister(y, u, stack);
    case Unregister(u, token) =>
    case Reset =>
    case _ => FlipsKeepStanding(y, a, t);
  }

  ghost predicate SameRegistry(a: seq<Entry>, b: seq<Entry>) {
    |a| == |b| && forall i :: 0 <= i < |a| ==> a[i].live == b[i].live && a[i].generation == b[i].generation
  }

  /** Apart from registering, retiring and resetting, nothing changes who is current. */
  lemma FlipsKeepRegistry(y: System, a: Action)
    requires y.st.Wf() && Enabled(y, a) && !a.Register? && !a.Unregister? && !a.Reset?
    ensures Apply(y, a).st.selves == y.st.selves
    ensures SameRegistry(y.st.threads, Apply(y, a).st.threads)
  {
    match a
    case Begin(t) => BeginKeepsRegistry(y.st, t);
    case ResumeBegin(t) => BeginKeepsRegistry(y.st, t);
    case End(t) =>
      EndKeepsRegistry(y.st, t);
      hide EndSpec;
    case Initiate(t) =>
      InitiateKeepsRegistry(y.st, t);
      hide InitiateSpec;
    case _ =>
  }

  lemma BeginKeepsRegistry(s: State, t: ThreadId)
    requires s.Wf() && s.HasSelf(t)
    ensures FlipOnSpec(s, t).selves == s.selves && SameRegistry(s.threads, FlipOnSpec(s, t).threads)
  {
  }

  lemma EndKeepsRegistry(s: State, t: ThreadId)
    requires s.Wf() && s.HasSelf(t)
    ensures EndSpec(s, t).0.selves == s.selves && SameRegistry(s.threads, EndSpec(s, t).0.threads)
  {
  }

  lemma InitiateKeepsRegistry(s: State, t: ThreadId)
    requires s.Wf()
    ensures InitiateSpec(s, t).0.selves == s.selves && SameRegistry(s.threads, InitiateSpec(s, t).0.threads)
  {
  }

  lemma FlipsKeepStanding(y: System, a: Action, u: ThreadId)
    requires y.st.Wf() && Enabled(y, a) && !a.Register? && !a.Unregister? && !a.Reset?
    ensures Apply(y, a).st.selves == y.st.selves
    ensures Apply(y, a).st.Current(u) == y.st.Current(u)
  {
    FlipsKeepRegistry(y, a);
  }

  lemma StandingAfterRegister(y: System, t: ThreadId, stack: int)
    requires Inv(y) && Enabled(y, Register(t, stack))
    ensures forall u :: u != t ==> Apply(y, Register(t, stack)).st.Current(u) == y.st.Current(u)
  {
    var s := y.st;
    RegisterStanding(s.threads, s.selves, t,
                     if s.freeIndices == [] then |s.threads| else s.freeIndices[|s.freeIndices| - 1],
                     Entry(stack, false, true, s.nextGeneration));
  }

  // ---------------------------------------------------------------- where the code falls short

  /** Without a Reset in the run, membership as reported is membership. */
  lemma {:induction false} MembershipWithoutReset(y: System, acts: seq<Action>)
    requires Inv(y) && IsRun(y, acts) && NoStalePointer(y.st)
    requires Reset !in acts
    ensures NoStalePointer(After(y, acts).st)
    ensures forall t :: After(y, acts).st.ReportsRegistered(t) == After(y, acts).st.Current(t)
    decreases |acts|
  {
    if acts != [] {
      var a := acts[0];
      StepInv(y, a);
      MembershipStep(y, a);
      MembershipWithoutReset(Apply(y, a), acts[1..]);
    }
  }

  lemma MembershipStep(y: System, a: Action)
    requires Inv(y) && Enabled(y, a) && a != Reset && NoStalePointer(y.st)
    ensures NoStalePointer(Apply(y, a).st)
  {
    var s' := Apply(y, a).st;
    forall t | t in s'.selves && s'.selves[t].entry.Some?
      ensures s'.Current(t)
    {
      match a
      case Register(u, stack) => StandingAfterRegister(y, u, stack);
      case Unregister(u, token) => StandingAfterUnregister(y, u, token);
      case _ => FlipsKeepStanding(y, a, t);
    }
  }

  lemma StandingAfterUnregister(y: System, t: ThreadId, token: Token)
    requires Inv(y) && Enabled(y, Unregister(t, token))
    ensures forall u :: u != t ==> Apply(y, Unregister(t, token)).st.Current(u) == y.st.Current(u)
    ensures forall u :: u != t && u in y.st.selves ==> Apply(y, Unregister(t, token)).st.selves[u] == y.st.selves[u]
  {
    if y.st.TokenLive(token) {
      RetireShape(y.st.threads, y.st.freeIndices, y.st.selves, y.st.nextGeneration, y.owner, t);
    }
  }

  ghost predicate NoStalePointer(s: State) {
    forall t :: t in s.selves && s.selves[t].entry.Some? ==> s.Current(t)
  }

  /** After a Reset the report goes wrong exactly when another registration has taken over
      the index the thread still points at; the same thread then cannot register again. */
  lemma MembershipExact(y: System, t: ThreadId)
    requires Inv(y)
    ensures y.st.ReportsRegistered(t) != y.st.Current(t) <==>
              y.st.HasSelf(t)
              && exists u :: u != t && y.st.Current(u) && y.st.SelfIndex(u) == y.st.SelfIndex(t)
    ensures RegisterSpec(y.st, t, 0).1.RegisterTripped? <==> y.st.ReportsRegistered(t)
  {
    if y.st.ReportsRegistered(t) && !y.st.Current(t) {
      var u := y.owner[y.st.threads[y.st.SelfIndex(t)].generation];
      assert u != t && y.st.Current(u) && y.st.SelfIndex(u) == y.st.SelfIndex(t);
    }
  }

  /** A run that shows it: thread 0 registers, the world is reset, thread 1 takes index 0. */
  lemma MembershipMisreported() returns (acts: seq<Action>)
    ensures IsRun(START, acts)
    ensures var s := After(START, acts).st; s.ReportsRegistered(0) && !s.Current(0)
  {
    var y1 := Apply(START, Register(0, 10));
    var y2 := Apply(y1, Reset);
    assert y2.st.freeIndices == [0];
    var r2 := Then(y2, Register(1, 11), []);
    var r1 := Then(y1, Reset, r2);
    acts := Then(START, Register(0, 10), r1);
  }

  /** Reset keeps the protocol's invariant exactly when nobody is asleep inside the object:
      a sleeper in BeginExecuting would flip the bit of a retired entry on, and a sleeper
      in WaitForCompletion would wait for an epoch whose count starts over. */
  lemma ResetExact(y: System)
    requires Inv(y)
    ensures Inv(AfterReset(y)) <==> NobodyAsleep(y)
  {
    if NobodyAsleep(y) {
      ResetInv(y);
    } else {
      var t :| t in y.pcs && y.pcs[t] != Free && y.pcs[t] != InWait(0);
      assert !IsCurrent(AfterReset(y).st.threads, y.st.selves, t);
    }
  }

  /** What follows when Reset overlaps a sleeper: thread 1 sleeps in BeginExecuting, the
      world is reset, thread 1 wakes and is counted through its dead entry. The next stop,
      requested by thread 2, then expects two arrivals of which only one can ever come: unless
      the stop is cancelled or the world reset again, it goes on for ever. */
  lemma ResetUnderSleeperStrandsStop() returns (acts: seq<Action>)
    ensures IsRun(START, acts)
    ensures After(START, acts).pcs == map[1 := InBegin]
    ensures StrandedBy(After(START, acts).st, 1)
  {
    hide StrandedBy;
    var e0, e1 := Entry(10, false, true, 1), Entry(11, false, true, 2);
    var m0 := map[0 := SelfSlot(Some(0), 1)];
    var m := m0[1 := SelfSlot(Some(1), 2)];
    var y1 := START.(st := State(0, 0, 0, 0, [e0], [], 2, 0, false, 0, m0), owner := map[1 := 0]);
    var y2 := y1.(st := State(0, 0, 0, 0, [e0, e1], [], 3, 0, false, 0, m), owner := map[1 := 0, 2 := 1]);
    var y3 := y2.(st := State(0, 0, 0, 0, [e0.(executing := true), e1], [], 3, 1, false, 0, m));
    var y4 := y3.(st := State(1, 0, 1, 1, [e0, e1], [], 3, 0, true, 0, m), collector := Some(0), elections := [1]);
    var y5 := y4.(pcs := map[1 := InBegin]);
    assert Apply(START, Register(0, 10)) == y1;
    assert Apply(y1, Register(1, 11)) == y2;
    assert Apply(y2, Begin(0)) == y3;
    assert Apply(y3, Initiate(0)) == y4;
    assert Apply(y4, Begin(1)) == y5;
    var r5: seq<Action> := [];
    var r4 := Then(y4, Begin(1), r5);
    var r3 := Then(y3, Initiate(0), r4);
    var r2 := Then(y2, Begin(0), r3);
    var r1 := Then(y1, Register(1, 11), r2);
    acts := Then(START, Register(0, 10), r1);
    Stranded(y5.st);
  }

  lemma Then(y: System, a: Action, rest: seq<Action>) returns (acts: seq<Action>)
    requires y.st.Wf() && Enabled(y, a) && IsRun(Apply(y, a), rest)
    ensures acts == [a] + rest && IsRun(y, acts) && After(y, acts) == After(Apply(y, a), rest)
  {
    acts := [a] + rest;
    assert acts[1..] == rest;
  }

  lemma Stranded(s: State)
    requires s == State(1, 0, 1, 1, [Entry(10, false, true, 1), Entry(11, false, true, 2)], [], 3, 0, true, 0,
                        map[0 := SelfSlot(Some(0), 1), 1 := SelfSlot(Some(1), 2)])
    ensures StrandedBy(s, 1)
  {
    var r := ResetSpec(s);
    assert r.threads == [Entry(10, false, false, 1), Entry(11, false, false, 2)];
    assert r.freeIndices == [1, 0];
    var woken := FlipOnSpec(r, 1);
    assert woken == r.(executingCount := 1, threads := [Entry(10, false, false, 1), Entry(11, true, false, 2)]);
    var registered := RegisterSpec(woken, 2, 12).0;
    assert registered == woken.(nextGeneration := 4, freeIndices := [1],
                                threads := [Entry(12, false, true, 3), Entry(11, true, false, 2)],
                                selves := s.selves[2 := SelfSlot(Some(0), 3)]);
    var begun := BeginSpec(registered, 2).0;
    assert begun == registered.(executingCount := 2, threads := [Entry(12, true, true, 3), Entry(11, true, false, 2)]);
    var stopped := InitiateSpec(begun, 2).0;
    assert stopped == begun.(requestEpoch := 1, stopActive := true, expected := 2, arrived := 1, executingCount := 1,
                             threads := [Entry(12, false, true, 3), Entry(11, true, false, 2)]);
    forall y: System, acts: seq<Action> | y.st == stopped && y.collector == None && IsRun(y, acts) && GoesOn(y, acts)
      ensures var z := After(y, acts).st;
              && z.stopActive && z.arrived < z.expected && z.requestEpoch == 1 && z.completedEpoch == 0
    {
      StuckForEver(y, acts);
    }
  }

  /** The world is reset under a sleeper, which wakes; thread 2 registers, begins, and requests a
      stop: nobody is elected, and the stop goes on in every continuation. */
  ghost predicate StrandedBy(s: State, sleeper: ThreadId) {
    s.Wf() && s.HasSelf(sleeper) &&
    (var woken := FlipOnSpec(ResetSpec(s), sleeper);
     woken.Wf() &&
     (var begun := BeginSpec(RegisterSpec(woken, 2, 12).0, 2).0;
      var (stopped, r) := InitiateSpec(begun, 2);
      && r == NotLast && stopped.Wf() && stopped.stopActive && stopped.requestEpoch > stopped.completedEpoch
      && forall y: System, acts: seq<Action> ::
           y.st == stopped && y.collector == None && IsRun(y, acts) && GoesOn(y, acts) ==>
             var z := After(y, acts).st;
             && z.stopActive && z.arrived < z.expected
             && z.requestEpoch == stopped.requestEpoch && z.completedEpoch == stopped.completedEpoch))
  }

  /** A run in which the world is not reset and nobody but an elected collector completes a stop. */
  ghost predicate GoesOn(y: System, acts: seq<Action>)
    requires IsRun(y, acts)
    decreases |acts|
  {
    acts == [] || (&& !acts[0].Reset? && (acts[0].Complete? ==> y.collector == Some(acts[0].t))
                   && GoesOn(Apply(y, acts[0]), acts[1..]))
  }

  /** A stop with arrivals missing, no collector, and nobody left who executes. */
  ghost predicate Stuck(y: System) {
    && y.st.Wf() && y.st.stopActive && y.st.arrived < y.st.expected && y.collector == None
    && forall t :: !y.st.Executing(t)
  }

  lemma StuckStep(y: System, a: Action)
    requires Stuck(y) && Enabled(y, a) && !a.Reset? && !a.Complete?
    ensures Stuck(Apply(y, a))
    ensures Apply(y, a).st.requestEpoch == y.st.requestEpoch && Apply(y, a).st.completedEpoch == y.st.completedEpoch
  {
    var s, s' := y.st, Apply(y, a).st;
    forall u
      ensures !s'.Executing(u)
    {
      if s'.HasSelf(u) {
        var i := s'.SelfIndex(u);
        if s.HasSelf(u) && s.SelfIndex(u) == i && s'.threads[i] == s.threads[i] && s'.selves[u] == s.selves[u] {
          assert !s.Executing(u);
        }
      }
    }
  }

  lemma {:induction false} StuckForEver(y: System, acts: seq<Action>)
    requires Stuck(y) && IsRun(y, acts) && GoesOn(y, acts)
    ensures Stuck(After(y, acts))
    ensures After(y, acts).st.requestEpoch == y.st.requestEpoch
              && After(y, acts).st.completedEpoch == y.st.completedEpoch
    decreases |acts|
  {
    if acts != [] {
      StuckStep(y, acts[0]);
      hide Stuck, Apply, Enabled;
      StuckForEver(Apply(y, acts[0]), acts[1..]);
    }
  }
}
