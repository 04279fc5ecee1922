/** The rendezvous without its bookkeeping: who is registered, who executes, who was summoned by
    the stop in flight. There are no liveness bits, no stamps to compare and no counters, and the
    collector is simply the thread whose arrival leaves nobody executing.

    `RunsRefine` says that every run of the rendezvous is a run of this machine: registry slots,
    generations and arrival counting are an implementation of it. */
module WorldStopReference {
  import opened Wrappers
  import opened WorldStop
  import opened WorldStopRuns

  /** What a registration left behind: the handle it was given and the stack it published. */
  datatype Member = Member(token: Token, stack: int)

  datatype Reference = Reference(
    members: map<ThreadId, Member>, busy: set<ThreadId>,
    free: seq<nat>, size: nat, next: nat,
    stopping: bool, summoned: set<ThreadId>, requested: nat, completed: nat, stops: nat,
    collector: Option<ThreadId>, asleep: map<ThreadId, Pc>)

  const NOBODY := Reference(map[], {}, [], 0, 1, false, {}, 0, 0, 0, None, map[])

  /** The thread stops executing; if a stop is in flight and it was the last, it collects. */
  ghost function Leave(r: Reference, t: ThreadId): Reference {
    var busy := r.busy - {t};
    r.(busy := busy, collector := if r.stopping && t in r.busy && busy == {} then Some(t) else r.collector)
  }

  ghost function Step(r: Reference, a: Action): Reference {
    match a
    case Register(t, stack) =>
      if r.free == [] then
        r.(members := r.members[t := Member(Token(r.next, r.size), stack)], size := r.size + 1, next := r.next + 1)
      else
        var last := |r.free| - 1;
        r.(members := r.members[t := Member(Token(r.next, r.free[last]), stack)],
           free := r.free[..last], next := r.next + 1)
    case Unregister(t, token) =>
      if t in r.members && r.members[t].token == token then
        r.(members := r.members - {t}, free := r.free + [token.index])
      else
        r
    case Begin(t) =>
      if t !in r.members then r
      else if r.stopping then r.(asleep := r.asleep[t := InBegin])
      else r.(busy := r.busy + {t})
    case ResumeBegin(t) => r.(busy := r.busy + {t}, asleep := r.asleep[t := Free])
    case End(t) => Leave(r, t)
    case Initiate(t) =>
      Leave(if r.stopping then r else r.(stopping := true, summoned := r.busy, requested := r.requested + 1), t)
    case Wait(t) => r.(asleep := r.asleep[t := InWait(r.requested)])
    case ResumeWait(t) => r.(asleep := r.asleep[t := Free])
    case Complete(t) => r.(stopping := false, completed := r.requested, stops := r.stops + 1, collector := None)
    case Reset =>
      Reference(map[], {}, seq(r.size, k requires 0 <= k < r.size => r.size - 1 - k), r.size, r.next,
                false, {}, 0, 0, 0, None, r.asleep)
  }

  ghost function Replay(r: Reference, acts: seq<Action>): Reference
    decreases |acts|
  {
    if acts == [] then r else Replay(Step(r, acts[0]), acts[1..])
  }

  // ---------------------------------------------------------------- what the object's state stands for

  /** The current threads are the members, each under its own handle with its own stack. */
  ghost predicate SameMembers(threads: seq<Entry>, selves: map<ThreadId, SelfSlot>, members: map<ThreadId, Member>) {
    && (forall t :: IsCurrent(threads, selves, t) <==> t in members)
    && (forall t :: t in members ==>
          && t in selves
          && members[t].token.index < |threads|
          && selves[t] == SelfSlot(Some(members[t].token.index), members[t].token.generation)
          && threads[members[t].token.index].stack == members[t].stack)
  }

  ghost predicate SameBusy(threads: seq<Entry>, selves: map<ThreadId, SelfSlot>, busy: set<ThreadId>) {
    forall t :: IsExecuting(threads, selves, t) <==> t in busy
  }

  /** The counters count: those summoned, those of them that have arrived, those still executing. */
  ghost predicate SameCounts(s: State, r: Reference) {
    && s.executingCount == |r.busy|
    && s.stopActive == r.stopping
    && (r.stopping ==> r.busy <= r.summoned && s.expected == |r.summoned| && s.arrived == |r.summoned - r.busy|)
    && s.requestEpoch == r.requested && s.completedEpoch == r.completed && s.stopCount == r.stops
  }

  ghost predicate SameSlots(s: State, r: Reference) {
    s.freeIndices == r.free && |s.threads| == r.size && s.nextGeneration == r.next
  }

  ghost predicate Refines(y: System, r: Reference) {
    && SameMembers(y.st.threads, y.st.selves, r.members)
    && SameBusy(y.st.threads, y.st.selves, r.busy)
    && SameCounts(y.st, r)
    && SameSlots(y.st, r)
    && y.collector == r.collector
    && y.pcs == r.asleep
  }

  // ---------------------------------------------------------------- the steps

  /** A registration at slot `i` adds one member and nobody's execution. */
  lemma MemberJoins(threads: seq<Entry>, selves: map<ThreadId, SelfSlot>, members: map<ThreadId, Member>,
                    busy: set<ThreadId>, t: ThreadId, i: nat, e: Entry)
    requires SameMembers(threads, selves, members) && SameBusy(threads, selves, busy)
    requires i <= |threads| && (i < |threads| ==> !threads[i].live) && e.live && !e.executing
    requires !(Points(threads, selves, t) && threads[selves[t].entry.value].live)
    requires forall v :: v in selves && selves[v].entry.Some? ==> selves[v].entry.value < |threads|
    requires forall v :: v in selves ==> selves[v].generation < e.generation
    ensures var threads' := if i < |threads| then threads[i := e] else threads + [e];
            var selves' := selves[t := SelfSlot(Some(i), e.generation)];
            && SameMembers(threads', selves', members[t := Member(Token(e.generation, i), e.stack)])
            && SameBusy(threads', selves', busy)
  {
    RegisterStanding(threads, selves, t, i, e);
  }

  lemma RegisterRefines(y: System, r: Reference, t: ThreadId, stack: int)
    requires Inv(y) && Enabled(y, Register(t, stack)) && Refines(y, r)
    ensures Refines(Apply(y, Register(t, stack)), Step(r, Register(t, stack)))
  {
    hide Stamped, Owned, Partitioned, Sleepers, CollectorIdle, SameMembers, SameBusy, Elected;
    var s := y.st;
    var e := Entry(stack, false, true, s.nextGeneration);
    StampsBelow(s.threads, s.selves, s.nextGeneration, y.owner);
    FreeDead(s.threads, s.freeIndices);
    MemberJoins(s.threads, s.selves, r.members, r.busy, t,
                if s.freeIndices == [] then |s.threads| else s.freeIndices[|s.freeIndices| - 1], e);
  }

  lemma FreeDead(threads: seq<Entry>, free: seq<nat>)
    requires Partitioned(threads, free)
    ensures forall k :: 0 <= k < |free| ==> free[k] < |threads| && !threads[free[k]].live
  {
  }

  /** Retiring a member's own entry takes out that member and nobody's execution. */
  lemma MemberLeaves(y: System, members: map<ThreadId, Member>, busy: set<ThreadId>, t: ThreadId)
    requires Inv(y) && y.st.Current(t) && !y.st.Executing(t)
    requires SameMembers(y.st.threads, y.st.selves, members) && SameBusy(y.st.threads, y.st.selves, busy)
    ensures var s := y.st;
            var i := s.selves[t].entry.value;
            var threads' := s.threads[i := s.threads[i].(live := false)];
            var selves' := s.selves[t := s.selves[t].(entry := None)];
            && SameMembers(threads', selves', members - {t})
            && SameBusy(threads', selves', busy)
  {
    hide Stamped, Owned, Partitioned, Sleepers, CollectorIdle, Elected, Counted, SameMembers;
    var s := y.st;
    var i := s.selves[t].entry.value;
    RetireShape(s.threads, s.freeIndices, s.selves, s.nextGeneration, y.owner, t);
    MembersWithout(s.threads, s.threads[i := s.threads[i].(live := false)],
                   s.selves, s.selves[t := s.selves[t].(entry := None)], members, t);
  }

  lemma MembersWithout(threads: seq<Entry>, threads': seq<Entry>, selves: map<ThreadId, SelfSlot>,
                       selves': map<ThreadId, SelfSlot>, members: map<ThreadId, Member>, t: ThreadId)
    requires SameMembers(threads, selves, members)
    requires |threads'| == |threads| && forall i :: 0 <= i < |threads| ==> threads'[i].stack == threads[i].stack
    requires forall u :: u != t && u in selves ==> u in selves' && selves'[u] == selves[u]
    requires !IsCurrent(threads', selves', t)
    requires forall u :: u != t ==> IsCurrent(threads', selves', u) == IsCurrent(threads, selves, u)
    ensures SameMembers(threads', selves', members - {t})
  {
    hide IsCurrent;
  }

  lemma UnregisterRefines(y: System, r: Reference, t: ThreadId, token: Token)
    requires Inv(y) && Enabled(y, Unregister(t, token)) && Refines(y, r)
    ensures Refines(Apply(y, Unregister(t, token)), Step(r, Unregister(t, token)))
  {
    HandleIsLive(y, r, t, token);
    if y.st.TokenLive(token) {
      MemberLeaves(y, r.members, r.busy, t);
    }
    hide Stamped, Owned, Partitioned, Sleepers, CollectorIdle, SameMembers, SameBusy, Elected;
  }

  /** A live handle, for the thread that holds it, is the handle of its membership. */
  lemma HandleIsLive(y: System, r: Reference, t: ThreadId, token: Token)
    requires Inv(y) && Enabled(y, Unregister(t, token)) && Refines(y, r)
    ensures y.st.TokenLive(token) <==> t in r.members && r.members[t].token == token
    ensures y.st.TokenLive(token) ==> y.st.Current(t) && !y.st.Executing(t)
  {
    hide Owned, Partitioned, Sleepers, CollectorIdle, SameBusy, Elected, Counted;
  }

  /** A bit flipped on or off: members stay, and exactly this thread joins or leaves the busy ones. */
  lemma FlipRefines(y: System, r: Reference, t: ThreadId, on: bool)
    requires Inv(y) && Refines(y, r) && y.st.Current(t) && on != y.st.Executing(t)
    ensures var s := y.st;
            var i := s.selves[t].entry.value;
            var threads' := s.threads[i := s.threads[i].(executing := on)];
            && SameMembers(threads', s.selves, r.members)
            && SameBusy(threads', s.selves, if on then r.busy + {t} else r.busy - {t})
  {
    hide Stamped, Owned, Partitioned, Sleepers, CollectorIdle, Elected, Counted, SameMembers;
    var s := y.st;
    var i := s.selves[t].entry.value;
    FlipShape(s.threads, s.freeIndices, s.selves, s.nextGeneration, y.owner, t, on);
    MembersStay(s.threads, s.threads[i := s.threads[i].(executing := on)], s.selves, r.members);
  }

  lemma MembersStay(threads: seq<Entry>, threads': seq<Entry>, selves: map<ThreadId, SelfSlot>,
                    members: map<ThreadId, Member>)
    requires SameMembers(threads, selves, members)
    requires |threads'| == |threads| && forall i :: 0 <= i < |threads| ==> threads'[i].stack == threads[i].stack
    requires forall u :: IsCurrent(threads', selves, u) == IsCurrent(threads, selves, u)
    ensures SameMembers(threads', selves, members)
  {
    hide IsCurrent;
  }

  lemma BeginRefines(y: System, r: Reference, t: ThreadId)
    requires Inv(y) && Enabled(y, Begin(t)) && Refines(y, r)
    ensures Refines(Apply(y, Begin(t)), Step(r, Begin(t)))
  {
    hide Inv, SameMembers, SameBusy;
    InvWf(y);
    MembersAreCurrent(y, r, t);
    if y.st.Current(t) && !y.st.stopActive {
      FlipRefines(y, r, t, true);
    }
  }

  lemma ResumeBeginRefines(y: System, r: Reference, t: ThreadId)
    requires Inv(y) && Enabled(y, ResumeBegin(t)) && Refines(y, r)
    ensures Refines(Apply(y, ResumeBegin(t)), Step(r, ResumeBegin(t)))
  {
    hide SameMembers, SameBusy, Stamped, Owned, Partitioned, CollectorIdle, Elected;
    MembersAreCurrent(y, r, t);
    FlipRefines(y, r, t, true);
  }

  /** The counters meet exactly when nobody executes. */
  lemma LastMeansNobodyBusy(y: System, r: Reference)
    requires Inv(y) && SameBusy(y.st.threads, y.st.selves, r.busy) && y.st.stopActive
    ensures y.collector.Some? <==> r.busy == {}
  {
    if y.collector.Some? {
      NobodyExecutes(y);
      assert forall t :: t in r.busy ==> y.st.Executing(t);
    } else {
      var t := Straggler(y);
      assert t in r.busy;
    }
  }

  /** An end takes one off the count and, under a stop, is an arrival. */
  lemma EndNumbers(y: System, t: ThreadId)
    requires y.st.Wf() && Enabled(y, End(t)) && y.st.Current(t)
    ensures var s, s' := y.st, Apply(y, End(t)).st;
            && s'.stopActive == s.stopActive && s'.executingCount == s.executingCount - 1
            && s'.expected == s.expected && s'.arrived == s.arrived + (if s.stopActive then 1 else 0)
            && s'.requestEpoch == s.requestEpoch && s'.completedEpoch == s.completedEpoch
            && s'.stopCount == s.stopCount
            && s'.threads == FlipOffSpec(s, t).threads && s'.selves == s.selves
            && s'.freeIndices == s.freeIndices && s'.nextGeneration == s.nextGeneration
    ensures var c := Apply(y, End(t)).collector; c == y.collector || (c == Some(t) && y.st.stopActive)
    ensures Apply(y, End(t)).pcs == y.pcs
  {
  }

  lemma EndRefines(y: System, r: Reference, t: ThreadId)
    requires Inv(y) && Enabled(y, End(t)) && Refines(y, r)
    ensures Refines(Apply(y, End(t)), Step(r, End(t)))
  {
    hide Inv, SameMembers, SameBusy;
    InvWf(y);
    MembersAreCurrent(y, r, t);
    if y.st.Current(t) {
      EndByMember(y, r, t);
    } else {
      assert r.busy - {t} == r.busy;
    }
  }

  lemma EndByMember(y: System, r: Reference, t: ThreadId)
    requires Inv(y) && Enabled(y, End(t)) && Refines(y, r) && y.st.Current(t) && y.st.Wf() && t in r.busy
    ensures Refines(Apply(y, End(t)), Step(r, End(t)))
  {
    hide Inv, SameMembers, SameBusy, Apply;
    var y', r' := Apply(y, End(t)), Step(r, End(t));
    StepInv(y, End(t));
    FlipRefines(y, r, t, false);
    EndNumbers(y, t);
    LeaveCounts(r, t);
    if y.st.stopActive {
      LastMeansNobodyBusy(y, r);
      LastMeansNobodyBusy(y', r');
    }
  }

  lemma InvWf(y: System)
    requires Inv(y)
    ensures y.st.Wf()
  {
  }

  lemma MembersAreCurrent(y: System, r: Reference, t: ThreadId)
    requires Refines(y, r)
    ensures t in r.members <==> y.st.Current(t)
    ensures t in r.busy <==> y.st.Executing(t)
  {
  }

  lemma LeaveCounts(r: Reference, t: ThreadId)
    requires t in r.busy
    ensures |r.busy - {t}| == |r.busy| - 1
    ensures r.busy <= r.summoned ==> |r.summoned - (r.busy - {t})| == |r.summoned - r.busy| + 1
  {
    if r.busy <= r.summoned {
      assert r.summoned - (r.busy - {t}) == (r.summoned - r.busy) + {t};
    }
  }

  /** The first request summons everybody executing; each request is an arrival. */
  lemma InitiateNumbers(y: System, t: ThreadId)
    requires y.st.Wf() && Enabled(y, Initiate(t))
    ensures var s, s' := y.st, Apply(y, Initiate(t)).st;
            && s'.stopActive && s'.executingCount == s.executingCount - 1
            && s'.expected == (if s.stopActive then s.expected else s.executingCount)
            && s'.arrived == (if s.stopActive then s.arrived + 1 else 1)
            && s'.requestEpoch == s.requestEpoch + (if s.stopActive then 0 else 1)
            && s'.completedEpoch == s.completedEpoch && s'.stopCount == s.stopCount
    ensures var c := Apply(y, Initiate(t)).collector; c == y.collector || c == Some(t)
  {
  }

  lemma InitiateRefines(y: System, r: Reference, t: ThreadId)
    requires Inv(y) && Enabled(y, Initiate(t)) && Refines(y, r)
    ensures Refines(Apply(y, Initiate(t)), Step(r, Initiate(t)))
  {
    hide Inv, SameMembers, SameBusy, Apply;
    InvWf(y);
    var y', r' := Apply(y, Initiate(t)), Step(r, Initiate(t));
    StepInv(y, Initiate(t));
    MembersAreCurrent(y, r, t);
    FlipRefines(y, r, t, false);
    InitiateFrame(y, t);
    InitiateNumbers(y, t);
    CollectorNeedsStop(y);
    LastMeansNobodyBusy(y', r');
    if y.st.stopActive {
      LastMeansNobodyBusy(y, r);
      LeaveCounts(r, t);
    } else {
      LeaveCounts(r.(summoned := r.busy), t);
      assert r.busy - r.busy == {};
    }
  }

  lemma CollectorNeedsStop(y: System)
    requires Inv(y)
    ensures y.collector.Some? ==> y.st.stopActive
  {
  }

  lemma StepRefines(y: System, r: Reference, a: Action)
    requires Inv(y) && Enabled(y, a) && Refines(y, r)
    ensures Refines(Apply(y, a), Step(r, a))
  {
    match a
    case Register(t, stack) => RegisterRefines(y, r, t, stack);
    case Unregister(t, token) => UnregisterRefines(y, r, t, token);
    case Begin(t) => BeginRefines(y, r, t);
    case ResumeBegin(t) => ResumeBeginRefines(y, r, t);
    case End(t) => EndRefines(y, r, t);
    case Initiate(t) => InitiateRefines(y, r, t);
    case Wait(t) =>
    case ResumeWait(t) =>
    case Complete(t) =>
    case Reset =>
  }

  /** Every run of the rendezvous is, step for step, a run of the machine above. */
  lemma {:induction false} RunsRefine(y: System, r: Reference, acts: seq<Action>)
    requires Inv(y) && IsRun(y, acts) && Refines(y, r)
    ensures Refines(After(y, acts), Replay(r, acts))
    decreases |acts|
  {
    if acts != [] {
      StepInv(y, acts[0]);
      StepRefines(y, r, acts[0]);
      hide Refines, Inv, Step, Apply, Enabled;
      RunsRefine(Apply(y, acts[0]), Step(r, acts[0]), acts[1..]);
    }
  }

  lemma RunsFromStart(acts: seq<Action>)
    requires IsRun(START, acts)
    ensures Refines(After(START, acts), Replay(NOBODY, acts))
  {
    RunsRefine(START, NOBODY, acts);
  }

  // ---------------------------------------------------------------- answers

  /** What a registration hands out is the handle the thread is a member under. */
  lemma HandleIsMembership(y: System, r: Reference, t: ThreadId, stack: int)
    requires Inv(y) && Enabled(y, Register(t, stack)) && Refines(y, r)
    ensures var r' := Step(r, Register(t, stack));
            && t in r'.members
            && RegisterSpec(y.st, t, stack).1 == Registered(r'.members[t].token)
            && r'.members[t].token.generation == y.st.nextGeneration
  {
  }

  /** Unregistering with a live handle: the handle is dead, the thread is neither current nor reported,
      its index is the next one issued, and nobody else notices. A stale handle changes nothing. */
  lemma UnregisterDoes(y: System, t: ThreadId, token: Token)
    requires Inv(y) && Enabled(y, Unregister(t, token))
    ensures !y.st.TokenLive(token) ==> Apply(y, Unregister(t, token)) == y
    ensures y.st.TokenLive(token) ==>
              var s, s' := y.st, Apply(y, Unregister(t, token)).st;
              && !s'.TokenLive(token) && !s'.Current(t) && !s'.ReportsRegistered(t)
              && s'.freeIndices == s.freeIndices + [token.index]
              && |s'.threads| == |s.threads|
              && (forall i :: 0 <= i < |s.threads| && i != token.index ==> s'.threads[i] == s.threads[i])
              && (forall u :: u != t ==> s'.Current(u) == s.Current(u))
              && s'.executingCount == s.executingCount
  {
    StandingAfterUnregister(y, t, token);
    hide Stamped, Owned, Partitioned, Sleepers, CollectorIdle, Elected, Counted;
  }

  /** Whoever registers next after an unregistration gets its index, under a new generation. */
  lemma NextRegistrationReuses(y: System, t: ThreadId, token: Token, u: ThreadId, stack: int)
    requires Inv(y) && Enabled(y, Unregister(t, token)) && y.st.TokenLive(token)
    requires Enabled(Apply(y, Unregister(t, token)), Register(u, stack))
    ensures var z := Apply(y, Unregister(t, token));
            && z.st.Wf()
            && RegisterSpec(z.st, u, stack).1 == Registered(Token(y.st.nextGeneration, token.index))
            && Apply(z, Register(u, stack)).st.selves[u] == SelfSlot(Some(token.index), y.st.nextGeneration)
  {
    UnregisterInv(y, t, token);
    UnregisterDoes(y, t, token);
    hide Stamped, Owned, Partitioned, Sleepers, CollectorIdle, Elected, Counted;
  }

  /** The calls the code answers with a tripwire: each leaves the object as it was. */
  lemma TripwiresChangeNothing(s: State, t: ThreadId, i: nat, stack: int)
    requires s.Wf() && t in s.selves && s.selves[t].entry == Some(i) && s.threads[i].live
    ensures RegisterSpec(s, t, stack) == (s, RegisterTripped)
    ensures s.threads[i].generation == s.selves[t].generation && !s.threads[i].executing ==>
              EndSpec(s, t) == (s, ArriveTripped) && InitiateSpec(s, t) == (s, ArriveTripped)
    ensures s.threads[i].executing && s.threads[i].generation > 0 ==>
              UnregisterSpec(s, t, Token(s.threads[i].generation, i)) == (s, false)
  {
  }

  /** A live handle in other hands retires that entry and leaves the caller's own pointer alone. */
  lemma RetiresOnlyItsEntry(s: State, t: ThreadId, i: nat)
    requires s.Wf() && i < |s.threads| && s.threads[i].generation > 0
    requires s.threads[i].live && !s.threads[i].executing
    requires t in s.selves ==> s.selves[t].entry != Some(i)
    ensures UnregisterSpec(s, t, Token(s.threads[i].generation, i))
            == (s.(threads := s.threads[i := s.threads[i].(live := false)], freeIndices := s.freeIndices + [i]), true)
  {
  }

  /** The collector's gate opens exactly when a stop is in flight and nobody executes any more. */
  lemma GateMeansNobodyBusy(y: System, r: Reference)
    requires Inv(y) && Refines(y, r)
    ensures QuiescedSpec(y.st) <==> r.stopping && r.busy == {}
  {
    if y.st.stopActive {
      LastMeansNobodyBusy(y, r);
    }
    hide Stamped, Owned, Partitioned, Sleepers, CollectorIdle, SameMembers, SameBusy;
  }

  /** `idx` are the places of the live entries in ascending order, `stacks` their stacks. */
  ghost predicate Picks(idx: seq<nat>, threads: seq<Entry>, stacks: seq<int>) {
    && |idx| == |stacks|
    && (forall k :: 0 <= k < |idx| ==>
          idx[k] < |threads| && threads[idx[k]].live && stacks[k] == threads[idx[k]].stack)
    && (forall k, l :: 0 <= k < l < |idx| ==> idx[k] < idx[l])
    && (forall i :: 0 <= i < |threads| && threads[i].live ==> i in idx)
  }

  lemma {:induction false} LiveStacksPick(threads: seq<Entry>) returns (idx: seq<nat>)
    ensures Picks(idx, threads, LiveStacks(threads))
  {
    if threads == [] {
      idx := [];
    } else {
      var n := |threads| - 1;
      var init := LiveStacksPick(threads[..n]);
      idx := PicksOneMore(init, threads, LiveStacks(threads[..n]));
    }
  }

  lemma PicksOneMore(init: seq<nat>, threads: seq<Entry>, stacks: seq<int>) returns (idx: seq<nat>)
    requires threads != [] && Picks(init, threads[..|threads| - 1], stacks)
    ensures var last := threads[|threads| - 1];
            Picks(idx, threads, stacks + (if last.live then [last.stack] else []))
  {
    var n := |threads| - 1;
    idx := init + (if threads[n].live then [n] else []);
    forall i | 0 <= i < |threads| && threads[i].live
      ensures i in idx
    {
      if i < n {
        assert threads[..n][i].live;
      } else {
        assert idx[|idx| - 1] == n;
      }
    }
  }

  /** The roots reported to the collector are the members' stacks, one each, by ascending slot. */
  lemma RootsAreMembers(y: System, r: Reference) returns (ts: seq<ThreadId>)
    requires Inv(y) && Refines(y, r)
    ensures |ts| == |LiveStacks(y.st.threads)|
    ensures forall k :: 0 <= k < |ts| ==>
              ts[k] in r.members && LiveStacks(y.st.threads)[k] == r.members[ts[k]].stack
    ensures forall k, l :: 0 <= k < l < |ts| ==> r.members[ts[k]].token.index < r.members[ts[l]].token.index
    ensures forall t :: t in r.members ==> t in ts
  {
    hide Inv, Refines, LiveStacks;
    var threads, owner := y.st.threads, y.owner;
    OwnersKnown(y);
    var idx := LiveStacksPick(threads);
    ts := seq(|idx|, k requires 0 <= k < |idx| => owner[threads[idx[k]].generation]);
    forall k | 0 <= k < |ts|
      ensures ts[k] in r.members && r.members[ts[k]].token.index == idx[k]
      ensures r.members[ts[k]].stack == threads[idx[k]].stack
    {
      LiveMeansMember(y, r, idx[k]);
    }
    forall t | t in r.members
      ensures t in ts
    {
      MemberMeansLive(y, r, t);
      var k :| 0 <= k < |idx| && idx[k] == r.members[t].token.index;
      assert ts[k] == t;
    }
  }

  lemma OwnersKnown(y: System)
    requires Inv(y)
    ensures forall i :: 0 <= i < |y.st.threads| && y.st.threads[i].live ==> y.st.threads[i].generation in y.owner
  {
  }

  lemma LiveMeansMember(y: System, r: Reference, i: nat)
    requires Inv(y) && Refines(y, r) && i < |y.st.threads| && y.st.threads[i].live
    ensures y.st.threads[i].generation in y.owner
    ensures var t := y.owner[y.st.threads[i].generation];
            t in r.members && r.members[t].token.index == i && r.members[t].stack == y.st.threads[i].stack
  {
    hide Partitioned, Sleepers, CollectorIdle, Elected, Counted;
    assert y.st.Current(y.owner[y.st.threads[i].generation]);
  }

  lemma MemberMeansLive(y: System, r: Reference, t: ThreadId)
    requires Inv(y) && Refines(y, r) && t in r.members
    ensures var i := r.members[t].token.index;
            && i < |y.st.threads| && y.st.threads[i].live
            && y.st.threads[i].generation in y.owner && y.owner[y.st.threads[i].generation] == t
  {
    hide Partitioned, Sleepers, CollectorIdle, Elected, Counted;
    assert y.st.Current(t);
  }
}
