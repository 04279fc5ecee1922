/** The debugger's freeze queue: a context that stops opens its window when it holds the token, and
    the token passes in arrival order. Each freezer's call is three steps: it arrives under the
    lock, it opens its window when the wait predicate holds, and it closes it. */
module FreezeQueue {
  import opened Wrappers

  type Ctx = nat

  datatype Phase = Waiting | Open

  /** `token` is the frozen context, `view` the context whose window is open; `freezers` are the
      calls in progress, oldest first. */
  datatype State = State(token: Option<Ctx>, queue: seq<Ctx>, view: Option<Ctx>, freezers: seq<(Ctx, Phase)>)

  /** `k` is the call, by its place among the calls in progress. */
  datatype Step = Arrive(c: Ctx) | OpenWindow(k: nat) | Close(k: nat)

  predicate Enabled(s: State, step: Step) {
    match step
    case Arrive(_) => true
    case OpenWindow(k) => k < |s.freezers| && s.freezers[k].1 == Waiting && s.token == Some(s.freezers[k].0)
    case Close(k) => k < |s.freezers| && s.freezers[k].1 == Open
  }

  function Apply(s: State, step: Step): State
    requires Enabled(s, step)
  {
    match step
    case Arrive(c) =>
      var (token, queue) := Arrived(s.token, s.queue, c);
      s.(token := token, queue := queue, freezers := s.freezers + [(c, Waiting)])
    case OpenWindow(k) => s.(view := Some(s.freezers[k].0), freezers := s.freezers[k := (s.freezers[k].0, Open)])
    case Close(k) =>
      var (token, queue) := PassedOn(s.queue);
      State(token, queue, None, s.freezers[..k] + s.freezers[k + 1..])
  }

  /** An arrival takes an idle token or joins the queue. */
  function Arrived(token: Option<Ctx>, queue: seq<Ctx>, c: Ctx): (Option<Ctx>, seq<Ctx>) {
    if token == None then (Some(c), queue) else (token, queue + [c])
  }

  /** A closed window hands the token to the head of the queue. */
  function PassedOn(queue: seq<Ctx>): (Option<Ctx>, seq<Ctx>) {
    if queue != [] then (Some(queue[0]), queue[1..]) else (None, [])
  }

  /** The controller's fields, and the two locked sections of Freeze around the front end's pump. */
  class DebugSessionController {
    var frozenContextId: int
    var freezeQueue: seq<Ctx>
    var selectedContextId: int
    var pView: Option<Ctx>

    function Token(): Option<Ctx>
      reads this
    {
      if frozenContextId < 0 then None else Some(frozenContextId)
    }

    constructor ()
      ensures Token() == None && freezeQueue == [] && pView == None
    {
      frozenContextId, freezeQueue, selectedContextId, pView := -1, [], -1, None;
    }

    /** Up to the wait. */
    method Arrive(c: Ctx)
      modifies `frozenContextId, `freezeQueue
      ensures (Token(), freezeQueue) == Arrived(old(Token()), old(freezeQueue), c)
    {
      if frozenContextId < 0 {
        frozenContextId := c;
      } else {
        freezeQueue := freezeQueue + [c];
      }
    }

    /** After the wait, whose predicate is the precondition. */
    method OpenWindow(c: Ctx)
      requires Token() == Some(c)
      modifies `selectedContextId, `pView
      ensures selectedContextId == c && pView == Some(c)
    {
      selectedContextId := c;
      pView := Some(c);
    }

    /** The section after the pump. */
    method CloseWindow()
      modifies `frozenContextId, `freezeQueue, `pView
      ensures (Token(), freezeQueue) == PassedOn(old(freezeQueue)) && pView == None
    {
      pView := None;
      if freezeQueue != [] {
        frozenContextId := freezeQueue[0];
        freezeQueue := freezeQueue[1..];
      } else {
        frozenContextId := -1;
      }
    }
  }

  /** The token's call first, then the queue in order; only the first can be open. */
  ghost predicate Inv(s: State) {
    && (s.token == None ==> s.queue == [] && s.freezers == [])
    && (s.token.Some? ==>
          && |s.freezers| == 1 + |s.queue|
          && s.freezers[0].0 == s.token.value
          && (forall k :: 0 <= k < |s.queue| ==> s.freezers[k + 1] == (s.queue[k], Waiting)))
    && (forall j, k :: 0 <= j < k < |s.freezers| ==> s.freezers[j].0 != s.freezers[k].0)
    && s.view == (if s.freezers != [] && s.freezers[0].1 == Open then s.token else None)
  }

  /** No context freezes while it is frozen already. */
  predicate Distinct(s: State, step: Step) {
    step.Arrive? ==> forall k :: 0 <= k < |s.freezers| ==> s.freezers[k].0 != step.c
  }

  lemma OthersWait(s: State)
    requires Inv(s)
    ensures forall j :: 0 < j < |s.freezers| ==> s.freezers[j] == (s.queue[j - 1], Waiting)
  {
    forall j | 0 < j < |s.freezers|
      ensures s.freezers[j] == (s.queue[j - 1], Waiting)
    {
      assert s.freezers[(j - 1) + 1] == (s.queue[j - 1], Waiting);
    }
  }

  lemma ArriveInv(s: State, c: Ctx)
    requires Inv(s) && Distinct(s, Arrive(c))
    ensures Inv(Apply(s, Arrive(c)))
  {
  }

  lemma OpenInv(s: State, k: nat)
    requires Inv(s) && Enabled(s, OpenWindow(k))
    ensures k == 0 && Inv(Apply(s, OpenWindow(k)))
  {
    assert s.freezers[0].0 == s.freezers[k].0;
  }

  lemma CloseInv(s: State, k: nat)
    requires Inv(s) && Enabled(s, Close(k))
    ensures k == 0 && Inv(Apply(s, Close(k)))
  {
    OthersWait(s);
    var rest := s.freezers[1..];
    assert s.freezers[..0] + rest == rest;
    forall j | 0 <= j < |rest|
      ensures rest[j] == (s.queue[j], Waiting)
    {
      assert rest[j] == s.freezers[j + 1];
    }
    forall i, j | 0 <= i < j < |rest|
      ensures rest[i].0 != rest[j].0
    {
      assert s.freezers[i + 1].0 != s.freezers[j + 1].0;
    }
  }

  lemma StepInv(s: State, step: Step)
    requires Inv(s) && Enabled(s, step) && Distinct(s, step)
    ensures Inv(Apply(s, step))
    ensures step.OpenWindow? || step.Close? ==> step.k == 0
  {
    hide Inv, Apply;
    match step
    case Arrive(c) => ArriveInv(s, c);
    case OpenWindow(k) => OpenInv(s, k);
    case Close(k) => CloseInv(s, k);
  }

  const IDLE := State(None, [], None, [])

  predicate IsRun(s: State, steps: seq<Step>)
    decreases |steps|
  {
    steps == [] || (Enabled(s, steps[0]) && Distinct(s, steps[0]) && IsRun(Apply(s, steps[0]), steps[1..]))
  }

  function After(s: State, steps: seq<Step>): State
    requires IsRun(s, steps)
    decreases |steps|
  {
    if steps == [] then s else After(Apply(s, steps[0]), steps[1..])
  }

  lemma {:induction false} RunInv(s: State, steps: seq<Step>)
    requires Inv(s) && IsRun(s, steps)
    ensures Inv(After(s, steps))
    decreases |steps|
  {
    if |steps| > 0 {
      StepInv(s, steps[0]);
      RunInv(Apply(s, steps[0]), steps[1..]);
    }
  }

  /** Windows are exclusive and first come, first served: at most the oldest call in progress is
      open, the token names it, the queue is the later calls in order, and an idle token means
      nobody waits. */
  lemma WindowsAreFifo(steps: seq<Step>, k: nat)
    requires IsRun(IDLE, steps)
    ensures var s := After(IDLE, steps);
            && (k < |s.freezers| && s.freezers[k].1 == Open ==> k == 0 && s.view == s.token == Some(s.freezers[0].0))
            && (k < |s.queue| ==> |s.freezers| == 1 + |s.queue| && s.freezers[k + 1].0 == s.queue[k])
            && (s.token == None ==> s.queue == [] && s.freezers == [])
  {
    RunInv(IDLE, steps);
    OthersWait(After(IDLE, steps));
  }

  // ---------------------------------------------------------------- freezing while frozen

  /** Any steps at all, nested freezes included. */
  predicate Can(s: State, steps: seq<Step>)
    decreases |steps|
  {
    steps == [] || (Enabled(s, steps[0]) && Can(Apply(s, steps[0]), steps[1..]))
  }

  function Result(s: State, steps: seq<Step>): State
    requires Can(s, steps)
    decreases |steps|
  {
    if steps == [] then s else Result(Apply(s, steps[0]), steps[1..])
  }

  /** The windows of two different contexts are open. */
  ghost predicate TwoOpen(s: State) {
    exists j, k :: 0 <= j < k < |s.freezers| && BothOpen(s, j, k)
  }

  predicate BothOpen(s: State, j: nat, k: nat)
    requires j < k < |s.freezers|
  {
    s.freezers[j].1 == Open && s.freezers[k].1 == Open && s.freezers[j].0 != s.freezers[k].0
  }

  predicate NoArrivals(steps: seq<Step>) {
    forall i :: 0 <= i < |steps| ==> !steps[i].Arrive?
  }

  /** With no further arrival, the windows of two contexts come to be open at once. */
  ghost predicate CanOverlap(s: State) {
    exists steps: seq<Step> :: Can(s, steps) && NoArrivals(steps) && TwoOpen(Result(s, steps))
  }

  lemma OverlapLater(s: State, step: Step)
    requires Enabled(s, step) && !step.Arrive? && CanOverlap(Apply(s, step))
    ensures CanOverlap(s)
  {
    var t := Apply(s, step);
    var steps :| Can(t, steps) && NoArrivals(steps) && TwoOpen(Result(t, steps));
    var all := [step] + steps;
    assert all[0] == step && all[1..] == steps;
    hide Apply, Enabled, TwoOpen;
    assert Can(s, all) && Result(s, all) == Result(t, steps);
  }

  lemma OverlapNow(s: State)
    requires TwoOpen(s)
    ensures CanOverlap(s)
  {
    hide TwoOpen;
    assert Can(s, []) && Result(s, []) == s;
  }

  ghost predicate OnlyOf(s: State, c: Ctx) {
    forall k :: 0 <= k < |s.freezers| ==> s.freezers[k].0 == c
  }

  /** Distinct contexts in line, the last of which stands there twice; only the first can be open. */
  ghost predicate TwiceLast(s: State, c: Ctx) {
    var n := |s.freezers|;
    && n > 2 && s.freezers[n - 2].0 == c && s.freezers[n - 1].0 == c
    && s.token == Some(s.freezers[0].0) && |s.queue| == n - 1
    && (forall k :: 0 <= k < n - 1 ==> s.freezers[k + 1] == (s.queue[k], Waiting))
    && (forall j, k :: 0 <= j < k < n - 1 ==> s.freezers[j].0 != s.freezers[k].0)
  }

  /** What a freeze of the last context in line leads to: nobody else's window can open beside it. */
  ghost predicate TailNested(s: State, c: Ctx) {
    OnlyOf(s, c) || TwiceLast(s, c)
  }

  lemma TailStep(s: State, c: Ctx, step: Step)
    requires TailNested(s, c) && Enabled(s, step) && !step.Arrive?
    ensures TailNested(Apply(s, step), c)
  {
    hide TwiceLast, OnlyOf;
    if OnlyOf(s, c) {
      OnlyStep(s, c, step);
    } else {
      TwiceStep(s, c, step);
    }
  }

  lemma OnlyStep(s: State, c: Ctx, step: Step)
    requires OnlyOf(s, c) && Enabled(s, step) && !step.Arrive?
    ensures OnlyOf(Apply(s, step), c)
  {
  }

  lemma OthersInLine(s: State, c: Ctx)
    requires TwiceLast(s, c)
    ensures forall k :: 0 < k < |s.freezers| ==> s.freezers[k] == (s.queue[k - 1], Waiting)
  {
    forall k | 0 < k < |s.freezers|
      ensures s.freezers[k] == (s.queue[k - 1], Waiting)
    {
      assert s.freezers[(k - 1) + 1] == (s.queue[k - 1], Waiting);
    }
  }

  lemma FirstOnly(s: State, c: Ctx, step: Step)
    requires TwiceLast(s, c) && Enabled(s, step) && !step.Arrive?
    ensures step.k == 0
  {
    var n := |s.freezers|;
    OthersInLine(s, c);
    assert s.freezers[0].0 != s.freezers[n - 2].0;
  }

  lemma TwiceStep(s: State, c: Ctx, step: Step)
    requires TwiceLast(s, c) && Enabled(s, step) && !step.Arrive?
    ensures TailNested(Apply(s, step), c)
  {
    FirstOnly(s, c, step);
    hide TwiceLast, OnlyOf;
    if step.Close? {
      TwiceClose(s, c);
    } else {
      TwiceOpen(s, c);
    }
  }

  lemma TwiceOpen(s: State, c: Ctx)
    requires TwiceLast(s, c) && Enabled(s, OpenWindow(0))
    ensures TwiceLast(Apply(s, OpenWindow(0)), c)
  {
    var s' := Apply(s, OpenWindow(0));
    assert forall k :: 0 <= k < |s.freezers| ==> s'.freezers[k].0 == s.freezers[k].0;
    assert forall k :: 0 < k < |s.freezers| ==> s'.freezers[k] == s.freezers[k];
  }

  lemma TwiceClose(s: State, c: Ctx)
    requires TwiceLast(s, c) && Enabled(s, Close(0))
    ensures TailNested(Apply(s, Close(0)), c)
  {
    var s' := Apply(s, Close(0));
    assert s.freezers[..0] + s.freezers[1..] == s.freezers[1..];
    if |s.freezers| > 3 {
      TwiceRest(s, s', c);
    } else {
      assert s'.freezers == [s.freezers[1], s.freezers[2]];
    }
    hide TwiceLast;
  }

  lemma TwiceRest(s: State, s': State, c: Ctx)
    requires TwiceLast(s, c) && |s.freezers| > 3
    requires s'.freezers == s.freezers[1..] && s'.queue == s.queue[1..] && s'.token == Some(s.queue[0])
    ensures TwiceLast(s', c)
  {
    OthersInLine(s, c);
    var n := |s'.freezers|;
    assert forall k :: 0 <= k < n ==> s'.freezers[k] == s.freezers[k + 1];
    forall j, k | 0 <= j < k < n - 1
      ensures s'.freezers[j].0 != s'.freezers[k].0
    {
      assert s.freezers[j + 1].0 != s.freezers[k + 1].0;
    }
    forall k | 0 <= k < n - 1
      ensures s'.freezers[k + 1] == (s'.queue[k], Waiting)
    {
      assert s.freezers[k + 2] == (s.queue[k + 1], Waiting);
    }
  }

  lemma TwiceIsOne(s: State, c: Ctx)
    requires TailNested(s, c)
    ensures !TwoOpen(s)
  {
    if TwiceLast(s, c) {
      OthersInLine(s, c);
    }
  }

  lemma {:induction false} TailNeverOverlaps(s: State, c: Ctx, steps: seq<Step>)
    requires TailNested(s, c) && Can(s, steps) && NoArrivals(steps)
    ensures !TwoOpen(Result(s, steps))
    decreases |steps|
  {
    if steps == [] {
      TwiceIsOne(s, c);
    } else {
      TailStep(s, c, steps[0]);
      hide TailNested, Apply, TwoOpen;
      TailNeverOverlaps(Apply(s, steps[0]), c, steps[1..]);
    }
  }

  /** Without arrivals a sound state stays sound, and then one window at most is open. */
  lemma {:induction false} SoundNeverOverlaps(s: State, steps: seq<Step>)
    requires Inv(s) && Can(s, steps) && NoArrivals(steps)
    ensures !TwoOpen(Result(s, steps))
    decreases |steps|
  {
    if steps == [] {
      OthersWait(s);
    } else {
      StepInv(s, steps[0]);
      hide Inv, Apply, TwoOpen;
      SoundNeverOverlaps(Apply(s, steps[0]), steps[1..]);
    }
  }

  /** A freeze of the j-th frozen context, with another behind it: once that one's turn comes both
      its calls pass the wait, and the first to close lets the next context in beside the other. */
  lemma {:induction false} NestedOverlaps(s: State, j: nat)
    requires Inv(s) && j + 1 < |s.freezers|
    ensures CanOverlap(Apply(s, Arrive(s.freezers[j].0)))
    decreases j, if s.freezers[0].1 == Waiting then 1 else 0
  {
    var c := s.freezers[j].0;
    var t := Apply(s, Arrive(c));
    if s.freezers[0].1 == Waiting {
      OpenInv(s, 0);
      OpenCommutes(s, c);
      NestedOverlaps(Apply(s, OpenWindow(0)), j);
      hide Inv, CanOverlap;
      OverlapLater(t, OpenWindow(0));
    } else if j > 0 {
      CloseInv(s, 0);
      CloseCommutes(s, c);
      NestedOverlaps(Apply(s, Close(0)), j - 1);
      hide Inv, CanOverlap;
      OverlapLater(t, Close(0));
    } else {
      FirstNestedOverlaps(s);
    }
  }

  lemma FirstNestedOverlaps(s: State)
    requires Inv(s) && |s.freezers| > 1 && s.freezers[0].1 == Open
    ensures CanOverlap(Apply(s, Arrive(s.freezers[0].0)))
  {
    OthersWait(s);
    var c, n := s.freezers[0].0, |s.freezers|;
    var t := Apply(s, Arrive(c));
    var t1 := Apply(t, OpenWindow(n));
    assert t1.freezers == s.freezers + [(c, Open)];
    var t2 := Apply(t1, Close(n));
    assert t2.freezers == s.freezers && t2.token == Some(s.freezers[1].0);
    var t3 := Apply(t2, OpenWindow(1));
    assert BothOpen(t3, 0, 1);
    hide Inv, CanOverlap, TwoOpen;
    TwoAt(t3, 0, 1);
    OverlapNow(t3);
    OverlapLater(t2, OpenWindow(1));
    OverlapLater(t1, Close(n));
    OverlapLater(t, OpenWindow(n));
  }

  lemma TwoAt(s: State, j: nat, k: nat)
    requires j < k < |s.freezers| && BothOpen(s, j, k)
    ensures TwoOpen(s)
  {
  }

  lemma OpenCommutes(s: State, c: Ctx)
    requires Enabled(s, OpenWindow(0))
    ensures var t := Apply(s, Arrive(c));
            Enabled(t, OpenWindow(0)) && Apply(t, OpenWindow(0)) == Apply(Apply(s, OpenWindow(0)), Arrive(c))
    ensures Apply(s, OpenWindow(0)).freezers[0].1 == Open && |Apply(s, OpenWindow(0)).freezers| == |s.freezers|
    ensures forall k :: 0 <= k < |s.freezers| ==> Apply(s, OpenWindow(0)).freezers[k].0 == s.freezers[k].0
  {
  }

  lemma CloseCommutes(s: State, c: Ctx)
    requires Enabled(s, Close(0)) && s.token.Some? && s.queue != []
    ensures var t := Apply(s, Arrive(c));
            Enabled(t, Close(0)) && Apply(t, Close(0)) == Apply(Apply(s, Close(0)), Arrive(c))
    ensures Apply(s, Close(0)).freezers == s.freezers[1..]
  {
    var t := Apply(s, Arrive(c));
    assert s.freezers[..0] + s.freezers[1..] == s.freezers[1..];
    assert t.freezers[..0] + t.freezers[1..] == s.freezers[1..] + [(c, Waiting)];
    assert t.queue[1..] == s.queue[1..] + [c];
  }

  /** After any run without nested freezes: once `c` arrives, and with no arrival after it, the
      windows of two contexts can be open at once if and only if `c` is frozen already and somebody
      else stands behind it. */
  lemma OverlapExact(steps: seq<Step>, c: Ctx)
    requires IsRun(IDLE, steps)
    ensures var s := After(IDLE, steps);
            CanOverlap(Apply(s, Arrive(c))) <==> exists j :: 0 <= j < |s.freezers| - 1 && s.freezers[j].0 == c
  {
    RunInv(IDLE, steps);
    var s := After(IDLE, steps);
    var t := Apply(s, Arrive(c));
    if j :| 0 <= j < |s.freezers| - 1 && s.freezers[j].0 == c {
      NestedOverlaps(s, j);
    } else {
      forall more | Can(t, more) && NoArrivals(more)
        ensures !TwoOpen(Result(t, more))
      {
        if Distinct(s, Arrive(c)) {
          ArriveInv(s, c);
          SoundNeverOverlaps(t, more);
        } else {
          LastInLine(s, c);
          TailNeverOverlaps(t, c, more);
        }
      }
    }
  }

  lemma LastInLine(s: State, c: Ctx)
    requires Inv(s) && s.freezers != [] && s.freezers[|s.freezers| - 1].0 == c
    ensures TailNested(Apply(s, Arrive(c)), c)
  {
    OthersWait(s);
  }

  /** Without the rule that no context freezes twice, two contexts' windows can be open at once: a
      nested freeze finds the token already its own, and its close hands the token on early. */
  lemma NestedFreezeOpensTwo()
    ensures var s1 := Apply(Apply(Apply(IDLE, Arrive(1)), OpenWindow(0)), Arrive(2));
            var s2 := Apply(Apply(s1, Arrive(1)), OpenWindow(2));
            var s3 := Apply(s2, Close(2));
            var s4 := Apply(s3, OpenWindow(1));
            IsRun(IDLE, [Arrive(1), OpenWindow(0), Arrive(2)]) && !Distinct(s1, Arrive(1))
                && s4.freezers == [(1, Open), (2, Open)]
  {
    assert [Arrive(1), OpenWindow(0), Arrive(2)][1..] == [OpenWindow(0), Arrive(2)];
    assert [OpenWindow(0), Arrive(2)][1..] == [Arrive(2)];
    var s0 := Apply(Apply(IDLE, Arrive(1)), OpenWindow(0));
    assert s0 == State(Some(1), [], Some(1), [(1, Open)]);
    var s1 := Apply(s0, Arrive(2));
    assert s1 == State(Some(1), [2], Some(1), [(1, Open), (2, Waiting)]);
    var s2 := Apply(Apply(s1, Arrive(1)), OpenWindow(2));
    assert s2 == State(Some(1), [2, 1], Some(1), [(1, Open), (2, Waiting), (1, Open)]);
    assert Apply(s2, Close(2)) == State(Some(2), [1], None, [(1, Open), (2, Waiting)]);
    assert !Distinct(s1, Arrive(1)) by {
      assert s1.freezers[0].0 == 1;
    }
  }
}
