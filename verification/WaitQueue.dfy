/** The waiter queues behind the four sync primitives. One entry shape serves them all:
    a registered call is Pending until its own recheck commits the park (Committed) or a
    waker stamps it with an outcome. `value` is the value a parked send offers. */
module WaitQueue {
  import opened Wrappers

  type Ctx = nat

  datatype Phase = Pending | Committed | Acquired | Value | Closed

  datatype Waiter = Waiter(ctx: Ctx, phase: Phase, value: int)

  predicate Live(w: Waiter) {
    w.phase == Pending || w.phase == Committed
  }

  predicate IsStamp(p: Phase) {
    p == Acquired || p == Value || p == Closed
  }

  /** The index of the first live entry, |ws| when there is none. */
  function FirstLive(ws: seq<Waiter>): (i: nat)
    ensures i <= |ws|
    ensures i < |ws| ==> Live(ws[i])
    ensures forall j :: 0 <= j < i ==> !Live(ws[j])
  {
    if ws == [] then 0
    else if Live(ws[0]) then 0
    else 1 + FirstLive(ws[1..])
  }

  /** The index of the entry of context `c`, |ws| when it has none. */
  function IndexOf(ws: seq<Waiter>, c: Ctx): (i: nat)
    ensures i <= |ws|
    ensures i < |ws| ==> ws[i].ctx == c
    ensures forall j :: 0 <= j < i ==> ws[j].ctx != c
  {
    if ws == [] then 0
    else if ws[0].ctx == c then 0
    else 1 + IndexOf(ws[1..], c)
  }

  function Without(ws: seq<Waiter>, i: nat): seq<Waiter>
    requires i < |ws|
  {
    ws[..i] + ws[i + 1..]
  }

  datatype RecheckResult = Commit | Consumed(stamp: Phase) | Vanished

  /** The recheck of context `c`: its first entry is committed if still pending, else consumed. */
  function RecheckSpec(ws: seq<Waiter>, c: Ctx): (seq<Waiter>, RecheckResult) {
    var i := IndexOf(ws, c);
    if i == |ws| then (ws, Vanished)
    else if ws[i].phase == Pending then (ws[i := ws[i].(phase := Committed)], Commit)
    else (Without(ws, i), Consumed(ws[i].phase))
  }

  /** Deciding entry `i`: a committed entry leaves the queue (its context is to be woken), a
      pending one stays as a stamped mailbox for the recheck of its own context. */
  function Decide(ws: seq<Waiter>, i: nat, stamp: Phase): seq<Waiter>
    requires i < |ws|
  {
    if ws[i].phase == Committed then Without(ws, i) else ws[i := ws[i].(phase := stamp)]
  }

  /** Deciding the first live entry, if any. */
  function DecideFirst(ws: seq<Waiter>, stamp: Phase): seq<Waiter> {
    if FirstLive(ws) < |ws| then Decide(ws, FirstLive(ws), stamp) else ws
  }

  /** The context that deciding the first live entry obliges the waker to wake. */
  function WakeAfterDecide(ws: seq<Waiter>): Option<Ctx> {
    var i := FirstLive(ws);
    if i < |ws| && ws[i].phase == Committed then Some(ws[i].ctx) else None
  }

  function FirstLiveCtx(ws: seq<Waiter>): Option<Ctx> {
    if FirstLive(ws) < |ws| then Some(ws[FirstLive(ws)].ctx) else None
  }

  /** Deciding every live entry at once: committed entries leave, pending ones are stamped. */
  function DecideAll(ws: seq<Waiter>, stamp: Phase): seq<Waiter> {
    if ws == [] then []
    else if ws[0].phase == Committed then DecideAll(ws[1..], stamp)
    else if ws[0].phase == Pending then [ws[0].(phase := stamp)] + DecideAll(ws[1..], stamp)
    else [ws[0]] + DecideAll(ws[1..], stamp)
  }

  /** The contexts DecideAll takes out of the queue, in queue order. */
  function CommittedCtxs(ws: seq<Waiter>): seq<Ctx> {
    if ws == [] then []
    else (if ws[0].phase == Committed then [ws[0].ctx] else []) + CommittedCtxs(ws[1..])
  }

  /** The live entries, in queue order. */
  function LiveOf(ws: seq<Waiter>): seq<Waiter> {
    if ws == [] then []
    else (if Live(ws[0]) then [ws[0]] else []) + LiveOf(ws[1..])
  }

  ghost predicate Has(ws: seq<Waiter>, c: Ctx) {
    exists i :: 0 <= i < |ws| && ws[i].ctx == c
  }

  ghost predicate HasLive(ws: seq<Waiter>, c: Ctx) {
    exists i :: 0 <= i < |ws| && ws[i].ctx == c && Live(ws[i])
  }

  ghost predicate Distinct(ws: seq<Waiter>) {
    forall i, j :: 0 <= i < j < |ws| ==> ws[i].ctx != ws[j].ctx
  }

  // ---------------------------------------------------------------- lemmas

  lemma {:induction false} LiveOfConcat(a: seq<Waiter>, b: seq<Waiter>)
    ensures LiveOf(a + b) == LiveOf(a) + LiveOf(b)
  {
    hide Live;
    if a == [] {
      assert a + b == b;
    } else {
      assert (a + b)[0] == a[0] && (a + b)[1..] == a[1..] + b;
      LiveOfConcat(a[1..], b);
      var head := if Live(a[0]) then [a[0]] else [];
      assert head + (LiveOf(a[1..]) + LiveOf(b)) == head + LiveOf(a[1..]) + LiveOf(b);
    }
  }

  lemma {:induction false} LiveOfNone(ws: seq<Waiter>)
    requires forall i :: 0 <= i < |ws| ==> !Live(ws[i])
    ensures LiveOf(ws) == []
  {
    if ws != [] {
      LiveOfNone(ws[1..]);
    }
  }

  /** Deciding the first live entry takes exactly that entry out of the live ones. */
  lemma {:induction false} DecideFirstLive(ws: seq<Waiter>, stamp: Phase)
    requires IsStamp(stamp) && FirstLive(ws) < |ws|
    ensures LiveOf(ws) == [ws[FirstLive(ws)]] + LiveOf(DecideFirst(ws, stamp))
  {
    var rest := DecideFirst(ws, stamp);
    if Live(ws[0]) {
      if ws[0].phase == Committed {
        assert rest == ws[1..];
      } else {
        assert rest[1..] == ws[1..];
      }
    } else {
      DecideFirstLive(ws[1..], stamp);
      DecideFirstSkips(ws, stamp);
      assert rest[1..] == DecideFirst(ws[1..], stamp);
    }
  }

  lemma DecideFirstSkips(ws: seq<Waiter>, stamp: Phase)
    requires ws != [] && !Live(ws[0])
    ensures DecideFirst(ws, stamp) == [ws[0]] + DecideFirst(ws[1..], stamp)
  {
    var tail := ws[1..];
    var i := FirstLive(tail);
    assert FirstLive(ws) == 1 + i;
    if i < |tail| {
      DecideShift(ws[0], tail, i, stamp);
      assert [ws[0]] + tail == ws;
    }
  }

  lemma DecideShift(w: Waiter, tail: seq<Waiter>, i: nat, stamp: Phase)
    requires i < |tail|
    ensures Decide([w] + tail, 1 + i, stamp) == [w] + Decide(tail, i, stamp)
  {
    var ws := [w] + tail;
    assert ws[1 + i] == tail[i];
    if tail[i].phase == Committed {
      assert ws[..1 + i] == [w] + tail[..i] && ws[1 + i + 1..] == tail[i + 1..];
    } else {
      assert ws[1 + i := tail[i].(phase := stamp)] == [w] + tail[i := tail[i].(phase := stamp)];
    }
  }

  lemma {:induction false} LiveOfSplit(ws: seq<Waiter>, i: nat)
    requires i < |ws|
    ensures LiveOf(ws) == LiveOf(ws[..i]) + ((if Live(ws[i]) then [ws[i]] else []) + LiveOf(ws[i + 1..]))
  {
    var front, back := ws[..i], ws[i..];
    assert ws == front + back;
    LiveOfConcat(front, back);
    assert back[0] == ws[i] && back[1..] == ws[i + 1..];
  }

  lemma AppendLive(ws: seq<Waiter>, w: Waiter)
    ensures LiveOf(ws + [w]) == LiveOf(ws) + (if Live(w) then [w] else [])
  {
    LiveOfConcat(ws, [w]);
    assert [w][1..] == [];
  }

  /** Consuming a stamped entry leaves the live ones alone. */
  lemma WithoutStampedLive(ws: seq<Waiter>, i: nat)
    requires i < |ws| && !Live(ws[i])
    ensures LiveOf(Without(ws, i)) == LiveOf(ws)
  {
    LiveOfSplit(ws, i);
    LiveOfConcat(ws[..i], ws[i + 1..]);
  }

  /** Committing keeps the live contexts, what they offer, and their order. */
  lemma CommitLive(ws: seq<Waiter>, i: nat)
    requires i < |ws| && ws[i].phase == Pending
    ensures Offers(LiveOf(ws[i := ws[i].(phase := Committed)])) == Offers(LiveOf(ws))
  {
    var ws' := ws[i := ws[i].(phase := Committed)];
    var front, back := LiveOf(ws[..i]), LiveOf(ws[i + 1..]);
    assert LiveOf(ws) == front + ([ws[i]] + back) by {
      LiveOfSplit(ws, i);
    }
    assert LiveOf(ws') == front + ([ws'[i]] + back) by {
      LiveOfSplit(ws', i);
      assert ws'[..i] == ws[..i] && ws'[i + 1..] == ws[i + 1..];
    }
    OffersConcat(front, [ws[i]] + back);
    OffersConcat(front, [ws'[i]] + back);
    assert ([ws[i]] + back)[1..] == back && ([ws'[i]] + back)[1..] == back;
  }

  /** Who waits and what they offer, forgetting the phases. */
  function Offers(ws: seq<Waiter>): seq<(Ctx, int)> {
    if ws == [] then [] else [(ws[0].ctx, ws[0].value)] + Offers(ws[1..])
  }

  lemma {:induction false} OffersConcat(a: seq<Waiter>, b: seq<Waiter>)
    ensures Offers(a + b) == Offers(a) + Offers(b)
  {
    if a == [] {
      assert a + b == b;
    } else {
      assert (a + b)[1..] == a[1..] + b;
      OffersConcat(a[1..], b);
    }
  }

  lemma WithoutHas(ws: seq<Waiter>, i: nat)
    requires i < |ws| && Distinct(ws)
    ensures Distinct(Without(ws, i))
    ensures forall c :: Has(Without(ws, i), c) <==> Has(ws, c) && c != ws[i].ctx
    ensures forall j :: 0 <= j < |ws| - 1 ==> Without(ws, i)[j] == if j < i then ws[j] else ws[j + 1]
  {
    forall c | Has(ws, c) && c != ws[i].ctx
      ensures Has(Without(ws, i), c)
    {
      var j :| 0 <= j < |ws| && ws[j].ctx == c;
      assert Without(ws, i)[if j < i then j else j - 1].ctx == c;
    }
  }

  lemma RephaseHas(ws: seq<Waiter>, i: nat, p: Phase)
    requires i < |ws| && Distinct(ws)
    ensures var ws' := ws[i := ws[i].(phase := p)];
            Distinct(ws') && forall c :: Has(ws', c) <==> Has(ws, c)
  {
    var ws' := ws[i := ws[i].(phase := p)];
    forall c | Has(ws, c)
      ensures Has(ws', c)
    {
      var j :| 0 <= j < |ws| && ws[j].ctx == c;
      assert ws'[j].ctx == c;
    }
  }

  lemma AppendHas(ws: seq<Waiter>, w: Waiter)
    requires Distinct(ws) && !Has(ws, w.ctx)
    ensures Distinct(ws + [w])
    ensures forall c :: Has(ws + [w], c) <==> Has(ws, c) || c == w.ctx
  {
    assert (ws + [w])[|ws|] == w;
    forall c | Has(ws, c)
      ensures Has(ws + [w], c)
    {
      var j :| 0 <= j < |ws| && ws[j].ctx == c;
      assert (ws + [w])[j].ctx == c;
    }
  }

  // ---------------------------------------------------------------- stamped mailboxes

  /** The stamp in context `c`'s entry, if it has one. */
  function Mailbox(ws: seq<Waiter>, c: Ctx): Option<Phase> {
    var i := IndexOf(ws, c);
    if i < |ws| && !Live(ws[i]) then Some(ws[i].phase) else None
  }

  lemma IndexIsUnique(ws: seq<Waiter>, i: nat)
    requires Distinct(ws) && i < |ws|
    ensures IndexOf(ws, ws[i].ctx) == i
  {
  }

  lemma MailboxWithout(ws: seq<Waiter>, i: nat, c: Ctx)
    requires Distinct(ws) && i < |ws|
    ensures Mailbox(Without(ws, i), c) == if c == ws[i].ctx then None else Mailbox(ws, c)
  {
    WithoutHas(ws, i);
    var ws' := Without(ws, i);
    var j := IndexOf(ws, c);
    IndexIsUnique(ws, i);
    if c != ws[i].ctx && j < |ws| {
      var k := if j < i then j else j - 1;
      assert ws'[k] == ws[j];
      IndexIsUnique(ws', k);
    }
  }

  lemma MailboxRephased(ws: seq<Waiter>, i: nat, p: Phase, c: Ctx)
    requires Distinct(ws) && i < |ws|
    ensures Mailbox(ws[i := ws[i].(phase := p)], c)
            == if c != ws[i].ctx then Mailbox(ws, c) else if p == Pending || p == Committed then None else Some(p)
  {
    var ws' := ws[i := ws[i].(phase := p)];
    RephaseHas(ws, i, p);
    IndexIsUnique(ws, i);
    var j := IndexOf(ws, c);
    if j < |ws| {
      assert ws'[j].ctx == c;
      IndexIsUnique(ws', j);
    } else {
      assert IndexOf(ws', c) == |ws|;
    }
  }

  lemma {:induction false} MailboxAppend(ws: seq<Waiter>, v: Waiter, c: Ctx)
    requires Live(v)
    ensures Mailbox(ws + [v], c) == Mailbox(ws, c)
  {
    if ws == [] {
      assert ws + [v] == [v];
      assert [v][1..] == [];
    } else {
      assert (ws + [v])[1..] == ws[1..] + [v];
      MailboxAppend(ws[1..], v, c);
    }
  }

  lemma OffersEmpty(ws: seq<Waiter>)
    ensures Offers(LiveOf(ws)) == [] <==> FirstLive(ws) == |ws|
  {
    if FirstLive(ws) == |ws| {
      LiveOfNone(ws);
    } else {
      DecideFirstLive(ws, Value);
    }
  }

  /** Deciding the first live entry takes its offer from the front of the offers. */
  lemma DecideFirstOffers(ws: seq<Waiter>, stamp: Phase)
    requires IsStamp(stamp) && FirstLive(ws) < |ws|
    ensures var v := ws[FirstLive(ws)];
            Offers(LiveOf(ws)) == [(v.ctx, v.value)] + Offers(LiveOf(DecideFirst(ws, stamp)))
  {
    DecideFirstLive(ws, stamp);
    var v, rest := ws[FirstLive(ws)], LiveOf(DecideFirst(ws, stamp));
    assert ([v] + rest)[1..] == rest;
  }

  lemma {:induction false} OfferIsLive(ws: seq<Waiter>, k: nat) returns (i: nat)
    requires k < |Offers(LiveOf(ws))|
    ensures i < |ws| && Live(ws[i]) && ws[i].ctx == Offers(LiveOf(ws))[k].0
  {
    var tail := ws[1..];
    if Live(ws[0]) {
      assert LiveOf(ws)[1..] == LiveOf(tail);
      if k == 0 {
        return 0;
      }
      i := OfferIsLive(tail, k - 1);
    } else {
      assert LiveOf(ws) == LiveOf(tail);
      i := OfferIsLive(tail, k);
    }
    i := i + 1;
  }

  lemma {:induction false} DecideAllNone(ws: seq<Waiter>, stamp: Phase)
    requires FirstLive(ws) == |ws|
    ensures DecideAll(ws, stamp) == ws && CommittedCtxs(ws) == []
  {
    if ws != [] {
      DecideAllNone(ws[1..], stamp);
    }
  }

  /** Deciding every live entry is deciding the first one, then every live entry of the rest. */
  lemma {:induction false} DecideAllUnrolls(ws: seq<Waiter>, stamp: Phase)
    requires IsStamp(stamp)
    ensures DecideAll(ws, stamp) == DecideAll(DecideFirst(ws, stamp), stamp)
    ensures var next := WakeAfterDecide(ws);
            CommittedCtxs(ws) == (if next.Some? then [next.value] else []) + CommittedCtxs(DecideFirst(ws, stamp))
  {
    if ws == [] {
    } else if Live(ws[0]) {
      DecideAllUnrollsHead(ws, stamp);
    } else {
      DecideAllUnrolls(ws[1..], stamp);
      DecideFirstSkips(ws, stamp);
      WakeSkips(ws);
      DecideAllSkips(ws[0], DecideFirst(ws[1..], stamp), stamp);
      DecideAllSkips(ws[0], ws[1..], stamp);
      assert [ws[0]] + ws[1..] == ws;
    }
  }

  lemma WakeSkips(ws: seq<Waiter>)
    requires ws != [] && !Live(ws[0])
    ensures WakeAfterDecide(ws) == WakeAfterDecide(ws[1..])
  {
    var i := FirstLive(ws[1..]);
    assert FirstLive(ws) == 1 + i;
    if i < |ws[1..]| {
      assert ws[1..][i] == ws[1 + i];
    }
  }

  lemma DecideAllSkips(v: Waiter, tail: seq<Waiter>, stamp: Phase)
    requires !Live(v)
    ensures DecideAll([v] + tail, stamp) == [v] + DecideAll(tail, stamp)
    ensures CommittedCtxs([v] + tail) == CommittedCtxs(tail)
  {
    assert ([v] + tail)[1..] == tail;
  }

  lemma DecideAllUnrollsHead(ws: seq<Waiter>, stamp: Phase)
    requires IsStamp(stamp) && ws != [] && Live(ws[0])
    ensures DecideAll(ws, stamp) == DecideAll(DecideFirst(ws, stamp), stamp)
    ensures var next := WakeAfterDecide(ws);
            CommittedCtxs(ws) == (if next.Some? then [next.value] else []) + CommittedCtxs(DecideFirst(ws, stamp))
  {
    var ws', tail := DecideFirst(ws, stamp), ws[1..];
    if ws[0].phase == Committed {
      assert ws' == tail;
    } else {
      assert ws' == [ws[0].(phase := stamp)] + tail;
      DecideAllSkips(ws[0].(phase := stamp), tail, stamp);
    }
  }
}
