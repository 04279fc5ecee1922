/** Implicit virtual propagation: before the contract checks look at a class, its methods that override
    a virtual one are marked virtual too. The pass asks each ancestor for one member of the name and
    compares parameter counts; it runs in document order, so a class may be visited before its
    ancestors are. */
module Marking {
  import opened Wrappers
  import opened Hierarchy

  // ---------------------------------------------------------------- climbing to the root

  ghost predicate IsRank(h: Tree, rank: seq<nat>) {
    && |rank| == |h.classes|
    && forall c :: 0 <= c < |h.classes| && h.classes[c].super.Some? ==>
         h.classes[c].super.value < |h.classes| && rank[h.classes[c].super.value] < rank[c]
  }

  /** No class is its own ancestor. */
  ghost predicate Acyclic(h: Tree) {
    exists rank: seq<nat> :: IsRank(h, rank)
  }

  ghost predicate Within(h: Tree, c: Option<ClassId>) {
    c.Some? ==> c.value < |h.classes|
  }

  ghost function Rank(h: Tree, c: Option<ClassId>): nat
    requires Acyclic(h) && Within(h, c)
  {
    var rank: seq<nat> :| IsRank(h, rank);
    if c == None then 0 else 1 + rank[c.value]
  }

  lemma Climbs(h: Tree, c: ClassId)
    requires Acyclic(h) && c < |h.classes|
    ensures Within(h, h.classes[c].super) && Rank(h, h.classes[c].super) < Rank(h, Some(c))
  {
  }

  /** The class and all its ancestors, builtin ones too. */
  ghost function Climb(h: Tree, c: Option<ClassId>): (chain: seq<ClassId>)
    requires Acyclic(h) && Within(h, c)
    ensures forall k :: 0 <= k < |chain| ==> chain[k] < |h.classes|
    decreases Rank(h, c)
  {
    if c == None then []
    else
      Climbs(h, c.value);
      [c.value] + Climb(h, h.classes[c.value].super)
  }

  /** The ancestors of an ancestor are ancestors. */
  lemma {:induction false} ClimbOn(h: Tree, c: Option<ClassId>, a: ClassId, b: ClassId)
    requires Acyclic(h) && Within(h, c) && a in Climb(h, c) && b in Climb(h, Some(a))
    ensures b in Climb(h, c)
    decreases Rank(h, c)
  {
    if c != Some(a) {
      Climbs(h, c.value);
      ClimbOn(h, h.classes[c.value].super, a, b);
    }
  }

  /** Everything above an ancestor is above the class. */
  lemma ClimbAbove(h: Tree, c: Option<ClassId>, a: ClassId, b: ClassId)
    requires Acyclic(h) && Within(h, c) && a in Climb(h, c) && Within(h, h.classes[a].super)
    requires b in Climb(h, h.classes[a].super)
    ensures b in Climb(h, c)
  {
    Climbs(h, a);
    assert Climb(h, Some(a)) == [a] + Climb(h, h.classes[a].super);
    ClimbOn(h, c, a, b);
  }

  lemma {:induction false} ClimbBelow(h: Tree, c: Option<ClassId>, a: ClassId)
    requires Acyclic(h) && Within(h, c) && a in Climb(h, c)
    ensures Rank(h, Some(a)) <= Rank(h, c)
    decreases Rank(h, c)
  {
    if c != Some(a) {
      Climbs(h, c.value);
      ClimbBelow(h, h.classes[c.value].super, a);
    }
  }

  /** The checks' walk, which stops at builtin classes, meets nothing but ancestors. */
  lemma {:induction false} WalkClimbs(h: Tree, c: Option<ClassId>, seen: set<ClassId>, a: ClassId)
    requires h.Closed() && Acyclic(h) && Within(h, c) && a in Walk(h, c, seen)
    ensures a in Climb(h, c)
    decreases Rank(h, c)
  {
    Climbs(h, c.value);
    if c != Some(a) {
      WalkClimbs(h, h.classes[c.value].super, seen + {c.value}, a);
    }
  }

  // ---------------------------------------------------------------- one member per ancestor

  /** The first member of the name, of whatever kind. */
  function First(ms: seq<Member>, name: string): (r: Option<Member>)
    ensures r.Some? ==> r.value in ms && r.value.name == name
  {
    if ms == [] then None else if ms[0].name == name then Some(ms[0]) else First(ms[1..], name)
  }

  /** The class's own first member of the name, else its nearest ancestor's. */
  ghost function Lookup(h: Tree, c: ClassId, name: string): Option<Member>
    requires Acyclic(h) && c < |h.classes|
    decreases Rank(h, Some(c))
  {
    if First(h.classes[c].members, name).Some? then First(h.classes[c].members, name)
    else
      Climbs(h, c);
      if h.classes[c].super == None then None else Lookup(h, h.classes[c].super.value, name)
  }

  /** What the lookup finds is the first member of the name of some ancestor. */
  lemma {:induction false} LookupIsFirst(h: Tree, c: ClassId, name: string) returns (a: ClassId)
    requires Acyclic(h) && c < |h.classes| && Lookup(h, c, name).Some?
    ensures a in Climb(h, Some(c)) && Lookup(h, c, name) == First(h.classes[a].members, name)
    decreases Rank(h, Some(c))
  {
    Climbs(h, c);
    if First(h.classes[c].members, name).Some? {
      a := c;
    } else {
      a := LookupIsFirst(h, h.classes[c].super.value, name);
    }
  }

  predicate Leads(m: Option<Member>, count: nat) {
    m.Some? && m.value.Function? && m.value.isVirtual && |m.value.sig.params| == count
  }

  /** What the pass asks about a method of class `c`: does some ancestor's lookup of the name find a
      virtual function with as many parameters? */
  ghost predicate Overrides(h: Tree, c: ClassId, m: Member)
    requires Acyclic(h) && c < |h.classes| && m.Function?
  {
    Climbs(h, c);
    exists k :: 0 <= k < |Climb(h, h.classes[c].super)|
        && Leads(Lookup(h, Climb(h, h.classes[c].super)[k], m.name), |m.sig.params|)
  }

  function MarkIf(m: Member, mark: bool): (r: Member)
    ensures r.name == m.name && r.Function? == m.Function? && (m.Function? ==> r.sig == m.sig)
    ensures m.Function? ==> r.isVirtual == (m.isVirtual || mark)
    ensures !m.Function? ==> r == m
  {
    if m.Function? && mark then m.(isVirtual := true) else m
  }

  /** The class after its visit. */
  ghost function Propagated(h: Tree, c: ClassId): Tree
    requires Acyclic(h) && c < |h.classes|
  {
    var ms := h.classes[c].members;
    WithMembers(h, c, seq(|ms|, k requires 0 <= k < |ms| => MarkIf(ms[k], ms[k].Function? && Overrides(h, c, ms[k]))))
  }

  function WithMembers(h: Tree, c: ClassId, ms: seq<Member>): Tree
    requires c < |h.classes|
  {
    h.(classes := h.classes[c := h.classes[c].(members := ms)])
  }

  /** Two trees that differ in members only. */
  ghost predicate SameShape(h: Tree, g: Tree) {
    && |h.classes| == |g.classes| && h.ifaces == g.ifaces
    && forall c :: 0 <= c < |h.classes| ==> h.classes[c].(members := []) == g.classes[c].(members := [])
  }

  lemma ShapeKeepsSupers(h: Tree, g: Tree, c: ClassId)
    requires SameShape(h, g) && c < |h.classes|
    ensures g.classes[c].super == h.classes[c].super && g.classes[c].isBuiltin == h.classes[c].isBuiltin
    ensures g.classes[c].implements == h.classes[c].implements && g.classes[c].isImported == h.classes[c].isImported
  {
    assert h.classes[c].(members := []).super == g.classes[c].(members := []).super;
    assert h.classes[c].(members := []).isBuiltin == g.classes[c].(members := []).isBuiltin;
    assert h.classes[c].(members := []).implements == g.classes[c].(members := []).implements;
    assert h.classes[c].(members := []).isImported == g.classes[c].(members := []).isImported;
  }

  lemma ShapeKeepsAcyclic(h: Tree, g: Tree)
    requires SameShape(h, g)
    ensures Acyclic(h) <==> Acyclic(g)
    ensures h.Closed() <==> g.Closed()
  {
    forall c | 0 <= c < |h.classes|
      ensures g.classes[c].super == h.classes[c].super && g.classes[c].implements == h.classes[c].implements
    {
      ShapeKeepsSupers(h, g, c);
    }
    if rank: seq<nat> :| IsRank(h, rank) {
      assert IsRank(g, rank);
    }
    if rank: seq<nat> :| IsRank(g, rank) {
      assert IsRank(h, rank);
    }
  }

  lemma {:induction false} ShapeKeepsClimb(h: Tree, g: Tree, c: Option<ClassId>)
    requires SameShape(h, g) && Acyclic(h) && Acyclic(g) && Within(h, c)
    ensures Climb(g, c) == Climb(h, c)
    decreases Rank(h, c)
  {
    if c != None {
      Climbs(h, c.value);
      Climbs(g, c.value);
      ShapeKeepsSupers(h, g, c.value);
      ShapeKeepsClimb(h, g, h.classes[c.value].super);
    }
  }

  // ---------------------------------------------------------------- what the pass does, on declared marks alone

  /** Some ancestor's first member of the name is declared virtual, a function, and has as many
      parameters. */
  ghost predicate Led(h: Tree, c: ClassId, name: string, count: nat)
    requires Acyclic(h) && c < |h.classes|
  {
    Climbs(h, c);
    exists a :: a in Climb(h, h.classes[c].super) && Leads(First(h.classes[a].members, name), count)
  }

  /** The marks after `visited` were visited. */
  ghost function MarkedIn(h: Tree, visited: set<ClassId>): (g: Tree)
    requires Acyclic(h)
    ensures SameShape(h, g)
  {
    Tree(seq(|h.classes|, c requires 0 <= c < |h.classes| => MarkedClass(h, visited, c)), h.ifaces)
  }

  ghost function MarkedClass(h: Tree, visited: set<ClassId>, c: ClassId): (r: Class)
    requires Acyclic(h) && c < |h.classes|
    ensures r.(members := []) == h.classes[c].(members := [])
  {
    if c in visited then h.classes[c].(members := MarkedMembers(h, c)) else h.classes[c]
  }

  ghost function MarkedMembers(h: Tree, c: ClassId): (r: seq<Member>)
    requires Acyclic(h) && c < |h.classes|
    ensures |r| == |h.classes[c].members|
    ensures forall k :: 0 <= k < |r| ==> r[k] == MarkIf(h.classes[c].members[k], Marks(h, c, h.classes[c].members[k]))
  {
    var ms := h.classes[c].members;
    seq(|ms|, k requires 0 <= k < |ms| => MarkIf(ms[k], Marks(h, c, ms[k])))
  }

  ghost predicate Marks(h: Tree, c: ClassId, m: Member)
    requires Acyclic(h) && c < |h.classes|
  {
    m.Function? && Led(h, c, m.name, |m.sig.params|)
  }

  /** The first member of the name after a marking is the marked first member. */
  lemma {:induction false} FirstMarked(ms: seq<Member>, gs: seq<Member>, name: string) returns (k: nat)
    requires |gs| == |ms| && forall i :: 0 <= i < |ms| ==> gs[i].name == ms[i].name
    requires First(ms, name).Some? || First(gs, name).Some?
    ensures k < |ms| && First(ms, name) == Some(ms[k]) && First(gs, name) == Some(gs[k])
  {
    if ms[0].name == name {
      k := 0;
    } else {
      k := FirstMarked(ms[1..], gs[1..], name);
      k := k + 1;
    }
  }

  /** A virtual first member of the name, declared or marked, means one declared at it or above it. */
  lemma LeadsBack(h: Tree, visited: set<ClassId>, a: ClassId, name: string, count: nat)
    requires Acyclic(h) && a < |h.classes|
    requires Leads(First(MarkedIn(h, visited).classes[a].members, name), count)
    ensures Leads(First(h.classes[a].members, name), count) || Led(h, a, name, count)
  {
    hide Led;
    var ms, gs := h.classes[a].members, MarkedIn(h, visited).classes[a].members;
    assert MarkedIn(h, visited).classes[a] == MarkedClass(h, visited, a);
    var k := FirstMarked(ms, gs, name);
  }

  lemma LeadsOn(h: Tree, visited: set<ClassId>, a: ClassId, name: string, count: nat)
    requires Acyclic(h) && a < |h.classes| && Leads(First(h.classes[a].members, name), count)
    ensures Leads(First(MarkedIn(h, visited).classes[a].members, name), count)
  {
    hide Led;
    var ms, gs := h.classes[a].members, MarkedIn(h, visited).classes[a].members;
    assert MarkedIn(h, visited).classes[a] == MarkedClass(h, visited, a);
    var k := FirstMarked(ms, gs, name);
  }

  /** Led above an ancestor is led. */
  lemma LedAbove(h: Tree, c: ClassId, a: ClassId, name: string, count: nat)
    requires Acyclic(h) && c < |h.classes| && Within(h, h.classes[c].super) && a in Climb(h, h.classes[c].super)
    requires Led(h, a, name, count)
    ensures Led(h, c, name, count)
  {
    Climbs(h, a);
    var b :| b in Climb(h, h.classes[a].super) && Leads(First(h.classes[b].members, name), count);
    ClimbAbove(h, h.classes[c].super, a, b);
  }

  /** Whatever has been marked so far, a visit asks the declared marks. */
  lemma OverridesIsLed(h: Tree, visited: set<ClassId>, c: ClassId, m: Member)
    requires Acyclic(h) && c < |h.classes| && m.Function? && Acyclic(MarkedIn(h, visited))
    ensures Overrides(MarkedIn(h, visited), c, m) <==> Led(h, c, m.name, |m.sig.params|)
  {
    var g, count := MarkedIn(h, visited), |m.sig.params|;
    Climbs(h, c);
    Climbs(g, c);
    ShapeKeepsSupers(h, g, c);
    var up := Climb(h, h.classes[c].super);
    ShapeKeepsClimb(h, g, h.classes[c].super);
    hide Climb, MarkedIn;
    if Overrides(g, c, m) {
      var k :| 0 <= k < |up| && Leads(Lookup(g, up[k], m.name), count);
      LookupLeads(h, g, c, up[k], m.name, visited, count);
    }
    if Led(h, c, m.name, count) {
      var a :| a in up && Leads(First(h.classes[a].members, m.name), count);
      LeadsOn(h, visited, a, m.name, count);
      var k :| 0 <= k < |up| && up[k] == a;
      assert Leads(Lookup(g, up[k], m.name), count);
    }
  }

  lemma LookupLeads(h: Tree, g: Tree, c: ClassId, a: ClassId, name: string, visited: set<ClassId>, count: nat)
    requires Acyclic(h) && Acyclic(g) && g == MarkedIn(h, visited) && c < |h.classes| && a < |h.classes|
    requires Within(h, h.classes[c].super) && a in Climb(h, h.classes[c].super) && Leads(Lookup(g, a, name), count)
    ensures Led(h, c, name, count)
  {
    var b := LookupIsFirst(g, a, name);
    ShapeKeepsClimb(h, g, Some(a));
    ClimbOn(h, h.classes[c].super, a, b);
    LeadsBack(h, visited, b, name, count);
    if Led(h, b, name, count) {
      LedAbove(h, c, b, name, count);
    }
  }

  /** One visit, at whatever point of the pass. */
  lemma VisitMarks(h: Tree, visited: set<ClassId>, c: ClassId)
    requires Acyclic(h) && c < |h.classes|
    ensures Acyclic(MarkedIn(h, visited)) && Propagated(MarkedIn(h, visited), c) == MarkedIn(h, visited + {c})
  {
    var g, more := MarkedIn(h, visited), MarkedIn(h, visited + {c});
    ShapeKeepsAcyclic(h, g);
    var ms, gs := h.classes[c].members, g.classes[c].members;
    assert g.classes[c] == MarkedClass(h, visited, c);
    forall k | 0 <= k < |gs|
      ensures MarkIf(gs[k], gs[k].Function? && Overrides(g, c, gs[k])) == more.classes[c].members[k]
    {
      assert more.classes[c] == MarkedClass(h, visited + {c}, c);
      if ms[k].Function? {
        OverridesIsLed(h, visited, c, gs[k]);
      }
    }
    assert Propagated(g, c).classes[c].members == more.classes[c].members;
    forall d | 0 <= d < |h.classes|
      ensures Propagated(g, c).classes[d] == more.classes[d]
    {
      assert g.classes[d] == MarkedClass(h, visited, d) && more.classes[d] == MarkedClass(h, visited + {c}, d);
    }
  }

  // ---------------------------------------------------------------- the same, link by link

  /** A chain of superclass links. */
  ghost predicate Ascent(h: Tree, path: seq<ClassId>) {
    && path != []
    && (forall k :: 0 <= k < |path| ==> path[k] < |h.classes|)
    && (forall k :: 0 <= k < |path| - 1 ==> h.classes[path[k]].super == Some(path[k + 1]))
  }

  ghost predicate Reaches(h: Tree, c: ClassId, a: ClassId) {
    exists path :: Ascent(h, path) && path[0] == c && path[|path| - 1] == a
  }

  lemma {:induction false} AscentClimbs(h: Tree, path: seq<ClassId>)
    requires Acyclic(h) && Ascent(h, path)
    ensures path[|path| - 1] in Climb(h, Some(path[0]))
    decreases |path|
  {
    if |path| > 1 {
      Climbs(h, path[0]);
      AscentClimbs(h, path[1..]);
    }
  }

  lemma {:induction false} ClimbAscends(h: Tree, c: ClassId, a: ClassId) returns (path: seq<ClassId>)
    requires Acyclic(h) && c < |h.classes| && a in Climb(h, Some(c))
    ensures Ascent(h, path) && path[0] == c && path[|path| - 1] == a
    decreases Rank(h, Some(c))
  {
    if a == c {
      path := [c];
    } else {
      Climbs(h, c);
      var rest := ClimbAscends(h, h.classes[c].super.value, a);
      path := [c] + rest;
    }
  }

  lemma ClimbIsReach(h: Tree, c: ClassId, a: ClassId)
    requires Acyclic(h) && c < |h.classes|
    ensures a in Climb(h, Some(c)) <==> Reaches(h, c, a)
  {
    if a in Climb(h, Some(c)) {
      var path := ClimbAscends(h, c, a);
    }
    if Reaches(h, c, a) {
      var path :| Ascent(h, path) && path[0] == c && path[|path| - 1] == a;
      AscentClimbs(h, path);
    }
  }

  /** The member at `k` is the first of the name. */
  predicate FirstAt(ms: seq<Member>, name: string, k: nat) {
    k < |ms| && ms[k].name == name && forall j :: 0 <= j < k ==> ms[j].name != name
  }

  lemma {:induction false} FirstIsAt(ms: seq<Member>, name: string, k: nat)
    ensures FirstAt(ms, name, k) ==> First(ms, name) == Some(ms[k])
    ensures First(ms, name) == None <==> forall j :: 0 <= j < |ms| ==> ms[j].name != name
  {
    if ms != [] && ms[0].name != name {
      FirstIsAt(ms[1..], name, if k > 0 then k - 1 else 0);
      assert forall j :: 0 < j < |ms| ==> ms[j] == ms[1..][j - 1];
    }
  }

  lemma {:induction false} FirstExists(ms: seq<Member>, name: string) returns (k: nat)
    requires First(ms, name).Some?
    ensures FirstAt(ms, name, k)
  {
    if ms[0].name == name {
      k := 0;
    } else {
      k := FirstExists(ms[1..], name);
      k := k + 1;
    }
  }

  /** A method leads those below it when it is its class's first member of the name, virtual, and
      takes as many parameters; a field or another method of the name before it hides it. */
  ghost predicate LeadsAt(h: Tree, a: ClassId, name: string, count: nat) {
    && a < |h.classes|
    && exists k: nat :: FirstAt(h.classes[a].members, name, k) && IsVirtualOf(h.classes[a].members[k], count)
  }

  predicate IsVirtualOf(m: Member, count: nat) {
    m.Function? && m.isVirtual && |m.sig.params| == count
  }

  lemma LeadsIsAt(h: Tree, a: ClassId, name: string, count: nat)
    requires a < |h.classes|
    ensures Leads(First(h.classes[a].members, name), count) <==> LeadsAt(h, a, name, count)
  {
    var ms := h.classes[a].members;
    if First(ms, name).Some? {
      var k := FirstExists(ms, name);
      FirstIsAt(ms, name, k);
      assert forall j: nat :: FirstAt(ms, name, j) ==> j == k;
    } else {
      FirstIsAt(ms, name, 0);
    }
  }

  /** A method is led exactly when, up its superclass links, some class has a leading method. */
  lemma LedLinkByLink(h: Tree, c: ClassId, name: string, count: nat)
    requires Acyclic(h) && c < |h.classes|
    ensures Led(h, c, name, count) <==>
            h.classes[c].super.Some?
            && exists a :: Reaches(h, h.classes[c].super.value, a) && LeadsAt(h, a, name, count)
  {
    Climbs(h, c);
    var up := h.classes[c].super;
    hide Climb, Reaches, Leads, First, LeadsAt;
    if Led(h, c, name, count) {
      var a :| a in Climb(h, up) && Leads(First(h.classes[a].members, name), count);
      ClimbNone(h, up);
      ClimbIsReach(h, up.value, a);
      LeadsIsAt(h, a, name, count);
    }
    if up.Some? && exists a :: Reaches(h, up.value, a) && LeadsAt(h, a, name, count) {
      var a :| Reaches(h, up.value, a) && LeadsAt(h, a, name, count);
      ClimbIsReach(h, up.value, a);
      InTable(h, a, name, count);
      LeadsIsAt(h, a, name, count);
    }
  }

  lemma ClimbNone(h: Tree, c: Option<ClassId>)
    requires Acyclic(h) && Within(h, c)
    ensures c == None ==> Climb(h, c) == []
  {
  }

  lemma InTable(h: Tree, a: ClassId, name: string, count: nat)
    requires LeadsAt(h, a, name, count)
    ensures a < |h.classes|
  {
  }

  /** The lookup is the nearest declaration: the first member of the name in the first class up the
      links that has one, or none when no class does. */
  lemma {:induction false} LookupIsNearest(h: Tree, c: ClassId, name: string) returns (path: seq<ClassId>)
    requires Acyclic(h) && c < |h.classes|
    ensures Ascent(h, path) && path[0] == c
    ensures forall k :: 0 <= k < |path| - 1 ==> NoneOf(h, path[k], name)
    ensures Lookup(h, c, name) == None ==>
              NoneOf(h, path[|path| - 1], name) && h.classes[path[|path| - 1]].super == None
    ensures Lookup(h, c, name).Some? ==> DeclaresFirst(h, path[|path| - 1], name, Lookup(h, c, name).value)
    decreases Rank(h, Some(c))
  {
    Climbs(h, c);
    FirstIsAt(h.classes[c].members, name, 0);
    if First(h.classes[c].members, name).Some? {
      path := [c];
      var k := FirstExists(h.classes[c].members, name);
      FirstIsAt(h.classes[c].members, name, k);
    } else if h.classes[c].super == None {
      path := [c];
    } else {
      var rest := LookupIsNearest(h, h.classes[c].super.value, name);
      path := [c] + rest;
    }
  }

  ghost predicate DeclaresFirst(h: Tree, c: ClassId, name: string, m: Member) {
    c < |h.classes| && exists k: nat :: FirstAt(h.classes[c].members, name, k) && h.classes[c].members[k] == m
  }

  predicate NoneOf(h: Tree, c: ClassId, name: string) {
    c < |h.classes| && forall j :: 0 <= j < |h.classes[c].members| ==> h.classes[c].members[j].name != name
  }

  // ---------------------------------------------------------------- the pass

  lemma {:induction false} LookupFrame(h: Tree, g: Tree, a: ClassId, name: string)
    requires SameShape(h, g) && Acyclic(h) && Acyclic(g) && a < |h.classes|
    requires forall x :: x in Climb(h, Some(a)) ==> g.classes[x] == h.classes[x]
    ensures Lookup(g, a, name) == Lookup(h, a, name)
    decreases Rank(h, Some(a))
  {
    Climbs(h, a);
    Climbs(g, a);
    assert a in Climb(h, Some(a));
    if h.classes[a].super.Some? {
      LookupFrame(h, g, h.classes[a].super.value, name);
    }
  }

  /** Marking a class's own members changes nothing its ancestors answer. */
  lemma OwnMarksUnseen(h: Tree, c: ClassId, ms: seq<Member>, a: ClassId, name: string)
    requires Acyclic(h) && c < |h.classes| && Within(h, h.classes[c].super) && a in Climb(h, h.classes[c].super)
    ensures var g := WithMembers(h, c, ms); SameShape(h, g) && Acyclic(g) && Lookup(g, a, name) == Lookup(h, a, name)
  {
    var g := WithMembers(h, c, ms);
    ShapeKeepsAcyclic(h, g);
    Climbs(h, c);
    forall x | x in Climb(h, Some(a))
      ensures g.classes[x] == h.classes[x]
    {
      ClimbOn(h, h.classes[c].super, a, x);
      ClimbBelow(h, h.classes[c].super, x);
    }
    LookupFrame(h, g, a, name);
  }

  class StatementResolveAccessor {
    var tree: Tree

    constructor (tree: Tree)
      ensures this.tree == tree
    {
      this.tree := tree;
    }

    method FindFirst(ms: seq<Member>, name: string) returns (m: Option<Member>)
      ensures m == First(ms, name)
    {
      for i := 0 to |ms|
        invariant First(ms, name) == First(ms[i..], name)
      {
        assert ms[i..][0] == ms[i] && ms[i..][1..] == ms[i + 1..];
        if ms[i].name == name {
          return Some(ms[i]);
        }
      }
      return None;
    }

    /** The class's own members first, then its superclass. */
    method FindField(c: ClassId, name: string) returns (m: Option<Member>)
      requires Acyclic(tree) && c < |tree.classes|
      ensures m == Lookup(tree, c, name)
      decreases Rank(tree, Some(c))
    {
      Climbs(tree, c);
      m := FindFirst(tree.classes[c].members, name);
      if m == None && tree.classes[c].super.Some? {
        m := FindField(tree.classes[c].super.value, name);
      }
    }

    /** Every ancestor in turn, until one's lookup finds a virtual function with as many parameters. */
    method FindsOverridden(c: ClassId, m: Member) returns (found: bool)
      requires Acyclic(tree) && c < |tree.classes| && m.Function?
      ensures found <==> Overrides(tree, c, m)
    {
      Climbs(tree, c);
      ghost var up := Climb(tree, tree.classes[c].super);
      ghost var done: nat := 0;
      var ancestor := tree.classes[c].super;
      while ancestor.Some?
        invariant Within(tree, ancestor) && done <= |up| && up[done..] == Climb(tree, ancestor)
        invariant forall k :: 0 <= k < done ==> !Leads(Lookup(tree, up[k], m.name), |m.sig.params|)
        decreases Rank(tree, ancestor)
      {
        Climbs(tree, ancestor.value);
        assert up[done..][0] == up[done] && up[done..][1..] == up[done + 1..];
        var parent := FindField(ancestor.value, m.name);
        if parent.Some? && parent.value.Function? && parent.value.isVirtual
            && |m.sig.params| == |parent.value.sig.params| {
          return true;
        }
        ancestor, done := tree.classes[ancestor.value].super, done + 1;
      }
      return false;
    }

    /** One class: each method that is not virtual and overrides a virtual one gets the mark, in place. */
    method PropagateVirtualOverrides(c: ClassId)
      requires Acyclic(tree) && c < |tree.classes|
      modifies this
      ensures tree == Propagated(old(tree), c)
    {
      ghost var h := tree;
      ghost var own, marked := h.classes[c].members, Propagated(h, c).classes[c].members;
      var n := |tree.classes[c].members|;
      WithOwn(h, c);
      assert marked[..0] + own[0..] == own;
      hide SameShape;
      for i := 0 to n
        invariant tree == WithMembers(h, c, marked[..i] + own[i..])
      {
        var ms := tree.classes[c].members;
        SameAnswer(h, tree, c, ms, i, own, marked);
        if ms[i].Function? && !ms[i].isVirtual {
          var overrides := FindsOverridden(c, ms[i]);
          if overrides {
            tree := WithMembers(tree, c, ms[i := ms[i].(isVirtual := true)]);
          }
        }
        WithTwice(h, c, ms, tree.classes[c].members);
      }
      assert marked[..n] + own[n..] == marked;
    }

    /** The pass over the classes in the order they are met. */
    method Resolve(order: seq<ClassId>)
      requires Acyclic(tree) && forall k :: 0 <= k < |order| ==> order[k] < |tree.classes|
      modifies this
      ensures tree == MarkedIn(old(tree), set c | c in order)
    {
      ghost var h := tree;
      ghost var visited: set<ClassId> := {};
      NoneMarked(h);
      for k := 0 to |order|
        invariant tree == MarkedIn(h, visited) && visited == set c | c in order[..k]
      {
        VisitMarks(h, visited, order[k]);
        PropagateVirtualOverrides(order[k]);
        visited := visited + {order[k]};
        assert order[..k + 1] == order[..k] + [order[k]];
      }
      assert order[..|order|] == order;
    }
  }

  lemma NoneMarked(h: Tree)
    requires Acyclic(h)
    ensures MarkedIn(h, {}) == h
  {
    var g := MarkedIn(h, {});
    forall c | 0 <= c < |h.classes|
      ensures g.classes[c] == h.classes[c]
    {
      assert g.classes[c] == MarkedClass(h, {}, c);
    }
    assert g.classes == h.classes;
  }

  lemma WithOwn(h: Tree, c: ClassId)
    requires c < |h.classes|
    ensures WithMembers(h, c, h.classes[c].members) == h
  {
    assert h.classes[c].(members := h.classes[c].members) == h.classes[c];
    assert h.classes[c := h.classes[c]] == h.classes;
  }

  lemma WithTwice(h: Tree, c: ClassId, ms: seq<Member>, more: seq<Member>)
    requires c < |h.classes|
    ensures WithMembers(h, c, ms).classes[c].members == ms
    ensures WithMembers(WithMembers(h, c, ms), c, more) == WithMembers(h, c, more)
  {
    assert h.classes[c := h.classes[c].(members := ms)][c := h.classes[c].(members := more)]
        == h.classes[c := h.classes[c].(members := more)];
  }

  /** With some of its own members marked, a class's next member is still its own, and gets the same answer. */
  lemma SameAnswer(h: Tree, g: Tree, c: ClassId, ms: seq<Member>, i: nat, own: seq<Member>, marked: seq<Member>)
    requires Acyclic(h) && c < |h.classes| && own == h.classes[c].members
              && marked == Propagated(h, c).classes[c].members
    requires i < |own| == |marked| && ms == marked[..i] + own[i..] && g == WithMembers(h, c, ms)
    ensures Acyclic(g) && ms[i] == own[i] && (own[i].Function? ==>
              (Overrides(g, c, own[i]) <==> Overrides(h, c, own[i])))
    ensures marked[i] == MarkIf(own[i], own[i].Function? && Overrides(h, c, own[i]))
    ensures ms[i := marked[i]] == marked[..i + 1] + own[i + 1..] && ms[i := ms[i]] == ms
  {
    ShapeKeepsAcyclic(h, g);
    if own[i].Function? {
      var m := own[i];
      Climbs(h, c);
      Climbs(g, c);
      ShapeKeepsClimb(h, g, h.classes[c].super);
      forall k | 0 <= k < |Climb(h, h.classes[c].super)|
        ensures Lookup(g, Climb(h, h.classes[c].super)[k], m.name) == Lookup(h, Climb(h, h.classes[c].super)[k], m.name)
      {
        OwnMarksUnseen(h, c, ms, Climb(h, h.classes[c].super)[k], m.name);
      }
    }
  }
}
