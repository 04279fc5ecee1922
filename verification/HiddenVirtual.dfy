/** A tree the compiler accepts on which a virtual call misdispatches: a static member of the name
    stands in front of the virtual method, so implicit virtual propagation never finds it. */
module HiddenVirtual {
  import opened Wrappers
  import opened Hierarchy
  import opened Marking
  import opened MarkedHierarchy

  const INT := Param(Some(TypeExpr(0, false)), false)

  function Method(params: seq<Param>, isVirtual: bool): Member {
    Function("n", isVirtual, Sig(false, params, None))
  }

  const STATIC := Function("n", false, Sig(true, [Param(Some(TypeExpr(1, false)), false)], None))

  /** Class 0 has a static n(string) and behind it a virtual n(int). Class 1 extends it, implements
      an interface that requires n(int, int), and declares that first and n(int) second. */
  const HIDDEN := Tree(
    [Class(None, false, false, [], [STATIC, Method([INT], true)]),
     Class(Some(0), false, false, [0], [Method([INT, INT], false), Method([INT], false)])],
    [[Method([INT, INT], false)]])

  /** A family of instance methods called n, all virtual or all not. */
  lemma {:induction false} NamedFamily(ms: seq<Member>, name: string, isVirtual: bool)
    requires forall k :: 0 <= k < |ms| ==> IsInstance(ms[k], "n") && ms[k].isVirtual == isVirtual
    ensures Named(ms, name) == if name == "n" then ms else []
    ensures Virtuals(ms, name) == if name == "n" && isVirtual then ms else []
  {
    if ms != [] {
      var front, last := ms[..|ms| - 1], ms[|ms| - 1];
      NamedFamily(front, name, isVirtual);
      assert ms == front + [last];
    }
  }

  lemma NoInstances(ms: seq<Member>, name: string)
    requires |ms| == 1 && ms[0].Function? && ms[0].sig.isStatic
    ensures Named(ms, name) == [] && Virtuals(ms, name) == []
  {
    assert ms[..0] == [];
    assert Named([], name) == [] && Virtuals([], name) == [];
  }

  /** A static member in front of a family is none of it. */
  lemma StaticFirst(name: string)
    ensures Named([STATIC, Method([INT], true)], name) == if name == "n" then [Method([INT], true)] else []
    ensures Virtuals([STATIC, Method([INT], true)], name) == if name == "n" then [Method([INT], true)] else []
  {
    var ms := [STATIC, Method([INT], true)];
    assert ms[..1] == [STATIC];
    NoInstances([STATIC], name);
  }

  /** The pass finds the static where it looks for n, and marks nothing. */
  lemma HiddenUnmarked()
    ensures HIDDEN.Closed() && Acyclic(HIDDEN) && Marked(HIDDEN) == HIDDEN && !NothingHidden(HIDDEN)
  {
    HiddenRanked();
    forall c: ClassId, name, count: nat | c < 2
      ensures !Led(HIDDEN, c, name, count)
    {
      NotLed(c, name, count);
    }
    NobodyLedNobodyMarked(HIDDEN);
    var v := Method([INT], true);
    assert HIDDEN.classes[0].members == [STATIC, v];
    FirstIs([STATIC, v], "n");
    assert [STATIC, v][1] == v;
    assert IsVirtual(v, v.name) && v in HIDDEN.classes[0].members && !HIDDEN.classes[0].isBuiltin;
  }

  lemma FirstIs(ms: seq<Member>, name: string)
    requires ms != [] && ms[0].name == name
    ensures First(ms, name) == Some(ms[0])
  {
  }

  lemma HiddenRanked()
    ensures HIDDEN.Closed() && Acyclic(HIDDEN)
  {
    assert IsRank(HIDDEN, [0, 1]);
  }

  lemma NotLed(c: ClassId, name: string, count: nat)
    requires c < 2
    ensures Acyclic(HIDDEN) && !Led(HIDDEN, c, name, count)
  {
    HiddenRanked();
    Climbs(HIDDEN, 0);
    Climbs(HIDDEN, 1);
    assert Climb(HIDDEN, None) == [];
    assert Climb(HIDDEN, Some(0)) == [0] + Climb(HIDDEN, None) == [0];
    assert HIDDEN.classes[0].members == [STATIC, Method([INT], true)];
    assert !Leads(First([STATIC, Method([INT], true)], name), count) by {
      assert [STATIC, Method([INT], true)][1..] == [Method([INT], true)];
      assert [Method([INT], true)][1..] == [];
    }
  }

  lemma NobodyLedNobodyMarked(h: Tree)
    requires Acyclic(h) && forall c: ClassId, name, count: nat :: c < |h.classes| ==> !Led(h, c, name, count)
    ensures Marked(h) == h
  {
    forall c | 0 <= c < |h.classes|
      ensures Marked(h).classes[c] == h.classes[c]
    {
      assert MarkedMembers(h, c) == h.classes[c].members;
      assert Marked(h).classes[c] == MarkedClass(h, Ids(|h.classes|), c);
    }
    assert Marked(h).classes == h.classes;
  }

  lemma HiddenWalks()
    ensures HIDDEN.Closed() && Ancestors(HIDDEN, 0) == [] && Ancestors(HIDDEN, 1) == [0]
    ensures Chain(HIDDEN, 0) == [0] && Chain(HIDDEN, 1) == [1, 0]
  {
    assert HIDDEN.Closed();
    assert Walk(HIDDEN, None, {0}) == [] && Walk(HIDDEN, None, {1, 0}) == [];
    assert {1} + {0} == {1, 0} && {} + {0} == {0} && {} + {1} == {1};
    assert Walk(HIDDEN, Some(0), {1}) == [0];
  }

  lemma HiddenIfaces()
    ensures IfacesOf(HIDDEN, [0]) == [] && IfacesOf(HIDDEN, [1, 0]) == [0]
  {
    assert [0][..0] == [] && [1, 0][..1] == [1] && [1][..0] == [];
    assert Merge([], [0]) == [0] && Merge([0], []) == [0] && Merge([], []) == [];
    assert IfacesOf(HIDDEN, []) == [];
    assert IfacesOf(HIDDEN, [1]) == [0];
  }

  lemma HiddenVirtuals(name: string)
    ensures VirtualsOf(HIDDEN, [], name) == []
    ensures VirtualsOf(HIDDEN, [0], name) == if name == "n" then [Method([INT], true)] else []
    ensures VirtualsOf(HIDDEN, [1, 0], name) == if name == "n" then [Method([INT], true)] else []
  {
    StaticFirst(name);
    NamedFamily(HIDDEN.classes[1].members, name, false);
    TwoClassVirtuals(HIDDEN, name);
    hide Virtuals, VirtualsOf;
  }

  lemma TwoClassVirtuals(h: Tree, name: string)
    requires |h.classes| == 2
    ensures VirtualsOf(h, [], name) == []
    ensures VirtualsOf(h, [0], name) == Virtuals(h.classes[0].members, name)
    ensures VirtualsOf(h, [1, 0], name) == Virtuals(h.classes[1].members, name) + Virtuals(h.classes[0].members, name)
  {
    hide Virtuals;
    VirtualsStep(h, [], 0, name);
    VirtualsStep(h, [], 1, name);
    VirtualsStep(h, [1], 0, name);
    assert [] + [0] == [0] && [] + [1] == [1] && [1] + [0] == [1, 0];
  }

  lemma VirtualsStep(h: Tree, front: seq<ClassId>, last: ClassId, name: string)
    requires InTree(h, front) && last < |h.classes|
    ensures InTree(h, front + [last])
    ensures VirtualsOf(h, front + [last], name) == VirtualsOf(h, front, name) + Virtuals(h.classes[last].members, name)
  {
    hide Virtuals;
    assert (front + [last])[..|front|] == front;
  }

  lemma HiddenRequired(name: string)
    ensures RequiredBy(HIDDEN, [], name) == []
    ensures RequiredBy(HIDDEN, [0], name) == if name == "n" then [Method([INT, INT], false)] else []
  {
    NamedFamily(HIDDEN.ifaces[0], name, false);
    assert [0][..0] == [];
  }

  /** Marking and silent checks are not enough by themselves: the static keeps the pass from seeing
      the virtual method, every class is silent, and a call bound to the inherited n(int) dispatches
      to n(int, int). */
  lemma HiddenVirtualMisdispatches()
    ensures HIDDEN.Closed() && Acyclic(HIDDEN) && Marked(HIDDEN) == HIDDEN && !NothingHidden(HIDDEN)
    ensures AllSilent(Marked(HIDDEN)) && !VirtualCallsSafe(Marked(HIDDEN), 1, "n")
  {
    HiddenUnmarked();
    hide ClassOk, VirtualCallsSafe;
    HiddenSilent(0);
    HiddenSilent(1);
    HiddenUnsafe();
  }

  lemma HiddenUnsafe()
    ensures HIDDEN.Closed() && !VirtualCallsSafe(HIDDEN, 1, "n")
  {
    hide Walk, IfacesOf, RequiredBy, VirtualsOf, WinnerIn;
    HiddenWalks();
    HiddenVirtuals("n");
    HiddenWinner();
    assert [Method([INT], true)][0] in VirtualsOf(HIDDEN, Chain(HIDDEN, 1), "n");
  }

  lemma HiddenSilent(c: ClassId)
    requires c < 2
    ensures HIDDEN.Closed() && ClassOk(HIDDEN, c)
  {
    hide StaticOk, InstanceOk, Winner, Walk, IfacesOf, RequiredBy;
    HiddenWalks();
    forall name
      ensures StaticOk(HIDDEN, c, name) && InstanceOk(HIDDEN, c, name)
    {
      HiddenName(c, name);
    }
    HiddenIfaces();
    HiddenWinner();
    forall name, m | m in RequiredBy(HIDDEN, IfacesOf(HIDDEN, Chain(HIDDEN, c)), name)
      ensures c == 1 && name == "n" && m == Method([INT, INT], false)
    {
      HiddenRequired(name);
    }
  }

  lemma HiddenName(c: ClassId, name: string)
    requires c < 2
    ensures HIDDEN.Closed() && StaticOk(HIDDEN, c, name) && InstanceOk(HIDDEN, c, name)
  {
    HiddenContract(c, name);
    if c == 0 {
      StaticFirst(name);
    } else {
      NamedFamily(HIDDEN.classes[c].members, name, false);
    }
    HiddenStatic(c, name);
    hide Walk, VirtualsOf, RequiredBy, IfacesOf, Contract, Ancestors, Named, Uniform, Bijective, StaticOk;
    if name == "n" && c == 1 {
      Overloads(Method([INT], true), Method([INT, INT], false), Method([INT], false));
    } else if name == "n" {
      Alone(Method([INT], true));
    } else {
      Nothing();
    }
  }

  lemma HiddenStatic(c: ClassId, name: string)
    requires c < 2
    ensures HIDDEN.Closed() && StaticOk(HIDDEN, c, name)
  {
    hide Walk, VirtualsOf;
    HiddenWalks();
  }

  lemma Overloads(a: Member, b: Member, a': Member)
    requires a.Function? && b.Function? && a'.Function? && a.sig == a'.sig && a.sig != b.sig && !b.isVirtual
              && !a'.isVirtual
    ensures Uniform([b, a']) && Bijective([b, a'], [a] + [b])
  {
    SameSigs(a, b, a');
  }

  lemma Alone(a: Member)
    ensures Uniform([a])
  {
  }

  lemma Nothing()
    ensures Uniform([])
  {
  }

  lemma HiddenContract(c: ClassId, name: string)
    requires c < 2
    ensures HIDDEN.Closed()
    ensures Contract(HIDDEN, c, name)
            == if c == 1 && name == "n" then [Method([INT], true)] + [Method([INT, INT], false)] else []
  {
    hide Walk, VirtualsOf, RequiredBy, IfacesOf;
    HiddenWalks();
    HiddenIfaces();
    HiddenVirtuals(name);
    HiddenRequired(name);
  }

  lemma HiddenWinner()
    ensures HIDDEN.Closed() && Winner(HIDDEN, 1, "n") == Some(Method([INT, INT], false))
  {
    hide Walk;
    HiddenWalks();
    NamedFamily(HIDDEN.classes[1].members, "n", false);
  }

  lemma SameSigs(a: Member, b: Member, a': Member)
    requires a.Function? && b.Function? && a'.Function? && a.sig == a'.sig
    ensures Sigs([b, a']) == Sigs([a] + [b])
  {
    assert [b, a'][0] == b && [b, a'][1] == a' && ([a] + [b])[0] == a && ([a] + [b])[1] == b;
  }
}
