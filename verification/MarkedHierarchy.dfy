/** What implicit virtual propagation buys the contract checks: exactly where overrides end up marked,
    and a condition on the declarations under which silent checks are enough. */
module MarkedHierarchy {
  import opened Wrappers
  import opened Hierarchy
  import opened Marking

  /** The tree the checks see: every class was visited. */
  ghost function Marked(h: Tree): (g: Tree)
    requires Acyclic(h)
    ensures SameShape(h, g)
  {
    MarkedIn(h, Ids(|h.classes|))
  }

  lemma {:induction false} ShapeKeepsWalk(h: Tree, g: Tree, c: Option<ClassId>, seen: set<ClassId>)
    requires h.Closed() && g.Closed() && SameShape(h, g) && Within(h, c)
    ensures Walk(g, c, seen) == Walk(h, c, seen)
    decreases Unseen(h, seen)
  {
    if c != None && c.value !in seen {
      ShapeKeepsSupers(h, g, c.value);
      if !h.classes[c.value].isBuiltin {
        SeeOne(h, seen, c.value);
        ShapeKeepsWalk(h, g, h.classes[c.value].super, seen + {c.value});
      }
    }
  }

  lemma MarkedKeeps(h: Tree, c: ClassId)
    requires h.Closed() && Acyclic(h) && c < |h.classes|
    ensures Marked(h).Closed() && Ancestors(Marked(h), c) == Ancestors(h, c) && Chain(Marked(h), c) == Chain(h, c)
    ensures Marked(h).classes[c].members == MarkedMembers(h, c)
    ensures Marked(h).classes[c].isBuiltin == h.classes[c].isBuiltin
              && Marked(h).classes[c].isImported == h.classes[c].isImported
  {
    var g := Marked(h);
    ShapeKeepsAcyclic(h, g);
    ShapeKeepsSupers(h, g, c);
    ShapeKeepsWalk(h, g, h.classes[c].super, {});
    ShapeKeepsWalk(h, g, Some(c), {});
    assert g.classes[c] == MarkedClass(h, Ids(|h.classes|), c);
  }

  /** A method that is virtual when the checks see it: declared so, or led by an ancestor. */
  ghost predicate Virtualized(h: Tree, c: ClassId, m: Member)
    requires Acyclic(h) && c < |h.classes|
  {
    m.Function? && (m.isVirtual || Led(h, c, m.name, |m.sig.params|))
  }

  ghost predicate OwnVirtualized(h: Tree, c: ClassId, name: string)
    requires Acyclic(h) && c < |h.classes|
  {
    exists m :: m in h.classes[c].members && IsInstance(m, name) && Virtualized(h, c, m)
  }

  ghost predicate InheritsVirtualized(h: Tree, c: ClassId, name: string)
    requires h.Closed() && Acyclic(h) && c < |h.classes|
  {
    exists a :: a in Ancestors(h, c) && OwnVirtualized(h, a, name)
  }

  ghost predicate DeclaresInstance(h: Tree, c: ClassId, name: string)
    requires c < |h.classes|
  {
    exists m :: m in h.classes[c].members && IsInstance(m, name)
  }

  /** A marked member and the declared one it was. */
  lemma Declared(h: Tree, c: ClassId, m': Member) returns (m: Member)
    requires Acyclic(h) && c < |h.classes| && m' in MarkedMembers(h, c)
    ensures m in h.classes[c].members && m' == MarkIf(m, Marks(h, c, m))
    ensures m'.Function? ==> (m'.isVirtual <==> Virtualized(h, c, m))
  {
    var k :| 0 <= k < |MarkedMembers(h, c)| && MarkedMembers(h, c)[k] == m';
    m := h.classes[c].members[k];
  }

  lemma AfterMarking(h: Tree, c: ClassId, m: Member) returns (m': Member)
    requires Acyclic(h) && c < |h.classes| && m in h.classes[c].members
    ensures m' in MarkedMembers(h, c) && m' == MarkIf(m, Marks(h, c, m))
    ensures m.Function? ==> (m'.isVirtual <==> Virtualized(h, c, m))
  {
    var k :| 0 <= k < |h.classes[c].members| && h.classes[c].members[k] == m;
    m' := MarkedMembers(h, c)[k];
  }

  lemma OwnMarked(h: Tree, c: ClassId, name: string)
    requires h.Closed() && Acyclic(h) && c < |h.classes|
    ensures Virtuals(Marked(h).classes[c].members, name) != [] <==> OwnVirtualized(h, c, name)
    ensures Named(Marked(h).classes[c].members, name) != [] <==> DeclaresInstance(h, c, name)
    ensures (exists m :: m in Named(Marked(h).classes[c].members, name) && m.isVirtual) <==> OwnVirtualized(h, c, name)
  {
    MarkedKeeps(h, c);
    hide Led;
    var ms := MarkedMembers(h, c);
    var own, virtuals := Named(ms, name), Virtuals(ms, name);
    if OwnVirtualized(h, c, name) {
      var m :| m in h.classes[c].members && IsInstance(m, name) && Virtualized(h, c, m);
      var m' := AfterMarking(h, c, m);
      assert m' in virtuals && m' in own;
    }
    if DeclaresInstance(h, c, name) {
      var m :| m in h.classes[c].members && IsInstance(m, name);
      var m' := AfterMarking(h, c, m);
      assert m' in own;
    }
    if virtuals != [] {
      assert virtuals[0] in virtuals;
      var m := Declared(h, c, virtuals[0]);
    }
    if own != [] {
      assert own[0] in own;
      var m := Declared(h, c, own[0]);
    }
    if m' :| m' in own && m'.isVirtual {
      var m := Declared(h, c, m');
    }
  }

  lemma InheritedMarked(h: Tree, c: ClassId, name: string)
    requires h.Closed() && Acyclic(h) && c < |h.classes|
    ensures Marked(h).Closed()
    ensures VirtualsOf(Marked(h), Ancestors(Marked(h), c), name) != [] <==> InheritsVirtualized(h, c, name)
  {
    MarkedKeeps(h, c);
    var g, up := Marked(h), Ancestors(h, c);
    hide Marked, OwnVirtualized;
    if InheritsVirtualized(h, c, name) {
      var a :| a in up && OwnVirtualized(h, a, name);
      var k :| 0 <= k < |up| && up[k] == a;
      OwnMarked(h, a, name);
      var m := Virtuals(g.classes[up[k]].members, name)[0];
      assert m in Virtuals(g.classes[up[k]].members, name);
      assert m in VirtualsOf(g, up, name);
    }
    if VirtualsOf(g, up, name) != [] {
      var m := VirtualsOf(g, up, name)[0];
      assert m in VirtualsOf(g, up, name);
      var k :| 0 <= k < |up| && m in Virtuals(g.classes[up[k]].members, name);
      OwnMarked(h, up[k], name);
    }
  }

  /** Exactly when the pass marks the overrides of a name: a class that inherits a virtual method of
      the name and declares methods of it has one that is declared virtual, or whose parameter count
      is that of a virtual function standing first under the name in some ancestor. */
  lemma MarkingExact(h: Tree, c: ClassId, name: string)
    requires h.Closed() && Acyclic(h) && c < |h.classes|
    ensures Marked(h).Closed()
    ensures OverridesMarked(Marked(h), c, name) <==>
              (InheritsVirtualized(h, c, name) && DeclaresInstance(h, c, name) ==> OwnVirtualized(h, c, name))
  {
    InheritedMarked(h, c, name);
    OwnMarked(h, c, name);
    hide Marked, InheritsVirtualized, DeclaresInstance, OwnVirtualized;
  }

  ghost predicate DeclaresVirtual(h: Tree, c: ClassId, name: string)
    requires c < |h.classes|
  {
    exists m :: m in h.classes[c].members && IsVirtual(m, name)
  }

  /** In a class whose own check is silent, overriding `v`: the override is marked if and only if it is
      declared virtual or an ancestor's first member of the name is a virtual function with the
      parameter count of `v`. */
  lemma MarkedUnlessHidden(h: Tree, c: ClassId, name: string, v: Member)
    requires h.Closed() && Acyclic(h) && c < |h.classes| && Marked(h).Closed()
    requires InstanceOk(Marked(h), c, name) && DeclaresInstance(h, c, name)
    requires v in VirtualsOf(Marked(h), Ancestors(Marked(h), c), name) && v.Function?
    ensures OverridesMarked(Marked(h), c, name) <==> DeclaresVirtual(h, c, name) || Led(h, c, name, |v.sig.params|)
  {
    assert c < |Marked(h).classes|;
    hide *;
    MarkingExact(h, c, name);
    VirtualInherited(h, c, name, v);
    OwnVirtualizedExactly(h, c, name, v);
  }

  lemma VirtualInherited(h: Tree, c: ClassId, name: string, v: Member)
    requires h.Closed() && Acyclic(h) && c < |h.classes| && Marked(h).Closed() && c < |Marked(h).classes|
    requires v in VirtualsOf(Marked(h), Ancestors(Marked(h), c), name)
    ensures InheritsVirtualized(h, c, name)
  {
    InheritedMarked(h, c, name);
    hide Marked, VirtualsOf, InheritsVirtualized, Ancestors;
  }

  lemma OwnVirtualizedExactly(h: Tree, c: ClassId, name: string, v: Member)
    requires h.Closed() && Acyclic(h) && c < |h.classes| && Marked(h).Closed() && c < |Marked(h).classes|
    requires InstanceOk(Marked(h), c, name) && DeclaresInstance(h, c, name)
    requires v in VirtualsOf(Marked(h), Ancestors(Marked(h), c), name) && v.Function?
    ensures OwnVirtualized(h, c, name) <==> DeclaresVirtual(h, c, name) || Led(h, c, name, |v.sig.params|)
  {
    MarkedKeeps(h, c);
    OwnMarked(h, c, name);
    hide Led, VirtualsOf, Marked, Ancestors, Contract;
    var own := Named(Marked(h).classes[c].members, name);
    var m' := OverrideOf(Marked(h), c, name, v);
    var m := Declared(h, c, m');
    hide Bijective, Uniform;
    if OwnVirtualized(h, c, name) && !DeclaresVirtual(h, c, name) {
      SameSignatures(own, h, c, name, m');
    }
    if Led(h, c, name, |v.sig.params|) {
      assert IsInstance(m, name) && Virtualized(h, c, m);
    }
  }

  /** The own method with the signature of an inherited virtual one. */
  lemma OverrideOf(g: Tree, c: ClassId, name: string, v: Member) returns (m: Member)
    requires g.Closed() && c < |g.classes| && InstanceOk(g, c, name)
    requires Named(g.classes[c].members, name) != [] && v in VirtualsOf(g, Ancestors(g, c), name) && v.Function?
    ensures m in Named(g.classes[c].members, name) && m.Function? && m.sig == v.sig
  {
    var own := Named(g.classes[c].members, name);
    assert v in Contract(g, c, name);
    assert v.sig in Sigs(Contract(g, c, name));
    m :| m in own && m.Function? && m.sig == v.sig;
  }

  /** A class that is silent and has a virtual method of the name has one signature under it. */
  lemma SameSignatures(own: seq<Member>, h: Tree, c: ClassId, name: string, m': Member)
    requires h.Closed() && Acyclic(h) && c < |h.classes|
    requires own == Named(Marked(h).classes[c].members, name) && Uniform(own) && m' in own
    requires OwnVirtualized(h, c, name) && !DeclaresVirtual(h, c, name)
    ensures m'.Function? && Led(h, c, name, |m'.sig.params|)
  {
    hide Led;
    MarkedKeeps(h, c);
    var m :| m in h.classes[c].members && IsInstance(m, name) && Virtualized(h, c, m);
    var w := AfterMarking(h, c, m);
    assert w in own && w.isVirtual;
    UniformFamily(own, w);
    var i :| 0 <= i < |own| && own[i] == w;
    var j :| 0 <= j < |own| && own[j] == m';
    assert own[i].sig == own[0].sig && own[j].sig == own[0].sig;
  }

  // ---------------------------------------------------------------- declarations that hide nothing

  /** No virtual method stands behind another member of its name that the pass would find instead. */
  ghost predicate NothingHidden(h: Tree) {
    forall a, v ::
      (0 <= a < |h.classes| && !h.classes[a].isBuiltin && v in h.classes[a].members && IsVirtual(v, v.name)
       ==> Leads(First(h.classes[a].members, v.name), |v.sig.params|))
  }

  /** Then the pass marks every override in every class whose own check is silent. */
  lemma OverridesGetMarked(h: Tree, c: ClassId, name: string)
    requires h.Closed() && Acyclic(h) && NothingHidden(h) && c < |h.classes| && Marked(h).Closed()
    requires InstanceOk(Marked(h), c, name)
    ensures OverridesMarked(Marked(h), c, name)
  {
    MarkedKeeps(h, c);
    OwnMarked(h, c, name);
    var g, up := Marked(h), Ancestors(h, c);
    if VirtualsOf(g, up, name) != [] && DeclaresInstance(h, c, name) {
      var v := VirtualsOf(g, up, name)[0];
      assert v in VirtualsOf(g, up, name);
      var k :| 0 <= k < |up| && v in Virtuals(g.classes[up[k]].members, name);
      VirtualLeads(h, c, up[k], name, v);
      MarkedUnlessHidden(h, c, name, v);
    }
  }

  lemma VirtualLeads(h: Tree, c: ClassId, a: ClassId, name: string, v: Member)
    requires h.Closed() && Acyclic(h) && NothingHidden(h) && c < |h.classes| && a in Ancestors(h, c) && a < |h.classes|
    requires v in Virtuals(Marked(h).classes[a].members, name)
    ensures v.Function? && Led(h, c, name, |v.sig.params|)
  {
    MarkedKeeps(h, a);
    Climbs(h, c);
    WalkClimbs(h, h.classes[c].super, {}, a);
    var m := Declared(h, a, v);
    if m.isVirtual {
      assert IsVirtual(m, m.name);
    } else {
      LedAbove(h, c, a, name, |v.sig.params|);
    }
  }

  /** With nothing hidden, marking and silent checks make every virtual call dispatch to its own
      signature. */
  lemma MarkedAndSilentIsSafe(h: Tree)
    requires h.Closed() && Acyclic(h) && NothingHidden(h) && Marked(h).Closed() && AllSilent(Marked(h))
    ensures AllCallsSafe(Marked(h))
  {
    var g := Marked(h);
    forall c, name | 0 <= c < |g.classes| && !g.classes[c].isBuiltin
      ensures OverridesMarked(g, c, name)
    {
      assert ClassOk(g, c);
      assert InstanceOk(g, c, name);
      OverridesGetMarked(h, c, name);
    }
    hide Marked, OverridesMarked;
    MarkedOverridesAreSafe(g);
  }
}
