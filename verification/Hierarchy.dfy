/** The class hierarchy as the method-contract checks see it, and what they are for: virtual and
    interface calls are dispatched by name alone, so the first method of a name in dispatch
    order must have the signature of everything such a call may have been bound to. */
module Hierarchy {
  import opened Wrappers

  type ClassId = nat
  type IfaceId = nat

  datatype TypeExpr = TypeExpr(field: nat, isArray: bool)

  datatype Param = Param(paramType: Option<TypeExpr>, isOut: bool)

  /** Everything signature identity compares; names, access and default values are not in it. */
  datatype Sig = Sig(isStatic: bool, params: seq<Param>, returnType: Option<TypeExpr>)

  datatype Member = Field(name: string) | Function(name: string, isVirtual: bool, sig: Sig)

  datatype Class = Class(super: Option<ClassId>, isBuiltin: bool, isImported: bool,
                         implements: seq<IfaceId>, members: seq<Member>)

  datatype Tree = Tree(classes: seq<Class>, ifaces: seq<seq<Member>>) {
    /** Every superclass and interface a class names is in the tree. */
    ghost predicate Closed() {
      && (forall c :: 0 <= c < |classes| && classes[c].super.Some? ==> classes[c].super.value < |classes|)
      && (forall c, k :: 0 <= c < |classes| && 0 <= k < |classes[c].implements| ==> classes[c].implements[k] < |ifaces|)
    }
  }

  predicate IsInstance(m: Member, name: string) {
    m.Function? && m.name == name && !m.sig.isStatic
  }

  predicate IsStatic(m: Member, name: string) {
    m.Function? && m.name == name && m.sig.isStatic
  }

  predicate IsVirtual(m: Member, name: string) {
    IsInstance(m, name) && m.isVirtual
  }

  /** The instance methods of one name, in declaration order. */
  function Named(ms: seq<Member>, name: string): (r: seq<Member>)
    ensures forall m :: m in r <==> m in ms && IsInstance(m, name)
    ensures forall k :: 0 <= k < |r| ==> r[k].Function?
  {
    if ms == [] then []
    else
      var r := Named(ms[..|ms| - 1], name);
      assert ms == ms[..|ms| - 1] + [ms[|ms| - 1]];
      if IsInstance(ms[|ms| - 1], name) then r + [ms[|ms| - 1]] else r
  }

  function Virtuals(ms: seq<Member>, name: string): (r: seq<Member>)
    ensures forall m :: m in r <==> m in ms && IsVirtual(m, name)
  {
    if ms == [] then []
    else
      var r := Virtuals(ms[..|ms| - 1], name);
      assert ms == ms[..|ms| - 1] + [ms[|ms| - 1]];
      if IsVirtual(ms[|ms| - 1], name) then r + [ms[|ms| - 1]] else r
  }

  /** The classes a walk up from `c` visits: it stops at a builtin class, and at a class it has
      seen, so it ends on a cyclic tree too. */
  function Walk(h: Tree, c: Option<ClassId>, seen: set<ClassId>): (chain: seq<ClassId>)
    requires h.Closed() && (c.Some? ==> c.value < |h.classes|)
    ensures forall k :: 0 <= k < |chain| ==>
              chain[k] < |h.classes| && chain[k] !in seen && !h.classes[chain[k]].isBuiltin
    decreases Unseen(h, seen)
  {
    if c == None || c.value in seen || h.classes[c.value].isBuiltin then []
    else
      SeeOne(h, seen, c.value);
      [c.value] + Walk(h, h.classes[c.value].super, seen + {c.value})
  }

  function Ids(n: nat): (ids: set<ClassId>)
    ensures forall c: ClassId :: c in ids <==> c < n
  {
    if n == 0 then {} else Ids(n - 1) + {n - 1}
  }

  ghost function Unseen(h: Tree, seen: set<ClassId>): nat {
    |Ids(|h.classes|) - seen|
  }

  lemma SeeOne(h: Tree, seen: set<ClassId>, c: ClassId)
    requires c < |h.classes| && c !in seen
    ensures Unseen(h, seen + {c}) < Unseen(h, seen)
  {
    assert Ids(|h.classes|) - (seen + {c}) == Ids(|h.classes|) - seen - {c};
    assert c in Ids(|h.classes|) - seen;
  }

  /** The class itself, then its ancestors. */
  function Chain(h: Tree, c: ClassId): seq<ClassId>
    requires h.Closed() && c < |h.classes|
  {
    Walk(h, Some(c), {})
  }

  function Ancestors(h: Tree, c: ClassId): seq<ClassId>
    requires h.Closed() && c < |h.classes|
  {
    Walk(h, h.classes[c].super, {})
  }

  predicate InTree(h: Tree, chain: seq<ClassId>) {
    forall k :: 0 <= k < |chain| ==> chain[k] < |h.classes|
  }

  /** The runtime's lookup: the first instance method of the name, nearest class first. */
  function WinnerIn(h: Tree, chain: seq<ClassId>, name: string): Option<Member>
    requires InTree(h, chain)
  {
    if chain == [] then None
    else
      var own := Named(h.classes[chain[0]].members, name);
      if own != [] then Some(own[0]) else WinnerIn(h, chain[1..], name)
  }

  function Winner(h: Tree, c: ClassId, name: string): Option<Member>
    requires h.Closed() && c < |h.classes|
  {
    WinnerIn(h, Chain(h, c), name)
  }

  function VirtualsOf(h: Tree, chain: seq<ClassId>, name: string): (r: seq<Member>)
    requires InTree(h, chain)
    ensures forall m :: m in r <==> exists k :: 0 <= k < |chain| && m in Virtuals(h.classes[chain[k]].members, name)
  {
    if chain == [] then []
    else
      var n := |chain| - 1;
      VirtualsOf(h, chain[..n], name) + Virtuals(h.classes[chain[n]].members, name)
  }

  /** Appending what is not there yet. */
  function Merge(out: seq<IfaceId>, more: seq<IfaceId>): (r: seq<IfaceId>)
    ensures forall i :: i in r <==> i in out || i in more
  {
    if more == [] then out
    else
      var n := |more| - 1;
      var r := Merge(out, more[..n]);
      assert more == more[..n] + [more[n]];
      if more[n] in r then r else r + [more[n]]
  }

  function IfacesOf(h: Tree, chain: seq<ClassId>): (r: seq<IfaceId>)
    requires InTree(h, chain)
    ensures forall i :: i in r <==> exists k :: 0 <= k < |chain| && i in h.classes[chain[k]].implements
  {
    if chain == [] then [] else Merge(IfacesOf(h, chain[..|chain| - 1]), h.classes[chain[|chain| - 1]].implements)
  }

  function RequiredBy(h: Tree, ifaces: seq<IfaceId>, name: string): (r: seq<Member>)
    requires forall k :: 0 <= k < |ifaces| ==> ifaces[k] < |h.ifaces|
    ensures forall m :: m in r <==> exists k :: 0 <= k < |ifaces| && m in Named(h.ifaces[ifaces[k]], name)
  {
    if ifaces == [] then []
    else
      var n := |ifaces| - 1;
      RequiredBy(h, ifaces[..n], name) + Named(h.ifaces[ifaces[n]], name)
  }

  lemma IfacesInTree(h: Tree, chain: seq<ClassId>)
    requires h.Closed() && InTree(h, chain)
    ensures forall k :: 0 <= k < |IfacesOf(h, chain)| ==> IfacesOf(h, chain)[k] < |h.ifaces|
  {
    forall k | 0 <= k < |IfacesOf(h, chain)|
      ensures IfacesOf(h, chain)[k] < |h.ifaces|
    {
      assert IfacesOf(h, chain)[k] in IfacesOf(h, chain);
    }
  }

  /** What the own methods of one name must match: the ancestors' virtual methods of the name and
      the methods of the name that the interfaces along the chain require. */
  function Contract(h: Tree, c: ClassId, name: string): seq<Member>
    requires h.Closed() && c < |h.classes|
  {
    IfacesInTree(h, Chain(h, c));
    VirtualsOf(h, Ancestors(h, c), name) + RequiredBy(h, IfacesOf(h, Chain(h, c)), name)
  }

  ghost function Sigs(ms: seq<Member>): set<Sig> {
    set m | m in ms && m.Function? :: m.sig
  }

  ghost predicate DistinctSigs(ms: seq<Member>) {
    forall i, j :: 0 <= i < j < |ms| ==> ms[i].Function? && ms[j].Function? && ms[i].sig != ms[j].sig
  }

  // ---------------------------------------------------------------- what the checks accept

  /** A name that owns a virtual method owns one signature. */
  predicate Uniform(own: seq<Member>) {
    (exists i :: 0 <= i < |own| && own[i].Function? && own[i].isVirtual) ==>
      forall i :: 0 <= i < |own| && own[i].Function? && own[0].Function? ==> own[i].sig == own[0].sig
  }

  /** The own methods are in bijection with the contract's signatures. */
  ghost predicate Bijective(own: seq<Member>, contract: seq<Member>) {
    DistinctSigs(own) && Sigs(own) == Sigs(contract)
  }

  /** Same parameter list, as far as the types are resolved. */
  predicate ParamsConflict(a: Sig, b: Sig) {
    && |a.params| == |b.params|
    && forall i :: 0 <= i < |a.params| ==>
         a.params[i].paramType == None || b.params[i].paramType == None
             || a.params[i].paramType == b.params[i].paramType
  }

  /** `ts` is a way to resolve the parameter types of `a`: it says what is already known. */
  ghost predicate Resolves(ts: seq<TypeExpr>, a: Sig) {
    && |ts| == |a.params|
    && forall i :: 0 <= i < |ts| ==> a.params[i].paramType == None || a.params[i].paramType == Some(ts[i])
  }

  /** Two parameter lists conflict exactly when their types can still turn out to be the same. */
  lemma ConflictMeansCommonTypes(a: Sig, b: Sig)
    ensures ParamsConflict(a, b) <==> exists ts :: Resolves(ts, a) && Resolves(ts, b)
  {
    if ParamsConflict(a, b) {
      var ts := seq(|a.params|, i requires 0 <= i < |a.params| =>
        if a.params[i].paramType.Some? then a.params[i].paramType.value
        else if b.params[i].paramType.Some? then b.params[i].paramType.value
        else TypeExpr(0, false));
      assert Resolves(ts, a) && Resolves(ts, b);
    }
  }

  /** With every type resolved, that is equality of the two type lists: how parameters are passed,
      what is returned and whether the method is static do not matter. */
  lemma ResolvedConflictIsSameTypes(a: Sig, b: Sig, ts: seq<TypeExpr>, us: seq<TypeExpr>)
    requires |ts| == |a.params| && forall i :: 0 <= i < |ts| ==> a.params[i].paramType == Some(ts[i])
    requires |us| == |b.params| && forall i :: 0 <= i < |us| ==> b.params[i].paramType == Some(us[i])
    ensures ParamsConflict(a, b) <==> ts == us
  {
    if ts == us {
      assert Resolves(ts, a) && Resolves(us, b);
    }
    ConflictMeansCommonTypes(a, b);
    if ParamsConflict(a, b) {
      var vs :| Resolves(vs, a) && Resolves(vs, b);
      assert forall i :: 0 <= i < |vs| ==> vs[i] == ts[i] && vs[i] == us[i];
    }
  }

  ghost predicate StaticOk(h: Tree, c: ClassId, name: string)
    requires h.Closed() && c < |h.classes|
  {
    forall f, v ::
      (f in h.classes[c].members && IsStatic(f, name) && v in VirtualsOf(h, Ancestors(h, c), name)
       ==> !ParamsConflict(f.sig, v.sig))
  }

  ghost predicate InstanceOk(h: Tree, c: ClassId, name: string)
    requires h.Closed() && c < |h.classes|
  {
    var own, contract := Named(h.classes[c].members, name), Contract(h, c, name);
    Uniform(own) && (own != [] && contract != [] ==> Bijective(own, contract))
  }

  ghost predicate NamesOk(h: Tree, c: ClassId)
    requires h.Closed() && c < |h.classes|
  {
    forall name :: StaticOk(h, c, name) && InstanceOk(h, c, name)
  }

  /** Every method the chain's interfaces require is what its name dispatches to. */
  ghost predicate IfacesOk(h: Tree, c: ClassId)
    requires h.Closed() && c < |h.classes|
  {
    IfacesInTree(h, Chain(h, c));
    forall name, m :: m in RequiredBy(h, IfacesOf(h, Chain(h, c)), name) ==>
      Winner(h, c, name).Some? && Winner(h, c, name).value.Function? && Winner(h, c, name).value.sig == m.sig
  }

  ghost predicate ClassOk(h: Tree, c: ClassId)
    requires h.Closed() && c < |h.classes|
  {
    NamesOk(h, c) && IfacesOk(h, c)
  }

  // ---------------------------------------------------------------- what the checks are for

  /** A call bound to any virtual method the class inherits or has dispatches, by name, to a method
      of that very signature. */
  ghost predicate VirtualCallsSafe(h: Tree, c: ClassId, name: string)
    requires h.Closed() && c < |h.classes|
  {
    forall v :: v in VirtualsOf(h, Chain(h, c), name) ==>
      Winner(h, c, name).Some? && Winner(h, c, name).value.Function? && Winner(h, c, name).value.sig == v.sig
  }

  /** A class that overrides an inherited virtual method declares the name once. */
  ghost predicate OverridesOnce(h: Tree, c: ClassId, name: string)
    requires h.Closed() && c < |h.classes|
  {
    VirtualsOf(h, Ancestors(h, c), name) != [] ==> |Named(h.classes[c].members, name)| <= 1
  }

  /** Implicit virtual propagation did its work: overrides carry the virtual mark. */
  ghost predicate OverridesMarked(h: Tree, c: ClassId, name: string)
    requires h.Closed() && c < |h.classes|
  {
    VirtualsOf(h, Ancestors(h, c), name) != [] && Named(h.classes[c].members, name) != [] ==>
      exists m :: m in Named(h.classes[c].members, name) && m.isVirtual
  }

  // ---------------------------------------------------------------- walks

  /** Having seen more can only cut a walk short. */
  lemma {:induction false} WalkPrefix(h: Tree, c: Option<ClassId>, small: set<ClassId>, big: set<ClassId>)
    requires h.Closed() && (c.Some? ==> c.value < |h.classes|) && small <= big
    ensures Walk(h, c, big) <= Walk(h, c, small)
    decreases Unseen(h, big)
  {
    if c != None && c.value !in big && !h.classes[c.value].isBuiltin {
      SeeOne(h, big, c.value);
      WalkPrefix(h, h.classes[c.value].super, small + {c.value}, big + {c.value});
    }
  }

  /** What follows a class in a walk are ancestors of that class, nearest first. */
  lemma {:induction false} TailIsAncestors(h: Tree, c: Option<ClassId>, seen: set<ClassId>, j: nat)
    requires h.Closed() && (c.Some? ==> c.value < |h.classes|) && j < |Walk(h, c, seen)|
    ensures Walk(h, c, seen)[j + 1..] <= Ancestors(h, Walk(h, c, seen)[j])
    decreases Unseen(h, seen)
  {
    var rest := Walk(h, h.classes[c.value].super, seen + {c.value});
    assert Walk(h, c, seen) == [c.value] + rest;
    if j == 0 {
      WalkPrefix(h, h.classes[c.value].super, {}, seen + {c.value});
      assert Walk(h, c, seen)[1..] == rest;
    } else {
      SeeOne(h, seen, c.value);
      TailIsAncestors(h, h.classes[c.value].super, seen + {c.value}, j - 1);
      assert Walk(h, c, seen)[j] == rest[j - 1];
      assert Walk(h, c, seen)[j + 1..] == rest[j..];
    }
  }

  /** The winner sits in the first class of the chain that declares the name. */
  lemma {:induction false} WinnerAt(h: Tree, chain: seq<ClassId>, name: string, k: nat) returns (j: nat)
    requires InTree(h, chain) && k < |chain| && Named(h.classes[chain[k]].members, name) != []
    ensures j <= k && Named(h.classes[chain[j]].members, name) != []
    ensures WinnerIn(h, chain, name) == Some(Named(h.classes[chain[j]].members, name)[0])
  {
    if Named(h.classes[chain[0]].members, name) != [] {
      j := 0;
    } else {
      j := WinnerAt(h, chain[1..], name, k - 1);
      j := j + 1;
    }
  }

  /** A walk is the superclass chain from where it starts, each class once, and it ends only where
      there is no superclass, at a builtin class, or at a class it has seen. */
  lemma {:induction false} WalkIsSuperclassChain(h: Tree, c: Option<ClassId>, seen: set<ClassId>)
    requires h.Closed() && (c.Some? ==> c.value < |h.classes|)
    ensures var chain := Walk(h, c, seen);
            && (forall k :: 0 <= k < |chain| ==>
                  Some(chain[k]) == if k == 0 then c else h.classes[chain[k - 1]].super)
            && (forall j, k :: 0 <= j < k < |chain| ==> chain[j] != chain[k])
            && var next := if chain == [] then c else h.classes[chain[|chain| - 1]].super;
               next == None || next.value in seen || next.value in chain
               || (next.value < |h.classes| && h.classes[next.value].isBuiltin)
    decreases Unseen(h, seen)
  {
    if c != None && c.value !in seen && !h.classes[c.value].isBuiltin {
      SeeOne(h, seen, c.value);
      var up := h.classes[c.value].super;
      WalkIsSuperclassChain(h, up, seen + {c.value});
      var chain, rest := Walk(h, c, seen), Walk(h, up, seen + {c.value});
      assert chain == [c.value] + rest;
      assert chain[0] == c.value && forall k :: 0 < k < |chain| ==> chain[k] == rest[k - 1];
    }
  }

  lemma {:induction false} MergeKeepsOnce(out: seq<IfaceId>, more: seq<IfaceId>)
    requires forall i, j :: 0 <= i < j < |out| ==> out[i] != out[j]
    ensures out <= Merge(out, more)
    ensures forall i, j :: 0 <= i < j < |Merge(out, more)| ==> Merge(out, more)[i] != Merge(out, more)[j]
  {
    if more != [] {
      MergeKeepsOnce(out, more[..|more| - 1]);
    }
  }

  /** The interfaces along a chain are listed once each. */
  lemma {:induction false} IfacesListedOnce(h: Tree, chain: seq<ClassId>)
    requires InTree(h, chain)
    ensures forall i, j :: 0 <= i < j < |IfacesOf(h, chain)| ==> IfacesOf(h, chain)[i] != IfacesOf(h, chain)[j]
  {
    if chain != [] {
      IfacesListedOnce(h, chain[..|chain| - 1]);
      MergeKeepsOnce(IfacesOf(h, chain[..|chain| - 1]), h.classes[chain[|chain| - 1]].implements);
    }
  }

  // ---------------------------------------------------------------- main results

  /** In a class whose own check is silent, the methods that override a virtual one have its
      signature, provided the name is declared once. */
  lemma OverrideMatches(h: Tree, c: ClassId, name: string, v: Member)
    requires h.Closed() && c < |h.classes| && InstanceOk(h, c, name) && OverridesOnce(h, c, name)
    requires Named(h.classes[c].members, name) != [] && v in VirtualsOf(h, Ancestors(h, c), name)
    ensures Named(h.classes[c].members, name)[0].sig == v.sig
  {
    var own := Named(h.classes[c].members, name);
    assert v in Contract(h, c, name);
    assert v.sig in Sigs(Contract(h, c, name));
    assert own[0] in own;
  }

  ghost predicate AllSilent(h: Tree)
    requires h.Closed()
  {
    forall c :: 0 <= c < |h.classes| && !h.classes[c].isBuiltin ==> ClassOk(h, c)
  }

  ghost predicate AllCallsSafe(h: Tree)
    requires h.Closed()
  {
    forall c, name :: 0 <= c < |h.classes| && !h.classes[c].isBuiltin ==> VirtualCallsSafe(h, c, name)
  }

  ghost predicate AllOverrideOnce(h: Tree)
    requires h.Closed()
  {
    forall c, name :: 0 <= c < |h.classes| && !h.classes[c].isBuiltin ==> OverridesOnce(h, c, name)
  }

  /** The checks' purpose: on a tree where no class trips its own check, calls bound to virtual
      methods dispatch, by name, to their own signature everywhere, exactly when no class that
      overrides a virtual method declares the name twice. The tree may even be cyclic. */
  lemma SilentChecksMakeVirtualCallsSafe(h: Tree)
    requires h.Closed() && AllSilent(h)
    ensures AllCallsSafe(h) <==> AllOverrideOnce(h)
  {
    if AllOverrideOnce(h) {
      forall c, name | 0 <= c < |h.classes| && !h.classes[c].isBuiltin
        ensures VirtualCallsSafe(h, c, name)
      {
        forall v | v in VirtualsOf(h, Chain(h, c), name)
          ensures Winner(h, c, name).Some? && Winner(h, c, name).value.Function?
                    && Winner(h, c, name).value.sig == v.sig
        {
          VirtualCallSafe(h, c, name, v);
        }
      }
    }
    if AllCallsSafe(h) {
      forall c, name | 0 <= c < |h.classes| && !h.classes[c].isBuiltin
        ensures OverridesOnce(h, c, name)
      {
        SafeMeansOnce(h, c, name);
      }
    }
  }

  /** Calls bound to an interface method are safe outright wherever the check is silent, and marked
      overrides are single: with the marking in place the checks are enough. */
  lemma MarkedOverridesAreSafe(h: Tree)
    requires h.Closed() && AllSilent(h)
    requires forall c, name :: 0 <= c < |h.classes| && !h.classes[c].isBuiltin ==> OverridesMarked(h, c, name)
    ensures AllCallsSafe(h)
  {
    forall c, name | 0 <= c < |h.classes| && !h.classes[c].isBuiltin
      ensures OverridesOnce(h, c, name)
    {
      MarkedMeansOnce(h, c, name);
    }
    SilentChecksMakeVirtualCallsSafe(h);
  }

  lemma MarkedMeansOnce(h: Tree, c: ClassId, name: string)
    requires h.Closed() && c < |h.classes| && ClassOk(h, c) && OverridesMarked(h, c, name)
    ensures OverridesOnce(h, c, name)
  {
    assert InstanceOk(h, c, name);
    var own := Named(h.classes[c].members, name);
    if VirtualsOf(h, Ancestors(h, c), name) != [] && own != [] {
      var m :| m in own && m.isVirtual;
      UniformFamily(own, m);
      assert Contract(h, c, name) != [];
      AtMostOne(own);
    }
  }

  lemma AtMostOne(own: seq<Member>)
    requires DistinctSigs(own) && forall k :: 0 <= k < |own| ==> own[k].Function?
    requires forall k :: 0 <= k < |own| ==> own[k].sig == own[0].sig
    ensures |own| <= 1
  {
    Second(own);
  }

  lemma Second(own: seq<Member>)
    ensures |own| > 1 ==> own[1] in own
  {
  }

  lemma UniformFamily(own: seq<Member>, m: Member)
    requires Uniform(own) && m in own && m.Function? && m.isVirtual
    requires forall k :: 0 <= k < |own| ==> own[k].Function?
    ensures forall k :: 0 <= k < |own| ==> own[k].sig == own[0].sig
  {
    var i :| 0 <= i < |own| && own[i] == m;
    assert own[i].isVirtual;
  }

  lemma VirtualCallSafe(h: Tree, c: ClassId, name: string, v: Member)
    requires h.Closed() && c < |h.classes| && v in VirtualsOf(h, Chain(h, c), name)
    requires AllSilent(h) && AllOverrideOnce(h)
    ensures Winner(h, c, name).Some? && Winner(h, c, name).value.Function? && Winner(h, c, name).value.sig == v.sig
  {
    var chain := Chain(h, c);
    var k :| 0 <= k < |chain| && v in Virtuals(h.classes[chain[k]].members, name);
    assert v in Named(h.classes[chain[k]].members, name);
    var j := WinnerAt(h, chain, name, k);
    var d := chain[j];
    var own := Named(h.classes[d].members, name);
    assert own[0] in own;
    assert ClassOk(h, d) && OverridesOnce(h, d, name);
    assert InstanceOk(h, d, name);
    if j == k {
      var i :| 0 <= i < |own| && own[i] == v;
      assert own[i].isVirtual;
    } else {
      TailIsAncestors(h, Some(c), {}, j);
      assert chain[j + 1..][k - j - 1] == chain[k];
      assert Ancestors(h, d)[k - j - 1] == chain[k];
      OverrideMatches(h, d, name, v);
    }
  }

  /** Every ancestor is on the chain: on a cycle the walk up from the superclass ends with the
      class itself. */
  lemma {:induction false} AncestorsOnChain(h: Tree, c: ClassId, cur: Option<ClassId>, seen: set<ClassId>)
    requires h.Closed() && c < |h.classes| && (cur.Some? ==> cur.value < |h.classes|)
    requires cur == h.classes[c].super || (h.classes[c].super.Some? && h.classes[c].super.value in seen)
    ensures forall x :: x in Walk(h, cur, seen) ==> x == c || x in Walk(h, cur, seen + {c})
    decreases Unseen(h, seen)
  {
    if cur != None && cur.value !in seen && !h.classes[cur.value].isBuiltin {
      SeeOne(h, seen, cur.value);
      if cur.value != c {
        AncestorsOnChain(h, c, h.classes[cur.value].super, seen + {cur.value});
        assert seen + {cur.value} + {c} == seen + {c} + {cur.value};
      }
    }
  }

  lemma InheritedOnChain(h: Tree, c: ClassId, name: string, v: Member)
    requires h.Closed() && c < |h.classes| && !h.classes[c].isBuiltin && v in VirtualsOf(h, Ancestors(h, c), name)
    ensures v in VirtualsOf(h, Chain(h, c), name)
  {
    var k :| 0 <= k < |Ancestors(h, c)| && v in Virtuals(h.classes[Ancestors(h, c)[k]].members, name);
    var x := Ancestors(h, c)[k];
    AncestorsOnChain(h, c, h.classes[c].super, {});
    assert Chain(h, c) == [c] + Walk(h, h.classes[c].super, {} + {c});
    var i := if x == c then 0 else IndexIn(Chain(h, c), x);
    assert Chain(h, c)[i] == x;
  }

  ghost function IndexIn(s: seq<ClassId>, x: ClassId): (i: nat)
    requires x in s
    ensures i < |s| && s[i] == x
  {
    var i :| 0 <= i < |s| && s[i] == x;
    i
  }

  lemma SafeMeansOnce(h: Tree, c: ClassId, name: string)
    requires h.Closed() && c < |h.classes| && ClassOk(h, c) && !h.classes[c].isBuiltin && VirtualCallsSafe(h, c, name)
    ensures OverridesOnce(h, c, name)
  {
    var own, contract := Named(h.classes[c].members, name), Contract(h, c, name);
    if VirtualsOf(h, Ancestors(h, c), name) != [] && |own| > 1 {
      assert InstanceOk(h, c, name);
      assert Chain(h, c)[0] == c;
      assert Winner(h, c, name) == Some(own[0]);
      assert own[1] in own && own[1].sig in Sigs(own);
      var m :| m in contract && m.Function? && m.sig == own[1].sig;
      if m in VirtualsOf(h, Ancestors(h, c), name) {
        InheritedOnChain(h, c, name, m);
      }
    }
  }

  // ---------------------------------------------------------------- a static beside a virtual method

  /** A class with a virtual `n(t)`, and a subclass whose only member is a static `n(u)`. */
  function StaticBelowVirtual(t: TypeExpr, u: TypeExpr): Tree {
    Tree([Class(None, false, false, [], [Function("n", true, Sig(false, [Param(Some(t), false)], None))]),
          Class(Some(0), false, false, [], [Function("n", false, Sig(true, [Param(Some(u), false)], None))])], [])
  }

  lemma StaticBelowVirtualShape(t: TypeExpr, u: TypeExpr, name: string)
    ensures var h := StaticBelowVirtual(t, u);
            var v := h.classes[0].members[0];
            && h.Closed() && Chain(h, 0) == [0] && Chain(h, 1) == [1, 0]
            && Ancestors(h, 0) == [] && Ancestors(h, 1) == [0]
            && Named(h.classes[0].members, name) == (if name == "n" then [v] else [])
            && Named(h.classes[1].members, name) == []
            && VirtualsOf(h, [], name) == [] && VirtualsOf(h, [0], name) == (if name == "n" then [v] else [])
            && IfacesOf(h, [0]) == [] && IfacesOf(h, [1, 0]) == []
  {
    var h := StaticBelowVirtual(t, u);
    TwoClassWalks(h);
    hide Walk;
    OneMember(h.classes[0].members[0], name);
    OneMember(h.classes[1].members[0], name);
    assert [0][..0] == [] && [1, 0][..1] == [1] && [1][..0] == [];
  }

  lemma TwoClassWalks(h: Tree)
    requires h.Closed() && |h.classes| == 2 && h.classes[0].super == None && h.classes[1].super == Some(0)
    requires !h.classes[0].isBuiltin && !h.classes[1].isBuiltin
    ensures Chain(h, 0) == [0] && Chain(h, 1) == [1, 0] && Ancestors(h, 0) == [] && Ancestors(h, 1) == [0]
  {
    assert Walk(h, Some(0), {}) == [0] + Walk(h, None, {} + {0});
    assert Walk(h, Some(0), {} + {1}) == [0] + Walk(h, None, {} + {1} + {0});
    assert Walk(h, Some(1), {}) == [1] + Walk(h, Some(0), {} + {1});
  }

  lemma OneMember(m: Member, name: string)
    ensures Named([m], name) == (if IsInstance(m, name) then [m] else [])
    ensures Virtuals([m], name) == (if IsVirtual(m, name) then [m] else [])
  {
    assert [m][..0] == [];
  }

  /** The static is accepted beside the inherited virtual method exactly when the types differ. */
  lemma StaticBelowVirtualOk(t: TypeExpr, u: TypeExpr)
    ensures var h := StaticBelowVirtual(t, u); h.Closed() && (StaticOk(h, 1, "n") <==> t != u)
  {
    hide Walk, Named, VirtualsOf, Virtuals, IfacesOf, ParamsConflict;
    var h := StaticBelowVirtual(t, u);
    var v, f := h.classes[0].members[0], h.classes[1].members[0];
    StaticBelowVirtualShape(t, u, "n");
    ResolvedConflictIsSameTypes(f.sig, v.sig, [u], [t]);
    assert f in h.classes[1].members && IsStatic(f, "n") && v in VirtualsOf(h, Ancestors(h, 1), "n");
  }

  /** And then the whole tree passes every check. */
  lemma StaticBelowVirtualAccepted(t: TypeExpr, u: TypeExpr)
    ensures StaticBelowVirtual(t, u).Closed() && (AllSilent(StaticBelowVirtual(t, u)) <==> t != u)
  {
    hide Walk, Named, VirtualsOf, Virtuals, IfacesOf, ParamsConflict;
    var h := StaticBelowVirtual(t, u);
    StaticBelowVirtualOk(t, u);
    if t != u {
      forall name
        ensures StaticOk(h, 0, name) && InstanceOk(h, 0, name) && StaticOk(h, 1, name) && InstanceOk(h, 1, name)
      {
        StaticBelowVirtualShape(t, u, name);
        hide StaticOk;
        if name == "n" {
          StaticBelowVirtualOk(t, u);
        }
      }
      StaticBelowVirtualShape(t, u, "n");
    } else {
      hide *;
      NotSilent(h, 1, "n");
    }
  }

  lemma NotSilent(h: Tree, c: ClassId, name: string)
    requires h.Closed() && c < |h.classes| && !h.classes[c].isBuiltin && !StaticOk(h, c, name)
    ensures !AllSilent(h)
  {
    assert !NamesOk(h, c);
  }
}
