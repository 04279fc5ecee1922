/** The method-contract checks themselves: the walks, the greedy matching and the topmost-first
    driver, each proved against the hierarchy's own predicates. A diagnostic is counted, not
    worded. */
module ContractChecks {
  import opened Wrappers
  import opened Hierarchy
  import opened MarkedHierarchy
  import opened Marking

  // ---------------------------------------------------------------- signatures

  method SignaturesIdentical(a: Sig, b: Sig) returns (same: bool)
    ensures same <==> a == b
  {
    if a.isStatic != b.isStatic {
      return false;
    }
    if |a.params| != |b.params| {
      return false;
    }
    if a.returnType != b.returnType {
      return false;
    }
    for i := 0 to |a.params|
      invariant a.params[..i] == b.params[..i]
    {
      if a.params[i].paramType != b.params[i].paramType {
        return false;
      }
      if a.params[i].isOut != b.params[i].isOut {
        return false;
      }
    }
    assert a.params[..|a.params|] == a.params && b.params[..|b.params|] == b.params;
    return true;
  }

  /** The lockstep comparison behind ConflictedWith, on two functions of one name. */
  method ParamListsConflict(a: Sig, b: Sig) returns (conflict: bool)
    ensures conflict <==> ParamsConflict(a, b)
  {
    var i := 0;
    while true
      invariant i <= |a.params| && i <= |b.params|
      invariant forall k :: 0 <= k < i ==>
        a.params[k].paramType == None || b.params[k].paramType == None || a.params[k].paramType == b.params[k].paramType
      decreases |a.params| - i
    {
      if i == |a.params| || i == |b.params| {
        return |a.params| == |b.params|;
      }
      if a.params[i].paramType.Some? && b.params[i].paramType.Some? && a.params[i].paramType != b.params[i].paramType {
        return false;
      }
      i := i + 1;
    }
  }

  // ---------------------------------------------------------------- walks up the chain

  /** One step of a walk: the class joins what is done, the rest starts at its superclass. */
  lemma WalkStep(h: Tree, whole: seq<ClassId>, done: seq<ClassId>, c: ClassId, seen: set<ClassId>)
    requires h.Closed() && c < |h.classes| && c !in seen && !h.classes[c].isBuiltin && InTree(h, done)
    requires whole == done + Walk(h, Some(c), seen)
    ensures whole == done + [c] + Walk(h, h.classes[c].super, seen + {c})
    ensures (done + [c])[..|done|] == done && InTree(h, done + [c])
    ensures Unseen(h, seen + {c}) < Unseen(h, seen)
  {
    SeeOne(h, seen, c);
    assert Walk(h, Some(c), seen) == [c] + Walk(h, h.classes[c].super, seen + {c});
    hide Walk;
    Associates(done, [c], Walk(h, h.classes[c].super, seen + {c}));
  }

  lemma Associates(a: seq<ClassId>, b: seq<ClassId>, c: seq<ClassId>)
    ensures a + (b + c) == a + b + c
    ensures |b| == 1 ==> (a + b)[..|a|] == a && (a + b)[|a|] == b[0]
  {
  }

  lemma WalkEnds(h: Tree, cur: Option<ClassId>, seen: set<ClassId>, done: seq<ClassId>)
    requires h.Closed() && (cur.Some? ==> cur.value < |h.classes|)
    requires cur == None || cur.value in seen || h.classes[cur.value].isBuiltin
    ensures done + Walk(h, cur, seen) == done
  {
  }

  method AppendMissing(out: seq<IfaceId>, more: seq<IfaceId>) returns (r: seq<IfaceId>)
    ensures r == Merge(out, more)
  {
    r := out;
    for k := 0 to |more|
      invariant r == Merge(out, more[..k])
    {
      assert more[..k + 1][..k] == more[..k];
      if more[k] !in r {
        r := r + [more[k]];
      }
    }
    assert more[..|more|] == more;
  }

  method CollectChainImplements(h: Tree, cls: ClassId) returns (out: seq<IfaceId>)
    requires h.Closed() && cls < |h.classes|
    ensures out == IfacesOf(h, Chain(h, cls))
  {
    hide Walk;
    out := [];
    var seen: set<ClassId> := {};
    var cur: Option<ClassId> := Some(cls);
    ghost var done: seq<ClassId> := [];
    while cur.Some? && cur.value !in seen && !h.classes[cur.value].isBuiltin
      invariant cur.Some? ==> cur.value < |h.classes|
      invariant InTree(h, done) && Chain(h, cls) == done + Walk(h, cur, seen)
      invariant out == IfacesOf(h, done)
      decreases Unseen(h, seen)
    {
      var c := cur.value;
      WalkStep(h, Chain(h, cls), done, c, seen);
      out := AppendMissing(out, h.classes[c].implements);
      done, seen, cur := done + [c], seen + {c}, h.classes[c].super;
    }
    WalkEnds(h, cur, seen, done);
  }

  lemma {:induction false} NoneNamed(ms: seq<Member>, name: string)
    requires forall j :: 0 <= j < |ms| ==> !IsInstance(ms[j], name)
    ensures Named(ms, name) == []
  {
    if ms != [] {
      NoneNamed(ms[..|ms| - 1], name);
    }
  }

  /** The first instance method of the name in declaration order. */
  lemma {:induction false} NamedFirst(ms: seq<Member>, name: string, i: nat)
    requires i < |ms| && IsInstance(ms[i], name) && forall j :: 0 <= j < i ==> !IsInstance(ms[j], name)
    ensures Named(ms, name) != [] && Named(ms, name)[0] == ms[i]
  {
    if i == |ms| - 1 {
      NoneNamed(ms[..i], name);
    } else {
      NamedFirst(ms[..|ms| - 1], name, i);
    }
  }

  method FindNamed(ms: seq<Member>, name: string) returns (m: Option<Member>)
    ensures m == if Named(ms, name) == [] then None else Some(Named(ms, name)[0])
  {
    for i := 0 to |ms|
      invariant forall j :: 0 <= j < i ==> !IsInstance(ms[j], name)
    {
      if ms[i].Function? && ms[i].name == name && !ms[i].sig.isStatic {
        NamedFirst(ms, name, i);
        return Some(ms[i]);
      }
    }
    NoneNamed(ms, name);
    return None;
  }

  method FindDispatchWinner(h: Tree, cls: ClassId, name: string) returns (winner: Option<Member>)
    requires h.Closed() && cls < |h.classes|
    ensures winner == Winner(h, cls, name)
  {
    var seen: set<ClassId> := {};
    var cur: Option<ClassId> := Some(cls);
    ghost var done: seq<ClassId> := [];
    while cur.Some? && cur.value !in seen && !h.classes[cur.value].isBuiltin
      invariant cur.Some? ==> cur.value < |h.classes|
      invariant InTree(h, done) && Chain(h, cls) == done + Walk(h, cur, seen)
      invariant Winner(h, cls, name) == WinnerIn(h, Walk(h, cur, seen), name)
      decreases Unseen(h, seen)
    {
      var c := cur.value;
      WalkStep(h, Chain(h, cls), done, c, seen);
      assert Walk(h, cur, seen)[1..] == Walk(h, h.classes[c].super, seen + {c});
      var own := FindNamed(h.classes[c].members, name);
      if own.Some? {
        return own;
      }
      done, seen, cur := done + [c], seen + {c}, h.classes[c].super;
    }
    return None;
  }

  method AppendFamily(contract: seq<Member>, ms: seq<Member>, name: string, virtualOnly: bool) returns (r: seq<Member>)
    ensures r == contract + if virtualOnly then Virtuals(ms, name) else Named(ms, name)
  {
    r := contract;
    for i := 0 to |ms|
      invariant r == contract + if virtualOnly then Virtuals(ms[..i], name) else Named(ms[..i], name)
    {
      assert ms[..i + 1][..i] == ms[..i];
      if ms[i].Function? && ms[i].name == name && (!virtualOnly || ms[i].isVirtual) && !ms[i].sig.isStatic {
        r := r + [ms[i]];
      }
    }
    assert ms[..|ms|] == ms;
  }

  /** The virtual methods of the name up the ancestors. */
  method CollectAncestorVirtuals(h: Tree, cls: ClassId, name: string) returns (contract: seq<Member>)
    requires h.Closed() && cls < |h.classes|
    ensures contract == VirtualsOf(h, Ancestors(h, cls), name)
  {
    hide Walk;
    contract := [];
    var seen: set<ClassId> := {};
    var cur: Option<ClassId> := h.classes[cls].super;
    ghost var done: seq<ClassId> := [];
    while cur.Some? && cur.value !in seen && !h.classes[cur.value].isBuiltin
      invariant cur.Some? ==> cur.value < |h.classes|
      invariant InTree(h, done) && Ancestors(h, cls) == done + Walk(h, cur, seen)
      invariant contract == VirtualsOf(h, done, name)
      decreases Unseen(h, seen)
    {
      var c := cur.value;
      WalkStep(h, Ancestors(h, cls), done, c, seen);
      contract := AppendFamily(contract, h.classes[c].members, name, true);
      done, seen, cur := done + [c], seen + {c}, h.classes[c].super;
    }
    WalkEnds(h, cur, seen, done);
  }

  method CollectContractSet(h: Tree, cls: ClassId, ifaces: seq<IfaceId>, name: string) returns (contract: seq<Member>)
    requires h.Closed() && cls < |h.classes| && ifaces == IfacesOf(h, Chain(h, cls))
    ensures contract == Contract(h, cls, name)
  {
    IfacesInTree(h, Chain(h, cls));
    contract := CollectAncestorVirtuals(h, cls, name);
    var required := CollectRequired(h, ifaces, name);
    contract := contract + required;
  }

  method CollectRequired(h: Tree, ifaces: seq<IfaceId>, name: string) returns (required: seq<Member>)
    requires forall k :: 0 <= k < |ifaces| ==> ifaces[k] < |h.ifaces|
    ensures required == RequiredBy(h, ifaces, name)
  {
    required := [];
    for k := 0 to |ifaces|
      invariant required == RequiredBy(h, ifaces[..k], name)
    {
      assert ifaces[..k + 1][..k] == ifaces[..k];
      required := AppendFamily(required, h.ifaces[ifaces[k]], name, false);
    }
    assert ifaces[..|ifaces|] == ifaces;
  }

  // ---------------------------------------------------------------- the matching

  ghost predicate Functions(ms: seq<Member>) {
    forall k :: 0 <= k < |ms| ==> ms[k].Function?
  }

  /** The first declaration of each signature, in order. */
  function Firsts(ms: seq<Member>): seq<Member> {
    if ms == [] then []
    else
      var n := |ms| - 1;
      var kept := Firsts(ms[..n]);
      if ms[n].Function? && (exists k :: 0 <= k < |kept| && kept[k].Function? && kept[k].sig == ms[n].sig) then kept
      else kept + [ms[n]]
  }

  lemma {:induction false} FirstsKeepSignatures(ms: seq<Member>)
    requires Functions(ms)
    ensures Functions(Firsts(ms)) && DistinctSigs(Firsts(ms)) && Sigs(Firsts(ms)) == Sigs(ms)
  {
    if ms != [] {
      var n := |ms| - 1;
      FirstsKeepSignatures(ms[..n]);
      SigsSnoc(ms[..n], ms[n]);
      SigsSnoc(Firsts(ms[..n]), ms[n]);
      assert ms == ms[..n] + [ms[n]];
    }
  }

  lemma SigsSnoc(ms: seq<Member>, m: Member)
    requires m.Function?
    ensures Sigs(ms + [m]) == Sigs(ms) + {m.sig}
  {
    assert (ms + [m])[|ms|] == m;
  }

  method DedupContractSignatures(contract: seq<Member>) returns (deduped: seq<Member>)
    requires Functions(contract)
    ensures deduped == Firsts(contract)
  {
    deduped := [];
    for i := 0 to |contract|
      invariant deduped == Firsts(contract[..i]) && Functions(deduped)
    {
      var duplicate := false;
      var k := 0;
      while k < |deduped| && !duplicate
        invariant k <= |deduped|
        invariant duplicate ==> exists j :: 0 <= j < |deduped| && deduped[j].sig == contract[i].sig
        invariant !duplicate ==> forall j :: 0 <= j < k ==> deduped[j].sig != contract[i].sig
      {
        duplicate := SignaturesIdentical(deduped[k].sig, contract[i].sig);
        k := k + 1;
      }
      assert contract[..i + 1][..i] == contract[..i];
      if !duplicate {
        deduped := deduped + [contract[i]];
      }
    }
    assert contract[..|contract|] == contract;
  }

  /** The greedy matching: it rejects exactly when some own method's signature is not in the
      contract or is declared twice, and marks exactly the signatures the own methods have. */
  method MatchOwnMethodsToContract(own: seq<Member>, contract: seq<Member>)
    returns (rejected: bool, taken: seq<bool>)
    requires Functions(own) && Functions(contract) && DistinctSigs(contract)
    ensures rejected <==> !(DistinctSigs(own) && Sigs(own) <= Sigs(contract))
    ensures |taken| == |contract|
    ensures forall k :: 0 <= k < |contract| ==> (taken[k] <==> contract[k].sig in Sigs(own))
  {
    rejected := false;
    taken := seq(|contract|, k => false);
    for n := 0 to |own|
      invariant |taken| == |contract|
      invariant forall k :: 0 <= k < |contract| ==> (taken[k] <==> contract[k].sig in Sigs(own[..n]))
      invariant rejected <==> !(DistinctSigs(own[..n]) && Sigs(own[..n]) <= Sigs(contract))
    {
      var hit := 0;
      var found := false;
      while hit < |contract| && !found
        invariant hit <= |contract|
        invariant found ==> hit < |contract| && !taken[hit] && own[n].sig == contract[hit].sig
        invariant !found ==> forall k :: 0 <= k < hit ==> taken[k] || own[n].sig != contract[k].sig
        decreases |contract| - hit, !found
      {
        found := false;
        if !taken[hit] {
          found := SignaturesIdentical(own[n].sig, contract[hit].sig);
        }
        if !found {
          hit := hit + 1;
        }
      }
      assert own[..n + 1] == own[..n] + [own[n]];
      SigsSnoc(own[..n], own[n]);
      DistinctSnoc(own[..n], own[n]);
      SigsIndex(contract, own[n].sig);
      if found {
        taken := taken[hit := true];
      } else {
        rejected := true;
      }
    }
    assert own[..|own|] == own;
  }

  lemma DistinctSnoc(ms: seq<Member>, m: Member)
    requires Functions(ms) && m.Function?
    ensures DistinctSigs(ms + [m]) <==> DistinctSigs(ms) && m.sig !in Sigs(ms)
  {
    var more := ms + [m];
    if DistinctSigs(more) {
      assert forall i, j :: 0 <= i < j < |ms| ==> ms[i] == more[i] && ms[j] == more[j];
      assert more[|ms|] == m;
      assert forall i :: 0 <= i < |ms| ==> ms[i] == more[i];
    }
  }

  /** A signature in the set has an entry. */
  lemma SigsIndex(ms: seq<Member>, sig: Sig)
    requires Functions(ms)
    ensures sig in Sigs(ms) <==> exists k :: 0 <= k < |ms| && ms[k].sig == sig
  {
    if k: nat :| k < |ms| && ms[k].sig == sig {
      assert ms[k] in ms;
    }
  }

  method ReportUnmatchedContractSignatures(taken: seq<bool>) returns (errors: nat)
    ensures errors == 0 <==> forall k :: 0 <= k < |taken| ==> taken[k]
  {
    errors := 0;
    for i := 0 to |taken|
      invariant errors == 0 <==> forall k :: 0 <= k < i ==> taken[k]
    {
      if !taken[i] {
        errors := errors + 1;
      }
    }
  }

  method CheckVirtualNameUniformity(own: seq<Member>) returns (rejected: bool)
    requires Functions(own)
    ensures rejected <==> !Uniform(own)
  {
    var anyVirtual := false;
    for i := 0 to |own|
      invariant anyVirtual <==> exists k :: 0 <= k < i && own[k].isVirtual
    {
      if own[i].isVirtual {
        anyVirtual := true;
      }
    }
    if !anyVirtual {
      return false;
    }
    rejected := false;
    for i := 1 to |own|
      invariant rejected <==> exists k :: 0 <= k < i && own[k].sig != own[0].sig
    {
      var same := SignaturesIdentical(own[0].sig, own[i].sig);
      if !same {
        rejected := true;
      }
    }
  }

  lemma ContractIsFunctions(h: Tree, c: ClassId, name: string)
    requires h.Closed() && c < |h.classes|
    ensures Functions(Contract(h, c, name))
  {
    var contract := Contract(h, c, name);
    forall k | 0 <= k < |contract|
      ensures contract[k].Function?
    {
      assert contract[k] in contract;
    }
  }

  /** The instance family of one name: uniformity first, then the bijection. The contract after
      deduplication matches greedily exactly when it is in bijection. */
  method CheckInstanceNameContracts(h: Tree, cls: ClassId, ifaces: seq<IfaceId>, name: string, own: seq<Member>)
    returns (rejected: bool)
    requires h.Closed() && cls < |h.classes| && ifaces == IfacesOf(h, Chain(h, cls))
    requires own == Named(h.classes[cls].members, name)
    ensures rejected <==> !InstanceOk(h, cls, name)
  {
    var mixed := CheckVirtualNameUniformity(own);
    if mixed {
      return true;
    }
    var entries := CollectContractSet(h, cls, ifaces, name);
    ContractIsFunctions(h, cls, name);
    var contract := DedupContractSignatures(entries);
    FirstsKeepSignatures(entries);
    SameEmptiness(entries);
    if own == [] || contract == [] {
      return false;
    }
    var mismatched, taken := MatchOwnMethodsToContract(own, contract);
    var missing := ReportUnmatchedContractSignatures(taken);
    AllTaken(own, contract, taken);
    return mismatched || missing > 0;
  }

  lemma SameEmptiness(ms: seq<Member>)
    requires Functions(ms)
    ensures Firsts(ms) == [] <==> ms == []
  {
    FirstsKeepSignatures(ms);
    if ms != [] {
      assert ms[0].sig in Sigs(ms);
    }
  }

  lemma AllTaken(own: seq<Member>, contract: seq<Member>, taken: seq<bool>)
    requires Functions(contract) && |taken| == |contract|
    requires forall k :: 0 <= k < |contract| ==> (taken[k] <==> contract[k].sig in Sigs(own))
    ensures (forall k :: 0 <= k < |taken| ==> taken[k]) <==> Sigs(contract) <= Sigs(own)
  {
    if Sigs(contract) <= Sigs(own) {
      forall k | 0 <= k < |taken|
        ensures taken[k]
      {
        assert contract[k] in contract;
      }
    } else {
      var sig :| sig in Sigs(contract) && sig !in Sigs(own);
      SigsIndex(contract, sig);
    }
  }

  /** A static member with the parameter list of an inherited virtual method. */
  method CheckStaticVirtualCollision(h: Tree, cls: ClassId, name: string) returns (rejected: bool)
    requires h.Closed() && cls < |h.classes|
    ensures rejected <==> !StaticOk(h, cls, name)
  {
    var inherited := CollectAncestorVirtuals(h, cls, name);
    var ms := h.classes[cls].members;
    rejected := false;
    for k := 0 to |inherited|
      invariant rejected <==> exists j, i :: 0 <= j < k && 0 <= i < |ms| && Collides(inherited, ms, name, j, i)
    {
      assert inherited[k] in inherited;
      for i := 0 to |ms|
        invariant rejected <==> (exists j, l :: 0 <= j < k && 0 <= l < |ms| && Collides(inherited, ms, name, j, l))
                                || (exists l :: 0 <= l < i && Collides(inherited, ms, name, k, l))
      {
        if ms[i].Function? && ms[i].name == name && ms[i].sig.isStatic {
          var conflict := ParamListsConflict(ms[i].sig, inherited[k].sig);
          if conflict {
            assert Collides(inherited, ms, name, k, i);
            rejected := true;
          }
        }
      }
    }
    if rejected {
      var j, i :| 0 <= j < |inherited| && 0 <= i < |ms| && Collides(inherited, ms, name, j, i);
      assert ms[i] in ms && inherited[j] in inherited;
    } else {
      forall f, v | f in ms && IsStatic(f, name) && v in inherited
        ensures !ParamsConflict(f.sig, v.sig)
      {
        var i :| 0 <= i < |ms| && ms[i] == f;
        var j :| 0 <= j < |inherited| && inherited[j] == v;
        assert !Collides(inherited, ms, name, j, i);
      }
    }
  }

  predicate Collides(inherited: seq<Member>, ms: seq<Member>, name: string, j: nat, i: nat)
    requires j < |inherited| && i < |ms|
  {
    inherited[j].Function? && IsStatic(ms[i], name) && ParamsConflict(ms[i].sig, inherited[j].sig)
  }

  // ---------------------------------------------------------------- one class

  lemma OtherNamesOk(h: Tree, cls: ClassId, name: string)
    requires h.Closed() && cls < |h.classes|
    requires forall m :: m in h.classes[cls].members && m.Function? ==> m.name != name
    ensures NameOk(h, cls, name)
  {
    var members := h.classes[cls].members;
    assert forall j :: 0 <= j < |members| ==> members[j] in members;
    NoneNamed(members, name);
  }

  ghost predicate NameOk(h: Tree, cls: ClassId, name: string)
    requires h.Closed() && cls < |h.classes|
  {
    StaticOk(h, cls, name) && InstanceOk(h, cls, name)
  }

  /** The names of the functions a class declares. */
  function OwnNames(h: Tree, cls: ClassId): set<string>
    requires cls < |h.classes|
  {
    set m | m in h.classes[cls].members && m.Function? :: m.name
  }

  /** The names a class's own check rejects, when those in `inherited` are passed over. */
  ghost function Failing(h: Tree, cls: ClassId, inherited: set<string>): set<string>
    requires h.Closed() && cls < |h.classes|
  {
    set name | name in OwnNames(h, cls) && name !in inherited && !NameOk(h, cls, name)
  }

  lemma NoneFailing(h: Tree, cls: ClassId)
    requires h.Closed() && cls < |h.classes|
    ensures Failing(h, cls, {}) == {} <==> NamesOk(h, cls)
  {
    hide StaticOk, InstanceOk;
    if Failing(h, cls, {}) == {} {
      forall name
        ensures StaticOk(h, cls, name) && InstanceOk(h, cls, name)
      {
        if name !in OwnNames(h, cls) {
          OtherNamesOk(h, cls, name);
        } else {
          assert name !in Failing(h, cls, {});
        }
      }
    }
    if NamesOk(h, cls) {
      forall name
        ensures NameOk(h, cls, name)
      {
        assert StaticOk(h, cls, name) && InstanceOk(h, cls, name);
      }
    }
  }

  /** Step 1 for one class: every name it declares, unless an ancestor's check rejected it. */
  method CheckOverrideSignatures(h: Tree, cls: ClassId, inherited: set<string>)
    returns (rejected: set<string>, errors: nat)
    requires h.Closed() && cls < |h.classes|
    ensures rejected == inherited + Failing(h, cls, inherited) && errors == |Failing(h, cls, inherited)|
  {
    hide StaticOk, InstanceOk;
    var ifaces := CollectChainImplements(h, cls);
    var members := h.classes[cls].members;
    rejected, errors := inherited, 0;
    var names := OwnNames(h, cls);
    ghost var failed: set<string> := {};
    while names != {}
      invariant names <= OwnNames(h, cls) && errors == |failed| && rejected == inherited + failed
      invariant forall name :: name in failed <==> name !in names && name in Failing(h, cls, inherited)
      decreases |names|
    {
      var name :| name in names;
      if name !in rejected {
        var own := AppendFamily([], members, name, false);
        var bad := CheckStaticVirtualCollision(h, cls, name);
        if !bad {
          bad := CheckInstanceNameContracts(h, cls, ifaces, name, own);
        }
        assert bad <==> !NameOk(h, cls, name);
        if bad {
          rejected := rejected + {name};
          errors := errors + 1;
          failed := failed + {name};
        }
      }
      names := names - {name};
    }
    assert failed == Failing(h, cls, inherited);
  }

  ghost predicate Met(h: Tree, cls: ClassId, m: Member)
    requires h.Closed() && cls < |h.classes|
  {
    m.Function? && !m.sig.isStatic ==>
      var winner := Winner(h, cls, m.name);
      winner.Some? && winner.value.Function? && winner.value.sig == m.sig
  }

  ghost predicate AllMet(h: Tree, cls: ClassId, ms: seq<Member>, rejected: set<string>)
    requires h.Closed() && cls < |h.classes|
  {
    forall m :: m in ms ==> m.name in rejected || Met(h, cls, m)
  }

  /** Every method that the chain's interfaces require under a name not rejected is what its name
      dispatches to. */
  ghost predicate IfacesOkBut(h: Tree, c: ClassId, rejected: set<string>)
    requires h.Closed() && c < |h.classes|
  {
    IfacesInTree(h, Chain(h, c));
    forall name, m :: name !in rejected && m in RequiredBy(h, IfacesOf(h, Chain(h, c)), name) ==>
      Winner(h, c, name).Some? && Winner(h, c, name).value.Function? && Winner(h, c, name).value.sig == m.sig
  }

  lemma MetMeansIfacesOk(h: Tree, cls: ClassId, ifaces: seq<IfaceId>, rejected: set<string>)
    requires h.Closed() && cls < |h.classes| && ifaces == IfacesOf(h, Chain(h, cls))
    requires forall k :: 0 <= k < |ifaces| ==> ifaces[k] < |h.ifaces|
    ensures IfacesOkBut(h, cls, rejected) <==> forall k :: 0 <= k < |ifaces| ==>
              AllMet(h, cls, h.ifaces[ifaces[k]], rejected)
  {
    hide Winner, Walk, IfacesOf;
    IfacesInTree(h, Chain(h, cls));
    if IfacesOkBut(h, cls, rejected) {
      forall k, m | 0 <= k < |ifaces| && m in h.ifaces[ifaces[k]] && m.name !in rejected
        ensures Met(h, cls, m)
      {
        if m.Function? && !m.sig.isStatic {
          assert m in Named(h.ifaces[ifaces[k]], m.name);
          assert m in RequiredBy(h, ifaces, m.name);
        }
      }
    }
    if forall k :: 0 <= k < |ifaces| ==> AllMet(h, cls, h.ifaces[ifaces[k]], rejected) {
      forall name, m | name !in rejected && m in RequiredBy(h, ifaces, name)
        ensures Winner(h, cls, name).Some? && Winner(h, cls, name).value.Function?
                  && Winner(h, cls, name).value.sig == m.sig
      {
        var k :| 0 <= k < |ifaces| && m in Named(h.ifaces[ifaces[k]], name);
        assert AllMet(h, cls, h.ifaces[ifaces[k]], rejected);
        assert Met(h, cls, m);
      }
    }
  }

  /** One interface's members against the methods their names dispatch to. */
  method CheckRequired(h: Tree, cls: ClassId, ms: seq<Member>, rejected: set<string>) returns (errors: nat)
    requires h.Closed() && cls < |h.classes|
    ensures errors == 0 <==> AllMet(h, cls, ms, rejected)
  {
    errors := 0;
    for i := 0 to |ms|
      invariant errors == 0 <==> forall j :: 0 <= j < i ==> ms[j].name in rejected || Met(h, cls, ms[j])
    {
      var m := ms[i];
      if !m.Function? || m.sig.isStatic || m.name in rejected {
        continue;
      }
      var winner := FindDispatchWinner(h, cls, m.name);
      if winner == None || !winner.value.Function? {
        errors := errors + 1;
        continue;
      }
      var same := SignaturesIdentical(winner.value.sig, m.sig);
      if !same {
        errors := errors + 1;
      }
    }
    hide Met;
    assert forall j :: 0 <= j < |ms| ==> ms[j] in ms;
  }

  /** Step 2 for one class: every interface along the chain is implemented by dispatch winners, the
      rejected names aside. */
  method CheckInterfaceContracts(h: Tree, cls: ClassId, rejected: set<string>) returns (errors: nat)
    requires h.Closed() && cls < |h.classes|
    ensures errors == 0 <==> IfacesOkBut(h, cls, rejected)
  {
    hide IfacesOkBut, IfacesOf, AllMet, Walk;
    var ifaces := CollectChainImplements(h, cls);
    IfacesInTree(h, Chain(h, cls));
    MetMeansIfacesOk(h, cls, ifaces, rejected);
    errors := 0;
    for k := 0 to |ifaces|
      invariant errors == 0 <==> forall j :: 0 <= j < k ==> AllMet(h, cls, h.ifaces[ifaces[j]], rejected)
    {
      var bad := CheckRequired(h, cls, h.ifaces[ifaces[k]], rejected);
      errors := errors + bad;
    }
  }

  // ---------------------------------------------------------------- the driver

  predicate IsOwn(h: Tree, c: ClassId) {
    c < |h.classes| && !h.classes[c].isImported && !h.classes[c].isBuiltin
  }

  /** The class is its own ancestor. */
  ghost predicate OnCycle(h: Tree, c: ClassId) {
    exists p: seq<ClassId> :: |p| > 1 && p[0] == c && p[|p| - 1] == c && IsClimb(h, p)
  }

  /** Each class of the path is the superclass of the one before it. */
  ghost predicate IsClimb(h: Tree, p: seq<ClassId>) {
    forall i :: 0 <= i < |p| - 1 ==> p[i] < |h.classes| && h.classes[p[i]].super == Some(p[i + 1])
  }

  /** The classes are checked topmost first: a superclass of the unit comes before its subclass,
      unless the subclass is on a cycle, where no order could do that. */
  ghost predicate TopmostFirst(h: Tree, order: seq<ClassId>) {
    forall i :: 0 <= i < |order| ==> order[i] < |h.classes| && SuperBefore(h, order[..i], order[i])
  }

  ghost predicate SuperBefore(h: Tree, before: seq<ClassId>, c: ClassId)
    requires c < |h.classes|
  {
    h.classes[c].super.Some? && IsOwn(h, h.classes[c].super.value) ==>
      h.classes[c].super.value in before || OnCycle(h, c)
  }

  /** The names a class takes over as rejected: its superclass's, if that was checked before it. */
  ghost function Inherited(h: Tree, rejected: map<ClassId, set<string>>, before: seq<ClassId>, c: ClassId): set<string>
    requires c < |h.classes|
  {
    var super := h.classes[c].super;
    if super.Some? && super.value in before && super.value in rejected then rejected[super.value] else {}
  }

  /** Each class rejects what its superclass rejected and, of its other names, those that fail. */
  ghost predicate PassedDown(h: Tree, order: seq<ClassId>, rejected: map<ClassId, set<string>>)
    requires h.Closed()
  {
    forall i :: 0 <= i < |order| ==>
      && order[i] < |h.classes| && order[i] in rejected
      && var inherited := Inherited(h, rejected, order[..i], order[i]);
         rejected[order[i]] == inherited + Failing(h, order[i], inherited)
  }

  /** No class is open twice, or open and finished. */
  ghost predicate Apart(open: seq<ClassId>, order: seq<ClassId>) {
    && (forall i, j :: 0 <= i < j < |open| ==> open[i] != open[j])
    && (forall c :: c in open ==> c !in order)
  }

  /** A class is marked exactly when it is checked or open; nothing has been logged exactly when every
      class checked so far is silent, and a name is rejected only after something has been logged. */
  ghost predicate Sound(h: Tree, processed: set<ClassId>, rejected: map<ClassId, set<string>>, errors: nat,
                        order: seq<ClassId>, open: seq<ClassId>)
    requires h.Closed()
  {
    && IsClimb(h, open) && Apart(open, order)
    && (forall c :: c in processed <==> c in order || c in open)
    && (forall c :: c in processed ==> IsOwn(h, c))
    && (forall c :: c in rejected <==> c in order)
    && (errors == 0 <==> forall c :: c in order ==> IsOwn(h, c) && ClassOk(h, c))
    && (errors == 0 ==> forall c :: c in rejected ==> rejected[c] == {})
  }

  class ModuleBuilder {
    const h: Tree
    var processed: set<ClassId>
    var rejectedByClass: map<ClassId, set<string>>
    var errors: nat
    /** The classes checked so far, in order, and those whose superclasses are being checked. */
    ghost var order: seq<ClassId>
    ghost var open: seq<ClassId>

    ghost predicate Valid()
      reads this
    {
      && h.Closed() && Sound(h, processed, rejectedByClass, errors, order, open)
      && TopmostFirst(h, order) && PassedDown(h, order, rejectedByClass)
    }

    constructor (h: Tree)
      requires h.Closed()
      ensures Valid() && this.h == h && processed == {} && order == [] && open == [] && errors == 0
    {
      this.h := h;
      processed, rejectedByClass, errors, order, open := {}, map[], 0, [], [];
    }

    /** One class, after its superclass. The mark comes before the recursion, so a cycle ends. */
    method Process(cls: Option<ClassId>)
      requires Valid() && (cls.Some? ==> cls.value < |h.classes|)
      requires open != [] ==> open[|open| - 1] < |h.classes| && h.classes[open[|open| - 1]].super == cls
      modifies this
      ensures Valid() && old(processed) <= processed && open == old(open) && old(order) <= order
      ensures cls.Some? && IsOwn(h, cls.value) ==> cls.value in processed
      decreases Unseen(h, processed)
    {
      hide Sound, Unseen, TopmostFirst, PassedDown;
      if cls == None || cls.value in processed || h.classes[cls.value].isImported || h.classes[cls.value].isBuiltin {
        return;
      }
      var c := cls.value;
      SeeOne(h, processed, c);
      OpenSound(h, processed, rejectedByClass, errors, order, open, c);
      ghost var before, first := open, order;
      processed := processed + {c};
      open := open + [c];
      assert open[..|open| - 1] == before && open[|open| - 1] == c;
      Process(h.classes[c].super);
      assert open == before + [c] && first <= order;
      CheckClass(c);
      assert open == before;
    }

    /** Both steps for one class, under the names its superclass rejected. */
    method CheckClass(c: ClassId)
      requires Valid() && IsOwn(h, c) && open != [] && open[|open| - 1] == c
      requires h.classes[c].super.Some? && IsOwn(h, h.classes[c].super.value) ==> h.classes[c].super.value in processed
      modifies this
      ensures Valid() && processed == old(processed) && order == old(order) + [c]
                && open == old(open)[..|old(open)| - 1]
    {
      hide Failing, IfacesOkBut, ClassOk, TopmostFirst, PassedDown, IsClimb, Apart, Sound;
      SoundMeans(h, processed, rejectedByClass, errors, order, open);
      var super := h.classes[c].super;
      var inherited: set<string> := {};
      if super.Some? && super.value in rejectedByClass {
        inherited := rejectedByClass[super.value];
      }
      var rejected, bad := CheckOverrideSignatures(h, c, inherited);
      var missing := CheckInterfaceContracts(h, c, rejected);
      ClassVerdict(h, c);
      ClosesCycle(h, open, order, c);
      Closes(h, open, order, c);
      NextChecked(h, order, rejectedByClass, c, rejected);
      CheckSound(h, processed, rejectedByClass, errors, order, open, c, rejected, bad + missing);
      errors := errors + bad + missing;
      rejectedByClass := rejectedByClass[c := rejected];
      order, open := order + [c], open[..|open| - 1];
    }

    /** The whole pass: it logs nothing exactly when every class of the unit is silent on its own.
        Every class of the unit is checked, topmost first, under the names rejected above it. */
    method CheckMethodContracts(classes: seq<ClassId>)
      requires Valid() && processed == {} && order == [] && open == [] && errors == 0
      requires forall k :: 0 <= k < |classes| ==> classes[k] < |h.classes|
      requires forall c :: IsOwn(h, c) ==> c in classes
      modifies this
      ensures errors == 0 <==> forall c :: IsOwn(h, c) ==> ClassOk(h, c)
      ensures (forall c :: c in order <==> IsOwn(h, c)) && TopmostFirst(h, order)
                && PassedDown(h, order, rejectedByClass)
    {
      hide ClassOk, TopmostFirst, PassedDown, Apart;
      for k := 0 to |classes|
        invariant Valid() && open == []
        invariant forall j :: 0 <= j < k && IsOwn(h, classes[j]) ==> classes[j] in processed
      {
        Process(Some(classes[k]));
      }
      assert forall c :: IsOwn(h, c) <==> c in order;
    }
  }

  lemma SoundMeans(h: Tree, processed: set<ClassId>, rejected: map<ClassId, set<string>>, errors: nat,
                   order: seq<ClassId>, open: seq<ClassId>)
    requires h.Closed() && Sound(h, processed, rejected, errors, order, open)
    ensures IsClimb(h, open) && Apart(open, order)
    ensures forall c :: c in processed <==> c in order || c in open
    ensures forall c :: c in rejected <==> c in order
    ensures errors == 0 ==> forall c :: c in rejected ==> rejected[c] == {}
  {
    hide ClassOk;
  }

  lemma OpenSound(h: Tree, processed: set<ClassId>, rejected: map<ClassId, set<string>>, errors: nat,
                  order: seq<ClassId>, open: seq<ClassId>, c: ClassId)
    requires h.Closed() && Sound(h, processed, rejected, errors, order, open) && IsOwn(h, c) && c !in processed
    requires open != [] ==> open[|open| - 1] < |h.classes| && h.classes[open[|open| - 1]].super == Some(c)
    ensures Sound(h, processed + {c}, rejected, errors, order, open + [c])
    ensures (open + [c])[..|open|] == open && (open + [c])[|open|] == c
  {
    hide ClassOk;
    Opens(h, open, order, processed, c);
    hide IsClimb, Apart;
  }

  lemma CheckSound(h: Tree, processed: set<ClassId>, rejected: map<ClassId, set<string>>, errors: nat,
                   order: seq<ClassId>, open: seq<ClassId>, c: ClassId, names: set<string>, bad: nat)
    requires h.Closed() && Sound(h, processed, rejected, errors, order, open) && IsOwn(h, c)
    requires open != [] && open[|open| - 1] == c
    requires errors == 0 ==> (bad == 0 <==> ClassOk(h, c)) && (bad == 0 ==> names == {})
    ensures Sound(h, processed, rejected[c := names], errors + bad, order + [c], open[..|open| - 1])
  {
    hide ClassOk;
    Closes(h, open, order, c);
    hide IsClimb, Apart;
    forall d
      ensures d in order + [c] <==> d in order || d == c
    {
    }
  }

  lemma Opens(h: Tree, open: seq<ClassId>, order: seq<ClassId>, processed: set<ClassId>, c: ClassId)
    requires IsClimb(h, open) && Apart(open, order) && c !in open && c !in order
    requires open != [] ==> open[|open| - 1] < |h.classes| && h.classes[open[|open| - 1]].super == Some(c)
    ensures IsClimb(h, open + [c]) && Apart(open + [c], order)
    ensures forall d :: d in open + [c] <==> d in open || d == c
    ensures (open + [c])[..|open|] == open && (open + [c])[|open|] == c
  {
  }

  lemma Closes(h: Tree, open: seq<ClassId>, order: seq<ClassId>, c: ClassId)
    requires IsClimb(h, open) && Apart(open, order) && open != [] && open[|open| - 1] == c
    ensures var rest := open[..|open| - 1];
            && IsClimb(h, rest) && Apart(rest, order + [c]) && c !in order
            && forall d :: d in open <==> d in rest || d == c
  {
    var rest := open[..|open| - 1];
    assert open == rest + [c];
    forall d | d in rest
      ensures d !in order + [c]
    {
      var i :| 0 <= i < |rest| && rest[i] == d;
      assert open[i] == d;
    }
  }

  /** A superclass that is neither checked nor unmarked is further down the recursion: a cycle. */
  lemma ClosesCycle(h: Tree, open: seq<ClassId>, order: seq<ClassId>, c: ClassId)
    requires c < |h.classes| && IsClimb(h, open) && open != [] && open[|open| - 1] == c
    requires h.classes[c].super.Some? && IsOwn(h, h.classes[c].super.value) ==>
               h.classes[c].super.value in order || h.classes[c].super.value in open
    ensures SuperBefore(h, order, c)
  {
    var super := h.classes[c].super;
    if super.Some? && super.value in open {
      var k :| 0 <= k < |open| && open[k] == super.value;
      var p := [c] + open[k..];
      assert p[|p| - 1] == c && IsClimb(h, p);
    }
  }

  lemma NextChecked(h: Tree, order: seq<ClassId>, rejected: map<ClassId, set<string>>, c: ClassId, names: set<string>)
    requires h.Closed() && c < |h.classes| && c !in order && (forall d :: d in rejected <==> d in order)
    requires PassedDown(h, order, rejected) && TopmostFirst(h, order) && SuperBefore(h, order, c)
    requires var inherited := Inherited(h, rejected, order, c); names == inherited + Failing(h, c, inherited)
    ensures PassedDown(h, order + [c], rejected[c := names]) && TopmostFirst(h, order + [c])
  {
    hide Failing, SuperBefore;
    var more := order + [c];
    forall i | 0 <= i < |more|
      ensures more[..i] == order[..i]
    {
    }
  }

  lemma ClassVerdict(h: Tree, c: ClassId)
    requires h.Closed() && c < |h.classes|
    ensures ClassOk(h, c) <==> Failing(h, c, {}) == {} && IfacesOkBut(h, c, {})
  {
    NoneFailing(h, c);
  }

  /** An interface along the class's chain requires the method. */
  ghost predicate Requires(h: Tree, c: ClassId, name: string, m: Member)
    requires h.Closed() && c < |h.classes|
  {
    IfacesInTree(h, Chain(h, c));
    m in RequiredBy(h, IfacesOf(h, Chain(h, c)), name)
  }

  /** After the marking pass, a silent pass over a unit whose imported classes passed theirs means that
      every call bound to a virtual or interface method finds that signature by name, provided no
      virtual method is declared behind another member of its name that the marking would find. */
  lemma SilentPassIsEnough(h: Tree, c: ClassId, name: string, m: Member)
    requires h.Closed() && Acyclic(h) && NothingHidden(h) && Marked(h).Closed()
    requires c < |h.classes| && !h.classes[c].isBuiltin
    requires forall d :: IsOwn(Marked(h), d) ==> ClassOk(Marked(h), d)
    requires forall d :: 0 <= d < |h.classes| && h.classes[d].isImported && !h.classes[d].isBuiltin ==>
              ClassOk(Marked(h), d)
    requires m in VirtualsOf(Marked(h), Chain(Marked(h), c), name) || Requires(Marked(h), c, name, m)
    ensures var winner := Winner(Marked(h), c, name);
            winner.Some? && winner.value.Function? && winner.value.sig == m.sig
  {
    hide Marked, Chain, VirtualsOf, Winner, NothingHidden;
    var g := Marked(h);
    forall d | 0 <= d < |g.classes|
      ensures g.classes[d].isBuiltin == h.classes[d].isBuiltin && g.classes[d].isImported == h.classes[d].isImported
    {
      MarkedKeeps(h, d);
    }
    hide SameShape;
    assert AllSilent(g) by {
      hide ClassOk;
      forall d | 0 <= d < |g.classes| && !g.classes[d].isBuiltin
        ensures ClassOk(g, d)
      {
        assert IsOwn(g, d) || g.classes[d].isImported;
      }
    }
    MarkedAndSilentIsSafe(h);
    assert VirtualCallsSafe(g, c, name) && ClassOk(g, c) && IfacesOk(g, c);
  }
}
