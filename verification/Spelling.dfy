/** The canonical spelling of generic instantiations, the key they are interned under. */
module Spelling {
  /** A type argument: a leaf spells itself, an instantiation spells its template's bare name and
      keeps its own arguments. */
  datatype Arg = Arg(spelling: string, resolvedKind: nat, classRowRef: int, nested: seq<Arg>)

  function CanonicalArg(a: Arg): string
    decreases a, 1
  {
    if a.nested == [] then a.spelling else a.spelling + "<" + Join(a, 0) + ">"
  }

  /** The arguments of `a` from the `k`-th on, separated by commas. */
  function Join(a: Arg, k: nat): string
    requires k <= |a.nested|
    decreases a, 0, |a.nested| - k
  {
    if k == |a.nested| then ""
    else CanonicalArg(a.nested[k]) + (if k + 1 < |a.nested| then "," + Join(a, k + 1) else "")
  }

  /** An instantiation's key: always with angle brackets, even without arguments. */
  function Canonical(template: string, args: seq<Arg>): string {
    template + "<" + Join(Arg("", 0, 0, args), 0) + ">"
  }

  /** `Map<int,List<string>>`: arguments in order, commas between them, brackets around each list. */
  lemma MapOfIntToList(kind: nat, row: int)
    ensures var ofString := Arg("string", kind, row, []);
            Canonical("Map", [Arg("int", kind, row, []), Arg("List", kind, row, [ofString])])
            == "Map<int,List<string>>"
    ensures Canonical("List", []) == "List<>"
  {
    var int_, ofString := Arg("int", kind, row, []), Arg("string", kind, row, []);
    var list := Arg("List", kind, row, [ofString]);
    var whole := Arg("", 0, 0, [int_, list]);
    assert Join(list, 0) == "string";
    assert CanonicalArg(list) == "List<string>";
    assert Join(whole, 1) == "List<string>";
    assert Join(whole, 0) == "int" + ("," + "List<string>");
    assert "Map" + "<" + ("int" + ("," + "List<string>")) + ">" == "Map<int,List<string>>";
  }

  // ---------------------------------------------------------------- what spellings may be

  function Depth(s: string): int {
    if s == "" then 0
    else Depth(s[..|s| - 1]) + (if s[|s| - 1] == '[' then 1 else if s[|s| - 1] == ']' then -1 else 0)
  }

  /** The contract of a leaf or bare name: no angle brackets, square brackets balanced, commas only
      between them. */
  predicate IsWord(s: string) {
    && '<' !in s && '>' !in s && Depth(s) == 0
    && forall i :: 0 <= i < |s| && s[i] == ',' ==> Depth(s[..i]) > 0
  }

  predicate WellSpelled(a: Arg)
    decreases a
  {
    IsWord(a.spelling) && forall k :: 0 <= k < |a.nested| ==> WellSpelled(a.nested[k])
  }

  /** The instantiation tree alone: what two descriptors of one instantiation share. */
  datatype Tree = Tree(name: string, args: seq<Tree>)

  function TreeOf(a: Arg): Tree
    decreases a
  {
    Tree(a.spelling, seq(|a.nested|, k requires 0 <= k < |a.nested| => TreeOf(a.nested[k])))
  }

  /** What may follow a spelled argument. */
  predicate Stops(s: string) {
    s == "" || s[0] == ',' || s[0] == '>'
  }

  lemma WordEnds(p: string, q: string, s: string, t: string)
    requires IsWord(p) && IsWord(q) && p + s == q + t
    requires (Stops(s) || s[0] == '<') && (Stops(t) || t[0] == '<')
    ensures p == q && s == t
  {
    if |p| < |q| {
      WordNotPrefix(p, q, s, t);
    } else if |q| < |p| {
      WordNotPrefix(q, p, t, s);
    } else {
      assert p == (p + s)[..|p|] == (q + t)[..|q|] == q;
      assert s == (p + s)[|p|..] == (q + t)[|q|..] == t;
    }
  }

  /** A word never continues into another word: the next character would be a bracket, or a comma
      outside the square brackets. */
  lemma WordNotPrefix(p: string, q: string, s: string, t: string)
    requires IsWord(p) && IsWord(q) && p + s == q + t && |p| < |q|
    ensures !(Stops(s) || s[0] == '<')
  {
    assert q[..|p|] == (q + t)[..|p|] == (p + s)[..|p|] == p;
    assert |p| + |s| == |p + s| == |q + t| == |q| + |t|;
    assert q[|p|] == (q + t)[|p|] == (p + s)[|p|] == s[0];
    assert q[|p|] in q;
  }

  /** An argument's spelling followed by a stop can be read in one way only. */
  lemma {:induction false} ArgReads(a: Arg, b: Arg, s: string, t: string)
    requires WellSpelled(a) && WellSpelled(b) && Stops(s) && Stops(t)
    requires CanonicalArg(a) + s == CanonicalArg(b) + t
    ensures TreeOf(a) == TreeOf(b) && s == t
    decreases a, 1
  {
    var sa, sb := AfterName(a, s), AfterName(b, t);
    NameFirst(a, s);
    NameFirst(b, t);
    WordEnds(a.spelling, b.spelling, sa, sb);
    hide CanonicalArg, AfterName, Join;
    if a.nested != [] && b.nested != [] {
      ListReads(a, b, 0, s, t);
    }
  }

  /** What follows the name of `a` when `rest` follows `a`. */
  function AfterName(a: Arg, rest: string): string {
    if a.nested == [] then rest else "<" + (Join(a, 0) + (">" + rest))
  }

  lemma NameFirst(a: Arg, rest: string)
    ensures CanonicalArg(a) + rest == a.spelling + AfterName(a, rest)
    ensures a.nested == [] ==> AfterName(a, rest) == rest
    ensures a.nested != [] ==> AfterName(a, rest) != "" && AfterName(a, rest)[0] == '<'
                               && AfterName(a, rest)[1..] == Join(a, 0) + (">" + rest)
  {
    hide Join;
  }

  lemma {:induction false} ListReads(a: Arg, b: Arg, k: nat, s: string, t: string)
    requires k < |a.nested| && k < |b.nested|
    requires forall j :: 0 <= j < |a.nested| ==> WellSpelled(a.nested[j])
    requires forall j :: 0 <= j < |b.nested| ==> WellSpelled(b.nested[j])
    requires Join(a, k) + (">" + s) == Join(b, k) + (">" + t)
    ensures |a.nested| == |b.nested| && s == t
    ensures forall j :: k <= j < |a.nested| ==> TreeOf(a.nested[j]) == TreeOf(b.nested[j])
    decreases a, 0, |a.nested| - k
  {
    hide CanonicalArg, Join, WellSpelled;
    var moreA, moreB := k + 1 < |a.nested|, k + 1 < |b.nested|;
    var ja, jb := if moreA then Join(a, k + 1) else "", if moreB then Join(b, k + 1) else "";
    var ra := (if moreA then "," + ja else "") + (">" + s);
    var rb := (if moreB then "," + jb else "") + (">" + t);
    JoinCons(a, k, ">" + s);
    JoinCons(b, k, ">" + t);
    ArgReads(a.nested[k], b.nested[k], ra, rb);
    hide TreeOf;
    LastRead(ja, moreA, s, jb, moreB, t);
    if moreA && moreB {
      assert ra[1..] == ja + (">" + s) && rb[1..] == jb + (">" + t);
      ListReads(a, b, k + 1, s, t);
    }
  }

  lemma JoinCons(a: Arg, k: nat, rest: string)
    requires k < |a.nested|
    ensures Join(a, k) + rest
            == CanonicalArg(a.nested[k]) + ((if k + 1 < |a.nested| then "," + Join(a, k + 1) else "") + rest)
  {
  }

  /** A comma and a closing bracket tell a list that goes on from one that ends. */
  lemma LastRead(ja: string, moreA: bool, s: string, jb: string, moreB: bool, t: string)
    requires (if moreA then "," + ja else "") + (">" + s) == (if moreB then "," + jb else "") + (">" + t)
    ensures moreA == moreB && (!moreA ==> s == t)
  {
    var ra, rb := (if moreA then "," + ja else "") + (">" + s), (if moreB then "," + jb else "") + (">" + t);
    assert ra[0] == (if moreA then ',' else '>') && rb[0] == (if moreB then ',' else '>');
    assert !moreA ==> ra[1..] == s;
    assert !moreB ==> rb[1..] == t;
  }

  ghost predicate SameTrees(args1: seq<Arg>, args2: seq<Arg>) {
    |args1| == |args2| && forall k :: 0 <= k < |args1| ==> TreeOf(args1[k]) == TreeOf(args2[k])
  }

  /** No argument, or one that is an empty leaf: both spell nothing. */
  predicate Blank(args: seq<Arg>) {
    args == [] || (|args| == 1 && args[0].spelling == "" && args[0].nested == [])
  }

  /** The canonical spelling is the instantiation tree: two instantiations spell the same exactly
      when their trees are the same, but for the lone empty leaf, which spells like no argument.
      Kinds and table rows do not enter the key. */
  lemma SpellingIsInjective(t1: string, args1: seq<Arg>, t2: string, args2: seq<Arg>)
    requires IsWord(t1) && IsWord(t2) && forall k :: 0 <= k < |args1| ==> WellSpelled(args1[k])
    requires forall k :: 0 <= k < |args2| ==> WellSpelled(args2[k])
    ensures Canonical(t1, args1) == Canonical(t2, args2) <==>
            t1 == t2 && (SameTrees(args1, args2) || (Blank(args1) && Blank(args2)))
  {
    BlankJoin(Arg("", 0, 0, args1));
    BlankJoin(Arg("", 0, 0, args2));
    if SameTrees(args1, args2) {
      SameJoin(Arg("", 0, 0, args1), Arg("", 0, 0, args2), 0);
    }
    hide Join, Blank, SameTrees;
    if Canonical(t1, args1) == Canonical(t2, args2) {
      SpellingReads(t1, args1, t2, args2);
    }
  }

  /** The key after the template's name. */
  function Tail(args: seq<Arg>): string {
    "<" + (Join(Arg("", 0, 0, args), 0) + (">" + ""))
  }

  lemma TailSplits(template: string, args: seq<Arg>)
    ensures Canonical(template, args) == template + Tail(args)
    ensures Tail(args)[0] == '<' && Tail(args)[1..] == Join(Arg("", 0, 0, args), 0) + (">" + "")
  {
    hide Join;
  }

  lemma SpellingReads(t1: string, args1: seq<Arg>, t2: string, args2: seq<Arg>)
    requires IsWord(t1) && IsWord(t2) && forall k :: 0 <= k < |args1| ==> WellSpelled(args1[k])
    requires forall k :: 0 <= k < |args2| ==> WellSpelled(args2[k])
    requires Canonical(t1, args1) == Canonical(t2, args2)
    ensures t1 == t2
    ensures SameTrees(args1, args2) || Join(Arg("", 0, 0, args1), 0) == Join(Arg("", 0, 0, args2), 0) == ""
  {
    hide Canonical, Tail, Join, IsWord, WellSpelled, TreeOf;
    var a, b := Arg("", 0, 0, args1), Arg("", 0, 0, args2);
    TailSplits(t1, args1);
    TailSplits(t2, args2);
    WordEnds(t1, t2, Tail(args1), Tail(args2));
    if args1 != [] && args2 != [] {
      ListReads(a, b, 0, "", "");
    } else {
      SameFront(Join(a, 0), Join(b, 0));
      BlankJoin(a);
      BlankJoin(b);
    }
  }

  lemma SameFront(s: string, t: string)
    requires s + (">" + "") == t + (">" + "")
    ensures s == t
  {
    assert s == (s + (">" + ""))[..|s|] && t == (t + (">" + ""))[..|t|];
    assert |s| + 1 == |s + (">" + "")| == |t + (">" + "")| == |t| + 1;
  }

  lemma BlankJoin(a: Arg)
    ensures Join(a, 0) == "" <==> Blank(a.nested)
    ensures a.nested == [] ==> Join(a, 0) == ""
  {
    if a.nested != [] {
      assert CanonicalArg(a.nested[0]) == "" <==> a.nested[0].spelling == "" && a.nested[0].nested == [];
    }
  }

  lemma {:induction false} SameCanonical(a: Arg, b: Arg)
    requires TreeOf(a) == TreeOf(b)
    ensures CanonicalArg(a) == CanonicalArg(b)
    decreases a, 1
  {
    assert |TreeOf(a).args| == |TreeOf(b).args|;
    forall k | 0 <= k < |a.nested|
      ensures TreeOf(a.nested[k]) == TreeOf(b.nested[k])
    {
      assert TreeOf(a).args[k] == TreeOf(b).args[k];
    }
    SameJoin(a, b, 0);
  }

  lemma {:induction false} SameJoin(a: Arg, b: Arg, k: nat)
    requires |a.nested| == |b.nested| && k <= |a.nested|
    requires forall j :: 0 <= j < |a.nested| ==> TreeOf(a.nested[j]) == TreeOf(b.nested[j])
    ensures Join(a, k) == Join(b, k)
    decreases a, 0, |a.nested| - k
  {
    if k < |a.nested| {
      SameCanonical(a.nested[k], b.nested[k]);
      SameJoin(a, b, k + 1);
    }
  }

  // ---------------------------------------------------------------- the pool

  datatype Descriptor = Descriptor(template: string, args: seq<Arg>)

  function Key(d: Descriptor): string {
    Canonical(d.template, d.args)
  }

  /** No argument and one empty argument spell the same, though they are different trees. */
  lemma EmptyLeafCollides(template: string)
    ensures Canonical(template, []) == Canonical(template, [Arg("", 0, 0, [])]) && !SameTrees([], [Arg("", 0, 0, [])])
  {
  }

  class InternPool {
    var pool: map<string, nat>
    var made: seq<Descriptor>

    /** Every descriptor is in the pool under its own key, and nothing else is. */
    ghost predicate Valid()
      reads this
    {
      && (forall i :: 0 <= i < |made| ==> Key(made[i]) in pool && pool[Key(made[i])] == i)
      && (forall key :: key in pool ==> pool[key] < |made| && Key(made[pool[key]]) == key)
    }

    constructor ()
      ensures Valid() && made == []
    {
      pool, made := map[], [];
    }

    /** The descriptor with the key is returned, made from this call's arguments if it is new;
        descriptors already made stay what they are. */
    method Intern(template: string, args: seq<Arg>) returns (id: nat)
      requires Valid()
      modifies this
      ensures Valid() && id < |made| && old(made) <= made
      ensures Canonical(made[id].template, made[id].args) == Canonical(template, args)
      ensures made == old(made) || (made == old(made) + [Descriptor(template, args)] && id == old(|made|))
    {
      var key := Canonical(template, args);
      if key !in pool {
        pool := pool[key := |made|];
        made := made + [Descriptor(template, args)];
      }
      return pool[key];
    }

    /** Two interned instantiations share a descriptor exactly when they are the same tree, the lone
        empty leaf aside. */
    method InternTwice(t1: string, args1: seq<Arg>, t2: string, args2: seq<Arg>) returns (same: bool)
      requires Valid() && IsWord(t1) && IsWord(t2)
      requires forall k :: 0 <= k < |args1| ==> WellSpelled(args1[k])
      requires forall k :: 0 <= k < |args2| ==> WellSpelled(args2[k])
      modifies this
      ensures Valid()
      ensures same <==> t1 == t2 && (SameTrees(args1, args2) || (Blank(args1) && Blank(args2)))
    {
      var first := Intern(t1, args1);
      ghost var key := Canonical(made[first].template, made[first].args);
      var second := Intern(t2, args2);
      SpellingIsInjective(t1, args1, t2, args2);
      return first == second;
    }
  }
}
