/** The link-time merge of interface tables: rows deduplicated by name, contentless placeholders
    replaced in place by the row that has the content, and the duty to remap a merged row kept
    with exactly the unit that supplied it. */
module InterfaceMerge {
  import opened Wrappers

  datatype Row = Row(name: string, staticInitFuncIdx: nat, staticMethods: seq<nat>, constants: seq<nat>,
                     instanceMethods: seq<nat>)

  predicate IsPlaceholder(r: Row) {
    r.staticInitFuncIdx == 0xFFFF && r.staticMethods == [] && r.constants == [] && r.instanceMethods == []
  }

  /** A row some unit brought, in the order the units were merged. */
  datatype Brought = Brought(unit: nat, row: Row)

  // ---------------------------------------------------------------- what the merge must produce

  /** The names in order of first appearance. */
  function Names(hist: seq<Brought>): seq<string> {
    if hist == [] then []
    else
      var r := Names(hist[..|hist| - 1]);
      if hist[|hist| - 1].row.name in r then r else r + [hist[|hist| - 1].row.name]
  }

  lemma {:induction false} NamesDistinct(hist: seq<Brought>)
    ensures forall j, k :: 0 <= j < k < |Names(hist)| ==> Names(hist)[j] != Names(hist)[k]
  {
    if hist != [] {
      NamesDistinct(hist[..|hist| - 1]);
    }
  }

  /** The row that must represent a name: the first with content, else the first. */
  ghost predicate Represents(hist: seq<Brought>, name: string, h: nat) {
    && h < |hist| && hist[h].row.name == name
    && (forall j :: 0 <= j < |hist| && hist[j].row.name == name && j < h ==> IsPlaceholder(hist[j].row))
    && (IsPlaceholder(hist[h].row) ==>
          forall j :: 0 <= j < |hist| && hist[j].row.name == name ==> h <= j && IsPlaceholder(hist[j].row))
  }

  function Pick(hist: seq<Brought>, name: string): Option<nat> {
    if hist == [] then None
    else
      var n := |hist| - 1;
      var before := Pick(hist[..n], name);
      if hist[n].row.name != name then before
      else if before == None then Some(n)
      else if before.value < n && IsPlaceholder(hist[before.value].row) && !IsPlaceholder(hist[n].row) then Some(n)
      else before
  }

  lemma {:induction false} PickRepresents(hist: seq<Brought>, name: string)
    ensures Pick(hist, name) == None ==> forall j :: 0 <= j < |hist| ==> hist[j].row.name != name
    ensures Pick(hist, name).Some? ==> Represents(hist, name, Pick(hist, name).value)
  {
    if hist != [] {
      PickRepresents(hist[..|hist| - 1], name);
    }
  }

  /** A name has at most one row that can represent it. */
  lemma RepresentativeIsUnique(hist: seq<Brought>, name: string, h: nat, g: nat)
    requires Represents(hist, name, h) && Represents(hist, name, g)
    ensures h == g
  {
  }

  /** A row brings nothing but its name exactly when it is this one; any static method, constant,
      initializer or instance method makes it the content the name is waiting for. */
  lemma ContentReplacesPlaceholder(hist: seq<Brought>, b: Brought)
    requires Pick(hist, b.row.name).Some?
    ensures var h, n := Pick(hist, b.row.name).value, |hist|;
            var bare := Row(b.row.name, 0xFFFF, [], [], []);
            && h < |hist|
            && Pick(hist + [b], b.row.name) == Some(if hist[h].row == bare && b.row != bare then n else h)
  {
    assert (hist + [b])[..|hist|] == hist;
    PickRepresents(hist, b.row.name);
  }

  lemma {:induction false} NamesPicked(hist: seq<Brought>, name: string)
    ensures name in Names(hist) <==> Pick(hist, name).Some?
  {
    if hist != [] {
      NamesPicked(hist[..|hist| - 1], name);
    }
  }

  /** The unit whose row represents a name. */
  ghost function Supplier(hist: seq<Brought>, name: string): Option<nat> {
    var h := Pick(hist, name);
    if h.Some? && h.value < |hist| then Some(hist[h.value].unit) else None
  }

  /** One merged row per name, in order of first appearance, each the row that represents it. */
  ghost predicate RowsRight(hist: seq<Brought>, merged: seq<Row>) {
    && |merged| == |Names(hist)|
    && forall k :: 0 <= k < |merged| ==>
         && merged[k].name == Names(hist)[k]
         && Pick(hist, merged[k].name).Some? && Pick(hist, merged[k].name).value < |hist|
         && merged[k] == hist[Pick(hist, merged[k].name).value].row
  }

  /** Each merged row is in exactly one unit's push list, once: the unit that supplied it. */
  ghost predicate PushesRight(hist: seq<Brought>, merged: seq<Row>, pushes: seq<seq<nat>>) {
    && (forall u, k: nat :: 0 <= u < |pushes| && k < |merged| ==>
          multiset(pushes[u])[k] == if Supplier(hist, merged[k].name) == Some(u) then 1 else 0)
    && (forall u, k: nat :: 0 <= u < |pushes| && k >= |merged| ==> multiset(pushes[u])[k] == 0)
  }

  function Bring(u: seq<Row>, unit: nat): (r: seq<Brought>)
    ensures |r| == |u| && forall i :: 0 <= i < |u| ==> r[i] == Brought(unit, u[i])
  {
    seq(|u|, i requires 0 <= i < |u| => Brought(unit, u[i]))
  }

  ghost predicate DistinctNames(u: seq<Row>) {
    forall i, j :: 0 <= i < j < |u| ==> u[i].name != u[j].name
  }

  // ---------------------------------------------------------------- one row at a time

  function RemoveAll(s: seq<nat>, x: nat): seq<nat> {
    if s == [] then [] else (if s[0] == x then [] else [s[0]]) + RemoveAll(s[1..], x)
  }

  lemma {:induction false} RemoveAllCounts(s: seq<nat>, x: nat, k: nat)
    ensures multiset(RemoveAll(s, x))[k] == if k == x then 0 else multiset(s)[k]
  {
    if s != [] {
      RemoveAllCounts(s[1..], x, k);
      assert s == [s[0]] + s[1..];
    }
  }

  lemma {:induction false} FindName(hist: seq<Brought>, merged: seq<Row>, name: string)
    requires RowsRight(hist, merged)
    ensures name in Names(hist) <==> exists k :: 0 <= k < |merged| && merged[k].name == name
  {
    if name in Names(hist) {
      var k :| 0 <= k < |Names(hist)| && Names(hist)[k] == name;
      assert merged[k].name == name;
    }
  }

  /** What one more row does to the representatives. */
  lemma PickSnoc(hist: seq<Brought>, b: Brought, name: string)
    ensures name != b.row.name ==>
              Pick(hist + [b], name) == Pick(hist, name) && Supplier(hist + [b], name) == Supplier(hist, name)
    ensures name == b.row.name && Pick(hist, name) == None ==>
              Pick(hist + [b], name) == Some(|hist|) && Supplier(hist + [b], name) == Some(b.unit)
    ensures name == b.row.name && Pick(hist, name).Some? && Pick(hist, name).value < |hist|
              && IsPlaceholder(hist[Pick(hist, name).value].row) && !IsPlaceholder(b.row) ==>
              Pick(hist + [b], name) == Some(|hist|) && Supplier(hist + [b], name) == Some(b.unit)
    ensures Names(hist + [b]) == if b.row.name in Names(hist) then Names(hist) else Names(hist) + [b.row.name]
  {
    assert (hist + [b])[..|hist|] == hist;
    PickRepresents(hist, name);
  }

  lemma AppendRows(hist: seq<Brought>, merged: seq<Row>, b: Brought)
    requires RowsRight(hist, merged) && b.row.name !in Names(hist)
    ensures RowsRight(hist + [b], merged + [b.row])
    ensures forall k :: 0 <= k < |merged| ==> Supplier(hist + [b], merged[k].name) == Supplier(hist, merged[k].name)
    ensures Supplier(hist + [b], b.row.name) == Some(b.unit)
  {
    var hist', merged' := hist + [b], merged + [b.row];
    NamesPicked(hist, b.row.name);
    PickSnoc(hist, b, b.row.name);
    hide Pick, Supplier;
    forall k | 0 <= k < |merged|
      ensures merged'[k] == merged[k] && merged[k].name != b.row.name
      ensures Pick(hist', merged[k].name) == Pick(hist, merged[k].name)
      ensures Supplier(hist', merged[k].name) == Supplier(hist, merged[k].name)
    {
      assert Names(hist)[k] in Names(hist);
      PickSnoc(hist, b, merged[k].name);
    }
  }

  /** A new name: the row is appended and pushed by its unit. */
  lemma AppendRow(hist: seq<Brought>, merged: seq<Row>, pushes: seq<seq<nat>>, b: Brought)
    requires RowsRight(hist, merged) && PushesRight(hist, merged, pushes) && b.unit < |pushes|
    requires b.row.name !in Names(hist)
    ensures PushesRight(hist + [b], merged + [b.row], pushes[b.unit := pushes[b.unit] + [|merged|]])
  {
    AppendRows(hist, merged, b);
    AppendPushes(hist, merged, pushes, b);
  }

  lemma AppendPushes(hist: seq<Brought>, merged: seq<Row>, pushes: seq<seq<nat>>, b: Brought)
    requires PushesRight(hist, merged, pushes) && b.unit < |pushes|
    requires forall k :: 0 <= k < |merged| ==> Supplier(hist + [b], merged[k].name) == Supplier(hist, merged[k].name)
    requires Supplier(hist + [b], b.row.name) == Some(b.unit)
    ensures PushesRight(hist + [b], merged + [b.row], pushes[b.unit := pushes[b.unit] + [|merged|]])
  {
    hide Supplier;
    var merged', pushes' := merged + [b.row], pushes[b.unit := pushes[b.unit] + [|merged|]];
    assert forall u, k: nat :: 0 <= u < |pushes'| ==>
      multiset(pushes'[u])[k] == multiset(pushes[u])[k] + if u == b.unit && k == |merged| then 1 else 0;
    assert forall k :: 0 <= k < |merged| ==> merged'[k] == merged[k];
  }

  /** A known name whose row stays: nothing moves. */
  lemma KeepRows(hist: seq<Brought>, merged: seq<Row>, b: Brought, e: nat)
    requires RowsRight(hist, merged)
    requires e < |merged| && merged[e].name == b.row.name && !(IsPlaceholder(merged[e]) && !IsPlaceholder(b.row))
    ensures RowsRight(hist + [b], merged)
    ensures forall k :: 0 <= k < |merged| ==> Supplier(hist + [b], merged[k].name) == Supplier(hist, merged[k].name)
  {
    var hist' := hist + [b];
    assert hist'[..|hist|] == hist;
    assert Names(hist)[e] == b.row.name;
    assert forall k :: 0 <= k < |merged| ==> Pick(hist', merged[k].name) == Pick(hist, merged[k].name);
  }

  lemma KeepRow(hist: seq<Brought>, merged: seq<Row>, pushes: seq<seq<nat>>, b: Brought, e: nat)
    requires RowsRight(hist, merged) && PushesRight(hist, merged, pushes)
    requires e < |merged| && merged[e].name == b.row.name && !(IsPlaceholder(merged[e]) && !IsPlaceholder(b.row))
    ensures PushesRight(hist + [b], merged, pushes)
  {
    KeepRows(hist, merged, b, e);
    hide Supplier, RowsRight;
  }

  lemma SwapRows(hist: seq<Brought>, merged: seq<Row>, b: Brought, e: nat)
    requires RowsRight(hist, merged)
    requires e < |merged| && merged[e].name == b.row.name && IsPlaceholder(merged[e]) && !IsPlaceholder(b.row)
    ensures RowsRight(hist + [b], merged[e := b.row]) && Supplier(hist + [b], b.row.name) == Some(b.unit)
    ensures forall k :: 0 <= k < |merged| && k != e ==>
              merged[k].name != b.row.name && Supplier(hist + [b], merged[k].name) == Supplier(hist, merged[k].name)
  {
    var hist', merged' := hist + [b], merged[e := b.row];
    PickSnoc(hist, b, b.row.name);
    assert Names(hist)[e] == b.row.name;
    assert b.row.name in Names(hist);
    NamesDistinct(hist);
    assert forall k :: 0 <= k < |merged| && k != e ==> merged[k].name == Names(hist)[k] != Names(hist)[e];
    hide Pick, Supplier, Names, IsPlaceholder;
    forall k | 0 <= k < |merged| && k != e
      ensures merged'[k] == merged[k] && merged[k].name != b.row.name
      ensures Pick(hist', merged[k].name) == Pick(hist, merged[k].name)
      ensures Supplier(hist', merged[k].name) == Supplier(hist, merged[k].name)
    {
      PickSnoc(hist, b, merged[k].name);
    }
  }

  /** A placeholder replaced in place: the row leaves its earlier pusher and joins this unit. */
  lemma SwapRow(hist: seq<Brought>, merged: seq<Row>, pushes: seq<seq<nat>>, pushes': seq<seq<nat>>, b: Brought, e: nat)
    requires RowsRight(hist, merged) && PushesRight(hist, merged, pushes) && b.unit < |pushes| == |pushes'|
    requires e < |merged| && merged[e].name == b.row.name && IsPlaceholder(merged[e]) && !IsPlaceholder(b.row)
    requires Supplier(hist, b.row.name) != Some(b.unit)
    requires forall u :: 0 <= u < |pushes| ==>
               pushes'[u] == if u < b.unit then RemoveAll(pushes[u], e)
                             else if u == b.unit then pushes[u] + [e] else pushes[u]
    requires forall u :: b.unit < u < |pushes| ==> pushes[u] == []
    ensures PushesRight(hist + [b], merged[e := b.row], pushes')
  {
    hide Supplier, RowsRight, RemoveAll, IsPlaceholder;
    SwapRows(hist, merged, b, e);
    SwapPushes(hist, merged, pushes, pushes', b, e);
    assert forall k :: 0 <= k < |merged| && k != e ==> merged[e := b.row][k] == merged[k];
  }

  lemma SwapPushes(hist: seq<Brought>, merged: seq<Row>, pushes: seq<seq<nat>>, pushes': seq<seq<nat>>,
      b: Brought, e: nat)
    requires PushesRight(hist, merged, pushes) && b.unit < |pushes| == |pushes'|
    requires e < |merged| && Supplier(hist, merged[e].name) != Some(b.unit)
    requires forall u :: 0 <= u < |pushes| ==>
               pushes'[u] == if u < b.unit then RemoveAll(pushes[u], e)
                             else if u == b.unit then pushes[u] + [e] else pushes[u]
    requires forall u :: b.unit < u < |pushes| ==> pushes[u] == []
    ensures forall u, k: nat :: 0 <= u < |pushes'| ==>
              multiset(pushes'[u])[k] == if k == e then (if u == b.unit then 1 else 0) else multiset(pushes[u])[k]
    ensures forall u, k: nat :: 0 <= u < |pushes'| && k >= |merged| ==> multiset(pushes'[u])[k] == 0
  {
    hide Supplier, RemoveAll;
    assert multiset(pushes[b.unit])[e] == 0;
    forall u, k: nat | 0 <= u < |pushes'|
      ensures multiset(pushes'[u])[k] == if k == e then (if u == b.unit then 1 else 0) else multiset(pushes[u])[k]
    {
      RemoveAllCounts(pushes[u], e, k);
    }
  }

  /** A unit brings the content of a name whose placeholder it brought itself, as the first to
      bring the name. */
  predicate SelfSwaps(hist: seq<Brought>, b: Brought) {
    var h := Pick(hist, b.row.name);
    h.Some? && h.value < |hist| && hist[h.value].unit == b.unit
    && IsPlaceholder(hist[h.value].row) && !IsPlaceholder(b.row)
  }

  predicate Clean(hist: seq<Brought>) {
    hist == [] || (Clean(hist[..|hist| - 1]) && !SelfSwaps(hist[..|hist| - 1], hist[|hist| - 1]))
  }

  /** Some merged row is twice in one push list. */
  ghost predicate PushedTwice(merged: seq<Row>, pushes: seq<seq<nat>>) {
    exists u, k: nat :: 0 <= u < |pushes| && k < |merged| && !IsPlaceholder(merged[k]) && multiset(pushes[u])[k] >= 2
  }

  /** The rows are right for what was brought so far, and so are the push lists unless some unit
      swapped its own row; units from `next` on brought nothing. */
  ghost predicate Right(hist: seq<Brought>, merged: seq<Row>, pushes: seq<seq<nat>>, next: nat) {
    && RowsRight(hist, merged)
    && (if Clean(hist) then PushesRight(hist, merged, pushes) else PushedTwice(merged, pushes))
    && (forall h :: 0 <= h < |hist| ==> hist[h].unit < next)
    && (forall u :: next <= u < |pushes| ==> pushes[u] == [])
  }

  lemma CleanSnoc(hist: seq<Brought>, b: Brought)
    ensures Clean(hist + [b]) <==> Clean(hist) && !SelfSwaps(hist, b)
  {
    assert (hist + [b])[..|hist|] == hist;
  }

  lemma AppendRight(hist: seq<Brought>, merged: seq<Row>, pushes: seq<seq<nat>>, b: Brought)
    requires Right(hist, merged, pushes, b.unit + 1) && b.unit < |pushes|
    requires forall k :: 0 <= k < |merged| ==> merged[k].name != b.row.name
    ensures Right(hist + [b], merged + [b.row], pushes[b.unit := pushes[b.unit] + [|merged|]], b.unit + 1)
  {
    FindName(hist, merged, b.row.name);
    NamesPicked(hist, b.row.name);
    CleanSnoc(hist, b);
    AppendRows(hist, merged, b);
    hide RowsRight, PushesRight, Clean, Names, IsPlaceholder;
    var merged', pushes' := merged + [b.row], pushes[b.unit := pushes[b.unit] + [|merged|]];
    if Clean(hist) {
      AppendRow(hist, merged, pushes, b);
    } else {
      var u, k: nat :| 0 <= u < |pushes| && k < |merged| && !IsPlaceholder(merged[k]) && multiset(pushes[u])[k] >= 2;
      assert merged'[k] == merged[k] && multiset(pushes'[u])[k] >= 2;
    }
  }

  lemma KeepRight(hist: seq<Brought>, merged: seq<Row>, pushes: seq<seq<nat>>, b: Brought, e: nat)
    requires Right(hist, merged, pushes, b.unit + 1) && b.unit < |pushes|
    requires e < |merged| && merged[e].name == b.row.name && !(IsPlaceholder(merged[e]) && !IsPlaceholder(b.row))
    ensures Right(hist + [b], merged, pushes, b.unit + 1)
  {
    CleanSnoc(hist, b);
    assert !SelfSwaps(hist, b);
    KeepRows(hist, merged, b, e);
    hide RowsRight, PushesRight, Clean, IsPlaceholder;
    if Clean(hist) {
      KeepRow(hist, merged, pushes, b, e);
    }
  }

  lemma SwapRight(hist: seq<Brought>, merged: seq<Row>, pushes: seq<seq<nat>>, pushes': seq<seq<nat>>,
      b: Brought, e: nat)
    requires Right(hist, merged, pushes, b.unit + 1) && b.unit < |pushes|
    requires e < |merged| && merged[e].name == b.row.name && IsPlaceholder(merged[e]) && !IsPlaceholder(b.row)
    requires Swapped(pushes, pushes', b.unit, e)
    ensures Right(hist + [b], merged[e := b.row], pushes', b.unit + 1)
  {
    CleanSnoc(hist, b);
    assert SelfSwaps(hist, b) <==> Supplier(hist, b.row.name) == Some(b.unit);
    SwapRows(hist, merged, b, e);
    hide RowsRight, Supplier, Clean, IsPlaceholder, SelfSwaps, PushesRight, PushedTwice, RemoveAll;
    if !Clean(hist) {
      TwiceStays(merged, pushes, pushes', b, e);
    } else if SelfSwaps(hist, b) {
      SwapTwice(hist, merged, pushes, pushes', b, e);
    } else {
      SwapRow(hist, merged, pushes, pushes', b, e);
    }
  }

  lemma TwiceStays(merged: seq<Row>, pushes: seq<seq<nat>>, pushes': seq<seq<nat>>, b: Brought, e: nat)
    requires PushedTwice(merged, pushes) && Swapped(pushes, pushes', b.unit, e) && b.unit < |pushes|
    requires e < |merged| && IsPlaceholder(merged[e]) && !IsPlaceholder(b.row)
    ensures PushedTwice(merged[e := b.row], pushes')
  {
    var u, k: nat :| 0 <= u < |pushes| && k < |merged| && !IsPlaceholder(merged[k]) && multiset(pushes[u])[k] >= 2;
    RemoveAllCounts(pushes[u], e, k);
    assert merged[e := b.row][k] == merged[k] && multiset(pushes'[u])[k] >= 2;
  }

  lemma SwapTwice(hist: seq<Brought>, merged: seq<Row>, pushes: seq<seq<nat>>, pushes': seq<seq<nat>>,
      b: Brought, e: nat)
    requires PushesRight(hist, merged, pushes) && Swapped(pushes, pushes', b.unit, e) && b.unit < |pushes|
    requires e < |merged| && Supplier(hist, merged[e].name) == Some(b.unit) && !IsPlaceholder(b.row)
    ensures PushedTwice(merged[e := b.row], pushes')
  {
    hide Supplier, IsPlaceholder;
    assert multiset(pushes[b.unit])[e] == 1;
    assert multiset(pushes'[b.unit])[e] == 2 && merged[e := b.row][e] == b.row;
  }

  /** Row `e` has left the earlier units' push lists and joined unit `ui`'s. */
  ghost predicate Swapped(pushes: seq<seq<nat>>, pushes': seq<seq<nat>>, ui: nat, e: nat) {
    |pushes'| == |pushes| && forall u :: 0 <= u < |pushes| ==>
      pushes'[u] == if u < ui then RemoveAll(pushes[u], e) else if u == ui then pushes[u] + [e] else pushes[u]
  }

  // ---------------------------------------------------------------- the merge

  class Linker {
    var merged: seq<Row>
    var pushes: seq<seq<nat>>
    ghost var hist: seq<Brought>

    ghost predicate Valid(next: nat)
      reads this
    {
      Right(hist, merged, pushes, next)
    }

    constructor (units: nat)
      ensures Valid(0) && hist == [] && merged == [] && |pushes| == units
    {
      merged, hist := [], [];
      pushes := seq(units, i => []);
    }

    /** The index of the first merged row of the name. */
    method Find(name: string) returns (existing: Option<nat>)
      ensures existing == None ==> forall k :: 0 <= k < |merged| ==> merged[k].name != name
      ensures existing.Some? ==> existing.value < |merged| && merged[existing.value].name == name
    {
      for mi := 0 to |merged|
        invariant forall k :: 0 <= k < mi ==> merged[k].name != name
      {
        if merged[mi].name == name {
          return Some(mi);
        }
      }
      return None;
    }

    /** A merged row leaves every push list of an earlier unit. */
    method Unpush(ui: nat, e: nat)
      requires ui < |pushes|
      modifies `pushes
      ensures |pushes| == old(|pushes|)
      ensures forall u :: 0 <= u < |pushes| ==>
                pushes[u] == if u < ui then RemoveAll(old(pushes)[u], e) else old(pushes)[u]
    {
      for pj := 0 to ui
        invariant |pushes| == old(|pushes|)
        invariant forall u :: 0 <= u < |pushes| ==>
                  pushes[u] == if u < pj then RemoveAll(old(pushes)[u], e) else old(pushes)[u]
      {
        var kept := Erase(pushes[pj], e);
        pushes := pushes[pj := kept];
      }
    }

    /** One row of unit `ui`: found and kept, found and replaced, or appended. */
    method MergeRow(row: Row, ui: nat) returns (index: nat)
      requires Valid(ui + 1) && ui < |pushes|
      modifies this
      ensures Valid(ui + 1) && |pushes| == old(|pushes|) && hist == old(hist) + [Brought(ui, row)]
      ensures SameNames(old(merged), merged) && index < |merged| && merged[index].name == row.name
    {
      hide Right, Supplier;
      ghost var b := Brought(ui, row);
      var existing := Find(row.name);
      if existing.Some? {
        index := existing.value;
        if IsPlaceholder(merged[index]) && !IsPlaceholder(row) {
          ghost var before, was := pushes, merged;
          merged := merged[index := row];
          Unpush(ui, index);
          pushes := pushes[ui := pushes[ui] + [index]];
          SwapRight(hist, was, before, pushes, b, index);
        } else {
          KeepRight(hist, merged, pushes, b, index);
        }
      } else {
        AppendRight(hist, merged, pushes, b);
        index := |merged|;
        pushes := pushes[ui := pushes[ui] + [|merged|]];
        merged := merged + [row];
      }
      hist := hist + [b];
    }

    /** Folds unit `ui` in. Names stay where they are, every row of the unit is mapped to the merged
        row of its name, and rows and push lists stay right. */
    method MergeInterfaces(u: seq<Row>, ui: nat) returns (indices: seq<nat>)
      requires Valid(ui) && ui < |pushes|
      modifies this
      ensures Valid(ui + 1) && |pushes| == old(|pushes|) && hist == old(hist) + Bring(u, ui)
      ensures SameNames(old(merged), merged) && MapsTo(u, indices, merged)
    {
      hide Right, Supplier;
      indices := [];
      ghost var before, brought := hist, Bring(u, ui);
      RightLater(hist, merged, pushes, ui);
      for i := 0 to |u|
        invariant Valid(ui + 1) && |pushes| == old(|pushes|) && hist == before + brought[..i]
        invariant SameNames(old(merged), merged) && MapsTo(u[..i], indices, merged)
      {
        ghost var was := merged;
        var index := MergeRow(u[i], ui);
        MapsStay(u[..i], indices, was, merged);
        indices := indices + [index];
        assert brought[..i + 1] == brought[..i] + [Brought(ui, u[i])];
        assert u[..i + 1] == u[..i] + [u[i]];
      }
      assert brought[..|u|] == brought && u[..|u|] == u;
    }
  }

  lemma RightLater(hist: seq<Brought>, merged: seq<Row>, pushes: seq<seq<nat>>, next: nat)
    requires Right(hist, merged, pushes, next)
    ensures Right(hist, merged, pushes, next + 1) && RowsRight(hist, merged)
    ensures PushesRight(hist, merged, pushes) <==> Clean(hist)
    ensures !Clean(hist) ==> PushedTwice(merged, pushes)
    ensures forall h :: 0 <= h < |hist| ==> hist[h].unit < next
  {
    hide RowsRight, Clean, PushesRight, PushedTwice;
    if !Clean(hist) {
      TwiceIsWrong(hist, merged, pushes);
    }
  }

  lemma TwiceIsWrong(hist: seq<Brought>, merged: seq<Row>, pushes: seq<seq<nat>>)
    requires PushedTwice(merged, pushes)
    ensures !PushesRight(hist, merged, pushes)
  {
    hide Supplier;
    var u, k: nat :| 0 <= u < |pushes| && k < |merged| && !IsPlaceholder(merged[k]) && multiset(pushes[u])[k] >= 2;
    assert multiset(pushes[u])[k] > 1;
  }

  /** Every merged index keeps its name. */
  ghost predicate SameNames(before: seq<Row>, after: seq<Row>) {
    |before| <= |after| && forall k :: 0 <= k < |before| ==> after[k].name == before[k].name
  }

  method Erase(s: seq<nat>, x: nat) returns (kept: seq<nat>)
    ensures kept == RemoveAll(s, x)
  {
    kept := [];
    assert s[0..] == s;
    for i := 0 to |s|
      invariant RemoveAll(s, x) == kept + RemoveAll(s[i..], x)
    {
      assert s[i..][1..] == s[i + 1..];
      if s[i] != x {
        kept := kept + [s[i]];
      }
    }
    assert s[|s|..] == [];
  }

  /** Over any list of units: the merged names are distinct, each merged row is the one that must
      represent its name, every unit row is mapped to the merged row of its name; and exactly one
      unit, its supplier, has the duty to remap each merged row, if and only if no unit brings
      both a placeholder of a name, as the first to bring it, and later its content. */
  method LinkAll(units: seq<seq<Row>>) returns (linker: Linker, maps: seq<seq<nat>>)
    ensures RowsRight(BringAll(units, |units|), linker.merged)
    ensures PushesRight(BringAll(units, |units|), linker.merged, linker.pushes) <==> Clean(BringAll(units, |units|))
    ensures !Clean(BringAll(units, |units|)) ==> PushedTwice(linker.merged, linker.pushes)
    ensures |linker.pushes| == |maps| == |units|
    ensures forall ui :: 0 <= ui < |units| ==> MapsTo(units[ui], maps[ui], linker.merged)
  {
    ghost var hist: seq<Brought>;
    hide Right;
    linker := new Linker(|units|);
    maps := [];
    hist := [];
    for ui := 0 to |units|
      invariant linker.Valid(ui) && |linker.pushes| == |units| && |maps| == ui && fresh(linker)
      invariant hist == linker.hist == BringAll(units, ui)
      invariant forall uj :: 0 <= uj < ui ==> MapsTo(units[uj], maps[uj], linker.merged)
    {
      ghost var before := linker.merged;
      var m := linker.MergeInterfaces(units[ui], ui);
      forall uj | 0 <= uj < ui
        ensures MapsTo(units[uj], maps[uj], linker.merged)
      {
        MapsStay(units[uj], maps[uj], before, linker.merged);
      }
      maps := maps + [m];
      hist := linker.hist;
    }
    RightLater(hist, linker.merged, linker.pushes, |units|);
  }

  /** Units that name no interface twice are clean, so their push lists are right. */
  lemma {:induction false} DistinctUnitsAreClean(units: seq<seq<Row>>, n: nat)
    requires n <= |units| && forall ui :: 0 <= ui < |units| ==> DistinctNames(units[ui])
    ensures Clean(BringAll(units, n)) && forall h :: 0 <= h < |BringAll(units, n)| ==> BringAll(units, n)[h].unit < n
  {
    if n > 0 {
      DistinctUnitsAreClean(units, n - 1);
      DistinctUnitIsClean(BringAll(units, n - 1), units[n - 1], n - 1, |units[n - 1]|);
      assert Bring(units[n - 1], n - 1)[..|units[n - 1]|] == Bring(units[n - 1], n - 1);
    }
  }

  lemma {:induction false} DistinctUnitIsClean(before: seq<Brought>, u: seq<Row>, ui: nat, i: nat)
    requires i <= |u| && DistinctNames(u) && Clean(before) && forall h :: 0 <= h < |before| ==> before[h].unit < ui
    ensures Clean(before + Bring(u, ui)[..i])
  {
    var brought := Bring(u, ui);
    if i == 0 {
      assert before + brought[..0] == before;
    } else {
      DistinctUnitIsClean(before, u, ui, i - 1);
      var hist := before + brought[..i - 1];
      assert before + brought[..i] == hist + [brought[i - 1]];
      CleanSnoc(hist, brought[i - 1]);
      PickRepresents(hist, u[i - 1].name);
      hide Clean, IsPlaceholder, Pick;
    }
  }

  function Bare(name: string): Row {
    Row(name, 0xFFFF, [], [], [])
  }

  /** One unit that brings a placeholder and then the content of the same name. */
  function SelfSwap(name: string, content: nat): seq<Row> {
    [Bare(name), Bare(name).(constants := [content])]
  }

  lemma SelfSwapIsNotClean(name: string, content: nat)
    ensures var hist := BringAll([SelfSwap(name, content)], 1);
            !Clean(hist) && forall merged :: RowsRight(hist, merged) ==> merged == [SelfSwap(name, content)[1]]
  {
    var u := SelfSwap(name, content);
    var a, b := Brought(0, u[0]), Brought(0, u[1]);
    assert BringAll([u], 0) == [] && Bring([u][0], 0) == [a, b];
    assert BringAll([u], 1) == [a, b];
    assert [a, b][..1] == [a];
    assert [a][..0] == [];
    assert Pick([a], name) == Some(0) && Pick([a, b], name) == Some(1);
    assert Names([a]) == [name] && Names([a, b]) == [name];
  }

  /** That unit alone: the one merged row stands in its push list twice. */
  method SelfSwapPushesTwice(name: string, content: nat) returns (linker: Linker)
    ensures linker.merged == [SelfSwap(name, content)[1]]
    ensures |linker.pushes| == 1 && multiset(linker.pushes[0])[0] >= 2
  {
    SelfSwapIsNotClean(name, content);
    hide RowsRight, Clean, PushesRight, SelfSwap, BringAll;
    var maps;
    linker, maps := LinkAll([SelfSwap(name, content)]);
  }

  lemma MapsStay(u: seq<Row>, m: seq<nat>, before: seq<Row>, after: seq<Row>)
    requires MapsTo(u, m, before) && SameNames(before, after)
    ensures MapsTo(u, m, after)
  {
  }

  ghost predicate MapsTo(u: seq<Row>, m: seq<nat>, merged: seq<Row>) {
    |m| == |u| && forall i :: 0 <= i < |u| ==> m[i] < |merged| && merged[m[i]].name == u[i].name
  }

  ghost function BringAll(units: seq<seq<Row>>, n: nat): seq<Brought>
    requires n <= |units|
  {
    if n == 0 then [] else BringAll(units, n - 1) + Bring(units[n - 1], n - 1)
  }
}
