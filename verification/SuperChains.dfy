/** The loader's check of the superclass links: a step-bounded walk from every class. */
module SuperChains {
  /** Following links from `link` reaches -1 through classes of the table, in at most `fuel` steps. */
  predicate EndsWithin(links: seq<int>, link: int, fuel: nat)
    decreases fuel
  {
    link == -1 || (fuel > 0 && 0 <= link < |links| && EndsWithin(links, links[link], fuel - 1))
  }

  /** Following links reaches -1 at all. */
  ghost predicate Ends(links: seq<int>, link: int) {
    exists fuel: nat :: EndsWithin(links, link, fuel)
  }

  /** The classes a terminating walk passes. */
  ghost function Path(links: seq<int>, link: int, fuel: nat): seq<int>
    requires EndsWithin(links, link, fuel)
    decreases fuel
  {
    if link == -1 then [] else [link] + Path(links, links[link], fuel - 1)
  }

  /** A terminating walk passes no class twice: what follows a class is fixed by the class. */
  lemma {:induction false} PathTail(links: seq<int>, link: int, fuel: nat, k: nat)
    requires EndsWithin(links, link, fuel) && k < |Path(links, link, fuel)|
    ensures var p := Path(links, link, fuel);
            0 <= p[k] < |links| && k < fuel && EndsWithin(links, p[k], fuel - k)
                && Path(links, p[k], fuel - k) == p[k..]
    decreases fuel
  {
    var p := Path(links, link, fuel);
    if k > 0 {
      PathTail(links, links[link], fuel - 1, k - 1);
      assert p[1..] == Path(links, links[link], fuel - 1);
      assert p[k..] == p[1..][k - 1..];
    } else {
      assert p[0..] == p;
    }
  }

  lemma {:induction false} PathFuel(links: seq<int>, link: int, f: nat, g: nat)
    requires EndsWithin(links, link, f) && EndsWithin(links, link, g)
    ensures Path(links, link, f) == Path(links, link, g)
    decreases f
  {
    if link != -1 {
      PathFuel(links, links[link], f - 1, g - 1);
    }
  }

  lemma PathDistinct(links: seq<int>, link: int, fuel: nat, j: nat, k: nat)
    requires EndsWithin(links, link, fuel) && j < k < |Path(links, link, fuel)|
    ensures Path(links, link, fuel)[j] != Path(links, link, fuel)[k]
  {
    var p := Path(links, link, fuel);
    PathTail(links, link, fuel, j);
    PathTail(links, link, fuel, k);
    if p[j] == p[k] {
      PathFuel(links, p[j], fuel - j, fuel - k);
    }
  }

  function Range(n: nat): (r: set<int>)
    ensures |r| == n && forall i :: i in r <==> 0 <= i < n
  {
    if n == 0 then {} else Range(n - 1) + {n - 1}
  }

  lemma {:induction false} DistinctFits(p: seq<int>, s: set<int>)
    requires forall k :: 0 <= k < |p| ==> p[k] in s
    requires forall j, k :: 0 <= j < k < |p| ==> p[j] != p[k]
    ensures |p| <= |s|
  {
    if p != [] {
      var n := |p| - 1;
      forall k | 0 <= k < n
        ensures p[..n][k] in s - {p[n]}
      {
      }
      DistinctFits(p[..n], s - {p[n]});
    }
  }

  lemma {:induction false} PathLength(links: seq<int>, link: int, fuel: nat, bound: nat)
    requires EndsWithin(links, link, fuel) && |Path(links, link, fuel)| <= bound
    ensures EndsWithin(links, link, bound)
    decreases fuel
  {
    if link != -1 {
      PathLength(links, links[link], fuel - 1, bound - 1);
    }
  }

  /** Pigeonhole: a walk that ends at all ends within as many steps as there are classes. */
  lemma EndsInTableSize(links: seq<int>, link: int)
    ensures Ends(links, link) <==> EndsWithin(links, link, |links|)
  {
    if Ends(links, link) {
      var fuel: nat :| EndsWithin(links, link, fuel);
      var p := Path(links, link, fuel);
      forall k | 0 <= k < |p|
        ensures p[k] in Range(|links|)
      {
        PathTail(links, link, fuel, k);
      }
      forall j, k | 0 <= j < k < |p|
        ensures p[j] != p[k]
      {
        PathDistinct(links, link, fuel, j, k);
      }
      DistinctFits(p, Range(|links|));
      PathLength(links, link, fuel, |links|);
    }
  }

  /** A height for every class, with each superclass lower than its subclass. */
  ghost predicate Ranked(links: seq<int>, heights: seq<nat>) {
    && |heights| == |links|
    && forall i :: 0 <= i < |links| ==>
         links[i] == -1 || (0 <= links[i] < |links| && heights[links[i]] < heights[i])
  }

  /** Every chain ends exactly when the classes can be ranked: no cycle, and no link out of the table. */
  lemma EndsMeansRanked(links: seq<int>)
    ensures (forall i :: 0 <= i < |links| ==> Ends(links, links[i])) <==> exists heights :: Ranked(links, heights)
  {
    if forall i :: 0 <= i < |links| ==> Ends(links, links[i]) {
      forall i | 0 <= i < |links|
        ensures EndsWithin(links, links[i], |links|)
      {
        EndsInTableSize(links, links[i]);
      }
      var heights := seq(|links|, i requires 0 <= i < |links| => |Path(links, links[i], |links|)|);
      forall i | 0 <= i < |links| && links[i] != -1
        ensures 0 <= links[i] < |links| && heights[links[i]] < heights[i]
      {
        var j := links[i];
        PathFuel(links, links[j], |links|, |links| - 1);
      }
      assert Ranked(links, heights);
    }
    if exists heights :: Ranked(links, heights) {
      var heights :| Ranked(links, heights);
      forall i | 0 <= i < |links|
        ensures Ends(links, links[i])
      {
        RankedEnds(links, heights, i);
      }
    }
  }

  lemma {:induction false} RankedEnds(links: seq<int>, heights: seq<nat>, i: nat)
    requires Ranked(links, heights) && i < |links|
    ensures EndsWithin(links, links[i], heights[i])
    decreases heights[i]
  {
    if links[i] != -1 {
      var j := links[i];
      RankedEnds(links, heights, j);
      PathLengthAtMost(links, links[j], heights[j], heights[i] - 1);
    }
  }

  lemma {:induction false} PathLengthAtMost(links: seq<int>, link: int, fuel: nat, more: nat)
    requires EndsWithin(links, link, fuel) && fuel <= more
    ensures EndsWithin(links, link, more)
    decreases fuel
  {
    if link != -1 {
      PathLengthAtMost(links, links[link], fuel - 1, more - 1);
    }
  }

  /** The loader's check: step-bounded walks accept exactly when every chain reaches -1. */
  method CheckSuperclassChains(links: seq<int>) returns (ok: bool)
    ensures ok <==> forall i :: 0 <= i < |links| ==> Ends(links, links[i])
  {
    for i := 0 to |links|
      invariant forall j :: 0 <= j < i ==> Ends(links, links[j])
    {
      var steps := 0;
      var link := links[i];
      EndsInTableSize(links, link);
      while link != -1
        invariant 0 <= steps <= |links|
        invariant EndsWithin(links, links[i], |links|) <==> EndsWithin(links, link, |links| - steps)
        decreases |links| - steps
      {
        if link < 0 || link >= |links| {
          return false;
        }
        steps := steps + 1;
        if steps > |links| {
          return false;
        }
        link := links[link];
      }
    }
    return true;
  }
}
