/** string.split and string.replace: left to right, not overlapping. */
module SplitReplace {
  import opened Wrappers

  predicate At(s: string, sep: string, i: nat) {
    i + |sep| <= |s| && s[i..i + |sep|] == sep
  }

  /** Where the text first contains the searched one, from `pos` on. */
  function Find(s: string, sep: string, pos: nat): (r: Option<nat>)
    requires pos <= |s|
    ensures r.Some? ==> pos <= r.value && At(s, sep, r.value) && forall i: nat :: pos <= i < r.value ==> !At(s, sep, i)
    ensures r == None ==> forall i: nat :: pos <= i ==> !At(s, sep, i)
    decreases |s| - pos
  {
    if At(s, sep, pos) then Some(pos)
    else if pos == |s| then None
    else Find(s, sep, pos + 1)
  }

  /** The parts of the text from `pos` on. */
  function Split(s: string, sep: string, pos: nat): (parts: seq<string>)
    requires sep != "" && pos <= |s|
    ensures parts != []
    decreases |s| - pos
  {
    match Find(s, sep, pos)
    case None => [s[pos..]]
    case Some(hit) => [s[pos..hit]] + Split(s, sep, hit + |sep|)
  }

  function Join(parts: seq<string>, glue: string): string {
    if parts == [] then "" else if |parts| == 1 then parts[0] else parts[0] + glue + Join(parts[1..], glue)
  }

  ghost predicate Contains(s: string, sep: string) {
    exists i: nat :: At(s, sep, i)
  }

  lemma JoinCons(head: string, tail: seq<string>, glue: string)
    requires tail != []
    ensures Join([head] + tail, glue) == head + glue + Join(tail, glue)
  {
    assert ([head] + tail)[1..] == tail;
  }

  lemma AtFits(s: string, sep: string, pos: nat)
    requires pos <= |s|
    ensures var found := Find(s, sep, pos);
            found.Some? ==>
              && pos <= found.value && found.value + |sep| <= |s|
              && s[found.value..found.value + |sep|] == sep
  {
    hide Find;
  }

  /** Joining the parts with the separator restores the text. */
  lemma {:induction false} SplitJoins(s: string, sep: string, pos: nat)
    requires sep != "" && pos <= |s|
    ensures Join(Split(s, sep, pos), sep) == s[pos..]
    decreases |s| - pos
  {
    hide Find, At, Join;
    var found := Find(s, sep, pos);
    AtFits(s, sep, pos);
    if found.Some? {
      var next := found.value + |sep|;
      SplitJoins(s, sep, next);
      JoinCons(s[pos..found.value], Split(s, sep, next), sep);
      assert s[pos..] == s[pos..found.value] + s[found.value..next] + s[next..];
    } else {
      JoinOne(s[pos..], sep);
    }
  }

  /** No part contains the separator. */
  lemma {:induction false} PartsAreFree(s: string, sep: string, pos: nat, k: nat)
    requires sep != "" && pos <= |s| && k < |Split(s, sep, pos)|
    ensures !Contains(Split(s, sep, pos)[k], sep)
    decreases |s| - pos
  {
    hide Find, At, Contains;
    var found := Find(s, sep, pos);
    AtFits(s, sep, pos);
    if k == 0 {
      var end := if found.Some? then found.value else |s|;
      assert Split(s, sep, pos)[0] == s[pos..end];
      PieceIsFree(s, sep, pos, end);
    } else {
      PartsAreFree(s, sep, found.value + |sep|, k - 1);
    }
  }

  lemma PieceIsFree(s: string, sep: string, from: nat, end: nat)
    requires from <= end <= |s| && sep != ""
    requires forall i: nat :: from <= i < end ==> !At(s, sep, i)
    ensures !Contains(s[from..end], sep)
  {
    var piece := s[from..end];
    forall i: nat
      ensures !At(piece, sep, i)
    {
      if i + |sep| <= |piece| {
        SliceOfSlice(s, from, end, i, i + |sep|);
        assert !At(s, sep, from + i);
      }
    }
  }

  lemma SliceOfSlice(s: string, from: nat, end: nat, i: nat, j: nat)
    requires from <= end <= |s| && i <= j <= end - from
    ensures s[from..end][i..j] == s[from + i..from + j]
  {
    var a, b := s[from..end][i..j], s[from + i..from + j];
    forall k | 0 <= k < j - i
      ensures a[k] == b[k]
    {
      assert a[k] == s[from..end][i + k] == s[from + (i + k)];
    }
  }

  /** Every part but the last, taken with its separator, holds the separator nowhere but at its end,
      and the last part does not hold it: each cut is at the first occurrence after the one before. */
  ghost predicate CutsAreFirst(parts: seq<string>, sep: string) {
    && (forall k, i: nat :: 0 <= k < |parts| - 1 && i < |parts[k]| ==> !At(parts[k] + sep, sep, i))
    && (parts != [] ==> !Contains(parts[|parts| - 1], sep))
  }

  lemma {:induction false} SplitCutsFirst(s: string, sep: string, pos: nat)
    requires sep != "" && pos <= |s|
    ensures CutsAreFirst(Split(s, sep, pos), sep)
    decreases |s| - pos
  {
    hide Find, At, Contains;
    var found := Find(s, sep, pos);
    AtFits(s, sep, pos);
    if found.Some? {
      var next := found.value + |sep|;
      var rest := Split(s, sep, next);
      SplitCutsFirst(s, sep, next);
      FirstCut(s, sep, pos, found.value);
      CutBefore(s[pos..found.value], rest, sep);
    } else {
      PieceIsFree(s, sep, pos, |s|);
      assert s[pos..|s|] == s[pos..];
    }
  }

  lemma CutBefore(head: string, rest: seq<string>, sep: string)
    requires rest != [] && CutsAreFirst(rest, sep) && forall i: nat :: i < |head| ==> !At(head + sep, sep, i)
    ensures CutsAreFirst([head] + rest, sep)
  {
    hide At, Contains;
    var parts := [head] + rest;
    forall k, i: nat | 0 <= k < |parts| - 1 && i < |parts[k]|
      ensures !At(parts[k] + sep, sep, i)
    {
      if k > 0 {
        assert parts[k] == rest[k - 1];
      }
    }
  }

  lemma FirstCut(s: string, sep: string, pos: nat, hit: nat)
    requires sep != "" && pos <= hit && hit + |sep| <= |s| && s[hit..hit + |sep|] == sep
    requires forall i: nat :: pos <= i < hit ==> !At(s, sep, i)
    ensures forall i: nat :: i < hit - pos ==> !At(s[pos..hit] + sep, sep, i)
  {
    var both := s[pos..hit + |sep|];
    assert s[pos..hit] + sep == both;
    forall i: nat | i < hit - pos
      ensures !At(both, sep, i)
    {
      SliceOfSlice(s, pos, hit + |sep|, i, i + |sep|);
      assert !At(s, sep, pos + i);
    }
  }

  /** Those are the parts: no other list joins to the text with its cuts at first occurrences. */
  lemma SplitIsTheFirstCuts(s: string, sep: string, pos: nat, parts: seq<string>)
    requires sep != "" && pos <= |s| && parts != []
    ensures parts == Split(s, sep, pos) <==> Join(parts, sep) == s[pos..] && CutsAreFirst(parts, sep)
  {
    hide *;
    SplitJoins(s, sep, pos);
    SplitCutsFirst(s, sep, pos);
    if Join(parts, sep) == s[pos..] && CutsAreFirst(parts, sep) {
      FirstCutsAreSplit(s, sep, pos, parts);
    }
  }

  lemma {:induction false} FirstCutsAreSplit(s: string, sep: string, pos: nat, parts: seq<string>)
    requires sep != "" && pos <= |s| && parts != [] && Join(parts, sep) == s[pos..] && CutsAreFirst(parts, sep)
    ensures parts == Split(s, sep, pos)
    decreases |parts|
  {
    hide Find, At, Contains, Join, CutsAreFirst;
    if |parts| == 1 {
      assert parts == [parts[0]];
      JoinOne(parts[0], sep);
      FreeMeansNoFind(s, sep, pos, parts);
    } else {
      var head, rest := parts[0], parts[1..];
      assert parts == [head] + rest;
      JoinCons(head, rest, sep);
      FoundAfter(s, sep, pos, parts);
      PeelHead(s, pos, head, sep, Join(rest, sep));
      RestCuts(parts, sep);
      FirstCutsAreSplit(s, sep, pos + |head| + |sep|, rest);
    }
  }

  lemma PeelHead(s: string, pos: nat, head: string, sep: string, rest: string)
    requires pos <= |s| && s[pos..] == head + sep + rest
    ensures pos + |head| + |sep| <= |s|
    ensures s[pos..pos + |head|] == head && s[pos + |head| + |sep|..] == rest
  {
    assert s[pos..pos + |head|] == s[pos..][..|head|] == (head + sep + rest)[..|head|];
    assert s[pos + |head| + |sep|..] == s[pos..][|head| + |sep|..] == (head + sep + rest)[|head| + |sep|..];
  }

  lemma RestCuts(parts: seq<string>, sep: string)
    requires |parts| > 1 && CutsAreFirst(parts, sep)
    ensures CutsAreFirst(parts[1..], sep)
  {
    hide At, Contains;
    var rest := parts[1..];
    forall k, i: nat | 0 <= k < |rest| - 1 && i < |rest[k]|
      ensures !At(rest[k] + sep, sep, i)
    {
      assert rest[k] == parts[k + 1];
    }
  }

  lemma FreeMeansNoFind(s: string, sep: string, pos: nat, parts: seq<string>)
    requires sep != "" && pos <= |s| && |parts| == 1 && parts[0] == s[pos..] && CutsAreFirst(parts, sep)
    ensures Find(s, sep, pos) == None
  {
    if Find(s, sep, pos).Some? {
      var hit := Find(s, sep, pos).value;
      assert s[pos..] == s[pos..|s|];
      SliceOfSlice(s, pos, |s|, hit - pos, hit - pos + |sep|);
      assert At(parts[0], sep, hit - pos);
    }
  }

  lemma FoundAfter(s: string, sep: string, pos: nat, parts: seq<string>)
    requires sep != "" && pos <= |s| && |parts| > 1 && CutsAreFirst(parts, sep)
    requires s[pos..] == parts[0] + sep + Join(parts[1..], sep)
    ensures Find(s, sep, pos) == Some(pos + |parts[0]|)
  {
    hide Join;
    var head := parts[0];
    var both := head + sep;
    assert both == s[pos..][..|both|] == s[pos..pos + |both|];
    assert s[pos + |head|..pos + |both|] == both[|head|..] == sep;
    assert At(s, sep, pos + |head|);
    forall i: nat | pos <= i < pos + |head|
      ensures !At(s, sep, i)
    {
      assert !At(parts[0] + sep, sep, i - pos);
      SliceOfSlice(s, pos, pos + |both|, i - pos, i - pos + |sep|);
    }
  }

  method SplitString(s: string, sep: string) returns (r: Result<seq<string>, string>)
    ensures sep == "" ==> r.Err?
    ensures sep != "" ==> r == Ok(Split(s, sep, 0))
  {
    hide Find, At;
    if sep == "" {
      return Err("string.split: the separator must not be empty.");
    }
    var parts := [];
    var pos := 0;
    while true
      invariant pos <= |s| && Split(s, sep, 0) == parts + Split(s, sep, pos)
      decreases |s| - pos
    {
      var hit := Find(s, sep, pos);
      AtFits(s, sep, pos);
      if hit == None {
        return Ok(parts + [s[pos..]]);
      }
      parts := parts + [s[pos..hit.value]];
      pos := hit.value + |sep|;
    }
  }

  /** replace is split joined with the new text. */
  method ReplaceString(s: string, oldStr: string, newStr: string) returns (r: Result<string, string>)
    ensures oldStr == "" ==> r.Err?
    ensures oldStr != "" ==> r == Ok(Join(Split(s, oldStr, 0), newStr))
  {
    hide Find, At, Join;
    if oldStr == "" {
      return Err("string.replace: the searched text must not be empty.");
    }
    var out := "";
    var pos := 0;
    ghost var whole := Join(Split(s, oldStr, 0), newStr);
    while true
      invariant pos <= |s| && whole == out + Join(Split(s, oldStr, pos), newStr)
      decreases |s| - pos
    {
      var hit := Find(s, oldStr, pos);
      AtFits(s, oldStr, pos);
      if hit == None {
        JoinOne(s[pos..], newStr);
        return Ok(out + s[pos..]);
      }
      var head := s[pos..hit.value];
      JoinCons(head, Split(s, oldStr, hit.value + |oldStr|), newStr);
      Associates(out, head, newStr, Join(Split(s, oldStr, hit.value + |oldStr|), newStr));
      out := out + head;
      out := out + newStr;
      pos := hit.value + |oldStr|;
    }
  }

  lemma JoinOne(part: string, glue: string)
    ensures Join([part], glue) == part
  {
  }

  lemma Associates(a: string, b: string, c: string, d: string)
    ensures a + (b + c + d) == a + b + c + d
  {
  }
}
