/** The byte stream under the module image. Writers put a value in front of what follows it, so
    that a record's bytes and the rest of the image never need re-association; readers take a
    stream whose fail bit, once set, stays set: a short read yields a default and fails the
    stream, and it is a later check that turns the failure into an error. */
module Wire {
  import opened Bytecode

  datatype In = In(rest: seq<byte>, good: bool)

  /** A reader's outcome: a value and the stream after it, or the exception it threw. */
  datatype Read<+T> = Value(value: T, next: In) | Thrown

  /** The stream with more bytes at its end. */
  function Plus(s: In, more: seq<byte>): In {
    In(s.rest + more, s.good)
  }

  // ---------------------------------------------------------------- little-endian words

  function PutWord(k: nat, n: nat, rest: seq<byte>): seq<byte> {
    if k == 0 then rest else [(n % 256) as byte] + PutWord(k - 1, n / 256, rest)
  }

  function WordOf(bs: seq<byte>): nat {
    if bs == [] then 0 else bs[0] as int + 256 * WordOf(bs[1..])
  }

  function Bound(k: nat): nat {
    if k == 0 then 1 else 256 * Bound(k - 1)
  }

  /** Raw bytes: all of them, or none and a failed stream. */
  function Take(s: In, n: nat): Read<seq<byte>> {
    if s.good && n <= |s.rest| then Value(s.rest[..n], In(s.rest[n..], true))
    else Value([], In([], false))
  }

  /** A word of `k` bytes; 0 when the stream fails. */
  function Word(s: In, k: nat): Read<nat> {
    var r := Take(s, k);
    Value(WordOf(r.value), r.next)
  }

  lemma {:induction false} PutWordSplits(k: nat, n: nat, rest: seq<byte>)
    ensures |PutWord(k, n, rest)| == k + |rest| && PutWord(k, n, rest)[k..] == rest
    ensures n < Bound(k) ==> WordOf(PutWord(k, n, rest)[..k]) == n
  {
    var bs := PutWord(k, n, rest);
    if k > 0 {
      PutWordSplits(k - 1, n / 256, rest);
      assert bs[1..] == PutWord(k - 1, n / 256, rest);
      assert bs[..k][1..] == bs[1..][..k - 1] && bs[k..] == bs[1..][k - 1..];
    }
  }

  /** Words come back, and only a good stream gives a good stream. */
  lemma WordFacts()
    ensures forall k: nat, n: nat, rest: seq<byte> {:trigger PutWord(k, n, rest)} ::
              n < Bound(k) ==> Word(In(PutWord(k, n, rest), true), k) == Value(n, In(rest, true))
    ensures forall s: In, k: nat, more: seq<byte> {:trigger Word(Plus(s, more), k)} ::
              Word(s, k).next.good ==> Word(Plus(s, more), k) == Value(Word(s, k).value, Plus(Word(s, k).next, more))
    ensures forall s: In, k: nat {:trigger Word(s, k)} :: Word(s, k).Value? && (Word(s, k).next.good ==> s.good)
  {
    forall k: nat, n: nat, rest: seq<byte> | n < Bound(k)
      ensures Word(In(PutWord(k, n, rest), true), k) == Value(n, In(rest, true))
    {
      PutWordSplits(k, n, rest);
    }
    forall s: In, k: nat, more: seq<byte> | Word(s, k).next.good
      ensures Word(Plus(s, more), k) == Value(Word(s, k).value, Plus(Word(s, k).next, more))
    {
      TakeMore(s, k, more);
    }
  }

  lemma TakeMore(s: In, n: nat, more: seq<byte>)
    requires Take(s, n).next.good
    ensures Take(Plus(s, more), n) == Value(Take(s, n).value, Plus(Take(s, n).next, more))
  {
    assert (s.rest + more)[..n] == s.rest[..n] && (s.rest + more)[n..] == s.rest[n..] + more;
  }

  // ---------------------------------------------------------------- counted bytes

  /** A run of bytes behind a `k`-byte count. */
  function PutBytes(k: nat, bs: seq<byte>, rest: seq<byte>): seq<byte> {
    PutWord(k, |bs|, bs + rest)
  }

  /** The count is checked, with its cap, before the bytes are read; the bytes are not. */
  function Bytes(s: In, k: nat, cap: nat): Read<seq<byte>> {
    var n := Word(s, k);
    if !n.next.good || n.value > cap then Thrown else Take(n.next, n.value)
  }

  lemma BytesFacts()
    ensures forall k: nat, cap: nat, bs: seq<byte>, rest: seq<byte>
              {:trigger Bytes(In(PutBytes(k, bs, rest), true), k, cap)} ::
              |bs| < Bound(k) && |bs| <= cap ==>
                Bytes(In(PutBytes(k, bs, rest), true), k, cap) == Value(bs, In(rest, true))
    ensures forall s: In, k: nat, cap: nat, more: seq<byte> {:trigger Bytes(Plus(s, more), k, cap)} ::
              Bytes(s, k, cap).Value? && Bytes(s, k, cap).next.good ==>
                Bytes(Plus(s, more), k, cap) == Value(Bytes(s, k, cap).value, Plus(Bytes(s, k, cap).next, more))
    ensures forall s: In, k: nat, cap: nat {:trigger Bytes(s, k, cap)} ::
              Bytes(s, k, cap).Value? && Bytes(s, k, cap).next.good ==> s.good
  {
    WordFacts();
    forall k: nat, cap: nat, bs: seq<byte>, rest: seq<byte> | |bs| < Bound(k) && |bs| <= cap
      ensures Bytes(In(PutBytes(k, bs, rest), true), k, cap) == Value(bs, In(rest, true))
    {
      assert (bs + rest)[..|bs|] == bs && (bs + rest)[|bs|..] == rest;
      assert Word(In(PutWord(k, |bs|, bs + rest), true), k) == Value(|bs|, In(bs + rest, true));
    }
    forall s: In, k: nat, cap: nat, more: seq<byte> | Bytes(s, k, cap).Value? && Bytes(s, k, cap).next.good
      ensures Bytes(Plus(s, more), k, cap) == Value(Bytes(s, k, cap).value, Plus(Bytes(s, k, cap).next, more))
    {
      hide Word;
      var n := Word(s, k);
      assert Word(Plus(s, more), k) == Value(n.value, Plus(n.next, more));
      TakeMore(n.next, n.value, more);
    }
  }

  // ---------------------------------------------------------------- repeated records

  function PutAll<T>(put: (T, seq<byte>) -> seq<byte>, xs: seq<T>, rest: seq<byte>): seq<byte> {
    if xs == [] then rest else put(xs[0], PutAll(put, xs[1..], rest))
  }

  /** `n` records in a row; the first one that throws ends it. */
  function All<T>(read: In -> Read<T>, n: nat, s: In): Read<seq<T>> {
    if n == 0 then Value([], s)
    else match read(s)
      case Thrown => Thrown
      case Value(x, next) =>
        match All(read, n - 1, next)
        case Thrown => Thrown
        case Value(xs, last) => Value([x] + xs, last)
  }

  /** The reader undoes the writer on `x`, whatever follows. */
  ghost predicate Undoes<T(!new)>(read: In -> Read<T>, put: (T, seq<byte>) -> seq<byte>, x: T) {
    forall rest :: read(In(put(x, rest), true)) == Value(x, In(rest, true))
  }

  /** The reader never looks past what it took: more bytes behind change nothing, and it cannot bring
      a failed stream back. */
  ghost predicate Steady<T(!new)>(read: In -> Read<T>) {
    && (forall s: In, more :: read(s).Value? && read(s).next.good ==>
          read(Plus(s, more)) == Value(read(s).value, Plus(read(s).next, more)))
    && (forall s: In :: read(s).Value? && read(s).next.good ==> s.good)
  }

  lemma {:induction false} AllUndoes<T(!new)>(read: In -> Read<T>, put: (T, seq<byte>) -> seq<byte>, xs: seq<T>,
      rest: seq<byte>)
    requires forall k :: 0 <= k < |xs| ==> Undoes(read, put, xs[k])
    ensures All(read, |xs|, In(PutAll(put, xs, rest), true)) == Value(xs, In(rest, true))
  {
    if xs != [] {
      AllUndoes(read, put, xs[1..], rest);
      assert Undoes(read, put, xs[0]);
      assert [xs[0]] + xs[1..] == xs;
    }
  }

  lemma {:induction false} AllSteady<T(!new)>(read: In -> Read<T>, n: nat, s: In, more: seq<byte>)
    requires Steady(read) && All(read, n, s).Value? && All(read, n, s).next.good
    ensures s.good
    ensures All(read, n, Plus(s, more)) == Value(All(read, n, s).value, Plus(All(read, n, s).next, more))
  {
    if n > 0 {
      var r := read(s);
      AllSteady(read, n - 1, r.next, more);
      assert read(Plus(s, more)) == Value(r.value, Plus(r.next, more));
    }
  }

  lemma {:induction false} AllCounts<T>(read: In -> Read<T>, n: nat, s: In)
    ensures All(read, n, s).Value? ==> |All(read, n, s).value| == n
  {
    if n > 0 && read(s).Value? {
      AllCounts(read, n - 1, read(s).next);
    }
  }
}
