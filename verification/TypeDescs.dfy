/** Type descriptors and default values as they travel in a module image. */
module TypeDescs {
  import opened Bytecode
  import opened Wire

  const RTK_STRUCT: byte := 3
  const RTK_CLASS: byte := 4
  const RTK_ARRAY: byte := 5
  const RTK_FUNC: byte := 7
  const RTK_LIST: byte := 8
  const RTK_DICT: byte := 9
  const RTK_NON_SERIALIZED: byte := 0xFB

  const MAX_DEPTH := 8
  const MAX_DESC_BYTES := 4096
  const MAX_EXPR_BYTES := 4096
  const MAX_RANK := 64

  datatype TypeDesc = TypeDesc(kind: byte, typeIdx: nat, rank: byte, elems: seq<TypeDesc>)

  /** A descriptor that was not given: the default. */
  const NONE := TypeDesc(RTK_NON_SERIALIZED, 0xFFFF, 1, [])

  /** The kinds that are their kind byte alone: int, float, string, boxed, the ten further scalars,
      a type parameter, void, and the not-expressible sentinel. */
  predicate IsLeaf(kind: byte) {
    kind == 0 || kind == 1 || kind == 2 || kind == 6 || 10 <= kind <= 20 || kind == 0xFE || kind == RTK_NON_SERIALIZED
  }

  predicate HasIndex(kind: byte) {
    kind == RTK_STRUCT || kind == RTK_CLASS
  }

  // ---------------------------------------------------------------- writing

  function PutDesc(td: TypeDesc, rest: seq<byte>): seq<byte>
    decreases td, 1
  {
    [td.kind] +
    (if HasIndex(td.kind) then PutWord(2, td.typeIdx, rest)
     else if td.kind == RTK_ARRAY && |td.elems| >= 1 then PutDesc(td.elems[0], [td.rank] + rest)
     else if td.kind == RTK_LIST && |td.elems| >= 1 then PutDesc(td.elems[0], rest)
     else if td.kind == RTK_DICT && |td.elems| >= 2 then PutDesc(td.elems[0], PutDesc(td.elems[1], rest))
     else if td.kind == RTK_FUNC && |td.elems| >= 1 then [((|td.elems| - 1) % 256) as byte] + PutElems(td, 0, rest)
     else rest)
  }

  /** The nested descriptors from the `k`-th on. */
  function PutElems(td: TypeDesc, k: nat, rest: seq<byte>): seq<byte>
    requires k <= |td.elems|
    decreases td, 0, |td.elems| - k
  {
    if k == |td.elems| then rest else PutDesc(td.elems[k], PutElems(td, k + 1, rest))
  }

  // ---------------------------------------------------------------- parsing

  datatype Parsed<+T> = Got(value: T, rest: seq<byte>) | Malformed

  function Parse(bs: seq<byte>, depth: nat): Parsed<TypeDesc>
    decreases MAX_DEPTH + 1 - depth, 1, 0
  {
    if depth > MAX_DEPTH || bs == [] then Malformed
    else
      var kind, more := bs[0], bs[1..];
      if HasIndex(kind) then
        if |more| < 2 then Malformed else Got(TypeDesc(kind, WordOf(more[..2]), 1, []), more[2..])
      else if kind == RTK_ARRAY then
        match ParseMany(more, depth, 1)
        case Malformed => Malformed
        case Got(elems, after) =>
          if after == [] || after[0] as int > MAX_RANK then Malformed
          else Got(TypeDesc(kind, 0xFFFF, after[0], elems), after[1..])
      else if kind == RTK_LIST || kind == RTK_DICT then
        match ParseMany(more, depth, if kind == RTK_LIST then 1 else 2)
        case Malformed => Malformed
        case Got(elems, after) => Got(TypeDesc(kind, 0xFFFF, 1, elems), after)
      else if kind == RTK_FUNC then
        if more == [] then Malformed
        else
          match ParseMany(more[1..], depth, more[0] as int + 1)
          case Malformed => Malformed
          case Got(elems, after) => Got(TypeDesc(kind, 0xFFFF, 1, elems), after)
      else if IsLeaf(kind) then Got(TypeDesc(kind, 0xFFFF, 1, []), more)
      else Malformed
  }

  /** `n` descriptors nested one deeper than `depth`. */
  function ParseMany(bs: seq<byte>, depth: nat, n: nat): Parsed<seq<TypeDesc>>
    requires depth <= MAX_DEPTH
    decreases MAX_DEPTH + 1 - depth, 0, n
  {
    if n == 0 then Got([], bs)
    else match Parse(bs, depth + 1)
      case Malformed => Malformed
      case Got(td, after) =>
        match ParseMany(after, depth, n - 1)
        case Malformed => Malformed
        case Got(tds, last) => Got([td] + tds, last)
  }

  // ---------------------------------------------------------------- the inverse

  /** What the compiler builds: each kind with its own parts and defaults elsewhere, within the
      depth both sides enforce. */
  predicate Canonical(td: TypeDesc, depth: nat)
    decreases td
  {
    && depth <= MAX_DEPTH
    && (if HasIndex(td.kind) then td.typeIdx < 65536 else td.typeIdx == 0xFFFF)
    && (if td.kind == RTK_ARRAY then td.rank as int <= MAX_RANK else td.rank == 1)
    && (if td.kind == RTK_ARRAY || td.kind == RTK_LIST then |td.elems| == 1
        else if td.kind == RTK_DICT then |td.elems| == 2
        else if td.kind == RTK_FUNC then 1 <= |td.elems| <= 256
        else |td.elems| == 0 && (HasIndex(td.kind) || IsLeaf(td.kind)))
    && forall k :: 0 <= k < |td.elems| ==> Canonical(td.elems[k], depth + 1)
  }

  /** Parsing gives back the descriptor that was written, and what followed it. */
  lemma {:induction false} ParseUndoes(td: TypeDesc, depth: nat, rest: seq<byte>)
    requires Canonical(td, depth)
    ensures Parse(PutDesc(td, rest), depth) == Got(td, rest)
    decreases td, 1
  {
    var bs := PutDesc(td, rest);
    var more := bs[1..];
    if HasIndex(td.kind) {
      PutWordSplits(2, td.typeIdx, rest);
      assert Bound(2) == 65536;
      assert more == PutWord(2, td.typeIdx, rest);
    } else if td.kind == RTK_ARRAY {
      assert more == PutDesc(td.elems[0], [td.rank] + rest) == PutElems(td, 0, [td.rank] + rest);
      ElemsUndo(td, depth, 0, [td.rank] + rest);
      assert ([td.rank] + rest)[1..] == rest;
    } else if td.kind == RTK_LIST {
      assert more == PutDesc(td.elems[0], rest) == PutElems(td, 0, rest);
      ElemsUndo(td, depth, 0, rest);
    } else if td.kind == RTK_DICT {
      assert PutElems(td, 1, rest) == PutDesc(td.elems[1], rest);
      assert more == PutDesc(td.elems[0], PutDesc(td.elems[1], rest)) == PutElems(td, 0, rest);
      ElemsUndo(td, depth, 0, rest);
    } else if td.kind == RTK_FUNC {
      assert more[1..] == PutElems(td, 0, rest);
      ElemsUndo(td, depth, 0, rest);
    }
  }

  lemma {:induction false} ElemsUndo(td: TypeDesc, depth: nat, k: nat, rest: seq<byte>)
    requires Canonical(td, depth) && k <= |td.elems|
    ensures ParseMany(PutElems(td, k, rest), depth, |td.elems| - k) == Got(td.elems[k..], rest)
    decreases td, 0, |td.elems| - k
  {
    if k < |td.elems| {
      assert Canonical(td.elems[k], depth + 1);
      ParseUndoes(td.elems[k], depth + 1, PutElems(td, k + 1, rest));
      ElemsUndo(td, depth, k + 1, rest);
      assert [td.elems[k]] + td.elems[k + 1..] == td.elems[k..];
    }
  }

  // ---------------------------------------------------------------- behind a length

  /** A u16 length and the descriptor's own bytes. */
  function PutTypeDesc(td: TypeDesc, rest: seq<byte>): seq<byte> {
    PutBytes(2, PutDesc(td, []), rest)
  }

  function ReadTypeDesc(s: In): Read<TypeDesc> {
    match Bytes(s, 2, MAX_DESC_BYTES)
    case Thrown => Thrown
    case Value(bs, next) =>
      if !next.good then Thrown
      else if bs == [] then Value(NONE, next)
      else match Parse(bs, 0)
        case Malformed => Thrown
        case Got(td, trailing) => if trailing == [] then Value(td, next) else Thrown
  }

  predicate Fits(td: TypeDesc) {
    Canonical(td, 0) && |PutDesc(td, [])| <= MAX_DESC_BYTES
  }

  lemma TypeDescUndoes(td: TypeDesc)
    requires Fits(td)
    ensures Undoes(ReadTypeDesc, PutTypeDesc, td)
  {
    BytesFacts();
    ParseUndoes(td, 0, []);
    assert |PutDesc(td, [])| >= 1;
    assert Bound(2) == 65536;
  }

  lemma TypeDescUndo(td: TypeDesc, rest: seq<byte>)
    requires Fits(td)
    ensures ReadTypeDesc(In(PutTypeDesc(td, rest), true)) == Value(td, In(rest, true))
  {
    TypeDescUndoes(td);
  }

  lemma TypeDescSteady()
    ensures Steady(ReadTypeDesc)
  {
    BytesFacts();
  }

  // ---------------------------------------------------------------- default values

  /** The numeric channels are bit patterns. */
  datatype DefaultValue = DefaultValue(tag: nat, intValue: nat, floatValue: nat, stringIdx: nat, longValue: nat,
                                       doubleValue: nat, exprBytes: seq<byte>)

  function PutDefault(dv: DefaultValue, rest: seq<byte>): seq<byte> {
    PutWord(1, dv.tag, PutWord(4, dv.intValue, PutWord(4, dv.floatValue, PutWord(4, dv.stringIdx,
      PutWord(8, dv.longValue, PutWord(8, dv.doubleValue, PutBytes(2, dv.exprBytes, rest)))))))
  }

  function ReadDefault(s: In): Read<DefaultValue> {
    var tag := Word(s, 1);
    var intValue := Word(tag.next, 4);
    var floatValue := Word(intValue.next, 4);
    var stringIdx := Word(floatValue.next, 4);
    var longValue := Word(stringIdx.next, 8);
    var doubleValue := Word(longValue.next, 8);
    match Bytes(doubleValue.next, 2, MAX_EXPR_BYTES)
    case Thrown => Thrown
    case Value(expr, next) =>
      if !next.good then Thrown
      else Value(DefaultValue(tag.value, intValue.value, floatValue.value, stringIdx.value, longValue.value,
                              doubleValue.value, expr), next)
  }

  predicate DefaultFits(dv: DefaultValue) {
    && dv.tag < Bound(1) && dv.intValue < Bound(4) && dv.floatValue < Bound(4) && dv.stringIdx < Bound(4)
    && dv.longValue < Bound(8) && dv.doubleValue < Bound(8) && |dv.exprBytes| <= MAX_EXPR_BYTES
  }

  lemma DefaultUndo(dv: DefaultValue, rest: seq<byte>)
    requires DefaultFits(dv)
    ensures ReadDefault(In(PutDefault(dv, rest), true)) == Value(dv, In(rest, true))
  {
    WordFacts();
    BytesFacts();
    assert Bound(2) == 65536;
    hide Word, PutWord, Bytes, PutBytes;
  }

  lemma DefaultSteady()
    ensures Steady(ReadDefault)
  {
    WordFacts();
    BytesFacts();
    hide Word, Bytes;
  }
}
