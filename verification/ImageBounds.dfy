/** Exactly which written images load. `Held` says that a table's values have room in the fields they
    are written to; `Within` is everything the loader insists on, in plain numbers. A held image
    loads, to the same tables, if and only if it is within. */
module ImageBounds {
  import opened Bytecode
  import opened Wire
  import opened TypeDescs
  import opened Image

  // ---------------------------------------------------------------- read back or refused

  /** What is written reads back when it is acceptable and makes the reader throw when it is not. */
  ghost predicate Exact<T(!new)>(read: In -> Read<T>, put: (T, seq<byte>) -> seq<byte>, x: T, ok: bool) {
    forall rest :: read(In(put(x, rest), true)) == if ok then Value(x, In(rest, true)) else Thrown
  }

  ghost predicate AllOk<T(!new)>(xs: seq<T>, ok: T -> bool) {
    forall k :: 0 <= k < |xs| ==> ok(xs[k])
  }

  lemma {:induction false} AllExact<T(!new)>(read: In -> Read<T>, put: (T, seq<byte>) -> seq<byte>, xs: seq<T>,
                                             ok: T -> bool, rest: seq<byte>)
    requires forall k :: 0 <= k < |xs| ==> Exact(read, put, xs[k], ok(xs[k]))
    ensures All(read, |xs|, In(PutAll(put, xs, rest), true))
            == if AllOk(xs, ok) then Value(xs, In(rest, true)) else Thrown
  {
    if xs != [] {
      AllExact(read, put, xs[1..], ok, rest);
      assert Exact(read, put, xs[0], ok(xs[0]));
      assert [xs[0]] + xs[1..] == xs;
      assert AllOk(xs, ok) <==> ok(xs[0]) && AllOk(xs[1..], ok) by {
        assert forall k :: 0 < k < |xs| ==> xs[k] == xs[1..][k - 1];
      }
    }
  }

  lemma TableExact<T(!new)>(read: In -> Read<T>, put: (T, seq<byte>) -> seq<byte>, k: nat, cap: nat, xs: seq<T>,
                            ok: T -> bool, rest: seq<byte>)
    requires forall j :: 0 <= j < |xs| ==> Exact(read, put, xs[j], ok(xs[j]))
    requires |xs| < Bound(k)
    ensures ReadTable(read, k, cap, In(PutTable(put, k, xs, rest), true))
            == if |xs| <= cap && AllOk(xs, ok) then Value(xs, In(rest, true)) else Thrown
  {
    WordFacts();
    AllExact(read, put, xs, ok, rest);
    hide Word, PutWord, All, PutAll, Exact, AllOk;
  }

  lemma Widths()
    ensures Bound(1) == 256 && Bound(2) == 65536 && Bound(4) == 0x1_0000_0000 && Bound(8) == 0x1_0000_0000_0000_0000
  {
    assert Bound(1) == 256 && Bound(2) == 65536 && Bound(3) == 0x100_0000 && Bound(4) == 0x1_0000_0000;
    assert Bound(5) == 0x100_0000_0000 && Bound(6) == 0x1_0000_0000_0000 && Bound(7) == 0x100_0000_0000_0000;
  }

  lemma BytesExact(bs: seq<byte>, k: nat, cap: nat, rest: seq<byte>)
    requires |bs| < Bound(k)
    ensures Bytes(In(PutBytes(k, bs, rest), true), k, cap)
            == if |bs| <= cap then Value(bs, In(rest, true)) else Thrown
  {
    WordFacts();
    BytesFacts();
    assert Word(In(PutWord(k, |bs|, bs + rest), true), k) == Value(|bs|, In(bs + rest, true));
    hide Word, PutWord;
  }

  // ---------------------------------------------------------------- single elements

  predicate NameOk(name: Name) { |name| <= 16777216 }

  predicate AccessOk(access: nat) { access <= 3 }

  predicate FlagOk(flag: nat) { flag <= 1 }

  /** A name of up to sixteen million bytes, or thrown. */
  lemma NameExact(name: Name)
    requires |name| < 0x1_0000_0000
    ensures Exact(ReadName, PutName, name, NameOk(name))
  {
    Widths();
    forall rest: seq<byte>
      ensures ReadName(In(PutName(name, rest), true)) == if NameOk(name) then Value(name, In(rest, true)) else Thrown
    {
      BytesExact(name, 4, CAP24, rest);
    }
  }

  lemma KeyExact(name: Name)
    requires |name| < 65536
    ensures Exact(ReadKey, PutKey, name, true)
  {
    Widths();
    forall rest: seq<byte>
      ensures ReadKey(In(PutKey(name, rest), true)) == Value(name, In(rest, true))
    {
      BytesExact(name, 2, 0xFFFF, rest);
    }
  }

  /** An access byte is 0..3 and a flag 0..1, or thrown. */
  lemma ByteExact(n: nat)
    requires n < 256
    ensures Exact(ReadAccess, PutU8, n, AccessOk(n)) && Exact(ReadFlag, PutU8, n, FlagOk(n))
  {
    WordFacts();
    Widths();
    hide Word, PutWord, Bound;
  }

  /** The same, on the byte itself. */
  lemma AccessByte(b: byte, rest: seq<byte>)
    ensures ReadAccess(In([b] + rest, true)) == if b <= 3 then Value(b as nat, In(rest, true)) else Thrown
    ensures ReadFlag(In([b] + rest, true)) == if b <= 1 then Value(b as nat, In(rest, true)) else Thrown
  {
    ByteExact(b as nat);
    assert PutU8(b as nat, rest) == [b] + rest by {
      assert PutWord(0, b as nat / 256, rest) == rest;
    }
    hide ReadAccess, ReadFlag, PutU8;
  }

  lemma WordExact(n: nat)
    requires n < 65536
    ensures Exact(U16, PutU16, n, true)
  {
    WordFacts();
    Widths();
    hide Word, PutWord, Bound;
  }

  // ---------------------------------------------------------------- descriptors

  /** Each kind has its own parts, and its numbers have room. */
  predicate Shaped(td: TypeDesc)
    decreases td
  {
    && (if td.kind == 3 || td.kind == 4 then td.typeIdx < 65536 else td.typeIdx == 0xFFFF)
    && (td.kind != 5 ==> td.rank == 1)
    && |td.elems| == (if td.kind == 5 || td.kind == 8 then 1 else if td.kind == 9 then 2
                      else if td.kind == 7 then |td.elems| else 0)
    && (td.kind == 7 ==> 1 <= |td.elems| <= 256)
    && forall k :: 0 <= k < |td.elems| ==> Shaped(td.elems[k])
  }

  /** A known kind, arrays of rank at most 64, nested at most 8 deep. */
  predicate DescOk(td: TypeDesc, depth: nat)
    decreases td
  {
    && depth <= 8
    && (td.kind <= 20 || td.kind == 0xFB || td.kind == 0xFE)
    && (td.kind == 5 ==> td.rank <= 64)
    && forall k :: 0 <= k < |td.elems| ==> DescOk(td.elems[k], depth + 1)
  }

  predicate ElemsOk(td: TypeDesc, k: nat, depth: nat) {
    forall j :: k <= j < |td.elems| ==> DescOk(td.elems[j], depth)
  }

  lemma {:induction false} ParseExact(td: TypeDesc, depth: nat, rest: seq<byte>)
    requires Shaped(td)
    ensures Parse(PutDesc(td, rest), depth) == if DescOk(td, depth) then Got(td, rest) else Malformed
    decreases td, 1
  {
    hide Parse, ParseMany, PutDesc, PutElems, DescOk;
    DescParts(td, depth);
    if depth > 8 {
      DeepIsMalformed(td, depth, rest);
    } else if td.kind == 5 || td.kind == 7 || td.kind == 8 || td.kind == 9 {
      ElemsExact(td, depth, 0, if td.kind == 5 then [td.rank] + rest else rest);
      NestedParses(td, depth, rest);
    } else {
      FlatParses(td, depth, rest);
    }
  }

  lemma DescParts(td: TypeDesc, depth: nat)
    ensures DescOk(td, depth) <==>
              && depth <= 8 && (td.kind <= 20 || td.kind == 0xFB || td.kind == 0xFE) && (td.kind == 5 ==> td.rank <= 64)
              && ElemsOk(td, 0, depth + 1)
  {
  }

  lemma DeepIsMalformed(td: TypeDesc, depth: nat, rest: seq<byte>)
    requires depth > 8
    ensures Parse(PutDesc(td, rest), depth) == Malformed
  {
  }

  /** A kind that is its own byte, or that and an index. */
  lemma FlatParses(td: TypeDesc, depth: nat, rest: seq<byte>)
    requires Shaped(td) && depth <= 8 && td.kind != 5 && td.kind != 7 && td.kind != 8 && td.kind != 9
    ensures Parse(PutDesc(td, rest), depth)
            == if td.kind <= 20 || td.kind == 0xFB || td.kind == 0xFE then Got(td, rest) else Malformed
  {
    assert td.elems == [];
    var bs := PutDesc(td, rest);
    if td.kind == 3 || td.kind == 4 {
      PutWordSplits(2, td.typeIdx, rest);
      assert Bound(2) == 65536;
      assert bs[1..] == PutWord(2, td.typeIdx, rest);
    } else {
      assert bs == [td.kind] + rest && bs[1..] == rest;
    }
  }

  /** A kind with nested descriptors, once those are parsed. */
  lemma NestedParses(td: TypeDesc, depth: nat, rest: seq<byte>)
    requires Shaped(td) && depth <= 8 && (td.kind == 5 || td.kind == 7 || td.kind == 8 || td.kind == 9)
    requires var after := if td.kind == 5 then [td.rank] + rest else rest;
             ParseMany(PutElems(td, 0, after), depth, |td.elems|)
             == if ElemsOk(td, 0, depth + 1) then Got(td.elems, after) else Malformed
    ensures Parse(PutDesc(td, rest), depth)
            == if ElemsOk(td, 0, depth + 1) && (td.kind == 5 ==> td.rank <= 64) then Got(td, rest) else Malformed
  {
    var bs := PutDesc(td, rest);
    var more := bs[1..];
    ElemsUnroll(td, if td.kind == 5 then [td.rank] + rest else rest);
    hide ParseMany, PutElems, DescOk, ElemsOk;
    if td.kind == 5 {
      assert more == PutDesc(td.elems[0], [td.rank] + rest);
      assert ([td.rank] + rest)[1..] == rest;
    } else if td.kind == 8 {
      assert more == PutDesc(td.elems[0], rest);
    } else if td.kind == 9 {
      assert more == PutDesc(td.elems[0], PutDesc(td.elems[1], rest));
    } else {
      assert more[1..] == PutElems(td, 0, rest);
    }
  }

  lemma ElemsUnroll(td: TypeDesc, rest: seq<byte>)
    ensures |td.elems| == 1 ==> PutElems(td, 0, rest) == PutDesc(td.elems[0], rest)
    ensures |td.elems| == 2 ==> PutElems(td, 0, rest) == PutDesc(td.elems[0], PutDesc(td.elems[1], rest))
  {
    hide PutDesc;
    if |td.elems| == 2 {
      assert PutElems(td, 1, rest) == PutDesc(td.elems[1], rest);
    }
  }

  lemma {:induction false} ElemsExact(td: TypeDesc, depth: nat, k: nat, rest: seq<byte>)
    requires Shaped(td) && depth <= 8 && k <= |td.elems|
    ensures ParseMany(PutElems(td, k, rest), depth, |td.elems| - k)
            == if ElemsOk(td, k, depth + 1) then Got(td.elems[k..], rest) else Malformed
    decreases td, 0, |td.elems| - k
  {
    hide Parse, PutDesc, DescOk;
    if k == |td.elems| {
      assert td.elems[k..] == [];
    } else {
      assert Shaped(td.elems[k]);
      ParseExact(td.elems[k], depth + 1, PutElems(td, k + 1, rest));
      ElemsExact(td, depth, k + 1, rest);
      assert [td.elems[k]] + td.elems[k + 1..] == td.elems[k..];
      assert ElemsOk(td, k, depth + 1) <==> DescOk(td.elems[k], depth + 1) && ElemsOk(td, k + 1, depth + 1);
    }
  }

  predicate HeldDesc(td: TypeDesc) { Shaped(td) && |PutDesc(td, [])| < 65536 }

  predicate TypeOk(td: TypeDesc) { DescOk(td, 0) && |PutDesc(td, [])| <= 4096 }

  /** A descriptor of up to 4096 bytes, or thrown. */
  lemma TypeDescExact(td: TypeDesc)
    requires HeldDesc(td)
    ensures Exact(ReadTypeDesc, PutTypeDesc, td, TypeOk(td))
  {
    Widths();
    forall rest: seq<byte>
      ensures ReadTypeDesc(In(PutTypeDesc(td, rest), true)) == if TypeOk(td) then Value(td, In(rest, true)) else Thrown
    {
      BytesExact(PutDesc(td, []), 2, 4096, rest);
      ParseExact(td, 0, []);
      hide Bytes, PutBytes, Parse, DescOk, Shaped;
      assert |PutDesc(td, [])| >= 1;
    }
  }

  // ---------------------------------------------------------------- a class's members

  predicate HeldNames(names: seq<Name>) {
    forall k :: 0 <= k < |names| ==> |names[k]| < 0x1_0000_0000
  }

  /** Parallel vectors; 16-bit kinds and indices, one byte of access. */
  predicate HeldFields(f: Fields, count: nat) {
    && |f.names| == |f.kinds| == |f.structIndices| == |f.classIndices| == |f.descs| == |f.access| == count
    && HeldNames(f.names)
    && AllBelow(f.kinds, 65536) && AllBelow(f.structIndices, 65536) && AllBelow(f.classIndices, 65536)
    && (forall k :: 0 <= k < |f.descs| ==> HeldDesc(f.descs[k]))
    && AllBelow(f.access, 256)
  }

  ghost predicate FieldsOk(f: Fields) {
    AllOk(f.names, NameOk) && AllOk(f.descs, TypeOk) && AllOk(f.access, AccessOk)
  }

  lemma ColumnExact(xs: seq<nat>, rest: seq<byte>)
    ensures AllBelow(xs, 65536) ==> All(U16, |xs|, In(PutAll(PutU16, xs, rest), true)) == Value(xs, In(rest, true))
    ensures AllBelow(xs, 256) ==>
              && All(ReadAccess, |xs|, In(PutAll(PutU8, xs, rest), true))
                 == (if AllOk(xs, AccessOk) then Value(xs, In(rest, true)) else Thrown)
              && All(ReadFlag, |xs|, In(PutAll(PutU8, xs, rest), true))
                 == (if AllOk(xs, FlagOk) then Value(xs, In(rest, true)) else Thrown)
  {
    hide All, PutAll, Exact;
    if AllBelow(xs, 65536) {
      forall k | 0 <= k < |xs| ensures Exact(U16, PutU16, xs[k], true) { WordExact(xs[k]); }
      AllExact(U16, PutU16, xs, (n: nat) => true, rest);
    }
    if AllBelow(xs, 256) {
      forall k | 0 <= k < |xs|
        ensures Exact(ReadAccess, PutU8, xs[k], AccessOk(xs[k])) && Exact(ReadFlag, PutU8, xs[k], FlagOk(xs[k]))
      {
        ByteExact(xs[k]);
      }
      AllExact(ReadAccess, PutU8, xs, AccessOk, rest);
      AllExact(ReadFlag, PutU8, xs, FlagOk, rest);
    }
  }

  lemma NamesExact(names: seq<Name>, rest: seq<byte>)
    requires HeldNames(names)
    ensures All(ReadName, |names|, In(PutAll(PutName, names, rest), true))
            == if AllOk(names, NameOk) then Value(names, In(rest, true)) else Thrown
  {
    hide All, PutAll, Exact;
    forall k | 0 <= k < |names| ensures Exact(ReadName, PutName, names[k], NameOk(names[k])) { NameExact(names[k]); }
    AllExact(ReadName, PutName, names, NameOk, rest);
  }

  lemma DescsExact(descs: seq<TypeDesc>, rest: seq<byte>)
    requires forall k :: 0 <= k < |descs| ==> HeldDesc(descs[k])
    ensures All(ReadTypeDesc, |descs|, In(PutAll(PutTypeDesc, descs, rest), true))
            == if AllOk(descs, TypeOk) then Value(descs, In(rest, true)) else Thrown
  {
    hide All, PutAll, Exact, HeldDesc, TypeOk;
    forall k | 0 <= k < |descs|
      ensures Exact(ReadTypeDesc, PutTypeDesc, descs[k], TypeOk(descs[k]))
    {
      TypeDescExact(descs[k]);
    }
    AllExact(ReadTypeDesc, PutTypeDesc, descs, TypeOk, rest);
  }

  lemma FieldsExact(f: Fields, count: nat, rest: seq<byte>)
    requires HeldFields(f, count)
    ensures ReadFields(count, In(PutFields(f, rest), true)) == if FieldsOk(f) then Value(f, In(rest, true)) else Thrown
  {
    hide All, PutAll, AllOk, HeldDesc, AllBelow, HeldNames;
    var r5 := PutAll(PutU8, f.access, rest);
    var r4 := PutAll(PutTypeDesc, f.descs, r5);
    var r3 := PutAll(PutU16, f.classIndices, r4);
    var r2 := PutAll(PutU16, f.structIndices, r3);
    ColumnExact(f.access, rest);
    DescsExact(f.descs, r5);
    ColumnExact(f.classIndices, r4);
    ColumnExact(f.structIndices, r3);
    ColumnExact(f.kinds, r2);
    NamesExact(f.names, PutAll(PutU16, f.kinds, r2));
  }

  predicate HeldMethods(m: Methods) {
    && |m.indices| == |m.access| == |m.virtuality| < 65536
    && AllBelow(m.indices, 65536) && AllBelow(m.access, 256) && AllBelow(m.virtuality, 256)
  }

  /** At most 4096 methods, each a function of the module, access 0..3, virtuality 0..1. */
  ghost predicate MethodsOk(m: Methods, functions: nat) {
    |m.indices| <= 4096 && AllBelow(m.indices, functions) && AllOk(m.access, AccessOk) && AllOk(m.virtuality, FlagOk)
  }

  predicate HeldCtors(c: Ctors) {
    |c.indices| == |c.access| < 65536 && AllBelow(c.indices, 65536) && AllBelow(c.access, 256)
  }

  ghost predicate CtorsOk(c: Ctors, functions: nat) {
    |c.indices| <= 4096 && AllBelow(c.indices, functions) && AllOk(c.access, AccessOk)
  }

  lemma IndexTableExact(xs: seq<nat>, rest: seq<byte>)
    requires AllBelow(xs, 65536) && |xs| < 65536
    ensures ReadTable(U16, 2, CAP12, In(PutTable(PutU16, 2, xs, rest), true))
            == if |xs| <= 4096 then Value(xs, In(rest, true)) else Thrown
  {
    Widths();
    hide ReadTable, PutTable, Exact;
    forall k | 0 <= k < |xs| ensures Exact(U16, PutU16, xs[k], true) { WordExact(xs[k]); }
    TableExact(U16, PutU16, 2, CAP12, xs, (n: nat) => true, rest);
    assert AllOk(xs, (n: nat) => true);
  }

  lemma MethodsExact(m: Methods, functions: nat, rest: seq<byte>)
    requires HeldMethods(m)
    ensures ReadMethods(functions, In(PutMethods(m, rest), true))
            == if MethodsOk(m, functions) then Value(m, In(rest, true)) else Thrown
  {
    hide All, PutAll, ReadTable, PutTable, AllOk;
    ColumnExact(m.virtuality, rest);
    ColumnExact(m.access, PutAll(PutU8, m.virtuality, rest));
    IndexTableExact(m.indices, PutAll(PutU8, m.access, PutAll(PutU8, m.virtuality, rest)));
    assert AllBelow(m.indices, functions) == Image.InRange(m.indices, functions);
    hide AllBelow, Image.InRange;
  }

  lemma CtorsExact(c: Ctors, functions: nat, rest: seq<byte>)
    requires HeldCtors(c)
    ensures ReadCtors(functions, In(PutCtors(c, rest), true))
            == if CtorsOk(c, functions) then Value(c, In(rest, true)) else Thrown
  {
    hide All, PutAll, ReadTable, PutTable, AllOk;
    ColumnExact(c.access, rest);
    IndexTableExact(c.indices, PutAll(PutU8, c.access, rest));
    assert AllBelow(c.indices, functions) == Image.InRange(c.indices, functions);
    hide AllBelow, Image.InRange;
  }

  // ---------------------------------------------------------------- static fields

  predicate HeldDefault(dv: DefaultValue) {
    && dv.tag < 256 && dv.intValue < 0x1_0000_0000 && dv.floatValue < 0x1_0000_0000 && dv.stringIdx < 0x1_0000_0000
    && dv.longValue < 0x1_0000_0000_0000_0000 && dv.doubleValue < 0x1_0000_0000_0000_0000 && |dv.exprBytes| < 65536
  }

  lemma DefaultExact(dv: DefaultValue, rest: seq<byte>)
    requires HeldDefault(dv)
    ensures ReadDefault(In(PutDefault(dv, rest), true))
            == if |dv.exprBytes| <= 4096 then Value(dv, In(rest, true)) else Thrown
  {
    WordFacts();
    Widths();
    BytesExact(dv.exprBytes, 2, MAX_EXPR_BYTES, rest);
    hide Word, PutWord, Bytes, PutBytes, Bound;
  }

  /** A folded field carries its value; one with a slot carries none. */
  predicate HeldStatic(f: StaticField) {
    && |f.name| < 0x1_0000_0000 && HeldDesc(f.fieldType) && f.access < 256 && f.slotIdx < 65536
    && (if f.slotIdx == 0xFFFF then HeldDefault(f.folded) else f.folded == DefaultValue(0xFE, 0, 0, 0, 0, 0, []))
  }

  predicate StaticOk(f: StaticField) {
    NameOk(f.name) && TypeOk(f.fieldType) && AccessOk(f.access)
    && (f.slotIdx == 0xFFFF ==> |f.folded.exprBytes| <= 4096)
  }

  lemma StaticExact(f: StaticField)
    requires HeldStatic(f)
    ensures Exact(ReadStaticField, PutStaticField, f, StaticOk(f))
  {
    forall rest: seq<byte>
      ensures ReadStaticField(In(PutStaticField(f, rest), true))
              == if StaticOk(f) then Value(f, In(rest, true)) else Thrown
    {
      var flag := if f.isConst then 1 else 0;
      var r5 := if f.slotIdx == NO_INDEX then PutDefault(f.folded, rest) else rest;
      var r4 := PutU16(f.slotIdx, r5);
      var r3 := PutU8(flag, r4);
      var r2 := PutU8(f.access, r3);
      NameExact(f.name);
      TypeDescExact(f.fieldType);
      ByteExact(f.access);
      ByteExact(flag);
      WordExact(f.slotIdx);
      if f.slotIdx == NO_INDEX {
        DefaultExact(f.folded, rest);
      }
      hide ReadName, PutName, ReadTypeDesc, PutTypeDesc, ReadAccess, PutU8, ReadFlag, U16, PutU16,
          ReadDefault, PutDefault, HeldDesc, TypeOk, HeldDefault;
      assert ReadName(In(PutName(f.name, PutTypeDesc(f.fieldType, r2)), true))
          == if NameOk(f.name) then Value(f.name, In(PutTypeDesc(f.fieldType, r2), true)) else Thrown;
    }
  }

  // ---------------------------------------------------------------- class records

  predicate HeldClass(c: Class) {
    && |c.name| < 0x1_0000_0000 && c.fieldCount < 65536 && -32768 <= c.superClassIdx < 32768 && c.isConstAggregate < 256
    && HeldFields(c.fields, c.fieldCount) && HeldMethods(c.methods) && HeldCtors(c.ctors)
    && |c.statics| < 65536 && (forall k :: 0 <= k < |c.statics| ==> HeldStatic(c.statics[k]))
    && c.staticInitFuncIdx < 65536
  }

  ghost predicate ClassOk(c: Class, functions: nat) {
    && NameOk(c.name) && FieldsOk(c.fields) && MethodsOk(c.methods, functions) && CtorsOk(c.ctors, functions)
    && |c.statics| <= 4096 && AllOk(c.statics, StaticOk)
    && (c.staticInitFuncIdx == 0xFFFF || c.staticInitFuncIdx < functions)
  }

  lemma StaticsExact(statics: seq<StaticField>, rest: seq<byte>)
    requires |statics| < 65536 && forall k :: 0 <= k < |statics| ==> HeldStatic(statics[k])
    ensures ReadTable(ReadStaticField, 2, CAP12, In(PutTable(PutStaticField, 2, statics, rest), true))
            == if |statics| <= 4096 && AllOk(statics, StaticOk) then Value(statics, In(rest, true)) else Thrown
  {
    Widths();
    hide ReadTable, PutTable, Exact, HeldStatic, StaticOk;
    forall k | 0 <= k < |statics|
      ensures Exact(ReadStaticField, PutStaticField, statics[k], StaticOk(statics[k]))
    {
      StaticExact(statics[k]);
    }
    TableExact(ReadStaticField, PutStaticField, 2, CAP12, statics, StaticOk, rest);
  }

  lemma ClassExact(c: Class, functions: nat, rest: seq<byte>)
    requires HeldClass(c)
    ensures ReadClass(functions, In(PutClass(c, rest), true))
            == if ClassOk(c, functions) then Value(c, In(rest, true)) else Thrown
  {
    var r8 := PutU16(c.staticInitFuncIdx, rest);
    var r7 := PutTable(PutStaticField, 2, c.statics, r8);
    var r6 := PutCtors(c.ctors, r7);
    var r5 := PutMethods(c.methods, r6);
    var r4 := PutFields(c.fields, r5);
    var r3 := PutU8(c.isConstAggregate, r4);
    var r2 := PutI16(c.superClassIdx, r3);
    var r1 := PutU16(c.fieldCount, r2);
    NameExact(c.name);
    ElementUndo(r2);
    ElementUndo(r3);
    ElementUndo(r4);
    ElementUndo(rest);
    FieldsExact(c.fields, c.fieldCount, r5);
    MethodsExact(c.methods, functions, r6);
    CtorsExact(c.ctors, functions, r7);
    StaticsExact(c.statics, r8);
    assert ReadName(In(PutName(c.name, r1), true)) == if NameOk(c.name) then Value(c.name, In(r1, true)) else Thrown;
    hide ReadName, PutName, U16, PutU16, Word, PutU8, ReadFields, PutFields, ReadMethods, PutMethods,
        ReadCtors, PutCtors, ReadTable, PutTable, I16, PutI16, HeldFields, HeldMethods, HeldCtors, HeldStatic,
        FieldsOk, MethodsOk, CtorsOk, AllOk, NameOk;
  }
}
