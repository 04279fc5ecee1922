/** The record tables of a module image from the class table on, written and read back: classes,
    array types, enums, static slots and the five import sections, with every cap and cross-check
    of the loader. Tables that come before them are known by their sizes; the interface table,
    which sits between classes and array types, is not part of this model. */
module Image {
  import opened Wrappers
  import opened Bytecode
  import opened Wire
  import opened TypeDescs
  import SuperChains

  const CAP24 := 0x100_0000
  const CAP20 := 0x10_0000
  const CAP12 := 0x1000
  const FA_PUBLIC := 3
  const NO_INDEX := 0xFFFF

  type Name = seq<byte>

  // ---------------------------------------------------------------- elements

  function PutU8(n: nat, rest: seq<byte>): seq<byte> { PutWord(1, n, rest) }

  function PutU16(n: nat, rest: seq<byte>): seq<byte> { PutWord(2, n, rest) }

  function U16(s: In): Read<nat> { Word(s, 2) }

  /** A name behind a 32-bit length, and a key behind a 16-bit one. */
  function PutName(name: Name, rest: seq<byte>): seq<byte> { PutBytes(4, name, rest) }

  function ReadName(s: In): Read<Name> { Bytes(s, 4, CAP24) }

  function PutKey(name: Name, rest: seq<byte>): seq<byte> { PutBytes(2, name, rest) }

  function ReadKey(s: In): Read<Name> { Bytes(s, 2, 0xFFFF) }

  /** A byte with a checked upper bound. */
  function ReadBounded(s: In, max: nat): Read<nat> {
    var a := Word(s, 1);
    if !a.next.good || a.value > max then Thrown else a
  }

  function ReadAccess(s: In): Read<nat> { ReadBounded(s, FA_PUBLIC) }

  function ReadFlag(s: In): Read<nat> { ReadBounded(s, 1) }

  /** A signed 16-bit word. */
  function PutI16(n: int, rest: seq<byte>): seq<byte> {
    PutWord(2, if n < 0 then (n + 65536) % 65536 else n, rest)
  }

  function I16(s: In): Read<int> {
    var w := Word(s, 2);
    Value(if w.value >= 32768 then w.value - 65536 else w.value, w.next)
  }

  /** A checked 32- or 16-bit count, then that many records. */
  function ReadTable<T>(read: In -> Read<T>, k: nat, cap: nat, s: In): Read<seq<T>> {
    var n := Word(s, k);
    if !n.next.good || n.value > cap then Thrown else All(read, n.value, n.next)
  }

  function PutTable<T>(put: (T, seq<byte>) -> seq<byte>, k: nat, xs: seq<T>, rest: seq<byte>): seq<byte> {
    PutWord(k, |xs|, PutAll(put, xs, rest))
  }

  lemma ElementFacts()
    ensures Bound(1) == 256 && Bound(2) == 65536 && Bound(4) == 0x1_0000_0000
    ensures Steady(U16) && Steady(ReadName) && Steady(ReadKey) && Steady(ReadAccess) && Steady(ReadFlag)
    ensures forall n: nat :: n < 65536 ==> Undoes(U16, PutU16, n)
    ensures forall n: nat :: n <= FA_PUBLIC ==> Undoes(ReadAccess, PutU8, n)
    ensures forall n: nat :: n <= 1 ==> Undoes(ReadFlag, PutU8, n)
    ensures forall name: Name :: |name| <= CAP24 ==> Undoes(ReadName, PutName, name)
    ensures forall name: Name :: |name| <= 0xFFFF ==> Undoes(ReadKey, PutKey, name)
  {
    WordFacts();
    BytesFacts();
    assert Bound(1) == 256 && Bound(2) == 65536 && Bound(3) == 0x100_0000 && Bound(4) == 0x1_0000_0000;
    hide Word, PutWord, Bytes, PutBytes, Bound;
  }

  lemma TableFacts<T(!new)>(read: In -> Read<T>)
    requires Steady(read)
    ensures forall n: nat, s: In, more: seq<byte> {:trigger All(read, n, Plus(s, more))} ::
              All(read, n, s).Value? && All(read, n, s).next.good ==>
                All(read, n, Plus(s, more)) == Value(All(read, n, s).value, Plus(All(read, n, s).next, more))
    ensures forall n: nat, s: In {:trigger All(read, n, s)} ::
              All(read, n, s).Value? ==> |All(read, n, s).value| == n && (All(read, n, s).next.good ==> s.good)
    ensures forall k: nat, cap: nat, s: In, more: seq<byte> {:trigger ReadTable(read, k, cap, Plus(s, more))} ::
              ReadTable(read, k, cap, s).Value? && ReadTable(read, k, cap, s).next.good ==>
                ReadTable(read, k, cap, Plus(s, more))
                == Value(ReadTable(read, k, cap, s).value, Plus(ReadTable(read, k, cap, s).next, more))
    ensures forall k: nat, cap: nat, s: In {:trigger ReadTable(read, k, cap, s)} ::
              ReadTable(read, k, cap, s).Value? && ReadTable(read, k, cap, s).next.good ==> s.good
  {
    forall n: nat, s: In, more: seq<byte> | All(read, n, s).Value? && All(read, n, s).next.good
      ensures All(read, n, Plus(s, more)) == Value(All(read, n, s).value, Plus(All(read, n, s).next, more))
    {
      AllSteady(read, n, s, more);
    }
    forall n: nat, s: In | All(read, n, s).Value?
      ensures |All(read, n, s).value| == n && (All(read, n, s).next.good ==> s.good)
    {
      AllCounts(read, n, s);
      if All(read, n, s).next.good {
        AllSteady(read, n, s, []);
      }
    }
    WordFacts();
    hide Word, All;
  }

  lemma ListUndoes<T(!new)>(read: In -> Read<T>, put: (T, seq<byte>) -> seq<byte>, xs: seq<T>)
    requires forall k :: 0 <= k < |xs| ==> Undoes(read, put, xs[k])
    ensures forall rest: seq<byte> {:trigger PutAll(put, xs, rest)} ::
              All(read, |xs|, In(PutAll(put, xs, rest), true)) == Value(xs, In(rest, true))
    ensures forall k: nat, cap: nat, rest: seq<byte>
              {:trigger ReadTable(read, k, cap, In(PutTable(put, k, xs, rest), true))} ::
              |xs| < Bound(k) && |xs| <= cap ==>
                ReadTable(read, k, cap, In(PutTable(put, k, xs, rest), true)) == Value(xs, In(rest, true))
  {
    forall rest: seq<byte>
      ensures All(read, |xs|, In(PutAll(put, xs, rest), true)) == Value(xs, In(rest, true))
    {
      AllUndoes(read, put, xs, rest);
    }
    WordFacts();
    hide Word, PutWord, All, PutAll;
  }

  // ---------------------------------------------------------------- a class's fields

  /** Parallel vectors, `count` long each. */
  datatype Fields = Fields(names: seq<Name>, kinds: seq<nat>, structIndices: seq<nat>, classIndices: seq<nat>,
                           descs: seq<TypeDesc>, access: seq<nat>)

  function PutFields(f: Fields, rest: seq<byte>): seq<byte> {
    PutAll(PutName, f.names, PutAll(PutU16, f.kinds, PutAll(PutU16, f.structIndices, PutAll(PutU16, f.classIndices,
      PutAll(PutTypeDesc, f.descs, PutAll(PutU8, f.access, rest))))))
  }

  function ReadFields(count: nat, s: In): Read<Fields> {
    match All(ReadName, count, s) case Thrown => Thrown case Value(names, s1) =>
    match All(U16, count, s1) case Thrown => Thrown case Value(kinds, s2) =>
    match All(U16, count, s2) case Thrown => Thrown case Value(structIndices, s3) =>
    match All(U16, count, s3) case Thrown => Thrown case Value(classIndices, s4) =>
    match All(ReadTypeDesc, count, s4) case Thrown => Thrown case Value(descs, s5) =>
    match All(ReadAccess, count, s5) case Thrown => Thrown case Value(access, s6) =>
      Value(Fields(names, kinds, structIndices, classIndices, descs, access), s6)
  }

  predicate AllBelow(xs: seq<nat>, bound: nat) {
    forall k :: 0 <= k < |xs| ==> xs[k] < bound
  }

  predicate NamesFit(names: seq<Name>) {
    forall k :: 0 <= k < |names| ==> |names[k]| <= CAP24
  }

  predicate FieldsFit(f: Fields, count: nat) {
    && |f.names| == |f.kinds| == |f.structIndices| == |f.classIndices| == |f.descs| == |f.access| == count
    && NamesFit(f.names)
    && AllBelow(f.kinds, 65536) && AllBelow(f.structIndices, 65536) && AllBelow(f.classIndices, 65536)
    && (forall k :: 0 <= k < |f.descs| ==> Fits(f.descs[k]))
    && AllBelow(f.access, FA_PUBLIC + 1)
  }

  lemma FieldsUndo(f: Fields, count: nat, rest: seq<byte>)
    requires FieldsFit(f, count)
    ensures ReadFields(count, In(PutFields(f, rest), true)) == Value(f, In(rest, true))
  {
    ElementFacts();
    forall k | 0 <= k < |f.descs|
      ensures Undoes(ReadTypeDesc, PutTypeDesc, f.descs[k])
    {
      TypeDescUndoes(f.descs[k]);
    }
    ListUndoes(ReadName, PutName, f.names);
    ListUndoes(U16, PutU16, f.kinds);
    ListUndoes(U16, PutU16, f.structIndices);
    ListUndoes(U16, PutU16, f.classIndices);
    ListUndoes(ReadTypeDesc, PutTypeDesc, f.descs);
    ListUndoes(ReadAccess, PutU8, f.access);
    hide All, PutAll, Undoes, Steady;
  }

  lemma FieldsSteady(count: nat, s: In, more: seq<byte>)
    requires ReadFields(count, s).Value? && ReadFields(count, s).next.good
    ensures s.good
    ensures ReadFields(count, Plus(s, more)) == Value(ReadFields(count, s).value, Plus(ReadFields(count, s).next, more))
  {
    ElementFacts();
    TypeDescSteady();
    TableFacts(ReadName);
    TableFacts(U16);
    TableFacts(ReadTypeDesc);
    TableFacts(ReadAccess);
    hide All, Undoes, Steady, Plus, ReadTable;
  }

  // ---------------------------------------------------------------- member functions and constructors

  predicate InRange(indices: seq<nat>, size: nat) {
    forall k :: 0 <= k < |indices| ==> indices[k] < size
  }

  datatype Methods = Methods(indices: seq<nat>, access: seq<nat>, virtuality: seq<nat>)

  function PutMethods(m: Methods, rest: seq<byte>): seq<byte> {
    PutTable(PutU16, 2, m.indices, PutAll(PutU8, m.access, PutAll(PutU8, m.virtuality, rest)))
  }

  function ReadMethods(functions: nat, s: In): Read<Methods> {
    match ReadTable(U16, 2, CAP12, s) case Thrown => Thrown case Value(indices, s1) =>
    if !s1.good || !InRange(indices, functions) then Thrown else
    match All(ReadAccess, |indices|, s1) case Thrown => Thrown case Value(access, s2) =>
    match All(ReadFlag, |indices|, s2) case Thrown => Thrown case Value(virtuality, s3) =>
      Value(Methods(indices, access, virtuality), s3)
  }

  predicate MethodsFit(m: Methods, functions: nat) {
    && |m.indices| == |m.access| == |m.virtuality| <= CAP12
    && AllBelow(m.indices, 65536) && InRange(m.indices, functions)
    && AllBelow(m.access, FA_PUBLIC + 1) && AllBelow(m.virtuality, 2)
  }

  datatype Ctors = Ctors(indices: seq<nat>, access: seq<nat>)

  function PutCtors(c: Ctors, rest: seq<byte>): seq<byte> {
    PutTable(PutU16, 2, c.indices, PutAll(PutU8, c.access, rest))
  }

  function ReadCtors(functions: nat, s: In): Read<Ctors> {
    match ReadTable(U16, 2, CAP12, s) case Thrown => Thrown case Value(indices, s1) =>
    if !s1.good || !InRange(indices, functions) then Thrown else
    match All(ReadAccess, |indices|, s1) case Thrown => Thrown case Value(access, s2) =>
      Value(Ctors(indices, access), s2)
  }

  predicate CtorsFit(c: Ctors, functions: nat) {
    && |c.indices| == |c.access| <= CAP12
    && AllBelow(c.indices, 65536) && InRange(c.indices, functions) && AllBelow(c.access, FA_PUBLIC + 1)
  }

  lemma BytesUndo(xs: seq<nat>, rest: seq<byte>)
    ensures AllBelow(xs, FA_PUBLIC + 1) ==>
              All(ReadAccess, |xs|, In(PutAll(PutU8, xs, rest), true)) == Value(xs, In(rest, true))
    ensures AllBelow(xs, 2) ==> All(ReadFlag, |xs|, In(PutAll(PutU8, xs, rest), true)) == Value(xs, In(rest, true))
  {
    ElementFacts();
    hide Undoes, Steady, All, PutAll;
    if AllBelow(xs, FA_PUBLIC + 1) {
      ListUndoes(ReadAccess, PutU8, xs);
    }
    if AllBelow(xs, 2) {
      ListUndoes(ReadFlag, PutU8, xs);
    }
  }

  lemma IndicesUndo(xs: seq<nat>, rest: seq<byte>)
    requires AllBelow(xs, 65536) && |xs| <= CAP12
    ensures ReadTable(U16, 2, CAP12, In(PutTable(PutU16, 2, xs, rest), true)) == Value(xs, In(rest, true))
  {
    ElementFacts();
    hide Undoes, Steady, All, PutAll;
    ListUndoes(U16, PutU16, xs);
  }

  lemma MethodsUndo(m: Methods, functions: nat, rest: seq<byte>)
    requires MethodsFit(m, functions)
    ensures ReadMethods(functions, In(PutMethods(m, rest), true)) == Value(m, In(rest, true))
  {
    hide All, PutAll, ReadTable, PutTable, InRange, AllBelow;
    BytesUndo(m.virtuality, rest);
    BytesUndo(m.access, PutAll(PutU8, m.virtuality, rest));
    IndicesUndo(m.indices, PutAll(PutU8, m.access, PutAll(PutU8, m.virtuality, rest)));
  }

  lemma CtorsUndo(c: Ctors, functions: nat, rest: seq<byte>)
    requires CtorsFit(c, functions)
    ensures ReadCtors(functions, In(PutCtors(c, rest), true)) == Value(c, In(rest, true))
  {
    hide All, PutAll, ReadTable, PutTable, InRange, AllBelow;
    BytesUndo(c.access, rest);
    IndicesUndo(c.indices, PutAll(PutU8, c.access, rest));
  }

  lemma MembersSteady(functions: nat, s: In, more: seq<byte>)
    ensures ReadMethods(functions, s).Value? && ReadMethods(functions, s).next.good ==>
              && s.good
              && ReadMethods(functions, Plus(s, more))
                 == Value(ReadMethods(functions, s).value, Plus(ReadMethods(functions, s).next, more))
    ensures ReadCtors(functions, s).Value? && ReadCtors(functions, s).next.good ==>
              && s.good
              && ReadCtors(functions, Plus(s, more))
                 == Value(ReadCtors(functions, s).value, Plus(ReadCtors(functions, s).next, more))
  {
    ElementFacts();
    TableFacts(U16);
    TableFacts(ReadAccess);
    TableFacts(ReadFlag);
    assert forall t: In :: Plus(t, more).good == t.good;
    hide All, Undoes, Steady, Plus, ReadTable;
  }

  // ---------------------------------------------------------------- static fields

  /** A static field either names a slot or, folded at compile time, carries its value. */
  datatype StaticField = StaticField(name: Name, fieldType: TypeDesc, access: nat, isConst: bool, slotIdx: nat,
                                     folded: DefaultValue)

  const NO_DEFAULT := DefaultValue(0xFE, 0, 0, 0, 0, 0, [])

  function PutStaticField(f: StaticField, rest: seq<byte>): seq<byte> {
    PutName(f.name, PutTypeDesc(f.fieldType, PutU8(f.access, PutU8(if f.isConst then 1 else 0,
      PutU16(f.slotIdx, if f.slotIdx == NO_INDEX then PutDefault(f.folded, rest) else rest)))))
  }

  function ReadStaticField(s: In): Read<StaticField> {
    match ReadName(s) case Thrown => Thrown case Value(name, s1) =>
    match ReadTypeDesc(s1) case Thrown => Thrown case Value(fieldType, s2) =>
    match ReadAccess(s2) case Thrown => Thrown case Value(access, s3) =>
    match ReadFlag(s3) case Thrown => Thrown case Value(constFlag, s4) =>
    match U16(s4) case Thrown => Thrown case Value(slotIdx, s5) =>
    if slotIdx == NO_INDEX then
      match ReadDefault(s5) case Thrown => Thrown case Value(folded, s6) =>
        Value(StaticField(name, fieldType, access, constFlag != 0, slotIdx, folded), s6)
    else
      Value(StaticField(name, fieldType, access, constFlag != 0, slotIdx, NO_DEFAULT), s5)
  }

  predicate StaticFieldFits(f: StaticField) {
    && |f.name| <= CAP24 && Fits(f.fieldType) && f.access <= FA_PUBLIC && f.slotIdx < 65536
    && (if f.slotIdx == NO_INDEX then DefaultFits(f.folded) else f.folded == NO_DEFAULT)
  }

  /** Single elements, wherever they stand. */
  lemma ElementUndo(rest: seq<byte>)
    ensures forall name: Name {:trigger PutName(name, rest)} ::
              |name| <= CAP24 ==> ReadName(In(PutName(name, rest), true)) == Value(name, In(rest, true))
    ensures forall n: nat {:trigger PutU16(n, rest)} :: n < 65536 ==>
              U16(In(PutU16(n, rest), true)) == Value(n, In(rest, true))
    ensures forall n: nat {:trigger PutU8(n, rest)} :: n < 256 ==>
              && Word(In(PutU8(n, rest), true), 1) == Value(n, In(rest, true))
              && (n <= FA_PUBLIC ==> ReadAccess(In(PutU8(n, rest), true)) == Value(n, In(rest, true)))
              && (n <= 1 ==> ReadFlag(In(PutU8(n, rest), true)) == Value(n, In(rest, true)))
              && (n <= 2 ==> ReadBounded(In(PutU8(n, rest), true), 2) == Value(n, In(rest, true)))
    ensures forall n: int {:trigger PutI16(n, rest)} ::
              -32768 <= n < 32768 ==> I16(In(PutI16(n, rest), true)) == Value(n, In(rest, true))
  {
    WordFacts();
    BytesFacts();
    assert Bound(1) == 256 && Bound(2) == 65536 && Bound(3) == 0x100_0000 && Bound(4) == 0x1_0000_0000;
    hide Word, PutWord, Bytes, PutBytes, Bound;
  }

  lemma StaticFieldUndo(f: StaticField, rest: seq<byte>)
    requires StaticFieldFits(f)
    ensures ReadStaticField(In(PutStaticField(f, rest), true)) == Value(f, In(rest, true))
  {
    var r5 := if f.slotIdx == NO_INDEX then PutDefault(f.folded, rest) else rest;
    var r4 := PutU16(f.slotIdx, r5);
    var r3 := PutU8(if f.isConst then 1 else 0, r4);
    var r2 := PutU8(f.access, r3);
    var r1 := PutTypeDesc(f.fieldType, r2);
    ElementUndo(r1);
    ElementUndo(r3);
    ElementUndo(r4);
    ElementUndo(r5);
    TypeDescUndo(f.fieldType, r2);
    if f.slotIdx == NO_INDEX {
      DefaultUndo(f.folded, rest);
    }
    hide ReadName, PutName, ReadTypeDesc, PutTypeDesc, ReadAccess, PutU8, ReadFlag, U16, PutU16,
        ReadDefault, PutDefault;
  }

  lemma StaticFieldUndoes(f: StaticField)
    requires StaticFieldFits(f)
    ensures Undoes(ReadStaticField, PutStaticField, f)
  {
    forall rest: seq<byte>
      ensures ReadStaticField(In(PutStaticField(f, rest), true)) == Value(f, In(rest, true))
    {
      StaticFieldUndo(f, rest);
    }
  }

  lemma StaticFieldSteady()
    ensures Steady(ReadStaticField)
  {
    ElementFacts();
    TypeDescSteady();
    DefaultSteady();
    hide ReadName, ReadTypeDesc, ReadAccess, ReadFlag, ReadDefault, Undoes, Plus;
  }

  // ---------------------------------------------------------------- the class table

  /** `fieldCount` is a field of its own: the vectors in `fields` follow it. */
  datatype Class = Class(name: Name, fieldCount: nat, superClassIdx: int, isConstAggregate: nat, fields: Fields,
                         methods: Methods, ctors: Ctors, statics: seq<StaticField>, staticInitFuncIdx: nat)

  function PutClass(c: Class, rest: seq<byte>): seq<byte> {
    PutName(c.name, PutU16(c.fieldCount, PutI16(c.superClassIdx, PutU8(c.isConstAggregate,
      PutFields(c.fields, PutMethods(c.methods, PutCtors(c.ctors,
        PutTable(PutStaticField, 2, c.statics, PutU16(c.staticInitFuncIdx, rest)))))))))
  }

  function ReadClass(functions: nat, s: In): Read<Class> {
    match ReadName(s) case Thrown => Thrown case Value(name, s1) =>
    match U16(s1) case Thrown => Thrown case Value(fieldCount, s2) =>
    match I16(s2) case Thrown => Thrown case Value(superClassIdx, s3) =>
    match Word(s3, 1) case Thrown => Thrown case Value(isConstAggregate, s4) =>
    match ReadFields(fieldCount, s4) case Thrown => Thrown case Value(fields, s5) =>
    match ReadMethods(functions, s5) case Thrown => Thrown case Value(methods, s6) =>
    match ReadCtors(functions, s6) case Thrown => Thrown case Value(ctors, s7) =>
    match ReadTable(ReadStaticField, 2, CAP12, s7) case Thrown => Thrown case Value(statics, s8) =>
    match U16(s8) case Thrown => Thrown case Value(init, s9) =>
    if !s9.good || (init != NO_INDEX && init >= functions) then Thrown
    else Value(Class(name, fieldCount, superClassIdx, isConstAggregate, fields, methods, ctors, statics, init), s9)
  }

  predicate ClassFits(c: Class, functions: nat) {
    && |c.name| <= CAP24 && c.fieldCount < 65536 && -32768 <= c.superClassIdx < 32768 && c.isConstAggregate < 256
    && FieldsFit(c.fields, c.fieldCount) && MethodsFit(c.methods, functions) && CtorsFit(c.ctors, functions)
    && |c.statics| <= CAP12 && (forall k :: 0 <= k < |c.statics| ==> StaticFieldFits(c.statics[k]))
    && c.staticInitFuncIdx < 65536 && (c.staticInitFuncIdx == NO_INDEX || c.staticInitFuncIdx < functions)
  }

  lemma ClassUndo(c: Class, functions: nat, rest: seq<byte>)
    requires ClassFits(c, functions)
    ensures ReadClass(functions, In(PutClass(c, rest), true)) == Value(c, In(rest, true))
  {
    var r8 := PutU16(c.staticInitFuncIdx, rest);
    var r7 := PutTable(PutStaticField, 2, c.statics, r8);
    var r6 := PutCtors(c.ctors, r7);
    var r5 := PutMethods(c.methods, r6);
    var r4 := PutFields(c.fields, r5);
    var r3 := PutU8(c.isConstAggregate, r4);
    var r2 := PutI16(c.superClassIdx, r3);
    var r1 := PutU16(c.fieldCount, r2);
    ElementUndo(r1);
    ElementUndo(r2);
    ElementUndo(r3);
    ElementUndo(r4);
    ElementUndo(rest);
    FieldsUndo(c.fields, c.fieldCount, r5);
    MethodsUndo(c.methods, functions, r6);
    CtorsUndo(c.ctors, functions, r7);
    StaticsUndo(c.statics, r8);
    hide ReadName, PutName, U16, PutU16, Word, PutU8, ReadFields, PutFields, ReadMethods, PutMethods,
        ReadCtors, PutCtors,
      ReadTable, PutTable, I16, PutI16, FieldsFit, MethodsFit, CtorsFit, StaticFieldFits;
  }

  lemma StaticsUndo(statics: seq<StaticField>, rest: seq<byte>)
    requires |statics| <= CAP12 && forall k :: 0 <= k < |statics| ==> StaticFieldFits(statics[k])
    ensures ReadTable(ReadStaticField, 2, CAP12, In(PutTable(PutStaticField, 2, statics, rest), true))
            == Value(statics, In(rest, true))
  {
    forall k | 0 <= k < |statics|
      ensures Undoes(ReadStaticField, PutStaticField, statics[k])
    {
      StaticFieldUndoes(statics[k]);
    }
    ListUndoes(ReadStaticField, PutStaticField, statics);
    assert Bound(2) == 65536;
    hide ReadTable, PutTable, Undoes;
  }

  lemma ClassSteady(functions: nat)
    ensures Steady((s: In) => ReadClass(functions, s))
  {
    var read := (s: In) => ReadClass(functions, s);
    forall s: In, more: seq<byte> | read(s).Value? && read(s).next.good
      ensures read(Plus(s, more)) == Value(read(s).value, Plus(read(s).next, more))
    {
      ClassSteadyAt(functions, s, more);
    }
    forall s: In | read(s).Value? && read(s).next.good
      ensures s.good
    {
      ClassSteadyAt(functions, s, []);
    }
  }

  lemma ClassSteadyAt(functions: nat, s: In, more: seq<byte>)
    requires ReadClass(functions, s).Value? && ReadClass(functions, s).next.good
    ensures s.good
    ensures ReadClass(functions, Plus(s, more)) == Value(ReadClass(functions, s).value,
              Plus(ReadClass(functions, s).next, more))
  {
    ElementSteady(more);
    StaticFieldSteady();
    TableFacts(ReadStaticField);
    var s4 := Word(I16(U16(ReadName(s).next).next).next, 1).next;
    var count := U16(ReadName(s).next).value;
    var s5 := ReadFields(count, s4).next;
    var s6 := ReadMethods(functions, s5).next;
    MembersSteady(functions, s6, more);
    MembersSteady(functions, s5, more);
    if ReadFields(count, s4).next.good {
      FieldsSteady(count, s4, more);
    }
    hide ReadName, U16, I16, Word, ReadFields, ReadMethods, ReadCtors, ReadTable, All, Undoes, Plus, Steady;
  }

  /** Single elements are steady. */
  lemma ElementSteady(more: seq<byte>)
    ensures forall s: In {:trigger ReadName(Plus(s, more))} :: ReadName(s).Value? && ReadName(s).next.good ==>
              ReadName(Plus(s, more)) == Value(ReadName(s).value, Plus(ReadName(s).next, more))
    ensures forall s: In {:trigger U16(Plus(s, more))} :: U16(s).next.good ==>
              U16(Plus(s, more)) == Value(U16(s).value, Plus(U16(s).next, more))
    ensures forall s: In {:trigger I16(Plus(s, more))} :: I16(s).next.good ==>
              I16(Plus(s, more)) == Value(I16(s).value, Plus(I16(s).next, more))
    ensures forall s: In, k: nat {:trigger Word(Plus(s, more), k)} :: Word(s, k).next.good ==>
              Word(Plus(s, more), k) == Value(Word(s, k).value, Plus(Word(s, k).next, more))
    ensures forall s: In {:trigger ReadName(s)} :: ReadName(s).Value? && ReadName(s).next.good ==> s.good
    ensures forall s: In {:trigger U16(s)} :: U16(s).Value? && (U16(s).next.good ==> s.good)
    ensures forall s: In {:trigger I16(s)} :: I16(s).Value? && (I16(s).next.good ==> s.good)
    ensures forall s: In, k: nat {:trigger Word(s, k)} :: Word(s, k).Value? && (Word(s, k).next.good ==> s.good)
    ensures forall s: In {:trigger Plus(s, more)} :: Plus(s, more).good == s.good
  {
    WordFacts();
    BytesFacts();
    hide Word, Bytes;
  }

  /** Descriptors may only name structs and classes the module has. */
  predicate DescInRange(td: TypeDesc, structs: nat, classes: nat)
    decreases td
  {
    && (td.kind == RTK_STRUCT ==> td.typeIdx < structs)
    && (td.kind == RTK_CLASS ==> td.typeIdx < classes)
    && forall k :: 0 <= k < |td.elems| ==> DescInRange(td.elems[k], structs, classes)
  }

  predicate DescsInRange(classes: seq<Class>, structs: nat) {
    forall c, k :: 0 <= c < |classes| && 0 <= k < |classes[c].fields.descs| ==>
      DescInRange(classes[c].fields.descs[k], structs, |classes|)
  }

  // ---------------------------------------------------------------- the other tables

  datatype ArrayType = ArrayType(elemKind: nat, elemTypeIdx: nat, rank: nat)

  function PutArrayType(a: ArrayType, rest: seq<byte>): seq<byte> {
    PutU8(a.elemKind, PutU16(a.elemTypeIdx, PutU8(a.rank, rest)))
  }

  function ReadArrayType(s: In): Read<ArrayType> {
    var kind := Word(s, 1);
    var idx := Word(kind.next, 2);
    var rank := Word(idx.next, 1);
    Value(ArrayType(kind.value, idx.value, rank.value), rank.next)
  }

  predicate ArrayTypeFits(a: ArrayType) {
    a.elemKind < 256 && a.elemTypeIdx < 65536 && a.rank < 256
  }

  datatype EnumMethod = EnumMethod(index: nat, access: nat)

  function PutEnumMethod(m: EnumMethod, rest: seq<byte>): seq<byte> {
    PutU16(m.index, PutU8(m.access, rest))
  }

  function ReadEnumMethod(s: In): Read<EnumMethod> {
    var index := Word(s, 2);
    var access := Word(index.next, 1);
    Value(EnumMethod(index.value, access.value), access.next)
  }

  predicate EnumMethodFits(m: EnumMethod) {
    m.index < 65536 && m.access < 256
  }

  function PutNames(names: seq<Name>, rest: seq<byte>): seq<byte> { PutTable(PutName, 4, names, rest) }

  function ReadNames(s: In): Read<seq<Name>> { ReadTable(ReadName, 4, CAP24, s) }

  function PutEnumMethods(ms: seq<EnumMethod>, rest: seq<byte>): seq<byte> { PutTable(PutEnumMethod, 4, ms, rest) }

  function ReadEnumMethods(s: In): Read<seq<EnumMethod>> { ReadTable(ReadEnumMethod, 4, CAP20, s) }

  /** Three parallel tables behind one count. */
  datatype Enums = Enums(names: seq<seq<Name>>, keys: seq<Name>, methods: seq<seq<EnumMethod>>)

  function PutEnums(e: Enums, rest: seq<byte>): seq<byte> {
    PutTable(PutNames, 4, e.names, PutAll(PutKey, e.keys, PutAll(PutEnumMethods, e.methods, rest)))
  }

  function ReadEnums(s: In): Read<Enums> {
    match ReadTable(ReadNames, 4, CAP24, s) case Thrown => Thrown case Value(names, s1) =>
    match All(ReadKey, |names|, s1) case Thrown => Thrown case Value(keys, s2) =>
    match All(ReadEnumMethods, |names|, s2) case Thrown => Thrown case Value(methods, s3) =>
      if !s3.good then Thrown else Value(Enums(names, keys, methods), s3)
  }

  predicate EnumsFit(e: Enums) {
    && |e.names| == |e.keys| == |e.methods| <= CAP24
    && (forall k :: 0 <= k < |e.names| ==> |e.names[k]| <= CAP24 && NamesFit(e.names[k]))
    && (forall k :: 0 <= k < |e.keys| ==> |e.keys[k]| <= 0xFFFF)
    && (forall k :: 0 <= k < |e.methods| ==> |e.methods[k]| <= CAP20)
    && (forall k, j :: 0 <= k < |e.methods| && 0 <= j < |e.methods[k]| ==> EnumMethodFits(e.methods[k][j]))
  }

  datatype StaticSlot = StaticSlot(name: Name, ownerKey: Name, ownerKind: nat, isRuntimeConst: nat, hasInitializer: nat,
                                   slotType: TypeDesc)

  function PutSlot(x: StaticSlot, rest: seq<byte>): seq<byte> {
    PutName(x.name, PutName(x.ownerKey, PutU8(x.ownerKind, PutU8(x.isRuntimeConst, PutU8(x.hasInitializer,
      PutTypeDesc(x.slotType, rest))))))
  }

  function ReadSlot(s: In): Read<StaticSlot> {
    match ReadName(s) case Thrown => Thrown case Value(name, s1) =>
    match ReadName(s1) case Thrown => Thrown case Value(ownerKey, s2) =>
    var ownerKind := Word(s2, 1);
    var isRuntimeConst := Word(ownerKind.next, 1);
    var hasInitializer := Word(isRuntimeConst.next, 1);
    if !hasInitializer.next.good || ownerKind.value > 2 || isRuntimeConst.value > 1
        || hasInitializer.value > 1 then Thrown
    else
      match ReadTypeDesc(hasInitializer.next) case Thrown => Thrown case Value(slotType, s6) =>
        Value(StaticSlot(name, ownerKey, ownerKind.value, isRuntimeConst.value, hasInitializer.value, slotType), s6)
  }

  predicate SlotFits(x: StaticSlot) {
    && |x.name| <= CAP24 && |x.ownerKey| <= CAP24 && x.ownerKind <= 2 && x.isRuntimeConst <= 1 && x.hasInitializer <= 1
    && Fits(x.slotType)
  }

  /** An import slot; the type tables' sections carry no owner. */
  datatype Import = Import(modulePath: Name, name: Name, paramCount: nat, ownerKey: Name, isStatic: bool,
                           ownerKind: nat, ownerOrdinal: nat)

  function PutImport(withOwner: bool, x: Import, rest: seq<byte>): seq<byte> {
    PutKey(x.modulePath, PutKey(x.name, PutWord(4, x.paramCount,
      if !withOwner then rest
      else PutKey(x.ownerKey, PutU8(if x.isStatic then 1 else 0, PutU8(x.ownerKind, PutU16(x.ownerOrdinal, rest)))))))
  }

  function ReadImport(withOwner: bool, s: In): Read<Import> {
    match ReadKey(s) case Thrown => Thrown case Value(modulePath, s1) =>
    match ReadKey(s1) case Thrown => Thrown case Value(name, s2) =>
    var paramCount := Word(s2, 4);
    if !paramCount.next.good then Thrown
    else if !withOwner then Value(Import(modulePath, name, paramCount.value, [], false, 0, NO_INDEX), paramCount.next)
    else
      match ReadKey(paramCount.next) case Thrown => Thrown case Value(ownerKey, s4) =>
      var staticFlag := Word(s4, 1);
      var ownerKind := Word(staticFlag.next, 1);
      var ownerOrdinal := Word(ownerKind.next, 2);
      if !ownerOrdinal.next.good || ownerKind.value > 2 then Thrown
      else Value(Import(modulePath, name, paramCount.value, ownerKey, staticFlag.value != 0, ownerKind.value,
                        ownerOrdinal.value), ownerOrdinal.next)
  }

  predicate ImportFits(withOwner: bool, x: Import) {
    && |x.modulePath| <= 0xFFFF && |x.name| <= 0xFFFF && x.paramCount < 0x1_0000_0000
    && (if withOwner then |x.ownerKey| <= 0xFFFF && x.ownerKind <= 2 && x.ownerOrdinal < 65536
        else x.ownerKey == [] && !x.isStatic && x.ownerKind == 0 && x.ownerOrdinal == NO_INDEX)
  }

  function PutOwned(x: Import, rest: seq<byte>): seq<byte> { PutImport(true, x, rest) }

  function PutUnowned(x: Import, rest: seq<byte>): seq<byte> { PutImport(false, x, rest) }

  function ReadOwned(s: In): Read<Import> { ReadImport(true, s) }

  function ReadUnowned(s: In): Read<Import> { ReadImport(false, s) }

  // ---------------------------------------------------------------- round trips of the elements

  lemma SmallUndo(rest: seq<byte>)
    ensures forall name: Name {:trigger PutKey(name, rest)} ::
              |name| <= 0xFFFF ==> ReadKey(In(PutKey(name, rest), true)) == Value(name, In(rest, true))
    ensures forall n: nat {:trigger PutWord(4, n, rest)} :: n < 0x1_0000_0000 ==>
              Word(In(PutWord(4, n, rest), true), 4) == Value(n, In(rest, true))
    ensures forall n: nat {:trigger PutU16(n, rest)} :: n < 65536 ==>
              Word(In(PutU16(n, rest), true), 2) == Value(n, In(rest, true))
  {
    WordFacts();
    BytesFacts();
    assert Bound(1) == 256 && Bound(2) == 65536 && Bound(3) == 0x100_0000 && Bound(4) == 0x1_0000_0000;
    hide Word, PutWord, Bytes, PutBytes, Bound;
  }

  lemma ArrayTypeUndoes(a: ArrayType)
    requires ArrayTypeFits(a)
    ensures Undoes(ReadArrayType, PutArrayType, a)
  {
    forall rest: seq<byte>
      ensures ReadArrayType(In(PutArrayType(a, rest), true)) == Value(a, In(rest, true))
    {
      ElementUndo(rest);
      SmallUndo(PutU8(a.rank, rest));
      ElementUndo(PutU16(a.elemTypeIdx, PutU8(a.rank, rest)));
      hide Word, PutU8, PutU16;
    }
  }

  lemma EnumMethodsUndo(ms: seq<EnumMethod>)
    requires |ms| <= CAP20 && forall j :: 0 <= j < |ms| ==> EnumMethodFits(ms[j])
    ensures Undoes(ReadEnumMethods, PutEnumMethods, ms)
  {
    forall j | 0 <= j < |ms|
      ensures Undoes(ReadEnumMethod, PutEnumMethod, ms[j])
    {
      EnumMethodUndoes(ms[j]);
    }
    ElementFacts();
    ListUndoes(ReadEnumMethod, PutEnumMethod, ms);
    hide ReadTable, PutTable, Steady;
  }

  lemma EnumMethodUndoes(m: EnumMethod)
    requires EnumMethodFits(m)
    ensures Undoes(ReadEnumMethod, PutEnumMethod, m)
  {
    forall rest: seq<byte>
      ensures ReadEnumMethod(In(PutEnumMethod(m, rest), true)) == Value(m, In(rest, true))
    {
      ElementUndo(rest);
      SmallUndo(PutU8(m.access, rest));
      hide Word, PutU8, PutU16;
    }
  }

  lemma NamesUndo(names: seq<Name>)
    requires |names| <= CAP24 && NamesFit(names)
    ensures Undoes(ReadNames, PutNames, names)
  {
    ElementFacts();
    ListUndoes(ReadName, PutName, names);
    hide ReadTable, PutTable, Steady;
  }

  lemma EnumNamesUndo(names: seq<seq<Name>>, rest: seq<byte>)
    requires |names| <= CAP24 && forall k :: 0 <= k < |names| ==> |names[k]| <= CAP24 && NamesFit(names[k])
    ensures ReadTable(ReadNames, 4, CAP24, In(PutTable(PutNames, 4, names, rest), true)) == Value(names, In(rest, true))
  {
    ElementFacts();
    hide ReadTable, PutTable, Steady, ReadNames, PutNames, NamesFit, Undoes;
    forall k | 0 <= k < |names|
      ensures Undoes(ReadNames, PutNames, names[k])
    {
      NamesUndo(names[k]);
    }
    ListUndoes(ReadNames, PutNames, names);
  }

  lemma KeysUndo(keys: seq<Name>, rest: seq<byte>)
    requires forall k :: 0 <= k < |keys| ==> |keys[k]| <= 0xFFFF
    ensures All(ReadKey, |keys|, In(PutAll(PutKey, keys, rest), true)) == Value(keys, In(rest, true))
  {
    ElementFacts();
    hide All, PutAll, Steady, Undoes;
    ListUndoes(ReadKey, PutKey, keys);
  }

  lemma EnumMethodTablesUndo(methods: seq<seq<EnumMethod>>, rest: seq<byte>)
    requires forall k :: 0 <= k < |methods| ==> |methods[k]| <= CAP20
    requires forall k, j :: 0 <= k < |methods| && 0 <= j < |methods[k]| ==> EnumMethodFits(methods[k][j])
    ensures All(ReadEnumMethods, |methods|, In(PutAll(PutEnumMethods, methods, rest), true))
              == Value(methods, In(rest, true))
  {
    hide All, PutAll, Steady, Undoes, EnumMethodFits;
    forall k | 0 <= k < |methods|
      ensures Undoes(ReadEnumMethods, PutEnumMethods, methods[k])
    {
      EnumMethodsUndo(methods[k]);
    }
    ListUndoes(ReadEnumMethods, PutEnumMethods, methods);
  }

  lemma EnumsUndo(e: Enums, rest: seq<byte>)
    requires EnumsFit(e)
    ensures ReadEnums(In(PutEnums(e, rest), true)) == Value(e, In(rest, true))
  {
    var r2 := PutAll(PutEnumMethods, e.methods, rest);
    EnumMethodTablesUndo(e.methods, rest);
    KeysUndo(e.keys, r2);
    EnumNamesUndo(e.names, PutAll(PutKey, e.keys, r2));
    hide ReadTable, PutTable, All, PutAll;
  }

  lemma SlotUndoes(x: StaticSlot)
    requires SlotFits(x)
    ensures Undoes(ReadSlot, PutSlot, x)
  {
    forall rest: seq<byte>
      ensures ReadSlot(In(PutSlot(x, rest), true)) == Value(x, In(rest, true))
    {
      var r5 := PutTypeDesc(x.slotType, rest);
      var r4 := PutU8(x.hasInitializer, r5);
      var r3 := PutU8(x.isRuntimeConst, r4);
      var r2 := PutU8(x.ownerKind, r3);
      TypeDescUndo(x.slotType, rest);
      ElementUndo(r5);
      ElementUndo(r4);
      ElementUndo(r3);
      ElementUndo(r2);
      ElementUndo(PutName(x.ownerKey, r2));
      hide Word, PutU8, ReadName, PutName, ReadTypeDesc, PutTypeDesc;
    }
  }

  lemma ImportUndo(withOwner: bool, x: Import, rest: seq<byte>)
    requires ImportFits(withOwner, x)
    ensures ReadImport(withOwner, In(PutImport(withOwner, x, rest), true)) == Value(x, In(rest, true))
  {
    var r6 := PutU16(x.ownerOrdinal, rest);
    var r5 := PutU8(x.ownerKind, r6);
    var r4 := PutU8(if x.isStatic then 1 else 0, r5);
    var r3 := if withOwner then PutKey(x.ownerKey, r4) else rest;
    var r2 := PutWord(4, x.paramCount, r3);
    SmallUndo(rest);
    ElementUndo(r6);
    ElementUndo(r5);
    SmallUndo(r4);
    SmallUndo(r3);
    SmallUndo(r2);
    SmallUndo(PutKey(x.name, r2));
    hide Word, PutU8, PutU16, ReadKey, PutKey, PutWord;
  }

  // ---------------------------------------------------------------- steadiness of the elements

  lemma SmallSteady(more: seq<byte>)
    ensures forall s: In {:trigger ReadKey(Plus(s, more))} :: ReadKey(s).Value? && ReadKey(s).next.good ==>
              ReadKey(Plus(s, more)) == Value(ReadKey(s).value, Plus(ReadKey(s).next, more))
    ensures forall s: In {:trigger ReadKey(s)} :: ReadKey(s).Value? && ReadKey(s).next.good ==> s.good
  {
    BytesFacts();
    hide Bytes;
  }

  lemma SmallTablesSteady(s: In, more: seq<byte>)
    ensures ReadArrayType(s).next.good ==> s.good
    ensures ReadArrayType(s).next.good ==>
              ReadArrayType(Plus(s, more)) == Value(ReadArrayType(s).value, Plus(ReadArrayType(s).next, more))
    ensures ReadEnumMethod(s).next.good ==> s.good
    ensures ReadEnumMethod(s).next.good ==>
              ReadEnumMethod(Plus(s, more)) == Value(ReadEnumMethod(s).value, Plus(ReadEnumMethod(s).next, more))
  {
    ElementSteady(more);
    hide Word, Plus;
  }

  lemma SlotSteady(s: In, more: seq<byte>)
    requires ReadSlot(s).Value? && ReadSlot(s).next.good
    ensures s.good && ReadSlot(Plus(s, more)) == Value(ReadSlot(s).value, Plus(ReadSlot(s).next, more))
  {
    ElementSteady(more);
    TypeDescSteady();
    hide Word, Plus, ReadName, ReadTypeDesc;
  }

  lemma ImportSteady(withOwner: bool, s: In, more: seq<byte>)
    requires ReadImport(withOwner, s).Value? && ReadImport(withOwner, s).next.good
    ensures s.good
    ensures ReadImport(withOwner, Plus(s, more)) == Value(ReadImport(withOwner, s).value,
              Plus(ReadImport(withOwner, s).next, more))
  {
    ElementSteady(more);
    SmallSteady(more);
    hide Word, Plus, ReadKey;
  }

  lemma TablesSteady()
    ensures Steady(ReadArrayType) && Steady(ReadEnumMethod) && Steady(ReadSlot) && Steady(ReadOwned)
              && Steady(ReadUnowned)
  {
    hide ReadArrayType, ReadEnumMethod, ReadSlot, ReadImport, Plus;
    forall s: In, more: seq<byte>
      ensures ReadArrayType(s).Value? && ReadArrayType(s).next.good ==>
                ReadArrayType(Plus(s, more)) == Value(ReadArrayType(s).value, Plus(ReadArrayType(s).next, more))
      ensures ReadEnumMethod(s).Value? && ReadEnumMethod(s).next.good ==>
                ReadEnumMethod(Plus(s, more)) == Value(ReadEnumMethod(s).value, Plus(ReadEnumMethod(s).next, more))
      ensures ReadSlot(s).Value? && ReadSlot(s).next.good ==>
                ReadSlot(Plus(s, more)) == Value(ReadSlot(s).value, Plus(ReadSlot(s).next, more))
      ensures ReadOwned(s).Value? && ReadOwned(s).next.good ==>
                ReadOwned(Plus(s, more)) == Value(ReadOwned(s).value, Plus(ReadOwned(s).next, more))
      ensures ReadUnowned(s).Value? && ReadUnowned(s).next.good ==>
                ReadUnowned(Plus(s, more)) == Value(ReadUnowned(s).value, Plus(ReadUnowned(s).next, more))
    {
      AllSteadyAt(s, more);
    }
    forall s: In
      ensures ReadArrayType(s).Value? && ReadArrayType(s).next.good ==> s.good
      ensures ReadEnumMethod(s).Value? && ReadEnumMethod(s).next.good ==> s.good
      ensures ReadSlot(s).Value? && ReadSlot(s).next.good ==> s.good
      ensures ReadOwned(s).Value? && ReadOwned(s).next.good ==> s.good
      ensures ReadUnowned(s).Value? && ReadUnowned(s).next.good ==> s.good
    {
      AllSteadyAt(s, []);
    }
  }

  lemma AllSteadyAt(s: In, more: seq<byte>)
    ensures ReadArrayType(s).Value? && ReadArrayType(s).next.good ==>
              s.good && ReadArrayType(Plus(s, more)) == Value(ReadArrayType(s).value, Plus(ReadArrayType(s).next, more))
    ensures ReadEnumMethod(s).Value? && ReadEnumMethod(s).next.good ==>
              s.good && ReadEnumMethod(Plus(s, more)) == Value(ReadEnumMethod(s).value,
                  Plus(ReadEnumMethod(s).next, more))
    ensures ReadSlot(s).Value? && ReadSlot(s).next.good ==>
              s.good && ReadSlot(Plus(s, more)) == Value(ReadSlot(s).value, Plus(ReadSlot(s).next, more))
    ensures ReadOwned(s).Value? && ReadOwned(s).next.good ==>
              s.good && ReadOwned(Plus(s, more)) == Value(ReadOwned(s).value, Plus(ReadOwned(s).next, more))
    ensures ReadUnowned(s).Value? && ReadUnowned(s).next.good ==>
              s.good && ReadUnowned(Plus(s, more)) == Value(ReadUnowned(s).value, Plus(ReadUnowned(s).next, more))
  {
    hide ReadArrayType, ReadEnumMethod, ReadSlot, ReadImport, Plus;
    SmallTablesSteady(s, more);
    if ReadSlot(s).Value? && ReadSlot(s).next.good {
      SlotSteady(s, more);
    }
    if ReadOwned(s).Value? && ReadOwned(s).next.good {
      ImportSteady(true, s, more);
    }
    if ReadUnowned(s).Value? && ReadUnowned(s).next.good {
      ImportSteady(false, s, more);
    }
  }

  lemma EnumsSteady(s: In, more: seq<byte>)
    requires ReadEnums(s).Value? && ReadEnums(s).next.good
    ensures s.good && ReadEnums(Plus(s, more)) == Value(ReadEnums(s).value, Plus(ReadEnums(s).next, more))
  {
    ElementFacts();
    NestedSteady();
    TableFacts(ReadNames);
    TableFacts(ReadKey);
    TableFacts(ReadEnumMethods);
    assert Plus(ReadEnums(s).next, more).good == ReadEnums(s).next.good;
    hide ReadTable, All, Plus, Steady, Undoes;
  }

  lemma NestedSteady()
    ensures Steady(ReadNames) && Steady(ReadEnumMethods)
  {
    ElementFacts();
    TablesSteady();
    TableFacts(ReadName);
    TableFacts(ReadEnumMethod);
    hide ReadTable, All, Plus, Undoes;
  }

  // ---------------------------------------------------------------- the image

  /** How many functions and structs the earlier tables hold. */
  datatype Earlier = Earlier(functions: nat, structs: nat)

  /** The five import sections. */
  datatype Imports = Imports(functions: seq<Import>, classes: seq<Import>, structs: seq<Import>, enums: seq<Import>,
                             slots: seq<Import>)

  function PutImports(i: Imports, rest: seq<byte>): seq<byte> {
    PutTable(PutOwned, 4, i.functions, PutTable(PutUnowned, 4, i.classes, PutTable(PutUnowned, 4, i.structs,
      PutTable(PutUnowned, 4, i.enums, PutTable(PutOwned, 4, i.slots, rest)))))
  }

  function ReadImports(s: In): Read<Imports> {
    match ReadTable(ReadOwned, 4, CAP24, s) case Thrown => Thrown case Value(functions, s1) =>
    match ReadTable(ReadUnowned, 4, CAP24, s1) case Thrown => Thrown case Value(classes, s2) =>
    match ReadTable(ReadUnowned, 4, CAP24, s2) case Thrown => Thrown case Value(structs, s3) =>
    match ReadTable(ReadUnowned, 4, CAP24, s3) case Thrown => Thrown case Value(enums, s4) =>
    match ReadTable(ReadOwned, 4, CAP24, s4) case Thrown => Thrown case Value(slots, s5) =>
      if !s5.good then Thrown else Value(Imports(functions, classes, structs, enums, slots), s5)
  }

  predicate SectionFits(withOwner: bool, xs: seq<Import>) {
    |xs| <= CAP24 && forall k :: 0 <= k < |xs| ==> ImportFits(withOwner, xs[k])
  }

  predicate ImportsFit(i: Imports) {
    SectionFits(true, i.functions) && SectionFits(false, i.classes) && SectionFits(false, i.structs)
    && SectionFits(false, i.enums) && SectionFits(true, i.slots)
  }

  datatype Tables = Tables(classes: seq<Class>, arrayTypes: seq<ArrayType>, enums: Enums, slots: seq<StaticSlot>,
                           imports: Imports)

  function PutTables(t: Tables, rest: seq<byte>): seq<byte> {
    PutTable(PutClass, 4, t.classes, PutTable(PutArrayType, 4, t.arrayTypes, PutEnums(t.enums,
      PutTable(PutSlot, 4, t.slots, PutImports(t.imports, rest)))))
  }

  /** Imports are the tails of their tables. */
  predicate ImportsWithin(e: Earlier, t: Tables) {
    && |t.imports.functions| <= e.functions && |t.imports.classes| <= |t.classes| && |t.imports.structs| <= e.structs
    && |t.imports.enums| <= |t.enums.names| && |t.imports.slots| <= |t.slots|
  }

  /** What the writer emits; it refuses enum tables that are not parallel. */
  function Write(t: Tables): Option<seq<byte>> {
    if |t.enums.keys| != |t.enums.names| || |t.enums.methods| != |t.enums.names| then None
    else Some(PutTables(t, []))
  }

  /** Every static field that was not folded names a slot of the module. */
  predicate SlotsInRange(classes: seq<Class>, slots: nat) {
    forall c, k :: 0 <= c < |classes| && 0 <= k < |classes[c].statics| ==>
      classes[c].statics[k].slotIdx == NO_INDEX || classes[c].statics[k].slotIdx < slots
  }

  function Links(classes: seq<Class>): (r: seq<int>)
    ensures |r| == |classes| && forall k :: 0 <= k < |r| ==> r[k] == classes[k].superClassIdx
  {
    seq(|classes|, k requires 0 <= k < |classes| => classes[k].superClassIdx)
  }

  predicate ChainsEnd(links: seq<int>) {
    forall i :: 0 <= i < |links| ==> SuperChains.EndsWithin(links, links[i], |links|)
  }

  function ReadTables(e: Earlier, s: In): Read<Tables> {
    match ReadTable((s': In) => ReadClass(e.functions, s'), 4, CAP24, s)
    case Thrown => Thrown
    case Value(classes, s1) =>
    if !ChainsEnd(Links(classes)) || !DescsInRange(classes, e.structs) then Thrown else
    match ReadTable(ReadArrayType, 4, CAP24, s1) case Thrown => Thrown case Value(arrayTypes, s2) =>
    match ReadEnums(s2) case Thrown => Thrown case Value(enums, s3) =>
    match ReadTable(ReadSlot, 4, CAP20, s3) case Thrown => Thrown case Value(slots, s4) =>
    if !SlotsInRange(classes, |slots|) then Thrown else
    match ReadImports(s4) case Thrown => Thrown case Value(imports, s5) =>
    var t := Tables(classes, arrayTypes, enums, slots, imports);
    if ImportsWithin(e, t) then Value(t, s5) else Thrown
  }

  /** What the compiler hands to the writer: within the loader's caps, with its vectors parallel. */
  predicate TablesFit(e: Earlier, t: Tables) {
    && |t.classes| <= CAP24 && (forall k :: 0 <= k < |t.classes| ==> ClassFits(t.classes[k], e.functions))
    && ChainsEnd(Links(t.classes)) && DescsInRange(t.classes, e.structs)
    && |t.arrayTypes| <= CAP24 && (forall k :: 0 <= k < |t.arrayTypes| ==> ArrayTypeFits(t.arrayTypes[k]))
    && EnumsFit(t.enums)
    && |t.slots| <= CAP20 && (forall k :: 0 <= k < |t.slots| ==> SlotFits(t.slots[k]))
         && SlotsInRange(t.classes, |t.slots|)
    && ImportsFit(t.imports) && ImportsWithin(e, t)
  }

  lemma SectionUndo(withOwner: bool, xs: seq<Import>, rest: seq<byte>)
    requires SectionFits(withOwner, xs)
    ensures withOwner ==>
              ReadTable(ReadOwned, 4, CAP24, In(PutTable(PutOwned, 4, xs, rest), true)) == Value(xs, In(rest, true))
    ensures !withOwner ==>
              ReadTable(ReadUnowned, 4, CAP24, In(PutTable(PutUnowned, 4, xs, rest), true)) == Value(xs, In(rest, true))
  {
    ElementFacts();
    hide ReadTable, PutTable, Steady, ReadImport, PutImport, ImportFits;
    if withOwner {
      forall k, r: seq<byte> | 0 <= k < |xs|
        ensures ReadOwned(In(PutOwned(xs[k], r), true)) == Value(xs[k], In(r, true))
      {
        ImportUndo(true, xs[k], r);
      }
      ListUndoes(ReadOwned, PutOwned, xs);
    } else {
      forall k, r: seq<byte> | 0 <= k < |xs|
        ensures ReadUnowned(In(PutUnowned(xs[k], r), true)) == Value(xs[k], In(r, true))
      {
        ImportUndo(false, xs[k], r);
      }
      ListUndoes(ReadUnowned, PutUnowned, xs);
    }
  }

  lemma ImportsUndo(i: Imports, rest: seq<byte>)
    requires ImportsFit(i)
    ensures ReadImports(In(PutImports(i, rest), true)) == Value(i, In(rest, true))
  {
    hide ReadTable, PutTable, SectionFits;
    var r4 := PutTable(PutOwned, 4, i.slots, rest);
    var r3 := PutTable(PutUnowned, 4, i.enums, r4);
    var r2 := PutTable(PutUnowned, 4, i.structs, r3);
    SectionUndo(true, i.slots, rest);
    SectionUndo(false, i.enums, r4);
    SectionUndo(false, i.structs, r3);
    SectionUndo(false, i.classes, r2);
    SectionUndo(true, i.functions, PutTable(PutUnowned, 4, i.classes, r2));
  }

  lemma ImportsSteady(s: In, more: seq<byte>)
    requires ReadImports(s).Value? && ReadImports(s).next.good
    ensures s.good && ReadImports(Plus(s, more)) == Value(ReadImports(s).value, Plus(ReadImports(s).next, more))
  {
    TablesSteady();
    TableFacts(ReadOwned);
    TableFacts(ReadUnowned);
    assert Plus(ReadImports(s).next, more).good == ReadImports(s).next.good;
    hide ReadTable, Plus, Steady, All;
  }

  lemma ClassTableUndoes(e: Earlier, classes: seq<Class>, rest: seq<byte>)
    requires |classes| <= CAP24 && forall k :: 0 <= k < |classes| ==> ClassFits(classes[k], e.functions)
    ensures ReadTable((s': In) => ReadClass(e.functions, s'), 4, CAP24, In(PutTable(PutClass, 4, classes, rest), true))
            == Value(classes, In(rest, true))
  {
    var read := (s': In) => ReadClass(e.functions, s');
    ElementFacts();
    hide ReadTable, PutTable, Steady, ReadClass, PutClass, ClassFits;
    forall k, r: seq<byte> | 0 <= k < |classes|
      ensures read(In(PutClass(classes[k], r), true)) == Value(classes[k], In(r, true))
    {
      ClassUndo(classes[k], e.functions, r);
    }
    ListUndoes(read, PutClass, classes);
  }

  lemma OtherTablesUndo(arrayTypes: seq<ArrayType>, slots: seq<StaticSlot>, rest: seq<byte>)
    ensures |arrayTypes| <= CAP24 && (forall k :: 0 <= k < |arrayTypes| ==> ArrayTypeFits(arrayTypes[k])) ==>
              ReadTable(ReadArrayType, 4, CAP24, In(PutTable(PutArrayType, 4, arrayTypes, rest), true))
              == Value(arrayTypes, In(rest, true))
    ensures |slots| <= CAP20 && (forall k :: 0 <= k < |slots| ==> SlotFits(slots[k])) ==>
              ReadTable(ReadSlot, 4, CAP20, In(PutTable(PutSlot, 4, slots, rest), true)) == Value(slots, In(rest, true))
  {
    ElementFacts();
    hide ReadTable, PutTable, Steady, Undoes, ArrayTypeFits, SlotFits;
    if forall k :: 0 <= k < |arrayTypes| ==> ArrayTypeFits(arrayTypes[k]) {
      forall k | 0 <= k < |arrayTypes|
        ensures Undoes(ReadArrayType, PutArrayType, arrayTypes[k])
      {
        ArrayTypeUndoes(arrayTypes[k]);
      }
      ListUndoes(ReadArrayType, PutArrayType, arrayTypes);
    }
    if forall k :: 0 <= k < |slots| ==> SlotFits(slots[k]) {
      forall k | 0 <= k < |slots|
        ensures Undoes(ReadSlot, PutSlot, slots[k])
      {
        SlotUndoes(slots[k]);
      }
      ListUndoes(ReadSlot, PutSlot, slots);
    }
  }

  /** Reading what was written gives back the same tables, and exactly what followed them. */
  lemma TablesUndo(e: Earlier, t: Tables, rest: seq<byte>)
    requires TablesFit(e, t)
    ensures ReadTables(e, In(PutTables(t, rest), true)) == Value(t, In(rest, true))
  {
    var r4 := PutImports(t.imports, rest);
    var r3 := PutTable(PutSlot, 4, t.slots, r4);
    var r2 := PutEnums(t.enums, r3);
    hide ReadTable, PutTable, ReadEnums, PutEnums, ReadImports, PutImports, EnumsFit, ImportsFit, ClassFits,
        ArrayTypeFits,
      SlotFits, ChainsEnd, DescsInRange, SlotsInRange, ImportsWithin, Links;
    ClassTableUndoes(e, t.classes, PutTable(PutArrayType, 4, t.arrayTypes, r2));
    OtherTablesUndo(t.arrayTypes, [], r2);
    EnumsUndo(t.enums, r3);
    OtherTablesUndo([], t.slots, r4);
    ImportsUndo(t.imports, rest);
  }

  lemma TablesAreSteady(e: Earlier, s: In, more: seq<byte>)
    requires ReadTables(e, s).Value?
    ensures ReadTables(e, Plus(s, more)) == Value(ReadTables(e, s).value, Plus(ReadTables(e, s).next, more))
  {
    TablesSteady();
    ClassSteady(e.functions);
    TableFacts((s': In) => ReadClass(e.functions, s'));
    TableFacts(ReadArrayType);
    TableFacts(ReadSlot);
    var s1 := ReadTable((s': In) => ReadClass(e.functions, s'), 4, CAP24, s).next;
    var s2 := ReadTable(ReadArrayType, 4, CAP24, s1).next;
    var s4 := ReadTable(ReadSlot, 4, CAP20, ReadEnums(s2).next).next;
    if ReadEnums(s2).Value? && ReadEnums(s2).next.good {
      EnumsSteady(s2, more);
    }
    if ReadImports(s4).Value? && ReadImports(s4).next.good {
      ImportsSteady(s4, more);
    }
    hide ReadTable, ReadEnums, ReadImports, Plus, Steady, ChainsEnd, DescsInRange, SlotsInRange,
        ImportsWithin, Links, All;
  }

  lemma PlusRest(a: seq<byte>, b: seq<byte>)
    ensures Plus(In(a, true), b) == In(a + b, true)
  {
  }

  /** An image of fitting tables is written, and loads back to the same tables with no bytes left. */
  lemma ImageRoundTrips(e: Earlier, t: Tables)
    requires TablesFit(e, t)
    ensures Write(t).Some? && ReadTables(e, In(Write(t).value, true)) == Value(t, In([], true))
  {
    TablesUndo(e, t, []);
  }

  /** No strict prefix of a written image loads. */
  lemma NoPrefixLoads(e: Earlier, t: Tables, cut: nat)
    requires TablesFit(e, t) && Write(t).Some? && cut < |Write(t).value|
    ensures ReadTables(e, In(Write(t).value[..cut], true)) == Thrown
  {
    hide *;
    var image := Write(t).value;
    ImageRoundTrips(e, t);
    if ReadTables(e, In(image[..cut], true)).Value? {
      TablesAreSteady(e, In(image[..cut], true), image[cut..]);
      PlusRest(image[..cut], image[cut..]);
      assert image[..cut] + image[cut..] == image;
      NotEmptied(ReadTables(e, In(image[..cut], true)).next, image[cut..]);
    }
  }

  lemma NotEmptied(s: In, more: seq<byte>)
    requires more != []
    ensures Plus(s, more) != In([], true)
  {
  }
}
