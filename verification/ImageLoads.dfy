/** The tables of a written image against the loader's limits, and the result: a held image loads, to
    the tables it was written from, exactly when it is within every limit, and is refused otherwise. */
module ImageLoads {
  import opened Wrappers
  import opened Bytecode
  import opened Wire
  import opened TypeDescs
  import opened Image
  import opened ImageBounds
  import SuperChains

  // ---------------------------------------------------------------- array types

  predicate HeldArrayType(a: ArrayType) { a.elemKind < 256 && a.elemTypeIdx < 65536 && a.rank < 256 }

  lemma ArrayTypesExact(xs: seq<ArrayType>, rest: seq<byte>)
    requires |xs| < 0x1_0000_0000 && forall k :: 0 <= k < |xs| ==> HeldArrayType(xs[k])
    ensures ReadTable(ReadArrayType, 4, CAP24, In(PutTable(PutArrayType, 4, xs, rest), true))
            == if |xs| <= 16777216 then Value(xs, In(rest, true)) else Thrown
  {
    Widths();
    hide ReadTable, PutTable, Exact, Undoes;
    forall k | 0 <= k < |xs|
      ensures Exact(ReadArrayType, PutArrayType, xs[k], true)
    {
      ArrayTypeUndoes(xs[k]);
      UndoesIsExact(ReadArrayType, PutArrayType, xs[k]);
    }
    TableExact(ReadArrayType, PutArrayType, 4, CAP24, xs, (a: ArrayType) => true, rest);
    assert AllOk(xs, (a: ArrayType) => true);
  }

  lemma UndoesIsExact<T(!new)>(read: In -> Read<T>, put: (T, seq<byte>) -> seq<byte>, x: T)
    requires Undoes(read, put, x)
    ensures Exact(read, put, x, true)
  {
  }

  // ---------------------------------------------------------------- enums

  predicate HeldEnumMethod(m: EnumMethod) { m.index < 65536 && m.access < 256 }

  predicate HeldEnums(e: Enums) {
    && |e.names| == |e.keys| == |e.methods| < 0x1_0000_0000
    && (forall k :: 0 <= k < |e.names| ==> |e.names[k]| < 0x1_0000_0000 && HeldNames(e.names[k]))
    && (forall k :: 0 <= k < |e.keys| ==> |e.keys[k]| < 65536)
    && (forall k :: 0 <= k < |e.methods| ==>
          |e.methods[k]| < 0x1_0000_0000 && forall j :: 0 <= j < |e.methods[k]| ==> HeldEnumMethod(e.methods[k][j]))
  }

  ghost predicate EnumNamesOk(names: seq<Name>) { |names| <= 16777216 && AllOk(names, NameOk) }

  predicate EnumMethodsOk(ms: seq<EnumMethod>) { |ms| <= 1048576 }

  /** Up to sixteen million enums and names in each, up to a million methods in each. */
  ghost predicate EnumsOk(e: Enums) {
    && |e.names| <= 16777216
    && (forall k :: 0 <= k < |e.names| ==> EnumNamesOk(e.names[k]))
    && AllOk(e.methods, EnumMethodsOk)
  }

  lemma EnumNamesExact(names: seq<Name>)
    requires |names| < 0x1_0000_0000 && HeldNames(names)
    ensures Exact(ReadNames, PutNames, names, EnumNamesOk(names))
  {
    Widths();
    forall k | 0 <= k < |names| ensures Exact(ReadName, PutName, names[k], NameOk(names[k])) { NameExact(names[k]); }
    hide ReadTable, PutTable, Exact;
    forall rest: seq<byte>
      ensures ReadNames(In(PutNames(names, rest), true))
              == if EnumNamesOk(names) then Value(names, In(rest, true)) else Thrown
    {
      TableExact(ReadName, PutName, 4, CAP24, names, NameOk, rest);
    }
    ExactHolds(ReadNames, PutNames, names, EnumNamesOk(names));
  }

  lemma ExactHolds<T(!new)>(read: In -> Read<T>, put: (T, seq<byte>) -> seq<byte>, x: T, ok: bool)
    requires forall rest :: read(In(put(x, rest), true)) == if ok then Value(x, In(rest, true)) else Thrown
    ensures Exact(read, put, x, ok)
  {
  }

  lemma EnumMethodsExact(ms: seq<EnumMethod>)
    requires |ms| < 0x1_0000_0000 && forall j :: 0 <= j < |ms| ==> HeldEnumMethod(ms[j])
    ensures Exact(ReadEnumMethods, PutEnumMethods, ms, EnumMethodsOk(ms))
  {
    Widths();
    hide ReadTable, PutTable, Exact, Undoes, ReadEnumMethod, PutEnumMethod;
    forall k | 0 <= k < |ms|
      ensures Exact(ReadEnumMethod, PutEnumMethod, ms[k], true)
    {
      EnumMethodUndoes(ms[k]);
      UndoesIsExact(ReadEnumMethod, PutEnumMethod, ms[k]);
    }
    forall rest: seq<byte>
      ensures ReadEnumMethods(In(PutEnumMethods(ms, rest), true))
              == if EnumMethodsOk(ms) then Value(ms, In(rest, true)) else Thrown
    {
      TableExact(ReadEnumMethod, PutEnumMethod, 4, CAP20, ms, (m: EnumMethod) => true, rest);
      assert AllOk(ms, (m: EnumMethod) => true);
    }
    ExactHolds(ReadEnumMethods, PutEnumMethods, ms, EnumMethodsOk(ms));
  }

  lemma NamesTableExact(names: seq<seq<Name>>, rest: seq<byte>)
    requires |names| < 0x1_0000_0000
    requires forall k :: 0 <= k < |names| ==> |names[k]| < 0x1_0000_0000 && HeldNames(names[k])
    ensures ReadTable(ReadNames, 4, CAP24, In(PutTable(PutNames, 4, names, rest), true))
            == if |names| <= 16777216 && (forall k :: 0 <= k < |names| ==> EnumNamesOk(names[k]))
               then Value(names, In(rest, true)) else Thrown
  {
    Widths();
    hide ReadTable, PutTable, Exact, HeldNames, EnumNamesOk;
    var ok: seq<Name> -> bool := n => |n| <= 16777216 && forall k :: 0 <= k < |n| ==> NameOk(n[k]);
    forall k | 0 <= k < |names|
      ensures Exact(ReadNames, PutNames, names[k], ok(names[k])) && ok(names[k]) == EnumNamesOk(names[k])
    {
      EnumNamesExact(names[k]);
      EnumNamesMeans(names[k]);
    }
    TableExact(ReadNames, PutNames, 4, CAP24, names, ok, rest);
  }

  lemma EnumNamesMeans(names: seq<Name>)
    ensures EnumNamesOk(names) == (|names| <= 16777216 && forall k :: 0 <= k < |names| ==> NameOk(names[k]))
  {
  }

  lemma KeysExact(keys: seq<Name>, rest: seq<byte>)
    requires forall k :: 0 <= k < |keys| ==> |keys[k]| < 65536
    ensures All(ReadKey, |keys|, In(PutAll(PutKey, keys, rest), true)) == Value(keys, In(rest, true))
  {
    hide All, PutAll, Exact;
    forall k | 0 <= k < |keys| ensures Exact(ReadKey, PutKey, keys[k], true) { KeyExact(keys[k]); }
    AllExact(ReadKey, PutKey, keys, (n: Name) => true, rest);
    assert AllOk(keys, (n: Name) => true);
  }

  lemma MethodTablesExact(methods: seq<seq<EnumMethod>>, rest: seq<byte>)
    requires forall k :: 0 <= k < |methods| ==>
               |methods[k]| < 0x1_0000_0000 && forall j :: 0 <= j < |methods[k]| ==> HeldEnumMethod(methods[k][j])
    ensures All(ReadEnumMethods, |methods|, In(PutAll(PutEnumMethods, methods, rest), true))
            == if AllOk(methods, EnumMethodsOk) then Value(methods, In(rest, true)) else Thrown
  {
    hide All, PutAll, Exact, HeldEnumMethod;
    forall k | 0 <= k < |methods|
      ensures Exact(ReadEnumMethods, PutEnumMethods, methods[k], EnumMethodsOk(methods[k]))
    {
      EnumMethodsExact(methods[k]);
    }
    AllExact(ReadEnumMethods, PutEnumMethods, methods, EnumMethodsOk, rest);
  }

  lemma EnumsExact(e: Enums, rest: seq<byte>)
    requires HeldEnums(e)
    ensures ReadEnums(In(PutEnums(e, rest), true)) == if EnumsOk(e) then Value(e, In(rest, true)) else Thrown
  {
    var r2 := PutAll(PutEnumMethods, e.methods, rest);
    MethodTablesExact(e.methods, rest);
    KeysExact(e.keys, r2);
    NamesTableExact(e.names, PutAll(PutKey, e.keys, r2));
    hide ReadTable, PutTable, All, PutAll, AllOk, EnumNamesOk;
  }

  // ---------------------------------------------------------------- static slots

  predicate HeldSlot(x: StaticSlot) {
    && |x.name| < 0x1_0000_0000 && |x.ownerKey| < 0x1_0000_0000
    && x.ownerKind < 256 && x.isRuntimeConst < 256 && x.hasInitializer < 256 && HeldDesc(x.slotType)
  }

  predicate SlotOk(x: StaticSlot) {
    && NameOk(x.name) && NameOk(x.ownerKey) && x.ownerKind <= 2 && x.isRuntimeConst <= 1 && x.hasInitializer <= 1
    && TypeOk(x.slotType)
  }

  lemma SlotExact(x: StaticSlot)
    requires HeldSlot(x)
    ensures Exact(ReadSlot, PutSlot, x, SlotOk(x))
  {
    forall rest: seq<byte>
      ensures ReadSlot(In(PutSlot(x, rest), true)) == if SlotOk(x) then Value(x, In(rest, true)) else Thrown
    {
      var r5 := PutTypeDesc(x.slotType, rest);
      var r4 := PutU8(x.hasInitializer, r5);
      var r3 := PutU8(x.isRuntimeConst, r4);
      var r2 := PutU8(x.ownerKind, r3);
      NameExact(x.name);
      NameExact(x.ownerKey);
      TypeDescExact(x.slotType);
      ElementUndo(r5);
      ElementUndo(r4);
      ElementUndo(r3);
      hide Word, PutU8, ReadName, PutName, ReadTypeDesc, PutTypeDesc, NameOk, TypeOk, HeldDesc;
      assert ReadName(In(PutName(x.ownerKey, r2), true))
          == if NameOk(x.ownerKey) then Value(x.ownerKey, In(r2, true)) else Thrown;
    }
  }

  lemma SlotsExact(xs: seq<StaticSlot>, rest: seq<byte>)
    requires |xs| < 0x1_0000_0000 && forall k :: 0 <= k < |xs| ==> HeldSlot(xs[k])
    ensures ReadTable(ReadSlot, 4, CAP20, In(PutTable(PutSlot, 4, xs, rest), true))
            == if |xs| <= 1048576 && AllOk(xs, SlotOk) then Value(xs, In(rest, true)) else Thrown
  {
    Widths();
    hide ReadTable, PutTable, Exact, HeldSlot, SlotOk;
    forall k | 0 <= k < |xs| ensures Exact(ReadSlot, PutSlot, xs[k], SlotOk(xs[k])) { SlotExact(xs[k]); }
    TableExact(ReadSlot, PutSlot, 4, CAP20, xs, SlotOk, rest);
  }

  // ---------------------------------------------------------------- imports

  predicate HeldImport(withOwner: bool, x: Import) {
    && |x.modulePath| < 65536 && |x.name| < 65536 && x.paramCount < 0x1_0000_0000
    && (if withOwner then |x.ownerKey| < 65536 && x.ownerKind < 256 && x.ownerOrdinal < 65536
        else x.ownerKey == [] && !x.isStatic && x.ownerKind == 0 && x.ownerOrdinal == 0xFFFF)
  }

  predicate ImportOk(x: Import) { x.ownerKind <= 2 }

  lemma ImportExact(withOwner: bool, x: Import, rest: seq<byte>)
    requires HeldImport(withOwner, x)
    ensures ReadImport(withOwner, In(PutImport(withOwner, x, rest), true))
            == if ImportOk(x) then Value(x, In(rest, true)) else Thrown
  {
    var r6 := PutU16(x.ownerOrdinal, rest);
    var r5 := PutU8(x.ownerKind, r6);
    var r4 := PutU8(if x.isStatic then 1 else 0, r5);
    var r3 := if withOwner then PutKey(x.ownerKey, r4) else rest;
    var r2 := PutWord(4, x.paramCount, r3);
    SmallUndo(rest);
    ElementUndo(r6);
    ElementUndo(r5);
    SmallUndo(r4);
    SmallUndo(r3);
    SmallUndo(r2);
    SmallUndo(PutKey(x.name, r2));
    hide Word, PutU8, PutU16, ReadKey, PutKey, PutWord;
  }

  predicate HeldSection(withOwner: bool, xs: seq<Import>) {
    |xs| < 0x1_0000_0000 && forall k :: 0 <= k < |xs| ==> HeldImport(withOwner, xs[k])
  }

  ghost predicate SectionOk(xs: seq<Import>) {
    |xs| <= 16777216 && AllOk(xs, ImportOk)
  }

  lemma SectionExact(withOwner: bool, xs: seq<Import>, rest: seq<byte>)
    requires HeldSection(withOwner, xs)
    ensures withOwner ==>
              ReadTable(ReadOwned, 4, CAP24, In(PutTable(PutOwned, 4, xs, rest), true))
              == if SectionOk(xs) then Value(xs, In(rest, true)) else Thrown
    ensures !withOwner ==>
              ReadTable(ReadUnowned, 4, CAP24, In(PutTable(PutUnowned, 4, xs, rest), true))
              == if SectionOk(xs) then Value(xs, In(rest, true)) else Thrown
  {
    Widths();
    hide ReadTable, PutTable, ReadImport, PutImport, HeldImport, ImportOk;
    if withOwner {
      forall k, r: seq<byte> | 0 <= k < |xs|
        ensures ReadOwned(In(PutOwned(xs[k], r), true)) == if ImportOk(xs[k]) then Value(xs[k], In(r, true)) else Thrown
      {
        ImportExact(true, xs[k], r);
      }
      TableExact(ReadOwned, PutOwned, 4, CAP24, xs, ImportOk, rest);
    } else {
      forall k, r: seq<byte> | 0 <= k < |xs|
        ensures ReadUnowned(In(PutUnowned(xs[k], r), true))
                == if ImportOk(xs[k]) then Value(xs[k], In(r, true)) else Thrown
      {
        ImportExact(false, xs[k], r);
      }
      TableExact(ReadUnowned, PutUnowned, 4, CAP24, xs, ImportOk, rest);
    }
  }

  predicate HeldImports(i: Imports) {
    HeldSection(true, i.functions) && HeldSection(false, i.classes) && HeldSection(false, i.structs)
    && HeldSection(false, i.enums) && HeldSection(true, i.slots)
  }

  ghost predicate ImportsOk(i: Imports) {
    SectionOk(i.functions) && SectionOk(i.classes) && SectionOk(i.structs) && SectionOk(i.enums) && SectionOk(i.slots)
  }

  lemma ImportsExact(i: Imports, rest: seq<byte>)
    requires HeldImports(i)
    ensures ReadImports(In(PutImports(i, rest), true)) == if ImportsOk(i) then Value(i, In(rest, true)) else Thrown
  {
    hide ReadTable, PutTable, HeldSection, SectionOk;
    var r4 := PutTable(PutOwned, 4, i.slots, rest);
    var r3 := PutTable(PutUnowned, 4, i.enums, r4);
    var r2 := PutTable(PutUnowned, 4, i.structs, r3);
    SectionExact(true, i.slots, rest);
    SectionExact(false, i.enums, r4);
    SectionExact(false, i.structs, r3);
    SectionExact(false, i.classes, r2);
    SectionExact(true, i.functions, PutTable(PutUnowned, 4, i.classes, r2));
  }

  // ---------------------------------------------------------------- the image

  predicate HeldClasses(classes: seq<Class>) {
    |classes| < 0x1_0000_0000 && forall k :: 0 <= k < |classes| ==> HeldClass(classes[k])
  }

  ghost predicate ClassesOk(classes: seq<Class>, functions: nat) {
    |classes| <= 16777216 && forall k :: 0 <= k < |classes| ==> ClassOk(classes[k], functions)
  }

  lemma ClassTableExact(e: Earlier, classes: seq<Class>, rest: seq<byte>)
    requires HeldClasses(classes)
    ensures ReadTable((s': In) => ReadClass(e.functions, s'), 4, CAP24, In(PutTable(PutClass, 4, classes, rest), true))
            == if ClassesOk(classes, e.functions) then Value(classes, In(rest, true)) else Thrown
  {
    hide HeldClass, ClassOk, ReadClass, PutClass, Exact, ReadTable, PutTable;
    var read := (s': In) => ReadClass(e.functions, s');
    Widths();
    ghost var oks := (c: Class) => ClassOk(c, e.functions);
    forall k | 0 <= k < |classes|
      ensures Exact(read, PutClass, classes[k], oks(classes[k]))
    {
      forall r: seq<byte>
        ensures read(In(PutClass(classes[k], r), true))
                == if oks(classes[k]) then Value(classes[k], In(r, true)) else Thrown
      {
        ClassExact(classes[k], e.functions, r);
      }
      ExactHolds(read, PutClass, classes[k], oks(classes[k]));
    }
    TableExact(read, PutClass, 4, CAP24, classes, oks, rest);
    assert AllOk(classes, oks) <==> forall k :: 0 <= k < |classes| ==> ClassOk(classes[k], e.functions);
  }

  /** Everything has room in the field it is written to, and the vectors that share a count agree. */
  predicate Held(t: Tables) {
    && HeldClasses(t.classes)
    && |t.arrayTypes| < 0x1_0000_0000 && (forall k :: 0 <= k < |t.arrayTypes| ==> HeldArrayType(t.arrayTypes[k]))
    && HeldEnums(t.enums)
    && |t.slots| < 0x1_0000_0000 && (forall k :: 0 <= k < |t.slots| ==> HeldSlot(t.slots[k]))
    && HeldImports(t.imports)
  }

  /** A descriptor and everything nested in it. */
  ghost function Parts(td: TypeDesc): set<TypeDesc>
    decreases td
  {
    {td} + set k: nat, d | k < |td.elems| && d in Parts(td.elems[k]) :: d
  }

  /** A struct or class index that names something the module has. */
  predicate Names(d: TypeDesc, structs: nat, classes: nat) {
    (d.kind == 3 ==> d.typeIdx < structs) && (d.kind == 4 ==> d.typeIdx < classes)
  }

  lemma {:induction false} RangeOfParts(td: TypeDesc, structs: nat, classes: nat)
    ensures DescInRange(td, structs, classes) <==> forall d :: d in Parts(td) ==> Names(d, structs, classes)
    decreases td
  {
    forall k: nat | k < |td.elems|
      ensures DescInRange(td.elems[k], structs, classes)
              <==> forall d :: d in Parts(td.elems[k]) ==> Names(d, structs, classes)
    {
      RangeOfParts(td.elems[k], structs, classes);
    }
    forall k: nat, d | k < |td.elems| && d in Parts(td.elems[k])
      ensures d in Parts(td)
    {
    }
    forall d | d in Parts(td) && d != td
      ensures exists k: nat :: k < |td.elems| && d in Parts(td.elems[k])
    {
    }
    assert td in Parts(td);
  }

  /** Every field's type names structs and classes the module has. */
  ghost predicate TypesNamed(classes: seq<Class>, structs: nat) {
    forall c, k, d :: 0 <= c < |classes| && 0 <= k < |classes[c].fields.descs| && d in Parts(classes[c].fields.descs[k])
      ==> Names(d, structs, |classes|)
  }

  lemma RangeIsNamed(classes: seq<Class>, structs: nat)
    ensures DescsInRange(classes, structs) <==> TypesNamed(classes, structs)
  {
    forall c, k | 0 <= c < |classes| && 0 <= k < |classes[c].fields.descs|
      ensures DescInRange(classes[c].fields.descs[k], structs, |classes|)
              <==> forall d :: d in Parts(classes[c].fields.descs[k]) ==> Names(d, structs, |classes|)
    {
      RangeOfParts(classes[c].fields.descs[k], structs, |classes|);
    }
    hide Parts, DescInRange, Names;
  }

  /** The loader's bounded superclass walks pass exactly when the classes can be ranked. */
  lemma ChainsEndMeansRanked(links: seq<int>)
    ensures ChainsEnd(links) <==> exists heights :: SuperChains.Ranked(links, heights)
  {
    hide SuperChains.EndsWithin, SuperChains.Ends, SuperChains.Ranked;
    forall i | 0 <= i < |links|
      ensures SuperChains.EndsWithin(links, links[i], |links|) <==> SuperChains.Ends(links, links[i])
    {
      SuperChains.EndsInTableSize(links, links[i]);
    }
    SuperChains.EndsMeansRanked(links);
  }

  /** What the loader insists on: its limits, indices that name something the module has, superclass
      chains that end, and imports no more than what they import into. */
  ghost predicate Within(e: Earlier, t: Tables) {
    && ClassesOk(t.classes, e.functions)
    && |t.arrayTypes| <= 16777216
    && EnumsOk(t.enums)
    && |t.slots| <= 1048576 && AllOk(t.slots, SlotOk)
    && ImportsOk(t.imports)
    && (exists heights :: SuperChains.Ranked(Links(t.classes), heights))
    && TypesNamed(t.classes, e.structs)
    && (forall c, k :: 0 <= c < |t.classes| && 0 <= k < |t.classes[c].statics| ==>
          t.classes[c].statics[k].slotIdx == 0xFFFF || t.classes[c].statics[k].slotIdx < |t.slots|)
    && |t.imports.functions| <= e.functions && |t.imports.classes| <= |t.classes| && |t.imports.structs| <= e.structs
    && |t.imports.enums| <= |t.enums.names| && |t.imports.slots| <= |t.slots|
  }

  /** The cross-checks as the loader makes them. */
  lemma CrossChecks(e: Earlier, t: Tables)
    ensures Within(e, t) <==>
              && ClassesOk(t.classes, e.functions) && ChainsEnd(Links(t.classes)) && DescsInRange(t.classes, e.structs)
              && |t.arrayTypes| <= 16777216 && EnumsOk(t.enums)
              && |t.slots| <= 1048576 && AllOk(t.slots, SlotOk) && SlotsInRange(t.classes, |t.slots|)
              && ImportsOk(t.imports) && ImportsWithin(e, t)
  {
    hide ClassesOk, EnumsOk, ImportsOk, AllOk, ChainsEnd, DescsInRange, TypesNamed, Links, SuperChains.Ranked;
    ChainsEndMeansRanked(Links(t.classes));
    RangeIsNamed(t.classes, e.structs);
  }

  lemma TablesExact(e: Earlier, t: Tables, rest: seq<byte>)
    requires Held(t)
    ensures ReadTables(e, In(PutTables(t, rest), true)) == if Within(e, t) then Value(t, In(rest, true)) else Thrown
  {
    var r4 := PutImports(t.imports, rest);
    var r3 := PutTable(PutSlot, 4, t.slots, r4);
    var r2 := PutEnums(t.enums, r3);
    hide ReadTable, PutTable, ReadEnums, PutEnums, ReadImports, PutImports, HeldEnums, HeldImports, HeldClasses,
        HeldArrayType, HeldSlot, ClassesOk, EnumsOk, ImportsOk, AllOk, ChainsEnd, DescsInRange, SlotsInRange,
        ImportsWithin, Links, Within;
    CrossChecks(e, t);
    ClassTableExact(e, t.classes, PutTable(PutArrayType, 4, t.arrayTypes, r2));
    ArrayTypesExact(t.arrayTypes, r2);
    EnumsExact(t.enums, r3);
    SlotsExact(t.slots, r4);
    ImportsExact(t.imports, rest);
  }

  /** A written image loads if and only if it is within the limits, and then to the same tables with
      no bytes left. */
  lemma ImageLoadsIff(e: Earlier, t: Tables)
    requires Held(t)
    ensures Write(t).Some?
    ensures ReadTables(e, In(Write(t).value, true)) == if Within(e, t) then Value(t, In([], true)) else Thrown
  {
    hide Within;
    TablesExact(e, t, []);
  }

  /** The writer emits exactly the images whose enum tables are parallel. */
  lemma WriterRefusesUnevenEnums(t: Tables)
    ensures Write(t).Some? <==> |t.enums.names| == |t.enums.keys| == |t.enums.methods|
  {
  }

  // ---------------------------------------------------------------- the bounds of the round trips

  lemma {:induction false} CanonicalMeans(td: TypeDesc, depth: nat)
    ensures Canonical(td, depth) <==> Shaped(td) && DescOk(td, depth)
    decreases td
  {
    forall k | 0 <= k < |td.elems|
      ensures Canonical(td.elems[k], depth + 1) <==> Shaped(td.elems[k]) && DescOk(td.elems[k], depth + 1)
    {
      CanonicalMeans(td.elems[k], depth + 1);
    }
  }

  lemma DescFits(td: TypeDesc)
    ensures Fits(td) <==> HeldDesc(td) && TypeOk(td)
  {
    CanonicalMeans(td, 0);
    hide Canonical, Shaped, DescOk, PutDesc;
  }

  lemma FieldsFitMeans(f: Fields, count: nat)
    ensures FieldsFit(f, count) <==> HeldFields(f, count) && FieldsOk(f)
  {
    forall k | 0 <= k < |f.descs|
      ensures Fits(f.descs[k]) <==> HeldDesc(f.descs[k]) && TypeOk(f.descs[k])
    {
      DescFits(f.descs[k]);
    }
    hide Fits, HeldDesc, TypeOk;
  }

  lemma MembersFitMean(m: Methods, c: Ctors, functions: nat)
    ensures MethodsFit(m, functions) <==> HeldMethods(m) && MethodsOk(m, functions)
    ensures CtorsFit(c, functions) <==> HeldCtors(c) && CtorsOk(c, functions)
  {
  }

  lemma StaticFitsMeans(f: StaticField)
    ensures StaticFieldFits(f) <==> HeldStatic(f) && StaticOk(f)
  {
    DescFits(f.fieldType);
    Widths();
    hide Fits, HeldDesc, TypeOk, Bound;
  }

  lemma ClassFitsMeans(c: Class, functions: nat)
    ensures ClassFits(c, functions) <==> HeldClass(c) && ClassOk(c, functions)
  {
    FieldsFitMeans(c.fields, c.fieldCount);
    MembersFitMean(c.methods, c.ctors, functions);
    forall k | 0 <= k < |c.statics|
      ensures StaticFieldFits(c.statics[k]) <==> HeldStatic(c.statics[k]) && StaticOk(c.statics[k])
    {
      StaticFitsMeans(c.statics[k]);
    }
    hide FieldsFit, HeldFields, FieldsOk, MethodsFit, HeldMethods, MethodsOk, CtorsFit, HeldCtors, CtorsOk,
        StaticFieldFits, HeldStatic, StaticOk;
  }

  lemma EnumsFitMean(e: Enums)
    ensures EnumsFit(e) <==> HeldEnums(e) && EnumsOk(e)
  {
  }

  lemma SlotFitsMeans(x: StaticSlot)
    ensures SlotFits(x) <==> HeldSlot(x) && SlotOk(x)
  {
    DescFits(x.slotType);
    hide Fits, HeldDesc, TypeOk;
  }

  lemma SectionFitsMeans(withOwner: bool, xs: seq<Import>)
    ensures SectionFits(withOwner, xs) <==> HeldSection(withOwner, xs) && SectionOk(xs)
  {
  }

  /** The tables the round trips speak about are those with room for their values and within every
      limit: nothing else restricts them. */
  lemma FitsMeansWithin(e: Earlier, t: Tables)
    ensures TablesFit(e, t) <==> Held(t) && Within(e, t)
  {
    CrossChecks(e, t);
    EnumsFitMean(t.enums);
    SectionFitsMeans(true, t.imports.functions);
    SectionFitsMeans(false, t.imports.classes);
    SectionFitsMeans(false, t.imports.structs);
    SectionFitsMeans(false, t.imports.enums);
    SectionFitsMeans(true, t.imports.slots);
    forall k | 0 <= k < |t.classes|
      ensures ClassFits(t.classes[k], e.functions) <==> HeldClass(t.classes[k]) && ClassOk(t.classes[k], e.functions)
    {
      ClassFitsMeans(t.classes[k], e.functions);
    }
    forall k | 0 <= k < |t.slots|
      ensures SlotFits(t.slots[k]) <==> HeldSlot(t.slots[k]) && SlotOk(t.slots[k])
    {
      SlotFitsMeans(t.slots[k]);
    }
    hide Within, ClassFits, HeldClass, ClassOk, SlotFits, HeldSlot, SlotOk, EnumsFit, HeldEnums, EnumsOk, SectionFits,
        HeldSection, SectionOk, ChainsEnd, DescsInRange, SlotsInRange, ImportsWithin, Links;
  }
}
