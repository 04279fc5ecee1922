/** The image's bytes themselves, on one record of each kind: which field stands where, and that words
    are little-endian. Round trips alone would not notice a writer and a reader that agree on another
    layout. */
module ImageLayout {
  import opened Bytecode
  import opened Wire
  import opened TypeDescs
  import opened Image

  /** Words are little-endian. */
  lemma WordBytes(n: nat, rest: seq<byte>)
    ensures n < 256 ==> PutWord(1, n, rest) == [n as byte] + rest
    ensures n < 0x1_0000 ==> PutWord(2, n, rest) == [(n % 256) as byte, (n / 256) as byte] + rest
    ensures n < 0x1_0000_0000 ==>
              PutWord(4, n, rest)
              == [(n % 256) as byte, (n / 256 % 256) as byte, (n / 0x1_0000 % 256) as byte,
                  (n / 0x100_0000 % 256) as byte] + rest
  {
    assert forall m: nat :: PutWord(0, m, rest) == rest;
    assert PutWord(1, n / 256, rest) == [(n / 256 % 256) as byte] + rest;
    assert PutWord(1, n / 256 / 256 / 256, rest) == [(n / 256 / 256 / 256 % 256) as byte] + rest;
    assert PutWord(2, n / 256 / 256, rest)
        == [(n / 256 / 256 % 256) as byte] + PutWord(1, n / 256 / 256 / 256, rest);
    assert PutWord(3, n / 256, rest) == [(n / 256 % 256) as byte] + PutWord(2, n / 256 / 256, rest);
    assert n / 256 / 256 == n / 0x1_0000 && n / 256 / 256 / 256 == n / 0x100_0000;
  }

  /** Names carry a 32-bit length and keys a 16-bit one. */
  lemma ShortNameBytes(name: Name, rest: seq<byte>)
    requires |name| < 256
    ensures PutName(name, rest) == [|name| as byte, 0, 0, 0] + name + rest
    ensures PutKey(name, rest) == [|name| as byte, 0] + name + rest
  {
    WordBytes(|name|, name + rest);
  }

  const DICT_OF_STRUCT_AND_INTS := TypeDesc(RTK_DICT, 0xFFFF, 1, [
    TypeDesc(RTK_STRUCT, 0x0102, 1, []),
    TypeDesc(RTK_ARRAY, 0xFFFF, 2, [TypeDesc(0, 0xFFFF, 1, [])])])

  /** A dictionary from struct 0x0102 to two-dimensional int arrays, behind its length. */
  lemma DescBytes(rest: seq<byte>)
    ensures PutTypeDesc(DICT_OF_STRUCT_AND_INTS, rest) == [7, 0, 9, 3, 0x02, 0x01, 5, 0, 2] + rest
  {
    hide PutWord;
    WordBytes(0x0102, [5, 0, 2]);
    var ints := DICT_OF_STRUCT_AND_INTS.elems[1];
    assert PutDesc(ints.elems[0], [2] + []) == [0] + ([2] + []);
    assert PutDesc(ints, []) == [5, 0, 2];
    assert PutDesc(DICT_OF_STRUCT_AND_INTS.elems[0], [5, 0, 2]) == [3, 0x02, 0x01, 5, 0, 2];
    assert PutDesc(DICT_OF_STRUCT_AND_INTS, []) == [9, 3, 0x02, 0x01, 5, 0, 2];
    WordBytes(7, [9, 3, 0x02, 0x01, 5, 0, 2] + rest);
  }

  lemma One<T(!new)>(put: (T, seq<byte>) -> seq<byte>, x: T, rest: seq<byte>)
    ensures PutAll(put, [x], rest) == put(x, rest)
  {
    assert [x][1..] == [];
  }

  const INT := TypeDesc(0, 0xFFFF, 1, [])

  lemma IntBytes(rest: seq<byte>)
    ensures PutTypeDesc(INT, rest) == [1, 0, 0] + rest
  {
    assert PutDesc(INT, []) == [0];
    WordBytes(1, [0] + rest);
  }

  // ---------------------------------------------------------------- a class record

  const ONE_FIELD := Fields([[0x66]], [0x0102], [0x0304], [0x0506], [INT], [2])

  /** The field columns: names, kinds, struct and class indices, types, access. */
  lemma FieldBytes(rest: seq<byte>)
    ensures PutFields(ONE_FIELD, rest) == [1, 0, 0, 0, 0x66, 0x02, 0x01, 0x04, 0x03, 0x06, 0x05, 1, 0, 0, 2] + rest
  {
    hide PutAll, PutTypeDesc, PutWord, PutName;
    One(PutU8, 2, rest);
    WordBytes(2, rest);
    var r5 := [2] + rest;
    One(PutTypeDesc, INT, r5);
    IntBytes(r5);
    var r4 := [1, 0, 0] + r5;
    One(PutU16, 0x0506, r4);
    WordBytes(0x0506, r4);
    var r3 := [0x06, 0x05] + r4;
    One(PutU16, 0x0304, r3);
    WordBytes(0x0304, r3);
    var r2 := [0x04, 0x03] + r3;
    One(PutU16, 0x0102, r2);
    WordBytes(0x0102, r2);
    var r1 := [0x02, 0x01] + r2;
    One(PutName, [0x66], r1);
    ShortNameBytes([0x66], r1);
  }

  /** Counts before columns: function indices, access, virtuality. */
  lemma MethodBytes(rest: seq<byte>)
    ensures PutMethods(Methods([7], [3], [1]), rest) == [1, 0, 7, 0, 3, 1] + rest
    ensures PutCtors(Ctors([8], [2]), rest) == [1, 0, 8, 0, 2] + rest
  {
    hide PutAll, PutWord;
    One(PutU8, 1, rest);
    WordBytes(1, rest);
    One(PutU8, 3, [1] + rest);
    WordBytes(3, [1] + rest);
    One(PutU16, 7, [3, 1] + rest);
    WordBytes(7, [3, 1] + rest);
    WordBytes(1, [7, 0, 3, 1] + rest);
    assert [3] + ([1] + rest) == [3, 1] + rest && [7, 0] + ([3, 1] + rest) == [7, 0, 3, 1] + rest;
    One(PutU8, 2, rest);
    WordBytes(2, rest);
    One(PutU16, 8, [2] + rest);
    WordBytes(8, [2] + rest);
    WordBytes(1, [8, 0, 2] + rest);
    assert [8, 0] + ([2] + rest) == [8, 0, 2] + rest;
  }

  const FOLDED := DefaultValue(2, 0x0A, 0x0B, 0x0C, 0x0D, 0x0E, [0x78])

  /** Name, type, access, constancy, slot; a static without a slot carries its value. */
  lemma StaticBytes(rest: seq<byte>)
    ensures PutStaticField(StaticField([0x73], INT, 3, true, 5, NO_DEFAULT), rest)
            == [1, 0, 0, 0, 0x73, 1, 0, 0, 3, 1, 5, 0] + rest
    ensures PutStaticField(StaticField([0x73], INT, 3, false, 0xFFFF, FOLDED), rest)
            == [1, 0, 0, 0, 0x73, 1, 0, 0, 3, 0, 0xFF, 0xFF] + PutDefault(FOLDED, rest)
  {
    hide PutTypeDesc, PutWord, PutName, PutDefault;
    SlotHeadBytes(1, 5, rest);
    SlotHeadBytes(0, 0xFFFF, PutDefault(FOLDED, rest));
  }

  lemma SlotHeadBytes(flag: nat, slot: nat, rest: seq<byte>)
    requires flag < 256 && slot < 65536
    ensures PutName([0x73], PutTypeDesc(INT, PutU8(3, PutU8(flag, PutU16(slot, rest)))))
            == [1, 0, 0, 0, 0x73, 1, 0, 0, 3, flag as byte, (slot % 256) as byte, (slot / 256) as byte] + rest
  {
    hide PutTypeDesc, PutWord, PutName;
    WordBytes(slot, rest);
    var r3 := [(slot % 256) as byte, (slot / 256) as byte] + rest;
    WordBytes(flag, r3);
    var r2 := [flag as byte] + r3;
    WordBytes(3, r2);
    var r1 := [3] + r2;
    IntBytes(r1);
    ShortNameBytes([0x73], [1, 0, 0] + r1);
  }

  /** Tag, int, float, string index, long, double, then the expression behind its length. */
  lemma DefaultBytes(rest: seq<byte>)
    ensures PutDefault(FOLDED, rest)
            == [2, 0x0A, 0, 0, 0, 0x0B, 0, 0, 0, 0x0C, 0, 0, 0, 0x0D, 0, 0, 0, 0, 0, 0, 0,
                0x0E, 0, 0, 0, 0, 0, 0, 0, 1, 0, 0x78] + rest
  {
    hide PutWord;
    WordBytes(1, [0x78] + rest);
    var r5 := [1, 0, 0x78] + rest;
    assert [1, 0] + ([0x78] + rest) == r5;
    LongBytes(0x0E, r5);
    var r4 := [0x0E, 0, 0, 0, 0, 0, 0, 0] + r5;
    LongBytes(0x0D, r4);
    DefaultHead([0x0D, 0, 0, 0, 0, 0, 0, 0] + r4);
    assert [0x0D, 0, 0, 0, 0, 0, 0, 0] + r4
        == [0x0D, 0, 0, 0, 0, 0, 0, 0, 0x0E, 0, 0, 0, 0, 0, 0, 0, 1, 0, 0x78] + rest;
  }

  lemma DefaultHead(rest: seq<byte>)
    ensures PutWord(1, 2, PutWord(4, 0x0A, PutWord(4, 0x0B, PutWord(4, 0x0C, rest))))
            == [2, 0x0A, 0, 0, 0, 0x0B, 0, 0, 0, 0x0C, 0, 0, 0] + rest
  {
    hide PutWord;
    WordBytes(0x0C, rest);
    var r2 := [0x0C, 0, 0, 0] + rest;
    WordBytes(0x0B, r2);
    var r1 := [0x0B, 0, 0, 0] + r2;
    WordBytes(0x0A, r1);
    WordBytes(2, [0x0A, 0, 0, 0] + r1);
  }

  lemma LongBytes(n: nat, rest: seq<byte>)
    requires n < 256
    ensures PutWord(8, n, rest) == [n as byte, 0, 0, 0, 0, 0, 0, 0] + rest
  {
    ZeroBytes(3, rest);
    ZeroBytes(7, rest);
    assert PutWord(8, n, rest) == [n as byte] + PutWord(7, 0, rest);
  }

  lemma {:induction false} ZeroBytes(k: nat, rest: seq<byte>)
    ensures PutWord(k, 0, rest) == seq(k, i => 0 as byte) + rest
  {
    if k > 0 {
      ZeroBytes(k - 1, rest);
      assert seq(k, i => 0 as byte) == [0] + seq(k - 1, i => 0 as byte);
    }
  }

  const ONE_CLASS := Class([0x43], 1, -1, 1, ONE_FIELD, Methods([7], [3], [1]), Ctors([8], [2]),
                           [StaticField([0x73], INT, 3, true, 5, NO_DEFAULT)], 9)

  /** A class record: name, field count, superclass, constancy, field columns, methods, constructors,
      statics, initializer. */
  lemma ClassBytes(rest: seq<byte>)
    ensures PutClass(ONE_CLASS, rest)
            == [1, 0, 0, 0, 0x43, 1, 0, 0xFF, 0xFF, 1]
               + [1, 0, 0, 0, 0x66, 0x02, 0x01, 0x04, 0x03, 0x06, 0x05, 1, 0, 0, 2]
               + [1, 0, 7, 0, 3, 1] + [1, 0, 8, 0, 2]
               + [1, 0, 1, 0, 0, 0, 0x73, 1, 0, 0, 3, 1, 5, 0] + [9, 0] + rest
  {
    hide PutAll, PutWord, PutName, PutFields, PutMethods, PutCtors, PutStaticField;
    WordBytes(9, rest);
    var r8 := [9, 0] + rest;
    One(PutStaticField, ONE_CLASS.statics[0], r8);
    StaticBytes(r8);
    var statics := [1, 0, 0, 0, 0x73, 1, 0, 0, 3, 1, 5, 0] + r8;
    WordBytes(1, statics);
    var r7 := [1, 0] + statics;
    MethodBytes(r7);
    var r6 := [1, 0, 8, 0, 2] + r7;
    MethodBytes(r6);
    var r5 := [1, 0, 7, 0, 3, 1] + r6;
    FieldBytes(r5);
    var r4 := [1, 0, 0, 0, 0x66, 0x02, 0x01, 0x04, 0x03, 0x06, 0x05, 1, 0, 0, 2] + r5;
    ClassHead(r4);
    hide PutU16, PutU8, PutI16;
  }

  lemma ClassHead(rest: seq<byte>)
    ensures PutName([0x43], PutU16(1, PutI16(-1, PutU8(1, rest)))) == [1, 0, 0, 0, 0x43, 1, 0, 0xFF, 0xFF, 1] + rest
  {
    hide PutWord, PutName;
    WordBytes(1, rest);
    var r3 := [1] + rest;
    WordBytes(0xFFFF, r3);
    var r2 := [0xFF, 0xFF] + r3;
    WordBytes(1, r2);
    ShortNameBytes([0x43], [1, 0] + r2);
  }

  // ---------------------------------------------------------------- the other tables

  /** Array types, static slots and imports. */
  lemma SmallRecordBytes(rest: seq<byte>)
    ensures PutArrayType(ArrayType(3, 0x0102, 2), rest) == [3, 0x02, 0x01, 2] + rest
    ensures PutSlot(StaticSlot([0x61], [0x62], 2, 1, 0, INT), rest)
            == [1, 0, 0, 0, 0x61, 1, 0, 0, 0, 0x62, 2, 1, 0, 1, 0, 0] + rest
    ensures PutOwned(Import([0x61], [0x62], 3, [0x63], true, 2, 0x0102), rest)
            == [1, 0, 0x61, 1, 0, 0x62, 3, 0, 0, 0, 1, 0, 0x63, 1, 2, 0x02, 0x01] + rest
    ensures PutUnowned(Import([0x61], [0x62], 3, [], false, 0, 0xFFFF), rest)
            == [1, 0, 0x61, 1, 0, 0x62, 3, 0, 0, 0] + rest
  {
    ArrayTypeBytes(rest);
    SlotBytes(rest);
    ImportBytes(rest);
    hide PutArrayType, PutSlot, PutImport;
  }

  lemma ArrayTypeBytes(rest: seq<byte>)
    ensures PutArrayType(ArrayType(3, 0x0102, 2), rest) == [3, 0x02, 0x01, 2] + rest
  {
    hide PutWord;
    WordBytes(2, rest);
    WordBytes(0x0102, [2] + rest);
    WordBytes(3, [0x02, 0x01] + ([2] + rest));
  }

  lemma SlotBytes(rest: seq<byte>)
    ensures PutSlot(StaticSlot([0x61], [0x62], 2, 1, 0, INT), rest)
            == [1, 0, 0, 0, 0x61, 1, 0, 0, 0, 0x62, 2, 1, 0, 1, 0, 0] + rest
  {
    hide PutWord, PutTypeDesc, PutName;
    IntBytes(rest);
    var r4 := [1, 0, 0] + rest;
    WordBytes(0, r4);
    var r3 := [0] + r4;
    WordBytes(1, r3);
    var r2 := [1] + r3;
    WordBytes(2, r2);
    var r1 := [2] + r2;
    ShortNameBytes([0x62], r1);
    ShortNameBytes([0x61], [1, 0, 0, 0] + [0x62] + r1);
  }

  lemma ImportBytes(rest: seq<byte>)
    ensures PutOwned(Import([0x61], [0x62], 3, [0x63], true, 2, 0x0102), rest)
            == [1, 0, 0x61, 1, 0, 0x62, 3, 0, 0, 0, 1, 0, 0x63, 1, 2, 0x02, 0x01] + rest
    ensures PutUnowned(Import([0x61], [0x62], 3, [], false, 0, 0xFFFF), rest)
            == [1, 0, 0x61, 1, 0, 0x62, 3, 0, 0, 0] + rest
  {
    hide PutWord, PutKey;
    WordBytes(0x0102, rest);
    var r3 := [0x02, 0x01] + rest;
    WordBytes(2, r3);
    var r2 := [2] + r3;
    WordBytes(1, r2);
    var r1 := [1] + r2;
    ShortNameBytes([0x63], r1);
    KeyedBytes([1, 0] + [0x63] + r1);
    KeyedBytes(rest);
  }

  lemma KeyedBytes(rest: seq<byte>)
    ensures PutKey([0x61], PutKey([0x62], PutWord(4, 3, rest))) == [1, 0, 0x61, 1, 0, 0x62, 3, 0, 0, 0] + rest
  {
    hide PutWord, PutKey;
    WordBytes(3, rest);
    var r2 := [3, 0, 0, 0] + rest;
    ShortNameBytes([0x62], r2);
    ShortNameBytes([0x61], [1, 0] + [0x62] + r2);
  }

  const ONE_ENUM := Enums([[[0x72]]], [[0x6B]], [[EnumMethod(0x0102, 3)]])

  /** One count, then all names, all keys, all method lists. */
  lemma EnumBytes(rest: seq<byte>)
    ensures PutEnums(ONE_ENUM, rest)
            == [1, 0, 0, 0] + [1, 0, 0, 0, 1, 0, 0, 0, 0x72] + [1, 0, 0x6B] + [1, 0, 0, 0, 0x02, 0x01, 3] + rest
  {
    hide PutAll, PutWord, PutName, PutKey;
    WordBytes(3, rest);
    WordBytes(0x0102, [3] + rest);
    One(PutEnumMethod, EnumMethod(0x0102, 3), rest);
    WordBytes(1, [0x02, 0x01] + ([3] + rest));
    One(PutEnumMethods, [EnumMethod(0x0102, 3)], rest);
    var r2 := [1, 0, 0, 0] + ([0x02, 0x01] + ([3] + rest));
    One(PutKey, [0x6B], r2);
    ShortNameBytes([0x6B], r2);
    var r1 := [1, 0] + [0x6B] + r2;
    One(PutName, [0x72], r1);
    ShortNameBytes([0x72], r1);
    WordBytes(1, [1, 0, 0, 0] + [0x72] + r1);
    One(PutNames, [[0x72]], r1);
    WordBytes(1, [1, 0, 0, 0] + ([1, 0, 0, 0] + [0x72] + r1));
  }

  const ONE_OF_EACH := Tables([ONE_CLASS], [ArrayType(3, 0x0102, 2)], ONE_ENUM,
                              [StaticSlot([0x61], [0x62], 2, 1, 0, INT)],
                              Imports([Import([0x61], [0x62], 3, [0x63], true, 2, 0x0102)], [], [], [], []))

  /** The tables in order, each behind its 32-bit count: classes, array types, enums, slots, imports. */
  lemma TableBytes(rest: seq<byte>)
    ensures var imports := PutImports(ONE_OF_EACH.imports, rest);
            var slots := [1, 0, 0, 0] + PutSlot(ONE_OF_EACH.slots[0], imports);
            var arrayTypes := [1, 0, 0, 0] + PutArrayType(ONE_OF_EACH.arrayTypes[0], PutEnums(ONE_ENUM, slots));
            PutTables(ONE_OF_EACH, rest) == [1, 0, 0, 0] + PutClass(ONE_CLASS, arrayTypes)
  {
    hide PutAll, PutWord, PutSlot, PutImports, PutClass, PutEnums, PutArrayType;
    var r4 := PutImports(ONE_OF_EACH.imports, rest);
    One(PutSlot, ONE_OF_EACH.slots[0], r4);
    WordBytes(1, PutSlot(ONE_OF_EACH.slots[0], r4));
    var r2 := PutEnums(ONE_ENUM, [1, 0, 0, 0] + PutSlot(ONE_OF_EACH.slots[0], r4));
    One(PutArrayType, ONE_OF_EACH.arrayTypes[0], r2);
    WordBytes(1, PutArrayType(ONE_OF_EACH.arrayTypes[0], r2));
    var r1 := [1, 0, 0, 0] + PutArrayType(ONE_OF_EACH.arrayTypes[0], r2);
    One(PutClass, ONE_CLASS, r1);
    WordBytes(1, PutClass(ONE_CLASS, r1));
  }

  /** Imported functions, classes, structs, enums and slots, in that order; the first and the last
      carry an owner. */
  lemma ImportsBytes(f: Import, c: Import, s: Import, e: Import, l: Import, rest: seq<byte>)
    ensures var slots := [1, 0, 0, 0] + PutImport(true, l, rest);
            var enums := [1, 0, 0, 0] + PutImport(false, e, slots);
            var structs := [1, 0, 0, 0] + PutImport(false, s, enums);
            var classes := [1, 0, 0, 0] + PutImport(false, c, structs);
            PutImports(Imports([f], [c], [s], [e], [l]), rest) == [1, 0, 0, 0] + PutImport(true, f, classes)
  {
    hide PutAll, PutWord, PutImport;
    One(PutOwned, l, rest);
    WordBytes(1, PutImport(true, l, rest));
    var slots := [1, 0, 0, 0] + PutImport(true, l, rest);
    One(PutUnowned, e, slots);
    WordBytes(1, PutImport(false, e, slots));
    var enums := [1, 0, 0, 0] + PutImport(false, e, slots);
    One(PutUnowned, s, enums);
    WordBytes(1, PutImport(false, s, enums));
    var structs := [1, 0, 0, 0] + PutImport(false, s, enums);
    One(PutUnowned, c, structs);
    WordBytes(1, PutImport(false, c, structs));
    var classes := [1, 0, 0, 0] + PutImport(false, c, structs);
    One(PutOwned, f, classes);
    WordBytes(1, PutImport(true, f, classes));
  }
}
