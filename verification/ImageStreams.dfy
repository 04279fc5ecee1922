/** The class table written to and read from a stream the way the program does it: statement by
    statement, with loops over the parallel vectors, proved equal to the image's functions. */
module ImageStreams {
  import opened Wrappers
  import opened Bytecode
  import opened Wire
  import opened TypeDescs
  import opened Image

  // ---------------------------------------------------------------- writing appends

  /** The writer puts its own bytes in front and leaves what follows alone. */
  ghost predicate Prepends<T(!new)>(put: (T, seq<byte>) -> seq<byte>) {
    forall x, rest :: put(x, rest) == put(x, []) + rest
  }

  lemma {:induction false} WordPrepends(k: nat, n: nat, rest: seq<byte>)
    ensures PutWord(k, n, rest) == PutWord(k, n, []) + rest
  {
    if k > 0 {
      WordPrepends(k - 1, n / 256, rest);
    }
  }

  lemma BytesPrepend(k: nat, bs: seq<byte>, rest: seq<byte>)
    ensures PutBytes(k, bs, rest) == PutBytes(k, bs, []) + rest
  {
    WordPrepends(k, |bs|, bs + rest);
    WordPrepends(k, |bs|, bs + []);
    Associates(PutWord(k, |bs|, []), bs, rest);
    assert bs + [] == bs;
  }

  lemma Associates(a: seq<byte>, b: seq<byte>, c: seq<byte>)
    ensures a + (b + c) == a + b + c
  {
  }

  lemma {:induction false} AllPrepends<T(!new)>(put: (T, seq<byte>) -> seq<byte>, xs: seq<T>, rest: seq<byte>)
    requires Prepends(put)
    ensures PutAll(put, xs, rest) == PutAll(put, xs, []) + rest
  {
    if xs != [] {
      AllPrepends(put, xs[1..], rest);
      assert put(xs[0], PutAll(put, xs[1..], rest)) == put(xs[0], []) + PutAll(put, xs[1..], rest);
      assert put(xs[0], PutAll(put, xs[1..], [])) == put(xs[0], []) + PutAll(put, xs[1..], []);
      Associates(put(xs[0], []), PutAll(put, xs[1..], []), rest);
    }
  }

  lemma {:induction false} AllSnoc<T(!new)>(put: (T, seq<byte>) -> seq<byte>, xs: seq<T>, x: T)
    requires Prepends(put)
    ensures PutAll(put, xs + [x], []) == PutAll(put, xs, []) + put(x, [])
  {
    if xs == [] {
      assert xs + [x] == [x] && [x][1..] == [];
    } else {
      assert (xs + [x])[1..] == xs[1..] + [x] && (xs + [x])[0] == xs[0];
      AllSnoc(put, xs[1..], x);
      assert put(xs[0], PutAll(put, xs[1..] + [x], [])) == put(xs[0], []) + PutAll(put, xs[1..] + [x], []);
      assert put(xs[0], PutAll(put, xs[1..], [])) == put(xs[0], []) + PutAll(put, xs[1..], []);
      Associates(put(xs[0], []), PutAll(put, xs[1..], []), put(x, []));
    }
  }

  lemma ElementsPrepend()
    ensures Prepends(PutName) && Prepends(PutU8) && Prepends(PutU16) && Prepends(PutI16) && Prepends(PutTypeDesc)
    ensures Prepends(PutDefault)
  {
    forall k: nat, n: nat, rest: seq<byte> {:trigger PutWord(k, n, rest)}
      ensures PutWord(k, n, rest) == PutWord(k, n, []) + rest
    {
      WordPrepends(k, n, rest);
    }
    forall k: nat, bs: seq<byte>, rest: seq<byte> {:trigger PutBytes(k, bs, rest)}
      ensures PutBytes(k, bs, rest) == PutBytes(k, bs, []) + rest
    {
      BytesPrepend(k, bs, rest);
    }
    hide PutWord, PutBytes;
    forall dv: DefaultValue, rest: seq<byte>
      ensures PutDefault(dv, rest) == PutDefault(dv, []) + rest
    {
      DefaultPrepends(dv, rest);
    }
  }

  lemma DefaultPrepends(dv: DefaultValue, rest: seq<byte>)
    ensures PutDefault(dv, rest) == PutDefault(dv, []) + rest
  {
    hide PutWord, PutBytes;
    var a6, b6 := PutBytes(2, dv.exprBytes, rest), PutBytes(2, dv.exprBytes, []);
    BytesPrepend(2, dv.exprBytes, rest);
    var a5, b5 := PutWord(8, dv.doubleValue, a6), PutWord(8, dv.doubleValue, b6);
    Onward(8, dv.doubleValue, a6, b6, rest);
    var a4, b4 := PutWord(8, dv.longValue, a5), PutWord(8, dv.longValue, b5);
    Onward(8, dv.longValue, a5, b5, rest);
    var a3, b3 := PutWord(4, dv.stringIdx, a4), PutWord(4, dv.stringIdx, b4);
    Onward(4, dv.stringIdx, a4, b4, rest);
    var a2, b2 := PutWord(4, dv.floatValue, a3), PutWord(4, dv.floatValue, b3);
    Onward(4, dv.floatValue, a3, b3, rest);
    var a1, b1 := PutWord(4, dv.intValue, a2), PutWord(4, dv.intValue, b2);
    Onward(4, dv.intValue, a2, b2, rest);
    Onward(1, dv.tag, a1, b1, rest);
  }

  lemma Onward(k: nat, n: nat, a: seq<byte>, b: seq<byte>, rest: seq<byte>)
    requires a == b + rest
    ensures PutWord(k, n, a) == PutWord(k, n, b) + rest
  {
    WordPrepends(k, n, a);
    WordPrepends(k, n, b);
    Associates(PutWord(k, n, []), b, rest);
  }

  /** A put that prepends, in front of something already split. */
  lemma Further<T(!new)>(put: (T, seq<byte>) -> seq<byte>, x: T, a: seq<byte>, b: seq<byte>, rest: seq<byte>)
    requires Prepends(put) && a == b + rest
    ensures put(x, a) == put(x, b) + rest
  {
    assert put(x, a) == put(x, []) + a && put(x, b) == put(x, []) + b;
    Associates(put(x, []), b, rest);
  }

  lemma FurtherAll<T(!new)>(put: (T, seq<byte>) -> seq<byte>, xs: seq<T>, a: seq<byte>, b: seq<byte>, rest: seq<byte>)
    requires Prepends(put) && a == b + rest
    ensures PutAll(put, xs, a) == PutAll(put, xs, b) + rest
  {
    AllPrepends(put, xs, a);
    AllPrepends(put, xs, b);
    Associates(PutAll(put, xs, []), b, rest);
  }

  lemma FieldsPrepend(f: Fields, rest: seq<byte>)
    ensures PutFields(f, rest) == PutFields(f, []) + rest
  {
    ElementsPrepend();
    hide Prepends, PutName, PutU16, PutU8, PutTypeDesc, PutAll;
    assert rest == [] + rest;
    var a5, b5 := PutAll(PutU8, f.access, rest), PutAll(PutU8, f.access, []);
    var a4, b4 := PutAll(PutTypeDesc, f.descs, a5), PutAll(PutTypeDesc, f.descs, b5);
    var a3, b3 := PutAll(PutU16, f.classIndices, a4), PutAll(PutU16, f.classIndices, b4);
    var a2, b2 := PutAll(PutU16, f.structIndices, a3), PutAll(PutU16, f.structIndices, b3);
    FurtherAll(PutU8, f.access, rest, [], rest);
    FurtherAll(PutTypeDesc, f.descs, a5, b5, rest);
    FurtherAll(PutU16, f.classIndices, a4, b4, rest);
    FurtherAll(PutU16, f.structIndices, a3, b3, rest);
    FurtherAll(PutU16, f.kinds, a2, b2, rest);
    FurtherAll(PutName, f.names, PutAll(PutU16, f.kinds, a2), PutAll(PutU16, f.kinds, b2), rest);
  }

  lemma TablePrepends<T(!new)>(put: (T, seq<byte>) -> seq<byte>, k: nat, xs: seq<T>, a: seq<byte>, b: seq<byte>,
      rest: seq<byte>)
    requires Prepends(put) && a == b + rest
    ensures PutTable(put, k, xs, a) == PutTable(put, k, xs, b) + rest
  {
    FurtherAll(put, xs, a, b, rest);
    Onward(k, |xs|, PutAll(put, xs, a), PutAll(put, xs, b), rest);
  }

  lemma MembersPrepend(m: Methods, c: Ctors, rest: seq<byte>)
    ensures PutMethods(m, rest) == PutMethods(m, []) + rest
    ensures PutCtors(c, rest) == PutCtors(c, []) + rest
  {
    ElementsPrepend();
    hide Prepends, PutU16, PutU8, PutAll, PutTable;
    assert rest == [] + rest;
    FurtherAll(PutU8, m.virtuality, rest, [], rest);
    FurtherAll(PutU8, m.access, PutAll(PutU8, m.virtuality, rest), PutAll(PutU8, m.virtuality, []), rest);
    TablePrepends(PutU16, 2, m.indices, PutAll(PutU8, m.access, PutAll(PutU8, m.virtuality, rest)),
                  PutAll(PutU8, m.access, PutAll(PutU8, m.virtuality, [])), rest);
    FurtherAll(PutU8, c.access, rest, [], rest);
    TablePrepends(PutU16, 2, c.indices, PutAll(PutU8, c.access, rest), PutAll(PutU8, c.access, []), rest);
  }

  lemma StaticFieldPrepends()
    ensures Prepends(PutStaticField)
  {
    ElementsPrepend();
    forall f: StaticField, rest: seq<byte>
      ensures PutStaticField(f, rest) == PutStaticField(f, []) + rest
    {
      hide Prepends, PutName, PutTypeDesc, PutU8, PutU16, PutDefault;
      assert rest == [] + rest;
      var a5 := if f.slotIdx == NO_INDEX then PutDefault(f.folded, rest) else rest;
      var b5 := if f.slotIdx == NO_INDEX then PutDefault(f.folded, []) else [];
      Further(PutDefault, f.folded, rest, [], rest);
      var flag := if f.isConst then 1 else 0;
      var a3, b3 := PutU8(flag, PutU16(f.slotIdx, a5)), PutU8(flag, PutU16(f.slotIdx, b5));
      Further(PutU16, f.slotIdx, a5, b5, rest);
      Further(PutU8, flag, PutU16(f.slotIdx, a5), PutU16(f.slotIdx, b5), rest);
      Further(PutU8, f.access, a3, b3, rest);
      Further(PutTypeDesc, f.fieldType, PutU8(f.access, a3), PutU8(f.access, b3), rest);
      Further(PutName, f.name, PutTypeDesc(f.fieldType, PutU8(f.access, a3)),
          PutTypeDesc(f.fieldType, PutU8(f.access, b3)), rest);
    }
  }

  /** A class record is its parts, one behind the other. */
  lemma ClassAppends(c: Class, out: seq<byte>, rest: seq<byte>)
    ensures out + PutClass(c, rest)
            == out + PutName(c.name, []) + PutU16(c.fieldCount, []) + PutI16(c.superClassIdx, [])
                + PutU8(c.isConstAggregate, [])
               + PutFields(c.fields, []) + PutMethods(c.methods, []) + PutCtors(c.ctors, [])
               + PutTable(PutStaticField, 2, c.statics, []) + PutU16(c.staticInitFuncIdx, []) + rest
  {
    ElementsPrepend();
    StaticFieldPrepends();
    var r8 := PutU16(c.staticInitFuncIdx, rest);
    var r7 := PutTable(PutStaticField, 2, c.statics, r8);
    var r6 := PutCtors(c.ctors, r7);
    var r5 := PutMethods(c.methods, r6);
    var r4 := PutFields(c.fields, r5);
    var r3 := PutU8(c.isConstAggregate, r4);
    var r2 := PutI16(c.superClassIdx, r3);
    var r1 := PutU16(c.fieldCount, r2);
    assert r8 == PutU16(c.staticInitFuncIdx, []) + rest;
    assert r8 == [] + r8;
    TablePrepends(PutStaticField, 2, c.statics, r8, [], r8);
    MembersPrepend(c.methods, c.ctors, r7);
    MembersPrepend(c.methods, c.ctors, r6);
    FieldsPrepend(c.fields, r5);
    assert r3 == PutU8(c.isConstAggregate, []) + r4 && r2 == PutI16(c.superClassIdx, []) + r3;
    assert r1 == PutU16(c.fieldCount, []) + r2 && PutClass(c, rest) == PutName(c.name, []) + r1;
    Flatten9(out, PutName(c.name, []), PutU16(c.fieldCount, []), PutI16(c.superClassIdx, []),
        PutU8(c.isConstAggregate, []),
             PutFields(c.fields, []), PutMethods(c.methods, []), PutCtors(c.ctors, []),
             PutTable(PutStaticField, 2, c.statics, []), PutU16(c.staticInitFuncIdx, []), rest);
    hide *;
  }

  lemma Flatten9(o: seq<byte>, a: seq<byte>, b: seq<byte>, c: seq<byte>, d: seq<byte>, e: seq<byte>, f: seq<byte>,
                 g: seq<byte>, h: seq<byte>, i: seq<byte>, rest: seq<byte>)
    ensures o + (a + (b + (c + (d + (e + (f + (g + (h + (i + rest)))))))))
            == o + a + b + c + d + e + f + g + h + i + rest
  {
    Flatten([o, a, b, c, d, e], f + (g + (h + (i + rest))));
    Flatten([o + a + b + c + d + e, f, g, h, i, []], rest);
    assert [] + rest == rest;
    assert o + a + b + c + d + e + f + g + h + i + [] == o + a + b + c + d + e + f + g + h + i;
  }

  lemma ClassPrepends()
    ensures Prepends(PutClass)
  {
    forall c: Class, rest: seq<byte>
      ensures PutClass(c, rest) == PutClass(c, []) + rest
    {
      ClassAppends(c, [], rest);
      ClassAppends(c, [], []);
      hide *;
      assert [] + PutClass(c, rest) == PutClass(c, rest) && [] + PutClass(c, []) == PutClass(c, []);
    }
  }

  // ---------------------------------------------------------------- the writer

  class ImageWriter {
    var out: seq<byte>

    constructor ()
      ensures out == []
    {
      out := [];
    }

    /** One record after another, in order. */
    method WriteEach<T(!new)>(put: (T, seq<byte>) -> seq<byte>, xs: seq<T>)
      requires Prepends(put)
      modifies this
      ensures out == old(out) + PutAll(put, xs, [])
    {
      ghost var before := out;
      for i := 0 to |xs|
        invariant out == before + PutAll(put, xs[..i], [])
      {
        AllSnoc(put, xs[..i], xs[i]);
        assert xs[..i + 1] == xs[..i] + [xs[i]];
        Associates(before, PutAll(put, xs[..i], []), put(xs[i], []));
        out := out + put(xs[i], []);
      }
      assert xs[..|xs|] == xs;
    }

    /** The parallel field vectors, one after the other. */
    method WriteFields(f: Fields)
      modifies this
      ensures out == old(out) + PutFields(f, [])
    {
      ElementsPrepend();
      FieldsAppend(f, out);
      hide Prepends, PutName, PutU16, PutU8, PutTypeDesc, PutAll, PutFields;
      WriteEach(PutName, f.names);
      WriteEach(PutU16, f.kinds);
      WriteEach(PutU16, f.structIndices);
      WriteEach(PutU16, f.classIndices);
      WriteEach(PutTypeDesc, f.descs);
      WriteEach(PutU8, f.access);
    }

    /** A count, then the records. */
    method WriteTable<T(!new)>(put: (T, seq<byte>) -> seq<byte>, k: nat, xs: seq<T>)
      requires Prepends(put)
      modifies this
      ensures out == old(out) + PutTable(put, k, xs, [])
    {
      WordPrepends(k, |xs|, PutAll(put, xs, []));
      Associates(out, PutWord(k, |xs|, []), PutAll(put, xs, []));
      out := out + PutWord(k, |xs|, []);
      WriteEach(put, xs);
    }

    method WriteClass(c: Class)
      modifies this
      ensures out == old(out) + PutClass(c, [])
    {
      ElementsPrepend();
      StaticFieldPrepends();
      ClassAppends(c, out, []);
      MethodsAppend(c.methods, c.ctors);
      hide Prepends, PutName, PutU16, PutI16, PutU8, PutFields, PutMethods, PutCtors, PutTable, PutClass, PutAll;
      out := out + PutName(c.name, []);
      out := out + PutU16(c.fieldCount, []);
      out := out + PutI16(c.superClassIdx, []);
      out := out + PutU8(c.isConstAggregate, []);
      WriteFields(c.fields);
      ghost var atMethods := out;
      WriteTable(PutU16, 2, c.methods.indices);
      WriteEach(PutU8, c.methods.access);
      WriteEach(PutU8, c.methods.virtuality);
      Regroup(atMethods, PutTable(PutU16, 2, c.methods.indices, []), PutAll(PutU8, c.methods.access, []),
              PutAll(PutU8, c.methods.virtuality, []));
      ghost var atCtors := out;
      WriteTable(PutU16, 2, c.ctors.indices);
      WriteEach(PutU8, c.ctors.access);
      Associates(atCtors, PutTable(PutU16, 2, c.ctors.indices, []), PutAll(PutU8, c.ctors.access, []));
      WriteTable(PutStaticField, 2, c.statics);
      out := out + PutU16(c.staticInitFuncIdx, []);
    }

    /** The class table is the image function's, behind whatever was written before. */
    method WriteClassRecords(classes: seq<Class>)
      modifies this
      ensures out == old(out) + PutTable(PutClass, 4, classes, [])
    {
      ClassPrepends();
      hide PutClass, Prepends;
      ghost var before := out;
      out := out + PutWord(4, |classes|, []);
      ghost var counted := out;
      for i := 0 to |classes|
        invariant out == counted + PutAll(PutClass, classes[..i], [])
      {
        AllSnoc(PutClass, classes[..i], classes[i]);
        assert classes[..i + 1] == classes[..i] + [classes[i]];
        Associates(counted, PutAll(PutClass, classes[..i], []), PutClass(classes[i], []));
        WriteClass(classes[i]);
      }
      assert classes[..|classes|] == classes;
      WordPrepends(4, |classes|, PutAll(PutClass, classes, []));
      Associates(before, PutWord(4, |classes|, []), PutAll(PutClass, classes, []));
    }
  }

  lemma Regroup(a: seq<byte>, b: seq<byte>, c: seq<byte>, d: seq<byte>)
    ensures a + b + c + d == a + (b + c + d)
  {
  }

  lemma MethodsAppend(m: Methods, c: Ctors)
    ensures PutMethods(m, [])
            == PutTable(PutU16, 2, m.indices, []) + PutAll(PutU8, m.access, []) + PutAll(PutU8, m.virtuality, [])
    ensures PutCtors(c, []) == PutTable(PutU16, 2, c.indices, []) + PutAll(PutU8, c.access, [])
  {
    ElementsPrepend();
    hide Prepends, PutU16, PutU8, PutAll, PutTable;
    var v := PutAll(PutU8, m.virtuality, []);
    AllPrepends(PutU8, m.access, v);
    var av := PutAll(PutU8, m.access, v);
    assert av == [] + av;
    TablePrepends(PutU16, 2, m.indices, av, [], av);
    Associates(PutTable(PutU16, 2, m.indices, []), PutAll(PutU8, m.access, []), v);
    var ca := PutAll(PutU8, c.access, []);
    assert ca == [] + ca;
    TablePrepends(PutU16, 2, c.indices, ca, [], ca);
  }

  lemma FieldsAppend(f: Fields, out: seq<byte>)
    ensures out + PutFields(f, [])
            == out + PutAll(PutName, f.names, []) + PutAll(PutU16, f.kinds, []) + PutAll(PutU16, f.structIndices, [])
               + PutAll(PutU16, f.classIndices, []) + PutAll(PutTypeDesc, f.descs, []) + PutAll(PutU8, f.access, [])
  {
    ElementsPrepend();
    hide Prepends, PutName, PutU16, PutU8, PutTypeDesc, PutAll;
    var r5 := PutAll(PutU8, f.access, []);
    var r4 := PutAll(PutTypeDesc, f.descs, r5);
    var r3 := PutAll(PutU16, f.classIndices, r4);
    var r2 := PutAll(PutU16, f.structIndices, r3);
    var r1 := PutAll(PutU16, f.kinds, r2);
    AllPrepends(PutTypeDesc, f.descs, r5);
    AllPrepends(PutU16, f.classIndices, r4);
    AllPrepends(PutU16, f.structIndices, r3);
    AllPrepends(PutU16, f.kinds, r2);
    AllPrepends(PutName, f.names, r1);
    hide PutFields;
    Flatten([out, PutAll(PutName, f.names, []), PutAll(PutU16, f.kinds, []), PutAll(PutU16, f.structIndices, []),
             PutAll(PutU16, f.classIndices, []), PutAll(PutTypeDesc, f.descs, [])], r5);
  }

  lemma Flatten(p: seq<seq<byte>>, last: seq<byte>)
    requires |p| == 6
    ensures p[0] + (p[1] + (p[2] + (p[3] + (p[4] + (p[5] + last))))) == p[0] + p[1] + p[2] + p[3] + p[4] + p[5] + last
  {
    Associates(p[4], p[5], last);
    Associates(p[3], p[4] + p[5], last);
    Associates(p[3], p[4], p[5]);
  }

  // ---------------------------------------------------------------- the reader

  class ImageReader {
    var s: In

    constructor (s: In)
      ensures this.s == s
    {
      this.s := s;
    }

    /** One record after another; the first that throws ends it. */
    method ReadEach<T>(read: In -> Read<T>, n: nat) returns (r: Option<seq<T>>)
      modifies this
      ensures match All(read, n, old(s))
              case Thrown => r == None
              case Value(xs, next) => r == Some(xs) && s == next
    {
      ghost var whole := All(read, n, s);
      var xs: seq<T> := [];
      assert whole == Behind([], whole) by {
        assert whole.Value? ==> [] + whole.value == whole.value;
      }
      for i := 0 to n
        invariant whole == Behind(xs, All(read, n - i, s))
      {
        var one := read(s);
        if one.Thrown? {
          return None;
        }
        BehindStep(xs, read, n - i, s);
        xs := xs + [one.value];
        s := one.next;
      }
      assert xs + [] == xs;
      return Some(xs);
    }

    /** The whole class table: each record, then the walk over the superclass links. */
    method ReadClassRecords(functions: nat) returns (r: Option<seq<Class>>)
      modifies this
      ensures var read := ReadTable((t: In) => ReadClass(functions, t), 4, CAP24, old(s));
              match read
              case Thrown => r == None
              case Value(classes, next) =>
                if ChainsEnd(Links(classes)) then r == Some(classes) && s == next else r == None
    {
      var count := Word(s, 4);
      if !count.next.good || count.value > CAP24 {
        return None;
      }
      s := count.next;
      var classes := ReadEach((t: In) => ReadClass(functions, t), count.value);
      if classes == None {
        return None;
      }
      var ok := SuperChains.CheckSuperclassChains(Links(classes.value));
      ChainsAgree(Links(classes.value));
      hide ReadClass;
      return if ok then classes else None;
    }
  }

  lemma ChainsAgree(links: seq<int>)
    ensures ChainsEnd(links) <==> forall i :: 0 <= i < |links| ==> SuperChains.Ends(links, links[i])
  {
    forall i | 0 <= i < |links|
      ensures SuperChains.EndsWithin(links, links[i], |links|) <==> SuperChains.Ends(links, links[i])
    {
      SuperChains.EndsInTableSize(links, links[i]);
    }
  }

  /** Records already read, in front of what the rest gives. */
  ghost function Behind<T>(xs: seq<T>, r: Read<seq<T>>): Read<seq<T>> {
    match r case Thrown => Thrown case Value(ys, next) => Value(xs + ys, next)
  }

  lemma BehindStep<T>(xs: seq<T>, read: In -> Read<T>, n: nat, s: In)
    requires n > 0 && read(s).Value?
    ensures Behind(xs, All(read, n, s)) == Behind(xs + [read(s).value], All(read, n - 1, read(s).next))
  {
    var rest := All(read, n - 1, read(s).next);
    if rest.Value? {
      assert xs + ([read(s).value] + rest.value) == xs + [read(s).value] + rest.value;
    }
  }
}
