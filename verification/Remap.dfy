/** The link-time operand remap: bytecode rewritten in place, one table operand per instruction. */
module Remap {
  import opened Wrappers
  import opened Bytecode
  import opened OperandShapes

  /** One index map per table channel. */
  datatype Maps = Maps(strings: map<nat, nat>, functions: map<nat, nat>, classes: map<nat, nat>,
                       interfaces: map<nat, nat>, structs: map<nat, nat>, arrayTypes: map<nat, nat>,
                       enums: map<nat, nat>, slots: map<nat, nat>)
  {
    function Of(ch: Channel): map<nat, nat> {
      match ch
      case Strings => strings
      case Functions => functions
      case Classes => classes
      case Interfaces => interfaces
      case Structs => structs
      case ArrayTypes => arrayTypes
      case Enums => enums
      case Slots => slots
    }
  }

  /** Where an instruction's table operand sits, counted from its opcode byte. */
  datatype Operand = NoOperand | At(off: nat, channel: Channel)

  function NameOperand(op: OpCode): Operand {
    match op
    case ConstString | AssertFail | CallMethod | MakeVFunc => At(1, Strings)
    case CallFunc | CallMethodDirect | CallFuncOut | CallMethodDirectOut | MakeFunc | MakeBoundFunc => At(1, Functions)
    case _ => NoOperand
  }

  function TypeOperand(op: OpCode): Operand {
    match op
    case New => At(3, Classes)
    case CheckCast => At(1, Classes)
    case CheckArrayType => At(5, ArrayTypes)
    case AllocStruct => At(3, Structs)
    case CopyStruct => At(5, Structs)
    case AllocArrayN | AssembleArrayN => At(3, ArrayTypes)
    case MakeArrayView => At(5, ArrayTypes)
    case Enumtostr => At(1, Enums)
    case LoadStatic => At(3, Slots)
    case StoreStatic => At(1, Slots)
    case SlotInitGate | SlotInitDone | SlotInitFail => At(1, Slots)
    case _ => NoOperand
  }

  /** The kind word of a lazy-initialization opcode, counted from its opcode byte. */
  function KindOffset(op: OpCode): Option<nat> {
    match op
    case ClassInitGate => Some(5)
    case ClassInitDone | ClassInitFail => Some(3)
    case _ => None
  }

  function ClassInitOperand(i: Instr): Operand
    requires WellFormed(i)
  {
    match KindOffset(i.op)
    case None => NoOperand
    case Some(off) => At(1, if WordAt(i.args, off - 1) == 1 then Interfaces else Classes)
  }

  /** An instruction's one table operand. */
  function OperandOf(i: Instr): (r: Operand)
    requires WellFormed(i)
    ensures r.At? ==> 1 <= r.off && r.off + 2 <= Stride(i.op)
  {
    if NameOperand(i.op).At? then NameOperand(i.op)
    else if TypeOperand(i.op).At? then TypeOperand(i.op)
    else ClassInitOperand(i)
  }

  /** No instruction is patched by two of the three families, and no patch touches the kind word
      that selects its channel. */
  lemma FamiliesDisjoint(i: Instr)
    requires WellFormed(i)
    ensures NameOperand(i.op).At? ==> TypeOperand(i.op) == NoOperand && KindOffset(i.op) == None
    ensures TypeOperand(i.op).At? ==> KindOffset(i.op) == None
    ensures KindOffset(i.op).Some? ==> KindOffset(i.op).value >= 3 && KindOffset(i.op).value + 2 <= Stride(i.op)
  {
  }

  function SetWord(bs: seq<byte>, k: nat, w: nat): seq<byte>
    requires k + 1 < |bs|
  {
    bs[k := (w % 256) as byte][k + 1 := (w / 256 % 256) as byte]
  }

  /** One operand through one map: unmapped indices stay as they are. */
  function MapWord(table: map<nat, nat>, w: nat): nat {
    if w in table then table[w] % 65536 else w
  }

  function MapOne(i: Instr, maps: Maps): (r: Instr)
    requires WellFormed(i)
    ensures WellFormed(r) && r.op == i.op
  {
    match OperandOf(i)
    case NoOperand => i
    case At(off, ch) => i.(args := SetWord(i.args, off - 1, MapWord(maps.Of(ch), WordAt(i.args, off - 1))))
  }

  function Unmapped(i: Instr, maps: Maps): seq<(Channel, nat)>
    requires WellFormed(i)
  {
    match OperandOf(i)
    case NoOperand => []
    case At(off, ch) => if WordAt(i.args, off - 1) in maps.Of(ch) then [] else [(ch, WordAt(i.args, off - 1))]
  }

  function MapAll(code: seq<Instr>, maps: Maps): (r: seq<Instr>)
    requires AllWellFormed(code)
    ensures AllWellFormed(r) && |r| == |code|
    ensures forall k :: 0 <= k < |code| ==> r[k] == MapOne(code[k], maps)
  {
    seq(|code|, k requires 0 <= k < |code| => MapOne(code[k], maps))
  }

  function UnmappedAll(code: seq<Instr>, maps: Maps): seq<(Channel, nat)>
    requires AllWellFormed(code)
  {
    if code == [] then [] else UnmappedAll(code[..|code| - 1], maps) + Unmapped(code[|code| - 1], maps)
  }

  // ---------------------------------------------------------------- the patcher

  /** The two operand bytes at `off`, through one map, in place. */
  method PatchOperand(bc: array<byte>, off: nat, table: map<nat, nat>) returns (missing: Option<nat>)
    requires off + 1 < bc.Length
    modifies bc
    ensures var w := old(WordAt(bc[..], off));
            bc[..] == SetWord(old(bc[..]), off, MapWord(table, w)) && missing == if w in table then None else Some(w)
  {
    var oldv := bc[off] as int + 256 * bc[off + 1] as int;
    if oldv !in table {
      assert bc[..] == SetWord(bc[..], off, oldv);
      return Some(oldv);
    }
    var newv := table[oldv] % 65536;
    bc[off] := (newv % 256) as byte;
    bc[off + 1] := (newv / 256 % 256) as byte;
    return None;
  }

  /** The bytes hold instruction `i` at `pos`. */
  predicate Holds(all: seq<byte>, pos: nat, i: Instr) {
    && pos + 1 + |i.args| <= |all|
    && all[pos] == i.code
    && all[pos + 1..pos + 1 + |i.args|] == i.args
  }

  lemma Located(all: seq<byte>, pos: nat, i: Instr)
    requires pos < |all| && First(all[pos..]) == Some(i)
    ensures Holds(all, pos, i) && WellFormed(i)
  {
    hide Stride, OpAt, First;
    var n := Stride(i.op);
    assert EncodeOne(i) == all[pos..][..n] == all[pos..pos + n];
    assert EncodeOne(i)[0] == i.code && EncodeOne(i)[1..] == i.args;
    assert all[pos + 1..pos + n] == all[pos..pos + n][1..];
  }

  /** Setting a word of the instruction's operands, seen in the whole code. */
  lemma SetWithin(all: seq<byte>, pos: nat, i: Instr, k: nat, w: nat)
    requires Holds(all, pos, i) && k + 1 < |i.args|
    ensures SetWord(all, pos + 1 + k, w)
            == all[..pos] + EncodeOne(i.(args := SetWord(i.args, k, w))) + all[pos + 1 + |i.args|..]
  {
    var n := pos + 1 + |i.args|;
    assert all == all[..pos] + ([i.code] + i.args) + all[n..];
  }

  lemma Untouched(all: seq<byte>, pos: nat, i: Instr)
    requires Holds(all, pos, i)
    ensures all == all[..pos] + EncodeOne(i) + all[pos + 1 + |i.args|..]
  {
  }

  /** The channel and place of the operand of the instruction at `pos`: the three families in turn. */
  method FindOperand(bc: array<byte>, pos: nat, ghost i: Instr) returns (operand: Operand)
    requires Holds(bc[..], pos, i) && WellFormed(i)
    ensures operand == OperandOf(i)
  {
    hide OpAt, Stride;
    FamiliesDisjoint(i);
    var op := OpAt(bc[pos]).value;
    hide NameOperand, TypeOperand, KindOffset;
    operand := NameOperand(op);
    if operand == NoOperand {
      operand := TypeOperand(op);
    }
    if operand == NoOperand && KindOffset(op).Some? {
      var kind := pos + KindOffset(op).value;
      assert i.args[kind - pos - 1] == bc[kind] && i.args[kind - pos] == bc[kind + 1];
      operand := At(1, if bc[kind] as int + 256 * bc[kind + 1] as int == 1 then Interfaces else Classes);
    }
  }

  /** One instruction at `pos`. */
  method PatchInstruction(bc: array<byte>, pos: nat, ghost i: Instr, maps: Maps) returns (log: seq<(Channel, nat)>)
    requires Holds(bc[..], pos, i) && WellFormed(i)
    modifies bc
    ensures bc[..] == old(bc[..])[..pos] + EncodeOne(MapOne(i, maps)) + old(bc[..])[pos + Stride(i.op)..]
    ensures log == Unmapped(i, maps)
  {
    hide OpAt, Stride, OperandOf, SetWord, EncodeOne;
    ghost var all := bc[..];
    var operand := FindOperand(bc, pos, i);
    if operand == NoOperand {
      Untouched(all, pos, i);
      return [];
    }
    ghost var k := operand.off - 1;
    assert i.args[k] == all[pos + 1 + k] && i.args[k + 1] == all[pos + 1 + k + 1];
    SetWithin(all, pos, i, k, MapWord(maps.Of(operand.channel), WordAt(i.args, k)));
    var missing := PatchOperand(bc, pos + operand.off, maps.Of(operand.channel));
    return match missing case None => [] case Some(w) => [(operand.channel, w)];
  }

  /** The whole walk. The code becomes the encoding of its instructions with each table operand
      mapped; what is not an instruction is left alone, and an unknown opcode stops the walk. */
  method NcuRemapBytecodeOperands(bc: array<byte>, maps: Maps) returns (log: seq<(Channel, nat)>, unknownOpcode: bool)
    requires var left := Split(bc[..]).1; left == [] || OpAt(left[0]) == None
    modifies bc
    ensures var (code, left) := Split(old(bc[..]));
            && bc[..] == Encode(MapAll(code, maps)) + left
            && log == UnmappedAll(code, maps)
            && unknownOpcode == (left != [])
  {
    hide Stride, MapAll, MapOne, Unmapped, UnmappedAll, Encode, OpAt, EncodeOne, Split, First, Holds, WellFormed;
    ghost var rest, done: seq<Instr> := bc[..], [];
    ghost var (code, left) := Split(rest);
    NoneMapped(maps);
    log := [];
    var pos := 0;
    while pos < bc.Length
      invariant AllWellFormed(done) && code == done + Split(rest).0 && left == Split(rest).1
      invariant bc[..] == Encode(MapAll(done, maps)) + rest && pos == |Encode(MapAll(done, maps))|
      invariant log == UnmappedAll(done, maps)
      decreases bc.Length - pos
    {
      ghost var all, front := bc[..], Encode(MapAll(done, maps));
      assert all[pos..] == rest && rest[0] == bc[pos];
      WalkStops(rest);
      if OpAt(bc[pos]) == None {
        assert code == done;
        return log, true;
      }
      ghost var i := First(rest).value;
      var stride := Stride(OpAt(bc[pos]).value);
      SplitStep(rest);
      Located(all, pos, i);
      var missing := PatchInstruction(bc, pos, i, maps);
      EncodeSnoc(done, i, maps);
      Spliced(front, rest, stride, EncodeOne(MapOne(i, maps)));
      Regroup(done, [i], Split(rest[stride..]).0);
      log := log + missing;
      done, rest := done + [i], rest[stride..];
      pos := pos + stride;
    }
    WalkStops(rest);
    assert code == done;
    return log, false;
  }

  lemma Spliced(front: seq<byte>, rest: seq<byte>, n: nat, patched: seq<byte>)
    requires n <= |rest|
    ensures var all, pos := front + rest, |front|;
            all[..pos] + patched + all[pos + n..] == front + patched + rest[n..]
  {
  }

  lemma Regroup(a: seq<Instr>, b: seq<Instr>, c: seq<Instr>)
    ensures a + (b + c) == a + b + c
  {
  }

  /** Where and why a walk stops that may only stop at its end or at an unknown opcode. */
  lemma WalkStops(rest: seq<byte>)
    ensures rest == [] || OpAt(rest[0]) == None ==> First(rest) == None && Split(rest) == ([], rest)
    ensures First(rest).Some? ==> rest != [] && OpAt(rest[0]) == Some(First(rest).value.op)
    ensures First(rest) == None && rest != [] && OpAt(rest[0]).Some? ==> Split(rest) == ([], rest)
  {
    hide Stride, OpAt;
  }

  lemma NoneMapped(maps: Maps)
    ensures Encode(MapAll([], maps)) == [] && UnmappedAll([], maps) == []
  {
  }

  lemma EncodeSnoc(done: seq<Instr>, i: Instr, maps: Maps)
    requires AllWellFormed(done) && WellFormed(i)
    ensures AllWellFormed(done + [i])
    ensures Encode(MapAll(done + [i], maps)) == Encode(MapAll(done, maps)) + EncodeOne(MapOne(i, maps))
    ensures UnmappedAll(done + [i], maps) == UnmappedAll(done, maps) + Unmapped(i, maps)
  {
    var more := done + [i];
    assert more[..|more| - 1] == done;
    assert MapAll(more, maps) == MapAll(done, maps) + [MapOne(i, maps)];
    EncodeConcat(MapAll(done, maps), [MapOne(i, maps)]);
    assert [MapOne(i, maps)][1..] == [];
    assert Encode([MapOne(i, maps)]) == EncodeOne(MapOne(i, maps)) + [];
  }

  // ---------------------------------------------------------------- main results

  lemma WordAfterSet(bs: seq<byte>, k: nat, w: nat)
    requires k + 1 < |bs| && w < 65536
    ensures WordAt(SetWord(bs, k, w), k) == w
    ensures forall j :: 0 <= j < |bs| && j != k && j != k + 1 ==> SetWord(bs, k, w)[j] == bs[j]
  {
  }

  lemma WordFits(bs: seq<byte>, k: nat)
    requires k + 1 < |bs|
    ensures WordAt(bs, k) < 65536
  {
  }

  lemma MapWordFits(table: map<nat, nat>, w: nat)
    requires w < 65536
    ensures MapWord(table, w) < 65536
  {
  }

  /** After the remap, the word at `operand` is what its map says. */
  predicate OperandIs(i: Instr, operand: Operand, maps: Maps)
    requires WellFormed(i) && operand.At? && 1 <= operand.off && operand.off + 2 <= Stride(i.op)
  {
    WordAt(MapOne(i, maps).args, operand.off - 1) == MapWord(maps.Of(operand.channel), WordAt(i.args, operand.off - 1))
  }

  /** Remapping an instruction changes its table operand, by the map, and nothing else: not the
      opcode, not the place or channel of the operand, not any other byte. */
  lemma OnlyTheOperandChanges(i: Instr, maps: Maps)
    requires WellFormed(i)
    ensures OperandOf(MapOne(i, maps)) == OperandOf(i) && MapOne(i, maps).code == i.code
    ensures OperandOf(i) == NoOperand ==> MapOne(i, maps) == i
    ensures OperandOf(i).At? ==>
              && OperandIs(i, OperandOf(i), maps)
              && forall j :: 0 <= j < |i.args| && j != OperandOf(i).off - 1 && j != OperandOf(i).off
                   ==> MapOne(i, maps).args[j] == i.args[j]
  {
    hide OpAt, Stride, MapWord;
    FamiliesDisjoint(i);
    match OperandOf(i)
    case NoOperand =>
    case At(off, ch) =>
      var w := MapWord(maps.Of(ch), WordAt(i.args, off - 1));
      WordFits(i.args, off - 1);
      MapWordFits(maps.Of(ch), WordAt(i.args, off - 1));
      WordAfterSet(i.args, off - 1, w);
      KindKept(i, SetWord(i.args, off - 1, w));
  }

  /** In bytes: an operand whose map knows its index `w` becomes that index's image, low byte first,
      and one whose map does not stays and is reported. */
  lemma MappedOperandBytes(i: Instr, maps: Maps, w: nat)
    requires WellFormed(i) && OperandOf(i).At?
    requires var k := OperandOf(i).off - 1; w == i.args[k] as int + 256 * i.args[k + 1] as int
    ensures var At(off, ch) := OperandOf(i);
            var i' := MapOne(i, maps);
            if w in maps.Of(ch) then
              && Unmapped(i, maps) == []
              && (maps.Of(ch)[w] < 65536 ==>
                    maps.Of(ch)[w] == i'.args[off - 1] as int + 256 * i'.args[off] as int)
            else i' == i && Unmapped(i, maps) == [(ch, w)]
  {
    hide OperandOf, OpAt, Stride, SetWord;
    var At(off, ch) := OperandOf(i);
    SetBytes(i.args, off - 1, MapWord(maps.Of(ch), w));
    SetBytes(i.args, off - 1, w);
  }

  lemma SetBytes(bs: seq<byte>, k: nat, w: nat)
    requires k + 1 < |bs|
    ensures var r := SetWord(bs, k, w);
            && |r| == |bs|
            && (w < 65536 ==> r[k] as int + 256 * r[k + 1] as int == w)
            && (w == bs[k] as int + 256 * bs[k + 1] as int ==> r == bs)
  {
  }

  /** Each table's indices go through that table's map. */
  lemma ChannelsHaveTheirMaps(maps: Maps, w: nat)
    ensures w in maps.strings ==> w in maps.Of(Strings) && maps.Of(Strings)[w] == maps.strings[w]
    ensures w in maps.functions ==> w in maps.Of(Functions) && maps.Of(Functions)[w] == maps.functions[w]
    ensures w in maps.classes ==> w in maps.Of(Classes) && maps.Of(Classes)[w] == maps.classes[w]
    ensures w in maps.interfaces ==> w in maps.Of(Interfaces) && maps.Of(Interfaces)[w] == maps.interfaces[w]
    ensures w in maps.structs ==> w in maps.Of(Structs) && maps.Of(Structs)[w] == maps.structs[w]
    ensures w in maps.arrayTypes ==> w in maps.Of(ArrayTypes) && maps.Of(ArrayTypes)[w] == maps.arrayTypes[w]
    ensures w in maps.enums ==> w in maps.Of(Enums) && maps.Of(Enums)[w] == maps.enums[w]
    ensures w in maps.slots ==> w in maps.Of(Slots) && maps.Of(Slots)[w] == maps.slots[w]
  {
  }

  /** The report lists what the instructions report, in code order. */
  lemma {:induction false} UnmappedInOrder(a: seq<Instr>, b: seq<Instr>, maps: Maps)
    requires AllWellFormed(a) && AllWellFormed(b)
    ensures AllWellFormed(a + b) && UnmappedAll(a + b, maps) == UnmappedAll(a, maps) + UnmappedAll(b, maps)
    ensures forall i :: a == [i] ==> UnmappedAll(a, maps) == Unmapped(i, maps)
  {
    hide WellFormed, Unmapped;
    assert forall i :: a == [i] ==> a[..0] == [] && a[0] == i;
    if b == [] {
      assert a + b == a;
    } else {
      var front, last := b[..|b| - 1], b[|b| - 1];
      UnmappedInOrder(a, front, maps);
      assert (a + b)[..|a + b| - 1] == a + front && (a + b)[|a + b| - 1] == last;
      Grouped(UnmappedAll(a, maps), UnmappedAll(front, maps), Unmapped(last, maps));
    }
  }

  lemma Grouped(a: seq<(Channel, nat)>, b: seq<(Channel, nat)>, c: seq<(Channel, nat)>)
    ensures a + (b + c) == a + b + c
  {
  }

  /** The channel depends on the operand bytes through the kind word alone. */
  lemma KindKept(i: Instr, args: seq<byte>)
    requires WellFormed(i) && |args| == |i.args|
    requires KindOffset(i.op).Some? ==>
               WordAt(args, KindOffset(i.op).value - 1) == WordAt(i.args, KindOffset(i.op).value - 1)
    ensures OperandOf(i.(args := args)) == OperandOf(i)
  {
    hide Stride, OpAt;
  }

  /** Remapped code decodes to the remapped instructions: its length and every instruction boundary
      are where they were. */
  lemma RemapKeepsBoundaries(bc: seq<byte>, maps: Maps)
    ensures var (code, left) := Split(bc);
            var bc' := Encode(MapAll(code, maps)) + left;
            First(left) == None && Split(bc') == (MapAll(code, maps), left) && |bc'| == |bc|
  {
    var (code, left) := Split(bc);
    SplitStuck(bc);
    SplitEncodes(bc);
    hide *;
    EncodeSplits(MapAll(code, maps), left);
    MapKeepsLength(code, maps);
    Lengths(Encode(MapAll(code, maps)), left);
    Lengths(Encode(code), left);
  }

  lemma Lengths(a: seq<byte>, b: seq<byte>)
    ensures |a + b| == |a| + |b|
  {
  }

  lemma {:induction false} SplitStuck(bc: seq<byte>)
    ensures First(Split(bc).1) == None
    decreases |bc|
  {
    if First(bc).Some? {
      SplitStep(bc);
      SplitStuck(bc[Stride(First(bc).value.op)..]);
    }
  }

  lemma {:induction false} MapKeepsLength(code: seq<Instr>, maps: Maps)
    requires AllWellFormed(code)
    ensures |Encode(MapAll(code, maps))| == |Encode(code)|
  {
    if code != [] {
      var front, i := code[..|code| - 1], code[|code| - 1];
      assert code == front + [i];
      MapKeepsLength(front, maps);
      OneKeepsLength(i, maps);
      hide WellFormed, Encode, EncodeOne, MapAll, MapOne;
      EncodeSnoc(front, i, maps);
      EncodeConcat(front, [i]);
      EncodeSingle(i);
    }
  }

  lemma EncodeSingle(i: Instr)
    ensures Encode([i]) == EncodeOne(i)
  {
    hide EncodeOne;
    assert [i][1..] == [] && Encode([]) == [];
  }

  lemma OneKeepsLength(i: Instr, maps: Maps)
    requires WellFormed(i)
    ensures |EncodeOne(MapOne(i, maps))| == |EncodeOne(i)|
  {
    hide Stride, OpAt;
  }

  /** Going through one map and then another. */
  function Compose(m1: Maps, m2: Maps): Maps {
    Maps(Then(m1.strings, m2.strings), Then(m1.functions, m2.functions), Then(m1.classes, m2.classes),
         Then(m1.interfaces, m2.interfaces), Then(m1.structs, m2.structs), Then(m1.arrayTypes, m2.arrayTypes),
         Then(m1.enums, m2.enums), Then(m1.slots, m2.slots))
  }

  function Then(t1: map<nat, nat>, t2: map<nat, nat>): map<nat, nat> {
    map x | x in t1.Keys + t2.Keys :: var y := MapWord(t1, x); if y in t2 then t2[y] else y
  }

  lemma ComposeWord(m1: Maps, m2: Maps, ch: Channel, x: nat)
    requires x < 65536
    ensures MapWord(Compose(m1, m2).Of(ch), x) == MapWord(m2.Of(ch), MapWord(m1.Of(ch), x))
  {
  }

  lemma SetTwice(bs: seq<byte>, k: nat, v: nat, w: nat)
    requires k + 1 < |bs|
    ensures SetWord(SetWord(bs, k, v), k, w) == SetWord(bs, k, w)
  {
  }

  lemma ComposeOne(i: Instr, m1: Maps, m2: Maps)
    requires WellFormed(i)
    ensures MapOne(MapOne(i, m1), m2) == MapOne(i, Compose(m1, m2))
  {
    hide OperandOf, OpAt, Stride, SetWord, MapWord;
    OnlyTheOperandChanges(i, m1);
    match OperandOf(i)
    case NoOperand =>
    case At(off, ch) =>
      WordFits(i.args, off - 1);
      ComposeWord(m1, m2, ch, WordAt(i.args, off - 1));
      SetTwice(i.args, off - 1, MapWord(m1.Of(ch), WordAt(i.args, off - 1)),
          MapWord(m2.Of(ch), MapWord(m1.Of(ch), WordAt(i.args, off - 1))));
  }

  /** Remapping by one set of maps and then by another is remapping by their composition. */
  lemma RemapComposes(code: seq<Instr>, m1: Maps, m2: Maps)
    requires AllWellFormed(code)
    ensures MapAll(MapAll(code, m1), m2) == MapAll(code, Compose(m1, m2))
  {
    forall k | 0 <= k < |code|
      ensures MapAll(MapAll(code, m1), m2)[k] == MapAll(code, Compose(m1, m2))[k]
    {
      ComposeOne(code[k], m1, m2);
    }
  }

  // ---------------------------------------------------------------- against the documented shapes

  /** Where the shape has the word that says whose an owner index is. */
  function KindPlace(s: Shape): Option<nat> {
    if s.f2 == OwnerKind then Some(1 + Width(s.f1))
    else if s.f3 == OwnerKind then Some(1 + Width(s.f1) + Width(s.f2))
    else None
  }

  function DocumentedKind(i: Instr): Option<nat>
    requires WellFormed(i)
  {
    ShapesFillStrides(i.op);
    match KindPlace(ShapeOf(i.op))
    case None => None
    case Some(place) => Some(WordAt(i.args, place - 1))
  }

  /** The table operand a field is, when it starts `off` bytes from the opcode: owner kind 0 means
      a class and 1 an interface, and nothing is documented for another. */
  function TableOperand(f: Field, off: nat, kind: Option<nat>): Operand {
    match f
    case Index(ch) => At(off, ch)
    case Owner =>
      if kind == Some(0) then At(off, Classes) else if kind == Some(1) then At(off, Interfaces) else NoOperand
    case _ => NoOperand
  }

  /** Every table operand of a shape. */
  function TableOperands(s: Shape, kind: Option<nat>): set<Operand> {
    var o2 := 1 + Width(s.f1);
    var o3 := o2 + Width(s.f2);
    var o4 := o3 + Width(s.f3);
    var o5 := o4 + Width(s.f4);
    {TableOperand(s.f1, 1, kind), TableOperand(s.f2, o2, kind), TableOperand(s.f3, o3, kind),
     TableOperand(s.f4, o4, kind), TableOperand(s.f5, o5, kind)} - {NoOperand}
  }

  /** Every table operand the instruction set documents for the instruction. */
  function Documented(i: Instr): set<Operand>
    requires WellFormed(i)
  {
    TableOperands(ShapeOf(i.op), DocumentedKind(i))
  }

  /** The coded operand of an opcode whose kind word, if it has one, is `kind`. */
  function CodedOperand(op: OpCode, kind: Option<nat>): Operand {
    if NameOperand(op).At? then NameOperand(op)
    else if TypeOperand(op).At? then TypeOperand(op)
    else if kind.Some? then At(1, if kind == Some(1) then Interfaces else Classes)
    else NoOperand
  }

  /** The patch families and the documented shapes name the same operand, except that
      AllocArrayDyn's type index has no arm, and that an owner of an undocumented kind is taken for
      a class. */
  lemma FamiliesFollowShapes(i: Instr)
    requires WellFormed(i)
    ensures i.op == AllocArrayDyn ==> Documented(i) == {At(3, ArrayTypes)} && OperandOf(i) == NoOperand
    ensures i.op != AllocArrayDyn && (DocumentedKind(i) == None || DocumentedKind(i).value <= 1) ==>
              Documented(i) == {OperandOf(i)} - {NoOperand}
    ensures DocumentedKind(i).Some? && DocumentedKind(i).value > 1 ==>
              Documented(i) == {} && OperandOf(i) == At(1, Classes)
  {
    hide ShapeOf, IsScalar, IsObject, Stride, OpAt, NameOperand, TypeOperand, KindOffset, KindPlace,
        TableOperands, Agrees;
    ShapesFillStrides(i.op);
    ShapesAgree(i.op, DocumentedKind(i));
    AgreesMeans(i.op, DocumentedKind(i));
  }

  /** `o` is the shape's one table operand, or NoOperand when it has none. */
  ghost predicate OnlyOperand(s: Shape, kind: Option<nat>, o: Operand) {
    var o2 := 1 + Width(s.f1);
    var o3 := o2 + Width(s.f2);
    && (TableOperand(s.f1, 1, kind) == o || TableOperand(s.f1, 1, kind) == NoOperand)
    && (TableOperand(s.f2, o2, kind) == o || TableOperand(s.f2, o2, kind) == NoOperand)
    && (TableOperand(s.f3, o3, kind) == o || TableOperand(s.f3, o3, kind) == NoOperand)
    && !s.f4.Index? && !s.f4.Owner? && !s.f5.Index? && !s.f5.Owner?
    && (o == TableOperand(s.f1, 1, kind) || o == TableOperand(s.f2, o2, kind) || o == TableOperand(s.f3, o3, kind))
  }

  lemma OnlyMeans(s: Shape, kind: Option<nat>, o: Operand)
    requires OnlyOperand(s, kind, o)
    ensures TableOperands(s, kind) == {o} - {NoOperand}
  {
  }

  /** What the shape of the opcode must document, given what is coded. */
  function Expected(op: OpCode, kind: Option<nat>): Operand {
    if op == AllocArrayDyn then At(3, ArrayTypes)
    else if kind.Some? && kind.value > 1 then NoOperand
    else CodedOperand(op, kind)
  }

  ghost predicate Agrees(op: OpCode, s: Shape, kind: Option<nat>) {
    && KindPlace(s) == KindOffset(op)
    && (kind.Some? == KindOffset(op).Some? ==> OnlyOperand(s, kind, Expected(op, kind)))
  }

  lemma AgreesMeans(op: OpCode, kind: Option<nat>)
    requires Agrees(op, ShapeOf(op), kind)
    ensures KindPlace(ShapeOf(op)) == KindOffset(op)
    ensures kind.Some? == KindOffset(op).Some? ==>
              TableOperands(ShapeOf(op), kind) == {Expected(op, kind)} - {NoOperand}
    ensures KindOffset(op).Some? ==> NameOperand(op) == NoOperand && TypeOperand(op) == NoOperand && op != AllocArrayDyn
    ensures op == AllocArrayDyn ==> NameOperand(op) == NoOperand && TypeOperand(op) == NoOperand
  {
    hide ShapeOf, TableOperands, KindPlace, OnlyOperand;
    if kind.Some? == KindOffset(op).Some? {
      OnlyMeans(ShapeOf(op), kind, Expected(op, kind));
    }
  }

  lemma ShapesAgree(op: OpCode, kind: Option<nat>)
    ensures Agrees(op, ShapeOf(op), kind)
  {
    hide Agrees, IsScalar, IsObject, ScalarShape, ObjectShape, LaterShape;
    if IsScalar(op) {
      ScalarsAgree(op, kind);
    } else if IsObject(op) {
      ObjectsAgree(op, kind);
    } else {
      LaterAgree(op, kind);
    }
  }

  lemma ScalarsAgree(op: OpCode, kind: Option<nat>)
    requires IsScalar(op)
    ensures Agrees(op, ScalarShape(op), kind)
  {
  }

  lemma ObjectsAgree(op: OpCode, kind: Option<nat>)
    requires IsObject(op)
    ensures Agrees(op, ObjectShape(op), kind)
  {
  }

  lemma LaterAgree(op: OpCode, kind: Option<nat>)
    requires !IsScalar(op) && !IsObject(op)
    ensures Agrees(op, LaterShape(op), kind)
  {
    hide Agrees, LaterShape, IsScalar, IsObject;
    if KindOffset(op).Some? {
      OwnersAgree(op, kind);
    } else {
      OthersAgree(op, kind);
    }
  }

  lemma OwnersAgree(op: OpCode, kind: Option<nat>)
    requires !IsScalar(op) && !IsObject(op) && KindOffset(op).Some?
    ensures Agrees(op, LaterShape(op), kind)
  {
  }

  lemma OthersAgree(op: OpCode, kind: Option<nat>)
    requires !IsScalar(op) && !IsObject(op) && KindOffset(op) == None
    ensures Agrees(op, LaterShape(op), kind)
  {
  }

  /** Every documented operand of the instruction holds what its map says, whatever the maps. */
  ghost predicate FullyRemapped(i: Instr)
    requires WellFormed(i)
  {
    forall operand, maps: Maps :: operand in Documented(i) ==> HoldsMapped(i, operand, maps)
  }

  predicate HoldsMapped(i: Instr, operand: Operand, maps: Maps)
    requires WellFormed(i)
  {
    operand.At? && 1 <= operand.off && operand.off + 2 <= Stride(i.op) && OperandIs(i, operand, maps)
  }

  /** The patcher has no arm for AllocArrayDyn: an instruction's documented operands are always
      remapped if and only if its opcode is another one. */
  lemma RemappedUnlessAllocArrayDyn(i: Instr)
    requires WellFormed(i)
    ensures FullyRemapped(i) <==> i.op != AllocArrayDyn
  {
    FamiliesFollowShapes(i);
    hide OperandIs, OperandOf, WellFormed, MapOne, Documented, DocumentedKind, Stride;
    if i.op == AllocArrayDyn {
      var maps := AllocArrayDynStays(i);
      assert At(3, ArrayTypes) in Documented(i) && !HoldsMapped(i, At(3, ArrayTypes), maps);
    } else {
      forall operand, maps: Maps | operand in Documented(i)
        ensures HoldsMapped(i, operand, maps)
      {
        OnlyTheOperandChanges(i, maps);
      }
    }
  }

  lemma AllocArrayDynStays(i: Instr) returns (maps: Maps)
    requires WellFormed(i) && i.op == AllocArrayDyn
    ensures 5 <= Stride(i.op) && !OperandIs(i, At(3, ArrayTypes), maps)
  {
    hide OpAt;
    assert |i.args| == 6 && OperandOf(i) == NoOperand;
    hide Stride, OperandOf;
    var w := WordAt(i.args, 2);
    WordFits(i.args, 2);
    var table := map[w := (w + 1) % 65536];
    maps := Maps(table, table, table, table, table, table, table, table);
    assert MapOne(i, maps) == i;
    assert MapWord(maps.Of(ArrayTypes), w) != w;
  }

  // ---------------------------------------------------------------- the line map

  datatype LinePc = LinePc(line: nat, pc: nat)

  /** The statement anchors of the code, each at its own place. */
  function Anchors(code: seq<Instr>, pc: nat): seq<LinePc>
    requires AllWellFormed(code)
  {
    if code == [] then [] else AnchorOf(code[0], pc) + Anchors(code[1..], pc + Stride(code[0].op))
  }

  function AnchorOf(i: Instr, pc: nat): seq<LinePc>
    requires WellFormed(i)
  {
    if i.op == DebugInfo then [LinePc(WordAt(i.args, 0), pc)] else []
  }

  /** What a 16-bit pc field keeps of an anchor. */
  function Narrow(anchors: seq<LinePc>): (r: seq<LinePc>)
    ensures |r| == |anchors|
    ensures forall k :: 0 <= k < |r| ==> r[k] == LinePc(anchors[k].line, anchors[k].pc % 65536)
  {
    if anchors == [] then [] else [LinePc(anchors[0].line, anchors[0].pc % 65536)] + Narrow(anchors[1..])
  }

  lemma NarrowConcat(a: seq<LinePc>, b: seq<LinePc>)
    ensures Narrow(a + b) == Narrow(a) + Narrow(b)
  {
  }

  /** The anchors of the whole instructions, with 16-bit places. An unknown opcode stops the walk; an
      instruction that the code ends inside of adds nothing. */
  method BuildLinePcMap(bc: seq<byte>) returns (entries: seq<LinePc>, unknownOpcode: bool)
    ensures entries == Narrow(Anchors(Split(bc).0, 0))
    ensures unknownOpcode == (Split(bc).1 != [] && OpAt(Split(bc).1[0]) == None)
  {
    hide Stride, OpAt, Split, First, Anchors, Narrow, WellFormed, AllWellFormed, Holds;
    ghost var whole, left := Narrow(Anchors(Split(bc).0, 0)), Split(bc).1;
    entries := [];
    var pc := 0;
    assert bc[0..] == bc;
    while pc < |bc|
      invariant pc <= |bc| ==> whole == entries + Narrow(Anchors(Split(bc[pc..]).0, pc)) && left == Split(bc[pc..]).1
      invariant pc > |bc| ==> whole == entries && left != [] && OpAt(left[0]).Some?
      decreases |bc| - pc
    {
      WalkStops(bc[pc..]);
      NoAnchors(pc);
      assert bc[pc..][0] == bc[pc];
      var op := OpAt(bc[pc]);
      if op == None {
        return entries, true;
      }
      if First(bc[pc..]).Some? {
        LineStep(bc, pc, entries);
      } else {
        CutShort(bc, pc);
      }
      assert entries + [] == entries;
      if op.value == DebugInfo && pc + 2 < |bc| {
        entries := entries + [LinePc(bc[pc + 1] as int + 256 * bc[pc + 2] as int, pc % 65536)];
      }
      pc := pc + Stride(op.value);
    }
    WalkStops(bc[|bc|..]);
    NoAnchors(pc);
    return entries, false;
  }

  /** Code that ends inside its last instruction: the walk steps past the end, and a cut statement
      anchor has no room for its line. */
  lemma CutShort(bc: seq<byte>, pc: nat)
    requires pc < |bc| && OpAt(bc[pc]).Some? && First(bc[pc..]) == None
    ensures pc + Stride(OpAt(bc[pc]).value) > |bc|
    ensures OpAt(bc[pc]).value == DebugInfo ==> pc + 2 >= |bc|
  {
    hide OpAt;
    assert bc[pc..][0] == bc[pc];
  }

  /** One step of the walk: the anchor of the instruction at `pc`, if it is one, joins the entries. */
  lemma LineStep(bc: seq<byte>, pc: nat, entries: seq<LinePc>)
    requires pc < |bc| && First(bc[pc..]).Some?
    ensures OpAt(bc[pc]).Some? && pc + Stride(OpAt(bc[pc]).value) <= |bc|
    ensures OpAt(bc[pc]).value == DebugInfo ==> pc + 2 < |bc|
    ensures var op := OpAt(bc[pc]).value;
            var more := if op != DebugInfo then []
                        else [LinePc(bc[pc + 1] as int + 256 * bc[pc + 2] as int, pc % 65536)];
            var next := pc + Stride(op);
            && entries + Narrow(Anchors(Split(bc[pc..]).0, pc))
                 == entries + more + Narrow(Anchors(Split(bc[next..]).0, next))
            && Split(bc[pc..]).1 == Split(bc[next..]).1
  {
    hide Stride, OpAt, Split, Anchors, Narrow, Holds;
    var rest := bc[pc..];
    var i := First(rest).value;
    WalkStops(rest);
    SplitStep(rest);
    AnchorStep(i, Split(rest[Stride(i.op)..]).0, pc);
    Located(bc, pc, i);
    DebugInfoShape(bc, pc, i);
    assert rest[Stride(i.op)..] == bc[pc + Stride(i.op)..];
    hide First, WellFormed, AllWellFormed;
  }

  lemma NoAnchors(pc: nat)
    ensures Anchors([], pc) == [] && Narrow([]) == []
  {
  }

  /** A statement anchor carries its line in the word after the opcode. */
  lemma DebugInfoShape(bc: seq<byte>, pc: nat, i: Instr)
    requires Holds(bc, pc, i) && WellFormed(i)
    ensures i.op == DebugInfo ==>
              && pc + 2 < |bc|
              && Narrow(AnchorOf(i, pc)) == [LinePc(bc[pc + 1] as int + 256 * bc[pc + 2] as int, pc % 65536)]
    ensures i.op != DebugInfo ==> Narrow(AnchorOf(i, pc)) == []
    ensures pc + Stride(i.op) <= |bc|
  {
    hide OpAt;
    if i.op == DebugInfo {
      assert bc[pc + 1..pc + 3][0] == i.args[0] && bc[pc + 1..pc + 3][1] == i.args[1];
      assert AnchorOf(i, pc)[1..] == [];
    }
  }

  lemma AnchorStep(i: Instr, more: seq<Instr>, pc: nat)
    requires WellFormed(i) && AllWellFormed(more)
    ensures AllWellFormed([i] + more)
    ensures Narrow(Anchors([i] + more, pc)) == Narrow(AnchorOf(i, pc)) + Narrow(Anchors(more, pc + Stride(i.op)))
  {
    hide Stride, OpAt, AnchorOf, Narrow, WellFormed;
    AnchorsCons([i] + more, pc);
    assert ([i] + more)[1..] == more;
    NarrowConcat(AnchorOf(i, pc), Anchors(more, pc + Stride(i.op)));
  }

  lemma AnchorsCons(code: seq<Instr>, pc: nat)
    requires AllWellFormed(code) && code != []
    ensures WellFormed(code[0])
    ensures Anchors(code, pc) == AnchorOf(code[0], pc) + Anchors(code[1..], pc + Stride(code[0].op))
  {
    hide Stride, OpAt, WellFormed, AnchorOf;
  }

  /** Anchors come in ascending places, all at or after where the code starts. */
  lemma {:induction false} AnchorsAscend(code: seq<Instr>, pc: nat)
    requires AllWellFormed(code)
    ensures var anchors := Anchors(code, pc);
            && (forall k :: 0 <= k < |anchors| ==> pc <= anchors[k].pc)
            && (forall j, k :: 0 <= j < k < |anchors| ==> anchors[j].pc < anchors[k].pc)
  {
    hide Stride, OpAt, WellFormed;
    if code != [] {
      AnchorsCons(code, pc);
      AnchorsAscend(code[1..], pc + Stride(code[0].op));
      hide Anchors;
    }
  }

  /** The instruction at `k` is a statement anchor for line `l` at place `p`. */
  predicate AnchorsAt(code: seq<Instr>, pc: nat, k: nat, l: nat, p: nat) {
    && k < |code| && code[k].op == DebugInfo && |code[k].args| == 2
    && l == code[k].args[0] as int + 256 * code[k].args[1] as int
    && p == pc + |Encode(code[..k])|
  }

  /** The anchors are those of the code's DebugInfo instructions, each where its bytes start. */
  lemma {:induction false} AnchorsExact(code: seq<Instr>, pc: nat, l: nat, p: nat)
    requires AllWellFormed(code)
    ensures LinePc(l, p) in Anchors(code, pc) <==> exists k: nat :: AnchorsAt(code, pc, k, l, p)
  {
    hide Stride, OpAt, WellFormed, AnchorOf, Anchors, AnchorsAt;
    if code == [] {
      NoAnchors(pc);
      NoneAt(pc, l, p);
    } else {
      var next := pc + Stride(code[0].op);
      AnchorsCons(code, pc);
      AnchorsExact(code[1..], next, l, p);
      FirstAnchor(code, pc, l, p);
      forall k: nat
        ensures k > 0 ==> AnchorsAt(code, pc, k, l, p) == AnchorsAt(code[1..], next, k - 1, l, p)
      {
        if k > 0 {
          LaterAnchor(code, pc, k, l, p);
        }
      }
      if exists k: nat :: AnchorsAt(code, pc, k, l, p) {
        var k: nat :| AnchorsAt(code, pc, k, l, p);
        assert k > 0 ==> AnchorsAt(code[1..], next, k - 1, l, p);
      }
      if exists k: nat :: AnchorsAt(code[1..], next, k, l, p) {
        var k: nat :| AnchorsAt(code[1..], next, k, l, p);
        assert AnchorsAt(code, pc, k + 1, l, p);
      }
    }
  }

  lemma NoneAt(pc: nat, l: nat, p: nat)
    ensures forall k: nat :: !AnchorsAt([], pc, k, l, p)
  {
  }

  lemma FirstAnchor(code: seq<Instr>, pc: nat, l: nat, p: nat)
    requires code != [] && WellFormed(code[0])
    ensures LinePc(l, p) in AnchorOf(code[0], pc) <==> AnchorsAt(code, pc, 0, l, p)
  {
    hide OpAt;
    assert Encode(code[..0]) == [];
  }

  lemma LaterAnchor(code: seq<Instr>, pc: nat, k: nat, l: nat, p: nat)
    requires AllWellFormed(code) && code != [] && k > 0
    ensures AnchorsAt(code, pc, k, l, p) == AnchorsAt(code[1..], pc + Stride(code[0].op), k - 1, l, p)
  {
    hide OpAt, Stride;
    if k < |code| {
      assert WellFormed(code[0]);
      assert code[..k][1..] == code[1..][..k - 1] && code[..k][0] == code[0];
      assert |Encode(code[..k])| == Stride(code[0].op) + |Encode(code[1..][..k - 1])|;
    }
  }

  /** The map is exact if and only if every anchor lies below 65536: past that its 16-bit pc wraps. */
  lemma LineMapExact(code: seq<Instr>)
    requires AllWellFormed(code)
    ensures Narrow(Anchors(code, 0)) == Anchors(code, 0)
            <==> forall k :: 0 <= k < |Anchors(code, 0)| ==> Anchors(code, 0)[k].pc < 65536
  {
    hide AnchorOf, WellFormed;
    var anchors := Anchors(code, 0);
    if forall k :: 0 <= k < |anchors| ==> anchors[k].pc < 65536 {
      assert forall k :: 0 <= k < |anchors| ==> Narrow(anchors)[k] == anchors[k];
    } else {
      var k :| 0 <= k < |anchors| && anchors[k].pc >= 65536;
      assert Narrow(anchors)[k] != anchors[k];
    }
  }

  /** `n` returns and then a statement anchor for line 1. */
  function LongCode(n: nat): seq<Instr> {
    if n == 0 then [Instr(37, DebugInfo, [1, 0])] else [Instr(0, Return, [])] + LongCode(n - 1)
  }

  lemma {:induction false} LongCodeAnchor(n: nat, pc: nat)
    ensures AllWellFormed(LongCode(n)) && Anchors(LongCode(n), pc) == [LinePc(1, pc + n)]
  {
    var code := LongCode(n);
    hide WellFormed, Stride, AnchorOf;
    if n == 0 {
      AnchorAlone(pc);
      assert code[1..] == [] && Anchors([], pc + Stride(DebugInfo)) == [];
    } else {
      LongCodeAnchor(n - 1, pc + 1);
      ReturnPassed(pc);
      assert code[1..] == LongCode(n - 1);
    }
  }

  lemma AnchorAlone(pc: nat)
    ensures WellFormed(Instr(37, DebugInfo, [1, 0])) && AnchorOf(Instr(37, DebugInfo, [1, 0]), pc) == [LinePc(1, pc)]
  {
    assert OPCODES[37] == DebugInfo;
  }

  lemma ReturnPassed(pc: nat)
    ensures WellFormed(Instr(0, Return, [])) && AnchorOf(Instr(0, Return, []), pc) == [] && Stride(Return) == 1
  {
    assert OPCODES[0] == Return;
  }

  /** An anchor behind 65536 one-byte instructions is listed at place 0. */
  lemma LongCodeWraps()
    ensures AllWellFormed(LongCode(65536)) && Anchors(LongCode(65536), 0) == [LinePc(1, 65536)]
    ensures Narrow(Anchors(LongCode(65536), 0)) == [LinePc(1, 0)]
  {
    LongCodeAnchor(65536, 0);
    hide LongCode, Anchors;
    assert Narrow([LinePc(1, 65536)]) == [LinePc(1, 0)];
  }

  /** Remapping operands moves no anchor and changes no line. */
  lemma {:induction false} RemapKeepsAnchors(code: seq<Instr>, maps: Maps, pc: nat)
    requires AllWellFormed(code)
    ensures Anchors(MapAll(code, maps), pc) == Anchors(code, pc)
  {
    if code != [] {
      var code' := MapAll(code, maps);
      AnchorsCons(code, pc);
      AnchorsCons(code', pc);
      AnchorUnmoved(code[0], maps, pc);
      RemapKeepsAnchors(code[1..], maps, pc + Stride(code[0].op));
      hide Stride, OpAt, Anchors, WellFormed, AnchorOf, MapOne;
      assert code'[1..] == MapAll(code[1..], maps);
    }
  }

  lemma AnchorUnmoved(i: Instr, maps: Maps, pc: nat)
    requires WellFormed(i)
    ensures AnchorOf(MapOne(i, maps), pc) == AnchorOf(i, pc)
  {
  }
}
