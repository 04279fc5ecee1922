/** The instruction set's extents, and bytecode as the sequence of instructions it encodes. */
module Bytecode {
  import opened Wrappers

  newtype byte = x: int | 0 <= x < 256

  datatype OpCode =
    Return | Jump | JumpIfNot | Stop | AssertFail | ConstInt32 | ConstFloat | ConstString | ConstZero |
    ConstInt64 | ConstDouble | VarLocal | Assign | PrimCast | Primtostr | Enumtostr | Arraytostr | Add | Sub |
    Mul | Div | Mod | Neg | Cmp | LogicalNot | CallFunc | ParaEnd | Switch | Case | Concatstr | Eqstr | Nestr |
    Lessstr | LessEqualstr | Greaterstr | GreaterEqualstr | StrLen | DebugInfo | AllocStruct | LoadField |
    StoreField | CopyStruct | New | CallMethod | CallMethodDirect | CallIntrinsic | NullCheck | AllocArrayN |
    LoadElementN | StoreElementN | AssembleArrayN | LoadElementFlat | ArrayLength | ArrayShape | MakeArrayView |
    Box | Unbox | CheckCast | Throw | Rethrow | PopHandler | CallFuncOut | CallMethodDirectOut | MakeFunc |
    CallDelegate | Eqfunc | Nefunc | Functostr | MakeBoundFunc | MakeVFunc | CallDelegateOut | StrByteAt |
    StrForeachStep | Shl | Shr | LoadStatic | StoreStatic | ClassInitGate | ClassInitDone | ClassInitFail |
    SlotInitGate | SlotInitDone | SlotInitFail | CheckArrayRank | CheckArrayType | LoadElementDyn |
    StoreElementDyn | AllocArrayDyn

  /** The enumerators in numeric order. */
  const OPCODES: seq<OpCode> := CONTROL_OPCODES + SCALAR_OPCODES + OBJECT_OPCODES + LATER_OPCODES

  const CONTROL_OPCODES := [Return, Jump, JumpIfNot, Stop, AssertFail]

  const SCALAR_OPCODES := [
    ConstInt32, ConstFloat, ConstString, ConstZero, ConstInt64, ConstDouble, VarLocal, Assign, PrimCast,
    Primtostr, Enumtostr, Arraytostr, Add, Sub, Mul, Div, Mod, Neg, Cmp, LogicalNot, CallFunc, ParaEnd, Switch,
    Case, Concatstr, Eqstr, Nestr, Lessstr, LessEqualstr, Greaterstr, GreaterEqualstr, StrLen, DebugInfo
  ]

  const OBJECT_OPCODES := [
    AllocStruct, LoadField, StoreField, CopyStruct, New, CallMethod, CallMethodDirect, CallIntrinsic, NullCheck,
    AllocArrayN, LoadElementN, StoreElementN, AssembleArrayN, LoadElementFlat, ArrayLength, ArrayShape,
    MakeArrayView, Box, Unbox, CheckCast, Throw, Rethrow, PopHandler, CallFuncOut, CallMethodDirectOut
  ]

  const LATER_OPCODES := [
    MakeFunc, CallDelegate, Eqfunc, Nefunc, Functostr, MakeBoundFunc, MakeVFunc, CallDelegateOut, StrByteAt,
    StrForeachStep, Shl, Shr, LoadStatic, StoreStatic, ClassInitGate, ClassInitDone, ClassInitFail, SlotInitGate,
    SlotInitDone, SlotInitFail, CheckArrayRank, CheckArrayType, LoadElementDyn, StoreElementDyn, AllocArrayDyn
  ]

  /** The byte extent of an instruction, opcode byte included. */
  function Stride(op: OpCode): (n: nat)
    ensures 1 <= n <= 11
  {
    match op
    // no operands
    case Return | Stop | ConstZero | Arraytostr | Functostr | ParaEnd | Rethrow | PopHandler => 1
    // a kind
    case Primtostr | Box | Unbox => 2
    // one word
    case Jump | Case | ConstString | AssertFail | VarLocal | Assign | Enumtostr | LogicalNot | Switch | DebugInfo |
      NullCheck | CheckCast | Throw | MakeFunc | MakeBoundFunc | MakeVFunc | SlotInitDone | SlotInitFail => 3
    // a kind and a word
    case Neg => 4
    // two kinds
    case PrimCast => 3
    // two words
    case JumpIfNot | Concatstr | Eqstr | Nestr | Lessstr | LessEqualstr | Greaterstr | GreaterEqualstr | StrLen |
      CallFunc | CallMethod | CallMethodDirect | CallIntrinsic | CallDelegate | Eqfunc | Nefunc | New |
      ArrayLength | ArrayShape | LoadStatic | StoreStatic | ClassInitDone | ClassInitFail | SlotInitGate => 5
    // a kind and two words
    case Add | Sub | Mul | Div | Mod | Shl | Shr => 6
    // three words
    case AllocStruct | LoadField | StoreField | CopyStruct | LoadElementFlat | StrByteAt | ClassInitGate |
      CheckArrayRank | CheckArrayType | AllocArrayDyn => 7
    // four words
    case LoadElementN | StoreElementN | LoadElementDyn | StoreElementDyn | AssembleArrayN | AllocArrayN |
      StrForeachStep => 9
    // five words
    case MakeArrayView => 11
    // two words and an out mask
    case CallFuncOut | CallMethodDirectOut | CallDelegateOut => 9
    // two kinds and two words
    case Cmp => 7
    // a 32-bit immediate
    case ConstInt32 | ConstFloat => 5
    // a 64-bit immediate
    case ConstInt64 | ConstDouble => 9
  }

  function OpAt(b: byte): Option<OpCode> {
    if b as int < |OPCODES| then Some(OPCODES[b]) else None
  }

  /** There are 88 opcodes; these are the first and last of each group. */
  lemma OpcodeNumbers()
    ensures |OPCODES| == 88
    ensures OpAt(0) == Some(Return) && OpAt(4) == Some(AssertFail) && OpAt(5) == Some(ConstInt32)
    ensures OpAt(37) == Some(DebugInfo) && OpAt(38) == Some(AllocStruct) && OpAt(62) == Some(CallMethodDirectOut)
    ensures OpAt(63) == Some(MakeFunc) && OpAt(87) == Some(AllocArrayDyn) && OpAt(88) == None
  {
  }

  /** An instruction: its opcode byte, what that byte means, and its operand bytes. */
  datatype Instr = Instr(code: byte, op: OpCode, args: seq<byte>)

  predicate WellFormed(i: Instr) {
    OpAt(i.code) == Some(i.op) && |i.args| == Stride(i.op) - 1
  }

  predicate AllWellFormed(code: seq<Instr>) {
    forall k :: 0 <= k < |code| ==> WellFormed(code[k])
  }

  function EncodeOne(i: Instr): seq<byte> {
    [i.code] + i.args
  }

  function Encode(code: seq<Instr>): seq<byte> {
    if code == [] then [] else EncodeOne(code[0]) + Encode(code[1..])
  }

  /** The first instruction of the bytes, unless the opcode is unknown or the bytes end inside it. */
  function First(bc: seq<byte>): (r: Option<Instr>)
    ensures r.Some? ==> WellFormed(r.value) && Stride(r.value.op) <= |bc|
                        && EncodeOne(r.value) == bc[..Stride(r.value.op)]
  {
    if bc == [] || OpAt(bc[0]) == None || Stride(OpAt(bc[0]).value) > |bc| then None
    else Some(Instr(bc[0], OpAt(bc[0]).value, bc[1..Stride(OpAt(bc[0]).value)]))
  }

  /** The instructions a walk by strides passes, and the bytes where it stops. */
  function Split(bc: seq<byte>): (r: (seq<Instr>, seq<byte>))
    ensures AllWellFormed(r.0)
  {
    match First(bc)
    case None => ([], bc)
    case Some(i) =>
      var rest := Split(bc[Stride(i.op)..]);
      ([i] + rest.0, rest.1)
  }

  lemma {:induction false} EncodeConcat(a: seq<Instr>, b: seq<Instr>)
    ensures Encode(a + b) == Encode(a) + Encode(b)
  {
    if a == [] {
      assert a + b == b;
    } else {
      assert (a + b)[1..] == a[1..] + b;
      EncodeConcat(a[1..], b);
    }
  }

  lemma EncodeCons(i: Instr, code: seq<Instr>, left: seq<byte>)
    ensures Encode([i] + code) + left == EncodeOne(i) + (Encode(code) + left)
  {
    assert ([i] + code)[1..] == code;
    hide EncodeOne;
    assert EncodeOne(i) + (Encode(code) + left) == EncodeOne(i) + Encode(code) + left;
  }

  lemma SplitStep(bc: seq<byte>)
    requires First(bc).Some?
    ensures var i := First(bc).value;
            && Split(bc).0 == [i] + Split(bc[Stride(i.op)..]).0
            && Split(bc).1 == Split(bc[Stride(i.op)..]).1
            && EncodeOne(i) + bc[Stride(i.op)..] == bc
  {
    hide Stride, OpAt, EncodeOne;
  }

  /** The walk loses nothing: what it passed, re-encoded, and where it stopped, is the code. */
  lemma {:induction false} SplitEncodes(bc: seq<byte>)
    ensures Encode(Split(bc).0) + Split(bc).1 == bc
    decreases |bc|
  {
    if First(bc).Some? {
      var i := First(bc).value;
      var rest := bc[Stride(i.op)..];
      SplitStep(bc);
      hide *;
      SplitEncodes(rest);
      EncodeCons(i, Split(rest).0, Split(rest).1);
    } else {
      assert [] + bc == bc;
    }
  }

  /** Encoding is the walk's inverse, whatever non-instruction bytes follow. */
  lemma {:induction false} EncodeSplits(code: seq<Instr>, left: seq<byte>)
    requires AllWellFormed(code) && First(left) == None
    ensures Split(Encode(code) + left) == (code, left)
  {
    hide Stride, OpAt, First;
    if code == [] {
      assert Encode(code) + left == left;
    } else {
      var i, more := code[0], Encode(code[1..]) + left;
      var bc := Encode(code) + left;
      assert WellFormed(code[0]);
      assert bc == EncodeOne(i) + more;
      FirstOf(i, more);
      assert bc[Stride(i.op)..] == more;
      EncodeSplits(code[1..], left);
      assert [i] + code[1..] == code;
    }
  }

  lemma FirstOf(i: Instr, more: seq<byte>)
    requires WellFormed(i)
    ensures First(EncodeOne(i) + more) == Some(i)
  {
    hide Stride, OpAt;
    var bc := EncodeOne(i) + more;
    assert bc[0] == i.code;
    assert bc[1..Stride(i.op)] == i.args;
  }

  function WordAt(args: seq<byte>, k: nat): nat
    requires k + 1 < |args|
  {
    args[k] as int + 256 * args[k + 1] as int
  }
}
