/** What the instruction set documents each opcode's operands to be. */
module OperandShapes {
  import opened Bytecode

  /** The tables of a module that operands index. */
  datatype Channel = Strings | Functions | Classes | Interfaces | Structs | ArrayTypes | Enums | Slots

  /** What an operand is: nothing, an immediate of so many bytes, an index into a table, or the
      class or interface index of a lazy-initialization owner and the word that says which. */
  datatype Field = Nothing | Plain(width: nat) | Index(channel: Channel) | Owner | OwnerKind

  function Width(f: Field): nat {
    match f
    case Nothing => 0
    case Plain(n) => n
    case _ => 2
  }

  /** The operands in order; no instruction has more than five. */
  datatype Shape = Shape(f1: Field, f2: Field, f3: Field, f4: Field, f5: Field)

  const W := Plain(2)
  const K := Plain(1)

  function Operands(f1: Field, f2: Field, f3: Field, f4: Field): Shape {
    Shape(f1, f2, f3, f4, Nothing)
  }

  /** The opcodes up to the statement anchor. */
  predicate IsScalar(op: OpCode) {
    match op
    case Return | Jump | JumpIfNot | Stop | AssertFail | ConstInt32 | ConstFloat | ConstString | ConstZero |
      ConstInt64 | ConstDouble | VarLocal | Assign | PrimCast | Primtostr | Enumtostr | Arraytostr | Add | Sub |
      Mul | Div | Mod | Neg | Cmp | LogicalNot | CallFunc | ParaEnd | Switch | Case | Concatstr | Eqstr | Nestr |
      Lessstr | LessEqualstr | Greaterstr | GreaterEqualstr | StrLen | DebugInfo => true
    case _ => false
  }

  /** From the structs to the out-parameter calls. */
  predicate IsObject(op: OpCode) {
    match op
    case AllocStruct | LoadField | StoreField | CopyStruct | New | CallMethod | CallMethodDirect | CallIntrinsic |
      NullCheck | AllocArrayN | LoadElementN | StoreElementN | AssembleArrayN | LoadElementFlat | ArrayLength |
      ArrayShape | MakeArrayView | Box | Unbox | CheckCast | Throw | Rethrow | PopHandler | CallFuncOut |
      CallMethodDirectOut => true
    case _ => false
  }

  /** The operand shapes, opcode by opcode, as the instruction set documents them. */
  function ShapeOf(op: OpCode): Shape {
    if IsScalar(op) then ScalarShape(op) else if IsObject(op) then ObjectShape(op) else LaterShape(op)
  }

  function ScalarShape(op: OpCode): Shape
    requires IsScalar(op)
  {
    match op
    case Return => Operands(Nothing, Nothing, Nothing, Nothing)
    case Jump => Operands(W, Nothing, Nothing, Nothing)
    case JumpIfNot => Operands(W, W, Nothing, Nothing)
    case Stop => Operands(Nothing, Nothing, Nothing, Nothing)
    case AssertFail => Operands(Index(Strings), Nothing, Nothing, Nothing)
    case ConstInt32 => Operands(Plain(4), Nothing, Nothing, Nothing)
    case ConstFloat => Operands(Plain(4), Nothing, Nothing, Nothing)
    case ConstString => Operands(Index(Strings), Nothing, Nothing, Nothing)
    case ConstZero => Operands(Nothing, Nothing, Nothing, Nothing)
    case ConstInt64 => Operands(Plain(8), Nothing, Nothing, Nothing)
    case ConstDouble => Operands(Plain(8), Nothing, Nothing, Nothing)
    case VarLocal => Operands(W, Nothing, Nothing, Nothing)
    case Assign => Operands(W, Nothing, Nothing, Nothing)
    case PrimCast => Operands(K, K, Nothing, Nothing)
    case Primtostr => Operands(K, Nothing, Nothing, Nothing)
    case Enumtostr => Operands(Index(Enums), Nothing, Nothing, Nothing)
    case Arraytostr => Operands(Nothing, Nothing, Nothing, Nothing)
    case Add | Sub | Mul | Div | Mod => Operands(K, W, W, Nothing)
    case Neg => Operands(K, W, Nothing, Nothing)
    case Cmp => Operands(K, K, W, W)
    case LogicalNot => Operands(W, Nothing, Nothing, Nothing)
    case CallFunc => Operands(Index(Functions), W, Nothing, Nothing)
    case ParaEnd => Operands(Nothing, Nothing, Nothing, Nothing)
    case Switch => Operands(W, Nothing, Nothing, Nothing)
    case Case => Operands(W, Nothing, Nothing, Nothing)
    case Concatstr | Eqstr | Nestr | Lessstr | LessEqualstr | Greaterstr | GreaterEqualstr | StrLen =>
      Operands(W, W, Nothing, Nothing)
    case DebugInfo => Operands(W, Nothing, Nothing, Nothing)
  }

  function ObjectShape(op: OpCode): Shape
    requires IsObject(op)
  {
    match op
    case AllocStruct => Operands(W, Index(Structs), W, Nothing)
    case LoadField => Operands(W, W, W, Nothing)
    case StoreField => Operands(W, W, W, Nothing)
    case CopyStruct => Operands(W, W, Index(Structs), Nothing)
    case New => Operands(W, Index(Classes), Nothing, Nothing)
    case CallMethod => Operands(Index(Strings), W, Nothing, Nothing)
    case CallMethodDirect => Operands(Index(Functions), W, Nothing, Nothing)
    case CallIntrinsic => Operands(W, W, Nothing, Nothing)
    case NullCheck => Operands(W, Nothing, Nothing, Nothing)
    case AllocArrayN => Operands(W, Index(ArrayTypes), W, W)
    case LoadElementN => Operands(W, W, W, W)
    case StoreElementN => Operands(W, W, W, W)
    case AssembleArrayN => Operands(W, Index(ArrayTypes), W, W)
    case LoadElementFlat => Operands(W, W, W, Nothing)
    case ArrayLength => Operands(W, W, Nothing, Nothing)
    case ArrayShape => Operands(W, W, Nothing, Nothing)
    case MakeArrayView => Shape(W, W, Index(ArrayTypes), W, W)
    case Box => Operands(K, Nothing, Nothing, Nothing)
    case Unbox => Operands(K, Nothing, Nothing, Nothing)
    case CheckCast => Operands(Index(Classes), Nothing, Nothing, Nothing)
    case Throw => Operands(W, Nothing, Nothing, Nothing)
    case Rethrow => Operands(Nothing, Nothing, Nothing, Nothing)
    case PopHandler => Operands(Nothing, Nothing, Nothing, Nothing)
    case CallFuncOut => Operands(Index(Functions), W, Plain(4), Nothing)
    case CallMethodDirectOut => Operands(Index(Functions), W, Plain(4), Nothing)
  }

  /** Function values, shifts, static slots, lazy initialization and unannotated arrays. */
  function LaterShape(op: OpCode): Shape
    requires !IsScalar(op) && !IsObject(op)
  {
    match op
    case MakeFunc => Operands(Index(Functions), Nothing, Nothing, Nothing)
    case CallDelegate => Operands(W, W, Nothing, Nothing)
    case Eqfunc => Operands(W, W, Nothing, Nothing)
    case Nefunc => Operands(W, W, Nothing, Nothing)
    case Functostr => Operands(Nothing, Nothing, Nothing, Nothing)
    case MakeBoundFunc => Operands(Index(Functions), Nothing, Nothing, Nothing)
    case MakeVFunc => Operands(Index(Strings), Nothing, Nothing, Nothing)
    case CallDelegateOut => Operands(W, W, Plain(4), Nothing)
    case StrByteAt => Operands(W, W, W, Nothing)
    case StrForeachStep => Operands(W, W, W, W)
    case Shl => Operands(K, W, W, Nothing)
    case Shr => Operands(K, W, W, Nothing)
    case LoadStatic => Operands(W, Index(Slots), Nothing, Nothing)
    case StoreStatic => Operands(Index(Slots), W, Nothing, Nothing)
    case ClassInitGate => Operands(Owner, W, OwnerKind, Nothing)
    case ClassInitDone => Operands(Owner, OwnerKind, Nothing, Nothing)
    case ClassInitFail => Operands(Owner, OwnerKind, Nothing, Nothing)
    case SlotInitGate => Operands(Index(Slots), W, Nothing, Nothing)
    case SlotInitDone => Operands(Index(Slots), Nothing, Nothing, Nothing)
    case SlotInitFail => Operands(Index(Slots), Nothing, Nothing, Nothing)
    case CheckArrayRank => Operands(W, W, W, Nothing)
    case CheckArrayType => Operands(W, W, Index(ArrayTypes), Nothing)
    case LoadElementDyn => Operands(W, W, W, W)
    case StoreElementDyn => Operands(W, W, W, W)
    case AllocArrayDyn => Operands(W, Index(ArrayTypes), W, Nothing)
  }

  /** The documented operands take the bytes the extent table gives the instruction. */
  ghost predicate Fills(op: OpCode, s: Shape) {
    Stride(op) == 1 + Width(s.f1) + Width(s.f2) + Width(s.f3) + Width(s.f4) + Width(s.f5)
  }

  /** The extent table and the documented shapes agree on every opcode. */
  lemma ShapesFillStrides(op: OpCode)
    ensures Fills(op, ShapeOf(op))
  {
    hide Fills, IsScalar, IsObject, ScalarShape, ObjectShape, LaterShape;
    if IsScalar(op) {
      ScalarShapesFill(op);
    } else if IsObject(op) {
      ObjectShapesFill(op);
    } else {
      LaterShapesFill(op);
    }
  }

  lemma ScalarShapesFill(op: OpCode)
    requires IsScalar(op)
    ensures Fills(op, ScalarShape(op))
  {
  }

  lemma ObjectShapesFill(op: OpCode)
    requires IsObject(op)
    ensures Fills(op, ObjectShape(op))
  {
  }

  lemma LaterShapesFill(op: OpCode)
    requires !IsScalar(op) && !IsObject(op)
    ensures Fills(op, LaterShape(op))
  {
  }
}
