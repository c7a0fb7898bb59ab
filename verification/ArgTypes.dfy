/**
 Argument types: the ops each one is read with (`user/argtype/argtype_complex.go`), the section of the
 record it produces, and the proof that the ops produce that section.
 */
module ArgTypes {
  import opened Bytes
  import opened Ops
  import opened Machine
  import opened Structured

  const MAX_BUF_READ_SIZE: u32 := 4096
  const IOVEC_SIZE: u32 := 16
  const MSGHDR_SIZE: u32 := 56

  datatype ArgType =
    | Num
    | Ptr(inner: ArgType)
    | Str
    | Std
    | StrArr
    | Struct(size: u32)
    | Arr(elem: u32, len: u32)
    | BufAll
    | BufLen(length: u32)
    | BufReg(reg: u32)
    | Vec
    | Iovec(count: u32)
    | Msghdr

  /** What the type builders accept: registers by name, buffers of at most 4096 bytes. */
  predicate WfType(t: ArgType) {
    match t
    case Ptr(inner) => WfType(inner)
    case BufLen(n) => n <= MAX_BUF_READ_SIZE
    case BufReg(r) => r < REG_ARM64_MAX
    case Iovec(r) => r < REG_ARM64_MAX
    case _ => true
  }

  /** `GetSize() * array_len`, a 32-bit product. */
  function ArrSize(elem: u32, len: u32): u32 { Wrap32(elem * len) }

  // ----- ops, as registered

  function IovecConfigs(): seq<OpConfig> {
    [NewValue(OPC_SET_READ_LEN, IOVEC_SIZE), OPC_SAVE_STRUCT, NewValue(OPC_SET_READ_LEN, MAX_BUF_READ_SIZE),
     ReadPtrLen(8), OPC_READ_POINTER, OPC_MOVE_POINTER_VALUE, OPC_SAVE_STRUCT]
  }

  function IovecLoop(): seq<OpConfig> {
    [OPC_SET_TMP_VALUE] + IovecConfigs() + [OPC_MOVE_TMP_VALUE, NewValue(OPC_ADD_OFFSET, IOVEC_SIZE)]
  }

  function StrArrLoop(): seq<OpConfig> { [OPC_SAVE_PTR_STRING, NewValue(OPC_ADD_OFFSET, 8)] }

  function InLoop(body: seq<OpConfig>): seq<OpConfig> { [OPC_FOR_BREAK] + body + [OPC_FOR_BREAK] }

  function MsghdrConfigs(): seq<OpConfig> {
    [NewValue(OPC_SET_READ_LEN, MSGHDR_SIZE), OPC_SAVE_STRUCT, OPC_SET_TMP_VALUE,
     NewValue(OPC_SET_READ_LEN, MAX_BUF_READ_SIZE), ReadPtrLen(40), ReadPtrAddr(32), OPC_SAVE_STRUCT,
     OPC_MOVE_TMP_VALUE, ReadPtrBreakCount(24), ReadPtrAddr(16)]
  }

  function TypeConfigs(t: ArgType): seq<OpConfig> {
    match t
    case Num => []
    case Ptr(inner) => [SaveStructOf(8)] + TypeConfigs(inner)
    case Str => [OPC_SAVE_STRING]
    case Std => [OPC_READ_STD_STRING, OPC_SAVE_STRING]
    case StrArr => [NewValue(OPC_SET_BREAK_COUNT, MAX_LOOP_COUNT)] + InLoop(StrArrLoop())
    case Struct(size) => [NewValue(OPC_SET_READ_LEN, size), OPC_SAVE_STRUCT]
    case Arr(elem, len) => [SaveStructOf(ArrSize(elem, len))]
    case BufAll => [SaveStructOf(MAX_BUF_READ_SIZE)]
    case BufLen(n) => [NewValue(OPC_SET_READ_LEN, n), OPC_SAVE_STRUCT]
    case BufReg(r) => [NewValue(OPC_SET_READ_LEN, MAX_BUF_READ_SIZE), ReadRegLen(r), OPC_SAVE_STRUCT]
    case Vec => IovecConfigs()
    case Iovec(r) => [ReadRegBreakCount(r), OPC_SAVE_REG] + InLoop(IovecLoop())
    case Msghdr => MsghdrConfigs() + InLoop(IovecLoop())
  }

  // ----- the same ops with their loop structure

  /** The iovec loop body in three parts: the vector, the buffer's length and address, the buffer. */
  function PairOps(rest: seq<Op>): seq<Op> {
    [Op(SetReadLen, Skip, Skip, 16)] + ([Op(SaveStruct, Skip, Skip, 0)] + rest)
  }

  function VectorOps(rest: seq<Op>): seq<Op> { [Op(SetTmpValue, Skip, Skip, 0)] + PairOps(rest) }

  function LocateOps(rest: seq<Op>): seq<Op> {
    [Op(SetReadLen, Skip, Skip, 4096)] + ([Op(ReadPointer, AddOffset, SetReadLenPointerValue, 8)]
      + ([Op(ReadPointer, Skip, Skip, 0)] + ([Op(MovePointerValue, Skip, Skip, 0)] + rest)))
  }

  function BufferOps(rest: seq<Op>): seq<Op> {
    [Op(SaveStruct, Skip, Skip, 0)] + ([Op(MoveTmpValue, Skip, Skip, 0)] + ([Op(AddOffset, Skip, Skip, 16)] + rest))
  }

  /** A single iovec is read without the loop around it. */
  function VecOps(): seq<Op> { PairOps(LocateOps([Op(SaveStruct, Skip, Skip, 0)] + [])) }

  function IovecBody(): seq<Op> { VectorOps(LocateOps(BufferOps([]))) }

  function StrArrBody(): seq<Op> { [Op(SavePtrString, Skip, Skip, 0)] + ([Op(AddOffset, Skip, Skip, 8)] + []) }

  /** The msghdr ops: header and control buffer, then the vector. */
  function HeaderOps(rest: seq<Op>): seq<Op> {
    [Op(SetReadLen, Skip, Skip, 56)] + ([Op(SaveStruct, Skip, Skip, 0)] + ([Op(SetTmpValue, Skip, Skip, 0)] + rest))
  }

  function ControlOps(rest: seq<Op>): seq<Op> {
    [Op(SetReadLen, Skip, Skip, 4096)] + ([Op(ReadPointer, AddOffset, SetReadLenPointerValue, 40)]
      + ([Op(ReadPointer, AddOffset, MovePointerValue, 32)] + ([Op(SaveStruct, Skip, Skip, 0)] + rest)))
  }

  function VectorAddrOps(rest: seq<Op>): seq<Op> {
    [Op(MoveTmpValue, Skip, Skip, 0)] + ([Op(ReadPointer, AddOffset, SetBreakCountPointerValue, 24)]
      + ([Op(ReadPointer, AddOffset, MovePointerValue, 16)] + rest))
  }

  function MsghdrOps(): seq<Op> { HeaderOps(ControlOps(VectorAddrOps([]))) }

  lemma LoopsMatch()
    ensures OpsOf(IovecLoop()) == IovecBody() && OpsOf(StrArrLoop()) == StrArrBody()
    ensures OpsOf(MsghdrConfigs()) == MsghdrOps() && OpsOf(IovecConfigs()) == VecOps()
  {
  }

  lemma LoopCosts()
    ensures OpsCost(IovecBody()) == 11 && OpsCost(StrArrBody()) == 2
  {
    var b, l := BufferOps([]), LocateOps(BufferOps([]));
    Cost3(b[0], b[1], b[2], []);
    Cost4(l[0], l[1], l[2], l[3], b);
    Cost3(Op(SetTmpValue, Skip, Skip, 0), Op(SetReadLen, Skip, Skip, 16), Op(SaveStruct, Skip, Skip, 0), l);
    CostCons(Op(AddOffset, Skip, Skip, 8), []);
    CostCons(Op(SavePtrString, Skip, Skip, 0), [Op(AddOffset, Skip, Skip, 8)] + []);
  }

  lemma VecCost()
    ensures OpsCost(VecOps()) == 8
  {
    var last := [Op(SaveStruct, Skip, Skip, 0)] + [];
    var l := LocateOps(last);
    CostCons(Op(SaveStruct, Skip, Skip, 0), []);
    Cost4(l[0], l[1], l[2], l[3], last);
    CostCons(Op(SaveStruct, Skip, Skip, 0), l);
    CostCons(Op(SetReadLen, Skip, Skip, 16), [Op(SaveStruct, Skip, Skip, 0)] + l);
  }

  lemma MsghdrCost()
    ensures OpsCost(MsghdrOps()) == 14
  {
    var v, c := VectorAddrOps([]), ControlOps(VectorAddrOps([]));
    Cost3(v[0], v[1], v[2], []);
    Cost4(c[0], c[1], c[2], c[3], v);
    Cost3(Op(SetReadLen, Skip, Skip, 56), Op(SaveStruct, Skip, Skip, 0), Op(SetTmpValue, Skip, Skip, 0), c);
  }

  lemma CostCons(op: Op, rest: seq<Op>)
    ensures OpsCost([op] + rest) == OpCost(op) + OpsCost(rest)
  {
    assert ([op] + rest)[1..] == rest;
  }

  lemma Cost3(a: Op, b: Op, c: Op, rest: seq<Op>)
    ensures OpsCost([a] + ([b] + ([c] + rest))) == OpCost(a) + OpCost(b) + OpCost(c) + OpsCost(rest)
  {
    CostCons(c, rest);
    CostCons(b, [c] + rest);
    CostCons(a, [b] + ([c] + rest));
  }

  lemma Cost4(a: Op, b: Op, c: Op, d: Op, rest: seq<Op>)
    ensures OpsCost([a] + ([b] + ([c] + ([d] + rest)))) == OpCost(a) + OpCost(b) + OpCost(c) + OpCost(d) + OpsCost(rest)
  {
    Cost3(b, c, d, rest);
    CostCons(a, [b] + ([c] + ([d] + rest)));
  }

  function TypeProg(t: ArgType): seq<Stmt> {
    match t
    case Num => []
    case Ptr(inner) => Dos([SaveStructOf(8).op]) + TypeProg(inner)
    case StrArr => Dos([NewValue(OPC_SET_BREAK_COUNT, MAX_LOOP_COUNT).op]) + [Loop(StrArrBody())]
    case Iovec(r) => Dos([ReadRegBreakCount(r).op, OPC_SAVE_REG.op]) + [Loop(IovecBody())]
    case Msghdr => Dos(MsghdrOps()) + [Loop(IovecBody())]
    case _ => Dos(OpsOf(TypeConfigs(t)))
  }

  lemma FlattenOneLoop(body: seq<Op>)
    ensures Flatten([Loop(body)]) == [FOR] + body + [FOR]
  {
    var l := [Loop(body)];
    assert l[1..] == [] && Flatten(l) == FlattenStmt(l[0]) + [];
  }

  lemma FlattenLoop(configs: seq<OpConfig>, body: seq<OpConfig>)
    ensures Flatten(Dos(OpsOf(configs)) + [Loop(OpsOf(body))]) == OpsOf(configs + InLoop(body))
  {
    FlattenAppend(Dos(OpsOf(configs)), [Loop(OpsOf(body))]);
    FlattenDos(OpsOf(configs));
    FlattenOneLoop(OpsOf(body));
    assert OpsOf([OPC_FOR_BREAK]) == [FOR];
    OpsOfAppend([OPC_FOR_BREAK], body);
    OpsOfAppend([OPC_FOR_BREAK] + body, [OPC_FOR_BREAK]);
    OpsOfAppend(configs, InLoop(body));
  }

  lemma LoopBodiesAreBodies()
    ensures Body(StrArrBody()) && Body(IovecBody())
  {
  }

  lemma MsghdrIsTop()
    ensures Wf(Dos(MsghdrOps()))
  {
  }

  lemma VecIsTop()
    ensures Wf(Dos(VecOps()))
  {
  }

  lemma WfDosLoop(ops: seq<Op>, body: seq<Op>)
    requires Wf(Dos(ops)) && Body(body)
    ensures Wf(Dos(ops) + [Loop(body)])
  {
  }

  predicate AllTop(ops: seq<Op>) { forall i :: 0 <= i < |ops| ==> TopOp(ops[i]) }

  lemma TopIsWf(ops: seq<Op>)
    requires AllTop(ops)
    ensures Wf(Dos(ops))
  {
  }

  lemma BothAreWf(p: seq<Stmt>, q: seq<Stmt>)
    requires Wf(p) && Wf(q)
    ensures Wf(p + q)
  {
  }

  lemma PointerIsWf(t: ArgType)
    requires t.Ptr? && Wf(TypeProg(t.inner))
    ensures Wf(TypeProg(t))
  {
    TopIsWf([SaveStructOf(8).op]);
    BothAreWf(Dos([SaveStructOf(8).op]), TypeProg(t.inner));
  }

  lemma StringsAreWf(t: ArgType)
    requires t.StrArr?
    ensures Wf(TypeProg(t))
  {
    var ops := [NewValue(OPC_SET_BREAK_COUNT, MAX_LOOP_COUNT).op];
    LoopBodiesAreBodies();
    TopIsWf(ops);
    WfDosLoop(ops, StrArrBody());
  }

  lemma VectorsAreWf(t: ArgType)
    requires t.Iovec?
    ensures Wf(TypeProg(t))
  {
    var ops := [ReadRegBreakCount(t.count).op, OPC_SAVE_REG.op];
    LoopBodiesAreBodies();
    TopIsWf(ops);
    WfDosLoop(ops, IovecBody());
  }

  lemma HeaderIsWf(t: ArgType)
    requires t.Msghdr?
    ensures Wf(TypeProg(t))
  {
    LoopBodiesAreBodies();
    MsghdrIsTop();
    WfDosLoop(MsghdrOps(), IovecBody());
  }

  lemma FlatIsWf(t: ArgType)
    requires !t.Num? && !t.Ptr? && !t.StrArr? && !t.Vec? && !t.Iovec? && !t.Msghdr?
    ensures Wf(TypeProg(t))
  {
    FlatIsTop(TypeConfigs(t), t);
    TopIsWf(OpsOf(TypeConfigs(t)));
  }

  predicate TopConfigs(configs: seq<OpConfig>) { forall i :: 0 <= i < |configs| ==> TopOp(configs[i].op) }

  lemma FlatIsTop(configs: seq<OpConfig>, t: ArgType)
    requires !t.Num? && !t.Ptr? && !t.StrArr? && !t.Vec? && !t.Iovec? && !t.Msghdr? && configs == TypeConfigs(t)
    ensures TopConfigs(configs)
  {
  }

  lemma VecIsWf(t: ArgType)
    requires t.Vec?
    ensures Wf(TypeProg(t))
  {
    LoopsMatch();
    VecIsTop();
  }

  lemma {:induction false} TypeIsWf(t: ArgType)
    ensures Wf(TypeProg(t))
  {
    if t.Ptr? {
      TypeIsWf(t.inner);
      PointerIsWf(t);
    } else if t.StrArr? {
      StringsAreWf(t);
    } else if t.Iovec? {
      VectorsAreWf(t);
    } else if t.Msghdr? {
      HeaderIsWf(t);
    } else if t.Vec? {
      VecIsWf(t);
    } else if !t.Num? {
      FlatIsWf(t);
    }
  }

  /** The registered op list of every type is well bracketed: it is the flattening of its program. */
  lemma {:induction false} TypeIsBracketed(t: ArgType)
    ensures Flatten(TypeProg(t)) == OpsOf(TypeConfigs(t))
  {
    LoopsMatch();
    match t
    case Num =>
    case Ptr(inner) =>
      TypeIsBracketed(inner);
      FlattenDos([SaveStructOf(8).op]);
      FlattenAppend(Dos([SaveStructOf(8).op]), TypeProg(inner));
      OpsOfAppend([SaveStructOf(8)], TypeConfigs(inner));
      assert OpsOf([SaveStructOf(8)]) == [SaveStructOf(8).op];
    case StrArr =>
      var c := [NewValue(OPC_SET_BREAK_COUNT, MAX_LOOP_COUNT)];
      assert OpsOf(c) == [c[0].op];
      FlattenLoop(c, StrArrLoop());
    case Iovec(r) =>
      var c := [ReadRegBreakCount(r), OPC_SAVE_REG];
      assert OpsOf(c) == [c[0].op, c[1].op];
      FlattenLoop(c, IovecLoop());
    case Msghdr =>
      FlattenLoop(MsghdrConfigs(), IovecLoop());
    case _ =>
      FlattenDos(OpsOf(TypeConfigs(t)));
  }
}
