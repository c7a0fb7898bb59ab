/** Every argument type's ops append exactly its section, at exactly its cost. */
module Emission {
  import opened Bytes
  import opened Memory
  import opened EventBuffer
  import opened Ops
  import opened Machine
  import opened Structured
  import opened Frames
  import opened Effects
  import opened ArgTypes
  import opened Sections

  /** What holds between arguments: no loop open, nothing blacklisted. */
  predicate Idle(ctl: Ctl) { ctl.loopCount == 0 && !ctl.black }

  /** Running `ops` from `m` goes on to `m1`, having written `fs`. */
  ghost predicate RunsTo(s: Sem, ops: seq<Op>, ctl: Ctl, m: Mach, m1: Mach, fs: seq<Frame>) {
    s.run(ops, ctl, m) == Go(ctl, m1) && s.wrote(m, m1, fs)
  }

  lemma StringOps(s: Sem, ctl: Ctl, m: Mach) returns (m1: Mach)
    requires Valid(s) && Idle(ctl)
    ensures RunsTo(s, [OPC_SAVE_STRING.op], ctl, m, m1, [StringFrame(s.env.mem, m.readAddr)])
    ensures m1.readAddr == Untag(m.readAddr)
    ensures m1.strLen == LenOr(TextLen(s.env.mem, m.readAddr, Off(m)), m.strLen)
  {
    m1 := String(s, [], ctl, m);
    Nothing(s, ctl, m1);
    assert [OPC_SAVE_STRING.op] == [Op(SaveString, Skip, Skip, 0)] + [];
  }

  lemma StdStringOps(s: Sem, ctl: Ctl, m: Mach) returns (m1: Mach)
    requires Valid(s) && Idle(ctl)
    ensures var data := StdStringData(s.env.mem, m.readAddr);
            RunsTo(s, [OPC_READ_STD_STRING.op, OPC_SAVE_STRING.op], ctl, m, m1, [StringFrame(s.env.mem, data)])
            && m1.readAddr == Untag(data)
    ensures m1.strLen == LenOr(TextLen(s.env.mem, StdStringData(s.env.mem, m.readAddr), Off(m)), m.strLen)
  {
    var data := StdStringData(s.env.mem, m.readAddr);
    var a := m.(readAddr := data);
    var rest := [OPC_SAVE_STRING.op];
    StdString(s, rest, ctl, m);
    m1 := StringOps(s, ctl, a);
    Moved(s, m, a, m1, m1, [StringFrame(s.env.mem, data)]);
    assert [OPC_READ_STD_STRING.op, OPC_SAVE_STRING.op] == [Op(ReadStdString, Skip, Skip, 0)] + rest;
  }

  lemma StructOps(s: Sem, size: u32, ctl: Ctl, m: Mach) returns (m1: Mach)
    requires Valid(s) && Idle(ctl)
    ensures RunsTo(s, [NewValue(OPC_SET_READ_LEN, size).op, OPC_SAVE_STRUCT.op], ctl, m, m1,
                  [StructFrame(s.env.mem, m.readAddr, Min(size, MAX_BYTES_ARR_SIZE))])
    ensures m1.readAddr == Untag(m.readAddr) && m1.strLen == m.strLen
  {
    var rest := [Op(SaveStruct, Skip, Skip, 0)] + [];
    var a := m.(readLen := size);
    SetLen(s, size, rest, ctl, m);
    m1 := Structure(s, [], ctl, a);
    Moved(s, m, a, m1, m1, [StructFrame(s.env.mem, m.readAddr, Min(size, MAX_BYTES_ARR_SIZE))]);
    Nothing(s, ctl, m1);
    assert [NewValue(OPC_SET_READ_LEN, size).op, OPC_SAVE_STRUCT.op] == [Op(SetReadLen, Skip, Skip, size)] + rest;
  }

  lemma FusedStructOps(s: Sem, size: u32, ctl: Ctl, m: Mach) returns (m1: Mach)
    requires Valid(s) && Idle(ctl)
    ensures RunsTo(s, [SaveStructOf(size).op], ctl, m, m1,
                  [StructFrame(s.env.mem, m.readAddr, Min(size, MAX_BYTES_ARR_SIZE))])
    ensures m1.readAddr == Untag(m.readAddr) && m1.strLen == m.strLen
  {
    m1 := LenStruct(s, size, [], ctl, m);
    Nothing(s, ctl, m1);
    assert [SaveStructOf(size).op] == [Op(SetReadLen, Skip, SaveStruct, size)] + [];
  }

  lemma RegBufferOps(s: Sem, r: u32, ctl: Ctl, m: Mach) returns (m1: Mach)
    requires Valid(s) && Idle(ctl) && r < REG_ARM64_MAX
    ensures RunsTo(s, OpsOf(TypeConfigs(BufReg(r))), ctl, m, m1,
                  [StructFrame(s.env.mem, m.readAddr, Min(s.env.regs[r], MAX_BUF_READ_SIZE))])
    ensures m1.readAddr == Untag(m.readAddr) && m1.strLen == m.strLen
  {
    var n := Min(s.env.regs[r], MAX_BUF_READ_SIZE);
    var ops2 := [Op(SaveStruct, Skip, Skip, 0)] + [];
    var ops1 := [Op(ReadReg, SetRegIndex, SetReadLenRegValue, r)] + ops2;
    var a := m.(readLen := 4096);
    SetLen(s, 4096, ops1, ctl, m);
    RegLen(s, r, ops2, ctl, a);
    var b := a.(regIndex := r, regValue := s.env.regs[r], readLen := n);
    m1 := Structure(s, [], ctl, b);
    Moved(s, m, b, m1, m1, [StructFrame(s.env.mem, m.readAddr, n)]);
    Nothing(s, ctl, m1);
    assert OpsOf(TypeConfigs(BufReg(r))) == [Op(SetReadLen, Skip, Skip, 4096)] + ops1;
  }

  function CountCode(r: u32): seq<Op> {
    [Op(ReadReg, SetRegIndex, SetBreakCountRegValue, r), Op(SaveReg, Skip, Skip, 0)]
  }

  /** READ_REG fused with SET_BREAK_COUNT, then SAVE_REG: the head of an iovec argument. */
  lemma CountOps(s: Sem, r: u32, ctl: Ctl, m: Mach) returns (m1: Mach)
    requires Valid(s) && Idle(ctl) && r < REG_ARM64_MAX
    ensures s.run(CountCode(r), ctl, m) == Go(ctl.(breakCount := CapBreak(s.env.regs[r])), m1)
    ensures s.wrote(m, m1, [Word(s.env.regs[r])]) && m1.readAddr == m.readAddr && m1.strLen == m.strLen
  {
    var v := s.env.regs[r];
    var rest := [Op(SaveReg, Skip, Skip, 0)] + [];
    var ctl1 := ctl.(breakCount := CapBreak(v));
    RegBreak(s, r, rest, ctl, m);
    var a := m.(regIndex := r, regValue := v);
    m1 := SaveRegValue(s, [], ctl1, a);
    Moved(s, m, a, m1, m1, [Word(v)]);
    Nothing(s, ctl1, m1);
    assert CountCode(r) == [Op(ReadReg, SetRegIndex, SetBreakCountRegValue, r)] + rest;
  }

  // ----- loops as programs

  /** `p` from `m` goes on to `m1` having written `fs`, in exactly `cost` turns. */
  ghost predicate Emits(s: Sem, p: seq<Stmt>, ctl: Ctl, m: Mach, ctl1: Ctl, m1: Mach, fs: seq<Frame>, cost: nat) {
    s.prog(p, ctl, m).0 == Go(ctl1, m1) && s.prog(p, ctl, m).1 == cost && s.wrote(m, m1, fs) && Idle(ctl1)
  }

  lemma IovecHandled(s: Sem)
    requires Valid(s)
    ensures HandlesIovec(s, IovecBody())
  {
    LoopBodiesAreBodies();
    LoopCosts();
    forall ctl: Ctl, m: Mach | !ctl.black
      ensures var r := s.run(IovecBody(), ctl, m);
              && r.Go? && r.ctl == ctl && s.wrote(m, r.m, IovPair(s.env.mem, m.readAddr))
              && r.m.readAddr == Wrap64(m.readAddr + 16) && r.m.strLen == m.strLen
    {
      var m1 := IovTurn(s, ctl, m);
    }
  }

  lemma StringHandled(s: Sem)
    requires Valid(s)
    ensures HandlesString(s, StrArrBody())
  {
    LoopBodiesAreBodies();
    LoopCosts();
    forall ctl: Ctl, m: Mach | !ctl.black
      ensures var r := s.run(StrArrBody(), ctl, m);
              && r.Go? && r.ctl == AfterString(s.env.mem, ctl, m)
              && s.wrote(m, r.m, PtrStringFrames(s.env.mem, m.readAddr))
              && r.m.readAddr == Wrap64(m.readAddr + 8) && r.m.strLen == m.strLen
    {
      var m1 := StringTurn(s, ctl, m);
    }
  }

  /**
   The paired FOR_BREAK ops around the iovec body run it exactly max(1, min(32, n)) times for a count
   register or field holding `n`, the i-th time 16 * i bytes further on, and leave the loop registers 0.
   */
  lemma IovProgram(s: Sem, body: seq<Op>, ctl: Ctl, m: Mach, n: u64) returns (m1: Mach)
    requires Valid(s) && Idle(ctl) && ctl.breakCount == CapBreak(n) && HandlesIovec(s, body)
    ensures Emits(s, [Loop(body)], ctl, m, ctl.(breakCount := 0), m1, IovFrames(s.env.mem, m.readAddr, Turns(n)),
                  1 + 12 * Turns(n))
    ensures m1.strLen == m.strLen
  {
    ProgLoop(s, body, ctl, m);
    m1 := IovLoop(s, body, EnterLoop(ctl), m, Turns(n));
  }

  lemma StringsProgram(s: Sem, body: seq<Op>, ctl: Ctl, m: Mach) returns (m1: Mach)
    requires Valid(s) && Idle(ctl) && ctl.breakCount == MAX_LOOP_COUNT && HandlesString(s, body)
    ensures Emits(s, [Loop(body)], ctl, m, ctl.(breakCount := 0), m1,
                  SentStrings(s.env.mem, m.readAddr, MAX_LOOP_COUNT, Off(m)),
                  1 + 3 * SentTurns(s.env.mem, m.readAddr, MAX_LOOP_COUNT, Off(m)))
    ensures m1.strLen == m.strLen
  {
    ProgLoop(s, body, ctl, m);
    m1 := StringsLoop(s, body, EnterLoop(ctl), m, MAX_LOOP_COUNT);
  }

  // ----- per type

  /** The ops of `t` go on to `m1`, having saved its section, in exactly its cost. */
  ghost predicate EmitsType(s: Sem, t: ArgType, ctl: Ctl, m: Mach, ctl1: Ctl, m1: Mach)
    requires WfType(t)
  {
    Emits(s, TypeProg(t), ctl, m, ctl1, m1, Sent(s.env, t, m.readAddr, Off(m)), TypeCost(s.env, t, m.readAddr, Off(m)))
  }

  lemma EmitsAs(s: Sem, t: ArgType, p: seq<Stmt>, ctl: Ctl, m: Mach, ctl1: Ctl, m1: Mach, fs: seq<Frame>, cost: nat)
    requires WfType(t) && TypeProg(t) == p && Emits(s, p, ctl, m, ctl1, m1, fs, cost)
    requires Sent(s.env, t, m.readAddr, Off(m)) == fs && TypeCost(s.env, t, m.readAddr, Off(m)) == cost
    ensures EmitsType(s, t, ctl, m, ctl1, m1)
  {
  }

  lemma EmitsDos(s: Sem, ops: seq<Op>, ctl: Ctl, m: Mach, ctl1: Ctl, m1: Mach, fs: seq<Frame>)
    requires Valid(s) && Idle(ctl) && Idle(ctl1) && Wf(Dos(ops))
    requires s.run(ops, ctl, m) == Go(ctl1, m1) && s.wrote(m, m1, fs)
    ensures Emits(s, Dos(ops), ctl, m, ctl1, m1, fs, OpsCost(ops))
  {
    ProgDos(s, ops, ctl, m, ctl1, m1);
  }

  lemma EmitsBoth(s: Sem, p: seq<Stmt>, q: seq<Stmt>, ctl: Ctl, m: Mach, ctl1: Ctl, m1: Mach, ctl2: Ctl, m2: Mach,
                  a: seq<Frame>, b: seq<Frame>, i: nat, j: nat)
    requires Valid(s) && Idle(ctl) && Wf(p) && Wf(q)
    requires Emits(s, p, ctl, m, ctl1, m1, a, i) && Emits(s, q, ctl1, m1, ctl2, m2, b, j)
    ensures Emits(s, p + q, ctl, m, ctl2, m2, a + b, i + j)
  {
    ProgAppend(s, p, q, ctl, m);
    WroteThen(s, m, m1, m2, a, b);
  }

  predicate IsFlat(t: ArgType) { t.Str? || t.Std? || t.Struct? || t.Arr? || t.BufAll? || t.BufLen? || t.BufReg? }

  lemma OpsOf1(a: OpConfig)
    ensures OpsOf([a]) == [a.op]
  {
  }

  lemma OpsOf2(a: OpConfig, b: OpConfig)
    ensures OpsOf([a, b]) == [a.op, b.op]
  {
  }

  lemma FlatRuns(s: Sem, t: ArgType, ctl: Ctl, m: Mach) returns (m1: Mach)
    requires Valid(s) && WfType(t) && IsFlat(t) && Idle(ctl)
    ensures RunsTo(s, OpsOf(TypeConfigs(t)), ctl, m, m1, Section(s.env, t, m.readAddr))
    ensures m1.readAddr == DataAddr(s.env.mem, t, m.readAddr)
    ensures m1.strLen == LenOr(LengthSet(s.env.mem, t, m.readAddr, Off(m)), m.strLen)
  {
    match t
    case Str =>
      OpsOf1(OPC_SAVE_STRING);
      m1 := StringOps(s, ctl, m);
    case Std =>
      OpsOf2(OPC_READ_STD_STRING, OPC_SAVE_STRING);
      m1 := StdStringOps(s, ctl, m);
    case Struct(size) =>
      OpsOf2(NewValue(OPC_SET_READ_LEN, size), OPC_SAVE_STRUCT);
      m1 := StructOps(s, size, ctl, m);
    case Arr(elem, len) =>
      OpsOf1(SaveStructOf(ArrSize(elem, len)));
      m1 := FusedStructOps(s, ArrSize(elem, len), ctl, m);
    case BufAll =>
      OpsOf1(SaveStructOf(MAX_BUF_READ_SIZE));
      m1 := FusedStructOps(s, MAX_BUF_READ_SIZE, ctl, m);
    case BufLen(n) =>
      OpsOf2(NewValue(OPC_SET_READ_LEN, n), OPC_SAVE_STRUCT);
      m1 := StructOps(s, n, ctl, m);
    case BufReg(r) =>
      m1 := RegBufferOps(s, r, ctl, m);
  }

  lemma OneCost(a: Op)
    ensures OpsCost([a]) == OpCost(a)
  {
    CostCons(a, []);
    assert [a] == [a] + [];
  }

  lemma FlatCost(env: Env, t: ArgType, addr: u64, off: nat)
    requires WfType(t) && IsFlat(t)
    ensures OpsCost(OpsOf(TypeConfigs(t))) == TypeCost(env, t, addr, off)
  {
    match t
    case Str =>
      OpsOf1(OPC_SAVE_STRING);
      OneCost(OPC_SAVE_STRING.op);
    case Std =>
      OpsOf2(OPC_READ_STD_STRING, OPC_SAVE_STRING);
      CountCost(OPC_READ_STD_STRING.op, OPC_SAVE_STRING.op);
    case Arr(elem, len) =>
      OpsOf1(SaveStructOf(ArrSize(elem, len)));
      OneCost(SaveStructOf(ArrSize(elem, len)).op);
    case BufAll =>
      OpsOf1(SaveStructOf(MAX_BUF_READ_SIZE));
      OneCost(SaveStructOf(MAX_BUF_READ_SIZE).op);
    case BufReg(r) =>
      var a, b, c := NewValue(OPC_SET_READ_LEN, MAX_BUF_READ_SIZE), ReadRegLen(r), OPC_SAVE_STRUCT;
      assert OpsOf([a, b, c]) == [a.op] + [b.op, c.op];
      CostCons(a.op, [b.op, c.op]);
      CountCost(b.op, c.op);
    case Struct(n) =>
      OpsOf2(NewValue(OPC_SET_READ_LEN, n), OPC_SAVE_STRUCT);
      CountCost(NewValue(OPC_SET_READ_LEN, n).op, OPC_SAVE_STRUCT.op);
    case BufLen(n) =>
      OpsOf2(NewValue(OPC_SET_READ_LEN, n), OPC_SAVE_STRUCT);
      CountCost(NewValue(OPC_SET_READ_LEN, n).op, OPC_SAVE_STRUCT.op);
  }

  lemma FlatEmits(s: Sem, t: ArgType, ctl: Ctl, m: Mach) returns (m1: Mach)
    requires Valid(s) && WfType(t) && IsFlat(t) && Idle(ctl)
    ensures EmitsType(s, t, ctl, m, ctl, m1)
    ensures m1.readAddr == DataAddr(s.env.mem, t, m.readAddr)
    ensures m1.strLen == LenOr(LengthSet(s.env.mem, t, m.readAddr, Off(m)), m.strLen)
  {
    m1 := FlatRuns(s, t, ctl, m);
    TypeIsWf(t);
    FlatCost(s.env, t, m.readAddr, Off(m));
    EmitsDos(s, OpsOf(TypeConfigs(t)), ctl, m, ctl, m1, Section(s.env, t, m.readAddr));
  }

  /** Straight-line code in front of a program. */
  lemma EmitsAfter(s: Sem, ops: seq<Op>, q: seq<Stmt>, ctl: Ctl, m: Mach, ctlB: Ctl, mid: Mach, ctl1: Ctl, m1: Mach,
                   a: seq<Frame>, b: seq<Frame>, j: nat)
    requires Valid(s) && Idle(ctl) && Idle(ctlB) && Wf(Dos(ops)) && Wf(q)
    requires s.run(ops, ctl, m) == Go(ctlB, mid) && s.wrote(m, mid, a)
    requires Emits(s, q, ctlB, mid, ctl1, m1, b, j)
    ensures Emits(s, Dos(ops) + q, ctl, m, ctl1, m1, a + b, OpsCost(ops) + j)
  {
    EmitsDos(s, ops, ctl, m, ctlB, mid, a);
    EmitsBoth(s, Dos(ops), q, ctl, m, ctlB, mid, ctl1, m1, a, b, OpsCost(ops), j);
  }

  /** Straight-line code that sets the loop bound, in front of a loop over iovecs. */
  lemma EmitsVectors(s: Sem, ops: seq<Op>, body: seq<Op>, ctl: Ctl, m: Mach, mid: Mach, n: u64, a: seq<Frame>)
    returns (ctl1: Ctl, m1: Mach)
    requires Valid(s) && Idle(ctl) && Wf(Dos(ops)) && HandlesIovec(s, body)
    requires s.run(ops, ctl, m) == Go(ctl.(breakCount := CapBreak(n)), mid) && s.wrote(m, mid, a)
    ensures Emits(s, Dos(ops) + [Loop(body)], ctl, m, ctl1, m1, a + IovFrames(s.env.mem, mid.readAddr, Turns(n)),
                  OpsCost(ops) + 1 + 12 * Turns(n))
    ensures m1.strLen == mid.strLen
  {
    var b := IovFrames(s.env.mem, mid.readAddr, Turns(n));
    var ctlB := ctl.(breakCount := CapBreak(n));
    ctl1 := ctlB.(breakCount := 0);
    m1 := IovProgram(s, body, ctlB, mid, n);
    EmitsAfter(s, ops, [Loop(body)], ctl, m, ctlB, mid, ctl1, m1, a, b, 1 + 12 * Turns(n));
  }

  lemma EmitsStrings(s: Sem, ops: seq<Op>, body: seq<Op>, ctl: Ctl, m: Mach) returns (ctl1: Ctl, m1: Mach)
    requires Valid(s) && Idle(ctl) && Wf(Dos(ops)) && HandlesString(s, body)
    requires s.run(ops, ctl, m) == Go(ctl.(breakCount := MAX_LOOP_COUNT), m)
    ensures Emits(s, Dos(ops) + [Loop(body)], ctl, m, ctl1, m1,
                  SentStrings(s.env.mem, m.readAddr, MAX_LOOP_COUNT, Off(m)),
                  OpsCost(ops) + 1 + 3 * SentTurns(s.env.mem, m.readAddr, MAX_LOOP_COUNT, Off(m)))
    ensures m1.strLen == m.strLen
  {
    var fs := SentStrings(s.env.mem, m.readAddr, MAX_LOOP_COUNT, Off(m));
    var ctlB := ctl.(breakCount := MAX_LOOP_COUNT);
    ctl1 := ctlB.(breakCount := 0);
    m1 := StringsProgram(s, body, ctlB, m);
    WroteNone(s, m);
    assert [] + fs == fs;
    EmitsAfter(s, ops, [Loop(body)], ctl, m, ctlB, m, ctl1, m1, [], fs,
               1 + 3 * SentTurns(s.env.mem, m.readAddr, MAX_LOOP_COUNT, Off(m)));
  }

  lemma StrArrEmits(s: Sem, op: Op, body: seq<Op>, ctl: Ctl, m: Mach) returns (ctl1: Ctl, m1: Mach)
    requires Valid(s) && Idle(ctl)
    requires op == Op(SetBreakCount, Skip, Skip, 32) && HandlesString(s, body)
    ensures Emits(s, Dos([op]) + [Loop(body)], ctl, m, ctl1, m1,
                  SentStrings(s.env.mem, m.readAddr, MAX_LOOP_COUNT, Off(m)),
                  2 + 3 * SentTurns(s.env.mem, m.readAddr, MAX_LOOP_COUNT, Off(m)))
    ensures m1.strLen == m.strLen
  {
    var ctlB := ctl.(breakCount := MAX_LOOP_COUNT);
    BreakCount(s, MAX_LOOP_COUNT, [], ctl, m);
    Nothing(s, ctlB, m);
    assert [op] == [op] + [];
    CostCons(op, []);
    ctl1, m1 := EmitsStrings(s, [op], body, ctl, m);
  }

  lemma IovecEmits(s: Sem, ops: seq<Op>, body: seq<Op>, r: u32, ctl: Ctl, m: Mach) returns (ctl1: Ctl, m1: Mach)
    requires Valid(s) && Idle(ctl) && r < REG_ARM64_MAX && HandlesIovec(s, body)
    requires ops == CountCode(r)
    ensures var n := s.env.regs[r];
            Emits(s, Dos(ops) + [Loop(body)], ctl, m, ctl1, m1, [Word(n)] + IovFrames(s.env.mem, m.readAddr, Turns(n)),
                  4 + 12 * Turns(n))
    ensures m1.strLen == m.strLen
  {
    var n := s.env.regs[r];
    var mid := CountOps(s, r, ctl, m);
    CountCost(ops[0], ops[1]);
    ctl1, m1 := EmitsVectors(s, ops, body, ctl, m, mid, n, [Word(n)]);
  }

  lemma CountCost(a: Op, b: Op)
    ensures OpsCost([a, b]) == OpCost(a) + OpCost(b)
  {
    CostCons(a, [b]);
    CostCons(b, []);
    assert [a, b] == [a] + [b] && [b] == [b] + [];
  }

  lemma WroteNone(s: Sem, m: Mach)
    requires Valid(s)
    ensures s.wrote(m, m, [])
  {
    WroteNothing(m, m);
    WrapIdempotent(m.saveIndex);
    assert Wrote(m, m, []);
  }

  // ----- msghdr

  lemma HeaderPart(s: Sem, rest: seq<Op>, ctl: Ctl, m: Mach) returns (m1: Mach)
    requires Valid(s) && Idle(ctl)
    ensures s.run(HeaderOps(rest), ctl, m) == s.run(rest, ctl, m1)
    ensures s.wrote(m, m1, [StructFrame(s.env.mem, m.readAddr, MSGHDR_SIZE)])
    ensures m1.readAddr == m1.tmpValue == Untag(m.readAddr) && m1.strLen == m.strLen
  {
    var ops2 := [Op(SetTmpValue, Skip, Skip, 0)] + rest;
    var ops1 := [Op(SaveStruct, Skip, Skip, 0)] + ops2;
    var a := m.(readLen := 56);
    SetLen(s, 56, ops1, ctl, m);
    var b := Structure(s, ops2, ctl, a);
    Move(s, SetTmpValue, 0, rest, ctl, b);
    m1 := b.(tmpValue := b.readAddr);
    Moved(s, m, a, b, m1, [StructFrame(s.env.mem, m.readAddr, MSGHDR_SIZE)]);
  }

  lemma ControlPart(s: Sem, rest: seq<Op>, ctl: Ctl, m: Mach) returns (m1: Mach)
    requires Valid(s) && Idle(ctl) && m.readAddr < U48
    ensures s.run(ControlOps(rest), ctl, m) == s.run(rest, ctl, m1)
    ensures var h := m.readAddr;
            s.wrote(m, m1, [StructFrame(s.env.mem, ReadWord(s.env.mem, h + 32),
                                        Min(ReadWord(s.env.mem, h + 40), MAX_BUF_READ_SIZE))])
    ensures m1.tmpValue == m.tmpValue && m1.strLen == m.strLen
  {
    var h := m.readAddr;
    var ops3 := [Op(SaveStruct, Skip, Skip, 0)] + rest;
    var ops2 := [Op(ReadPointer, AddOffset, MovePointerValue, 32)] + ops3;
    var ops1 := [Op(ReadPointer, AddOffset, SetReadLenPointerValue, 40)] + ops2;
    var a := m.(readLen := 4096);
    SetLen(s, 4096, ops1, ctl, m);
    PtrLen(s, 40, ops2, ctl, a);
    var len := ReadWord(s.env.mem, h + 40);
    var b := a.(pointerValue := len, readLen := Min(len, 4096));
    PtrAddr(s, 32, ops3, ctl, b);
    var c := b.(pointerValue := ReadWord(s.env.mem, h + 32), readAddr := ReadWord(s.env.mem, h + 32));
    m1 := Structure(s, rest, ctl, c);
    Moved(s, m, c, m1, m1, [StructFrame(s.env.mem, c.readAddr, c.readLen)]);
  }

  lemma VectorAddrPart(s: Sem, ctl: Ctl, m: Mach) returns (m1: Mach)
    requires Valid(s) && Idle(ctl) && m.tmpValue < U48
    ensures var h := m.tmpValue;
            s.run(VectorAddrOps([]), ctl, m) == Go(ctl.(breakCount := CapBreak(ReadWord(s.env.mem, h + 24))), m1)
            && m1.readAddr == ReadWord(s.env.mem, h + 16)
    ensures SameRecord(m, m1) && m1.strLen == m.strLen
  {
    var h := m.tmpValue;
    var ops2 := [Op(ReadPointer, AddOffset, MovePointerValue, 16)] + [];
    var ops1 := [Op(ReadPointer, AddOffset, SetBreakCountPointerValue, 24)] + ops2;
    Move(s, MoveTmpValue, 0, ops1, ctl, m);
    var a := m.(readAddr := h);
    PtrBreak(s, 24, ops2, ctl, a);
    var n := ReadWord(s.env.mem, h + 24);
    var ctl1 := ctl.(breakCount := CapBreak(n));
    var b := a.(pointerValue := n);
    PtrAddr(s, 16, [], ctl1, b);
    m1 := b.(pointerValue := ReadWord(s.env.mem, h + 16), readAddr := ReadWord(s.env.mem, h + 16));
    Nothing(s, ctl1, m1);
  }

  /** Everything of a msghdr up to the loop over its vectors. */
  lemma MsghdrHead(s: Sem, ops: seq<Op>, ctl: Ctl, m: Mach, h: u64) returns (m1: Mach)
    requires Valid(s) && Idle(ctl) && h == Untag(m.readAddr) && ops == MsghdrOps()
    ensures s.run(ops, ctl, m) == Go(ctl.(breakCount := CapBreak(ReadWord(s.env.mem, h + 24))), m1)
    ensures s.wrote(m, m1, MsghdrPair(s.env.mem, h, m.readAddr))
    ensures m1.readAddr == ReadWord(s.env.mem, h + 16) && m1.strLen == m.strLen
  {
    var f0, f1 := StructFrame(s.env.mem, m.readAddr, MSGHDR_SIZE), ControlFrame(s.env.mem, h);
    var a := HeaderPart(s, ControlOps(VectorAddrOps([])), ctl, m);
    var b := ControlPart(s, VectorAddrOps([]), ctl, a);
    m1 := VectorAddrPart(s, ctl, b);
    WroteThen(s, m, a, b, [f0], [f1]);
    Moved(s, m, m, b, m1, [f0] + [f1]);
  }

  lemma MsghdrEmits(s: Sem, ops: seq<Op>, body: seq<Op>, ctl: Ctl, m: Mach, h: u64, n: u64, vec: u64)
    returns (ctl1: Ctl, m1: Mach)
    requires Valid(s) && Idle(ctl) && h == Untag(m.readAddr)
    requires n == ReadWord(s.env.mem, h + 24) && vec == ReadWord(s.env.mem, h + 16)
    requires ops == MsghdrOps() && Wf(Dos(ops)) && OpsCost(ops) == 14 && HandlesIovec(s, body)
    ensures Emits(s, Dos(ops) + [Loop(body)], ctl, m, ctl1, m1,
                  MsghdrPair(s.env.mem, h, m.readAddr) + IovFrames(s.env.mem, vec, Turns(n)), 15 + 12 * Turns(n))
    ensures m1.strLen == m.strLen
  {
    var a := MsghdrPair(s.env.mem, h, m.readAddr);
    var mid := MsghdrHead(s, ops, ctl, m, h);
    ctl1, m1 := EmitsVectors(s, ops, body, ctl, m, mid, n, a);
  }

  // ----- all types

  lemma PointerCode(op: Op)
    requires op == SaveStructOf(8).op
    ensures OpsCost([op]) == 2 && Wf(Dos([op]))
  {
    CostCons(op, []);
    assert [op] == [op] + [];
  }

  /** The word behind a pointer. */
  lemma PointerRuns(s: Sem, op: Op, ctl: Ctl, m: Mach) returns (mid: Mach)
    requires Valid(s) && Idle(ctl) && op == SaveStructOf(8).op
    ensures var f := StructFrame(s.env.mem, m.readAddr, 8);
            RunsTo(s, [op], ctl, m, mid, [f]) && Off(mid) == Past(Off(m), f)
    ensures mid.readAddr == Untag(m.readAddr) && mid.strLen == m.strLen
  {
    var f := StructFrame(s.env.mem, m.readAddr, 8);
    mid := FusedStructOps(s, 8, ctl, m);
    EndsAt(s, m, mid, [f]);
    KeptOne(Off(m), f, 0);
  }

  lemma VectorsEmit(s: Sem, t: ArgType, ctl: Ctl, m: Mach) returns (ctl1: Ctl, m1: Mach)
    requires Valid(s) && t.Iovec? && WfType(t) && Idle(ctl)
    ensures EmitsType(s, t, ctl, m, ctl1, m1)
    ensures m1.strLen == m.strLen
  {
    IovecHandled(s);
    ctl1, m1 := IovecEmits(s, [ReadRegBreakCount(t.count).op, OPC_SAVE_REG.op], IovecBody(), t.count, ctl, m);
  }

  lemma HeaderShape(env: Env, t: ArgType, addr: u64, off: nat) returns (h: u64, n: u64, vec: u64)
    requires t.Msghdr?
    ensures h == Untag(addr) && n == ReadWord(env.mem, h + 24) && vec == ReadWord(env.mem, h + 16)
    ensures Sent(env, t, addr, off) == MsghdrPair(env.mem, h, addr) + IovFrames(env.mem, vec, Turns(n))
    ensures TypeCost(env, t, addr, off) == 15 + 12 * Turns(n)
  {
    h := Untag(addr);
    n, vec := ReadWord(env.mem, h + 24), ReadWord(env.mem, h + 16);
  }

  lemma HeaderCode(t: ArgType)
    requires t.Msghdr?
    ensures TypeProg(t) == Dos(MsghdrOps()) + [Loop(IovecBody())]
  {
  }

  lemma HeaderEmits(s: Sem, t: ArgType, ctl: Ctl, m: Mach) returns (ctl1: Ctl, m1: Mach)
    requires Valid(s) && t.Msghdr? && Idle(ctl)
    ensures EmitsType(s, t, ctl, m, ctl1, m1)
    ensures m1.strLen == m.strLen
  {
    HeaderCode(t);
    MsghdrIsTop();
    MsghdrCost();
    IovecHandled(s);
    var h, n, vec := HeaderShape(s.env, t, m.readAddr, Off(m));
    ctl1, m1 := MsghdrEmits(s, MsghdrOps(), IovecBody(), ctl, m, h, n, vec);
  }

  lemma StringsEmit(s: Sem, t: ArgType, ctl: Ctl, m: Mach) returns (ctl1: Ctl, m1: Mach)
    requires Valid(s) && t.StrArr? && Idle(ctl)
    ensures EmitsType(s, t, ctl, m, ctl1, m1)
    ensures m1.strLen == m.strLen
  {
    StringHandled(s);
    ctl1, m1 := StrArrEmits(s, NewValue(OPC_SET_BREAK_COUNT, MAX_LOOP_COUNT).op, StrArrBody(), ctl, m);
  }

  lemma NumberEmits(s: Sem, t: ArgType, ctl: Ctl, m: Mach)
    requires Valid(s) && t.Num? && Idle(ctl)
    ensures EmitsType(s, t, ctl, m, ctl, m)
  {
    ProgNothing(s, ctl, m);
    WroteNone(s, m);
  }

  lemma VecShape(env: Env, t: ArgType, addr: u64, off: nat)
    requires t.Vec?
    ensures TypeProg(t) == Dos(VecOps()) && Sent(env, t, addr, off) == IovPair(env.mem, addr)
    ensures TypeCost(env, t, addr, off) == 8
  {
    LoopsMatch();
  }

  lemma VecEmits(s: Sem, t: ArgType, ctl: Ctl, m: Mach) returns (m1: Mach)
    requires Valid(s) && t.Vec? && Idle(ctl)
    ensures EmitsType(s, t, ctl, m, ctl, m1) && m1.strLen == m.strLen
  {
    m1 := VecOut(s, VecOps(), ctl, m);
    VecShape(s.env, t, m.readAddr, Off(m));
    EmitsAs(s, t, Dos(VecOps()), ctl, m, ctl, m1, IovPair(s.env.mem, m.readAddr), 8);
  }

  lemma VecOut(s: Sem, ops: seq<Op>, ctl: Ctl, m: Mach) returns (m1: Mach)
    requires Valid(s) && ops == VecOps() && Idle(ctl)
    ensures Emits(s, Dos(ops), ctl, m, ctl, m1, IovPair(s.env.mem, m.readAddr), 8) && m1.strLen == m.strLen
  {
    VecIsTop();
    VecCost();
    m1 := VecRuns(s, ctl, m);
    EmitsDos(s, ops, ctl, m, ctl, m1, IovPair(s.env.mem, m.readAddr));
  }

  lemma LoopedEmits(s: Sem, t: ArgType, ctl: Ctl, m: Mach) returns (ctl1: Ctl, m1: Mach)
    requires Valid(s) && WfType(t) && (t.StrArr? || t.Iovec? || t.Msghdr?) && Idle(ctl)
    ensures EmitsType(s, t, ctl, m, ctl1, m1)
    ensures m1.strLen == m.strLen
  {
    if t.StrArr? {
      ctl1, m1 := StringsEmit(s, t, ctl, m);
    } else if t.Iovec? {
      ctl1, m1 := VectorsEmit(s, t, ctl, m);
    } else {
      ctl1, m1 := HeaderEmits(s, t, ctl, m);
    }
  }

  lemma PointerEmits(s: Sem, t: ArgType, ctl: Ctl, m: Mach, mid: Mach, ctl1: Ctl, m1: Mach)
    requires Valid(s) && t.Ptr? && WfType(t) && Idle(ctl)
    requires var op, f := SaveStructOf(8).op, StructFrame(s.env.mem, m.readAddr, 8);
             RunsTo(s, [op], ctl, m, mid, [f]) && Off(mid) == Past(Off(m), f)
    requires mid.readAddr == Untag(m.readAddr) && EmitsType(s, t.inner, ctl, mid, ctl1, m1)
    ensures EmitsType(s, t, ctl, m, ctl1, m1)
  {
    var a, b := [StructFrame(s.env.mem, m.readAddr, 8)], Sent(s.env, t.inner, mid.readAddr, Off(mid));
    TypeIsWf(t.inner);
    PointerCode(SaveStructOf(8).op);
    EmitsAfter(s, [SaveStructOf(8).op], TypeProg(t.inner), ctl, m, ctl, mid, ctl1, m1, a, b,
               TypeCost(s.env, t.inner, mid.readAddr, Off(mid)));
  }

  /**
   For every type, every memory and every starting state: the type's ops run on to their end, save exactly the
   section, take exactly the stated number of turns and close every loop.
   */
  lemma {:induction false} TypeEmits(s: Sem, t: ArgType, ctl: Ctl, m: Mach) returns (ctl1: Ctl, m1: Mach)
    requires Valid(s) && WfType(t) && Idle(ctl)
    ensures EmitsType(s, t, ctl, m, ctl1, m1)
    ensures IsFlat(t) ==> m1.readAddr == DataAddr(s.env.mem, t, m.readAddr)
    ensures m1.strLen == LenOr(LengthSet(s.env.mem, t, m.readAddr, Off(m)), m.strLen)
    decreases t, 1
  {
    if t.Num? {
      ctl1, m1 := ctl, m;
      NumberEmits(s, t, ctl, m);
    } else if t.Ptr? {
      ctl1, m1 := TargetEmits(s, t, ctl, m);
    } else if IsFlat(t) {
      ctl1 := ctl;
      m1 := FlatEmits(s, t, ctl, m);
    } else if t.Vec? {
      ctl1 := ctl;
      m1 := VecEmits(s, t, ctl, m);
    } else {
      ctl1, m1 := LoopedEmits(s, t, ctl, m);
    }
  }

  /** A pointer: the word behind it, then its target's section. */
  lemma {:induction false} TargetEmits(s: Sem, t: ArgType, ctl: Ctl, m: Mach) returns (ctl1: Ctl, m1: Mach)
    requires Valid(s) && WfType(t) && t.Ptr? && Idle(ctl)
    ensures EmitsType(s, t, ctl, m, ctl1, m1)
    ensures m1.strLen == LenOr(LengthSet(s.env.mem, t, m.readAddr, Off(m)), m.strLen)
    decreases t, 0
  {
    var mid := PointerRuns(s, SaveStructOf(8).op, ctl, m);
    ctl1, m1 := TypeEmits(s, t.inner, ctl, mid);
    PointerEmits(s, t, ctl, m, mid, ctl1, m1);
  }
}
