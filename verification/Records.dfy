/**
 What a whole point writes and whether its event is kept: the record as frames, every filter's verdict, and
 the exact cost, as functions of the arguments, memory and registers.
 */
module Records {
  import opened Bytes
  import opened Ops
  import opened Machine
  import opened Interpreter
  import opened Structured
  import opened Frames
  import opened Effects
  import opened ArgTypes
  import opened Sections
  import opened Emission
  import opened ReadAddress
  import opened PointArgs

  // ----- verdicts

  /** What one filter says: against the event, a whitelist entry that hit or missed, or nothing. */
  datatype Check = Reject | Wanted(hit: bool) | Pass

  function FilterCheck(env: Env, code: Code, f: Filter, value: u64, addr: u64, strLen: u32): Check {
    match code
    case FilterValue => if ValueFails(f, value) then Reject else Pass
    case FilterBuffer => if f.kind.White? then Wanted(BufferMatches(env.mem, addr, f)) else Pass
    case FilterString =>
      if f.kind.White? then Wanted(StrMatches(env.mem, addr, strLen, f))
      else if f.kind.Black? && StrMatches(env.mem, addr, strLen, f) then Reject
      else Pass
    case _ => Pass
  }

  predicate Present(env: Env, filters: seq<u32>) { forall i :: 0 <= i < |filters| ==> filters[i] in env.filters }

  function FilterChecks(env: Env, code: Code, filters: seq<u32>, value: u64, addr: u64, strLen: u32)
    : (cs: seq<Check>)
    requires Present(env, filters)
    ensures |cs| == |filters|
  {
    if filters == [] then []
    else
      [FilterCheck(env, code, env.filters[filters[0]], value, addr, strLen)]
      + FilterChecks(env, code, filters[1..], value, addr, strLen)
  }

  predicate AnyWanted(cs: seq<Check>) { cs != [] && (cs[0].Wanted? || AnyWanted(cs[1..])) }

  predicate AnyHit(cs: seq<Check>) { cs != [] && (cs[0] == Wanted(true) || AnyHit(cs[1..])) }

  /** All filters together: something was against it, or whitelists were applied and none hit. */
  predicate Rejected(cs: seq<Check>) { Reject in cs || (AnyWanted(cs) && !AnyHit(cs)) }

  lemma {:induction false} AnyAppend(a: seq<Check>, b: seq<Check>)
    ensures AnyWanted(a + b) == (AnyWanted(a) || AnyWanted(b)) && AnyHit(a + b) == (AnyHit(a) || AnyHit(b))
    decreases |a|
  {
    if a == [] {
      assert a + b == b;
    } else {
      assert (a + b)[0] == a[0] && (a + b)[1..] == a[1..] + b;
      AnyAppend(a[1..], b);
    }
  }

  /** The filter flags after the checks. */
  function Flagged(m: Mach, cs: seq<Check>): Mach {
    m.(applyFilter := m.applyFilter || AnyWanted(cs), matchWhite := m.matchWhite || AnyHit(cs))
  }

  lemma FlaggedTwice(m: Mach, a: seq<Check>, b: seq<Check>)
    ensures Flagged(Flagged(m, a), b) == Flagged(m, a + b)
  {
    AnyAppend(a, b);
  }

  // ----- filter ops

  function FilterOps(code: Code, filters: seq<u32>): seq<Op> {
    if filters == [] then [] else [Op(code, Skip, Skip, filters[0])] + FilterOps(code, filters[1..])
  }

  lemma {:induction false} FilterOpsAre(base: OpConfig, filters: seq<u32>)
    requires base.op == Op(base.op.code, Skip, Skip, 0)
    ensures OpsOf(FilterConfigs(base, filters)) == FilterOps(base.op.code, filters)
    ensures OpsCost(FilterOps(base.op.code, filters)) == |filters|
    decreases |filters|
  {
    if filters != [] {
      var rest := filters[1..];
      FilterOpsAre(base, rest);
      assert FilterConfigs(base, filters) == [NewValue(base, filters[0])] + FilterConfigs(base, rest);
      OpsOfAppend([NewValue(base, filters[0])], FilterConfigs(base, rest));
      OpsOf1(NewValue(base, filters[0]));
      CostCons(Op(base.op.code, Skip, Skip, filters[0]), FilterOps(base.op.code, rest));
    }
  }

  lemma AnyOne(c: Check)
    ensures AnyWanted([c]) == c.Wanted? && AnyHit([c]) == (c == Wanted(true))
  {
    var cs := [c];
    assert cs[0] == c && cs[1..] == [];
    assert !AnyHit(cs[1..]) && !AnyWanted(cs[1..]);
  }

  lemma FilterExec(env: Env, code: Code, op: Op, ctl: Ctl, m: Mach)
    requires IsFilter(code) && op.value in env.filters && !ctl.black
    ensures var c := FilterCheck(env, code, env.filters[op.value], m.regValue, m.readAddr, m.strLen);
            Exec(env, code, op, ctl, m) == Res(true, ctl.(black := c.Reject?), Flagged(m, [c]))
  {
    var c := FilterCheck(env, code, env.filters[op.value], m.regValue, m.readAddr, m.strLen);
    AnyOne(c);
  }

  /** A list of filters: the first one against the event stops the run, otherwise the flags are set. */
  lemma {:induction false} FiltersRun(s: Sem, code: Code, filters: seq<u32>, ctl: Ctl, m: Mach)
    requires Valid(s) && Idle(ctl) && IsFilter(code) && Present(s.env, filters)
    ensures var cs := FilterChecks(s.env, code, filters, m.regValue, m.readAddr, m.strLen);
            var r := s.run(FilterOps(code, filters), ctl, m);
            if Reject in cs then r.Stop? && r.why == Blacklisted else r == Go(ctl, Flagged(m, cs))
    decreases |filters|
  {
    if filters == [] {
      Nothing(s, ctl, m);
    } else {
      var op := Op(code, Skip, Skip, filters[0]);
      var c := FilterCheck(s.env, code, s.env.filters[filters[0]], m.regValue, m.readAddr, m.strLen);
      FilterExec(s.env, code, op, ctl, m);
      Head(s, op, FilterOps(code, filters[1..]), ctl, m);
      var m1 := Flagged(m, [c]);
      var rest := FilterChecks(s.env, code, filters[1..], m.regValue, m.readAddr, m.strLen);
      FlaggedTwice(m, [c], rest);
      FiltersRun(s, code, filters[1..], ctl, m1);
    }
  }

  // ----- pieces of a point

  /**
   `p` started in `m` writes `fs` and is checked by `cs`: it stops, blacklisted, exactly when a check is
   against the event, and otherwise goes on at exactly `cost`.
   */
  ghost predicate Piece(
    s: Sem, p: seq<Stmt>, ctl: Ctl, m: Mach, ctl1: Ctl, m1: Mach, fs: seq<Frame>, cs: seq<Check>, cost: nat)
  {
    var r := s.prog(p, ctl, m);
    && Wf(p) && Idle(ctl1) && s.wrote(Flagged(m, cs), m1, fs)
    && r.1 <= cost
    && (if Reject in cs then r.0.Stop? && r.0.why == Blacklisted else r.0 == Go(ctl1, m1) && r.1 == cost)
  }

  lemma FlaggedRecord(s: Sem, m: Mach, m1: Mach, fs: seq<Frame>, cs: seq<Check>)
    requires Valid(s) && s.wrote(m, m1, fs)
    ensures s.wrote(Flagged(m, cs), Flagged(m1, cs), fs)
  {
    assert Wrote(m, m1, fs);
    assert Wrote(Flagged(m, cs), Flagged(m1, cs), fs);
  }

  lemma PieceThen(s: Sem, p: seq<Stmt>, q: seq<Stmt>, ctl: Ctl, m: Mach, ctl1: Ctl, m1: Mach, ctl2: Ctl, m2: Mach,
                  a: seq<Frame>, b: seq<Frame>, ca: seq<Check>, cb: seq<Check>, i: nat, j: nat)
    requires Valid(s) && Idle(ctl)
    requires Piece(s, p, ctl, m, ctl1, m1, a, ca, i) && Piece(s, q, ctl1, m1, ctl2, m2, b, cb, j)
    ensures Piece(s, p + q, ctl, m, ctl2, m2, a + b, ca + cb, i + j)
  {
    ProgAppend(s, p, q, ctl, m);
    FlaggedRecord(s, Flagged(m, ca), m1, a, cb);
    FlaggedTwice(m, ca, cb);
    WroteThen(s, Flagged(m, ca + cb), Flagged(m1, cb), m2, a, b);
  }

  lemma EmitsPiece(s: Sem, p: seq<Stmt>, ctl: Ctl, m: Mach, ctl1: Ctl, m1: Mach, fs: seq<Frame>, cost: nat)
    requires Valid(s) && Wf(p) && Emits(s, p, ctl, m, ctl1, m1, fs, cost)
    ensures Piece(s, p, ctl, m, ctl1, m1, fs, [], cost)
  {
    assert Flagged(m, []) == m;
  }

  lemma NoPiece(s: Sem, ctl: Ctl, m: Mach)
    requires Valid(s) && Idle(ctl)
    ensures Piece(s, [], ctl, m, ctl, m, [], [], 0)
  {
    ProgNothing(s, ctl, m);
    WroteNone(s, m);
    assert Flagged(m, []) == m;
  }

  lemma FilterOpsAreTop(code: Code, filters: seq<u32>)
    requires IsFilter(code)
    ensures Wf(Dos(FilterOps(code, filters)))
    decreases |filters|
  {
    if filters != [] {
      FilterOpsAreTop(code, filters[1..]);
      assert Dos(FilterOps(code, filters))
          == [Do(Op(code, Skip, Skip, filters[0]))] + Dos(FilterOps(code, filters[1..]));
    }
  }

  lemma FiltersPiece(s: Sem, base: OpConfig, filters: seq<u32>, ctl: Ctl, m: Mach)
    requires Valid(s) && Idle(ctl) && Present(s.env, filters)
    requires base.op == Op(base.op.code, Skip, Skip, 0) && IsFilter(base.op.code)
    ensures var cs := FilterChecks(s.env, base.op.code, filters, m.regValue, m.readAddr, m.strLen);
            Piece(s, FilterProg(base, filters), ctl, m, ctl, Flagged(m, cs), [], cs, |filters|)
  {
    var code := base.op.code;
    var cs := FilterChecks(s.env, code, filters, m.regValue, m.readAddr, m.strLen);
    var ops := FilterOps(code, filters);
    FilterOpsAre(base, filters);
    FilterOpsAreTop(code, filters);
    FiltersRun(s, code, filters, ctl, m);
    WroteNone(s, Flagged(m, cs));
    if Reject in cs {
      ProgStops(s, ops, ctl, m);
    } else {
      ProgDos(s, ops, ctl, m, ctl, Flagged(m, cs));
    }
  }

  // ----- one argument

  /**
   Nothing in the argument depends on what an earlier argument or event left in `op_ctx`: a read address
   starts from a register, and a return value has no section (its ops never set the read address).
   */
  predicate SelfContained(a: PointArg) {
    && (a.isRet ==> !ReadMore(a) || a.ty.Num?)
    && (a.address.Some? ==> NamesAny(a.address.value))
  }

  /** The address or register value the argument denotes. */
  function ArgAddr(env: Env, a: PointArg): u64 {
    if a.address.Some? then Computed(env, a.address.value, false, 0)
    else if a.reg < REG_ARM64_MAX then env.regs[a.reg]
    else 0
  }

  function ArgValue(env: Env, a: PointArg, reg0: u64): u64 { if a.isRet then reg0 else ArgAddr(env, a) }

  /** What value filters compare: the register read last. */
  function FilterInput(env: Env, a: PointArg): u64 {
    if a.address.Some? then FinalRegister(env, a.address.value, 0) else ArgAddr(env, a)
  }

  lemma {:induction false} OffsetsNameNone(actions: seq<Action>)
    requires OnlyOffsets(actions)
    ensures !NamesAny(actions)
    decreases |actions|
  {
    if actions != [] { OffsetsNameNone(actions[1..]); }
  }

  /**
   For a register with offsets, a value filter compares the address the argument denotes if and only if the
   offsets cancel modulo 2^64; it always compares the register alone.
   */
  lemma FilterSeesAddress(env: Env, a: PointArg, minus: bool, r: u32, offsets: seq<Action>)
    requires r < REG_ARM64_MAX && OnlyOffsets(offsets) && a.address == Some([Register(minus, r)] + offsets)
    ensures FilterInput(env, a) == env.regs[r]
    ensures FilterInput(env, a) == ArgAddr(env, a) <==> Wrap64(NetOffset(offsets)) == 0
  {
    var actions := [Register(minus, r)] + offsets;
    OffsetsNameNone(offsets);
    assert [] + actions == actions && actions[1..] == offsets;
    LastNamedIsSeen(env, [], minus, r, offsets, 0);
    OffsetsMove(env, offsets, true, env.regs[r]);
    SumIsSame(env.regs[r], NetOffset(offsets));
  }

  lemma SumIsSame(v: u64, net: int)
    ensures Wrap64(v + net) == v <==> Wrap64(net) == 0
  {
  }

  /** A filter for the address `x0+8` denotes rejects the event, and one for x0 keeps it. */
  lemma FilterMissesOffset(env: Env, a: PointArg, f: Filter, g: Filter)
    requires a.address == Some([Register(false, 0), Offset(false, 8)])
    requires f.kind.Equal? && f.numVal == ArgAddr(env, a) && g.kind.Equal? && g.numVal == env.regs[0]
    ensures FilterCheck(env, FilterValue, f, FilterInput(env, a), 0, 0) == Reject
    ensures FilterCheck(env, FilterValue, g, FilterInput(env, a), 0, 0) == Pass
  {
    var offsets := [Offset(false, 8)];
    assert [Register(false, 0)] + offsets == [Register(false, 0), Offset(false, 8)];
    assert offsets[1..] == [] && NetOffset(offsets) == 8 + NetOffset([]);
    FilterSeesAddress(env, a, false, 0, offsets);
  }

  // ----- its record, given room

  function MoreFrames(env: Env, a: PointArg): seq<Frame>
    requires WfArg(a)
  {
    if ReadMore(a) then Section(env, a.ty, ArgAddr(env, a)) else []
  }

  function ArgFrames(env: Env, a: PointArg, reg0: u64): seq<Frame>
    requires WfArg(a)
  {
    if a.reg == REG_ARM64_MAX then [] else [Word(ArgValue(env, a, reg0))] + MoreFrames(env, a)
  }

  // ----- what is saved of it from offset `off` on, and what its filters see

  /** Where the section starts. */
  function SectionAt(off: nat): nat { Past(off, Word(0)) }

  function MoreSent(env: Env, a: PointArg, off: nat): seq<Frame>
    requires WfArg(a)
  {
    if ReadMore(a) then Sent(env, a.ty, ArgAddr(env, a), SectionAt(off)) else []
  }

  function ArgSent(env: Env, a: PointArg, reg0: u64, off: nat): seq<Frame>
    requires WfArg(a)
  {
    if a.reg == REG_ARM64_MAX then [] else [Word(ArgValue(env, a, reg0))] + MoreSent(env, a, off)
  }

  /** Where the next argument starts. */
  function ArgEnd(env: Env, a: PointArg, off: nat): nat
    requires WfArg(a)
  {
    if a.reg == REG_ARM64_MAX then off else PastAll(SectionAt(off), MoreSent(env, a, off))
  }

  function EarlyChecks(env: Env, a: PointArg): seq<Check>
    requires Present(env, a.filters)
  {
    FilterChecks(env, FilterValue, EarlyFilters(a), FilterInput(env, a), 0, 0)
  }

  /** The string length the argument leaves, if it saves a string. */
  function ArgLength(env: Env, a: PointArg, off: nat): Option<u32> {
    if ReadMore(a) && a.reg != REG_ARM64_MAX then LengthSet(env.mem, a.ty, ArgAddr(env, a), SectionAt(off)) else None
  }

  function ArgStrLen(env: Env, a: PointArg, strLen: u32, off: nat): u32 { LenOr(ArgLength(env, a, off), strLen) }

  function LateChecks(env: Env, a: PointArg, strLen: u32, off: nat): seq<Check>
    requires Present(env, a.filters)
  {
    if ReadMore(a) && LateFilters(a.ty) then
      FilterChecks(env, LateBase(a.ty).op.code, a.filters, 0, DataAddr(env.mem, a.ty, ArgAddr(env, a)),
                   ArgStrLen(env, a, strLen, off))
    else []
  }

  /** Every filter of the argument; `strLen` is the length left by the last string saved before it. */
  function ArgChecks(env: Env, a: PointArg, strLen: u32, off: nat): seq<Check>
    requires Present(env, a.filters)
  {
    if a.reg == REG_ARM64_MAX then [] else EarlyChecks(env, a) + LateChecks(env, a, strLen, off)
  }

  function HeadCost(a: PointArg): nat
    requires WfArg(a)
  {
    OpsCost(OpsOf(HeadConfigs(a)))
  }

  function MoreCost(env: Env, a: PointArg, off: nat): nat
    requires WfArg(a)
  {
    if !ReadMore(a) then 0
    else TypeCost(env, a.ty, ArgAddr(env, a), SectionAt(off)) + if LateFilters(a.ty) then |a.filters| else 0
  }

  function ArgCost(env: Env, a: PointArg, off: nat): nat
    requires WfArg(a)
  {
    if a.reg == REG_ARM64_MAX then 0 else HeadCost(a) + |EarlyFilters(a)| + MoreCost(env, a, off)
  }

  /** The head leaves the value saved, the address in `read_addr` and the filter input in `reg_value`. */
  lemma HeadRuns(s: Sem, a: PointArg, ctl: Ctl, m: Mach) returns (m1: Mach)
    requires Valid(s) && Idle(ctl) && WfArg(a) && a.reg != REG_ARM64_MAX && SelfContained(a)
    ensures RunsTo(s, OpsOf(HeadConfigs(a)), ctl, m, m1, [Word(ArgValue(s.env, a, m.reg0))])
    ensures !a.isRet ==> m1.readAddr == ArgAddr(s.env, a) && m1.regValue == FilterInput(s.env, a)
    ensures m1.strLen == m.strLen
  {
    if a.isRet {
      m1 := RetRuns(s, ctl, m);
      OpsOf2(OPC_READ_RET, OPC_SAVE_REG);
    } else if a.address.Some? {
      var actions := a.address.value;
      RegisterForgets(s.env, actions, m.readAddr, 0);
      RegisterForgetsValue(s.env, actions, m.regValue, 0);
      m1 := AddressRuns(s, actions, [], ctl, m);
      assert OpsOf(AddressOps(actions)) + [] == OpsOf(AddressOps(actions));
      Nothing(s, ctl, m1);
    } else {
      m1 := RegisterSaved(s, a.reg, ctl, m);
      OpsOf2(ReadSaveReg(a.reg), OPC_MOVE_REG_VALUE);
    }
  }

  lemma RetRuns(s: Sem, ctl: Ctl, m: Mach) returns (m1: Mach)
    requires Valid(s) && Idle(ctl)
    ensures RunsTo(s, [OPC_READ_RET.op, OPC_SAVE_REG.op], ctl, m, m1, [Word(m.reg0)])
    ensures m1.readAddr == m.readAddr && m1.strLen == m.strLen
  {
    var tail := [Op(SaveReg, Skip, Skip, 0)] + [];
    var a := m.(regValue := m.reg0);
    Single(s, Op(ReadRet, Skip, Skip, 0), tail, ctl, m, ctl, a);
    m1 := SaveRegValue(s, [], ctl, a);
    Moved(s, m, a, m1, m1, [Word(m.reg0)]);
    Nothing(s, ctl, m1);
    assert [OPC_READ_RET.op, OPC_SAVE_REG.op] == [Op(ReadRet, Skip, Skip, 0)] + tail;
  }

  lemma RegisterSaved(s: Sem, r: u32, ctl: Ctl, m: Mach) returns (m1: Mach)
    requires Valid(s) && Idle(ctl) && r < REG_ARM64_MAX
    ensures RunsTo(s, [ReadSaveReg(r).op, OPC_MOVE_REG_VALUE.op], ctl, m, m1, [Word(s.env.regs[r])])
    ensures m1.readAddr == m1.regValue == s.env.regs[r] && m1.strLen == m.strLen
  {
    var tail := [Op(MoveRegValue, Skip, Skip, 0)] + [];
    var a := RegSave(s, r, tail, ctl, m);
    Effects.Move(s, MoveRegValue, 0, [], ctl, a);
    m1 := a.(readAddr := a.regValue);
    Moved(s, m, m, a, m1, [Word(s.env.regs[r])]);
    Nothing(s, ctl, m1);
    assert [ReadSaveReg(r).op, OPC_MOVE_REG_VALUE.op] == [Op(ReadReg, SetRegIndex, SaveReg, r)] + tail;
  }

  lemma {:induction false} ActionsAreTop(actions: seq<Action>, hasFirst: bool)
    requires AllAcceptable(actions, hasFirst)
    ensures AllTop(OpsOf(ActionsOps(actions, hasFirst)))
    decreases |actions|
  {
    if actions != [] {
      var first := hasFirst || actions[0].Register?;
      ActionsAreTop(actions[1..], first);
      OpsOfAppend(ActionOps(actions[0], hasFirst), ActionsOps(actions[1..], first));
    }
  }

  lemma HeadIsWf(a: PointArg)
    requires WfArg(a)
    ensures Wf(Dos(OpsOf(HeadConfigs(a))))
  {
    if !a.isRet && a.address.Some? { ActionsAreTop(a.address.value, false); }
  }

  /** The part behind the value, which ended at `SectionAt(off)`: section, then late filters. */
  ghost predicate MoreGoes(s: Sem, a: PointArg, ctl: Ctl, m: Mach, ctl1: Ctl, m1: Mach, off: nat)
    requires WfArg(a) && Present(s.env, a.filters)
  {
    && Piece(s, MoreProg(a), ctl, m, ctl1, m1, MoreSent(s.env, a, off), LateChecks(s.env, a, m.strLen, off),
             MoreCost(s.env, a, off))
    && m1.strLen == ArgStrLen(s.env, a, m.strLen, off)
  }

  lemma MorePiece(s: Sem, a: PointArg, ctl: Ctl, m: Mach, off: nat) returns (ctl1: Ctl, m1: Mach)
    requires Valid(s) && Idle(ctl) && WfArg(a) && Present(s.env, a.filters) && a.reg != REG_ARM64_MAX
    requires Off(m) == SectionAt(off) && (ReadMore(a) && !a.ty.Num? ==> m.readAddr == ArgAddr(s.env, a))
    ensures MoreGoes(s, a, ctl, m, ctl1, m1, off)
  {
    if !ReadMore(a) || a.ty.Num? {
      ctl1, m1 := ctl, m;
      NoPiece(s, ctl, m);
      assert MoreProg(a) == [] && MoreSent(s.env, a, off) == [];
    } else {
      ctl1, m1 := SectionPiece(s, a, ctl, m, off);
    }
  }

  lemma SectionPiece(s: Sem, a: PointArg, ctl: Ctl, m: Mach, off: nat) returns (ctl1: Ctl, m1: Mach)
    requires Valid(s) && Idle(ctl) && WfArg(a) && Present(s.env, a.filters) && a.reg != REG_ARM64_MAX
    requires Off(m) == SectionAt(off) && ReadMore(a) && !a.ty.Num? && m.readAddr == ArgAddr(s.env, a)
    ensures MoreGoes(s, a, ctl, m, ctl1, m1, off)
  {
    var fs, p, cost := MoreSent(s.env, a, off), TypeProg(a.ty), TypeCost(s.env, a.ty, m.readAddr, Off(m));
    var mid: Mach;
    ctl1, mid := TypeEmits(s, a.ty, ctl, m);
    TypeIsWf(a.ty);
    EmitsPiece(s, p, ctl, m, ctl1, mid, fs, cost);
    if LateFilters(a.ty) {
      var cs, q := LateChecks(s.env, a, m.strLen, off), FilterProg(LateBase(a.ty), a.filters);
      m1 := LatePiece(s, a, ctl1, mid, m.strLen, off);
      PieceThen(s, p, q, ctl, m, ctl1, mid, ctl1, m1, fs, [], [], cs, cost, |a.filters|);
      assert fs + [] == fs && [] + cs == cs;
    } else {
      m1 := mid;
      assert p + [] == p;
    }
  }

  lemma LatePiece(s: Sem, a: PointArg, ctl: Ctl, m: Mach, strLen: u32, off: nat) returns (m1: Mach)
    requires Valid(s) && Idle(ctl) && WfArg(a) && Present(s.env, a.filters) && a.reg != REG_ARM64_MAX
    requires ReadMore(a) && LateFilters(a.ty) && m.readAddr == DataAddr(s.env.mem, a.ty, ArgAddr(s.env, a))
    requires m.strLen == ArgStrLen(s.env, a, strLen, off)
    ensures Piece(s, FilterProg(LateBase(a.ty), a.filters), ctl, m, ctl, m1, [], LateChecks(s.env, a, strLen, off),
                  |a.filters|)
    ensures m1.strLen == m.strLen
  {
    var code := LateBase(a.ty).op.code;
    FiltersPiece(s, LateBase(a.ty), a.filters, ctl, m);
    ValueIrrelevant(s.env, code, a.filters, m.regValue, 0, m.readAddr, m.strLen);
    m1 := Flagged(m, LateChecks(s.env, a, strLen, off));
  }

  /** String and buffer filters ignore the value, value filters everything else. */
  lemma {:induction false} ValueIrrelevant(
    env: Env, code: Code, filters: seq<u32>, v: u64, w: u64, addr: u64, strLen: u32)
    requires Present(env, filters) && code != FilterValue
    ensures FilterChecks(env, code, filters, v, addr, strLen) == FilterChecks(env, code, filters, w, addr, strLen)
    decreases |filters|
  {
    if filters != [] { ValueIrrelevant(env, code, filters[1..], v, w, addr, strLen); }
  }

  lemma {:induction false} OnlyValueMatters(env: Env, filters: seq<u32>, v: u64, addr: u64, strLen: u32)
    requires Present(env, filters)
    ensures FilterChecks(env, FilterValue, filters, v, addr, strLen) == FilterChecks(env, FilterValue, filters, v, 0, 0)
    decreases |filters|
  {
    if filters != [] { OnlyValueMatters(env, filters[1..], v, addr, strLen); }
  }

  /** A value that was saved, and its value filters on what `reg_value` holds by then. */
  lemma FiltersBehind(s: Sem, a: PointArg, v: u64, ctl: Ctl, m: Mach, mid: Mach) returns (m1: Mach)
    requires Valid(s) && Idle(ctl) && WfArg(a) && Present(s.env, a.filters)
    requires RunsTo(s, OpsOf(HeadConfigs(a)), ctl, m, mid, [Word(v)])
    ensures var cs := FilterChecks(s.env, FilterValue, EarlyFilters(a), mid.regValue, 0, 0);
            && Piece(s, Dos(OpsOf(HeadConfigs(a))) + FilterProg(OPC_FILTER_VALUE, EarlyFilters(a)), ctl, m, ctl, m1,
                     [Word(v)], cs, HeadCost(a) + |EarlyFilters(a)|)
            && m1 == Flagged(mid, cs)
  {
    var fs, ops, early := [Word(v)], OpsOf(HeadConfigs(a)), EarlyFilters(a);
    HeadIsWf(a);
    EmitsDos(s, ops, ctl, m, ctl, mid, fs);
    EmitsPiece(s, Dos(ops), ctl, m, ctl, mid, fs, HeadCost(a));
    FiltersPiece(s, OPC_FILTER_VALUE, early, ctl, mid);
    OnlyValueMatters(s.env, early, mid.regValue, mid.readAddr, mid.strLen);
    var cs := FilterChecks(s.env, FilterValue, early, mid.regValue, 0, 0);
    m1 := Flagged(mid, cs);
    PieceThen(s, Dos(ops), FilterProg(OPC_FILTER_VALUE, early), ctl, m, ctl, mid, ctl, m1, fs, [], [], cs,
              HeadCost(a), |early|);
    assert fs + [] == fs && [] + cs == cs;
  }

  /** Value and value filters. */
  lemma FrontPiece(s: Sem, a: PointArg, ctl: Ctl, m: Mach) returns (m1: Mach)
    requires Valid(s) && Idle(ctl) && WfArg(a) && a.reg != REG_ARM64_MAX && SelfContained(a)
    requires Present(s.env, a.filters)
    ensures Piece(s, Dos(OpsOf(HeadConfigs(a))) + FilterProg(OPC_FILTER_VALUE, EarlyFilters(a)), ctl, m, ctl, m1,
                  [Word(ArgValue(s.env, a, m.reg0))], EarlyChecks(s.env, a), HeadCost(a) + |EarlyFilters(a)|)
    ensures !a.isRet ==> m1.readAddr == ArgAddr(s.env, a)
    ensures m1.strLen == m.strLen
  {
    var mid := HeadRuns(s, a, ctl, m);
    m1 := FiltersBehind(s, a, ArgValue(s.env, a, m.reg0), ctl, m, mid);
    assert a.isRet ==> EarlyFilters(a) == [];
  }

  /** Where a piece ends in the record. */
  lemma PieceEnds(s: Sem, m: Mach, m1: Mach, fs: seq<Frame>, cs: seq<Check>)
    requires Valid(s) && s.wrote(Flagged(m, cs), m1, fs)
    ensures Off(m1) == PastAll(Off(m), fs)
  {
    EndsAt(s, Flagged(m, cs), m1, fs);
  }

  lemma ValueEnds(s: Sem, m: Mach, m1: Mach, v: u64, cs: seq<Check>)
    requires Valid(s) && s.wrote(Flagged(m, cs), m1, [Word(v)])
    ensures Off(m1) == SectionAt(Off(m))
  {
    PieceEnds(s, m, m1, [Word(v)], cs);
    KeptOne(Off(m), Word(v), 0);
  }

  /** One argument, from any state between arguments. */
  lemma ArgPiece(s: Sem, a: PointArg, ctl: Ctl, m: Mach) returns (ctl1: Ctl, m1: Mach)
    requires Valid(s) && Idle(ctl) && WfArg(a) && SelfContained(a) && Present(s.env, a.filters)
    ensures Piece(s, ArgProg(a), ctl, m, ctl1, m1, ArgSent(s.env, a, m.reg0, Off(m)),
                  ArgChecks(s.env, a, m.strLen, Off(m)), ArgCost(s.env, a, Off(m)))
    ensures m1.strLen == ArgStrLen(s.env, a, m.strLen, Off(m)) && Off(m1) == ArgEnd(s.env, a, Off(m))
  {
    if a.reg == REG_ARM64_MAX {
      ctl1, m1 := ctl, m;
      NoPiece(s, ctl, m);
    } else {
      var off, v, early := Off(m), ArgValue(s.env, a, m.reg0), EarlyChecks(s.env, a);
      var more, late := MoreSent(s.env, a, off), LateChecks(s.env, a, m.strLen, off);
      var mid := FrontPiece(s, a, ctl, m);
      ValueEnds(s, m, mid, v, early);
      ctl1, m1 := MorePiece(s, a, ctl, mid, off);
      PieceEnds(s, mid, m1, more, late);
      PieceThen(s, Dos(OpsOf(HeadConfigs(a))) + FilterProg(OPC_FILTER_VALUE, EarlyFilters(a)), MoreProg(a),
                ctl, m, ctl, mid, ctl1, m1, [Word(v)], more, early, late,
                HeadCost(a) + |EarlyFilters(a)|, MoreCost(s.env, a, off));
    }
  }

  /**
   A return value with a section: its ops never set the read address, so the section is taken wherever the
   previous argument or event left it.
   */
  lemma ReturnSectionIsStale(s: Sem, a: PointArg, ctl: Ctl, m: Mach) returns (ctl1: Ctl, m1: Mach)
    requires Valid(s) && Idle(ctl) && WfArg(a) && a.reg != REG_ARM64_MAX && a.isRet && ReadMore(a) && a.filters == []
    ensures Piece(s, ArgProg(a), ctl, m, ctl1, m1,
                  [Word(m.reg0)] + Sent(s.env, a.ty, m.readAddr, SectionAt(Off(m))), [],
                  HeadCost(a) + TypeCost(s.env, a.ty, m.readAddr, SectionAt(Off(m))))
  {
    var mid := RetRuns(s, ctl, m);
    OpsOf2(OPC_READ_RET, OPC_SAVE_REG);
    ctl1, m1 := SectionBehind(s, a, m.reg0, ctl, m, mid);
  }

  /** A value and, wherever `read_addr` points by then, the section. */
  lemma SectionBehind(s: Sem, a: PointArg, v: u64, ctl: Ctl, m: Mach, mid: Mach) returns (ctl1: Ctl, m1: Mach)
    requires Valid(s) && Idle(ctl) && WfArg(a) && a.reg != REG_ARM64_MAX && ReadMore(a) && a.filters == []
    requires RunsTo(s, OpsOf(HeadConfigs(a)), ctl, m, mid, [Word(v)])
    ensures Piece(s, ArgProg(a), ctl, m, ctl1, m1,
                  [Word(v)] + Sent(s.env, a.ty, mid.readAddr, SectionAt(Off(m))), [],
                  HeadCost(a) + TypeCost(s.env, a.ty, mid.readAddr, SectionAt(Off(m))))
  {
    var fs, head, p := [Word(v)], Dos(OpsOf(HeadConfigs(a))), TypeProg(a.ty);
    HeadIsWf(a);
    EmitsDos(s, OpsOf(HeadConfigs(a)), ctl, m, ctl, mid, fs);
    EmitsPiece(s, head, ctl, m, ctl, mid, fs, HeadCost(a));
    ValueEnds(s, m, mid, v, []);
    var more, cost := Sent(s.env, a.ty, mid.readAddr, Off(mid)), TypeCost(s.env, a.ty, mid.readAddr, Off(mid));
    ctl1, m1 := TypeEmits(s, a.ty, ctl, mid);
    TypeIsWf(a.ty);
    EmitsPiece(s, p, ctl, mid, ctl1, m1, more, cost);
    PieceThen(s, head, p, ctl, m, ctl, mid, ctl1, m1, fs, more, [], [], HeadCost(a), cost);
    NoFiltersProg(a, head, p);
  }

  /**
   A read address that names no register, such as `.`, compiles without a panic: each dot follows a pointer from
   the read address left over, and value and section are taken where that leads.
   */
  lemma UnnamedAddressIsStale(s: Sem, a: PointArg, ctl: Ctl, m: Mach) returns (ctl1: Ctl, m1: Mach)
    requires Valid(s) && Idle(ctl) && WfArg(a) && a.reg != REG_ARM64_MAX && !a.isRet && ReadMore(a) && a.filters == []
    requires a.address.Some? && !NamesAny(a.address.value)
    ensures var addr := Followed(s.env.mem, m.readAddr, |a.address.value|);
            Piece(s, ArgProg(a), ctl, m, ctl1, m1, [Word(addr)] + Sent(s.env, a.ty, addr, SectionAt(Off(m))), [],
                  HeadCost(a) + TypeCost(s.env, a.ty, addr, SectionAt(Off(m))))
  {
    var actions := a.address.value;
    UnnamedFollows(s.env, actions, m.readAddr);
    var mid := AddressRuns(s, actions, [], ctl, m);
    assert OpsOf(AddressOps(actions)) + [] == OpsOf(AddressOps(actions));
    Nothing(s, ctl, mid);
    ctl1, m1 := SectionBehind(s, a, mid.readAddr, ctl, m, mid);
  }

  lemma NoFilterProg(base: OpConfig)
    ensures FilterProg(base, []) == []
  {
    assert FilterConfigs(base, []) == [];
  }

  lemma NoFiltersProg(a: PointArg, head: seq<Stmt>, p: seq<Stmt>)
    requires WfArg(a) && a.reg != REG_ARM64_MAX && ReadMore(a) && a.filters == []
    requires head == Dos(OpsOf(HeadConfigs(a))) && p == TypeProg(a.ty)
    ensures ArgProg(a) == head + p
  {
    NoFilterProg(OPC_FILTER_VALUE);
    NoFilterProg(LateBase(a.ty));
    assert EarlyFilters(a) == [];
    assert MoreProg(a) == p && head + [] + p == head + p;
  }

  /** Its value filters go by what an earlier event left in `reg_value`, which no dot sets. */
  lemma UnnamedFilterIsStale(s: Sem, a: PointArg, ctl: Ctl, m: Mach) returns (m1: Mach)
    requires Valid(s) && Idle(ctl) && WfArg(a) && a.reg != REG_ARM64_MAX && !a.isRet && Present(s.env, a.filters)
    requires a.address.Some? && !NamesAny(a.address.value)
    ensures Piece(s, Dos(OpsOf(HeadConfigs(a))) + FilterProg(OPC_FILTER_VALUE, EarlyFilters(a)), ctl, m, ctl, m1,
                  [Word(Followed(s.env.mem, m.readAddr, |a.address.value|))],
                  FilterChecks(s.env, FilterValue, EarlyFilters(a), m.regValue, 0, 0), HeadCost(a) + |EarlyFilters(a)|)
  {
    var actions := a.address.value;
    UnnamedFollows(s.env, actions, m.readAddr);
    NoRegisterKeeps(s.env, actions, m.regValue);
    var mid := AddressRuns(s, actions, [], ctl, m);
    assert OpsOf(AddressOps(actions)) + [] == OpsOf(AddressOps(actions));
    Nothing(s, ctl, mid);
    m1 := FiltersBehind(s, a, mid.readAddr, ctl, m, mid);
  }

  // ----- a point

  /** The record, given room for all of it. */
  function RecordFrames(env: Env, args: seq<PointArg>, reg0: u64): seq<Frame>
    requires WfArgs(args)
  {
    if args == [] then [] else ArgFrames(env, args[0], reg0) + RecordFrames(env, args[1..], reg0)
  }

  /** What is saved of it from offset `off` on. */
  function RecordSent(env: Env, args: seq<PointArg>, reg0: u64, off: nat): seq<Frame>
    requires WfArgs(args)
  {
    if args == [] then []
    else ArgSent(env, args[0], reg0, off) + RecordSent(env, args[1..], reg0, ArgEnd(env, args[0], off))
  }

  predicate AllPresent(env: Env, args: seq<PointArg>) {
    forall i :: 0 <= i < |args| ==> Present(env, args[i].filters)
  }

  /** Every filter of every argument, evaluated to the end. */
  function PointChecks(env: Env, args: seq<PointArg>, strLen: u32, off: nat): seq<Check>
    requires WfArgs(args) && AllPresent(env, args)
    decreases |args|
  {
    if args == [] then []
    else
      ArgChecks(env, args[0], strLen, off)
      + PointChecks(env, args[1..], ArgStrLen(env, args[0], strLen, off), ArgEnd(env, args[0], off))
  }

  function PointCost(env: Env, args: seq<PointArg>, off: nat): nat
    requires WfArgs(args)
  {
    if args == [] then 0 else ArgCost(env, args[0], off) + PointCost(env, args[1..], ArgEnd(env, args[0], off))
  }

  predicate AllSelfContained(args: seq<PointArg>) { forall i :: 0 <= i < |args| ==> SelfContained(args[i]) }

  /** A whole point, whatever `op_ctx` held before and however full the buffer is. */
  lemma {:induction false} PointPiece(s: Sem, args: seq<PointArg>, ctl: Ctl, m: Mach) returns (ctl1: Ctl, m1: Mach)
    requires Valid(s) && Idle(ctl) && WfArgs(args) && AllSelfContained(args) && AllPresent(s.env, args)
    ensures Piece(s, PointProg(args), ctl, m, ctl1, m1, RecordSent(s.env, args, m.reg0, Off(m)),
                  PointChecks(s.env, args, m.strLen, Off(m)), PointCost(s.env, args, Off(m)))
    decreases |args|
  {
    if args == [] {
      ctl1, m1 := ctl, m;
      NoPiece(s, ctl, m);
    } else {
      var a, rest, off := args[0], args[1..], Off(m);
      var fs, cs := ArgSent(s.env, a, m.reg0, off), ArgChecks(s.env, a, m.strLen, off);
      var ctlA, mid := ArgPiece(s, a, ctl, m);
      KeepsReturn(s, m, mid, fs, cs);
      ctl1, m1 := PointPiece(s, rest, ctlA, mid);
      PieceThen(s, ArgProg(a), PointProg(rest), ctl, m, ctlA, mid, ctl1, m1, fs,
                RecordSent(s.env, rest, mid.reg0, Off(mid)), cs, PointChecks(s.env, rest, mid.strLen, Off(mid)),
                ArgCost(s.env, a, off), PointCost(s.env, rest, Off(mid)));
    }
  }

  lemma KeepsReturn(s: Sem, m: Mach, m1: Mach, fs: seq<Frame>, cs: seq<Check>)
    requires Valid(s) && s.wrote(Flagged(m, cs), m1, fs)
    ensures m1.reg0 == m.reg0
  {
    assert Wrote(Flagged(m, cs), m1, fs);
  }

  /** An argument in front of others. */
  lemma ArgInFront(env: Env, a: PointArg, rest: seq<PointArg>, strLen: u32, off: nat)
    requires WfArg(a) && Present(env, a.filters) && WfArgs(rest) && AllPresent(env, rest)
    ensures WfArgs([a] + rest) && AllPresent(env, [a] + rest)
    ensures PointChecks(env, [a] + rest, strLen, off)
         == ArgChecks(env, a, strLen, off) + PointChecks(env, rest, ArgStrLen(env, a, strLen, off), ArgEnd(env, a, off))
    ensures PointCost(env, [a] + rest, off) == ArgCost(env, a, off) + PointCost(env, rest, ArgEnd(env, a, off))
  {
    var args := [a] + rest;
    assert args[0] == a && args[1..] == rest;
    assert forall i :: 0 < i < |args| ==> args[i] == rest[i - 1];
  }

  // ----- a record that fits

  lemma ValueWithRoom(off: nat, v: u64, more: seq<Frame>)
    requires RoomFrom(off, [Word(v)] + more)
    ensures SectionAt(off) == off + 9 && RoomFrom(off + 9, more)
  {
    assert ([Word(v)] + more)[0] == Word(v) && ([Word(v)] + more)[1..] == more;
  }

  lemma PartsWithRoom(off: nat, a: seq<Frame>, b: seq<Frame>) returns (next: nat)
    requires RoomFrom(off, a + b)
    ensures next == off + FramesLen(a) && RoomFrom(off, a) && RoomFrom(next, b)
  {
    next := off + FramesLen(a);
    RoomParts(off, a, b, next);
  }

  lemma ArgWithRoom(env: Env, a: PointArg, reg0: u64, off: nat)
    requires WfArg(a) && RoomFrom(off, ArgFrames(env, a, reg0))
    ensures ArgSent(env, a, reg0, off) == ArgFrames(env, a, reg0)
    ensures ArgEnd(env, a, off) == off + FramesLen(ArgFrames(env, a, reg0))
  {
    if a.reg != REG_ARM64_MAX {
      var v, more := ArgValue(env, a, reg0), MoreFrames(env, a);
      ValueWithRoom(off, v, more);
      assert ([Word(v)] + more)[0] == Word(v) && ([Word(v)] + more)[1..] == more;
      if ReadMore(a) { SentWithRoom(env, a.ty, ArgAddr(env, a), SectionAt(off)); }
      KeptWithRoom(SectionAt(off), more, 0);
    }
  }

  lemma SentStep(env: Env, args: seq<PointArg>, reg0: u64, off: nat, first: seq<Frame>, rest: seq<Frame>, next: nat)
    requires WfArgs(args) && args != [] && next == ArgEnd(env, args[0], off)
    requires first == ArgSent(env, args[0], reg0, off) && rest == RecordSent(env, args[1..], reg0, next)
    ensures RecordSent(env, args, reg0, off) == first + rest
  {
  }

  /** With room for the whole record, all of it is sent. */
  lemma {:induction false} RecordWithRoom(env: Env, args: seq<PointArg>, reg0: u64, off: nat)
    requires WfArgs(args) && RoomFrom(off, RecordFrames(env, args, reg0))
    ensures RecordSent(env, args, reg0, off) == RecordFrames(env, args, reg0)
    decreases |args|
  {
    if args != [] {
      var first, rest := ArgFrames(env, args[0], reg0), RecordFrames(env, args[1..], reg0);
      assert RecordFrames(env, args, reg0) == first + rest;
      var next := PartsWithRoom(off, first, rest);
      ArgWithRoom(env, args[0], reg0, off);
      RecordWithRoom(env, args[1..], reg0, next);
      SentStep(env, args, reg0, off, first, rest, next);
    }
  }
}
