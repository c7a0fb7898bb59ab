/**
 What a run cut off by its budget leaves for the next event: a post-op still pending, which that event executes
 before its own first op.
 */
module CutOff {
  import opened Bytes
  import opened Memory
  import opened EventBuffer
  import opened Ops
  import opened Machine
  import opened Interpreter
  import opened Structured
  import opened Frames
  import opened Effects
  import opened ArgTypes
  import opened Emission
  import opened ReadAddress
  import opened PointArgs
  import opened Records
  import opened Runs
  import opened Decoder
  import opened RoundTrip
  import opened Framing

  // ----- when

  /** A turn ends with a post-op pending if and only if none was pending and it fetches an op that has one. */
  lemma TurnLeavesPending<M>(x: Executor<M>, code: Program, c: Cpu<M>)
    requires c.op.Some?
    ensures Step(x, code, c).cpu.postCode != Skip
       <==> c.postCode == Skip && c.pc < |code.keys| && code.keys[c.pc] in code.table
            && code.table[code.keys[c.pc]].post != Skip
  {
  }

  /** A program that goes on, and one turn more at an op with a post-op. */
  lemma CutAtOp(s: Sem, f: Driver<Mach>, code: Program, p: seq<Stmt>, op: Op, c: Cpu<Mach>, ctl1: Ctl, m1: Mach,
                cost: nat, m2: Mach)
    requires Interprets(s, f, code) && Begun(c) && Wf(p) && Idle(ctl1) && Fits(code, c.pc, Flatten(p) + [op])
    requires s.prog(p, c.ctl, c.m).0 == Go(ctl1, m1) && s.prog(p, c.ctl, c.m).1 == cost
    requires !op.code.Skip? && !op.code.ForBreak? && Exec(s.env, op.code, op, ctl1, m1) == Res(true, ctl1, m2)
    ensures var t := Iterate(f, cost + 1, Config(c, Live));
            t.status == Live && t.cpu.postCode == op.post && t.cpu.m == m2
  {
    var start, n := Config(c, Live), cost + 1;
    var next := FitsNext(code, c.pc, Flatten(p), [op]);
    var r := Eval(s.x, p, c.ctl, c.m);
    ProgramRuns(f, s.x, code, c, p);
    var mid := Iterate(f, cost, start);
    assert mid == Config(mid.cpu, Live) && mid.cpu.pc == next;
    IterateSplit(f, cost, 1, n, start, mid);
    StepOnce(f, s.x, code, mid.cpu);
    assert code.keys[next] in code.table && code.table[code.keys[next]] == op;
  }

  // ----- in the middle of a point

  /** The number of bytes a section that starts with one fused op asks for; None for other types. */
  function FusedSize(t: ArgType): Option<u32> {
    match t
    case Ptr(_) => Some(8)
    case Arr(elem, len) => Some(ArrSize(elem, len))
    case BufAll => Some(MAX_BUF_READ_SIZE)
    case _ => None
  }

  /** An argument without filters whose section starts with a fused op. */
  predicate FusedArg(a: PointArg) {
    && WfArg(a) && a.reg != REG_ARM64_MAX && !a.isRet && SelfContained(a) && a.filters == []
    && ReadMore(a) && FusedSize(a.ty).Some?
  }

  lemma FusedConfigs(a: PointArg) returns (rest: seq<OpConfig>)
    requires FusedArg(a)
    ensures ArgConfigs(a) == HeadConfigs(a) + ([SaveStructOf(FusedSize(a.ty).value)] + rest)
  {
    rest := if a.ty.Ptr? then TypeConfigs(a.ty.inner) else [];
    assert MoreConfigs(a) == [SaveStructOf(FusedSize(a.ty).value)] + rest;
    assert HeadConfigs(a) + [] + MoreConfigs(a) == HeadConfigs(a) + MoreConfigs(a);
  }

  lemma Regroup<T>(p: seq<T>, h: seq<T>, x: T, rest: seq<T>, q: seq<T>)
    ensures p + ((h + ([x] + rest)) + q) == ((p + h) + [x]) + (rest + q)
  {
  }

  lemma FrontFits(code: Program, p: seq<OpConfig>, x: OpConfig, q: seq<OpConfig>)
    requires Fits(code, 0, OpsOf((p + [x]) + q))
    ensures Fits(code, 0, OpsOf(p) + [x.op])
  {
    OpsOfAppend(p + [x], q);
    OpsOfAppend(p, [x]);
    OpsOf1(x);
    FitsParts(code, 0, OpsOf(p + [x]), OpsOf(q));
  }

  lemma PointConfigsBehind(front: seq<PointArg>, a: PointArg, back: seq<PointArg>)
    requires WfArgs(front) && WfArg(a) && WfArgs(back)
    ensures WfArgs(front + ([a] + back))
    ensures PointConfigs(front + ([a] + back)) == PointConfigs(front) + (ArgConfigs(a) + PointConfigs(back))
  {
    assert ([a] + back)[0] == a && ([a] + back)[1..] == back;
    PointConfigsAppend(front, [a] + back);
  }

  /** The ops up to and including that fused op. */
  lemma FusedFits(code: Program, front: seq<PointArg>, a: PointArg, back: seq<PointArg>, x: OpConfig)
    requires WfArgs(front) && WfArgs(back) && FusedArg(a) && WfArgs(front + ([a] + back))
    requires Loaded(code, front + ([a] + back)) && x == SaveStructOf(FusedSize(a.ty).value)
    ensures Fits(code, 0, OpsOf(PointConfigs(front) + HeadConfigs(a)) + [x.op])
  {
    var rest := FusedConfigs(a);
    PointConfigsBehind(front, a, back);
    Regroup(PointConfigs(front), HeadConfigs(a), x, rest, PointConfigs(back));
    FrontFits(code, PointConfigs(front) + HeadConfigs(a), x, rest + PointConfigs(back));
  }

  lemma PrefixFlattens(front: seq<PointArg>, a: PointArg)
    requires WfArgs(front) && WfArg(a)
    ensures Flatten(PointProg(front) + Dos(OpsOf(HeadConfigs(a)))) == OpsOf(PointConfigs(front) + HeadConfigs(a))
  {
    PointIsBracketed(front);
    FlattenDos(OpsOf(HeadConfigs(a)));
    FlattenAppend(PointProg(front), Dos(OpsOf(HeadConfigs(a))));
    OpsOfAppend(PointConfigs(front), HeadConfigs(a));
  }

  /** The arguments in front, and the value of this one, as a program `p`. */
  lemma UpToSection(s: Sem, front: seq<PointArg>, a: PointArg, ctl: Ctl, m: Mach)
    returns (p: seq<Stmt>, ctl1: Ctl, m1: Mach)
    requires Valid(s) && Idle(ctl) && FusedArg(a)
    requires WfArgs(front) && AllSelfContained(front) && AllPresent(s.env, front)
    requires Reject !in PointChecks(s.env, front, m.strLen, Off(m))
    ensures Wf(p) && Flatten(p) == OpsOf(PointConfigs(front) + HeadConfigs(a))
    ensures Idle(ctl1) && s.prog(p, ctl, m).0 == Go(ctl1, m1)
    ensures s.prog(p, ctl, m).1 == PointCost(s.env, front, Off(m)) + HeadCost(a)
    ensures m1.readAddr == ArgAddr(s.env, a)
  {
    var cs, fs := PointChecks(s.env, front, m.strLen, Off(m)), RecordSent(s.env, front, m.reg0, Off(m));
    var ops, mid := OpsOf(HeadConfigs(a)), m;
    p := PointProg(front) + Dos(ops);
    PrefixFlattens(front, a);
    ctl1, mid := PointPiece(s, front, ctl, m);
    m1 := HeadRuns(s, a, ctl1, mid);
    HeadIsWf(a);
    EmitsDos(s, ops, ctl1, mid, ctl1, m1, [Word(ArgValue(s.env, a, mid.reg0))]);
    EmitsPiece(s, Dos(ops), ctl1, mid, ctl1, m1, [Word(ArgValue(s.env, a, mid.reg0))], HeadCost(a));
    PieceThen(s, PointProg(front), Dos(ops), ctl, m, ctl1, mid, ctl1, m1, fs, [Word(ArgValue(s.env, a, mid.reg0))],
              cs, [], PointCost(s.env, front, Off(m)), HeadCost(a));
    assert cs + [] == cs;
  }

  lemma CutAtSection(s: Sem, f: Driver<Mach>, code: Program, front: seq<PointArg>, a: PointArg, c: Cpu<Mach>, size: u32,
                     cost: nat)
    requires Interprets(s, f, code) && Begun(c) && WfArgs(front) && AllSelfContained(front) && AllPresent(s.env, front)
    requires FusedArg(a) && Reject !in PointChecks(s.env, front, c.m.strLen, Off(c.m))
    requires Fits(code, 0, OpsOf(PointConfigs(front) + HeadConfigs(a)) + [SaveStructOf(size).op])
    requires cost == PointCost(s.env, front, Off(c.m)) + HeadCost(a)
    ensures CutThere(Iterate(f, cost + 1, Config(c, Live)), ArgAddr(s.env, a), size)
  {
    var p, ctl1, m1 := UpToSection(s, front, a, c.ctl, c.m);
    LenStructExec(s.env, size, ctl1, m1);
    CutAtOp(s, f, code, p, Op(SetReadLen, Skip, SaveStruct, size), c, ctl1, m1, cost, m1.(readLen := size));
  }

  lemma CutBehind(env: Env, code: Program, front: seq<PointArg>, a: PointArg, c: Cpu<Mach>, size: u32, cost: nat,
                  n: nat)
    requires Begun(c) && WfArgs(front) && AllSelfContained(front) && AllPresent(env, front) && FusedArg(a)
    requires Fits(code, 0, OpsOf(PointConfigs(front) + HeadConfigs(a)) + [SaveStructOf(size).op])
    requires Reject !in PointChecks(env, front, c.m.strLen, Off(c.m))
    requires cost == PointCost(env, front, Off(c.m)) + HeadCost(a) && n == cost + 1
    ensures CutThere(StepN(ExecOf(env), code, n, Config(c, Live)), ArgAddr(env, a), size)
  {
    SemIsValid(env);
    NextDrives(ExecOf(env), code);
    CutAtSection(SemOf(env), Next(ExecOf(env), code), code, front, a, c, size, cost);
  }

  /** The run has not ended, SAVE_STRUCT is pending, and so are the address and length of what it was to save. */
  ghost predicate CutThere(t: Config<Mach>, addr: u64, size: u32) {
    t.status == Live && t.cpu.postCode == SaveStruct && t.cpu.m.readAddr == addr && t.cpu.m.readLen == size
  }

  /**
   A budget that ends one turn into an argument's section leaves SAVE_STRUCT pending, with the address and the
   length of that section in the registers the next event finds.
   */
  lemma CutInSection(env: Env, code: Program, front: seq<PointArg>, a: PointArg, back: seq<PointArg>, c: Cpu<Mach>,
                     n: nat)
    requires WfArgs(front) && WfArgs(back) && FusedArg(a) && WfArgs(front + ([a] + back))
    requires Loaded(code, front + ([a] + back)) && Begun(c) && AllSelfContained(front) && AllPresent(env, front)
    requires Reject !in PointChecks(env, front, c.m.strLen, Off(c.m))
    requires n == PointCost(env, front, Off(c.m)) + HeadCost(a) + 1
    ensures CutThere(StepN(ExecOf(env), code, n, Config(c, Live)), ArgAddr(env, a), FusedSize(a.ty).value)
  {
    var size := FusedSize(a.ty).value;
    FusedFits(code, front, a, back, SaveStructOf(size));
    CutBehind(env, code, front, a, c, size, n - 1, n);
  }

  // ----- what the next event makes of it

  /** Everything a run from `c` saves: the frame left pending, then the record. */
  function SavedFrames(env: Env, args: seq<PointArg>, c: Cpu<Mach>): seq<Frame>
    requires WfArgs(args)
  {
    PendingFrames(env, c) + RecordSent(env, args, c.m.reg0, Off(Entered(env, c)))
  }

  predicate Skipped(env: Env, args: seq<PointArg>, c: Cpu<Mach>)
    requires WfArgs(args) && AllPresent(env, args)
  {
    Rejected(PointChecks(env, args, Entered(env, c).strLen, Off(Entered(env, c))))
  }

  ghost predicate Ends(env: Env, args: seq<PointArg>, c: Cpu<Mach>, last: Config<Mach>)
    requires WfArgs(args) && AllPresent(env, args)
  {
    && last.cpu.postCode == Skip && SkipVerdict(last) == Skipped(env, args, c)
    && (!SkipVerdict(last) ==> Appended(c.m, last.cpu.m, SavedFrames(env, args, c)))
  }

  /**
   The next event, whatever its point: a kept record starts with the pending frame, taken at the old address and
   length in the new event's memory, and its own arguments follow.
   */
  lemma PendingComesFirst(env: Env, code: Program, args: seq<PointArg>, c: Cpu<Mach>, n: nat)
    requires Runnable(env, code, args) && Fresh(code, c)
    requires n > Warmup(c) + PointCost(env, args, Off(Entered(env, c)))
    ensures Ends(env, args, c, StepN(ExecOf(env), code, n, Config(c, Live)))
  {
    RunFinishes(env, code, args, c, n);
    PendingWrites(env, c);
    FinishedEnds(env, args, c, StepN(ExecOf(env), code, n, Config(c, Live)));
  }

  lemma FinishedEnds(env: Env, args: seq<PointArg>, c: Cpu<Mach>, last: Config<Mach>)
    requires WfArgs(args) && AllPresent(env, args) && Finished(env, args, Entered(env, c), last)
    requires Wrote(c.m, Entered(env, c), PendingFrames(env, c))
    ensures Ends(env, args, c, last)
  {
    if !SkipVerdict(last) {
      AppendedBoth(c.m, Entered(env, c), last.cpu.m, PendingFrames(env, c),
                   RecordSent(env, args, c.m.reg0, Off(Entered(env, c))));
    }
  }

  lemma AppendedBoth(m: Mach, m1: Mach, m2: Mach, a: seq<Frame>, b: seq<Frame>)
    requires Wrote(m, m1, a) && Appended(m1, m2, b)
    ensures Appended(m, m2, a + b)
  {
    NextIndex(m.saveIndex, |a|, |b|);
    BytesBoth(m.out.bytes, m1.out.bytes, Off(m), Off(m1), m.saveIndex, m1.saveIndex, m.saveIndex + |a|, a, b);
  }

  /**
   The frame left by `CutInSection` is the new event's memory at the old address. The decoder takes it for the first
   argument's value: its length, and above it its first four bytes.
   */
  lemma PendingSection(env: Env, c: Cpu<Mach>, k: u8, tail: seq<byte>)
    requires c.postCode == SaveStruct && 4 <= c.m.readLen <= MAX_BYTES_ARR_SIZE
    requires Read(env.mem, Untag(c.m.readAddr), c.m.readLen).Some?
    ensures var d := Readable(env.mem, c.m.readAddr, c.m.readLen);
            && PendingFrames(env, c) == [Chunk(|d|, d)]
            && TakeWord(FrameBytes(Chunk(|d|, d), k) + tail) == Got(|d| + U32 * FromLE(d[..4]), d[4..] + tail)
  {
    FrameAsValue(Readable(env.mem, c.m.readAddr, c.m.readLen), k, tail);
  }

  // ----- thirteen arrays

  /** `int_arr:4` at register `r`, `n` times. */
  function Arrays(r: u32, n: nat): seq<PointArg> {
    if n == 0 then [] else [RegisterArg(r, Arr(4, 4), UprobeEnter)] + Arrays(r, n - 1)
  }

  lemma ArrayAlone(env: Env, a: PointArg, r: u32, strLen: u32, off: nat)
    requires r < REG_ARM64_MAX && a == RegisterArg(r, Arr(4, 4), UprobeEnter)
    ensures FusedArg(a) && Present(env, a.filters) && ArgCost(env, a, off) == 5 && HeadCost(a) == 3
    ensures FusedSize(a.ty) == Some(16) && ArgAddr(env, a) == env.regs[r] && ArgChecks(env, a, strLen, off) == []
  {
    RegisterCost(env, r, a.ty, UprobeEnter, off);
    OpsOf2(ReadSaveReg(r), OPC_MOVE_REG_VALUE);
    CountCost(ReadSaveReg(r).op, OPC_MOVE_REG_VALUE.op);
  }

  lemma ArrayInFront(env: Env, a: PointArg, r: u32, rest: seq<PointArg>, strLen: u32, off: nat, cost: nat)
    requires r < REG_ARM64_MAX && a == RegisterArg(r, Arr(4, 4), UprobeEnter)
    requires WfArgs(rest) && AllSelfContained(rest) && AllPresent(env, rest)
    requires PointCost(env, rest, ArgEnd(env, a, off)) == cost
    requires PointChecks(env, rest, ArgStrLen(env, a, strLen, off), ArgEnd(env, a, off)) == []
    ensures var args := [a] + rest;
            && WfArgs(args) && AllSelfContained(args) && AllPresent(env, args)
            && PointCost(env, args, off) == cost + 5 && PointChecks(env, args, strLen, off) == []
  {
    ArrayAlone(env, a, r, strLen, off);
    ArgInFront(env, a, rest, strLen, off);
    var args := [a] + rest;
    assert forall i :: 0 < i < |args| ==> args[i] == rest[i - 1];
  }

  /** They take five turns each, whatever the offset, and check nothing. */
  lemma {:induction false} ArraysCost(env: Env, args: seq<PointArg>, r: u32, n: nat, strLen: u32, off: nat, cost: nat)
    requires r < REG_ARM64_MAX && args == Arrays(r, n) && cost == 5 * n
    ensures WfArgs(args) && AllSelfContained(args) && AllPresent(env, args)
    ensures PointCost(env, args, off) == cost && PointChecks(env, args, strLen, off) == []
    decreases n
  {
    if n > 0 {
      var a, rest := RegisterArg(r, Arr(4, 4), UprobeEnter), Arrays(r, n - 1);
      assert args == [a] + rest;
      ArrayAlone(env, a, r, strLen, off);
      ArraysCost(env, rest, r, n - 1, ArgStrLen(env, a, strLen, off), ArgEnd(env, a, off), cost - 5);
      ArrayInFront(env, a, r, rest, strLen, off, cost - 5);
    }
  }

  /** And three keys, so that thirteen of them fit a list of 64. */
  lemma {:induction false} ArraysKeys(r: u32, n: nat)
    requires r < REG_ARM64_MAX && WfArgs(Arrays(r, n))
    ensures |PointConfigs(Arrays(r, n))| == 3 * n
    decreases n
  {
    if n > 0 {
      var args := Arrays(r, n);
      assert args[1..] == Arrays(r, n - 1) && |ArgConfigs(args[0])| == 3;
      ArraysKeys(r, n - 1);
    }
  }

  lemma {:induction false} ArraysSplit(r: u32, n: nat)
    ensures Arrays(r, n + 1) == Arrays(r, n) + [RegisterArg(r, Arr(4, 4), UprobeEnter)]
    decreases n
  {
    if n > 0 { ArraysSplit(r, n - 1); }
  }

  lemma ArrayIsCut(env: Env, code: Program, front: seq<PointArg>, a: PointArg, r: u32, c: Cpu<Mach>, n: nat)
    requires r < REG_ARM64_MAX && a == RegisterArg(r, Arr(4, 4), UprobeEnter)
    requires WfArgs(front) && AllSelfContained(front) && AllPresent(env, front)
    requires PointChecks(env, front, c.m.strLen, Off(c.m)) == []
    requires n == PointCost(env, front, Off(c.m)) + 4 && WfArgs(front + [a]) && Loaded(code, front + [a]) && Begun(c)
    ensures CutThere(StepN(ExecOf(env), code, n, Config(c, Live)), env.regs[r], 16)
  {
    ArrayAlone(env, a, r, c.m.strLen, Off(c.m));
    assert [a] + [] == [a];
    CutInSection(env, code, front, a, [], c, n);
  }

  /** Thirteen such arguments of a uprobe, in 39 keys: its 64 turns end with SAVE_STRUCT pending. */
  lemma ThirteenArraysAreCut(env: Env, code: Program, args: seq<PointArg>, r: u32, c: Cpu<Mach>, n: nat)
    requires r < REG_ARM64_MAX && args == Arrays(r, 13) && WfArgs(args) && Loaded(code, args)
    requires Begun(c) && n == |code.keys| == 64
    ensures CutThere(StepN(ExecOf(env), code, n, Config(c, Live)), env.regs[r], 16)
  {
    var k, a := 12, RegisterArg(r, Arr(4, 4), UprobeEnter);
    var front := Arrays(r, k);
    ArraysSplit(r, k);
    ArraysCost(env, front, r, k, c.m.strLen, Off(c.m), 60);
    ArrayIsCut(env, code, front, a, r, c, n);
  }

  // ----- left-over post codes are always harmless

  predicate HarmlessConfigs(configs: seq<OpConfig>) { forall i :: 0 <= i < |configs| ==> Harmless(configs[i].op.post) }

  predicate HarmlessEntries(list: seq<Entry>) { forall i :: 0 <= i < |list| ==> Harmless(list[i].config.op.post) }

  ghost predicate HarmlessTable(table: map<nat, Op>) { forall k :: k in table ==> Harmless(table[k].post) }

  lemma HarmlessBoth(a: seq<OpConfig>, b: seq<OpConfig>)
    requires HarmlessConfigs(a) && HarmlessConfigs(b)
    ensures HarmlessConfigs(a + b)
  {
  }

  lemma LoopsAreHarmless()
    ensures HarmlessConfigs(IovecConfigs()) && HarmlessConfigs(IovecLoop()) && HarmlessConfigs(StrArrLoop())
  {
  }

  lemma MsghdrIsHarmless()
    ensures HarmlessConfigs(MsghdrConfigs())
  {
  }

  lemma LoopIsHarmless(head: seq<OpConfig>, body: seq<OpConfig>)
    requires HarmlessConfigs(head) && HarmlessConfigs(body)
    ensures HarmlessConfigs(head + InLoop(body))
  {
  }

  lemma {:induction false} TypeIsHarmless(t: ArgType)
    ensures HarmlessConfigs(TypeConfigs(t))
  {
    LoopsAreHarmless();
    match t
    case Ptr(inner) =>
      TypeIsHarmless(inner);
      HarmlessBoth([SaveStructOf(8)], TypeConfigs(inner));
    case StrArr => LoopIsHarmless([NewValue(OPC_SET_BREAK_COUNT, MAX_LOOP_COUNT)], StrArrLoop());
    case Iovec(r) => LoopIsHarmless([ReadRegBreakCount(r), OPC_SAVE_REG], IovecLoop());
    case Msghdr =>
      MsghdrIsHarmless();
      LoopIsHarmless(MsghdrConfigs(), IovecLoop());
    case _ =>
  }

  lemma {:induction false} AddressIsHarmless(actions: seq<Action>, hasFirst: bool)
    requires AllAcceptable(actions, hasFirst)
    ensures HarmlessConfigs(ActionsOps(actions, hasFirst))
    decreases |actions|
  {
    if actions != [] { AddressIsHarmless(actions[1..], hasFirst || actions[0].Register?); }
  }

  lemma FiltersAreHarmless(base: OpConfig, filters: seq<u32>)
    requires base.op.post == Skip
    ensures HarmlessConfigs(FilterConfigs(base, filters))
  {
  }

  lemma HeadIsHarmless(a: PointArg)
    requires WfArg(a)
    ensures HarmlessConfigs(HeadConfigs(a))
  {
    if a.address.Some? { AddressIsHarmless(a.address.value, false); }
  }

  lemma MoreIsHarmless(a: PointArg)
    ensures HarmlessConfigs(MoreConfigs(a))
  {
    if ReadMore(a) {
      var late := if LateFilters(a.ty) then FilterConfigs(LateBase(a.ty), a.filters) else [];
      TypeIsHarmless(a.ty);
      if LateFilters(a.ty) { FiltersAreHarmless(LateBase(a.ty), a.filters); }
      HarmlessBoth(TypeConfigs(a.ty), late);
    }
  }

  lemma ArgIsHarmless(a: PointArg)
    requires WfArg(a)
    ensures HarmlessConfigs(ArgConfigs(a))
  {
    if a.reg != REG_ARM64_MAX {
      var h, f, m := HeadConfigs(a), FilterConfigs(OPC_FILTER_VALUE, EarlyFilters(a)), MoreConfigs(a);
      HeadIsHarmless(a);
      FiltersAreHarmless(OPC_FILTER_VALUE, EarlyFilters(a));
      MoreIsHarmless(a);
      HarmlessBoth(h, f);
      HarmlessBoth(h + f, m);
    }
  }

  lemma {:induction false} PointIsHarmless(args: seq<PointArg>)
    requires WfArgs(args)
    ensures HarmlessConfigs(PointConfigs(args))
    decreases |args|
  {
    if args != [] {
      ArgIsHarmless(args[0]);
      PointIsHarmless(args[1..]);
    }
  }

  lemma {:induction false} InterningIsHarmless(list: seq<Entry>, configs: seq<OpConfig>)
    requires HarmlessEntries(list) && HarmlessConfigs(configs)
    ensures HarmlessEntries(InternAll(list, configs).0)
    decreases |configs|
  {
    if configs != [] {
      var (list1, k) := Intern(list, configs[0]);
      InterningIsHarmless(list1, configs[1..]);
    }
  }

  lemma BaseIsHarmless(base: seq<OpConfig>)
    requires base == BaseOps()
    ensures HarmlessConfigs(base)
  {
  }

  /** The op table holds harmless post codes after start-up. */
  lemma StartIsHarmless(list: seq<Entry>, base: seq<OpConfig>)
    requires list == [] && base == BaseOps()
    ensures HarmlessEntries(InternAll(list, base).0)
  {
    BaseIsHarmless(base);
    InterningIsHarmless(list, base);
  }

  /** And it keeps doing so when any point's ops are registered. */
  lemma TableIsHarmless(list: seq<Entry>, args: seq<PointArg>)
    requires WfArgs(args) && HarmlessEntries(list)
    ensures HarmlessEntries(InternAll(list, PointConfigs(args)).0) && HarmlessTable(Table(list))
  {
    PointIsHarmless(args);
    InterningIsHarmless(list, PointConfigs(args));
  }

  /** Whatever ran and however it ended, what it leaves pending is harmless: `Fresh` asks for nothing more. */
  lemma {:induction false} RunsLeaveHarmless<M(!new)>(
    f: Driver<M>, x: Executor<M>, code: Program, s: Config<M>, n: nat)
    requires Drives(f, x, code) && HarmlessTable(code.table) && Harmless(s.cpu.postCode)
    ensures Harmless(Iterate(f, n, s).cpu.postCode)
    decreases n
  {
    if n > 0 {
      if s.status == Live { var next := Step(x, code, s.cpu); }
      RunsLeaveHarmless(f, x, code, f(s), n - 1);
    }
  }
}
