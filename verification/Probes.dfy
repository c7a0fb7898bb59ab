/**
 The bodies of `raw_syscalls_sys_enter` and `raw_syscalls_sys_exit` from the snapshot on: header, interpreter,
 verdict, and the record user space receives.
 */
module Probes {
  import opened Bytes
  import opened EventBuffer
  import opened Ops
  import opened Machine
  import opened Interpreter
  import opened Frames
  import opened PointArgs
  import opened Records
  import opened Runs
  import opened Decoder
  import opened RoundTrip
  import opened CutOff

  const LR: u8 := 30
  const SP: u8 := 31
  const PC: u8 := 32

  /** The call number, then lr, sp and pc. */
  function EnterHeader(regs: RegFile, sysno: u32): (header: seq<byte>)
    ensures |header| == 32
  {
    RegFrame(0, LE(4, sysno))
    + RegFrame(1, LE(8, regs[LR])) + RegFrame(2, LE(8, regs[SP])) + RegFrame(3, LE(8, regs[PC]))
  }

  /** Call number, link register, stack pointer and program counter, each behind its save index. */
  lemma HeaderFields(regs: RegFile, sysno: u32)
    ensures var h := EnterHeader(regs, sysno);
            && h[0] == 0 && h[5] == 1 && h[14] == 2 && h[23] == 3 && FromLE(h[1..5]) == sysno
            && FromLE(h[6..14]) == regs[30] && FromLE(h[15..23]) == regs[31] && FromLE(h[24..32]) == regs[32]
    ensures ExitHeader(sysno)[0] == 0 && FromLE(ExitHeader(sysno)[1..5]) == sysno
  {
    var h := EnterHeader(regs, sysno);
    U32RoundTrip(sysno);
    U64RoundTrip(regs[30]);
    U64RoundTrip(regs[31]);
    U64RoundTrip(regs[32]);
    assert h[1..5] == LE(4, sysno) == ExitHeader(sysno)[1..5];
    assert h[6..14] == LE(8, regs[30]);
    assert h[15..23] == LE(8, regs[31]);
    assert h[24..32] == LE(8, regs[32]);
  }

  function ExitHeader(sysno: u32): (header: seq<byte>)
    ensures |header| == 5
  {
    RegFrame(0, LE(4, sysno))
  }

  // ----- the state a run starts from

  /**
   What `read_args` finds: the first eight bytes of `op_ctx_t` cleared, three fields set, everything else as an
   earlier event left it, behind a record that holds `out`.
   */
  ghost function Start(ctx: OpCtx, out: Out, reg0: u64, saveIndex: u8): Cpu<Mach>
    reads ctx
  {
    Cpu(0, ctx.loopIndex, ctx.opCode, ctx.postCode, Some(OPC_SKIP.op), Ctl(0, 0, false),
        ctx.With(out).(saveIndex := saveIndex, regIndex := 0, applyFilter := false, matchWhite := false, reg0 := reg0))
  }

  /**
   What clearing eight bytes leaves over: the lengths, the addresses, the values read and a pending post code are still
   those of the event before.
   */
  lemma StaleFieldsStay(ctx: OpCtx, out: Out, reg0: u64, saveIndex: u8)
    ensures var c := Start(ctx, out, reg0, saveIndex);
            && c.postCode == ctx.postCode && c.loopIndex == ctx.loopIndex && c.m.strLen == ctx.strLen
            && c.m.readLen == ctx.readLen && c.m.readAddr == ctx.readAddr && c.m.regValue == ctx.regValue
            && c.m.pointerValue == ctx.pointerValue && c.m.tmpValue == ctx.tmpValue
            && c.pc == 0 && c.ctl == Ctl(0, 0, false) && c.m.regIndex == 0 && !c.m.applyFilter && !c.m.matchWhite
            && c.m.reg0 == reg0 && c.m.saveIndex == saveIndex && c.m.out == out
  {
  }

  method Reset(ctx: OpCtx, reg0: u64, saveIndex: u8)
    modifies ctx`saveIndex, ctx`regIndex, ctx`loopCount, ctx`breakCount, ctx`applyFilter, ctx`skipFlag, ctx`matchWhite,
             ctx`matchBlack, ctx`reg0, ctx`opKeyIndex
    ensures ctx.Control() == Ctl(0, 0, false) && !ctx.applyFilter && !ctx.matchWhite && !ctx.skipFlag
    ensures ctx.reg0 == reg0 && ctx.saveIndex == saveIndex && ctx.opKeyIndex == 0 && ctx.regIndex == 0
  {
    ctx.saveIndex, ctx.regIndex, ctx.loopCount, ctx.breakCount := 0, 0, 0, 0;
    ctx.applyFilter, ctx.skipFlag, ctx.matchWhite, ctx.matchBlack := false, false, false, false;
    ctx.reg0 := reg0;
    ctx.saveIndex := saveIndex;
    ctx.opKeyIndex := 0;
  }

  /** `read_args` on a context reset to `reg0` and `saveIndex`; the skip flag is taken down again. */
  method Interpret(env: Env, code: Program, reg0: u64, saveIndex: u8, ctx: OpCtx, buf: Buffer, strs: StrBuf)
    returns (skip: bool, ghost last: Config<Mach>)
    requires buf.Valid() && strs.entries == map[] && First(code) == Some(OPC_SKIP.op)
    modifies ctx, buf`bufOff, buf`argnum, buf.args, strs
    ensures buf.Valid() && strs.entries == map[] && !ctx.skipFlag
    ensures last == StepN(ExecOf(env), code, |code.keys|,
                          Interpreter.Config(old(Start(ctx, buf.View(), reg0, saveIndex)), Live))
    ensures skip == SkipVerdict(last)
    ensures ctx.postCode == last.cpu.postCode && ctx.saveIndex == last.cpu.m.saveIndex && buf.View() == last.cpu.m.out
  {
    Reset(ctx, reg0, saveIndex);
    assert ctx.CpuView(First(code), buf) == old(Start(ctx, buf.View(), reg0, saveIndex));
    last := ctx.ReadArgs(env, code, buf, strs);
    skip := ctx.skipFlag;
    assert ctx.CpuView(last.cpu.op, buf).m.out == buf.View();
    if skip { ctx.skipFlag := false; }
  }

  // ----- what a run leaves

  /** A point loaded as `code`, a budget beyond its cost, and a context with any harmless post code pending. */
  ghost predicate Traceable(env: Env, code: Program, args: seq<PointArg>, c: Cpu<Mach>) {
    Runnable(env, code, args) && Harmless(c.postCode)
    && |code.keys| > Warmup(c) + PointCost(env, args, Off(Entered(env, c)))
  }

  /** The verdict, and the record of a kept event appended. */
  ghost predicate Outcome(env: Env, args: seq<PointArg>, c: Cpu<Mach>, skip: bool, out: Out, saveIndex: u8)
    requires WfArgs(args) && AllPresent(env, args)
  {
    && skip == Skipped(env, args, c)
    && (!skip ==>
          && out.bytes == c.m.out.bytes + Kept(Off(c.m), SavedFrames(env, args, c), c.m.saveIndex)
          && saveIndex == Wrap8(c.m.saveIndex + |SavedFrames(env, args, c)|))
  }

  lemma EndsMeans(env: Env, args: seq<PointArg>, c: Cpu<Mach>, last: Config<Mach>)
    requires WfArgs(args) && AllPresent(env, args) && Ends(env, args, c, last)
    ensures Outcome(env, args, c, SkipVerdict(last), last.cpu.m.out, last.cpu.m.saveIndex)
  {
  }

  lemma RunEnds(env: Env, code: Program, args: seq<PointArg>, c: Cpu<Mach>, last: Config<Mach>)
    requires Traceable(env, code, args, c) && Fresh(code, c)
    requires last == StepN(ExecOf(env), code, |code.keys|, Interpreter.Config(c, Live))
    ensures last.cpu.postCode == Skip
    ensures Outcome(env, args, c, SkipVerdict(last), last.cpu.m.out, last.cpu.m.saveIndex)
  {
    PendingComesFirst(env, code, args, c, |code.keys|);
    EndsMeans(env, args, c, last);
  }

  /** `Interpret` on a traceable point. */
  method RunPoint(env: Env, code: Program, ghost args: seq<PointArg>, reg0: u64, saveIndex: u8, ctx: OpCtx, buf: Buffer,
                  strs: StrBuf)
    returns (skip: bool)
    requires buf.Valid() && strs.entries == map[]
    requires Traceable(env, code, args, Start(ctx, buf.View(), reg0, saveIndex))
    modifies ctx, buf`bufOff, buf`argnum, buf.args, strs
    ensures buf.Valid() && strs.entries == map[] && ctx.postCode == Skip && !ctx.skipFlag
    ensures Outcome(env, args, old(Start(ctx, buf.View(), reg0, saveIndex)), skip, buf.View(), ctx.saveIndex)
  {
    ghost var c := Start(ctx, buf.View(), reg0, saveIndex);
    ghost var last: Config<Mach>;
    skip, last := Interpret(env, code, reg0, saveIndex, ctx, buf, strs);
    RunEnds(env, code, args, c, last);
  }

  // ----- enter

  method SaveEnterHeader(regs: RegFile, sysno: u32, buf: Buffer)
    requires buf.Valid() && buf.View() == Out([], 0)
    modifies buf`bufOff, buf`argnum, buf.args
    ensures buf.Valid() && buf.View() == Out(EnterHeader(regs, sysno), 4)
  {
    var _ := buf.SaveToSubmitBuf(LE(4, sysno), 0);
    var _ := buf.SaveToSubmitBuf(LE(8, regs[LR]), 1);
    var _ := buf.SaveToSubmitBuf(LE(8, regs[SP]), 2);
    var _ := buf.SaveToSubmitBuf(LE(8, regs[PC]), 3);
    assert buf.View().bytes == EnterHeader(regs, sysno);
  }

  ghost function EnterStart(ctx: OpCtx, env: Env, sysno: u32): Cpu<Mach>
    reads ctx
  {
    Start(ctx, Out(EnterHeader(env.regs, sysno), 4), env.regs[0], 4)
  }

  /** From the header on; `submitted` says whether the record is sent. */
  method TraceEnter(env: Env, sysno: u32, code: Program, ghost args: seq<PointArg>, ctx: OpCtx, buf: Buffer,
                    strs: StrBuf)
    returns (submitted: bool)
    requires buf.Valid() && buf.View() == Out([], 0) && strs.entries == map[]
    requires Traceable(env, code, args, EnterStart(ctx, env, sysno))
    modifies ctx, buf`bufOff, buf`argnum, buf.args, strs
    ensures buf.Valid() && strs.entries == map[] && ctx.postCode == Skip && !ctx.skipFlag
    ensures submitted == !Skipped(env, args, old(EnterStart(ctx, env, sysno)))
    ensures submitted ==>
              buf.View().bytes == EnterHeader(env.regs, sysno)
                                  + Kept(32, SavedFrames(env, args, old(EnterStart(ctx, env, sysno))), 4)
  {
    SaveEnterHeader(env.regs, sysno, buf);
    var skip := RunPoint(env, code, args, env.regs[0], 4, ctx, buf, strs);
    submitted := !skip;
  }

  // ----- exit

  ghost function ExitStart(ctx: OpCtx, env: Env, sysno: u32): Cpu<Mach>
    reads ctx
  {
    Start(ctx, Out(ExitHeader(sysno), 1), env.regs[0], 1)
  }

  lemma ReturnKept(header: seq<byte>, fs: seq<Frame>, ret: u64, index: u8, kept: seq<byte>)
    requires kept == header + Kept(|header|, fs, 1) && index == Wrap8(1 + |fs|)
    ensures header + Kept(|header|, fs + [Word(ret)], 1) == kept + KeptFrame(|kept|, Word(ret), index)
  {
    KeptLen(|header|, fs, 1);
    KeptThenOne(header, fs, Word(ret), |header|, 1, 1 + |fs|, index);
  }

  /** The return value, if it finds room; nobody looks at the result. */
  method PushReturn(ret: u64, index: u8, buf: Buffer)
    requires buf.Valid()
    modifies buf`bufOff, buf`argnum, buf.args
    ensures buf.Valid()
    ensures buf.View().bytes == old(buf.View().bytes) + KeptFrame(|old(buf.View().bytes)|, Word(ret), index)
  {
    WrapIdempotent(index);
    var _ := buf.SaveToSubmitBuf(LE(8, ret), index);
  }

  /** The same behind what a run has kept. */
  method SaveReturn(ret: u64, index: u8, buf: Buffer, ghost header: seq<byte>, ghost fs: seq<Frame>)
    requires buf.Valid() && buf.View().bytes == header + Kept(|header|, fs, 1) && index == Wrap8(1 + |fs|)
    modifies buf`bufOff, buf`argnum, buf.args
    ensures buf.Valid() && buf.View().bytes == header + Kept(|header|, fs + [Word(ret)], 1)
  {
    ReturnKept(header, fs, ret, index, buf.View().bytes);
    PushReturn(ret, index, buf);
  }

  /** The exit side: `env.regs` is the snapshot of the enter, `ret` the current x0, saved without looking at room. */
  method TraceExit(env: Env, sysno: u32, ret: u64, code: Program, ghost args: seq<PointArg>, ctx: OpCtx, buf: Buffer,
                   strs: StrBuf)
    returns (submitted: bool)
    requires buf.Valid() && buf.View() == Out([], 0) && strs.entries == map[]
    requires Traceable(env, code, args, ExitStart(ctx, env, sysno))
    modifies ctx, buf`bufOff, buf`argnum, buf.args, strs
    ensures buf.Valid() && strs.entries == map[] && ctx.postCode == Skip && !ctx.skipFlag
    ensures submitted == !Skipped(env, args, old(ExitStart(ctx, env, sysno)))
    ensures submitted ==>
              buf.View().bytes == ExitHeader(sysno)
                                  + Kept(5, SavedFrames(env, args, old(ExitStart(ctx, env, sysno))) + [Word(ret)], 1)
  {
    ghost var c := ExitStart(ctx, env, sysno);
    var _ := buf.SaveToSubmitBuf(LE(4, sysno), 0);
    assert [] + ExitHeader(sysno) == ExitHeader(sysno);
    var skip := RunPoint(env, code, args, env.regs[0], 1, ctx, buf, strs);
    if skip { return false; }
    SaveReturn(ret, ctx.saveIndex, buf, ExitHeader(sysno), SavedFrames(env, args, c));
    return true;
  }

  // ----- decoding

  /** What `ParseContext` makes of an enter record: skip the header, parse the arguments. */
  lemma EnterRecordDecodes(env: Env, sysno: u32, args: seq<PointArg>)
    requires WfArgs(args) && PointDecodable(env, args, SysEnter)
    ensures var record := EnterHeader(env.regs, sysno) + Encode(RecordFrames(env, args, env.regs[0]), 4);
            ParseArgs(record[32..], args, SysEnter) == Got(PointMeaning(env, args, env.regs[0]), [])
  {
    var header, body := EnterHeader(env.regs, sysno), Encode(RecordFrames(env, args, env.regs[0]), 4);
    assert (header + body)[32..] == body == body + [];
    PointRoundTrip(env, args, env.regs[0], SysEnter, 4, []);
  }

  lemma ExitRecordDecodes(env: Env, sysno: u32, ret: u64, args: seq<PointArg>, last: PointArg)
    requires WfArgs(args) && PointDecodable(env, args, SysExit) && IsReturn(last)
    ensures var record := ExitHeader(sysno) + Encode(RecordFrames(env, args, env.regs[0]) + [Word(ret)], 1);
            ParseArgs(record[5..], args + [last], SysExit)
              == Got(PointMeaning(env, args, env.regs[0]) + [Decoded(ret, Plain)], [])
  {
    var header, body := ExitHeader(sysno), Encode(RecordFrames(env, args, env.regs[0]) + [Word(ret)], 1);
    assert (header + body)[5..] == body == body + [];
    ExitRoundTrip(env, args, last, env.regs[0], ret, 1, []);
  }

  // ----- whole paths

  /** With nothing pending and room for the whole record, the record is what is saved. */
  lemma AllSaved(env: Env, args: seq<PointArg>, c: Cpu<Mach>)
    requires WfArgs(args) && Harmless(c.postCode) && PendingFrames(env, c) == []
    requires RoomFrom(Off(c.m), RecordFrames(env, args, c.m.reg0))
    ensures SavedFrames(env, args, c) == RecordFrames(env, args, c.m.reg0)
  {
    PendingWrites(env, c);
    RecordWithRoom(env, args, c.m.reg0, Off(c.m));
    assert [] + RecordFrames(env, args, c.m.reg0) == RecordFrames(env, args, c.m.reg0);
  }

  /** Nothing is left pending that saves, and the frames find room behind the header. */
  ghost predicate Fitting(env: Env, c: Cpu<Mach>, fs: seq<Frame>) {
    PendingFrames(env, c) == [] && RoomFrom(Off(c.m), fs)
  }

  /** A point, its op table and its budget, before its keys are known. */
  ghost predicate Compilable(env: Env, args: seq<PointArg>, c: Cpu<Mach>) {
    && WfArgs(args) && AllSelfContained(args) && AllPresent(env, args) && Harmless(c.postCode)
    && |PointConfigs(args)| < 256 && Warmup(c) + PointCost(env, args, Off(Entered(env, c))) < 256
  }

  /** `GetEnterConfig` and `GetExitConfig`, and the table the kernel gets. */
  method LoadPoint(args: seq<PointArg>, opm: OpManager) returns (code: Program)
    requires WfArgs(args) && |PointConfigs(args)| < 256
    requires opm.Valid() && 0 < |opm.opList| && opm.opList[0].config == OPC_SKIP
    modifies opm
    ensures Loaded(code, args) && |code.keys| == 256
  {
    var config, ok := GetConfig(args, 256, opm);
    var table := opm.GetOpList();
    code := Program(table, config.opKeyList[..]);
    HoldsIsLoaded(config, code, args);
  }

  /**
   The whole path of an enter event: compile the point, intern its ops, run the probe, decode the record. An
   event is submitted exactly when all filters together keep it; with room for its record the decoder then returns
   what the arguments mean in the event's registers and memory, with nothing left over.
   */
  method EnterPath(args: seq<PointArg>, opm: OpManager, env: Env, sysno: u32, ctx: OpCtx, buf: Buffer, strs: StrBuf)
    returns (submitted: bool, decoded: Option<seq<Decoded>>)
    requires opm.Valid() && 0 < |opm.opList| && opm.opList[0].config == OPC_SKIP
    requires buf.Valid() && buf.View() == Out([], 0) && strs.entries == map[]
    requires Compilable(env, args, EnterStart(ctx, env, sysno))
    modifies opm, ctx, buf`bufOff, buf`argnum, buf.args, strs
    ensures submitted == !Skipped(env, args, old(EnterStart(ctx, env, sysno)))
    ensures !submitted ==> decoded == None
    ensures submitted && PointDecodable(env, args, SysEnter)
            && Fitting(env, old(EnterStart(ctx, env, sysno)), RecordFrames(env, args, env.regs[0]))
            ==> decoded == Some(PointMeaning(env, args, env.regs[0]))
  {
    ghost var c := EnterStart(ctx, env, sysno);
    var code := LoadPoint(args, opm);
    submitted := TraceEnter(env, sysno, code, args, ctx, buf, strs);
    decoded := None;
    if submitted {
      EnterSent(env, sysno, args, c, buf.View().bytes);
      decoded := Decode(buf.args[..buf.bufOff], 32, args, SysEnter);
    }
  }

  lemma EnterSent(env: Env, sysno: u32, args: seq<PointArg>, c: Cpu<Mach>, record: seq<byte>)
    requires WfArgs(args) && Harmless(c.postCode) && Off(c.m) == 32 && c.m.reg0 == env.regs[0]
    requires record == EnterHeader(env.regs, sysno) + Kept(32, SavedFrames(env, args, c), 4)
    ensures |record| >= 32
    ensures PointDecodable(env, args, SysEnter) && Fitting(env, c, RecordFrames(env, args, env.regs[0])) ==>
              ParseArgs(record[32..], args, SysEnter) == Got(PointMeaning(env, args, env.regs[0]), [])
  {
    var fs := RecordFrames(env, args, env.regs[0]);
    if PointDecodable(env, args, SysEnter) && Fitting(env, c, fs) {
      AllSaved(env, args, c);
      KeptWithRoom(32, fs, 4);
      EnterRecordDecodes(env, sysno, args);
    }
  }

  /** An argument without a register adds nothing to a point's ops. */
  lemma ReturnHasNoOps(args: seq<PointArg>, last: PointArg)
    requires WfArgs(args) && WfArg(last) && last.reg == REG_ARM64_MAX
    ensures WfArgs(args + [last]) && PointConfigs(args + [last]) == PointConfigs(args)
  {
    assert [last][1..] == [] && PointConfigs([last]) == ArgConfigs(last) + [];
    PointConfigsAppend(args, [last]);
  }

  /**
   The whole path of an exit event, with the registers of its enter: the point's last argument is the return value,
   which the decoder finds behind the arguments.
   */
  method ExitPath(args: seq<PointArg>, last: PointArg, opm: OpManager, env: Env, sysno: u32, ret: u64, ctx: OpCtx,
                  buf: Buffer, strs: StrBuf)
    returns (submitted: bool, decoded: Option<seq<Decoded>>)
    requires opm.Valid() && 0 < |opm.opList| && opm.opList[0].config == OPC_SKIP
    requires buf.Valid() && buf.View() == Out([], 0) && strs.entries == map[]
    requires Compilable(env, args, ExitStart(ctx, env, sysno)) && WfArg(last) && IsReturn(last)
    modifies opm, ctx, buf`bufOff, buf`argnum, buf.args, strs
    ensures submitted == !Skipped(env, args, old(ExitStart(ctx, env, sysno)))
    ensures !submitted ==> decoded == None
    ensures submitted && PointDecodable(env, args, SysExit)
            && Fitting(env, old(ExitStart(ctx, env, sysno)), RecordFrames(env, args, env.regs[0]) + [Word(ret)])
            ==> decoded == Some(PointMeaning(env, args, env.regs[0]) + [Decoded(ret, Plain)])
  {
    ghost var c := ExitStart(ctx, env, sysno);
    ReturnHasNoOps(args, last);
    var code := LoadPoint(args + [last], opm);
    submitted := TraceExit(env, sysno, ret, code, args, ctx, buf, strs);
    decoded := None;
    if submitted {
      ExitSent(env, sysno, ret, args, last, c, buf.View().bytes);
      decoded := Decode(buf.args[..buf.bufOff], 5, args + [last], SysExit);
    }
  }

  lemma ExitSent(env: Env, sysno: u32, ret: u64, args: seq<PointArg>, last: PointArg, c: Cpu<Mach>, record: seq<byte>)
    requires WfArgs(args) && Harmless(c.postCode) && Off(c.m) == 5 && c.m.reg0 == env.regs[0] && IsReturn(last)
    requires record == ExitHeader(sysno) + Kept(5, SavedFrames(env, args, c) + [Word(ret)], 1)
    ensures |record| >= 5
    ensures PointDecodable(env, args, SysExit)
            && Fitting(env, c, RecordFrames(env, args, env.regs[0]) + [Word(ret)]) ==>
              ParseArgs(record[5..], args + [last], SysExit)
                == Got(PointMeaning(env, args, env.regs[0]) + [Decoded(ret, Plain)], [])
  {
    var fs := RecordFrames(env, args, env.regs[0]);
    if PointDecodable(env, args, SysExit) && Fitting(env, c, fs + [Word(ret)]) {
      var next := PartsWithRoom(5, fs, [Word(ret)]);
      AllSaved(env, args, c);
      KeptWithRoom(5, fs + [Word(ret)], 1);
      ExitRecordDecodes(env, sysno, ret, args, last);
    }
  }

  /** `ParseEnterPoint` and `ParseExitPoint` behind the header. */
  method Decode(record: seq<byte>, header: nat, args: seq<PointArg>, phase: Phase)
    returns (decoded: Option<seq<Decoded>>)
    requires |record| >= header
    ensures decoded == match ParseArgs(record[header..], args, phase) { case Panic => None case Got(ds, _) => Some(ds) }
  {
    var reader := new ByteBuffer(record[header..]);
    decoded := reader.ParsePoint(args, phase);
  }
}
