/**
 Whole runs of `read_args` on a point's key list, from whatever the previous event left in `op_ctx`: what is
 written, what is skipped, how long it takes, and what none of it depends on.
 */
module Runs {
  import opened Bytes
  import opened Memory
  import opened EventBuffer
  import opened Ops
  import opened Machine
  import opened Interpreter
  import opened Structured
  import opened Frames
  import opened Effects
  import opened ArgTypes
  import opened Sections
  import opened Emission
  import opened PointArgs
  import opened Records

  /** The key list of `args`: their ops, then SKIP. */
  ghost predicate Loaded(code: Program, args: seq<PointArg>)
    requires WfArgs(args)
  {
    var n := |PointConfigs(args)|;
    && Fits(code, 0, OpsOf(PointConfigs(args)))
    && n < |code.keys| && code.keys[n] == 0 && 0 in code.table && code.table[0] == OPC_SKIP.op
  }

  /** A key list built by `GetConfig` is loaded. */
  lemma HoldsIsLoaded(config: OpKeyConfig, code: Program, args: seq<PointArg>)
    requires WfArgs(args) && config.Holds(code.table, OpsOf(PointConfigs(args))) && code.keys == config.opKeyList[..]
    ensures Loaded(code, args)
  {
    var n := |PointConfigs(args)|;
    assert |config.Keys()| == n;
    forall k | 0 <= k < n
      ensures code.keys[k] in code.table && code.table[code.keys[k]] == OpsOf(PointConfigs(args))[k - 0]
    {
      assert code.keys[k] == config.Keys()[k];
    }
  }

  // ----- the context a run starts with

  /** Post codes that neither stop a run nor touch its control flow; every code the builders fuse is one. */
  predicate Harmless(code: Code) {
    !IsFilter(code) && !code.ForBreak? && !code.SavePtrString? && !code.ReadReg?
  }

  /**
   `op_ctx` as a probe hands it to `read_args`: the eight leading bytes are cleared, the save index, program
   counter and return register are set, and everything else is left over, a pending post code included. That code
   is 0 on a context that was never used.
   */
  ghost predicate Fresh(code: Program, c: Cpu<Mach>) {
    && c.pc == 0 && c.op == First(code) && Harmless(c.postCode)
    && c.ctl == Ctl(0, 0, false) && !c.m.applyFilter && !c.m.matchWhite
  }

  /** A left-over post code runs before the first key is fetched, with the op at index 0. */
  function Resumed(env: Env, c: Cpu<Mach>): Res<Mach> {
    if c.postCode == Skip then Res(true, c.ctl, c.m) else Exec(env, c.postCode, OPC_SKIP.op, c.ctl, c.m)
  }

  /** What the point's own ops start from. */
  function Entered(env: Env, c: Cpu<Mach>): Mach { Resumed(env, c).m }

  /** The turn a left-over post code takes. */
  function Warmup(c: Cpu<Mach>): nat { if c.postCode == Skip then 0 else 1 }

  /** The left-over post code is done with. */
  ghost predicate Begun(c: Cpu<Mach>) {
    c.pc == 0 && c.postCode == Skip && Idle(c.ctl) && !c.m.applyFilter && !c.m.matchWhite
  }

  lemma ResumedGoes(env: Env, c: Cpu<Mach>)
    requires Harmless(c.postCode) && Idle(c.ctl) && !c.m.applyFilter && !c.m.matchWhite
    ensures var r := Resumed(env, c);
            r.ok && Idle(r.ctl) && !r.m.applyFilter && !r.m.matchWhite && r.m.reg0 == c.m.reg0
  {
  }

  lemma WarmUp(f: Driver<Mach>, x: Executor<Mach>, env: Env, code: Program, c: Cpu<Mach>) returns (c1: Cpu<Mach>)
    requires Drives(f, x, code) && Runs(x, env) && Fresh(code, c) && 0 in code.table && code.table[0] == OPC_SKIP.op
    ensures Iterate(f, Warmup(c), Config(c, Live)) == Config(c1, Live)
    ensures Begun(c1) && c1.m == Entered(env, c)
  {
    ResumedGoes(env, c);
    var r := Resumed(env, c);
    c1 := c;
    if c.postCode != Skip {
      c1 := c.(opCode := c.postCode, postCode := Skip, ctl := r.ctl, m := r.m);
      StepOnce(f, x, code, c);
      assert Exec(env, c.postCode, OPC_SKIP.op, c.ctl, c.m) == r;
    }
  }

  /** The key behind the program ends the run. */
  lemma SkipEnds(f: Driver<Mach>, x: Executor<Mach>, code: Program, c: Cpu<Mach>, k: nat)
    requires Drives(f, x, code) && Ready(c) && k > 0
    requires c.pc < |code.keys| && code.keys[c.pc] == 0 && 0 in code.table && code.table[0] == OPC_SKIP.op
    ensures var s := Iterate(f, k, Config(c, Live));
            s.status == AtSkip && s.cpu.ctl == c.ctl && s.cpu.m == c.m && s.cpu.postCode == Skip
  {
    StepOnce(f, x, code, c);
    IterateCompose(f, 1, k - 1, Config(c, Live));
    FinishedStays(f, k - 1, Iterate(f, 1, Config(c, Live)));
  }

  /** `IterateCompose` with the sum named. */
  lemma IterateSplit(f: Driver<Mach>, i: nat, k: nat, n: nat, s: Config<Mach>, mid: Config<Mach>)
    requires n == i + k && mid == Iterate(f, i, s)
    ensures Iterate(f, n, s) == Iterate(f, k, mid)
  {
    IterateCompose(f, i, k, s);
  }

  lemma Settles(f: Driver<Mach>, x: Executor<Mach>, code: Program, s: Config<Mach>, i: nat, n: nat)
    requires Drives(f, x, code) && i <= n && Iterate(f, i, s).status != Live
    ensures Iterate(f, n, s) == Iterate(f, i, s)
  {
    IterateCompose(f, i, n - i, s);
    FinishedStays(f, n - i, Iterate(f, i, s));
  }

  /** How the run of a loaded point ends. */
  ghost predicate Finished(env: Env, args: seq<PointArg>, m: Mach, last: Config<Mach>)
    requires WfArgs(args) && AllPresent(env, args)
  {
    var cs := PointChecks(env, args, m.strLen, Off(m));
    && last.status == (if Reject in cs then Blacklisted else AtSkip)
    && SkipVerdict(last) == Rejected(cs)
    && last.cpu.postCode == Skip
    && (Reject !in cs ==> Appended(m, last.cpu.m, RecordSent(env, args, m.reg0, Off(m))))
  }

  /** The record and the next save index. */
  ghost predicate Appended(m: Mach, m1: Mach, fs: seq<Frame>) {
    m1.out.bytes == m.out.bytes + Kept(Off(m), fs, m.saveIndex) && m1.saveIndex == Wrap8(m.saveIndex + |fs|)
  }

  /** The assumptions under which the record and verdict are functions of arguments, memory and registers. */
  ghost predicate Runnable(env: Env, code: Program, args: seq<PointArg>) {
    WfArgs(args) && AllSelfContained(args) && AllPresent(env, args) && Loaded(code, args)
  }

  /** The assumptions on the interpreter, as values. */
  ghost predicate Interprets(s: Sem, f: Driver<Mach>, code: Program) { Valid(s) && Drives(f, s.x, code) }

  /** Where the interpreter stands after exactly the program's cost. */
  ghost predicate Stands(env: Env, args: seq<PointArg>, m: Mach, cs: seq<Check>, cost: nat, mid: Config<Mach>)
    requires WfArgs(args)
  {
    if Reject in cs then mid.status == Blacklisted && mid.cpu.ctl.black && mid.cpu.postCode == Skip
    else
      && mid.status == Live && cost == PointCost(env, args, Off(m)) && mid.cpu.pc == |PointConfigs(args)|
      && Ready(mid.cpu) && Wrote(Flagged(m, cs), mid.cpu.m, RecordSent(env, args, m.reg0, Off(m)))
  }

  lemma ProgramStands(s: Sem, f: Driver<Mach>, code: Program, args: seq<PointArg>, c: Cpu<Mach>) returns (cost: nat)
    requires Interprets(s, f, code) && Runnable(s.env, code, args) && Begun(c)
    ensures cost <= PointCost(s.env, args, Off(c.m))
    ensures Stands(s.env, args, c.m, PointChecks(s.env, args, c.m.strLen, Off(c.m)), cost,
                   Iterate(f, cost, Config(c, Live)))
  {
    var p, off := PointProg(args), Off(c.m);
    var fs, cs := RecordSent(s.env, args, c.m.reg0, off), PointChecks(s.env, args, c.m.strLen, off);
    var ctl1, m1 := PointPiece(s, args, c.ctl, c.m);
    var wrote := Wrote(Flagged(c.m, cs), m1, fs);
    var r := Eval(s.x, p, c.ctl, c.m);
    cost := Cost(s.x, p, c.ctl, c.m);
    PointIsBracketed(args);
    ProgramRuns(f, s.x, code, c, p);
    if Reject in cs { BlacklistedIsBlack(f, s.x, code, Config(c, Live), cost); }
  }

  /** A run only ever stops as Blacklisted with the flag set. */
  lemma {:induction false} BlacklistedIsBlack(
    f: Driver<Mach>, x: Executor<Mach>, code: Program, s: Config<Mach>, n: nat)
    requires Drives(f, x, code) && (s.status == Blacklisted ==> s.cpu.ctl.black)
    ensures var t := Iterate(f, n, s); t.status == Blacklisted ==> t.cpu.ctl.black
    decreases n
  {
    if n > 0 {
      if s.status == Live { var next := Step(x, code, s.cpu); }
      BlacklistedIsBlack(f, x, code, f(s), n - 1);
    }
  }

  lemma StandsFinishes(env: Env, args: seq<PointArg>, m: Mach, cost: nat, mid: Config<Mach>, last: Config<Mach>)
    requires WfArgs(args) && AllPresent(env, args) && !m.applyFilter && !m.matchWhite
    requires Stands(env, args, m, PointChecks(env, args, m.strLen, Off(m)), cost, mid)
    requires if mid.status == Live then last.status == AtSkip && last.cpu.ctl == mid.cpu.ctl
                                        && last.cpu.m == mid.cpu.m && last.cpu.postCode == Skip
             else last == mid
    ensures Finished(env, args, m, last)
  {
    var cs := PointChecks(env, args, m.strLen, Off(m));
    if Reject !in cs { FlagsDecide(m, cs, mid.cpu.m, RecordSent(env, args, m.reg0, Off(m))); }
  }

  lemma FlagsDecide(m: Mach, cs: seq<Check>, m1: Mach, fs: seq<Frame>)
    requires !m.applyFilter && !m.matchWhite && Wrote(Flagged(m, cs), m1, fs)
    ensures Appended(m, m1, fs) && m1.applyFilter == AnyWanted(cs) && m1.matchWhite == AnyHit(cs)
  {
  }

  lemma StandsAtSkip(env: Env, code: Program, args: seq<PointArg>, m: Mach, cost: nat, mid: Config<Mach>)
    requires WfArgs(args) && AllPresent(env, args) && Loaded(code, args) && mid.status == Live
    requires Stands(env, args, m, PointChecks(env, args, m.strLen, Off(m)), cost, mid)
    ensures Ready(mid.cpu) && mid.cpu.pc < |code.keys| && code.keys[mid.cpu.pc] == 0
    ensures 0 in code.table && code.table[0] == OPC_SKIP.op && cost == PointCost(env, args, Off(m))
  {
  }

  lemma ReadyRunFinishes(s: Sem, f: Driver<Mach>, code: Program, args: seq<PointArg>, c: Cpu<Mach>, n: nat)
    requires Interprets(s, f, code) && Runnable(s.env, code, args) && Begun(c)
    requires n > PointCost(s.env, args, Off(c.m))
    ensures Finished(s.env, args, c.m, Iterate(f, n, Config(c, Live)))
  {
    var start := Config(c, Live);
    var cost := ProgramStands(s, f, code, args, c);
    var mid, left := Iterate(f, cost, start), n - cost;
    if mid.status != Live {
      Settles(f, s.x, code, start, cost, n);
    } else {
      IterateSplit(f, cost, left, n, start, mid);
      assert mid == Config(mid.cpu, Live);
      StandsAtSkip(s.env, code, args, c.m, cost, mid);
      SkipEnds(f, s.x, code, mid.cpu, left);
    }
    StandsFinishes(s.env, args, c.m, cost, mid, Iterate(f, n, start));
  }

  lemma AnyRunFinishes(s: Sem, f: Driver<Mach>, code: Program, args: seq<PointArg>, c: Cpu<Mach>, n: nat)
    requires Interprets(s, f, code) && Runnable(s.env, code, args) && Fresh(code, c)
    requires n > Warmup(c) + PointCost(s.env, args, Off(Entered(s.env, c)))
    ensures Finished(s.env, args, Entered(s.env, c), Iterate(f, n, Config(c, Live)))
  {
    var c1 := WarmUp(f, s.x, s.env, code, c);
    var left := n - Warmup(c);
    IterateSplit(f, Warmup(c), left, n, Config(c, Live), Config(c1, Live));
    ReadyRunFinishes(s, f, code, args, c1, left);
  }

  /**
   The main result on runs. Given a budget beyond the computed cost, the interpreter finishes every point
   from every left-over state and with any room in the buffer: it skips the event exactly when evaluating all
   filters to the end rejects it, saves exactly the record otherwise, and leaves nothing pending.
   */
  lemma RunFinishes(env: Env, code: Program, args: seq<PointArg>, c: Cpu<Mach>, n: nat)
    requires Runnable(env, code, args) && Fresh(code, c)
    requires n > Warmup(c) + PointCost(env, args, Off(Entered(env, c)))
    ensures Finished(env, args, Entered(env, c), StepN(ExecOf(env), code, n, Config(c, Live)))
  {
    SemIsValid(env);
    NextDrives(ExecOf(env), code);
    AnyRunFinishes(SemOf(env), Next(ExecOf(env), code), code, args, c, n);
  }

  lemma LiveUntilCost(s: Sem, f: Driver<Mach>, code: Program, args: seq<PointArg>, c: Cpu<Mach>, n: nat)
    requires Interprets(s, f, code) && Runnable(s.env, code, args) && Fresh(code, c)
    requires var m := Entered(s.env, c);
             Reject !in PointChecks(s.env, args, m.strLen, Off(m)) && n <= Warmup(c) + PointCost(s.env, args, Off(m))
    ensures Iterate(f, n, Config(c, Live)).status == Live
  {
    var start := Config(c, Live);
    var c1 := WarmUp(f, s.x, s.env, code, c);
    var cost := ProgramStands(s, f, code, args, c1);
    var total := Warmup(c) + cost;
    IterateSplit(f, Warmup(c), cost, total, start, Config(c1, Live));
    if Iterate(f, n, start).status != Live { Settles(f, s.x, code, start, n, total); }
  }

  /**
   The budget matters exactly when it does not exceed the cost: a kept event's run is cut off if and only if
   the key list is no longer than the cost.
   */
  lemma BudgetIsExact(env: Env, code: Program, args: seq<PointArg>, c: Cpu<Mach>, n: nat)
    requires Runnable(env, code, args) && Fresh(code, c)
    requires Reject !in PointChecks(env, args, Entered(env, c).strLen, Off(Entered(env, c)))
    ensures StepN(ExecOf(env), code, n, Config(c, Live)).status == Live
       <==> n <= Warmup(c) + PointCost(env, args, Off(Entered(env, c)))
  {
    SemIsValid(env);
    NextDrives(ExecOf(env), code);
    if n > Warmup(c) + PointCost(env, args, Off(Entered(env, c))) {
      AnyRunFinishes(SemOf(env), Next(ExecOf(env), code), code, args, c, n);
    } else {
      LiveUntilCost(SemOf(env), Next(ExecOf(env), code), code, args, c, n);
    }
  }

  // ----- what a left-over post code saves

  /** The frames it puts in front of the record. */
  function PendingFrames(env: Env, c: Cpu<Mach>): seq<Frame> {
    match c.postCode
    case SaveStruct => [StructFrame(env.mem, c.m.readAddr, Min(c.m.readLen, MAX_BYTES_ARR_SIZE))]
    case SaveString => [StringFrame(env.mem, c.m.readAddr)]
    case SaveReg => [Word(c.m.regValue)]
    case SaveAddr => [Word(c.m.readAddr)]
    case SavePointer => [Word(c.m.pointerValue)]
    case _ => []
  }

  /** A post code left over by a run that was cut off saves its frame first, from the registers left over. */
  lemma PendingWrites(env: Env, c: Cpu<Mach>)
    requires Harmless(c.postCode)
    ensures Wrote(c.m, Entered(env, c), PendingFrames(env, c))
    ensures PendingFrames(env, c) == [] ==> Entered(env, c).out == c.m.out && Entered(env, c).strLen == c.m.strLen
  {
    match c.postCode
    case SaveStruct => SaveStructWrites(env, c.m, c.m.readLen);
    case SaveString => SaveStringWrites(env, c.m);
    case SaveReg => SaveWordWrites(c.m, c.m.regValue);
    case SaveAddr => SaveWordWrites(c.m, c.m.readAddr);
    case SavePointer => SaveWordWrites(c.m, c.m.pointerValue);
    case _ => QuietCode(env, c);
  }

  lemma QuietCode(env: Env, c: Cpu<Mach>)
    requires Harmless(c.postCode) && !IsSave(c.postCode)
    ensures Wrote(c.m, Entered(env, c), []) && Entered(env, c).out == c.m.out && Entered(env, c).strLen == c.m.strLen
  {
    WroteNothing(c.m, Entered(env, c));
  }

  // ----- what a run does not depend on

  /** The address a string argument's filters look at. */
  function TextAddr(env: Env, a: PointArg): u64 { DataAddr(env.mem, a.ty, ArgAddr(env, a)) }

  /** The filter would match the bytes in memory, were the string long enough. */
  predicate Primed(env: Env, addr: u64, f: Filter) {
    (f.kind.White? || f.kind.Black?) && f.strLen > 0 && ProbeKey(env.mem, addr, f.strLen) == f.strVal
  }

  predicate AnyPrimed(env: Env, addr: u64, filters: seq<u32>)
    requires Present(env, filters)
  {
    filters != [] && (Primed(env, addr, env.filters[filters[0]]) || AnyPrimed(env, addr, filters[1..]))
  }

  /** A string argument whose filters look at the length, wherever it comes from. */
  predicate LooksAtLength(env: Env, a: PointArg)
    requires Present(env, a.filters)
  {
    a.reg != REG_ARM64_MAX && IsString(a.ty) && ReadMore(a) && AnyPrimed(env, TextAddr(env, a), a.filters)
  }

  /** No argument in front of the first saved string looks at the length. */
  predicate Settled(env: Env, args: seq<PointArg>, off: nat)
    requires WfArgs(args) && AllPresent(env, args)
    decreases |args|
  {
    args == [] || ArgLength(env, args[0], off).Some?
    || (!LooksAtLength(env, args[0]) && Settled(env, args[1..], ArgEnd(env, args[0], off)))
  }

  lemma OneForgets(env: Env, f: Filter, addr: u64, i: u32, j: u32)
    requires !Primed(env, addr, f)
    ensures FilterCheck(env, FilterString, f, 0, addr, i) == FilterCheck(env, FilterString, f, 0, addr, j)
  {
  }

  lemma OneTells(env: Env, f: Filter, addr: u64, i: u32, j: u32)
    requires Primed(env, addr, f) && i < f.strLen <= j
    ensures FilterCheck(env, FilterString, f, 0, addr, i) != FilterCheck(env, FilterString, f, 0, addr, j)
  {
  }

  lemma {:induction false} UnprimedForget(env: Env, filters: seq<u32>, addr: u64, i: u32, j: u32)
    requires Present(env, filters) && !AnyPrimed(env, addr, filters)
    ensures FilterChecks(env, FilterString, filters, 0, addr, i) == FilterChecks(env, FilterString, filters, 0, addr, j)
    decreases |filters|
  {
    if filters != [] {
      OneForgets(env, env.filters[filters[0]], addr, i, j);
      UnprimedForget(env, filters[1..], addr, i, j);
    }
  }

  lemma {:induction false} PrimedTell(env: Env, filters: seq<u32>, addr: u64)
    requires Present(env, filters) && AnyPrimed(env, addr, filters)
    ensures FilterChecks(env, FilterString, filters, 0, addr, 0)
         != FilterChecks(env, FilterString, filters, 0, addr, U32 - 1)
    decreases |filters|
  {
    var f := env.filters[filters[0]];
    var a := FilterChecks(env, FilterString, filters, 0, addr, 0);
    var b := FilterChecks(env, FilterString, filters, 0, addr, U32 - 1);
    if Primed(env, addr, f) {
      OneTells(env, f, addr, 0, U32 - 1);
      assert a[0] != b[0];
    } else {
      PrimedTell(env, filters[1..], addr);
      assert a[1..] != b[1..];
    }
  }

  lemma {:induction false} LengthIrrelevant(
    env: Env, code: Code, filters: seq<u32>, v: u64, addr: u64, i: u32, j: u32)
    requires Present(env, filters) && code != FilterString
    ensures FilterChecks(env, code, filters, v, addr, i) == FilterChecks(env, code, filters, v, addr, j)
    decreases |filters|
  {
    if filters != [] { LengthIrrelevant(env, code, filters[1..], v, addr, i, j); }
  }

  lemma ArgForgets(env: Env, a: PointArg, off: nat, i: u32, j: u32)
    requires Present(env, a.filters) && (ArgLength(env, a, off).Some? || !LooksAtLength(env, a))
    ensures ArgChecks(env, a, i, off) == ArgChecks(env, a, j, off)
  {
    var k, l := ArgStrLen(env, a, i, off), ArgStrLen(env, a, j, off);
    if k != l && ReadMore(a) && LateFilters(a.ty) && a.reg != REG_ARM64_MAX {
      if IsString(a.ty) {
        UnprimedForget(env, a.filters, TextAddr(env, a), k, l);
      } else {
        LengthIrrelevant(env, FilterBuffer, a.filters, 0, DataAddr(env.mem, a.ty, ArgAddr(env, a)), k, l);
      }
    }
  }

  /** The verdict does not depend on the string length an earlier event left behind. */
  lemma {:induction false} ChecksForget(env: Env, args: seq<PointArg>, off: nat, i: u32, j: u32)
    requires WfArgs(args) && AllPresent(env, args) && (i == j || Settled(env, args, off))
    ensures PointChecks(env, args, i, off) == PointChecks(env, args, j, off)
    decreases |args|
  {
    if args != [] && i != j {
      var a, rest, next := args[0], args[1..], ArgEnd(env, args[0], off);
      ArgForgets(env, a, off, i, j);
      ChecksForget(env, rest, next, ArgStrLen(env, a, i, off), ArgStrLen(env, a, j, off));
    }
  }

  lemma ArgTells(env: Env, a: PointArg, off: nat)
    requires Present(env, a.filters) && ArgLength(env, a, off).None? && LooksAtLength(env, a)
    ensures ArgChecks(env, a, 0, off) != ArgChecks(env, a, U32 - 1, off)
  {
    PrimedTell(env, a.filters, TextAddr(env, a));
    var early := EarlyChecks(env, a);
    assert |early| == 0;
    assert early + LateChecks(env, a, 0, off) == LateChecks(env, a, 0, off);
    assert early + LateChecks(env, a, U32 - 1, off) == LateChecks(env, a, U32 - 1, off);
  }

  lemma CheckCount(env: Env, a: PointArg, off: nat, i: u32, j: u32)
    requires Present(env, a.filters)
    ensures |ArgChecks(env, a, i, off)| == |ArgChecks(env, a, j, off)|
  {
  }

  lemma DifferInFront<T>(a: seq<T>, b: seq<T>, c: seq<T>, d: seq<T>)
    requires |a| == |b|
    ensures a + c == b + d <==> a == b && c == d
  {
    if a + c == b + d {
      assert (a + c)[..|a|] == a && (b + d)[..|b|] == b;
      assert (a + c)[|a|..] == c && (b + d)[|b|..] == d;
    }
  }

  /** Otherwise two left-over lengths make some filter of the point decide differently. */
  lemma {:induction false} ChecksTell(env: Env, args: seq<PointArg>, off: nat)
    requires WfArgs(args) && AllPresent(env, args) && !Settled(env, args, off)
    ensures PointChecks(env, args, 0, off) != PointChecks(env, args, U32 - 1, off)
    decreases |args|
  {
    var a, rest, next, most := args[0], args[1..], ArgEnd(env, args[0], off), U32 - 1;
    CheckCount(env, a, off, 0, most);
    DifferInFront(ArgChecks(env, a, 0, off), ArgChecks(env, a, most, off), PointChecks(env, rest, 0, next),
                  PointChecks(env, rest, most, next));
    if LooksAtLength(env, a) { ArgTells(env, a, off); } else { ChecksTell(env, rest, next); }
  }

  /**
   Non-interference: two runs on the same registers, memory and record prefix give the same verdict and, if
   the event is kept, the same record, whatever the two contexts hold in the fields the clearing leaves stale.
   Only a save left pending and a length that is looked at are excluded.
   */
  lemma RunsForget(env: Env, code: Program, args: seq<PointArg>, c: Cpu<Mach>, d: Cpu<Mach>, n: nat)
    requires Runnable(env, code, args) && Fresh(code, c) && Fresh(code, d)
    requires PendingFrames(env, c) == [] && PendingFrames(env, d) == []
    requires c.m.out == d.m.out && c.m.saveIndex == d.m.saveIndex && c.m.reg0 == d.m.reg0
    requires Settled(env, args, Off(c.m)) && n > 1 + PointCost(env, args, Off(c.m))
    ensures var r := StepN(ExecOf(env), code, n, Config(c, Live));
            var t := StepN(ExecOf(env), code, n, Config(d, Live));
            && r.status == t.status && SkipVerdict(r) == SkipVerdict(t)
            && (!SkipVerdict(r) ==> r.cpu.m.out.bytes == t.cpu.m.out.bytes && r.cpu.m.saveIndex == t.cpu.m.saveIndex)
            && r.cpu.postCode == t.cpu.postCode == Skip
  {
    PendingWrites(env, c);
    PendingWrites(env, d);
    RunFinishes(env, code, args, c, n);
    RunFinishes(env, code, args, d, n);
    ChecksForget(env, args, Off(c.m), c.m.strLen, d.m.strLen);
    EnteredAlike(env, c, d);
    FinishedAlike(env, args, Entered(env, c), Entered(env, d), StepN(ExecOf(env), code, n, Config(c, Live)),
                  StepN(ExecOf(env), code, n, Config(d, Live)));
  }

  lemma EnteredAlike(env: Env, c: Cpu<Mach>, d: Cpu<Mach>)
    requires Wrote(c.m, Entered(env, c), []) && Wrote(d.m, Entered(env, d), [])
    requires c.m.saveIndex == d.m.saveIndex && c.m.reg0 == d.m.reg0
    ensures Entered(env, c).saveIndex == Entered(env, d).saveIndex && Entered(env, c).reg0 == Entered(env, d).reg0
  {
  }

  lemma FinishedAlike(env: Env, args: seq<PointArg>, m: Mach, w: Mach, r: Config<Mach>, t: Config<Mach>)
    requires WfArgs(args) && AllPresent(env, args) && Finished(env, args, m, r) && Finished(env, args, w, t)
    requires PointChecks(env, args, m.strLen, Off(m)) == PointChecks(env, args, w.strLen, Off(w))
    requires m.out == w.out && m.saveIndex == w.saveIndex && m.reg0 == w.reg0
    ensures r.status == t.status && SkipVerdict(r) == SkipVerdict(t)
    ensures !SkipVerdict(r) ==> r.cpu.m.out.bytes == t.cpu.m.out.bytes && r.cpu.m.saveIndex == t.cpu.m.saveIndex
    ensures r.cpu.postCode == t.cpu.postCode == Skip
  {
  }

  // ----- budgets

  function RegisterArg(r: u32, ty: ArgType, phase: Phase): PointArg {
    PointArg(r, ty, None, [], phase, phase, false)
  }

  lemma {:induction false} StringTurnsBound(mem: Mem, addr: u64, n: nat, off: nat)
    ensures SentTurns(mem, addr, n, off) <= n
    decreases n
  {
    if n > 0 { StringTurnsBound(mem, Wrap64(addr + 8), n - 1, PastAll(off, PtrStringFrames(mem, addr))); }
  }

  lemma RegisterCost(env: Env, r: u32, ty: ArgType, phase: Phase, off: nat)
    requires r < REG_ARM64_MAX && WfType(ty)
    ensures WfArg(RegisterArg(r, ty, phase))
    ensures ArgCost(env, RegisterArg(r, ty, phase), off) == 3 + TypeCost(env, ty, env.regs[r], SectionAt(off))
  {
    OpsOf2(ReadSaveReg(r), OPC_MOVE_REG_VALUE);
    CountCost(ReadSaveReg(r).op, OPC_MOVE_REG_VALUE.op);
  }

  lemma TwoCost(env: Env, a: PointArg, b: PointArg, off: nat)
    requires WfArg(a) && WfArg(b)
    ensures WfArgs([a, b]) && PointCost(env, [a, b], off) == ArgCost(env, a, off) + ArgCost(env, b, ArgEnd(env, a, off))
  {
    var args, next := [a, b], ArgEnd(env, a, off);
    assert args[1..] == [b] && [b][1..] == [];
    assert PointCost(env, [b], next) == ArgCost(env, b, next) + PointCost(env, [], ArgEnd(env, b, next));
  }

  /** A syscall's 256 turns are enough for two full string arrays, as in execve, in any memory. */
  lemma TwoStringArraysFit(env: Env, i: u32, j: u32, phase: Phase, off: nat)
    requires i < REG_ARM64_MAX && j < REG_ARM64_MAX
    ensures var args := [RegisterArg(i, StrArr, phase), RegisterArg(j, StrArr, phase)];
            WfArgs(args) && 1 + PointCost(env, args, off) < 256
  {
    var a, b := RegisterArg(i, StrArr, phase), RegisterArg(j, StrArr, phase);
    RegisterCost(env, i, StrArr, phase, off);
    RegisterCost(env, j, StrArr, phase, ArgEnd(env, a, off));
    TwoCost(env, a, b, off);
    StringTurnsBound(env.mem, env.regs[i], MAX_LOOP_COUNT, SectionAt(off));
    StringTurnsBound(env.mem, env.regs[j], MAX_LOOP_COUNT, SectionAt(ArgEnd(env, a, off)));
  }
}
