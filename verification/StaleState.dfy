/**
 What leaks from one event into the next: the string length and the read address that clearing eight bytes of
 `op_ctx` leaves behind. Each leak with the exact condition under which it shows. Read addresses without a register
 are in `Records`, a post code left over is in `CutOff`.
 */
module StaleState {
  import opened Bytes
  import opened Memory
  import opened EventBuffer
  import opened Ops
  import opened Machine
  import opened Interpreter
  import opened Frames
  import opened ArgTypes
  import opened Sections
  import opened Emission
  import opened PointArgs
  import opened Records
  import opened Runs
  import opened Filters

  // ----- the string length

  /** Some two left-over lengths make a filter of the point decide differently. */
  ghost predicate DependsOnLength(env: Env, args: seq<PointArg>, off: nat)
    requires WfArgs(args) && AllPresent(env, args)
  {
    exists i, j: u32 :: PointChecks(env, args, i, off) != PointChecks(env, args, j, off)
  }

  /**
   For every point, however many filters it has: a left-over length is looked at if and only if some string
   argument has a filter that matches the bytes in memory, and neither that argument nor one in front of it saves
   a string.
   */
  lemma LengthDecides(env: Env, args: seq<PointArg>, off: nat)
    requires WfArgs(args) && AllPresent(env, args)
    ensures DependsOnLength(env, args, off) <==> !Settled(env, args, off)
  {
    if Settled(env, args, off) {
      forall i, j: u32 ensures PointChecks(env, args, i, off) == PointChecks(env, args, j, off) {
        ChecksForget(env, args, off, i, j);
      }
    } else {
      ChecksTell(env, args, off);
    }
  }

  /** A string argument with one filter, sent with its section. */
  ghost predicate OneFilter(env: Env, a: PointArg, key: u32) {
    && WfArg(a) && a.reg < REG_ARM64_MAX && IsString(a.ty) && ReadMore(a)
    && a.filters == [key] && key in env.filters && Present(env, a.filters)
  }

  /** The string cannot be read, or its section finds no room behind the value saved at `off`. */
  predicate TextLost(env: Env, a: PointArg, off: nat) {
    ReadStr(env.mem, TextAddr(env, a)).None? || SectionAt(off) > BYTES_ROOM
  }

  lemma OnePrimed(env: Env, addr: u64, key: u32)
    requires key in env.filters && Present(env, [key])
    ensures AnyPrimed(env, addr, [key]) <==> Primed(env, addr, env.filters[key])
  {
    assert [key][0] == key && [key][1..] == [] && !AnyPrimed(env, addr, []);
  }

  lemma LostSetsNothing(env: Env, a: PointArg, key: u32, off: nat)
    requires OneFilter(env, a, key)
    ensures ArgLength(env, a, off).None? <==> TextLost(env, a, off)
    ensures LooksAtLength(env, a) <==> Primed(env, TextAddr(env, a), env.filters[key])
  {
    var addr := ArgAddr(env, a);
    assert TextAddr(env, a) == if a.ty.Std? then Untag(StdStringData(env.mem, addr)) else Untag(addr);
    OnePrimed(env, TextAddr(env, a), key);
  }

  /**
   A left-over length decides the event if and only if the string is lost, unreadable or without room, while the
   filter, of non-zero length, matches the bytes in memory.
   */
  lemma StaleLengthDecides(env: Env, a: PointArg, key: u32, off: nat)
    requires OneFilter(env, a, key)
    ensures DependsOnLength(env, [a], off) <==> TextLost(env, a, off) && Primed(env, TextAddr(env, a), env.filters[key])
  {
    LengthDecides(env, [a], off);
    LostSetsNothing(env, a, key, off);
    assert [a][1..] == [];
  }

  lemma OneVerdict(env: Env, a: PointArg, key: u32, strLen: u32, off: nat)
    requires OneFilter(env, a, key) && TextLost(env, a, off) && Primed(env, TextAddr(env, a), env.filters[key])
    ensures Rejected(PointChecks(env, [a], strLen, off))
       <==> (env.filters[key].kind.White? <==> strLen < env.filters[key].strLen)
  {
    var f := env.filters[key];
    var c := FilterCheck(env, FilterString, f, 0, TextAddr(env, a), strLen);
    LostSetsNothing(env, a, key, off);
    assert a.filters[1..] == [] && EarlyChecks(env, a) == [];
    assert LateChecks(env, a, strLen, off) == [c] + [];
    assert [a][1..] == [] && ArgChecks(env, a, strLen, off) + [] == [c];
    assert PointChecks(env, [a], strLen, off) == [c];
    AnyOne(c);
  }

  /**
   Two runs of the same point on the same registers, memory and record prefix: the one left a longer string than
   the other, and one event is kept, the other skipped.
   */
  lemma StaleLengthLeaks(env: Env, code: Program, a: PointArg, key: u32, c: Cpu<Mach>, d: Cpu<Mach>, n: nat)
    requires OneFilter(env, a, key) && TextLost(env, a, Off(c.m)) && Primed(env, TextAddr(env, a), env.filters[key])
    requires Runnable(env, code, [a]) && Fresh(code, c) && Fresh(code, d)
    requires PendingFrames(env, c) == [] && PendingFrames(env, d) == [] && Off(c.m) == Off(d.m)
    requires c.m.strLen < env.filters[key].strLen <= d.m.strLen && n > 1 + PointCost(env, [a], Off(c.m))
    ensures SkipVerdict(StepN(ExecOf(env), code, n, Config(c, Live)))
         != SkipVerdict(StepN(ExecOf(env), code, n, Config(d, Live)))
  {
    PendingWrites(env, c);
    PendingWrites(env, d);
    RunFinishes(env, code, [a], c, n);
    RunFinishes(env, code, [a], d, n);
    OneVerdict(env, a, key, c.m.strLen, Off(c.m));
    OneVerdict(env, a, key, d.m.strLen, Off(c.m));
  }

  /** A string argument at register `r` with the filter numbered 1. */
  function LetterArg(r: u32): PointArg { PointArg(r, Str, None, [1], SysEnter, SysEnter, false) }

  /** The letter A stands where register `r` points, and the filter is a whitelist for it. */
  lemma LetterIsPrimed(env: Env, a: PointArg, r: u32, addr: u64)
    requires a == LetterArg(r) && r < REG_ARM64_MAX && env.regs[r] == addr < U48
    requires env.filters == map[1 := TextFilter(White, [65])] && addr in env.mem.bytes && env.mem.bytes[addr] == 65
    ensures OneFilter(env, a, 1) && SelfContained(a) && TextAddr(env, a) == addr
    ensures Primed(env, addr, env.filters[1])
  {
    OneByteKey(env.mem, addr);
  }

  /** The leak happens with one character at the end of the last mapped page: the string runs off the page. */
  lemma EdgeLeaks(off: nat) returns (env: Env, a: PointArg)
    ensures OneFilter(env, a, 1) && SelfContained(a) && Primed(env, TextAddr(env, a), env.filters[1])
    ensures ReadStr(env.mem, TextAddr(env, a)).None? && TextLost(env, a, off)
  {
    var mem, addr: u64 := Mem(map[0x1fff := 65], false), 0x1fff;
    env, a := Env(mem, seq(33, _ => addr), map[1 := TextFilter(White, [65])]), LetterArg(0);
    LetterIsPrimed(env, a, 0, addr);
    assert Scan(mem, 0x2000, 4095).None? && Scan(mem, addr, 4096).None?;
  }

  lemma OneByteKey(mem: Mem, addr: u64)
    requires addr in mem.bytes && mem.bytes[addr] == 65
    ensures ProbeKey(mem, addr, 1) == Padded256([65])
  {
    ReadSpec(mem, addr, 1);
    assert Mapped(mem, addr, 1);
    var d := Read(mem, addr, 1).value;
    assert d[addr - addr] == mem.bytes[addr] && d == [65];
    KeyMatches(mem, addr, [65]);
  }

  // ----- a buffer that is full

  /** `buf:4096` at register 0. */
  function BigBuffer(): PointArg { RegisterArg(0, BufLen(4096), SysEnter) }

  function BigBuffers(n: nat): seq<PointArg> { if n == 0 then [] else [BigBuffer()] + BigBuffers(n - 1) }

  lemma BigBufferEnds(env: Env, strLen: u32, off: nat)
    requires Read(env.mem, Untag(env.regs[0]), 4096).Some? && off + 9 <= BYTES_ROOM
    ensures WfArg(BigBuffer()) && ArgEnd(env, BigBuffer(), off) == off + 4110
    ensures Present(env, BigBuffer().filters) && ArgChecks(env, BigBuffer(), strLen, off) == []
    ensures ArgStrLen(env, BigBuffer(), strLen, off) == strLen && ArgCost(env, BigBuffer(), off) == 5
  {
    var a, at := BigBuffer(), SectionAt(off);
    var f := StructFrame(env.mem, env.regs[0], 4096);
    assert MoreSent(env, a, off) == [f];
    KeptOne(at, f, 0);
    RegisterCost(env, 0, BufLen(4096), SysEnter, off);
  }

  datatype Tally = Tally(checks: seq<Check>, cost: nat)

  /** Checks and cost of a point as a value; the trigger keeps them folded until a proof asks for them. */
  type Meter = (seq<PointArg>, nat) -> Tally

  ghost predicate Meters(w: Meter, env: Env, strLen: u32) {
    forall args: seq<PointArg>, off: nat {:trigger PointCost(env, args, off)} ::
      WfArgs(args) && AllPresent(env, args) ==>
        w(args, off).checks == PointChecks(env, args, strLen, off) && w(args, off).cost == PointCost(env, args, off)
  }

  ghost function MeterOf(env: Env, strLen: u32): Meter {
    (args: seq<PointArg>, off: nat) =>
      if WfArgs(args) && AllPresent(env, args) then
        Tally(PointChecks(env, args, strLen, off), PointCost(env, args, off))
      else Tally([], 0)
  }

  /** An argument without checks that leaves the length alone. */
  lemma QuietInFront(w: Meter, env: Env, b: PointArg, rest: seq<PointArg>, strLen: u32, off: nat, next: nat)
    requires Meters(w, env, strLen) && WfArgs(rest) && AllPresent(env, rest)
    requires WfArg(b) && Present(env, b.filters) && ArgEnd(env, b, off) == next
    requires ArgChecks(env, b, strLen, off) == [] && ArgStrLen(env, b, strLen, off) == strLen
    ensures WfArgs([b] + rest) && AllPresent(env, [b] + rest)
    ensures w([b] + rest, off).checks == w(rest, next).checks
    ensures w([b] + rest, off).cost == ArgCost(env, b, off) + w(rest, next).cost
  {
    ArgInFront(env, b, rest, strLen, off);
    var cost, all := PointCost(env, rest, next), PointCost(env, [b] + rest, off);
    assert [] + PointChecks(env, rest, strLen, next) == PointChecks(env, rest, strLen, next);
  }

  lemma BufferInFront(w: Meter, env: Env, rest: seq<PointArg>, strLen: u32, off: nat, next: nat)
    requires Meters(w, env, strLen) && WfArgs(rest) && AllPresent(env, rest)
    requires Read(env.mem, Untag(env.regs[0]), 4096).Some? && off + 9 <= BYTES_ROOM && next == off + 4110
    ensures WfArgs([BigBuffer()] + rest) && AllPresent(env, [BigBuffer()] + rest)
    ensures w([BigBuffer()] + rest, off).checks == w(rest, next).checks
    ensures w([BigBuffer()] + rest, off).cost == 5 + w(rest, next).cost
  {
    BigBufferEnds(env, strLen, off);
    QuietInFront(w, env, BigBuffer(), rest, strLen, off, next);
  }

  /** Readable buffers in front of an argument only move it, by 4110 bytes and five turns each. */
  lemma {:induction false} BehindBuffers(w: Meter, env: Env, n: nat, a: PointArg, strLen: u32, off: nat, end: nat)
    requires Meters(w, env, strLen) && WfArgs([a]) && AllPresent(env, [a])
    requires Read(env.mem, Untag(env.regs[0]), 4096).Some?
    requires end == off + 4110 * n && (n > 0 ==> end - 4101 <= BYTES_ROOM)
    ensures WfArgs(BigBuffers(n) + [a]) && AllPresent(env, BigBuffers(n) + [a])
    ensures w(BigBuffers(n) + [a], off).checks == w([a], end).checks
    ensures w(BigBuffers(n) + [a], off).cost == 5 * n + w([a], end).cost
    decreases n
  {
    if n == 0 {
      assert BigBuffers(n) + [a] == [a];
    } else {
      var rest, next := BigBuffers(n - 1) + [a], off + 4110;
      assert BigBuffers(n) + [a] == [BigBuffer()] + rest;
      BehindBuffers(w, env, n - 1, a, strLen, next, end);
      BufferInFront(w, env, rest, strLen, off, next);
    }
  }

  /** The same on the checks and costs themselves. */
  lemma BuffersMove(env: Env, n: nat, a: PointArg, strLen: u32, off: nat, end: nat)
    requires WfArg(a) && Present(env, a.filters) && Read(env.mem, Untag(env.regs[0]), 4096).Some?
    requires end == off + 4110 * n && (n > 0 ==> end - 4101 <= BYTES_ROOM)
    ensures var args := BigBuffers(n) + [a];
            && WfArgs(args) && AllPresent(env, args)
            && PointChecks(env, args, strLen, off) == PointChecks(env, [a], strLen, end)
            && PointCost(env, args, off) == 5 * n + PointCost(env, [a], end)
  {
    var w := MeterOf(env, strLen);
    BehindBuffers(w, env, n, a, strLen, off, end);
  }

  /**
   Behind the 32 bytes of an enter header and seven full buffers a string that can be read finds no room
   (32 + 7 * 4110 > 27899): a primed filter goes by the length an earlier event left. Behind six it does not.
   */
  lemma FullBufferDecides(env: Env, a: PointArg, key: u32, strLen: u32)
    requires OneFilter(env, a, key) && Primed(env, TextAddr(env, a), env.filters[key])
    requires Read(env.mem, Untag(env.regs[0]), 4096).Some? && ReadStr(env.mem, TextAddr(env, a)).Some?
    ensures var seven, six, f := BigBuffers(7) + [a], BigBuffers(6) + [a], env.filters[key];
            && WfArgs(seven) && AllPresent(env, seven) && WfArgs(six) && AllPresent(env, six)
            && (Rejected(PointChecks(env, seven, strLen, 32)) <==> (f.kind.White? <==> strLen < f.strLen))
            && PointChecks(env, six, strLen, 32) == PointChecks(env, six, 0, 32)
  {
    var six, seven := 6, 7;
    BuffersMove(env, seven, a, strLen, 32, 28802);
    BuffersMove(env, six, a, strLen, 32, 24692);
    BuffersMove(env, six, a, 0, 32, 24692);
    OneVerdict(env, a, key, strLen, 28802);
    StaleLengthDecides(env, a, key, 24692);
  }

  /** Two mapped pages of zeros with one letter at the end of the first. */
  lemma TwoPages() returns (mem: Mem)
    ensures Read(mem, 0x1000, 4096).Some? && ReadStr(mem, 0x1fff).Some?
    ensures 0x1fff in mem.bytes && mem.bytes[0x1fff] == 65
  {
    mem := Mem(map i: int | 0x1000 <= i < 0x3000 && Within(0x1000, 0x2000, i) :: if i == 0x1fff then 65 else 0, false);
    assert Within(0x1000, 0x2000, 0x1fff) && Within(0x1000, 0x2000, 0x2000);
    assert Scan(mem, 0x2000, 4095) == Some([]) && Scan(mem, 0x1fff, 4096).Some?;
    ReadSpec(mem, 0x1000, 4096);
    forall i | 0x1000 <= i < 0x1000 + 4096 ensures i in mem.bytes {
      assert Within(0x1000, 0x2000, i);
    }
    assert Mapped(mem, 0x1000, 4096);
  }

  lemma LetterCost(env: Env, r: u32, off: nat)
    requires r < REG_ARM64_MAX
    ensures WfArgs([LetterArg(r)]) && PointCost(env, [LetterArg(r)], off) == 5
  {
    var a := LetterArg(r);
    OpsOf2(ReadSaveReg(r), OPC_MOVE_REG_VALUE);
    CountCost(ReadSaveReg(r).op, OPC_MOVE_REG_VALUE.op);
    assert ArgCost(env, a, off) == 5 && [a][1..] == [] && PointCost(env, [], ArgEnd(env, a, off)) == 0;
  }

  /**
   A memory, registers and a whitelist under which this happens, in 40 turns: the event is skipped exactly when
   the string left by an earlier event was empty.
   */
  lemma FullBufferLeaks(strLen: u32) returns (env: Env, args: seq<PointArg>)
    ensures args == BigBuffers(7) + [LetterArg(1)] && WfArgs(args) && AllPresent(env, args)
    ensures ReadStr(env.mem, TextAddr(env, LetterArg(1))).Some? && PointCost(env, args, 32) == 40
    ensures Rejected(PointChecks(env, args, strLen, 32)) <==> strLen == 0
  {
    var mem := TwoPages();
    var a, seven := LetterArg(1), 7;
    env := Env(mem, seq(33, i => if i == 0 then 0x1000 else 0x1fff), map[1 := TextFilter(White, [65])]);
    args := BigBuffers(seven) + [a];
    LetterIsPrimed(env, a, 1, 0x1fff);
    FullBufferDecides(env, a, 1, strLen);
    BuffersMove(env, seven, a, strLen, 32, 28802);
    LetterCost(env, 1, 28802);
  }

  // ----- the read address of a return value

  lemma UntagStep(x: u64, step: nat)
    requires step < U48
    ensures Untag(Wrap64(x + step)) == (Untag(x) + step) % U48
  {
    var q, r := x / U48, x % U48;
    assert x == q * U48 + r;
    if r + step < U48 {
      assert x + step == q * U48 + (r + step);
    } else {
      assert x + step == (q + 1) * U48 + (r + step - U48);
    }
  }

  lemma UntagNext(x: u64, y: u64, step: nat)
    requires Untag(x) == Untag(y) && step < U48
    ensures Untag(Wrap64(x + step)) == Untag(Wrap64(y + step))
  {
    UntagStep(x, step);
    UntagStep(y, step);
  }

  lemma {:induction false} StringsUntag(mem: Mem, x: u64, y: u64, n: nat)
    requires Untag(x) == Untag(y)
    ensures StrArrFrames(mem, x, n) == StrArrFrames(mem, y, n)
    decreases n
  {
    if n > 0 {
      UntagNext(x, y, 8);
      StringsUntag(mem, Wrap64(x + 8), Wrap64(y + 8), n - 1);
    }
  }

  lemma {:induction false} VectorsUntag(mem: Mem, x: u64, y: u64, n: nat)
    requires Untag(x) == Untag(y)
    ensures IovFrames(mem, x, n) == IovFrames(mem, y, n)
    decreases n
  {
    if n > 0 {
      UntagNext(x, y, 16);
      VectorsUntag(mem, Wrap64(x + 16), Wrap64(y + 16), n - 1);
    }
  }

  /** A section depends on its address without the tag only. */
  lemma SectionUntags(env: Env, t: ArgType, x: u64, y: u64)
    requires WfType(t) && Untag(x) == Untag(y)
    ensures Section(env, t, x) == Section(env, t, y)
  {
    match t
    case StrArr => StringsUntag(env.mem, x, y, MAX_LOOP_COUNT);
    case Iovec(r) => VectorsUntag(env.mem, x, y, Turns(env.regs[r]));
    case _ =>
  }

  /** Reads at least one byte at its address. */
  predicate Substantial(env: Env, t: ArgType) {
    match t
    case Num => false
    case Struct(size) => size > 0
    case Arr(elem, len) => ArrSize(elem, len) > 0
    case BufLen(n) => n > 0
    case BufReg(r) => r < REG_ARM64_MAX && env.regs[r] > 0
    case _ => true
  }

  /** `n` zero bytes at `addr`, and nothing else. */
  function Island(addr: u64, n: nat): Mem { Mem(map i: int | addr <= i < addr + n && Within(addr, n, i) :: 0, false) }

  predicate Within(addr: u64, n: nat, i: int) { addr <= i < addr + n }

  lemma SameIsland(mem: Mem, u: u64, n: nat, v: u64)
    requires n > 0 && Mapped(mem, v, n) && forall i :: i in mem.bytes ==> u <= i < u + n
    ensures v == u
  {
    var last := v + n - 1;
    assert v in mem.bytes && last in mem.bytes;
  }

  lemma IslandTells(x: u64, y: u64, n: nat)
    requires 0 < n <= MAX_BYTES_ARR_SIZE && Untag(x) != Untag(y)
    ensures StructFrame(Island(Untag(x), n), x, n) != StructFrame(Island(Untag(x), n), y, n)
  {
    var u, v := Untag(x), Untag(y);
    var mem := Island(u, n);
    ReadSpec(mem, u, n);
    ReadSpec(mem, v, n);
    assert Mapped(mem, u, n);
    if Mapped(mem, v, n) { SameIsland(mem, u, n, v); }
  }

  /** The string "A" at `addr`, and nothing else. */
  function Letter(addr: u64): Mem { Mem(map[addr as int := 65, addr + 1 := 0], false) }

  lemma LetterTells(x: u64, y: u64)
    requires Untag(x) != Untag(y)
    ensures StringFrame(Letter(Untag(x)), x) != StringFrame(Letter(Untag(x)), y)
    ensures StdStringData(Letter(Untag(x)), x) == Untag(x) && StdStringData(Letter(Untag(x)), y) == Untag(y)
  {
    var u, v := Untag(x), Untag(y);
    var mem := Letter(u);
    assert Scan(mem, u + 1, 4095) == Some([]) && Scan(mem, u, 4096) == Some([65] + []);
    assert CString(mem, u).value == [65];
    if v == u + 1 {
      assert Scan(mem, v, 4096) == Some([]);
    } else {
      assert Scan(mem, v, 4096) == None;
    }
    LowFlag(mem, u);
    LowFlag(mem, v);
  }

  lemma LowFlag(mem: Mem, base: u64)
    requires base < U48 && forall i :: i in mem.bytes ==> mem.bytes[i] < 0x80
    ensures StdStringData(mem, base) == base
    ensures forall x: u64 :: Untag(x) == base ==> StdStringData(mem, x) == base
  {
    var at := base + 23;
    var d := ReadOrZero(mem, at, 1);
    if at in mem.bytes { assert Read(mem, at + 1, 0) == Some([]) && d == [mem.bytes[at]]; }
  }

  /** The word 1 at `addr`, and nothing else. */
  function OneWord(addr: u64): Mem {
    Mem(map i: int | addr <= i < addr + 8 && Within(addr, 8, i) :: if i == addr then 1 else 0, false)
  }

  lemma WordTells(x: u64, y: u64)
    requires Untag(x) != Untag(y)
    ensures ReadWord(OneWord(Untag(x)), Untag(x)) != ReadWord(OneWord(Untag(x)), Untag(y))
  {
    var u, v := Untag(x), Untag(y);
    var mem := OneWord(u);
    ReadSpec(mem, u, 8);
    ReadSpec(mem, v, 8);
    assert Mapped(mem, u, 8);
    if Mapped(mem, v, 8) { SameIsland(mem, u, 8, v); }
    var d := Read(mem, u, 8).value;
    assert d[u - u] == mem.bytes[u];
    LEOfFromLE(d);
    LEZero(8);
    assert d != Zeros(8);
    LEOfFromLE(Zeros(8));
  }

  lemma CharsTell(env: Env, t: ArgType, x: u64, y: u64) returns (mem: Mem)
    requires t.Str? && Untag(x) != Untag(y)
    ensures Section(env.(mem := mem), t, x) != Section(env.(mem := mem), t, y)
  {
    mem := Letter(Untag(x));
    LetterTells(x, y);
  }

  lemma InlineCharsTell(env: Env, t: ArgType, x: u64, y: u64) returns (mem: Mem)
    requires t.Std? && Untag(x) != Untag(y)
    ensures Section(env.(mem := mem), t, x) != Section(env.(mem := mem), t, y)
  {
    mem := Letter(Untag(x));
    LetterTells(x, y);
    LetterTells(Untag(x), Untag(y));
  }

  lemma StringsTell(env: Env, t: ArgType, x: u64, y: u64) returns (mem: Mem)
    requires t.StrArr? && Untag(x) != Untag(y)
    ensures Section(env.(mem := mem), t, x) != Section(env.(mem := mem), t, y)
  {
    mem := OneWord(Untag(x));
    WordTells(x, y);
    FirstString(mem, x, MAX_LOOP_COUNT);
    FirstString(mem, y, MAX_LOOP_COUNT);
  }

  /** A memory in which the sections at two addresses differ. */
  lemma SectionTells(env: Env, t: ArgType, x: u64, y: u64) returns (mem: Mem)
    requires WfType(t) && Substantial(env, t) && Untag(x) != Untag(y)
    ensures Section(env.(mem := mem), t, x) != Section(env.(mem := mem), t, y)
  {
    match t
    case Str => mem := CharsTell(env, t, x, y);
    case Std => mem := InlineCharsTell(env, t, x, y);
    case StrArr => mem := StringsTell(env, t, x, y);
    case Struct(size) => mem := IslandDiffers(env, t, x, y, Min(size, MAX_BYTES_ARR_SIZE));
    case Arr(elem, len) => mem := IslandDiffers(env, t, x, y, Min(ArrSize(elem, len), MAX_BYTES_ARR_SIZE));
    case BufAll => mem := IslandDiffers(env, t, x, y, MAX_BUF_READ_SIZE);
    case BufLen(n) => mem := IslandDiffers(env, t, x, y, n);
    case BufReg(r) => mem := IslandDiffers(env, t, x, y, Min(env.regs[r], MAX_BUF_READ_SIZE));
    case _ => mem := HeadTells(env, t, x, y);
  }

  /** Types whose section starts with a fixed number of bytes, behind a count in the case of iovecs. */
  lemma HeadTells(env: Env, t: ArgType, x: u64, y: u64) returns (mem: Mem)
    requires WfType(t) && (t.Ptr? || t.Vec? || t.Iovec? || t.Msghdr?) && Untag(x) != Untag(y)
    ensures Section(env.(mem := mem), t, x) != Section(env.(mem := mem), t, y)
  {
    var n := if t.Ptr? then 8 else if t.Msghdr? then 56 else 16;
    var i := if t.Iovec? then 1 else 0;
    mem := Island(Untag(x), n);
    IslandTells(x, y, n);
    if t.Iovec? {
      FirstVector(mem, x, Turns(env.regs[t.count]));
      FirstVector(mem, y, Turns(env.regs[t.count]));
    }
    assert Section(env.(mem := mem), t, x)[i] != Section(env.(mem := mem), t, y)[i];
  }

  lemma IslandDiffers(env: Env, t: ArgType, x: u64, y: u64, n: nat) returns (mem: Mem)
    requires WfType(t) && Untag(x) != Untag(y) && 0 < n <= MAX_BYTES_ARR_SIZE
    requires forall m: Mem, addr: u64 {:trigger Section(env.(mem := m), t, addr)} ::
               Section(env.(mem := m), t, addr) == [StructFrame(m, addr, n)]
    ensures Section(env.(mem := mem), t, x) != Section(env.(mem := mem), t, y)
  {
    mem := Island(Untag(x), n);
    IslandTells(x, y, n);
  }

  lemma FirstString(mem: Mem, addr: u64, n: nat)
    requires n > 0
    ensures StrArrFrames(mem, addr, n) != [] && StrArrFrames(mem, addr, n)[0] == Word(ReadWord(mem, Untag(addr)))
  {
  }

  lemma FirstVector(mem: Mem, addr: u64, n: nat)
    requires n > 0
    ensures IovFrames(mem, addr, n) != [] && IovFrames(mem, addr, n)[0] == StructFrame(mem, addr, 16)
  {
  }

  /**
   The section taken at a left-over read address is the one at the returned address, whatever the memory, if
   and only if the two addresses agree below the tag.
   */
  lemma ReturnSectionIsExact(env: Env, t: ArgType, stale: u64, returned: u64)
    requires WfType(t) && Substantial(env, t)
    ensures (forall mem: Mem :: Section(env.(mem := mem), t, stale) == Section(env.(mem := mem), t, returned))
       <==> Untag(stale) == Untag(returned)
  {
    if Untag(stale) == Untag(returned) {
      forall mem: Mem ensures Section(env.(mem := mem), t, stale) == Section(env.(mem := mem), t, returned) {
        SectionUntags(env.(mem := mem), t, stale, returned);
      }
    } else {
      var mem := SectionTells(env, t, stale, returned);
    }
  }
}
