/** `read_args` of `src/utils.h`: fetch, post-ops, loops, the step budget and the skip verdict. */
module Interpreter {
  import opened Bytes
  import opened Memory
  import opened EventBuffer
  import opened Ops
  import opened Machine

  /** The op table, and the point's key list, whose length is also the step budget. */
  datatype Program = Program(table: map<nat, Op>, keys: seq<nat>)

  /** `op` is the local pointer to the op last fetched, None for NULL. */
  datatype Cpu<M> = Cpu(pc: nat, loopIndex: nat, opCode: Code, postCode: Code, op: Option<Op>, ctl: Ctl, m: M)

  /** `Returned` is an early `return 0`, which skips the verdict; the others reach it. */
  datatype Status = Live | AtSkip | Blacklisted | Returned

  datatype Config<M> = Config(cpu: Cpu<M>, status: Status)

  /** The op pointer starts at table entry 0. */
  function First(code: Program): Option<Op> {
    if 0 in code.table then Some(code.table[0]) else None
  }

  /** The head of the loop body: a pending post-op, or the next key. */
  function Fetch<M>(code: Program, c: Cpu<M>): Config<M> {
    if c.op.Some? && c.postCode != Skip then Config(c.(opCode := c.postCode, postCode := Skip), Live)
    else if c.pc >= |code.keys| then Config(c, Returned)
    else
      var key := code.keys[c.pc];
      if key !in code.table then Config(c.(op := None), Returned)
      else
        var op := code.table[key];
        Config(c.(op := Some(op), opCode := op.code, postCode := op.post, pc := c.pc + 1), Live)
  }

  /** FOR_BREAK on the program counter (already past the op), the loop start and the loop registers. */
  function ForBreakRegs(pc: nat, loopIndex: nat, ctl: Ctl): (nat, nat, Ctl) {
    var start := if ctl.loopCount == 0 then pc else loopIndex;
    if ctl.loopCount >= ctl.breakCount then (pc, 0, ctl.(loopCount := 0, breakCount := 0))
    else (start, start, ctl.(loopCount := ctl.loopCount + 1))
  }

  function ForBreakStep<M>(c: Cpu<M>): Cpu<M> {
    var (pc, start, ctl) := ForBreakRegs(c.pc, c.loopIndex, c.ctl);
    c.(pc := pc, loopIndex := start, ctl := ctl)
  }

  /** The switch at the fetched op. */
  function Switch<M>(x: Executor<M>, c: Cpu<M>, op: Op): (Cpu<M>, bool) {
    if c.opCode == ForBreak then (ForBreakStep(c), true)
    else
      var r := x(c.opCode, op, c.ctl, c.m);
      (c.(ctl := r.ctl, m := r.m), r.ok)
  }

  /** One turn of the loop in `read_args`. */
  function Step<M>(x: Executor<M>, code: Program, c: Cpu<M>): Config<M> {
    var f := Fetch(code, c);
    if f.status != Live then f
    else if f.cpu.opCode == Skip then Config(f.cpu, AtSkip)
    else if f.cpu.op.None? then Config(f.cpu, Returned)
    else
      var (c1, ok) := Switch(x, f.cpu, f.cpu.op.value);
      Config(c1, if !ok then Returned else if c1.ctl.black then Blacklisted else Live)
  }

  type Driver<!M> = Config<M> -> Config<M>

  /** A finished run stays where it is. */
  ghost function Next<M>(x: Executor<M>, code: Program): Driver<M> {
    (s: Config<M>) => if s.status == Live then Step(x, code, s.cpu) else s
  }

  ghost function Iterate<M>(f: Driver<M>, n: nat, s: Config<M>): Config<M> {
    if n == 0 then s else Iterate(f, n - 1, f(s))
  }

  /** `n` turns. */
  ghost function StepN<M>(x: Executor<M>, code: Program, n: nat, s: Config<M>): Config<M> {
    Iterate(Next(x, code), n, s)
  }

  /** `skip_flag` after the loop. */
  predicate SkipVerdict(s: Config<Mach>) {
    s.status != Returned && (s.cpu.ctl.black || (s.cpu.m.applyFilter && !s.cpu.m.matchWhite))
  }

  lemma {:induction false} IterateCompose<M>(f: Driver<M>, j: nat, k: nat, s: Config<M>)
    ensures Iterate(f, j + k, s) == Iterate(f, k, Iterate(f, j, s))
  {
    if j > 0 {
      IterateCompose(f, j - 1, k, f(s));
    }
  }

  lemma {:induction false} FinishedStays<M>(f: Driver<M>, n: nat, s: Config<M>)
    requires f(s) == s
    ensures Iterate(f, n, s) == s
  {
    if n > 0 {
      FinishedStays(f, n - 1, s);
    }
  }

  /** `f` is the interpreter of `code`; the trigger keeps `Step` folded until a proof asks for it. */
  ghost predicate Drives<M(!new)>(f: Driver<M>, x: Executor<M>, code: Program) {
    && (forall c: Cpu<M> {:trigger Step(x, code, c)} :: f(Config(c, Live)) == Step(x, code, c))
    && (forall s: Config<M> :: s.status != Live ==> f(s) == s)
  }

  lemma NextDrives<M(!new)>(x: Executor<M>, code: Program)
    ensures Drives(Next(x, code), x, code)
  {
  }

  lemma StepOnce<M(!new)>(f: Driver<M>, x: Executor<M>, code: Program, c: Cpu<M>)
    requires Drives(f, x, code)
    ensures Iterate(f, 1, Config(c, Live)) == Step(x, code, c)
  {
    assert Iterate(f, 1, Config(c, Live)) == Iterate(f, 0, f(Config(c, Live)));
  }

  // ----- the program as written

  class StrBuf {
    var entries: map<Key256, nat>
    constructor () ensures entries == map[] { entries := map[]; }

    /** `strcmp_by_map`: compare by inserting one string and looking the other up. */
    method Compare(mem: Mem, addr: u64, strLen: u32, f: Filter) returns (hit: bool)
      requires entries == map[]
      modifies this
      ensures entries == map[]
      ensures hit == StrMatches(mem, addr, strLen, f)
    {
      if strLen < f.strLen { return false; }
      var readLen := f.strLen;
      if readLen > MAX_STRCMP_LEN { readLen := MAX_STRCMP_LEN; }
      var value: Key256 := ProbeKey(mem, addr, readLen);
      entries := entries[f.strVal := readLen];
      hit := value in entries;
      entries := entries - {f.strVal};
    }
  }

  /** `op_ctx_t`. */
  class OpCtx {
    var saveIndex: u8
    var regIndex: u8
    var loopCount: u8
    var breakCount: u8
    var applyFilter: bool
    var skipFlag: bool
    var matchWhite: bool
    var matchBlack: bool
    var loopIndex: nat
    var opKeyIndex: nat
    var opCode: Code
    var postCode: Code
    var strLen: u32
    var readLen: u32
    var readAddr: u64
    var regValue: u64
    var pointerValue: u64
    var tmpValue: u64
    var reg0: u64

    ghost function With(o: Out): Mach
      reads this
    {
      Mach(saveIndex, regIndex, applyFilter, matchWhite, strLen, readLen, readAddr, regValue, pointerValue,
           tmpValue, reg0, o)
    }

    ghost function Control(): Ctl
      reads this
    {
      Ctl(loopCount, breakCount, matchBlack)
    }

    ghost function View(buf: Buffer): Mach
      reads this, buf, buf.args
      requires buf.Valid()
    {
      With(buf.View())
    }

    ghost function CpuView(op: Option<Op>, buf: Buffer): Cpu<Mach>
      reads this, buf, buf.args
      requires buf.Valid()
    {
      Cpu(opKeyIndex, loopIndex, opCode, postCode, op, Control(), View(buf))
    }

    /** Lengths, loop bounds and the reset. */
    method SetBounds(op: Op, ghost o: Out)
      modifies this`regIndex, this`breakCount, this`readAddr, this`readLen, this`regValue, this`pointerValue
      ensures (Control(), With(o)) == ExecBounds(opCode, op, old(Control()), old(With(o)))
    {
      match opCode {
        case ResetCtx =>
          breakCount := 0;
          regIndex := 0;
          readAddr := 0;
          readLen := 0;
          regValue := 0;
          pointerValue := 0;
        case SetRegIndex => regIndex := Wrap8(op.value);
        case SetReadLen => readLen := Wrap32(op.value);
        case SetReadLenRegValue =>
          if readLen > regValue { readLen := regValue; }
        case SetReadLenPointerValue =>
          if readLen > pointerValue { readLen := pointerValue; }
        case SetReadCount => readLen := Wrap32(readLen * op.value);
        case SetBreakCount =>
          breakCount := MAX_LOOP_COUNT;
          if breakCount > op.value { breakCount := op.value; }
        case SetBreakCountRegValue =>
          breakCount := MAX_LOOP_COUNT;
          if breakCount > regValue { breakCount := regValue; }
        case SetBreakCountPointerValue =>
          breakCount := MAX_LOOP_COUNT;
          if breakCount > pointerValue { breakCount := pointerValue; }
        case _ =>
      }
    }

    /** Address arithmetic. */
    method MoveAddress(op: Op, ghost o: Out)
      requires IsAddress(opCode)
      modifies this`readAddr, this`tmpValue
      ensures With(o) == ExecAddress(opCode, op, old(With(o)))
    {
      match opCode {
        case AddOffset => readAddr := Wrap64(readAddr + op.value);
        case SubOffset => readAddr := Wrap64(readAddr - op.value);
        case MoveRegValue => readAddr := regValue;
        case MovePointerValue => readAddr := pointerValue;
        case MoveTmpValue => readAddr := tmpValue;
        case SetTmpValue => tmpValue := readAddr;
        case AddReg => readAddr := Wrap64(readAddr + regValue);
        case SubReg => readAddr := Wrap64(readAddr - regValue);
      }
    }

    /** Reads of registers and of user memory. */
    method ReadValue(env: Env, op: Op, ghost o: Out) returns (ok: bool)
      requires IsRead(opCode)
      modifies this`regIndex, this`readAddr, this`regValue, this`pointerValue
      ensures (ok, With(o)) == ExecRead(env, opCode, op, old(With(o)))
    {
      match opCode {
        case ReadReg =>
          if op.pre == SetRegIndex { regIndex := Wrap8(op.value); }
          if regIndex >= REG_ARM64_MAX { return false; }
          regValue := env.regs[regIndex];
        case ReadRet => regValue := reg0;
        case ReadPointer =>
          var source := readAddr;
          if op.pre == AddOffset {
            source := Wrap64(readAddr + op.value);
          } else if op.pre == SubOffset {
            source := Wrap64(readAddr - op.value);
          }
          pointerValue := ReadWord(env.mem, source);
        case ReadStdString =>
          FollowStdString(env, o);
      }
      return true;
    }

    /** A long `std::string` keeps its characters behind the first word, a short one inline. */
    method FollowStdString(env: Env, ghost o: Out)
      modifies this`readAddr
      ensures With(o) == old(With(o)).(readAddr := StdStringData(env.mem, old(readAddr)))
    {
      var base := Untag(readAddr);
      var last := ReadOrZero(env.mem, base + 23, 1)[0];
      if last >= 0x80 {
        readAddr := ReadWord(env.mem, base);
      } else {
        readAddr := base;
      }
    }

    method PushWord(v: u64, buf: Buffer)
      requires buf.Valid()
      modifies this`saveIndex, buf`bufOff, buf`argnum, buf.args
      ensures buf.Valid() && View(buf) == SaveWord(old(View(buf)), v)
    {
      var _ := buf.SaveToSubmitBuf(LE(8, v), saveIndex);
      saveIndex := Wrap8(saveIndex + 1);
    }

    method PushStruct(env: Env, op: Op, buf: Buffer)
      requires buf.Valid()
      modifies this`saveIndex, this`readAddr, this`readLen, buf`bufOff, buf`argnum, buf.args
      ensures buf.Valid()
      ensures View(buf) == SaveStructAt(env, old(View(buf)), ScaledLen(op, old(readLen)))
    {
      ghost var m := View(buf);
      readAddr := Untag(readAddr);
      if op.pre == SetReadCount { readLen := Wrap32(readLen * op.value); }
      if readLen > MAX_BYTES_ARR_SIZE { readLen := MAX_BYTES_ARR_SIZE; }
      assert readLen == Min(ScaledLen(op, m.readLen), MAX_BYTES_ARR_SIZE);
      PushBytes(env, buf);
      saveIndex := Wrap8(saveIndex + 1);
    }

    /** The section, or an empty one when it cannot be saved. */
    method PushBytes(env: Env, buf: Buffer)
      requires buf.Valid()
      modifies buf`bufOff, buf`argnum, buf.args
      ensures buf.Valid()
      ensures var o, s := old(buf.View()), SaveBytes(old(buf.View()), env.mem, readAddr, readLen, saveIndex);
              buf.View() == if s.ok then s.out else SaveBytes(o, env.mem, 0, 0, saveIndex).out
    {
      var status := buf.SaveBytesToBuf(env.mem, readAddr, readLen, saveIndex);
      if !status {
        var _ := buf.SaveBytesToBuf(env.mem, 0, 0, saveIndex);
      }
    }

    method PushString(env: Env, buf: Buffer)
      requires buf.Valid()
      modifies this`saveIndex, this`readAddr, this`strLen, buf`bufOff, buf`argnum, buf.args
      ensures buf.Valid() && View(buf) == SaveStringAt(env, old(View(buf)))
    {
      ghost var o := buf.View();
      readAddr := Untag(readAddr);
      ghost var s := SaveStr(o, env.mem, readAddr, saveIndex);
      var oldOff := buf.bufOff;
      assert oldOff == |o.bytes|;
      var status := buf.SaveStrToBuf(env.mem, readAddr, saveIndex);
      assert s == Saved(buf.View(), status);
      if !status {
        var _ := buf.SaveBytesToBuf(env.mem, 0, 0, saveIndex);
      } else {
        assert buf.bufOff == |s.out.bytes|;
        strLen := buf.bufOff - (oldOff + 4 + 1);
      }
      saveIndex := Wrap8(saveIndex + 1);
    }

    method PushPtrString(env: Env, buf: Buffer) returns (ok: bool)
      requires buf.Valid()
      modifies this`saveIndex, buf`bufOff, buf`argnum, buf.args
      ensures buf.Valid() && Saved2(View(buf), ok) == SavePtrStringAt(env, old(View(buf)))
    {
      var ptr := ReadWord(env.mem, Untag(readAddr));
      PushWord(ptr, buf);
      ok := PushTarget(env, Untag(ptr), buf);
    }

    /** The string behind the pointer, or the end marker. */
    method PushTarget(env: Env, ptr: u64, buf: Buffer) returns (ok: bool)
      requires buf.Valid()
      modifies this`saveIndex, buf`bufOff, buf`argnum, buf.args
      ensures buf.Valid() && Saved2(View(buf), ok) == PtrStringTail(env, old(View(buf)), ptr)
    {
      ok := buf.SaveStrToBuf(env.mem, ptr, saveIndex);
      if !ok {
        var _ := buf.SaveBytesToBuf(env.mem, 0, STRARR_MAGIC_LEN, saveIndex);
      }
      saveIndex := Wrap8(saveIndex + 1);
    }

    /** The codes that write to the record. */
    method Save(env: Env, op: Op, buf: Buffer)
      requires buf.Valid() && IsSave(opCode)
      modifies this`saveIndex, this`readAddr, this`readLen, this`strLen, this`loopCount,
               buf`bufOff, buf`argnum, buf.args
      ensures buf.Valid()
      ensures (Control(), View(buf)) == ExecSave(env, opCode, op, old(Control()), old(View(buf)))
    {
      match opCode {
        case SaveAddr => PushWord(readAddr, buf);
        case SaveReg => PushWord(regValue, buf);
        case SavePointer => PushWord(pointerValue, buf);
        case SaveStruct => PushStruct(env, op, buf);
        case SaveString => PushString(env, buf);
        case SavePtrString =>
          var ok := PushPtrString(env, buf);
          if !ok { loopCount := breakCount; }
      }
    }

    /** The filter codes. */
    method ApplyFilter(env: Env, op: Op, ghost o: Out, strs: StrBuf) returns (ok: bool)
      requires IsFilter(opCode) && strs.entries == map[]
      modifies this`applyFilter, this`matchWhite, this`matchBlack, strs
      ensures Res(ok, Control(), With(o)) == ExecFilter(env, opCode, op, old(Control()), old(With(o)))
      ensures strs.entries == map[]
    {
      if op.value !in env.filters { return false; }
      var filter := env.filters[op.value];
      match opCode {
        case FilterValue =>
          if filter.kind == Equal {
            if filter.numVal != regValue { matchBlack := true; }
          } else if filter.kind == Greater {
            if filter.numVal <= regValue { matchBlack := true; }
          } else if filter.kind == Less {
            if filter.numVal >= regValue { matchBlack := true; }
          }
        case FilterBuffer =>
          if filter.kind == White {
            applyFilter := true;
            var ptr := ReadWord(env.mem, Untag(readAddr));
            if filter.numVal == MaskLow(ptr, filter.strLen) { matchWhite := true; }
          }
        case FilterString =>
          var hit := strs.Compare(env.mem, readAddr, strLen, filter);
          if filter.kind == White {
            applyFilter := true;
            if hit { matchWhite := true; }
          } else if filter.kind == Black && hit {
            matchBlack := true;
          }
      }
      return true;
    }

    /** Every case of the switch but FOR_BREAK. */
    method Operate(env: Env, ghost x: Executor<Mach>, op: Op, buf: Buffer, strs: StrBuf) returns (ok: bool)
      requires buf.Valid() && strs.entries == map[] && Runs(x, env)
      modifies this`saveIndex, this`regIndex, this`loopCount, this`breakCount, this`applyFilter, this`matchWhite,
               this`matchBlack, this`strLen, this`readLen, this`readAddr, this`regValue, this`pointerValue,
               this`tmpValue, buf`bufOff, buf`argnum, buf.args, strs
      ensures buf.Valid() && strs.entries == map[]
      ensures Res(ok, Control(), View(buf)) == x(opCode, op, old(Control()), old(View(buf)))
    {
      ghost var r := Exec(env, opCode, op, Control(), View(buf));
      ok := true;
      if IsSave(opCode) {
        Save(env, op, buf);
      } else if IsFilter(opCode) {
        ok := ApplyFilter(env, op, buf.View(), strs);
      } else if IsRead(opCode) {
        ok := ReadValue(env, op, buf.View());
      } else if IsAddress(opCode) {
        MoveAddress(op, buf.View());
      } else {
        SetBounds(op, buf.View());
      }
    }

    /** FOR_BREAK. */
    method StepLoop()
      modifies this`loopCount, this`breakCount, this`loopIndex, this`opKeyIndex
      ensures (opKeyIndex, loopIndex, Control()) == ForBreakRegs(old(opKeyIndex), old(loopIndex), old(Control()))
    {
      if loopCount == 0 { loopIndex := opKeyIndex; }
      if loopCount >= breakCount {
        loopCount := 0;
        breakCount := 0;
        loopIndex := 0;
      } else {
        loopCount := loopCount + 1;
        opKeyIndex := loopIndex;
      }
    }

    /** The switch. */
    method Execute(env: Env, ghost x: Executor<Mach>, op: Op, buf: Buffer, strs: StrBuf) returns (ok: bool)
      requires buf.Valid() && opCode != Skip && strs.entries == map[] && Runs(x, env)
      modifies this, buf`bufOff, buf`argnum, buf.args, strs
      ensures buf.Valid() && strs.entries == map[]
      ensures (CpuView(Some(op), buf), ok) == Switch(x, old(CpuView(Some(op), buf)), op)
      ensures skipFlag == old(skipFlag)
    {
      if opCode == ForBreak {
        ok := true;
        StepLoop();
      } else {
        ok := Operate(env, x, op, buf, strs);
      }
    }

    ghost function CpuWith(op: Option<Op>, m: Mach): Cpu<Mach>
      reads this
    {
      Cpu(opKeyIndex, loopIndex, opCode, postCode, op, Control(), m)
    }

    /** The head of the loop body: the pending post code, or the next key; false is an early return. */
    method FetchOp(code: Program, op: Option<Op>, ghost m: Mach) returns (cur: Option<Op>, ok: bool)
      modifies this`opCode, this`postCode, this`opKeyIndex
      ensures Config(CpuWith(cur, m), if ok then Live else Returned) == Fetch(code, old(CpuWith(op, m)))
    {
      cur := op;
      if op.Some? && postCode != Skip {
        opCode := postCode;
        postCode := Skip;
      } else {
        if opKeyIndex >= |code.keys| { return cur, false; }
        var key := code.keys[opKeyIndex];
        cur := if key in code.table then Some(code.table[key]) else None;
        if cur.None? { return cur, false; }
        opCode := cur.value.code;
        postCode := cur.value.post;
        opKeyIndex := opKeyIndex + 1;
      }
      ok := true;
    }

    /** One turn of the loop: fetch, then the switch. */
    method Turn(env: Env, ghost x: Executor<Mach>, code: Program, op: Option<Op>, buf: Buffer, strs: StrBuf)
      returns (cur: Option<Op>, status: Status)
      requires buf.Valid() && strs.entries == map[] && Runs(x, env)
      modifies this, buf`bufOff, buf`argnum, buf.args, strs
      ensures buf.Valid() && strs.entries == map[]
      ensures Config(CpuView(cur, buf), status) == Step(x, code, old(CpuView(op, buf)))
      ensures skipFlag == old(skipFlag)
    {
      ghost var f := Fetch(code, CpuView(op, buf));
      var fetched: bool;
      cur, fetched := FetchOp(code, op, View(buf));
      assert f == Config(CpuView(cur, buf), if fetched then Live else Returned);
      if !fetched { return cur, Returned; }
      if opCode == Skip { return cur, AtSkip; }
      var ok := Execute(env, x, cur.value, buf, strs);
      status := if !ok then Returned else if matchBlack then Blacklisted else Live;
    }

    /** The loop of `read_args`: as many turns as the key list is long. */
    method RunLoop(env: Env, ghost x: Executor<Mach>, ghost f: Driver<Mach>, code: Program, buf: Buffer,
                   strs: StrBuf)
      returns (op: Option<Op>, status: Status)
      requires buf.Valid() && strs.entries == map[] && Runs(x, env) && Drives(f, x, code)
      modifies this, buf`bufOff, buf`argnum, buf.args, strs
      ensures buf.Valid() && strs.entries == map[]
      ensures Config(CpuView(op, buf), status)
           == Iterate(f, |code.keys|, Config(old(CpuView(First(code), buf)), Live))
      ensures skipFlag == old(skipFlag)
    {
      op := First(code);
      status := Live;
      var maxop := |code.keys|;
      ghost var goal := Iterate(f, maxop, Config(CpuView(op, buf), Live));
      var i := 0;
      while i < maxop && status == Live
        invariant 0 <= i <= maxop
        invariant buf.Valid() && strs.entries == map[]
        invariant Iterate(f, maxop - i, Config(CpuView(op, buf), status)) == goal
        invariant skipFlag == old(skipFlag)
        decreases maxop - i
      {
        op, status := Turn(env, x, code, op, buf, strs);
        i := i + 1;
      }
      if status != Live { FinishedStays(f, maxop - i, Config(CpuView(op, buf), status)); }
    }

    /** `read_args`, from whatever state `op_ctx` was left in. */
    method ReadArgs(env: Env, code: Program, buf: Buffer, strs: StrBuf) returns (ghost last: Config<Mach>)
      requires buf.Valid() && strs.entries == map[]
      modifies this, buf`bufOff, buf`argnum, buf.args, strs
      ensures buf.Valid() && strs.entries == map[]
      ensures last == StepN(ExecOf(env), code, |code.keys|, Config(old(CpuView(First(code), buf)), Live))
      ensures CpuView(last.cpu.op, buf) == last.cpu
      ensures skipFlag == (old(skipFlag) || SkipVerdict(last))
    {
      ExecOfRuns(env);
      NextDrives(ExecOf(env), code);
      var op, status := RunLoop(env, ExecOf(env), Next(ExecOf(env), code), code, buf, strs);
      last := Config(CpuView(op, buf), status);
      if status == Returned { return; }
      if matchBlack {
        skipFlag := true;
        return;
      }
      if applyFilter && !matchWhite { skipFlag := true; }
    }
  }
}
