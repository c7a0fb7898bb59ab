/**
 Op codes and exits of `read_args` that no built-in argument type uses, by what a short sequence of them leaves: they
 are registered and reachable all the same.
 */
module Codes {
  import opened Bytes
  import opened Memory
  import opened Ops
  import opened Machine
  import opened Interpreter
  import opened Frames

  /** The fields RESET_CTX leaves alone. */
  predicate SameKept(m: Mach, n: Mach) {
    && m.out == n.out && m.saveIndex == n.saveIndex && m.applyFilter == n.applyFilter && m.matchWhite == n.matchWhite
    && m.strLen == n.strLen && m.tmpValue == n.tmpValue && m.reg0 == n.reg0
  }

  /** RESET_CTX makes any two contexts with the same record, flags, string length and saved address equal, and zero. */
  lemma ResetForgets(env: Env, op: Op, c: Ctl, d: Ctl, m: Mach, n: Mach)
    requires SameKept(m, n) && c.loopCount == d.loopCount && c.black == d.black
    ensures var r := Exec(env, ResetCtx, op, c, m);
            && r == Exec(env, ResetCtx, op, d, n) && r.ok && SameKept(m, r.m) && r.ctl == c.(breakCount := 0)
            && r.m.regIndex == 0 && r.m.readLen == 0 && r.m.readAddr == r.m.regValue == r.m.pointerValue == 0
  {
  }

  /** SET_REG_INDEX and a plain READ_REG read the register the low byte of the value names; beyond pc they return. */
  lemma IndexedRegister(env: Env, i: u64, op: Op, ctl: Ctl, m: Mach)
    requires !op.pre.SetRegIndex?
    ensures var r := Exec(env, SetRegIndex, Op(SetRegIndex, Skip, Skip, i), ctl, m);
            var t := Exec(env, ReadReg, op, r.ctl, r.m);
            && r.ok && (t.ok <==> i % 256 < 33)
            && (t.ok ==> t.ctl == ctl && t.m == m.(regIndex := i % 256, regValue := env.regs[i % 256]))
  {
  }

  /** SET_READ_COUNT multiplies the length set before it, and so does SAVE_STRUCT fused with the count. */
  lemma CountScales(env: Env, op: Op, n: u32, product: u32, ctl: Ctl, m: Mach)
    requires m.readLen == n && product == (n * op.value) % 0x1_0000_0000
    ensures Exec(env, SetReadCount, op, ctl, m) == Res(true, ctl, m.(readLen := product))
    ensures op.pre.SetReadCount? ==>
              Wrote(m, Exec(env, SaveStruct, op, ctl, m).m,
                    [StructFrame(env.mem, m.readAddr, if product > 4096 then 4096 else product)])
  {
    SaveStructWrites(env, m, product);
  }

  /** READ_POINTER fused with SUB_OFFSET, then SAVE_POINTER: the word so far in front of the address. */
  lemma PointerBefore(env: Env, off: u64, ctl: Ctl, m: Mach)
    ensures var r := Exec(env, ReadPointer, Op(ReadPointer, SubOffset, Skip, off), ctl, m);
            var v := ReadWord(env.mem, ((m.readAddr as int) - off) % 0x1_0000_0000_0000_0000);
            && r == Res(true, ctl, m.(pointerValue := v))
            && Wrote(r.m, Exec(env, SavePointer, Op(SavePointer, Skip, Skip, 0), ctl, r.m).m, [Word(v)])
  {
    var v := ReadWord(env.mem, Wrap64((m.readAddr as int) - off));
    SaveWordWrites(m.(pointerValue := v), v);
  }

  /** Codes without a meaning do nothing. */
  lemma UnknownDoesNothing(env: Env, op: Op, ctl: Ctl, m: Mach)
    ensures Exec(env, Unknown, op, ctl, m) == Res(true, ctl, m)
  {
  }

  // ----- early returns

  /** The next turn returns early: past the keys, at a key without an op, a filter not installed or no such register. */
  predicate ReturnsEarly(env: Env, code: Program, c: Cpu<Mach>) {
    c.pc >= |code.keys| || code.keys[c.pc] !in code.table
    || (var op := code.table[code.keys[c.pc]];
        (IsFilter(op.code) && op.value !in env.filters)
        || (op.code.ReadReg? && (if op.pre.SetRegIndex? then op.value % 256 else c.m.regIndex as int) >= 33))
  }

  lemma EarlyStep(env: Env, code: Program, c: Cpu<Mach>)
    requires c.postCode == Skip && ReturnsEarly(env, code, c)
    ensures var s := Step(ExecOf(env), code, c);
            && s.status == Returned && s.cpu.m.out == c.m.out
            && s.cpu.m.applyFilter == c.m.applyFilter && s.cpu.m.matchWhite == c.m.matchWhite
  {
    if c.pc < |code.keys| && code.keys[c.pc] in code.table {
      var op := code.table[code.keys[c.pc]];
      var r := Exec(env, op.code, op, c.ctl, c.m);
      assert !r.ok && r.m.out == c.m.out && r.m.applyFilter == c.m.applyFilter && r.m.matchWhite == c.m.matchWhite;
    }
  }

  /**
   An early return ends the run for good and keeps the event, even if a whitelist has been applied and missed; what
   was saved so far stays.
   */
  lemma EarlyReturnKeeps(env: Env, code: Program, c: Cpu<Mach>, n: nat)
    requires c.postCode == Skip && ReturnsEarly(env, code, c) && n > 0
    ensures var s := StepN(ExecOf(env), code, n, Config(c, Live));
            && s.status == Returned && !SkipVerdict(s) && s.cpu.m.out == c.m.out
            && s.cpu.m.applyFilter == c.m.applyFilter && s.cpu.m.matchWhite == c.m.matchWhite
  {
    var x := ExecOf(env);
    var f, start := Next(x, code), Config(c, Live);
    NextDrives(x, code);
    var s := Step(x, code, c);
    EarlyStep(env, code, c);
    StepOnce(f, x, code, c);
    IterateCompose(f, 1, n - 1, start);
    FinishedStays(f, n - 1, s);
  }
}
