/** What running one op at the head of a list does, op by op. */
module Effects {
  import opened Bytes
  import opened Memory
  import opened EventBuffer
  import opened Ops
  import opened Machine
  import opened Structured
  import opened Frames

  /**
   The meaning of op lists and of loops as values. The triggers in `Valid` keep the definitions folded
   until a proof asks for them.
   */
  datatype Sem = Sem(
    env: Env,
    x: Executor<Mach>,
    run: (seq<Op>, Ctl, Mach) -> Outcome<Mach>,
    loop: (seq<Op>, Ctl, Mach) -> (Outcome<Mach>, nat),
    prog: (seq<Stmt>, Ctl, Mach) -> (Outcome<Mach>, nat),
    wrote: (Mach, Mach, seq<Frame>) -> bool)

  ghost predicate OpenLoop(body: seq<Op>, ctl: Ctl) { Body(body) && ctl.loopCount <= ctl.breakCount }

  ghost predicate Valid(s: Sem) {
    && Runs(s.x, s.env)
    && Lawful(s.x)
    && (forall ops: seq<Op>, ctl: Ctl, m: Mach {:trigger EvalOps(s.x, ops, ctl, m)} ::
          s.run(ops, ctl, m) == EvalOps(s.x, ops, ctl, m))
    && (forall body: seq<Op>, ctl: Ctl, m: Mach {:trigger EvalTurns(s.x, body, ctl, m)} :: OpenLoop(body, ctl) ==>
          s.loop(body, ctl, m) == (EvalTurns(s.x, body, ctl, m), TurnsCost(s.x, body, ctl, m)))
    && (forall p: seq<Stmt>, ctl: Ctl, m: Mach {:trigger Eval(s.x, p, ctl, m)} :: Wf(p) && ctl.loopCount == 0 ==>
          s.prog(p, ctl, m) == (Eval(s.x, p, ctl, m), Cost(s.x, p, ctl, m)))
    && (forall m, m1, fs {:trigger Wrote(m, m1, fs)} :: s.wrote(m, m1, fs) == Wrote(m, m1, fs))
  }

  ghost function SemOf(env: Env): (s: Sem)
    ensures s.env == env && s.x == ExecOf(env)
  {
    ExecIsLawful(env);
    var x := ExecOf(env);
    Sem(env, x,
        (ops: seq<Op>, ctl: Ctl, m: Mach) => EvalOps(x, ops, ctl, m),
        (body: seq<Op>, ctl: Ctl, m: Mach) =>
          if OpenLoop(body, ctl) then (EvalTurns(x, body, ctl, m), TurnsCost(x, body, ctl, m)) else (Go(ctl, m), 0),
        (p: seq<Stmt>, ctl: Ctl, m: Mach) =>
          if Wf(p) && ctl.loopCount == 0 then (Eval(x, p, ctl, m), Cost(x, p, ctl, m)) else (Go(ctl, m), 0),
        (m: Mach, m1: Mach, fs: seq<Frame>) => Wrote(m, m1, fs))
  }

  lemma SemIsValid(env: Env)
    ensures Valid(SemOf(env))
  {
    ExecOfRuns(env);
    ExecIsLawful(env);
  }

  lemma Cons(op: Op, rest: seq<Op>)
    ensures ([op] + rest)[0] == op && ([op] + rest)[1..] == rest
  {
  }

  lemma Head(s: Sem, op: Op, rest: seq<Op>, ctl: Ctl, m: Mach)
    requires Valid(s)
    ensures var r := EvalOp(s.x, op, ctl, m);
            s.run([op] + rest, ctl, m) == if r.Stop? then r else s.run(rest, r.ctl, r.m)
  {
    Cons(op, rest);
    var all := EvalOps(s.x, [op] + rest, ctl, m);
    var r := EvalOp(s.x, op, ctl, m);
    var tail := EvalOps(s.x, rest, r.ctl, r.m);
  }

  lemma Nothing(s: Sem, ctl: Ctl, m: Mach)
    requires Valid(s)
    ensures s.run([], ctl, m) == Go(ctl, m)
  {
    var all := EvalOps(s.x, [], ctl, m);
  }

  /** One turn of a loop whose body goes on. */
  lemma LoopTurn(s: Sem, body: seq<Op>, ctl: Ctl, m: Mach, ctl1: Ctl, m1: Mach)
    requires Valid(s) && OpenLoop(body, ctl) && s.run(body, ctl, m) == Go(ctl1, m1)
    ensures var r := s.loop(body, ctl, m);
            ctl1.loopCount >= ctl1.breakCount ==>
              r.0 == Go(ctl1.(loopCount := 0, breakCount := 0), m1) && r.1 == OpsCost(body) + 1
    ensures var r := s.loop(body, ctl, m);
            ctl1.loopCount < ctl1.breakCount ==>
              var r1 := s.loop(body, ctl1.(loopCount := ctl1.loopCount + 1), m1);
              r.0 == r1.0 && r.1 == OpsCost(body) + 1 + r1.1
  {
    var turn := EvalOps(s.x, body, ctl, m);
    TurnGoes(s.x, body, ctl, m, ctl1, m1);
    var all := EvalTurns(s.x, body, ctl, m);
    if ctl1.loopCount < ctl1.breakCount {
      var rest := EvalTurns(s.x, body, ctl1.(loopCount := ctl1.loopCount + 1), m1);
    }
  }

  lemma ProgAppend(s: Sem, p: seq<Stmt>, q: seq<Stmt>, ctl: Ctl, m: Mach)
    requires Valid(s) && Wf(p) && Wf(q) && ctl.loopCount == 0
    ensures var r, all := s.prog(p, ctl, m), s.prog(p + q, ctl, m);
            && (r.0.Stop? ==> all.0 == r.0 && all.1 == r.1)
            && (r.0.Go? ==>
                  var r2 := s.prog(q, r.0.ctl, r.0.m);
                  r.0.ctl.loopCount == 0 && all.0 == r2.0 && all.1 == r.1 + r2.1)
  {
    EvalAppend(s.x, p, q, ctl, m);
    var r := Eval(s.x, p, ctl, m);
    var all := Eval(s.x, p + q, ctl, m);
    if r.Go? { var r2 := Eval(s.x, q, r.ctl, r.m); }
  }

  lemma ProgNothing(s: Sem, ctl: Ctl, m: Mach)
    requires Valid(s) && ctl.loopCount == 0
    ensures s.prog([], ctl, m) == (Go(ctl, m), 0)
  {
    var r := Eval(s.x, [], ctl, m);
  }

  /** Straight-line code that goes on. */
  lemma ProgDos(s: Sem, ops: seq<Op>, ctl: Ctl, m: Mach, ctl1: Ctl, m1: Mach)
    requires Valid(s) && Wf(Dos(ops)) && ctl.loopCount == 0 && s.run(ops, ctl, m) == Go(ctl1, m1)
    ensures s.prog(Dos(ops), ctl, m) == (Go(ctl1, m1), OpsCost(ops))
  {
    EvalDos(s.x, ops, ctl, m);
    var r := Eval(s.x, Dos(ops), ctl, m);
    var all := EvalOps(s.x, ops, ctl, m);
  }

  lemma ProgStops(s: Sem, ops: seq<Op>, ctl: Ctl, m: Mach)
    requires Valid(s) && Wf(Dos(ops)) && ctl.loopCount == 0 && s.run(ops, ctl, m).Stop?
    ensures s.prog(Dos(ops), ctl, m).0 == s.run(ops, ctl, m) && s.prog(Dos(ops), ctl, m).1 <= OpsCost(ops)
  {
    EvalDos(s.x, ops, ctl, m);
    var r := Eval(s.x, Dos(ops), ctl, m);
    var all := EvalOps(s.x, ops, ctl, m);
  }

  lemma ProgLoop(s: Sem, body: seq<Op>, ctl: Ctl, m: Mach)
    requires Valid(s) && Body(body) && ctl.loopCount == 0
    ensures var r := s.loop(body, EnterLoop(ctl), m);
            s.prog([Loop(body)], ctl, m).0 == r.0 && s.prog([Loop(body)], ctl, m).1 == 1 + r.1
  {
    var p := [Loop(body)];
    assert p[1..] == [];
    EvalUnfolds(s.x, p, ctl, m);
    var r := Eval(s.x, p, ctl, m);
    var l := EvalTurns(s.x, body, EnterLoop(ctl), m);
  }

  /** Writing is about the record, the save index and the flags; the other registers may move freely. */
  ghost predicate SameRecord(m: Mach, m1: Mach) {
    && m.out == m1.out && m.saveIndex == m1.saveIndex && m.applyFilter == m1.applyFilter
    && m.matchWhite == m1.matchWhite && m.reg0 == m1.reg0
  }

  lemma Moved(s: Sem, m0: Mach, m: Mach, m1: Mach, m2: Mach, fs: seq<Frame>)
    requires Valid(s) && s.wrote(m, m1, fs) && SameRecord(m0, m) && SameRecord(m1, m2)
    ensures s.wrote(m0, m2, fs)
  {
    assert Wrote(m, m1, fs);
    assert Wrote(m0, m2, fs);
  }

  lemma WroteThen(s: Sem, m: Mach, m1: Mach, m2: Mach, a: seq<Frame>, b: seq<Frame>)
    requires Valid(s) && s.wrote(m, m1, a) && s.wrote(m1, m2, b)
    ensures s.wrote(m, m2, a + b)
  {
    assert Wrote(m, m1, a) && Wrote(m1, m2, b);
    WroteBoth(m, m1, m2, a, b);
  }

  lemma EndsAt(s: Sem, m: Mach, m1: Mach, fs: seq<Frame>)
    requires Valid(s) && s.wrote(m, m1, fs)
    ensures Off(m1) == PastAll(Off(m), fs)
  {
    assert Wrote(m, m1, fs);
    WroteEnds(m, m1, fs);
  }

  /** An op without a post-op that cannot stop the run. */
  lemma Single(s: Sem, op: Op, rest: seq<Op>, ctl: Ctl, m: Mach, ctl1: Ctl, m1: Mach)
    requires Valid(s) && op.post == Skip && Exec(s.env, op.code, op, ctl, m) == Res(true, ctl1, m1) && !ctl1.black
    ensures s.run([op] + rest, ctl, m) == s.run(rest, ctl1, m1)
  {
    Head(s, op, rest, ctl, m);
  }

  /** A fused op, both halves of which go on. */
  lemma Double(s: Sem, op: Op, rest: seq<Op>, ctl: Ctl, m: Mach, m1: Mach, ctl2: Ctl, m2: Mach)
    requires Valid(s) && op.post != Skip && !ctl.black && !ctl2.black
    requires Exec(s.env, op.code, op, ctl, m) == Res(true, ctl, m1)
    requires Exec(s.env, op.post, op, ctl, m1) == Res(true, ctl2, m2)
    ensures s.run([op] + rest, ctl, m) == s.run(rest, ctl2, m2)
  {
    Head(s, op, rest, ctl, m);
  }

  lemma SetLen(s: Sem, n: u32, rest: seq<Op>, ctl: Ctl, m: Mach)
    requires Valid(s) && !ctl.black
    ensures s.run([Op(SetReadLen, Skip, Skip, n)] + rest, ctl, m) == s.run(rest, ctl, m.(readLen := n))
  {
    Single(s, Op(SetReadLen, Skip, Skip, n), rest, ctl, m, ctl, m.(readLen := n));
  }

  lemma Structure(s: Sem, rest: seq<Op>, ctl: Ctl, m: Mach) returns (m1: Mach)
    requires Valid(s) && !ctl.black
    ensures s.run([Op(SaveStruct, Skip, Skip, 0)] + rest, ctl, m) == s.run(rest, ctl, m1)
    ensures var len := Min(m.readLen, MAX_BYTES_ARR_SIZE);
            s.wrote(m, m1, [StructFrame(s.env.mem, m.readAddr, len)])
            && m1 == m.(readAddr := Untag(m.readAddr), readLen := len, out := m1.out, saveIndex := m1.saveIndex)
  {
    m1 := SaveStructAt(s.env, m, m.readLen);
    SaveStructWrites(s.env, m, m.readLen);
    Single(s, Op(SaveStruct, Skip, Skip, 0), rest, ctl, m, ctl, m1);
  }

  lemma LenStructExec(env: Env, n: u32, ctl: Ctl, m: Mach)
    ensures var op := Op(SetReadLen, Skip, SaveStruct, n);
            var a := m.(readLen := n);
            && Exec(env, op.code, op, ctl, m) == Res(true, ctl, a)
            && Exec(env, op.post, op, ctl, a) == Res(true, ctl, SaveStructAt(env, a, n))
  {
  }

  /** SET_READ_LEN fused with SAVE_STRUCT. */
  lemma LenStruct(s: Sem, n: u32, rest: seq<Op>, ctl: Ctl, m: Mach) returns (m1: Mach)
    requires Valid(s) && !ctl.black
    ensures s.run([Op(SetReadLen, Skip, SaveStruct, n)] + rest, ctl, m) == s.run(rest, ctl, m1)
    ensures var len := Min(n, MAX_BYTES_ARR_SIZE);
            s.wrote(m, m1, [StructFrame(s.env.mem, m.readAddr, len)])
            && m1 == m.(readAddr := Untag(m.readAddr), readLen := len, out := m1.out, saveIndex := m1.saveIndex)
  {
    var a := m.(readLen := n);
    m1 := SavedStruct(s, a, n);
    Moved(s, m, a, m1, m1, [StructFrame(s.env.mem, m.readAddr, Min(n, MAX_BYTES_ARR_SIZE))]);
    LenStructExec(s.env, n, ctl, m);
    Double(s, Op(SetReadLen, Skip, SaveStruct, n), rest, ctl, m, a, ctl, m1);
  }

  lemma SavedStruct(s: Sem, m: Mach, n: u32) returns (m1: Mach)
    requires Valid(s)
    ensures m1 == SaveStructAt(s.env, m, n)
    ensures var len := Min(n, MAX_BYTES_ARR_SIZE);
            s.wrote(m, m1, [StructFrame(s.env.mem, m.readAddr, len)])
            && m1 == m.(readAddr := Untag(m.readAddr), readLen := len, out := m1.out, saveIndex := m1.saveIndex)
  {
    m1 := SaveStructAt(s.env, m, n);
    SaveStructWrites(s.env, m, n);
  }

  lemma String(s: Sem, rest: seq<Op>, ctl: Ctl, m: Mach) returns (m1: Mach)
    requires Valid(s) && !ctl.black
    ensures s.run([Op(SaveString, Skip, Skip, 0)] + rest, ctl, m) == s.run(rest, ctl, m1)
    ensures s.wrote(m, m1, [StringFrame(s.env.mem, m.readAddr)])
            && m1 == m.(readAddr := Untag(m.readAddr), out := m1.out, saveIndex := m1.saveIndex,
                        strLen := LenOr(TextLen(s.env.mem, m.readAddr, Off(m)), m.strLen))
  {
    m1 := SaveStringAt(s.env, m);
    SaveStringWrites(s.env, m);
    Single(s, Op(SaveString, Skip, Skip, 0), rest, ctl, m, ctl, m1);
  }

  /** The string at `m` that ends its array makes this turn of the loop the last. */
  function AfterString(mem: Mem, ctl: Ctl, m: Mach): Ctl {
    if EndsArray(mem, m.readAddr, Off(m)) then ctl.(loopCount := ctl.breakCount) else ctl
  }

  lemma StdString(s: Sem, rest: seq<Op>, ctl: Ctl, m: Mach)
    requires Valid(s) && !ctl.black
    ensures s.run([Op(ReadStdString, Skip, Skip, 0)] + rest, ctl, m)
         == s.run(rest, ctl, m.(readAddr := StdStringData(s.env.mem, m.readAddr)))
  {
    Single(s, Op(ReadStdString, Skip, Skip, 0), rest, ctl, m, ctl,
           m.(readAddr := StdStringData(s.env.mem, m.readAddr)));
  }

  lemma PtrString(s: Sem, rest: seq<Op>, ctl: Ctl, m: Mach) returns (m1: Mach)
    requires Valid(s) && !ctl.black
    ensures s.run([Op(SavePtrString, Skip, Skip, 0)] + rest, ctl, m)
         == s.run(rest, AfterString(s.env.mem, ctl, m), m1)
    ensures s.wrote(m, m1, PtrStringFrames(s.env.mem, m.readAddr)) && m1 == m.(out := m1.out, saveIndex := m1.saveIndex)
  {
    m1 := SavePtrStringAt(s.env, m).m;
    SavePtrStringWrites(s.env, m);
    Single(s, Op(SavePtrString, Skip, Skip, 0), rest, ctl, m, AfterString(s.env.mem, ctl, m), m1);
  }

  /** READ_REG of register `r`, fused with `post`. */
  lemma RegThen(s: Sem, r: nat, post: Code, rest: seq<Op>, ctl: Ctl, m: Mach, ctl1: Ctl, m1: Mach)
    requires Valid(s) && !ctl.black && !ctl1.black && r < REG_ARM64_MAX && post != Skip
    requires var op := Op(ReadReg, SetRegIndex, post, r);
             Exec(s.env, post, op, ctl, m.(regIndex := r, regValue := s.env.regs[r])) == Res(true, ctl1, m1)
    ensures s.run([Op(ReadReg, SetRegIndex, post, r)] + rest, ctl, m) == s.run(rest, ctl1, m1)
  {
    Double(s, Op(ReadReg, SetRegIndex, post, r), rest, ctl, m, m.(regIndex := r, regValue := s.env.regs[r]),
           ctl1, m1);
  }

  lemma RegLen(s: Sem, r: nat, rest: seq<Op>, ctl: Ctl, m: Mach)
    requires Valid(s) && !ctl.black && r < REG_ARM64_MAX
    ensures var v := s.env.regs[r];
            s.run([Op(ReadReg, SetRegIndex, SetReadLenRegValue, r)] + rest, ctl, m)
               == s.run(rest, ctl, m.(regIndex := r, regValue := v, readLen := Min(v, m.readLen)))
  {
    var v := s.env.regs[r];
    RegThen(s, r, SetReadLenRegValue, rest, ctl, m, ctl,
            m.(regIndex := r, regValue := v, readLen := Min(v, m.readLen)));
  }

  lemma RegBreak(s: Sem, r: nat, rest: seq<Op>, ctl: Ctl, m: Mach)
    requires Valid(s) && !ctl.black && r < REG_ARM64_MAX
    ensures var v := s.env.regs[r];
            s.run([Op(ReadReg, SetRegIndex, SetBreakCountRegValue, r)] + rest, ctl, m)
               == s.run(rest, ctl.(breakCount := CapBreak(v)), m.(regIndex := r, regValue := v))
  {
    var v := s.env.regs[r];
    RegThen(s, r, SetBreakCountRegValue, rest, ctl, m, ctl.(breakCount := CapBreak(v)),
            m.(regIndex := r, regValue := v));
  }

  lemma RegSave(s: Sem, r: nat, rest: seq<Op>, ctl: Ctl, m: Mach) returns (m1: Mach)
    requires Valid(s) && !ctl.black && r < REG_ARM64_MAX
    ensures s.run([Op(ReadReg, SetRegIndex, SaveReg, r)] + rest, ctl, m) == s.run(rest, ctl, m1)
    ensures s.wrote(m, m1, [Word(s.env.regs[r])])
    ensures m1 == m.(regIndex := r, regValue := s.env.regs[r], out := m1.out, saveIndex := m1.saveIndex)
  {
    var a := m.(regIndex := r, regValue := s.env.regs[r]);
    SaveWordWrites(a, a.regValue);
    m1 := SaveWord(a, a.regValue);
    Moved(s, m, a, m1, m1, [Word(a.regValue)]);
    RegThen(s, r, SaveReg, rest, ctl, m, ctl, m1);
  }

  lemma RegMove(s: Sem, r: nat, rest: seq<Op>, ctl: Ctl, m: Mach)
    requires Valid(s) && !ctl.black && r < REG_ARM64_MAX
    ensures var v := s.env.regs[r];
            s.run([Op(ReadReg, SetRegIndex, MoveRegValue, r)] + rest, ctl, m)
               == s.run(rest, ctl, m.(regIndex := r, regValue := v, readAddr := v))
  {
    var v := s.env.regs[r];
    RegThen(s, r, MoveRegValue, rest, ctl, m, ctl, m.(regIndex := r, regValue := v, readAddr := v));
  }

  lemma SaveRegValue(s: Sem, rest: seq<Op>, ctl: Ctl, m: Mach) returns (m1: Mach)
    requires Valid(s) && !ctl.black
    ensures s.run([Op(SaveReg, Skip, Skip, 0)] + rest, ctl, m) == s.run(rest, ctl, m1)
    ensures s.wrote(m, m1, [Word(m.regValue)]) && m1 == m.(out := m1.out, saveIndex := m1.saveIndex)
  {
    SaveWordWrites(m, m.regValue);
    m1 := SaveWord(m, m.regValue);
    Single(s, Op(SaveReg, Skip, Skip, 0), rest, ctl, m, ctl, m1);
  }

  lemma SaveAddress(s: Sem, rest: seq<Op>, ctl: Ctl, m: Mach) returns (m1: Mach)
    requires Valid(s) && !ctl.black
    ensures s.run([Op(SaveAddr, Skip, Skip, 0)] + rest, ctl, m) == s.run(rest, ctl, m1)
    ensures s.wrote(m, m1, [Word(m.readAddr)]) && m1 == m.(out := m1.out, saveIndex := m1.saveIndex)
  {
    SaveWordWrites(m, m.readAddr);
    m1 := SaveWord(m, m.readAddr);
    Single(s, Op(SaveAddr, Skip, Skip, 0), rest, ctl, m, ctl, m1);
  }

  lemma BreakCount(s: Sem, n: u64, rest: seq<Op>, ctl: Ctl, m: Mach)
    requires Valid(s) && !ctl.black
    ensures s.run([Op(SetBreakCount, Skip, Skip, n)] + rest, ctl, m)
         == s.run(rest, ctl.(breakCount := CapBreak(n)), m)
  {
    Single(s, Op(SetBreakCount, Skip, Skip, n), rest, ctl, m, ctl.(breakCount := CapBreak(n)), m);
  }

  /** Address arithmetic, none of which can stop the run. */
  lemma Move(s: Sem, code: Code, v: u64, rest: seq<Op>, ctl: Ctl, m: Mach)
    requires Valid(s) && !ctl.black && IsAddress(code)
    ensures s.run([Op(code, Skip, Skip, v)] + rest, ctl, m)
         == s.run(rest, ctl, ExecAddress(code, Op(code, Skip, Skip, v), m))
  {
    var op := Op(code, Skip, Skip, v);
    Single(s, op, rest, ctl, m, ctl, ExecAddress(code, op, m));
  }

  lemma Pointer(s: Sem, rest: seq<Op>, ctl: Ctl, m: Mach)
    requires Valid(s) && !ctl.black
    ensures s.run([Op(ReadPointer, Skip, Skip, 0)] + rest, ctl, m)
         == s.run(rest, ctl, m.(pointerValue := ReadWord(s.env.mem, m.readAddr)))
  {
    Single(s, Op(ReadPointer, Skip, Skip, 0), rest, ctl, m, ctl,
           m.(pointerValue := ReadWord(s.env.mem, m.readAddr)));
  }

  lemma PtrExec(env: Env, op: Op, ctl: Ctl, m: Mach)
    requires op.code == ReadPointer && op.pre == AddOffset
    ensures Exec(env, op.code, op, ctl, m)
         == Res(true, ctl, m.(pointerValue := ReadWord(env.mem, Wrap64(m.readAddr + op.value))))
  {
  }

  /** READ_POINTER at an offset, fused with `post`. */
  lemma PtrThen(s: Sem, off: u64, post: Code, rest: seq<Op>, ctl: Ctl, m: Mach, ctl1: Ctl, m1: Mach)
    requires Valid(s) && !ctl.black && !ctl1.black && post != Skip
    requires var op := Op(ReadPointer, AddOffset, post, off);
             Exec(s.env, post, op, ctl, m.(pointerValue := ReadWord(s.env.mem, Wrap64(m.readAddr + off))))
             == Res(true, ctl1, m1)
    ensures s.run([Op(ReadPointer, AddOffset, post, off)] + rest, ctl, m) == s.run(rest, ctl1, m1)
  {
    PtrExec(s.env, Op(ReadPointer, AddOffset, post, off), ctl, m);
    Double(s, Op(ReadPointer, AddOffset, post, off), rest, ctl, m,
           m.(pointerValue := ReadWord(s.env.mem, Wrap64(m.readAddr + off))), ctl1, m1);
  }

  lemma PtrLen(s: Sem, off: u64, rest: seq<Op>, ctl: Ctl, m: Mach)
    requires Valid(s) && !ctl.black
    ensures var v := ReadWord(s.env.mem, Wrap64(m.readAddr + off));
            s.run([Op(ReadPointer, AddOffset, SetReadLenPointerValue, off)] + rest, ctl, m)
               == s.run(rest, ctl, m.(pointerValue := v, readLen := Min(v, m.readLen)))
  {
    var v := ReadWord(s.env.mem, Wrap64(m.readAddr + off));
    PtrThen(s, off, SetReadLenPointerValue, rest, ctl, m, ctl,
            m.(pointerValue := v, readLen := Min(v, m.readLen)));
  }

  lemma PtrAddr(s: Sem, off: u64, rest: seq<Op>, ctl: Ctl, m: Mach)
    requires Valid(s) && !ctl.black
    ensures var v := ReadWord(s.env.mem, Wrap64(m.readAddr + off));
            s.run([Op(ReadPointer, AddOffset, MovePointerValue, off)] + rest, ctl, m)
               == s.run(rest, ctl, m.(pointerValue := v, readAddr := v))
  {
    var v := ReadWord(s.env.mem, Wrap64(m.readAddr + off));
    PtrThen(s, off, MovePointerValue, rest, ctl, m, ctl, m.(pointerValue := v, readAddr := v));
  }

  lemma PtrBreak(s: Sem, off: u64, rest: seq<Op>, ctl: Ctl, m: Mach)
    requires Valid(s) && !ctl.black
    ensures var v := ReadWord(s.env.mem, Wrap64(m.readAddr + off));
            s.run([Op(ReadPointer, AddOffset, SetBreakCountPointerValue, off)] + rest, ctl, m)
               == s.run(rest, ctl.(breakCount := CapBreak(v)), m.(pointerValue := v))
  {
    var v := ReadWord(s.env.mem, Wrap64(m.readAddr + off));
    PtrThen(s, off, SetBreakCountPointerValue, rest, ctl, m, ctl.(breakCount := CapBreak(v)),
            m.(pointerValue := v));
  }
}
