/** How often a paired FOR_BREAK loop runs its body, for every body that cannot stop the run or break the loop. */
module Loops {
  import opened Bytes
  import opened Ops
  import opened Machine
  import opened Structured
  import opened ArgTypes
  import opened Sections

  /** `g` applied `n` times. */
  ghost function Power<M>(g: M -> M, n: nat, m: M): M { if n == 0 then m else Power(g, n - 1, g(m)) }

  /** While nothing is blacklisted the body always goes on, as `g` on the data, and leaves the control alone. */
  ghost predicate ActsAs<M(!new)>(x: Executor<M>, body: seq<Op>, g: M -> M) {
    forall c: Ctl, d: M {:trigger EvalOps(x, body, c, d)} :: !c.black ==> EvalOps(x, body, c, d) == Go(c, g(d))
  }

  /** From any turn on. */
  lemma {:induction false} TurnsLeft<M(!new)>(x: Executor<M>, body: seq<Op>, g: M -> M, ctl: Ctl, m: M, left: nat)
    requires Lawful(x) && Body(body) && ActsAs(x, body, g) && !ctl.black && ctl.loopCount <= ctl.breakCount
    requires if ctl.breakCount == 0 then left == 1 else left == ctl.breakCount - ctl.loopCount + 1
    ensures EvalTurns(x, body, ctl, m) == Go(ctl.(loopCount := 0, breakCount := 0), Power(g, left, m))
    ensures TurnsCost(x, body, ctl, m) == left * (OpsCost(body) + 1)
    decreases left
  {
    var next := g(m);
    assert EvalOps(x, body, ctl, m) == Go(ctl, next);
    TurnGoes(x, body, ctl, m, ctl, next);
    if ctl.loopCount < ctl.breakCount {
      TurnsLeft(x, body, g, ctl.(loopCount := ctl.loopCount + 1), next, left - 1);
      assert left * (OpsCost(body) + 1) == (OpsCost(body) + 1) + (left - 1) * (OpsCost(body) + 1);
    } else {
      assert Power(g, 1, m) == Power(g, 0, next);
    }
  }

  /**
   Paired FOR_BREAK ops, for any count: the body runs exactly max(1, min(32, n)) times, at an exact cost, and
   the loop registers are zero afterwards.
   */
  lemma LoopRunsExactly<M(!new)>(x: Executor<M>, body: seq<Op>, g: M -> M, ctl: Ctl, m: M, n: u64)
    requires Lawful(x) && Body(body) && ActsAs(x, body, g)
    requires !ctl.black && ctl.loopCount == 0 && ctl.breakCount == CapBreak(n)
    ensures EvalStmt(x, Loop(body), ctl, m) == Go(ctl.(breakCount := 0), Power(g, Turns(n), m))
    ensures StmtCost(x, Loop(body), ctl, m) == 1 + Turns(n) * (OpsCost(body) + 1)
  {
    TurnsLeft(x, body, g, EnterLoop(ctl), m, Turns(n));
  }

  // ----- which bodies those are

  /** The interpreter never stops at this code, and the code leaves loop registers and blacklist flag alone. */
  predicate SteadyCode(code: Code, op: Op) {
    && !SetsLoop(code) && !IsFilter(code) && !code.ForBreak? && !code.SavePtrString?
    && (code.ReadReg? ==> op.pre == SetRegIndex && Wrap8(op.value) < REG_ARM64_MAX)
  }

  predicate Steady(op: Op) {
    !op.code.Skip? && SteadyCode(op.code, op) && SteadyCode(op.post, op)
  }

  predicate AllSteady(ops: seq<Op>) { forall i :: 0 <= i < |ops| ==> Steady(ops[i]) }

  function CodeData(env: Env, code: Code, op: Op, m: Mach): Mach { Exec(env, code, op, Ctl(0, 0, false), m).m }

  function OpData(env: Env, op: Op, m: Mach): Mach {
    var a := CodeData(env, op.code, op, m);
    if op.post == Skip then a else CodeData(env, op.post, op, a)
  }

  /** What a list of steady ops does to the data, whatever the control. */
  function OpsData(env: Env, ops: seq<Op>, m: Mach): Mach
    decreases |ops|
  {
    if ops == [] then m else OpsData(env, ops[1..], OpData(env, ops[0], m))
  }

  lemma SteadyExec(env: Env, code: Code, op: Op, ctl: Ctl, m: Mach)
    requires SteadyCode(code, op)
    ensures Exec(env, code, op, ctl, m) == Res(true, ctl, CodeData(env, code, op, m))
  {
  }

  lemma {:induction false} SteadyRuns(env: Env, x: Executor<Mach>, ops: seq<Op>, ctl: Ctl, m: Mach)
    requires Runs(x, env) && AllSteady(ops) && !ctl.black
    ensures EvalOps(x, ops, ctl, m) == Go(ctl, OpsData(env, ops, m))
    decreases |ops|
  {
    if ops != [] {
      var op := ops[0];
      var a := CodeData(env, op.code, op, m);
      SteadyExec(env, op.code, op, ctl, m);
      SteadyExec(env, op.post, op, ctl, a);
      SteadyRuns(env, x, ops[1..], ctl, OpData(env, op, m));
    }
  }

  /** Every loop over steady ops, in every environment and from every state. */
  lemma SteadyLoopRuns(env: Env, body: seq<Op>, ctl: Ctl, m: Mach, n: u64)
    requires AllSteady(body) && Lawful(ExecOf(env)) && Body(body)
    requires !ctl.black && ctl.loopCount == 0 && ctl.breakCount == CapBreak(n)
    ensures EvalStmt(ExecOf(env), Loop(body), ctl, m)
         == Go(ctl.(breakCount := 0), Power(d => OpsData(env, body, d), Turns(n), m))
    ensures StmtCost(ExecOf(env), Loop(body), ctl, m) == 1 + Turns(n) * (OpsCost(body) + 1)
  {
    var x := ExecOf(env);
    var g := d => OpsData(env, body, d);
    ExecOfRuns(env);
    forall c: Ctl, d: Mach | !c.black ensures EvalOps(x, body, c, d) == Go(c, g(d)) {
      SteadyRuns(env, x, body, c, d);
    }
    LoopRunsExactly(x, body, g, ctl, m, n);
  }

  lemma SteadyVector(rest: seq<Op>)
    requires AllSteady(rest)
    ensures AllSteady(VectorOps(rest))
  {
  }

  lemma SteadyLocate(rest: seq<Op>)
    requires AllSteady(rest)
    ensures AllSteady(LocateOps(rest))
  {
  }

  lemma SteadyBuffer(rest: seq<Op>)
    requires AllSteady(rest)
    ensures AllSteady(BufferOps(rest))
  {
  }

  lemma IovecBodyIsSteady()
    ensures AllSteady(IovecBody()) && Body(IovecBody()) && OpsCost(IovecBody()) == 11
  {
    SteadyBuffer([]);
    SteadyLocate(BufferOps([]));
    SteadyVector(LocateOps(BufferOps([])));
    LoopBodiesAreBodies();
    LoopCosts();
  }

  /** The loop over iovecs: max(1, min(32, n)) turns of twelve, with or without room left in the buffer. */
  lemma IovecLoopRunsExactly(env: Env, ctl: Ctl, m: Mach, n: u64)
    requires !ctl.black && ctl.loopCount == 0 && ctl.breakCount == CapBreak(n)
    ensures Lawful(ExecOf(env)) && Body(IovecBody())
    ensures EvalStmt(ExecOf(env), Loop(IovecBody()), ctl, m)
         == Go(ctl.(breakCount := 0), Power(d => OpsData(env, IovecBody(), d), Turns(n), m))
    ensures StmtCost(ExecOf(env), Loop(IovecBody()), ctl, m) == 1 + 12 * Turns(n)
  {
    ExecIsLawful(env);
    IovecBodyIsSteady();
    SteadyLoopRuns(env, IovecBody(), ctl, m, n);
  }
}
