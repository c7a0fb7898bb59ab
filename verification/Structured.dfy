/**
 Op lists as the builders make them: straight-line ops and paired FOR_BREAK loops. A big-step meaning,
 an exact step cost, and the proof that the interpreter's program counter, post-ops and loop registers
 implement both, whatever the ops do to the data.
 */
module Structured {
  import opened Ops
  import opened Machine
  import opened Interpreter

  datatype Stmt = Do(op: Op) | Loop(body: seq<Op>)

  const FOR: Op := Op(ForBreak, Skip, Skip, 0)

  /** A usable op: not SKIP or FOR_BREAK, and a filter is never fused with a post-op. */
  predicate Plain(op: Op) {
    !op.code.Skip? && !op.code.ForBreak? && !op.post.ForBreak? && (IsFilter(op.code) ==> op.post.Skip?)
  }

  predicate TopOp(op: Op) { Plain(op) && !op.code.SavePtrString? && !op.post.SavePtrString? }

  /** A loop body leaves the loop bound alone. */
  predicate BodyOp(op: Op) { Plain(op) && !SetsLoop(op.code) && !SetsLoop(op.post) }

  predicate Body(ops: seq<Op>) { forall i :: 0 <= i < |ops| ==> BodyOp(ops[i]) }

  predicate WfStmt(s: Stmt) {
    match s
    case Do(op) => TopOp(op)
    case Loop(body) => Body(body)
  }

  predicate Wf(p: seq<Stmt>) { forall i :: 0 <= i < |p| ==> WfStmt(p[i]) }

  function FlattenStmt(s: Stmt): seq<Op> {
    match s
    case Do(op) => [op]
    case Loop(body) => [FOR] + body + [FOR]
  }

  function Flatten(p: seq<Stmt>): seq<Op> {
    if p == [] then [] else FlattenStmt(p[0]) + Flatten(p[1..])
  }

  // ----- big-step meaning

  /** Where a piece of code leaves the machine. `Stop` ends the whole run. */
  datatype Outcome<M> = Go(ctl: Ctl, m: M) | Stop(ctl: Ctl, m: M, why: Status)

  ghost function EvalCode<M>(x: Executor<M>, code: Code, op: Op, ctl: Ctl, m: M): Outcome<M> {
    var r := x(code, op, ctl, m);
    if !r.ok then Stop(r.ctl, r.m, Returned)
    else if r.ctl.black then Stop(r.ctl, r.m, Blacklisted)
    else Go(r.ctl, r.m)
  }

  ghost function EvalOp<M>(x: Executor<M>, op: Op, ctl: Ctl, m: M): Outcome<M> {
    var r := EvalCode(x, op.code, op, ctl, m);
    if r.Stop? || op.post == Skip then r else EvalCode(x, op.post, op, r.ctl, r.m)
  }

  ghost function EvalOps<M>(x: Executor<M>, ops: seq<Op>, ctl: Ctl, m: M): Outcome<M>
    decreases |ops|
  {
    if ops == [] then Go(ctl, m)
    else
      var r := EvalOp(x, ops[0], ctl, m);
      if r.Stop? then r else EvalOps(x, ops[1..], r.ctl, r.m)
  }

  /** The loop registers before and after code that runs on. */
  ghost predicate KeepsLoop<M>(c: Ctl, r: Outcome<M>) {
    r.Go? ==> r.ctl.breakCount == c.breakCount && (r.ctl.loopCount == c.loopCount || r.ctl.loopCount == c.breakCount)
  }

  lemma OpKeepsLoop<M(!new)>(x: Executor<M>, op: Op, ctl: Ctl, m: M)
    requires Lawful(x) && BodyOp(op)
    ensures KeepsLoop(ctl, EvalOp(x, op, ctl, m))
  {
    var r := x(op.code, op, ctl, m);
    assert Law(op.code, ctl, r.ctl);
    assert Law(op.post, r.ctl, x(op.post, op, r.ctl, r.m).ctl);
  }

  lemma {:induction false} OpsKeepLoop<M(!new)>(x: Executor<M>, ops: seq<Op>, ctl: Ctl, m: M)
    requires Lawful(x) && Body(ops)
    ensures KeepsLoop(ctl, EvalOps(x, ops, ctl, m))
    decreases |ops|
  {
    if ops != [] {
      OpKeepsLoop(x, ops[0], ctl, m);
      var r := EvalOp(x, ops[0], ctl, m);
      if r.Go? { OpsKeepLoop(x, ops[1..], r.ctl, r.m); }
    }
  }

  /** The rest of a loop from the start of a turn; a count of 0 is one turn. */
  ghost function EvalTurns<M(!new)>(x: Executor<M>, body: seq<Op>, ctl: Ctl, m: M): Outcome<M>
    requires Lawful(x) && Body(body) && ctl.loopCount <= ctl.breakCount
    decreases ctl.breakCount - ctl.loopCount
  {
    OpsKeepLoop(x, body, ctl, m);
    var r := EvalOps(x, body, ctl, m);
    if r.Stop? then r
    else if r.ctl.loopCount >= r.ctl.breakCount then Go(r.ctl.(loopCount := 0, breakCount := 0), r.m)
    else EvalTurns(x, body, r.ctl.(loopCount := r.ctl.loopCount + 1), r.m)
  }

  function EnterLoop(ctl: Ctl): Ctl {
    if ctl.breakCount == 0 then ctl else ctl.(loopCount := 1)
  }

  ghost function EvalStmt<M(!new)>(x: Executor<M>, s: Stmt, ctl: Ctl, m: M): Outcome<M>
    requires Lawful(x) && WfStmt(s) && ctl.loopCount == 0
  {
    match s
    case Do(op) => EvalOp(x, op, ctl, m)
    case Loop(body) => EvalTurns(x, body, EnterLoop(ctl), m)
  }

  lemma {:induction false} TurnsReset<M(!new)>(x: Executor<M>, body: seq<Op>, ctl: Ctl, m: M)
    requires Lawful(x) && Body(body) && ctl.loopCount <= ctl.breakCount
    ensures var r := EvalTurns(x, body, ctl, m); r.Go? ==> r.ctl.loopCount == 0 && r.ctl.breakCount == 0
    decreases ctl.breakCount - ctl.loopCount
  {
    OpsKeepLoop(x, body, ctl, m);
    var r := EvalOps(x, body, ctl, m);
    if r.Go? && r.ctl.loopCount < r.ctl.breakCount {
      TurnsReset(x, body, r.ctl.(loopCount := r.ctl.loopCount + 1), r.m);
    }
  }

  /** Between statements no loop is open. */
  lemma StmtResets<M(!new)>(x: Executor<M>, s: Stmt, ctl: Ctl, m: M)
    requires Lawful(x) && WfStmt(s) && ctl.loopCount == 0
    ensures var r := EvalStmt(x, s, ctl, m); r.Go? ==> r.ctl.loopCount == 0
  {
    match s
    case Do(op) =>
      var r := x(op.code, op, ctl, m);
      assert Law(op.code, ctl, r.ctl);
      assert Law(op.post, r.ctl, x(op.post, op, r.ctl, r.m).ctl);
    case Loop(body) => TurnsReset(x, body, EnterLoop(ctl), m);
  }

  ghost function Eval<M(!new)>(x: Executor<M>, p: seq<Stmt>, ctl: Ctl, m: M): Outcome<M>
    requires Lawful(x) && Wf(p) && ctl.loopCount == 0
    decreases |p|
  {
    if p == [] then Go(ctl, m)
    else
      StmtResets(x, p[0], ctl, m);
      var r := EvalStmt(x, p[0], ctl, m);
      if r.Stop? then r else Eval(x, p[1..], r.ctl, r.m)
  }

  // ----- exact cost

  function OpCost(op: Op): nat { if op.post == Skip then 1 else 2 }

  function OpsCost(ops: seq<Op>): nat {
    if ops == [] then 0 else OpCost(ops[0]) + OpsCost(ops[1..])
  }

  ghost function TurnsCost<M(!new)>(x: Executor<M>, body: seq<Op>, ctl: Ctl, m: M): nat
    requires Lawful(x) && Body(body) && ctl.loopCount <= ctl.breakCount
    decreases ctl.breakCount - ctl.loopCount
  {
    OpsKeepLoop(x, body, ctl, m);
    var turn := OpsCost(body) + 1;
    var r := EvalOps(x, body, ctl, m);
    if r.Go? && r.ctl.loopCount < r.ctl.breakCount then
      turn + TurnsCost(x, body, r.ctl.(loopCount := r.ctl.loopCount + 1), r.m)
    else turn
  }

  ghost function StmtCost<M(!new)>(x: Executor<M>, s: Stmt, ctl: Ctl, m: M): nat
    requires Lawful(x) && WfStmt(s) && ctl.loopCount == 0
  {
    match s
    case Do(op) => OpCost(op)
    case Loop(body) => 1 + TurnsCost(x, body, EnterLoop(ctl), m)
  }

  /** The number of interpreter turns a program takes; if it stops early, a bound. */
  ghost function Cost<M(!new)>(x: Executor<M>, p: seq<Stmt>, ctl: Ctl, m: M): nat
    requires Lawful(x) && Wf(p) && ctl.loopCount == 0
    decreases |p|
  {
    if p == [] then 0
    else
      StmtResets(x, p[0], ctl, m);
      var r := EvalStmt(x, p[0], ctl, m);
      StmtCost(x, p[0], ctl, m) + if r.Go? then Cost(x, p[1..], r.ctl, r.m) else 0
  }

  // ----- the interpreter implements it

  ghost predicate Fits(code: Program, pc: nat, ops: seq<Op>) {
    && pc + |ops| <= |code.keys|
    && forall k :: pc <= k < pc + |ops| ==> code.keys[k] in code.table && code.table[code.keys[k]] == ops[k - pc]
  }

  lemma FitsParts(code: Program, pc: nat, a: seq<Op>, b: seq<Op>)
    requires Fits(code, pc, a + b)
    ensures Fits(code, pc, a) && Fits(code, pc + |a|, b)
  {
  }

  lemma FitsNext(code: Program, pc: nat, a: seq<Op>, b: seq<Op>) returns (next: nat)
    requires Fits(code, pc, a + b)
    ensures Fits(code, pc, a) && next == pc + |a| && Fits(code, next, b)
  {
    FitsParts(code, pc, a, b);
    next := pc + |a|;
  }

  lemma FitsMoved(code: Program, pc: nat, pc1: nat, ops: seq<Op>)
    requires Fits(code, pc, ops) && pc == pc1
    ensures Fits(code, pc1, ops)
  {
  }

  /** Nothing is pending: the next turn fetches. */
  ghost predicate Ready<M>(c: Cpu<M>) { c.postCode == Skip && !c.ctl.black }

  /** The run is where the big-step outcome says: past the code with nothing pending, or finished. */
  ghost predicate Reaches<M>(s: Config<M>, r: Outcome<M>, pc: nat) {
    match r
    case Go(ctl, m) => s.status == Live && s.cpu.pc == pc && Ready(s.cpu) && s.cpu.ctl == ctl && s.cpu.m == m
    case Stop(ctl, m, why) =>
      && s.status == why != Live && s.cpu.ctl == ctl && s.cpu.m == m
      && (why == Blacklisted ==> s.cpu.postCode == Skip)
  }

  lemma OpRuns<M(!new)>(f: Driver<M>, x: Executor<M>, code: Program, c: Cpu<M>, op: Op)
    requires Drives(f, x, code) && Lawful(x) && Fits(code, c.pc, [op]) && Plain(op) && Ready(c)
    ensures var s := Iterate(f, OpCost(op), Config(c, Live));
            Reaches(s, EvalOp(x, op, c.ctl, c.m), c.pc + 1) && s.cpu.loopIndex == c.loopIndex
  {
    assert code.keys[c.pc] in code.table;
    StepOnce(f, x, code, c);
    var s1 := Step(x, code, c);
    assert Law(op.code, c.ctl, x(op.code, op, c.ctl, c.m).ctl);
    if op.post != Skip {
      IterateCompose(f, 1, 1, Config(c, Live));
      if s1.status == Live {
        StepOnce(f, x, code, s1.cpu);
      } else {
        FinishedStays(f, 1, s1);
      }
    }
  }

  lemma {:induction false} OpsRun<M(!new)>(f: Driver<M>, x: Executor<M>, code: Program, c: Cpu<M>, ops: seq<Op>)
    requires Drives(f, x, code) && Lawful(x) && Fits(code, c.pc, ops) && Body(ops) && Ready(c)
    ensures var s := Iterate(f, OpsCost(ops), Config(c, Live));
            Reaches(s, EvalOps(x, ops, c.ctl, c.m), c.pc + |ops|) && s.cpu.loopIndex == c.loopIndex
    decreases |ops|
  {
    if ops != [] {
      assert ops == [ops[0]] + ops[1..];
      FitsParts(code, c.pc, [ops[0]], ops[1..]);
      OpRuns(f, x, code, c, ops[0]);
      var s1 := Iterate(f, OpCost(ops[0]), Config(c, Live));
      IterateCompose(f, OpCost(ops[0]), OpsCost(ops[1..]), Config(c, Live));
      if s1.status == Live {
        OpsRun(f, x, code, s1.cpu, ops[1..]);
      } else {
        FinishedStays(f, OpsCost(ops[1..]), s1);
      }
    }
  }

  lemma ForRuns<M(!new)>(f: Driver<M>, x: Executor<M>, code: Program, c: Cpu<M>)
    requires Drives(f, x, code) && Fits(code, c.pc, [FOR]) && Ready(c)
    ensures var s := Iterate(f, 1, Config(c, Live));
            && s.status == Live && Ready(s.cpu) && s.cpu.m == c.m
            && (s.cpu.pc, s.cpu.loopIndex, s.cpu.ctl) == ForBreakRegs(c.pc + 1, c.loopIndex, c.ctl)
  {
    assert code.keys[c.pc] in code.table;
    StepOnce(f, x, code, c);
  }

  /** From the start of a turn to past the closing FOR_BREAK. */
  lemma {:induction false} TurnsRun<M(!new)>(
    f: Driver<M>, x: Executor<M>, code: Program, c: Cpu<M>, body: seq<Op>)
    requires Drives(f, x, code) && Lawful(x) && Ready(c)
    requires Body(body) && Fits(code, c.pc, body + [FOR]) && c.ctl.loopCount <= c.ctl.breakCount
    requires c.ctl.loopCount == 0 ==> c.ctl.breakCount == 0
    requires c.ctl.loopCount > 0 ==> c.loopIndex == c.pc
    ensures Reaches(Iterate(f, TurnsCost(x, body, c.ctl, c.m), Config(c, Live)),
                    EvalTurns(x, body, c.ctl, c.m), c.pc + |body| + 1)
    decreases c.ctl.breakCount - c.ctl.loopCount
  {
    FitsParts(code, c.pc, body, [FOR]);
    OpsRun(f, x, code, c, body);
    OpsKeepLoop(x, body, c.ctl, c.m);
    var start := Config(c, Live);
    var s1 := Iterate(f, OpsCost(body), start);
    var rest := TurnsCost(x, body, c.ctl, c.m) - OpsCost(body);
    IterateCompose(f, OpsCost(body), rest, start);
    if s1.status != Live {
      FinishedStays(f, rest, s1);
    } else {
      ForRuns(f, x, code, s1.cpu);
      var s2 := Iterate(f, 1, s1);
      IterateCompose(f, 1, rest - 1, s1);
      if s1.cpu.ctl.loopCount < s1.cpu.ctl.breakCount {
        TurnsRun(f, x, code, s2.cpu, body);
      }
    }
  }

  /** The opening FOR_BREAK, then the turns. */
  lemma LoopRuns<M(!new)>(f: Driver<M>, x: Executor<M>, code: Program, c: Cpu<M>, body: seq<Op>)
    requires Drives(f, x, code) && Lawful(x) && Ready(c)
    requires Body(body) && c.ctl.loopCount == 0 && Fits(code, c.pc, [FOR] + (body + [FOR]))
    ensures Reaches(Iterate(f, 1 + TurnsCost(x, body, EnterLoop(c.ctl), c.m), Config(c, Live)),
                    EvalTurns(x, body, EnterLoop(c.ctl), c.m), c.pc + |body| + 2)
  {
    var next := FitsNext(code, c.pc, [FOR], body + [FOR]);
    var start, turns := Config(c, Live), TurnsCost(x, body, EnterLoop(c.ctl), c.m);
    ForRuns(f, x, code, c);
    var s1 := Iterate(f, 1, start);
    FitsMoved(code, next, s1.cpu.pc, body + [FOR]);
    TurnsRun(f, x, code, s1.cpu, body);
    IterateCompose(f, 1, turns, start);
  }

  lemma StmtRuns<M(!new)>(f: Driver<M>, x: Executor<M>, code: Program, c: Cpu<M>, s: Stmt)
    requires Drives(f, x, code) && Lawful(x) && Ready(c)
    requires WfStmt(s) && c.ctl.loopCount == 0 && Fits(code, c.pc, FlattenStmt(s))
    ensures Reaches(Iterate(f, StmtCost(x, s, c.ctl, c.m), Config(c, Live)), EvalStmt(x, s, c.ctl, c.m),
                    c.pc + |FlattenStmt(s)|)
  {
    match s
    case Do(op) => OpRuns(f, x, code, c, op);
    case Loop(body) =>
      assert [FOR] + body + [FOR] == [FOR] + (body + [FOR]);
      LoopRuns(f, x, code, c, body);
  }

  lemma WfRest(p: seq<Stmt>)
    requires Wf(p) && p != []
    ensures WfStmt(p[0]) && Wf(p[1..])
  {
  }

  lemma ReachesThen<M>(f: Driver<M>, s: Config<M>, n: nat, k: nat, r: Outcome<M>, pc: nat)
    requires Reaches(Iterate(f, k, Iterate(f, n, s)), r, pc)
    ensures Reaches(Iterate(f, n + k, s), r, pc)
  {
    IterateCompose(f, n, k, s);
  }

  lemma EvalUnfolds<M(!new)>(x: Executor<M>, p: seq<Stmt>, ctl: Ctl, m: M)
    requires Lawful(x) && Wf(p) && ctl.loopCount == 0 && p != []
    ensures var r := EvalStmt(x, p[0], ctl, m);
            && (r.Stop? ==> Eval(x, p, ctl, m) == r && Cost(x, p, ctl, m) == StmtCost(x, p[0], ctl, m))
            && (r.Go? ==>
                  && r.ctl.loopCount == 0
                  && Eval(x, p, ctl, m) == Eval(x, p[1..], r.ctl, r.m)
                  && Cost(x, p, ctl, m) == StmtCost(x, p[0], ctl, m) + Cost(x, p[1..], r.ctl, r.m))
  {
    StmtResets(x, p[0], ctl, m);
  }

  /**
   Every well-bracketed op list, from any state with nothing pending: after exactly `Cost` turns the
   interpreter stands behind the list in the big-step state, or has stopped where the big step stops.
   Nothing here depends on the step budget.
   */
  lemma {:induction false} ProgramRuns<M(!new)>(
    f: Driver<M>, x: Executor<M>, code: Program, c: Cpu<M>, p: seq<Stmt>)
    requires Drives(f, x, code) && Lawful(x) && Ready(c)
    requires Wf(p) && c.ctl.loopCount == 0 && Fits(code, c.pc, Flatten(p))
    ensures Reaches(Iterate(f, Cost(x, p, c.ctl, c.m), Config(c, Live)), Eval(x, p, c.ctl, c.m),
                    c.pc + |Flatten(p)|)
    decreases |p|, 1
  {
    if p != [] {
      var next := FirstRuns(f, x, code, c, p);
      EvalUnfolds(x, p, c.ctl, c.m);
      var n, r := StmtCost(x, p[0], c.ctl, c.m), EvalStmt(x, p[0], c.ctl, c.m);
      if r.Go? { RestRuns(f, x, code, c, p, n, r, next, Flatten(p[1..])); }
    }
  }

  /** The first statement, and where the rest lies. */
  lemma FirstRuns<M(!new)>(f: Driver<M>, x: Executor<M>, code: Program, c: Cpu<M>, p: seq<Stmt>) returns (next: nat)
    requires Drives(f, x, code) && Lawful(x) && Ready(c)
    requires Wf(p) && p != [] && c.ctl.loopCount == 0 && Fits(code, c.pc, Flatten(p))
    ensures Reaches(Iterate(f, StmtCost(x, p[0], c.ctl, c.m), Config(c, Live)), EvalStmt(x, p[0], c.ctl, c.m), next)
    ensures Wf(p[1..]) && Fits(code, next, Flatten(p[1..])) && next + |Flatten(p[1..])| == c.pc + |Flatten(p)|
  {
    WfRest(p);
    next := FitsNext(code, c.pc, FlattenStmt(p[0]), Flatten(p[1..]));
    StmtRuns(f, x, code, c, p[0]);
  }

  /** The induction step of `ProgramRuns`, behind a first statement that goes on. */
  lemma {:induction false} RestRuns<M(!new)>(
    f: Driver<M>, x: Executor<M>, code: Program, c: Cpu<M>, p: seq<Stmt>, n: nat, r: Outcome<M>, pc: nat, rest: seq<Op>)
    requires Drives(f, x, code) && Lawful(x) && r.Go? && r.ctl.loopCount == 0
    requires p != [] && Wf(p[1..]) && rest == Flatten(p[1..]) && Fits(code, pc, rest)
    requires Reaches(Iterate(f, n, Config(c, Live)), r, pc)
    ensures Reaches(Iterate(f, n + Cost(x, p[1..], r.ctl, r.m), Config(c, Live)), Eval(x, p[1..], r.ctl, r.m),
                    pc + |rest|)
    decreases |p|, 0
  {
    var s1 := Iterate(f, n, Config(c, Live));
    FitsMoved(code, pc, s1.cpu.pc, rest);
    ProgramRuns(f, x, code, s1.cpu, p[1..]);
    ReachesThen(f, Config(c, Live), n, Cost(x, p[1..], r.ctl, r.m), Eval(x, p[1..], r.ctl, r.m), pc + |rest|);
  }

  // ----- composing programs

  function Dos(ops: seq<Op>): (p: seq<Stmt>)
    ensures |p| == |ops| && forall i :: 0 <= i < |p| ==> p[i] == Do(ops[i])
  {
    seq(|ops|, i requires 0 <= i < |ops| => Do(ops[i]))
  }

  lemma {:induction false} FlattenDos(ops: seq<Op>)
    ensures Flatten(Dos(ops)) == ops
    decreases |ops|
  {
    if ops != [] {
      assert Dos(ops)[1..] == Dos(ops[1..]);
      FlattenDos(ops[1..]);
    }
  }

  lemma {:induction false} FlattenAppend(p: seq<Stmt>, q: seq<Stmt>)
    ensures Flatten(p + q) == Flatten(p) + Flatten(q)
    decreases |p|
  {
    if p == [] {
      assert p + q == q;
    } else {
      assert (p + q)[0] == p[0] && (p + q)[1..] == p[1..] + q;
      FlattenAppend(p[1..], q);
    }
  }

  lemma {:induction false} EvalResets<M(!new)>(x: Executor<M>, p: seq<Stmt>, ctl: Ctl, m: M)
    requires Lawful(x) && Wf(p) && ctl.loopCount == 0
    ensures var r := Eval(x, p, ctl, m); r.Go? ==> r.ctl.loopCount == 0
    decreases |p|
  {
    if p != [] {
      StmtResets(x, p[0], ctl, m);
      var r := EvalStmt(x, p[0], ctl, m);
      if r.Go? { EvalResets(x, p[1..], r.ctl, r.m); }
    }
  }

  lemma {:induction false} EvalAppend<M(!new)>(x: Executor<M>, p: seq<Stmt>, q: seq<Stmt>, ctl: Ctl, m: M)
    requires Lawful(x) && Wf(p) && Wf(q) && ctl.loopCount == 0
    ensures Wf(p + q)
    ensures var r := Eval(x, p, ctl, m);
            && (r.Stop? ==> Eval(x, p + q, ctl, m) == r && Cost(x, p + q, ctl, m) == Cost(x, p, ctl, m))
            && (r.Go? ==>
                  && r.ctl.loopCount == 0
                  && Eval(x, p + q, ctl, m) == Eval(x, q, r.ctl, r.m)
                  && Cost(x, p + q, ctl, m) == Cost(x, p, ctl, m) + Cost(x, q, r.ctl, r.m))
    decreases |p|
  {
    if p == [] {
      assert p + q == q;
    } else {
      assert (p + q)[0] == p[0] && (p + q)[1..] == p[1..] + q;
      StmtResets(x, p[0], ctl, m);
      var r := EvalStmt(x, p[0], ctl, m);
      if r.Go? { EvalAppend(x, p[1..], q, r.ctl, r.m); }
    }
  }

  lemma {:induction false} EvalDos<M(!new)>(x: Executor<M>, ops: seq<Op>, ctl: Ctl, m: M)
    requires Lawful(x) && Wf(Dos(ops)) && ctl.loopCount == 0
    ensures Eval(x, Dos(ops), ctl, m) == EvalOps(x, ops, ctl, m)
    ensures EvalOps(x, ops, ctl, m).Go? ==> Cost(x, Dos(ops), ctl, m) == OpsCost(ops)
    ensures Cost(x, Dos(ops), ctl, m) <= OpsCost(ops)
    decreases |ops|
  {
    if ops != [] {
      assert Dos(ops)[0] == Do(ops[0]) && Dos(ops)[1..] == Dos(ops[1..]);
      StmtResets(x, Do(ops[0]), ctl, m);
      var r := EvalOp(x, ops[0], ctl, m);
      if r.Go? { EvalDos(x, ops[1..], r.ctl, r.m); }
    }
  }

  /** One turn of a loop whose body is known to go on. */
  lemma TurnGoes<M(!new)>(x: Executor<M>, body: seq<Op>, ctl: Ctl, m: M, ctl1: Ctl, m1: M)
    requires Lawful(x) && Body(body) && ctl.loopCount <= ctl.breakCount
    requires EvalOps(x, body, ctl, m) == Go(ctl1, m1)
    ensures ctl1.loopCount >= ctl1.breakCount ==>
              && EvalTurns(x, body, ctl, m) == Go(ctl1.(loopCount := 0, breakCount := 0), m1)
              && TurnsCost(x, body, ctl, m) == OpsCost(body) + 1
    ensures ctl1.loopCount < ctl1.breakCount ==>
              var ctl2 := ctl1.(loopCount := ctl1.loopCount + 1);
              && EvalTurns(x, body, ctl, m) == EvalTurns(x, body, ctl2, m1)
              && TurnsCost(x, body, ctl, m) == OpsCost(body) + 1 + TurnsCost(x, body, ctl2, m1)
  {
    OpsKeepLoop(x, body, ctl, m);
  }
}
