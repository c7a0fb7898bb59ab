/**
 Read-address expressions such as `sp+0x20-0x8.+8`: their text, the ops they compile to
 (`ParseArgType` and `GetPointArg`), and the address those ops compute.
 */
module ReadAddress {
  import opened Bytes
  import opened Memory
  import opened Ops
  import opened Machine
  import opened Frames
  import opened Effects

  // ----- text

  /** A token with its sign, or a `.`, which follows the pointer found so far. */
  datatype Item = Deref | Term(minus: bool, token: string)

  predicate Sign(c: char) { c == '+' || c == '-' }

  predicate Special(c: char) { Sign(c) || c == '.' }

  /** Empty tokens count for nothing. */
  function Flush(minus: bool, token: string): seq<Item> {
    if token == "" then [] else [Term(minus, token)]
  }

  /** The expression read character by character. A sign holds for the token behind it, within a segment. */
  function Lex(text: string, minus: bool, token: string): seq<Item>
    decreases |text|
  {
    if text == "" then Flush(minus, token)
    else if text[0] == '.' then Flush(minus, token) + [Deref] + Lex(text[1..], false, "")
    else if Sign(text[0]) then Flush(minus, token) + Lex(text[1..], text[0] == '-', "")
    else Lex(text[1..], minus, token + [text[0]])
  }

  predicate Bare(token: string) { forall i :: 0 <= i < |token| ==> !Special(token[i]) }

  lemma {:induction false} LexToken(text: string, minus: bool, token: string, rest: string)
    requires Bare(text)
    ensures Lex(text + rest, minus, token) == Lex(rest, minus, token + text)
    decreases |text|
  {
    if text == "" {
      assert text + rest == rest && token + text == token;
    } else {
      assert (text + rest)[1..] == text[1..] + rest;
      LexToken(text[1..], minus, token + [text[0]], rest);
      assert token + [text[0]] + text[1..] == token + text;
    }
  }

  /** Canonical text: every token with its sign in front. */
  function Print(items: seq<Item>): string {
    if items == [] then ""
    else
      (match items[0]
       case Deref => "."
       case Term(minus, token) => (if minus then "-" else "+") + token)
      + Print(items[1..])
  }

  predicate Printable(items: seq<Item>) {
    forall i :: 0 <= i < |items| && items[i].Term? ==> items[i].token != "" && Bare(items[i].token)
  }

  /** Reading what was printed gives the expression back, behind any pending token. */
  lemma {:induction false} LexPrint(items: seq<Item>, minus: bool, token: string)
    requires Printable(items)
    ensures Lex(Print(items), minus, token) == Flush(minus, token) + items
    decreases |items|
  {
    if items != [] {
      var rest := items[1..];
      var text := Print(items);
      assert items == [items[0]] + rest;
      match items[0]
      case Deref =>
        assert text[1..] == Print(rest);
        LexPrint(rest, false, "");
      case Term(m, t) =>
        assert text[1..] == t + Print(rest);
        LexToken(t, m, "", Print(rest));
        assert "" + t == t;
        LexPrint(rest, m, t);
    }
  }

  // ----- compilation

  /** What `ParseUint` and the register table make of a token. */
  datatype Token = Const(v: u64) | Reg(r: u32) | Bad

  type Classifier = string -> Token

  datatype Action = Follow | Offset(minus: bool, v: u64) | Register(minus: bool, r: u32) | Invalid

  function Resolve(item: Item, classify: Classifier): Action {
    match item
    case Deref => Follow
    case Term(minus, token) =>
      match classify(token)
      case Const(v) => Offset(minus, v)
      case Reg(r) => if r < REG_ARM64_MAX then Register(minus, r) else Invalid
      case Bad => Invalid
  }

  function ResolveAll(items: seq<Item>, classify: Classifier): (actions: seq<Action>)
    ensures |actions| == |items|
  {
    seq(|items|, i requires 0 <= i < |items| => Resolve(items[i], classify))
  }

  /** An action needs a known token and, for an offset, an earlier register; the program panics otherwise. */
  predicate Acceptable(a: Action, hasFirst: bool) { !a.Invalid? && (a.Offset? ==> hasFirst) }

  /** A register behind the first is moved into the address, then added to it or subtracted from it. */
  function ActionOps(a: Action, hasFirst: bool): seq<OpConfig>
    requires Acceptable(a, hasFirst)
  {
    match a
    case Follow => [OPC_READ_POINTER, OPC_MOVE_POINTER_VALUE]
    case Offset(minus, v) => [NewValue(if minus then OPC_SUB_OFFSET else OPC_ADD_OFFSET, v)]
    case Register(minus, r) =>
      if !hasFirst then [ReadMoveReg(r)] else [ReadMoveReg(r), if minus then OPC_SUB_REG else OPC_ADD_REG]
  }

  predicate AllAcceptable(actions: seq<Action>, hasFirst: bool) {
    actions == []
    || (Acceptable(actions[0], hasFirst) && AllAcceptable(actions[1..], hasFirst || actions[0].Register?))
  }

  function ActionsOps(actions: seq<Action>, hasFirst: bool): seq<OpConfig>
    requires AllAcceptable(actions, hasFirst)
  {
    if actions == [] then []
    else ActionOps(actions[0], hasFirst) + ActionsOps(actions[1..], hasFirst || actions[0].Register?)
  }

  /** The whole expression ends by saving the address. */
  function AddressOps(actions: seq<Action>): seq<OpConfig>
    requires AllAcceptable(actions, false)
  {
    ActionsOps(actions, false) + [OPC_SAVE_ADDR]
  }

  // ----- the token loop

  /** `strings.IndexAny(v, "+-")`, with the length for -1. */
  function IndexSign(v: string): (i: nat)
    ensures i <= |v| && (i < |v| ==> Sign(v[i])) && forall j :: 0 <= j < i ==> !Sign(v[j])
  {
    if v == "" || Sign(v[0]) then 0 else 1 + IndexSign(v[1..])
  }

  /** `strings.Split(text, ".")`. */
  function Split(text: string): (segments: seq<string>)
    ensures |segments| > 0
    ensures forall i :: 0 <= i < |segments| ==> '.' !in segments[i]
  {
    if text == "" then [""]
    else if text[0] == '.' then [""] + Split(text[1..])
    else
      var s := Split(text[1..]);
      [[text[0]] + s[0]] + s[1..]
  }

  /** The segments read one after the other, as the loop over them does. */
  function LexSegments(segments: seq<string>): seq<Item>
    requires segments != []
  {
    Lex(segments[0], false, "")
    + if |segments| == 1 then [] else [Deref] + LexSegments(segments[1..])
  }

  lemma {:induction false} LexSegment(head: string, rest: string, minus: bool, token: string)
    requires '.' !in head
    ensures Lex(head + "." + rest, minus, token) == Lex(head, minus, token) + [Deref] + Lex(rest, false, "")
    decreases |head|
  {
    var whole := head + "." + rest;
    if head == "" {
      assert whole[1..] == rest;
    } else {
      assert whole[1..] == head[1..] + "." + rest;
      if Sign(head[0]) {
        LexSegment(head[1..], rest, head[0] == '-', "");
      } else {
        LexSegment(head[1..], rest, minus, token + [head[0]]);
      }
    }
  }

  function Join(segments: seq<string>): string
    requires segments != []
  {
    if |segments| == 1 then segments[0] else segments[0] + "." + Join(segments[1..])
  }

  lemma {:induction false} SplitJoins(text: string)
    ensures Join(Split(text)) == text
  {
    if text != "" {
      SplitJoins(text[1..]);
      var s := Split(text[1..]);
      if text[0] == '.' {
        assert Split(text)[1..] == s;
      } else if |s| > 1 {
        assert Split(text)[1..] == s[1..];
        assert [text[0]] + (s[0] + "." + Join(s[1..])) == ([text[0]] + s[0]) + "." + Join(s[1..]);
      }
    }
  }

  lemma {:induction false} LexJoin(segments: seq<string>)
    requires segments != [] && forall i :: 0 <= i < |segments| ==> '.' !in segments[i]
    ensures Lex(Join(segments), false, "") == LexSegments(segments)
    decreases |segments|
  {
    if |segments| > 1 {
      LexJoin(segments[1..]);
      LexSegment(segments[0], Join(segments[1..]), false, "");
    }
  }

  /** Splitting at the dots first reads the same expression. */
  lemma LexSplit(text: string)
    ensures Lex(text, false, "") == LexSegments(Split(text))
  {
    SplitJoins(text);
    LexJoin(Split(text));
  }

  /** One round of the token loop: the text up to the next sign is a token. */
  lemma LexRound(v: string, minus: bool)
    requires '.' !in v
    ensures var i := IndexSign(v);
            Lex(v, minus, "") == Flush(minus, v[..i]) + if i == |v| then [] else Lex(v[i + 1..], v[i] == '-', "")
  {
    var i := IndexSign(v);
    assert Bare(v[..i]);
    LexToken(v[..i], minus, "", v[i..]);
    assert v == v[..i] + v[i..] && "" + v[..i] == v[..i];
    if i < |v| { assert v[i..][1..] == v[i + 1..]; }
  }

  /** The sign the loop appends to a segment changes nothing. */
  lemma {:induction false} LexPlus(v: string, minus: bool, token: string)
    requires '.' !in v
    ensures Lex(v + "+", minus, token) == Lex(v, minus, token)
    decreases |v|
  {
    var w := v + "+";
    if v == "" {
      assert w[1..] == "";
    } else {
      assert w[1..] == v[1..] + "+";
      if Sign(v[0]) {
        LexPlus(v[1..], v[0] == '-', "");
      } else {
        LexPlus(v[1..], minus, token + [v[0]]);
      }
    }
  }

  // ----- the state of the loop

  /** `ok` is false once the program has panicked. */
  datatype Compiled = Compiled(ok: bool, hasFirst: bool, ops: seq<OpConfig>)

  function Compile(c: Compiled, a: Action): Compiled {
    if !c.ok || !Acceptable(a, c.hasFirst) then c.(ok := false)
    else Compiled(true, c.hasFirst || a.Register?, c.ops + ActionOps(a, c.hasFirst))
  }

  function CompileAll(c: Compiled, actions: seq<Action>): Compiled
    decreases |actions|
  {
    if actions == [] then c else CompileAll(Compile(c, actions[0]), actions[1..])
  }

  lemma {:induction false} CompileAllAppend(c: Compiled, a: seq<Action>, b: seq<Action>)
    ensures CompileAll(c, a + b) == CompileAll(CompileAll(c, a), b)
    decreases |a|
  {
    if a == [] {
      assert a + b == b;
    } else {
      assert (a + b)[1..] == a[1..] + b;
      CompileAllAppend(Compile(c, a[0]), a[1..], b);
    }
  }

  lemma {:induction false} CompileFails(c: Compiled, actions: seq<Action>)
    requires !c.ok
    ensures CompileAll(c, actions) == c
    decreases |actions|
  {
    if actions != [] { CompileFails(c, actions[1..]); }
  }

  /** The accumulated list is the concatenation of what the actions compile to, and panics are exact. */
  lemma {:induction false} CompileAllMeans(c: Compiled, actions: seq<Action>)
    requires c.ok
    ensures CompileAll(c, actions).ok == AllAcceptable(actions, c.hasFirst)
    ensures AllAcceptable(actions, c.hasFirst) ==>
              CompileAll(c, actions).ops == c.ops + ActionsOps(actions, c.hasFirst)
    decreases |actions|
  {
    if actions != [] {
      var c1 := Compile(c, actions[0]);
      if c1.ok {
        CompileAllMeans(c1, actions[1..]);
      } else {
        CompileFails(c1, actions[1..]);
      }
    }
  }

  function CompileItems(c: Compiled, items: seq<Item>, classify: Classifier): Compiled {
    CompileAll(c, ResolveAll(items, classify))
  }

  lemma CompileItemsAppend(c: Compiled, a: seq<Item>, b: seq<Item>, classify: Classifier)
    ensures CompileItems(c, a + b, classify) == CompileItems(CompileItems(c, a, classify), b, classify)
  {
    assert ResolveAll(a + b, classify) == ResolveAll(a, classify) + ResolveAll(b, classify);
    CompileAllAppend(c, ResolveAll(a, classify), ResolveAll(b, classify));
  }

  lemma CompileItem(c: Compiled, item: Item, classify: Classifier)
    ensures CompileItems(c, [item], classify) == Compile(c, Resolve(item, classify))
  {
    var actions := ResolveAll([item], classify);
    var first := Compile(c, actions[0]);
    assert actions[1..] == [] && CompileAll(first, []) == first;
  }

  /** One token; returns false where the program panics. */
  method CompileToken(c: Compiled, lastOp: char, token: string, classify: Classifier) returns (r: Compiled)
    requires c.ok && token != ""
    ensures !r.ok ==> !CompileItems(c, [Term(lastOp == '-', token)], classify).ok
    ensures r.ok ==> r == CompileItems(c, [Term(lastOp == '-', token)], classify)
  {
    CompileItem(c, Term(lastOp == '-', token), classify);
    match classify(token)
    case Const(value) =>
      if !c.hasFirst { return c.(ok := false); }
      if lastOp == '-' {
        r := c.(ops := c.ops + [NewValue(OPC_SUB_OFFSET, value)]);
      } else {
        r := c.(ops := c.ops + [NewValue(OPC_ADD_OFFSET, value)]);
      }
    case Reg(index) =>
      if index >= REG_ARM64_MAX { return c.(ok := false); }
      var ops := c.ops + [ReadMoveReg(index)];
      if c.hasFirst {
        ops := ops + (if lastOp == '-' then [OPC_SUB_REG] else [OPC_ADD_REG]);
      }
      r := Compiled(true, true, ops);
      assert c.ops + [ReadMoveReg(index)] + [if lastOp == '-' then OPC_SUB_REG else OPC_ADD_REG]
          == c.ops + [ReadMoveReg(index), if lastOp == '-' then OPC_SUB_REG else OPC_ADD_REG];
    case Bad =>
      return c.(ok := false);
  }

  lemma FailureStays(c: Compiled, a: seq<Item>, b: seq<Item>, classify: Classifier)
    requires !CompileItems(c, a, classify).ok
    ensures !CompileItems(c, a + b, classify).ok
  {
    CompileItemsAppend(c, a, b, classify);
    CompileFails(CompileItems(c, a, classify), ResolveAll(b, classify));
  }

  lemma CompileNone(c: Compiled, classify: Classifier)
    ensures CompileItems(c, [], classify) == c
  {
    assert ResolveAll([], classify) == [];
  }

  /** The token loop over one segment; a result that is not `ok` is a panic. */
  method CompileSegment(c: Compiled, segment: string, classify: Classifier) returns (r: Compiled)
    requires c.ok && '.' !in segment
    ensures r.ok == CompileItems(c, Lex(segment, false, ""), classify).ok
    ensures r.ok ==> r == CompileItems(c, Lex(segment, false, ""), classify)
  {
    r := c;
    var v := segment + "+";
    var lastOp := ' ';
    LexPlus(segment, false, "");
    ghost var goal := CompileItems(c, Lex(segment, false, ""), classify);
    while true
      invariant r.ok && '.' !in v && (v != "" ==> v[|v| - 1] == '+')
      invariant CompileItems(r, Lex(v, lastOp == '-', ""), classify) == goal
      decreases |v|
    {
      var i := IndexSign(v);
      LexRound(v, lastOp == '-');
      if i == |v| {
        CompileNone(r, classify);
        return;
      }
      var op, token, tail := v[i], v[..i], v[i + 1..];
      ghost var items, rest := Flush(lastOp == '-', token), Lex(tail, op == '-', "");
      CompileItemsAppend(r, items, rest, classify);
      if token != "" {
        var next := CompileToken(r, lastOp, token, classify);
        if !next.ok {
          FailureStays(r, items, rest, classify);
          return next;
        }
        r := next;
      } else {
        CompileNone(r, classify);
      }
      v, lastOp := tail, op;
    }
  }

  /** The segment at position `k`, with the dot in front of it. */
  function LexPart(segment: string, k: nat): seq<Item> {
    (if k > 0 then [Deref] else []) + Lex(segment, false, "")
  }

  function LexRest(segments: seq<string>, k: nat): seq<Item>
    requires k <= |segments|
    decreases |segments| - k
  {
    if k == |segments| then [] else LexPart(segments[k], k) + LexRest(segments, k + 1)
  }

  lemma {:induction false} LexRestIsTail(segments: seq<string>, k: nat)
    requires k < |segments|
    ensures LexRest(segments, k) == (if k > 0 then [Deref] else []) + LexSegments(segments[k..])
    decreases |segments| - k
  {
    if k + 1 < |segments| {
      LexRestIsTail(segments, k + 1);
      assert segments[k..][1..] == segments[k + 1..];
    }
  }

  /** One round of the loop over the segments. */
  method CompilePart(c: Compiled, segment: string, k: nat, classify: Classifier) returns (r: Compiled)
    requires c.ok && '.' !in segment
    ensures r.ok == CompileItems(c, LexPart(segment, k), classify).ok
    ensures r.ok ==> r == CompileItems(c, LexPart(segment, k), classify)
  {
    ghost var items := Lex(segment, false, "");
    r := c;
    if k > 0 {
      r := c.(ops := c.ops + [OPC_READ_POINTER, OPC_MOVE_POINTER_VALUE]);
      CompileItem(c, Deref, classify);
      CompileItemsAppend(c, [Deref], items, classify);
    } else {
      assert [] + items == items;
    }
    if segment == "" {
      CompileNone(r, classify);
      return;
    }
    r := CompileSegment(r, segment, classify);
  }

  /** The ops a text compiles to; None is a panic. */
  function ReadOps(text: string, classify: Classifier): Option<seq<OpConfig>> {
    var actions := ResolveAll(Lex(text, false, ""), classify);
    if AllAcceptable(actions, false) then Some(AddressOps(actions)) else None
  }

  /**
   The read-address compiler: split at the dots, then the token loop per segment, then SAVE_ADDR. It panics
   exactly on an unknown token or a constant before the first register, and otherwise compiles the
   expression `Lex` reads.
   */
  method CompileReadOp(text: string, classify: Classifier) returns (r: Option<seq<OpConfig>>)
    ensures r == ReadOps(text, classify)
  {
    var segments := Split(text);
    var c := Compiled(true, false, []);
    ghost var actions := ResolveAll(Lex(text, false, ""), classify);
    ghost var goal := CompileAll(c, actions);
    LexSplit(text);
    LexRestIsTail(segments, 0);
    assert segments[0..] == segments && [] + LexSegments(segments) == LexSegments(segments);
    CompileAllMeans(c, actions);
    assert goal.ok ==> goal.ops == ActionsOps(actions, false);
    for k := 0 to |segments|
      invariant c.ok && CompileItems(c, LexRest(segments, k), classify) == goal
    {
      ghost var part, rest := LexPart(segments[k], k), LexRest(segments, k + 1);
      var next := CompilePart(c, segments[k], k, classify);
      if !next.ok {
        FailureStays(c, part, rest, classify);
        return None;
      }
      CompileItemsAppend(c, part, rest, classify);
      c := next;
    }
    assert LexRest(segments, |segments|) == [];
    CompileNone(c, classify);
    return Some(c.ops + [OPC_SAVE_ADDR]);
  }

  // ----- what the ops compute

  /** `value` added to or subtracted from an address, modulo 2^64. */
  function Move(addr: u64, minus: bool, value: u64): u64 {
    if minus then Wrap64(addr - value) else Wrap64(addr + value)
  }

  /** One action as the expression reads. */
  function Intended(env: Env, a: Action, hasFirst: bool, addr: u64): u64 {
    match a
    case Follow => ReadWord(env.mem, addr)
    case Offset(minus, v) => Move(addr, minus, v)
    case Register(minus, r) =>
      if r >= REG_ARM64_MAX then addr else if hasFirst then Move(addr, minus, env.regs[r]) else env.regs[r]
    case Invalid => addr
  }

  /** One action as compiled: a later register has replaced the address before it is added or subtracted. */
  function Coded(env: Env, a: Action, hasFirst: bool, addr: u64): u64 {
    match a
    case Register(minus, r) =>
      if r >= REG_ARM64_MAX then addr else if hasFirst then Move(env.regs[r], minus, env.regs[r]) else env.regs[r]
    case _ => Intended(env, a, hasFirst, addr)
  }

  /** The meaning of an expression: the address it denotes. */
  function Meaning(env: Env, actions: seq<Action>, hasFirst: bool, addr: u64): u64
    decreases |actions|
  {
    if actions == [] then addr
    else Meaning(env, actions[1..], hasFirst || actions[0].Register?, Intended(env, actions[0], hasFirst, addr))
  }

  function Computed(env: Env, actions: seq<Action>, hasFirst: bool, addr: u64): u64
    decreases |actions|
  {
    if actions == [] then addr
    else Computed(env, actions[1..], hasFirst || actions[0].Register?, Coded(env, actions[0], hasFirst, addr))
  }

  /** `reg_value` after an action: the last register read. */
  function LastRegister(env: Env, a: Action, was: u64): u64 {
    if a.Register? && a.r < REG_ARM64_MAX then env.regs[a.r] else was
  }

  function FinalRegister(env: Env, actions: seq<Action>, was: u64): u64
    decreases |actions|
  {
    if actions == [] then was else FinalRegister(env, actions[1..], LastRegister(env, actions[0], was))
  }

  /** Address work only moves `read_addr` and the value registers. */
  ghost predicate OnlyMoves(m: Mach, m1: Mach) { SameRecord(m, m1) && m1.strLen == m.strLen }

  lemma ActionRuns(s: Sem, a: Action, hasFirst: bool, rest: seq<Op>, ctl: Ctl, m: Mach) returns (m1: Mach)
    requires Valid(s) && !ctl.black && Acceptable(a, hasFirst) && (a.Register? ==> a.r < REG_ARM64_MAX)
    ensures s.run(OpsOf(ActionOps(a, hasFirst)) + rest, ctl, m) == s.run(rest, ctl, m1)
    ensures OnlyMoves(m, m1) && m1.readAddr == Coded(s.env, a, hasFirst, m.readAddr)
    ensures m1.regValue == LastRegister(s.env, a, m.regValue)
  {
    var ops := OpsOf(ActionOps(a, hasFirst));
    match a
    case Follow =>
      var tail := [Op(MovePointerValue, Skip, Skip, 0)] + rest;
      Pointer(s, tail, ctl, m);
      var p := m.(pointerValue := ReadWord(s.env.mem, m.readAddr));
      Effects.Move(s, MovePointerValue, 0, rest, ctl, p);
      m1 := p.(readAddr := p.pointerValue);
      assert ops + rest == [Op(ReadPointer, Skip, Skip, 0)] + tail;
    case Offset(minus, v) =>
      var code := if minus then SubOffset else AddOffset;
      Effects.Move(s, code, v, rest, ctl, m);
      m1 := m.(readAddr := Move(m.readAddr, minus, v));
      assert ops + rest == [Op(code, Skip, Skip, v)] + rest;
    case Register(minus, r) =>
      m1 := RegisterRuns(s, minus, r, hasFirst, rest, ctl, m);
  }

  lemma RegisterRuns(s: Sem, minus: bool, r: u32, hasFirst: bool, rest: seq<Op>, ctl: Ctl, m: Mach) returns (m1: Mach)
    requires Valid(s) && !ctl.black && r < REG_ARM64_MAX
    ensures s.run(OpsOf(ActionOps(Register(minus, r), hasFirst)) + rest, ctl, m) == s.run(rest, ctl, m1)
    ensures OnlyMoves(m, m1) && m1.readAddr == Coded(s.env, Register(minus, r), hasFirst, m.readAddr)
    ensures m1.regValue == s.env.regs[r]
  {
    var ops := OpsOf(ActionOps(Register(minus, r), hasFirst));
    var v := s.env.regs[r];
    var p := m.(regIndex := r, regValue := v, readAddr := v);
    var op := Op(ReadReg, SetRegIndex, MoveRegValue, r);
    if hasFirst {
      var code := if minus then SubReg else AddReg;
      var tail := [Op(code, Skip, Skip, 0)] + rest;
      RegMove(s, r, tail, ctl, m);
      Effects.Move(s, code, 0, rest, ctl, p);
      m1 := p.(readAddr := Move(v, minus, v));
      assert ops + rest == [op] + tail;
    } else {
      RegMove(s, r, rest, ctl, m);
      m1 := p;
      assert ops + rest == [op] + rest;
    }
  }

  predicate KnownRegisters(actions: seq<Action>) {
    forall i :: 0 <= i < |actions| && actions[i].Register? ==> actions[i].r < REG_ARM64_MAX
  }

  /** The compiled ops leave `read_addr` at the computed address, whatever follows them. */
  lemma {:induction false} ActionsRun(
    s: Sem, actions: seq<Action>, hasFirst: bool, rest: seq<Op>, ctl: Ctl, m: Mach) returns (m1: Mach)
    requires Valid(s) && !ctl.black && AllAcceptable(actions, hasFirst) && KnownRegisters(actions)
    ensures s.run(OpsOf(ActionsOps(actions, hasFirst)) + rest, ctl, m) == s.run(rest, ctl, m1)
    ensures OnlyMoves(m, m1) && m1.readAddr == Computed(s.env, actions, hasFirst, m.readAddr)
    ensures m1.regValue == FinalRegister(s.env, actions, m.regValue)
    decreases |actions|
  {
    if actions == [] {
      m1 := m;
      assert OpsOf([]) + rest == rest;
    } else {
      var a, more, first := actions[0], actions[1..], hasFirst || actions[0].Register?;
      var tail := OpsOf(ActionsOps(more, first)) + rest;
      OpsOfAppend(ActionOps(a, hasFirst), ActionsOps(more, first));
      assert OpsOf(ActionsOps(actions, hasFirst)) + rest == OpsOf(ActionOps(a, hasFirst)) + tail;
      var mid := ActionRuns(s, a, hasFirst, tail, ctl, m);
      m1 := ActionsRun(s, more, first, rest, ctl, mid);
    }
  }

  /** The compiled expression computes the address and SAVE_ADDR records exactly that address. */
  lemma AddressRuns(s: Sem, actions: seq<Action>, rest: seq<Op>, ctl: Ctl, m: Mach) returns (m1: Mach)
    requires Valid(s) && !ctl.black && AllAcceptable(actions, false) && KnownRegisters(actions)
    ensures var addr := Computed(s.env, actions, false, m.readAddr);
            s.run(OpsOf(AddressOps(actions)) + rest, ctl, m) == s.run(rest, ctl, m1)
            && s.wrote(m, m1, [Word(addr)]) && m1.readAddr == addr
    ensures m1.strLen == m.strLen && m1.regValue == FinalRegister(s.env, actions, m.regValue)
  {
    var tail := [Op(SaveAddr, Skip, Skip, 0)] + rest;
    OpsOfAppend(ActionsOps(actions, false), [OPC_SAVE_ADDR]);
    assert OpsOf([OPC_SAVE_ADDR]) == [Op(SaveAddr, Skip, Skip, 0)];
    assert OpsOf(AddressOps(actions)) + rest == OpsOf(ActionsOps(actions, false)) + tail;
    var mid := ActionsRun(s, actions, false, tail, ctl, m);
    m1 := SaveAddress(s, rest, ctl, mid);
    Moved(s, m, mid, m1, m1, [Word(mid.readAddr)]);
  }

  // ----- when the computed address is the intended one

  /** A register behind the first one. */
  predicate LaterRegister(a: Action, hasFirst: bool) { a.Register? && hasFirst && a.r < REG_ARM64_MAX }

  /** At every later register, the address so far equals that register's value. */
  predicate LaterRegistersAgree(env: Env, actions: seq<Action>, hasFirst: bool, addr: u64)
    decreases |actions|
  {
    actions == []
    || ((LaterRegister(actions[0], hasFirst) ==> env.regs[actions[0].r] == addr)
        && LaterRegistersAgree(env, actions[1..], hasFirst || actions[0].Register?,
                               Intended(env, actions[0], hasFirst, addr)))
  }

  /** Computed and intended address agree after every action. */
  predicate AgreesThroughout(env: Env, actions: seq<Action>, hasFirst: bool, addr: u64)
    decreases |actions|
  {
    actions == []
    || (Coded(env, actions[0], hasFirst, addr) == Intended(env, actions[0], hasFirst, addr)
        && AgreesThroughout(env, actions[1..], hasFirst || actions[0].Register?,
                            Intended(env, actions[0], hasFirst, addr)))
  }

  lemma OneAgrees(env: Env, a: Action, hasFirst: bool, addr: u64)
    ensures Coded(env, a, hasFirst, addr) == Intended(env, a, hasFirst, addr)
       <==> (LaterRegister(a, hasFirst) ==> env.regs[a.r] == addr)
  {
  }

  /** The compiled ops follow the expression step by step if and only if later registers agree. */
  lemma {:induction false} AgreementIsExact(env: Env, actions: seq<Action>, hasFirst: bool, addr: u64)
    ensures AgreesThroughout(env, actions, hasFirst, addr) <==> LaterRegistersAgree(env, actions, hasFirst, addr)
    decreases |actions|
  {
    if actions != [] {
      OneAgrees(env, actions[0], hasFirst, addr);
      AgreementIsExact(env, actions[1..], hasFirst || actions[0].Register?, Intended(env, actions[0], hasFirst, addr));
    }
  }

  lemma {:induction false} AgreementMeans(env: Env, actions: seq<Action>, hasFirst: bool, addr: u64)
    requires LaterRegistersAgree(env, actions, hasFirst, addr)
    ensures Computed(env, actions, hasFirst, addr) == Meaning(env, actions, hasFirst, addr)
    decreases |actions|
  {
    if actions != [] {
      OneAgrees(env, actions[0], hasFirst, addr);
      AgreementMeans(env, actions[1..], hasFirst || actions[0].Register?, Intended(env, actions[0], hasFirst, addr));
    }
  }

  /** No register behind the first. */
  predicate OneRegister(actions: seq<Action>, hasFirst: bool) {
    actions == []
    || (!(hasFirst && actions[0].Register?) && OneRegister(actions[1..], hasFirst || actions[0].Register?))
  }

  /** With a single register the address is the expression's meaning, in every memory and register file. */
  lemma {:induction false} OneRegisterMeans(env: Env, actions: seq<Action>, hasFirst: bool, addr: u64)
    requires OneRegister(actions, hasFirst)
    ensures Computed(env, actions, hasFirst, addr) == Meaning(env, actions, hasFirst, addr)
    decreases |actions|
  {
    if actions != [] {
      OneRegisterMeans(env, actions[1..], hasFirst || actions[0].Register?, Intended(env, actions[0], hasFirst, addr));
    }
  }

  predicate NamesAny(actions: seq<Action>) { actions != [] && (actions[0].Register? || NamesAny(actions[1..])) }

  /** Once a register has been named, what `read_addr` held before the argument no longer matters. */
  lemma {:induction false} RegisterForgets(env: Env, actions: seq<Action>, was: u64, other: u64)
    requires NamesAny(actions) && KnownRegisters(actions)
    ensures Computed(env, actions, false, was) == Computed(env, actions, false, other)
    decreases |actions|
  {
    if !actions[0].Register? {
      RegisterForgets(env, actions[1..], Coded(env, actions[0], false, was), Coded(env, actions[0], false, other));
    }
  }

  /** Nor does `reg_value`. */
  lemma {:induction false} RegisterForgetsValue(env: Env, actions: seq<Action>, was: u64, other: u64)
    requires NamesAny(actions) && KnownRegisters(actions)
    ensures FinalRegister(env, actions, was) == FinalRegister(env, actions, other)
    decreases |actions|
  {
    if !actions[0].Register? {
      RegisterForgetsValue(env, actions[1..], was, other);
    }
  }

  /** The pointer chain of length `n` from `addr`. */
  function Followed(mem: Mem, addr: u64, n: nat): u64
    decreases n, mem
  {
    if n == 0 then addr else Followed(mem, ReadWord(mem, addr), n - 1)
  }

  /** Without a register an expression can only be dots, and computes the pointer chain from the address left over. */
  lemma {:induction false} UnnamedFollows(env: Env, actions: seq<Action>, was: u64)
    requires AllAcceptable(actions, false) && !NamesAny(actions)
    ensures Computed(env, actions, false, was) == Followed(env.mem, was, |actions|)
    decreases |actions|
  {
    if actions != [] { UnnamedFollows(env, actions[1..], ReadWord(env.mem, was)); }
  }

  /** `x0+x1` reads twice x1, and `x0-x1` reads 0. */
  lemma SecondRegisterReplaces(env: Env)
    ensures var plus := [Register(false, 0), Register(false, 1)];
            var minus := [Register(false, 0), Register(true, 1)];
            && Computed(env, plus, false, 0) == Wrap64(2 * (env.regs[1] as int))
            && Computed(env, minus, false, 0) == 0
            && Meaning(env, plus, false, 0) == Wrap64((env.regs[0] as int) + env.regs[1])
  {
    var plus, minus := [Register(false, 0), Register(false, 1)], [Register(false, 0), Register(true, 1)];
    assert plus[1..] == [Register(false, 1)] && minus[1..] == [Register(true, 1)];
    assert plus[1..][1..] == [] && minus[1..][1..] == [];
  }

  // ----- the final address

  lemma {:induction false} AddressOfBoth(env: Env, a: seq<Action>, b: seq<Action>, hasFirst: bool, addr: u64)
    ensures Computed(env, a + b, hasFirst, addr)
         == Computed(env, b, hasFirst || NamesAny(a), Computed(env, a, hasFirst, addr))
    ensures Meaning(env, a + b, hasFirst, addr)
         == Meaning(env, b, hasFirst || NamesAny(a), Meaning(env, a, hasFirst, addr))
    decreases |a|
  {
    if a == [] {
      assert a + b == b;
    } else {
      assert (a + b)[0] == a[0] && (a + b)[1..] == a[1..] + b;
      var first := hasFirst || a[0].Register?;
      AddressOfBoth(env, a[1..], b, first, Coded(env, a[0], hasFirst, addr));
      AddressOfBoth(env, a[1..], b, first, Intended(env, a[0], hasFirst, addr));
    }
  }

  predicate OnlyOffsets(actions: seq<Action>) { forall i :: 0 <= i < |actions| ==> actions[i].Offset? }

  function Signed(minus: bool, v: int): int { if minus then -v else v }

  /** The sum of the offsets, with their signs. */
  function NetOffset(actions: seq<Action>): int
    requires OnlyOffsets(actions)
  {
    if actions == [] then 0
    else Signed(actions[0].minus, actions[0].v) + NetOffset(actions[1..])
  }

  lemma WrapSum(addr: int, a: int, b: int)
    ensures Wrap64(Wrap64(addr + a) + b) == Wrap64(addr + (a + b))
  {
  }

  /** Offsets move an address by their sum, in the code as in the expression. */
  lemma {:induction false} OffsetsMove(env: Env, actions: seq<Action>, hasFirst: bool, addr: u64)
    requires OnlyOffsets(actions)
    ensures Computed(env, actions, hasFirst, addr) == Wrap64(addr + NetOffset(actions))
    ensures Meaning(env, actions, hasFirst, addr) == Wrap64(addr + NetOffset(actions))
    decreases |actions|
  {
    if actions != [] {
      var one := Signed(actions[0].minus, actions[0].v);
      OffsetsMove(env, actions[1..], hasFirst, Wrap64(addr + one));
      WrapSum(addr, one, NetOffset(actions[1..]));
    }
  }

  lemma ShiftIsInjective(a: u64, b: u64, k: int)
    ensures Wrap64(a + k) == Wrap64(b + k) <==> a == b
  {
  }

  lemma MovesAreInjective(a: u64, b: u64, minus: bool, v: u64, net: int)
    ensures Wrap64(Move(a, minus, v) + net) == Wrap64(Move(b, minus, v) + net) <==> a == b
  {
    var one := Signed(minus, v);
    WrapSum(a, one, net);
    WrapSum(b, one, net);
    ShiftIsInjective(a, b, one + net);
  }

  /**
   The final address. With a register behind an expression that names one, and only offsets behind it, the
   computed address is the expression's meaning if and only if the meaning in front of that last register is
   the register's own value: nothing further in front matters, because the register replaces it.
   */
  lemma FinalAddressIsExact(env: Env, front: seq<Action>, minus: bool, r: u32, back: seq<Action>, addr: u64)
    requires NamesAny(front) && r < REG_ARM64_MAX && OnlyOffsets(back)
    ensures var actions := front + ([Register(minus, r)] + back);
            (Computed(env, actions, false, addr) == Meaning(env, actions, false, addr))
              <==> (Meaning(env, front, false, addr) == env.regs[r])
  {
    var last, v := [Register(minus, r)] + back, env.regs[r];
    var meant := Meaning(env, front, false, addr);
    AddressOfBoth(env, front, last, false, addr);
    assert last[1..] == back;
    OffsetsMove(env, back, true, Move(v, minus, v));
    OffsetsMove(env, back, true, Move(meant, minus, v));
    MovesAreInjective(v, meant, minus, v, NetOffset(back));
  }

  /** `x0+x1+x2` with registers 1, 2 and 3 comes out right although a step in between does not. */
  lemma WrongStepRightAddress(env: Env)
    requires env.regs[0] == 1 && env.regs[1] == 2 && env.regs[2] == 3
    ensures var actions := [Register(false, 0), Register(false, 1), Register(false, 2)];
            && Computed(env, actions, false, 0) == Meaning(env, actions, false, 0) == 6
            && !LaterRegistersAgree(env, actions, false, 0)
  {
    var actions := [Register(false, 0), Register(false, 1), Register(false, 2)];
    assert actions[1..] == [Register(false, 1), Register(false, 2)];
    assert actions[1..][1..] == [Register(false, 2)] && actions[1..][1..][1..] == [];
  }

  // ----- the register a value filter sees

  lemma {:induction false} FinalOfBoth(env: Env, a: seq<Action>, b: seq<Action>, was: u64)
    ensures FinalRegister(env, a + b, was) == FinalRegister(env, b, FinalRegister(env, a, was))
    decreases |a|
  {
    if a == [] {
      assert a + b == b;
    } else {
      assert (a + b)[0] == a[0] && (a + b)[1..] == a[1..] + b;
      FinalOfBoth(env, a[1..], b, LastRegister(env, a[0], was));
    }
  }

  lemma {:induction false} NoRegisterKeeps(env: Env, actions: seq<Action>, was: u64)
    requires !NamesAny(actions)
    ensures FinalRegister(env, actions, was) == was
    decreases |actions|
  {
    if actions != [] { NoRegisterKeeps(env, actions[1..], was); }
  }

  /** Whatever the expression computes, `reg_value` ends up holding the register it names last. */
  lemma LastNamedIsSeen(env: Env, front: seq<Action>, minus: bool, r: u32, back: seq<Action>, was: u64)
    requires r < REG_ARM64_MAX && !NamesAny(back)
    ensures FinalRegister(env, front + ([Register(minus, r)] + back), was) == env.regs[r]
  {
    var last := [Register(minus, r)] + back;
    FinalOfBoth(env, front, last, was);
    assert last[1..] == back;
    NoRegisterKeeps(env, back, env.regs[r]);
  }
}
