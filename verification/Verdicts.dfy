/**
 Which events the filters of a point reject, said of the configured filters themselves: every filter of every argument
 is looked at, numbers on the register read last, strings and buffers behind their section.
 */
module Verdicts {
  import opened Bytes
  import opened Memory
  import opened Ops
  import opened Machine
  import opened Interpreter
  import opened Frames
  import opened ArgTypes
  import opened Sections
  import opened PointArgs
  import opened Records
  import opened Runs
  import opened ReadAddress
  import opened AddressText
  import Filters

  // ----- lists of checks

  /** Something speaks against the event, or whitelists were asked for and none of them hit. */
  lemma {:induction false} RejectedMeans(cs: seq<Check>)
    ensures AnyWanted(cs) <==> Wanted(true) in cs || Wanted(false) in cs
    ensures AnyHit(cs) <==> Wanted(true) in cs
    ensures Rejected(cs) <==> Reject in cs || (Wanted(false) in cs && Wanted(true) !in cs)
    decreases |cs|
  {
    if cs != [] {
      RejectedMeans(cs[1..]);
      assert cs == [cs[0]] + cs[1..];
    }
  }

  /** One check per filter, in order. */
  lemma {:induction false} CheckAt(env: Env, code: Code, filters: seq<u32>, value: u64, addr: u64, strLen: u32, k: nat)
    requires Present(env, filters) && k < |filters|
    ensures FilterChecks(env, code, filters, value, addr, strLen)[k]
         == FilterCheck(env, code, env.filters[filters[k]], value, addr, strLen)
    decreases k
  {
    if k > 0 { CheckAt(env, code, filters[1..], value, addr, strLen, k - 1); }
  }

  // ----- one argument

  predicate Configured(env: Env, a: PointArg, k: nat) { k < |a.filters| && a.filters[k] in env.filters }

  function TheFilter(env: Env, a: PointArg, k: nat): Filter
    requires Configured(env, a, k)
  {
    env.filters[a.filters[k]]
  }

  /** Some filter of the argument is one of those meant. */
  ghost predicate SomeFilter(env: Env, a: PointArg, meant: Filter -> bool) {
    exists k: nat :: Configured(env, a, k) && meant(TheFilter(env, a, k))
  }

  /** If `meant` are the filters that say `c`, then `c` is said exactly when one of them is configured. */
  lemma SaidBySome(env: Env, a: PointArg, code: Code, value: u64, addr: u64, strLen: u32, c: Check,
                   meant: Filter -> bool)
    requires Present(env, a.filters)
    requires forall f :: meant(f) <==> FilterCheck(env, code, f, value, addr, strLen) == c
    ensures c in FilterChecks(env, code, a.filters, value, addr, strLen) <==> SomeFilter(env, a, meant)
  {
    var cs := FilterChecks(env, code, a.filters, value, addr, strLen);
    if c in cs {
      var k :| 0 <= k < |cs| && cs[k] == c;
      CheckAt(env, code, a.filters, value, addr, strLen, k);
      assert Configured(env, a, k) && meant(TheFilter(env, a, k));
    }
    if SomeFilter(env, a, meant) {
      var k: nat :| Configured(env, a, k) && meant(TheFilter(env, a, k));
      CheckAt(env, code, a.filters, value, addr, strLen, k);
    }
  }

  lemma SaidByNone(env: Env, a: PointArg, code: Code, value: u64, addr: u64, strLen: u32, c: Check)
    requires Present(env, a.filters)
    requires forall f :: FilterCheck(env, code, f, value, addr, strLen) != c
    ensures c !in FilterChecks(env, code, a.filters, value, addr, strLen)
  {
    SaidBySome(env, a, code, value, addr, strLen, c, _ => false);
  }

  /** A number rule as coded: `eq` wants the value, `gt` one below the configured number, `lt` one above it. */
  predicate AgainstNumber(f: Filter, v: u64) {
    (f.kind.Equal? && v != f.numVal) || (f.kind.Greater? && v >= f.numVal) || (f.kind.Less? && v <= f.numVal)
  }

  function NumberRules(v: u64): Filter -> bool { (f: Filter) => AgainstNumber(f, v) }

  /** The filters of a kind whose text, respectively pattern, is found at an address, or is not. */
  function TextRules(mem: Mem, addr: u64, n: u32, kind: FilterKind, found: bool): Filter -> bool {
    (f: Filter) => f.kind == kind && StrMatches(mem, addr, n, f) == found
  }

  function PatternRules(mem: Mem, addr: u64, kind: FilterKind, found: bool): Filter -> bool {
    (f: Filter) => f.kind == kind && BufferMatches(mem, addr, f) == found
  }

  predicate IsText(t: ArgType) { t.Str? || t.Std? }

  predicate IsSized(t: ArgType) { t.BufLen? || t.BufReg? }

  /** The value follows its section. */
  predicate HasSection(a: PointArg) { a.pointType.SysAll? || a.pointType == a.groupType }

  /**
   Every filter of an argument that is neither a return value nor a string nor a sized buffer is compared with the
   register read last: any of them can reject the event, and none of them is a whitelist.
   */
  lemma NumberVerdict(env: Env, a: PointArg, v: u64, strLen: u32, off: nat)
    requires Present(env, a.filters) && a.reg < 33 && !a.isRet && !IsText(a.ty) && !IsSized(a.ty)
    requires v == if a.address.Some? then FilterInput(env, a) else env.regs[a.reg]
    ensures Reject in ArgChecks(env, a, strLen, off) <==> SomeFilter(env, a, NumberRules(v))
    ensures Wanted(true) !in ArgChecks(env, a, strLen, off) && Wanted(false) !in ArgChecks(env, a, strLen, off)
  {
    assert ArgChecks(env, a, strLen, off) == FilterChecks(env, FilterValue, a.filters, v, 0, 0);
    SaidBySome(env, a, FilterValue, v, 0, 0, Reject, NumberRules(v));
    SaidByNone(env, a, FilterValue, v, 0, 0, Wanted(true));
    SaidByNone(env, a, FilterValue, v, 0, 0, Wanted(false));
  }

  lemma TextChecks(env: Env, a: PointArg, addr: u64, n: u32, strLen: u32, off: nat)
    requires Present(env, a.filters) && a.reg < 33 && IsText(a.ty) && HasSection(a)
    requires addr == DataAddr(env.mem, a.ty, ArgAddr(env, a)) && n == ArgStrLen(env, a, strLen, off)
    ensures ArgChecks(env, a, strLen, off) == FilterChecks(env, FilterString, a.filters, 0, addr, n)
  {
    var cs := FilterChecks(env, FilterString, a.filters, 0, addr, n);
    assert [] + cs == cs;
  }

  lemma TextSays(env: Env, a: PointArg, addr: u64, n: u32, hit: bool)
    requires Present(env, a.filters)
    ensures Wanted(hit) in FilterChecks(env, FilterString, a.filters, 0, addr, n)
       <==> SomeFilter(env, a, TextRules(env.mem, addr, n, White, hit))
  {
    SaidBySome(env, a, FilterString, 0, addr, n, Wanted(hit), TextRules(env.mem, addr, n, White, hit));
  }

  /**
   Every filter of a string with a section is looked at behind it, at the text's address and with the length the
   section leaves: a matching blacklist entry rejects, whitelist entries hit or miss, and all other kinds are silent.
   */
  lemma TextVerdict(env: Env, a: PointArg, addr: u64, n: u32, strLen: u32, off: nat)
    requires Present(env, a.filters) && a.reg < 33 && IsText(a.ty) && HasSection(a)
    requires addr == DataAddr(env.mem, a.ty, ArgAddr(env, a)) && n == ArgStrLen(env, a, strLen, off)
    ensures Reject in ArgChecks(env, a, strLen, off)
       <==> SomeFilter(env, a, TextRules(env.mem, addr, n, Black, true))
    ensures forall hit ::
              Wanted(hit) in ArgChecks(env, a, strLen, off)
              <==> SomeFilter(env, a, TextRules(env.mem, addr, n, White, hit))
  {
    TextChecks(env, a, addr, n, strLen, off);
    SaidBySome(env, a, FilterString, 0, addr, n, Reject, TextRules(env.mem, addr, n, Black, true));
    TextSays(env, a, addr, n, true);
    TextSays(env, a, addr, n, false);
  }

  lemma SizedChecks(env: Env, a: PointArg, addr: u64, strLen: u32, off: nat) returns (n: u32)
    requires Present(env, a.filters) && a.reg < 33 && IsSized(a.ty) && HasSection(a) && addr == Untag(ArgAddr(env, a))
    ensures ArgChecks(env, a, strLen, off) == FilterChecks(env, FilterBuffer, a.filters, 0, addr, n)
  {
    n := ArgStrLen(env, a, strLen, off);
    var cs := FilterChecks(env, FilterBuffer, a.filters, 0, addr, n);
    assert [] + cs == cs;
  }

  lemma PatternSays(env: Env, a: PointArg, addr: u64, n: u32, hit: bool)
    requires Present(env, a.filters)
    ensures Wanted(hit) in FilterChecks(env, FilterBuffer, a.filters, 0, addr, n)
       <==> SomeFilter(env, a, PatternRules(env.mem, addr, White, hit))
  {
    SaidBySome(env, a, FilterBuffer, 0, addr, n, Wanted(hit), PatternRules(env.mem, addr, White, hit));
  }

  /** So is every filter of a sized buffer with a section: whitelisted patterns hit or miss, the rest is silent. */
  lemma SizedVerdict(env: Env, a: PointArg, addr: u64, strLen: u32, off: nat)
    requires Present(env, a.filters) && a.reg < 33 && IsSized(a.ty) && HasSection(a) && addr == Untag(ArgAddr(env, a))
    ensures Reject !in ArgChecks(env, a, strLen, off)
    ensures forall hit ::
              Wanted(hit) in ArgChecks(env, a, strLen, off)
              <==> SomeFilter(env, a, PatternRules(env.mem, addr, White, hit))
  {
    var n := SizedChecks(env, a, addr, strLen, off);
    SaidByNone(env, a, FilterBuffer, 0, addr, n, Reject);
    PatternSays(env, a, addr, n, true);
    PatternSays(env, a, addr, n, false);
  }

  /** Nothing else is looked at: no register, a return value, a string or sized buffer whose section does not follow. */
  lemma SilentArg(env: Env, a: PointArg, strLen: u32, off: nat)
    requires Present(env, a.filters)
    requires a.reg == 33 || (a.isRet && !IsText(a.ty) && !IsSized(a.ty))
             || ((IsText(a.ty) || IsSized(a.ty)) && !HasSection(a))
    ensures ArgChecks(env, a, strLen, off) == []
  {
  }

  // ----- from texts to verdicts

  /** The address its text means is an argument's value and its section's; filters see the register named last. */
  lemma TextIsArgument(env: Env, a: PointArg, first: string, ps: seq<Piece>, classify: Classifier)
    requires Bare(first) && WellMarked(ps) && a.address == Some(Actions(first + Text(ps), classify))
    ensures var r := ReadingAll(env, Pieces(first, ps), classify, false, 0);
            r.Some? ==>
              && AllAcceptable(a.address.value, false) && KnownRegisters(a.address.value)
              && ArgAddr(env, a) == r.value && FilterInput(env, a) == LastNamed(env, Pieces(first, ps), classify, 0)
  {
    TextComputes(env, first, ps, classify, 0, 0);
  }

  /** Without an address text the register is all three; a return value is the return register in any case. */
  lemma RegisterIsArgument(env: Env, a: PointArg, reg0: u64)
    requires a.reg < 33
    ensures a.address.None? ==> ArgAddr(env, a) == FilterInput(env, a) == env.regs[a.reg]
    ensures ArgValue(env, a, reg0) == if a.isRet then reg0 else ArgAddr(env, a)
  {
  }

  /**
   A string in a register, with a section that finds room and one text rule: a whitelist hits, and a blacklist rejects,
   if and only if the rule's text is a prefix of the string in memory.
   */
  lemma PrefixDecides(env: Env, a: PointArg, k: u32, kind: FilterKind, text: seq<byte>, s: seq<byte>, strLen: u32,
                      off: nat)
    requires a.reg < 33 && a.ty.Str? && a.address.None? && HasSection(a) && a.filters == [k] && k in env.filters
    requires |text| <= 256 && 0 !in text && env.filters[k] == Filters.TextFilter(kind, text) && off <= 32000 - 4110
    requires var addr := env.regs[a.reg] % 0x1_0000_0000_0000;
             HoldsAt(env.mem, addr, s) && At(env.mem, addr + |s|, 0) && 0 !in s && 0 < |s| < 4096
    ensures Reject in ArgChecks(env, a, strLen, off) <==> kind.Black? && text <= s
    ensures Wanted(true) in ArgChecks(env, a, strLen, off) <==> kind.White? && text <= s
    ensures Wanted(false) in ArgChecks(env, a, strLen, off) <==> kind.White? && !(text <= s)
  {
    var addr, n: u32 := Untag(env.regs[a.reg]), |s| + 1;
    TextFrame(env.mem, env.regs[a.reg], s, off + 9);
    TextIsRead(env.mem, addr, s);
    Filters.StringFilterIsPrefix(env.mem, addr, text, kind);
    TextVerdict(env, a, addr, n, strLen, off);
    assert Configured(env, a, 0) && TheFilter(env, a, 0) == env.filters[k];
    assert forall i: nat :: Configured(env, a, i) ==> i == 0;
  }

  // ----- a whole point

  /** The length left by the last string saved in front of argument `i`, and where the argument starts. */
  function LenAt(env: Env, args: seq<PointArg>, i: nat, strLen: u32, off: nat): u32
    requires WfArgs(args) && i <= |args|
    decreases i
  {
    if i == 0 then strLen
    else LenAt(env, args[1..], i - 1, ArgStrLen(env, args[0], strLen, off), ArgEnd(env, args[0], off))
  }

  function OffAt(env: Env, args: seq<PointArg>, i: nat, off: nat): nat
    requires WfArgs(args) && i <= |args|
    decreases i
  {
    if i == 0 then off else OffAt(env, args[1..], i - 1, ArgEnd(env, args[0], off))
  }

  /** The checks of argument `i`, where the point finds it. */
  function ChecksAt(env: Env, args: seq<PointArg>, i: nat, strLen: u32, off: nat): seq<Check>
    requires WfArgs(args) && AllPresent(env, args) && i < |args|
  {
    ArgChecks(env, args[i], LenAt(env, args, i, strLen, off), OffAt(env, args, i, off))
  }

  ghost predicate SomeArg(env: Env, args: seq<PointArg>, strLen: u32, off: nat, c: Check)
    requires WfArgs(args) && AllPresent(env, args)
  {
    exists i: nat :: i < |args| && c in ChecksAt(env, args, i, strLen, off)
  }

  /** A point says what some of its arguments says. */
  lemma {:induction false} SaidByArg(env: Env, args: seq<PointArg>, strLen: u32, off: nat, c: Check)
    requires WfArgs(args) && AllPresent(env, args)
    ensures c in PointChecks(env, args, strLen, off) <==> SomeArg(env, args, strLen, off, c)
    decreases |args|
  {
    if args != [] {
      var rest, n, next := args[1..], ArgStrLen(env, args[0], strLen, off), ArgEnd(env, args[0], off);
      SaidByArg(env, rest, n, next, c);
      if i: nat :| i < |rest| && c in ChecksAt(env, rest, i, n, next) {
        assert ChecksAt(env, args, i + 1, strLen, off) == ChecksAt(env, rest, i, n, next);
      }
      if i: nat :| i < |args| && c in ChecksAt(env, args, i, strLen, off) {
        if i > 0 {
          assert ChecksAt(env, rest, i - 1, n, next) == ChecksAt(env, args, i, strLen, off);
        } else {
          assert ChecksAt(env, args, 0, strLen, off) == ArgChecks(env, args[0], strLen, off);
        }
      }
      assert ChecksAt(env, args, 0, strLen, off) == ArgChecks(env, args[0], strLen, off);
    }
  }

  /**
   What a run decides: with a budget beyond its cost it skips the event if and only if some argument speaks against
   it, or some argument's whitelist missed and none hit.
   */
  lemma RunVerdict(env: Env, code: Program, args: seq<PointArg>, c: Cpu<Mach>, n: nat)
    requires Runnable(env, code, args) && Fresh(code, c)
    requires n > Warmup(c) + PointCost(env, args, Off(Entered(env, c)))
    ensures var m := Entered(env, c);
            SkipVerdict(StepN(ExecOf(env), code, n, Config(c, Live)))
            == (SomeArg(env, args, m.strLen, Off(m), Reject)
                || (SomeArg(env, args, m.strLen, Off(m), Wanted(false))
                    && !SomeArg(env, args, m.strLen, Off(m), Wanted(true))))
  {
    var m := Entered(env, c);
    RunFinishes(env, code, args, c, n);
    RejectedMeans(PointChecks(env, args, m.strLen, Off(m)));
    SaidByArg(env, args, m.strLen, Off(m), Reject);
    SaidByArg(env, args, m.strLen, Off(m), Wanted(true));
    SaidByArg(env, args, m.strLen, Off(m), Wanted(false));
  }

  lemma OneArg(env: Env, a: PointArg, strLen: u32, off: nat, c: Check)
    requires WfArgs([a]) && AllPresent(env, [a])
    ensures Present(env, a.filters) && (SomeArg(env, [a], strLen, off, c) <==> c in ArgChecks(env, a, strLen, off))
  {
    var args := [a];
    assert Present(env, args[0].filters);
    assert ChecksAt(env, args, 0, strLen, off) == ArgChecks(env, a, strLen, off);
  }

  lemma EqualityChecks(env: Env, a: PointArg, strLen: u32, off: nat, five: u32)
    requires a.reg == 2 && a.ty.Num? && a.address.None? && !a.isRet && a.filters == [five] && Present(env, a.filters)
    requires five in env.filters && env.filters[five].kind.Equal? && env.filters[five].numVal == 5
    ensures Reject in ArgChecks(env, a, strLen, off) <==> env.regs[2] != 5
    ensures Wanted(false) !in ArgChecks(env, a, strLen, off)
  {
    NumberVerdict(env, a, env.regs[2], strLen, off);
    assert Configured(env, a, 0) && TheFilter(env, a, 0) == env.filters[five];
    assert forall k: nat :: Configured(env, a, k) ==> k == 0;
  }

  /** `eq:5` on x2 as a number: the event is skipped if and only if x2 is not 5. */
  lemma EqualityDecides(env: Env, code: Program, a: PointArg, c: Cpu<Mach>, n: nat, five: u32)
    requires a.reg == 2 && a.ty.Num? && a.address.None? && !a.isRet && a.filters == [five]
    requires five in env.filters && env.filters[five].kind.Equal? && env.filters[five].numVal == 5
    requires Runnable(env, code, [a]) && Fresh(code, c)
    requires n > Warmup(c) + PointCost(env, [a], Off(Entered(env, c)))
    ensures SkipVerdict(StepN(ExecOf(env), code, n, Config(c, Live))) <==> env.regs[2] != 5
  {
    var strLen, off := Entered(env, c).strLen, Off(Entered(env, c));
    RunVerdict(env, code, [a], c, n);
    OneArg(env, a, strLen, off, Reject);
    OneArg(env, a, strLen, off, Wanted(false));
    EqualityChecks(env, a, strLen, off, five);
  }
}
