/**
 The arguments of a hook point: which ops each one compiles to (`PointArg.GetOpList`), how the emitting and
 the decoding side decide whether a section follows, and the fixed key list handed to the kernel.
 */
module PointArgs {
  import opened Bytes
  import opened Ops
  import opened Machine
  import opened Structured
  import opened ArgTypes
  import opened ReadAddress

  datatype Phase = NoPhase | SysEnter | SysExit | SysAll | UprobeEnter | UprobeExit

  /** `address` is the compiled `read_op`, None when the argument is a register. */
  datatype PointArg = PointArg(
    reg: u32, ty: ArgType, address: Option<seq<Action>>, filters: seq<u32>, pointType: Phase, groupType: Phase,
    isRet: bool)

  predicate WfArg(a: PointArg) {
    && a.reg <= REG_ARM64_MAX && WfType(a.ty)
    && (a.address.Some? ==> AllAcceptable(a.address.value, false) && KnownRegisters(a.address.value))
  }

  // ----- does a section follow?

  /** The emitting side. */
  predicate ReadMore(a: PointArg) { a.pointType == SysAll || a.pointType == a.groupType }

  /** The decoding side, for a record of the given phase. */
  predicate ParseMore(a: PointArg, phase: Phase) { a.pointType == SysAll || a.pointType == phase }

  /** Both sides agree on what follows the value; numbers never have a section. */
  predicate Agrees(a: PointArg, phase: Phase) { a.ty.Num? || ReadMore(a) == ParseMore(a, phase) }

  /** `Clone` keeps everything but the group. */
  function Clone(a: PointArg): PointArg { a.(groupType := NoPhase, isRet := false) }

  /** `B("ret", …)`: no register, so no ops; the exit program appends the value itself. */
  function RetArg(ty: ArgType): PointArg { PointArg(REG_ARM64_MAX, ty, None, [], SysExit, NoPhase, false) }

  /** A command-line argument bound to one side of a system call; `exitRead` asks for sections on both. */
  function Bound(a: PointArg, exitRead: bool, group: Phase): PointArg {
    Clone(a).(groupType := group, pointType := if exitRead then SysAll else SysEnter)
  }

  /** Binding keeps the argument well formed; enter sections always follow, exit sections only when asked for. */
  lemma BoundAgrees(a: PointArg, exitRead: bool)
    ensures Agrees(Bound(a, exitRead, SysEnter), SysEnter) && Agrees(Bound(a, exitRead, SysExit), SysExit)
    ensures ReadMore(Bound(a, exitRead, SysEnter)) && (ReadMore(Bound(a, exitRead, SysExit)) <==> exitRead)
    ensures WfArg(a) ==> WfArg(Bound(a, exitRead, SysEnter)) && WfArg(Bound(a, exitRead, SysExit))
  {
  }

  /** `UpdateSyscallPoint`: the return value is appended to the exit side only. */
  method BindSyscall(args: seq<PointArg>, exitRead: bool) returns (enter: seq<PointArg>, exit: seq<PointArg>)
    ensures |enter| == |args| && |exit| == |args| + 1 && exit[|args|] == RetArg(Num)
    ensures forall i :: 0 <= i < |args| ==> enter[i] == Bound(args[i], exitRead, SysEnter)
    ensures forall i :: 0 <= i < |args| ==> exit[i] == Bound(args[i], exitRead, SysExit)
    ensures forall i :: 0 <= i < |args| ==>
              && enter[i].reg == args[i].reg && enter[i].ty == args[i].ty && enter[i].address == args[i].address
              && enter[i].filters == args[i].filters && !enter[i].isRet && enter[i].groupType == SysEnter
              && enter[i].pointType == if exitRead then SysAll else SysEnter
    ensures forall i :: 0 <= i < |args| ==>
              && exit[i].reg == args[i].reg && exit[i].ty == args[i].ty && exit[i].address == args[i].address
              && exit[i].filters == args[i].filters && !exit[i].isRet && exit[i].groupType == SysExit
              && exit[i].pointType == if exitRead then SysAll else SysEnter
    ensures exit[|args|].reg == 33 && exit[|args|].ty == Num && exit[|args|].pointType == SysExit
  {
    enter, exit := [], [];
    for i := 0 to |args|
      invariant |enter| == |exit| == i
      invariant forall j :: 0 <= j < i ==> enter[j] == Bound(args[j], exitRead, SysEnter)
      invariant forall j :: 0 <= j < i ==> exit[j] == Bound(args[j], exitRead, SysExit)
    {
      var a := Clone(args[i]).(groupType := SysEnter);
      a := a.(pointType := if exitRead then SysAll else SysEnter);
      enter := enter + [a];
      var b := Clone(args[i]).(groupType := SysExit);
      b := b.(pointType := if exitRead then SysAll else SysEnter);
      exit := exit + [b];
    }
    exit := exit + [RetArg(Num)];
  }

  /**
   A parameter of a syscall file config: `more` says when its section is wanted, `reg` is a register named
   explicitly; otherwise the position counts.
   */
  datatype Param = Param(name: string, more: string, reg: Option<u32>, arg: PointArg)

  function MorePhase(more: string): Option<Phase> {
    if more == "" || more == "enter" then Some(SysEnter)
    else if more == "exit" then Some(SysExit)
    else if more == "all" then Some(SysAll)
    else None
  }

  /** Parameters count up to the first one named `ret`. */
  function BeforeRet(params: seq<Param>): (n: nat)
    ensures n <= |params|
    ensures n < |params| ==> params[n].name == "ret"
    ensures forall i :: 0 <= i < n ==> params[i].name != "ret"
  {
    if params == [] || params[0].name == "ret" then 0 else 1 + BeforeRet(params[1..])
  }

  function RegOf(p: Param, index: u32): u32 { if p.reg.Some? then p.reg.value else index }

  /** The argument of one side; None where an unknown `more` panics. */
  function FileArg(p: Param, index: nat, group: Phase): Option<PointArg> {
    match MorePhase(p.more)
    case None => None
    case Some(phase) =>
      Some(Clone(p.arg).(reg := RegOf(p, Wrap32(index)), pointType := phase, groupType := group))
  }

  /** The `ret` parameter, which is not cloned and belongs to no group of system calls. */
  function FileRet(p: Param): PointArg { p.arg.(reg := RegOf(p, REG_ARM64_MAX), pointType := SysExit) }

  /** Whatever `more` says, both sides of both records agree on the sections. */
  lemma FileArgAgrees(p: Param, index: nat)
    requires MorePhase(p.more).Some?
    ensures Agrees(FileArg(p, index, SysEnter).value, SysEnter) && Agrees(FileArg(p, index, SysExit).value, SysExit)
  {
  }

  /** A `ret` parameter keeps everything but its phase and, unless one is named, its register, of which it has none. */
  lemma FileRetKeeps(p: Param)
    ensures var b := FileRet(p);
            && b.ty == p.arg.ty && b.address == p.arg.address && b.filters == p.arg.filters
            && b.groupType == p.arg.groupType && b.isRet == p.arg.isRet && b.pointType == SysExit
            && b.reg == (if p.reg.Some? then p.reg.value else 33)
  {
  }

  /** The two sides agree on a `ret` parameter if and only if it is a number. */
  lemma FileRetAgrees(p: Param)
    requires p.arg.groupType.NoPhase? || p.arg.groupType.UprobeEnter?
    ensures Agrees(FileRet(p), SysExit) <==> p.arg.ty.Num?
  {
  }

  /**
   What one side's copy keeps of its parameter: type, address and filters, behind the register named explicitly or
   else the position, with the side's group and the phase that `more` names.
   */
  ghost predicate CopiesParam(b: PointArg, p: Param, index: nat, group: Phase) {
    && b.ty == p.arg.ty && b.address == p.arg.address && b.filters == p.arg.filters && !b.isRet
    && b.reg == (if p.reg.Some? then p.reg.value else index % 0x1_0000_0000) && b.groupType == group
    && (p.more == "" || p.more == "enter" ==> b.pointType == SysEnter)
    && (p.more == "exit" ==> b.pointType == SysExit)
    && (p.more == "all" ==> b.pointType == SysAll)
    && p.more in {"", "enter", "exit", "all"}
  }

  /** Unknown words panic, and nothing else does; the copy is determined by what it keeps. */
  lemma FileArgCopies(p: Param, index: nat, group: Phase, b: PointArg)
    ensures FileArg(p, index, group).None? <==> p.more !in {"", "enter", "exit", "all"}
    ensures FileArg(p, index, group) == Some(b) <==> CopiesParam(b, p, index, group)
  {
  }

  /** An enter section follows its value with no word, `enter` and `all`, an exit section with `exit` and `all`. */
  lemma MoreSays(p: Param, index: nat)
    ensures FileArg(p, index, SysEnter).Some? ==>
              (ReadMore(FileArg(p, index, SysEnter).value) <==> p.more in {"", "enter", "all"})
    ensures FileArg(p, index, SysExit).Some? ==>
              (ReadMore(FileArg(p, index, SysExit).value) <==> p.more in {"exit", "all"})
  {
  }

  /** The sides' copies, parameter by parameter. */
  lemma SidesCopy(enter: seq<PointArg>, exit: seq<PointArg>, params: seq<Param>, n: nat)
    requires n <= |params| && n <= |enter| && n <= |exit|
    requires forall i :: 0 <= i < n ==> Some(enter[i]) == FileArg(params[i], i, SysEnter)
    requires forall i :: 0 <= i < n ==> Some(exit[i]) == FileArg(params[i], i, SysExit)
    ensures forall i :: 0 <= i < n ==> CopiesParam(enter[i], params[i], i, SysEnter)
    ensures forall i :: 0 <= i < n ==> CopiesParam(exit[i], params[i], i, SysExit)
  {
    forall i | 0 <= i < n
      ensures CopiesParam(enter[i], params[i], i, SysEnter) && CopiesParam(exit[i], params[i], i, SysExit)
    {
      FileArgCopies(params[i], i, SysEnter, enter[i]);
      FileArgCopies(params[i], i, SysExit, exit[i]);
    }
  }

  /** When a section is wanted, as the parser decides it. */
  method WhenMore(more: string) returns (phase: Option<Phase>)
    ensures phase == MorePhase(more)
  {
    var p := SysEnter;
    if more == "exit" {
      p := SysExit;
    } else if more == "all" {
      p := SysAll;
    } else if more != "" && more != "enter" {
      return None;
    }
    return Some(p);
  }

  /** One parameter in front of `ret`: its argument for either side. */
  method CopyParam(p: Param, i: nat) returns (r: Option<(PointArg, PointArg)>)
    ensures r.None? <==> MorePhase(p.more).None?
    ensures r.Some? ==> Some(r.value.0) == FileArg(p, i, SysEnter) && Some(r.value.1) == FileArg(p, i, SysExit)
  {
    var phase := WhenMore(p.more);
    if phase.None? { return None; }
    var a := p.arg.(reg := RegOf(p, Wrap32(i)), pointType := phase.value);
    return Some((Clone(a).(groupType := SysEnter), Clone(a).(groupType := SysExit)));
  }

  /** `SyscallConfig.Parse_FileConfig` for one point; None is the panic on an unknown `more`. */
  method SyscallPoint(params: seq<Param>) returns (r: Option<(seq<PointArg>, seq<PointArg>)>)
    ensures r.None? <==> exists i :: 0 <= i < BeforeRet(params) && MorePhase(params[i].more).None?
    ensures r.Some? ==>
              var (enter, exit) := r.value;
              var n := BeforeRet(params);
              && |enter| == n && |exit| == (if n < |params| then n + 1 else n)
              && (n < |params| ==> exit[n] == FileRet(params[n]))
              && (forall i :: 0 <= i < n ==> CopiesParam(enter[i], params[i], i, SysEnter))
              && (forall i :: 0 <= i < n ==> CopiesParam(exit[i], params[i], i, SysExit))
  {
    var enter: seq<PointArg>, exit: seq<PointArg> := [], [];
    ghost var n := BeforeRet(params);
    for i := 0 to |params|
      invariant |enter| == |exit| == i <= n
      invariant forall j :: 0 <= j < i ==> Some(enter[j]) == FileArg(params[j], j, SysEnter)
      invariant forall j :: 0 <= j < i ==> Some(exit[j]) == FileArg(params[j], j, SysExit)
      invariant forall j :: 0 <= j < i ==> MorePhase(params[j].more).Some?
    {
      var p := params[i];
      if p.name == "ret" {
        SidesCopy(enter, exit, params, i);
        exit := exit + [p.arg.(reg := RegOf(p, REG_ARM64_MAX), pointType := SysExit)];
        return Some((enter, exit));
      }
      var copies := CopyParam(p, i);
      if copies.None? { return None; }
      enter := enter + [copies.value.0];
      exit := exit + [copies.value.1];
    }
    SidesCopy(enter, exit, params, |params|);
    return Some((enter, exit));
  }

  // ----- uprobe file configs

  /** The `size` of a parameter: absent, a number, or the name of a register. */
  datatype Size = NoSize | Count(n: u32) | Named(reg: u32) | BadName

  /** A parameter's `type` without its leading `*`, whether it had one, and its `size`. */
  datatype TypeSpec = TypeSpec(name: string, star: bool, size: Size)

  /** The types known by name; None is the panic on an unknown one. */
  type Registry = string -> Option<ArgType>

  /** The names `GetPointArg` treats specially, and for which it announces a section to uprobes. */
  predicate Announced(name: string) {
    name in {"buf", "iovec", "int_arr", "uint_arr", "ptr_arr", "str", "std"}
  }

  /** The type a parameter gets; None where the program panics. */
  function SpecType(t: TypeSpec, registry: Registry): Option<ArgType> {
    if t.name == "buf" then
      match t.size
      case NoSize => Some(BufLen(256))
      case Count(n) => if n <= MAX_BUF_READ_SIZE then Some(BufLen(n)) else None
      case Named(r) => if r < REG_ARM64_MAX then Some(BufReg(r)) else None
      case BadName => None
    else if t.name == "iovec" then
      if t.size.Named? && t.size.reg < REG_ARM64_MAX then Some(Iovec(t.size.reg)) else None
    else if t.name == "int_arr" || t.name == "uint_arr" then
      if t.size.Count? then Some(Arr(4, t.size.n)) else None
    else if t.name == "ptr_arr" then
      if t.size.Count? then Some(Arr(8, t.size.n)) else None
    else registry(t.name)
  }

  /**
   The types the program makes up itself: buffers of 256 bytes, of a given size up to 4096 or of a register's value,
   arrays of four-byte and eight-byte elements, and vectors counted by a register.
   */
  lemma SpecTypes(t: TypeSpec, registry: Registry, n: u32)
    ensures t.name == "buf" && t.size.NoSize? ==> SpecType(t, registry) == Some(BufLen(256))
    ensures t.name == "buf" && t.size == Count(n) ==>
              SpecType(t, registry) == if n <= 4096 then Some(BufLen(n)) else None
    ensures t.name == "buf" && t.size == Named(n) ==>
              SpecType(t, registry) == if n < 33 then Some(BufReg(n)) else None
    ensures t.name == "iovec" && t.size == Named(n) ==>
              SpecType(t, registry) == if n < 33 then Some(Iovec(n)) else None
    ensures t.name == "iovec" && !t.size.Named? ==> SpecType(t, registry) == None
    ensures t.name in {"int_arr", "uint_arr"} && t.size == Count(n) ==> SpecType(t, registry) == Some(Arr(4, n))
    ensures t.name == "ptr_arr" && t.size == Count(n) ==> SpecType(t, registry) == Some(Arr(8, n))
    ensures t.name in {"int_arr", "uint_arr", "ptr_arr"} && !t.size.Count? ==> SpecType(t, registry) == None
    ensures t.name !in {"buf", "iovec", "int_arr", "uint_arr", "ptr_arr"} ==> SpecType(t, registry) == registry(t.name)
  {
  }

  /** `GetPointArg` for a uprobe: the group, and with it the section, follows the configured name, not the type. */
  function UprobeFileArg(
    reg: u32, t: TypeSpec, registry: Registry, address: Option<seq<Action>>, filters: seq<u32>): Option<PointArg>
  {
    match SpecType(t, registry)
    case None => None
    case Some(ty) =>
      Some(PointArg(reg, if t.star then Ptr(ty) else ty, address, filters, UprobeEnter,
                    if t.star || Announced(t.name) then UprobeEnter else NoPhase, false))
  }

  /** The parameter's register, address and filters are the argument's, and a leading `*` is one more pointer. */
  lemma UprobeFileKeeps(
    reg: u32, t: TypeSpec, registry: Registry, address: Option<seq<Action>>, filters: seq<u32>, a: PointArg)
    requires UprobeFileArg(reg, t, registry, address, filters) == Some(a)
    ensures a.reg == reg && a.address == address && a.filters == filters && !a.isRet && a.pointType == UprobeEnter
    ensures SpecType(t, registry) == if !t.star then Some(a.ty) else if a.ty.Ptr? then Some(a.ty.inner) else None
    ensures (reg <= 33 && (address.Some? ==> AllAcceptable(address.value, false) && KnownRegisters(address.value))
             && forall name :: registry(name).Some? ==> WfType(registry(name).value)) ==> WfArg(a)
  {
  }

  /**
   A uprobe file config frames an argument correctly if and only if its configured name is announced, it has a
   leading `*`, or it is a number: anything else is decoded with a section nobody wrote.
   */
  lemma UprobeFileAgrees(
    reg: u32, t: TypeSpec, registry: Registry, address: Option<seq<Action>>, filters: seq<u32>)
    requires UprobeFileArg(reg, t, registry, address, filters).Some?
    ensures Agrees(UprobeFileArg(reg, t, registry, address, filters).value, UprobeEnter)
       <==> t.name in {"buf", "iovec", "int_arr", "uint_arr", "ptr_arr", "str", "std"} || t.star
            || SpecType(t, registry) == Some(Num)
  {
  }

  /** `str` and `string` name the same type, but only the first one is framed correctly. */
  lemma SpellingDecides(reg: u32, registry: Registry)
    requires registry("str") == registry("string") == Some(Str)
    ensures Agrees(UprobeFileArg(reg, TypeSpec("str", false, NoSize), registry, None, []).value, UprobeEnter)
    ensures !Agrees(UprobeFileArg(reg, TypeSpec("string", false, NoSize), registry, None, []).value, UprobeEnter)
  {
    assert !Announced("string");
  }

  // ----- ops

  predicate IsBuffer(t: ArgType) { t.BufLen? || t.BufReg? }

  predicate IsString(t: ArgType) { t.Str? || t.Std? }

  /** Filters run behind the section for strings and buffers, on the value otherwise. */
  predicate LateFilters(t: ArgType) { IsString(t) || IsBuffer(t) }

  /** Value first: the return register, the read address, or a register. */
  function HeadConfigs(a: PointArg): seq<OpConfig>
    requires WfArg(a)
  {
    if a.isRet then [OPC_READ_RET, OPC_SAVE_REG]
    else if a.address.Some? then AddressOps(a.address.value)
    else [ReadSaveReg(a.reg), OPC_MOVE_REG_VALUE]
  }

  function FilterConfigs(base: OpConfig, filters: seq<u32>): (configs: seq<OpConfig>)
    ensures |configs| == |filters|
  {
    seq(|filters|, i requires 0 <= i < |filters| => NewValue(base, filters[i]))
  }

  function EarlyFilters(a: PointArg): seq<u32> {
    if a.isRet || LateFilters(a.ty) then [] else a.filters
  }

  function LateBase(t: ArgType): OpConfig { if IsString(t) then OPC_FILTER_STRING else OPC_FILTER_BUFFER }

  function MoreConfigs(a: PointArg): seq<OpConfig> {
    if !ReadMore(a) then []
    else TypeConfigs(a.ty) + if LateFilters(a.ty) then FilterConfigs(LateBase(a.ty), a.filters) else []
  }

  function ArgConfigs(a: PointArg): seq<OpConfig>
    requires WfArg(a)
  {
    if a.reg == REG_ARM64_MAX then []
    else HeadConfigs(a) + FilterConfigs(OPC_FILTER_VALUE, EarlyFilters(a)) + MoreConfigs(a)
  }

  /**
   Where the filters go: a number's all go between value and section, a string's or sized buffer's behind the section
   and only with one, a return number's and those of an argument without a register nowhere.
   */
  lemma FiltersArePlaced(a: PointArg)
    requires WfArg(a)
    ensures var section := if a.pointType == SysAll || a.pointType == a.groupType then TypeConfigs(a.ty) else [];
            && (a.reg == 33 ==> ArgConfigs(a) == [])
            && (a.reg != 33 && !a.isRet && !a.ty.Str? && !a.ty.Std? && !a.ty.BufLen? && !a.ty.BufReg? ==>
                  ArgConfigs(a) == HeadConfigs(a) + FilterConfigs(OPC_FILTER_VALUE, a.filters) + section)
            && (a.reg != 33 && (a.ty.Str? || a.ty.Std?) && section != [] ==>
                  ArgConfigs(a) == HeadConfigs(a) + section + FilterConfigs(OPC_FILTER_STRING, a.filters))
            && (a.reg != 33 && (a.ty.BufLen? || a.ty.BufReg?) && section != [] ==>
                  ArgConfigs(a) == HeadConfigs(a) + section + FilterConfigs(OPC_FILTER_BUFFER, a.filters))
            && (a.reg != 33 && section == [] && (a.isRet || IsString(a.ty) || IsBuffer(a.ty)) ==>
                  ArgConfigs(a) == HeadConfigs(a))
  {
    if a.reg != 33 {
      var h, m := HeadConfigs(a), MoreConfigs(a);
      if a.isRet || LateFilters(a.ty) { assert h + [] + m == h + m; }
      assert h + [] == h;
    }
  }

  predicate WfArgs(args: seq<PointArg>) { forall i :: 0 <= i < |args| ==> WfArg(args[i]) }

  function PointConfigs(args: seq<PointArg>): seq<OpConfig>
    requires WfArgs(args)
  {
    if args == [] then [] else ArgConfigs(args[0]) + PointConfigs(args[1..])
  }

  // ----- the same ops as programs

  function FilterProg(base: OpConfig, filters: seq<u32>): seq<Stmt> { Dos(OpsOf(FilterConfigs(base, filters))) }

  function MoreProg(a: PointArg): seq<Stmt> {
    if !ReadMore(a) then []
    else TypeProg(a.ty) + if LateFilters(a.ty) then FilterProg(LateBase(a.ty), a.filters) else []
  }

  function ArgProg(a: PointArg): seq<Stmt>
    requires WfArg(a)
  {
    if a.reg == REG_ARM64_MAX then []
    else Dos(OpsOf(HeadConfigs(a))) + FilterProg(OPC_FILTER_VALUE, EarlyFilters(a)) + MoreProg(a)
  }

  function PointProg(args: seq<PointArg>): seq<Stmt>
    requires WfArgs(args)
  {
    if args == [] then [] else ArgProg(args[0]) + PointProg(args[1..])
  }

  lemma MoreIsBracketed(a: PointArg)
    ensures Flatten(MoreProg(a)) == OpsOf(MoreConfigs(a))
  {
    if ReadMore(a) {
      TypeIsBracketed(a.ty);
      if LateFilters(a.ty) {
        var f := FilterConfigs(LateBase(a.ty), a.filters);
        FlattenDos(OpsOf(f));
        FlattenAppend(TypeProg(a.ty), Dos(OpsOf(f)));
        OpsOfAppend(TypeConfigs(a.ty), f);
      } else {
        assert TypeProg(a.ty) + [] == TypeProg(a.ty) && TypeConfigs(a.ty) + [] == TypeConfigs(a.ty);
      }
    }
  }

  lemma ArgIsBracketed(a: PointArg)
    requires WfArg(a)
    ensures Flatten(ArgProg(a)) == OpsOf(ArgConfigs(a))
  {
    if a.reg != REG_ARM64_MAX {
      var h, f := HeadConfigs(a), FilterConfigs(OPC_FILTER_VALUE, EarlyFilters(a));
      FlattenDos(OpsOf(h));
      FlattenDos(OpsOf(f));
      MoreIsBracketed(a);
      FlattenAppend(Dos(OpsOf(h)), Dos(OpsOf(f)));
      FlattenAppend(Dos(OpsOf(h)) + Dos(OpsOf(f)), MoreProg(a));
      OpsOfAppend(h, f);
      OpsOfAppend(h + f, MoreConfigs(a));
    }
  }

  /** The op list of every point is the flattening of a well-formed program. */
  lemma {:induction false} PointIsBracketed(args: seq<PointArg>)
    requires WfArgs(args)
    ensures Flatten(PointProg(args)) == OpsOf(PointConfigs(args))
    decreases |args|
  {
    if args != [] {
      ArgIsBracketed(args[0]);
      PointIsBracketed(args[1..]);
      FlattenAppend(ArgProg(args[0]), PointProg(args[1..]));
      OpsOfAppend(ArgConfigs(args[0]), PointConfigs(args[1..]));
    }
  }

  // ----- key lists

  /** `PointArg.GetOpList`. */
  method GetOpList(a: PointArg, opm: OpManager) returns (keys: seq<nat>)
    requires WfArg(a) && opm.Valid()
    modifies opm
    ensures opm.Valid() && (opm.opList, keys) == InternAll(old(opm.opList), ArgConfigs(a))
  {
    keys := [];
    if a.reg == REG_ARM64_MAX { return; }
    ghost var list := opm.opList;
    var h, f, m := HeadConfigs(a), FilterConfigs(OPC_FILTER_VALUE, EarlyFilters(a)), MoreConfigs(a);
    InternAllAppend(list, h, f);
    InternAllAppend(list, h + f, m);
    var head := opm.AddAll(h);
    var early := AddFilters(OPC_FILTER_VALUE, EarlyFilters(a), opm);
    var more := opm.AddAll(m);
    keys := head + early + more;
  }

  method AddFilters(base: OpConfig, filters: seq<u32>, opm: OpManager) returns (keys: seq<nat>)
    requires opm.Valid()
    modifies opm
    ensures opm.Valid() && (opm.opList, keys) == InternAll(old(opm.opList), FilterConfigs(base, filters))
  {
    keys := [];
    ghost var list := opm.opList;
    for i := 0 to |filters|
      invariant opm.Valid() && (opm.opList, keys) == InternAll(list, FilterConfigs(base, filters[..i]))
    {
      ghost var before := FilterConfigs(base, filters[..i]);
      ghost var c := NewValue(base, filters[i]);
      assert FilterConfigs(base, filters[..i + 1]) == before + [c];
      InternAllAppend(list, before, [c]);
      InternOne(opm.opList, c);
      var key := opm.AddOp(NewValue(base, filters[i]));
      keys := keys + [key];
    }
    assert filters[..|filters|] == filters;
  }

  /** The keys, then zeros up to the fixed length. */
  function Padded(keys: seq<nat>, n: nat): seq<nat>
    requires |keys| <= n
  {
    keys + seq(n - |keys|, _ => 0)
  }

  /** `SyscallPointOpKeyConfig` (256 keys) and `UprobePointOpKeyConfig` (64 keys). */
  class OpKeyConfig {
    const opKeyList: array<nat>
    var opCount: nat

    ghost predicate Valid()
      reads this, opKeyList
    {
      opCount < opKeyList.Length && forall i :: opCount <= i < opKeyList.Length ==> opKeyList[i] == 0
    }

    ghost function Keys(): seq<nat>
      reads this, opKeyList
      requires Valid()
    {
      opKeyList[..opCount]
    }

    constructor (max: nat)
      requires max > 0
      ensures Valid() && Keys() == [] && opKeyList.Length == max && fresh(opKeyList)
    {
      opKeyList := new nat[max](_ => 0);
      opCount := 0;
    }

    /** The loop of `AddPointArg`. The list is never filled to its end; keys that would fill it panic (false). */
    method AddKeys(keys: seq<nat>) returns (ok: bool)
      requires Valid()
      modifies this`opCount, opKeyList
      ensures ok <==> old(opCount) + |keys| < opKeyList.Length
      ensures ok ==> Valid() && Keys() == old(Keys()) + keys
    {
      ghost var was := opKeyList[..opCount];
      for i := 0 to |keys|
        invariant opCount == old(opCount) + i && opCount < opKeyList.Length
        invariant opKeyList[..opCount] == was + keys[..i]
        invariant forall k :: opCount <= k < opKeyList.Length ==> opKeyList[k] == 0
      {
        opKeyList[opCount] := keys[i];
        opCount := opCount + 1;
        assert opKeyList[..opCount] == was + keys[..i] + [keys[i]];
        if opCount == opKeyList.Length { return false; }
      }
      return true;
    }

    /** `AddPointArg`: a zero key, SKIP, always remains behind the last op. */
    method AddPointArg(a: PointArg, opm: OpManager) returns (ok: bool)
      requires Valid() && WfArg(a) && opm.Valid()
      modifies this`opCount, opKeyList, opm
      ensures opm.Valid() && opm.opList == InternAll(old(opm.opList), ArgConfigs(a)).0
      ensures ok <==> old(opCount) + |ArgConfigs(a)| < opKeyList.Length
      ensures ok ==> Valid() && Keys() == old(Keys()) + InternAll(old(opm.opList), ArgConfigs(a)).1
    {
      var opList := GetOpList(a, opm);
      ok := AddKeys(opList);
    }

    /** What the kernel is given: a list whose program is the point's, with SKIP behind it. */
    ghost predicate Holds(table: map<nat, Op>, ops: seq<Op>)
      reads this, opKeyList
    {
      && Valid() && 0 in table && table[0] == OPC_SKIP.op
      && Means(table, Keys(), ops) && opKeyList[..] == Padded(Keys(), opKeyList.Length)
    }
  }

  /** `GetEnterConfig`, `GetExitConfig` and the uprobe `GetConfig`; None is the panic on a full list. */
  method GetConfig(args: seq<PointArg>, max: nat, opm: OpManager) returns (config: OpKeyConfig, ok: bool)
    requires WfArgs(args) && opm.Valid() && max > 0
    requires 0 < |opm.opList| && opm.opList[0].config == OPC_SKIP
    modifies opm
    ensures opm.Valid() && old(opm.opList) <= opm.opList
    ensures ok <==> |PointConfigs(args)| < max
    ensures ok ==> config.opKeyList.Length == max && config.Holds(Table(opm.opList), OpsOf(PointConfigs(args)))
  {
    config := new OpKeyConfig(max);
    ghost var list := opm.opList;
    assert PointConfigs([]) == [];
    for i := 0 to |args|
      invariant fresh(config) && fresh(config.opKeyList) && config.opKeyList.Length == max
      invariant config.Valid() && opm.Valid() && list <= opm.opList
      invariant (opm.opList, config.Keys()) == InternAll(list, PointConfigs(args[..i]))
    {
      PointConfigsNext(args, i);
      ghost var before, mine := PointConfigs(args[..i]), ArgConfigs(args[i]);
      InternAllAppend(list, before, mine);
      InternAllMeans(list, before + mine);
      ok := config.AddPointArg(args[i], opm);
      if !ok {
        PointConfigsGrow(args, i + 1);
        return;
      }
    }
    assert args[..|args|] == args;
    InternAllMeans(list, PointConfigs(args));
    assert opm.opList[0] == list[0];
    assert config.opKeyList[..] == Padded(config.Keys(), max);
    ok := true;
  }

  lemma {:induction false} PointConfigsAppend(a: seq<PointArg>, b: seq<PointArg>)
    requires WfArgs(a) && WfArgs(b)
    ensures WfArgs(a + b) && PointConfigs(a + b) == PointConfigs(a) + PointConfigs(b)
    decreases |a|
  {
    if a == [] {
      assert a + b == b;
    } else {
      assert (a + b)[0] == a[0] && (a + b)[1..] == a[1..] + b;
      PointConfigsAppend(a[1..], b);
    }
  }

  lemma PointConfigsNext(args: seq<PointArg>, i: nat)
    requires WfArgs(args) && i < |args|
    ensures PointConfigs(args[..i + 1]) == PointConfigs(args[..i]) + ArgConfigs(args[i])
  {
    assert args[..i + 1] == args[..i] + [args[i]];
    PointConfigsAppend(args[..i], [args[i]]);
    assert [args[i]][1..] == [] && PointConfigs([args[i]]) == ArgConfigs(args[i]) + [];
  }

  lemma PointConfigsGrow(args: seq<PointArg>, i: nat)
    requires WfArgs(args) && i <= |args|
    ensures |PointConfigs(args[..i])| <= |PointConfigs(args)|
  {
    assert args == args[..i] + args[i..];
    PointConfigsAppend(args[..i], args[i..]);
  }
}
