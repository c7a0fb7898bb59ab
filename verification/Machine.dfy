/** What each op code of `read_args` does to the registers, the filter flags and the record. */
module Machine {
  import opened Bytes
  import opened Memory
  import opened EventBuffer
  import opened Ops

  const MAX_LOOP_COUNT: u8 := 32
  const MAX_STRCMP_LEN: int := 256
  const REG_ARM64_MAX: int := 33

  datatype FilterKind = Equal | Greater | Less | White | Black | OtherKind

  type Key256 = s: seq<byte> | |s| == 256 witness Zeros(256)

  /** `arg_filter_t`. For buffer filters `strLen` holds a shift distance. */
  datatype Filter = Filter(kind: FilterKind, strVal: Key256, strLen: u32, numVal: u64)

  /** x0..x29, lr, sp and pc. */
  type RegFile = s: seq<u64> | |s| == 33 witness seq(33, _ => 0)

  /** Everything a probe reads but never writes. */
  datatype Env = Env(mem: Mem, regs: RegFile, filters: map<u64, Filter>)

  /** The part of `op_ctx_t` that steers the loop of `read_args`. */
  datatype Ctl = Ctl(loopCount: u8, breakCount: u8, black: bool)

  /** The rest of `op_ctx_t` that ops work on, plus the record being built. */
  datatype Mach = Mach(
    saveIndex: u8, regIndex: u8, applyFilter: bool, matchWhite: bool, strLen: u32, readLen: u32,
    readAddr: u64, regValue: u64, pointerValue: u64, tmpValue: u64, reg0: u64, out: Out)

  /** `ok` is false for an early `return 0`, which skips the verdict. */
  datatype Res<M> = Res(ok: bool, ctl: Ctl, m: M)

  function Pow2(n: nat): nat { if n == 0 then 1 else 2 * Pow2(n - 1) }

  /** A value filter marks the event for skipping. */
  predicate ValueFails(f: Filter, v: u64) {
    match f.kind
    case Equal => f.numVal != v
    case Greater => f.numVal <= v
    case Less => f.numVal >= v
    case _ => false
  }

  /** `ptr & (0xffffffffffffffff >> str_len)`, with the shift distance taken modulo 64. */
  function MaskLow(v: u64, strLen: u32): nat
  {
    var width := 64 - strLen % 64;
    Pow2Positive(width);
    v % Pow2(width)
  }

  lemma {:induction false} Pow2Positive(n: nat)
    ensures Pow2(n) > 0
  {
    if n > 0 { Pow2Positive(n - 1); }
  }

  predicate BufferMatches(mem: Mem, addr: u64, f: Filter) {
    f.numVal == MaskLow(ReadWord(mem, Untag(addr)), f.strLen)
  }

  /** The key `strcmp_by_map` looks up: the bytes re-read, zero-padded to 256. */
  function ProbeKey(mem: Mem, addr: u64, len: nat): (k: Key256)
  {
    var n := Min(len, MAX_STRCMP_LEN);
    ReadOrZero(mem, addr, n) + Zeros(256 - n)
  }

  predicate StrMatches(mem: Mem, addr: u64, strLen: u32, f: Filter) {
    f.strLen <= strLen && ProbeKey(mem, addr, f.strLen) == f.strVal
  }

  function SaveWord(m: Mach, v: u64): Mach {
    m.(out := SaveSubmit(m.out, LE(8, v), m.saveIndex).out, saveIndex := Wrap8(m.saveIndex + 1))
  }

  /** The read length, scaled when SAVE_STRUCT is fused with SET_READ_COUNT. */
  function ScaledLen(op: Op, readLen: u32): u32 {
    if op.pre == SetReadCount then Wrap32(readLen * op.value) else readLen
  }

  /** The save, or a zero-length section when it fails. */
  function SaveStructAt(env: Env, m: Mach, readLen: u32): Mach {
    var addr := Untag(m.readAddr);
    var len := Min(readLen, MAX_BYTES_ARR_SIZE);
    var s := SaveBytes(m.out, env.mem, addr, len, m.saveIndex);
    var out := if s.ok then s.out else SaveBytes(m.out, env.mem, 0, 0, m.saveIndex).out;
    m.(readAddr := addr, readLen := len, out := out, saveIndex := Wrap8(m.saveIndex + 1))
  }

  function SaveStringAt(env: Env, m: Mach): Mach
  {
    var addr := Untag(m.readAddr);
    var s := SaveStr(m.out, env.mem, addr, m.saveIndex);
    if s.ok then
      var len := |s.out.bytes| - (|m.out.bytes| + 5);
      m.(readAddr := addr, out := s.out, strLen := len, saveIndex := Wrap8(m.saveIndex + 1))
    else
      m.(readAddr := addr, out := SaveBytes(m.out, env.mem, 0, 0, m.saveIndex).out,
         saveIndex := Wrap8(m.saveIndex + 1))
  }

  /** One `char *` of an array and its string; a failed string writes the sentinel length. */
  function SavePtrStringAt(env: Env, m: Mach): Saved2 {
    var ptr := ReadWord(env.mem, Untag(m.readAddr));
    PtrStringTail(env, SaveWord(m, ptr), Untag(ptr))
  }

  datatype Saved2 = Saved2(m: Mach, ok: bool)

  function PtrStringTail(env: Env, m: Mach, ptr: u64): Saved2 {
    var s := SaveStr(m.out, env.mem, ptr, m.saveIndex);
    var out := if s.ok then s.out else SaveBytes(m.out, env.mem, 0, STRARR_MAGIC_LEN, m.saveIndex).out;
    Saved2(m.(out := out, saveIndex := Wrap8(m.saveIndex + 1)), s.ok)
  }

  /** Address of a `std::string`'s characters: inline, or behind the first word when the flag bit is set. */
  function StdStringData(mem: Mem, addr: u64): u64 {
    var base := Untag(addr);
    var last := ReadOrZero(mem, base + 23, 1)[0];
    if last >= 0x80 then ReadWord(mem, base) else base
  }

  function PointerSource(m: Mach, op: Op): u64 {
    match op.pre
    case AddOffset => Wrap64(m.readAddr + op.value)
    case SubOffset => Wrap64(m.readAddr - op.value)
    case _ => m.readAddr
  }

  function CapBreak(v: u64): u8 { if v < MAX_LOOP_COUNT then v else MAX_LOOP_COUNT }

  /** Lengths, loop bounds and the reset; codes without an effect fall through. */
  function ExecBounds(code: Code, op: Op, ctl: Ctl, m: Mach): (Ctl, Mach) {
    match code
    case ResetCtx =>
      (ctl.(breakCount := 0),
       m.(regIndex := 0, readAddr := 0, readLen := 0, regValue := 0, pointerValue := 0))
    case SetRegIndex => (ctl, m.(regIndex := Wrap8(op.value)))
    case SetReadLen => (ctl, m.(readLen := Wrap32(op.value)))
    case SetReadLenRegValue => (ctl, if m.readLen > m.regValue then m.(readLen := m.regValue) else m)
    case SetReadLenPointerValue => (ctl, if m.readLen > m.pointerValue then m.(readLen := m.pointerValue) else m)
    case SetReadCount => (ctl, m.(readLen := Wrap32(m.readLen * op.value)))
    case SetBreakCount => (ctl.(breakCount := CapBreak(op.value)), m)
    case SetBreakCountRegValue => (ctl.(breakCount := CapBreak(m.regValue)), m)
    case SetBreakCountPointerValue => (ctl.(breakCount := CapBreak(m.pointerValue)), m)
    case _ => (ctl, m)
  }

  function ExecAddress(code: Code, op: Op, m: Mach): Mach
    requires IsAddress(code)
  {
    match code
    case AddOffset => m.(readAddr := Wrap64(m.readAddr + op.value))
    case SubOffset => m.(readAddr := Wrap64(m.readAddr - op.value))
    case MoveRegValue => m.(readAddr := m.regValue)
    case MovePointerValue => m.(readAddr := m.pointerValue)
    case MoveTmpValue => m.(readAddr := m.tmpValue)
    case SetTmpValue => m.(tmpValue := m.readAddr)
    case AddReg => m.(readAddr := Wrap64(m.readAddr + m.regValue))
    case SubReg => m.(readAddr := Wrap64(m.readAddr - m.regValue))
  }

  function ExecRead(env: Env, code: Code, op: Op, m: Mach): (bool, Mach)
    requires IsRead(code)
  {
    match code
    case ReadReg =>
      var i: u8 := if op.pre == SetRegIndex then Wrap8(op.value) else m.regIndex;
      if i >= REG_ARM64_MAX then (false, m.(regIndex := i)) else (true, m.(regIndex := i, regValue := env.regs[i]))
    case ReadRet => (true, m.(regValue := m.reg0))
    case ReadPointer => (true, m.(pointerValue := ReadWord(env.mem, PointerSource(m, op))))
    case ReadStdString => (true, m.(readAddr := StdStringData(env.mem, m.readAddr)))
  }

  /** Only a failed string of an array touches the loop: it makes this turn the last. */
  function ExecSave(env: Env, code: Code, op: Op, ctl: Ctl, m: Mach): (Ctl, Mach)
    requires IsSave(code)
  {
    match code
    case SaveAddr => (ctl, SaveWord(m, m.readAddr))
    case SaveReg => (ctl, SaveWord(m, m.regValue))
    case SavePointer => (ctl, SaveWord(m, m.pointerValue))
    case SaveStruct => (ctl, SaveStructAt(env, m, ScaledLen(op, m.readLen)))
    case SaveString => (ctl, SaveStringAt(env, m))
    case SavePtrString =>
      var s := SavePtrStringAt(env, m);
      (if s.ok then ctl else ctl.(loopCount := ctl.breakCount), s.m)
  }

  function ExecFilter(env: Env, code: Code, op: Op, ctl: Ctl, m: Mach): Res<Mach>
    requires IsFilter(code)
  {
    if op.value !in env.filters then Res(false, ctl, m)
    else
      var f := env.filters[op.value];
      match code
      case FilterValue => Res(true, if ValueFails(f, m.regValue) then ctl.(black := true) else ctl, m)
      case FilterBuffer =>
        if f.kind != White then Res(true, ctl, m)
        else
          Res(true, ctl,
              m.(applyFilter := true, matchWhite := m.matchWhite || BufferMatches(env.mem, m.readAddr, f)))
      case FilterString =>
        var hit := StrMatches(env.mem, m.readAddr, m.strLen, f);
        if f.kind == White then Res(true, ctl, m.(applyFilter := true, matchWhite := m.matchWhite || hit))
        else Res(true, if f.kind == Black && hit then ctl.(black := true) else ctl, m)
  }

  /** One round of the switch, for every code but FOR_BREAK, which moves the program counter. */
  function Exec(env: Env, code: Code, op: Op, ctl: Ctl, m: Mach): Res<Mach> {
    if IsSave(code) then
      var (c, m1) := ExecSave(env, code, op, ctl, m);
      Res(true, c, m1)
    else if IsFilter(code) then ExecFilter(env, code, op, ctl, m)
    else if IsRead(code) then
      var (ok, m1) := ExecRead(env, code, op, m);
      Res(ok, ctl, m1)
    else if IsAddress(code) then Res(true, ctl, ExecAddress(code, op, m))
    else
      var (c, m1) := ExecBounds(code, op, ctl, m);
      Res(true, c, m1)
  }

  /** The switch as a value, so that control flow can be reasoned about without the data. */
  type Executor<!M> = (Code, Op, Ctl, M) -> Res<M>

  function ExecOf(env: Env): Executor<Mach> {
    (code: Code, op: Op, ctl: Ctl, m: Mach) => Exec(env, code, op, ctl, m)
  }

  /** `x` is the switch under `env`; the trigger keeps the switch folded until a proof asks for it. */
  ghost predicate Runs(x: Executor<Mach>, env: Env) {
    forall code, op, ctl, m {:trigger Exec(env, code, op, ctl, m)} ::
      x(code, op, ctl, m) == Exec(env, code, op, ctl, m)
  }

  lemma ExecOfRuns(env: Env)
    ensures Runs(ExecOf(env), env)
  {
  }

  predicate SetsLoop(c: Code) {
    c.ResetCtx? || c.SetBreakCount? || c.SetBreakCountRegValue? || c.SetBreakCountPointerValue?
  }

  /** What control flow relies on: who may touch the loop registers and the blacklist flag. */
  ghost predicate Law(code: Code, c: Ctl, r: Ctl) {
    && (!SetsLoop(code) ==> r.breakCount == c.breakCount)
    && (r.loopCount == c.loopCount || (code.SavePtrString? && r.loopCount == c.breakCount))
    && (!IsFilter(code) ==> r.black == c.black)
  }

  ghost predicate Lawful<M(!new)>(x: Executor<M>) {
    forall code, op, ctl, m :: Law(code, ctl, x(code, op, ctl, m).ctl)
  }

  lemma ExecIsLawful(env: Env)
    ensures Lawful(ExecOf(env))
  {
    forall code, op, ctl, m ensures Law(code, ctl, ExecOf(env)(code, op, ctl, m).ctl) {
      ExecLaw(env, code, op, ctl, m);
    }
  }

  lemma ExecLaw(env: Env, code: Code, op: Op, ctl: Ctl, m: Mach)
    ensures Law(code, ctl, Exec(env, code, op, ctl, m).ctl)
  {
  }
}
