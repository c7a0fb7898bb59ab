/**
 The section of the record each argument type produces, as a function of memory and registers alone, and
 the proof that running the type's ops appends exactly that section at exactly the stated cost.
 */
module Sections {
  import opened Bytes
  import opened Memory
  import opened EventBuffer
  import opened Ops
  import opened Machine
  import opened Structured
  import opened Frames
  import opened ArgTypes
  import opened Effects

  // ----- sections

  /** A count of 0 still runs the loop body once; the bound is 32. */
  function Turns(n: nat): (t: nat)
    ensures 1 <= t <= MAX_LOOP_COUNT
  {
    if n == 0 then 1 else Min(n, MAX_LOOP_COUNT)
  }

  /** A string array as far as its strings can be read. */
  function StrArrFrames(mem: Mem, addr: u64, n: nat): seq<Frame>
    decreases n, mem
  {
    if n == 0 then []
    else if LastString(mem, addr) then PtrStringFrames(mem, addr)
    else PtrStringFrames(mem, addr) + StrArrFrames(mem, Wrap64(addr + 8), n - 1)
  }

  /** The part of it that is saved from offset `off` on: a string without room ends the array, too. */
  function SentStrings(mem: Mem, addr: u64, n: nat, off: nat): seq<Frame>
    decreases n, mem
  {
    if n == 0 then []
    else if EndsArray(mem, addr, off) then PtrStringFrames(mem, addr)
    else
      PtrStringFrames(mem, addr)
      + SentStrings(mem, Wrap64(addr + 8), n - 1, PastAll(off, PtrStringFrames(mem, addr)))
  }

  /** How many turns a string array takes: up to and including the string that ends it. */
  function SentTurns(mem: Mem, addr: u64, n: nat, off: nat): nat
    decreases n, mem
  {
    if n == 0 then 0
    else if EndsArray(mem, addr, off) then 1
    else 1 + SentTurns(mem, Wrap64(addr + 8), n - 1, PastAll(off, PtrStringFrames(mem, addr)))
  }

  /** One `struct iovec` and the buffer it describes, of which at most 4096 bytes are taken. */
  function IovPair(mem: Mem, addr: u64): seq<Frame> { [IovVector(mem, addr)] + [IovBuffer(mem, addr)] }

  function IovVector(mem: Mem, addr: u64): Frame { StructFrame(mem, addr, IOVEC_SIZE) }

  function IovBuffer(mem: Mem, addr: u64): Frame {
    var vec := Untag(addr);
    StructFrame(mem, ReadWord(mem, vec), Min(ReadWord(mem, vec + 8), MAX_BUF_READ_SIZE))
  }

  function IovFrames(mem: Mem, addr: u64, n: nat): seq<Frame>
    decreases n, mem
  {
    if n == 0 then [] else IovPair(mem, addr) + IovFrames(mem, Wrap64(addr + 16), n - 1)
  }

  /** A vector and its buffer per turn: one for a count of 0, and never more than 32. */
  lemma {:induction false} IovFramesCount(mem: Mem, addr: u64, n: nat)
    ensures |IovFrames(mem, addr, n)| == 2 * n
    ensures Turns(n) == (if n == 0 then 1 else if n > 32 then 32 else n)
    decreases n
  {
    if n > 0 { IovFramesCount(mem, Wrap64(addr + 16), n - 1); }
  }

  /** A msghdr and its control buffer, of which at most 4096 bytes are taken; `h` is the untagged address. */
  function MsghdrPair(mem: Mem, h: u64, addr: u64): seq<Frame> {
    [StructFrame(mem, addr, MSGHDR_SIZE)] + [ControlFrame(mem, h)]
  }

  function ControlFrame(mem: Mem, h: u64): Frame {
    StructFrame(mem, ReadWord(mem, h + 32), Min(ReadWord(mem, h + 40), MAX_BUF_READ_SIZE))
  }

  function Section(env: Env, t: ArgType, addr: u64): seq<Frame>
    requires WfType(t)
  {
    match t
    case Num => []
    case Ptr(inner) => [StructFrame(env.mem, addr, 8)] + Section(env, inner, Untag(addr))
    case Str => [StringFrame(env.mem, addr)]
    case Std => [StringFrame(env.mem, StdStringData(env.mem, addr))]
    case StrArr => StrArrFrames(env.mem, addr, MAX_LOOP_COUNT)
    case Struct(size) => [StructFrame(env.mem, addr, Min(size, MAX_BYTES_ARR_SIZE))]
    case Arr(elem, len) => [StructFrame(env.mem, addr, Min(ArrSize(elem, len), MAX_BYTES_ARR_SIZE))]
    case BufAll => [StructFrame(env.mem, addr, MAX_BUF_READ_SIZE)]
    case BufLen(n) => [StructFrame(env.mem, addr, n)]
    case BufReg(r) => [StructFrame(env.mem, addr, Min(env.regs[r], MAX_BUF_READ_SIZE))]
    case Vec => IovPair(env.mem, addr)
    case Iovec(r) => [Word(env.regs[r])] + IovFrames(env.mem, addr, Turns(env.regs[r]))
    case Msghdr =>
      var h := Untag(addr);
      MsghdrPair(env.mem, h, addr)
      + IovFrames(env.mem, ReadWord(env.mem, h + 16), Turns(ReadWord(env.mem, h + 24)))
  }

  /** The frames saved for it from offset `off` on; only string arrays look at the room left. */
  function Sent(env: Env, t: ArgType, addr: u64, off: nat): seq<Frame>
    requires WfType(t)
  {
    match t
    case Ptr(inner) =>
      var word := StructFrame(env.mem, addr, 8);
      [word] + Sent(env, inner, Untag(addr), Past(off, word))
    case StrArr => SentStrings(env.mem, addr, MAX_LOOP_COUNT, off)
    case _ => Section(env, t, addr)
  }

  lemma {:induction false} StringsWithRoom(mem: Mem, addr: u64, n: nat, off: nat)
    requires RoomFrom(off, StrArrFrames(mem, addr, n))
    ensures SentStrings(mem, addr, n, off) == StrArrFrames(mem, addr, n)
    decreases n
  {
    if n > 0 {
      var pair := PtrStringFrames(mem, addr);
      if LastString(mem, addr) {
      } else {
        var rest := StrArrFrames(mem, Wrap64(addr + 8), n - 1);
        var next := off + FramesLen(pair);
        RoomParts(off, pair, rest, next);
        KeptWithRoom(off, pair, 0);
        PairHasRoom(off, pair[0], pair[1]);
        StringsWithRoom(mem, Wrap64(addr + 8), n - 1, next);
      }
    }
  }

  lemma PairHasRoom(off: nat, f0: Frame, f1: Frame)
    requires RoomFrom(off, [f0, f1]) && f0.Word? && f1.Chunk?
    ensures Past(off, f0) <= BYTES_ROOM
  {
    assert [f0, f1][1..] == [f1];
    assert RoomFrom(off + FrameLen(f0), [f1]);
  }

  /** With room for the whole section, that is what is sent. */
  lemma {:induction false} SentWithRoom(env: Env, t: ArgType, addr: u64, off: nat)
    requires WfType(t) && RoomFrom(off, Section(env, t, addr))
    ensures Sent(env, t, addr, off) == Section(env, t, addr)
  {
    if t.Ptr? {
      var word, inner := StructFrame(env.mem, addr, 8), Section(env, t.inner, Untag(addr));
      assert ([word] + inner)[0] == word && ([word] + inner)[1..] == inner;
      SentWithRoom(env, t.inner, Untag(addr), Past(off, word));
    } else if t.StrArr? {
      StringsWithRoom(env.mem, addr, MAX_LOOP_COUNT, off);
    }
  }

  /** Interpreter turns for the section, saved from offset `off` on. */
  function TypeCost(env: Env, t: ArgType, addr: u64, off: nat): nat
    requires WfType(t)
  {
    match t
    case Num => 0
    case Ptr(inner) => 2 + TypeCost(env, inner, Untag(addr), Past(off, StructFrame(env.mem, addr, 8)))
    case Str => 1
    case StrArr => 2 + 3 * SentTurns(env.mem, addr, MAX_LOOP_COUNT, off)
    case BufReg(_) => 4
    case Vec => 8
    case Iovec(r) => 4 + 12 * Turns(env.regs[r])
    case Msghdr => 15 + 12 * Turns(ReadWord(env.mem, Untag(addr) + 24))
    case _ => 2
  }

  /** What the section, saved from offset `off` on, leaves in `str_len`: only a string that was saved sets it. */
  function LengthSet(mem: Mem, t: ArgType, addr: u64, off: nat): Option<u32> {
    match t
    case Ptr(inner) => LengthSet(mem, inner, Untag(addr), Past(off, StructFrame(mem, addr, 8)))
    case Str => TextLen(mem, addr, off)
    case Std => TextLen(mem, StdStringData(mem, addr), off)
    case _ => None
  }

  /** The address a string or buffer filter of this type looks at. */
  function DataAddr(mem: Mem, t: ArgType, addr: u64): u64 {
    if t.Std? then Untag(StdStringData(mem, addr)) else Untag(addr)
  }

  // ----- strings by what memory holds

  /**
   A text that ends within 4095 characters is sent whole, NUL included, and measured so if it finds room; one that is
   lost is an empty section and is not measured.
   */
  lemma TextFrame(mem: Mem, addr: u64, s: seq<byte>, off: nat)
    requires HoldsAt(mem, addr % 0x1_0000_0000_0000, s) && 0 !in s && 0 < |s| < 4096
    ensures At(mem, addr % 0x1_0000_0000_0000 + |s|, 0) ==>
              && StringFrame(mem, addr) == Chunk(|s| + 1, s + [0])
              && TextLen(mem, addr, off) == if off <= 32000 - 4101 then Some(|s| + 1) else None
    ensures addr % 0x1_0000_0000_0000 + |s| !in mem.bytes ==>
              StringFrame(mem, addr) == Chunk(0, []) && TextLen(mem, addr, off) == None
  {
    TextIsRead(mem, Untag(addr), s);
  }

  /**
   A `std::string` whose 24th byte has its top bit set is long: the text sent, filtered and measured is the one
   behind the pointer in its first word.
   */
  lemma LongStdString(env: Env, t: ArgType, addr: u64, last: byte, p: u64, off: nat)
    requires t.Std? && last >= 0x80 && At(env.mem, addr % 0x1_0000_0000_0000 + 23, last)
    requires HoldsAt(env.mem, addr % 0x1_0000_0000_0000, LE(8, p))
    ensures Section(env, t, addr) == Sent(env, t, addr, off) == [StringFrame(env.mem, p)]
    ensures DataAddr(env.mem, t, addr) == p % 0x1_0000_0000_0000
    ensures LengthSet(env.mem, t, addr, off) == TextLen(env.mem, p, off)
  {
    var base := Untag(addr);
    ReadHolds(env.mem, base + 23, [last]);
    WordHolds(env.mem, base, p);
  }

  /** Otherwise, or when that byte is not mapped, the text lies in the object itself. */
  lemma ShortStdString(env: Env, t: ArgType, addr: u64, off: nat)
    requires t.Std?
    requires var flag := addr % 0x1_0000_0000_0000 + 23;
             flag in env.mem.bytes ==> env.mem.bytes[flag] < 0x80
    ensures var base := addr % 0x1_0000_0000_0000;
            && Section(env, t, addr) == Sent(env, t, addr, off) == [StringFrame(env.mem, base)]
            && DataAddr(env.mem, t, addr) == base
            && LengthSet(env.mem, t, addr, off) == TextLen(env.mem, base, off)
  {
    var flag := Untag(addr) + 23;
    if flag in env.mem.bytes {
      ReadHolds(env.mem, flag, [env.mem.bytes[flag]]);
    } else {
      assert Read(env.mem, flag, 1) == None;
      assert Zeros(1)[0] == 0;
    }
  }

  /** So a long string of 1 to 4095 characters is recorded whole, wherever it lies and whatever the tags. */
  lemma LongStdText(env: Env, t: ArgType, addr: u64, last: byte, p: u64, s: seq<byte>)
    requires t.Std? && last >= 0x80 && At(env.mem, addr % 0x1_0000_0000_0000 + 23, last)
    requires HoldsAt(env.mem, addr % 0x1_0000_0000_0000, LE(8, p))
    requires HoldsAt(env.mem, p % 0x1_0000_0000_0000, s) && At(env.mem, p % 0x1_0000_0000_0000 + |s|, 0)
    requires 0 !in s && 0 < |s| < 4096
    ensures Section(env, t, addr) == [Chunk(|s| + 1, s + [0])]
  {
    LongStdString(env, t, addr, last, p, 0);
    TextFrame(env.mem, p, s, 0);
  }

  // ----- one iovec

  lemma PairPart(s: Sem, rest: seq<Op>, ctl: Ctl, m: Mach) returns (m1: Mach)
    requires Valid(s) && !ctl.black
    ensures s.run(PairOps(rest), ctl, m) == s.run(rest, ctl, m1)
    ensures s.wrote(m, m1, [IovVector(s.env.mem, m.readAddr)])
    ensures m1.readAddr == Untag(m.readAddr) && m1.tmpValue == m.tmpValue && m1.strLen == m.strLen
  {
    var a := m.(readLen := 16);
    SetLen(s, 16, [Op(SaveStruct, Skip, Skip, 0)] + rest, ctl, m);
    m1 := Structure(s, rest, ctl, a);
    Moved(s, m, a, m1, m1, [IovVector(s.env.mem, m.readAddr)]);
  }

  lemma VectorPart(s: Sem, rest: seq<Op>, ctl: Ctl, m: Mach) returns (m1: Mach)
    requires Valid(s) && !ctl.black
    ensures s.run(VectorOps(rest), ctl, m) == s.run(rest, ctl, m1)
    ensures s.wrote(m, m1, [IovVector(s.env.mem, m.readAddr)])
    ensures m1.readAddr == Untag(m.readAddr) && m1.tmpValue == m.readAddr && m1.strLen == m.strLen
  {
    var a := m.(tmpValue := m.readAddr);
    Move(s, SetTmpValue, 0, PairOps(rest), ctl, m);
    m1 := PairPart(s, rest, ctl, a);
    Moved(s, m, a, m1, m1, [IovVector(s.env.mem, m.readAddr)]);
  }

  lemma LocatePart(s: Sem, rest: seq<Op>, ctl: Ctl, m: Mach) returns (m1: Mach)
    requires Valid(s) && !ctl.black && m.readAddr < U48
    ensures s.run(LocateOps(rest), ctl, m) == s.run(rest, ctl, m1)
    ensures m1 == m.(readLen := Min(ReadWord(s.env.mem, m.readAddr + 8), MAX_BUF_READ_SIZE),
                     pointerValue := ReadWord(s.env.mem, m.readAddr), readAddr := ReadWord(s.env.mem, m.readAddr))
  {
    var ops3 := [Op(MovePointerValue, Skip, Skip, 0)] + rest;
    var ops2 := [Op(ReadPointer, Skip, Skip, 0)] + ops3;
    var ops1 := [Op(ReadPointer, AddOffset, SetReadLenPointerValue, 8)] + ops2;
    SetLen(s, 4096, ops1, ctl, m);
    var a1 := m.(readLen := 4096);
    PtrLen(s, 8, ops2, ctl, a1);
    var len := ReadWord(s.env.mem, m.readAddr + 8);
    var a2 := a1.(pointerValue := len, readLen := Min(len, 4096));
    Pointer(s, ops3, ctl, a2);
    var a3 := a2.(pointerValue := ReadWord(s.env.mem, m.readAddr));
    Move(s, MovePointerValue, 0, rest, ctl, a3);
    m1 := a3.(readAddr := a3.pointerValue);
  }

  lemma BufferPart(s: Sem, rest: seq<Op>, ctl: Ctl, m: Mach) returns (m1: Mach)
    requires Valid(s) && !ctl.black && m.readLen <= MAX_BUF_READ_SIZE
    ensures s.run(BufferOps(rest), ctl, m) == s.run(rest, ctl, m1)
    ensures s.wrote(m, m1, [StructFrame(s.env.mem, m.readAddr, m.readLen)])
    ensures m1.readAddr == Wrap64(m.tmpValue + 16) && m1.strLen == m.strLen
  {
    var ops2 := [Op(AddOffset, Skip, Skip, 16)] + rest;
    var ops1 := [Op(MoveTmpValue, Skip, Skip, 0)] + ops2;
    var a1 := Structure(s, ops1, ctl, m);
    Move(s, MoveTmpValue, 0, ops2, ctl, a1);
    var a2 := a1.(readAddr := a1.tmpValue);
    Move(s, AddOffset, 16, rest, ctl, a2);
    m1 := a2.(readAddr := Wrap64(a2.readAddr + 16));
    Moved(s, m, m, a1, m1, [StructFrame(s.env.mem, m.readAddr, m.readLen)]);
  }

  lemma IovTurn(s: Sem, ctl: Ctl, m: Mach) returns (m1: Mach)
    requires Valid(s) && !ctl.black
    ensures s.run(IovecBody(), ctl, m) == Go(ctl, m1)
    ensures s.wrote(m, m1, IovPair(s.env.mem, m.readAddr))
    ensures m1.readAddr == Wrap64(m.readAddr + 16) && m1.strLen == m.strLen
  {
    var f0, f1 := IovVector(s.env.mem, m.readAddr), IovBuffer(s.env.mem, m.readAddr);
    var a1 := VectorPart(s, LocateOps(BufferOps([])), ctl, m);
    var a2 := LocatePart(s, BufferOps([]), ctl, a1);
    m1 := BufferPart(s, [], ctl, a2);
    Moved(s, a1, a2, m1, m1, [f1]);
    Nothing(s, ctl, m1);
    WroteThen(s, m, a1, m1, [f0], [f1]);
  }

  /** The single iovec type: the vector and its buffer, and no count in front. */
  lemma VecRuns(s: Sem, ctl: Ctl, m: Mach) returns (m1: Mach)
    requires Valid(s) && !ctl.black
    ensures s.run(VecOps(), ctl, m) == Go(ctl, m1)
    ensures s.wrote(m, m1, IovPair(s.env.mem, m.readAddr)) && m1.strLen == m.strLen
  {
    var f0, f1 := IovVector(s.env.mem, m.readAddr), IovBuffer(s.env.mem, m.readAddr);
    var last := [Op(SaveStruct, Skip, Skip, 0)] + [];
    var a1 := PairPart(s, LocateOps(last), ctl, m);
    var a2 := LocatePart(s, last, ctl, a1);
    m1 := Structure(s, [], ctl, a2);
    Moved(s, a1, a2, m1, m1, [f1]);
    Nothing(s, ctl, m1);
    WroteThen(s, m, a1, m1, [f0], [f1]);
  }

  /** `body` handles one iovec. */
  ghost predicate HandlesIovec(s: Sem, body: seq<Op>) {
    && Body(body) && OpsCost(body) == 11
    && forall ctl: Ctl, m: Mach {:trigger s.run(body, ctl, m)} :: !ctl.black ==>
         var r := s.run(body, ctl, m);
         && r.Go? && r.ctl == ctl && s.wrote(m, r.m, IovPair(s.env.mem, m.readAddr))
         && r.m.readAddr == Wrap64(m.readAddr + 16) && r.m.strLen == m.strLen
  }

  /** One turn of the loop over iovecs. */
  lemma IovTurnOf(s: Sem, body: seq<Op>, ctl: Ctl, m: Mach) returns (m1: Mach)
    requires Valid(s) && HandlesIovec(s, body) && !ctl.black
    ensures s.run(body, ctl, m) == Go(ctl, m1) && s.wrote(m, m1, IovPair(s.env.mem, m.readAddr))
    ensures m1.readAddr == Wrap64(m.readAddr + 16) && m1.strLen == m.strLen
  {
    m1 := s.run(body, ctl, m).m;
  }

  lemma IovFramesAre(mem: Mem, addr: u64, left: nat)
    requires left > 0
    ensures IovFrames(mem, addr, left) == IovPair(mem, addr) + IovFrames(mem, Wrap64(addr + 16), left - 1)
    ensures left == 1 ==> IovFrames(mem, addr, left) == IovPair(mem, addr)
  {
  }

  /** From a turn of the loop on, `m1` is reached in `cost` turns of the interpreter with `fs` saved. */
  ghost predicate LoopsTo(s: Sem, body: seq<Op>, ctl: Ctl, m: Mach, m1: Mach, fs: seq<Frame>, cost: nat) {
    && s.loop(body, ctl, m).0 == Go(ctl.(loopCount := 0, breakCount := 0), m1) && s.loop(body, ctl, m).1 == cost
    && s.wrote(m, m1, fs) && m1.strLen == m.strLen
  }

  lemma LoopsLast(s: Sem, body: seq<Op>, ctl: Ctl, m: Mach, ctl1: Ctl, m1: Mach, fs: seq<Frame>)
    requires Valid(s) && OpenLoop(body, ctl) && s.run(body, ctl, m) == Go(ctl1, m1) && ctl1.loopCount >= ctl1.breakCount
    requires ctl1.(loopCount := 0) == ctl.(loopCount := 0) && s.wrote(m, m1, fs) && m1.strLen == m.strLen
    ensures LoopsTo(s, body, ctl, m, m1, fs, OpsCost(body) + 1)
  {
    LoopTurn(s, body, ctl, m, ctl1, m1);
  }

  lemma LoopsMore(s: Sem, body: seq<Op>, ctl: Ctl, m: Mach, a: Mach, m1: Mach, first: seq<Frame>, rest: seq<Frame>,
                  cost: nat)
    requires Valid(s) && OpenLoop(body, ctl) && s.run(body, ctl, m) == Go(ctl, a) && ctl.loopCount < ctl.breakCount
    requires s.wrote(m, a, first) && a.strLen == m.strLen
    requires LoopsTo(s, body, ctl.(loopCount := ctl.loopCount + 1), a, m1, rest, cost)
    ensures LoopsTo(s, body, ctl, m, m1, first + rest, OpsCost(body) + 1 + cost)
  {
    LoopTurn(s, body, ctl, m, ctl, a);
    WroteThen(s, m, a, m1, first, rest);
  }

  /** The loop over iovecs, from any turn on, with `left` turns to go. */
  lemma {:induction false} IovLoop(s: Sem, body: seq<Op>, ctl: Ctl, m: Mach, left: nat) returns (m1: Mach)
    requires Valid(s) && HandlesIovec(s, body) && !ctl.black && ctl.loopCount <= ctl.breakCount
    requires if ctl.breakCount == 0 then left == 1 else left == ctl.breakCount - ctl.loopCount + 1
    ensures LoopsTo(s, body, ctl, m, m1, IovFrames(s.env.mem, m.readAddr, left), 12 * left)
    decreases left
  {
    var a := IovTurnOf(s, body, ctl, m);
    IovFramesAre(s.env.mem, m.readAddr, left);
    var pair := IovPair(s.env.mem, m.readAddr);
    if ctl.loopCount >= ctl.breakCount {
      m1 := a;
      LoopsLast(s, body, ctl, m, ctl, a, pair);
    } else {
      m1 := IovLoop(s, body, ctl.(loopCount := ctl.loopCount + 1), a, left - 1);
      LoopsMore(s, body, ctl, m, a, m1, pair, IovFrames(s.env.mem, a.readAddr, left - 1), 12 * (left - 1));
    }
  }

  // ----- one string of an array

  /** `body` handles one pointer of a string array. */
  ghost predicate HandlesString(s: Sem, body: seq<Op>) {
    && Body(body) && OpsCost(body) == 2
    && forall ctl: Ctl, m: Mach {:trigger s.run(body, ctl, m)} :: !ctl.black ==>
         var r := s.run(body, ctl, m);
         && r.Go? && r.ctl == AfterString(s.env.mem, ctl, m)
         && s.wrote(m, r.m, PtrStringFrames(s.env.mem, m.readAddr))
         && r.m.readAddr == Wrap64(m.readAddr + 8) && r.m.strLen == m.strLen
  }

  lemma StringTurn(s: Sem, ctl: Ctl, m: Mach) returns (m1: Mach)
    requires Valid(s) && !ctl.black
    ensures s.run(StrArrBody(), ctl, m) == Go(AfterString(s.env.mem, ctl, m), m1)
    ensures s.wrote(m, m1, PtrStringFrames(s.env.mem, m.readAddr))
    ensures m1.readAddr == Wrap64(m.readAddr + 8) && m1.strLen == m.strLen
  {
    var ctl1 := AfterString(s.env.mem, ctl, m);
    var a1 := PtrString(s, [Op(AddOffset, Skip, Skip, 8)] + [], ctl, m);
    Move(s, AddOffset, 8, [], ctl1, a1);
    m1 := a1.(readAddr := Wrap64(a1.readAddr + 8));
    Moved(s, m, m, a1, m1, PtrStringFrames(s.env.mem, m.readAddr));
    Nothing(s, ctl1, m1);
  }

  /** One turn of the loop over a string array. */
  lemma StringTurnOf(s: Sem, body: seq<Op>, ctl: Ctl, m: Mach) returns (m1: Mach)
    requires Valid(s) && HandlesString(s, body) && !ctl.black
    ensures s.run(body, ctl, m) == Go(AfterString(s.env.mem, ctl, m), m1)
    ensures s.wrote(m, m1, PtrStringFrames(s.env.mem, m.readAddr))
    ensures m1.readAddr == Wrap64(m.readAddr + 8) && m1.strLen == m.strLen
    ensures Off(m1) == PastAll(Off(m), PtrStringFrames(s.env.mem, m.readAddr))
  {
    m1 := s.run(body, ctl, m).m;
    EndsAt(s, m, m1, PtrStringFrames(s.env.mem, m.readAddr));
  }

  lemma SentStringsAre(mem: Mem, addr: u64, left: nat, off: nat, next: nat)
    requires left > 0 && next == PastAll(off, PtrStringFrames(mem, addr))
    ensures EndsArray(mem, addr, off) || left == 1 ==>
              SentStrings(mem, addr, left, off) == PtrStringFrames(mem, addr) && SentTurns(mem, addr, left, off) == 1
    ensures !EndsArray(mem, addr, off) ==>
              var at := Wrap64(addr + 8);
              && SentStrings(mem, addr, left, off) == PtrStringFrames(mem, addr) + SentStrings(mem, at, left - 1, next)
              && SentTurns(mem, addr, left, off) == 1 + SentTurns(mem, at, left - 1, next)
  {
  }

  /** The loop over a string array, from any turn on, with at most `left` turns to go. */
  lemma {:induction false} StringsLoop(s: Sem, body: seq<Op>, ctl: Ctl, m: Mach, left: nat) returns (m1: Mach)
    requires Valid(s) && HandlesString(s, body) && !ctl.black
    requires 0 < ctl.loopCount <= ctl.breakCount && left == ctl.breakCount - ctl.loopCount + 1
    ensures LoopsTo(s, body, ctl, m, m1, SentStrings(s.env.mem, m.readAddr, left, Off(m)),
                  3 * SentTurns(s.env.mem, m.readAddr, left, Off(m)))
    decreases left
  {
    var a := StringTurnOf(s, body, ctl, m);
    var pair := PtrStringFrames(s.env.mem, m.readAddr);
    SentStringsAre(s.env.mem, m.readAddr, left, Off(m), Off(a));
    if EndsArray(s.env.mem, m.readAddr, Off(m)) || ctl.loopCount >= ctl.breakCount {
      m1 := a;
      LoopsLast(s, body, ctl, m, AfterString(s.env.mem, ctl, m), a, pair);
    } else {
      m1 := StringsLoop(s, body, ctl.(loopCount := ctl.loopCount + 1), a, left - 1);
      LoopsMore(s, body, ctl, m, a, m1, pair, SentStrings(s.env.mem, a.readAddr, left - 1, Off(a)),
                3 * SentTurns(s.env.mem, a.readAddr, left - 1, Off(a)));
    }
  }
}
