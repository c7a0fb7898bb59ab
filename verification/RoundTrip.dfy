/**
 Decoding what was emitted: each type's parser returns what memory and registers held and consumes exactly
 its section, and a whole point's record decodes to the values of its arguments.
 */
module RoundTrip {
  import opened Bytes
  import opened Memory
  import opened EventBuffer
  import opened Machine
  import opened Interpreter
  import opened Frames
  import opened ArgTypes
  import opened Sections
  import opened PointArgs
  import opened Records
  import opened Runs
  import opened Decoder

  // ----- what a section is about, read straight from memory

  function Readable(mem: Mem, addr: u64, n: nat): seq<byte> {
    match Read(mem, Untag(addr), n)
    case Some(d) => d
    case None => []
  }

  function StrBytes(mem: Mem, addr: u64): seq<byte> {
    match ReadStr(mem, Untag(addr))
    case Some(d) => d
    case None => []
  }

  /** The elements of an array as they lie in memory. */
  function MemElements(mem: Mem, addr: nat, elem: nat, n: nat): seq<nat>
    decreases n
  {
    if n == 0 then [] else [FromLE(ReadOrZero(mem, addr, elem))] + MemElements(mem, addr + elem, elem, n - 1)
  }

  /** The strings up to the first unreadable one, at most `n`. */
  function MemStrings(mem: Mem, addr: u64, n: nat): seq<ArrayString>
    decreases n, mem
  {
    if n == 0 || LastString(mem, addr) then []
    else
      var ptr := ReadWord(mem, Untag(addr));
      [ArrayString(ptr, StrBytes(mem, ptr))] + MemStrings(mem, Wrap64(addr + 8), n - 1)
  }

  function MemVector(mem: Mem, addr: u64): Vector {
    var v := Untag(addr);
    var base, length := ReadWord(mem, v), ReadWord(mem, v + 8);
    Vector(base, length, Readable(mem, base, Min(length, MAX_BUF_READ_SIZE)))
  }

  /** The i-th vector lies 16 * i bytes behind the first. */
  function MemVectors(mem: Mem, addr: u64, n: nat): seq<Vector>
    decreases n, mem
  {
    if n == 0 then [] else [MemVector(mem, addr)] + MemVectors(mem, Wrap64(addr + 16), n - 1)
  }

  function Meaning(env: Env, t: ArgType, addr: u64): Value {
    match t
    case Num => Plain
    case Ptr(inner) => Pointee(ReadWord(env.mem, Untag(addr)), Meaning(env, inner, Untag(addr)))
    case Str => Raw(StrBytes(env.mem, addr))
    case Std => Raw(StrBytes(env.mem, StdStringData(env.mem, addr)))
    case Struct(size) => if Readable(env.mem, addr, size) == [] then Missing else Raw(Readable(env.mem, addr, size))
    case Arr(elem, len) =>
      Elements(if Readable(env.mem, addr, elem * len) == [] then [] else MemElements(env.mem, Untag(addr), elem, len))
    case StrArr => Strings(MemStrings(env.mem, addr, MAX_LOOP_COUNT))
    case BufAll => Raw(Readable(env.mem, addr, MAX_BUF_READ_SIZE))
    case BufLen(n) => Raw(Readable(env.mem, addr, n))
    case BufReg(r) =>
      Raw(if r < REG_ARM64_MAX then Readable(env.mem, addr, Min(env.regs[r], MAX_BUF_READ_SIZE)) else [])
    case Vec => Plain
    case Iovec(r) =>
      if r < REG_ARM64_MAX then Vectors(env.regs[r], MemVectors(env.mem, addr, env.regs[r])) else Plain
    case Msghdr =>
      var h := Untag(addr);
      Header(Readable(env.mem, addr, MSGHDR_SIZE),
             Readable(env.mem, ReadWord(env.mem, h + 32), Min(ReadWord(env.mem, h + 40), MAX_BUF_READ_SIZE)),
             MemVectors(env.mem, ReadWord(env.mem, h + 16), ReadWord(env.mem, h + 24)))
  }

  /** A long `std::string` of 1 to 4095 characters decodes to the text behind the pointer in its first word. */
  lemma LongStdMeans(env: Env, t: ArgType, addr: u64, last: byte, p: u64, s: seq<byte>)
    requires t.Std? && last >= 0x80 && At(env.mem, addr % 0x1_0000_0000_0000 + 23, last)
    requires HoldsAt(env.mem, addr % 0x1_0000_0000_0000, LE(8, p))
    requires HoldsAt(env.mem, p % 0x1_0000_0000_0000, s) && At(env.mem, p % 0x1_0000_0000_0000 + |s|, 0)
    requires 0 !in s && 0 < |s| < 4096
    ensures Meaning(env, t, addr) == Raw(s + [0])
  {
    LongStdText(env, t, addr, last, p, s);
    LongStdString(env, t, addr, last, p, 0);
  }

  predicate VectorsReadable(mem: Mem, addr: u64, n: nat)
    decreases n, mem
  {
    n == 0 || (Read(mem, Untag(addr), 16).Some? && VectorsReadable(mem, Wrap64(addr + 16), n - 1))
  }

  /** The sizes and counts the two sides agree on; a single iovec is parsed as if a count were in front of it. */
  predicate Decodable(env: Env, t: ArgType, addr: u64) {
    match t
    case Ptr(inner) => Decodable(env, inner, Untag(addr))
    case Struct(size) => size <= MAX_BYTES_ARR_SIZE
    case Arr(elem, len) => (elem == 4 || elem == 8) && elem * len <= MAX_BYTES_ARR_SIZE
    case StrArr => 0 !in env.mem.bytes
    case Vec => false
    case Iovec(r) =>
      r < REG_ARM64_MAX && 1 <= env.regs[r] <= MAX_IOV_COUNT && VectorsReadable(env.mem, addr, env.regs[r])
    case Msghdr =>
      var h := Untag(addr);
      var n := ReadWord(env.mem, h + 24);
      && Read(env.mem, h, MSGHDR_SIZE).Some? && 1 <= n <= MAX_IOV_COUNT
      && VectorsReadable(env.mem, ReadWord(env.mem, h + 16), n)
    case _ => true
  }

  // ----- frames

  lemma TakeFront(a: seq<byte>, b: seq<byte>)
    ensures Take(a + b, |a|) == Got(a, b)
  {
  }

  lemma WordParsed(v: u64, k: u8, tail: seq<byte>)
    ensures TakeWord(FrameBytes(Word(v), k) + tail) == Got(v, tail)
  {
    var f := FrameBytes(Word(v), k);
    TakeFront(f, tail);
    assert f[1..] == LE(8, v);
    U64RoundTrip(v);
  }

  lemma LenParsed(n: u32, d: seq<byte>, k: u8, tail: seq<byte>)
    ensures TakeLen(FrameBytes(Chunk(n, d), k) + tail) == Got(n, d + tail)
  {
    var head := [k] + LE(4, n);
    assert FrameBytes(Chunk(n, d), k) + tail == head + (d + tail);
    TakeFront(head, d + tail);
    assert head[1..] == LE(4, n);
    U32RoundTrip(n);
  }

  lemma ChunkParsed(d: seq<byte>, k: u8, tail: seq<byte>)
    requires |d| < U32
    ensures TakeChunk(FrameBytes(Chunk(|d|, d), k) + tail) == Got(d, tail)
  {
    LenParsed(|d|, d, k, tail);
    TakeFront(d, tail);
  }

  /** The bytes of `fs` with more behind them. */
  function Wire(fs: seq<Frame>, k: nat, tail: seq<byte>): seq<byte> {
    if fs == [] then tail else FrameBytes(fs[0], Wrap8(k)) + Wire(fs[1..], k + 1, tail)
  }

  lemma {:induction false} WireIs(fs: seq<Frame>, k: nat, tail: seq<byte>)
    ensures Wire(fs, k, tail) == Encode(fs, k) + tail
    decreases |fs|
  {
    if fs == [] {
      assert [] + tail == tail;
    } else {
      WireIs(fs[1..], k + 1, tail);
      Associate(FrameBytes(fs[0], Wrap8(k)), Encode(fs[1..], k + 1), tail);
    }
  }

  lemma {:induction false} WireJoin(a: seq<Frame>, b: seq<Frame>, k: nat, next: nat, tail: seq<byte>)
    requires next == k + |a|
    ensures Wire(a + b, k, tail) == Wire(a, k, Wire(b, next, tail))
    decreases |a|
  {
    if a == [] {
      assert a + b == b;
    } else {
      assert (a + b)[0] == a[0] && (a + b)[1..] == a[1..] + b;
      WireJoin(a[1..], b, k + 1, next, tail);
    }
  }

  /** `Wire` as a value; the trigger keeps it folded until a proof asks for it. */
  type Wiring = (seq<Frame>, nat, seq<byte>) -> seq<byte>

  ghost predicate IsWire(w: Wiring) {
    forall fs: seq<Frame>, k: nat, tail: seq<byte> {:trigger Wire(fs, k, tail)} :: w(fs, k, tail) == Wire(fs, k, tail)
  }

  function WireOf(): Wiring { (fs: seq<Frame>, k: nat, tail: seq<byte>) => Wire(fs, k, tail) }

  lemma WireNone(w: Wiring, k: nat, tail: seq<byte>)
    requires IsWire(w)
    ensures w([], k, tail) == tail
  {
    assert Wire([], k, tail) == tail;
  }

  lemma WireFirst(w: Wiring, f: Frame, rest: seq<Frame>, k: nat, next: nat, tail: seq<byte>)
    requires IsWire(w) && next == k + 1
    ensures w([f] + rest, k, tail) == FrameBytes(f, Wrap8(k)) + w(rest, next, tail)
  {
    assert ([f] + rest)[0] == f && ([f] + rest)[1..] == rest;
    assert Wire([f] + rest, k, tail) == FrameBytes(f, Wrap8(k)) + Wire(rest, next, tail);
  }

  lemma WireOnly(w: Wiring, f: Frame, k: nat, tail: seq<byte>)
    requires IsWire(w)
    ensures w([f], k, tail) == FrameBytes(f, Wrap8(k)) + tail
  {
    assert [f] == [f] + [];
    WireFirst(w, f, [], k, k + 1, tail);
    WireNone(w, k + 1, tail);
  }

  /** Two runs of frames, the second behind the first. */
  lemma WireThen(w: Wiring, a: seq<Frame>, b: seq<Frame>, k: nat, next: nat, tail: seq<byte>)
    requires IsWire(w) && next == k + |a|
    ensures w(a + b, k, tail) == w(a, k, w(b, next, tail))
  {
    WireJoin(a, b, k, next, tail);
    assert w(a, k, Wire(b, next, tail)) == Wire(a, k, Wire(b, next, tail));
  }

  // ----- memory in pieces

  /** Part of a readable stretch. */
  lemma ReadPart(mem: Mem, addr: int, n: nat, off: nat, m: nat)
    requires Read(mem, addr, n).Some? && off + m <= n
    ensures Read(mem, addr + off, m) == Some(Read(mem, addr, n).value[off..off + m])
  {
    var at := addr + off;
    ReadSpec(mem, addr, n);
    ReadSpec(mem, at, m);
    assert Mapped(mem, at, m);
    var d, e := Read(mem, addr, n).value, Read(mem, at, m).value;
    forall j | 0 <= j < m ensures e[j] == d[off..off + m][j] {
      var i := at + j;
      assert e[i - at] == mem.bytes[i] && d[i - addr] == mem.bytes[i];
    }
    assert e == d[off..off + m];
  }

  /** A word in the middle of a readable stretch. */
  lemma WordInside(mem: Mem, addr: nat, i: nat, n: nat)
    requires Read(mem, addr, n).Some? && i + 8 <= n
    ensures ReadWord(mem, addr + i) == FromLE(Read(mem, addr, n).value[i..i + 8])
  {
    ReadPart(mem, addr, n, i, 8);
  }

  // ----- sections of bytes

  lemma BytesParsed(w: Wiring, mem: Mem, addr: u64, n: nat, k: nat, tail: seq<byte>)
    requires IsWire(w)
    requires n <= MAX_BYTES_ARR_SIZE
    ensures TakeChunk(w([StructFrame(mem, addr, n)], k, tail)) == Got(Readable(mem, addr, n), tail)
  {
    WireOnly(w, StructFrame(mem, addr, n), k, tail);
    ChunkParsed(Readable(mem, addr, n), Wrap8(k), tail);
  }

  lemma StringParsed(w: Wiring, mem: Mem, addr: u64, k: nat, tail: seq<byte>)
    requires IsWire(w)
    ensures TakeChunk(w([StringFrame(mem, addr)], k, tail)) == Got(StrBytes(mem, addr), tail)
  {
    WireOnly(w, StringFrame(mem, addr), k, tail);
    ChunkParsed(StrBytes(mem, addr), Wrap8(k), tail);
  }

  lemma StructParsed(w: Wiring, mem: Mem, addr: u64, size: u32, k: nat, tail: seq<byte>)
    requires IsWire(w)
    requires size <= MAX_BYTES_ARR_SIZE
    ensures TakeStruct(w([StructFrame(mem, addr, size)], k, tail), size)
         == Got(if Readable(mem, addr, size) == [] then None else Some(Readable(mem, addr, size)), tail)
  {
    var d := Readable(mem, addr, size);
    WireOnly(w, StructFrame(mem, addr, size), k, tail);
    LenParsed(|d|, d, Wrap8(k), tail);
    TakeFront(d, tail);
    if d == [] { assert d + tail == tail; }
  }

  lemma StructSizeDecides(w: Wiring, mem: Mem, addr: u64, size: u32, k: nat, tail: seq<byte>)
    requires IsWire(w)
    ensures TakeStruct(w([StructFrame(mem, addr, Min(size, MAX_BYTES_ARR_SIZE))], k, tail), size).Got?
       <==> size <= MAX_BYTES_ARR_SIZE || Read(mem, Untag(addr), MAX_BYTES_ARR_SIZE).None?
  {
    if size <= MAX_BYTES_ARR_SIZE {
      StructParsed(w, mem, addr, size, k, tail);
    } else {
      var d := Readable(mem, addr, MAX_BYTES_ARR_SIZE);
      WireOnly(w, StructFrame(mem, addr, MAX_BYTES_ARR_SIZE), k, tail);
      LenParsed(|d|, d, Wrap8(k), tail);
    }
  }

  lemma SplitFirst(d: seq<byte>, elem: nat, n: nat, left: nat, size: nat)
    requires n == left + 1 && |d| == elem * n && size == elem * left
    ensures |d| == elem + size && Split(d, elem, n) == [FromLE(d[..elem])] + Split(d[elem..], elem, left)
  {
    ElemFits(elem, n);
  }

  lemma ElementsJoin(mem: Mem, addr: nat, elem: nat, n: nat, left: nat, front: seq<byte>, more: seq<nat>)
    requires n == left + 1 && Read(mem, addr, elem) == Some(front) && more == MemElements(mem, addr + elem, elem, left)
    ensures MemElements(mem, addr, elem, n) == [FromLE(front)] + more
  {
  }

  lemma {:induction false} ElementsParsed(mem: Mem, addr: nat, elem: nat, n: nat, size: nat)
    requires size == elem * n && Read(mem, addr, size).Some?
    ensures Split(Read(mem, addr, size).value, elem, n) == MemElements(mem, addr, elem, n)
    decreases n
  {
    if n > 0 {
      var d, left, less := Read(mem, addr, size).value, n - 1, elem * (n - 1);
      SplitFirst(d, elem, n, left, less);
      ReadPart(mem, addr, size, 0, elem);
      ReadPart(mem, addr, size, elem, less);
      var front, back := d[..elem], d[elem..];
      assert d[0..elem] == front && d[elem..size] == back;
      ElementsParsed(mem, addr + elem, elem, left, less);
      ElementsJoin(mem, addr, elem, n, left, front, Split(back, elem, left));
    }
  }

  lemma ArrayOf(s: seq<byte>, elem: u32, len: u32, size: nat, d: seq<byte>, tail: seq<byte>)
    requires size == elem * len && size <= MAX_BYTES_ARR_SIZE && (|d| == size || d == [])
    requires TakeLen(s) == Got(|d|, d + tail)
    ensures ParseArray(s, elem, len) == Got(Elements(if d == [] then [] else Split(d, elem, len)), tail)
  {
    TakeFront(d, tail);
    if d == [] { assert d + tail == tail; }
  }

  lemma ArrayParsed(w: Wiring, mem: Mem, addr: u64, elem: u32, len: u32, k: nat, tail: seq<byte>)
    requires IsWire(w)
    requires 0 < elem && elem * len <= MAX_BYTES_ARR_SIZE
    ensures var d := Readable(mem, addr, elem * len);
            ParseArray(w([StructFrame(mem, addr, elem * len)], k, tail), elem, len)
              == Got(Elements(if d == [] then [] else MemElements(mem, Untag(addr), elem, len)), tail)
  {
    var size: nat := elem * len;
    var d, f := Readable(mem, addr, size), StructFrame(mem, addr, size);
    WireOnly(w, f, k, tail);
    LenParsed(|d|, d, Wrap8(k), tail);
    ArrayOf(w([f], k, tail), elem, len, size, d, tail);
    if d != [] { ElementsParsed(mem, Untag(addr), elem, len, size); }
  }

  // ----- string arrays

  lemma OneStringParsed(w: Wiring, mem: Mem, addr: u64, k: nat, tail: seq<byte>)
    requires IsWire(w)
    requires 0 !in mem.bytes
    ensures ParseString(w(PtrStringFrames(mem, addr), k, tail))
         == Got(if LastString(mem, addr) then None
                else Some(ArrayString(ReadWord(mem, Untag(addr)), StrBytes(mem, ReadWord(mem, Untag(addr))))), tail)
  {
    var ptr := ReadWord(mem, Untag(addr));
    var d := StrBytes(mem, ptr);
    var last := LastString(mem, addr);
    var f := if last then Chunk(STRARR_MAGIC_LEN, []) else Chunk(|d|, d);
    assert PtrStringFrames(mem, addr) == [Word(ptr)] + [f];
    WireFirst(w, Word(ptr), [f], k, k + 1, tail);
    WireOnly(w, f, k + 1, tail);
    WordParsed(ptr, Wrap8(k), w([f], k + 1, tail));
    LenParsed(f.size, f.payload, Wrap8(k + 1), tail);
    TakeFront(d, tail);
    if last { assert [] + tail == tail; } else { NullUnreadable(mem, ptr); }
  }

  lemma NullUnreadable(mem: Mem, ptr: u64)
    requires 0 !in mem.bytes && ReadStr(mem, Untag(ptr)).Some?
    ensures ptr != 0
  {
    assert ptr == 0 ==> Scan(mem, 0, MAX_STRING_SIZE) == None;
  }

  lemma StringsStep(s: seq<byte>, str: ArrayString, s1: seq<byte>, n: nat, more: seq<ArrayString>, rest: seq<byte>)
    requires n > 0 && ParseString(s) == Got(Some(str), s1) && ParseStrings(s1, n - 1) == Got(more, rest)
    ensures ParseStrings(s, n) == Got([str] + more, rest)
  {
  }

  /** A pointer/string pair in front of strings that parse. */
  lemma StringsJoin(w: Wiring, pair: seq<Frame>, rest: seq<Frame>, str: ArrayString, n: nat, left: nat, k: nat,
                    next: nat, more: seq<ArrayString>, tail: seq<byte>)
    requires IsWire(w) && |pair| == 2 && next == k + 2 && n == left + 1
    requires ParseString(w(pair, k, w(rest, next, tail))) == Got(Some(str), w(rest, next, tail))
    requires ParseStrings(w(rest, next, tail), left) == Got(more, tail)
    ensures ParseStrings(w(pair + rest, k, tail), n) == Got([str] + more, tail)
  {
    WireThen(w, pair, rest, k, next, tail);
    StringsStep(w(pair + rest, k, tail), str, w(rest, next, tail), n, more, tail);
  }

  lemma StringsLast(w: Wiring, mem: Mem, addr: u64, n: nat, k: nat, tail: seq<byte>)
    requires IsWire(w)
    requires 0 !in mem.bytes && n > 0 && LastString(mem, addr)
    ensures ParseStrings(w(PtrStringFrames(mem, addr), k, tail), n) == Got([], tail)
  {
    OneStringParsed(w, mem, addr, k, tail);
  }

  /** For every number of readable strings: those strings come back and nothing is left over. */
  lemma {:induction false} StringsParsed(w: Wiring, mem: Mem, addr: u64, n: nat, k: nat, tail: seq<byte>)
    requires IsWire(w)
    requires 0 !in mem.bytes
    ensures ParseStrings(w(StrArrFrames(mem, addr, n), k, tail), n) == Got(MemStrings(mem, addr, n), tail)
    decreases n
  {
    if n == 0 {
      WireNone(w, k, tail);
    } else if LastString(mem, addr) {
      StringsLast(w, mem, addr, n, k, tail);
    } else {
      var at, left, next := Wrap64(addr + 8), n - 1, k + 2;
      var rest, more := StrArrFrames(mem, at, left), MemStrings(mem, at, left);
      StringsParsed(w, mem, at, left, next, tail);
      var ptr, s1 := ReadWord(mem, Untag(addr)), w(rest, next, tail);
      OneStringParsed(w, mem, addr, k, s1);
      var str := ArrayString(ptr, StrBytes(mem, ptr));
      StringsJoin(w, PtrStringFrames(mem, addr), rest, str, n, left, k, next, more, tail);
    }
  }

  // ----- vectors

  lemma HeadOf(d: seq<byte>, k: u8, rest: seq<byte>) returns (head: seq<byte>)
    requires |d| < U32
    ensures Take(FrameBytes(Chunk(|d|, d), k) + rest, 5 + |d|) == Got(head, rest) && |head| == 5 + |d|
    ensures head[5..] == d
  {
    head := FrameBytes(Chunk(|d|, d), k);
    TakeFront(head, rest);
  }

  /** A field of a structure behind its index and length. */
  lemma FieldOf(head: seq<byte>, d: seq<byte>, i: nat, j: nat, from: nat, to: nat)
    requires |head| == 5 + |d| && head[5..] == d && i <= j <= |d| && from == 5 + i && to == 5 + j
    ensures head[from..to] == d[i..j]
  {
  }

  lemma VectorParsed(w: Wiring, mem: Mem, addr: u64, k: nat, tail: seq<byte>)
    requires IsWire(w)
    requires Read(mem, Untag(addr), 16).Some?
    ensures ParseVector(w(IovPair(mem, addr), k, tail)) == Got(MemVector(mem, addr), tail)
  {
    var v, d := MemVector(mem, addr), Readable(mem, addr, 16);
    var f1 := IovBuffer(mem, addr);
    var rest := w([f1], k + 1, tail);
    WireFirst(w, IovVector(mem, addr), [f1], k, k + 1, tail);
    var head := HeadOf(d, Wrap8(k), rest);
    FieldOf(head, d, 0, 8, 5, 13);
    FieldOf(head, d, 8, 16, 13, 21);
    WordInside(mem, Untag(addr), 0, 16);
    WordInside(mem, Untag(addr), 8, 16);
    BytesParsed(w, mem, v.base, Min(v.length, MAX_BUF_READ_SIZE), k + 1, tail);
    VectorOf(w(IovPair(mem, addr), k, tail), head, rest, v, tail);
  }

  lemma VectorOf(s: seq<byte>, head: seq<byte>, s1: seq<byte>, v: Vector, rest: seq<byte>)
    requires Take(s, 21) == Got(head, s1) && |head| == 21 && TakeChunk(s1) == Got(v.payload, rest)
    requires v.base == FromLE(head[5..13]) && v.length == FromLE(head[13..21])
    ensures ParseVector(s) == Got(v, rest)
  {
  }

  lemma VectorsStep(s: seq<byte>, v: Vector, s1: seq<byte>, n: nat, more: seq<Vector>, rest: seq<byte>)
    requires n > 0 && ParseVector(s) == Got(v, s1) && ParseVectors(s1, n - 1) == Got(more, rest)
    ensures ParseVectors(s, n) == Got([v] + more, rest)
  {
  }

  /** A vector and its buffer in front of vectors that parse. */
  lemma VectorsJoin(w: Wiring, pair: seq<Frame>, rest: seq<Frame>, v: Vector, n: nat, left: nat, k: nat, next: nat,
                    more: seq<Vector>, tail: seq<byte>)
    requires IsWire(w) && |pair| == 2 && next == k + 2 && n == left + 1
    requires ParseVector(w(pair, k, w(rest, next, tail))) == Got(v, w(rest, next, tail))
    requires ParseVectors(w(rest, next, tail), left) == Got(more, tail)
    ensures ParseVectors(w(pair + rest, k, tail), n) == Got([v] + more, tail)
  {
    WireThen(w, pair, rest, k, next, tail);
    VectorsStep(w(pair + rest, k, tail), v, w(rest, next, tail), n, more, tail);
  }

  lemma {:induction false} VectorsParsed(w: Wiring, mem: Mem, addr: u64, n: nat, k: nat, tail: seq<byte>)
    requires IsWire(w)
    requires VectorsReadable(mem, addr, n)
    ensures ParseVectors(w(IovFrames(mem, addr, n), k, tail), n) == Got(MemVectors(mem, addr, n), tail)
    decreases n
  {
    if n == 0 {
      WireNone(w, k, tail);
    } else {
      var at, left, next := Wrap64(addr + 16), n - 1, k + 2;
      var rest, more := IovFrames(mem, at, left), MemVectors(mem, at, left);
      VectorsParsed(w, mem, at, left, next, tail);
      VectorParsed(w, mem, addr, k, w(rest, next, tail));
      VectorsJoin(w, IovPair(mem, addr), rest, MemVector(mem, addr), n, left, k, next, more, tail);
    }
  }

  /** The vectors from the i-th on. */
  function IovFrom(mem: Mem, addr: u64, i: nat, n: nat): seq<Frame>
    requires i <= n
    decreases i
  {
    if i == 0 then IovFrames(mem, addr, n) else IovFrom(mem, Wrap64(addr + 16), i - 1, n - 1)
  }

  lemma FramesAssociate(x: seq<Frame>, y: seq<Frame>, z: seq<Frame>)
    ensures x + (y + z) == (x + y) + z
  {
  }

  lemma {:induction false} IovSplit(mem: Mem, addr: u64, i: nat, n: nat)
    requires i <= n
    ensures IovFrames(mem, addr, n) == IovFrames(mem, addr, i) + IovFrom(mem, addr, i, n)
    ensures i < n ==> IovFrom(mem, addr, i, n) != []
    decreases i
  {
    if i > 0 {
      var next, fewer, left := Wrap64(addr + 16), i - 1, n - 1;
      IovSplit(mem, next, fewer, left);
      FramesAssociate(IovPair(mem, addr), IovFrames(mem, next, fewer), IovFrom(mem, next, fewer, left));
    } else {
      assert IovFrames(mem, addr, 0) == [];
    }
  }

  lemma {:induction false} ReadableFirst(mem: Mem, addr: u64, i: nat, n: nat)
    requires i <= n && VectorsReadable(mem, addr, n)
    ensures VectorsReadable(mem, addr, i)
    decreases i
  {
    if i > 0 { ReadableFirst(mem, Wrap64(addr + 16), i - 1, n - 1); }
  }

  lemma WireGrows(w: Wiring, fs: seq<Frame>, k: nat, tail: seq<byte>)
    requires IsWire(w)
    requires fs != []
    ensures |w(fs, k, tail)| > |tail|
  {
    WireIs(fs, k, tail);
    assert w(fs, k, tail) == Wire(fs, k, tail);
  }

  /** What an iovec parse leaves when fewer vectors are read than were sent. */
  lemma VectorsLeft(w: Wiring, mem: Mem, addr: u64, i: nat, n: nat, k: nat, tail: seq<byte>)
    requires IsWire(w)
    requires i < n && VectorsReadable(mem, addr, n)
    ensures var r := ParseVectors(w(IovFrames(mem, addr, n), k, tail), i);
            r.Got? && |r.rest| > |tail|
  {
    var a, b := IovFrames(mem, addr, i), IovFrom(mem, addr, i, n);
    var next := k + |a|;
    var rest := w(b, next, tail);
    IovSplit(mem, addr, i, n);
    WireThen(w, a, b, k, next, tail);
    ReadableFirst(mem, addr, i, n);
    VectorsParsed(w, mem, addr, i, k, rest);
    WireGrows(w, b, next, tail);
  }

  lemma IovecOf(s: seq<byte>, n: u64, s1: seq<byte>, vs: seq<Vector>, rest: seq<byte>)
    requires TakeWord(s) == Got(n, s1) && ParseVectors(s1, VectorsRead(n)) == Got(vs, rest)
    ensures ParseIovec(s) == Got(Vectors(n, vs), rest)
  {
  }

  /** The count, then the vectors, of an iovec section; `fs` are its vectors' frames. */
  lemma IovecHead(w: Wiring, n: u64, fs: seq<Frame>, k: nat, tail: seq<byte>) returns (s1: seq<byte>)
    requires IsWire(w)
    ensures s1 == w(fs, k + 1, tail) && TakeWord(w([Word(n)] + fs, k, tail)) == Got(n, s1)
  {
    s1 := w(fs, k + 1, tail);
    WireFirst(w, Word(n), fs, k, k + 1, tail);
    WordParsed(n, Wrap8(k), s1);
  }

  lemma IovecParsed(w: Wiring, mem: Mem, n: u64, addr: u64, k: nat, tail: seq<byte>)
    requires IsWire(w)
    requires 1 <= n <= MAX_IOV_COUNT && VectorsReadable(mem, addr, n)
    ensures ParseIovec(w([Word(n)] + IovFrames(mem, addr, n), k, tail))
         == Got(Vectors(n, MemVectors(mem, addr, n)), tail)
  {
    var fs := IovFrames(mem, addr, n);
    var s1 := IovecHead(w, n, fs, k, tail);
    VectorsParsed(w, mem, addr, n, k + 1, tail);
    IovecOf(w([Word(n)] + fs, k, tail), n, s1, MemVectors(mem, addr, n), tail);
  }

  lemma IovecLeft(w: Wiring, mem: Mem, n: u64, addr: u64, k: nat, tail: seq<byte>)
    requires IsWire(w)
    requires VectorsReadable(mem, addr, Turns(n)) && !(1 <= n <= MAX_IOV_COUNT)
    ensures var p := ParseIovec(w([Word(n)] + IovFrames(mem, addr, Turns(n)), k, tail));
            p.Got? && |p.rest| > |tail|
  {
    var fs, read := IovFrames(mem, addr, Turns(n)), VectorsRead(n);
    var s1 := IovecHead(w, n, fs, k, tail);
    VectorsLeft(w, mem, addr, read, Turns(n), k + 1, tail);
    var r := ParseVectors(s1, read);
    IovecOf(w([Word(n)] + fs, k, tail), n, s1, r.value, r.rest);
  }

  lemma IovecCountDecides(w: Wiring, mem: Mem, n: u64, addr: u64, k: nat, tail: seq<byte>)
    requires IsWire(w)
    requires VectorsReadable(mem, addr, Turns(n))
    ensures var p := ParseIovec(w([Word(n)] + IovFrames(mem, addr, Turns(n)), k, tail));
            && p.Got?
            && (p.rest == tail <==> 1 <= n <= MAX_IOV_COUNT)
            && (p.rest == tail ==> p.value == Vectors(n, MemVectors(mem, addr, n)))
  {
    if 1 <= n <= MAX_IOV_COUNT {
      IovecParsed(w, mem, n, addr, k, tail);
    } else {
      IovecLeft(w, mem, n, addr, k, tail);
    }
  }

  lemma HeaderOf(s: seq<byte>, head: seq<byte>, s1: seq<byte>, control: seq<byte>, s2: seq<byte>, n: u64,
                 vs: seq<Vector>, rest: seq<byte>)
    requires Take(s, 61) == Got(head, s1) && |head| == 61 && TakeChunk(s1) == Got(control, s2)
    requires n == FromLE(head[29..37]) && ParseVectors(s2, VectorsRead(n)) == Got(vs, rest)
    ensures ParseMsghdr(s) == Got(Header(head[5..], control, vs), rest)
  {
  }

  lemma ControlParsed(w: Wiring, mem: Mem, from: u64, len: nat, vs: seq<Frame>, k: nat, next: nat, tail: seq<byte>)
    requires IsWire(w)
    requires len <= MAX_BUF_READ_SIZE && next == k + 1
    ensures TakeChunk(w([StructFrame(mem, from, len)] + vs, k, tail))
         == Got(Readable(mem, from, len), w(vs, next, tail))
  {
    WireThen(w, [StructFrame(mem, from, len)], vs, k, next, tail);
    BytesParsed(w, mem, from, len, k, w(vs, next, tail));
  }

  lemma HeaderParsed(w: Wiring, mem: Mem, addr: u64, h: u64, n: u64, fs: seq<Frame>, k: nat, next: nat, tail: seq<byte>)
    returns (head: seq<byte>)
    requires IsWire(w)
    requires h == Untag(addr) && Read(mem, h, 56).Some? && n == ReadWord(mem, h + 24) && next == k + 1
    ensures Take(w([StructFrame(mem, addr, 56)] + fs, k, tail), 61) == Got(head, w(fs, next, tail))
    ensures |head| == 61 && head[5..] == Readable(mem, addr, 56) && FromLE(head[29..37]) == n
  {
    var d := Readable(mem, addr, 56);
    WireFirst(w, StructFrame(mem, addr, 56), fs, k, k + 1, tail);
    head := HeadOf(d, Wrap8(k), w(fs, next, tail));
    FieldOf(head, d, 24, 32, 29, 37);
    WordInside(mem, h, 24, 56);
  }

  lemma MsghdrParsed(w: Wiring, mem: Mem, addr: u64, h: u64, n: u64, vs: seq<Vector>, from: u64, len: nat,
                     fs: seq<Frame>, k: nat, k1: nat, k2: nat, tail: seq<byte>, left: seq<byte>)
    requires IsWire(w) && k1 == k + 1 && k2 == k1 + 1
    requires h == Untag(addr) && n == ReadWord(mem, h + 24) && Read(mem, h, 56).Some?
    requires len <= MAX_BUF_READ_SIZE && ParseVectors(w(fs, k2, tail), VectorsRead(n)) == Got(vs, left)
    ensures ParseMsghdr(w([StructFrame(mem, addr, 56)] + ([StructFrame(mem, from, len)] + fs), k, tail))
         == Got(Header(Readable(mem, addr, 56), Readable(mem, from, len), vs), left)
  {
    var f0, rest := [StructFrame(mem, addr, 56)], [StructFrame(mem, from, len)] + fs;
    var head := HeaderParsed(w, mem, addr, h, n, rest, k, k1, tail);
    ControlParsed(w, mem, from, len, fs, k1, k2, tail);
    HeaderOf(w(f0 + rest, k, tail), head, w(rest, k1, tail), Readable(mem, from, len), w(fs, k2, tail), n, vs, left);
  }

  lemma PointerOf(s: seq<byte>, inner: ArgType, d: seq<byte>, s1: seq<byte>, s2: seq<byte>, v: Value,
                  rest: seq<byte>, word: u64)
    requires TakeLen(s) == Got(|d|, s1) && s1 == d + s2 && (|d| == 8 || d == [])
    requires word == FromLE(if d == [] then Zeros(8) else d) && ParseSection(s2, inner) == Got(v, rest)
    ensures ParsePointer(s, inner) == Got(Pointee(word, v), rest)
  {
    TakeFront(d, s2);
    if d == [] { assert d + s2 == s2; }
  }

  lemma PointerParsed(w: Wiring, env: Env, t: ArgType, addr: u64, k: nat, tail: seq<byte>, v: Value)
    requires IsWire(w)
    requires t.Ptr? && WfType(t)
    requires ParseSection(w(Section(env, t.inner, Untag(addr)), k + 1, tail), t.inner) == Got(v, tail)
    ensures ParsePointer(w(Section(env, t, addr), k, tail), t.inner)
         == Got(Pointee(ReadWord(env.mem, Untag(addr)), v), tail)
  {
    var d, f, fs := Readable(env.mem, addr, 8), StructFrame(env.mem, addr, 8), Section(env, t.inner, Untag(addr));
    var s2 := w(fs, k + 1, tail);
    WireFirst(w, f, fs, k, k + 1, tail);
    LenParsed(f.size, f.payload, Wrap8(k), s2);
    PointerOf(w([f] + fs, k, tail), t.inner, d, d + s2, s2, v, tail, ReadWord(env.mem, Untag(addr)));
  }

  lemma BytesSectionParsed(w: Wiring, env: Env, t: ArgType, addr: u64, k: nat, tail: seq<byte>)
    requires IsWire(w)
    requires WfType(t) && (t.Str? || t.Std? || t.BufAll? || t.BufLen? || t.BufReg?)
    ensures ParseSection(w(Section(env, t, addr), k, tail), t) == Got(Meaning(env, t, addr), tail)
  {
    match t
    case Str => StringParsed(w, env.mem, addr, k, tail);
    case Std => StringParsed(w, env.mem, StdStringData(env.mem, addr), k, tail);
    case BufAll => BytesParsed(w, env.mem, addr, MAX_BUF_READ_SIZE, k, tail);
    case BufLen(n) => BytesParsed(w, env.mem, addr, n, k, tail);
    case BufReg(r) => BytesParsed(w, env.mem, addr, Min(env.regs[r], MAX_BUF_READ_SIZE), k, tail);
  }

  lemma StructSectionParsed(w: Wiring, env: Env, t: ArgType, addr: u64, k: nat, tail: seq<byte>)
    requires IsWire(w)
    requires t.Struct? && Decodable(env, t, addr)
    ensures ParseSection(w(Section(env, t, addr), k, tail), t) == Got(Meaning(env, t, addr), tail)
  {
    StructParsed(w, env.mem, addr, t.size, k, tail);
  }

  lemma ArraySectionParsed(w: Wiring, env: Env, t: ArgType, addr: u64, k: nat, tail: seq<byte>)
    requires IsWire(w)
    requires t.Arr? && Decodable(env, t, addr)
    ensures ParseSection(w(Section(env, t, addr), k, tail), t) == Got(Meaning(env, t, addr), tail)
  {
    var size := t.elem * t.len;
    assert ArrSize(t.elem, t.len) == size && Min(size, MAX_BYTES_ARR_SIZE) == size;
    ArrayParsed(w, env.mem, addr, t.elem, t.len, k, tail);
  }

  lemma StringsSectionParsed(w: Wiring, env: Env, t: ArgType, addr: u64, k: nat, tail: seq<byte>)
    requires IsWire(w)
    requires t.StrArr? && Decodable(env, t, addr)
    ensures ParseSection(w(Section(env, t, addr), k, tail), t) == Got(Meaning(env, t, addr), tail)
  {
    StringsParsed(w, env.mem, addr, MAX_LOOP_COUNT, k, tail);
  }

  lemma IovecSectionParsed(w: Wiring, env: Env, t: ArgType, addr: u64, k: nat, tail: seq<byte>)
    requires IsWire(w) && t.Iovec? && WfType(t) && Decodable(env, t, addr)
    ensures ParseSection(w(Section(env, t, addr), k, tail), t) == Got(Meaning(env, t, addr), tail)
  {
    IovecParsed(w, env.mem, env.regs[t.count], addr, k, tail);
  }

  lemma MsghdrShape(env: Env, t: ArgType, addr: u64)
    returns (h: u64, n: u64, vec: u64, from: u64, len: nat, fs: seq<Frame>, vs: seq<Vector>)
    requires t.Msghdr?
    ensures h == Untag(addr) && n == ReadWord(env.mem, h + 24) && vec == ReadWord(env.mem, h + 16)
    ensures len <= MAX_BUF_READ_SIZE
    ensures fs == IovFrames(env.mem, vec, Turns(n)) && vs == MemVectors(env.mem, vec, n)
    ensures Section(env, t, addr) == [StructFrame(env.mem, addr, 56)] + ([StructFrame(env.mem, from, len)] + fs)
    ensures Meaning(env, t, addr) == Header(Readable(env.mem, addr, 56), Readable(env.mem, from, len), vs)
  {
    var mem := env.mem;
    h := Untag(addr);
    n, vec := ReadWord(mem, h + 24), ReadWord(mem, h + 16);
    from, len := ReadWord(mem, h + 32), Min(ReadWord(mem, h + 40), MAX_BUF_READ_SIZE);
    fs, vs := IovFrames(mem, vec, Turns(n)), MemVectors(mem, vec, n);
    FramesAssociate([StructFrame(mem, addr, 56)], [StructFrame(mem, from, len)], fs);
  }

  /** With one to six vectors, as many are read as were sent. */
  lemma FewVectorsParsed(w: Wiring, mem: Mem, vec: u64, n: u64, k: nat, tail: seq<byte>)
    requires IsWire(w) && 1 <= n <= MAX_IOV_COUNT && VectorsReadable(mem, vec, n)
    ensures ParseVectors(w(IovFrames(mem, vec, Turns(n)), k, tail), VectorsRead(n))
         == Got(MemVectors(mem, vec, n), tail)
  {
    VectorsParsed(w, mem, vec, n, k, tail);
  }

  lemma MsghdrSectionParsed(w: Wiring, env: Env, t: ArgType, addr: u64, k: nat, tail: seq<byte>)
    requires IsWire(w) && t.Msghdr? && Decodable(env, t, addr)
    ensures ParseSection(w(Section(env, t, addr), k, tail), t) == Got(Meaning(env, t, addr), tail)
  {
    var h, n, vec, from, len, fs, vs := MsghdrShape(env, t, addr);
    var k1, k2 := k + 1, k + 2;
    FewVectorsParsed(w, env.mem, vec, n, k2, tail);
    MsghdrParsed(w, env.mem, addr, h, n, vs, from, len, fs, k, k1, k2, tail, tail);
  }

  lemma {:induction false} SectionParsed(w: Wiring, env: Env, t: ArgType, addr: u64, k: nat, tail: seq<byte>)
    requires IsWire(w)
    requires WfType(t) && Decodable(env, t, addr)
    ensures ParseSection(w(Section(env, t, addr), k, tail), t) == Got(Meaning(env, t, addr), tail)
  {
    if t.Num? {
      WireNone(w, k, tail);
    } else if t.Ptr? {
      var at := Untag(addr);
      SectionParsed(w, env, t.inner, at, k + 1, tail);
      PointerParsed(w, env, t, addr, k, tail, Meaning(env, t.inner, at));
    } else if t.Struct? {
      StructSectionParsed(w, env, t, addr, k, tail);
    } else if t.Arr? {
      ArraySectionParsed(w, env, t, addr, k, tail);
    } else if t.StrArr? {
      StringsSectionParsed(w, env, t, addr, k, tail);
    } else if t.Iovec? {
      IovecSectionParsed(w, env, t, addr, k, tail);
    } else if t.Msghdr? {
      MsghdrSectionParsed(w, env, t, addr, k, tail);
    } else {
      BytesSectionParsed(w, env, t, addr, k, tail);
    }
  }

  // ----- points

  function ArgMeaning(env: Env, a: PointArg, reg0: u64): Decoded {
    Decoded(ArgValue(env, a, reg0), if ReadMore(a) then Meaning(env, a.ty, ArgAddr(env, a)) else Plain)
  }

  function PointMeaning(env: Env, args: seq<PointArg>, reg0: u64): seq<Decoded> {
    if args == [] then [] else [ArgMeaning(env, args[0], reg0)] + PointMeaning(env, args[1..], reg0)
  }

  /** Both sides agree on the argument's section, and its sizes and counts are in range. */
  predicate ArgDecodable(env: Env, a: PointArg, phase: Phase) {
    && WfArg(a) && a.reg < REG_ARM64_MAX && Agrees(a, phase)
    && (ReadMore(a) ==> Decodable(env, a.ty, ArgAddr(env, a)))
  }

  predicate PointDecodable(env: Env, args: seq<PointArg>, phase: Phase) {
    forall i :: 0 <= i < |args| ==> ArgDecodable(env, args[i], phase)
  }

  lemma ArgParsed(w: Wiring, env: Env, a: PointArg, reg0: u64, phase: Phase, k: nat, tail: seq<byte>)
    requires IsWire(w)
    requires ArgDecodable(env, a, phase)
    ensures ParseArg(w(ArgFrames(env, a, reg0), k, tail), a, phase) == Got(ArgMeaning(env, a, reg0), tail)
  {
    var ptr, more := ArgValue(env, a, reg0), MoreFrames(env, a);
    var rest := w(more, k + 1, tail);
    WireFirst(w, Word(ptr), more, k, k + 1, tail);
    WordParsed(ptr, Wrap8(k), rest);
    if ReadMore(a) {
      SectionParsed(w, env, a.ty, ArgAddr(env, a), k + 1, tail);
    } else {
      WireNone(w, k + 1, tail);
    }
  }

  lemma {:induction false} PointParsed(
    w: Wiring, env: Env, args: seq<PointArg>, reg0: u64, phase: Phase, k: nat, tail: seq<byte>)
    requires IsWire(w)
    requires WfArgs(args) && PointDecodable(env, args, phase)
    ensures ParseArgs(w(RecordFrames(env, args, reg0), k, tail), args, phase)
         == Got(PointMeaning(env, args, reg0), tail)
    decreases |args|
  {
    if args == [] {
      WireNone(w, k, tail);
    } else {
      var a, rest := args[0], args[1..];
      var fs, more := ArgFrames(env, a, reg0), RecordFrames(env, rest, reg0);
      var next := k + |fs|;
      WireThen(w, fs, more, k, next, tail);
      ArgParsed(w, env, a, reg0, phase, k, w(more, next, tail));
      PointParsed(w, env, rest, reg0, phase, next, tail);
    }
  }

  /** A list of arguments with the return value behind them, as an exit record is parsed. */
  lemma {:induction false} ParseArgsThen(
    s: seq<byte>, args: seq<PointArg>, last: PointArg, phase: Phase, ds: seq<Decoded>, mid: seq<byte>,
    d: Decoded, rest: seq<byte>)
    requires ParseArgs(s, args, phase) == Got(ds, mid) && ParseArg(mid, last, phase) == Got(d, rest)
    ensures ParseArgs(s, args + [last], phase) == Got(ds + [d], rest)
    decreases |args|
  {
    if args == [] {
      assert args + [last] == [last] && [last][1..] == [] && ds == [];
      assert ParseArgs(rest, [], phase) == Got([], rest);
      assert [d] + [] == [d] && [] + [d] == [d];
    } else {
      assert (args + [last])[0] == args[0] && (args + [last])[1..] == args[1..] + [last];
      var s1 := ParseArg(s, args[0], phase).rest;
      var more := ParseArgs(s1, args[1..], phase).value;
      ParseArgsThen(s1, args[1..], last, phase, more, mid, d, rest);
      assert [ds[0]] + (more + [d]) == ds + [d];
    }
  }

  /** The last argument of an exit record has no register, so the exit program writes its value. */
  predicate IsReturn(last: PointArg) { last.reg == REG_ARM64_MAX && last.ty.Num? }

  lemma ExitParsed(w: Wiring, env: Env, args: seq<PointArg>, last: PointArg, reg0: u64, ret: u64, k: nat,
                   tail: seq<byte>)
    requires IsWire(w) && IsReturn(last)
    requires WfArgs(args) && PointDecodable(env, args, SysExit)
    ensures ParseArgs(w(RecordFrames(env, args, reg0) + [Word(ret)], k, tail), args + [last], SysExit)
         == Got(PointMeaning(env, args, reg0) + [Decoded(ret, Plain)], tail)
  {
    var fs := RecordFrames(env, args, reg0);
    var next := k + |fs|;
    var mid := w([Word(ret)], next, tail);
    WireThen(w, fs, [Word(ret)], k, next, tail);
    PointParsed(w, env, args, reg0, SysExit, k, mid);
    WireOnly(w, Word(ret), next, tail);
    WordParsed(ret, Wrap8(next), tail);
    ParseArgsThen(w(fs, k, mid), args, last, SysExit, PointMeaning(env, args, reg0), mid, Decoded(ret, Plain), tail);
  }

  // ----- the results, on the bytes of a record

  lemma WireOfIs(fs: seq<Frame>, k: nat, tail: seq<byte>)
    ensures IsWire(WireOf()) && WireOf()(fs, k, tail) == Encode(fs, k) + tail
  {
    WireIs(fs, k, tail);
  }

  /** Every type: parsing its section gives what memory and registers hold, and consumes it exactly. */
  lemma SectionRoundTrip(env: Env, t: ArgType, addr: u64, k: nat, tail: seq<byte>)
    requires WfType(t) && Decodable(env, t, addr)
    ensures ParseSection(Encode(Section(env, t, addr), k) + tail, t) == Got(Meaning(env, t, addr), tail)
  {
    WireOfIs(Section(env, t, addr), k, tail);
    SectionParsed(WireOf(), env, t, addr, k, tail);
  }

  /** A point's record decodes to what its arguments mean, and the parser consumes exactly the record. */
  lemma PointRoundTrip(env: Env, args: seq<PointArg>, reg0: u64, phase: Phase, k: nat, tail: seq<byte>)
    requires WfArgs(args) && PointDecodable(env, args, phase)
    ensures ParseArgs(Encode(RecordFrames(env, args, reg0), k) + tail, args, phase)
         == Got(PointMeaning(env, args, reg0), tail)
  {
    WireOfIs(RecordFrames(env, args, reg0), k, tail);
    PointParsed(WireOf(), env, args, reg0, phase, k, tail);
  }

  /** An exit record: the arguments from the entry's registers, then the return value. */
  lemma ExitRoundTrip(env: Env, args: seq<PointArg>, last: PointArg, reg0: u64, ret: u64, k: nat, tail: seq<byte>)
    requires WfArgs(args) && PointDecodable(env, args, SysExit) && IsReturn(last)
    ensures ParseArgs(Encode(RecordFrames(env, args, reg0) + [Word(ret)], k) + tail, args + [last], SysExit)
         == Got(PointMeaning(env, args, reg0) + [Decoded(ret, Plain)], tail)
  {
    WireOfIs(RecordFrames(env, args, reg0) + [Word(ret)], k, tail);
    ExitParsed(WireOf(), env, args, last, reg0, ret, k, tail);
  }

  lemma RunLeavesRecord(env: Env, code: Program, args: seq<PointArg>, c: Cpu<Mach>, n: nat)
    requires Runnable(env, code, args) && Fresh(code, c) && n > Warmup(c) + PointCost(env, args, Off(Entered(env, c)))
    requires RoomFrom(Off(Entered(env, c)), RecordFrames(env, args, c.m.reg0))
    ensures var m, last := Entered(env, c), StepN(ExecOf(env), code, n, Config(c, Live));
            !SkipVerdict(last) ==>
              last.cpu.m.out.bytes == m.out.bytes + Encode(RecordFrames(env, args, c.m.reg0), m.saveIndex)
  {
    var m := Entered(env, c);
    RunFinishes(env, code, args, c, n);
    PendingWrites(env, c);
    RecordWithRoom(env, args, m.reg0, Off(m));
    KeptWithRoom(Off(m), RecordFrames(env, args, m.reg0), m.saveIndex);
  }

  /**
   End to end. For every point with a large enough budget and room in the buffer, from every left-over
   interpreter state: an event that is not skipped leaves a record whose decoding is the value of every
   argument, read straight from the registers and memory of the event, with nothing left over.
   */
  lemma EventRoundTrip(env: Env, code: Program, args: seq<PointArg>, c: Cpu<Mach>, n: nat, phase: Phase)
    requires Runnable(env, code, args) && Fresh(code, c) && n > Warmup(c) + PointCost(env, args, Off(Entered(env, c)))
    requires RoomFrom(Off(Entered(env, c)), RecordFrames(env, args, c.m.reg0)) && PointDecodable(env, args, phase)
    ensures var before, last := Entered(env, c).out.bytes, StepN(ExecOf(env), code, n, Config(c, Live));
            !SkipVerdict(last) ==>
              && before <= last.cpu.m.out.bytes
              && ParseArgs(last.cpu.m.out.bytes[|before|..], args, phase) == Got(PointMeaning(env, args, c.m.reg0), [])
  {
    var m := Entered(env, c);
    RunLeavesRecord(env, code, args, c, n);
    var record := Encode(RecordFrames(env, args, c.m.reg0), m.saveIndex);
    PointRoundTrip(env, args, c.m.reg0, phase, m.saveIndex, []);
    assert record + [] == record;
    assert (m.out.bytes + record)[|m.out.bytes|..] == record;
  }
}
