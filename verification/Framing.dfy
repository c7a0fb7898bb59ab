/**
 Exactly when emitting and decoding side stay in step: sizes, counts, and the agreement on sections. Each
 result is an if-and-only-if over every memory, register file and byte behind the section.
 */
module Framing {
  import opened Bytes
  import opened Memory
  import opened EventBuffer
  import opened Machine
  import opened Frames
  import opened ArgTypes
  import opened Sections
  import opened PointArgs
  import opened Records
  import opened Decoder
  import opened RoundTrip
  import Filters

  // ----- structures and iovecs

  /**
   A structure round-trips exactly when it is at most 4096 bytes or cannot be read: the decoder's size check
   panics on a larger one, of which 4096 bytes were sent.
   */
  lemma StructSizeIsExact(env: Env, size: u32, addr: u64, k: nat, tail: seq<byte>)
    ensures ParseSection(Encode(Section(env, Struct(size), addr), k) + tail, Struct(size)).Got?
       <==> size <= 4096 || Read(env.mem, Untag(addr), 4096).None?
  {
    WireOfIs(Section(env, Struct(size), addr), k, tail);
    StructSizeDecides(WireOf(), env.mem, addr, size, k, tail);
  }

  /**
   With every vector readable, an iovec argument stays in frame if and only if its count is 1 to 6: the
   kernel sends one vector for a count of 0 and up to 32 otherwise, the decoder reads none and at most six.
   */
  lemma IovecFramingIsExact(env: Env, r: u32, addr: u64, k: nat, tail: seq<byte>)
    requires r < REG_ARM64_MAX && VectorsReadable(env.mem, addr, Turns(env.regs[r]))
    ensures var p := ParseSection(Encode(Section(env, Iovec(r), addr), k) + tail, Iovec(r));
            && p.Got?
            && (p.rest == tail <==> 1 <= env.regs[r] <= 6)
            && (p.rest == tail ==> p.value == Meaning(env, Iovec(r), addr))
  {
    WireOfIs(Section(env, Iovec(r), addr), k, tail);
    IovecCountDecides(WireOf(), env.mem, env.regs[r], addr, k, tail);
  }

  /** A pointer's word is read only when eight bytes were announced; any other length reads none and means zero. */
  lemma OnlyWholePointers(size: u32, index: u8, t: ArgType, tail: seq<byte>)
    requires size != 8 && t.Num?
    ensures ParsePointer([index] + LE(4, size) + tail, t) == Got(Pointee(0, Plain), tail)
  {
    LenParsed(size, [], index, tail);
    assert FrameBytes(Chunk(size, []), index) == [index] + LE(4, size) && [] + tail == tail;
    LEZero(8);
    U64RoundTrip(0);
  }

  /** A count that is negative as a signed number reads no vectors at all. */
  lemma NegativeCountReadsNone(count: u64, index: u8, tail: seq<byte>)
    requires count >= 0x8000_0000_0000_0000
    ensures ParseIovec([index] + LE(8, count) + tail) == Got(Vectors(count, []), tail)
  {
    WordParsed(count, index, tail);
    assert FrameBytes(Word(count), index) == [index] + LE(8, count);
  }

  /**
   A null pointer ends a string array for the decoder even when address 0 can be read, as a string that cannot be read
   does; the kernel goes on behind a readable one.
   */
  lemma NullPointerEnds(mem: Mem, addr: u64, k: nat, tail: seq<byte>)
    requires ReadWord(mem, Untag(addr)) == 0 || ReadStr(mem, Untag(ReadWord(mem, Untag(addr)))).None?
    ensures ParseString(Encode(PtrStringFrames(mem, addr), k) + tail) == Got(None, tail)
  {
    var fs := PtrStringFrames(mem, addr);
    var w, f := WireOf(), fs[1];
    WireOfIs(fs, k, tail);
    assert fs == [fs[0]] + [f];
    WireFirst(w, fs[0], [f], k, k + 1, tail);
    WireOnly(w, f, k + 1, tail);
    WordParsed(fs[0].v, Wrap8(k), w([f], k + 1, tail));
    LenParsed(f.size, f.payload, Wrap8(k + 1), tail);
    TakeFront(f.payload, tail);
    if f.size == STRARR_MAGIC_LEN { assert [] + tail == tail; }
  }

  // ----- arrays

  /** An array of elements, as sent and as parsed; `size` is the 32-bit product the builder computes. */
  lemma ArrayDecides(w: Wiring, mem: Mem, addr: u64, elem: u32, len: u32, size: u32, k: nat, tail: seq<byte>)
    requires IsWire(w) && size == ArrSize(elem, len)
    ensures var sent := Min(size, 4096);
            var p := ParseArray(w([StructFrame(mem, addr, sent)], k, tail), elem, len);
            var inStep := Readable(mem, addr, sent) == [] || elem * len <= 4096;
            && (p.Got? && p.rest == tail <==> inStep)
            && (elem * len < U32 ==> (p.Got? <==> inStep))
  {
    var sent := Min(size, 4096);
    var d := Readable(mem, addr, sent);
    WireOnly(w, StructFrame(mem, addr, sent), k, tail);
    LenParsed(|d|, d, Wrap8(k), tail);
    ProductWraps(elem, len);
    if d == [] {
      assert d + tail == tail;
    } else if size <= 4096 && elem * len == size {
      TakeFront(d, tail);
    }
  }

  lemma ProductWraps(elem: u32, len: u32)
    ensures 0 <= ArrSize(elem, len) <= elem * len
    ensures elem * len == ArrSize(elem, len) || elem * len >= ArrSize(elem, len) + U32
  {
    var n: int := elem * len;
    assert n >= 0;
  }

  /**
   An array stays in step if and only if it is at most 4096 bytes, or nothing of it was sent. Short of the
   32-bit wrap of its size, any other array panics the decoder's size check.
   */
  lemma ArrayFramingIsExact(env: Env, elem: u32, len: u32, addr: u64, k: nat, tail: seq<byte>)
    ensures var p := ParseSection(Encode(Section(env, Arr(elem, len), addr), k) + tail, Arr(elem, len));
            var sent := Readable(env.mem, addr, Min(ArrSize(elem, len), 4096));
            && (p.Got? && p.rest == tail <==> sent == [] || elem * len <= 4096)
            && (elem * len < U32 ==> (p.Got? <==> sent == [] || elem * len <= 4096))
  {
    WireOfIs(Section(env, Arr(elem, len), addr), k, tail);
    ArrayDecides(WireOf(), env.mem, addr, elem, len, ArrSize(elem, len), k, tail);
  }

  /** `int_arr` with 2000 elements, in memory that can be read: 4096 bytes are sent and the decoder panics. */
  lemma LongArrayPanics(env: Env, addr: u64, k: nat, tail: seq<byte>)
    requires Read(env.mem, Untag(addr), 4096).Some?
    ensures ParseSection(Encode(Section(env, Arr(4, 2000), addr), k) + tail, Arr(4, 2000)).Panic?
  {
    ArrayFramingIsExact(env, 4, 2000, addr, k, tail);
  }

  // ----- msghdrs

  lemma MsghdrDecides(w: Wiring, env: Env, t: ArgType, addr: u64, k: nat, tail: seq<byte>)
    requires IsWire(w) && t.Msghdr? && Read(env.mem, Untag(addr), MSGHDR_SIZE).Some?
    requires var h := Untag(addr);
             VectorsReadable(env.mem, ReadWord(env.mem, h + 16), Turns(ReadWord(env.mem, h + 24)))
    ensures var p := ParseSection(w(Section(env, t, addr), k, tail), t);
            && p.Got?
            && (p.rest == tail <==> 1 <= ReadWord(env.mem, Untag(addr) + 24) <= 6)
            && (p.rest == tail ==> p.value == Meaning(env, t, addr))
  {
    if 1 <= ReadWord(env.mem, Untag(addr) + 24) <= 6 {
      MsghdrSectionParsed(w, env, t, addr, k, tail);
    } else {
      MsghdrLeft(w, env, t, addr, k, tail);
    }
  }

  lemma MsghdrLeft(w: Wiring, env: Env, t: ArgType, addr: u64, k: nat, tail: seq<byte>)
    requires IsWire(w) && t.Msghdr? && Read(env.mem, Untag(addr), MSGHDR_SIZE).Some?
    requires var h := Untag(addr);
             var n := ReadWord(env.mem, h + 24);
             VectorsReadable(env.mem, ReadWord(env.mem, h + 16), Turns(n)) && !(1 <= n <= 6)
    ensures var p := ParseSection(w(Section(env, t, addr), k, tail), t);
            p.Got? && |p.rest| > |tail|
  {
    var h, n, vec, from, len, fs, vs := MsghdrShape(env, t, addr);
    var k1, k2, read := k + 1, k + 2, VectorsRead(n);
    VectorsLeft(w, env.mem, vec, read, Turns(n), k2, tail);
    var r := ParseVectors(w(fs, k2, tail), read);
    MsghdrParsed(w, env.mem, addr, h, n, r.value, from, len, fs, k, k1, k2, tail, r.rest);
  }

  /** With header and vectors readable, a msghdr stays in step if and only if it has 1 to 6 vectors. */
  lemma MsghdrFramingIsExact(env: Env, addr: u64, k: nat, tail: seq<byte>)
    requires Read(env.mem, Untag(addr), MSGHDR_SIZE).Some?
    requires var h := Untag(addr);
             VectorsReadable(env.mem, ReadWord(env.mem, h + 16), Turns(ReadWord(env.mem, h + 24)))
    ensures var p := ParseSection(Encode(Section(env, Msghdr, addr), k) + tail, Msghdr);
            && p.Got?
            && (p.rest == tail <==> 1 <= ReadWord(env.mem, Untag(addr) + 24) <= 6)
            && (p.rest == tail ==> p.value == Meaning(env, Msghdr, addr))
  {
    WireOfIs(Section(env, Msghdr, addr), k, tail);
    MsghdrDecides(WireOf(), env, Msghdr, addr, k, tail);
  }

  // ----- vectors and headers that cannot be read

  /** A parser that returned has taken at least 26 bytes per vector. */
  lemma {:induction false} VectorsConsume(s: seq<byte>, n: nat)
    ensures var p := ParseVectors(s, n); p.Got? ==> |p.rest| + 26 * n <= |s|
    decreases n
  {
    if n > 0 {
      var v := ParseVector(s);
      if v.Got? { VectorsConsume(v.rest, n - 1); }
    }
  }

  /** The section of `t` is decoded without a panic and consumed exactly. */
  predicate InStep(env: Env, t: ArgType, addr: u64, k: nat, tail: seq<byte>)
    requires WfType(t)
  {
    var p := ParseSection(Encode(Section(env, t, addr), k) + tail, t);
    p.Got? && p.rest == tail
  }

  /** An iovec argument is in step only if it sent the count and 26 bytes for each vector the decoder reads. */
  lemma IovecNeedsBytes(env: Env, t: ArgType, addr: u64, k: nat, tail: seq<byte>)
    requires WfType(t) && t.Iovec? && InStep(env, t, addr, k, tail)
    ensures FramesLen(Section(env, t, addr)) >= 9 + 26 * VectorsRead(env.regs[t.count])
  {
    var n, fs := env.regs[t.count], IovFrames(env.mem, addr, Turns(env.regs[t.count]));
    EncodeLen(Section(env, t, addr), k);
    WireOfIs([Word(n)] + fs, k, tail);
    var s1 := IovecHead(WireOf(), n, fs, k, tail);
    VectorsConsume(s1, VectorsRead(n));
  }

  /** The 16 bytes at `addr` are not all mapped. */
  predicate VectorLost(mem: Mem, addr: u64) { Read(mem, Untag(addr), IOVEC_SIZE).None? }

  predicate VectorsLost(mem: Mem, addr: u64, n: nat)
    decreases n, mem
  {
    n == 0 || (VectorLost(mem, addr) && VectorsLost(mem, Wrap64(addr + 16), n - 1))
  }

  /** Then one of its two words reads as zero, and with address 0 unmapped its buffer is empty. */
  lemma LostVectorFrames(mem: Mem, addr: u64)
    requires 0 !in mem.bytes && VectorLost(mem, addr)
    ensures IovBuffer(mem, addr) == Chunk(0, []) && IovVector(mem, addr) == Chunk(0, [])
  {
    var v := Untag(addr);
    var base, len := ReadWord(mem, v), ReadWord(mem, v + 8);
    HalvesOf(mem, v);
    if Read(mem, v, 8).None? { ZeroWord(mem, v); } else { ZeroWord(mem, v + 8); }
    var n := Min(len, 4096);
    assert base == 0 || n == 0;
  }

  lemma PairLen(f0: Frame, f1: Frame)
    ensures FramesLen([f0] + [f1]) == FrameLen(f0) + FrameLen(f1)
  {
    var fs := [f0] + [f1];
    assert fs[0] == f0 && fs[1..] == [f1] && [f1][1..] == [];
    assert FramesLen([f1]) == FrameLen(f1) + FramesLen([]);
  }

  lemma LostVectorLen(mem: Mem, addr: u64)
    requires 0 !in mem.bytes && VectorLost(mem, addr)
    ensures FramesLen(IovPair(mem, addr)) == 10
  {
    LostVectorFrames(mem, addr);
    PairLen(IovVector(mem, addr), IovBuffer(mem, addr));
  }

  lemma HalvesOf(mem: Mem, v: int)
    ensures Read(mem, v, 8).Some? && Read(mem, v + 8, 8).Some? ==> Read(mem, v, 16).Some?
  {
    ReadSpec(mem, v, 8);
    ReadSpec(mem, v + 8, 8);
    ReadSpec(mem, v, 16);
  }

  lemma ZeroWord(mem: Mem, at: int)
    requires Read(mem, at, 8).None?
    ensures ReadWord(mem, at) == 0
  {
    LEZero(8);
    U64RoundTrip(0);
  }

  lemma {:induction false} LenOfBoth(a: seq<Frame>, b: seq<Frame>)
    ensures FramesLen(a + b) == FramesLen(a) + FramesLen(b)
    decreases |a|
  {
    if a == [] {
      assert a + b == b;
    } else {
      assert (a + b)[0] == a[0] && (a + b)[1..] == a[1..] + b;
      LenOfBoth(a[1..], b);
    }
  }

  lemma {:induction false} LostVectorsLen(mem: Mem, addr: u64, n: nat)
    requires 0 !in mem.bytes && VectorsLost(mem, addr, n)
    ensures FramesLen(IovFrames(mem, addr, n)) == 10 * n
    decreases n
  {
    if n > 0 {
      LostVectorLen(mem, addr);
      LostVectorsLen(mem, Wrap64(addr + 16), n - 1);
      LenOfBoth(IovPair(mem, addr), IovFrames(mem, Wrap64(addr + 16), n - 1));
    }
  }

  /**
   With a count of 1 and address 0 unmapped, an iovec argument stays in step if and only if its vector can be read:
   `writev(fd, NULL, 1)` does not.
   */
  lemma OneVectorIsExact(env: Env, t: ArgType, addr: u64, k: nat, tail: seq<byte>)
    requires WfType(t) && t.Iovec? && env.regs[t.count] == 1 && 0 !in env.mem.bytes
    ensures InStep(env, t, addr, k, tail) <==> !VectorLost(env.mem, addr)
  {
    if VectorLost(env.mem, addr) {
      if InStep(env, t, addr, k, tail) {
        IovecNeedsBytes(env, t, addr, k, tail);
        LostVectorsLen(env.mem, addr, 1);
        LenOfBoth([Word(1)], IovFrames(env.mem, addr, 1));
      }
    } else {
      assert VectorsReadable(env.mem, addr, 1);
      IovecFramingIsExact(env, t.count, addr, k, tail);
    }
  }

  /** The decoder's loop over vectors none of which could be read takes too much, or leaves the one sent for none. */
  lemma LostVectorsLeave(w: Wiring, mem: Mem, vec: u64, n: u64, k: nat, tail: seq<byte>)
    requires IsWire(w) && 0 !in mem.bytes && VectorsLost(mem, vec, Turns(n)) && (n <= 15 || n >= U64 / 2)
    ensures var p := ParseVectors(w(IovFrames(mem, vec, Turns(n)), k, tail), VectorsRead(n));
            p.Panic? || |p.rest| != |tail|
  {
    var fs := IovFrames(mem, vec, Turns(n));
    LostVectorsLen(mem, vec, Turns(n));
    EncodeLen(fs, k);
    WireIs(fs, k, tail);
    assert w(fs, k, tail) == Wire(fs, k, tail);
    VectorsConsume(w(fs, k, tail), VectorsRead(n));
  }

  /**
   With none of its vectors readable, no iovec argument of up to 15 vectors stays in step, nor one whose count is
   negative as a signed number.
   */
  lemma LostVectorsMisframe(env: Env, t: ArgType, addr: u64, k: nat, tail: seq<byte>)
    requires WfType(t) && t.Iovec? && 0 !in env.mem.bytes && VectorsLost(env.mem, addr, Turns(env.regs[t.count]))
    requires env.regs[t.count] <= 15 || env.regs[t.count] >= U64 / 2
    ensures !InStep(env, t, addr, k, tail)
  {
    var n := env.regs[t.count];
    var fs := IovFrames(env.mem, addr, Turns(n));
    WireOfIs([Word(n)] + fs, k, tail);
    var s1 := IovecHead(WireOf(), n, fs, k, tail);
    LostVectorsLeave(WireOf(), env.mem, addr, n, k + 1, tail);
  }

  /** Nor does a msghdr that can be read itself. */
  lemma MsghdrLostVectors(env: Env, t: ArgType, addr: u64, k: nat, tail: seq<byte>)
    requires t.Msghdr? && 0 !in env.mem.bytes && Read(env.mem, Untag(addr), MSGHDR_SIZE).Some?
    requires var h := Untag(addr);
             var n := ReadWord(env.mem, h + 24);
             VectorsLost(env.mem, ReadWord(env.mem, h + 16), Turns(n)) && (n <= 15 || n >= U64 / 2)
    ensures !InStep(env, t, addr, k, tail)
  {
    var h, n, vec, from, len, fs, vs := MsghdrShape(env, t, addr);
    var w, k1, k2 := WireOf(), k + 1, k + 2;
    WireOfIs(Section(env, t, addr), k, tail);
    LostVectorsLeave(w, env.mem, vec, n, k2, tail);
    var r := ParseVectors(w(fs, k2, tail), VectorsRead(n));
    if r.Got? {
      MsghdrParsed(w, env.mem, addr, h, n, r.value, from, len, fs, k, k1, k2, tail, r.rest);
    } else {
      MsghdrPanics(w, env.mem, addr, h, n, from, len, fs, k, k1, k2, tail);
    }
  }

  lemma MsghdrPanics(w: Wiring, mem: Mem, addr: u64, h: u64, n: u64, from: u64, len: nat, fs: seq<Frame>, k: nat,
                     k1: nat, k2: nat, tail: seq<byte>)
    requires IsWire(w) && k1 == k + 1 && k2 == k1 + 1
    requires h == Untag(addr) && n == ReadWord(mem, h + 24) && Read(mem, h, 56).Some?
    requires len <= 4096 && ParseVectors(w(fs, k2, tail), VectorsRead(n)).Panic?
    ensures ParseMsghdr(w([StructFrame(mem, addr, 56)] + ([StructFrame(mem, from, len)] + fs), k, tail)).Panic?
  {
    var rest := [StructFrame(mem, from, len)] + fs;
    var head := HeaderParsed(w, mem, addr, h, n, rest, k, k1, tail);
    ControlParsed(w, mem, from, len, fs, k1, k2, tail);
  }

  /** A msghdr is in step only if it sent 66 bytes, header and control buffer. */
  lemma MsghdrNeedsBytes(env: Env, t: ArgType, addr: u64, k: nat, tail: seq<byte>)
    requires t.Msghdr? && InStep(env, t, addr, k, tail)
    ensures FramesLen(Section(env, t, addr)) >= 66
  {
    var s := Encode(Section(env, t, addr), k) + tail;
    EncodeLen(Section(env, t, addr), k);
    var control := TakeChunk(s[61..]);
    assert Take(s, 61).rest == s[61..];
    PowValues();
    FromLERange(s[..61][29..37]);
    VectorsConsume(control.rest, VectorsRead(FromLE(s[..61][29..37])));
  }

  /** None of the four words the msghdr ops look at can be read. */
  predicate HeaderLost(mem: Mem, h: u64) {
    && Read(mem, h, MSGHDR_SIZE).None? && Read(mem, h + 16, 8).None? && Read(mem, h + 24, 8).None?
    && Read(mem, h + 32, 8).None? && Read(mem, h + 40, 8).None?
  }

  /** A msghdr that cannot be read never stays in step: twenty bytes are sent for it. */
  lemma LostHeaderMisframes(env: Env, t: ArgType, addr: u64, k: nat, tail: seq<byte>)
    requires t.Msghdr? && 0 !in env.mem.bytes && HeaderLost(env.mem, Untag(addr))
    ensures !InStep(env, t, addr, k, tail)
  {
    var mem, h, n := env.mem, Untag(addr), 1;
    ZeroWord(mem, h + 16);
    ZeroWord(mem, h + 24);
    ZeroWord(mem, h + 32);
    ZeroWord(mem, h + 40);
    assert VectorsLost(mem, 0, n);
    LostVectorsLen(mem, 0, n);
    var pair := MsghdrPair(mem, h, addr);
    assert pair[0] == Chunk(0, []) && pair[1..] == [Chunk(0, [])] && pair[1..][1..] == [];
    LenOfBoth(pair, IovFrames(mem, 0, n));
    if InStep(env, t, addr, k, tail) { MsghdrNeedsBytes(env, t, addr, k, tail); }
  }

  // ----- the single iovec

  /** Read as a value, a section of four bytes or more is its length and, above it, its first four bytes. */
  lemma FrameAsValue(d: seq<byte>, k: u8, tail: seq<byte>)
    requires 4 <= |d| < U32
    ensures TakeWord(FrameBytes(Chunk(|d|, d), k) + tail) == Got(|d| + U32 * FromLE(d[..4]), d[4..] + tail)
  {
    var head, front := [k] + LE(4, |d|) + d[..4], LE(4, |d|) + d[..4];
    assert FrameBytes(Chunk(|d|, d), k) + tail == head + (d[4..] + tail);
    TakeFront(head, d[4..] + tail);
    assert head[1..] == front && front[..4] == LE(4, |d|) && front[4..] == d[..4];
    U32RoundTrip(|d|);
    Filters.SplitLE(front, 4);
    PowValues();
  }

  /** Read as a value, two empty sections are the second one's index above zeros. */
  lemma EmptyFramesAsValue(k: u8, next: u8, tail: seq<byte>)
    ensures var p := TakeWord(FrameBytes(Chunk(0, []), k) + (FrameBytes(Chunk(0, []), next) + tail));
            p.Got? && p.value == U32 * next && |p.rest| == |tail| + 1
  {
    var s := FrameBytes(Chunk(0, []), k) + (FrameBytes(Chunk(0, []), next) + tail);
    var d := s[..9][1..];
    LEZero(4);
    assert d == Zeros(4) + ([next] + Zeros(3));
    Filters.FromLEAfterZeros(4, [next] + Zeros(3));
    Filters.FromLEBefore([next], 3);
    assert FromLE([next]) == next + 256 * FromLE([]);
    PowValues();
  }

  /** The count the decoder finds where none was sent, and what it makes of it. */
  lemma SingleIovecCount(env: Env, t: ArgType, addr: u64, k: nat, tail: seq<byte>) returns (n: u64, rest: seq<byte>)
    requires t.Vec? && 0 !in env.mem.bytes
    ensures TakeWord(Encode(Section(env, t, addr), k) + tail) == Got(n, rest) && (n == 0 || n >= 16)
    ensures |rest| + 9 == FramesLen(Section(env, t, addr)) + |tail|
  {
    var f0, f1, next := IovVector(env.mem, addr), IovBuffer(env.mem, addr), k + 1;
    var w := WireOf();
    WireOfIs([f0] + [f1], k, tail);
    WireFirst(w, f0, [f1], k, next, tail);
    WireOnly(w, f1, next, tail);
    EncodeLen([f0] + [f1], k);
    var d := Readable(env.mem, addr, IOVEC_SIZE);
    if VectorLost(env.mem, addr) {
      LostVectorLen(env.mem, addr);
      LostVectorFrames(env.mem, addr);
      EmptyFramesAsValue(Wrap8(k), Wrap8(next), tail);
    } else {
      FrameAsValue(d, Wrap8(k), FrameBytes(f1, Wrap8(next)) + tail);
    }
    var p := TakeWord(Encode([f0] + [f1], k) + tail);
    n, rest := p.value, p.rest;
  }

  /**
   The type of a single iovec sends no count, yet is parsed as if one were in front of it: it is in step only if its
   section is at least 165 bytes long.
   */
  lemma SingleIovecNeedsBytes(env: Env, t: ArgType, addr: u64, k: nat, tail: seq<byte>)
    requires t.Vec? && 0 !in env.mem.bytes && InStep(env, t, addr, k, tail)
    ensures FramesLen(Section(env, t, addr)) >= 165
  {
    var n, rest := SingleIovecCount(env, t, addr, k, tail);
    VectorsConsume(rest, VectorsRead(n));
  }

  /** So one that cannot be read, or whose buffer is shorter than 139 bytes, never is. */
  lemma SingleIovecMisframes(env: Env, t: ArgType, addr: u64, k: nat, tail: seq<byte>)
    requires t.Vec? && 0 !in env.mem.bytes && (VectorLost(env.mem, addr) || |IovBuffer(env.mem, addr).payload| < 139)
    ensures !InStep(env, t, addr, k, tail)
  {
    if InStep(env, t, addr, k, tail) {
      SingleIovecNeedsBytes(env, t, addr, k, tail);
      if VectorLost(env.mem, addr) {
        LostVectorLen(env.mem, addr);
      } else {
        PairLen(IovVector(env.mem, addr), IovBuffer(env.mem, addr));
      }
    }
  }

  // ----- agreement on sections

  /** Every section but a number's needs bytes. */
  lemma SectionNeedsBytes(t: ArgType)
    ensures ParseSection([], t).Got? <==> t.Num?
  {
    assert TakeLen([]).Panic? && TakeWord([]).Panic? && TakeChunk([]).Panic?;
    assert ParseString([]).Panic? && ParseStrings([], MAX_LOOP_COUNT).Panic?;
  }

  lemma SectionIsSent(env: Env, t: ArgType, addr: u64)
    requires WfType(t) && !t.Num?
    ensures Section(env, t, addr) != []
  {
  }

  /** The value of an argument, with its section or what follows behind it. */
  lemma ValueParsed(env: Env, a: PointArg, reg0: u64, phase: Phase, k: nat) returns (rest: seq<byte>)
    requires WfArg(a) && a.reg < REG_ARM64_MAX
    ensures rest == Encode(MoreFrames(env, a), k + 1)
    ensures TakeWord(Encode(ArgFrames(env, a, reg0), k)) == Got(ArgValue(env, a, reg0), rest)
  {
    var w, ptr, more, next := WireOf(), ArgValue(env, a, reg0), MoreFrames(env, a), k + 1;
    rest := Encode(more, next);
    WireOfIs(ArgFrames(env, a, reg0), k, []);
    WireOfIs(more, next, []);
    assert rest + [] == rest && Encode(ArgFrames(env, a, reg0), k) + [] == Encode(ArgFrames(env, a, reg0), k);
    WireFirst(w, Word(ptr), more, k, next, []);
    WordParsed(ptr, Wrap8(k), rest);
  }

  /**
   At the end of a record an argument is decoded without a panic and without a byte left over if and only if
   the two sides agree on its section.
   */
  lemma AgreementIsFraming(env: Env, a: PointArg, reg0: u64, phase: Phase, k: nat)
    requires WfArg(a) && a.reg < REG_ARM64_MAX
    requires ReadMore(a) ==> Decodable(env, a.ty, ArgAddr(env, a))
    ensures var p := ParseArg(Encode(ArgFrames(env, a, reg0), k), a, phase);
            p.Got? && p.rest == [] <==> Agrees(a, phase)
  {
    var rest := ValueParsed(env, a, reg0, phase, k);
    var more := MoreFrames(env, a);
    if ReadMore(a) {
      SectionRoundTrip(env, a.ty, ArgAddr(env, a), k + 1, []);
      assert rest + [] == rest;
      if !a.ty.Num? {
        SectionIsSent(env, a.ty, ArgAddr(env, a));
        EncodeLen(more, k + 1);
      }
    } else {
      SectionNeedsBytes(a.ty);
    }
  }

  /**
   The return value behind the arguments, for any last argument without a register that wants its section on
   exit: it decodes if and only if it is a number, because nobody writes the section.
   */
  lemma ReturnFramingIsExact(last: PointArg, ret: u64, k: nat)
    requires last.reg == REG_ARM64_MAX && ParseMore(last, SysExit)
    ensures ParseArg(Encode([Word(ret)], k), last, SysExit).Got? <==> last.ty.Num?
  {
    EncodeOne(Word(ret), k);
    WordParsed(ret, Wrap8(k), []);
    assert FrameBytes(Word(ret), Wrap8(k)) + [] == FrameBytes(Word(ret), Wrap8(k));
    SectionNeedsBytes(last.ty);
  }

  lemma WordBehind(fs: seq<Frame>, v: u64, k: nat)
    ensures Encode(fs + [Word(v)], k) == Encode(fs, k) + RegFrame(Wrap8(k + |fs|), LE(8, v))
  {
    var next := k + |fs|;
    EncodeJoin(fs, [Word(v)], k, next);
    EncodeOne(Word(v), next);
  }

  lemma RecordWithTail(env: Env, args: seq<PointArg>, fs: seq<Frame>, reg0: u64, k: nat, s: seq<byte>, tail: seq<byte>)
    requires WfArgs(args) && PointDecodable(env, args, SysExit) && fs == RecordFrames(env, args, reg0)
    requires s == Encode(fs, k) + tail
    ensures ParseArgs(s, args, SysExit) == Got(PointMeaning(env, args, reg0), tail)
  {
    PointRoundTrip(env, args, reg0, SysExit, k, tail);
  }

  /** A `ret` parameter with a register of its own is read like any argument, and the return value is left over. */
  lemma NamedReturnLeavesWord(env: Env, args: seq<PointArg>, fs: seq<Frame>, reg0: u64, ret: u64, k: nat)
    requires WfArgs(args) && PointDecodable(env, args, SysExit) && fs == RecordFrames(env, args, reg0)
    ensures ParseArgs(Encode(fs + [Word(ret)], k), args, SysExit)
         == Got(PointMeaning(env, args, reg0), RegFrame(Wrap8(k + |fs|), LE(8, ret)))
  {
    WordBehind(fs, ret, k);
    RecordWithTail(env, args, fs, reg0, k, Encode(fs + [Word(ret)], k), RegFrame(Wrap8(k + |fs|), LE(8, ret)));
  }
}
