/**
 What a record consists of: register-sized words and length-prefixed chunks, and how the save ops of the
 interpreter append them when there is room.
 */
module Frames {
  import opened Bytes
  import opened Memory
  import opened EventBuffer
  import opened Machine

  datatype Frame = Word(v: u64) | Chunk(size: u32, payload: seq<byte>)

  function FrameBytes(f: Frame, index: u8): seq<byte> {
    match f
    case Word(v) => RegFrame(index, LE(8, v))
    case Chunk(size, payload) => LenFrame(index, size, payload)
  }

  /** Consecutive frames carry consecutive save indices, which wrap at 256. */
  function Encode(fs: seq<Frame>, index: nat): seq<byte> {
    if fs == [] then [] else FrameBytes(fs[0], Wrap8(index)) + Encode(fs[1..], index + 1)
  }

  lemma Associate(x: seq<byte>, y: seq<byte>, z: seq<byte>)
    ensures x + (y + z) == (x + y) + z
  {
  }

  lemma {:induction false} EncodeJoin(a: seq<Frame>, b: seq<Frame>, index: nat, next: nat)
    requires next == index + |a|
    ensures Encode(a + b, index) == Encode(a, index) + Encode(b, next)
    decreases |a|
  {
    if a == [] {
      assert a + b == b;
    } else {
      assert (a + b)[0] == a[0] && (a + b)[1..] == a[1..] + b;
      var first, rest := FrameBytes(a[0], Wrap8(index)), Encode(a[1..], index + 1);
      EncodeJoin(a[1..], b, index + 1, next);
      Associate(first, rest, Encode(b, next));
      assert Encode(a, index) == first + rest;
    }
  }

  lemma EncodeOne(f: Frame, index: nat)
    ensures Encode([f], index) == FrameBytes(f, Wrap8(index))
  {
    var bytes := FrameBytes(f, Wrap8(index));
    assert [f][1..] == [] && Encode([], index + 1) == [] && bytes + [] == bytes;
  }

  lemma EncodeAppend(a: seq<Frame>, b: seq<Frame>, index: nat)
    ensures Encode(a + b, index) == Encode(a, index) + Encode(b, index + |a|)
  {
    EncodeJoin(a, b, index, index + |a|);
  }

  lemma {:induction false} EncodeWraps(fs: seq<Frame>, i: nat, j: nat)
    requires Wrap8(i) == Wrap8(j)
    ensures Encode(fs, i) == Encode(fs, j)
    decreases |fs|
  {
    if fs != [] {
      WrapAdd(i, 1);
      WrapAdd(j, 1);
      EncodeWraps(fs[1..], i + 1, j + 1);
    }
  }

  function FrameLen(f: Frame): nat { if f.Word? then 9 else 5 + |f.payload| }

  function FramesLen(fs: seq<Frame>): nat { if fs == [] then 0 else FrameLen(fs[0]) + FramesLen(fs[1..]) }

  lemma {:induction false} EncodeLen(fs: seq<Frame>, index: nat)
    ensures |Encode(fs, index)| == FramesLen(fs)
    decreases |fs|
  {
    if fs != [] { EncodeLen(fs[1..], index + 1); }
  }

  /** The highest offset at which a frame can still be saved. */
  function Limit(f: Frame): int { if f.Word? then SUBMIT_ROOM else BYTES_ROOM }

  /** Where the next frame starts behind `f`, saved at `off`: without room it is dropped. */
  function Past(off: nat, f: Frame): nat { if off <= Limit(f) then off + FrameLen(f) else off }

  function PastAll(off: nat, fs: seq<Frame>): nat
    decreases |fs|
  {
    if fs == [] then off else PastAll(Past(off, fs[0]), fs[1..])
  }

  function KeptFrame(off: nat, f: Frame, index: nat): seq<byte> {
    if off <= Limit(f) then FrameBytes(f, Wrap8(index)) else []
  }

  /** What saving `fs` from offset `off` on appends. A frame without room is dropped, but uses up its save index. */
  function Kept(off: nat, fs: seq<Frame>, index: nat): seq<byte>
    decreases |fs|
  {
    if fs == [] then [] else KeptFrame(off, fs[0], index) + Kept(Past(off, fs[0]), fs[1..], index + 1)
  }

  lemma {:induction false} KeptLen(off: nat, fs: seq<Frame>, index: nat)
    ensures off + |Kept(off, fs, index)| == PastAll(off, fs)
    decreases |fs|
  {
    if fs != [] { KeptLen(Past(off, fs[0]), fs[1..], index + 1); }
  }

  lemma {:induction false} KeptJoin(off: nat, a: seq<Frame>, b: seq<Frame>, index: nat, mid: nat, next: nat)
    requires mid == PastAll(off, a) && next == index + |a|
    ensures Kept(off, a + b, index) == Kept(off, a, index) + Kept(mid, b, next)
    ensures PastAll(off, a + b) == PastAll(mid, b)
    decreases |a|
  {
    if a == [] {
      assert a + b == b;
    } else {
      assert (a + b)[0] == a[0] && (a + b)[1..] == a[1..] + b;
      var first, at := KeptFrame(off, a[0], index), Past(off, a[0]);
      KeptJoin(at, a[1..], b, index + 1, mid, next);
      Associate(first, Kept(at, a[1..], index + 1), Kept(mid, b, next));
      assert Kept(off, a, index) == first + Kept(at, a[1..], index + 1);
    }
  }

  lemma KeptOne(off: nat, f: Frame, index: nat)
    ensures Kept(off, [f], index) == KeptFrame(off, f, index) && PastAll(off, [f]) == Past(off, f)
  {
    var bytes, at := KeptFrame(off, f, index), Past(off, f);
    assert [f][1..] == [] && Kept(at, [], index + 1) == [] && PastAll(at, []) == at && bytes + [] == bytes;
  }

  lemma KeptThenOne(s: seq<byte>, fs: seq<Frame>, f: Frame, off: nat, k: nat, sum: nat, next: nat)
    requires off == |s| && sum == k + |fs| && next == Wrap8(sum)
    ensures s + Kept(off, fs + [f], k) == (s + Kept(off, fs, k)) + KeptFrame(PastAll(off, fs), f, next)
  {
    WrapIdempotent(sum);
    KeptJoin(off, fs, [f], k, PastAll(off, fs), sum);
    KeptOne(PastAll(off, fs), f, sum);
    Associate(s, Kept(off, fs, k), KeptFrame(PastAll(off, fs), f, next));
  }

  lemma {:induction false} KeptWraps(off: nat, fs: seq<Frame>, i: nat, j: nat)
    requires Wrap8(i) == Wrap8(j)
    ensures Kept(off, fs, i) == Kept(off, fs, j)
    decreases |fs|
  {
    if fs != [] {
      WrapAdd(i, 1);
      WrapAdd(j, 1);
      KeptWraps(Past(off, fs[0]), fs[1..], i + 1, j + 1);
    }
  }

  /** Starting at `off`, every frame begins where the encoder still accepts it. */
  predicate RoomFrom(off: nat, fs: seq<Frame>)
    decreases |fs|
  {
    fs == [] || (off <= Limit(fs[0]) && RoomFrom(off + FrameLen(fs[0]), fs[1..]))
  }

  /** With room for all of them nothing is dropped. */
  lemma {:induction false} KeptWithRoom(off: nat, fs: seq<Frame>, index: nat)
    requires RoomFrom(off, fs)
    ensures Kept(off, fs, index) == Encode(fs, index) && PastAll(off, fs) == off + FramesLen(fs)
    decreases |fs|
  {
    if fs != [] { KeptWithRoom(off + FrameLen(fs[0]), fs[1..], index + 1); }
  }

  lemma {:induction false} RoomParts(off: nat, a: seq<Frame>, b: seq<Frame>, next: nat)
    requires next == off + FramesLen(a)
    ensures RoomFrom(off, a + b) <==> RoomFrom(off, a) && RoomFrom(next, b)
    decreases |a|
  {
    if a == [] {
      assert a + b == b;
    } else {
      assert (a + b)[0] == a[0] && (a + b)[1..] == a[1..] + b;
      RoomParts(off + FrameLen(a[0]), a[1..], b, next);
    }
  }

  function Off(m: Mach): nat { |m.out.bytes| }

  /** `m1` is `m` after saving `fs`; the filter flags and the return register are as before. */
  ghost predicate Wrote(m: Mach, m1: Mach, fs: seq<Frame>) {
    && m1.out.bytes == m.out.bytes + Kept(Off(m), fs, m.saveIndex)
    && m1.saveIndex == Wrap8(m.saveIndex + |fs|)
    && m1.applyFilter == m.applyFilter && m1.matchWhite == m.matchWhite && m1.reg0 == m.reg0
  }

  lemma WroteNothing(m: Mach, m1: Mach)
    requires m1.out.bytes == m.out.bytes && m1.saveIndex == m.saveIndex
    requires m1.applyFilter == m.applyFilter && m1.matchWhite == m.matchWhite && m1.reg0 == m.reg0
    ensures Wrote(m, m1, [])
  {
  }

  lemma WroteOne(m: Mach, m1: Mach, f: Frame)
    requires m1.out.bytes == m.out.bytes + KeptFrame(Off(m), f, m.saveIndex) && m1.saveIndex == Wrap8(m.saveIndex + 1)
    requires m1.applyFilter == m.applyFilter && m1.matchWhite == m.matchWhite && m1.reg0 == m.reg0
    ensures Wrote(m, m1, [f])
  {
    KeptOne(Off(m), f, m.saveIndex);
  }

  lemma WroteBoth(m: Mach, m1: Mach, m2: Mach, a: seq<Frame>, b: seq<Frame>)
    requires Wrote(m, m1, a) && Wrote(m1, m2, b)
    ensures Wrote(m, m2, a + b)
  {
    NextIndex(m.saveIndex, |a|, |b|);
    BytesBoth(m.out.bytes, m1.out.bytes, Off(m), Off(m1), m.saveIndex, m1.saveIndex, m.saveIndex + |a|, a, b);
  }

  lemma BytesBoth(s: seq<byte>, s1: seq<byte>, off: nat, off1: nat, k: nat, k1: nat, next: nat, a: seq<Frame>,
                  b: seq<Frame>)
    requires off == |s| && off1 == |s1| && next == k + |a|
    requires s1 == s + Kept(off, a, k) && Wrap8(k1) == Wrap8(next)
    ensures s1 + Kept(off1, b, k1) == s + Kept(off, a + b, k)
  {
    KeptLen(off, a, k);
    KeptJoin(off, a, b, k, off1, next);
    KeptWraps(off1, b, k1, next);
    Associate(s, Kept(off, a, k), Kept(off1, b, next));
  }

  lemma NextIndex(k: nat, i: nat, j: nat)
    ensures Wrap8(Wrap8(k + i)) == Wrap8(k + i) && Wrap8(Wrap8(k + i) + j) == Wrap8(k + (i + j))
  {
    WrapIdempotent(k + i);
    WrapAdd(k + i, j);
  }

  /** Where the record ends after saving `fs`. */
  lemma WroteEnds(m: Mach, m1: Mach, fs: seq<Frame>)
    requires Wrote(m, m1, fs)
    ensures Off(m1) == PastAll(Off(m), fs)
  {
    KeptLen(Off(m), fs, m.saveIndex);
  }

  /** The section of a fixed-length save: the bytes, or empty when they cannot be read. */
  function StructFrame(mem: Mem, addr: u64, len: nat): (f: Frame)
    requires len <= MAX_BYTES_ARR_SIZE
    ensures f.Chunk?
  {
    match Read(mem, Untag(addr), len)
    case Some(d) => Chunk(len, d)
    case None => Chunk(0, [])
  }

  /** The section of a string: the bytes with their NUL, or empty when they cannot be read. */
  function StringFrame(mem: Mem, addr: u64): (f: Frame)
    ensures f.Chunk?
  {
    match ReadStr(mem, Untag(addr))
    case Some(d) => Chunk(|d|, d)
    case None => Chunk(0, [])
  }

  lemma SaveWordWrites(m: Mach, v: u64)
    ensures Wrote(m, SaveWord(m, v), [Word(v)])
  {
    WroteOne(m, SaveWord(m, v), Word(v));
  }

  lemma SaveStructWrites(env: Env, m: Mach, readLen: u32)
    ensures var len := Min(readLen, MAX_BYTES_ARR_SIZE);
            var m1 := SaveStructAt(env, m, readLen);
            Wrote(m, m1, [StructFrame(env.mem, m.readAddr, len)])
            && m1 == m.(readAddr := Untag(m.readAddr), readLen := len, out := m1.out, saveIndex := m1.saveIndex)
  {
    var len := Min(readLen, MAX_BYTES_ARR_SIZE);
    WroteOne(m, SaveStructAt(env, m, readLen), StructFrame(env.mem, m.readAddr, len));
  }

  /** The length a string saved at `off` leaves in `str_len`: none when it cannot be read or finds no room. */
  function TextLen(mem: Mem, addr: u64, off: nat): Option<u32> {
    if off > BYTES_ROOM then None
    else
      match ReadStr(mem, Untag(addr))
      case None => None
      case Some(s) => Some(|s|)
  }

  function LenOr(n: Option<u32>, was: u32): u32 { if n.Some? then n.value else was }

  lemma SaveStringWrites(env: Env, m: Mach)
    ensures var m1 := SaveStringAt(env, m);
            Wrote(m, m1, [StringFrame(env.mem, m.readAddr)])
            && m1 == m.(readAddr := Untag(m.readAddr), out := m1.out, saveIndex := m1.saveIndex,
                        strLen := LenOr(TextLen(env.mem, m.readAddr, Off(m)), m.strLen))
  {
    WroteOne(m, SaveStringAt(env, m), StringFrame(env.mem, m.readAddr));
  }

  /** One pointer of a string array and its string, or the end marker. */
  function PtrStringFrames(mem: Mem, addr: u64): seq<Frame> {
    var ptr := ReadWord(mem, Untag(addr));
    match ReadStr(mem, Untag(ptr))
    case Some(d) => [Word(ptr), Chunk(|d|, d)]
    case None => [Word(ptr), Chunk(STRARR_MAGIC_LEN, [])]
  }

  /** The string behind the pointer at `addr` cannot be read. */
  predicate LastString(mem: Mem, addr: u64) { ReadStr(mem, Untag(ReadWord(mem, Untag(addr)))).None? }

  /** Saved from `off` on, the string ends its array: it cannot be read or finds no room behind its pointer. */
  predicate EndsArray(mem: Mem, addr: u64, off: nat) { LastString(mem, addr) || Past(off, Word(0)) > BYTES_ROOM }

  lemma PtrTailWrites(env: Env, m: Mach, ptr: u64, f: Frame)
    requires f == match ReadStr(env.mem, ptr) { case Some(d) => Chunk(|d|, d) case None => Chunk(STRARR_MAGIC_LEN, []) }
    ensures var s := PtrStringTail(env, m, ptr);
            Wrote(m, s.m, [f]) && s.m == m.(out := s.m.out, saveIndex := s.m.saveIndex)
            && (s.ok <==> ReadStr(env.mem, ptr).Some? && Off(m) <= BYTES_ROOM)
  {
    WroteOne(m, PtrStringTail(env, m, ptr).m, f);
  }

  lemma SavePtrStringWrites(env: Env, m: Mach)
    ensures var s := SavePtrStringAt(env, m);
            Wrote(m, s.m, PtrStringFrames(env.mem, m.readAddr))
            && s.ok == !EndsArray(env.mem, m.readAddr, Off(m))
            && s.m == m.(out := s.m.out, saveIndex := s.m.saveIndex)
  {
    var ptr := ReadWord(env.mem, Untag(m.readAddr));
    var fs := PtrStringFrames(env.mem, m.readAddr);
    var f0, f1 := Word(ptr), fs[1];
    assert fs == [f0] + [f1];
    var m1 := SaveWord(m, ptr);
    SaveWordWrites(m, ptr);
    WroteEnds(m, m1, [f0]);
    KeptOne(Off(m), f0, m.saveIndex);
    PtrTailWrites(env, m1, Untag(ptr), f1);
    WroteBoth(m, m1, PtrStringTail(env, m1, Untag(ptr)).m, [f0], [f1]);
  }
}
