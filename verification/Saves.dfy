/** Any sequence of saves into one event: bounds, what stays, what fails, and what the buffer then holds. */
module Saves {
  import opened Bytes
  import opened Memory
  import opened EventBuffer

  /** A call of one of the three encoders. */
  datatype Request =
    | Fixed(data: seq<byte>, index: u8)
    | Sized(ptr: u64, size: u32, index: u8)
    | Terminated(ptr: u64, index: u8)

  /** What `read_args` and the probes ask for: small fixed data, at most 4096 bytes, or the end marker. */
  predicate Proper(r: Request) {
    match r
    case Fixed(data, _) => |data| <= MAX_ELEMENT_SIZE
    case Sized(_, size, _) => size <= MAX_BYTES_ARR_SIZE || size == STRARR_MAGIC_LEN
    case Terminated(_, _) => true
  }

  predicate AllProper(rs: seq<Request>) { forall i :: 0 <= i < |rs| ==> Proper(rs[i]) }

  function Perform(o: Out, mem: Mem, r: Request): Saved {
    match r
    case Fixed(data, index) => SaveSubmit(o, data, index)
    case Sized(ptr, size, index) => SaveBytes(o, mem, ptr, size, index)
    case Terminated(ptr, index) => SaveStr(o, mem, ptr, index)
  }

  function PerformAll(o: Out, mem: Mem, rs: seq<Request>): Out
    decreases |rs|
  {
    if rs == [] then o else PerformAll(Perform(o, mem, rs[0]).out, mem, rs[1..])
  }

  /** What a request sends when it succeeds; None when its memory cannot be read, or fixed data is empty. */
  function Content(mem: Mem, r: Request): Option<seq<byte>> {
    match r
    case Fixed(data, index) => if data == [] then None else Some([index] + data)
    case Sized(ptr, size, index) =>
      (match Read(mem, ptr, if size == STRARR_MAGIC_LEN then 0 else size)
       case None => None
       case Some(d) => Some([index] + LE(4, size) + d))
    case Terminated(ptr, index) =>
      (match ReadStr(mem, ptr)
       case None => None
       case Some(d) => Some([index] + LE(4, |d|) + d))
  }

  /** The highest offset at which a request still has room. */
  function RoomFor(r: Request): int { if r.Fixed? then SUBMIT_ROOM else BYTES_ROOM }

  /**
   A save succeeds exactly when its memory can be read, fixed data is not empty and the offset leaves room; it then
   appends its index, a length equal to its payload (or the end marker and no payload) and the payload. A failed save
   changes nothing that is committed. The buffer never grows past its 32000 bytes.
   */
  lemma SaveIsExact(o: Out, mem: Mem, r: Request)
    requires Proper(r)
    ensures var s := Perform(o, mem, r);
            && (s.ok <==> |o.bytes| <= RoomFor(r) && Content(mem, r).Some?)
            && (s.ok ==> s.out == Out(o.bytes + Content(mem, r).value, Wrap8(o.argnum + 1)))
            && (!s.ok ==> s.out == o)
            && (|o.bytes| <= ARGS_BUF_SIZE ==> |s.out.bytes| <= ARGS_BUF_SIZE)
  {
  }

  /** The requests of `rs` that go through. */
  function Accepted(o: Out, mem: Mem, rs: seq<Request>): (a: seq<Request>)
    decreases |rs|
  {
    if rs == [] then []
    else
      var s := Perform(o, mem, rs[0]);
      (if s.ok then [rs[0]] else []) + Accepted(s.out, mem, rs[1..])
  }

  function Contents(mem: Mem, rs: seq<Request>): seq<byte> {
    if rs == [] then []
    else (if Content(mem, rs[0]).Some? then Content(mem, rs[0]).value else []) + Contents(mem, rs[1..])
  }

  lemma ContentsNext(mem: Mem, r: Request, more: seq<Request>)
    requires Content(mem, r).Some?
    ensures Contents(mem, [r] + more) == Content(mem, r).value + Contents(mem, more)
  {
    assert ([r] + more)[1..] == more;
  }

  /**
   After any sequence of saves the buffer is in bounds and holds what it held before, followed by the contents
   of exactly the accepted requests, in order; the count has grown by their number.
   */
  lemma {:induction false} SavesKeep(o: Out, mem: Mem, rs: seq<Request>)
    requires AllProper(rs) && |o.bytes| <= ARGS_BUF_SIZE
    ensures var t := PerformAll(o, mem, rs);
            && |t.bytes| <= ARGS_BUF_SIZE
            && t.bytes == o.bytes + Contents(mem, Accepted(o, mem, rs))
            && t.argnum == Wrap8(o.argnum + |Accepted(o, mem, rs)|)
    decreases |rs|
  {
    if rs == [] {
      WrapIdempotent(o.argnum);
    } else {
      var s := Perform(o, mem, rs[0]);
      SaveIsExact(o, mem, rs[0]);
      SavesKeep(s.out, mem, rs[1..]);
      var more := Accepted(s.out, mem, rs[1..]);
      if s.ok {
        ContentsNext(mem, rs[0], more);
        WrapAdd(o.argnum + 1, |more|);
        Joined(o.bytes, Content(mem, rs[0]).value, Contents(mem, more));
      } else {
        assert [] + more == more;
      }
    }
  }

  lemma Joined(a: seq<byte>, b: seq<byte>, c: seq<byte>)
    ensures (a + b) + c == a + (b + c)
  {
  }

  /** Every request whose memory can be read. */
  function Readables(mem: Mem, rs: seq<Request>): seq<Request> {
    if rs == [] then []
    else (if Content(mem, rs[0]).Some? then [rs[0]] else []) + Readables(mem, rs[1..])
  }

  lemma {:induction false} PerformAllGrows(o: Out, mem: Mem, rs: seq<Request>)
    requires AllProper(rs)
    ensures |o.bytes| <= |PerformAll(o, mem, rs).bytes|
    decreases |rs|
  {
    if rs != [] {
      SaveIsExact(o, mem, rs[0]);
      PerformAllGrows(Perform(o, mem, rs[0]).out, mem, rs[1..]);
    }
  }

  /**
   Nothing is lost for lack of room while the buffer ends at or below 32000 - 4101: every request whose
   memory can be read is accepted.
   */
  lemma {:induction false} NothingDropped(o: Out, mem: Mem, rs: seq<Request>)
    requires AllProper(rs) && |PerformAll(o, mem, rs).bytes| <= BYTES_ROOM
    ensures Accepted(o, mem, rs) == Readables(mem, rs)
    decreases |rs|
  {
    if rs != [] {
      var s := Perform(o, mem, rs[0]);
      SaveIsExact(o, mem, rs[0]);
      PerformAllGrows(s.out, mem, rs[1..]);
      NothingDropped(s.out, mem, rs[1..]);
    }
  }

  /** The limits are sharp: a word fits up to offset 31889, and one byte beyond 27899 every readable section is lost. */
  lemma LimitIsSharp(o: Out, mem: Mem, r: Request)
    requires Proper(r) && Content(mem, r).Some?
    ensures Perform(o, mem, r).ok <==> |o.bytes| <= if r.Fixed? then 32000 - 111 else 32000 - 4101
  {
    SaveIsExact(o, mem, r);
  }

  /** A size beyond 4096 keeps its header but is cut to its low twelve bits; the end marker so has no payload. */
  lemma OversizedSave(o: Out, mem: Mem, ptr: u64, size: u32, index: u8)
    requires size > 4096
    ensures var s := SaveBytes(o, mem, ptr, size, index);
            var d := Read(mem, ptr, size % 4096);
            && (s.ok <==> |o.bytes| <= 32000 - 4101 && d.Some?)
            && (s.ok ==> s.out.bytes == o.bytes + [index] + LE(4, size) + d.value)
            && (!s.ok ==> s.out == o)
            && (size == 0xffff_0000 ==> d == Some([]))
  {
    var d := Read(mem, ptr, size % 4096);
    if d.Some? { assert o.bytes + ([index] + LE(4, size) + d.value) == o.bytes + [index] + LE(4, size) + d.value; }
  }
}
