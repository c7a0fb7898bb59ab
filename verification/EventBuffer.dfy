/**
 The submit buffer of `src/common/buffer.h`: the three bounded encoders, written in place, and the
 record they commit.
 */
module EventBuffer {
  import opened Bytes
  import opened Memory

  const ARGS_BUF_SIZE: int := 32000
  const MAX_ELEMENT_SIZE: int := 110
  const MAX_BYTES_ARR_SIZE: int := 4096
  const STRARR_MAGIC_LEN: u32 := 0xffff0000

  /** Highest offset at which a fixed-size save, respectively a variable-length save, still succeeds. */
  const SUBMIT_ROOM: int := ARGS_BUF_SIZE - (MAX_ELEMENT_SIZE + 1)
  const BYTES_ROOM: int := ARGS_BUF_SIZE - (MAX_BYTES_ARR_SIZE + 1 + 4)

  /** The committed part of the buffer and the argument count. */
  datatype Out = Out(bytes: seq<byte>, argnum: u8)

  datatype Saved = Saved(out: Out, ok: bool)

  function Commit(o: Out, frame: seq<byte>): Saved {
    Saved(Out(o.bytes + frame, Wrap8(o.argnum + 1)), true)
  }

  function RegFrame(index: u8, data: seq<byte>): seq<byte> { [index] + data }

  function LenFrame(index: u8, size: u32, payload: seq<byte>): (s: seq<byte>)
    ensures |s| == 5 + |payload|
  {
    [index] + LE(4, size) + payload
  }

  /** How many bytes `save_bytes_to_buf` reads for a header of `size`. */
  function PayloadLen(size: u32): (n: nat)
    ensures n <= MAX_BYTES_ARR_SIZE
    ensures size <= MAX_BYTES_ARR_SIZE ==> n == size
    ensures size == STRARR_MAGIC_LEN ==> n == 0
  {
    if size == MAX_BYTES_ARR_SIZE then size else size % MAX_BYTES_ARR_SIZE
  }

  function SaveSubmit(o: Out, data: seq<byte>, index: u8): Saved {
    if |data| == 0 || |o.bytes| > SUBMIT_ROOM then Saved(o, false) else Commit(o, RegFrame(index, data))
  }

  function SaveBytes(o: Out, mem: Mem, ptr: u64, size: u32, index: u8): Saved {
    if |o.bytes| > BYTES_ROOM then Saved(o, false)
    else
      match Read(mem, ptr, PayloadLen(size))
      case None => Saved(o, false)
      case Some(data) => Commit(o, LenFrame(index, size, data))
  }

  function SaveStr(o: Out, mem: Mem, ptr: u64, index: u8): Saved {
    if |o.bytes| > BYTES_ROOM then Saved(o, false)
    else
      match ReadStr(mem, ptr)
      case None => Saved(o, false)
      case Some(data) => Commit(o, LenFrame(index, |data|, data))
  }

  // ----- the in-place buffer

  /** `now` holds `data` at `at` and is `was` everywhere else. */
  ghost predicate Stored(now: seq<byte>, was: seq<byte>, at: nat, data: seq<byte>) {
    && |now| == |was| && at + |data| <= |was|
    && (forall i :: 0 <= i < |was| && !(at <= i < at + |data|) ==> now[i] == was[i])
    && (forall i :: at <= i < at + |data| ==> now[i] == data[i - at])
  }

  lemma StoredBehind(now: seq<byte>, was: seq<byte>, at: nat, data: seq<byte>, off: nat)
    requires Stored(now, was, at, data) && off <= at
    ensures now[..off] == was[..off]
  {
  }

  lemma StoredNext(now: seq<byte>, mid: seq<byte>, was: seq<byte>, off: nat, a: seq<byte>, b: seq<byte>)
    requires Stored(mid, was, off, a) && Stored(now, mid, off + |a|, b)
    ensures Stored(now, was, off, a + b)
  {
  }

  /** The string encoder stores the payload before the length; the layout is the same. */
  lemma StoredBefore(now: seq<byte>, mid: seq<byte>, was: seq<byte>, off: nat, a: seq<byte>, b: seq<byte>)
    requires Stored(mid, was, off + |a|, b) && Stored(now, mid, off, a)
    ensures Stored(now, was, off, a + b)
  {
  }

  lemma StoredCommits(now: seq<byte>, was: seq<byte>, off: nat, frame: seq<byte>)
    requires Stored(now, was, off, frame)
    ensures now[..off + |frame|] == was[..off] + frame
  {
  }

  class Buffer {
    const args: array<byte>
    var bufOff: nat
    var argnum: u8

    ghost predicate Valid()
      reads this, args
    {
      args.Length == ARGS_BUF_SIZE && bufOff <= ARGS_BUF_SIZE
    }

    ghost function View(): Out
      reads this, args
      requires Valid()
    {
      Out(args[..bufOff], argnum)
    }

    constructor ()
      ensures Valid() && fresh(this) && fresh(args) && View() == Out([], 0)
    {
      args := new byte[ARGS_BUF_SIZE](_ => 0);
      bufOff, argnum := 0, 0;
    }

    /** A store by a kernel helper: `data` at `at`, inside the array, past the committed part. */
    method Poke(at: nat, data: seq<byte>)
      requires Valid() && bufOff <= at && at + |data| <= ARGS_BUF_SIZE
      modifies args
      ensures Valid() && Stored(args[..], old(args[..]), at, data)
      ensures args[..bufOff] == old(args[..bufOff])
    {
      for i := 0 to |data|
        invariant forall j :: 0 <= j < args.Length && !(at <= j < at + i) ==> args[j] == old(args[j])
        invariant forall j :: at <= j < at + i ==> args[j] == data[j - at]
      {
        args[at + i] := data[i];
      }
    }

    /** `buf_off` moves past a stored frame. */
    method Advance(ghost was: seq<byte>, ghost frame: seq<byte>, n: nat)
      requires Valid() && n == |frame| && Stored(args[..], was, bufOff, frame)
      modifies this`bufOff, this`argnum
      ensures Valid() && View() == Commit(Out(was[..old(bufOff)], old(argnum)), frame).out
    {
      StoredCommits(args[..], was, bufOff, frame);
      bufOff := bufOff + n;
      argnum := Wrap8(argnum + 1);
    }

    method SaveToSubmitBuf(data: seq<byte>, index: u8) returns (ok: bool)
      requires Valid() && |data| <= MAX_ELEMENT_SIZE
      modifies this`bufOff, this`argnum, args
      ensures Valid()
      ensures Saved(View(), ok) == SaveSubmit(old(View()), data, index)
    {
      ghost var was := args[..];
      if |data| == 0 { return false; }
      if bufOff > ARGS_BUF_SIZE - 1 { return false; }
      Poke(bufOff, [index]);
      if bufOff > ARGS_BUF_SIZE - (MAX_ELEMENT_SIZE + 1) { return false; }
      ghost var mid := args[..];
      Poke(bufOff + 1, data);
      StoredNext(args[..], mid, was, bufOff, [index], data);
      Advance(was, RegFrame(index, data), |data| + 1);
      return true;
    }

    method SaveBytesToBuf(mem: Mem, ptr: u64, size: u32, index: u8) returns (ok: bool)
      requires Valid()
      modifies this`bufOff, this`argnum, args
      ensures Valid()
      ensures Saved(View(), ok) == SaveBytes(old(View()), mem, ptr, size, index)
    {
      ghost var was := args[..];
      if bufOff > ARGS_BUF_SIZE - 1 { return false; }
      Poke(bufOff, [index]);
      if bufOff > ARGS_BUF_SIZE - (4 + 1) { return false; }
      ghost var mid := args[..];
      Poke(bufOff + 1, LE(4, size));
      StoredNext(args[..], mid, was, bufOff, [index], LE(4, size));
      if bufOff > ARGS_BUF_SIZE - (MAX_BYTES_ARR_SIZE + 1 + 4) { return false; }
      ok := SavePayload(mem, ptr, size, index, was);
    }

    /** The rest of `save_bytes_to_buf`, once index and length are stored. */
    method SavePayload(mem: Mem, ptr: u64, size: u32, index: u8, ghost was: seq<byte>) returns (ok: bool)
      requires Valid() && bufOff <= BYTES_ROOM
      requires Stored(args[..], was, bufOff, [index] + LE(4, size)) && args[..bufOff] == was[..bufOff]
      modifies this`bufOff, this`argnum, args
      ensures Valid()
      ensures Saved(View(), ok) == SaveBytes(old(View()), mem, ptr, size, index)
    {
      if size > 0 {
        var masked: nat := if size != MAX_BYTES_ARR_SIZE then size % MAX_BYTES_ARR_SIZE else size;
        var data := ReadOrZero(mem, ptr, masked);
        ok := StorePayload(data, size, index, Read(mem, ptr, masked).Some?, was);
      } else {
        assert LenFrame(index, size, []) == [index] + LE(4, size);
        Advance(was, LenFrame(index, size, []), size + 1 + 4);
        ok := true;
      }
    }

    /** The read's destination is overwritten either way; only a successful read moves `buf_off`. */
    method StorePayload(data: seq<byte>, size: u32, index: u8, readOk: bool, ghost was: seq<byte>) returns (ok: bool)
      requires Valid() && bufOff <= BYTES_ROOM && |data| <= MAX_BYTES_ARR_SIZE
      requires Stored(args[..], was, bufOff, [index] + LE(4, size)) && args[..bufOff] == was[..bufOff]
      modifies this`bufOff, this`argnum, args
      ensures Valid() && ok == readOk
      ensures View() == if readOk then Commit(old(View()), LenFrame(index, size, data)).out else old(View())
    {
      ghost var mid := args[..];
      Poke(bufOff + 5, data);
      if readOk {
        StoredNext(args[..], mid, was, bufOff, [index] + LE(4, size), data);
        Advance(was, LenFrame(index, size, data), |data| + 1 + 4);
      }
      ok := readOk;
    }

    method SaveStrToBuf(mem: Mem, ptr: u64, index: u8) returns (ok: bool)
      requires Valid()
      modifies this`bufOff, this`argnum, args
      ensures Valid()
      ensures Saved(View(), ok) == SaveStr(old(View()), mem, ptr, index)
    {
      ghost var was := args[..];
      if bufOff > ARGS_BUF_SIZE - 1 { return false; }
      Poke(bufOff, [index]);
      if bufOff > ARGS_BUF_SIZE - (MAX_STRING_SIZE + 1 + 4) { return false; }
      var r := ReadStr(mem, ptr);
      if r.None? { return false; }
      StoreString(index, r.value, was);
      return true;
    }

    /** Stores a string behind its index, then the length in between, and commits the frame. */
    method StoreString(index: u8, data: seq<byte>, ghost was: seq<byte>)
      requires Valid() && bufOff <= BYTES_ROOM && |data| <= MAX_STRING_SIZE
      requires Stored(args[..], was, bufOff, [index])
      modifies this`bufOff, this`argnum, args
      ensures Valid()
      ensures View() == Commit(Out(was[..old(bufOff)], old(argnum)), LenFrame(index, |data|, data)).out
    {
      ghost var mid := args[..];
      Poke(bufOff + 5, data);
      ghost var late := args[..];
      Poke(bufOff + 1, LE(4, |data|));
      StoredBefore(args[..], late, mid, bufOff + 1, LE(4, |data|), data);
      StoredNext(args[..], mid, was, bufOff, [index], LE(4, |data|) + data);
      assert [index] + (LE(4, |data|) + data) == LenFrame(index, |data|, data);
      Advance(was, LenFrame(index, |data|, data), |data| + 4 + 1);
    }
  }
}
