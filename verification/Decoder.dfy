/**
 The user-space side of a record: per-type parsers consuming a byte buffer (`ARG_PTR.Parse`,
 `ARG_BUFFER.ParseArg`, `ARG_STRUCT.ParseArg`, `parse_*`) and the point parsers over them.
 */
module Decoder {
  import opened Bytes
  import opened EventBuffer
  import opened Machine
  import opened ArgTypes
  import opened PointArgs

  const MAX_IOV_COUNT: int := 6

  /** A pointer and its string; the payload keeps the bytes as sent, terminator included. */
  datatype ArrayString = ArrayString(addr: u64, payload: seq<byte>)

  datatype Vector = Vector(base: u64, length: u64, payload: seq<byte>)

  /** What a section means. `Plain` is no section, `Missing` an empty one. */
  datatype Value =
    | Plain
    | Missing
    | Raw(data: seq<byte>)
    | Pointee(word: u64, inner: Value)
    | Elements(items: seq<nat>)
    | Strings(strings: seq<ArrayString>)
    | Vectors(count: u64, vectors: seq<Vector>)
    | Header(header: seq<byte>, control: seq<byte>, vectors: seq<Vector>)

  /** One argument: its register value or address, and its section. */
  datatype Decoded = Decoded(ptr: u64, detail: Value)

  /** A read past the end or a size check that fails is a panic. */
  datatype Parsed<T> = Panic | Got(value: T, rest: seq<byte>)

  // ----- primitive reads

  function Take(s: seq<byte>, n: nat): Parsed<seq<byte>> {
    if |s| < n then Panic else Got(s[..n], s[n..])
  }

  /** `Arg_reg`: an index and a 64-bit value. */
  function TakeWord(s: seq<byte>): Parsed<u64> {
    match Take(s, 9)
    case Panic => Panic
    case Got(d, rest) =>
      PowValues();
      FromLERange(d[1..]);
      Got(FromLE(d[1..]), rest)
  }

  /** `Arg_str`: an index and a 32-bit length. */
  function TakeLen(s: seq<byte>): Parsed<u32> {
    match Take(s, 5)
    case Panic => Panic
    case Got(d, rest) =>
      PowValues();
      FromLERange(d[1..]);
      Got(FromLE(d[1..]), rest)
  }

  /** A length and as many bytes. */
  function TakeChunk(s: seq<byte>): Parsed<seq<byte>> {
    match TakeLen(s)
    case Panic => Panic
    case Got(n, rest) => Take(rest, n)
  }

  // ----- types

  /** A structure is sent whole or not at all; any other length is a panic. */
  function TakeStruct(s: seq<byte>, size: u32): Parsed<Option<seq<byte>>> {
    match TakeLen(s)
    case Panic => Panic
    case Got(n, rest) =>
      if n > 0 && n != size then Panic
      else if n == 0 then Got(None, rest)
      else
        match Take(rest, size)
        case Panic => Panic
        case Got(d, rest2) => Got(Some(d), rest2)
  }

  /** Little-endian elements of `elem` bytes. */
  function Split(d: seq<byte>, elem: nat, n: nat): seq<nat>
    requires |d| == elem * n
    decreases n
  {
    if n == 0 then []
    else
      ElemFits(elem, n);
      [FromLE(d[..elem])] + Split(d[elem..], elem, n - 1)
  }

  lemma ElemFits(elem: nat, n: nat)
    requires n > 0
    ensures elem * n == elem + elem * (n - 1) && elem <= elem * n
  {
  }

  function ParseArray(s: seq<byte>, elem: u32, len: u32): Parsed<Value> {
    match TakeLen(s)
    case Panic => Panic
    case Got(n, rest) =>
      if n > 0 && n != ArrSize(elem, len) then Panic
      else if n == 0 then Got(Elements([]), rest)
      else
        match Take(rest, elem * len)
        case Panic => Panic
        case Got(d, rest2) => Got(Elements(Split(d, elem, len)), rest2)
  }

  /** One pointer/string pair; None is the end: the sentinel length or a null pointer. */
  function ParseString(s: seq<byte>): Parsed<Option<ArrayString>> {
    match TakeWord(s)
    case Panic => Panic
    case Got(addr, s1) =>
      match TakeLen(s1)
      case Panic => Panic
      case Got(len, s2) =>
        if len == STRARR_MAGIC_LEN then Got(None, s2)
        else
          match Take(s2, len)
          case Panic => Panic
          case Got(payload, s3) =>
            Got(if addr == 0 then None else Some(ArrayString(addr, payload)), s3)
  }

  function ParseStrings(s: seq<byte>, n: nat): Parsed<seq<ArrayString>>
    decreases n, |s|
  {
    if n == 0 then Got([], s)
    else
      match ParseString(s)
      case Panic => Panic
      case Got(None, rest) => Got([], rest)
      case Got(Some(str), s1) => Prefixed([str], ParseStrings(s1, n - 1))
  }

  /** One `Arg_Iovec_Fix`, always 21 bytes, and its buffer. */
  function ParseVector(s: seq<byte>): Parsed<Vector> {
    match Take(s, 21)
    case Panic => Panic
    case Got(d, s1) =>
      match TakeChunk(s1)
      case Panic => Panic
      case Got(payload, s2) =>
        PowValues();
        FromLERange(d[5..13]);
        FromLERange(d[13..21]);
        Got(Vector(FromLE(d[5..13]), FromLE(d[13..21]), payload), s2)
  }

  function ParseVectors(s: seq<byte>, n: nat): Parsed<seq<Vector>>
    decreases n, |s|
  {
    if n == 0 then Got([], s)
    else
      match ParseVector(s)
      case Panic => Panic
      case Got(v, s1) =>
        Prefixed([v], ParseVectors(s1, n - 1))
  }

  /** `min(6, int(count))`; a count that is negative as a signed 64-bit number reads nothing. */
  function VectorsRead(count: u64): (n: nat)
    ensures n <= MAX_IOV_COUNT
  {
    var signed := if count < U64 / 2 then count as int else count - U64;
    if signed < 0 then 0 else Min(MAX_IOV_COUNT, signed)
  }

  function ParseIovec(s: seq<byte>): Parsed<Value> {
    match TakeWord(s)
    case Panic => Panic
    case Got(count, s1) =>
      match ParseVectors(s1, VectorsRead(count))
      case Panic => Panic
      case Got(vs, rest) => Got(Vectors(count, vs), rest)
  }

  /** `Arg_Msghdr`, always 61 bytes, the control buffer, and as many vectors as the header says. */
  function ParseMsghdr(s: seq<byte>): Parsed<Value> {
    match Take(s, 61)
    case Panic => Panic
    case Got(d, s1) =>
      match TakeChunk(s1)
      case Panic => Panic
      case Got(control, s2) =>
        PowValues();
        FromLERange(d[29..37]);
        match ParseVectors(s2, VectorsRead(FromLE(d[29..37])))
        case Panic => Panic
        case Got(vs, rest) => Got(Header(d[5..], control, vs), rest)
  }

  /** A pointer to a number: the word behind it, when eight bytes were sent, and its target's section. */
  function ParsePointer(s: seq<byte>, inner: ArgType): Parsed<Value>
    decreases inner, 1
  {
    match TakeLen(s)
    case Panic => Panic
    case Got(n, s1) =>
      match (if n == 8 then Take(s1, 8) else Got(Zeros(8), s1))
      case Panic => Panic
      case Got(d, s2) =>
        match ParseSection(s2, inner)
        case Panic => Panic
        case Got(v, rest) =>
          PowValues();
          FromLERange(d);
          Got(Pointee(FromLE(d), v), rest)
  }

  function ParseSection(s: seq<byte>, t: ArgType): Parsed<Value>
    decreases t, 0
  {
    match t
    case Num => Got(Plain, s)
    case Ptr(inner) => ParsePointer(s, inner)
    case Struct(size) =>
      (match TakeStruct(s, size)
       case Panic => Panic
       case Got(None, rest) => Got(Missing, rest)
       case Got(Some(d), rest) => Got(Raw(d), rest))
    case Arr(elem, len) => ParseArray(s, elem, len)
    case StrArr =>
      (match ParseStrings(s, MAX_LOOP_COUNT)
       case Panic => Panic
       case Got(strs, rest) => Got(Strings(strs), rest))
    case Vec => ParseIovec(s)
    case Iovec(_) => ParseIovec(s)
    case Msghdr => ParseMsghdr(s)
    case _ =>
      (match TakeChunk(s)
       case Panic => Panic
       case Got(d, rest) => Got(Raw(d), rest))
  }

  function ParseArg(s: seq<byte>, a: PointArg, phase: Phase): Parsed<Decoded> {
    match TakeWord(s)
    case Panic => Panic
    case Got(ptr, s1) =>
      if !ParseMore(a, phase) then Got(Decoded(ptr, Plain), s1)
      else
        match ParseSection(s1, a.ty)
        case Panic => Panic
        case Got(v, rest) => Got(Decoded(ptr, v), rest)
  }

  function ParseArgs(s: seq<byte>, args: seq<PointArg>, phase: Phase): Parsed<seq<Decoded>>
    decreases |args|
  {
    if args == [] then Got([], s)
    else
      match ParseArg(s, args[0], phase)
      case Panic => Panic
      case Got(d, s1) =>
        Prefixed([d], ParseArgs(s1, args[1..], phase))
  }

  // ----- the parsers as written, over a buffer they consume

  /** The outcome of consuming from a buffer that held `was`; after a panic nothing more is read. */
  ghost predicate Consumed<T>(r: Option<T>, was: seq<byte>, now: seq<byte>, spec: Parsed<T>) {
    match spec
    case Panic => r == None
    case Got(v, rest) => r == Some(v) && now == rest
  }

  class ByteBuffer {
    var data: seq<byte>

    constructor (bytes: seq<byte>)
      ensures data == bytes
    {
      data := bytes;
    }

    /** `binary.Read` of `n` bytes. */
    method Read(n: nat) returns (r: Option<seq<byte>>)
      modifies this
      ensures Consumed(r, old(data), data, Take(old(data), n))
    {
      if |data| < n { return None; }
      r := Some(data[..n]);
      data := data[n..];
    }

    method ReadReg() returns (r: Option<u64>)
      modifies this
      ensures Consumed(r, old(data), data, TakeWord(old(data)))
    {
      var d := Read(9);
      if d.None? { return None; }
      PowValues();
      FromLERange(d.value[1..]);
      return Some(FromLE(d.value[1..]));
    }

    method ReadLen() returns (r: Option<u32>)
      modifies this
      ensures Consumed(r, old(data), data, TakeLen(old(data)))
    {
      var d := Read(5);
      if d.None? { return None; }
      PowValues();
      FromLERange(d.value[1..]);
      return Some(FromLE(d.value[1..]));
    }

    method ReadChunk() returns (r: Option<seq<byte>>)
      modifies this
      ensures Consumed(r, old(data), data, TakeChunk(old(data)))
    {
      var n := ReadLen();
      if n.None? { return None; }
      r := Read(n.value);
    }

    /** `ARG_STRUCT.ParseArg` with its size check. */
    method ReadStruct(size: u32) returns (r: Option<Option<seq<byte>>>)
      modifies this
      ensures Consumed(r, old(data), data, TakeStruct(old(data), size))
    {
      var n := ReadLen();
      if n.None? { return None; }
      if n.value > 0 && n.value != size { return None; }
      if n.value == 0 { return Some(None); }
      var d := Read(size);
      if d.None? { return None; }
      return Some(Some(d.value));
    }

    method ReadArray(elem: u32, len: u32) returns (r: Option<Value>)
      modifies this
      ensures Consumed(r, old(data), data, ParseArray(old(data), elem, len))
    {
      var n := ReadLen();
      if n.None? { return None; }
      if n.value > 0 && n.value != ArrSize(elem, len) { return None; }
      if n.value == 0 { return Some(Elements([])); }
      var d := Read(elem * len);
      if d.None? { return None; }
      return Some(Elements(Split(d.value, elem, len)));
    }

    /** One round of `parse_STRING_ARRAY`. */
    method ReadString() returns (r: Option<Option<ArrayString>>)
      modifies this
      ensures Consumed(r, old(data), data, ParseString(old(data)))
    {
      var addr := ReadReg();
      if addr.None? { return None; }
      var len := ReadLen();
      if len.None? { return None; }
      if len.value == STRARR_MAGIC_LEN { return Some(None); }
      var payload := Read(len.value);
      if payload.None? { return None; }
      return Some(if addr.value == 0 then None else Some(ArrayString(addr.value, payload.value)));
    }

    /** `parse_STRING_ARRAY`, for at most `n` strings. */
    method ReadStrings(n: nat) returns (r: Option<seq<ArrayString>>)
      modifies this
      ensures Consumed(r, old(data), data, ParseStrings(old(data), n))
    {
      var results: seq<ArrayString> := [];
      ghost var spec := ParseStrings(data, n);
      assert spec == Prefixed([], spec) by { if spec.Got? { assert [] + spec.value == spec.value; } }
      for i := 0 to n
        invariant spec == Prefixed(results, ParseStrings(data, n - i))
      {
        var str := ReadString();
        if str.None? { return None; }
        if str.value.None? {
          assert results + [] == results;
          return Some(results);
        }
        PrefixedTwice(results, [str.value.value], ParseStrings(data, n - i - 1));
        results := results + [str.value.value];
      }
      assert results + [] == results;
      return Some(results);
    }

    /** The loop of `parse_IOVEC` and `parse_MSGHDR`. */
    method ReadVectors(n: nat) returns (r: Option<seq<Vector>>)
      modifies this
      ensures Consumed(r, old(data), data, ParseVectors(old(data), n))
    {
      var results: seq<Vector> := [];
      ghost var spec := ParseVectors(data, n);
      assert spec == Prefixed([], spec) by { if spec.Got? { assert [] + spec.value == spec.value; } }
      for i := 0 to n
        invariant spec == Prefixed(results, ParseVectors(data, n - i))
      {
        ghost var here := ParseVector(data);
        var d := Read(21);
        if d.None? { return None; }
        var payload := ReadChunk();
        if payload.None? { return None; }
        PowValues();
        FromLERange(d.value[5..13]);
        FromLERange(d.value[13..21]);
        var v := Vector(FromLE(d.value[5..13]), FromLE(d.value[13..21]), payload.value);
        assert here == Got(v, data);
        PrefixedTwice(results, [v], ParseVectors(data, n - i - 1));
        results := results + [v];
      }
      assert results + [] == results;
      return Some(results);
    }

    method ReadIovec() returns (r: Option<Value>)
      modifies this
      ensures Consumed(r, old(data), data, ParseIovec(old(data)))
    {
      var count := ReadReg();
      if count.None? { return None; }
      var vs := ReadVectors(VectorsRead(count.value));
      if vs.None? { return None; }
      return Some(Vectors(count.value, vs.value));
    }

    method ReadMsghdr() returns (r: Option<Value>)
      modifies this
      ensures Consumed(r, old(data), data, ParseMsghdr(old(data)))
    {
      var d := Read(61);
      if d.None? { return None; }
      var control := ReadChunk();
      if control.None? { return None; }
      PowValues();
      FromLERange(d.value[29..37]);
      var vs := ReadVectors(VectorsRead(FromLE(d.value[29..37])));
      if vs.None? { return None; }
      return Some(Header(d.value[5..], control.value, vs.value));
    }

    /** `ARG_PTR.Parse` for a pointer to a number. */
    method ReadPointer(inner: ArgType) returns (r: Option<Value>)
      modifies this
      ensures Consumed(r, old(data), data, ParsePointer(old(data), inner))
      decreases inner, 1
    {
      var n := ReadLen();
      if n.None? { return None; }
      var word: u64 := 0;
      LEZero(8);
      U64RoundTrip(0);
      if n.value == 8 {
        var d := Read(8);
        if d.None? { return None; }
        PowValues();
        FromLERange(d.value);
        word := FromLE(d.value);
      }
      var v := ReadSection(inner);
      if v.None? { return None; }
      return Some(Pointee(word, v.value));
    }

    /** The parser a type's section is read with. */
    method ReadSection(t: ArgType) returns (r: Option<Value>)
      modifies this
      ensures Consumed(r, old(data), data, ParseSection(old(data), t))
      decreases t, 0
    {
      match t {
        case Num => r := Some(Plain);
        case Ptr(inner) => r := ReadPointer(inner);
        case Struct(size) =>
          var d := ReadStruct(size);
          if d.None? { return None; }
          r := Some(if d.value.None? then Missing else Raw(d.value.value));
        case Arr(elem, len) => r := ReadArray(elem, len);
        case StrArr =>
          var strs := ReadStrings(MAX_LOOP_COUNT);
          if strs.None? { return None; }
          r := Some(Strings(strs.value));
        case Vec => r := ReadIovec();
        case Iovec(_) => r := ReadIovec();
        case Msghdr => r := ReadMsghdr();
        case _ =>
          var d := ReadChunk();
          if d.None? { return None; }
          r := Some(Raw(d.value));
      }
    }

    /** `ParseEnterPoint` and `ParseExitPoint`. */
    method ParsePoint(args: seq<PointArg>, phase: Phase) returns (r: Option<seq<Decoded>>)
      modifies this
      ensures Consumed(r, old(data), data, ParseArgs(old(data), args, phase))
    {
      var results: seq<Decoded> := [];
      ghost var spec := ParseArgs(data, args, phase);
      assert args[0..] == args;
      assert spec == Prefixed([], spec) by { if spec.Got? { assert [] + spec.value == spec.value; } }
      for i := 0 to |args|
        invariant spec == Prefixed(results, ParseArgs(data, args[i..], phase))
      {
        ghost var here := ParseArg(data, args[i], phase);
        var ptr := ReadReg();
        if ptr.None? { return None; }
        var detail := Plain;
        if ParseMore(args[i], phase) {
          var v := ReadSection(args[i].ty);
          if v.None? { return None; }
          detail := v.value;
        }
        assert here == Got(Decoded(ptr.value, detail), data);
        assert args[i..][1..] == args[i + 1..];
        PrefixedTwice(results, [Decoded(ptr.value, detail)], ParseArgs(data, args[i + 1..], phase));
        results := results + [Decoded(ptr.value, detail)];
      }
      assert results + [] == results;
      return Some(results);
    }
  }

  /** Results so far in front of what is still to be parsed. */
  function Prefixed<T>(first: seq<T>, p: Parsed<seq<T>>): Parsed<seq<T>> {
    match p
    case Panic => Panic
    case Got(more, rest) => Got(first + more, rest)
  }

  lemma PrefixedTwice<T>(a: seq<T>, b: seq<T>, p: Parsed<seq<T>>)
    ensures Prefixed(a, Prefixed(b, p)) == Prefixed(a + b, p)
  {
    if p.Got? { assert a + (b + p.value) == (a + b) + p.value; }
  }
}
