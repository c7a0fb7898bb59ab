/** The dump file: records appended by `DumpRecord` and read back by the loop of `ParseDump`. */
module DumpFile {
  import opened Bytes

  /** Which event type a record is, its perf record type, and its bytes. */
  datatype Record = Record(event: u8, kind: u32, raw: seq<byte>)

  /** The event types `ParseDump` knows; any other number is a panic. */
  predicate KnownEvent(event: u8) { 1 <= event <= 4 }

  /** `total_len | event_index | rec_type | rec_len | rec_raw`; both lengths are 32-bit. */
  function Dumped(r: Record): seq<byte> {
    LE(4, Wrap32(9 + |r.raw|)) + [r.event] + LE(4, r.kind) + LE(4, Wrap32(|r.raw|)) + r.raw
  }

  /** The first four bytes count the bytes behind them, modulo 2^32, and the last length the payload's. */
  lemma DumpedLengths(r: Record)
    ensures var d := Dumped(r);
            && |d| == 13 + |r.raw| && d[4] == r.event && d[13..] == r.raw
            && FromLE(d[..4]) == (|d| - 4) % 0x1_0000_0000
            && FromLE(d[5..9]) == r.kind && FromLE(d[9..13]) == |r.raw| % 0x1_0000_0000
  {
    var d := Dumped(r);
    U32RoundTrip(Wrap32(9 + |r.raw|));
    U32RoundTrip(r.kind);
    U32RoundTrip(Wrap32(|r.raw|));
    assert d[..4] == LE(4, Wrap32(9 + |r.raw|));
    assert d[5..9] == LE(4, r.kind);
    assert d[9..13] == LE(4, Wrap32(|r.raw|));
    assert d[13..] == r.raw;
  }

  function DumpedAll(rs: seq<Record>): seq<byte> {
    if rs == [] then [] else Dumped(rs[0]) + DumpedAll(rs[1..])
  }

  lemma WrittenInOrder(w: seq<byte>, a: seq<byte>, b: seq<byte>, c: seq<byte>, d: seq<byte>, e: seq<byte>)
    ensures w + a + b + c + d + e == w + (a + b + c + d + e)
  {
    Regroup(w, a, b);
    Regroup(w, a + b, c);
    Regroup(w, a + b + c, d);
    Regroup(w, a + b + c + d, e);
  }

  lemma Regroup(w: seq<byte>, a: seq<byte>, b: seq<byte>)
    ensures w + a + b == w + (a + b)
  {
  }

  lemma TotalLength(n: nat)
    ensures Wrap32(1 + Wrap32(8 + Wrap32(n))) == Wrap32(9 + n)
  {
  }

  class DumpHandle {
    var bytes: seq<byte>

    constructor ()
      ensures bytes == []
    {
      bytes := [];
    }

    method DumpRecord(r: Record)
      modifies this
      ensures bytes == old(bytes) + Dumped(r)
    {
      var recLen: int := Wrap32(|r.raw|);
      var totalLen := Wrap32(1 + Wrap32(4 + 4 + recLen));
      TotalLength(|r.raw|);
      ghost var was := bytes;
      bytes := bytes + LE(4, totalLen);
      bytes := bytes + [r.event];
      bytes := bytes + LE(4, r.kind);
      bytes := bytes + LE(4, recLen);
      bytes := bytes + r.raw;
      WrittenInOrder(was, LE(4, totalLen), [r.event], LE(4, r.kind), LE(4, recLen), r.raw);
      assert bytes == was + LE(4, totalLen) + [r.event] + LE(4, r.kind) + LE(4, recLen) + r.raw;
    }
  }

  /** One record and what follows it; None is a panic. The total length is read and ignored. */
  function LoadOne(s: seq<byte>): Option<(Record, seq<byte>)> {
    if |s| < 13 || !KnownEvent(s[4]) then None
    else
      var n := FromLE(s[9..13]);
      if |s| < 13 + n then None
      else
        FromLERange(s[5..9]);
        PowValues();
        Some((Record(s[4], FromLE(s[5..9]), s[13..13 + n]), s[13 + n..]))
  }

  /** The loop stops at end of file and nowhere else. */
  function Load(s: seq<byte>): Option<seq<Record>>
    decreases |s|
  {
    if s == [] then Some([])
    else
      match LoadOne(s)
      case None => None
      case Some((r, rest)) =>
        match Load(rest)
        case None => None
        case Some(more) =>
          Some([r] + more)
  }

  /** The open file, read front to back. */
  class Reader {
    var rest: seq<byte>

    constructor (file: seq<byte>)
      ensures rest == file
    {
      rest := file;
    }

    method Read(n: nat) returns (d: Option<seq<byte>>)
      modifies this
      ensures |old(rest)| >= n ==> d == Some(old(rest)[..n]) && rest == old(rest)[n..]
      ensures |old(rest)| < n ==> d == None
    {
      if |rest| < n { return None; }
      d := Some(rest[..n]);
      rest := rest[n..];
    }

    /** One turn of the loop, behind the check for end of file. */
    method ReadRecord() returns (r: Option<Record>)
      requires rest != []
      modifies this
      ensures match LoadOne(old(rest))
              case None => r == None
              case Some((record, more)) => r == Some(record) && rest == more
    {
      ghost var s := rest;
      var totalLen := Read(4);
      if totalLen.None? { return None; }
      var event := Read(1);
      if event.None? { return None; }
      var kind := Read(4);
      if kind.None? { return None; }
      var recLen := Read(4);
      if recLen.None? { return None; }
      assert event.value[0] == s[4] && kind.value == s[5..9] && recLen.value == s[9..13] && rest == s[13..];
      var n := FromLE(recLen.value);
      var raw := Read(n);
      if raw.None? { return None; }
      assert raw.value == s[13..13 + n] && rest == s[13 + n..];
      if !KnownEvent(event.value[0]) { return None; }
      FromLERange(kind.value);
      PowValues();
      return Some(Record(event.value[0], FromLE(kind.value), raw.value));
    }

    method ParseDump() returns (r: Option<seq<Record>>)
      modifies this
      ensures r == Load(old(rest))
    {
      var results: seq<Record> := [];
      ghost var spec := Load(rest);
      PrefixedNone(spec);
      while rest != []
        invariant spec == Prefixed(results, Load(rest))
        decreases |rest|
      {
        ghost var here := LoadOne(rest);
        var record := ReadRecord();
        if record.None? { return None; }
        PrefixedTwice(results, [record.value], Load(rest));
        results := results + [record.value];
      }
      assert results + [] == results;
      return Some(results);
    }
  }

  function Prefixed(a: seq<Record>, r: Option<seq<Record>>): Option<seq<Record>> {
    match r
    case None => None
    case Some(more) => Some(a + more)
  }

  lemma PrefixedNone(r: Option<seq<Record>>)
    ensures Prefixed([], r) == r
  {
    if r.Some? { assert [] + r.value == r.value; }
  }

  lemma PrefixedTwice(a: seq<Record>, b: seq<Record>, r: Option<seq<Record>>)
    ensures Prefixed(a, Prefixed(b, r)) == Prefixed(a + b, r)
  {
    if r.Some? { assert a + (b + r.value) == a + b + r.value; }
  }

  // ----- round trip

  predicate Loadable(r: Record) { KnownEvent(r.event) && |r.raw| < U32 }

  /** `s` starts with the fields of `r` and goes on with `tail`. */
  predicate LaidOut(s: seq<byte>, r: Record, tail: seq<byte>) {
    && |s| == 13 + |r.raw| + |tail| && s[4] == r.event && FromLE(s[5..9]) == r.kind
    && FromLE(s[9..13]) == Wrap32(|r.raw|) && s[13..] == r.raw + tail
  }

  lemma Layout(r: Record, tail: seq<byte>)
    ensures LaidOut(Dumped(r) + tail, r, tail)
  {
    var d, s := Dumped(r), Dumped(r) + tail;
    DumpedLengths(r);
    assert s[5..9] == d[5..9] && s[9..13] == d[9..13] && s[13..] == d[13..] + tail;
  }

  lemma OneLoads(s: seq<byte>, r: Record, tail: seq<byte>)
    requires Loadable(r) && LaidOut(s, r, tail)
    ensures LoadOne(s) == Some((r, tail))
  {
    var end := 13 + |r.raw|;
    PayloadLies(s, 13, end, r.raw, tail);
    LoadsAs(s, r, end, tail);
  }

  lemma LoadsAs(s: seq<byte>, r: Record, end: nat, tail: seq<byte>)
    requires KnownEvent(r.event) && end == 13 + |r.raw| && end <= |s|
    requires s[4] == r.event && FromLE(s[5..9]) == r.kind && FromLE(s[9..13]) == |r.raw|
    requires s[13..end] == r.raw && s[end..] == tail
    ensures LoadOne(s) == Some((r, tail))
  {
  }

  lemma PayloadLies(s: seq<byte>, from: nat, to: nat, raw: seq<byte>, tail: seq<byte>)
    requires from <= |s| && s[from..] == raw + tail && to == from + |raw|
    ensures to <= |s| && s[from..to] == raw && s[to..] == tail
  {
    assert s[from..][..|raw|] == raw && s[from..][|raw|..] == tail;
  }

  lemma HugeDoesNotLoad(s: seq<byte>, r: Record, tail: seq<byte>)
    requires KnownEvent(r.event) && |r.raw| >= U32 && LaidOut(s, r, tail)
    ensures LoadOne(s).Some? ==> LoadOne(s).value.0 != r
  {
  }

  /**
   For every sequence of records of known types: reading the dump back gives exactly those records, and stops
   at the end of the file, if and only if every payload is shorter than 2^32 bytes.
   */
  lemma {:induction false} DumpRoundTrip(rs: seq<Record>)
    requires forall i :: 0 <= i < |rs| ==> KnownEvent(rs[i].event)
    ensures Load(DumpedAll(rs)) == Some(rs) <==> forall i :: 0 <= i < |rs| ==> |rs[i].raw| < U32
    decreases |rs|
  {
    if rs != [] {
      var r, rest := rs[0], rs[1..];
      var tail := DumpedAll(rest);
      Layout(r, tail);
      DumpRoundTrip(rest);
      assert rs == [r] + rest;
      if |r.raw| < U32 {
        OneLoads(Dumped(r) + tail, r, tail);
        assert (forall i :: 0 <= i < |rs| ==> |rs[i].raw| < U32)
            <==> (forall i :: 0 <= i < |rest| ==> |rest[i].raw| < U32) by {
          assert forall i :: 0 <= i < |rest| ==> rest[i] == rs[i + 1];
        }
      } else {
        HugeDoesNotLoad(Dumped(r) + tail, r, tail);
      }
    }
  }

  lemma CutRecord(r: Record, n: nat)
    requires Loadable(r) && n < |Dumped(r)|
    ensures LoadOne(Dumped(r)[..n]) == None
  {
    var d, s := Dumped(r), Dumped(r)[..n];
    DumpedLengths(r);
    if n >= 13 {
      assert s[9..13] == d[9..13];
      assert |s| < 13 + FromLE(s[9..13]);
    }
  }

  lemma LoadStep(r: Record, tail: seq<byte>)
    requires Loadable(r)
    ensures Dumped(r) + tail != [] && LoadOne(Dumped(r) + tail) == Some((r, tail))
  {
    Layout(r, tail);
    OneLoads(Dumped(r) + tail, r, tail);
  }

  /** A file that ends inside a record panics, however many whole records are in front of it. */
  lemma {:induction false} CutDumpPanics(rs: seq<Record>, r: Record, n: nat)
    requires (forall i :: 0 <= i < |rs| ==> Loadable(rs[i])) && Loadable(r) && 0 < n < |Dumped(r)|
    ensures Load(DumpedAll(rs) + Dumped(r)[..n]) == None
    decreases |rs|
  {
    var cut := Dumped(r)[..n];
    if rs == [] {
      assert [] + cut == cut;
      CutRecord(r, n);
    } else {
      var tail := DumpedAll(rs[1..]) + cut;
      assert DumpedAll(rs) + cut == Dumped(rs[0]) + tail;
      LoadStep(rs[0], tail);
      CutDumpPanics(rs[1..], r, n);
    }
  }

  /** So does a record of no known event type: the types are 1 to 4. */
  lemma UnknownEventPanics(r: Record, tail: seq<byte>)
    requires r.event == 0 || r.event > 4
    ensures Load(Dumped(r) + tail) == None
  {
    Layout(r, tail);
  }
}
