/**
 The traced process's memory as a partial byte map that is stable during one probe, and the two
 kernel read helpers the programs use.
 */
module Memory {
  import opened Bytes

  /**
   What is mapped, and whether `bpf_probe_read_str` counts the NUL of an empty string (it returns 1) or not
   (it returns 0, as the interpreter's comments expect).
   */
  datatype Mem = Mem(bytes: map<int, byte>, countsNul: bool)

  const MAX_STRING_SIZE: int := 4096

  ghost predicate Mapped(mem: Mem, addr: int, n: nat) {
    forall i :: addr <= i < addr + n ==> i in mem.bytes
  }

  /** `bpf_probe_read`: the bytes, or None when any of them is not mapped. Reading nothing succeeds. */
  function Read(mem: Mem, addr: int, n: nat): (r: Option<seq<byte>>)
    ensures r.Some? ==> |r.value| == n
    decreases n, mem
  {
    if n == 0 then Some([])
    else if addr !in mem.bytes then None
    else
      match Read(mem, addr + 1, n - 1)
      case None => None
      case Some(rest) =>
        Some([mem.bytes[addr]] + rest)
  }

  /** A read succeeds exactly on mapped memory, and returns what is there. */
  lemma {:induction false} ReadSpec(mem: Mem, addr: int, n: nat)
    ensures var r := Read(mem, addr, n);
            && (r.Some? <==> Mapped(mem, addr, n))
            && (r.Some? ==> forall j :: addr <= j < addr + n ==> r.value[j - addr] == mem.bytes[j])
    decreases n
  {
    if n > 0 {
      if addr in mem.bytes { ReadSpec(mem, addr + 1, n - 1); }
    }
  }

  /** What the destination holds after `bpf_probe_read`: a failed read zero-fills it. */
  function ReadOrZero(mem: Mem, addr: int, n: nat): (s: seq<byte>)
    ensures |s| == n
  {
    match Read(mem, addr, n)
    case Some(s) => s
    case None => Zeros(n)
  }

  function ReadWord(mem: Mem, addr: int): u64 {
    var s := ReadOrZero(mem, addr, 8);
    PowValues();
    FromLERange(s);
    FromLE(s)
  }

  /** The characters up to the first NUL, at most `limit` of them; None when the scan leaves mapped memory. */
  function Scan(mem: Mem, addr: int, limit: nat): (r: Option<seq<byte>>)
    ensures r.Some? ==> |r.value| <= limit
    decreases limit, mem
  {
    if limit == 0 then Some([])
    else if addr !in mem.bytes then None
    else if mem.bytes[addr] == 0 then Some([])
    else
      match Scan(mem, addr + 1, limit - 1)
      case None => None
      case Some(rest) =>
        Some([mem.bytes[addr]] + rest)
  }

  lemma {:induction false} ScanSpec(mem: Mem, addr: int, limit: nat)
    ensures var r := Scan(mem, addr, limit);
            r.Some? ==>
              && (forall j :: addr <= j < addr + |r.value| ==>
                    j in mem.bytes && mem.bytes[j] != 0 && r.value[j - addr] == mem.bytes[j])
              && (|r.value| < limit ==> addr + |r.value| in mem.bytes && mem.bytes[addr + |r.value|] == 0)
    decreases limit
  {
    if limit > 0 {
      if addr in mem.bytes && mem.bytes[addr] != 0 { ScanSpec(mem, addr + 1, limit - 1); }
    }
  }

  /** The C string at `addr`, cut at 4095 characters. */
  function CString(mem: Mem, addr: int): (r: Option<seq<byte>>)
    ensures r.Some? ==> |r.value| < MAX_STRING_SIZE
  {
    match Scan(mem, addr, MAX_STRING_SIZE)
    case None => None
    case Some(s) => Some(if |s| < MAX_STRING_SIZE then s else s[..MAX_STRING_SIZE - 1])
  }

  /**
   `bpf_probe_read_str`: what is stored and counted by the return value, a string with its NUL. An empty
   string counts as one byte or as none; a fault is None.
   */
  function ReadStr(mem: Mem, addr: int): (r: Option<seq<byte>>)
    ensures r.Some? ==> |r.value| <= MAX_STRING_SIZE
  {
    match CString(mem, addr)
    case None => None
    case Some(s) => if s == [] && !mem.countsNul then Some([]) else Some(s + [0])
  }

  // ----- reads by what memory holds

  predicate At(mem: Mem, addr: int, b: byte) { addr in mem.bytes && mem.bytes[addr] == b }

  /** The bytes `s` lie mapped at `addr`. */
  ghost predicate HoldsAt(mem: Mem, addr: int, s: seq<byte>) { forall k :: 0 <= k < |s| ==> At(mem, addr + k, s[k]) }

  lemma HoldsNext(mem: Mem, addr: int, s: seq<byte>)
    requires HoldsAt(mem, addr, s) && s != []
    ensures At(mem, addr, s[0]) && HoldsAt(mem, addr + 1, s[1..])
    ensures 0 !in s ==> 0 !in s[1..]
  {
    var rest, next := s[1..], addr + 1;
    forall k | 0 <= k < |rest| ensures At(mem, next + k, rest[k]) {
      assert At(mem, addr + (k + 1), s[k + 1]) && addr + (k + 1) == next + k;
    }
  }

  lemma {:induction false} ReadHolds(mem: Mem, addr: int, s: seq<byte>)
    requires HoldsAt(mem, addr, s)
    ensures Read(mem, addr, |s|) == Some(s)
    decreases |s|
  {
    if s != [] {
      HoldsNext(mem, addr, s);
      ReadHolds(mem, addr + 1, s[1..]);
      assert s == [s[0]] + s[1..];
    }
  }

  /** A word is read from its eight little-endian bytes. */
  lemma WordHolds(mem: Mem, addr: int, v: u64)
    requires HoldsAt(mem, addr, LE(8, v))
    ensures ReadWord(mem, addr) == v
  {
    ReadHolds(mem, addr, LE(8, v));
    U64RoundTrip(v);
  }

  /** A word of which a byte is not mapped reads as zero. */
  lemma WordLost(mem: Mem, addr: int)
    requires !Mapped(mem, addr, 8)
    ensures ReadWord(mem, addr) == 0
  {
    ReadSpec(mem, addr, 8);
    LEZero(8);
    U64RoundTrip(0);
  }

  lemma {:induction false} ScanHolds(mem: Mem, addr: int, s: seq<byte>, limit: nat)
    requires HoldsAt(mem, addr, s) && 0 !in s && |s| <= limit
    requires |s| < limit ==> At(mem, addr + |s|, 0)
    ensures Scan(mem, addr, limit) == Some(s)
    decreases |s|
  {
    if s != [] {
      HoldsNext(mem, addr, s);
      ScanHolds(mem, addr + 1, s[1..], limit - 1);
      assert s == [s[0]] + s[1..];
    }
  }

  lemma {:induction false} ScanLost(mem: Mem, addr: int, s: seq<byte>, limit: nat)
    requires HoldsAt(mem, addr, s) && 0 !in s && |s| < limit && addr + |s| !in mem.bytes
    ensures Scan(mem, addr, limit) == None
    decreases |s|
  {
    if s != [] {
      HoldsNext(mem, addr, s);
      ScanLost(mem, addr + 1, s[1..], limit - 1);
    }
  }

  /**
   What `bpf_probe_read_str` finds, for every text `s` without a NUL: the text up to its NUL with the NUL counted,
   except that the kernel may count an empty text as nothing; the first 4095 characters of a longer one; and a fault
   where mapped memory ends in front of both.
   */
  lemma TextIsRead(mem: Mem, addr: int, s: seq<byte>)
    requires HoldsAt(mem, addr, s) && 0 !in s
    ensures |s| < 4096 && At(mem, addr + |s|, 0) ==>
              CString(mem, addr) == Some(s)
              && ReadStr(mem, addr) == Some(if s == [] && !mem.countsNul then [] else s + [0])
    ensures |s| == 4096 ==> ReadStr(mem, addr) == Some(s[..4095] + [0])
    ensures |s| < 4096 && addr + |s| !in mem.bytes ==> ReadStr(mem, addr) == None
  {
    if |s| < 4096 && addr + |s| !in mem.bytes {
      ScanLost(mem, addr, s, 4096);
    } else if |s| == 4096 || (|s| < 4096 && At(mem, addr + |s|, 0)) {
      ScanHolds(mem, addr, s, 4096);
    }
  }
}
