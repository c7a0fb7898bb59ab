/**
 Filter rules: how `AddFilter` encodes them for the kernel, and what the kernel's comparison of that encoding
 means for the value, bytes or string being filtered.
 */
module Filters {
  import opened Bytes
  import opened Memory
  import opened Ops
  import opened Machine
  import opened Records

  /** A rule behind its prefix; texts and addresses are already split into bytes. */
  datatype Rule =
    | Addr(octets: seq<byte>)
    | Hex(pattern: seq<byte>)
    | Eq(value: u64)
    | Gt(value: u64)
    | Lt(value: u64)
    | Whitelist(text: seq<byte>)
    | Blacklist(text: seq<byte>)

  /** `copy(Str_val[:], text)` into 256 zero bytes. */
  function Padded256(text: seq<byte>): Key256
    requires |text| <= 256
  {
    text + Zeros(256 - |text|)
  }

  function NumFilter(kind: FilterKind, v: u64): Filter { Filter(kind, Zeros(256), 0, v) }

  function TextFilter(kind: FilterKind, text: seq<byte>): Filter
    requires |text| <= 256
  {
    Filter(kind, Padded256(text), |text|, 0)
  }

  /** Parsed big-endian, stored big-endian, loaded little-endian, shifted right by the missing bytes. */
  function PatternValue(pattern: seq<byte>): int
    requires |pattern| <= 8
  {
    var shift := (8 - |pattern|) * 8;
    Pow2Positive(shift);
    FromLE(BE(8, FromBE(pattern))) / Pow2(shift)
  }

  function PatternFilter(pattern: seq<byte>): Filter
    requires |pattern| <= 8
  {
    PatternIsWord(pattern);
    Filter(White, Zeros(256), (8 - |pattern|) * 8, PatternValue(pattern))
  }

  /** The kernel entry for a rule; None where `AddFilter` panics. */
  function Built(rule: Rule): Option<Filter> {
    match rule
    case Addr(octets) => if |octets| == 4 then Some(PatternFilter(octets)) else None
    case Hex(pattern) => if 1 <= |pattern| <= 8 then Some(PatternFilter(pattern)) else None
    case Eq(v) => Some(NumFilter(Equal, v))
    case Gt(v) => Some(NumFilter(Greater, v))
    case Lt(v) => Some(NumFilter(Less, v))
    case Whitelist(text) => if |text| <= 256 then Some(TextFilter(White, text)) else None
    case Blacklist(text) => if |text| <= 256 then Some(TextFilter(Black, text)) else None
  }

  // ----- the list of filters

  /** `text` is `Filter_str`, which nothing ever sets. */
  datatype ArgFilter = ArgFilter(text: string, index: nat, filter: Filter)

  /** Indices are positions counted from 1, and no entry has a text. */
  ghost predicate Numbered(list: seq<ArgFilter>) {
    forall i :: 0 <= i < |list| ==> list[i].index == i + 1 && list[i].text == ""
  }

  /** What a text is parsed to; the empty one has no `:` and panics. */
  type Parser = p: string -> Option<Rule> | p("") == None witness _ => None

  /** The kernel entry a text asks for; None where it is malformed. */
  function Encoded(text: string, parse: Parser): Option<Filter> {
    match parse(text)
    case None => None
    case Some(rule) => Built(rule)
  }

  predicate Handed(list: seq<ArgFilter>, k: nat) { 1 <= k <= |list| }

  /** What the kernel is given. */
  function FilterTable(list: seq<ArgFilter>): map<nat, Filter> {
    map k: nat | k <= |list| && Handed(list, k) :: list[k - 1].filter
  }

  /** Later rules never change what an index means. */
  lemma IndexIsStable(list: seq<ArgFilter>, later: seq<ArgFilter>, k: nat)
    requires list <= later && k in FilterTable(list)
    ensures k in FilterTable(later) && FilterTable(later)[k] == FilterTable(list)[k]
  {
    assert Handed(later, k);
  }

  /** List and index after a call: the empty text finds the first entry, any other one is appended. None is a panic. */
  function Added(list: seq<ArgFilter>, source: string, parse: Parser): (seq<ArgFilter>, Option<nat>) {
    if source == "" && list != [] then (list, Some(1))
    else
      match Encoded(source, parse)
      case None => (list, None)
      case Some(filter) => (list + [ArgFilter("", |list| + 1, filter)], Some(|list| + 1))
  }

  /** Exactly when the call panics: on a malformed text, and on the empty one as long as the list is empty. */
  lemma PanicIsExact(list: seq<ArgFilter>, source: string, parse: Parser)
    ensures Added(list, source, parse).1.None?
       <==> if source == "" then list == [] else Encoded(source, parse).None?
  {
  }

  /** A well-formed text always gets a fresh index, which means its rule. */
  lemma TextGetsFreshIndex(list: seq<ArgFilter>, source: string, parse: Parser)
    requires source != "" && Encoded(source, parse).Some?
    ensures var (list1, index) := Added(list, source, parse);
            && index == Some(|list| + 1) && |list| + 1 !in FilterTable(list) && list <= list1
            && |list| + 1 in FilterTable(list1) && Some(FilterTable(list1)[|list| + 1]) == Encoded(source, parse)
  {
    var (list1, index) := Added(list, source, parse);
    assert Handed(list1, |list| + 1);
  }

  /** Two calls with the same text share an index if and only if the text is empty, on a list that is not. */
  lemma SharingIsExact(list: seq<ArgFilter>, source: string, parse: Parser)
    requires Added(list, source, parse).1.Some?
    ensures var (list1, index) := Added(list, source, parse);
            Added(list1, source, parse).1 == index <==> source == "" && list != []
  {
  }

  /** `eq:1` given twice becomes the two filters f0 and f1. */
  lemma SameRuleTwice(parse: Parser)
    requires parse("eq:1") == Some(Eq(1))
    ensures var (list1, i) := Added([], "eq:1", parse);
            var (list2, j) := Added(list1, "eq:1", parse);
            && i == Some(1) && j == Some(2) && 1 in FilterTable(list2) && 2 in FilterTable(list2)
            && FilterTable(list2)[1] == FilterTable(list2)[2] == NumFilter(Equal, 1)
  {
    var (list1, i) := Added([], "eq:1", parse);
    var (list2, j) := Added(list1, "eq:1", parse);
    assert Handed(list2, 1) && Handed(list2, 2);
  }

  /** Texts added one after the other; None from the first panic on. */
  function AddedAll(list: seq<ArgFilter>, texts: seq<string>, parse: Parser): Option<(seq<ArgFilter>, seq<nat>)>
    decreases |texts|
  {
    if texts == [] then Some((list, []))
    else
      var (list1, index) := Added(list, texts[0], parse);
      if index.None? then None
      else
        match AddedAll(list1, texts[1..], parse)
        case None => None
        case Some(r) => Some((r.0, [index.value] + r.1))
  }

  lemma {:induction false} AllGrow(list: seq<ArgFilter>, texts: seq<string>, parse: Parser)
    requires AddedAll(list, texts, parse).Some?
    ensures list <= AddedAll(list, texts, parse).value.0 && |AddedAll(list, texts, parse).value.1| == |texts|
    decreases |texts|
  {
    if texts != [] { AllGrow(Added(list, texts[0], parse).0, texts[1..], parse); }
  }

  /**
   After any run of calls without a panic every text that is not empty means its own rule in the table the kernel
   gets, and every empty one the first rule of all.
   */
  lemma {:induction false} AllTextsMean(list: seq<ArgFilter>, texts: seq<string>, parse: Parser, k: nat)
    requires AddedAll(list, texts, parse).Some? && k < |texts|
    ensures var (last, indices) := AddedAll(list, texts, parse).value;
            && |indices| == |texts| && indices[k] in FilterTable(last)
            && (texts[k] != "" ==> Some(FilterTable(last)[indices[k]]) == Encoded(texts[k], parse))
            && (texts[k] == "" ==> indices[k] == 1)
    decreases |texts|
  {
    var (list1, index) := Added(list, texts[0], parse);
    AllGrow(list, texts, parse);
    AllGrow(list1, texts[1..], parse);
    if k == 0 {
      assert Handed(list1, index.value);
      IndexIsStable(list1, AddedAll(list, texts, parse).value.0, index.value);
    } else {
      AllTextsMean(list1, texts[1..], parse, k - 1);
    }
  }

  class FilterHelper {
    var filters: seq<ArgFilter>

    constructor ()
      ensures filters == []
    {
      filters := [];
    }

    /** `AddFilter` as written; None is a panic. */
    method AddFilter(source: string, parse: Parser) returns (index: Option<nat>)
      requires Numbered(filters)
      modifies this
      ensures Numbered(filters)
      ensures filters == Added(old(filters), source, parse).0 && index == Added(old(filters), source, parse).1
    {
      for i := 0 to |filters|
        invariant i > 0 ==> source != ""
      {
        if filters[i].text == source {
          return Some(filters[i].index);
        }
      }
      var rule := parse(source);
      if rule.None? { return None; }
      var filter := Built(rule.value);
      if filter.None? { return None; }
      var n := |filters| + 1;
      filters := filters + [ArgFilter("", n, filter.value)];
      return Some(n);
    }
  }

  // ----- number filters

  /** A value passes `eq` if and only if it is equal, `gt` if and only if it is below, `lt` if and only if above. */
  lemma NumberFilters(env: Env, v: u64, value: u64, addr: u64, strLen: u32)
    ensures FilterCheck(env, FilterValue, Built(Eq(v)).value, value, addr, strLen)
         == (if value == v then Pass else Reject)
    ensures FilterCheck(env, FilterValue, Built(Gt(v)).value, value, addr, strLen)
         == (if value < v then Pass else Reject)
    ensures FilterCheck(env, FilterValue, Built(Lt(v)).value, value, addr, strLen)
         == (if value > v then Pass else Reject)
  {
  }

  /** The documented meaning, a value above the configured one for `gt`. */
  predicate DocumentedGt(v: u64, value: u64) { value > v }

  predicate DocumentedLt(v: u64, value: u64) { value < v }

  /** The code does what the documentation says for `gt` and `lt` if and only if both sides are equal. */
  lemma DirectionIsReversed(env: Env, v: u64, value: u64, addr: u64, strLen: u32)
    ensures FilterCheck(env, FilterValue, Built(Gt(v)).value, value, addr, strLen).Pass? == DocumentedGt(v, value)
       <==> value == v
    ensures FilterCheck(env, FilterValue, Built(Lt(v)).value, value, addr, strLen).Pass? == DocumentedLt(v, value)
       <==> value == v
  {
  }

  // ----- byte patterns

  lemma {:induction false} BEOfFromBE(b: seq<byte>, n: nat)
    requires |b| <= n
    ensures BE(n, FromBE(b)) == Zeros(n - |b|) + b
    decreases n
  {
    if n > 0 {
      if b == [] {
        BEOfFromBE(b, n - 1);
        assert FromBE(b) == 0 && Zeros(n - 1) + [] + [0] == Zeros(n) + [];
      } else {
        var front, last := b[..|b| - 1], b[|b| - 1];
        BEOfFromBE(front, n - 1);
        assert FromBE(b) / 256 == FromBE(front) && FromBE(b) % 256 == last;
        assert b == front + [last];
        assert Zeros(n - |b|) + front + [last] == Zeros(n - |b|) + b;
      }
    }
  }

  lemma {:induction false} FromLEAfterZeros(n: nat, b: seq<byte>)
    ensures FromLE(Zeros(n) + b) == Pow256(n) * FromLE(b)
    decreases n
  {
    if n == 0 {
      assert Zeros(0) + b == b;
    } else {
      FromLEAfterZeros(n - 1, b);
      assert (Zeros(n) + b)[1..] == Zeros(n - 1) + b;
      Associates(256, Pow256(n - 1), FromLE(b));
    }
  }

  lemma Associates(a: nat, b: nat, c: nat)
    ensures a * (b * c) == (a * b) * c
  {
  }

  lemma {:induction false} Pow2Of8(n: nat)
    ensures Pow2(8 * n) == Pow256(n) && Pow256(n) > 0
  {
    if n > 0 {
      Pow2Of8(n - 1);
      var k := 8 * (n - 1);
      assert Pow2(k + 2) == 4 * Pow2(k);
      assert Pow2(k + 4) == 4 * Pow2(k + 2);
      assert Pow2(k + 6) == 4 * Pow2(k + 4);
      assert Pow2(k + 8) == 4 * Pow2(k + 6);
    }
  }

  /** Quotient and remainder are unique. */
  lemma Unique(d: nat, q1: nat, r1: nat, q2: nat, r2: nat)
    requires r1 < d && r2 < d && d * q1 + r1 == d * q2 + r2
    ensures q1 == q2 && r1 == r2
  {
    if q1 < q2 {
      Larger(d, q1, q2);
    } else if q2 < q1 {
      Larger(d, q2, q1);
    }
  }

  lemma {:induction false} Larger(d: nat, a: nat, b: nat)
    requires a < b
    ensures d * b >= d * a + d
    decreases b
  {
    Next(d, b - 1);
    if a < b - 1 { Larger(d, a, b - 1); }
  }

  lemma Next(d: nat, b: nat)
    ensures d * (b + 1) == d * b + d
  {
  }

  lemma QuotientExact(d: nat, q: nat)
    requires d > 0
    ensures d * q / d == q
  {
    var x := d * q;
    assert x == d * (x / d) + x % d;
    Unique(d, q, 0, x / d, x % d);
  }

  /** For every pattern of at most eight bytes the stored number is its little-endian value. */
  lemma PatternValueIs(pattern: seq<byte>)
    requires |pattern| <= 8
    ensures PatternValue(pattern) == FromLE(pattern)
  {
    var m := 8 - |pattern|;
    BEOfFromBE(pattern, 8);
    FromLEAfterZeros(m, pattern);
    Pow2Of8(m);
    assert m * 8 == 8 * m;
    QuotientExact(Pow256(m), FromLE(pattern));
  }

  lemma PatternIsWord(pattern: seq<byte>)
    requires |pattern| <= 8
    ensures 0 <= PatternValue(pattern) < U64
  {
    var m := 8 - |pattern|;
    PatternValueIs(pattern);
    PowValues();
    FromLERange(pattern + Zeros(m));
    FromLEBefore(pattern, m);
  }

  lemma {:induction false} FromLEBefore(b: seq<byte>, n: nat)
    ensures FromLE(b + Zeros(n)) == FromLE(b)
    decreases |b| + n
  {
    if b != [] {
      assert (b + Zeros(n))[1..] == b[1..] + Zeros(n);
      FromLEBefore(b[1..], n);
    } else if n > 0 {
      assert ([] + Zeros(n))[1..] == [] + Zeros(n - 1);
      FromLEBefore([], n - 1);
    } else {
      assert b + Zeros(n) == b;
    }
  }

  /** The low bytes and the rest of a little-endian number. */
  lemma {:induction false} SplitLE(d: seq<byte>, n: nat)
    requires n <= |d|
    ensures FromLE(d) == Pow256(n) * FromLE(d[n..]) + FromLE(d[..n])
    decreases n
  {
    if n == 0 {
      assert d[0..] == d && d[..0] == [];
    } else {
      SplitLE(d[1..], n - 1);
      assert d[1..][n - 1..] == d[n..] && d[..n][1..] == d[1..][..n - 1];
      Associates(256, Pow256(n - 1), FromLE(d[n..]));
    }
  }

  lemma LowBytes(d: seq<byte>, n: nat)
    requires n <= |d|
    ensures Pow256(n) > 0 && FromLE(d) % Pow256(n) == FromLE(d[..n])
  {
    Pow2Of8(n);
    SplitLE(d, n);
    FromLERange(d[..n]);
    ModOf(Pow256(n), FromLE(d[n..]), FromLE(d[..n]));
  }

  lemma ModOf(d: nat, q: nat, r: nat)
    requires r < d
    ensures (d * q + r) % d == r
  {
    var x := d * q + r;
    assert x == d * (x / d) + x % d;
    Unique(d, q, r, x / d, x % d);
  }

  /** The kernel's mask keeps as many low bytes as the pattern has. */
  lemma MaskKeeps(d: seq<byte>, n: nat)
    requires |d| == 8 && 1 <= n <= 8 && FromLE(d) < U64
    ensures MaskLow(FromLE(d), (8 - n) * 8) == FromLE(d[..n])
  {
    Pow2Of8(n);
    var strLen := (8 - n) * 8;
    assert 64 - strLen % 64 == 8 * n;
    LowBytes(d, n);
  }

  lemma SameBytes(a: seq<byte>, b: seq<byte>)
    requires |a| == |b|
    ensures FromLE(a) == FromLE(b) <==> a == b
  {
    LEOfFromLE(a);
    LEOfFromLE(b);
  }

  /** The bytes a buffer filter looks at: eight, or zeros when they cannot all be read. */
  function Compared(mem: Mem, addr: u64): seq<byte> { ReadOrZero(mem, Untag(addr), 8) }

  /**
   Every pattern of 1 to 8 bytes, every memory: the filter hits if and only if the first bytes compared are
   the pattern.
   */
  lemma HexFilterIsExact(env: Env, pattern: seq<byte>, value: u64, addr: u64, strLen: u32)
    requires 1 <= |pattern| <= 8
    ensures FilterCheck(env, FilterBuffer, Built(Hex(pattern)).value, value, addr, strLen)
         == Wanted(Compared(env.mem, addr)[..|pattern|] == pattern)
  {
    var d := Compared(env.mem, addr);
    PowValues();
    FromLERange(d);
    PatternValueIs(pattern);
    MaskKeeps(d, |pattern|);
    SameBytes(pattern, d[..|pattern|]);
  }

  /** An address filter is the four-byte pattern of its octets. */
  lemma AddrFilterIsExact(env: Env, octets: seq<byte>, value: u64, addr: u64, strLen: u32)
    requires |octets| == 4
    ensures FilterCheck(env, FilterBuffer, Built(Addr(octets)).value, value, addr, strLen)
         == Wanted(Compared(env.mem, addr)[..4] == octets)
  {
    HexFilterIsExact(env, octets, value, addr, strLen);
  }

  /** When the eight bytes cannot all be read, whatever the first ones are, only an all-zero pattern hits. */
  lemma ShortBuffer(env: Env, pattern: seq<byte>, value: u64, addr: u64, strLen: u32)
    requires 1 <= |pattern| <= 8 && Read(env.mem, Untag(addr), 8).None?
    ensures FilterCheck(env, FilterBuffer, Built(Hex(pattern)).value, value, addr, strLen)
         == Wanted(pattern == Zeros(|pattern|))
  {
    HexFilterIsExact(env, pattern, value, addr, strLen);
    assert Zeros(8)[..|pattern|] == Zeros(|pattern|);
  }

  // ----- strings

  predicate NulFree(text: seq<byte>) { 0 !in text }

  /** A filter text against the bytes re-read: equal, padding included, exactly when the bytes are. */
  lemma KeyMatches(mem: Mem, addr: u64, text: seq<byte>)
    requires |text| <= 256
    ensures ProbeKey(mem, addr, |text|) == Padded256(text) <==> ReadOrZero(mem, addr, |text|) == text
  {
    var key, want := ProbeKey(mem, addr, |text|), Padded256(text);
    assert key[..|text|] == ReadOrZero(mem, addr, |text|) && want[..|text|] == text;
  }

  /** A string that was read: its characters are there, and a NUL follows unless it was cut. */
  lemma StringInMemory(mem: Mem, addr: u64, n: nat)
    requires CString(mem, addr).Some? && n <= |CString(mem, addr).value|
    ensures Read(mem, addr, n) == Some(CString(mem, addr).value[..n])
  {
    var s := CString(mem, addr).value;
    ScanSpec(mem, addr, MAX_STRING_SIZE);
    var scan := Scan(mem, addr, MAX_STRING_SIZE).value;
    assert s[..n] == scan[..n];
    ReadSpec(mem, addr, n);
    assert forall i :: addr <= i < addr + n ==> i in mem.bytes && scan[i - addr] == mem.bytes[i];
    assert Mapped(mem, addr, n);
    var d := Read(mem, addr, n).value;
    forall j | 0 <= j < n ensures d[j] == scan[..n][j] {
      var i := addr + j;
      assert d[i - addr] == mem.bytes[i] && scan[i - addr] == mem.bytes[i];
    }
    assert d == scan[..n];
  }

  lemma NulBehind(mem: Mem, addr: u64, text: seq<byte>)
    requires CString(mem, addr).Some? && |text| == |CString(mem, addr).value| + 1 && |text| <= 256 && NulFree(text)
    ensures ReadOrZero(mem, addr, |text|) != text
  {
    var k := |text| - 1;
    ScanSpec(mem, addr, MAX_STRING_SIZE);
    ReadSpec(mem, addr, |text|);
    var d := ReadOrZero(mem, addr, |text|);
    var end := addr + k;
    assert mem.bytes[end] == 0;
    if Read(mem, addr, |text|).Some? { assert d[end - addr] == mem.bytes[end]; }
    assert d[k] == 0 && text[k] in text;
  }

  /**
   After a string was read, a NUL-free text of at most 256 bytes matches if and only if it is a prefix of the
   string.
   */
  lemma StringFilterIsPrefix(mem: Mem, addr: u64, text: seq<byte>, kind: FilterKind)
    requires |text| <= 256 && NulFree(text) && CString(mem, addr).Some?
    ensures StrMatches(mem, addr, |ReadStr(mem, addr).value|, TextFilter(kind, text))
       <==> text <= CString(mem, addr).value
  {
    var s := CString(mem, addr).value;
    KeyMatches(mem, addr, text);
    if |text| <= |s| {
      StringInMemory(mem, addr, |text|);
    } else if |text| == |s| + 1 && (s != [] || mem.countsNul) {
      NulBehind(mem, addr, text);
    }
  }

  /** Memory that cannot be read never matches a non-empty text, whatever string length was left behind. */
  lemma UnreadableNeverMatches(mem: Mem, addr: u64, text: seq<byte>, kind: FilterKind, strLen: u32)
    requires 0 < |text| <= 256 && NulFree(text) && Read(mem, addr, |text|).None?
    ensures !StrMatches(mem, addr, strLen, TextFilter(kind, text))
  {
    KeyMatches(mem, addr, text);
    assert text[0] in text && Zeros(|text|)[0] == 0;
  }

  /** So a whitelist text keeps, and a blacklist text rejects, exactly the strings it is a prefix of. */
  lemma TextRules(env: Env, text: seq<byte>, value: u64, addr: u64)
    requires |text| <= 256 && NulFree(text) && CString(env.mem, addr).Some?
    ensures var s, n := CString(env.mem, addr).value, |ReadStr(env.mem, addr).value|;
            && FilterCheck(env, FilterString, Built(Whitelist(text)).value, value, addr, n) == Wanted(text <= s)
            && FilterCheck(env, FilterString, Built(Blacklist(text)).value, value, addr, n)
               == (if text <= s then Reject else Pass)
  {
    StringFilterIsPrefix(env.mem, addr, text, White);
    StringFilterIsPrefix(env.mem, addr, text, Black);
  }
}
