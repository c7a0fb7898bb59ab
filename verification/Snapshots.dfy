/**
 Register snapshots between an entry probe and the matching exit probe: the keyed store of
 `src/common/arguments.h`, the syscall pair of `src/syscall.c` and the uprobe points of `src/stack.c`.
 */
module Snapshots {
  import opened Bytes
  import opened Machine

  const SYSCALL_ENTER: u32 := 456
  const UPROBE_ENTER: u32 := 458

  /** `ctx_regs_t`; the flag marks an entry that its filters skipped. */
  datatype Snap = Snap(regs: RegFile, flag: bool)

  type Store = map<u64, Snap>

  /** `event << 32 | tid`. */
  function Key(event: u32, tid: u32): u64 { event * U32 + tid }

  lemma KeyIsInjective(e: u32, t: u32, f: u32, u: u32)
    ensures Key(e, t) == Key(f, u) <==> e == f && t == u
  {
  }

  // ----- the store, for any history of accesses

  datatype Access = Idle | Put(key: u64, snap: Snap) | Grab(key: u64)

  function Apply(store: Store, a: Access): Store {
    match a
    case Idle => store
    case Put(key, snap) => store[key := snap]
    case Grab(key) => store - {key}
  }

  function After(h: seq<Access>): Store {
    if h == [] then map[] else Apply(After(h[..|h| - 1]), h[|h| - 1])
  }

  /** The access that put what `key` holds before access `i`: the latest one that was not grabbed since. */
  function Source(h: seq<Access>, i: nat, key: u64): (r: Option<nat>)
    requires i <= |h|
    ensures r.Some? ==> r.value < i
  {
    if i == 0 then None
    else if h[i - 1].Put? && h[i - 1].key == key then Some(i - 1)
    else if h[i - 1].Grab? && h[i - 1].key == key then None
    else Source(h, i - 1, key)
  }

  /** The store holds exactly the latest unconsumed snapshot of every key. */
  lemma {:induction false} StoreIsSource(h: seq<Access>, i: nat, key: u64)
    requires i <= |h|
    ensures key in After(h[..i]) <==> Source(h, i, key).Some?
    ensures key in After(h[..i]) ==>
              var j := Source(h, i, key).value;
              j < i && h[j] == Put(key, After(h[..i])[key])
    decreases i
  {
    if i > 0 {
      StoreIsSource(h, i - 1, key);
      assert h[..i][..i - 1] == h[..i - 1];
    }
  }

  lemma {:induction false} SourceSpec(h: seq<Access>, i: nat, key: u64)
    requires i <= |h| && Source(h, i, key).Some?
    ensures var j := Source(h, i, key).value;
            && j < i && h[j].Put? && h[j].key == key
            && forall k :: j < k < i ==> h[k].Idle? || h[k].key != key
    decreases i
  {
    if Source(h, i, key).value != i - 1 { SourceSpec(h, i - 1, key); }
  }

  /** The converse: a put with no later access to its key is what is found. */
  lemma {:induction false} LatestIsSource(h: seq<Access>, i: nat, key: u64, j: nat)
    requires j < i <= |h| && h[j].Put? && h[j].key == key
    requires forall k :: j < k < i ==> h[k].Idle? || h[k].key != key
    ensures Source(h, i, key) == Some(j)
    decreases i
  {
    if j < i - 1 { LatestIsSource(h, i - 1, key, j); }
  }

  /** A snapshot grabbed once is never found again, under any key. */
  lemma GrabbedOnce(h: seq<Access>, i: nat, j: nat, key: u64)
    requires i < j <= |h| && h[i] == Grab(key) && Source(h, i, key).Some?
    ensures forall other :: Source(h, j, other) != Source(h, i, key)
  {
    SourceSpec(h, i, key);
    forall other ensures Source(h, j, other) != Source(h, i, key) {
      if Source(h, j, other).Some? { SourceSpec(h, j, other); }
    }
  }

  // ----- system calls

  /**
   `admitted`: every check of the enter handler before the snapshot passed. `known`: the exit handler got as
   far as the snapshot. `listed`: the exit handler's call-number lists allow it. `skip`: the filters' verdict.
   */
  datatype SysEvent =
    | SysEnter(tid: u32, nr: u32, regs: RegFile, admitted: bool, skip: bool)
    | SysExit(tid: u32, nr: u32, known: bool, listed: bool, skip: bool)

  function SysKey(tid: u32): u64 { Key(SYSCALL_ENTER, tid) }

  function SysAccess(e: SysEvent): Access {
    match e
    case SysEnter(tid, _, regs, admitted, skip) => if admitted then Put(SysKey(tid), Snap(regs, skip)) else Idle
    case SysExit(tid, _, known, _, _) => if known then Grab(SysKey(tid)) else Idle
  }

  /** The registers an exit record is built from, if this event produces one. */
  function ExitRecord(store: Store, e: SysEvent): Option<RegFile> {
    if e.SysExit? && e.known && SysKey(e.tid) in store && !store[SysKey(e.tid)].flag && e.listed && !e.skip then
      Some(store[SysKey(e.tid)].regs)
    else None
  }

  class CtxRegsMap {
    var entries: Store

    constructor ()
      ensures entries == map[]
    {
      entries := map[];
    }

    method SaveRegs(snap: Snap, event: u32, tid: u32)
      modifies this
      ensures entries == old(entries)[Key(event, tid) := snap]
    {
      entries := entries[Key(event, tid) := snap];
    }

    method LoadRegs(event: u32, tid: u32) returns (snap: Option<Snap>)
      ensures snap == if Key(event, tid) in entries then Some(entries[Key(event, tid)]) else None
    {
      var id := Key(event, tid);
      snap := if id in entries then Some(entries[id]) else None;
    }

    method DelRegs(event: u32, tid: u32)
      modifies this
      ensures entries == old(entries) - {Key(event, tid)}
    {
      entries := entries - {Key(event, tid)};
    }

    /** `raw_syscalls_sys_enter`: the snapshot is saved before the filters run, and again when they skip. */
    method OnSysEnter(e: SysEvent) returns (submitted: bool)
      requires e.SysEnter?
      modifies this
      ensures entries == Apply(old(entries), SysAccess(e))
      ensures entries == if e.admitted then old(entries)[SysKey(e.tid) := Snap(e.regs, e.skip)] else old(entries)
      ensures submitted <==> e.admitted && !e.skip
    {
      if !e.admitted { return false; }
      var saved := Snap(e.regs, false);
      SaveRegs(saved, SYSCALL_ENTER, e.tid);
      if e.skip {
        saved := saved.(flag := true);
        SaveRegs(saved, SYSCALL_ENTER, e.tid);
        return false;
      }
      return true;
    }

    /** `raw_syscalls_sys_exit`: the snapshot is consumed even when no record follows. */
    method OnSysExit(e: SysEvent) returns (submitted: Option<RegFile>)
      requires e.SysExit?
      modifies this
      ensures entries == Apply(old(entries), SysAccess(e))
      ensures e.known ==> SysKey(e.tid) !in entries
      ensures !e.known ==> entries == old(entries)
      ensures forall key :: key != SysKey(e.tid) ==>
                (key in entries <==> key in old(entries)) && (key in entries ==> entries[key] == old(entries)[key])
      ensures submitted == ExitRecord(old(entries), e)
      ensures submitted.Some? <==> e.known && e.listed && !e.skip && SysKey(e.tid) in old(entries)
                                   && !old(entries)[SysKey(e.tid)].flag
      ensures submitted.Some? ==> submitted.value == old(entries)[SysKey(e.tid)].regs
    {
      if !e.known { return None; }
      var saved := LoadRegs(SYSCALL_ENTER, e.tid);
      if saved.None? { return None; }
      DelRegs(SYSCALL_ENTER, e.tid);
      if saved.value.flag { return None; }
      if !e.listed { return None; }
      if e.skip { return None; }
      return Some(saved.value.regs);
    }
  }

  function SysAccesses(h: seq<SysEvent>): (a: seq<Access>)
    ensures |a| == |h| && forall i :: 0 <= i < |h| ==> a[i] == SysAccess(h[i])
  {
    seq(|h|, i requires 0 <= i < |h| => SysAccess(h[i]))
  }

  /** The exit record event `i` of a run produces. */
  function SysRecord(h: seq<SysEvent>, i: nat): Option<RegFile>
    requires i < |h|
  {
    ExitRecord(After(SysAccesses(h)[..i]), h[i])
  }

  /**
   Event `j` is the latest admitted enter of `tid` before `i`, and no exit of `tid` that got as far as the snapshot
   has come in between.
   */
  ghost predicate Pending(h: seq<SysEvent>, i: nat, tid: u32, j: nat)
    requires i <= |h|
  {
    && j < i && h[j].SysEnter? && h[j].admitted && h[j].tid == tid
    && forall k :: j < k < i && h[k].tid == tid ==> !(h[k].SysEnter? && h[k].admitted) && !(h[k].SysExit? && h[k].known)
  }

  lemma PendingIsSource(h: seq<SysEvent>, i: nat, tid: u32, j: nat)
    requires i <= |h|
    ensures Pending(h, i, tid, j) <==> Source(SysAccesses(h), i, SysKey(tid)) == Some(j)
  {
    var a := SysAccesses(h);
    var key := SysKey(tid);
    if Source(a, i, key).Some? {
      var s := Source(a, i, key).value;
      SourceSpec(a, i, key);
      assert a[s] == SysAccess(h[s]);
      forall k | s < k < i && h[k].tid == tid
        ensures !(h[k].SysEnter? && h[k].admitted) && !(h[k].SysExit? && h[k].known)
      {
        assert a[k] == SysAccess(h[k]);
      }
      assert Pending(h, i, tid, s);
    }
    if Pending(h, i, tid, j) {
      assert a[j] == SysAccess(h[j]);
      forall k | j < k < i ensures a[k].Idle? || a[k].key != key {
        assert a[k] == SysAccess(h[k]);
        KeyIsInjective(SYSCALL_ENTER, h[k].tid, SYSCALL_ENTER, tid);
      }
      LatestIsSource(a, i, key, j);
    }
  }

  /**
   Over every interleaved run of any threads: an exit event produces a record if and only if its thread has a
   pending enter that its filters did not skip (and the exit's own checks pass), and the record is built from
   exactly that enter's registers.
   */
  lemma ExitUsesPendingEnter(h: seq<SysEvent>, i: nat, regs: RegFile)
    requires i < |h|
    ensures SysRecord(h, i) == Some(regs)
       <==> h[i].SysExit? && h[i].known && h[i].listed && !h[i].skip
            && exists j: nat :: Pending(h, i, h[i].tid, j) && !h[j].skip && h[j].regs == regs
  {
    var a, key := SysAccesses(h), SysKey(h[i].tid);
    StoreIsSource(a, i, key);
    if SysRecord(h, i) == Some(regs) {
      var j := Source(a, i, key).value;
      PendingIsSource(h, i, h[i].tid, j);
      assert a[j] == SysAccess(h[j]);
    }
    if h[i].SysExit? && exists j: nat :: Pending(h, i, h[i].tid, j) && !h[j].skip && h[j].regs == regs {
      var j: nat :| Pending(h, i, h[i].tid, j) && !h[j].skip && h[j].regs == regs;
      PendingIsSource(h, i, h[i].tid, j);
      assert a[j] == SysAccess(h[j]);
    }
  }

  /** No enter feeds two exit records. */
  lemma EnterFeedsOneExit(h: seq<SysEvent>, i: nat, j: nat, from: nat)
    requires i < j < |h| && SysRecord(h, i).Some? && SysRecord(h, j).Some?
    requires Pending(h, i, h[i].tid, from)
    ensures !Pending(h, j, h[j].tid, from)
  {
    var a := SysAccesses(h);
    PendingIsSource(h, i, h[i].tid, from);
    PendingIsSource(h, j, h[j].tid, from);
    assert a[i] == SysAccess(h[i]);
    GrabbedOnce(a, i, j, SysKey(h[i].tid));
  }

  /**
   An exit that got as far as the snapshot consumes it whatever the exit's own lists and filters said: until the
   thread's next admitted enter no exit of the thread produces a record.
   */
  lemma ExitConsumes(h: seq<SysEvent>, i: nat, j: nat)
    requires i < j < |h| && h[i].SysExit? && h[i].known && h[j].tid == h[i].tid
    requires forall k :: i < k < j && h[k].tid == h[i].tid ==> !(h[k].SysEnter? && h[k].admitted)
    ensures SysRecord(h, j) == None
  {
    if SysRecord(h, j).Some? {
      ExitUsesPendingEnter(h, j, SysRecord(h, j).value);
      var from: nat :| Pending(h, j, h[j].tid, from);
      assert false;
    }
  }

  /** The events of one thread. */
  function Only(h: seq<SysEvent>, tid: u32): seq<SysEvent> {
    if h == [] then []
    else
      var rest := Only(h[..|h| - 1], tid);
      if h[|h| - 1].tid == tid then rest + [h[|h| - 1]] else rest
  }

  /** Other threads do not matter: a thread's snapshot is what its own events alone leave. */
  lemma {:induction false} ThreadsAreSeparate(h: seq<SysEvent>, tid: u32)
    ensures var all, own := After(SysAccesses(h)), After(SysAccesses(Only(h, tid)));
            && (SysKey(tid) in all <==> SysKey(tid) in own)
            && (SysKey(tid) in all ==> all[SysKey(tid)] == own[SysKey(tid)])
    decreases |h|
  {
    if h != [] {
      var front, last := h[..|h| - 1], h[|h| - 1];
      ThreadsAreSeparate(front, tid);
      AfterNext(front, last);
      assert h == front + [last];
      KeyIsInjective(SYSCALL_ENTER, last.tid, SYSCALL_ENTER, tid);
      if last.tid == tid { AfterNext(Only(front, tid), last); }
    }
  }

  lemma AfterNext(h: seq<SysEvent>, e: SysEvent)
    ensures After(SysAccesses(h + [e])) == Apply(After(SysAccesses(h)), SysAccess(e))
  {
    var a := SysAccesses(h + [e]);
    assert a[..|a| - 1] == SysAccesses(h) && a[|a| - 1] == SysAccess(e);
  }

  /** Event `p` is the enter the exit at `i` belongs to: same thread, same call, nothing of the thread in between. */
  ghost predicate Paired(h: seq<SysEvent>, i: nat, p: nat)
    requires i < |h|
  {
    && p < i && h[i].SysExit? && h[p].SysEnter? && h[p].tid == h[i].tid && h[p].nr == h[i].nr
    && forall k :: p < k < i ==> h[k].tid != h[i].tid
  }

  /** The kernel pairs every exit with an enter. */
  ghost predicate WellPaired(h: seq<SysEvent>) {
    forall i :: 0 <= i < |h| && h[i].SysExit? ==> exists p: nat :: Paired(h, i, p)
  }

  /** An exit finds the snapshot of its own call if and only if its own enter was admitted. */
  lemma OwnEnterPending(h: seq<SysEvent>, i: nat, p: nat)
    requires i < |h| && Paired(h, i, p)
    ensures Pending(h, i, h[i].tid, p) <==> h[p].admitted
  {
  }

  /** Otherwise what is pending at the exit is what was pending when its own enter passed by. */
  lemma {:induction false} EarlierPending(h: seq<SysEvent>, i: nat, p: nat, j: nat)
    requires i < |h| && Paired(h, i, p) && !h[p].admitted
    ensures Pending(h, i, h[i].tid, j) <==> Pending(h, p, h[i].tid, j)
  {
    if Pending(h, i, h[i].tid, j) {
      assert j < p by { OwnEnterPending(h, i, p); }
    }
    if Pending(h, p, h[i].tid, j) {
      forall k | j < k < i && h[k].tid == h[i].tid
        ensures !(h[k].SysEnter? && h[k].admitted) && !(h[k].SysExit? && h[k].known)
      {
        assert k <= p;
      }
    }
  }

  /**
   With the kernel's pairing intact, an exit record carries another call's registers if and only if its own
   enter was not admitted, an earlier enter of the thread that its filters kept is still pending, and the
   exit's own checks pass. In particular nothing mixes on a thread whose enters are all admitted.
   */
  lemma MixesExactly(h: seq<SysEvent>, i: nat, p: nat)
    requires i < |h| && Paired(h, i, p)
    ensures (SysRecord(h, i).Some? && !Pending(h, i, h[i].tid, p))
       <==> (h[i].known && h[i].listed && !h[i].skip && !h[p].admitted
             && exists j: nat :: Pending(h, p, h[i].tid, j) && !h[j].skip)
  {
    OwnEnterPending(h, i, p);
    if SysRecord(h, i).Some? && !h[p].admitted {
      ExitUsesPendingEnter(h, i, SysRecord(h, i).value);
      var j: nat :| Pending(h, i, h[i].tid, j) && !h[j].skip && h[j].regs == SysRecord(h, i).value;
      EarlierPending(h, i, p, j);
    }
    if h[i].known && h[i].listed && !h[i].skip && !h[p].admitted
       && exists j: nat :: Pending(h, p, h[i].tid, j) && !h[j].skip
    {
      var j: nat :| Pending(h, p, h[i].tid, j) && !h[j].skip;
      EarlierPending(h, i, p, j);
      ExitUsesPendingEnter(h, i, h[j].regs);
    }
  }

  /** A record from an admitted enter is the record of its own call. */
  lemma SyscallsDoNotMix(h: seq<SysEvent>, i: nat, p: nat)
    requires i < |h| && Paired(h, i, p) && SysRecord(h, i).Some? && h[p].admitted
    ensures !h[p].skip && SysRecord(h, i) == Some(h[p].regs)
  {
    OwnEnterPending(h, i, p);
    ExitUsesPendingEnter(h, i, SysRecord(h, i).value);
    var j: nat :| Pending(h, i, h[i].tid, j) && !h[j].skip && h[j].regs == SysRecord(h, i).value;
    PendingIsSource(h, i, h[i].tid, j);
    PendingIsSource(h, i, h[i].tid, p);
  }

  /**
   Calls mix with the pairing intact: the first call's exit never got to the snapshot, the second call's enter
   was not admitted, its exit is.
   */
  lemma PairedCallsCanMix(tid: u32, a: u32, b: u32, regs: RegFile, other: RegFile)
    requires a != b
    ensures var h := [SysEnter(tid, a, regs, true, false), SysExit(tid, a, false, true, false),
                      SysEnter(tid, b, other, false, false), SysExit(tid, b, true, true, false)];
            WellPaired(h) && SysRecord(h, 3) == Some(regs) && h[0].nr != h[3].nr
  {
    var h := [SysEnter(tid, a, regs, true, false), SysExit(tid, a, false, true, false),
              SysEnter(tid, b, other, false, false), SysExit(tid, b, true, true, false)];
    assert Paired(h, 1, 0) && Paired(h, 3, 2);
    assert Pending(h, 3, tid, 0);
    ExitUsesPendingEnter(h, 3, regs);
  }

  /**
   Without pairing they mix at once: a thread that enters one call and never leaves it, and whose id is reused
   by a thread first seen leaving another call.
   */
  lemma SyscallsCanMix(tid: u32, a: u32, b: u32, regs: RegFile)
    requires a != b
    ensures var h := [SysEnter(tid, a, regs, true, false), SysExit(tid, b, true, true, false)];
            SysRecord(h, 1) == Some(regs) && Pending(h, 1, tid, 0) && h[0].nr != h[1].nr && !WellPaired(h)
  {
    var h := [SysEnter(tid, a, regs, true, false), SysExit(tid, b, true, true, false)];
    assert Pending(h, 1, tid, 0);
    ExitUsesPendingEnter(h, 1, regs);
    assert forall p: nat :: !Paired(h, 1, p);
  }

  // ----- uprobe points

  /** `enterKey` of a point: 0 for none, its own number plus one to save, another point's to load. */
  datatype UEvent =
    | Hit(tid: u32, point: u32, enterKey: u32, regs: RegFile, known: bool, skip: bool)
    | Return(tid: u32, point: u32, enterKey: u32, regs: RegFile, known: bool, skip: bool)

  /** Point numbers and keys are small, so event ids do not wrap. */
  predicate Small(e: UEvent) { e.point < 0x10000 && e.enterKey <= 0x10000 }

  function UKey(enterKey: u32, tid: u32): u64
    requires enterKey <= 0x10000
  {
    Key(UPROBE_ENTER + enterKey, tid)
  }

  /** The two kinds of snapshots share a map and never a key, on any threads. */
  lemma KindsApart(enterKey: u32, tid: u32, other: u32)
    requires 0 < enterKey <= 0x10000
    ensures UKey(enterKey, tid) != SysKey(other)
  {
    KeyIsInjective(UPROBE_ENTER + enterKey, tid, SYSCALL_ENTER, other);
  }

  predicate Saves(e: UEvent) { e.Hit? && e.known && e.enterKey != 0 && e.enterKey == e.point + 1 }

  predicate Loads(e: UEvent) { e.known && e.enterKey != 0 && (e.Return? || e.enterKey != e.point + 1) }

  function UAccess(e: UEvent): Access
    requires Small(e)
  {
    if Saves(e) then Put(UKey(e.enterKey, e.tid), Snap(e.regs, false))
    else if Loads(e) then Grab(UKey(e.enterKey, e.tid))
    else Idle
  }

  /** The registers a record is built from: the snapshot for a loading point, the current ones otherwise. */
  function URecord(store: Store, e: UEvent): Option<RegFile>
    requires Small(e)
  {
    if !e.known || e.skip then None
    else if !Loads(e) then Some(e.regs)
    else if UKey(e.enterKey, e.tid) in store then Some(store[UKey(e.enterKey, e.tid)].regs)
    else None
  }

  /** `probe_stack_warp` and `uretprobe_stack_warp`. */
  class UprobeTracer {
    const saved: CtxRegsMap

    constructor ()
      ensures fresh(saved) && saved.entries == map[]
    {
      saved := new CtxRegsMap();
    }

    method OnHit(e: UEvent) returns (submitted: Option<RegFile>)
      requires e.Hit? && Small(e)
      modifies saved
      ensures saved.entries == Apply(old(saved.entries), UAccess(e))
      ensures !e.known || e.enterKey == 0 ==> saved.entries == old(saved.entries)
      ensures e.known && e.enterKey == e.point + 1 ==>
                saved.entries == old(saved.entries)[UKey(e.enterKey, e.tid) := Snap(e.regs, false)]
      ensures e.known && e.enterKey != 0 && e.enterKey != e.point + 1 ==>
                saved.entries == old(saved.entries) - {UKey(e.enterKey, e.tid)}
      ensures submitted == URecord(old(saved.entries), e)
      ensures !e.known || e.skip ==> submitted == None
      ensures e.known && !e.skip && (e.enterKey == 0 || e.enterKey == e.point + 1) ==> submitted == Some(e.regs)
    {
      if !e.known { return None; }
      var regs := e.regs;
      if e.enterKey == 0 {
      } else if e.enterKey == e.point + 1 {
        saved.SaveRegs(Snap(regs, false), UPROBE_ENTER + e.point + 1, e.tid);
      } else {
        var snap := saved.LoadRegs(UPROBE_ENTER + e.enterKey, e.tid);
        if snap.None? {
          assert saved.entries - {UKey(e.enterKey, e.tid)} == saved.entries;
          return None;
        }
        regs := snap.value.regs;
        saved.DelRegs(UPROBE_ENTER + e.enterKey, e.tid);
      }
      if e.skip { return None; }
      return Some(regs);
    }

    method OnReturn(e: UEvent) returns (submitted: Option<RegFile>)
      requires e.Return? && Small(e)
      modifies saved
      ensures saved.entries == Apply(old(saved.entries), UAccess(e))
      ensures saved.entries == if e.known && e.enterKey != 0 then old(saved.entries) - {UKey(e.enterKey, e.tid)}
                               else old(saved.entries)
      ensures submitted == URecord(old(saved.entries), e)
      ensures !e.known || e.skip ==> submitted == None
      ensures e.known && !e.skip && e.enterKey == 0 ==> submitted == Some(e.regs)
    {
      if !e.known { return None; }
      var regs := e.regs;
      if e.enterKey != 0 {
        var snap := saved.LoadRegs(UPROBE_ENTER + e.enterKey, e.tid);
        if snap.None? {
          assert saved.entries - {UKey(e.enterKey, e.tid)} == saved.entries;
          return None;
        }
        regs := snap.value.regs;
        saved.DelRegs(UPROBE_ENTER + e.enterKey, e.tid);
      }
      if e.skip { return None; }
      return Some(regs);
    }
  }

  predicate AllSmall(h: seq<UEvent>) { forall i :: 0 <= i < |h| ==> Small(h[i]) }

  function UAccesses(h: seq<UEvent>): (a: seq<Access>)
    requires AllSmall(h)
    ensures |a| == |h| && forall i :: 0 <= i < |h| ==> a[i] == UAccess(h[i])
  {
    seq(|h|, i requires 0 <= i < |h| => UAccess(h[i]))
  }

  /** Hit `j` is the latest one that saved under the key `i` loads, on its thread, and nothing took it since. */
  ghost predicate UPending(h: seq<UEvent>, i: nat, j: nat)
    requires i < |h|
  {
    && j < i && Saves(h[j]) && h[j].tid == h[i].tid && h[j].enterKey == h[i].enterKey
    && forall k :: j < k < i && h[k].tid == h[i].tid && h[k].enterKey == h[i].enterKey ==> !Saves(h[k]) && !Loads(h[k])
  }

  lemma UPendingIsSource(h: seq<UEvent>, i: nat, j: nat)
    requires AllSmall(h) && i < |h| && Loads(h[i])
    ensures UPending(h, i, j) <==> Source(UAccesses(h), i, UKey(h[i].enterKey, h[i].tid)) == Some(j)
  {
    var a, key := UAccesses(h), UKey(h[i].enterKey, h[i].tid);
    if Source(a, i, key) == Some(j) {
      SourceSpec(a, i, key);
      assert a[j] == UAccess(h[j]);
      KeyIsInjective(UPROBE_ENTER + h[j].enterKey, h[j].tid, UPROBE_ENTER + h[i].enterKey, h[i].tid);
      forall k | j < k < i && h[k].tid == h[i].tid && h[k].enterKey == h[i].enterKey
        ensures !Saves(h[k]) && !Loads(h[k])
      {
        assert a[k] == UAccess(h[k]);
      }
    }
    if UPending(h, i, j) {
      assert a[j] == UAccess(h[j]);
      forall k | j < k < i ensures a[k].Idle? || a[k].key != key {
        assert a[k] == UAccess(h[k]);
        KeyIsInjective(UPROBE_ENTER + h[k].enterKey, h[k].tid, UPROBE_ENTER + h[i].enterKey, h[i].tid);
      }
      LatestIsSource(a, i, key, j);
    }
  }

  /**
   Over every interleaved run: a loading point produces a record if and only if its filters keep it and an
   unconsumed hit of the entry point with its key is pending on its thread, and the record is built from
   exactly that hit's registers. Points with other keys and other threads never matter.
   */
  lemma LoadUsesPendingHit(h: seq<UEvent>, i: nat, regs: RegFile)
    requires AllSmall(h) && i < |h| && Loads(h[i])
    ensures URecord(After(UAccesses(h)[..i]), h[i]) == Some(regs)
       <==> !h[i].skip && exists j: nat :: UPending(h, i, j) && h[j].regs == regs
  {
    var a, key := UAccesses(h), UKey(h[i].enterKey, h[i].tid);
    StoreIsSource(a, i, key);
    if URecord(After(a[..i]), h[i]) == Some(regs) {
      var j := Source(a, i, key).value;
      UPendingIsSource(h, i, j);
      assert a[j] == UAccess(h[j]);
    }
    if exists j: nat :: UPending(h, i, j) && h[j].regs == regs {
      var j: nat :| UPending(h, i, j) && h[j].regs == regs;
      UPendingIsSource(h, i, j);
      assert a[j] == UAccess(h[j]);
    }
  }

  /** Two records never share a snapshot. */
  lemma HitFeedsOneRecord(h: seq<UEvent>, i: nat, j: nat)
    requires AllSmall(h) && i < j < |h| && Loads(h[i]) && Loads(h[j])
    requires Source(UAccesses(h), i, UKey(h[i].enterKey, h[i].tid)).Some?
    ensures Source(UAccesses(h), j, UKey(h[j].enterKey, h[j].tid))
         != Source(UAccesses(h), i, UKey(h[i].enterKey, h[i].tid))
  {
    assert UAccesses(h)[i] == UAccess(h[i]);
    GrabbedOnce(UAccesses(h), i, j, UKey(h[i].enterKey, h[i].tid));
  }

  /** Unlike a system call's, a hit skipped by its filters still feeds the matching return's record. */
  lemma SkippedHitStillReturns(tid: u32, point: u32, regs: RegFile, late: RegFile)
    requires point < 0x10000
    ensures var h := [Hit(tid, point, point + 1, regs, true, true), Return(tid, point, point + 1, late, true, false)];
            && URecord(map[], h[0]) == None
            && URecord(Apply(map[], UAccess(h[0])), h[1]) == Some(regs)
  {
  }

  // ----- where the keys come from

  /** `offset` is where the probe is attached. */
  datatype Point = Point(index: u32, enterKey: u32, offset: u64, exitOffset: u64, uretprobe: bool)

  /** An exit point is attached at its entry point's exit offset and loads what its entry point saves. */
  function ExitPoint(p: Point, index: u32): Point { Point(index, (p.index + 1) % U32, p.exitOffset, 0, false) }

  /** How many of the first `n` points have an exit offset. */
  function Exits(points: seq<Point>, n: nat): (k: nat)
    requires n <= |points|
    ensures k <= n
  {
    if n == 0 then 0 else Exits(points, n - 1) + if points[n - 1].exitOffset != 0 then 1 else 0
  }

  /** A point that has its key: its number plus one if it has an exit offset or a return probe, otherwise none. */
  ghost predicate HasKey(now: Point, was: Point, i: nat) {
    && now.index == was.index == i && now.offset == was.offset && now.exitOffset == was.exitOffset
    && now.uretprobe == was.uretprobe
    && now.enterKey == if was.exitOffset != 0 || was.uretprobe then i + 1 else 0
  }

  /** Point `k` is the exit point of configured point `i`: attached at its exit offset, it loads what that one saves. */
  ghost predicate IsExit(points: seq<Point>, k: nat, configured: seq<Point>, i: nat) {
    && k < |points| && i < |configured| && configured[i].exitOffset != 0
    && points[k].index == k && points[k].enterKey == i + 1 && points[k].offset == configured[i].exitOffset
    && points[k].exitOffset == 0 && !points[k].uretprobe
  }

  /** Configured point `i` has its exit point, if it asks for one, behind those of the points in front of it. */
  ghost predicate HasExit(points: seq<Point>, configured: seq<Point>, i: nat)
    requires i < |configured|
  {
    configured[i].exitOffset != 0 ==> IsExit(points, |configured| + Exits(configured, i), configured, i)
  }

  /** The first `n` configured points have their keys and, in order behind the configured ones, their exit points. */
  ghost predicate Assigned(points: seq<Point>, configured: seq<Point>, n: nat) {
    && n <= |configured| && |points| == |configured| + Exits(configured, n)
    && (forall i :: 0 <= i < n ==> HasKey(points[i], configured[i], i))
    && (forall i :: n <= i < |configured| ==> points[i] == configured[i])
    && (forall i :: 0 <= i < n ==> HasExit(points, configured, i))
  }

  predicate Unassigned(configured: seq<Point>) {
    && |configured| < 0x8000
    && forall i :: 0 <= i < |configured| ==> configured[i].index == i && configured[i].enterKey == 0
  }

  lemma {:induction false} ExitsGrow(points: seq<Point>, i: nat, n: nat)
    requires i < n <= |points| && points[i].exitOffset != 0
    ensures Exits(points, i) < Exits(points, n)
    decreases n
  {
    if i < n - 1 { ExitsGrow(points, i, n - 1); }
  }

  /** Every number below the count is the rank of one point with an exit offset. */
  lemma {:induction false} ExitAt(points: seq<Point>, n: nat, k: nat) returns (i: nat)
    requires n <= |points| && k < Exits(points, n)
    ensures i < n && points[i].exitOffset != 0 && Exits(points, i) == k
    decreases n
  {
    if k < Exits(points, n - 1) { i := ExitAt(points, n - 1, k); } else { i := n - 1; }
  }

  lemma ExitsKept(points: seq<Point>, more: seq<Point>, configured: seq<Point>, i: nat, j: nat)
    requires j < i < |configured| && |points| == |configured| + Exits(configured, i) && |points| <= |more|
    requires forall k :: |configured| <= k < |points| ==> more[k] == points[k]
    requires HasExit(points, configured, j)
    ensures HasExit(more, configured, j)
  {
    if configured[j].exitOffset != 0 { ExitsGrow(configured, j, i); }
  }

  lemma KeyAssigned(points: seq<Point>, more: seq<Point>, configured: seq<Point>, i: nat)
    requires i < |configured| && Assigned(points, configured, i) && |points| <= |more|
    requires forall k :: 0 <= k < |points| && k != i ==> more[k] == points[k]
    requires HasKey(more[i], configured[i], i) && |more| == |configured| + Exits(configured, i + 1)
    requires HasExit(more, configured, i)
    ensures Assigned(more, configured, i + 1)
  {
    forall j | 0 <= j < i + 1 ensures HasExit(more, configured, j) {
      if j < i { ExitsKept(points, more, configured, i, j); }
    }
  }

  /** One round of the last loop of `Parse_HookPoint`. */
  method AssignKey(points: seq<Point>, i: nat, ghost configured: seq<Point>) returns (more: seq<Point>)
    requires Unassigned(configured) && i < |configured| && Assigned(points, configured, i)
    ensures Assigned(more, configured, i + 1)
  {
    var p := points[i];
    more := points;
    if p.exitOffset != 0 {
      more := more[i := p.(enterKey := p.index + 1)] + [ExitPoint(p, |points|)];
    }
    if p.uretprobe {
      more := more[i := more[i].(enterKey := p.index + 1)];
    }
    KeyAssigned(points, more, configured, i);
  }

  /**
   The last loop of `Parse_HookPoint`: every configured point gets its key, and one exit point for each exit offset is
   appended behind them, in order.
   */
  method AssignKeys(configured: seq<Point>) returns (points: seq<Point>)
    requires Unassigned(configured)
    ensures Assigned(points, configured, |configured|)
  {
    points := configured;
    for i := 0 to |configured|
      invariant Assigned(points, configured, i)
    {
      points := AssignKey(points, i, configured);
    }
  }

  /** So every appended point loads what exactly one configured point saves, and attaches where that one exits. */
  lemma AppendedPointsLoad(points: seq<Point>, configured: seq<Point>, k: nat) returns (i: nat)
    requires Unassigned(configured) && Assigned(points, configured, |configured|) && |configured| <= k < |points|
    ensures i < |configured| && points[k].enterKey == points[i].enterKey == points[i].index + 1
    ensures points[k].index == k && points[k].offset == configured[i].exitOffset
  {
    i := ExitAt(configured, |configured|, k - |configured|);
    assert HasExit(points, configured, i);
    assert HasKey(points[i], configured[i], i);
  }
}
