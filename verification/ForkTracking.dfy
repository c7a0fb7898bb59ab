/**
 Fork tracking: `child_parent_map` starts with the whitelisted processes mapped to themselves and grows by the
 direct children of processes so mapped.
 */
module ForkTracking {
  import opened Bytes

  datatype Fork = Fork(parent: u32, child: u32)

  type Parents = map<u32, u32>

  /** A process added by user space, or overwritten by nobody since. */
  predicate IsRoot(m: Parents, pid: u32) { pid in m && m[pid] == pid }

  function Initial(whitelist: seq<u32>): Parents { map pid | pid in whitelist :: pid }

  function AfterFork(m: Parents, f: Fork): Parents {
    if IsRoot(m, f.parent) then m[f.child := f.parent] else m
  }

  function AfterForks(m: Parents, forks: seq<Fork>): Parents {
    if forks == [] then m else AfterFork(AfterForks(m, forks[..|forks| - 1]), forks[|forks| - 1])
  }

  /** At first exactly the whitelisted processes are tracked, each as a root. */
  lemma InitialRoots(whitelist: seq<u32>, pid: u32)
    ensures pid in AfterForks(Initial(whitelist), []) <==> pid in whitelist
    ensures pid in whitelist ==> AfterForks(Initial(whitelist), [])[pid] == pid
  {
  }

  class ChildParentMap {
    var entries: Parents

    /** `update_child_parent`. */
    constructor (whitelist: seq<u32>)
      ensures entries == Initial(whitelist)
    {
      entries := map[];
      new;
      for i := 0 to |whitelist|
        invariant entries == Initial(whitelist[..i])
      {
        entries := entries[whitelist[i] := whitelist[i]];
        assert whitelist[..i + 1] == whitelist[..i] + [whitelist[i]];
      }
      assert whitelist[..|whitelist|] == whitelist;
    }

    /** `tracepoint__sched__sched_process_fork`. */
    method OnFork(f: Fork)
      modifies this
      ensures entries == AfterFork(old(entries), f)
    {
      if f.parent !in entries { return; }
      if entries[f.parent] == f.parent {
        entries := entries[f.child := f.parent];
      }
    }
  }

  /** `forks[i]` put `pid` under `root`, which was mapped to itself at that time. */
  ghost predicate ForkedBy(whitelist: seq<u32>, forks: seq<Fork>, pid: u32, root: u32, i: nat) {
    i < |forks| && forks[i] == Fork(root, pid) && IsRoot(AfterForks(Initial(whitelist), forks[..i]), root)
  }

  ghost predicate ForkedByRoot(whitelist: seq<u32>, forks: seq<Fork>, pid: u32, root: u32) {
    exists i: nat :: ForkedBy(whitelist, forks, pid, root, i)
  }

  lemma MoreForks(whitelist: seq<u32>, front: seq<Fork>, last: Fork, pid: u32, root: u32)
    requires ForkedByRoot(whitelist, front, pid, root)
    ensures ForkedByRoot(whitelist, front + [last], pid, root)
  {
    var i: nat :| ForkedBy(whitelist, front, pid, root, i);
    assert (front + [last])[..i] == front[..i];
    assert ForkedBy(whitelist, front + [last], pid, root, i);
  }

  /**
   After any sequence of forks: every parent recorded is whitelisted, every process mapped to itself is
   whitelisted, and every other tracked process was forked directly by a process that was then a root.
   */
  lemma {:induction false} TrackingInvariant(whitelist: seq<u32>, forks: seq<Fork>, pid: u32)
    requires pid in AfterForks(Initial(whitelist), forks)
    ensures var m := AfterForks(Initial(whitelist), forks);
            && m[pid] in whitelist
            && (IsRoot(m, pid) ==> pid in whitelist)
            && (!IsRoot(m, pid) ==> ForkedByRoot(whitelist, forks, pid, m[pid]))
    decreases |forks|
  {
    if forks != [] {
      var front, last := forks[..|forks| - 1], forks[|forks| - 1];
      var was := AfterForks(Initial(whitelist), front);
      assert forks == front + [last];
      if IsRoot(was, last.parent) && last.child == pid {
        TrackingInvariant(whitelist, front, last.parent);
        assert ForkedBy(whitelist, forks, pid, last.parent, |front|);
      } else {
        TrackingInvariant(whitelist, front, pid);
        if was[pid] != pid { MoreForks(whitelist, front, last, pid, was[pid]); }
      }
    }
  }

  /** Every tracked process is whitelisted or the direct child of a whitelisted one: depth never exceeds one. */
  lemma DepthIsOne(whitelist: seq<u32>, forks: seq<Fork>, pid: u32)
    requires pid in AfterForks(Initial(whitelist), forks)
    ensures pid in whitelist || exists i, root :: 0 <= i < |forks| && forks[i] == Fork(root, pid) && root in whitelist
  {
    var m := AfterForks(Initial(whitelist), forks);
    TrackingInvariant(whitelist, forks, pid);
    if !IsRoot(m, pid) {
      var i: nat :| ForkedBy(whitelist, forks, pid, m[pid], i);
      assert forks[i] == Fork(m[pid], pid);
    }
  }

  /** What a tracked child forks is not tracked: a fork by a process that is not a root changes nothing. */
  lemma GrandchildrenAreNotTracked(m: Parents, root: u32, child: u32, grandchild: u32)
    requires IsRoot(m, root) && child != root
    ensures AfterForks(m, [Fork(root, child), Fork(child, grandchild)]) == AfterFork(m, Fork(root, child))
  {
    var forks := [Fork(root, child), Fork(child, grandchild)];
    var one := forks[..1];
    assert one[..0] == [] && one[0] == Fork(root, child);
    assert AfterForks(m, one) == AfterFork(AfterForks(m, []), Fork(root, child));
  }

  /** While a root keeps its own entry, each of its children is tracked as its fork happens. */
  lemma {:induction false} ChildrenAreTracked(whitelist: seq<u32>, forks: seq<Fork>, i: nat)
    requires i < |forks| && IsRoot(AfterForks(Initial(whitelist), forks[..i]), forks[i].parent)
    ensures forks[i].child in AfterForks(Initial(whitelist), forks)
    decreases |forks|
  {
    var front := forks[..|forks| - 1];
    if i < |forks| - 1 {
      assert front[..i] == forks[..i];
      ChildrenAreTracked(whitelist, front, i);
    }
  }

  /** A whitelisted process stays tracked for ever, and stays a root unless a fork gives its number to a child. */
  lemma {:induction false} WhitelistStaysTracked(whitelist: seq<u32>, forks: seq<Fork>, pid: u32)
    requires pid in whitelist
    ensures pid in AfterForks(Initial(whitelist), forks)
    ensures (forall i :: 0 <= i < |forks| ==> forks[i].child != pid) ==>
              IsRoot(AfterForks(Initial(whitelist), forks), pid)
    decreases |forks|
  {
    if forks != [] { WhitelistStaysTracked(whitelist, forks[..|forks| - 1], pid); }
  }

  /** So a whitelisted process's children are tracked, as long as nobody forks the whitelisted number. */
  lemma WhitelistedChildren(whitelist: seq<u32>, forks: seq<Fork>, i: nat)
    requires i < |forks| && forks[i].parent in whitelist
    requires forall j :: 0 <= j < i ==> forks[j].child != forks[i].parent
    ensures forks[i].child in AfterForks(Initial(whitelist), forks)
  {
    WhitelistStaysTracked(whitelist, forks[..i], forks[i].parent);
    ChildrenAreTracked(whitelist, forks, i);
  }
}
