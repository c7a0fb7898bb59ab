/**
 The one `common_list` map that stands for eight lists (`src/common/consts.h`, `update_common_list`), and the
 decision chain of `should_trace` over it.
 */
module SharedList {
  import opened Bytes

  datatype Class = SysWhite | SysBlack | UidWhite | UidBlack | PidWhite | PidBlack | TidWhite | TidBlack

  function Rank(c: Class): (n: nat)
    ensures n < 8
  {
    match c
    case SysWhite => 0
    case SysBlack => 1
    case UidWhite => 2
    case UidBlack => 3
    case PidWhite => 4
    case PidBlack => 5
    case TidWhite => 6
    case TidBlack => 7
  }

  function Offset(c: Class): u32 { 0x400 * (Rank(c) + 1) }

  /** The key under which `id` is stored and looked up, a 32-bit sum. */
  function Slot(c: Class, id: u32): u32 { Wrap32(Offset(c) + id) }

  /** Where the lists start: call numbers, users, processes, threads, the whitelist first each time. */
  lemma SlotsAre(id: u32)
    requires id < 0x1_0000_0000 - 0x2000
    ensures Slot(SysWhite, id) == 0x400 + id && Slot(SysBlack, id) == 0x800 + id
    ensures Slot(UidWhite, id) == 0xc00 + id && Slot(UidBlack, id) == 0x1000 + id
    ensures Slot(PidWhite, id) == 0x1400 + id && Slot(PidBlack, id) == 0x1800 + id
    ensures Slot(TidWhite, id) == 0x1c00 + id && Slot(TidBlack, id) == 0x2000 + id
  {
  }

  /** The contents of the eight lists. */
  type Lists = Class -> set<u32>

  /** The map holds exactly the keys of all members of all lists. */
  ghost predicate Holds(keys: set<u32>, lists: Lists) {
    forall k: u32 :: k in keys <==> Occupied(lists, k)
  }

  ghost predicate Occupied(lists: Lists, k: u32) { exists c: Class, id: u32 :: id in lists(c) && Slot(c, id) == k }

  class CommonList {
    var keys: set<u32>

    constructor ()
      ensures keys == {}
    {
      keys := {};
    }

    /** `update_common_list` for one list. */
    method Update(items: seq<u32>, c: Class)
      modifies this
      ensures keys == old(keys) + set id | id in items :: Slot(c, id)
    {
      for i := 0 to |items|
        invariant keys == old(keys) + set id | id in items[..i] :: Slot(c, id)
      {
        keys := keys + {Slot(c, items[i])};
        assert items[..i + 1] == items[..i] + [items[i]];
      }
      assert items[..|items|] == items;
    }
  }

  /** A member of another list whose key is the one looked up. */
  ghost predicate Alias(lists: Lists, c: Class, id: u32) {
    exists d: Class, y: u32 :: d != c && y in lists(d) && Slot(d, y) == Slot(c, id)
  }

  lemma SlotIsInjective(c: Class, x: u32, y: u32)
    requires Slot(c, x) == Slot(c, y)
    ensures x == y
  {
  }

  /** A lookup hits exactly for members of the list and for aliases from other lists. */
  lemma LookupIsExact(keys: set<u32>, lists: Lists, c: Class, id: u32)
    requires Holds(keys, lists)
    ensures Slot(c, id) in keys <==> id in lists(c) || Alias(lists, c, id)
  {
    if Slot(c, id) in keys {
      assert Occupied(lists, Slot(c, id));
      var d: Class, y: u32 :| y in lists(d) && Slot(d, y) == Slot(c, id);
      if d == c { SlotIsInjective(c, id, y); }
    }
    if id in lists(c) { assert Occupied(lists, Slot(c, id)); }
    if Alias(lists, c, id) {
      var d: Class, y: u32 :| d != c && y in lists(d) && Slot(d, y) == Slot(c, id);
      assert Occupied(lists, Slot(c, id));
    }
  }

  /** An alias is an id that lies a whole number of list widths away, in a list as many places off. */
  lemma AliasMeans(c: Class, x: u32, d: Class, y: u32)
    ensures Slot(d, y) == Slot(c, x) <==> y == Wrap32(x + 0x400 * (Rank(c) - Rank(d)))
  {
  }

  lemma SlotsApart(c: Class, x: u32, d: Class, y: u32)
    requires c != d && x < 0x400 && y < 0x400
    ensures Slot(c, x) != Slot(d, y)
  {
    var i, j := Rank(c), Rank(d);
    assert i != j;
    assert Slot(c, x) == 0x400 * (i + 1) + x && Slot(d, y) == 0x400 * (j + 1) + y;
  }

  /** With every id below 0x400 no lookup of such an id has an alias: the map is eight separate lists. */
  lemma SmallIdsAreExact(keys: set<u32>, lists: Lists, c: Class, id: u32)
    requires Holds(keys, lists) && id < 0x400
    requires forall d: Class, y: u32 :: y in lists(d) ==> y < 0x400
    ensures Slot(c, id) in keys <==> id in lists(c)
  {
    LookupIsExact(keys, lists, c, id);
    if Alias(lists, c, id) {
      var d: Class, y: u32 :| d != c && y in lists(d) && Slot(d, y) == Slot(c, id);
      SlotsApart(c, id, d, y);
      assert false;
    }
  }

  lemma HighSlotsApart(c: Class, x: u32, d: Class, y: u32)
    requires (c.SysWhite? || c.SysBlack?) && x < 0x400 && c != d
    requires Offset(d) + y < U32 && (d.SysWhite? || d.SysBlack? ==> y < 0x400)
    ensures Slot(c, x) != Slot(d, y)
  {
    if d.SysWhite? || d.SysBlack? {
      SlotsApart(c, x, d, y);
    } else {
      assert Slot(d, y) == Offset(d) + y >= 0xc00 > Slot(c, x);
    }
  }

  /** The call-number lists stay exact whatever the other lists hold, as long as their sums do not wrap. */
  lemma SysListsAreExact(keys: set<u32>, lists: Lists, c: Class, id: u32)
    requires Holds(keys, lists) && (c.SysWhite? || c.SysBlack?) && id < 0x400
    requires forall d: Class, y: u32 :: y in lists(d) ==>
               Offset(d) + y < U32 && (d.SysWhite? || d.SysBlack? ==> y < 0x400)
    ensures Slot(c, id) in keys <==> id in lists(c)
  {
    LookupIsExact(keys, lists, c, id);
    if Alias(lists, c, id) {
      var d: Class, y: u32 :| d != c && y in lists(d) && Slot(d, y) == Slot(c, id);
      HighSlotsApart(c, id, d, y);
      assert false;
    }
  }

  /** Larger ids alias: whitelisting process 1029 blacklists process 5. */
  lemma LargeIdsAlias(keys: set<u32>, lists: Lists)
    requires Holds(keys, lists) && 1029 in lists(PidWhite)
    ensures Slot(PidBlack, 5) in keys
  {
    assert Slot(PidWhite, 1029) == Slot(PidBlack, 5);
    assert Occupied(lists, Slot(PidBlack, 5));
  }

  // ----- the decision chain

  datatype ThreadFlag = NoFlag | NameWhite | NameBlack

  datatype Group = Root | System | Shell | App | Iso

  datatype Context = Context(pid: u32, tid: u32, uid: u32, name: ThreadFlag)

  datatype Config = Config(selfPid: u32, threadWhitelist: bool, forked: set<u32>, groups: Option<set<Group>>)

  predicate InGroup(g: Group, uid: u32) {
    match g
    case Root => uid == 0
    case System => uid == 1000
    case Shell => uid == 2000
    case App => 10000 <= uid <= 19999
    case Iso => 99000 <= uid <= 99999
  }

  /** `should_trace`, for any way of looking up an id in a list; no `common_filter` entry means no. */
  predicate ShouldTrace(ctx: Context, config: Config, listed: (Class, u32) -> bool) {
    if config.selfPid == ctx.pid then false
    else if config.threadWhitelist && ctx.name.NoFlag? then false
    else if ctx.name.NameBlack? then false
    else if ctx.name.NameWhite? then true
    else if listed(TidBlack, ctx.tid) then false
    else if listed(TidWhite, ctx.tid) then true
    else if listed(PidBlack, ctx.pid) then false
    else if listed(PidWhite, ctx.pid) then true
    else if ctx.pid in config.forked then true
    else if listed(UidBlack, ctx.uid) then false
    else if listed(UidWhite, ctx.uid) then true
    else config.groups.Some? && exists g :: g in config.groups.value && InGroup(g, ctx.uid)
  }

  function Shared(keys: set<u32>): (Class, u32) -> bool { (c: Class, id: u32) => Slot(c, id) in keys }

  function Separate(lists: Lists): (Class, u32) -> bool { (c: Class, id: u32) => id in lists(c) }

  /** None of the six lookups for this event has an alias. */
  ghost predicate NoAlias(lists: Lists, ctx: Context) {
    && !Alias(lists, TidBlack, ctx.tid) && !Alias(lists, TidWhite, ctx.tid)
    && !Alias(lists, PidBlack, ctx.pid) && !Alias(lists, PidWhite, ctx.pid)
    && !Alias(lists, UidBlack, ctx.uid) && !Alias(lists, UidWhite, ctx.uid)
  }

  /** The chain over the shared map decides as over eight lists whenever no lookup has an alias. */
  lemma ChainRefines(keys: set<u32>, lists: Lists, ctx: Context, config: Config)
    requires Holds(keys, lists) && NoAlias(lists, ctx)
    ensures ShouldTrace(ctx, config, Shared(keys)) == ShouldTrace(ctx, config, Separate(lists))
  {
    LookupIsExact(keys, lists, TidBlack, ctx.tid);
    LookupIsExact(keys, lists, TidWhite, ctx.tid);
    LookupIsExact(keys, lists, PidBlack, ctx.pid);
    LookupIsExact(keys, lists, PidWhite, ctx.pid);
    LookupIsExact(keys, lists, UidBlack, ctx.uid);
    LookupIsExact(keys, lists, UidWhite, ctx.uid);
  }

  /** The users a group stands for. */
  predicate GroupUser(config: Config, uid: u32) {
    && config.groups.Some?
    && ((Root in config.groups.value && uid == 0)
        || (System in config.groups.value && uid == 1000)
        || (Shell in config.groups.value && uid == 2000)
        || (App in config.groups.value && 10000 <= uid < 20000)
        || (Iso in config.groups.value && 99000 <= uid < 100000))
  }

  /** Not the tracer's own process, no blacklisted thread name, and a whitelisted one if names are whitelisted. */
  predicate NameAllows(ctx: Context, config: Config) {
    && ctx.pid != config.selfPid && !ctx.name.NameBlack?
    && (config.threadWhitelist ==> ctx.name.NameWhite?)
  }

  /**
   Who is traced, over the shared map, when no lookup has an alias: a thread its name allows and that is whitelisted by
   name, or by thread, process, fork, user or group, with no blacklist entry at that level or a finer one.
   */
  lemma TracedExactly(keys: set<u32>, lists: Lists, ctx: Context, config: Config)
    requires Holds(keys, lists) && NoAlias(lists, ctx)
    ensures var threadOk := ctx.tid !in lists(TidBlack);
            var processOk := threadOk && ctx.pid !in lists(PidBlack);
            var userOk := processOk && ctx.uid !in lists(UidBlack);
            ShouldTrace(ctx, config, Shared(keys))
            == (NameAllows(ctx, config)
                && (ctx.name.NameWhite?
                    || (threadOk && ctx.tid in lists(TidWhite))
                    || (processOk && (ctx.pid in lists(PidWhite) || ctx.pid in config.forked))
                    || (userOk && (ctx.uid in lists(UidWhite) || GroupUser(config, ctx.uid)))))
  {
    ChainRefines(keys, lists, ctx, config);
    GroupsAre(config, ctx.uid);
  }

  lemma GroupsAre(config: Config, uid: u32)
    ensures GroupUser(config, uid)
       <==> config.groups.Some? && exists g :: g in config.groups.value && InGroup(g, uid)
  {
    if GroupUser(config, uid) {
      assert InGroup(Root, uid) || InGroup(System, uid) || InGroup(Shell, uid) || InGroup(App, uid)
          || InGroup(Iso, uid);
    }
  }

  /** A blacklist at one level beats the whitelist of that level and of every coarser one. */
  lemma BlacklistsWin(keys: set<u32>, lists: Lists, ctx: Context, config: Config)
    requires Holds(keys, lists) && ctx.name.NoFlag?
    requires ctx.tid in lists(TidBlack)
             || (ctx.pid in lists(PidBlack) && ctx.tid !in lists(TidWhite) && !Alias(lists, TidWhite, ctx.tid))
    ensures !ShouldTrace(ctx, config, Shared(keys))
  {
    LookupIsExact(keys, lists, TidBlack, ctx.tid);
    LookupIsExact(keys, lists, TidWhite, ctx.tid);
    LookupIsExact(keys, lists, PidBlack, ctx.pid);
  }
}
