/** Op codes, fused ops and the interning table of `user/argtype/op_helper.go`. */
module Ops {
  import opened Bytes

  /** The op codes in their numeric order from 233; `Unknown` is every other number, 0 included. */
  datatype Code =
    | Skip | ResetCtx | SetRegIndex | SetReadLen | SetReadLenRegValue | SetReadLenPointerValue
    | SetReadCount | AddOffset | SubOffset | MoveRegValue | MovePointerValue | MoveTmpValue
    | SetTmpValue | ForBreak | SetBreakCount | SetBreakCountRegValue | SetBreakCountPointerValue
    | SaveAddr | AddReg | SubReg | ReadReg | SaveReg | ReadPointer | SavePointer | SaveStruct
    | FilterValue | FilterBuffer | FilterString | SaveString | SavePtrString | ReadStdString
    | ReadRet | Unknown

  predicate IsSave(c: Code) {
    c.SaveAddr? || c.SaveReg? || c.SavePointer? || c.SaveStruct? || c.SaveString? || c.SavePtrString?
  }

  predicate IsFilter(c: Code) { c.FilterValue? || c.FilterBuffer? || c.FilterString? }

  predicate IsRead(c: Code) { c.ReadReg? || c.ReadRet? || c.ReadPointer? || c.ReadStdString? }

  predicate IsAddress(c: Code) {
    || c.AddOffset? || c.SubOffset? || c.MoveRegValue? || c.MovePointerValue? || c.MoveTmpValue?
    || c.SetTmpValue? || c.AddReg? || c.SubReg?
  }

  /** What the kernel sees of an op: a code fused with an optional pre and post code. */
  datatype Op = Op(code: Code, pre: Code, post: Code, value: u64)

  /** An op as the Go side names it; two ops are the same when name and contents agree. */
  datatype OpConfig = OpConfig(name: string, op: Op)

  datatype Entry = Entry(index: nat, config: OpConfig)

  function Rop(name: string, code: Code): OpConfig { OpConfig(name, Op(code, Skip, Skip, 0)) }

  function NewValue(base: OpConfig, value: u64): OpConfig {
    base.(op := base.op.(value := value))
  }

  function Digits(n: nat): string {
    var d := [('0' as int + n % 10) as char];
    if n < 10 then d else Digits(n / 10) + d
  }

  function Fused(name: string, code: Code, pre: Code, post: Code, value: u64): OpConfig {
    OpConfig(name + "_" + Digits(value), Op(code, pre, post, value))
  }

  const OPC_SKIP := Rop("SKIP", Skip)
  const OPC_SET_READ_LEN := Rop("SET_READ_LEN", SetReadLen)
  const OPC_ADD_OFFSET := Rop("ADD_OFFSET", AddOffset)
  const OPC_SUB_OFFSET := Rop("SUB_OFFSET", SubOffset)
  const OPC_MOVE_REG_VALUE := Rop("MOVE_REG_VALUE", MoveRegValue)
  const OPC_MOVE_POINTER_VALUE := Rop("MOVE_POINTER_VALUE", MovePointerValue)
  const OPC_MOVE_TMP_VALUE := Rop("MOVE_TMP_VALUE", MoveTmpValue)
  const OPC_SET_TMP_VALUE := Rop("SET_TMP_VALUE", SetTmpValue)
  const OPC_FOR_BREAK := Rop("FOR_BREAK", ForBreak)
  const OPC_SET_BREAK_COUNT := Rop("OP_SET_BREAK_COUNT", SetBreakCount)
  const OPC_SAVE_ADDR := Rop("SAVE_ADDR", SaveAddr)
  const OPC_ADD_REG := Rop("ADD_REG", AddReg)
  const OPC_SUB_REG := Rop("SUB_REG", SubReg)
  const OPC_SAVE_REG := Rop("SAVE_REG", SaveReg)
  const OPC_READ_POINTER := Rop("READ_POINTER", ReadPointer)
  const OPC_SAVE_STRUCT := Rop("SAVE_STRUCT", SaveStruct)
  const OPC_SAVE_STRING := Rop("SAVE_STRING", SaveString)
  const OPC_FILTER_VALUE := Rop("FILTER_VALUE", FilterValue)
  const OPC_FILTER_BUFFER := Rop("FILTER_BUFFER", FilterBuffer)
  const OPC_FILTER_STRING := Rop("FILTER_STRING", FilterString)
  const OPC_SAVE_PTR_STRING := Rop("SAVE_PTR_STRING", SavePtrString)
  const OPC_READ_STD_STRING := Rop("READ_STD_STRING", ReadStdString)
  const OPC_READ_RET := Rop("READ_RET", ReadRet)

  /** The registration order of the base ops. */
  function BaseOps(): seq<OpConfig> {
    [
    OPC_SKIP, Rop("RESET_CTX", ResetCtx), Rop("SET_REG_INDEX", SetRegIndex), OPC_SET_READ_LEN,
    Rop("SET_READ_LEN_REG_VALUE", SetReadLenRegValue),
    Rop("SET_READ_LEN_POINTER_VALUE", SetReadLenPointerValue), Rop("SET_READ_COUNT", SetReadCount),
    OPC_ADD_OFFSET, OPC_SUB_OFFSET, OPC_MOVE_REG_VALUE, OPC_MOVE_POINTER_VALUE, OPC_MOVE_TMP_VALUE,
    OPC_SET_TMP_VALUE, OPC_FOR_BREAK, OPC_SET_BREAK_COUNT,
    Rop("SET_BREAK_COUNT_REG_VALUE", SetBreakCountRegValue),
    Rop("SET_BREAK_COUNT_POINTER_VALUE", SetBreakCountPointerValue), OPC_SAVE_ADDR, OPC_ADD_REG,
    OPC_SUB_REG, Rop("READ_REG", ReadReg), OPC_SAVE_REG, OPC_READ_POINTER,
    Rop("SAVE_POINTER", SavePointer), OPC_SAVE_STRUCT, OPC_SAVE_STRING, OPC_FILTER_VALUE,
    OPC_FILTER_BUFFER, OPC_FILTER_STRING, OPC_SAVE_PTR_STRING, OPC_READ_STD_STRING, OPC_READ_RET]
  }

  function ReadSaveReg(r: u64): OpConfig { Fused("READ_SAVE_REG", ReadReg, SetRegIndex, SaveReg, r) }

  function ReadMoveReg(r: u64): OpConfig { Fused("READ_MOVE_REG", ReadReg, SetRegIndex, MoveRegValue, r) }

  function SaveStructOf(size: u64): OpConfig { Fused("SAVE_STRUCT", SetReadLen, Skip, SaveStruct, size) }

  function ReadRegBreakCount(r: u64): OpConfig {
    Fused("READ_REG_AS_BREAK_COUNT", ReadReg, SetRegIndex, SetBreakCountRegValue, r)
  }

  function ReadPtrBreakCount(off: u64): OpConfig {
    Fused("READ_PTR_AS_BREAK_COUNT", ReadPointer, AddOffset, SetBreakCountPointerValue, off)
  }

  function ReadRegLen(r: u64): OpConfig {
    Fused("READ_REG_AS_READ_LEN", ReadReg, SetRegIndex, SetReadLenRegValue, r)
  }

  function ReadPtrLen(off: u64): OpConfig {
    Fused("READ_PTR_AS_READ_LEN", ReadPointer, AddOffset, SetReadLenPointerValue, off)
  }

  function ReadPtrAddr(off: u64): OpConfig {
    Fused("READ_PTR_AS_ADDR", ReadPointer, AddOffset, MovePointerValue, off)
  }

  // ----- interning

  /** Every entry sits at its own index and no two entries are the same op. */
  ghost predicate Interned(list: seq<Entry>) {
    && (forall i :: 0 <= i < |list| ==> list[i].index == i)
    && (forall i, j :: 0 <= i < j < |list| ==> list[i].config != list[j].config)
  }

  /** The first entry that is the same op, or the length of the list. */
  function Find(list: seq<Entry>, config: OpConfig): (k: nat)
    ensures k <= |list|
    ensures k < |list| ==> list[k].config == config
    ensures forall i :: 0 <= i < k ==> list[i].config != config
  {
    if list == [] then 0
    else if list[0].config == config then 0
    else
      var k := Find(list[1..], config);
      assert forall i :: 0 < i < k + 1 ==> list[i] == list[1..][i - 1];
      k + 1
  }

  function Intern(list: seq<Entry>, config: OpConfig): (r: (seq<Entry>, nat)) {
    var k := Find(list, config);
    if k < |list| then (list, list[k].index) else (list + [Entry(|list|, config)], |list|)
  }

  function InternAll(list: seq<Entry>, configs: seq<OpConfig>): (r: (seq<Entry>, seq<nat>))
    ensures |r.1| == |configs|
    decreases |configs|
  {
    if configs == [] then (list, [])
    else
      var (list1, k) := Intern(list, configs[0]);
      var (list2, ks) := InternAll(list1, configs[1..]);
      (list2, [k] + ks)
  }

  /** The map handed to the kernel. */
  function Table(list: seq<Entry>): map<nat, Op> {
    map i | 0 <= i < |list| :: list[i].config.op
  }

  /** `keys` mean `ops` in `table`. */
  ghost predicate Means(table: map<nat, Op>, keys: seq<nat>, ops: seq<Op>) {
    |keys| == |ops| && forall i :: 0 <= i < |keys| ==> keys[i] in table && table[keys[i]] == ops[i]
  }

  function OpsOf(configs: seq<OpConfig>): (ops: seq<Op>)
    ensures |ops| == |configs|
    ensures forall i :: 0 <= i < |ops| ==> ops[i] == configs[i].op
  {
    seq(|configs|, i requires 0 <= i < |configs| => configs[i].op)
  }

  lemma OpsOfAppend(a: seq<OpConfig>, b: seq<OpConfig>)
    ensures OpsOf(a + b) == OpsOf(a) + OpsOf(b)
  {
  }

  /** Interning keeps the table well formed, only ever extends it, and returns a key that means the op. */
  lemma InternKeeps(list: seq<Entry>, config: OpConfig)
    requires Interned(list)
    ensures var (list', k) := Intern(list, config);
            Interned(list') && list <= list' && k < |list'| && list'[k].config == config
  {
  }

  /**
   After any sequence of interning calls: earlier indices keep their meaning, the table stays
   duplicate-free, and the keys returned mean exactly the ops asked for, in order.
   */
  lemma {:induction false} InternAllMeans(list: seq<Entry>, configs: seq<OpConfig>)
    requires Interned(list)
    ensures var (list', keys) := InternAll(list, configs);
            && Interned(list') && list <= list'
            && Means(Table(list'), keys, OpsOf(configs))
    decreases |configs|
  {
    if configs != [] {
      InternKeeps(list, configs[0]);
      var (list1, k) := Intern(list, configs[0]);
      InternAllMeans(list1, configs[1..]);
      var (list2, ks) := InternAll(list1, configs[1..]);
      MeansCons(list2, k, ks, configs);
    }
  }

  lemma {:induction false} InternAllAppend(list: seq<Entry>, a: seq<OpConfig>, b: seq<OpConfig>)
    ensures var (list1, ka) := InternAll(list, a);
            var (list2, kb) := InternAll(list1, b);
            InternAll(list, a + b) == (list2, ka + kb)
    decreases |a|
  {
    if a == [] {
      var (list2, kb) := InternAll(list, b);
      assert a + b == b && [] + kb == kb;
    } else {
      assert (a + b)[0] == a[0] && (a + b)[1..] == a[1..] + b;
      var (list1, k) := Intern(list, a[0]);
      InternAllAppend(list1, a[1..], b);
      var (listA, ka) := InternAll(list1, a[1..]);
      var (listB, kb) := InternAll(listA, b);
      assert InternAll(list1, a[1..] + b) == (listB, ka + kb);
      assert [k] + (ka + kb) == ([k] + ka) + kb;
    }
  }

  lemma InternOne(list: seq<Entry>, c: OpConfig)
    ensures var (list1, k) := Intern(list, c);
            InternAll(list, [c]) == (list1, [k])
  {
    var (list1, k) := Intern(list, c);
    var cs, none := [c], [k] + [];
    assert cs[0] == c && cs[1..] == [] && none == [k];
    assert InternAll(list1, []) == (list1, []);
  }

  lemma MeansCons(list: seq<Entry>, k: nat, ks: seq<nat>, configs: seq<OpConfig>)
    requires configs != [] && k < |list| && list[k].config == configs[0]
    requires Means(Table(list), ks, OpsOf(configs[1..]))
    ensures Means(Table(list), [k] + ks, OpsOf(configs))
  {
    var keys := [k] + ks;
    forall i | 0 <= i < |keys| ensures keys[i] in Table(list) && Table(list)[keys[i]] == OpsOf(configs)[i] {
      if i > 0 {
        assert keys[i] == ks[i - 1] && OpsOf(configs[1..])[i - 1] == configs[i].op;
      }
    }
  }

  /** A key list keeps its meaning however the table grows afterwards. */
  lemma MeansIsStable(list: seq<Entry>, later: seq<Entry>, keys: seq<nat>, ops: seq<Op>)
    requires list <= later && Means(Table(list), keys, ops)
    ensures Means(Table(later), keys, ops)
  {
    forall i | 0 <= i < |keys| ensures keys[i] in Table(later) && Table(later)[keys[i]] == ops[i] {
      assert keys[i] in Table(list);
    }
  }

  /** Same op if and only if same key: interning is injective on contents. */
  lemma InternIsInjective(list: seq<Entry>, a: OpConfig, b: OpConfig)
    requires Interned(list)
    ensures var (list1, ka) := Intern(list, a);
            var (list2, kb) := Intern(list1, b);
            ka == kb <==> a == b
  {
    InternKeeps(list, a);
    var (list1, ka) := Intern(list, a);
    InternKeeps(list1, b);
    var (list2, kb) := Intern(list1, b);
    assert list2[ka] == list1[ka];
  }

  /** After start-up index 0 is SKIP, in every later table. */
  lemma SkipIsZero(configs: seq<OpConfig>)
    ensures var list := InternAll([], BaseOps() + configs).0;
            Interned(list) && 0 in Table(list) && Table(list)[0] == OPC_SKIP.op
  {
    var all := BaseOps() + configs;
    InternAllMeans([], all);
    var (list1, k) := Intern([], all[0]);
    assert all[0] == OPC_SKIP && k == 0;
    assert InternAll([], all).1[0] == 0;
    assert OpsOf(all)[0] == OPC_SKIP.op;
  }

  /** `OpManager`: the process-wide list of ops, searched and appended in place. */
  class OpManager {
    var opList: seq<Entry>

    ghost predicate Valid()
      reads this
    {
      Interned(opList)
    }

    constructor ()
      ensures Valid() && opList == InternAll([], BaseOps()).0
    {
      opList := [];
      new;
      var keys := AddAll(BaseOps());
    }

    method AddOp(config: OpConfig) returns (index: nat)
      requires Valid()
      modifies this
      ensures Valid() && (opList, index) == Intern(old(opList), config)
    {
      InternKeeps(opList, config);
      for i := 0 to |opList|
        invariant forall j :: 0 <= j < i ==> opList[j].config != config
      {
        if opList[i].config == config {
          return opList[i].index;
        }
      }
      index := |opList|;
      opList := opList + [Entry(index, config)];
    }

    /** Registers ops one by one, as every builder does, and returns their keys. */
    method AddAll(configs: seq<OpConfig>) returns (keys: seq<nat>)
      requires Valid()
      modifies this
      ensures Valid() && (opList, keys) == InternAll(old(opList), configs)
    {
      keys := [];
      ghost var list := opList;
      for i := 0 to |configs|
        invariant Valid() && (opList, keys) == InternAll(list, configs[..i])
      {
        InternAllAppend(list, configs[..i], [configs[i]]);
        InternOne(opList, configs[i]);
        assert configs[..i + 1] == configs[..i] + [configs[i]];
        var k := AddOp(configs[i]);
        keys := keys + [k];
      }
      assert configs[..|configs|] == configs;
    }

    /** `GetOp` scans for the index; interning makes the scan an array access. */
    method GetOp(index: nat) returns (config: Option<OpConfig>)
      requires Valid()
      ensures config == if index < |opList| then Some(opList[index].config) else None
    {
      for i := 0 to |opList|
        invariant forall j :: 0 <= j < i ==> opList[j].index != index
      {
        if opList[i].index == index {
          return Some(opList[i].config);
        }
      }
      return None;
    }

    method GetOpList() returns (table: map<nat, Op>)
      requires Valid()
      ensures table == Table(opList)
    {
      table := map[];
      for i := 0 to |opList|
        invariant table == map j | 0 <= j < i :: opList[j].config.op
      {
        table := table[opList[i].index := opList[i].config.op];
      }
    }
  }
}
