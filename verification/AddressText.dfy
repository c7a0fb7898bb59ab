/**
 What the text of a read address computes. Every text is a token followed by marks with a token each; reading it
 mark by mark gives the address, without looking at how the text is split, compiled or run.
 */
module AddressText {
  import opened Bytes
  import opened Memory
  import opened Ops
  import opened Machine
  import opened Frames
  import opened Effects
  import opened ReadAddress

  /** A `.`, `+` or `-` and the token behind it, which may be empty. */
  datatype Piece = Piece(mark: char, token: string)

  predicate WellMarked(ps: seq<Piece>) {
    forall i :: 0 <= i < |ps| ==> ps[i].mark in {'.', '+', '-'} && Bare(ps[i].token)
  }

  function Text(ps: seq<Piece>): string {
    if ps == [] then "" else [ps[0].mark] + ps[0].token + Text(ps[1..])
  }

  /** Every text is of this form. */
  lemma {:induction false} EveryText(text: string) returns (first: string, ps: seq<Piece>)
    ensures Bare(first) && WellMarked(ps) && text == first + Text(ps)
    decreases |text|
  {
    if text == "" {
      first, ps := "", [];
    } else {
      var token, more := EveryText(text[1..]);
      assert text == [text[0]] + text[1..];
      if Special(text[0]) {
        var p := Piece(text[0], token);
        first, ps := "", [p] + more;
        assert ps[0] == p && ps[1..] == more;
        assert text == [p.mark] + p.token + Text(more);
      } else {
        first, ps := [text[0]] + token, more;
        assert text == first + Text(more);
      }
    }
  }

  // ----- what a text means

  /**
   One piece: a dot follows the pointer found so far, then the token counts. A number is added, or behind a `-`
   subtracted, which needs a register in front of it; the first register replaces the address, and a later one
   doubles itself or cancels. None is a panic.
   */
  function Reading(env: Env, p: Piece, classify: Classifier, named: bool, at: u64): Option<u64> {
    var from := if p.mark == '.' then ReadWord(env.mem, at) else at;
    if p.token == "" then Some(from)
    else
      match classify(p.token)
      case Const(v) =>
        if !named then None
        else if p.mark == '-' then Some((from - v) % 0x1_0000_0000_0000_0000)
        else Some((from + v) % 0x1_0000_0000_0000_0000)
      case Reg(r) =>
        if r >= 33 then None
        else if !named then Some(env.regs[r])
        else if p.mark == '-' then Some(0)
        else Some((2 * (env.regs[r] as int)) % 0x1_0000_0000_0000_0000)
      case Bad => None
  }

  predicate NamesRegister(p: Piece, classify: Classifier) { p.token != "" && classify(p.token).Reg? }

  function ReadingAll(env: Env, ps: seq<Piece>, classify: Classifier, named: bool, at: u64): Option<u64>
    decreases |ps|
  {
    if ps == [] then Some(at)
    else
      match Reading(env, ps[0], classify, named, at)
      case None => None
      case Some(next) => ReadingAll(env, ps[1..], classify, named || NamesRegister(ps[0], classify), next)
  }

  /** The register named last, which value filters compare. */
  function LastNamed(env: Env, ps: seq<Piece>, classify: Classifier, was: u64): u64
    decreases |ps|
  {
    if ps == [] then was
    else
      match (if ps[0].token == "" then Bad else classify(ps[0].token))
      case Reg(r) => LastNamed(env, ps[1..], classify, if r < 33 then env.regs[r] else was)
      case _ => LastNamed(env, ps[1..], classify, was)
  }

  /** The token in front of the first mark counts like one behind a `+`. */
  function Pieces(first: string, ps: seq<Piece>): seq<Piece> { [Piece('+', first)] + ps }

  // ----- the text as it is read

  function PieceItems(p: Piece): seq<Item> { (if p.mark == '.' then [Deref] else []) + Flush(p.mark == '-', p.token) }

  function AllItems(ps: seq<Piece>): seq<Item> {
    if ps == [] then [] else PieceItems(ps[0]) + AllItems(ps[1..])
  }

  lemma {:induction false} LexPieces(ps: seq<Piece>, minus: bool, token: string)
    requires WellMarked(ps)
    ensures Lex(Text(ps), minus, token) == Flush(minus, token) + AllItems(ps)
    decreases |ps|
  {
    if ps != [] {
      var p, rest, text := ps[0], ps[1..], Text(ps);
      assert text[1..] == p.token + Text(rest);
      LexToken(p.token, p.mark == '-', "", Text(rest));
      assert "" + p.token == p.token;
      LexPieces(rest, p.mark == '-', p.token);
      assert Lex(text[1..], p.mark == '-', "") == Flush(p.mark == '-', p.token) + AllItems(rest);
      ItemsFollow(Flush(minus, token), p, AllItems(rest));
    }
  }

  lemma ItemsFollow(front: seq<Item>, p: Piece, rest: seq<Item>)
    ensures p.mark == '.' ==>
              front + [Deref] + (Flush(p.mark == '-', p.token) + rest) == front + (PieceItems(p) + rest)
    ensures p.mark != '.' ==> front + (Flush(p.mark == '-', p.token) + rest) == front + (PieceItems(p) + rest)
  {
  }

  lemma LexText(first: string, ps: seq<Piece>)
    requires Bare(first) && WellMarked(ps)
    ensures Lex(first + Text(ps), false, "") == AllItems(Pieces(first, ps))
  {
    LexToken(first, false, "", Text(ps));
    assert "" + first == first;
    LexPieces(ps, false, first);
    assert Pieces(first, ps)[1..] == ps;
    assert PieceItems(Piece('+', first)) == Flush(false, first);
  }

  // ----- what its ops compute

  lemma {:induction false} AcceptBoth(a: seq<Action>, b: seq<Action>, named: bool)
    ensures AllAcceptable(a + b, named) <==> AllAcceptable(a, named) && AllAcceptable(b, named || NamesAny(a))
    decreases |a|
  {
    if a == [] {
      assert a + b == b;
    } else {
      assert (a + b)[0] == a[0] && (a + b)[1..] == a[1..] + b;
      AcceptBoth(a[1..], b, named || a[0].Register?);
    }
  }

  lemma OneAction(env: Env, a: Action, named: bool, at: u64, was: u64)
    ensures AllAcceptable([a], named) <==> Acceptable(a, named)
    ensures Computed(env, [a], named, at) == Coded(env, a, named, at) && NamesAny([a]) == a.Register?
    ensures FinalRegister(env, [a], was) == LastRegister(env, a, was)
  {
    var one, next, last := [a], Coded(env, a, named, at), LastRegister(env, a, was);
    assert one[1..] == [];
    assert Computed(env, [], named || a.Register?, next) == next;
    assert !NamesAny([]) && FinalRegister(env, [], last) == last;
  }

  /** The actions a piece stands for, with what they accept, compute and leave in the value register. */
  ghost predicate ActsLike(
    env: Env, actions: seq<Action>, p: Piece, classify: Classifier, named: bool, at: u64, was: u64)
  {
    var r := Reading(env, p, classify, named, at);
    && (AllAcceptable(actions, named) <==> r.Some?)
    && (r.Some? ==> KnownRegisters(actions) && Computed(env, actions, named, at) == r.value)
    && (r.Some? ==> NamesAny(actions) == NamesRegister(p, classify))
    && (r.Some? ==> FinalRegister(env, actions, was) == LastNamed(env, [p], classify, was))
  }

  lemma TokenActs(env: Env, p: Piece, classify: Classifier, named: bool, at: u64, was: u64)
    requires p.token != "" && p.mark != '.'
    ensures ActsLike(env, [Resolve(Term(p.mark == '-', p.token), classify)], p, classify, named, at, was)
  {
    OneAction(env, Resolve(Term(p.mark == '-', p.token), classify), named, at, was);
    assert [p][1..] == [];
  }

  lemma DotActs(env: Env, p: Piece, classify: Classifier, named: bool, at: u64, was: u64)
    requires p.token == ""
    ensures ActsLike(env, ResolveAll(PieceItems(p), classify), p, classify, named, at, was)
  {
    OneAction(env, Follow, named, at, was);
    assert [p][1..] == [];
    if p.mark == '.' {
      assert ResolveAll(PieceItems(p), classify) == [Follow];
    } else {
      assert ResolveAll(PieceItems(p), classify) == [];
    }
  }

  lemma DottedActs(env: Env, p: Piece, classify: Classifier, named: bool, at: u64, was: u64)
    requires p.token != "" && p.mark == '.'
    ensures ActsLike(env, ResolveAll(PieceItems(p), classify), p, classify, named, at, was)
  {
    var q, from := Piece('+', p.token), ReadWord(env.mem, at);
    var tail := [Resolve(Term(false, p.token), classify)];
    TokenActs(env, q, classify, named, from, was);
    OneAction(env, Follow, named, at, was);
    assert ResolveAll(PieceItems(p), classify) == [Follow] + tail;
    AcceptBoth([Follow], tail, named);
    AddressOfBoth(env, [Follow], tail, named, at);
    FinalOfBoth(env, [Follow], tail, was);
    NamesBoth([Follow], tail);
    assert [p][1..] == [q][1..] == [];
  }

  lemma {:induction false} NamesBoth(a: seq<Action>, b: seq<Action>)
    ensures NamesAny(a + b) <==> NamesAny(a) || NamesAny(b)
    decreases |a|
  {
    if a == [] {
      assert a + b == b;
    } else {
      assert (a + b)[0] == a[0] && (a + b)[1..] == a[1..] + b;
      NamesBoth(a[1..], b);
    }
  }

  lemma PieceActs(env: Env, p: Piece, classify: Classifier, named: bool, at: u64, was: u64)
    ensures ActsLike(env, ResolveAll(PieceItems(p), classify), p, classify, named, at, was)
  {
    if p.token == "" {
      DotActs(env, p, classify, named, at, was);
    } else if p.mark == '.' {
      DottedActs(env, p, classify, named, at, was);
    } else {
      TokenActs(env, p, classify, named, at, was);
      assert ResolveAll(PieceItems(p), classify) == [Resolve(Term(p.mark == '-', p.token), classify)];
    }
  }

  lemma KnownBoth(a: seq<Action>, b: seq<Action>)
    ensures KnownRegisters(a + b) <==> KnownRegisters(a) && KnownRegisters(b)
  {
    if KnownRegisters(a + b) {
      forall i | 0 <= i < |a| && a[i].Register? ensures a[i].r < REG_ARM64_MAX { assert (a + b)[i] == a[i]; }
      forall i | 0 <= i < |b| && b[i].Register? ensures b[i].r < REG_ARM64_MAX { assert (a + b)[|a| + i] == b[i]; }
    }
  }

  lemma ItemsSplit(p: Piece, rest: seq<Piece>, classify: Classifier)
    ensures ResolveAll(AllItems([p] + rest), classify)
         == ResolveAll(PieceItems(p), classify) + ResolveAll(AllItems(rest), classify)
  {
    assert ([p] + rest)[1..] == rest;
  }

  lemma LastStep(env: Env, p: Piece, rest: seq<Piece>, classify: Classifier, was: u64)
    ensures LastNamed(env, [p] + rest, classify, was)
         == LastNamed(env, rest, classify, LastNamed(env, [p], classify, was))
  {
    assert ([p] + rest)[1..] == rest && [p][1..] == [];
  }

  /** Compiled and run, the pieces compute what reading them gives; they panic exactly where reading them does. */
  lemma {:induction false} PiecesAct(env: Env, ps: seq<Piece>, classify: Classifier, named: bool, at: u64, was: u64)
    ensures var actions, r := ResolveAll(AllItems(ps), classify), ReadingAll(env, ps, classify, named, at);
            && (AllAcceptable(actions, named) <==> r.Some?)
            && (r.Some? ==> KnownRegisters(actions) && Computed(env, actions, named, at) == r.value)
            && (r.Some? ==> FinalRegister(env, actions, was) == LastNamed(env, ps, classify, was))
    decreases |ps|
  {
    if ps != [] {
      var p, rest := ps[0], ps[1..];
      var a, b := ResolveAll(PieceItems(p), classify), ResolveAll(AllItems(rest), classify);
      assert ps == [p] + rest;
      PieceActs(env, p, classify, named, at, was);
      ItemsSplit(p, rest, classify);
      AcceptBoth(a, b, named);
      var r := Reading(env, p, classify, named, at);
      if r.Some? {
        var last := LastNamed(env, [p], classify, was);
        PiecesAct(env, rest, classify, named || NamesRegister(p, classify), r.value, last);
        AddressOfBoth(env, a, b, named, at);
        FinalOfBoth(env, a, b, was);
        KnownBoth(a, b);
        LastStep(env, p, rest, classify, was);
      }
    } else {
      assert ResolveAll([], classify) == [];
    }
  }

  /** The actions a text is compiled to, as an argument holds them. */
  function Actions(text: string, classify: Classifier): seq<Action> { ResolveAll(Lex(text, false, ""), classify) }

  /** An argument with this text reads at the address the text means; value filters see the register named last. */
  lemma TextComputes(env: Env, first: string, ps: seq<Piece>, classify: Classifier, at: u64, was: u64)
    requires Bare(first) && WellMarked(ps)
    ensures var actions := Actions(first + Text(ps), classify);
            var r := ReadingAll(env, Pieces(first, ps), classify, false, at);
            && (AllAcceptable(actions, false) <==> r.Some?)
            && (r.Some? ==> KnownRegisters(actions) && Computed(env, actions, false, at) == r.value)
            && (r.Some? ==> FinalRegister(env, actions, was) == LastNamed(env, Pieces(first, ps), classify, was))
  {
    LexText(first, ps);
    PiecesAct(env, Pieces(first, ps), classify, false, at, was);
  }

  /** The compiler panics exactly on the texts that cannot be read, in every environment alike. */
  lemma PanicsExactly(env: Env, first: string, ps: seq<Piece>, classify: Classifier, at: u64)
    requires Bare(first) && WellMarked(ps)
    ensures ReadOps(first + Text(ps), classify).None? <==> ReadingAll(env, Pieces(first, ps), classify, false, at).None?
  {
    TextComputes(env, first, ps, classify, at, 0);
  }

  /**
   From the text to the record: the compiled ops leave the read address, and record it, where reading the text leads
   from the read address left over; the value register holds the register named last.
   */
  lemma TextRuns(s: Sem, first: string, ps: seq<Piece>, classify: Classifier, ops: seq<OpConfig>, rest: seq<Op>,
                 ctl: Ctl, m: Mach) returns (m1: Mach)
    requires Valid(s) && !ctl.black && Bare(first) && WellMarked(ps)
    requires ReadOps(first + Text(ps), classify) == Some(ops)
    ensures s.run(OpsOf(ops) + rest, ctl, m) == s.run(rest, ctl, m1)
    ensures ReadingAll(s.env, Pieces(first, ps), classify, false, m.readAddr) == Some(m1.readAddr)
    ensures s.wrote(m, m1, [Word(m1.readAddr)]) && m1.strLen == m.strLen
    ensures m1.regValue == LastNamed(s.env, Pieces(first, ps), classify, m.regValue)
  {
    TextComputes(s.env, first, ps, classify, m.readAddr, m.regValue);
    m1 := AddressRuns(s, Actions(first + Text(ps), classify), rest, ctl, m);
  }

  // ----- a register with offsets

  /** Every mark is a sign and every token a number. */
  predicate OnlyNumbers(ps: seq<Piece>, classify: Classifier) {
    forall i :: 0 <= i < |ps| ==> ps[i].mark != '.' && ps[i].token != "" && classify(ps[i].token).Const?
  }

  /** The sum of the numbers with their signs. */
  function SignedSum(ps: seq<Piece>, classify: Classifier): int
    requires OnlyNumbers(ps, classify)
  {
    if ps == [] then 0
    else
      (if ps[0].mark == '-' then -(classify(ps[0].token).v as int) else classify(ps[0].token).v as int)
      + SignedSum(ps[1..], classify)
  }

  lemma {:induction false} NumbersAdd(env: Env, ps: seq<Piece>, classify: Classifier, at: u64)
    requires OnlyNumbers(ps, classify)
    ensures ReadingAll(env, ps, classify, true, at)
         == Some((at + SignedSum(ps, classify)) % 0x1_0000_0000_0000_0000)
    decreases |ps|
  {
    if ps != [] {
      var one := if ps[0].mark == '-' then -(classify(ps[0].token).v as int) else classify(ps[0].token).v as int;
      NumbersAdd(env, ps[1..], classify, Wrap64(at + one));
      WrapSum(at, one, SignedSum(ps[1..], classify));
    }
  }

  /** A register below 33 and signed numbers: the register plus their sum modulo 2^64. */
  lemma RegisterPlusSum(env: Env, first: string, r: u32, ps: seq<Piece>, classify: Classifier, at: u64)
    requires first != "" && classify(first) == Reg(r) && r < 33 && OnlyNumbers(ps, classify)
    ensures ReadingAll(env, Pieces(first, ps), classify, false, at)
         == Some((env.regs[r] + SignedSum(ps, classify)) % 0x1_0000_0000_0000_0000)
  {
    assert Pieces(first, ps)[1..] == ps;
    NumbersAdd(env, ps, classify, env.regs[r]);
  }

  // ----- the documented example

  lemma PieceFirst(env: Env, p: Piece, rest: seq<Piece>, classify: Classifier, named: bool, at: u64)
    requires Reading(env, p, classify, named, at).Some?
    ensures Text([p] + rest) == [p.mark] + p.token + Text(rest)
    ensures ReadingAll(env, [p] + rest, classify, named, at)
         == ReadingAll(env, rest, classify, named || NamesRegister(p, classify),
                       Reading(env, p, classify, named, at).value)
  {
    assert ([p] + rest)[0] == p && ([p] + rest)[1..] == rest;
  }

  /** A signed number behind a register. */
  lemma NumberFirst(env: Env, p: Piece, v: u64, rest: seq<Piece>, classify: Classifier, at: u64, to: u64)
    requires p.mark != '.' && p.token != "" && classify(p.token) == Const(v)
    requires to == Wrap64(if p.mark == '-' then (at as int) - v else (at as int) + v)
    ensures ReadingAll(env, [p] + rest, classify, true, at) == ReadingAll(env, rest, classify, true, to)
  {
    PieceFirst(env, p, rest, classify, true, at);
  }

  lemma DotFirst(env: Env, rest: seq<Piece>, classify: Classifier, at: u64)
    ensures ReadingAll(env, [Piece('.', "")] + rest, classify, true, at)
         == ReadingAll(env, rest, classify, true, ReadWord(env.mem, at))
  {
    PieceFirst(env, Piece('.', ""), rest, classify, true, at);
  }

  function Far(): seq<Piece> { [Piece('-', "4")] + ([Piece('+', "0x16")] + []) }

  function Hop(rest: seq<Piece>): seq<Piece> { [Piece('.', "")] + rest }

  function Middle(rest: seq<Piece>): seq<Piece> { [Piece('+', "8")] + Hop(rest) }

  function Near(rest: seq<Piece>): seq<Piece> { [Piece('+', "0x20")] + ([Piece('-', "0x8")] + Hop(rest)) }

  lemma TextFirst(p: Piece, rest: seq<Piece>)
    ensures Text([p] + rest) == [p.mark] + p.token + Text(rest)
  {
    assert ([p] + rest)[0] == p && ([p] + rest)[1..] == rest;
  }

  lemma HopText(rest: seq<Piece>)
    ensures Text(Middle(rest)) == "+8." + Text(rest) && Text(Near(rest)) == "+0x20-0x8." + Text(rest)
  {
    TextFirst(Piece('.', ""), rest);
    TextFirst(Piece('+', "8"), Hop(rest));
    TextFirst(Piece('-', "0x8"), Hop(rest));
    TextFirst(Piece('+', "0x20"), [Piece('-', "0x8")] + Hop(rest));
  }

  lemma FarText()
    ensures Text(Far()) == "-4+0x16" && WellMarked(Far())
  {
    TextFirst(Piece('+', "0x16"), []);
    TextFirst(Piece('-', "4"), [Piece('+', "0x16")] + []);
  }

  lemma HopsAreMarked(rest: seq<Piece>)
    requires WellMarked(rest)
    ensures WellMarked(Middle(rest)) && WellMarked(Near(rest))
  {
  }

  lemma FarReads(env: Env, classify: Classifier, at: u64)
    requires classify("4") == Const(4) && classify("0x16") == Const(0x16)
    ensures ReadingAll(env, Far(), classify, true, at) == Some(((at as int) + 0x12) % 0x1_0000_0000_0000_0000)
  {
    var next: u64 := Wrap64((at as int) - 4);
    WrapSum(at, -4, 0x16);
    NumberFirst(env, Piece('-', "4"), 4, [Piece('+', "0x16")] + [], classify, at, next);
    NumberFirst(env, Piece('+', "0x16"), 0x16, [], classify, next, Wrap64((at as int) + 0x12));
  }

  lemma MiddleReads(env: Env, classify: Classifier, at: u64, c: u64, rest: seq<Piece>)
    requires classify("8") == Const(8) && c == ReadWord(env.mem, ((at as int) + 8) % 0x1_0000_0000_0000_0000)
    ensures ReadingAll(env, Middle(rest), classify, true, at) == ReadingAll(env, rest, classify, true, c)
  {
    var next: u64 := Wrap64((at as int) + 8);
    NumberFirst(env, Piece('+', "8"), 8, Hop(rest), classify, at, next);
    DotFirst(env, rest, classify, next);
  }

  lemma NearReads(env: Env, classify: Classifier, at: u64, b: u64, rest: seq<Piece>)
    requires classify("0x20") == Const(0x20) && classify("0x8") == Const(8)
    requires b == ReadWord(env.mem, ((at as int) + 0x18) % 0x1_0000_0000_0000_0000)
    ensures ReadingAll(env, Near(rest), classify, true, at) == ReadingAll(env, rest, classify, true, b)
  {
    var near: u64, next: u64 := Wrap64((at as int) + 0x20), Wrap64((at as int) + 0x18);
    WrapSum(at, 0x20, -8);
    NumberFirst(env, Piece('+', "0x20"), 0x20, [Piece('-', "0x8")] + Hop(rest), classify, at, near);
    NumberFirst(env, Piece('-', "0x8"), 8, Hop(rest), classify, near, next);
    DotFirst(env, rest, classify, next);
  }

  lemma DocumentedPieces(ps: seq<Piece>, mid: seq<Piece>, far: seq<Piece>)
    requires far == Far() && mid == Middle(far) && ps == Near(mid)
    ensures "sp" + Text(ps) == "sp+0x20-0x8.+8.-4+0x16" && WellMarked(ps)
  {
    FarText();
    HopText(far);
    HopText(mid);
    HopsAreMarked(far);
    HopsAreMarked(mid);
  }

  /**
   `sp+0x20-0x8.+8.-4+0x16`: 0x18 behind sp lies a pointer, 8 behind its target lies another, and 0x12 behind the target
   of that one is the address.
   */
  lemma DocumentedText(env: Env, classify: Classifier, at: u64, b: u64, c: u64)
    requires classify("sp") == Reg(31) && classify("0x20") == Const(0x20) && classify("0x8") == Const(8)
    requires classify("8") == Const(8) && classify("4") == Const(4) && classify("0x16") == Const(0x16)
    requires b == ReadWord(env.mem, ((env.regs[31] as int) + 0x18) % 0x1_0000_0000_0000_0000)
    requires c == ReadWord(env.mem, ((b as int) + 8) % 0x1_0000_0000_0000_0000)
    ensures var actions := Actions("sp+0x20-0x8.+8.-4+0x16", classify);
            AllAcceptable(actions, false)
            && Computed(env, actions, false, at) == ((c as int) + 0x12) % 0x1_0000_0000_0000_0000
  {
    var far := Far();
    var mid := Middle(far);
    var ps := Near(mid);
    FarReads(env, classify, c);
    MiddleReads(env, classify, b, c, far);
    NearReads(env, classify, env.regs[31], b, mid);
    PieceFirst(env, Piece('+', "sp"), ps, classify, false, at);
    DocumentedPieces(ps, mid, far);
    TextComputes(env, "sp", ps, classify, at, 0);
  }
}
