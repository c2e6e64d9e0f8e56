/** Constant folding: a binary `add`, `mul`, `or` or `shl` whose two operands are
    constants is replaced by one constant holding its value in unsigned 64-bit
    arithmetic. The blocks are visited in reverse postorder from the first block and
    each block from front to back. */
module ConstantFolding {
  import opened Wrappers
  import opened IrTypes
  import opened Instrs
  import opened BasicBlocks
  import opened Functions
  import opened PassCommon
  import Walks
  import Cfg
  import Rpo

  function Pow2(n: nat): (p: nat)
    ensures p >= 1
  {
    if n == 0 then 1 else 2 * Pow2(n - 1)
  }

  /** Reduction modulo 2^64, as unsigned arithmetic on `i64` does. */
  function Wrap(x: int): (r: u64)
    ensures 0 <= x < Two64 ==> r as int == x
    ensures r as int == x % Two64
  {
    (x % Two64) as u64
  }

  /** Bitwise or on naturals, one binary digit at a time from the lowest. */
  function BitOr(a: nat, b: nat): nat
    decreases a + b
  {
    if a == 0 then b
    else if b == 0 then a
    else 2 * BitOr(a / 2, b / 2) + (if a % 2 == 1 || b % 2 == 1 then 1 else 0)
  }

  /** Or-ing two numbers of `n` binary digits gives a number of `n` digits. */
  lemma {:induction false} BitOrBound(a: nat, b: nat, n: nat)
    requires a < Pow2(n) && b < Pow2(n)
    ensures BitOr(a, b) < Pow2(n)
    decreases n
  {
    if a != 0 && b != 0 {
      BitOrBound(a / 2, b / 2, n - 1);
    }
  }

  lemma {:induction false} Pow2Add(a: nat, b: nat)
    ensures Pow2(a + b) == Pow2(a) * Pow2(b)
    decreases a
  {
    if a != 0 {
      Pow2Add(a - 1, b);
      calc {
        Pow2(a + b);
        2 * Pow2(a - 1 + b);
        2 * (Pow2(a - 1) * Pow2(b));
        (2 * Pow2(a - 1)) * Pow2(b);
      }
    }
  }

  lemma Pow2Of64()
    ensures Pow2(64) == Two64
  {
    assert Pow2(1) == 2;
    Pow2Add(1, 1);
    assert Pow2(2) == 4;
    Pow2Add(2, 2);
    assert Pow2(4) == 16;
    Pow2Add(4, 4);
    assert Pow2(8) == 0x100;
    Pow2Add(8, 8);
    assert Pow2(16) == 0x1_0000;
    Pow2Add(16, 16);
    assert Pow2(32) == 0x1_0000_0000;
    Pow2Add(32, 32);
  }

  /** `|` on two 64-bit unsigned values. */
  function Or64(a: u64, b: u64): (r: u64)
    ensures r as int == BitOr(a as nat, b as nat)
  {
    Pow2Of64();
    BitOrBound(a as nat, b as nat, 64);
    BitOr(a as nat, b as nat) as u64
  }

  /** The operator `try_fold_binary_op` selects for a kind, applied to two constant
      values; `None` for a kind it has no operator for. A shift by 64 or more is
      undefined in the source; the model yields 0 there. */
  function FoldValue(kind: InstrType, a: u64, b: u64): (r: Option<u64>)
    ensures r.Some? <==> kind == KAdd || kind == KMul || kind == KOr || kind == KShl
  {
    match kind
    case KAdd => Some(Wrap(a as int + b as int))
    case KMul => Some(Wrap(a as int * b as int))
    case KOr => Some(Or64(a, b))
    case KShl => Some(if b < 64 then Wrap(a as int * Pow2(b as nat)) else 0)
    case _ => None
  }

  /** The identities the peephole pass relies on hold for the folded values, and the
      three symmetric operators do not depend on operand order. */
  lemma FoldValueLaws(a: u64, b: u64)
    ensures FoldValue(KAdd, a, b) == FoldValue(KAdd, b, a)
    ensures FoldValue(KMul, a, b) == FoldValue(KMul, b, a)
    ensures FoldValue(KOr, a, b) == FoldValue(KOr, b, a)
    ensures FoldValue(KAdd, a, 0) == Some(a)
    ensures FoldValue(KMul, a, 1) == Some(a) && FoldValue(KMul, 1, a) == Some(a)
    ensures FoldValue(KMul, a, 0) == Some(0) && FoldValue(KMul, 0, a) == Some(0)
    ensures FoldValue(KOr, a, 0) == Some(a) && FoldValue(KOr, 0, a) == Some(a)
    ensures FoldValue(KOr, a, a) == Some(a)
    ensures FoldValue(KShl, a, 0) == Some(a) && FoldValue(KShl, 0, b) == Some(0)
  {
    OrLaws(a);
    BitOrCommutes(a as nat, b as nat);
    if b < 64 {
      assert 0 * Pow2(b as nat) == 0;
    }
  }

  /** The identities of `|` the peephole pass relies on, on their own. */
  lemma {:induction false} OrLaws(a: u64)
    ensures FoldValue(KOr, a, 0) == Some(a) && FoldValue(KOr, 0, a) == Some(a)
    ensures FoldValue(KOr, a, a) == Some(a)
  {
    BitOrSelf(a as nat);
  }

  lemma {:induction false} BitOrSelf(a: nat)
    ensures BitOr(a, a) == a
  {
    if a != 0 {
      BitOrSelf(a / 2);
    }
  }

  lemma {:induction false} BitOrCommutes(a: nat, b: nat)
    ensures BitOr(a, b) == BitOr(b, a)
    decreases a + b
  {
    if a != 0 && b != 0 {
      BitOrCommutes(a / 2, b / 2);
    }
  }

  /** Sums and products wrap around at 2^64; comparisons have no operator. */
  lemma FoldValueWraps()
    ensures FoldValue(KAdd, 0xFFFF_FFFF_FFFF_FFFF, 1) == Some(0)
    ensures FoldValue(KMul, 0x1_0000_0000, 0x1_0000_0000) == Some(0)
    ensures FoldValue(KCmpLess, 1, 2) == None && FoldValue(KCmpLessEqual, 1, 2) == None
  {
  }

  /** What `try_fold_binary_op` decides for instruction `id`: a new constant when the
      instruction is binary, both operands are constants and its kind has an
      operator; otherwise no change. */
  function FoldRule(arena: seq<Instr>, id: InstrId): (rw: Rewrite)
    requires ArenaOk(arena) && id < |arena|
    ensures rw.Keep? || rw.NewConst?
    ensures Allowed(arena, id, rw)
  {
    var i := arena[id];
    if !i.BinInstr? then Keep
    else
      assert i.lhs in i.Operands() && i.rhs in i.Operands();
      if arena[i.lhs].Kind() != KConst || arena[i.rhs].Kind() != KConst then Keep
      else
        match FoldValue(i.kind, arena[i.lhs].value, arena[i.rhs].value)
        case Some(v) => NewConst(v)
        case None => Keep
  }

  /** A fold happens exactly for a binary `add`, `mul`, `or` or `shl` instruction
      with two constant operands, and the constant it creates holds the operator's
      value. */
  lemma FoldRuleMeaning(arena: seq<Instr>, id: InstrId)
    requires ArenaOk(arena) && id < |arena|
    ensures arena[id].BinInstr? ==> arena[id].lhs < |arena| && arena[id].rhs < |arena|
    ensures var i := arena[id];
      FoldRule(arena, id).NewConst? <==>
        (i.BinInstr? && i.kind in {KAdd, KMul, KOr, KShl} &&
         arena[i.lhs].ConstInstr? && arena[i.rhs].ConstInstr?)
    ensures var i := arena[id];
      FoldRule(arena, id).NewConst? ==>
        Some(FoldRule(arena, id).value) ==
          FoldValue(i.kind, arena[i.lhs].value, arena[i.rhs].value)
  {
    var i := arena[id];
    if i.BinInstr? {
      assert i.lhs in i.Operands() && i.rhs in i.Operands();
    }
  }

  /** The rule looks only at what `SameView` keeps. */
  lemma FoldRuleStable(a: seq<Instr>, b: seq<Instr>, y: InstrId)
    requires ArenaOk(a) && ArenaOk(b) && SameView(a, b, y)
    ensures FoldRule(a, y) == FoldRule(b, y)
  {
    if a[y].BinInstr? {
      assert a[y].Operands() == [a[y].lhs, a[y].rhs];
      assert b[y].Operands() == [b[y].lhs, b[y].rhs];
      assert a[y].lhs in a[y].Operands() && a[y].rhs in a[y].Operands();
    }
  }

  /** The loop of `apply` over one block, from cursor `pos` on, with the flag so far.
      A fold leaves the cursor on the new constant, and the loop then steps past it. */
  function FoldRun(arena: seq<Instr>, code: seq<InstrId>, pos: nat, changed: bool)
    : (r: (seq<Instr>, seq<InstrId>, bool))
    requires ArenaOk(arena) && CodeIn(arena, code) && pos <= |code|
    ensures ArenaOk(r.0) && CodeIn(r.0, r.1) && |arena| <= |r.0|
    ensures |r.1| == |code|
    decreases |code| - pos
  {
    if pos == |code| then (arena, code, changed)
    else if !IsBinary(arena[code[pos]].Kind()) then FoldRun(arena, code, pos + 1, changed)
    else
      var rw := FoldRule(arena, code[pos]);
      if rw.Keep? then FoldRun(arena, code, pos + 1, changed)
      else
        var s := ApplyRewrite(arena, code, pos, rw);
        FoldRun(s.0, s.1, pos + 1, true)
  }

  /** A step of the run that folds nothing moves the cursor on. */
  lemma FoldRunSkips(arena: seq<Instr>, code: seq<InstrId>, pos: nat, changed: bool)
    requires ArenaOk(arena) && CodeIn(arena, code) && pos < |code|
    requires !IsBinary(arena[code[pos]].Kind()) || FoldRule(arena, code[pos]).Keep?
    ensures FoldRun(arena, code, pos, changed) == FoldRun(arena, code, pos + 1, changed)
  {
  }

  /** A fold of the run: the run goes on after the new constant, which sits where
      the folded instruction was. */
  lemma FoldRunRewrites(arena: seq<Instr>, code: seq<InstrId>, pos: nat, changed: bool)
    requires ArenaOk(arena) && CodeIn(arena, code) && pos < |code|
    requires IsBinary(arena[code[pos]].Kind()) && !FoldRule(arena, code[pos]).Keep?
    ensures var s := ApplyRewrite(arena, code, pos, FoldRule(arena, code[pos]));
      ArenaOk(s.0) && CodeIn(s.0, s.1) && |s.1| == |code| &&
      s.1[..pos] == code[..pos] && s.1[pos] == |arena| &&
      FoldRun(arena, code, pos, changed) == FoldRun(s.0, s.1, pos + 1, true)
  {
    RewriteShape(arena, code, pos, FoldRule(arena, code[pos]));
  }

  /** The run never changes an instruction before its starting cursor. */
  lemma {:induction false} FoldRunFrame(arena: seq<Instr>, code: seq<InstrId>, pos: nat,
                                        changed: bool)
    requires ArenaOk(arena) && CodeIn(arena, code) && pos <= |code|
    ensures forall j :: 0 <= j < pos ==> FoldRun(arena, code, pos, changed).1[j] == code[j]
    decreases |code| - pos, 1
  {
    if pos < |code| {
      if !IsBinary(arena[code[pos]].Kind()) || FoldRule(arena, code[pos]).Keep? {
        FoldRunSkips(arena, code, pos, changed);
        FoldRunFrame(arena, code, pos + 1, changed);
      } else {
        FoldRewriteFrame(arena, code, pos, changed);
      }
    }
  }

  /** The case of `FoldRunFrame` where the instruction under the cursor is folded. */
  lemma {:induction false} FoldRewriteFrame(arena: seq<Instr>, code: seq<InstrId>, pos: nat,
                                            changed: bool)
    requires ArenaOk(arena) && CodeIn(arena, code) && pos < |code|
    requires IsBinary(arena[code[pos]].Kind()) && !FoldRule(arena, code[pos]).Keep?
    ensures var r := FoldRun(arena, code, pos, changed);
      forall j :: 0 <= j < pos + 1 ==> r.1[j] == (if j < pos then code[j] else |arena|)
    decreases |code| - pos, 0
  {
    var s := ApplyRewrite(arena, code, pos, FoldRule(arena, code[pos]));
    FoldRunRewrites(arena, code, pos, changed);
    FoldRunFrame(s.0, s.1, pos + 1, true);
    assert forall j :: 0 <= j < pos ==> s.1[j] == s.1[..pos][j];
  }

  /** `apply`'s flag: the run reports a change exactly when the block's instruction
      list is no longer the one it started from (or a change was already reported). */
  lemma {:induction false} FoldRunReportsChange(arena: seq<Instr>, code: seq<InstrId>, pos: nat,
                                                changed: bool)
    requires ArenaOk(arena) && CodeIn(arena, code) && pos <= |code|
    ensures var r := FoldRun(arena, code, pos, changed); r.2 == (changed || r.1 != code)
    decreases |code| - pos, 1
  {
    if pos < |code| {
      if !IsBinary(arena[code[pos]].Kind()) || FoldRule(arena, code[pos]).Keep? {
        FoldRunSkips(arena, code, pos, changed);
        FoldRunReportsChange(arena, code, pos + 1, changed);
      } else {
        FoldRewriteReportsChange(arena, code, pos, changed);
      }
    }
  }

  /** The case of `FoldRunReportsChange` where the instruction under the cursor is
      folded: the flag is set and the new constant stays in the block. */
  lemma {:induction false} FoldRewriteReportsChange(arena: seq<Instr>, code: seq<InstrId>,
                                                    pos: nat, changed: bool)
    requires ArenaOk(arena) && CodeIn(arena, code) && pos < |code|
    requires IsBinary(arena[code[pos]].Kind()) && !FoldRule(arena, code[pos]).Keep?
    ensures var r := FoldRun(arena, code, pos, changed); r.2 && r.1 != code
    decreases |code| - pos, 0
  {
    var s := ApplyRewrite(arena, code, pos, FoldRule(arena, code[pos]));
    FoldRunRewrites(arena, code, pos, changed);
    FoldRunReportsChange(s.0, s.1, pos + 1, true);
    FoldRewriteFrame(arena, code, pos, changed);
    var r := FoldRun(arena, code, pos, changed);
    assert r.1[pos] == |arena| && code[pos] < |arena|;
  }

  /** A well-formed block whose first `n` instructions admit no fold. */
  ghost predicate FoldSettled(arena: seq<Instr>, code: seq<InstrId>, n: nat) {
    BlockOk(arena, code) && n <= |code| && forall j :: 0 <= j < n ==> FoldRule(arena, code[j]).Keep?
  }

  /** One fold keeps the block well formed, and leaves every instruction up to and
      including the new constant admitting no fold. */
  lemma FoldStepSettles(arena: seq<Instr>, code: seq<InstrId>, pos: nat)
    requires FoldSettled(arena, code, pos) && pos < |code|
    requires FoldRule(arena, code[pos]).NewConst?
    ensures var s := ApplyRewrite(arena, code, pos, FoldRule(arena, code[pos]));
      FoldSettled(s.0, s.1, pos + 1)
  {
    var rw := FoldRule(arena, code[pos]);
    var s := ApplyRewrite(arena, code, pos, rw);
    RewriteKeepsEarlier(arena, code, pos, rw);
    RewriteKeepsBlock(arena, code, pos, rw);
    forall j | 0 <= j < pos + 1 ensures FoldRule(s.0, s.1[j]).Keep? {
      if j < pos && arena[code[j]].Kind() != KPhi {
        FoldRuleStable(arena, s.0, code[j]);
      }
    }
  }

  /** No fold is missed: started on a well-formed block whose instructions before the
      cursor admit no fold, the run leaves a well-formed block in which no instruction
      admits a fold; later folds never disturb earlier instructions. */
  lemma {:induction false} FoldRunSettles(arena: seq<Instr>, code: seq<InstrId>, pos: nat,
                                          changed: bool)
    requires FoldSettled(arena, code, pos)
    ensures var r := FoldRun(arena, code, pos, changed); FoldSettled(r.0, r.1, |r.1|)
    decreases |code| - pos, 1
  {
    if pos == |code| {
      assert FoldRun(arena, code, pos, changed) == (arena, code, changed);
    } else if !IsBinary(arena[code[pos]].Kind()) || FoldRule(arena, code[pos]).Keep? {
      FoldSkipSettles(arena, code, pos, changed);
    } else {
      FoldRewriteSettles(arena, code, pos, changed);
    }
  }

  /** The case of `FoldRunSettles` where the instruction under the cursor is left
      as it is. */
  lemma {:induction false} FoldSkipSettles(arena: seq<Instr>, code: seq<InstrId>, pos: nat,
                                           changed: bool)
    requires FoldSettled(arena, code, pos) && pos < |code|
    requires !IsBinary(arena[code[pos]].Kind()) || FoldRule(arena, code[pos]).Keep?
    ensures var r := FoldRun(arena, code, pos, changed); FoldSettled(r.0, r.1, |r.1|)
    decreases |code| - pos, 0
  {
    var x := code[pos];
    assert arena[x].BinInstr? ==> IsBinary(arena[x].kind);
    assert FoldRule(arena, x).Keep?;
    assert FoldSettled(arena, code, pos + 1);
    FoldRunSkips(arena, code, pos, changed);
    FoldRunSettles(arena, code, pos + 1, changed);
  }

  /** The case of `FoldRunSettles` where the instruction under the cursor is
      folded. */
  lemma {:induction false} FoldRewriteSettles(arena: seq<Instr>, code: seq<InstrId>, pos: nat,
                                              changed: bool)
    requires FoldSettled(arena, code, pos) && pos < |code|
    requires IsBinary(arena[code[pos]].Kind()) && !FoldRule(arena, code[pos]).Keep?
    ensures var r := FoldRun(arena, code, pos, changed); FoldSettled(r.0, r.1, |r.1|)
    decreases |code| - pos, 0
  {
    var s := ApplyRewrite(arena, code, pos, FoldRule(arena, code[pos]));
    FoldStepSettles(arena, code, pos);
    FoldRunRewrites(arena, code, pos, changed);
    FoldRunSettles(s.0, s.1, pos + 1, true);
  }

  /** The state the users-list lemmas of the run start from: a closed arena with
      consistent users lists in which no instruction of `gone` is an operand. */
  ghost predicate FoldUses(arena: seq<Instr>, code: seq<InstrId>, gone: set<InstrId>) {
    ArenaOk(arena) && CodeIn(arena, code) && UsesRecorded(arena) &&
    Unreferenced(arena, gone) && forall x :: x in gone ==> x < |arena|
  }

  /** One fold keeps the users lists consistent and leaves the folded instruction
      unreferenced; every other instruction stays in the block. */
  lemma FoldStepKeepsUses(arena: seq<Instr>, code: seq<InstrId>, pos: nat, gone: set<InstrId>)
    requires FoldUses(arena, code, gone) && pos < |code|
    requires !FoldRule(arena, code[pos]).Keep?
    ensures var s := ApplyRewrite(arena, code, pos, FoldRule(arena, code[pos]));
      FoldUses(s.0, s.1, gone + {code[pos]}) && forall x :: x in code ==> x == code[pos] || x in s.1
  {
    var rw := FoldRule(arena, code[pos]);
    RewriteKeepsUses(arena, code, pos, rw, gone);
    RewriteElems(arena, code, pos, rw);
  }

  /** The users lists stay consistent through the run, and no instruction the run
      removed from the block (nor one already in `gone`) is still an operand. */
  lemma {:induction false} FoldRunKeepsUses(arena: seq<Instr>, code: seq<InstrId>, pos: nat,
                                            changed: bool, gone: set<InstrId>)
    requires FoldUses(arena, code, gone) && pos <= |code|
    ensures var r := FoldRun(arena, code, pos, changed); KeptUses(code, r.0, r.1, gone)
    decreases |code| - pos, 1
  {
    if pos == |code| {
      assert Walks.Elems(code) - Walks.Elems(code) == {};
    } else if !IsBinary(arena[code[pos]].Kind()) || FoldRule(arena, code[pos]).Keep? {
      FoldRunSkips(arena, code, pos, changed);
      FoldRunKeepsUses(arena, code, pos + 1, changed, gone);
    } else {
      FoldRewriteKeepsUses(arena, code, pos, changed, gone);
    }
  }

  /** The case of `FoldRunKeepsUses` where the instruction under the cursor is
      folded. */
  lemma {:induction false} FoldRewriteKeepsUses(arena: seq<Instr>, code: seq<InstrId>, pos: nat,
                                                changed: bool, gone: set<InstrId>)
    requires FoldUses(arena, code, gone) && pos < |code|
    requires IsBinary(arena[code[pos]].Kind()) && !FoldRule(arena, code[pos]).Keep?
    ensures var r := FoldRun(arena, code, pos, changed); KeptUses(code, r.0, r.1, gone)
    decreases |code| - pos, 0
  {
    var s := ApplyRewrite(arena, code, pos, FoldRule(arena, code[pos]));
    FoldStepKeepsUses(arena, code, pos, gone);
    FoldRunRewrites(arena, code, pos, changed);
    FoldRunKeepsUses(s.0, s.1, pos + 1, true, gone + {code[pos]});
    var r := FoldRun(s.0, s.1, pos + 1, true);
    KeptUsesAcross(code, s.1, r.0, r.1, code[pos], gone);
  }

  /** The block the fixtures build for one binary operation on two constants, with
      users recorded as the builder records them. */
  function Sample(kind: InstrType, a: u64, b: u64): (s: seq<Instr>)
    ensures IsBinary(kind) ==> ArenaOk(s) && CodeIn(s, [0, 1, 2])
  {
    var s := [ConstInstr(a, [2]), ConstInstr(b, [2]), BinInstr(kind, 0, 1, [])];
    assert s[2].Operands() == [0, 1];
    assert forall x, op :: 0 <= x < |s| && op in s[x].Operands() ==> x == 2;
    s
  }

  /** On the fixture block the run folds the operation exactly when its kind has an
      operator, leaving the new constant as the last instruction and reporting it. */
  lemma FoldSample(kind: InstrType, a: u64, b: u64)
    requires IsBinary(kind)
    ensures var r := FoldRun(Sample(kind, a, b), [0, 1, 2], 0, false);
      match FoldValue(kind, a, b)
      case Some(v) => r.2 && r.1 == [0, 1, 3] && r.0[3] == ConstInstr(v, [])
      case None => !r.2 && r.1 == [0, 1, 2] && r.0 == Sample(kind, a, b)
  {
    var s := Sample(kind, a, b);
    assert FoldRun(s, [0, 1, 2], 0, false) == FoldRun(s, [0, 1, 2], 2, false);
    if FoldValue(kind, a, b).Some? {
      var v := FoldValue(kind, a, b).value;
      assert FoldRule(s, 2) == NewConst(v);
      var t := ApplyRewrite(s, [0, 1, 2], 2, NewConst(v));
      assert t.0 == s + [ConstInstr(v, [])];
      assert t.1 == [0, 1, 3];
    }
  }

  /** 0x52 | 0x812, worked digit by digit from the highest digits down. */
  lemma BitOrExample()
    ensures BitOr(0x52, 0x812) == 0x852
  {
    // 0x52 and 0x812 digit by digit, from the highest digits down.
    assert BitOr(1, 32) == 2 * BitOr(0, 16) + 1 == 33;
    assert BitOr(2, 64) == 2 * BitOr(1, 32) == 66;
    assert BitOr(5, 129) == 2 * BitOr(2, 64) + 1 == 133;
    assert BitOr(10, 258) == 2 * BitOr(5, 129) == 266;
    assert BitOr(20, 516) == 2 * BitOr(10, 258) == 532;
    assert BitOr(41, 1033) == 2 * BitOr(20, 516) + 1 == 1065;
    assert BitOr(0x52, 0x812) == 2 * BitOr(41, 1033) == 0x852;
  }

  /** The values of the fixtures' four folds. */
  lemma FoldExamples()
    ensures FoldValue(KAdd, 0x52, 0x812) == Some(0x864)
    ensures FoldValue(KMul, 0x52, 0x812) == Some(0x295C4)
    ensures FoldValue(KOr, 0x52, 0x812) == Some(0x852)
    ensures FoldValue(KShl, 0x52, 5) == Some(0xA40)
  {
    BitOrExample();
    assert Pow2(5) == 32;
  }

  /** Every block of the list names instructions of the arena. */
  ghost predicate CodesIn(arena: seq<Instr>, codes: seq<seq<InstrId>>) {
    forall b :: 0 <= b < |codes| ==> CodeIn(arena, codes[b])
  }

  /** `apply`: the run over each block of `order` in turn, starting each block's run
      at its first instruction and carrying the flag along. */
  function FoldAll(arena: seq<Instr>, codes: seq<seq<InstrId>>, order: seq<Cfg.BlockId>,
                   changed: bool): (r: (seq<Instr>, seq<seq<InstrId>>, bool))
    requires ArenaOk(arena) && CodesIn(arena, codes)
    requires forall k :: 0 <= k < |order| ==> order[k] < |codes|
    ensures ArenaOk(r.0) && |r.1| == |codes| && CodesIn(r.0, r.1) && |arena| <= |r.0|
    decreases |order|
  {
    if order == [] then (arena, codes, changed)
    else
      var b := order[0];
      var s := FoldRun(arena, codes[b], 0, changed);
      CodeInGrows(arena, s.0, codes);
      FoldAll(s.0, codes[b := s.1], order[1..], s.2)
  }

  /** One visit of `apply`'s outer loop. */
  lemma FoldAllStep(arena: seq<Instr>, codes: seq<seq<InstrId>>, order: seq<Cfg.BlockId>,
                    k: nat, changed: bool)
    requires ArenaOk(arena) && CodesIn(arena, codes) && k < |order|
    requires forall k :: 0 <= k < |order| ==> order[k] < |codes|
    ensures var s := FoldRun(arena, codes[order[k]], 0, changed);
      CodesIn(s.0, codes[order[k] := s.1]) &&
      FoldAll(arena, codes, order[k..], changed) ==
        FoldAll(s.0, codes[order[k] := s.1], order[k + 1..], s.2)
  {
    var s := FoldRun(arena, codes[order[k]], 0, changed);
    CodeInGrows(arena, s.0, codes);
    assert order[k..][1..] == order[k + 1..];
  }

  /** Blocks outside the order are left alone. */
  lemma {:induction false} FoldAllFrame(arena: seq<Instr>, codes: seq<seq<InstrId>>,
                                        order: seq<Cfg.BlockId>, changed: bool)
    requires ArenaOk(arena) && CodesIn(arena, codes)
    requires forall k :: 0 <= k < |order| ==> order[k] < |codes|
    ensures forall b :: 0 <= b < |codes| && b !in order ==>
      FoldAll(arena, codes, order, changed).1[b] == codes[b]
    decreases |order|
  {
    if order != [] {
      var s := FoldRun(arena, codes[order[0]], 0, changed);
      CodeInGrows(arena, s.0, codes);
      FoldAllFrame(s.0, codes[order[0] := s.1], order[1..], s.2);
    }
  }

  /** With each block visited once, `apply` returns true exactly when some block's
      instruction list changed (or a change was already reported). */
  lemma {:induction false} FoldAllReportsChange(arena: seq<Instr>, codes: seq<seq<InstrId>>,
                                                order: seq<Cfg.BlockId>, changed: bool)
    requires ArenaOk(arena) && CodesIn(arena, codes)
    requires forall k :: 0 <= k < |order| ==> order[k] < |codes|
    requires Walks.Distinct(order)
    ensures var r := FoldAll(arena, codes, order, changed); r.2 == (changed || r.1 != codes)
    decreases |order|
  {
    if order != [] {
      var b := order[0];
      var s := FoldRun(arena, codes[b], 0, changed);
      CodeInGrows(arena, s.0, codes);
      var codes2 := codes[b := s.1];
      assert Walks.Distinct(order[1..]);
      assert b !in order[1..];
      FoldRunReportsChange(arena, codes[b], 0, changed);
      FoldAllReportsChange(s.0, codes2, order[1..], s.2);
      FoldAllFrame(s.0, codes2, order[1..], s.2);
      var r := FoldAll(s.0, codes2, order[1..], s.2);
      assert r.1[b] == s.1;
      if s.1 == codes[b] {
        assert codes2 == codes;
      } else {
        assert r.1[b] != codes[b];
      }
    }
  }

  /** With each block visited once, the users lists stay consistent through the
      whole pass and no instruction removed from any block is still an operand. */
  lemma {:induction false} FoldAllKeepsUses(arena: seq<Instr>, codes: seq<seq<InstrId>>,
                                            order: seq<Cfg.BlockId>, changed: bool,
                                            gone: set<InstrId>)
    requires ArenaOk(arena) && CodesIn(arena, codes) && UsesRecorded(arena)
    requires forall k :: 0 <= k < |order| ==> order[k] < |codes|
    requires Walks.Distinct(order)
    requires Unreferenced(arena, gone) && forall x :: x in gone ==> x < |arena|
    ensures var r := FoldAll(arena, codes, order, changed);
      UsesRecorded(r.0) && Unreferenced(r.0, gone + Dropped(codes, r.1))
    decreases |order|
  {
    var r := FoldAll(arena, codes, order, changed);
    if order == [] {
      assert Dropped(codes, codes) == {};
    } else {
      var b := order[0];
      var s := FoldRun(arena, codes[b], 0, changed);
      CodeInGrows(arena, s.0, codes);
      var codes2 := codes[b := s.1];
      var gone2 := gone + (Walks.Elems(codes[b]) - Walks.Elems(s.1));
      assert Walks.Distinct(order[1..]);
      assert b !in order[1..];
      FoldRunKeepsUses(arena, codes[b], 0, changed, gone);
      assert forall x :: x in gone2 ==> x < |s.0|;
      FoldAllKeepsUses(s.0, codes2, order[1..], s.2, gone2);
      FoldAllFrame(s.0, codes2, order[1..], s.2);
      assert r.1[b] == s.1;
      DroppedStep(codes, b, s.1, r.1);
      UnreferencedMono(r.0, gone2 + Dropped(codes2, r.1), gone + Dropped(codes, r.1));
    }
  }

  /** `constant_folding`: a constant holding `v` goes in front of the instruction at
      `pos`, takes over all its users, and the instruction is erased; the cursor
      returned is that of the new constant. */
  method FoldInto(f: Function, b: nat, pos: nat, v: u64) returns (next: nat)
    requires f.Valid() && b < |f.blocks| && pos < |f.blocks[b].instrs|
    modifies f, f.blocks[b]
    ensures f.Valid() && f.blocks == old(f.blocks)
    ensures (f.arena, f.blocks[b].instrs) ==
      ApplyRewrite(old(f.arena), old(f.blocks[b].instrs), pos, NewConst(v))
    ensures next == pos
    ensures f.blocks[b].preds == old(f.blocks[b].preds)
  {
    var bb := f.blocks[b];
    ghost var a0 := f.arena;
    ghost var c0 := bb.instrs;
    var id := bb.instrs[pos];
    var k := f.Alloc(ConstInstr(v, []));
    ExtendOk(a0, v);
    var it := bb.Insert(k, pos);
    ReplaceInstrUses(f, id, k);
    var _ := bb.Erase(pos + 1);
    next := it;
    assert bb.instrs == c0[..pos] + [k] + c0[pos + 1..];
    assert (f.arena, bb.instrs) == ApplyRewrite(a0, c0, pos, NewConst(v));
    forall i | 0 <= i < |f.blocks| ensures CodeIn(f.arena, f.blocks[i].instrs) {
      if i != b {
        assert f.blocks[i] != bb;
      }
    }
  }

  /** `try_fold_binary_op` on the binary instruction at `pos`: both operands must be
      constants and the kind must have an operator; the result is the rewrite
      `FoldRule` describes, and whether it changed anything. */
  method TryFoldBinaryOp(f: Function, b: nat, pos: nat) returns (next: nat, folded: bool)
    requires f.Valid() && b < |f.blocks| && pos < |f.blocks[b].instrs|
    requires IsBinary(f.arena[f.blocks[b].instrs[pos]].Kind())
    modifies f, f.blocks[b]
    ensures f.Valid() && f.blocks == old(f.blocks)
    ensures (f.arena, f.blocks[b].instrs) ==
      ApplyRewrite(old(f.arena), old(f.blocks[b].instrs), pos,
                   FoldRule(old(f.arena), old(f.blocks[b].instrs[pos])))
    ensures folded <==> !FoldRule(old(f.arena), old(f.blocks[b].instrs[pos])).Keep?
    ensures next == pos
    ensures f.blocks[b].preds == old(f.blocks[b].preds)
  {
    var i := f.arena[f.blocks[b].instrs[pos]];
    assert i.lhs in i.Operands() && i.rhs in i.Operands();
    var lhs := f.arena[i.lhs];
    var rhs := f.arena[i.rhs];
    if lhs.Kind() != KConst || rhs.Kind() != KConst {
      return pos, false;
    }
    var op := FoldValue(i.kind, lhs.value, rhs.value);
    if op.Some? {
      next := FoldInto(f, b, pos, op.value);
      folded := true;
    } else {
      next, folded := pos, false;
    }
  }

  /** One round of the inner loop of `apply` at cursor `pos`: the cursor takes the
      position `try_fold_binary_op` returns and is then advanced. */
  method FoldAt(f: Function, b: nat, pos: nat, changed0: bool) returns (next: nat, changed: bool)
    requires f.Valid() && b < |f.blocks| && pos < |f.blocks[b].instrs|
    modifies f, f.blocks[b]
    ensures f.Valid() && f.blocks == old(f.blocks)
    ensures next == pos + 1 && |f.blocks[b].instrs| == old(|f.blocks[b].instrs|)
    ensures FoldRun(f.arena, f.blocks[b].instrs, next, changed) ==
      FoldRun(old(f.arena), old(f.blocks[b].instrs), pos, changed0)
    ensures f.blocks[b].preds == old(f.blocks[b].preds)
    ensures forall i :: 0 <= i < |f.blocks| && i != b ==> f.blocks[i].instrs == old(f.blocks[i].instrs)
  {
    var bb := f.blocks[b];
    changed := changed0;
    next := pos;
    if IsBinary(f.arena[bb.instrs[pos]].Kind()) {
      var at, folded := TryFoldBinaryOp(f, b, pos);
      if folded {
        changed := true;
        next := at;
      }
    }
    next := next + 1;
    forall i | 0 <= i < |f.blocks| && i != b ensures f.blocks[i].instrs == old(f.blocks[i].instrs) {
      assert f.blocks[i] != bb;
    }
  }

  /** The inner loop of `apply` over block `b`, proved to compute `FoldRun`. */
  method FoldBlock(f: Function, b: nat, changed0: bool) returns (changed: bool)
    requires f.Valid() && b < |f.blocks|
    modifies f, f.blocks[b]
    ensures f.Valid() && f.blocks == old(f.blocks)
    ensures (f.arena, f.blocks[b].instrs, changed) ==
      FoldRun(old(f.arena), old(f.blocks[b].instrs), 0, changed0)
    ensures CodesOf(f.blocks) == old(CodesOf(f.blocks))[b := f.blocks[b].instrs]
    ensures f.blocks[b].preds == old(f.blocks[b].preds)
  {
    var bb := f.blocks[b];
    ghost var a0 := f.arena;
    ghost var c0 := bb.instrs;
    changed := changed0;
    var pos: nat := 0;
    while pos < |bb.instrs|
      invariant f.Valid() && f.blocks == old(f.blocks) && pos <= |bb.instrs|
      invariant FoldRun(f.arena, bb.instrs, pos, changed) == FoldRun(a0, c0, 0, changed0)
      invariant bb.preds == old(bb.preds)
      invariant forall i :: 0 <= i < |f.blocks| && i != b ==> f.blocks[i].instrs == old(f.blocks[i].instrs)
      decreases |bb.instrs| - pos
    {
      pos, changed := FoldAt(f, b, pos, changed);
    }
  }

  /** One round of `apply`'s outer loop: block `b`, the `k`-th of the order. */
  method FoldVisit(f: Function, ghost order: seq<Cfg.BlockId>, ghost k: nat, b: nat,
                   changed0: bool) returns (changed: bool)
    requires f.Valid() && k < |order| && order[k] == b
    requires forall j :: 0 <= j < |order| ==> order[j] < |f.blocks|
    modifies f, f.blocks[b]
    ensures f.Valid() && f.blocks == old(f.blocks)
    ensures FoldAll(f.arena, CodesOf(f.blocks), order[k + 1..], changed) ==
      FoldAll(old(f.arena), old(CodesOf(f.blocks)), order[k..], changed0)
  {
    FoldAllStep(f.arena, CodesOf(f.blocks), order, k, changed0);
    changed := FoldBlock(f, b, changed0);
  }

  /** The loop of `apply`: blocks are visited in the order the buffer lists them. */
  method FoldOrder(f: Function, buf: seq<Option<Cfg.BlockId>>, ghost order: seq<Cfg.BlockId>)
    returns (changed: bool)
    requires f.Valid() && |buf| == |order|
    requires forall k :: 0 <= k < |buf| ==> buf[k] == Some(order[k])
    requires forall j :: 0 <= j < |order| ==> order[j] < |f.blocks|
    modifies f, f.blocks
    ensures f.Valid() && f.blocks == old(f.blocks)
    ensures (f.arena, CodesOf(f.blocks), changed) ==
      FoldAll(old(f.arena), old(CodesOf(f.blocks)), order, false)
  {
    ghost var a0 := f.arena;
    ghost var codes0 := CodesOf(f.blocks);
    changed := false;
    for k := 0 to |buf|
      invariant f.Valid() && f.blocks == old(f.blocks)
      invariant FoldAll(f.arena, CodesOf(f.blocks), order[k..], changed) ==
        FoldAll(a0, codes0, order, false)
    {
      changed := FoldVisit(f, order, k, buf[k].value, changed);
    }
    assert order[|buf|..] == [];
  }

  /** `apply`: every block, in reverse postorder from the first block, each block
      front to back; the result is `FoldAll` and whether anything was folded. All
      blocks are required to be reachable from the first, as the buffer that
      `rpo(begin(), size())` fills has no gaps only then. */
  method Apply(f: Function) returns (changed: bool)
    requires f.Valid() && |f.blocks| > 0
    requires |Rpo.RpoOrder(f.Graph(), 0)| == |f.blocks|
    modifies f, f.blocks
    ensures f.Valid() && f.blocks == old(f.blocks)
    ensures (f.arena, CodesOf(f.blocks), changed) ==
      FoldAll(old(f.arena), old(CodesOf(f.blocks)), old(PassOrder(f.Graph())), false)
  {
    var g := f.Graph();
    ghost var order := PassOrder(g);
    var buf := Rpo.Rpo(g, 0, f.Size());
    changed := FoldOrder(f, buf, order);
  }
}
