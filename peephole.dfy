/** Peephole rewrites of single binary instructions: `mul` by 1 or 0, `or` with
    itself or with 0, and `shl` by 0 or of 0. A rule either forwards the users of
    the instruction to one of its operands and erases it, or (for a product with
    0) replaces it by a new constant 0. Blocks are visited in reverse postorder
    from the first block and each block from front to back. */
module Peephole {
  import opened Wrappers
  import opened IrTypes
  import opened Instrs
  import opened BasicBlocks
  import opened Functions
  import opened PassCommon
  import ConstantFolding
  import Walks
  import Cfg
  import Rpo

  /** Instruction `x` is a constant holding `v`. */
  predicate HoldsConst(arena: seq<Instr>, x: InstrId, v: u64) {
    x < |arena| && arena[x].ConstInstr? && arena[x].value == v
  }

  /** The lambda of `mul_peephole`, given the value of the constant operand and the
      other operand. */
  function MulWithConst(value: u64, other: InstrId): Rewrite {
    if value == 1 then Forward(other) else if value == 0 then NewConst(0) else Keep
  }

  /** The lambda of `or_peephole`, given the value of the constant operand and the
      other operand. */
  function OrWithConst(value: u64, other: InstrId): Rewrite {
    if value == 0 then Forward(other) else Keep
  }

  /** `mul_peephole`: the left operand is tried first, then the right one. */
  function MulRule(arena: seq<Instr>, id: InstrId): (rw: Rewrite)
    requires ArenaOk(arena) && id < |arena| && arena[id].BinInstr?
    ensures Allowed(arena, id, rw)
    ensures rw.NewConst? ==> rw.value == 0
  {
    var i := arena[id];
    assert i.lhs in i.Operands() && i.rhs in i.Operands();
    var first := if arena[i.lhs].Kind() == KConst then MulWithConst(arena[i.lhs].value, i.rhs)
                 else Keep;
    if !first.Keep? then first
    else if arena[i.rhs].Kind() == KConst then MulWithConst(arena[i.rhs].value, i.lhs)
    else Keep
  }

  /** `or_peephole`: equal operands first, then a constant 0 on the left, then one
      on the right. */
  function OrRule(arena: seq<Instr>, id: InstrId): (rw: Rewrite)
    requires ArenaOk(arena) && id < |arena| && arena[id].BinInstr?
    ensures Allowed(arena, id, rw)
    ensures !rw.NewConst?
  {
    var i := arena[id];
    assert i.lhs in i.Operands() && i.rhs in i.Operands();
    if i.lhs == i.rhs then Forward(i.rhs)
    else
      var first := if arena[i.lhs].Kind() == KConst then OrWithConst(arena[i.lhs].value, i.rhs)
                   else Keep;
      if !first.Keep? then first
      else if arena[i.rhs].Kind() == KConst then OrWithConst(arena[i.rhs].value, i.lhs)
      else Keep
  }

  /** `shl_peephole`: a shift by a constant 0 or of a constant 0 is its left operand. */
  function ShlRule(arena: seq<Instr>, id: InstrId): (rw: Rewrite)
    requires ArenaOk(arena) && id < |arena| && arena[id].BinInstr?
    ensures Allowed(arena, id, rw)
    ensures !rw.NewConst?
  {
    var i := arena[id];
    assert i.lhs in i.Operands() && i.rhs in i.Operands();
    if (arena[i.rhs].Kind() == KConst && arena[i.rhs].value == 0) ||
       (arena[i.lhs].Kind() == KConst && arena[i.lhs].value == 0)
    then Forward(i.lhs)
    else Keep
  }

  /** `try_binary_inst_peephole`: the rule of the instruction's kind; every other
      kind, and every instruction that is not binary, is left alone. */
  function PeepRule(arena: seq<Instr>, id: InstrId): (rw: Rewrite)
    requires ArenaOk(arena) && id < |arena|
    ensures Allowed(arena, id, rw)
    ensures !rw.Keep? ==> arena[id].BinInstr? && arena[id].Kind() != KPhi
    ensures rw.NewConst? ==> rw.value == 0
  {
    var i := arena[id];
    if !i.BinInstr? then Keep
    else
      match i.kind
      case KMul => MulRule(arena, id)
      case KOr => OrRule(arena, id)
      case KShl => ShlRule(arena, id)
      case _ => Keep
  }

  /** Exactly the instructions the three rules name are rewritten: a product with a
      constant 0 or 1, an `or` of an instruction with itself or with a constant 0,
      and a shift by or of a constant 0. */
  lemma PeepRuleMeaning(arena: seq<Instr>, id: InstrId)
    requires ArenaOk(arena) && id < |arena|
    ensures var i := arena[id];
      !PeepRule(arena, id).Keep? <==>
        (i.BinInstr? &&
         ((i.kind == KMul &&
           (HoldsConst(arena, i.lhs, 0) || HoldsConst(arena, i.lhs, 1) ||
            HoldsConst(arena, i.rhs, 0) || HoldsConst(arena, i.rhs, 1))) ||
          (i.kind == KOr &&
           (i.lhs == i.rhs || HoldsConst(arena, i.lhs, 0) || HoldsConst(arena, i.rhs, 0))) ||
          (i.kind == KShl && (HoldsConst(arena, i.lhs, 0) || HoldsConst(arena, i.rhs, 0)))))
  {
    var i := arena[id];
    if i.BinInstr? {
      assert i.lhs in i.Operands() && i.rhs in i.Operands();
    }
  }

  /** `v` is a value instruction `x` may hold: its own value if it is a constant. */
  predicate Consistent(arena: seq<Instr>, x: InstrId, v: u64) {
    x < |arena| && arena[x].ConstInstr? ==> arena[x].value == v
  }

  /** Every rewrite keeps the value: whatever values the operands hold (each
      constant operand its own value, and equal operands the same value), the
      instruction forwarded to holds the value of the operation, and a new constant
      holds that value too, in the unsigned 64-bit arithmetic of constant folding. */
  lemma PeepRuleSound(arena: seq<Instr>, id: InstrId, va: u64, vb: u64)
    requires ArenaOk(arena) && id < |arena| && arena[id].BinInstr?
    requires Consistent(arena, arena[id].lhs, va) && Consistent(arena, arena[id].rhs, vb)
    requires arena[id].lhs == arena[id].rhs ==> va == vb
    ensures var i := arena[id]; var rw := PeepRule(arena, id);
      rw.Forward? ==>
        (rw.to == i.lhs || rw.to == i.rhs) &&
        ConstantFolding.FoldValue(i.kind, va, vb) == Some(if rw.to == i.lhs then va else vb)
    ensures var i := arena[id]; var rw := PeepRule(arena, id);
      rw.NewConst? ==> ConstantFolding.FoldValue(i.kind, va, vb) == Some(rw.value)
  {
    var i := arena[id];
    assert i.lhs in i.Operands() && i.rhs in i.Operands();
    match i.kind
    case KMul => MulSound(arena, id, va, vb);
    case KOr => OrSound(arena, id, va, vb);
    case KShl => ShlSound(arena, id, va, vb);
    case _ =>
  }

  lemma MulSound(arena: seq<Instr>, id: InstrId, va: u64, vb: u64)
    requires ArenaOk(arena) && id < |arena| && arena[id].BinInstr? && arena[id].kind == KMul
    requires Consistent(arena, arena[id].lhs, va) && Consistent(arena, arena[id].rhs, vb)
    requires arena[id].lhs == arena[id].rhs ==> va == vb
    ensures var i := arena[id]; var rw := MulRule(arena, id);
      (rw.Forward? ==> ConstantFolding.FoldValue(KMul, va, vb) ==
                       Some(if rw.to == i.lhs then va else vb)) &&
      (rw.NewConst? ==> ConstantFolding.FoldValue(KMul, va, vb) == Some(rw.value))
  {
    var i := arena[id];
    assert i.lhs in i.Operands() && i.rhs in i.Operands();
    assert ConstantFolding.FoldValue(KMul, va, vb) ==
           Some(ConstantFolding.Wrap(va as int * vb as int));
  }

  lemma OrSound(arena: seq<Instr>, id: InstrId, va: u64, vb: u64)
    requires ArenaOk(arena) && id < |arena| && arena[id].BinInstr? && arena[id].kind == KOr
    requires Consistent(arena, arena[id].lhs, va) && Consistent(arena, arena[id].rhs, vb)
    requires arena[id].lhs == arena[id].rhs ==> va == vb
    ensures var i := arena[id]; var rw := OrRule(arena, id);
      rw.Forward? ==> ConstantFolding.FoldValue(KOr, va, vb) ==
                      Some(if rw.to == i.lhs then va else vb)
  {
    var i := arena[id];
    assert i.lhs in i.Operands() && i.rhs in i.Operands();
    ConstantFolding.OrLaws(va);
    ConstantFolding.OrLaws(vb);
  }

  lemma ShlSound(arena: seq<Instr>, id: InstrId, va: u64, vb: u64)
    requires ArenaOk(arena) && id < |arena| && arena[id].BinInstr? && arena[id].kind == KShl
    requires Consistent(arena, arena[id].lhs, va) && Consistent(arena, arena[id].rhs, vb)
    ensures var i := arena[id]; var rw := ShlRule(arena, id);
      rw.Forward? ==> rw.to == i.lhs && ConstantFolding.FoldValue(KShl, va, vb) == Some(va)
  {
    var i := arena[id];
    assert i.lhs in i.Operands() && i.rhs in i.Operands();
    if vb < 64 {
      assert 0 * ConstantFolding.Pow2(vb as nat) == 0;
    }
  }

  /** The rule looks only at what `SameView` keeps. */
  lemma PeepRuleStable(a: seq<Instr>, b: seq<Instr>, y: InstrId)
    requires ArenaOk(a) && ArenaOk(b) && SameView(a, b, y)
    ensures PeepRule(a, y) == PeepRule(b, y)
  {
    if a[y].BinInstr? {
      assert a[y].Operands() == [a[y].lhs, a[y].rhs];
      assert b[y].Operands() == [b[y].lhs, b[y].rhs];
      assert a[y].lhs in a[y].Operands() && a[y].rhs in a[y].Operands();
    }
  }

  /** A new constant lands under the cursor. */
  lemma NewConstLands(arena: seq<Instr>, code: seq<InstrId>, pos: nat, rw: Rewrite)
    requires ArenaOk(arena) && CodeIn(arena, code) && pos < |code|
    requires rw.Forward? ==> rw.to < |arena|
    ensures var s := ApplyRewrite(arena, code, pos, rw);
      rw.NewConst? ==> pos < |s.1| && s.1[pos] == |arena| && s.0[|arena|].Kind() == KConst
  {
    if rw.NewConst? {
      RewriteShape(arena, code, pos, rw);
      var s := ApplyRewrite(arena, code, pos, rw);
      assert RedirectedAt(Base(arena, rw), s.0, code[pos], Target(arena, rw),
                          arena[code[pos]].users, |arena|);
    }
  }

  /** 1 when the cursor is on a binary instruction, else 0: a rewrite that keeps
      the block's length leaves a constant under the cursor, so this drops. */
  function Pending(arena: seq<Instr>, code: seq<InstrId>, pos: nat): nat
    requires CodeIn(arena, code)
  {
    if pos < |code| && IsBinary(arena[code[pos]].Kind()) then 1 else 0
  }

  datatype PeepError = CursorPastEnd

  /** The loop of `apply` over one block as written: after any rewrite the cursor
      takes the returned position and is then advanced. After a forwarding rewrite
      that position is already the instruction that followed, so that instruction
      is skipped; when the erased instruction was the last one, the cursor is
      advanced past the end of the block, which the source leaves undefined. */
  function PeepRunAsWritten(arena: seq<Instr>, code: seq<InstrId>, pos: nat, changed: bool)
    : (r: Result<(seq<Instr>, seq<InstrId>, bool), PeepError>)
    requires ArenaOk(arena) && CodeIn(arena, code) && pos <= |code|
    ensures r.Success? ==> ArenaOk(r.value.0) && CodeIn(r.value.0, r.value.1)
    ensures r.Success? ==> |r.value.1| <= |code|
    decreases |code| - pos
  {
    if pos == |code| then Success((arena, code, changed))
    else if !IsBinary(arena[code[pos]].Kind()) then PeepRunAsWritten(arena, code, pos + 1, changed)
    else
      var rw := PeepRule(arena, code[pos]);
      if rw.Keep? then PeepRunAsWritten(arena, code, pos + 1, changed)
      else
        var s := ApplyRewrite(arena, code, pos, rw);
        if pos == |s.1| then Failure(CursorPastEnd)
        else PeepRunAsWritten(s.0, s.1, pos + 1, true)
  }

  /** The loop of `apply` over one block with the cursor handling evidently
      intended: after a rewrite the loop goes on from the returned position without
      advancing, so the instruction that followed an erased one is examined too. */
  function PeepRun(arena: seq<Instr>, code: seq<InstrId>, pos: nat, changed: bool)
    : (r: (seq<Instr>, seq<InstrId>, bool))
    requires ArenaOk(arena) && CodeIn(arena, code) && pos <= |code|
    ensures ArenaOk(r.0) && CodeIn(r.0, r.1) && |arena| <= |r.0|
    ensures pos <= |r.1| <= |code|
    decreases |code| - pos, Pending(arena, code, pos)
  {
    if pos == |code| then (arena, code, changed)
    else if !IsBinary(arena[code[pos]].Kind()) then PeepRun(arena, code, pos + 1, changed)
    else
      var rw := PeepRule(arena, code[pos]);
      if rw.Keep? then PeepRun(arena, code, pos + 1, changed)
      else
        var s := ApplyRewrite(arena, code, pos, rw);
        NewConstLands(arena, code, pos, rw);
        PeepRun(s.0, s.1, pos, true)
  }

  /** A fixture arena in which instructions 0 and 1 are constants, instruction 2 a
      product of 0 and 1, and every further instruction a product of two earlier
      ones, is well formed. */
  lemma FixtureOk(s: seq<Instr>)
    requires 3 <= |s| && s[0].ConstInstr? && s[1].ConstInstr? && s[2] == BinInstr(KMul, 0, 1, s[2].users)
    requires forall x :: 3 <= x < |s| ==> s[x].BinInstr? && s[x].kind == KMul && s[x].lhs < x && s[x].rhs < x
    requires forall x, u :: 0 <= x < |s| && u in s[x].users ==> u < |s|
    ensures ArenaOk(s)
  {
    forall x, op | 0 <= x < |s| && op in s[x].Operands() ensures op < |s| {
      if x >= 2 {
        assert s[x].Operands() == [s[x].lhs, s[x].rhs];
      }
    }
  }

  /** The fixture of a product whose right operand is the constant 1 and which is
      the last instruction of its block. */
  function TrailingMul(): (s: seq<Instr>)
    ensures ArenaOk(s) && CodeIn(s, [0, 1, 2])
  {
    var s := [ConstInstr(0x52, [2]), ConstInstr(1, [2]), BinInstr(KMul, 0, 1, [])];
    FixtureOk(s);
    s
  }

  /** As written, forwarding the last instruction of a block advances the cursor
      past the end; the corrected loop erases the product and stops. */
  lemma TrailingMulAsWritten()
    ensures PeepRunAsWritten(TrailingMul(), [0, 1, 2], 0, false) == Failure(CursorPastEnd)
    ensures PeepRun(TrailingMul(), [0, 1, 2], 0, false).1 == [0, 1]
    ensures PeepRun(TrailingMul(), [0, 1, 2], 0, false).2
  {
    var s := TrailingMul();
    assert s[2].Operands() == [0, 1];
    assert PeepRule(s, 2) == Forward(0);
    var t := ApplyRewrite(s, [0, 1, 2], 2, Forward(0));
    assert t.1 == [0, 1];
    assert PeepRunAsWritten(s, [0, 1, 2], 0, false) == PeepRunAsWritten(s, [0, 1, 2], 2, false);
    assert PeepRun(s, [0, 1, 2], 0, false) == PeepRun(s, [0, 1, 2], 2, false);
  }

  /** The fixture of two products by the constant 1 in a row, the second taking the
      first as its left operand. */
  function ChainedMul(): (s: seq<Instr>)
    ensures ArenaOk(s) && CodeIn(s, [0, 1, 2, 3])
  {
    var s := [ConstInstr(5, [2]), ConstInstr(1, [2, 3]), BinInstr(KMul, 0, 1, [3]),
              BinInstr(KMul, 2, 1, [])];
    FixtureOk(s);
    s
  }

  /** Forwarding the first product of `ChainedMul` to the constant 5 leaves the
      second product multiplying 5 by 1, which its rule forwards to 5 too. */
  lemma ChainedFirstRewrite()
    ensures var t := ApplyRewrite(ChainedMul(), [0, 1, 2, 3], 2, Forward(0));
      ArenaOk(t.0) && CodeIn(t.0, t.1) && t.1 == [0, 1, 3] && PeepRule(t.0, 3) == Forward(0)
  {
    var s := ChainedMul();
    var code := [0, 1, 2, 3];
    var t := ApplyRewrite(s, code, 2, Forward(0));
    RewriteShape(s, code, 2, Forward(0));
    assert t.1 == [0, 1, 3];
    assert RedirectedAt(s, t.0, 2, 0, [3], 3);
    assert RedirectedAt(s, t.0, 2, 0, [3], 0);
    assert RedirectedAt(s, t.0, 2, 0, [3], 1);
    assert t.0[3].Operands() == [0, 1] && t.0[3].BinInstr? && t.0[3].kind == KMul;
    assert t.0[0].ConstInstr? && t.0[0].value == 5;
    assert t.0[1].ConstInstr? && t.0[1].value == 1;
  }

  /** As written, the cursor steps past the second product after the first one
      is erased. */
  lemma ChainedRunAsWritten()
    ensures var t := ApplyRewrite(ChainedMul(), [0, 1, 2, 3], 2, Forward(0));
      PeepRunAsWritten(ChainedMul(), [0, 1, 2, 3], 0, false) == Success((t.0, t.1, true))
  {
    var s := ChainedMul();
    var code := [0, 1, 2, 3];
    assert s[2].Operands() == [0, 1];
    assert PeepRule(s, 2) == Forward(0);
    ChainedFirstRewrite();
    var t := ApplyRewrite(s, code, 2, Forward(0));
    assert PeepRunAsWritten(s, code, 0, false) == PeepRunAsWritten(s, code, 2, false);
  }

  /** The corrected run examines the second product and forwards it as well. */
  lemma ChainedRunCorrected()
    ensures PeepRun(ChainedMul(), [0, 1, 2, 3], 0, false).1 == [0, 1]
  {
    var s := ChainedMul();
    var code := [0, 1, 2, 3];
    assert s[2].Operands() == [0, 1];
    assert PeepRule(s, 2) == Forward(0);
    ChainedFirstRewrite();
    var t := ApplyRewrite(s, code, 2, Forward(0));
    assert PeepRun(s, code, 0, false) == PeepRun(s, code, 2, false) == PeepRun(t.0, t.1, 2, true);
    var u := ApplyRewrite(t.0, t.1, 2, Forward(0));
    RewriteShape(t.0, t.1, 2, Forward(0));
    assert u.1 == [0, 1];
  }

  /** As written, once the first product is forwarded the second one, which now
      multiplies the constant 5 by 1, is skipped and stays in the block although its
      rule would rewrite it; the corrected loop rewrites both. */
  lemma ChainedMulAsWritten()
    ensures var r := PeepRunAsWritten(ChainedMul(), [0, 1, 2, 3], 0, false);
      r.Success? && r.value.1 == [0, 1, 3] && r.value.0[3].BinInstr? &&
      PeepRule(r.value.0, 3) == Forward(0)
    ensures PeepRun(ChainedMul(), [0, 1, 2, 3], 0, false).1 == [0, 1]
  {
    ChainedFirstRewrite();
    ChainedRunAsWritten();
    ChainedRunCorrected();
  }

  /** A step of the corrected run that rewrites nothing moves the cursor on. */
  lemma PeepRunSkips(arena: seq<Instr>, code: seq<InstrId>, pos: nat, changed: bool)
    requires ArenaOk(arena) && CodeIn(arena, code) && pos < |code|
    requires !IsBinary(arena[code[pos]].Kind()) || PeepRule(arena, code[pos]).Keep?
    ensures PeepRun(arena, code, pos, changed) == PeepRun(arena, code, pos + 1, changed)
  {
  }

  /** One rewrite of the corrected run: the run goes on from the same cursor over
      the rewritten block, which is shorter or has a constant under the cursor. */
  lemma PeepRunRewrites(arena: seq<Instr>, code: seq<InstrId>, pos: nat, changed: bool)
    requires ArenaOk(arena) && CodeIn(arena, code) && pos < |code|
    requires IsBinary(arena[code[pos]].Kind()) && !PeepRule(arena, code[pos]).Keep?
    ensures var s := ApplyRewrite(arena, code, pos, PeepRule(arena, code[pos]));
      ArenaOk(s.0) && CodeIn(s.0, s.1) && pos <= |s.1| && |s.1| <= |code| &&
      (|s.1| == |code| ==> Pending(s.0, s.1, pos) == 0) &&
      PeepRun(arena, code, pos, changed) == PeepRun(s.0, s.1, pos, true)
  {
    NewConstLands(arena, code, pos, PeepRule(arena, code[pos]));
  }

  /** The run never changes an instruction before its starting cursor. */
  lemma {:induction false} PeepRunFrame(arena: seq<Instr>, code: seq<InstrId>, pos: nat,
                                        changed: bool)
    requires ArenaOk(arena) && CodeIn(arena, code) && pos <= |code|
    ensures forall j :: 0 <= j < pos ==> PeepRun(arena, code, pos, changed).1[j] == code[j]
    decreases |code| - pos, Pending(arena, code, pos), 1
  {
    if pos < |code| {
      if !IsBinary(arena[code[pos]].Kind()) || PeepRule(arena, code[pos]).Keep? {
        PeepRunFrame(arena, code, pos + 1, changed);
      } else {
        PeepRewriteFrame(arena, code, pos, changed);
      }
    }
  }

  /** The case of `PeepRunFrame` where the instruction under the cursor is
      rewritten. */
  lemma {:induction false} PeepRewriteFrame(arena: seq<Instr>, code: seq<InstrId>, pos: nat,
                                            changed: bool)
    requires ArenaOk(arena) && CodeIn(arena, code) && pos < |code|
    requires IsBinary(arena[code[pos]].Kind()) && !PeepRule(arena, code[pos]).Keep?
    ensures forall j :: 0 <= j < pos ==> PeepRun(arena, code, pos, changed).1[j] == code[j]
    decreases |code| - pos, Pending(arena, code, pos), 0
  {
    var rw := PeepRule(arena, code[pos]);
    var s := ApplyRewrite(arena, code, pos, rw);
    RewriteKeepsPrefix(arena, code, pos, rw);
    PeepRunRewrites(arena, code, pos, changed);
    PeepRunFrame(s.0, s.1, pos, true);
    assert forall j :: 0 <= j < pos ==> s.1[j] == s.1[..pos][j];
  }

  /** After a new constant the block differs from the one the run started from:
      the constant stays under the cursor for good. */
  lemma NewConstShows(arena: seq<Instr>, code: seq<InstrId>, pos: nat, v: u64)
    requires ArenaOk(arena) && CodeIn(arena, code) && pos < |code|
    ensures var s := ApplyRewrite(arena, code, pos, NewConst(v));
      PeepRun(s.0, s.1, pos, true).1 != code
  {
    var s := ApplyRewrite(arena, code, pos, NewConst(v));
    NewConstLands(arena, code, pos, NewConst(v));
    assert PeepRun(s.0, s.1, pos, true) == PeepRun(s.0, s.1, pos + 1, true);
    PeepRunFrame(s.0, s.1, pos + 1, true);
    assert PeepRun(s.0, s.1, pos, true).1[pos] == |arena| && code[pos] < |arena|;
  }

  /** `apply`'s flag: the run reports a change exactly when the block's instruction
      list is no longer the one it started from (or a change was already reported). */
  lemma {:induction false} PeepRunReportsChange(arena: seq<Instr>, code: seq<InstrId>, pos: nat,
                                                changed: bool)
    requires ArenaOk(arena) && CodeIn(arena, code) && pos <= |code|
    ensures var r := PeepRun(arena, code, pos, changed); r.2 == (changed || r.1 != code)
    decreases |code| - pos, Pending(arena, code, pos), 1
  {
    if pos < |code| {
      if !IsBinary(arena[code[pos]].Kind()) || PeepRule(arena, code[pos]).Keep? {
        PeepRunReportsChange(arena, code, pos + 1, changed);
      } else {
        PeepRewriteReportsChange(arena, code, pos, changed);
      }
    }
  }

  /** The case of `PeepRunReportsChange` where the instruction under the cursor is
      rewritten: the flag is set, and the block is shorter or holds the new
      constant. */
  lemma {:induction false} PeepRewriteReportsChange(arena: seq<Instr>, code: seq<InstrId>,
                                                    pos: nat, changed: bool)
    requires ArenaOk(arena) && CodeIn(arena, code) && pos < |code|
    requires IsBinary(arena[code[pos]].Kind()) && !PeepRule(arena, code[pos]).Keep?
    ensures var r := PeepRun(arena, code, pos, changed); r.2 && r.1 != code
    decreases |code| - pos, Pending(arena, code, pos), 0
  {
    var rw := PeepRule(arena, code[pos]);
    var s := ApplyRewrite(arena, code, pos, rw);
    PeepRunRewrites(arena, code, pos, changed);
    PeepRunReportsChange(s.0, s.1, pos, true);
    if rw.NewConst? {
      NewConstShows(arena, code, pos, rw.value);
    } else {
      RewriteShape(arena, code, pos, rw);
    }
  }

  /** A well-formed block whose first `n` instructions admit no rewrite. */
  ghost predicate PeepSettled(arena: seq<Instr>, code: seq<InstrId>, n: nat) {
    BlockOk(arena, code) && n <= |code| && forall j :: 0 <= j < n ==> PeepRule(arena, code[j]).Keep?
  }

  /** One rewrite keeps the block well formed and leaves every instruction before
      the cursor admitting no rewrite. */
  lemma PeepStepSettles(arena: seq<Instr>, code: seq<InstrId>, pos: nat)
    requires PeepSettled(arena, code, pos) && pos < |code|
    requires !PeepRule(arena, code[pos]).Keep?
    ensures var s := ApplyRewrite(arena, code, pos, PeepRule(arena, code[pos]));
      PeepSettled(s.0, s.1, pos)
  {
    var rw := PeepRule(arena, code[pos]);
    var s := ApplyRewrite(arena, code, pos, rw);
    RewriteKeepsEarlier(arena, code, pos, rw);
    RewriteKeepsBlock(arena, code, pos, rw);
    forall j | 0 <= j < pos ensures PeepRule(s.0, s.1[j]).Keep? {
      if arena[code[j]].Kind() != KPhi {
        PeepRuleStable(arena, s.0, code[j]);
      }
    }
  }

  /** No rewrite is missed: started on a well-formed block whose instructions before
      the cursor admit no rewrite, the corrected run leaves a well-formed block in
      which no instruction admits one. */
  lemma {:induction false} PeepRunSettles(arena: seq<Instr>, code: seq<InstrId>, pos: nat,
                                          changed: bool)
    requires PeepSettled(arena, code, pos)
    ensures var r := PeepRun(arena, code, pos, changed); PeepSettled(r.0, r.1, |r.1|)
    decreases |code| - pos, Pending(arena, code, pos), 1
  {
    if pos == |code| {
      assert PeepRun(arena, code, pos, changed) == (arena, code, changed);
    } else if !IsBinary(arena[code[pos]].Kind()) || PeepRule(arena, code[pos]).Keep? {
      PeepSkipSettles(arena, code, pos, changed);
    } else {
      PeepRewriteSettles(arena, code, pos, changed);
    }
  }

  /** The case of `PeepRunSettles` where the instruction under the cursor is left
      as it is. */
  lemma {:induction false} PeepSkipSettles(arena: seq<Instr>, code: seq<InstrId>, pos: nat,
                                           changed: bool)
    requires PeepSettled(arena, code, pos) && pos < |code|
    requires !IsBinary(arena[code[pos]].Kind()) || PeepRule(arena, code[pos]).Keep?
    ensures var r := PeepRun(arena, code, pos, changed); PeepSettled(r.0, r.1, |r.1|)
    decreases |code| - pos, Pending(arena, code, pos), 0
  {
    assert PeepRule(arena, code[pos]).Keep?;
    PeepRunSkips(arena, code, pos, changed);
    PeepRunSettles(arena, code, pos + 1, changed);
  }

  /** The case of `PeepRunSettles` where the instruction under the cursor is
      rewritten. */
  lemma {:induction false} PeepRewriteSettles(arena: seq<Instr>, code: seq<InstrId>, pos: nat,
                                              changed: bool)
    requires PeepSettled(arena, code, pos) && pos < |code|
    requires IsBinary(arena[code[pos]].Kind()) && !PeepRule(arena, code[pos]).Keep?
    ensures var r := PeepRun(arena, code, pos, changed); PeepSettled(r.0, r.1, |r.1|)
    decreases |code| - pos, Pending(arena, code, pos), 0
  {
    var s := ApplyRewrite(arena, code, pos, PeepRule(arena, code[pos]));
    PeepStepSettles(arena, code, pos);
    PeepRunRewrites(arena, code, pos, changed);
    PeepRunSettles(s.0, s.1, pos, true);
  }

  /** Rank 0 for every instruction past the end of `rank`. */
  function RankAt(rank: seq<nat>, x: InstrId): nat {
    if x < |rank| then rank[x] else 0
  }

  /** `rank` orders the arena: every operand of an instruction other than a phi has
      a smaller rank than the instruction, so only phis close cycles. Instructions
      created after `rank` was fixed have rank 0. */
  ghost predicate Ranked(arena: seq<Instr>, rank: seq<nat>) {
    |rank| <= |arena| &&
    forall x, op {:trigger RankAt(rank, op), RankAt(rank, x)} ::
      0 <= x < |arena| && arena[x].Kind() != KPhi && op in arena[x].Operands() ==>
        RankAt(rank, op) < RankAt(rank, x)
  }

  /** No instruction other than a phi is its own operand. */
  lemma RankedNoSelf(arena: seq<Instr>, rank: seq<nat>, x: InstrId)
    requires Ranked(arena, rank) && x < |arena| && arena[x].Kind() != KPhi
    ensures x !in arena[x].Operands()
  {
    assert forall y :: y in arena[x].Operands() ==> RankAt(rank, y) < RankAt(rank, x);
  }

  /** A rewrite of an instruction other than a phi keeps the arena ordered by the
      same ranks: forwarding goes to an operand, which ranks lower, and a new
      constant has no operands. */
  lemma RewriteKeepsRanked(arena: seq<Instr>, code: seq<InstrId>, pos: nat, rw: Rewrite,
                           rank: seq<nat>)
    requires ArenaOk(arena) && CodeIn(arena, code) && pos < |code|
    requires Allowed(arena, code[pos], rw) && !rw.Keep? && arena[code[pos]].Kind() != KPhi
    requires Ranked(arena, rank)
    ensures Ranked(ApplyRewrite(arena, code, pos, rw).0, rank)
  {
    var r := ApplyRewrite(arena, code, pos, rw).0;
    var from := code[pos];
    var base := Base(arena, rw);
    var to := Target(arena, rw);
    var users := arena[from].users;
    RewriteShape(arena, code, pos, rw);
    assert RankAt(rank, to) < RankAt(rank, from) || RankAt(rank, to) == 0;
    forall x, op | 0 <= x < |r| && r[x].Kind() != KPhi && op in r[x].Operands()
      ensures RankAt(rank, op) < RankAt(rank, x)
    {
      assert RedirectedAt(base, r, from, to, users, x);
      if x < |arena| {
        assert base[x] == arena[x];
        if op !in arena[x].Operands() {
          if from !in arena[x].Operands() {
            SwapAbsent(arena[x].Operands(), from, to);
          }
          SwapMember(arena[x].Operands(), from, to, op);
        }
      }
    }
  }

  /** What the users reasoning carries along a run: a closed arena whose users
      lists are consistent, a block of its instructions, instructions `gone` that
      nothing refers to, and ranks that order the arena. */
  ghost predicate UseState(arena: seq<Instr>, code: seq<InstrId>, gone: set<InstrId>,
                           rank: seq<nat>) {
    ArenaOk(arena) && CodeIn(arena, code) && UsesRecorded(arena) &&
    Unreferenced(arena, gone) && (forall x :: x in gone ==> x < |arena|) && Ranked(arena, rank)
  }

  /** One rewrite keeps the users lists consistent and the ranks, and makes the
      rewritten instruction unreferenced. */
  lemma PeepStepKeepsUses(arena: seq<Instr>, code: seq<InstrId>, pos: nat, gone: set<InstrId>,
                          rank: seq<nat>)
    requires UseState(arena, code, gone, rank) && pos < |code|
    requires !PeepRule(arena, code[pos]).Keep?
    ensures var s := ApplyRewrite(arena, code, pos, PeepRule(arena, code[pos]));
      UseState(s.0, s.1, gone + {code[pos]}, rank) &&
      forall x :: x in code ==> x == code[pos] || x in s.1
  {
    var rw := PeepRule(arena, code[pos]);
    RankedNoSelf(arena, rank, code[pos]);
    RewriteKeepsRanked(arena, code, pos, rw, rank);
    RewriteKeepsUses(arena, code, pos, rw, gone);
    RewriteElems(arena, code, pos, rw);
  }

  /** After a run from `code` to `(r0, r1)`: the users lists are consistent, no
      instruction of `gone` or dropped from the block is an operand, and `rank`
      still orders the arena. */
  ghost predicate UsesKept(code: seq<InstrId>, r0: seq<Instr>, r1: seq<InstrId>,
                           gone: set<InstrId>, rank: seq<nat>) {
    KeptUses(code, r0, r1, gone) && Ranked(r0, rank)
  }

  /** The users lists stay consistent through the run, no instruction the run
      removed from the block (nor one already in `gone`) is still an operand, and
      the arena stays ordered by the same ranks. */
  lemma {:induction false} PeepRunKeepsUses(arena: seq<Instr>, code: seq<InstrId>, pos: nat,
                                            changed: bool, gone: set<InstrId>, rank: seq<nat>)
    requires UseState(arena, code, gone, rank) && pos <= |code|
    ensures var r := PeepRun(arena, code, pos, changed); UsesKept(code, r.0, r.1, gone, rank)
    decreases |code| - pos, Pending(arena, code, pos), 1
  {
    if pos == |code| {
      assert Walks.Elems(code) - Walks.Elems(code) == {};
    } else if !IsBinary(arena[code[pos]].Kind()) || PeepRule(arena, code[pos]).Keep? {
      PeepRunKeepsUses(arena, code, pos + 1, changed, gone, rank);
    } else {
      PeepRewriteKeepsUses(arena, code, pos, changed, gone, rank);
    }
  }

  /** The case of `PeepRunKeepsUses` where the instruction under the cursor is
      rewritten. */
  lemma {:induction false} PeepRewriteKeepsUses(arena: seq<Instr>, code: seq<InstrId>, pos: nat,
                                                changed: bool, gone: set<InstrId>,
                                                rank: seq<nat>)
    requires UseState(arena, code, gone, rank) && pos < |code|
    requires IsBinary(arena[code[pos]].Kind()) && !PeepRule(arena, code[pos]).Keep?
    ensures var r := PeepRun(arena, code, pos, changed); UsesKept(code, r.0, r.1, gone, rank)
    decreases |code| - pos, Pending(arena, code, pos), 0
  {
    var rw := PeepRule(arena, code[pos]);
    var s := ApplyRewrite(arena, code, pos, rw);
    PeepStepKeepsUses(arena, code, pos, gone, rank);
    PeepRunRewrites(arena, code, pos, changed);
    PeepRunKeepsUses(s.0, s.1, pos, true, gone + {code[pos]}, rank);
    var r := PeepRun(s.0, s.1, pos, true);
    KeptUsesAcross(code, s.1, r.0, r.1, code[pos], gone);
  }

  /** `apply`: the corrected run over each block of `order` in turn, starting each
      block's run at its first instruction and carrying the flag along. */
  function PeepAll(arena: seq<Instr>, codes: seq<seq<InstrId>>, order: seq<Cfg.BlockId>,
                   changed: bool): (r: (seq<Instr>, seq<seq<InstrId>>, bool))
    requires ArenaOk(arena) && ConstantFolding.CodesIn(arena, codes)
    requires forall k :: 0 <= k < |order| ==> order[k] < |codes|
    ensures ArenaOk(r.0) && |r.1| == |codes| && ConstantFolding.CodesIn(r.0, r.1)
    ensures |arena| <= |r.0|
    decreases |order|
  {
    if order == [] then (arena, codes, changed)
    else
      var b := order[0];
      var s := PeepRun(arena, codes[b], 0, changed);
      CodeInGrows(arena, s.0, codes);
      PeepAll(s.0, codes[b := s.1], order[1..], s.2)
  }

  /** One visit of `apply`'s outer loop. */
  lemma PeepAllStep(arena: seq<Instr>, codes: seq<seq<InstrId>>, order: seq<Cfg.BlockId>,
                    k: nat, changed: bool)
    requires ArenaOk(arena) && ConstantFolding.CodesIn(arena, codes) && k < |order|
    requires forall k :: 0 <= k < |order| ==> order[k] < |codes|
    ensures var s := PeepRun(arena, codes[order[k]], 0, changed);
      ConstantFolding.CodesIn(s.0, codes[order[k] := s.1]) &&
      PeepAll(arena, codes, order[k..], changed) ==
        PeepAll(s.0, codes[order[k] := s.1], order[k + 1..], s.2)
  {
    var s := PeepRun(arena, codes[order[k]], 0, changed);
    CodeInGrows(arena, s.0, codes);
    assert order[k..][1..] == order[k + 1..];
  }

  /** Blocks outside the order are left alone. */
  lemma {:induction false} PeepAllFrame(arena: seq<Instr>, codes: seq<seq<InstrId>>,
                                        order: seq<Cfg.BlockId>, changed: bool)
    requires ArenaOk(arena) && ConstantFolding.CodesIn(arena, codes)
    requires forall k :: 0 <= k < |order| ==> order[k] < |codes|
    ensures forall b :: 0 <= b < |codes| && b !in order ==>
      PeepAll(arena, codes, order, changed).1[b] == codes[b]
    decreases |order|
  {
    if order != [] {
      var s := PeepRun(arena, codes[order[0]], 0, changed);
      CodeInGrows(arena, s.0, codes);
      PeepAllFrame(s.0, codes[order[0] := s.1], order[1..], s.2);
    }
  }

  /** With each block visited once, `apply` returns true exactly when some block's
      instruction list changed (or a change was already reported). */
  lemma {:induction false} PeepAllReportsChange(arena: seq<Instr>, codes: seq<seq<InstrId>>,
                                                order: seq<Cfg.BlockId>, changed: bool)
    requires ArenaOk(arena) && ConstantFolding.CodesIn(arena, codes)
    requires forall k :: 0 <= k < |order| ==> order[k] < |codes|
    requires Walks.Distinct(order)
    ensures var r := PeepAll(arena, codes, order, changed); r.2 == (changed || r.1 != codes)
    decreases |order|
  {
    if order != [] {
      var b := order[0];
      var s := PeepRun(arena, codes[b], 0, changed);
      CodeInGrows(arena, s.0, codes);
      var codes2 := codes[b := s.1];
      assert Walks.Distinct(order[1..]);
      assert b !in order[1..];
      PeepRunReportsChange(arena, codes[b], 0, changed);
      PeepAllReportsChange(s.0, codes2, order[1..], s.2);
      PeepAllFrame(s.0, codes2, order[1..], s.2);
      var r := PeepAll(s.0, codes2, order[1..], s.2);
      assert r.1[b] == s.1;
      if s.1 == codes[b] {
        assert codes2 == codes;
      } else {
        assert r.1[b] != codes[b];
      }
    }
  }

  /** With each block visited once, the users lists stay consistent through the
      whole pass, no instruction removed from any block is still an operand, and
      the ranks still order the arena. */
  lemma {:induction false} PeepAllKeepsUses(arena: seq<Instr>, codes: seq<seq<InstrId>>,
                                            order: seq<Cfg.BlockId>, changed: bool,
                                            gone: set<InstrId>, rank: seq<nat>)
    requires ArenaOk(arena) && ConstantFolding.CodesIn(arena, codes) && UsesRecorded(arena)
    requires forall k :: 0 <= k < |order| ==> order[k] < |codes|
    requires Walks.Distinct(order)
    requires Unreferenced(arena, gone) && (forall x :: x in gone ==> x < |arena|)
    requires Ranked(arena, rank)
    ensures var r := PeepAll(arena, codes, order, changed);
      UsesRecorded(r.0) && Unreferenced(r.0, gone + Dropped(codes, r.1)) && Ranked(r.0, rank)
    decreases |order|
  {
    var r := PeepAll(arena, codes, order, changed);
    if order == [] {
      assert Dropped(codes, codes) == {};
    } else {
      var b := order[0];
      var s := PeepRun(arena, codes[b], 0, changed);
      CodeInGrows(arena, s.0, codes);
      var codes2 := codes[b := s.1];
      var gone2 := gone + (Walks.Elems(codes[b]) - Walks.Elems(s.1));
      assert Walks.Distinct(order[1..]);
      assert b !in order[1..];
      PeepRunKeepsUses(arena, codes[b], 0, changed, gone, rank);
      assert forall x :: x in gone2 ==> x < |s.0|;
      PeepAllKeepsUses(s.0, codes2, order[1..], s.2, gone2, rank);
      PeepAllFrame(s.0, codes2, order[1..], s.2);
      assert r.1[b] == s.1;
      DroppedStep(codes, b, s.1, r.1);
      UnreferencedMono(r.0, gone2 + Dropped(codes2, r.1), gone + Dropped(codes, r.1));
    }
  }

  /** The forwarding step of all three rules: `replace_instr_uses` onto `to`, then
      `erase`; the cursor returned is that of the instruction that followed. */
  method ForwardTo(f: Function, b: nat, pos: nat, to: InstrId) returns (next: nat)
    requires f.Valid() && b < |f.blocks| && pos < |f.blocks[b].instrs| && to < |f.arena|
    modifies f, f.blocks[b]
    ensures f.Valid() && f.blocks == old(f.blocks)
    ensures (f.arena, f.blocks[b].instrs) ==
      ApplyRewrite(old(f.arena), old(f.blocks[b].instrs), pos, Forward(to))
    ensures next == pos
    ensures f.blocks[b].preds == old(f.blocks[b].preds)
  {
    var bb := f.blocks[b];
    ghost var a0 := f.arena;
    ghost var c0 := bb.instrs;
    var id := bb.instrs[pos];
    ReplaceInstrUses(f, id, to);
    next := bb.Erase(pos);
    assert (f.arena, bb.instrs) == ApplyRewrite(a0, c0, pos, Forward(to));
    forall i | 0 <= i < |f.blocks| ensures CodeIn(f.arena, f.blocks[i].instrs) {
      if i != b {
        assert f.blocks[i] != bb;
      }
    }
  }

  /** The lambda of `mul_peephole` on the instruction at `pos`. */
  method MulWithConstant(f: Function, b: nat, pos: nat, value: u64, operand: InstrId)
    returns (next: nat, rewritten: bool)
    requires f.Valid() && b < |f.blocks| && pos < |f.blocks[b].instrs| && operand < |f.arena|
    modifies f, f.blocks[b]
    ensures f.Valid() && f.blocks == old(f.blocks)
    ensures (f.arena, f.blocks[b].instrs) ==
      ApplyRewrite(old(f.arena), old(f.blocks[b].instrs), pos, MulWithConst(value, operand))
    ensures rewritten <==> !MulWithConst(value, operand).Keep?
    ensures next == pos
    ensures f.blocks[b].preds == old(f.blocks[b].preds)
  {
    if value == 1 {
      next := ForwardTo(f, b, pos, operand);
      rewritten := true;
    } else if value == 0 {
      next := ConstantFolding.FoldInto(f, b, pos, 0);
      rewritten := true;
    } else {
      next, rewritten := pos, false;
    }
  }

  /** `mul_peephole` on the product at `pos`: the rewrite `MulRule` describes. */
  method MulPeephole(f: Function, b: nat, pos: nat) returns (next: nat, rewritten: bool)
    requires f.Valid() && b < |f.blocks| && pos < |f.blocks[b].instrs|
    requires f.arena[f.blocks[b].instrs[pos]].BinInstr?
    modifies f, f.blocks[b]
    ensures f.Valid() && f.blocks == old(f.blocks)
    ensures (f.arena, f.blocks[b].instrs) ==
      ApplyRewrite(old(f.arena), old(f.blocks[b].instrs), pos,
                   MulRule(old(f.arena), old(f.blocks[b].instrs[pos])))
    ensures rewritten <==> !MulRule(old(f.arena), old(f.blocks[b].instrs[pos])).Keep?
    ensures next == pos
    ensures f.blocks[b].preds == old(f.blocks[b].preds)
  {
    var i := f.arena[f.blocks[b].instrs[pos]];
    assert i.lhs in i.Operands() && i.rhs in i.Operands();
    var lhs := f.arena[i.lhs];
    var rhs := f.arena[i.rhs];
    if lhs.Kind() == KConst {
      next, rewritten := MulWithConstant(f, b, pos, lhs.value, i.rhs);
      if rewritten {
        return;
      }
    }
    if rhs.Kind() == KConst {
      next, rewritten := MulWithConstant(f, b, pos, rhs.value, i.lhs);
      return;
    }
    next, rewritten := pos, false;
  }

  /** The lambda of `or_peephole` on the instruction at `pos`. */
  method OrWithConstant(f: Function, b: nat, pos: nat, value: u64, operand: InstrId)
    returns (next: nat, rewritten: bool)
    requires f.Valid() && b < |f.blocks| && pos < |f.blocks[b].instrs| && operand < |f.arena|
    modifies f, f.blocks[b]
    ensures f.Valid() && f.blocks == old(f.blocks)
    ensures (f.arena, f.blocks[b].instrs) ==
      ApplyRewrite(old(f.arena), old(f.blocks[b].instrs), pos, OrWithConst(value, operand))
    ensures rewritten <==> !OrWithConst(value, operand).Keep?
    ensures next == pos
    ensures f.blocks[b].preds == old(f.blocks[b].preds)
  {
    if value == 0 {
      next := ForwardTo(f, b, pos, operand);
      rewritten := true;
    } else {
      next, rewritten := pos, false;
    }
  }

  /** `or_peephole` on the instruction at `pos`: the rewrite `OrRule` describes. */
  method OrPeephole(f: Function, b: nat, pos: nat) returns (next: nat, rewritten: bool)
    requires f.Valid() && b < |f.blocks| && pos < |f.blocks[b].instrs|
    requires f.arena[f.blocks[b].instrs[pos]].BinInstr?
    modifies f, f.blocks[b]
    ensures f.Valid() && f.blocks == old(f.blocks)
    ensures (f.arena, f.blocks[b].instrs) ==
      ApplyRewrite(old(f.arena), old(f.blocks[b].instrs), pos,
                   OrRule(old(f.arena), old(f.blocks[b].instrs[pos])))
    ensures rewritten <==> !OrRule(old(f.arena), old(f.blocks[b].instrs[pos])).Keep?
    ensures next == pos
    ensures f.blocks[b].preds == old(f.blocks[b].preds)
  {
    var i := f.arena[f.blocks[b].instrs[pos]];
    assert i.lhs in i.Operands() && i.rhs in i.Operands();
    if i.lhs == i.rhs {
      next := ForwardTo(f, b, pos, i.rhs);
      rewritten := true;
      return;
    }
    var lhs := f.arena[i.lhs];
    var rhs := f.arena[i.rhs];
    if lhs.Kind() == KConst {
      next, rewritten := OrWithConstant(f, b, pos, lhs.value, i.rhs);
      if rewritten {
        return;
      }
    }
    if rhs.Kind() == KConst {
      next, rewritten := OrWithConstant(f, b, pos, rhs.value, i.lhs);
      return;
    }
    next, rewritten := pos, false;
  }

  /** `shl_peephole` on the instruction at `pos`: the rewrite `ShlRule` describes. */
  method ShlPeephole(f: Function, b: nat, pos: nat) returns (next: nat, rewritten: bool)
    requires f.Valid() && b < |f.blocks| && pos < |f.blocks[b].instrs|
    requires f.arena[f.blocks[b].instrs[pos]].BinInstr?
    modifies f, f.blocks[b]
    ensures f.Valid() && f.blocks == old(f.blocks)
    ensures (f.arena, f.blocks[b].instrs) ==
      ApplyRewrite(old(f.arena), old(f.blocks[b].instrs), pos,
                   ShlRule(old(f.arena), old(f.blocks[b].instrs[pos])))
    ensures rewritten <==> !ShlRule(old(f.arena), old(f.blocks[b].instrs[pos])).Keep?
    ensures next == pos
    ensures f.blocks[b].preds == old(f.blocks[b].preds)
  {
    var i := f.arena[f.blocks[b].instrs[pos]];
    assert i.lhs in i.Operands() && i.rhs in i.Operands();
    var lhs := f.arena[i.lhs];
    var rhs := f.arena[i.rhs];
    if (rhs.Kind() == KConst && rhs.value == 0) || (lhs.Kind() == KConst && lhs.value == 0) {
      next := ForwardTo(f, b, pos, i.lhs);
      rewritten := true;
    } else {
      next, rewritten := pos, false;
    }
  }

  /** `try_binary_inst_peephole` on the binary instruction at `pos`: the rewrite
      `PeepRule` describes, and whether it changed anything. */
  method TryBinaryInstPeephole(f: Function, b: nat, pos: nat) returns (next: nat, rewritten: bool)
    requires f.Valid() && b < |f.blocks| && pos < |f.blocks[b].instrs|
    requires IsBinary(f.arena[f.blocks[b].instrs[pos]].Kind())
    modifies f, f.blocks[b]
    ensures f.Valid() && f.blocks == old(f.blocks)
    ensures (f.arena, f.blocks[b].instrs) ==
      ApplyRewrite(old(f.arena), old(f.blocks[b].instrs), pos,
                   PeepRule(old(f.arena), old(f.blocks[b].instrs[pos])))
    ensures rewritten <==> !PeepRule(old(f.arena), old(f.blocks[b].instrs[pos])).Keep?
    ensures next == pos
    ensures f.blocks[b].preds == old(f.blocks[b].preds)
  {
    var i := f.arena[f.blocks[b].instrs[pos]];
    match i.kind
    case KMul => next, rewritten := MulPeephole(f, b, pos);
    case KOr => next, rewritten := OrPeephole(f, b, pos);
    case KShl => next, rewritten := ShlPeephole(f, b, pos);
    case _ => next, rewritten := pos, false;
  }

  /** What the corrected inner loop makes progress on: the instructions still
      ahead of the cursor, counted twice, and whether the one under it is binary. */
  function Progress(arena: seq<Instr>, code: seq<InstrId>, pos: nat): nat
    requires CodeIn(arena, code) && pos <= |code|
  {
    2 * (|code| - pos) + Pending(arena, code, pos)
  }

  /** One round of the inner loop of `apply` at cursor `pos`, with the corrected
      cursor handling: after a rewrite the cursor stays on the returned position. */
  method PeepAt(f: Function, b: nat, pos: nat, changed0: bool) returns (next: nat, changed: bool)
    requires f.Valid() && b < |f.blocks| && pos < |f.blocks[b].instrs|
    modifies f, f.blocks[b]
    ensures f.Valid() && f.blocks == old(f.blocks) && next <= |f.blocks[b].instrs|
    ensures PeepRun(f.arena, f.blocks[b].instrs, next, changed) ==
      PeepRun(old(f.arena), old(f.blocks[b].instrs), pos, changed0)
    ensures Progress(f.arena, f.blocks[b].instrs, next) <
      old(Progress(f.arena, f.blocks[b].instrs, pos))
    ensures f.blocks[b].preds == old(f.blocks[b].preds)
    ensures forall i :: 0 <= i < |f.blocks| && i != b ==> f.blocks[i].instrs == old(f.blocks[i].instrs)
  {
    var bb := f.blocks[b];
    changed := changed0;
    if !IsBinary(f.arena[bb.instrs[pos]].Kind()) {
      next := pos + 1;
    } else {
      ghost var a1 := f.arena;
      ghost var c1 := bb.instrs;
      var at, rewritten := TryBinaryInstPeephole(f, b, pos);
      if rewritten {
        NewConstLands(a1, c1, pos, PeepRule(a1, c1[pos]));
        changed := true;
        next := at;
      } else {
        next := pos + 1;
      }
    }
    forall i | 0 <= i < |f.blocks| && i != b ensures f.blocks[i].instrs == old(f.blocks[i].instrs) {
      assert f.blocks[i] != bb;
    }
  }

  /** The inner loop of `apply` over block `b` with the corrected cursor handling,
      proved to compute `PeepRun`. */
  method PeepBlock(f: Function, b: nat, changed0: bool) returns (changed: bool)
    requires f.Valid() && b < |f.blocks|
    modifies f, f.blocks[b]
    ensures f.Valid() && f.blocks == old(f.blocks)
    ensures (f.arena, f.blocks[b].instrs, changed) ==
      PeepRun(old(f.arena), old(f.blocks[b].instrs), 0, changed0)
    ensures CodesOf(f.blocks) == old(CodesOf(f.blocks))[b := f.blocks[b].instrs]
    ensures f.blocks[b].preds == old(f.blocks[b].preds)
  {
    var bb := f.blocks[b];
    ghost var a0 := f.arena;
    ghost var c0 := bb.instrs;
    changed := changed0;
    var pos: nat := 0;
    while pos < |bb.instrs|
      invariant f.Valid() && f.blocks == old(f.blocks) && pos <= |bb.instrs|
      invariant PeepRun(f.arena, bb.instrs, pos, changed) == PeepRun(a0, c0, 0, changed0)
      invariant bb.preds == old(bb.preds)
      invariant forall i :: 0 <= i < |f.blocks| && i != b ==> f.blocks[i].instrs == old(f.blocks[i].instrs)
      decreases Progress(f.arena, bb.instrs, pos)
    {
      pos, changed := PeepAt(f, b, pos, changed);
    }
  }

  /** One round of `apply`'s outer loop: block `b`, the `k`-th of the order. */
  method PeepVisit(f: Function, ghost order: seq<Cfg.BlockId>, ghost k: nat, b: nat,
                   changed0: bool) returns (changed: bool)
    requires f.Valid() && k < |order| && order[k] == b
    requires forall j :: 0 <= j < |order| ==> order[j] < |f.blocks|
    modifies f, f.blocks[b]
    ensures f.Valid() && f.blocks == old(f.blocks)
    ensures PeepAll(f.arena, CodesOf(f.blocks), order[k + 1..], changed) ==
      PeepAll(old(f.arena), old(CodesOf(f.blocks)), order[k..], changed0)
  {
    PeepAllStep(f.arena, CodesOf(f.blocks), order, k, changed0);
    changed := PeepBlock(f, b, changed0);
  }

  /** The loop of `apply`: blocks are visited in the order the buffer lists them. */
  method PeepOrder(f: Function, buf: seq<Option<Cfg.BlockId>>, ghost order: seq<Cfg.BlockId>)
    returns (changed: bool)
    requires f.Valid() && |buf| == |order|
    requires forall k :: 0 <= k < |buf| ==> buf[k] == Some(order[k])
    requires forall j :: 0 <= j < |order| ==> order[j] < |f.blocks|
    modifies f, f.blocks
    ensures f.Valid() && f.blocks == old(f.blocks)
    ensures (f.arena, CodesOf(f.blocks), changed) ==
      PeepAll(old(f.arena), old(CodesOf(f.blocks)), order, false)
  {
    ghost var a0 := f.arena;
    ghost var codes0 := CodesOf(f.blocks);
    changed := false;
    for k := 0 to |buf|
      invariant f.Valid() && f.blocks == old(f.blocks)
      invariant PeepAll(f.arena, CodesOf(f.blocks), order[k..], changed) ==
        PeepAll(a0, codes0, order, false)
    {
      changed := PeepVisit(f, order, k, buf[k].value, changed);
    }
    assert order[|buf|..] == [];
  }

  /** `apply`: every block, in reverse postorder from the first block, each block
      front to back with the corrected cursor handling; the result is `PeepAll` and
      whether anything was rewritten. All blocks are required to be reachable from
      the first, as the buffer that `rpo(begin(), size())` fills has no gaps only
      then. */
  method Apply(f: Function) returns (changed: bool)
    requires f.Valid() && |f.blocks| > 0
    requires |Rpo.RpoOrder(f.Graph(), 0)| == |f.blocks|
    modifies f, f.blocks
    ensures f.Valid() && f.blocks == old(f.blocks)
    ensures (f.arena, CodesOf(f.blocks), changed) ==
      PeepAll(old(f.arena), old(CodesOf(f.blocks)), old(PassOrder(f.Graph())), false)
  {
    var g := f.Graph();
    ghost var order := PassOrder(g);
    var buf := Rpo.Rpo(g, 0, f.Size());
    changed := PeepOrder(f, buf, order);
  }
}
