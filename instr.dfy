/** Instructions as tagged values. An instruction refers to its operands by id
    (an index into the function's instruction arena) and carries its users list:
    the ids of the instructions that take it as an operand. */
module Instrs {
  import opened IrTypes

  type InstrId = nat
  type BlockId = nat

  datatype Instr =
    | ConstInstr(value: u64, users: seq<InstrId>)
    | ArgInstr(ty: Type, users: seq<InstrId>)
    | BinInstr(kind: InstrType, lhs: InstrId, rhs: InstrId, users: seq<InstrId>)
    | JumpInstr(users: seq<InstrId>)
    | BranchInstr(cond: InstrId, users: seq<InstrId>)
    | ReturnInstr(ret: InstrId, users: seq<InstrId>)
    | PhiInstr(incoming: seq<(InstrId, BlockId)>, users: seq<InstrId>)
  {
    /** The kind fixed when the instruction was built. */
    function Kind(): InstrType {
      match this
      case ConstInstr(_, _) => KConst
      case ArgInstr(_, _) => KArg
      case BinInstr(k, _, _, _) => k
      case JumpInstr(_) => KJump
      case BranchInstr(_, _) => KBranch
      case ReturnInstr(_, _) => KReturn
      case PhiInstr(_, _) => KPhi
    }

    /** The operand ids, in operand order. */
    function Operands(): seq<InstrId> {
      match this
      case BinInstr(_, l, r, _) => [l, r]
      case BranchInstr(c, _) => [c]
      case ReturnInstr(v, _) => [v]
      case PhiInstr(inc, _) => IncomingValues(inc)
      case _ => []
    }
  }

  function IncomingValues(inc: seq<(InstrId, BlockId)>): (vs: seq<InstrId>)
    ensures |vs| == |inc|
    ensures forall k :: 0 <= k < |inc| ==> vs[k] == inc[k].0
  {
    if inc == [] then [] else IncomingValues(inc[..|inc| - 1]) + [inc[|inc| - 1].0]
  }

  /** Same class, same kind and, for a constant, same value: everything a rewrite
      rule looks at besides the operands. */
  predicate SameKind(a: Instr, b: Instr) {
    a.Kind() == b.Kind() && a.ConstInstr? == b.ConstInstr? && a.BinInstr? == b.BinInstr? &&
    (a.ConstInstr? && b.ConstInstr? ==> a.value == b.value)
  }

  /** Every entry equal to `from` replaced by `to`. */
  function Swap(s: seq<InstrId>, from: InstrId, to: InstrId): (r: seq<InstrId>)
    ensures |r| == |s|
  {
    seq(|s|, k requires 0 <= k < |s| => if s[k] == from then to else s[k])
  }

  /** What is in a swapped sequence: `to`, or an entry of `s` other than `from`. */
  lemma SwapMember(s: seq<InstrId>, from: InstrId, to: InstrId, x: InstrId)
    requires x in Swap(s, from, to)
    ensures x == to || (x in s && x != from)
  {
    var k :| 0 <= k < |s| && Swap(s, from, to)[k] == x;
    assert s[k] in s;
  }

  /** Swapping twice is swapping once. */
  lemma SwapTwice(s: seq<InstrId>, from: InstrId, to: InstrId)
    ensures Swap(Swap(s, from, to), from, to) == Swap(s, from, to)
  {
  }

  /** `replace_operand`: every operand equal to `from` becomes `to`; the kind,
      the users list and every other operand stay as they were. */
  function ReplaceOperand(i: Instr, from: InstrId, to: InstrId): (r: Instr)
    ensures r.Kind() == i.Kind() && r.users == i.users && SameKind(r, i)
    ensures |r.Operands()| == |i.Operands()|
    ensures forall k :: 0 <= k < |i.Operands()| ==>
      r.Operands()[k] == (if i.Operands()[k] == from then to else i.Operands()[k])
    ensures i.ConstInstr? ==> r == i
  {
    match i
    case BinInstr(k, l, rh, us) =>
      BinInstr(k, if l == from then to else l, if rh == from then to else rh, us)
    case BranchInstr(c, us) => BranchInstr(if c == from then to else c, us)
    case ReturnInstr(v, us) => ReturnInstr(if v == from then to else v, us)
    case PhiInstr(inc, us) => PhiInstr(ReplaceIncoming(inc, from, to), us)
    case _ => i
  }

  /** The operands after `replace_operand` are the swapped operands, and replacing a
      second time changes nothing more. */
  lemma ReplaceOperandSwaps(i: Instr, from: InstrId, to: InstrId)
    ensures ReplaceOperand(i, from, to).Operands() == Swap(i.Operands(), from, to)
    ensures ReplaceOperand(ReplaceOperand(i, from, to), from, to).Operands() ==
            ReplaceOperand(i, from, to).Operands()
  {
  }

  function ReplaceIncoming(inc: seq<(InstrId, BlockId)>, from: InstrId, to: InstrId)
    : (r: seq<(InstrId, BlockId)>)
    ensures |r| == |inc|
    ensures forall k :: 0 <= k < |inc| ==>
      r[k] == ((if inc[k].0 == from then to else inc[k].0), inc[k].1)
  {
    if inc == [] then []
    else
      var last := inc[|inc| - 1];
      ReplaceIncoming(inc[..|inc| - 1], from, to) + [(if last.0 == from then to else last.0, last.1)]
  }

  /** After replacing `from` by a different `to`, `from` is no longer an operand. */
  lemma ReplaceOperandRemoves(i: Instr, from: InstrId, to: InstrId)
    requires from != to
    ensures from !in ReplaceOperand(i, from, to).Operands()
    ensures forall x :: x in ReplaceOperand(i, from, to).Operands() ==> x == to || x in i.Operands()
  {
    var r := ReplaceOperand(i, from, to);
    forall x | x in r.Operands() ensures x != from && (x == to || x in i.Operands()) {
      var k :| 0 <= k < |r.Operands()| && r.Operands()[k] == x;
      assert i.Operands()[k] in i.Operands();
    }
  }

  /** `add_user`: appends one user at the end of the users list. */
  function AddUser(i: Instr, u: InstrId): (r: Instr)
    ensures r.Kind() == i.Kind() && r.Operands() == i.Operands() && SameKind(r, i)
    ensures r.users == i.users + [u]
    ensures i.ConstInstr? ==> r.ConstInstr? && r.value == i.value
  {
    i.(users := i.users + [u])
  }

  /** `PhiInstr::add_incoming`: appends exactly one (value, block) pair at the end. */
  function AddIncoming(phi: Instr, v: InstrId, bb: BlockId): (r: Instr)
    requires phi.PhiInstr?
    ensures r.PhiInstr? && r.users == phi.users
    ensures r.incoming == phi.incoming + [(v, bb)]
    ensures r.Operands() == phi.Operands() + [v]
  {
    PhiInstr(phi.incoming + [(v, bb)], phi.users)
  }
}
