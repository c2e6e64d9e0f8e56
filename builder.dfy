/** The IR builder: a cursor made of the current function and the current block.
    Every `create_*` call appends one instruction to the current block and wires
    successor slots and predecessor lists in place. Creating an instruction gives it
    the next id of the function's arena and records it as a user of each of its
    operands, which is what keeps the def-use lists the passes rely on. */
module Builders {
  import opened Wrappers
  import opened IrTypes
  import opened Instrs
  import opened BasicBlocks
  import opened Functions
  import Peephole
  import Cfg

  /** The arena after instruction `i` is created: `i` takes the next id, and that
      id is appended to the users list of each operand of `i`, once per operand
      instruction; nothing else changes. */
  function Created(arena: seq<Instr>, i: Instr): (r: seq<Instr>)
    requires forall op :: op in i.Operands() ==> op < |arena|
    ensures |r| == |arena| + 1 && r[|arena|] == i
    ensures forall x :: 0 <= x < |arena| ==>
      r[x] == if x in i.Operands() then AddUser(arena[x], |arena|) else arena[x]
  {
    seq(|arena| + 1, x requires 0 <= x <= |arena| =>
      if x == |arena| then i
      else if x in i.Operands() then AddUser(arena[x], |arena|)
      else arena[x])
  }

  /** Every operand of an instruction other than a phi was created before it. */
  ghost predicate Ordered(arena: seq<Instr>) {
    forall x, op :: 0 <= x < |arena| && arena[x].Kind() != KPhi && op in arena[x].Operands() ==> op < x
  }

  /** Creating an instruction keeps every earlier instruction `x` apart from its
      users list, which gains at most the new id. */
  lemma CreatedAt(arena: seq<Instr>, i: Instr, x: nat)
    requires forall op :: op in i.Operands() ==> op < |arena|
    requires x < |arena| + 1
    ensures var r := Created(arena, i); var old_x := if x < |arena| then arena[x] else i;
      r[x].Operands() == old_x.Operands() && r[x].Kind() == old_x.Kind() &&
      r[x].BinInstr? == old_x.BinInstr? &&
      (forall u :: u in old_x.users ==> u in r[x].users) &&
      (forall u :: u in r[x].users ==> u in old_x.users || u == |arena|)
  {
  }

  /** Creating a well-formed instruction keeps the arena closed. */
  lemma CreatedArenaOk(arena: seq<Instr>, i: Instr)
    requires ArenaOk(arena)
    requires forall op :: op in i.Operands() ==> op < |arena|
    requires forall u :: u in i.users ==> u <= |arena|
    requires i.BinInstr? ==> IsBinary(i.kind)
    ensures ArenaOk(Created(arena, i))
  {
    var r := Created(arena, i);
    forall x, op | 0 <= x < |r| && op in r[x].Operands() ensures op < |r| {
      CreatedAt(arena, i, x);
    }
    forall x, u | 0 <= x < |r| && u in r[x].users ensures u < |r| {
      CreatedAt(arena, i, x);
    }
    forall x | 0 <= x < |r| && r[x].BinInstr? ensures IsBinary(r[x].kind) {
      CreatedAt(arena, i, x);
      assert r[x].Kind() == r[x].kind;
    }
  }

  /** Creating an instruction keeps the def-use lists complete: the new id is recorded
      with each of its operands. */
  lemma CreatedUses(arena: seq<Instr>, i: Instr)
    requires ArenaOk(arena) && UsesRecorded(arena)
    requires forall op :: op in i.Operands() ==> op < |arena|
    ensures UsesRecorded(Created(arena, i))
  {
    var r := Created(arena, i);
    forall x, op | 0 <= x < |r| && op in r[x].Operands() && op < |r| ensures x in r[op].users {
      CreatedAt(arena, i, x);
      if x < |arena| {
        assert op < |arena|;
        CreatedAt(arena, i, op);
      }
    }
  }

  /** Creating an instruction over existing operands keeps the creation order. */
  lemma CreatedOrdered(arena: seq<Instr>, i: Instr)
    requires Ordered(arena)
    requires forall op :: op in i.Operands() ==> op < |arena|
    ensures Ordered(Created(arena, i))
  {
    var r := Created(arena, i);
    forall x, op | 0 <= x < |r| && r[x].Kind() != KPhi && op in r[x].Operands() ensures op < x {
      CreatedAt(arena, i, x);
    }
  }

  /** The three facts together, as the builder uses them. */
  lemma CreatedKeeps(arena: seq<Instr>, i: Instr)
    requires ArenaOk(arena) && UsesRecorded(arena) && Ordered(arena)
    requires forall op :: op in i.Operands() ==> op < |arena|
    requires forall u :: u in i.users ==> u <= |arena|
    requires i.BinInstr? ==> IsBinary(i.kind)
    ensures var r := Created(arena, i); ArenaOk(r) && UsesRecorded(r) && Ordered(r)
  {
    CreatedArenaOk(arena, i);
    CreatedUses(arena, i);
    CreatedOrdered(arena, i);
  }

  /** Creation order ranks the arena by id, so every arena the builder produces
      meets the ordering the peephole pass needs for its def-use argument. */
  lemma OrderedRanked(arena: seq<Instr>)
    requires Ordered(arena)
    ensures Peephole.Ranked(arena, seq(|arena|, x => x))
  {
    var rank := seq(|arena|, x => x);
    forall x, op | 0 <= x < |arena| && arena[x].Kind() != KPhi && op in arena[x].Operands()
      ensures Peephole.RankAt(rank, op) < Peephole.RankAt(rank, x)
    {
      assert op < x;
    }
  }

  /** Whenever slot `s` of one block of `bs` names a block of `bs`, the first block
      is among the predecessors of the second. */
  ghost predicate PredsRecorded(bs: seq<BasicBlock>)
    reads bs, set b | b in bs :: b.succs
  {
    forall i, j, s :: 0 <= i < |bs| && 0 <= j < |bs| && 0 <= s < bs[i].succs.Length && bs[i].succs[s] == bs[j] ==>
      bs[i] in bs[j].preds
  }

  /** Distinct blocks own distinct successor arrays. */
  ghost predicate SlotsDistinct(bs: seq<BasicBlock>)
    reads bs
  {
    forall i, j :: 0 <= i < j < |bs| ==> bs[i].succs != bs[j].succs
  }

  /** What the builder keeps of a function: the function is valid, its def-use lists
      are complete, its arena is in creation order, and its edges are recorded in
      the predecessor lists. */
  ghost predicate Assembled(f: Function)
    reads f, f.blocks, set b | b in f.blocks :: b.succs
  {
    f.Valid() && UsesRecorded(f.arena) && Ordered(f.arena) &&
    SlotsDistinct(f.blocks) && PredsRecorded(f.blocks)
  }

  lemma IndexOfDistinct(bs: seq<BasicBlock>, k: nat)
    requires k < |bs| && forall i, j :: 0 <= i < j < |bs| ==> bs[i] != bs[j]
    ensures IndexOf(bs, bs[k]) == Some(k)
    decreases |bs|
  {
    if k < |bs| - 1 {
      IndexOfDistinct(bs[..|bs| - 1], k);
    }
  }

  lemma PredIdsHas(bs: seq<BasicBlock>, ps: seq<BasicBlock>, p: BasicBlock, k: nat)
    requires p in ps && IndexOf(bs, p) == Some(k)
    ensures k in PredIds(bs, ps)
    decreases |ps|
  {
    if ps[|ps| - 1] != p {
      assert p in ps[..|ps| - 1];
      PredIdsHas(bs, ps[..|ps| - 1], p, k);
    }
  }

  /** In the control-flow graph of an assembled function, the source of every edge
      is among the predecessors of its target. */
  lemma AssembledGraphPreds(f: Function)
    requires Assembled(f)
    ensures var g := f.Graph();
      forall u, v :: 0 <= u < |g| && (g[u].trueSucc == Some(v) || g[u].falseSucc == Some(v)) ==>
        u in g[v].preds
  {
    var g := f.Graph();
    var bs := f.blocks;
    forall u, v | 0 <= u < |g| && (g[u].trueSucc == Some(v) || g[u].falseSucc == Some(v))
      ensures u in g[v].preds
    {
      assert g[u] == NodeOf(bs, bs[u]);
      var s := if g[u].trueSucc == Some(v) then 0 else 1;
      assert IndexOf(bs, bs[u].succs[s]) == Some(v);
      assert bs[u] in bs[v].preds;
      IndexOfDistinct(bs, u);
      PredIdsHas(bs, bs[v].preds, bs[u], u);
      assert g[v] == NodeOf(bs, bs[v]);
    }
  }

  class Builder {
    var func: Function?
    var cur: BasicBlock?

    /** The cursor names an assembled function and, when set, one of its blocks. */
    ghost predicate Ready()
      reads this, func
      reads if func != null then func.blocks else []
      reads if func != null then set b | b in func.blocks :: b.succs else {}
    {
      func != null && Assembled(func) && (cur != null ==> cur in func.blocks)
    }

    /** A builder with no current function and no current block. */
    constructor()
      ensures func == null && cur == null
    {
      func := null;
      cur := null;
    }

    /** `set_insert_point(func, bb)`. */
    method SetInsertPoint(f: Function, bb: BasicBlock)
      modifies this
      ensures func == f && cur == bb
      ensures Assembled(f) && bb in f.blocks ==> Ready()
    {
      func := f;
      cur := bb;
    }

    /** `set_insert_point(bb)`: needs a current function, which it keeps. */
    method SetInsertBlock(bb: BasicBlock)
      requires func != null
      modifies this
      ensures func == old(func) && cur == bb
      ensures Assembled(func) && bb in func.blocks ==> Ready()
    {
      cur := bb;
    }

    /** `create_function`: a new function with no blocks becomes the current one. */
    method CreateFunction(ret: Type, args: seq<Type>) returns (f: Function)
      modifies this
      ensures fresh(f) && func == f && cur == old(cur)
      ensures f.retType == ret && f.argTypes == args && f.blocks == [] && f.arena == []
      ensures Assembled(f)
    {
      f := new Function(ret, args);
      func := f;
    }

    /** `create_bb`: one new empty block with empty successor slots goes at the end
      of the current function; the builder stays assembled. */
    method CreateBB() returns (bb: BasicBlock)
      requires func != null
      modifies func
      ensures fresh(bb) && fresh(bb.succs) && bb.Valid()
      ensures func.blocks == old(func.blocks) + [bb] && func.arena == old(func.arena)
      ensures bb.instrs == [] && bb.preds == [] && bb.succs[0] == null && bb.succs[1] == null
      ensures old(Ready()) ==> Ready()
    {
      bb := new BasicBlock();
      var bs := func.blocks;
      var _ := func.EmplaceBack(bb);
      assert forall i :: 0 <= i < |bs| ==> bs[i].succs != bb.succs;
      assert func.blocks == bs + [bb];
    }

    /** The instruction `i` is created and becomes the last instruction of the
        current block. */
    method Emit(i: Instr) returns (id: InstrId)
      requires func != null && cur != null
      requires forall op :: op in i.Operands() ==> op < |func.arena|
      requires i.users == [] && (i.BinInstr? ==> IsBinary(i.kind))
      modifies func, cur
      ensures id == old(|func.arena|) && func.arena == Created(old(func.arena), i)
      ensures func.blocks == old(func.blocks)
      ensures cur.instrs == old(cur.instrs) + [id] && cur.preds == old(cur.preds)
      ensures cur.marker == old(cur.marker)
      ensures old(Ready()) ==> Ready()
    {
      ghost var a := func.arena;
      id := |func.arena|;
      func.arena := Created(func.arena, i);
      var _ := cur.EmplaceBack(id);
      if old(Ready()) {
        CreatedKeeps(a, i);
        forall k | 0 <= k < |func.blocks| ensures CodeIn(func.arena, func.blocks[k].instrs) {
          assert CodeIn(a, old(func.blocks[k].instrs));
        }
      }
    }

    /** `create_bin_instr`: a binary instruction of kind `kind` over `lhs` and
        `rhs` becomes the last instruction of the current block, and is recorded
        as a user of both operands. */
    method CreateBinInstr(kind: InstrType, lhs: InstrId, rhs: InstrId) returns (id: InstrId)
      requires func != null && cur != null && IsBinary(kind)
      requires lhs < |func.arena| && rhs < |func.arena|
      modifies func, cur
      ensures id == old(|func.arena|) && func.arena == Created(old(func.arena), BinInstr(kind, lhs, rhs, []))
      ensures func.arena[id] == BinInstr(kind, lhs, rhs, [])
      ensures id in func.arena[lhs].users && id in func.arena[rhs].users
      ensures func.blocks == old(func.blocks)
      ensures cur.instrs == old(cur.instrs) + [id] && cur.preds == old(cur.preds)
      ensures old(Ready()) ==> Ready()
    {
      id := Emit(BinInstr(kind, lhs, rhs, []));
    }

    /** `create_add`. */
    method CreateAdd(lhs: InstrId, rhs: InstrId) returns (id: InstrId)
      requires func != null && cur != null
      requires lhs < |func.arena| && rhs < |func.arena|
      modifies func, cur
      ensures id == old(|func.arena|) && func.arena == Created(old(func.arena), BinInstr(KAdd, lhs, rhs, []))
      ensures func.arena[id] == BinInstr(KAdd, lhs, rhs, []) && cur.instrs == old(cur.instrs) + [id]
      ensures func.blocks == old(func.blocks) && cur.preds == old(cur.preds)
      ensures old(Ready()) ==> Ready()
    {
      id := CreateBinInstr(KAdd, lhs, rhs);
    }

    /** `create_mul`. */
    method CreateMul(lhs: InstrId, rhs: InstrId) returns (id: InstrId)
      requires func != null && cur != null
      requires lhs < |func.arena| && rhs < |func.arena|
      modifies func, cur
      ensures id == old(|func.arena|) && func.arena == Created(old(func.arena), BinInstr(KMul, lhs, rhs, []))
      ensures func.arena[id] == BinInstr(KMul, lhs, rhs, []) && cur.instrs == old(cur.instrs) + [id]
      ensures func.blocks == old(func.blocks) && cur.preds == old(cur.preds)
      ensures old(Ready()) ==> Ready()
    {
      id := CreateBinInstr(KMul, lhs, rhs);
    }

    /** `create_cmp_le`. */
    method CreateCmpLe(lhs: InstrId, rhs: InstrId) returns (id: InstrId)
      requires func != null && cur != null
      requires lhs < |func.arena| && rhs < |func.arena|
      modifies func, cur
      ensures id == old(|func.arena|) &&
        func.arena == Created(old(func.arena), BinInstr(KCmpLessEqual, lhs, rhs, []))
      ensures func.arena[id] == BinInstr(KCmpLessEqual, lhs, rhs, []) && cur.instrs == old(cur.instrs) + [id]
      ensures func.blocks == old(func.blocks) && cur.preds == old(cur.preds)
      ensures old(Ready()) ==> Ready()
    {
      id := CreateBinInstr(KCmpLessEqual, lhs, rhs);
    }

    /** One edge of `create_jump` or `create_br`: slot `s` of the current block
        becomes `target` and the current block is appended to the predecessors of
        `target`; the other slot and every instruction list stay as they were. */
    method Link(s: nat, target: BasicBlock)
      requires func != null && cur != null && cur.Valid() && s < 2
      modifies cur.succs, target
      ensures cur.succs[s] == target && cur.succs[1 - s] == old(cur.succs[1 - s])
      ensures target.preds == old(target.preds) + [cur]
      ensures target.instrs == old(target.instrs) && target.marker == old(target.marker)
      ensures old(Ready()) && target in func.blocks ==> Ready()
    {
      ghost var ready := Ready();
      cur.SetSucc(target, s);
      var _ := target.EmplaceBackPred(cur);
      if ready && target in func.blocks {
        ghost var bs := func.blocks;
        ghost var c :| 0 <= c < |bs| && bs[c] == cur;
        forall i, j, t | 0 <= i < |bs| && 0 <= j < |bs| && 0 <= t < bs[i].succs.Length && bs[i].succs[t] == bs[j]
          ensures bs[i] in bs[j].preds
        {
          if i == c && t == s {
            assert bs[j] == target;
          } else {
            assert bs[i].succs[t] == old(bs[i].succs[t]);
            assert old(bs[j].preds) <= bs[j].preds;
          }
        }
        assert func.Valid() by {
          forall k | 0 <= k < |bs| ensures CodeIn(func.arena, bs[k].instrs) {
            assert bs[k].instrs == old(bs[k].instrs);
          }
        }
      }
    }

    /** `create_jump(target)`: slot 0 of the current block becomes `target`, the
        current block is appended to the predecessors of `target`, and a jump ends
        the current block. */
    method CreateJump(target: BasicBlock) returns (id: InstrId)
      requires func != null && cur != null && cur.Valid()
      modifies func, cur, cur.succs, target
      ensures cur.succs[0] == target && cur.succs[1] == old(cur.succs[1])
      ensures target.preds == old(target.preds) + [cur]
      ensures cur.instrs == old(cur.instrs) + [id] && cur.marker == old(cur.marker)
      ensures target != cur ==> target.instrs == old(target.instrs) && target.marker == old(target.marker)
      ensures target != cur ==> cur.preds == old(cur.preds)
      ensures id == old(|func.arena|) && func.arena == Created(old(func.arena), JumpInstr([]))
      ensures func.blocks == old(func.blocks)
      ensures old(Ready()) && target in func.blocks ==> Ready()
    {
      Link(0, target);
      id := Emit(JumpInstr([]));
    }

    /** `create_br(cond, t, e)`: slot 0 becomes `t` and slot 1 `e`, the current block
        is appended to the predecessors of `t` and then of `e` (twice to the same
        list when `t == e`), and a branch on `cond` ends the current block. */
    method CreateBr(cond: InstrId, t: BasicBlock, e: BasicBlock) returns (id: InstrId)
      requires func != null && cur != null && cur.Valid()
      requires cond < |func.arena|
      modifies func, cur, cur.succs, t, e
      ensures cur.succs[0] == t && cur.succs[1] == e
      ensures t == e ==> t.preds == old(t.preds) + [cur] + [cur]
      ensures t != e ==> t.preds == old(t.preds) + [cur] && e.preds == old(e.preds) + [cur]
      ensures cur.instrs == old(cur.instrs) + [id] && cur.marker == old(cur.marker)
      ensures t != cur ==> t.instrs == old(t.instrs) && t.marker == old(t.marker)
      ensures e != cur ==> e.instrs == old(e.instrs) && e.marker == old(e.marker)
      ensures t != cur && e != cur ==> cur.preds == old(cur.preds)
      ensures id == old(|func.arena|) && func.arena == Created(old(func.arena), BranchInstr(cond, []))
      ensures id in func.arena[cond].users
      ensures func.blocks == old(func.blocks)
      ensures old(Ready()) && t in func.blocks && e in func.blocks ==> Ready()
    {
      LinkBoth(t, e);
      id := Emit(BranchInstr(cond, []));
    }

    /** Both edges of `create_br`, slot 0 first. */
    method LinkBoth(t: BasicBlock, e: BasicBlock)
      requires func != null && cur != null && cur.Valid()
      modifies cur.succs, t, e
      ensures cur.succs[0] == t && cur.succs[1] == e
      ensures t == e ==> t.preds == old(t.preds) + [cur] + [cur]
      ensures t != e ==> t.preds == old(t.preds) + [cur] && e.preds == old(e.preds) + [cur]
      ensures t.instrs == old(t.instrs) && e.instrs == old(e.instrs)
      ensures t.marker == old(t.marker) && e.marker == old(e.marker)
      ensures old(Ready()) && t in func.blocks && e in func.blocks ==> Ready()
    {
      Link(0, t);
      Link(1, e);
    }

    /** `create_phi`: a phi with no incoming pairs ends the current block. */
    method CreatePhi() returns (id: InstrId)
      requires func != null && cur != null
      modifies func, cur
      ensures func.arena == old(func.arena) + [PhiInstr([], [])] && id == old(|func.arena|)
      ensures cur.instrs == old(cur.instrs) + [id] && cur.preds == old(cur.preds)
      ensures func.blocks == old(func.blocks)
      ensures old(Ready()) ==> Ready()
    {
      id := Emit(PhiInstr([], []));
    }

    /** `create_ret(v)`: a return of `v` ends the current block and is recorded as a
        user of `v`. */
    method CreateRet(v: InstrId) returns (id: InstrId)
      requires func != null && cur != null && v < |func.arena|
      modifies func, cur
      ensures id == old(|func.arena|) && func.arena == Created(old(func.arena), ReturnInstr(v, []))
      ensures func.arena[id] == ReturnInstr(v, []) && id in func.arena[v].users
      ensures cur.instrs == old(cur.instrs) + [id] && cur.preds == old(cur.preds)
      ensures func.blocks == old(func.blocks)
      ensures old(Ready()) ==> Ready()
    {
      id := Emit(ReturnInstr(v, []));
    }

    /** `create_int(data)`: a constant is created in the arena of the current
        function; like the context-owned constants of the source, it belongs to no
        block. */
    method CreateInt(data: u64) returns (id: InstrId)
      requires func != null
      modifies func
      ensures func.arena == old(func.arena) + [ConstInstr(data, [])] && id == old(|func.arena|)
      ensures func.blocks == old(func.blocks)
      ensures old(Ready()) ==> Ready()
    {
      ghost var a := func.arena;
      assert Created(a, ConstInstr(data, [])) == a + [ConstInstr(data, [])];
      id := func.Alloc(ConstInstr(data, []));
      if old(Ready()) {
        CreatedKeeps(a, ConstInstr(data, []));
        forall k | 0 <= k < |func.blocks| ensures CodeIn(func.arena, func.blocks[k].instrs) {
          assert CodeIn(a, func.blocks[k].instrs);
        }
      }
    }
  }
}
