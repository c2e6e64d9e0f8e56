/** A function: its return and argument types, its block list, and the arena that
    holds every instruction created for it. An instruction id is a position in the
    arena; erased instructions stay in the arena, as dangling pointers would in the
    source, and the passes prove that nothing refers to them any more. */
module Functions {
  import opened Wrappers
  import opened IrTypes
  import opened Instrs
  import opened BasicBlocks
  import Cfg

  /** Every operand and every user names an instruction of the arena, and a binary
      instruction carries a binary kind. */
  ghost predicate ArenaOk(arena: seq<Instr>) {
    (forall x, op :: 0 <= x < |arena| && op in arena[x].Operands() ==> op < |arena|) &&
    (forall x, u :: 0 <= x < |arena| && u in arena[x].users ==> u < |arena|) &&
    (forall x :: 0 <= x < |arena| && arena[x].BinInstr? ==> IsBinary(arena[x].kind))
  }

  /** Def-use consistency: whenever `op` is an operand of instruction `x`, `x` is in
      the users list of `op`. Users lists may hold more (stale) entries. */
  ghost predicate UsesRecorded(arena: seq<Instr>) {
    forall x, op :: 0 <= x < |arena| && op in arena[x].Operands() && op < |arena| ==>
      x in arena[op].users
  }

  /** No instruction of the arena takes an instruction of `gone` as an operand. */
  ghost predicate Unreferenced(arena: seq<Instr>, gone: set<InstrId>) {
    forall x, op :: 0 <= x < |arena| && op in arena[x].Operands() ==> op !in gone
  }

  /** Every instruction of a block names an instruction of the arena. */
  ghost predicate CodeIn(arena: seq<Instr>, code: seq<InstrId>) {
    forall j :: 0 <= j < |code| ==> code[j] < |arena|
  }

  /** Where block `b` sits in the block list, if it is there at all. */
  function IndexOf(bs: seq<BasicBlock>, b: BasicBlock?): (r: Option<Cfg.BlockId>)
    ensures r.Some? ==> r.value < |bs| && bs[r.value] == b
    ensures r.None? ==> b !in bs
  {
    if bs == [] then None
    else if bs[|bs| - 1] == b then Some(|bs| - 1)
    else IndexOf(bs[..|bs| - 1], b)
  }

  /** The ids of the predecessors that belong to the block list, in list order. */
  function PredIds(bs: seq<BasicBlock>, ps: seq<BasicBlock>): (r: seq<Cfg.BlockId>)
    ensures forall k :: 0 <= k < |r| ==> r[k] < |bs|
    ensures (forall p :: p in ps ==> p in bs) ==> |r| == |ps|
  {
    if ps == [] then []
    else
      var rest := PredIds(bs, ps[..|ps| - 1]);
      match IndexOf(bs, ps[|ps| - 1])
      case Some(i) => rest + [i]
      case None => rest
  }

  /** The analyses' view of one block: its slots and its predecessors as ids. */
  function NodeOf(bs: seq<BasicBlock>, b: BasicBlock): Cfg.Node
    requires b.Valid()
    reads b, b.succs
  {
    Cfg.Node(IndexOf(bs, b.succs[0]), IndexOf(bs, b.succs[1]), PredIds(bs, b.preds))
  }

  /** The control-flow graph of the blocks `part`, with ids taken from `bs`. */
  function GraphOf(bs: seq<BasicBlock>, part: seq<BasicBlock>): (g: Cfg.Graph)
    requires forall b :: b in part ==> b.Valid()
    reads part, set b | b in part :: b.succs
    ensures |g| == |part|
    ensures forall i :: 0 <= i < |part| ==> g[i] == NodeOf(bs, part[i])
  {
    if part == [] then []
    else GraphOf(bs, part[..|part| - 1]) + [NodeOf(bs, part[|part| - 1])]
  }

  /** The graph of a block list names only blocks of the list. */
  lemma GraphOfWf(bs: seq<BasicBlock>)
    requires forall b :: b in bs ==> b.Valid()
    ensures Cfg.Wf(GraphOf(bs, bs))
  {
    var g := GraphOf(bs, bs);
    forall b: Cfg.BlockId | b < |g|
      ensures g[b].trueSucc.Some? ==> g[b].trueSucc.value < |g|
      ensures g[b].falseSucc.Some? ==> g[b].falseSucc.value < |g|
      ensures forall p :: p in g[b].preds ==> p < |g|
    {
      assert g[b] == NodeOf(bs, bs[b]);
    }
  }

  /** The instruction lists of the blocks, block by block. */
  function CodesOf(bs: seq<BasicBlock>): (r: seq<seq<InstrId>>)
    reads bs
    ensures |r| == |bs|
    ensures forall i :: 0 <= i < |bs| ==> r[i] == bs[i].instrs
  {
    if bs == [] then [] else CodesOf(bs[..|bs| - 1]) + [bs[|bs| - 1].instrs]
  }

  datatype ArgError = ArgIndexOutOfRange

  /** What `get_arg_type` does as written: its guard rejects only indices above the
      argument count, so the index equal to the count reads past the end. */
  datatype ArgLookup = Thrown | Read(ty: Type) | ReadPastEnd

  function ArgTypeAsWritten(args: seq<Type>, index: nat): (r: ArgLookup)
    ensures r == Thrown <==> index > |args|
    ensures r == ReadPastEnd <==> index == |args|
    ensures index < |args| ==> r == Read(args[index])
  {
    if index > |args| then Thrown
    else if index < |args| then Read(args[index])
    else ReadPastEnd
  }

  /** The guard lets the one-past-the-end index through, for every argument list. */
  lemma ArgGuardAdmitsEnd(args: seq<Type>)
    ensures ArgTypeAsWritten(args, |args|) == ReadPastEnd
    ensures ArgTypeAsWritten([], 0) == ReadPastEnd
  {
  }

  class Function {
    const retType: Type
    const argTypes: seq<Type>
    var blocks: seq<BasicBlock>
    var arena: seq<Instr>

    /** Blocks are distinct objects with two successor slots each, the arena is
        closed and every block names instructions of the arena. */
    ghost predicate Valid()
      reads this, blocks
    {
      (forall i :: 0 <= i < |blocks| ==> blocks[i].Valid()) &&
      (forall i, j :: 0 <= i < j < |blocks| ==> blocks[i] != blocks[j]) &&
      ArenaOk(arena) &&
      (forall i :: 0 <= i < |blocks| ==> CodeIn(arena, blocks[i].instrs))
    }

    /** The argument types keep the order they were given in. */
    constructor(ret: Type, args: seq<Type>)
      ensures retType == ret && argTypes == args
      ensures blocks == [] && arena == []
      ensures Valid()
    {
      retType := ret;
      argTypes := args;
      blocks := [];
      arena := [];
    }

    /** `get_arg_type` with the bound it evidently intends: every index below the
        argument count yields that argument's type, every other index fails. */
    function GetArgType(index: nat): (r: Result<Type, ArgError>)
      ensures r.Success? <==> index < |argTypes|
      ensures r.Success? ==> r.value == argTypes[index]
      ensures r.Failure? ==> r.error == ArgIndexOutOfRange
    {
      if index >= |argTypes| then Failure(ArgIndexOutOfRange) else Success(argTypes[index])
    }

    /** `size()`: the number of blocks. */
    function Size(): (n: nat)
      reads this
      ensures n == |blocks|
    {
      |blocks|
    }

    /** `*begin()`: the first block, which the passes take as the entry. */
    function Entry(): BasicBlock
      requires |blocks| > 0
      reads this
    {
      blocks[0]
    }

    /** The control-flow graph of the block list; block ids are list positions. */
    function Graph(): (g: Cfg.Graph)
      requires Valid()
      reads this, blocks, set b | b in blocks :: b.succs
      ensures |g| == |blocks| && Cfg.Wf(g)
    {
      GraphOfWf(blocks);
      GraphOf(blocks, blocks)
    }

    /** `emplace_back`: the block goes at the end and its position is returned; the
        first block ever added is therefore the entry. */
    method EmplaceBack(b: BasicBlock) returns (it: nat)
      modifies this
      ensures blocks == old(blocks) + [b]
      ensures it == old(|blocks|) && blocks[it] == b
      ensures old(blocks) == [] ==> Entry() == b
      ensures arena == old(arena)
    {
      blocks := blocks + [b];
      it := |blocks| - 1;
    }

    /** `insert(pos, bb)`: the block goes immediately before position `pos`. */
    method Insert(pos: nat, b: BasicBlock) returns (it: nat)
      requires pos <= |blocks|
      modifies this
      ensures blocks == old(blocks[..pos]) + [b] + old(blocks[pos..])
      ensures it == pos && blocks[it] == b
      ensures arena == old(arena)
    {
      blocks := blocks[..pos] + [b] + blocks[pos..];
      it := pos;
    }

    /** Creating an instruction: it takes the next free id of the arena. */
    method Alloc(i: Instr) returns (id: InstrId)
      modifies this
      ensures arena == old(arena) + [i]
      ensures id == old(|arena|) && arena[id] == i
      ensures blocks == old(blocks)
    {
      arena := arena + [i];
      id := |arena| - 1;
    }

    /** `add_user` on instruction `x`. */
    method AddUserTo(x: InstrId, u: InstrId)
      requires x < |arena|
      modifies this
      ensures arena == old(arena[x := AddUser(arena[x], u)])
      ensures blocks == old(blocks)
    {
      arena := arena[x := AddUser(arena[x], u)];
    }

    /** `replace_operand` on instruction `x`. */
    method ReplaceOperandOf(x: InstrId, from: InstrId, to: InstrId)
      requires x < |arena|
      modifies this
      ensures arena == old(arena[x := ReplaceOperand(arena[x], from, to)])
      ensures blocks == old(blocks)
    {
      arena := arena[x := ReplaceOperand(arena[x], from, to)];
    }
  }

  /** Below the argument count the guard as written and the intended bound agree;
      they differ exactly at the count itself. */
  lemma ArgTypeAgreesBelowEnd(f: Function, index: nat)
    ensures index != |f.argTypes| ==>
      (f.GetArgType(index).Success? <==> ArgTypeAsWritten(f.argTypes, index).Read?)
    ensures index == |f.argTypes| ==>
      f.GetArgType(index).Failure? && ArgTypeAsWritten(f.argTypes, index) == ReadPastEnd
  {
  }
}
