/** A basic block: its instruction list, its predecessor list, its two successor
    slots and its traversal marker, all updated in place. Instructions are named by
    their id in the function's instruction arena; a cursor into the instruction list
    is an index, and `|instrs|` plays the part of `end()`. */
module BasicBlocks {
  import opened IrTypes
  import opened Instrs

  class BasicBlock {
    var instrs: seq<InstrId>
    var preds: seq<BasicBlock>
    /** Slot 0 is the true (or only) successor, slot 1 the false successor. */
    const succs: array<BasicBlock?>
    var marker: Marker

    ghost predicate Valid() {
      succs.Length == 2
    }

    constructor()
      ensures Valid() && fresh(succs)
      ensures instrs == [] && preds == [] && marker == NoMarker
      ensures succs[0] == null && succs[1] == null
    {
      instrs := [];
      preds := [];
      succs := new BasicBlock?[2](i => null);
      marker := NoMarker;
    }

    /** `size()`: the number of instructions in the block. */
    function Size(): (n: nat)
      reads this
      ensures n == |instrs|
    {
      |instrs|
    }

    /** `insert(instr, pos)`: the instruction goes immediately before cursor `pos`
        and the returned cursor points at it; every other instruction keeps its
        relative order. */
    method Insert(id: InstrId, pos: nat) returns (it: nat)
      requires pos <= |instrs|
      modifies this
      ensures instrs == old(instrs[..pos]) + [id] + old(instrs[pos..])
      ensures it == pos && it < |instrs| && instrs[it] == id
      ensures Size() == old(Size()) + 1
      ensures preds == old(preds) && marker == old(marker)
    {
      instrs := instrs[..pos] + [id] + instrs[pos..];
      it := pos;
    }

    /** `emplace_back`: the instruction becomes the new last one and the returned
        cursor points at it; earlier instructions are unchanged. */
    method EmplaceBack(id: InstrId) returns (it: nat)
      modifies this
      ensures instrs == old(instrs) + [id]
      ensures it == old(|instrs|) && it + 1 == |instrs| && instrs[it] == id
      ensures preds == old(preds) && marker == old(marker)
    {
      instrs := instrs + [id];
      it := |instrs| - 1;
    }

    /** `erase(pos)`: exactly the instruction at `pos` goes; the returned cursor
        points at the instruction that followed it, which is `end()` when the erased
        instruction was the last one. */
    method Erase(pos: nat) returns (next: nat)
      requires pos < |instrs|
      modifies this
      ensures instrs == old(instrs[..pos]) + old(instrs[pos + 1..])
      ensures next == pos && Size() == old(Size()) - 1
      ensures next < |instrs| ==> instrs[next] == old(instrs[pos + 1])
      ensures next == |instrs| <==> pos == old(|instrs|) - 1
      ensures preds == old(preds) && marker == old(marker)
    {
      instrs := instrs[..pos] + instrs[pos + 1..];
      next := pos;
    }

    /** `emplace_back_pred_bb`: appends to the end of the predecessor list. */
    method EmplaceBackPred(p: BasicBlock) returns (it: nat)
      modifies this
      ensures preds == old(preds) + [p]
      ensures it == old(|preds|) && preds[it] == p
      ensures instrs == old(instrs) && marker == old(marker)
    {
      preds := preds + [p];
      it := |preds| - 1;
    }

    /** `set_pred_bb`: the slot must exist; only that slot changes. */
    method SetPred(p: BasicBlock, pos: nat)
      requires pos < |preds|
      modifies this
      ensures |preds| == old(|preds|) && preds[pos] == p
      ensures forall k :: 0 <= k < |preds| && k != pos ==> preds[k] == old(preds[k])
      ensures instrs == old(instrs) && marker == old(marker)
    {
      preds := preds[pos := p];
    }

    /** `erase_pred_bb`: removes one predecessor entry and returns the cursor to the next. */
    method ErasePred(pos: nat) returns (next: nat)
      requires pos < |preds|
      modifies this
      ensures preds == old(preds[..pos]) + old(preds[pos + 1..])
      ensures next == pos
      ensures instrs == old(instrs) && marker == old(marker)
    {
      preds := preds[..pos] + preds[pos + 1..];
      next := pos;
    }

    /** `set_succ_bb`: writes slot `pos` (0 or 1) and leaves the other slot alone. */
    method SetSucc(s: BasicBlock?, pos: nat)
      requires Valid() && pos < 2
      modifies succs
      ensures succs[pos] == s && succs[1 - pos] == old(succs[1 - pos])
      ensures TrueSuccessor() == (if pos == 0 then s else old(TrueSuccessor()))
      ensures FalseSuccessor() == (if pos == 1 then s else old(FalseSuccessor()))
    {
      succs[pos] := s;
    }

    function TrueSuccessor(): BasicBlock?
      requires Valid()
      reads succs
    {
      succs[0]
    }

    function FalseSuccessor(): BasicBlock?
      requires Valid()
      reads succs
    {
      succs[1]
    }

    /** `set_marker`: `GetMarker()` afterwards returns exactly `m`; nothing else changes. */
    method SetMarker(m: Marker)
      modifies this
      ensures GetMarker() == m
      ensures instrs == old(instrs) && preds == old(preds)
    {
      marker := m;
    }

    function GetMarker(): Marker
      reads this
    {
      marker
    }
  }
}
