/** The pass manager: a pass is one of the two rewrite passes, and running it
    applies it once to the function and reports what the pass reports. */
module PassManager {
  import opened Functions
  import opened PassCommon
  import ConstantFolding
  import Peephole
  import Rpo

  datatype PassKind = ConstantFoldingPass | PeepholePass

  /** `PassManager::run`: exactly one `apply` of the chosen pass, whose result is
      returned unchanged. */
  method Run(pass: PassKind, f: Function) returns (changed: bool)
    requires f.Valid() && |f.blocks| > 0
    requires |Rpo.RpoOrder(f.Graph(), 0)| == |f.blocks|
    modifies f, f.blocks
    ensures f.Valid() && f.blocks == old(f.blocks)
    ensures pass == ConstantFoldingPass ==>
      (f.arena, CodesOf(f.blocks), changed) ==
      ConstantFolding.FoldAll(old(f.arena), old(CodesOf(f.blocks)), old(PassOrder(f.Graph())), false)
    ensures pass == PeepholePass ==>
      (f.arena, CodesOf(f.blocks), changed) ==
      Peephole.PeepAll(old(f.arena), old(CodesOf(f.blocks)), old(PassOrder(f.Graph())), false)
  {
    match pass
    case ConstantFoldingPass => changed := ConstantFolding.Apply(f);
    case PeepholePass => changed := Peephole.Apply(f);
  }
}
