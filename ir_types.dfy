/** The scalar vocabulary of the IR: 64-bit unsigned integers, value types,
    the thirteen instruction kinds and the traversal marker flags. */
module IrTypes {

  /** `i64` is an unsigned 64-bit integer in the source. */
  const Two64: int := 0x1_0000_0000_0000_0000

  newtype u64 = x: int | 0 <= x < 0x1_0000_0000_0000_0000

  /** Value types. `Void` is used by the fixtures for functions without a result. */
  datatype Type = Int | Float | Void | Unknown

  /** The instruction kinds, one per enumerator of `InstrType`. */
  datatype InstrType =
    | KConst | KArg | KAdd | KMul | KOr | KShl | KCmpLess | KCmpLessEqual
    | KBranch | KReturn | KPhi | KJump | KUnknown

  /** Every kind, in declaration order. */
  const AllKinds: seq<InstrType> :=
    [KConst, KArg, KAdd, KMul, KOr, KShl, KCmpLess, KCmpLessEqual,
     KBranch, KReturn, KPhi, KJump, KUnknown]

  /** The kinds carried by a binary instruction. */
  predicate IsBinary(k: InstrType) {
    k == KAdd || k == KMul || k == KOr || k == KShl || k == KCmpLess || k == KCmpLessEqual
  }

  lemma KindsAreExactlyThirteen()
    ensures |AllKinds| == 13
    ensures forall i, j :: 0 <= i < j < |AllKinds| ==> AllKinds[i] != AllKinds[j]
    ensures forall k: InstrType :: k in AllKinds
  {
    forall k: InstrType ensures k in AllKinds {
      match k
      case KConst => assert AllKinds[0] == k;
      case KArg => assert AllKinds[1] == k;
      case KAdd => assert AllKinds[2] == k;
      case KMul => assert AllKinds[3] == k;
      case KOr => assert AllKinds[4] == k;
      case KShl => assert AllKinds[5] == k;
      case KCmpLess => assert AllKinds[6] == k;
      case KCmpLessEqual => assert AllKinds[7] == k;
      case KBranch => assert AllKinds[8] == k;
      case KReturn => assert AllKinds[9] == k;
      case KPhi => assert AllKinds[10] == k;
      case KJump => assert AllKinds[11] == k;
      case KUnknown => assert AllKinds[12] == k;
    }
  }

  /** Block marker flags: the visit marker, the on-stack marker and the removed mask. */
  datatype MarkerFlag = Dfs | Grey | Removed

  type Marker = set<MarkerFlag>

  const NoMarker: Marker := {}
}
