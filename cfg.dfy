/** The control-flow graph seen by the analyses: every block id maps to its two
    successor slots (slot 0 is the true edge, slot 1 the false edge) and its
    predecessor list. Paths and reachability are defined here once. */
module Cfg {
  import opened Wrappers

  type BlockId = nat

  datatype Node = Node(trueSucc: Option<BlockId>, falseSucc: Option<BlockId>, preds: seq<BlockId>)

  /** Block `b` of the graph is `g[b]`: ids are positions, as in the id-indexed
      block list of the function. */
  type Graph = seq<Node>

  /** The ids of the graph. */
  ghost function Blocks(g: Graph): (r: set<BlockId>)
    ensures forall b: BlockId :: b in r <==> b < |g|
  {
    Below(|g|)
  }

  ghost function Below(n: nat): (r: set<BlockId>)
    ensures forall b: BlockId :: b in r <==> b < n
  {
    if n == 0 then {} else Below(n - 1) + {n - 1}
  }

  /** Every successor and every predecessor names a block of the graph. */
  ghost predicate Wf(g: Graph) {
    forall b: BlockId :: b < |g| ==>
      (g[b].trueSucc.Some? ==> g[b].trueSucc.value < |g|) &&
      (g[b].falseSucc.Some? ==> g[b].falseSucc.value < |g|) &&
      (forall p :: p in g[b].preds ==> p < |g|)
  }

  /** Every entry of `s` names a block of the graph. */
  ghost predicate AllBlocks(g: Graph, s: seq<BlockId>) {
    forall j :: 0 <= j < |s| ==> s[j] < |g|
  }

  /** `u -> v` is an edge when one of u's slots holds v. */
  predicate Edge(g: Graph, u: BlockId, v: BlockId) {
    u < |g| && (g[u].trueSucc == Some(v) || g[u].falseSucc == Some(v))
  }

  /** A non-empty sequence of blocks, none of them in `avoid`, each an edge to the next. */
  ghost predicate IsPath(g: Graph, avoid: set<BlockId>, p: seq<BlockId>) {
    |p| > 0 &&
    (forall i :: 0 <= i < |p| ==> p[i] < |g| && p[i] !in avoid) &&
    (forall i :: 0 <= i < |p| - 1 ==> Edge(g, p[i], p[i + 1]))
  }

  /** `v` is reachable from `u` without entering a block of `avoid`. */
  ghost predicate Reaches(g: Graph, avoid: set<BlockId>, u: BlockId, v: BlockId) {
    exists p :: IsPath(g, avoid, p) && p[0] == u && p[|p| - 1] == v
  }

  ghost function ReachSet(g: Graph, avoid: set<BlockId>, entry: BlockId): set<BlockId> {
    set v: BlockId | v < |g| && Reaches(g, avoid, entry, v)
  }

  /** `d` dominates `b`: every path from the entry to `b` passes through `d`. */
  ghost predicate Dominates(g: Graph, entry: BlockId, d: BlockId, b: BlockId) {
    forall p :: IsPath(g, {}, p) && p[0] == entry && p[|p| - 1] == b ==> d in p
  }

  lemma ReachesRefl(g: Graph, avoid: set<BlockId>, u: BlockId)
    requires u < |g| && u !in avoid
    ensures Reaches(g, avoid, u, u)
  {
    assert IsPath(g, avoid, [u]);
  }

  /** A path that avoids more also avoids less. */
  lemma ReachesWeaken(g: Graph, avoid: set<BlockId>, smaller: set<BlockId>, u: BlockId, v: BlockId)
    requires smaller <= avoid && Reaches(g, avoid, u, v)
    ensures Reaches(g, smaller, u, v)
  {
    var p :| IsPath(g, avoid, p) && p[0] == u && p[|p| - 1] == v;
    assert IsPath(g, smaller, p);
  }

  /** An edge into the start of a path extends it. */
  lemma ReachesPrepend(g: Graph, avoid: set<BlockId>, u: BlockId, s: BlockId, v: BlockId)
    requires u < |g| && u !in avoid && Edge(g, u, s) && Reaches(g, avoid, s, v)
    ensures Reaches(g, avoid, u, v)
  {
    var p :| IsPath(g, avoid, p) && p[0] == s && p[|p| - 1] == v;
    var q := [u] + p;
    assert forall i :: 1 <= i < |q| ==> q[i] == p[i - 1];
    assert IsPath(g, avoid, q);
  }

  /** Two paths that meet compose. */
  lemma ReachesTrans(g: Graph, avoid: set<BlockId>, u: BlockId, v: BlockId, w: BlockId)
    requires Reaches(g, avoid, u, v) && Reaches(g, avoid, v, w)
    ensures Reaches(g, avoid, u, w)
  {
    var p :| IsPath(g, avoid, p) && p[0] == u && p[|p| - 1] == v;
    var q :| IsPath(g, avoid, q) && q[0] == v && q[|q| - 1] == w;
    var r := p + q[1..];
    assert forall i :: |p| <= i < |r| ==> r[i] == q[i - |p| + 1];
    assert IsPath(g, avoid, r);
  }

  /** A set that holds `entry` and every successor (outside `avoid`) of each of its
      members holds every block reachable from `entry` avoiding `avoid`. */
  lemma {:induction false} ClosedContainsReach(g: Graph, avoid: set<BlockId>, entry: BlockId, s: set<BlockId>, v: BlockId)
    requires entry in s
    requires forall x: BlockId, y: BlockId :: x in s && Edge(g, x, y) && y !in avoid ==> y in s
    requires Reaches(g, avoid, entry, v)
    ensures v in s
  {
    var p :| IsPath(g, avoid, p) && p[0] == entry && p[|p| - 1] == v;
    var i := 0;
    while i < |p| - 1
      invariant 0 <= i < |p| && p[i] in s
    {
      assert Edge(g, p[i], p[i + 1]) && p[i + 1] !in avoid;
      i := i + 1;
    }
  }

  /** Reachability avoiding `{d}` is exactly the absence of domination. */
  lemma DominatesIffUnreachable(g: Graph, entry: BlockId, d: BlockId, b: BlockId)
    ensures Dominates(g, entry, d, b) <==> !Reaches(g, {d}, entry, b)
  {
    if !Dominates(g, entry, d, b) {
      var p :| IsPath(g, {}, p) && p[0] == entry && p[|p| - 1] == b && d !in p;
      assert IsPath(g, {d}, p);
    }
    if Reaches(g, {d}, entry, b) {
      var p :| IsPath(g, {d}, p) && p[0] == entry && p[|p| - 1] == b;
      assert IsPath(g, {}, p) && d !in p;
    }
  }
}
