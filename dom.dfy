/** `dom`: naive dominator lists. Each block reachable from the entry is removed in
    turn, the DFS from the entry is rerun, and the blocks that have become
    unreachable (other than the removed block) are its dominated list. The removed
    marker of the source is the explicit `removed` set passed to `Dfs`, so no marker
    outlives a probe. */
module Dom {
  import opened Cfg
  import opened Walks
  import opened Dfs

  /** The map from each dominating block to the blocks it dominates. */
  type DomTree = map<BlockId, seq<BlockId>>

  /** The blocks of `order`, in order, that differ from `d` and are missing from
      `reachable`: what the inner loop of `dom` pushes for `d`. */
  function Unreached(order: seq<BlockId>, d: BlockId, reachable: seq<BlockId>): (r: seq<BlockId>)
    ensures forall b :: b in r <==> b in order && b != d && b !in reachable
    ensures Distinct(order) ==> Distinct(r)
  {
    if order == [] then []
    else
      var init := order[..|order| - 1];
      var b := order[|order| - 1];
      assert order == init + [b];
      var rest := Unreached(init, d, reachable);
      if b != d && b !in reachable then rest + [b] else rest
  }

  /** The list `dom` records for `d`. */
  function DomList(g: Graph, entry: BlockId, d: BlockId): seq<BlockId>
    requires Wf(g) && entry < |g|
  {
    Unreached(DfsOrder(g, {}, entry), d, DfsOrder(g, {d}, entry))
  }

  /** `b` is listed under `d` exactly when `b` is reachable, differs from `d`, and
      every path from the entry to `b` runs through `d`; each block is listed once. */
  lemma DomListMeaning(g: Graph, entry: BlockId, d: BlockId, b: BlockId)
    requires Wf(g) && entry < |g|
    ensures b in DomList(g, entry, d) <==>
      b in ReachSet(g, {}, entry) && b != d && Dominates(g, entry, d, b)
    ensures Distinct(DomList(g, entry, d))
  {
    DfsOrderIsReachSet(g, {}, entry);
    DfsOrderIsReachSet(g, {d}, entry);
    DominatesIffUnreachable(g, entry, d, b);
    assert b in DfsOrder(g, {d}, entry) <==> b in ReachSet(g, {d}, entry);
  }

  /** The entry's list holds every other reachable block (removing the entry makes
      DFS return nothing). */
  lemma EntryListsAll(g: Graph, entry: BlockId, b: BlockId)
    requires Wf(g) && entry < |g|
    requires b in ReachSet(g, {}, entry) && b != entry
    ensures b in DomList(g, entry, entry)
  {
    DfsOrderIsReachSet(g, {}, entry);
    DfsOrderIsReachSet(g, {entry}, entry);
    assert b in DfsOrder(g, {}, entry);
  }

  /** A prefix of a path, up to and including position `k`, is a path. */
  lemma PathPrefix(g: Graph, avoid: set<BlockId>, p: seq<BlockId>, k: nat)
    requires IsPath(g, avoid, p) && k < |p|
    ensures IsPath(g, avoid, p[..k + 1])
  {
  }

  /** Domination is transitive. */
  lemma DominatesTrans(g: Graph, entry: BlockId, a: BlockId, b: BlockId, c: BlockId)
    requires Dominates(g, entry, a, b) && Dominates(g, entry, b, c)
    ensures Dominates(g, entry, a, c)
  {
    forall p | IsPath(g, {}, p) && p[0] == entry && p[|p| - 1] == c
      ensures a in p
    {
      assert b in p;
      var k :| 0 <= k < |p| && p[k] == b;
      PathPrefix(g, {}, p, k);
      var q := p[..k + 1];
      assert q[0] == entry && q[|q| - 1] == b;
      assert a in q;
    }
  }

  /** The first position of a path that holds `a` or `b`. */
  lemma FirstOfTwo(p: seq<BlockId>, a: BlockId, b: BlockId) returns (i: nat)
    requires a in p
    ensures i < |p| && (p[i] == a || p[i] == b)
    ensures a !in p[..i] && b !in p[..i]
  {
    i := 0;
    while p[i] != a && p[i] != b
      invariant i < |p| && a in p[i..]
      invariant a !in p[..i] && b !in p[..i]
      decreases |p| - i
    {
      assert p[i..] == [p[i]] + p[i + 1..];
      assert p[..i + 1] == p[..i] + [p[i]];
      i := i + 1;
    }
  }

  /** Two distinct reachable blocks cannot dominate each other. */
  lemma DominatesAntisymmetric(g: Graph, entry: BlockId, a: BlockId, b: BlockId)
    requires a != b && Reaches(g, {}, entry, a)
    requires Dominates(g, entry, a, b)
    ensures !Dominates(g, entry, b, a)
  {
    var p :| IsPath(g, {}, p) && p[0] == entry && p[|p| - 1] == a;
    assert a in p;
    var i := FirstOfTwo(p, a, b);
    PathPrefix(g, {}, p, i);
    var q := p[..i + 1];
    assert q == p[..i] + [p[i]];
    // The first of the two on the path is `a`, since `a` lies on every path to `b`.
    assert q[0] == entry && q[|q| - 1] == p[i];
    assert a in q;
    assert b !in q;
  }

  /** The lists are transitive: a block listed under one listed under `d` is
      listed under `d` itself. */
  lemma DomListTrans(g: Graph, entry: BlockId, d: BlockId, b: BlockId, c: BlockId)
    requires Wf(g) && entry < |g|
    requires b in DomList(g, entry, d) && c in DomList(g, entry, b)
    ensures c in DomList(g, entry, d)
  {
    DomListMeaning(g, entry, d, b);
    DomListMeaning(g, entry, b, c);
    DominatesTrans(g, entry, d, b, c);
    DomListMeaning(g, entry, d, c);
    if c == d {
      DominatesAntisymmetric(g, entry, d, b);
    }
  }

  /** `dom(entry)`: one key per reachable block, each mapped to its list. */
  method ComputeDom(g: Graph, entry: BlockId) returns (tree: DomTree)
    requires Wf(g) && entry < |g|
    ensures tree.Keys == ReachSet(g, {}, entry)
    ensures |tree| == |ReachSet(g, {}, entry)|
    ensures forall d :: d in tree ==> tree[d] == DomList(g, entry, d)
  {
    var order := Dfs.Dfs(g, {}, entry);
    tree := map[];
    var i := 0;
    while i < |order|
      invariant i <= |order|
      invariant tree.Keys == Elems(order[..i])
      invariant forall x :: x in tree ==> tree[x] == DomList(g, entry, x)
    {
      var d := order[i];
      var reachable := Dfs.Dfs(g, {d}, entry);
      var list := CollectUnreached(order, d, reachable);
      tree := tree[d := list];
      ElemsSnoc(order, i);
      i := i + 1;
    }
    KeysFinal(order, tree, ReachSet(g, {}, entry));
  }

  lemma KeysFinal(order: seq<BlockId>, tree: DomTree, reach: set<BlockId>)
    requires tree.Keys == Elems(order[..|order|]) && Elems(order) == reach
    ensures tree.Keys == reach && |tree| == |reach|
  {
    assert order[..|order|] == order;
  }

  /** The inner loop of `dom`: push, in DFS order, each block other than `d`
      missing from `reachable`. */
  method CollectUnreached(order: seq<BlockId>, d: BlockId, reachable: seq<BlockId>) returns (list: seq<BlockId>)
    ensures list == Unreached(order, d, reachable)
  {
    list := [];
    var j := 0;
    while j < |order|
      invariant j <= |order|
      invariant list == Unreached(order[..j], d, reachable)
    {
      assert order[..j + 1][..j] == order[..j];
      if order[j] != d && order[j] !in reachable {
        list := list + [order[j]];
      }
      j := j + 1;
    }
    assert order[..j] == order;
  }

  lemma ElemsSnoc(s: seq<BlockId>, i: nat)
    requires i < |s|
    ensures Elems(s[..i + 1]) == Elems(s[..i]) + {s[i]}
  {
    assert s[..i + 1] == s[..i] + [s[i]];
    ElemsConcat(s[..i], [s[i]]);
  }

  /** What the lists mean, once `ComputeDom` has built them. */
  lemma DomTreeMeaning(g: Graph, entry: BlockId, tree: DomTree, d: BlockId, b: BlockId)
    requires Wf(g) && entry < |g|
    requires forall x :: x in tree ==> tree[x] == DomList(g, entry, x)
    requires d in tree
    ensures b in tree[d] <==> b in ReachSet(g, {}, entry) && b != d && Dominates(g, entry, d, b)
    ensures d !in tree[d]
  {
    DomListMeaning(g, entry, d, b);
    DomListMeaning(g, entry, d, d);
  }
}
