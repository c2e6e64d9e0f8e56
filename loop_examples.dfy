/** The loop tree the fourth analysis fixture expects, derived from what
    `loop_tree` promises: loop b holds b, d and e, and the root holds a and c. */
module LoopExamples {
  import opened Wrappers
  import opened Cfg
  import opened Walks
  import opened Dfs
  import opened Rpo
  import opened Loops
  import opened LoopSearches
  import opened LoopBuild
  import opened CfgExamples

  /** One step of a backward walk. */
  lemma PredPathStep(g: Graph, avoid: set<BlockId>, q: seq<BlockId>, j: nat)
    requires IsPredPath(g, avoid, q) && j + 1 < |q|
    ensures q[j] < |g| && q[j + 1] in g[q[j]].preds && q[j + 1] !in avoid
  {
  }

  /** A backward walk from e that does not enter b goes e, d and stops. */
  lemma E4PathFromLatch(q: seq<BlockId>)
    requires IsPredPath(Example4, {1}, q) && q[0] == 4
    ensures |q| <= 2 && (|q| == 2 ==> q[1] == 3)
  {
    if |q| >= 2 {
      PredPathStep(Example4, {1}, q, 0);
      if |q| >= 3 {
        PredPathStep(Example4, {1}, q, 1);
        assert false;
      }
    }
  }

  /** The blocks a backward walk from latch e reaches without entering b. */
  lemma E4LatchBody()
    ensures LatchBody(Example4, {1}, [4]) == {3, 4}
  {
    E4LatchBodyHas();
    forall x | x in LatchBody(Example4, {1}, [4]) ensures x == 3 || x == 4 {
      E4LatchBodyWithin(x);
    }
  }

  lemma E4LatchBodyHas()
    ensures 3 in LatchBody(Example4, {1}, [4]) && 4 in LatchBody(Example4, {1}, [4])
  {
    assert IsPredPath(Example4, {1}, [4]);
    assert IsPredPath(Example4, {1}, [4, 3]);
    assert PredReaches(Example4, {1}, 4, 4);
    assert PredReaches(Example4, {1}, 4, 3) by { assert [4, 3][1] == 3; }
    assert 4 in [4];
    assert ReachedFromLatch(Example4, {1}, [4], 4);
    assert ReachedFromLatch(Example4, {1}, [4], 3);
  }

  lemma E4LatchBodyWithin(x: BlockId)
    requires x in LatchBody(Example4, {1}, [4])
    ensures x == 3 || x == 4
  {
    var l :| l in [4] && PredReaches(Example4, {1}, l, x);
    var q :| IsPredPath(Example4, {1}, q) && q[0] == l && q[|q| - 1] == x;
    E4PathFromLatch(q);
  }

  /** Every block of the fourth fixture is reachable from a. */
  lemma E4Reach()
    ensures ReachSet(Example4, {}, 0) == {0, 1, 2, 3, 4}
  {
    Example4Walk({}, {});
    DfsOrderIsReachSet(Example4, {}, 0);
    assert DfsOrder(Example4, {}, 0) == [0, 1, 2, 3, 4];
  }

  /** Any tree meeting `loop_tree`'s promises on the fourth fixture is the one
      the test expects, up to the order of the blocks: the root and loop b, b
      with latch e, reducible, holding b, d and e without repeats, and the root
      holding a and c. */
  lemma Example4Tree(tree: LoopTree)
    requires Wf(Example4)
    requires Root in tree
    requires forall h: BlockId :: Header(h) in tree <==> exists u: BlockId :: (u, h) in BackEdges(Example4, 0)
    requires forall h: BlockId :: Header(h) in tree ==> HeaderLoop(Example4, 0, tree[Header(h)], h)
    requires forall h: BlockId :: Header(h) in tree ==> HeaderBody(Example4, 0, tree, h)
    requires Nested(tree) && tree[Root].outer == None && Distinct(tree[Root].blocks)
    requires forall b :: b in tree[Root].blocks ==> b in ReachSet(Example4, {}, 0) && Header(b) !in tree
    requires forall b :: b in ReachSet(Example4, {}, 0) ==>
      b in tree[Root].blocks || exists k :: k in tree && k != Root && b in tree[k].blocks
    requires forall b, k :: b in tree[Root].blocks && k in tree && k != Root ==> b !in tree[k].blocks
    ensures tree.Keys == {Root, Header(1)}
    ensures tree[Header(1)].latches == [4] && tree[Header(1)].reducible
    ensures Distinct(tree[Header(1)].blocks) && Elems(tree[Header(1)].blocks) == {1, 3, 4}
    ensures Distinct(tree[Root].blocks) && Elems(tree[Root].blocks) == {0, 2}
    ensures tree[Header(1)].outer == Some(Root) && tree[Header(1)].inner == [] && tree[Root].inner == [Header(1)]
  {
    Example4BackEdges();
    E4Reach();
    E4TreeKeys(tree);
    E4LoopBShape(tree[Header(1)]);
    E4LoopB(Example4, tree);
    E4Root(tree, ReachSet(Example4, {}, 0));
    E4Nesting(tree);
  }

  /** The nesting: loop b sits in the root, and has no inner loops. */
  lemma E4Nesting(tree: LoopTree)
    requires tree.Keys == {Root, Header(1)} && Nested(tree)
    requires tree[Header(1)].outer.Some? && tree[Root].outer == None
    ensures tree[Header(1)].outer == Some(Root) && tree[Header(1)].inner == [] && tree[Root].inner == [Header(1)]
  {
    var b, r := tree[Header(1)], tree[Root];
    assert LinksAgree(tree) && InnerListsWf(tree);
    assert b.outer.value in tree && b.outer != Some(Header(1));
    assert Header(1) in r.inner;
    assert Root !in r.inner && Root !in b.inner && Header(1) !in b.inner;
    forall y | y in r.inner ensures y == Header(1) {
      assert y in Elems(r.inner);
    }
    OnlyElement(r.inner, Header(1));
    assert Elems(b.inner) == {};
    DistinctCard(b.inner);
  }

  /** A sequence without repeats whose only element is `x` is `[x]`. */
  lemma OnlyElement<T>(s: seq<T>, x: T)
    requires Distinct(s) && x in s && forall y :: y in s ==> y == x
    ensures s == [x]
  {
    assert Elems(s) == {x};
    DistinctCard(s);
    assert s[0] in s;
  }

  /** The root: the reachable blocks a and c that loop b does not hold. */
  lemma E4Root(tree: LoopTree, reach: set<BlockId>)
    requires reach == {0, 1, 2, 3, 4}
    requires tree.Keys == {Root, Header(1)} && Elems(tree[Header(1)].blocks) == {1, 3, 4}
    requires forall b :: b in tree[Root].blocks ==> b in reach && Header(b) !in tree
    requires forall b :: b in reach ==>
      b in tree[Root].blocks || exists k :: k in tree && k != Root && b in tree[k].blocks
    requires forall b, k :: b in tree[Root].blocks && k in tree && k != Root ==> b !in tree[k].blocks
    ensures Elems(tree[Root].blocks) == {0, 2}
  {
    var l := tree[Header(1)];
    forall b | b == 0 || b == 2 ensures b in tree[Root].blocks {
      assert b !in Elems(l.blocks);
    }
    forall b | b in tree[Root].blocks ensures b == 0 || b == 2 {
      assert b !in l.blocks;
    }
  }

  /** The keys: the root and the one back edge's target. */
  lemma E4TreeKeys(tree: LoopTree)
    requires Wf(Example4)
    requires Root in tree
    requires forall h: BlockId :: Header(h) in tree <==> exists u: BlockId :: (u, h) in BackEdges(Example4, 0)
    ensures tree.Keys == {Root, Header(1)}
  {
    Example4BackEdges();
    assert (4, 1) in BackEdges(Example4, 0);
    forall k | k in tree ensures k == Root || k == Header(1) {
      if k.Header? {
        var u: BlockId :| (u, k.block) in BackEdges(Example4, 0);
      }
    }
  }

  /** Loop b: latch e, reducible, and blocks b, d, e without repeats. */
  lemma E4LoopB(g: Graph, tree: LoopTree)
    requires g == Example4 && Wf(g)
    requires tree.Keys == {Root, Header(1)}
    requires tree[Header(1)].latches == [4] && tree[Header(1)].reducible
    requires |tree[Header(1)].blocks| >= 1 && tree[Header(1)].blocks[0] == 1
    requires HeaderBody(g, 0, tree, 1)
    requires ReachSet(g, {}, 0) == {0, 1, 2, 3, 4}
    ensures Distinct(tree[Header(1)].blocks) && Elems(tree[Header(1)].blocks) == {1, 3, 4}
  {
    var l := tree[Header(1)];
    E4BodyWithin(g, l.blocks[1..]);
    E4BodyHas(g, tree);
    E4Blocks(l.blocks, l.blocks[1..]);
  }

  /** Loop b's blocks after its header are d and e at most. */
  lemma E4BodyWithin(g: Graph, rest: seq<BlockId>)
    requires g == Example4
    requires forall x :: x in rest ==> x in LatchBody(g, {1}, [4])
    ensures forall x :: x in rest ==> x == 3 || x == 4
  {
    E4LatchBody();
  }

  /** Loop b holds d and e: both are reachable, and reached backward from e. */
  lemma E4BodyHas(g: Graph, tree: LoopTree)
    requires g == Example4 && Wf(g)
    requires tree.Keys == {Root, Header(1)} && tree[Header(1)].latches == [4]
    requires ReachSet(g, {}, 0) == {0, 1, 2, 3, 4}
    requires forall x :: x in ReachSet(g, {}, 0) && x in LatchBody(g, {1} + (Blocks(g) - ReachSet(g, {}, 0)), [4]) ==>
      exists k :: k in tree && k != Root && x in tree[k].blocks
    ensures 3 in tree[Header(1)].blocks && 4 in tree[Header(1)].blocks
  {
    E4LatchBodyHas();
    assert {1} + (Blocks(g) - ReachSet(g, {}, 0)) == {1};
  }

  lemma E4Blocks(blocks: seq<BlockId>, rest: seq<BlockId>)
    requires |blocks| >= 1 && blocks[0] == 1 && rest == blocks[1..] && Distinct(rest)
    requires forall x :: x in rest ==> x == 3 || x == 4
    requires 3 in blocks && 4 in blocks
    ensures Distinct(blocks) && Elems(blocks) == {1, 3, 4}
  {
    assert blocks == [1] + rest;
    DistinctConcat([1], rest);
  }

  /** What `HeaderLoop` fixes of loop b. */
  lemma E4LoopBShape(l: Loop)
    requires Wf(Example4)
    requires HeaderLoop(Example4, 0, l, 1)
    ensures l.latches == [4] && l.reducible && |l.blocks| >= 1 && l.blocks[0] == 1 && l.outer.Some?
  {
    Example4BackEdges();
    Example4HeaderDominatesLatch({1}, {});
    assert LatchesOf([(4, 1)], 1) == [4] by { assert [(4, 1)][1..] == []; }
    assert 4 in l.latches && 4 != 1;
    assert seq(1, _ => 1) == [1];
  }

  /** `loop_tree(a)` on the fourth fixture. */
  method Example4LoopTree() returns (tree: LoopTree)
    ensures tree.Keys == {Root, Header(1)}
    ensures tree[Header(1)].latches == [4] && tree[Header(1)].reducible
    ensures Distinct(tree[Header(1)].blocks) && Elems(tree[Header(1)].blocks) == {1, 3, 4}
    ensures Distinct(tree[Root].blocks) && Elems(tree[Root].blocks) == {0, 2}
    ensures tree[Header(1)].outer == Some(Root) && tree[Header(1)].inner == [] && tree[Root].inner == [Header(1)]
    ensures tree[Root].header == None && tree[Root].latches == [] && !tree[Root].reducible
  {
    Example4Wf();
    tree := ComputeLoopTree(Example4, 0);
    Example4Tree(tree);
  }
}
