/** A graph with two loops, one inside the other, and the nesting `loop_tree`
    promises for it: a -> b, b -> c, c -> d, d -> c (true) and d -> b (false).
    Both b and c head a loop with latch d; c's loop lies inside b's. */
module NestingExamples {
  import opened Wrappers
  import opened Cfg
  import opened Walks
  import opened Dfs
  import opened Rpo
  import opened Loops
  import opened LoopSearches
  import opened LoopNesting
  import opened LoopBuild
  import opened CfgExamples

  const TwoLoops: Graph := [
    Node(Some(1), None, []),
    Node(Some(2), None, [0, 3]),
    Node(Some(3), None, [1, 3]),
    Node(Some(2), Some(1), [2])
  ]

  lemma TwoLoopsWf()
    ensures Wf(TwoLoops)
  {
  }

  /** The concatenations the walks below put together. */
  lemma TwoLoopsConcats()
    ensures [(3, 2)] + [(3, 1)] == [(3, 2), (3, 1)]
    ensures [(3, 2), (3, 1)] + [] == [(3, 2), (3, 1)] && [] + [(3, 2), (3, 1)] == [(3, 2), (3, 1)]
    ensures [0] + [1] + [] == [0, 1] && [1] + [] + [0] == [1, 0] && [1] + [] + [] == [1] && [] + [] + [1] == [1]
  {
  }

  /** d's edges both go back, to the grey headers c and b. */
  lemma TwoWalkD(removed: set<BlockId>, visited: set<BlockId>, grey: set<BlockId>)
    requires removed == {} && visited == {0, 1, 2} && grey == {0, 1, 2}
    ensures Wf(TwoLoops) && Walk(TwoLoops, removed, 3, visited, grey) == Trace([3], [3], [(3, 2), (3, 1)])
  {
    TwoLoopsWf();
    Concats();
    TwoLoopsConcats();
    var t1 := Trace([], [], [(3, 2)]);
    var t2 := Trace([], [], [(3, 1)]);
    assert Step(TwoLoops, removed, 3, Some(2), visited + {3}, grey + {3}) == t1;
    assert Step(TwoLoops, removed, 3, Some(1), visited + {3} + Elems(t1.pre), grey + {3}) == t2;
    Combine(TwoLoops, removed, 3, visited, grey, t1, t2, Trace([3], [3], [(3, 2), (3, 1)]));
  }

  lemma TwoWalkC(removed: set<BlockId>, visited: set<BlockId>, grey: set<BlockId>)
    requires removed == {} && visited == {0, 1} && grey == {0, 1}
    ensures Wf(TwoLoops) && Walk(TwoLoops, removed, 2, visited, grey) == Trace([2, 3], [3, 2], [(3, 2), (3, 1)])
  {
    var t1 := Trace([3], [3], [(3, 2), (3, 1)]);
    TwoWalkD(removed, visited + {2}, grey + {2});
    StepEnters(TwoLoops, removed, 2, 3, visited + {2}, grey + {2}, t1);
    Concats();
    TwoLoopsConcats();
    Combine(TwoLoops, removed, 2, visited, grey, t1, Trace([], [], []), Trace([2, 3], [3, 2], [(3, 2), (3, 1)]));
  }

  lemma TwoWalkB(removed: set<BlockId>, visited: set<BlockId>, grey: set<BlockId>)
    requires removed == {} && visited == {0} && grey == {0}
    ensures Wf(TwoLoops) && Walk(TwoLoops, removed, 1, visited, grey) == Trace([1, 2, 3], [3, 2, 1], [(3, 2), (3, 1)])
  {
    var t1 := Trace([2, 3], [3, 2], [(3, 2), (3, 1)]);
    TwoWalkC(removed, visited + {1}, grey + {1});
    StepEnters(TwoLoops, removed, 1, 2, visited + {1}, grey + {1}, t1);
    Concats();
    TwoLoopsConcats();
    Combine(TwoLoops, removed, 1, visited, grey, t1, Trace([], [], []), Trace([1, 2, 3], [3, 2, 1], [(3, 2), (3, 1)]));
  }

  lemma TwoLoopsWalk(removed: set<BlockId>, none: set<BlockId>)
    requires removed == {} && none == {}
    ensures Wf(TwoLoops)
    ensures Walk(TwoLoops, removed, 0, none, none) == Trace([0, 1, 2, 3], [3, 2, 1, 0], [(3, 2), (3, 1)])
  {
    var t1 := Trace([1, 2, 3], [3, 2, 1], [(3, 2), (3, 1)]);
    TwoWalkB(removed, none + {0}, none + {0});
    StepEnters(TwoLoops, removed, 0, 1, none + {0}, none + {0}, t1);
    Concats();
    TwoLoopsConcats();
    Combine(TwoLoops, removed, 0, none, none, t1, Trace([], [], []), Trace([0, 1, 2, 3], [3, 2, 1, 0], [(3, 2), (3, 1)]));
  }

  /** The back edges are d -> c and d -> b, the reverse postorder a, b, c, d, and
      every block is reachable. */
  lemma TwoLoopsOrder()
    ensures Wf(TwoLoops)
    ensures BackEdges(TwoLoops, 0) == [(3, 2), (3, 1)]
    ensures RpoOrder(TwoLoops, 0) == [0, 1, 2, 3]
    ensures ReachSet(TwoLoops, {}, 0) == {0, 1, 2, 3}
  {
    TwoLoopsWalk({}, {});
    var r := Reverse([3, 2, 1, 0]);
    assert r[0] == 0 && r[1] == 1 && r[2] == 2 && r[3] == 3;
    assert r == [0, 1, 2, 3];
    DfsOrderIsReachSet(TwoLoops, {}, 0);
    assert DfsOrder(TwoLoops, {}, 0) == [0, 1, 2, 3];
  }

  /** Without b, only a is reachable: b dominates d. */
  lemma TwoLoopsBDominates(removed: set<BlockId>, none: set<BlockId>)
    requires removed == {1} && none == {}
    ensures Dominates(TwoLoops, 0, 1, 3)
  {
    TwoLoopsWf();
    Concats();
    Combine(TwoLoops, removed, 0, none, none, Trace([], [], []), Trace([], [], []), Trace([0], [0], []));
    assert DfsOrder(TwoLoops, removed, 0) == [0];
    DfsOrderIsReachSet(TwoLoops, removed, 0);
    assert 3 !in ReachSet(TwoLoops, removed, 0);
    DominatesIffUnreachable(TwoLoops, 0, 1, 3);
  }

  /** Without c, only a and b are reachable: c dominates d. */
  lemma TwoLoopsCDominates(removed: set<BlockId>, none: set<BlockId>)
    requires removed == {2} && none == {}
    ensures Dominates(TwoLoops, 0, 2, 3)
  {
    TwoLoopsWf();
    Concats();
    TwoLoopsConcats();
    var t1 := Trace([1], [1], []);
    Combine(TwoLoops, removed, 1, none + {0}, none + {0}, Trace([], [], []), Trace([], [], []), t1);
    StepEnters(TwoLoops, removed, 0, 1, none + {0}, none + {0}, t1);
    Combine(TwoLoops, removed, 0, none, none, t1, Trace([], [], []), Trace([0, 1], [1, 0], []));
    assert DfsOrder(TwoLoops, removed, 0) == [0, 1];
    DfsOrderIsReachSet(TwoLoops, removed, 0);
    assert 3 !in ReachSet(TwoLoops, removed, 0);
    DominatesIffUnreachable(TwoLoops, 0, 2, 3);
  }

  /** The keys: the root and the targets of the two back edges. */
  lemma TwoLoopsKeys(tree: LoopTree)
    requires Wf(TwoLoops) && Root in tree
    requires forall h: BlockId :: Header(h) in tree <==> exists u: BlockId :: (u, h) in BackEdges(TwoLoops, 0)
    ensures tree.Keys == {Root, Header(1), Header(2)}
  {
    TwoLoopsOrder();
    assert (3, 1) in BackEdges(TwoLoops, 0) && (3, 2) in BackEdges(TwoLoops, 0);
    forall k | k in tree ensures k == Root || k == Header(1) || k == Header(2) {
      if k.Header? {
        var u: BlockId :| (u, k.block) in BackEdges(TwoLoops, 0);
      }
    }
  }

  /** What `HeaderLoop` fixes of the loops of b and c: latch d, reducible. */
  lemma TwoLoopsShape(l: Loop, h: BlockId)
    requires Wf(TwoLoops) && (h == 1 || h == 2)
    requires HeaderLoop(TwoLoops, 0, l, h)
    ensures l.latches == [3] && l.reducible
  {
    TwoLoopsOrder();
    var back: seq<(BlockId, BlockId)> := [(3, 2), (3, 1)];
    assert back[1..] == [(3, 1)] && |back[1..][1..]| == 0;
    assert LatchesOf(back, h) == [3];
    if h == 1 {
      TwoLoopsBDominates({1}, {});
    } else {
      TwoLoopsCDominates({2}, {});
    }
    assert 3 in l.latches && 3 != h;
  }

  /** The walks of b reach c: a backward walk from d enters c without passing
      through b, and no irreducible loop has c as a latch. */
  lemma TwoLoopsNests(tree: LoopTree)
    requires tree.Keys == {Root, Header(1), Header(2)} && tree[Root].latches == []
    requires tree[Header(1)].latches == [3] && tree[Header(1)].reducible
    requires tree[Header(2)].latches == [3] && tree[Header(2)].reducible
    ensures Nests(TwoLoops, tree, ReachSet(TwoLoops, {}, 0), 1, 2)
  {
    TwoLoopsOrder();
    var reach := ReachSet(TwoLoops, {}, 0);
    var avoid := {1} + (Blocks(TwoLoops) - reach);
    assert 2 !in avoid;
    assert IsPredPath(TwoLoops, avoid, [3, 2]);
    assert PredReaches(TwoLoops, avoid, 3, 2) by { assert [3, 2][1] == 2; }
    assert 3 in [3];
    assert ReachedFromLatch(TwoLoops, avoid, [3], 2);
    assert 2 in LatchBody(TwoLoops, avoid, tree[Header(1)].latches);
    assert 2 !in IrreducibleLatches(tree);
  }

  /** In any tree meeting `loop_tree`'s promises on this graph, the loop of c has
      the loop of b as its outer loop: b comes before c in the reverse postorder
      and its walks reach c, so c's loop gets a loop as its outer loop, and the
      only loop other than c's own is b's. */
  lemma TwoLoopsNesting(tree: LoopTree, reach: set<BlockId>, rpo: seq<BlockId>)
    requires tree.Keys == {Root, Header(1), Header(2)} && Nested(tree)
    requires rpo == [0, 1, 2, 3] && OuterComplete(TwoLoops, tree, reach, rpo)
    requires Nests(TwoLoops, tree, reach, 1, 2)
    ensures tree[Header(2)].outer == Some(Header(1))
  {
    assert rpo[1] == 1 && rpo[2] == 2;
    assert tree[Header(2)].outer.Some? && tree[Header(2)].outer.value.Header?;
    assert InnerListsWf(tree);
  }

  /** `loop_tree(a)` on this graph. */
  method TwoLoopsTree() returns (tree: LoopTree)
    ensures tree.Keys == {Root, Header(1), Header(2)}
    ensures tree[Header(1)].latches == [3] && tree[Header(1)].reducible
    ensures tree[Header(2)].latches == [3] && tree[Header(2)].reducible
    ensures tree[Header(2)].outer == Some(Header(1))
  {
    TwoLoopsWf();
    tree := ComputeLoopTree(TwoLoops, 0);
    TwoLoopsKeys(tree);
    TwoLoopsShape(tree[Header(1)], 1);
    TwoLoopsShape(tree[Header(2)], 2);
    TwoLoopsOrder();
    TwoLoopsNests(tree);
    TwoLoopsNesting(tree, ReachSet(TwoLoops, {}, 0), RpoOrder(TwoLoops, 0));
  }
}
