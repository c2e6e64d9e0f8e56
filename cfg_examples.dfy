/** Two graphs of the analyses' test fixtures, with blocks numbered in the order
    the builder creates them (a = 0, b = 1, ...), and the results the tests
    expect for them. Each walk is taken apart node by node: one lemma per block
    visited, each fed the sets its caller threads. */
module CfgExamples {
  import opened Wrappers
  import opened Cfg
  import opened Walks
  import opened Dfs
  import opened Rpo
  import opened Dom
  import opened Loops

  /** The first fixture: a -> b, b -> c (true) and b -> f (false), c -> d,
      f -> e (true) and f -> g (false), e -> d, g -> d. */
  const Example1: Graph := [
    Node(Some(1), None, []),
    Node(Some(2), Some(5), [0]),
    Node(Some(3), None, [1]),
    Node(None, None, [2, 4, 6]),
    Node(Some(3), None, [5]),
    Node(Some(4), Some(6), [1]),
    Node(Some(3), None, [5])
  ]

  lemma Example1Wf()
    ensures Wf(Example1)
  {
  }

  /** A successor that is not removed, not grey and not yet visited is walked. */
  lemma StepEnters(g: Graph, removed: set<BlockId>, u: BlockId, v: BlockId, visited: set<BlockId>,
                   grey: set<BlockId>, t: Trace)
    requires Wf(g) && v < |g| && v !in removed && v !in grey && v !in visited
    requires Walk(g, removed, v, visited, grey) == t
    ensures Step(g, removed, u, Some(v), visited, grey) == t
  {
    assert [] + t.back == t.back;
  }

  /** A successor already visited and no longer grey adds nothing. */
  lemma StepSkips(g: Graph, removed: set<BlockId>, u: BlockId, v: BlockId, visited: set<BlockId>, grey: set<BlockId>)
    requires Wf(g) && v < |g| && v in visited && v !in grey
    ensures Step(g, removed, u, Some(v), visited, grey) == Trace([], [], [])
  {
  }

  /** One level of `Walk` once its two successor steps are known. */
  lemma Combine(g: Graph, removed: set<BlockId>, b: BlockId, visited: set<BlockId>, grey: set<BlockId>,
                t1: Trace, t2: Trace, t: Trace)
    requires Wf(g) && b < |g| && b !in visited
    requires Step(g, removed, b, g[b].trueSucc, visited + {b}, grey + {b}) == t1
    requires Step(g, removed, b, g[b].falseSucc, visited + {b} + Elems(t1.pre), grey + {b}) == t2
    requires t == Trace([b] + t1.pre + t2.pre, t1.post + t2.post + [b], t1.back + t2.back)
    ensures Walk(g, removed, b, visited, grey) == t
  {
    WalkUnfold(g, removed, b, visited, grey);
  }

  /** The concatenations the walks below put together. */
  lemma Concats()
    ensures [0] + [] + [] == [0] && [0] + [] == [0]
    ensures [0] + [1, 2, 3] + [] == [0, 1, 2, 3] && [3, 2, 1] + [] + [0] == [3, 2, 1, 0]
    ensures [0] + [1, 2, 3, 5, 4, 6] + [] == [0, 1, 2, 3, 5, 4, 6]
    ensures [3, 2, 4, 6, 5, 1] + [] + [0] == [3, 2, 4, 6, 5, 1, 0]
    ensures [1] + [2, 3] + [5, 4, 6] == [1, 2, 3, 5, 4, 6] && [3, 2] + [4, 6, 5] + [1] == [3, 2, 4, 6, 5, 1]
    ensures [1] + [2, 3] + [] == [1, 2, 3] && [3, 2] + [] + [1] == [3, 2, 1]
    ensures [5] + [4] + [6] == [5, 4, 6] && [4] + [6] + [5] == [4, 6, 5]
    ensures [2] + [3] + [] == [2, 3] && [3] + [] + [2] == [3, 2]
    ensures [3] + [] + [] == [3] && [] + [] + [3] == [3]
    ensures [4] + [] + [] == [4] && [] + [] + [4] == [4] && [6] + [] + [] == [6] && [] + [] + [6] == [6]
  {
  }

  lemma WalkD(removed: set<BlockId>, visited: set<BlockId>, grey: set<BlockId>)
    requires 3 !in visited
    ensures Wf(Example1) && Walk(Example1, removed, 3, visited, grey) == Trace([3], [3], [])
  {
    Example1Wf();
    WalkUnfold(Example1, removed, 3, visited, grey);
  }

  lemma WalkC(removed: set<BlockId>, visited: set<BlockId>, grey: set<BlockId>)
    requires 3 !in removed && 2 !in visited && 3 !in visited && 3 !in grey
    ensures Wf(Example1) && Walk(Example1, removed, 2, visited, grey) == Trace([2, 3], [3, 2], [])
  {
    WalkD(removed, visited + {2}, grey + {2});
    StepEnters(Example1, removed, 2, 3, visited + {2}, grey + {2}, Trace([3], [3], []));
    WalkUnfold(Example1, removed, 2, visited, grey);
  }

  /** A block whose only successor is d, entered after d was visited. */
  lemma WalkToD(removed: set<BlockId>, b: BlockId, visited: set<BlockId>, grey: set<BlockId>)
    requires b == 4 || b == 6
    requires b !in visited && 3 in visited && 3 !in grey
    ensures Wf(Example1) && Walk(Example1, removed, b, visited, grey) == Trace([b], [b], [])
  {
    Example1Wf();
    StepSkips(Example1, removed, b, 3, visited + {b}, grey + {b});
    WalkUnfold(Example1, removed, b, visited, grey);
  }

  lemma WalkF(removed: set<BlockId>, visited: set<BlockId>, grey: set<BlockId>)
    requires 4 !in removed && 6 !in removed
    requires 3 in visited && 4 !in visited && 5 !in visited && 6 !in visited
    requires 3 !in grey && 4 !in grey && 6 !in grey
    ensures Wf(Example1) && Walk(Example1, removed, 5, visited, grey) == Trace([5, 4, 6], [4, 6, 5], [])
  {
    var g := Example1;
    var v1 := visited + {5};
    WalkToD(removed, 4, v1, grey + {5});
    StepEnters(g, removed, 5, 4, v1, grey + {5}, Trace([4], [4], []));
    assert Elems([4]) == {4};
    WalkToD(removed, 6, v1 + Elems([4]), grey + {5});
    StepEnters(g, removed, 5, 6, v1 + Elems([4]), grey + {5}, Trace([6], [6], []));
    WalkUnfold(g, removed, 5, visited, grey);
  }

  /** b's true edge leads into c and d. */
  lemma StepBToC(removed: set<BlockId>, visited: set<BlockId>, grey: set<BlockId>)
    requires 3 !in removed && 2 !in removed && 2 !in visited && 3 !in visited && 2 !in grey && 3 !in grey
    ensures Wf(Example1) && Step(Example1, removed, 1, Example1[1].trueSucc, visited, grey) == Trace([2, 3], [3, 2], [])
  {
    WalkC(removed, visited, grey);
    StepEnters(Example1, removed, 1, 2, visited, grey, Trace([2, 3], [3, 2], []));
  }

  /** b's false edge leads into f, e and g once d is visited. */
  lemma StepBToF(removed: set<BlockId>, visited: set<BlockId>, grey: set<BlockId>)
    requires 4 !in removed && 5 !in removed && 6 !in removed
    requires 3 in visited && 4 !in visited && 5 !in visited && 6 !in visited
    requires 3 !in grey && 4 !in grey && 5 !in grey && 6 !in grey
    ensures Wf(Example1) && Step(Example1, removed, 1, Example1[1].falseSucc, visited, grey) == Trace([5, 4, 6], [4, 6, 5], [])
  {
    WalkF(removed, visited, grey);
    StepEnters(Example1, removed, 1, 5, visited, grey, Trace([5, 4, 6], [4, 6, 5], []));
  }

  /** The subtree under b: c and d first, then f with e and g. */
  lemma WalkB(removed: set<BlockId>, visited: set<BlockId>, grey: set<BlockId>)
    requires removed == {} && visited == {0} && grey == {0}
    ensures Wf(Example1)
    ensures Walk(Example1, removed, 1, visited, grey) == Trace([1, 2, 3, 5, 4, 6], [3, 2, 4, 6, 5, 1], [])
  {
    var t1 := Trace([2, 3], [3, 2], []);
    StepBToC(removed, visited + {1}, grey + {1});
    assert Elems(t1.pre) == {2, 3};
    StepBToF(removed, visited + {1} + Elems(t1.pre), grey + {1});
    Concats();
    Combine(Example1, removed, 1, visited, grey, t1, Trace([5, 4, 6], [4, 6, 5], []),
            Trace([1, 2, 3, 5, 4, 6], [3, 2, 4, 6, 5, 1], []));
  }

  /** The same subtree with f removed: only c and d. */
  lemma WalkBWithoutF(removed: set<BlockId>, visited: set<BlockId>, grey: set<BlockId>)
    requires 5 in removed && 2 !in removed && 3 !in removed
    requires forall b :: b in visited ==> b == 0
    requires forall b :: b in grey ==> b == 0
    ensures Wf(Example1)
    ensures Walk(Example1, removed, 1, visited, grey) == Trace([1, 2, 3], [3, 2, 1], [])
  {
    var g := Example1;
    var v1 := visited + {1};
    WalkC(removed, v1, grey + {1});
    StepEnters(g, removed, 1, 2, v1, grey + {1}, Trace([2, 3], [3, 2], []));
    WalkUnfold(g, removed, 1, visited, grey);
  }

  /** The walk from a: b and everything under it. */
  /** a's only edge leads into b and everything under it. */
  lemma StepAToB(removed: set<BlockId>, visited: set<BlockId>, grey: set<BlockId>)
    requires removed == {} && visited == {0} && grey == {0}
    ensures Wf(Example1)
    ensures Step(Example1, removed, 0, Example1[0].trueSucc, visited, grey) == Trace([1, 2, 3, 5, 4, 6], [3, 2, 4, 6, 5, 1], [])
  {
    WalkB(removed, visited, grey);
    StepEnters(Example1, removed, 0, 1, visited, grey, Trace([1, 2, 3, 5, 4, 6], [3, 2, 4, 6, 5, 1], []));
  }

  lemma Example1Walk(removed: set<BlockId>, none: set<BlockId>)
    requires removed == {} && none == {}
    ensures Wf(Example1)
    ensures Walk(Example1, removed, 0, none, none) == Trace([0, 1, 2, 3, 5, 4, 6], [3, 2, 4, 6, 5, 1, 0], [])
  {
    StepAToB(removed, none + {0}, none + {0});
    Concats();
    Combine(Example1, removed, 0, none, none, Trace([1, 2, 3, 5, 4, 6], [3, 2, 4, 6, 5, 1], []), Trace([], [], []),
            Trace([0, 1, 2, 3, 5, 4, 6], [3, 2, 4, 6, 5, 1, 0], []));
  }

  /** The DFS test: a, b, c, d, f, e, g. */
  lemma Example1Dfs()
    ensures Wf(Example1)
    ensures DfsOrder(Example1, {}, 0) == [0, 1, 2, 3, 5, 4, 6]
  {
    Example1Walk({}, {});
  }

  lemma ReversePost()
    ensures Reverse([3, 2, 4, 6, 5, 1, 0]) == [0, 1, 5, 6, 4, 2, 3]
  {
  }

  /** The RPO test: a, b, f, g, e, c, d. */
  lemma Example1Rpo()
    ensures Wf(Example1)
    ensures RpoOrder(Example1, 0) == [0, 1, 5, 6, 4, 2, 3]
  {
    Example1Walk({}, {});
    ReversePost();
  }

  /** With b removed only a is reached. */
  lemma Example1DfsWithoutB(removed: set<BlockId>, none: set<BlockId>)
    requires removed == {1} && none == {}
    ensures Wf(Example1) && DfsOrder(Example1, removed, 0) == [0]
  {
    Example1Wf();
    Combine(Example1, removed, 0, none, none, Trace([], [], []), Trace([], [], []), Trace([0], [0], []));
  }

  /** With f removed a, b, c and d are reached. */
  lemma Example1DfsWithoutF(removed: set<BlockId>, none: set<BlockId>)
    requires removed == {5} && none == {}
    ensures Wf(Example1) && DfsOrder(Example1, removed, 0) == [0, 1, 2, 3]
  {
    var t1 := Trace([1, 2, 3], [3, 2, 1], []);
    WalkBWithoutF(removed, none + {0}, none + {0});
    StepEnters(Example1, removed, 0, 1, none + {0}, none + {0}, t1);
    Concats();
    Combine(Example1, removed, 0, none, none, t1, Trace([], [], []), Trace([0, 1, 2, 3], [3, 2, 1, 0], []));
  }

  /** The list `dom` records for `d`, given the reduced DFS order, is duplicate
      free and holds exactly `expected`: the comparison of the test, which
      ignores order. */
  lemma DomListElems(d: BlockId, reached: seq<BlockId>, expected: set<BlockId>)
    requires Wf(Example1) && DfsOrder(Example1, {}, 0) == [0, 1, 2, 3, 5, 4, 6]
    requires DfsOrder(Example1, {d}, 0) == reached
    requires forall b :: b in expected <==> b in [0, 1, 2, 3, 5, 4, 6] && b != d && b !in reached
    ensures Distinct(DomList(Example1, 0, d)) && Elems(DomList(Example1, 0, d)) == expected
  {
    var order := [0, 1, 2, 3, 5, 4, 6];
    assert Distinct(order);
  }

  /** The DOM test's entry for b: it dominates c, d, f, e and g. */
  lemma Example1DomListB()
    ensures Wf(Example1)
    ensures Distinct(DomList(Example1, 0, 1)) && Elems(DomList(Example1, 0, 1)) == {2, 3, 4, 5, 6}
  {
    Example1Dfs();
    Example1DfsWithoutB({1}, {});
    DomListElems(1, [0], {2, 3, 4, 5, 6});
  }

  /** The DOM test's entry for f: it dominates e and g. */
  lemma Example1DomListF()
    ensures Wf(Example1)
    ensures Distinct(DomList(Example1, 0, 5)) && Elems(DomList(Example1, 0, 5)) == {4, 6}
  {
    Example1Dfs();
    Example1DfsWithoutF({5}, {});
    DomListElems(5, [0, 1, 2, 3], {4, 6});
  }

  /** The fourth fixture: a -> b, b -> c (true) and b -> d (false), d -> e,
      e -> b. One loop with header b and latch e. */
  const Example4: Graph := [
    Node(Some(1), None, []),
    Node(Some(2), Some(3), [0, 4]),
    Node(None, None, [1]),
    Node(Some(4), None, [1]),
    Node(Some(1), None, [3])
  ]

  lemma Example4Wf()
    ensures Wf(Example4)
  {
  }

  /** Both edges of c are absent. */
  lemma E4WalkC(removed: set<BlockId>, visited: set<BlockId>, grey: set<BlockId>)
    requires 2 !in visited
    ensures Wf(Example4) && Walk(Example4, removed, 2, visited, grey) == Trace([2], [2], [])
  {
    Example4Wf();
    Concats();
    Combine(Example4, removed, 2, visited, grey, Trace([], [], []), Trace([], [], []), Trace([2], [2], []));
  }

  /** e's edge goes back to the grey header b. */
  lemma E4WalkE(removed: set<BlockId>, visited: set<BlockId>, grey: set<BlockId>)
    requires 1 !in removed && 1 in visited && 1 in grey && 4 !in visited
    ensures Wf(Example4) && Walk(Example4, removed, 4, visited, grey) == Trace([4], [4], [(4, 1)])
  {
    Example4Wf();
    Concats();
    assert Step(Example4, removed, 4, Some(1), visited + {4}, grey + {4}) == Trace([], [], [(4, 1)]);
    Combine(Example4, removed, 4, visited, grey, Trace([], [], [(4, 1)]), Trace([], [], []), Trace([4], [4], [(4, 1)]));
  }

  lemma E4WalkD(removed: set<BlockId>, visited: set<BlockId>, grey: set<BlockId>)
    requires 1 !in removed && 4 !in removed && 1 in visited && 1 in grey && 3 !in visited && 4 !in visited
    requires 4 !in grey
    ensures Wf(Example4) && Walk(Example4, removed, 3, visited, grey) == Trace([3, 4], [4, 3], [(4, 1)])
  {
    E4WalkE(removed, visited + {3}, grey + {3});
    StepEnters(Example4, removed, 3, 4, visited + {3}, grey + {3}, Trace([4], [4], [(4, 1)]));
    Concats();
    Combine(Example4, removed, 3, visited, grey, Trace([4], [4], [(4, 1)]), Trace([], [], []),
            Trace([3, 4], [4, 3], [(4, 1)]));
  }

  lemma E4WalkB(removed: set<BlockId>, visited: set<BlockId>, grey: set<BlockId>)
    requires removed == {} && visited == {0} && grey == {0}
    ensures Wf(Example4) && Walk(Example4, removed, 1, visited, grey) == Trace([1, 2, 3, 4], [2, 4, 3, 1], [(4, 1)])
  {
    var t1 := Trace([2], [2], []);
    var t2 := Trace([3, 4], [4, 3], [(4, 1)]);
    E4WalkC(removed, visited + {1}, grey + {1});
    StepEnters(Example4, removed, 1, 2, visited + {1}, grey + {1}, t1);
    assert Elems(t1.pre) == {2};
    E4WalkD(removed, visited + {1} + Elems(t1.pre), grey + {1});
    StepEnters(Example4, removed, 1, 3, visited + {1} + Elems(t1.pre), grey + {1}, t2);
    E4Concats();
    Combine(Example4, removed, 1, visited, grey, t1, t2, Trace([1, 2, 3, 4], [2, 4, 3, 1], [(4, 1)]));
  }

  lemma E4Concats()
    ensures [1] + [2] + [3, 4] == [1, 2, 3, 4] && [2] + [4, 3] + [1] == [2, 4, 3, 1]
    ensures [0] + [1, 2, 3, 4] + [] == [0, 1, 2, 3, 4] && [2, 4, 3, 1] + [] + [0] == [2, 4, 3, 1, 0]
    ensures [] + [(4, 1)] == [(4, 1)] && [(4, 1)] + [] == [(4, 1)]
  {
  }

  lemma Example4Walk(removed: set<BlockId>, none: set<BlockId>)
    requires removed == {} && none == {}
    ensures Wf(Example4)
    ensures Walk(Example4, removed, 0, none, none) == Trace([0, 1, 2, 3, 4], [2, 4, 3, 1, 0], [(4, 1)])
  {
    var t1 := Trace([1, 2, 3, 4], [2, 4, 3, 1], [(4, 1)]);
    E4WalkB(removed, none + {0}, none + {0});
    StepEnters(Example4, removed, 0, 1, none + {0}, none + {0}, t1);
    E4Concats();
    Combine(Example4, removed, 0, none, none, t1, Trace([], [], []), Trace([0, 1, 2, 3, 4], [2, 4, 3, 1, 0], [(4, 1)]));
  }

  /** The only back edge is e -> b. */
  lemma Example4BackEdges()
    ensures Wf(Example4) && BackEdges(Example4, 0) == [(4, 1)]
  {
    Example4Walk({}, {});
  }

  /** Removing b leaves only a reachable, so b dominates e. */
  lemma Example4HeaderDominatesLatch(removed: set<BlockId>, none: set<BlockId>)
    requires removed == {1} && none == {}
    ensures Dominates(Example4, 0, 1, 4)
  {
    Example4Wf();
    Concats();
    Combine(Example4, removed, 0, none, none, Trace([], [], []), Trace([], [], []), Trace([0], [0], []));
    assert DfsOrder(Example4, removed, 0) == [0];
    DfsOrderIsReachSet(Example4, removed, 0);
    assert 4 !in ReachSet(Example4, removed, 0);
    DominatesIffUnreachable(Example4, 0, 1, 4);
  }

  /** What `collect_back_edges` records for the fourth fixture, given the
      dominator map `dom` computes: one loop, with header b, latch e, the header
      as its one block so far, reducible, and not yet nested. */
  lemma Example4Loops(dom: DomTree)
    requires Wf(Example4)
    requires dom.Keys == ReachSet(Example4, {}, 0)
    requires forall d :: d in dom ==> dom[d] == DomList(Example4, 0, d)
    ensures forall e :: e in BackEdges(Example4, 0) ==> e.1 in dom
    ensures var r := RecordAll(map[], dom, BackEdges(Example4, 0));
      (forall h :: Header(h) in r <==> h == 1) &&
      r[Header(1)] == Loop(Some(1), [4], [1], true, None, [])
  {
    Example4BackEdges();
    Example4HeaderDominatesLatch({1}, {});
    forall h ensures LatchesOf([(4, 1)], h) == (if h == 1 then [4] else []) {
      assert [(4, 1)][1..] == [];
    }
    forall h {
      BackEdgeLoops(Example4, 0, dom, h);
    }
    assert seq(1, _ => 1) == [1];
  }
}
