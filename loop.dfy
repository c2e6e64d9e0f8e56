/** The loop records of lib/cfg_analysis/loop.hpp and `collect_back_edges`: a DFS
    from the entry with the grey (on the active path) marker; every edge into a
    grey block is a back edge whose target becomes a loop header and whose source
    becomes one of its latches. */
module Loops {
  import opened Wrappers
  import opened Cfg
  import opened Walks
  import opened Dom
  import opened Rpo

  /** The key of a loop in the loop tree: its header block, or `Root` for the
      root loop, which the source keys by `nullptr`. */
  datatype LoopKey = Root | Header(block: BlockId)

  /** `Loop`: `outer_loop` and `inner_loops` hold keys of the tree instead of addresses. */
  datatype Loop = Loop(header: Option<BlockId>, latches: seq<BlockId>, blocks: seq<BlockId>,
                       reducible: bool, outer: Option<LoopKey>, inner: seq<LoopKey>)

  /** A value-initialised `Loop`, as `loop_tree[h]` creates it. */
  const EmptyLoop: Loop := Loop(None, [], [], false, None, [])

  type LoopTree = map<LoopKey, Loop>

  /** The loop stored under `h`, or a fresh one. */
  function LoopAt(tree: LoopTree, h: BlockId): Loop {
    if Header(h) in tree then tree[Header(h)] else EmptyLoop
  }

  /** One back edge `u -> h`: `h` is the header, the header is pushed onto the
      blocks again, `u` is pushed onto the latches, and the loop becomes reducible
      once the header's dominated list holds a latch. */
  function RecordBackEdge(tree: LoopTree, dom: DomTree, u: BlockId, h: BlockId): LoopTree
    requires h in dom
  {
    var loop := LoopAt(tree, h);
    tree[Header(h) := loop.(header := Some(h), blocks := loop.blocks + [h], latches := loop.latches + [u],
                            reducible := loop.reducible || u in dom[h])]
  }

  /** The back edges `back` recorded in order. */
  function RecordAll(tree: LoopTree, dom: DomTree, back: seq<(BlockId, BlockId)>): LoopTree
    requires forall e :: e in back ==> e.1 in dom
    decreases |back|
  {
    if back == [] then tree else RecordAll(RecordBackEdge(tree, dom, back[0].0, back[0].1), dom, back[1..])
  }

  /** The sources of the back edges into `h`, in order. */
  function LatchesOf(back: seq<(BlockId, BlockId)>, h: BlockId): seq<BlockId> {
    if back == [] then [] else (if back[0].1 == h then [back[0].0] else []) + LatchesOf(back[1..], h)
  }

  /** The loop `l` after the latches `ls` of header `h` have been recorded. */
  function Extend(l: Loop, h: BlockId, ls: seq<BlockId>, doms: seq<BlockId>): Loop {
    l.(header := Some(h), latches := l.latches + ls, blocks := l.blocks + seq(|ls|, _ => h),
       reducible := l.reducible || exists u :: u in ls && u in doms)
  }

  lemma ExtendCompose(l: Loop, h: BlockId, a: seq<BlockId>, b: seq<BlockId>, doms: seq<BlockId>)
    ensures Extend(Extend(l, h, a, doms), h, b, doms) == Extend(l, h, a + b, doms)
  {
    assert seq(|a|, _ => h) + seq(|b|, _ => h) == seq(|a + b|, _ => h);
    assert l.latches + a + b == l.latches + (a + b);
    assert l.blocks + seq(|a|, _ => h) + seq(|b|, _ => h) == l.blocks + (seq(|a|, _ => h) + seq(|b|, _ => h));
    if exists u :: u in a + b && u in doms {
      var u :| u in a + b && u in doms;
      assert u in a || u in b;
    }
  }

  /** What recording `back` does to the loop of each header `h`: it exists iff it
      existed or `h` is the target of a back edge; then its latches are extended
      by the sources of those edges in order, its blocks by one copy of `h` per
      edge, and it is reducible iff it was or `h` dominates one of the new
      latches. The root entry is not touched. */
  lemma {:induction false} RecordAllLoop(tree: LoopTree, dom: DomTree, back: seq<(BlockId, BlockId)>, h: BlockId)
    requires forall e :: e in back ==> e.1 in dom
    ensures var r := RecordAll(tree, dom, back);
      (Header(h) in r <==> Header(h) in tree || LatchesOf(back, h) != []) &&
      (LatchesOf(back, h) != [] ==> h in dom && r[Header(h)] == Extend(LoopAt(tree, h), h, LatchesOf(back, h), dom[h])) &&
      (LatchesOf(back, h) == [] && Header(h) in tree ==> r[Header(h)] == tree[Header(h)])
    ensures (Root in RecordAll(tree, dom, back) <==> Root in tree) &&
      (Root in tree ==> RecordAll(tree, dom, back)[Root] == tree[Root])
    decreases |back|
  {
    if back != [] {
      var (u, v) := back[0];
      var t1 := RecordBackEdge(tree, dom, u, v);
      RecordAllLoop(t1, dom, back[1..], h);
      var rest := LatchesOf(back[1..], h);
      if v == h {
        assert LatchesOf(back, h) == [u] + rest;
        assert LoopAt(t1, h) == Extend(LoopAt(tree, h), h, [u], dom[h]);
        ExtendCompose(LoopAt(tree, h), h, [u], rest, dom[h]);
      } else {
        assert LatchesOf(back, h) == rest;
        assert LoopAt(t1, h) == LoopAt(tree, h);
      }
    }
  }

  lemma {:induction false} LatchesOfMembers(back: seq<(BlockId, BlockId)>, h: BlockId, u: BlockId)
    ensures u in LatchesOf(back, h) <==> (u, h) in back
    decreases |back|
  {
    if back != [] {
      LatchesOfMembers(back[1..], h, u);
      assert back == [back[0]] + back[1..];
    }
  }

  /** The loops that `collect_back_edges(entry)` records, given the map built by
      `dom(entry)`: one per target `h` of a back edge. Its latches are the sources
      of the back edges into `h` in DFS order; its blocks are `h` once per latch;
      it is reducible iff `h` dominates one of its latches other than itself; it
      has no outer and no inner loop yet. No root loop exists yet. */
  lemma BackEdgeLoops(g: Graph, entry: BlockId, dom: DomTree, h: BlockId)
    requires Wf(g) && entry < |g|
    requires dom.Keys == ReachSet(g, {}, entry)
    requires forall d :: d in dom ==> dom[d] == DomList(g, entry, d)
    ensures forall e :: e in BackEdges(g, entry) ==> e.1 in dom
    ensures var r := RecordAll(map[], dom, BackEdges(g, entry));
      var ls := LatchesOf(BackEdges(g, entry), h);
      Root !in r &&
      (Header(h) in r <==> ls != []) &&
      (ls != [] ==>
         (r[Header(h)] ==
          Loop(Some(h), ls, seq(|ls|, _ => h), exists u :: u in ls && u != h && Dominates(g, entry, h, u), None, [])))
  {
    var back := BackEdges(g, entry);
    BackTargetsReachable(g, entry);
    RecordAllLoop(map[], dom, back, h);
    var ls := LatchesOf(back, h);
    if ls != [] {
      LatchesCloseCycles(g, entry, h);
      ReducibleIff(g, entry, h, ls, dom[h]);
      assert LoopAt(map[], h) == EmptyLoop;
      ExtendEmpty(h, ls, dom[h]);
    }
  }

  lemma ExtendEmpty(h: BlockId, ls: seq<BlockId>, doms: seq<BlockId>)
    ensures Extend(EmptyLoop, h, ls, doms) ==
      Loop(Some(h), ls, seq(|ls|, _ => h), exists u :: u in ls && u in doms, None, [])
  {
    assert [] + ls == ls;
    assert [] + seq(|ls|, _ => h) == seq(|ls|, _ => h);
  }

  lemma BackTargetsReachable(g: Graph, entry: BlockId)
    requires Wf(g) && entry < |g|
    ensures forall e :: e in BackEdges(g, entry) ==> e.0 in ReachSet(g, {}, entry) && e.1 in ReachSet(g, {}, entry)
  {
    WalkFromEntryEdges(g, {}, entry);
    WalkFromEntryReach(g, {}, entry);
  }

  /** Every latch of `h` has an edge into `h` and is reachable from `h`: the back
      edge closes a cycle. */
  lemma LatchesCloseCycles(g: Graph, entry: BlockId, h: BlockId)
    requires Wf(g) && entry < |g|
    ensures forall u :: u in LatchesOf(BackEdges(g, entry), h) ==>
      Edge(g, u, h) && Reaches(g, {}, h, u) && u in ReachSet(g, {}, entry)
  {
    WalkFromEntryEdges(g, {}, entry);
    BackTargetsReachable(g, entry);
    forall u | u in LatchesOf(BackEdges(g, entry), h)
      ensures Edge(g, u, h) && Reaches(g, {}, h, u) && u in ReachSet(g, {}, entry)
    {
      LatchesOfMembers(BackEdges(g, entry), h, u);
    }
  }

  lemma ReducibleIff(g: Graph, entry: BlockId, h: BlockId, ls: seq<BlockId>, doms: seq<BlockId>)
    requires Wf(g) && entry < |g| && doms == DomList(g, entry, h)
    requires forall u :: u in ls ==> u in ReachSet(g, {}, entry)
    ensures (exists u :: u in ls && u in doms) <==> (exists u :: u in ls && u != h && Dominates(g, entry, h, u))
  {
    forall u | u in ls ensures u in doms <==> u != h && Dominates(g, entry, h, u) {
      DomListMeaning(g, entry, h, u);
    }
  }

  /** `RecordAll` over a concatenation records the two parts in turn. */
  lemma {:induction false} RecordAllConcat(tree: LoopTree, dom: DomTree, a: seq<(BlockId, BlockId)>, b: seq<(BlockId, BlockId)>)
    requires forall e :: e in a + b ==> e.1 in dom
    ensures RecordAll(tree, dom, a + b) == RecordAll(RecordAll(tree, dom, a), dom, b)
    decreases |a|
  {
    if a != [] {
      assert (a + b)[0] == a[0] && (a + b)[1..] == a[1..] + b;
      RecordAllConcat(RecordBackEdge(tree, dom, a[0].0, a[0].1), dom, a[1..], b);
    } else {
      assert a + b == b;
    }
  }

  /** Every recorded back edge runs into a grey block or a block of the walk. */
  lemma {:induction false} WalkBackTargets(g: Graph, removed: set<BlockId>, b: BlockId, visited: set<BlockId>, grey: set<BlockId>)
    requires Wf(g) && b < |g| && b !in visited
    ensures var t := Walk(g, removed, b, visited, grey);
      forall e :: e in t.back ==> e.1 in grey + Elems(t.pre)
    decreases |Blocks(g) - visited|, 0
  {
    CardShrinks(Blocks(g), visited, b);
    var v1 := visited + {b};
    var t1 := Step(g, removed, b, g[b].trueSucc, v1, grey + {b});
    StepBackTargets(g, removed, b, g[b].trueSucc, v1, grey + {b});
    var v2 := v1 + Elems(t1.pre);
    CardMonotone(Blocks(g), v1, v2);
    var t2 := Step(g, removed, b, g[b].falseSucc, v2, grey + {b});
    StepBackTargets(g, removed, b, g[b].falseSucc, v2, grey + {b});
    WalkUnfold(g, removed, b, visited, grey);
    BackTargetsCombine(b, t1, t2, grey);
  }

  lemma BackTargetsCombine(b: BlockId, t1: Trace, t2: Trace, grey: set<BlockId>)
    requires forall e :: e in t1.back ==> e.1 in grey + {b} + Elems(t1.pre)
    requires forall e :: e in t2.back ==> e.1 in grey + {b} + Elems(t2.pre)
    ensures forall e :: e in t1.back + t2.back ==> e.1 in grey + Elems([b] + t1.pre + t2.pre)
  {
    ElemsConcat([b], t1.pre);
    ElemsConcat([b] + t1.pre, t2.pre);
  }

  lemma {:induction false} StepBackTargets(g: Graph, removed: set<BlockId>, u: BlockId, s: Option<BlockId>,
                                           visited: set<BlockId>, grey: set<BlockId>)
    requires Wf(g) && (s.Some? ==> s.value < |g|)
    ensures var t := Step(g, removed, u, s, visited, grey);
      forall e :: e in t.back ==> e.1 in grey + Elems(t.pre)
    decreases |Blocks(g) - visited|, 1
  {
    if s.Some? && s.value !in removed && s.value !in visited {
      WalkBackTargets(g, removed, s.value, visited, grey);
    }
  }

  /** `collect_back_edges(b)`: mark `b` visited and grey, process the true and the
      false successor, then take the grey mark off `b` (the callee's `grey` is the
      caller's plus `b`; the caller's set is unchanged). */
  method CollectBackEdges(g: Graph, removed: set<BlockId>, b: BlockId, tree: LoopTree, dom: DomTree,
                          visited: set<BlockId>, grey: set<BlockId>)
    returns (treeOut: LoopTree, visitedOut: set<BlockId>)
    requires Wf(g) && b < |g| && b !in visited
    requires grey + Elems(Walk(g, removed, b, visited, grey).pre) <= dom.Keys
    ensures WalkBackTargetsIn(g, removed, b, visited, grey, dom)
    ensures treeOut == RecordAll(tree, dom, Walk(g, removed, b, visited, grey).back)
    ensures visitedOut == visited + Elems(Walk(g, removed, b, visited, grey).pre)
    decreases |Blocks(g) - visited|, 0
  {
    CardShrinks(Blocks(g), visited, b);
    WalkUnfold(g, removed, b, visited, grey);
    WalkBackTargets(g, removed, b, visited, grey);
    ghost var t1 := Step(g, removed, b, g[b].trueSucc, visited + {b}, grey + {b});
    ElemsConcat([b], t1.pre);
    ElemsConcat([b] + t1.pre, Step(g, removed, b, g[b].falseSucc, visited + {b} + Elems(t1.pre), grey + {b}).pre);
    var v1 := visited + {b};
    var tr1, v2 := CollectSuccessor(g, removed, b, g[b].trueSucc, tree, dom, v1, grey + {b});
    CardMonotone(Blocks(g), v1, v2);
    treeOut, visitedOut := CollectSuccessor(g, removed, b, g[b].falseSucc, tr1, dom, v2, grey + {b});
    CollectComposes(g, removed, b, visited, grey, tree, dom, tr1, v2, treeOut, visitedOut);
  }

  /** All back edges of the walk run into blocks the dominator map knows. */
  ghost predicate WalkBackTargetsIn(g: Graph, removed: set<BlockId>, b: BlockId, visited: set<BlockId>,
                                    grey: set<BlockId>, dom: DomTree)
    requires Wf(g) && b < |g| && b !in visited
  {
    forall e :: e in Walk(g, removed, b, visited, grey).back ==> e.1 in dom
  }

  ghost predicate StepBackTargetsIn(g: Graph, removed: set<BlockId>, u: BlockId, s: Option<BlockId>,
                                    visited: set<BlockId>, grey: set<BlockId>, dom: DomTree)
    requires Wf(g) && (s.Some? ==> s.value < |g|)
  {
    forall e :: e in Step(g, removed, u, s, visited, grey).back ==> e.1 in dom
  }

  /** The two successor steps record the back edges of one level of `Walk`. */
  lemma CollectComposes(g: Graph, removed: set<BlockId>, b: BlockId, visited: set<BlockId>, grey: set<BlockId>,
                        tree: LoopTree, dom: DomTree, tr1: LoopTree, v2: set<BlockId>, tr2: LoopTree, v3: set<BlockId>)
    requires Wf(g) && b < |g| && b !in visited
    requires WalkBackTargetsIn(g, removed, b, visited, grey, dom)
    requires var t1 := Step(g, removed, b, g[b].trueSucc, visited + {b}, grey + {b});
      StepBackTargetsIn(g, removed, b, g[b].trueSucc, visited + {b}, grey + {b}, dom) &&
      tr1 == RecordAll(tree, dom, t1.back) && v2 == visited + {b} + Elems(t1.pre)
    requires var t2 := Step(g, removed, b, g[b].falseSucc, v2, grey + {b});
      StepBackTargetsIn(g, removed, b, g[b].falseSucc, v2, grey + {b}, dom) &&
      tr2 == RecordAll(tr1, dom, t2.back) && v3 == v2 + Elems(t2.pre)
    ensures tr2 == RecordAll(tree, dom, Walk(g, removed, b, visited, grey).back)
    ensures v3 == visited + Elems(Walk(g, removed, b, visited, grey).pre)
  {
    var t1 := Step(g, removed, b, g[b].trueSucc, visited + {b}, grey + {b});
    var t2 := Step(g, removed, b, g[b].falseSucc, v2, grey + {b});
    WalkUnfold(g, removed, b, visited, grey);
    RecordAllConcat(tree, dom, t1.back, t2.back);
    ElemsConcat([b], t1.pre);
    ElemsConcat([b] + t1.pre, t2.pre);
  }

  /** The `process_successor` lambda: skip an absent or removed successor; record
      a back edge into a grey one; descend into one not yet visited. */
  method CollectSuccessor(g: Graph, removed: set<BlockId>, u: BlockId, s: Option<BlockId>, tree: LoopTree,
                          dom: DomTree, visited: set<BlockId>, grey: set<BlockId>)
    returns (treeOut: LoopTree, visitedOut: set<BlockId>)
    requires Wf(g) && (s.Some? ==> s.value < |g|)
    requires grey + Elems(Step(g, removed, u, s, visited, grey).pre) <= dom.Keys
    ensures StepBackTargetsIn(g, removed, u, s, visited, grey, dom)
    ensures treeOut == RecordAll(tree, dom, Step(g, removed, u, s, visited, grey).back)
    ensures visitedOut == visited + Elems(Step(g, removed, u, s, visited, grey).pre)
    decreases |Blocks(g) - visited|, 1
  {
    StepBackTargets(g, removed, u, s, visited, grey);
    if s.None? || s.value in removed {
      return tree, visited;
    }
    var v := s.value;
    treeOut, visitedOut := tree, visited;
    ghost var back: seq<(BlockId, BlockId)> := [];
    if v in grey {
      treeOut := RecordBackEdge(treeOut, dom, u, v);
      back := [(u, v)];
    }
    assert treeOut == RecordAll(tree, dom, back);
    if v !in visited {
      ghost var sub := Walk(g, removed, v, visited, grey);
      treeOut, visitedOut := CollectBackEdges(g, removed, v, treeOut, dom, visited, grey);
      RecordAllConcat(tree, dom, back, sub.back);
    } else {
      assert back + [] == back;
    }
  }
}
