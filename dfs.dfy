/** `dfs`: preorder of the blocks reachable from an entry, true successor first,
    skipping absent successors, blocks marked removed and blocks already visited.
    The visit marker is the explicit `visited` set threaded through the calls. */
module Dfs {
  import opened Wrappers
  import opened Cfg
  import opened Walks

  /** What `dfs(entry)` returns: nothing when the entry itself is marked removed. */
  function DfsOrder(g: Graph, removed: set<BlockId>, entry: BlockId): seq<BlockId>
    requires Wf(g) && entry < |g|
  {
    if entry in removed then [] else Walk(g, removed, entry, {}, {}).pre
  }

  /** Each block reachable from the entry (avoiding removed blocks) appears exactly
      once, and the entry comes first. */
  lemma DfsOrderIsReachSet(g: Graph, removed: set<BlockId>, entry: BlockId)
    requires Wf(g) && entry < |g|
    ensures Elems(DfsOrder(g, removed, entry)) == ReachSet(g, removed, entry)
    ensures Distinct(DfsOrder(g, removed, entry))
    ensures entry !in removed ==> DfsOrder(g, removed, entry)[0] == entry
    ensures entry in removed <==> DfsOrder(g, removed, entry) == []
  {
    if entry in removed {
      assert ReachSet(g, removed, entry) == {};
    } else {
      WalkFromEntryReach(g, removed, entry);
      WalkFromEntryOrders(g, removed, entry);
    }
  }

  /** Preorder: every block after the first is entered along an edge from a block
      listed before it. */
  ghost predicate EnteredFromEarlier(g: Graph, order: seq<BlockId>) {
    forall i :: 0 < i < |order| ==> exists j :: 0 <= j < i && Edge(g, order[j], order[i])
  }

  lemma ParentsCombine(g: Graph, b: BlockId, p1: seq<BlockId>, p2: seq<BlockId>)
    requires EnteredFromEarlier(g, p1) && EnteredFromEarlier(g, p2)
    requires p1 != [] ==> Edge(g, b, p1[0])
    requires p2 != [] ==> Edge(g, b, p2[0])
    ensures EnteredFromEarlier(g, [b] + p1 + p2)
  {
    var o := [b] + p1 + p2;
    assert o[0] == b;
    forall i | 0 < i < |o| ensures exists j :: 0 <= j < i && Edge(g, o[j], o[i]) {
      if i == 1 && p1 != [] {
        assert o[i] == p1[0];
        assert Edge(g, o[0], o[i]);
      } else if i == 1 + |p1| {
        assert o[i] == p2[0];
        assert Edge(g, o[0], o[i]);
      } else if i < 1 + |p1| {
        assert o[i] == p1[i - 1];
        var j :| 0 <= j < i - 1 && Edge(g, p1[j], p1[i - 1]);
        assert o[j + 1] == p1[j];
        assert Edge(g, o[j + 1], o[i]);
      } else {
        assert o[i] == p2[i - 1 - |p1|];
        var j :| 0 <= j < i - 1 - |p1| && Edge(g, p2[j], p2[i - 1 - |p1|]);
        assert o[j + 1 + |p1|] == p2[j];
        assert Edge(g, o[j + 1 + |p1|], o[i]);
      }
    }
  }

  lemma {:induction false} WalkEnteredFromEarlier(g: Graph, removed: set<BlockId>, b: BlockId,
                                                  visited: set<BlockId>, grey: set<BlockId>)
    requires Wf(g) && b < |g| && b !in visited
    ensures EnteredFromEarlier(g, Walk(g, removed, b, visited, grey).pre)
    decreases |Blocks(g) - visited|, 0
  {
    CardShrinks(Blocks(g), visited, b);
    var v1 := visited + {b};
    var t1 := Step(g, removed, b, g[b].trueSucc, v1, grey + {b});
    StepEnteredFromEarlier(g, removed, b, g[b].trueSucc, v1, grey + {b});
    var v2 := v1 + Elems(t1.pre);
    CardMonotone(Blocks(g), v1, v2);
    var t2 := Step(g, removed, b, g[b].falseSucc, v2, grey + {b});
    StepEnteredFromEarlier(g, removed, b, g[b].falseSucc, v2, grey + {b});
    ParentsCombine(g, b, t1.pre, t2.pre);
  }

  lemma {:induction false} StepEnteredFromEarlier(g: Graph, removed: set<BlockId>, u: BlockId, s: Option<BlockId>,
                                                  visited: set<BlockId>, grey: set<BlockId>)
    requires Wf(g) && (s.Some? ==> s.value < |g| && Edge(g, u, s.value))
    ensures var t := Step(g, removed, u, s, visited, grey);
      EnteredFromEarlier(g, t.pre) && (t.pre != [] ==> Edge(g, u, t.pre[0]))
    decreases |Blocks(g) - visited|, 1
  {
    if s.Some? && s.value !in removed && s.value !in visited {
      WalkEnteredFromEarlier(g, removed, s.value, visited, grey);
      WalkStartsAt(g, removed, s.value, visited, grey);
    }
  }

  /** The preorder of `dfs(entry)`: each listed block after the entry has a
      predecessor listed before it. */
  lemma DfsOrderIsPreorder(g: Graph, removed: set<BlockId>, entry: BlockId)
    requires Wf(g) && entry < |g|
    ensures EnteredFromEarlier(g, DfsOrder(g, removed, entry))
  {
    if entry !in removed {
      WalkEnteredFromEarlier(g, removed, entry, {}, {});
    }
  }

  /** The recursive visit of lib/cfg_analysis/dfs.hpp: mark `b`, append it, then
      process the true and the false successor. */
  method DfsVisit(g: Graph, removed: set<BlockId>, b: BlockId, visited: set<BlockId>,
                  order: seq<BlockId>, ghost grey: set<BlockId>)
    returns (visitedOut: set<BlockId>, orderOut: seq<BlockId>)
    requires Wf(g) && b < |g| && b !in visited
    ensures orderOut == order + Walk(g, removed, b, visited, grey).pre
    ensures visitedOut == visited + Elems(Walk(g, removed, b, visited, grey).pre)
    decreases |Blocks(g) - visited|, 0
  {
    CardShrinks(Blocks(g), visited, b);
    var v1 := visited + {b};
    var v2, o2 := ProcessSuccessor(g, removed, b, g[b].trueSucc, v1, order + [b], grey + {b});
    CardMonotone(Blocks(g), v1, v2);
    visitedOut, orderOut := ProcessSuccessor(g, removed, b, g[b].falseSucc, v2, o2, grey + {b});
    VisitComposes(g, removed, b, visited, grey, order, v2, o2, visitedOut, orderOut);
  }

  /** The two successor steps of one visit make up one level of `Walk`. */
  lemma VisitComposes(g: Graph, removed: set<BlockId>, b: BlockId, visited: set<BlockId>, grey: set<BlockId>,
                      order: seq<BlockId>, v2: set<BlockId>, o2: seq<BlockId>, v3: set<BlockId>, o3: seq<BlockId>)
    requires Wf(g) && b < |g| && b !in visited
    requires var t1 := Step(g, removed, b, g[b].trueSucc, visited + {b}, grey + {b});
      v2 == visited + {b} + Elems(t1.pre) && o2 == order + [b] + t1.pre
    requires var t2 := Step(g, removed, b, g[b].falseSucc, v2, grey + {b});
      v3 == v2 + Elems(t2.pre) && o3 == o2 + t2.pre
    ensures o3 == order + Walk(g, removed, b, visited, grey).pre
    ensures v3 == visited + Elems(Walk(g, removed, b, visited, grey).pre)
  {
    var t1 := Step(g, removed, b, g[b].trueSucc, visited + {b}, grey + {b});
    var t2 := Step(g, removed, b, g[b].falseSucc, v2, grey + {b});
    var pre := [b] + t1.pre + t2.pre;
    ConcatAssoc(order, [b], t1.pre, t2.pre);
    ElemsConcat([b], t1.pre);
    ElemsConcat([b] + t1.pre, t2.pre);
    assert v3 == visited + Elems(pre);
    WalkUnfold(g, removed, b, visited, grey);
    assert Walk(g, removed, b, visited, grey).pre == pre;
  }

  /** The `process_successor` step: skip an absent, removed or visited successor,
      otherwise visit it. */
  method ProcessSuccessor(g: Graph, removed: set<BlockId>, u: BlockId, s: Option<BlockId>,
                          visited: set<BlockId>, order: seq<BlockId>, ghost grey: set<BlockId>)
    returns (visitedOut: set<BlockId>, orderOut: seq<BlockId>)
    requires Wf(g) && (s.Some? ==> s.value < |g|)
    ensures orderOut == order + Step(g, removed, u, s, visited, grey).pre
    ensures visitedOut == visited + Elems(Step(g, removed, u, s, visited, grey).pre)
    decreases |Blocks(g) - visited|, 1
  {
    if s.None? || s.value in removed || s.value in visited {
      visitedOut, orderOut := visited, order;
    } else {
      visitedOut, orderOut := DfsVisit(g, removed, s.value, visited, order, grey);
    }
  }

  /** `dfs(entry)`: the preorder of the reachable blocks, empty for a removed entry. */
  method Dfs(g: Graph, removed: set<BlockId>, entry: BlockId) returns (order: seq<BlockId>)
    requires Wf(g) && entry < |g|
    ensures order == DfsOrder(g, removed, entry)
    ensures Elems(order) == ReachSet(g, removed, entry) && Distinct(order)
  {
    DfsOrderIsReachSet(g, removed, entry);
    if entry in removed {
      order := [];
    } else {
      var _, o := DfsVisit(g, removed, entry, {}, [], {});
      order := o;
    }
  }
}
