/** The depth-first traversal shared by `dfs`, `rpo` and `collect_back_edges`:
    a block is entered, its true successor is explored, then its false successor,
    and then it is left. Absent successors and blocks in `removed` are skipped,
    already visited blocks are not entered again. One run records the preorder,
    the postorder and the back edges (edges into a block that is still on the
    active path, the "grey" blocks). */
module Walks {
  import opened Wrappers
  import opened Cfg

  datatype Trace = Trace(pre: seq<BlockId>, post: seq<BlockId>, back: seq<(BlockId, BlockId)>)

  function Elems<T>(s: seq<T>): set<T> {
    set x | x in s
  }

  predicate Distinct<T(==)>(s: seq<T>) {
    forall i, j :: 0 <= i < j < |s| ==> s[i] != s[j]
  }

  lemma CardShrinks(k: set<BlockId>, v: set<BlockId>, b: BlockId)
    requires b in k && b !in v
    ensures |k - (v + {b})| < |k - v|
  {
    assert k - (v + {b}) == (k - v) - {b};
  }

  lemma {:induction false} SubsetCard<T>(a: set<T>, b: set<T>)
    requires a <= b
    ensures |a| <= |b|
    decreases a
  {
    if a != {} {
      var x :| x in a;
      SubsetCard(a - {x}, b - {x});
    }
  }

  lemma CardMonotone(k: set<BlockId>, v: set<BlockId>, w: set<BlockId>)
    requires v <= w
    ensures |k - w| <= |k - v|
  {
    SubsetCard(k - w, k - v);
  }

  lemma ConcatAssoc<T>(a: seq<T>, b: seq<T>, c: seq<T>, d: seq<T>)
    ensures a + b + c + d == a + (b + c + d)
  {
  }

  lemma ConcatAssoc3<T>(a: seq<T>, b: seq<T>, c: seq<T>)
    ensures a + b + c == a + (b + c)
  {
  }

  lemma ElemsConcat<T>(a: seq<T>, b: seq<T>)
    ensures Elems(a + b) == Elems(a) + Elems(b)
  {
    forall x | x in Elems(a + b) ensures x in Elems(a) + Elems(b) {
      var i :| 0 <= i < |a + b| && (a + b)[i] == x;
      if i >= |a| {
        assert b[i - |a|] == x;
      }
    }
  }

  lemma DistinctConcat<T>(a: seq<T>, b: seq<T>)
    requires Distinct(a) && Distinct(b) && Elems(a) !! Elems(b)
    ensures Distinct(a + b) && Elems(a + b) == Elems(a) + Elems(b)
  {
    forall i, j | 0 <= i < j < |a + b| ensures (a + b)[i] != (a + b)[j] {
      if j < |a| {
      } else if i >= |a| {
        assert (a + b)[i] == b[i - |a|] && (a + b)[j] == b[j - |a|];
      } else {
        assert (a + b)[i] in Elems(a) && (a + b)[j] in Elems(b);
      }
    }
  }

  /** Visit `b` (not yet visited); `grey` holds the blocks on the active path. */
  function Walk(g: Graph, removed: set<BlockId>, b: BlockId, visited: set<BlockId>, grey: set<BlockId>): Trace
    requires Wf(g) && b < |g| && b !in visited
    decreases |Blocks(g) - visited|, 0
  {
    CardShrinks(Blocks(g), visited, b);
    var v1 := visited + {b};
    var t1 := Step(g, removed, b, g[b].trueSucc, v1, grey + {b});
    CardMonotone(Blocks(g), v1, v1 + Elems(t1.pre));
    var t2 := Step(g, removed, b, g[b].falseSucc, v1 + Elems(t1.pre), grey + {b});
    Trace([b] + t1.pre + t2.pre, t1.post + t2.post + [b], t1.back + t2.back)
  }

  /** Process one successor slot `s` of `u`. */
  function Step(g: Graph, removed: set<BlockId>, u: BlockId, s: Option<BlockId>,
                visited: set<BlockId>, grey: set<BlockId>): Trace
    requires Wf(g) && (s.Some? ==> s.value < |g|)
    decreases |Blocks(g) - visited|, 1
  {
    if s.None? || s.value in removed then Trace([], [], [])
    else
      var back := if s.value in grey then [(u, s.value)] else [];
      var sub := if s.value !in visited then Walk(g, removed, s.value, visited, grey) else Trace([], [], []);
      Trace(sub.pre, sub.post, back + sub.back)
  }

  /** One level of `Walk`, with the sets it threads. */
  lemma WalkUnfold(g: Graph, removed: set<BlockId>, b: BlockId, visited: set<BlockId>, grey: set<BlockId>)
    requires Wf(g) && b < |g| && b !in visited
    ensures var t1 := Step(g, removed, b, g[b].trueSucc, visited + {b}, grey + {b});
      var t2 := Step(g, removed, b, g[b].falseSucc, visited + {b} + Elems(t1.pre), grey + {b});
      Walk(g, removed, b, visited, grey) == Trace([b] + t1.pre + t2.pre, t1.post + t2.post + [b], t1.back + t2.back)
  {
  }

  lemma WalkStartsAt(g: Graph, removed: set<BlockId>, b: BlockId, visited: set<BlockId>, grey: set<BlockId>)
    requires Wf(g) && b < |g| && b !in visited
    ensures |Walk(g, removed, b, visited, grey).pre| > 0 && Walk(g, removed, b, visited, grey).pre[0] == b
  {
  }

  /** The blocks produced by one call, and how they sit in the two orders. */
  ghost predicate Shaped(t: Trace, visited: set<BlockId>, removed: set<BlockId>, keys: set<BlockId>) {
    |t.pre| == |t.post| && Elems(t.pre) == Elems(t.post) &&
    Distinct(t.pre) && Distinct(t.post) &&
    Elems(t.pre) !! visited && Elems(t.pre) <= keys && Elems(t.pre) !! removed
  }

  lemma {:induction false} WalkShape(g: Graph, removed: set<BlockId>, b: BlockId, visited: set<BlockId>, grey: set<BlockId>)
    requires Wf(g) && b < |g| && b !in visited && b !in removed
    ensures Shaped(Walk(g, removed, b, visited, grey), visited, removed, Blocks(g))
    ensures Walk(g, removed, b, visited, grey).pre[0] == b
    ensures var t := Walk(g, removed, b, visited, grey); t.post[|t.post| - 1] == b
    decreases |Blocks(g) - visited|, 0
  {
    CardShrinks(Blocks(g), visited, b);
    var v1 := visited + {b};
    var t1 := Step(g, removed, b, g[b].trueSucc, v1, grey + {b});
    StepShape(g, removed, b, g[b].trueSucc, v1, grey + {b});
    var v2 := v1 + Elems(t1.pre);
    CardMonotone(Blocks(g), v1, v2);
    var t2 := Step(g, removed, b, g[b].falseSucc, v2, grey + {b});
    StepShape(g, removed, b, g[b].falseSucc, v2, grey + {b});
    ShapeCombine(b, t1, t2, visited, removed, Blocks(g));
    assert Walk(g, removed, b, visited, grey) == Trace([b] + t1.pre + t2.pre, t1.post + t2.post + [b], t1.back + t2.back);
  }

  lemma ShapeCombine(b: BlockId, t1: Trace, t2: Trace, visited: set<BlockId>, removed: set<BlockId>, keys: set<BlockId>)
    requires b in keys && b !in visited && b !in removed
    requires Shaped(t1, visited + {b}, removed, keys)
    requires Shaped(t2, visited + {b} + Elems(t1.pre), removed, keys)
    ensures Shaped(Trace([b] + t1.pre + t2.pre, t1.post + t2.post + [b], t1.back + t2.back), visited, removed, keys)
  {
    assert Elems(t1.pre) !! Elems(t2.pre);
    DistinctConcat([b], t1.pre);
    DistinctConcat([b] + t1.pre, t2.pre);
    DistinctConcat(t1.post, t2.post);
    DistinctConcat(t1.post + t2.post, [b]);
  }

  lemma {:induction false} StepShape(g: Graph, removed: set<BlockId>, u: BlockId, s: Option<BlockId>,
                                     visited: set<BlockId>, grey: set<BlockId>)
    requires Wf(g) && (s.Some? ==> s.value < |g|)
    ensures Shaped(Step(g, removed, u, s, visited, grey), visited, removed, Blocks(g))
    ensures var t := Step(g, removed, u, s, visited, grey);
      t.pre != [] <==> (s.Some? && s.value !in removed && s.value !in visited)
    ensures var t := Step(g, removed, u, s, visited, grey);
      t.pre != [] ==> t.pre[0] == s.value && t.post[|t.post| - 1] == s.value
    decreases |Blocks(g) - visited|, 1
  {
    if s.Some? && s.value !in removed && s.value !in visited {
      WalkShape(g, removed, s.value, visited, grey);
    }
  }

  /** Where an edge leaving the postorder can go: to a block finished before this
      call, to a block already listed earlier in the postorder, or along a
      recorded back edge. */
  ghost predicate PostEdgesOk(g: Graph, removed: set<BlockId>, t: Trace, visited: set<BlockId>, grey: set<BlockId>) {
    forall i, s: BlockId :: 0 <= i < |t.post| && Edge(g, t.post[i], s) && s !in removed ==>
      s in visited - grey || s in t.post[..i] || (t.post[i], s) in t.back
  }

  /** The successor handled by one step is accounted for. */
  ghost predicate Covers(removed: set<BlockId>, u: BlockId, s: Option<BlockId>, t: Trace, visited: set<BlockId>, grey: set<BlockId>) {
    s.Some? && s.value !in removed ==>
      s.value in visited - grey || s.value in Elems(t.post) || (u, s.value) in t.back
  }

  lemma PostEdgesCombine(g: Graph, removed: set<BlockId>, b: BlockId, t1: Trace, t2: Trace,
                         visited: set<BlockId>, grey: set<BlockId>)
    requires b < |g| && b !in visited && grey <= visited
    requires Elems(t1.pre) == Elems(t1.post) && Elems(t1.pre) !! (grey + {b})
    requires PostEdgesOk(g, removed, t1, visited + {b}, grey + {b})
    requires PostEdgesOk(g, removed, t2, visited + {b} + Elems(t1.pre), grey + {b})
    requires Covers(removed, b, g[b].trueSucc, t1, visited + {b}, grey + {b})
    requires Covers(removed, b, g[b].falseSucc, t2, visited + {b} + Elems(t1.pre), grey + {b})
    ensures PostEdgesOk(g, removed, Trace([b] + t1.pre + t2.pre, t1.post + t2.post + [b], t1.back + t2.back), visited, grey)
  {
    var post := t1.post + t2.post + [b];
    var back := t1.back + t2.back;
    var n1 := |t1.post|;
    forall i, s: BlockId | 0 <= i < |post| && Edge(g, post[i], s) && s !in removed
      ensures s in visited - grey || s in post[..i] || (post[i], s) in back
    {
      if i < n1 {
        assert post[i] == t1.post[i] && post[..i] == t1.post[..i];
      } else if i < n1 + |t2.post| {
        assert post[i] == t2.post[i - n1];
        assert post[..i] == t1.post + t2.post[..i - n1];
        if s in t2.post[..i - n1] {
          assert s in post[..i];
        } else if s in Elems(t1.pre) {
          assert s in post[..i];
        }
      } else {
        assert post[i] == b && post[..i] == t1.post + t2.post;
        if g[b].trueSucc == Some(s) {
          if s in Elems(t1.post) {
            assert s in post[..i];
          }
        } else {
          if s in Elems(t2.post) || s in Elems(t1.pre) {
            assert s in post[..i];
          }
        }
      }
    }
  }

  lemma {:induction false} WalkPostEdges(g: Graph, removed: set<BlockId>, b: BlockId, visited: set<BlockId>, grey: set<BlockId>)
    requires Wf(g) && b < |g| && b !in visited && b !in removed && grey <= visited
    ensures PostEdgesOk(g, removed, Walk(g, removed, b, visited, grey), visited, grey)
    decreases |Blocks(g) - visited|, 0
  {
    CardShrinks(Blocks(g), visited, b);
    var v1 := visited + {b};
    var t1 := Step(g, removed, b, g[b].trueSucc, v1, grey + {b});
    StepShape(g, removed, b, g[b].trueSucc, v1, grey + {b});
    StepPostEdges(g, removed, b, g[b].trueSucc, v1, grey + {b});
    var v2 := v1 + Elems(t1.pre);
    CardMonotone(Blocks(g), v1, v2);
    var t2 := Step(g, removed, b, g[b].falseSucc, v2, grey + {b});
    StepPostEdges(g, removed, b, g[b].falseSucc, v2, grey + {b});
    PostEdgesCombine(g, removed, b, t1, t2, visited, grey);
    assert Walk(g, removed, b, visited, grey) == Trace([b] + t1.pre + t2.pre, t1.post + t2.post + [b], t1.back + t2.back);
  }

  lemma {:induction false} StepPostEdges(g: Graph, removed: set<BlockId>, u: BlockId, s: Option<BlockId>,
                                         visited: set<BlockId>, grey: set<BlockId>)
    requires Wf(g) && (s.Some? ==> s.value < |g|) && grey <= visited
    ensures PostEdgesOk(g, removed, Step(g, removed, u, s, visited, grey), visited, grey)
    ensures Covers(removed, u, s, Step(g, removed, u, s, visited, grey), visited, grey)
    decreases |Blocks(g) - visited|, 1
  {
    if s.Some? && s.value !in removed {
      var t := Step(g, removed, u, s, visited, grey);
      if s.value !in visited {
        var sub := Walk(g, removed, s.value, visited, grey);
        WalkPostEdges(g, removed, s.value, visited, grey);
        WalkShape(g, removed, s.value, visited, grey);
        assert t.post == sub.post && Elems(sub.back) <= Elems(t.back);
        assert s.value in Elems(t.post);
      }
    }
  }

  /** Every block produced is reachable from `from` without entering `avoid`. */
  ghost predicate AllReached(g: Graph, avoid: set<BlockId>, from: BlockId, t: Trace) {
    forall x :: x in Elems(t.pre) ==> Reaches(g, avoid, from, x)
  }

  /** Every recorded back edge `(u, v)` is an edge of the graph leaving a block of
      `sources`, its target was grey or is produced by this call, and the target
      reaches the source, so the edge closes a cycle. */
  ghost predicate BackOk(g: Graph, removed: set<BlockId>, t: Trace, sources: set<BlockId>, grey: set<BlockId>) {
    forall e :: e in t.back ==>
      Edge(g, e.0, e.1) && e.0 in sources && (e.1 in grey || e.1 in Elems(t.pre)) &&
      Reaches(g, removed, e.1, e.0)
  }

  lemma ReachesAppend(g: Graph, avoid: set<BlockId>, x: BlockId, u: BlockId, s: BlockId)
    requires Reaches(g, avoid, x, u) && Edge(g, u, s) && s < |g| && s !in avoid
    ensures Reaches(g, avoid, x, s)
  {
    var p :| IsPath(g, avoid, p) && p[0] == x && p[|p| - 1] == u;
    assert u < |g| && u !in avoid;
    ReachesRefl(g, avoid, s);
    ReachesPrepend(g, avoid, u, s, s);
    ReachesTrans(g, avoid, x, u, s);
  }

  lemma SoundCombine(g: Graph, removed: set<BlockId>, b: BlockId, t1: Trace, t2: Trace,
                     visited: set<BlockId>, grey: set<BlockId>)
    requires Wf(g) && b < |g| && b !in visited && b !in removed
    requires Elems(t1.pre) !! Elems(t2.pre)
    requires t1.pre != [] ==> g[b].trueSucc.Some? && AllReached(g, removed + (visited + {b}), g[b].trueSucc.value, t1)
    requires t2.pre != [] ==>
      g[b].falseSucc.Some? && AllReached(g, removed + (visited + {b} + Elems(t1.pre)), g[b].falseSucc.value, t2)
    requires BackOk(g, removed, t1, Elems(t1.pre) + {b}, grey + {b})
    requires BackOk(g, removed, t2, Elems(t2.pre) + {b}, grey + {b})
    ensures AllReached(g, removed + visited, b, Trace([b] + t1.pre + t2.pre, t1.post + t2.post + [b], t1.back + t2.back))
    ensures BackOk(g, removed, Trace([b] + t1.pre + t2.pre, t1.post + t2.post + [b], t1.back + t2.back),
                   Elems([b] + t1.pre + t2.pre), grey)
  {
    var pre := [b] + t1.pre + t2.pre;
    assert Elems(pre) == {b} + Elems(t1.pre) + Elems(t2.pre);
    forall x | x in Elems(pre) ensures Reaches(g, removed + visited, b, x) {
      if x == b {
        ReachesRefl(g, removed + visited, b);
      } else if x in Elems(t1.pre) {
        var s := g[b].trueSucc.value;
        ReachesWeaken(g, removed + (visited + {b}), removed + visited, s, x);
        ReachesPrepend(g, removed + visited, b, s, x);
      } else {
        var s := g[b].falseSucc.value;
        ReachesWeaken(g, removed + (visited + {b} + Elems(t1.pre)), removed + visited, s, x);
        ReachesPrepend(g, removed + visited, b, s, x);
      }
    }
  }

  lemma {:induction false} WalkSound(g: Graph, removed: set<BlockId>, b: BlockId, visited: set<BlockId>, grey: set<BlockId>)
    requires Wf(g) && b < |g| && b !in visited && b !in removed
    requires forall x :: x in grey ==> Reaches(g, removed, x, b)
    ensures AllReached(g, removed + visited, b, Walk(g, removed, b, visited, grey))
    ensures var t := Walk(g, removed, b, visited, grey); BackOk(g, removed, t, Elems(t.pre), grey)
    decreases |Blocks(g) - visited|, 0
  {
    CardShrinks(Blocks(g), visited, b);
    ReachesRefl(g, removed, b);
    var v1 := visited + {b};
    var t1 := Step(g, removed, b, g[b].trueSucc, v1, grey + {b});
    StepShape(g, removed, b, g[b].trueSucc, v1, grey + {b});
    StepSound(g, removed, b, g[b].trueSucc, v1, grey + {b});
    var v2 := v1 + Elems(t1.pre);
    CardMonotone(Blocks(g), v1, v2);
    var t2 := Step(g, removed, b, g[b].falseSucc, v2, grey + {b});
    StepShape(g, removed, b, g[b].falseSucc, v2, grey + {b});
    StepSound(g, removed, b, g[b].falseSucc, v2, grey + {b});
    SoundCombine(g, removed, b, t1, t2, visited, grey);
    assert Walk(g, removed, b, visited, grey) == Trace([b] + t1.pre + t2.pre, t1.post + t2.post + [b], t1.back + t2.back);
  }

  lemma {:induction false} StepSound(g: Graph, removed: set<BlockId>, u: BlockId, s: Option<BlockId>,
                                     visited: set<BlockId>, grey: set<BlockId>)
    requires Wf(g) && u < |g| && u !in removed && (s.Some? ==> s.value < |g| && Edge(g, u, s.value))
    requires forall x :: x in grey ==> Reaches(g, removed, x, u)
    ensures var t := Step(g, removed, u, s, visited, grey);
      t.pre != [] ==> s.Some? && AllReached(g, removed + visited, s.value, t)
    ensures var t := Step(g, removed, u, s, visited, grey); BackOk(g, removed, t, Elems(t.pre) + {u}, grey)
    decreases |Blocks(g) - visited|, 1
  {
    if s.Some? && s.value !in removed {
      var v := s.value;
      var t := Step(g, removed, u, s, visited, grey);
      forall x | x in grey ensures Reaches(g, removed, x, v) {
        ReachesAppend(g, removed, x, u, v);
      }
      if v !in visited {
        WalkSound(g, removed, v, visited, grey);
      }
    }
  }

  /** A walk started from an entry that is not removed, with nothing visited,
      produces exactly the blocks reachable from the entry avoiding `removed`. */
  lemma WalkFromEntryReach(g: Graph, removed: set<BlockId>, entry: BlockId)
    requires Wf(g) && entry < |g| && entry !in removed
    ensures Elems(Walk(g, removed, entry, {}, {}).pre) == ReachSet(g, removed, entry)
    ensures Elems(Walk(g, removed, entry, {}, {}).post) == ReachSet(g, removed, entry)
  {
    var t := Walk(g, removed, entry, {}, {});
    WalkShape(g, removed, entry, {}, {});
    WalkPostEdges(g, removed, entry, {}, {});
    WalkSound(g, removed, entry, {}, {});
    assert removed + {} == removed;
    EntryClosed(g, removed, entry, t);
    EntryReach(g, removed, entry, t);
  }

  /** Each block once in both orders; the preorder starts at the entry and the
      postorder ends at it. */
  lemma WalkFromEntryOrders(g: Graph, removed: set<BlockId>, entry: BlockId)
    requires Wf(g) && entry < |g| && entry !in removed
    ensures var t := Walk(g, removed, entry, {}, {});
      Distinct(t.pre) && Distinct(t.post) && |t.pre| == |t.post| &&
      t.pre[0] == entry && t.post[|t.post| - 1] == entry
  {
    WalkShape(g, removed, entry, {}, {});
  }

  /** An edge leaving the postorder goes backwards in it unless it is a recorded
      back edge, and every back edge is an edge between walked blocks that closes
      a cycle. */
  lemma WalkFromEntryEdges(g: Graph, removed: set<BlockId>, entry: BlockId)
    requires Wf(g) && entry < |g| && entry !in removed
    ensures var t := Walk(g, removed, entry, {}, {});
      forall i, s: BlockId :: 0 <= i < |t.post| && Edge(g, t.post[i], s) && s !in removed ==>
        s in t.post[..i] || (t.post[i], s) in t.back
    ensures var t := Walk(g, removed, entry, {}, {});
      forall e :: e in t.back ==>
        Edge(g, e.0, e.1) && e.0 in Elems(t.pre) && e.1 in Elems(t.pre) && Reaches(g, removed, e.1, e.0)
  {
    var t := Walk(g, removed, entry, {}, {});
    WalkPostEdges(g, removed, entry, {}, {});
    WalkSound(g, removed, entry, {}, {});
    forall i, s: BlockId | 0 <= i < |t.post| && Edge(g, t.post[i], s) && s !in removed
      ensures s in t.post[..i] || (t.post[i], s) in t.back
    {
      var none: set<BlockId> := {};
      assert s !in none - none;
    }
    forall e | e in t.back
      ensures Edge(g, e.0, e.1) && e.0 in Elems(t.pre) && e.1 in Elems(t.pre) && Reaches(g, removed, e.1, e.0)
    {
      var none: set<BlockId> := {};
      assert e.1 !in none;
    }
  }

  lemma EntryClosed(g: Graph, removed: set<BlockId>, entry: BlockId, t: Trace)
    requires Elems(t.post) == Elems(t.pre)
    requires PostEdgesOk(g, removed, t, {}, {}) && BackOk(g, removed, t, Elems(t.pre), {})
    ensures forall x: BlockId, y: BlockId :: x in Elems(t.pre) && Edge(g, x, y) && y !in removed ==> y in Elems(t.pre)
  {
    forall x: BlockId, y: BlockId | x in Elems(t.pre) && Edge(g, x, y) && y !in removed ensures y in Elems(t.pre) {
      assert x in Elems(t.post);
      var i :| 0 <= i < |t.post| && t.post[i] == x;
      if y in t.post[..i] {
        assert y in Elems(t.post);
      }
    }
  }

  lemma EntryReach(g: Graph, removed: set<BlockId>, entry: BlockId, t: Trace)
    requires |t.pre| > 0 && t.pre[0] == entry
    requires AllReached(g, removed, entry, t)
    requires forall x: BlockId, y: BlockId :: x in Elems(t.pre) && Edge(g, x, y) && y !in removed ==> y in Elems(t.pre)
    ensures Elems(t.pre) == ReachSet(g, removed, entry)
  {
    forall x | x in Elems(t.pre) ensures x in ReachSet(g, removed, entry) {
      var p :| IsPath(g, removed, p) && p[0] == entry && p[|p| - 1] == x;
    }
    forall v | v in ReachSet(g, removed, entry) ensures v in Elems(t.pre) {
      ClosedContainsReach(g, removed, entry, Elems(t.pre), v);
    }
  }
}
