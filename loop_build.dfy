/** The last part of `loop_tree`: the blocks that no loop owns form the root
    loop, which is added under `Root`, and every loop without an outer loop is
    attached to the root. Then the whole construction from the entry block. */
module LoopBuild {
  import opened Wrappers
  import opened Cfg
  import opened Walks
  import opened Dom
  import opened Rpo
  import opened Loops
  import opened LoopSearches
  import opened LoopTrees
  import opened LoopNesting

  /** The blocks of `order`, in order, that `owned` does not hold. */
  function Unowned(order: seq<BlockId>, owned: set<BlockId>): seq<BlockId> {
    if order == [] then []
    else
      var rest := Unowned(order[..|order| - 1], owned);
      if order[|order| - 1] !in owned then rest + [order[|order| - 1]] else rest
  }

  /** They are exactly the blocks of `order` outside `owned`, without repeats when
      `order` has none. */
  lemma {:induction false} UnownedMeaning(order: seq<BlockId>, owned: set<BlockId>)
    ensures forall b :: b in Unowned(order, owned) <==> b in order && b !in owned
    ensures Distinct(order) ==> Distinct(Unowned(order, owned))
  {
    if order != [] {
      var init := order[..|order| - 1];
      var b := order[|order| - 1];
      assert order == init + [b];
      UnownedMeaning(init, owned);
    }
  }

  lemma UnownedStep(order: seq<BlockId>, i: nat, owned: set<BlockId>)
    requires i < |order|
    ensures Unowned(order[..i + 1], owned) ==
      if order[i] !in owned then Unowned(order[..i], owned) + [order[i]] else Unowned(order[..i], owned)
  {
    assert order[..i + 1][..i] == order[..i];
  }

  /** The loop over `rpo_vector` that collects the blocks of the root loop. */
  method RootBlocks(rpo: seq<BlockId>, owner: map<BlockId, LoopKey>) returns (blocks: seq<BlockId>)
    ensures blocks == Unowned(rpo, owner.Keys)
  {
    blocks := [];
    var i := 0;
    while i < |rpo|
      invariant i <= |rpo| && blocks == Unowned(rpo[..i], owner.Keys)
    {
      UnownedStep(rpo, i, owner.Keys);
      if rpo[i] !in owner {
        blocks := blocks + [rpo[i]];
      }
      i := i + 1;
    }
    assert rpo[..i] == rpo;
  }

  /** A loop after the attachment pass: one without an outer loop gets the root. */
  function Adopt(l: Loop): (r: Loop)
    ensures r.outer.Some? && r.header == l.header && r.latches == l.latches && r.blocks == l.blocks
    ensures r.reducible == l.reducible && r.inner == l.inner
    ensures l.outer.Some? ==> r.outer == l.outer
  {
    if l.outer.None? then l.(outer := Some(Root)) else l
  }

  /** The loops without an outer loop. */
  ghost function TopLevel(loops: LoopTree): set<LoopKey> {
    set k | k in loops && loops[k].outer.None?
  }

  /** Adding the root loop with the blocks `rootBlocks` and attaching every loop
      that has no outer loop to it. The map is unordered, so the order of the
      root's inner loops is whatever the iteration gives; the model leaves it
      open and states only which loops they are. */
  method AddRoot(loops: LoopTree, rootBlocks: seq<BlockId>) returns (r: LoopTree)
    requires Root !in loops
    ensures r.Keys == loops.Keys + {Root}
    ensures forall k :: k in loops ==> r[k] == Adopt(loops[k])
    ensures r[Root] == Loop(None, [], rootBlocks, false, None, r[Root].inner)
    ensures Elems(r[Root].inner) == TopLevel(loops) && Distinct(r[Root].inner)
  {
    r := loops[Root := Loop(None, [], rootBlocks, false, None, [])];
    var todo := loops.Keys;
    while todo != {}
      invariant AttachInv(loops, rootBlocks, todo, r)
      decreases |todo|
    {
      var k :| k in todo;
      ghost var r0 := r;
      if r[k].outer.None? {
        r := r[k := r[k].(outer := Some(Root))];
        r := r[Root := r[Root].(inner := r[Root].inner + [k])];
      }
      AttachInvStep(loops, rootBlocks, todo, r0, k, r);
      todo := todo - {k};
    }
  }

  /** The attachment loop has handled the loops outside `todo`. */
  ghost predicate AttachInv(loops: LoopTree, rootBlocks: seq<BlockId>, todo: set<LoopKey>, r: LoopTree) {
    todo <= loops.Keys && r.Keys == loops.Keys + {Root} &&
    (forall k :: k in loops && k !in todo ==> r[k] == Adopt(loops[k])) &&
    (forall k :: k in todo ==> r[k] == loops[k]) &&
    r[Root] == Loop(None, [], rootBlocks, false, None, r[Root].inner) &&
    Elems(r[Root].inner) == TopLevel(loops) - todo && Distinct(r[Root].inner)
  }

  lemma AttachInvStep(loops: LoopTree, rootBlocks: seq<BlockId>, todo: set<LoopKey>, r: LoopTree, k: LoopKey,
                      r2: LoopTree)
    requires Root !in loops && AttachInv(loops, rootBlocks, todo, r) && k in todo
    requires r2 == if r[k].outer.None? then
        r[k := r[k].(outer := Some(Root))][Root := r[Root].(inner := r[Root].inner + [k])]
      else r
    ensures AttachInv(loops, rootBlocks, todo - {k}, r2)
  {
    ElemsConcat(r[Root].inner, [k]);
    DistinctConcat(r[Root].inner, [k]);
    assert k !in Elems(r[Root].inner);
  }

  /** Attaching to a fresh root keeps the nesting invariant. */
  lemma AddRootNested(loops: LoopTree, r: LoopTree, rootBlocks: seq<BlockId>)
    requires Root !in loops && Nested(loops)
    requires r.Keys == loops.Keys + {Root}
    requires forall k :: k in loops ==> r[k] == Adopt(loops[k])
    requires r[Root] == Loop(None, [], rootBlocks, false, None, r[Root].inner)
    requires Elems(r[Root].inner) == TopLevel(loops) && Distinct(r[Root].inner)
    ensures Nested(r)
  {
    forall a, b | a in r && b in r ensures b in r[a].inner <==> r[b].outer == Some(a) {
      if a != Root && b != Root {
        assert r[a].inner == loops[a].inner;
        assert loops[b].outer != Some(Root);
      } else if a != Root {
        assert Root !in loops[a].inner;
      } else if b != Root {
        assert b in r[Root].inner <==> b in TopLevel(loops);
        assert loops[b].outer != Some(Root);
      } else {
        assert Root !in TopLevel(loops);
      }
    }
    forall a | a in r
      ensures Distinct(r[a].inner) && Elems(r[a].inner) <= r.Keys && r[a].outer != Some(a) &&
        (r[a].outer.Some? ==> r[a].outer.value in r)
    {
      if a != Root {
        assert r[a].inner == loops[a].inner;
      }
    }
  }

  /** The loops `collect_back_edges` records from the entry name blocks of the
      graph, hold their headers among their blocks, have no nesting links yet, and
      there is no root among them. */
  lemma InitialLoops(g: Graph, entry: BlockId, dom: DomTree)
    requires Wf(g) && entry < |g|
    requires dom.Keys == ReachSet(g, {}, entry)
    requires forall d :: d in dom ==> dom[d] == DomList(g, entry, d)
    ensures forall e :: e in BackEdges(g, entry) ==> e.1 in dom
    ensures var loops := RecordAll(map[], dom, BackEdges(g, entry));
      Root !in loops && InGraph(g, loops) && HeadersIn(loops) && Nested(loops) &&
      (forall k :: k in loops ==> k.block in ReachSet(g, {}, entry)) &&
      (forall k :: k in loops ==> loops[k].blocks == Copies(k.block, |loops[k].latches|)) &&
      (forall k :: k in loops ==> loops[k].outer.None?)
  {
    BackEdgeLoops(g, entry, dom, 0);
    var loops := RecordAll(map[], dom, BackEdges(g, entry));
    forall k | k in loops
      ensures k.Header? && k.block < |g| && AllBlocks(g, loops[k].latches)
      ensures k.block in loops[k].blocks && loops[k].outer.None? && loops[k].inner == []
      ensures k.block in ReachSet(g, {}, entry) && loops[k].blocks == Copies(k.block, |loops[k].latches|)
    {
      InitialLoop(g, entry, dom, loops, k.block);
    }
  }

  lemma InitialLoop(g: Graph, entry: BlockId, dom: DomTree, loops: LoopTree, h: BlockId)
    requires Wf(g) && entry < |g|
    requires dom.Keys == ReachSet(g, {}, entry)
    requires forall d :: d in dom ==> dom[d] == DomList(g, entry, d)
    requires forall e :: e in BackEdges(g, entry) ==> e.1 in dom
    requires loops == RecordAll(map[], dom, BackEdges(g, entry)) && Header(h) in loops
    ensures h < |g| && AllBlocks(g, loops[Header(h)].latches)
    ensures h in loops[Header(h)].blocks && loops[Header(h)].outer.None? && loops[Header(h)].inner == []
    ensures h in ReachSet(g, {}, entry) && loops[Header(h)].blocks == Copies(h, |loops[Header(h)].latches|)
  {
    BackEdgeLoops(g, entry, dom, h);
    LatchesCloseCycles(g, entry, h);
    BackTargetsReachable(g, entry);
    var ls := LatchesOf(BackEdges(g, entry), h);
    var l := loops[Header(h)];
    assert l.latches == ls && l.blocks == seq(|ls|, _ => h) && l.outer.None? && l.inner == [];
    var u := ls[0];
    assert u in ls;
    assert Edge(g, u, h);
    assert g[u].trueSucc == Some(h) || g[u].falseSucc == Some(h);
    assert h < |g|;
    forall j | 0 <= j < |ls| ensures ls[j] < |g| {
      assert ls[j] in ls;
      assert Edge(g, ls[j], h);
    }
    assert l.blocks[0] == h;
    LatchesOfMembers(BackEdges(g, entry), h, u);
  }

  /** The buffer of a full reverse postorder, without its `Some` wrappers. */
  function Values(buf: seq<Option<BlockId>>): (r: seq<BlockId>)
    requires forall k :: 0 <= k < |buf| ==> buf[k].Some?
    ensures |r| == |buf| && forall k :: 0 <= k < |buf| ==> buf[k] == Some(r[k])
  {
    seq(|buf|, k requires 0 <= k < |buf| => buf[k].value)
  }

  /** The loop of header `h` in the final tree: its header, the sources of its back
      edges as latches, reducible exactly when the header dominates one of its latches
      other than itself, an outer loop, and one copy of the header per latch at the
      start of its blocks. */
  ghost predicate HeaderLoop(g: Graph, entry: BlockId, l: Loop, h: BlockId)
    requires Wf(g) && entry < |g|
  {
    l.header == Some(h) && l.latches == LatchesOf(BackEdges(g, entry), h) &&
    (l.reducible <==> exists u :: u in l.latches && u != h && Dominates(g, entry, h, u)) &&
    l.outer.Some? && seq(|l.latches|, _ => h) <= l.blocks
  }

  /** The blocks of the loop of header `h` after its header copies. An
      irreducible loop has exactly its latches there. A reducible loop has
      distinct blocks other than the header there, each reached by a backward
      walk from a latch that does not pass through the header; and every
      reachable block that a backward walk from a latch reaches through reachable
      blocks without passing through the header is in this loop or in another
      loop (not the root). */
  ghost predicate HeaderBody(g: Graph, entry: BlockId, tree: LoopTree, h: BlockId)
    requires Header(h) in tree
  {
    var l := tree[Header(h)];
    var n := |l.latches|;
    var reach := ReachSet(g, {}, entry);
    n <= |l.blocks| &&
    (!l.reducible ==> l.blocks[n..] == l.latches) &&
    (l.reducible ==>
      Distinct(l.blocks[n..]) && h !in l.blocks[n..] &&
      (forall x :: x in l.blocks[n..] ==> x in LatchBody(g, {h}, l.latches)) &&
      (forall x :: x in reach && x in LatchBody(g, {h} + (Blocks(g) - reach), l.latches) ==>
         exists k :: k in tree && k != Root && x in tree[k].blocks))
  }

  /** `loop_tree(entry)`: the dominator map, the back edges, the reverse
      postorder, the loop bodies, and the root loop. There is one loop per target
      of a back edge, plus the root. Each loop has its header, the sources of its
      back edges as latches, one copy of its header per latch at the start of its
      blocks followed by its body (`HeaderBody`), is reducible exactly when its
      header dominates one of its latches other than itself, and has an outer
      loop. The nesting links agree. The root loop holds, without repeats, the
      reachable blocks no loop holds, which include no header; every reachable
      block is in the root or in some loop. */
  method ComputeLoopTree(g: Graph, entry: BlockId) returns (tree: LoopTree)
    requires Wf(g) && entry < |g|
    ensures Root in tree
    ensures forall h: BlockId :: Header(h) in tree <==> exists u: BlockId :: (u, h) in BackEdges(g, entry)
    ensures forall h: BlockId :: Header(h) in tree ==> HeaderLoop(g, entry, tree[Header(h)], h)
    ensures Nested(tree)
    ensures tree[Root].header == None && tree[Root].latches == [] && !tree[Root].reducible &&
      tree[Root].outer == None
    ensures Distinct(tree[Root].blocks)
    ensures forall b :: b in tree[Root].blocks ==> b in ReachSet(g, {}, entry) && Header(b) !in tree
    ensures forall b :: b in ReachSet(g, {}, entry) ==>
      b in tree[Root].blocks || exists k :: k in tree && k != Root && b in tree[k].blocks
    ensures forall h: BlockId :: Header(h) in tree ==> HeaderBody(g, entry, tree, h)
    ensures forall b, k :: b in tree[Root].blocks && k in tree && k != Root ==> b !in tree[k].blocks
    ensures OuterSound(g, tree) && OuterComplete(g, tree, ReachSet(g, {}, entry), RpoOrder(g, entry))
  {
    var f, rpo, dom := PopulatedForest(g, entry);
    var rootBlocks := RootBlocks(rpo, f.owner);
    tree := AddRoot(f.loops, rootBlocks);
    FinalFacts(g, entry, f, rpo, dom, rootBlocks, tree);
    TreeBodyFacts(g, entry, f, rpo, dom, rootBlocks, tree);
    TreeNesting(g, f.loops, ReachSet(g, {}, entry), rpo, tree);
  }

  /** Adding the root keeps every outer link sound, and a header with a loop as
      its outer loop keeps it. */
  lemma TreeNesting(g: Graph, loops: LoopTree, reach: set<BlockId>, rpo: seq<BlockId>, tree: LoopTree)
    requires Root !in loops && Nested(loops)
    requires OuterSound(g, loops) && OuterComplete(g, loops, reach, rpo)
    requires tree.Keys == loops.Keys + {Root}
    requires forall k :: k in loops ==> tree[k] == Adopt(loops[k])
    requires tree[Root].latches == [] && !tree[Root].reducible && tree[Root].outer == None
    ensures OuterSound(g, tree) && OuterComplete(g, tree, reach, rpo)
  {
    forall k | k in tree && tree[k].outer.Some? && tree[k].outer.value.Header?
      ensures InsideOf(g, tree, k, tree[k].outer.value.block)
    {
      var p := tree[k].outer.value.block;
      assert k != Root && loops[k].outer == tree[k].outer;
      assert InsideOf(g, loops, k, p);
      var x :| x in loops[k].blocks && x in LatchBody(g, {p}, loops[Header(p)].latches);
      assert x in tree[k].blocks && tree[Header(p)].latches == loops[Header(p)].latches;
    }
    assert IrreducibleLatches(loops) <= IrreducibleLatches(tree) by {
      forall x | x in IrreducibleLatches(loops) ensures x in IrreducibleLatches(tree) {
        var j :| j in loops && !loops[j].reducible && x in loops[j].latches;
        assert j in tree && !tree[j].reducible && x in tree[j].latches;
      }
    }
    forall i, j | 0 <= i < j < |rpo| && Nests(g, tree, reach, rpo[i], rpo[j])
      ensures tree[Header(rpo[j])].outer.Some? && tree[Header(rpo[j])].outer.value.Header?
    {
      assert Nests(g, loops, reach, rpo[i], rpo[j]);
      var c := Header(rpo[j]);
      assert loops[c].outer.Some? && loops[c].outer.value.Header?;
    }
  }

  /** The forest `populate_loops` leaves, from the entry. */
  ghost predicate Populated(g: Graph, entry: BlockId, f: Forest, rpo: seq<BlockId>, dom: DomTree) {
    Wf(g) && entry < |g| &&
    rpo == RpoOrder(g, entry) &&
    dom.Keys == ReachSet(g, {}, entry) && (forall d :: d in dom ==> dom[d] == DomList(g, entry, d)) &&
    (forall e :: e in BackEdges(g, entry) ==> e.1 in dom) &&
    SameHeads(RecordAll(map[], dom, BackEdges(g, entry)), f.loops) &&
    Grows(RecordAll(map[], dom, BackEdges(g, entry)), f.loops) &&
    Root !in f.loops && OwnersKnown(f) && OwnedIn(f) && Nested(f.loops) && InGraph(g, f.loops) &&
    (forall j :: 0 <= j < |rpo| && Header(rpo[j]) in f.loops ==> rpo[j] in f.owner) &&
    BlocksOwned(f) && (forall k :: k in f.loops ==> LoopDone(g, ReachSet(g, {}, entry), f, k.block)) &&
    (forall k :: k in f.loops ==> k.block in f.owner)
  }

  /** The tree made from the populated forest by adding the root: its headers,
      nesting and root loop. */
  lemma FinalFacts(g: Graph, entry: BlockId, f: Forest, rpo: seq<BlockId>, dom: DomTree,
                   rootBlocks: seq<BlockId>, tree: LoopTree)
    requires Populated(g, entry, f, rpo, dom) && rootBlocks == Unowned(rpo, f.owner.Keys)
    requires tree.Keys == f.loops.Keys + {Root}
    requires forall k :: k in f.loops ==> tree[k] == Adopt(f.loops[k])
    requires tree[Root] == Loop(None, [], rootBlocks, false, None, tree[Root].inner)
    requires Elems(tree[Root].inner) == TopLevel(f.loops) && Distinct(tree[Root].inner)
    ensures Root in tree
    ensures forall h: BlockId :: Header(h) in tree <==> exists u: BlockId :: (u, h) in BackEdges(g, entry)
    ensures forall h: BlockId :: Header(h) in tree ==> HeaderLoop(g, entry, tree[Header(h)], h)
    ensures Nested(tree)
    ensures tree[Root].header == None && tree[Root].latches == [] && !tree[Root].reducible &&
      tree[Root].outer == None
    ensures Distinct(tree[Root].blocks)
    ensures forall b :: b in tree[Root].blocks ==> b in ReachSet(g, {}, entry) && Header(b) !in tree
    ensures forall b :: b in ReachSet(g, {}, entry) ==>
      b in tree[Root].blocks || exists k :: k in tree && k != Root && b in tree[k].blocks
  {
    AddRootNested(f.loops, tree, rootBlocks);
    TreeHeaders(g, entry, dom, f.loops, tree);
    TreeRoot(g, entry, f, rpo, tree);
  }

  /** The loop bodies of the final tree, and the root apart from them. */
  lemma TreeBodyFacts(g: Graph, entry: BlockId, f: Forest, rpo: seq<BlockId>, dom: DomTree,
                      rootBlocks: seq<BlockId>, tree: LoopTree)
    requires Populated(g, entry, f, rpo, dom) && rootBlocks == Unowned(rpo, f.owner.Keys)
    requires tree.Keys == f.loops.Keys + {Root}
    requires forall k :: k in f.loops ==> tree[k] == Adopt(f.loops[k])
    requires tree[Root] == Loop(None, [], rootBlocks, false, None, tree[Root].inner)
    ensures forall h: BlockId :: Header(h) in tree ==> HeaderBody(g, entry, tree, h)
    ensures forall b, k :: b in tree[Root].blocks && k in tree && k != Root ==> b !in tree[k].blocks
  {
    TreeBodies(g, entry, f, tree);
    TreeRootApart(g, entry, f, rpo, tree);
  }

  /** The loop bodies of the final tree are those `populate_loops` left. */
  lemma TreeBodies(g: Graph, entry: BlockId, f: Forest, tree: LoopTree)
    requires Wf(g) && entry < |g|
    requires Root !in f.loops && InGraph(g, f.loops) && OwnedIn(f)
    requires forall k :: k in f.loops ==> LoopDone(g, ReachSet(g, {}, entry), f, k.block)
    requires tree.Keys == f.loops.Keys + {Root}
    requires forall k :: k in f.loops ==> tree[k] == Adopt(f.loops[k])
    ensures forall h: BlockId :: Header(h) in tree ==> HeaderBody(g, entry, tree, h)
  {
    forall h: BlockId | Header(h) in tree ensures HeaderBody(g, entry, tree, h) {
      var k := Header(h);
      assert LoopDone(g, ReachSet(g, {}, entry), f, h);
      var l := f.loops[k];
      var n := |l.latches|;
      assert tree[k].blocks == l.blocks && tree[k].latches == l.latches && tree[k].reducible == l.reducible;
      assert Copies(h, n) <= l.blocks;
      if !l.reducible {
        assert l.blocks == Copies(h, n) + l.latches;
        assert l.blocks[n..] == l.latches;
      } else {
        var reach := ReachSet(g, {}, entry);
        forall x | x in reach && x in LatchBody(g, {h} + (Blocks(g) - reach), l.latches)
          ensures exists k2 :: k2 in tree && k2 != Root && x in tree[k2].blocks
        {
          var k2 := f.owner[x];
          assert x in tree[k2].blocks;
        }
      }
    }
  }

  /** No root block is in any other loop. */
  lemma TreeRootApart(g: Graph, entry: BlockId, f: Forest, rpo: seq<BlockId>, tree: LoopTree)
    requires Root !in f.loops && BlocksOwned(f) && InGraph(g, f.loops)
    requires forall k :: k in f.loops ==> k.block in f.owner
    requires tree.Keys == f.loops.Keys + {Root}
    requires forall k :: k in f.loops ==> tree[k] == Adopt(f.loops[k])
    requires tree[Root].blocks == Unowned(rpo, f.owner.Keys)
    ensures forall b, k :: b in tree[Root].blocks && k in tree && k != Root ==> b !in tree[k].blocks
  {
    UnownedMeaning(rpo, f.owner.Keys);
    forall b, k | b in tree[Root].blocks && k in tree && k != Root ensures b !in tree[k].blocks {
      assert b !in f.owner;
    }
  }

  /** The first part of `loop_tree`, up to `populate_loops`: the headers, latches
      and flags are those `collect_back_edges` recorded, no loop has lost a block,
      every owned block is among the blocks of its owner, every header is owned,
      and the nesting links agree. */
  method PopulatedForest(g: Graph, entry: BlockId) returns (f: Forest, rpo: seq<BlockId>, ghost dom: DomTree)
    requires Wf(g) && entry < |g|
    ensures rpo == RpoOrder(g, entry)
    ensures dom.Keys == ReachSet(g, {}, entry) && forall d :: d in dom ==> dom[d] == DomList(g, entry, d)
    ensures forall e :: e in BackEdges(g, entry) ==> e.1 in dom
    ensures SameHeads(RecordAll(map[], dom, BackEdges(g, entry)), f.loops)
    ensures Grows(RecordAll(map[], dom, BackEdges(g, entry)), f.loops)
    ensures Root !in f.loops && OwnersKnown(f) && OwnedIn(f) && Nested(f.loops) && InGraph(g, f.loops)
    ensures forall j :: 0 <= j < |rpo| && Header(rpo[j]) in f.loops ==> rpo[j] in f.owner
    ensures BlocksOwned(f) && forall k :: k in f.loops ==> LoopDone(g, ReachSet(g, {}, entry), f, k.block)
    ensures forall k :: k in f.loops ==> k.block in f.owner
    ensures Populated(g, entry, f, rpo, dom)
    ensures OuterSound(g, f.loops) && OuterComplete(g, f.loops, ReachSet(g, {}, entry), rpo)
  {
    var loops, d := BackEdgeLoopTree(g, entry);
    dom := d;
    rpo := RpoVector(g, entry, |d|);
    RpoOrderIsReachSet(g, entry);
    f := PopulateFrom(g, rpo, loops);
    forall k | k in f.loops ensures k.block in f.owner {
      var j :| 0 <= j < |rpo| && rpo[j] == k.block;
    }
  }

  /** `rpo_vector(entry)`, given the number of reachable blocks. */
  method RpoVector(g: Graph, entry: BlockId, count: nat) returns (rpo: seq<BlockId>)
    requires Wf(g) && entry < |g| && count == |ReachSet(g, {}, entry)|
    ensures rpo == RpoOrder(g, entry)
  {
    RpoOrderIsReachSet(g, entry);
    var buf := Rpo.Rpo(g, entry, count);
    rpo := Values(buf);
  }

  /** `populate_loops` from the loops of the back edges, no block owned yet. */
  method PopulateFrom(g: Graph, rpo: seq<BlockId>, loops: LoopTree) returns (f: Forest)
    requires Wf(g) && Root !in loops && InGraph(g, loops) && HeadersIn(loops) && Nested(loops)
    requires Distinct(rpo) && forall k :: k in loops ==> k.block in rpo
    requires forall k :: k in loops ==> loops[k].blocks == Copies(k.block, |loops[k].latches|)
    requires forall k :: k in loops ==> loops[k].outer.None?
    ensures SameHeads(loops, f.loops) && Grows(loops, f.loops)
    ensures Root !in f.loops && OwnersKnown(f) && OwnedIn(f) && Nested(f.loops) && InGraph(g, f.loops)
    ensures forall j :: 0 <= j < |rpo| && Header(rpo[j]) in f.loops ==> rpo[j] in f.owner
    ensures BlocksOwned(f) && forall k :: k in f.loops ==> LoopDone(g, Elems(rpo), f, k.block)
    ensures OuterSound(g, f.loops) && OuterComplete(g, f.loops, Elems(rpo), rpo)
  {
    var f0 := Forest(loops, map[]);
    assert OwnersKnown(f0) && OwnedIn(f0) && BlocksOwned(f0);
    f := PopulateLoops(g, rpo, f0);
    PopulatedBodies(g, rpo, loops, f);
    PopulatedNesting(g, rpo, loops, f);
  }

  /** The nesting `populate_loops` leaves, from loops with no nesting links: every
      outer link is sound, and every header reached by the walks of a header
      before it in `rpo` has one. */
  lemma PopulatedNesting(g: Graph, rpo: seq<BlockId>, loops: LoopTree, f: Forest)
    requires Wf(g) && InGraph(g, loops) && HeadersIn(loops) && Distinct(rpo) && Root !in loops && Nested(loops)
    requires forall k :: k in loops ==> loops[k].outer.None?
    requires f == Populate(g, Forest(loops, map[]), rpo, |rpo|, {})
    requires SameHeads(loops, f.loops) && Nested(f.loops)
    ensures OuterSound(g, f.loops) && OuterComplete(g, f.loops, Elems(rpo), rpo)
  {
    var f0 := Forest(loops, map[]);
    assert OwnersKnown(f0) && OwnedIn(f0);
    PopulateOuterSound(g, f0, rpo, |rpo|, {});
    PopulateNests(g, f0, rpo, |rpo|, {});
    forall i, j | 0 <= i < j < |rpo| && Nests(g, f.loops, Elems(rpo), rpo[i], rpo[j])
      ensures f.loops[Header(rpo[j])].outer.Some? && f.loops[Header(rpo[j])].outer.value.Header?
    {
      NestsSame(g, loops, f.loops, Elems(rpo), rpo[i], rpo[j]);
    }
  }

  /** Every loop is done once `populate_loops` has run over a reverse postorder
      holding every header, from loops with only their header copies. */
  lemma PopulatedBodies(g: Graph, rpo: seq<BlockId>, loops: LoopTree, f: Forest)
    requires Wf(g) && InGraph(g, loops)
    requires Distinct(rpo) && forall k :: k in loops ==> k.block in rpo
    requires forall k :: k in loops ==> loops[k].blocks == Copies(k.block, |loops[k].latches|)
    requires f == Populate(g, Forest(loops, map[]), rpo, |rpo|, {})
    ensures BlocksOwned(f) && forall k :: k in f.loops ==> LoopDone(g, Elems(rpo), f, k.block)
  {
    var f0 := Forest(loops, map[]);
    assert OwnersKnown(f0) && BlocksOwned(f0);
    PopulateDone(g, f0, rpo, |rpo|, {});
    forall k | k in f.loops ensures LoopDone(g, Elems(rpo), f, k.block) {
      var j :| 0 <= j < |rpo| && rpo[j] == k.block;
    }
  }

  /** `dom(entry)` and `collect_back_edges(entry)`: one loop record per back-edge
      target, before any body is searched. */
  method BackEdgeLoopTree(g: Graph, entry: BlockId) returns (loops: LoopTree, dom: DomTree)
    requires Wf(g) && entry < |g|
    ensures dom.Keys == ReachSet(g, {}, entry) && |dom| == |ReachSet(g, {}, entry)|
    ensures forall d :: d in dom ==> dom[d] == DomList(g, entry, d)
    ensures forall e :: e in BackEdges(g, entry) ==> e.1 in dom
    ensures loops == RecordAll(map[], dom, BackEdges(g, entry))
    ensures Root !in loops && InGraph(g, loops) && HeadersIn(loops) && Nested(loops)
    ensures forall k :: k in loops ==> k.block in ReachSet(g, {}, entry)
    ensures forall k :: k in loops ==> loops[k].blocks == Copies(k.block, |loops[k].latches|)
    ensures forall k :: k in loops ==> loops[k].outer.None?
  {
    dom := ComputeDom(g, entry);
    WalkFromEntryReach(g, {}, entry);
    var visited;
    loops, visited := CollectBackEdges(g, {}, entry, map[], dom, {}, {});
    InitialLoops(g, entry, dom);
  }

  /** What the final tree is made of: the dominator lists of the reachable blocks,
      the loops of the back edges grown by their bodies, and the root added. */
  ghost predicate FinalTree(g: Graph, entry: BlockId, dom: DomTree, fl: LoopTree, tree: LoopTree) {
    Wf(g) && entry < |g| &&
    dom.Keys == ReachSet(g, {}, entry) &&
    (forall d :: d in dom ==> dom[d] == DomList(g, entry, d)) &&
    (forall e :: e in BackEdges(g, entry) ==> e.1 in dom) &&
    SameHeads(RecordAll(map[], dom, BackEdges(g, entry)), fl) &&
    Grows(RecordAll(map[], dom, BackEdges(g, entry)), fl) &&
    tree.Keys == fl.Keys + {Root} &&
    (forall k :: k in fl ==> tree[k] == Adopt(fl[k]))
  }

  /** The headers of the final tree are the targets of the back edges. */
  lemma TreeHeaderKeys(g: Graph, entry: BlockId, dom: DomTree, fl: LoopTree, tree: LoopTree)
    requires FinalTree(g, entry, dom, fl, tree)
    ensures forall h: BlockId :: Header(h) in tree <==> exists u: BlockId :: (u, h) in BackEdges(g, entry)
  {
    forall h: BlockId ensures Header(h) in tree <==> exists u: BlockId :: (u, h) in BackEdges(g, entry) {
      TreeHasHeader(g, entry, dom, fl, tree, h);
    }
  }

  /** The loops of the final tree, header by header. */
  lemma TreeHeaders(g: Graph, entry: BlockId, dom: DomTree, fl: LoopTree, tree: LoopTree)
    requires FinalTree(g, entry, dom, fl, tree)
    ensures forall h: BlockId :: Header(h) in tree <==> exists u: BlockId :: (u, h) in BackEdges(g, entry)
    ensures forall h: BlockId :: Header(h) in tree ==> HeaderLoop(g, entry, tree[Header(h)], h)
  {
    TreeHeaderKeys(g, entry, dom, fl, tree);
    forall h: BlockId | Header(h) in tree
      ensures HeaderLoop(g, entry, tree[Header(h)], h)
    {
      TreeHeaderLoop(g, entry, dom, fl, tree, h);
    }
  }

  lemma TreeHasHeader(g: Graph, entry: BlockId, dom: DomTree, fl: LoopTree, tree: LoopTree, h: BlockId)
    requires Wf(g) && entry < |g|
    requires dom.Keys == ReachSet(g, {}, entry)
    requires forall d :: d in dom ==> dom[d] == DomList(g, entry, d)
    requires forall e :: e in BackEdges(g, entry) ==> e.1 in dom
    requires RecordAll(map[], dom, BackEdges(g, entry)).Keys == fl.Keys
    requires tree.Keys == fl.Keys + {Root}
    ensures Header(h) in tree <==> exists u: BlockId :: (u, h) in BackEdges(g, entry)
  {
    var back := BackEdges(g, entry);
    BackEdgeLoops(g, entry, dom, h);
    var ls := LatchesOf(back, h);
    if ls != [] {
      LatchesOfMembers(back, h, ls[0]);
    }
    if exists u: BlockId :: (u, h) in back {
      var u: BlockId :| (u, h) in back;
      LatchesOfMembers(back, h, u);
    }
  }

  lemma TreeHeaderLoop(g: Graph, entry: BlockId, dom: DomTree, fl: LoopTree, tree: LoopTree, h: BlockId)
    requires FinalTree(g, entry, dom, fl, tree) && Header(h) in tree
    ensures HeaderLoop(g, entry, tree[Header(h)], h)
  {
    BackEdgeLoops(g, entry, dom, h);
    var loops := RecordAll(map[], dom, BackEdges(g, entry));
    assert Header(h) in loops;
    assert loops[Header(h)].blocks <= fl[Header(h)].blocks;
  }

  /** The root loop of the final tree. */
  lemma TreeRoot(g: Graph, entry: BlockId, f: Forest, rpo: seq<BlockId>, tree: LoopTree)
    requires Wf(g) && entry < |g| && rpo == RpoOrder(g, entry)
    requires Root !in f.loops && OwnersKnown(f) && OwnedIn(f)
    requires forall j :: 0 <= j < |rpo| && Header(rpo[j]) in f.loops ==> rpo[j] in f.owner
    requires tree.Keys == f.loops.Keys + {Root}
    requires forall k :: k in f.loops ==> tree[k] == Adopt(f.loops[k])
    requires tree[Root] == Loop(None, [], Unowned(rpo, f.owner.Keys), false, None, tree[Root].inner)
    ensures Distinct(tree[Root].blocks)
    ensures forall b :: b in tree[Root].blocks ==> b in ReachSet(g, {}, entry) && Header(b) !in tree
    ensures forall b :: b in ReachSet(g, {}, entry) ==>
      b in tree[Root].blocks || exists k :: k in tree && k != Root && b in tree[k].blocks
  {
    RpoOrderIsReachSet(g, entry);
    UnownedMeaning(rpo, f.owner.Keys);
    forall b | b in tree[Root].blocks ensures b in ReachSet(g, {}, entry) && Header(b) !in tree {
      assert b in rpo;
      var j :| 0 <= j < |rpo| && rpo[j] == b;
    }
    forall b | b in ReachSet(g, {}, entry)
      ensures b in tree[Root].blocks || exists k :: k in tree && k != Root && b in tree[k].blocks
    {
      assert b in rpo;
      if b in f.owner {
        var k := f.owner[b];
        assert b in tree[k].blocks;
      }
    }
  }
}
