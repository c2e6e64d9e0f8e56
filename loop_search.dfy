/** `loop_search`: the backward walk over predecessor lists that fills the body of
    a reducible loop. The visit marker is the explicit `marked` set; the header is
    marked before the walk starts, so the walk stops there. */
module LoopSearches {
  import opened Wrappers
  import opened Cfg
  import opened Walks
  import opened Loops

  /** What the walk changes: the loop records and `bb_to_loop`. The block -> loop
      pointers of `bb_to_loop` are keys of the loop tree. */
  datatype Forest = Forest(loops: LoopTree, owner: map<BlockId, LoopKey>)

  /** Every owner is a loop of the tree. */
  ghost predicate OwnersKnown(f: Forest) {
    forall x :: x in f.owner ==> f.owner[x] in f.loops
  }

  /** Two trees with the same loops, headers, latches and reducibility. */
  ghost predicate SameHeads(a: LoopTree, b: LoopTree) {
    a.Keys == b.Keys &&
    forall k :: k in a ==>
      b[k].header == a[k].header && b[k].latches == a[k].latches && b[k].reducible == a[k].reducible
  }

  /** Visiting `x` on behalf of loop `k` (loop.hpp 76-84): an unowned block joins
      `k`; a block owned by a loop without an outer loop makes that loop an inner
      loop of `k`, unless it is `k` itself (the corrected guard, see README). */
  function Claim(f: Forest, k: LoopKey, x: BlockId): (r: Forest)
    requires k in f.loops && OwnersKnown(f)
    ensures r.loops.Keys == f.loops.Keys && OwnersKnown(r)
    ensures r.owner.Keys == f.owner.Keys + {x}
    ensures forall y :: y in f.owner ==> r.owner[y] == f.owner[y]
    ensures x !in f.owner ==> r.owner[x] == k
  {
    if x !in f.owner then
      Forest(f.loops[k := f.loops[k].(blocks := f.loops[k].blocks + [x])], f.owner[x := k])
    else
      var k2 := f.owner[x];
      if k2 != k && f.loops[k2].outer.None? then Forest(Attach(f.loops, k, k2), f.owner)
      else f
  }

  /** The same step as the source writes it: the owner of `x` is attached even
      when it is `k` itself. */
  function ClaimAsWritten(f: Forest, k: LoopKey, x: BlockId): (r: Forest)
    requires k in f.loops && OwnersKnown(f)
    ensures r.loops.Keys == f.loops.Keys && OwnersKnown(r)
    ensures r.owner.Keys == f.owner.Keys + {x}
    ensures forall y :: y in f.owner ==> r.owner[y] == f.owner[y]
    ensures x !in f.owner ==> r.owner[x] == k
  {
    if x !in f.owner then
      Forest(f.loops[k := f.loops[k].(blocks := f.loops[k].blocks + [x])], f.owner[x := k])
    else
      var k2 := f.owner[x];
      if f.loops[k2].outer.None? then Forest(Attach(f.loops, k, k2), f.owner)
      else f
  }

  /** The blocks visited, claimed in order. */
  function ClaimAll(f: Forest, k: LoopKey, xs: seq<BlockId>): (r: Forest)
    requires k in f.loops && OwnersKnown(f)
    ensures r.loops.Keys == f.loops.Keys && OwnersKnown(r)
    decreases |xs|
  {
    if xs == [] then f
    else
      ClaimAll(Claim(f, k, xs[0]), k, xs[1..])
  }

  lemma {:induction false} ClaimAllConcat(f: Forest, k: LoopKey, a: seq<BlockId>, b: seq<BlockId>)
    requires k in f.loops && OwnersKnown(f)
    ensures ClaimAll(f, k, a + b) == ClaimAll(ClaimAll(f, k, a), k, b)
    decreases |a|
  {
    if a == [] {
      assert a + b == b;
    } else {
      assert (a + b)[0] == a[0] && (a + b)[1..] == a[1..] + b;
      ClaimAllConcat(Claim(f, k, a[0]), k, a[1..], b);
    }
  }

  /** The first visits, in order, of the blocks `owned` does not hold: the
      blocks a run of claims appends. */
  function NewBlocks(xs: seq<BlockId>, owned: set<BlockId>): (r: seq<BlockId>)
    ensures Elems(r) == Elems(xs) - owned && Distinct(r)
    decreases |xs|
  {
    if xs == [] then []
    else if xs[0] in owned then
      assert Elems(xs) == {xs[0]} + Elems(xs[1..]) by { ElemsConcat([xs[0]], xs[1..]); assert xs == [xs[0]] + xs[1..]; }
      NewBlocks(xs[1..], owned)
    else
      var rest := NewBlocks(xs[1..], owned + {xs[0]});
      assert Elems(xs) == {xs[0]} + Elems(xs[1..]) by { ElemsConcat([xs[0]], xs[1..]); assert xs == [xs[0]] + xs[1..]; }
      DistinctConcat([xs[0]], rest);
      [xs[0]] + rest
  }

  /** Claiming blocks: every visited block is owned afterwards, by `k` if it was
      unowned; blocks owned before keep their owner. */
  lemma {:induction false} ClaimAllOwners(f: Forest, k: LoopKey, xs: seq<BlockId>)
    requires k in f.loops && OwnersKnown(f)
    ensures var r := ClaimAll(f, k, xs);
      r.owner.Keys == f.owner.Keys + Elems(xs) &&
      (forall y :: y in f.owner ==> r.owner[y] == f.owner[y]) &&
      (forall y :: y in xs && y !in f.owner ==> r.owner[y] == k)
    decreases |xs|
  {
    if xs != [] {
      var x := xs[0];
      ClaimAllOwners(Claim(f, k, x), k, xs[1..]);
      assert xs == [x] + xs[1..];
      ElemsConcat([x], xs[1..]);
    }
  }

  lemma ClaimBlocks(f: Forest, k: LoopKey, x: BlockId)
    requires k in f.loops && OwnersKnown(f)
    ensures Claim(f, k, x).loops[k].blocks == f.loops[k].blocks + (if x !in f.owner then [x] else [])
  {
  }

  /** Claiming appends to the blocks of `k` the first visits of the blocks that
      were unowned, in visit order. */
  lemma {:induction false} ClaimAllBlocks(f: Forest, k: LoopKey, xs: seq<BlockId>)
    requires k in f.loops && OwnersKnown(f)
    ensures ClaimAll(f, k, xs).loops[k].blocks == f.loops[k].blocks + NewBlocks(xs, f.owner.Keys)
    decreases |xs|
  {
    if xs != [] {
      var x := xs[0];
      var f1 := Claim(f, k, x);
      ClaimBlocks(f, k, x);
      ClaimAllBlocks(f1, k, xs[1..]);
      if x !in f.owner {
        assert f1.owner.Keys == f.owner.Keys + {x};
        ConcatAssoc3(f.loops[k].blocks, [x], NewBlocks(xs[1..], f1.owner.Keys));
      } else {
        assert f1.owner.Keys == f.owner.Keys;
      }
    }
  }

  /** The blocks `loop_search(b)` visits, in visit order: `b` itself (marked or
      not), then the walk through its predecessors. */
  function Search(g: Graph, b: BlockId, marked: set<BlockId>): seq<BlockId>
    requires Wf(g) && b < |g|
    decreases |Blocks(g) - (marked - {b})|, 0, 0
  {
    Shrinks(g, b, marked);
    [b] + SearchPreds(g, b, 0, marked + {b})
  }

  /** The predecessor loop of `y` from position `i` on: enter each unmarked
      predecessor, in list order. */
  function SearchPreds(g: Graph, y: BlockId, i: nat, marked: set<BlockId>): seq<BlockId>
    requires Wf(g) && y < |g| && i <= |g[y].preds|
    decreases |Blocks(g) - marked|, 1, |g[y].preds| - i
  {
    if i == |g[y].preds| then []
    else
      var p := g[y].preds[i];
      assert p in g[y].preds;
      if p in marked then SearchPreds(g, y, i + 1, marked)
      else
        assert marked - {p} == marked;
        var o := Search(g, p, marked);
        CardMonotone(Blocks(g), marked, marked + Elems(o));
        o + SearchPreds(g, y, i + 1, marked + Elems(o))
  }

  lemma Shrinks(g: Graph, b: BlockId, marked: set<BlockId>)
    requires b < |g|
    ensures |Blocks(g) - (marked + {b})| < |Blocks(g) - (marked - {b})|
  {
    CardShrinks(Blocks(g), marked - {b}, b);
    assert (marked - {b}) + {b} == marked + {b};
  }

  /** `loop_search(b, loop)`: mark `b`, claim it for the loop, then walk into
      every unmarked predecessor in list order. */
  method LoopSearch(g: Graph, b: BlockId, k: LoopKey, f: Forest, marked: set<BlockId>)
    returns (fOut: Forest, markedOut: set<BlockId>)
    requires Wf(g) && b < |g| && k in f.loops && OwnersKnown(f)
    ensures fOut == ClaimAll(f, k, Search(g, b, marked))
    ensures markedOut == marked + Elems(Search(g, b, marked))
    decreases |Blocks(g) - (marked - {b})|, 0, 0
  {
    Shrinks(g, b, marked);
    var f1 := Claim(f, k, b);
    fOut, markedOut := SearchPredecessors(g, b, k, f1, marked + {b});
    SearchLoopEnd(g, b, marked, f, k);
  }

  /** The predecessor loop of `loop_search(y, loop)`, entered with `y` marked. */
  method SearchPredecessors(g: Graph, y: BlockId, k: LoopKey, f1: Forest, start: set<BlockId>)
    returns (cur: Forest, m: set<BlockId>)
    requires Wf(g) && y < |g| && k in f1.loops && OwnersKnown(f1)
    ensures cur == ClaimAll(f1, k, SearchPreds(g, y, 0, start))
    ensures m == start + Elems(SearchPreds(g, y, 0, start))
    decreases |Blocks(g) - start|, 2, 0
  {
    cur, m := f1, start;
    var i := 0;
    ghost var done: seq<BlockId> := [];
    while i < |g[y].preds|
      invariant i <= |g[y].preds| && start <= m
      invariant SearchInv(g, y, i, start, m, done, f1, k, cur)
    {
      cur, m, done := SearchPredecessor(g, y, i, k, f1, start, cur, m, done);
      i := i + 1;
    }
    assert done + [] == done;
  }

  /** One round of the predecessor loop: enter predecessor `i` unless it is marked. */
  method SearchPredecessor(g: Graph, y: BlockId, i: nat, k: LoopKey, f1: Forest, start: set<BlockId>,
                           cur: Forest, m: set<BlockId>, ghost done: seq<BlockId>)
    returns (cur2: Forest, m2: set<BlockId>, ghost done2: seq<BlockId>)
    requires Wf(g) && y < |g| && i < |g[y].preds| && k in f1.loops && OwnersKnown(f1)
    requires start <= m && SearchInv(g, y, i, start, m, done, f1, k, cur)
    ensures start <= m2 && SearchInv(g, y, i + 1, start, m2, done2, f1, k, cur2)
    decreases |Blocks(g) - start|, 1, 0
  {
    var p := g[y].preds[i];
    assert p in g[y].preds;
    cur2, m2 := cur, m;
    if p !in m {
      CardMonotone(Blocks(g), start, m);
      assert m - {p} == m;
      cur2, m2 := LoopSearch(g, p, k, cur, m);
    }
    done2 := SearchLoopStep(g, y, i, start, m, done, f1, k, cur, cur2, m2);
  }

  /** The invariant of the predecessor loop: `done` is what the rounds so far
      visited, in order. */
  ghost predicate SearchInv(g: Graph, y: BlockId, i: nat, start: set<BlockId>, m: set<BlockId>,
                            done: seq<BlockId>, f1: Forest, k: LoopKey, cur: Forest)
    requires Wf(g) && y < |g| && i <= |g[y].preds| && k in f1.loops && OwnersKnown(f1)
  {
    SearchPreds(g, y, 0, start) == done + SearchPreds(g, y, i, m) &&
    m == start + Elems(done) &&
    cur == ClaimAll(f1, k, done)
  }

  /** One round of the predecessor loop extends the visited prefix by what the
      round visited. */
  lemma SearchLoopStep(g: Graph, y: BlockId, i: nat, start: set<BlockId>, m: set<BlockId>,
                       done: seq<BlockId>, f1: Forest, k: LoopKey, cur: Forest, newCur: Forest, newM: set<BlockId>)
    returns (done2: seq<BlockId>)
    requires Wf(g) && y < |g| && i < |g[y].preds|
    requires k in f1.loops && OwnersKnown(f1)
    requires SearchInv(g, y, i, start, m, done, f1, k, cur)
    requires g[y].preds[i] in m ==> newCur == cur && newM == m
    requires
      var p := g[y].preds[i];
      assert p in g[y].preds;
      p !in m ==> newCur == ClaimAll(cur, k, Search(g, p, m)) && newM == m + Elems(Search(g, p, m))
    ensures SearchInv(g, y, i + 1, start, newM, done2, f1, k, newCur)
  {
    var p := g[y].preds[i];
    assert p in g[y].preds;
    if p in m {
      done2 := done;
    } else {
      var o := Search(g, p, m);
      ConcatAssoc3(done, o, SearchPreds(g, y, i + 1, newM));
      ClaimAllConcat(f1, k, done, o);
      ElemsConcat(done, o);
      done2 := done + o;
    }
  }

  lemma SearchLoopEnd(g: Graph, b: BlockId, marked: set<BlockId>, f: Forest, k: LoopKey)
    requires Wf(g) && b < |g| && k in f.loops && OwnersKnown(f)
    ensures ClaimAll(Claim(f, k, b), k, SearchPreds(g, b, 0, marked + {b})) == ClaimAll(f, k, Search(g, b, marked))
    ensures marked + {b} + Elems(SearchPreds(g, b, 0, marked + {b})) == marked + Elems(Search(g, b, marked))
  {
    var rest := SearchPreds(g, b, 0, marked + {b});
    ElemsConcat([b], rest);
    assert ([b] + rest)[0] == b && ([b] + rest)[1..] == rest;
  }

  /** A walk backward along predecessor lists: every block after the first is a
      predecessor of the one before it and lies outside `avoid`. */
  ghost predicate IsPredPath(g: Graph, avoid: set<BlockId>, q: seq<BlockId>) {
    |q| > 0 &&
    (forall j :: 0 <= j < |q| ==> q[j] < |g|) &&
    (forall j :: 1 <= j < |q| ==> q[j] !in avoid && q[j] in g[q[j - 1]].preds)
  }

  ghost predicate PredReaches(g: Graph, avoid: set<BlockId>, b: BlockId, x: BlockId) {
    exists q :: IsPredPath(g, avoid, q) && q[0] == b && q[|q| - 1] == x
  }

  /** The blocks a backward walk from `b` reaches without entering `avoid`. */
  ghost function BackReachSet(g: Graph, avoid: set<BlockId>, b: BlockId): set<BlockId> {
    set x: BlockId | x < |g| && PredReaches(g, avoid, b, x)
  }

  lemma PredReachesPrepend(g: Graph, avoid: set<BlockId>, small: set<BlockId>, b: BlockId, p: BlockId, x: BlockId)
    requires Wf(g) && b < |g| && p in g[b].preds && p !in small && small <= avoid
    requires PredReaches(g, avoid, p, x)
    ensures PredReaches(g, small, b, x)
  {
    var q :| IsPredPath(g, avoid, q) && q[0] == p && q[|q| - 1] == x;
    var q2 := [b] + q;
    assert forall j :: 1 <= j < |q2| ==> q2[j] == q[j - 1];
    assert IsPredPath(g, small, q2);
  }

  lemma PredReachesWeaken(g: Graph, avoid: set<BlockId>, small: set<BlockId>, b: BlockId, x: BlockId)
    requires small <= avoid && PredReaches(g, avoid, b, x)
    ensures PredReaches(g, small, b, x)
  {
    var q :| IsPredPath(g, avoid, q) && q[0] == b && q[|q| - 1] == x;
    assert IsPredPath(g, small, q);
  }

  /** The visit order starts at `b`, visits each block once and enters no marked
      block other than `b`. */
  lemma {:induction false} SearchShape(g: Graph, b: BlockId, marked: set<BlockId>)
    requires Wf(g) && b < |g|
    ensures var s := Search(g, b, marked);
      |s| > 0 && s[0] == b && Distinct(s) && (Elems(s) - {b}) !! marked &&
      forall x :: x in s ==> x < |g|
    decreases |Blocks(g) - (marked - {b})|, 0, 0
  {
    Shrinks(g, b, marked);
    var rest := SearchPreds(g, b, 0, marked + {b});
    SearchPredsShape(g, b, 0, marked + {b});
    DistinctConcat([b], rest);
  }

  lemma {:induction false} SearchPredsShape(g: Graph, y: BlockId, i: nat, marked: set<BlockId>)
    requires Wf(g) && y < |g| && i <= |g[y].preds|
    ensures var s := SearchPreds(g, y, i, marked);
      Distinct(s) && Elems(s) !! marked && forall x :: x in s ==> x < |g|
    decreases |Blocks(g) - marked|, 1, |g[y].preds| - i
  {
    if i < |g[y].preds| {
      var p := g[y].preds[i];
      assert p in g[y].preds;
      if p in marked {
        SearchPredsShape(g, y, i + 1, marked);
      } else {
        assert marked - {p} == marked;
        var o := Search(g, p, marked);
        CardMonotone(Blocks(g), marked, marked + Elems(o));
        SearchShape(g, p, marked);
        SearchPredsShape(g, y, i + 1, marked + Elems(o));
        var rest := SearchPreds(g, y, i + 1, marked + Elems(o));
        DistinctConcat(o, rest);
      }
    }
  }

  /** Every visited block is reached from `b` walking backward outside `marked`. */
  lemma {:induction false} SearchSound(g: Graph, b: BlockId, marked: set<BlockId>, x: BlockId)
    requires Wf(g) && b < |g| && x in Search(g, b, marked)
    ensures PredReaches(g, marked, b, x)
    decreases |Blocks(g) - (marked - {b})|, 0, 0
  {
    Shrinks(g, b, marked);
    var rest := SearchPreds(g, b, 0, marked + {b});
    assert Search(g, b, marked) == [b] + rest;
    if x == b {
      assert IsPredPath(g, marked, [b]);
    } else {
      assert x in rest;
      var j := SearchPredsSound(g, b, 0, marked + {b}, x);
      PredReachesPrepend(g, marked + {b}, marked, b, g[b].preds[j], x);
    }
  }

  /** A block visited by the predecessor loop of `y` from position `i` on is
      reached from some unmarked predecessor at a position `j >= i`. */
  lemma {:induction false} SearchPredsSound(g: Graph, y: BlockId, i: nat, marked: set<BlockId>, x: BlockId)
    returns (j: nat)
    requires Wf(g) && y < |g| && i <= |g[y].preds| && x in SearchPreds(g, y, i, marked)
    ensures i <= j < |g[y].preds| && g[y].preds[j] !in marked
    ensures PredReaches(g, marked, g[y].preds[j], x)
    decreases |Blocks(g) - marked|, 1, |g[y].preds| - i
  {
    var p := g[y].preds[i];
    assert p in g[y].preds;
    if p in marked {
      j := SearchPredsSound(g, y, i + 1, marked, x);
    } else {
      assert marked - {p} == marked;
      var o := Search(g, p, marked);
      CardMonotone(Blocks(g), marked, marked + Elems(o));
      var rest := SearchPreds(g, y, i + 1, marked + Elems(o));
      assert SearchPreds(g, y, i, marked) == o + rest;
      if x in o {
        SearchSound(g, p, marked, x);
        j := i;
      } else {
        assert x in rest;
        j := SearchPredsSound(g, y, i + 1, marked + Elems(o), x);
        PredReachesWeaken(g, marked + Elems(o), marked, g[y].preds[j], x);
      }
    }
  }

  /** Every predecessor of a block of `s` lies in `cover`. */
  ghost predicate PredsCovered(g: Graph, s: set<BlockId>, cover: set<BlockId>) {
    forall x: BlockId :: x in s && x < |g| ==> forall p :: p in g[x].preds ==> p in cover
  }

  lemma CoveredUnion(g: Graph, a: set<BlockId>, b: set<BlockId>, ca: set<BlockId>, cb: set<BlockId>, c: set<BlockId>)
    requires PredsCovered(g, a, ca) && PredsCovered(g, b, cb) && ca <= c && cb <= c
    ensures PredsCovered(g, a + b, c)
  {
  }

  /** The walk stops only at marked blocks: every predecessor of a visited block
      is marked or visited. */
  lemma {:induction false} SearchClosed(g: Graph, b: BlockId, marked: set<BlockId>)
    requires Wf(g) && b < |g|
    ensures PredsCovered(g, Elems(Search(g, b, marked)), marked + Elems(Search(g, b, marked)))
    decreases |Blocks(g) - (marked - {b})|, 0, 0
  {
    Shrinks(g, b, marked);
    var rest := SearchPreds(g, b, 0, marked + {b});
    SearchPredsClosed(g, b, 0, marked + {b});
    ElemsConcat([b], rest);
    assert Elems(Search(g, b, marked)) == {b} + Elems(rest);
    forall p | p in g[b].preds ensures p in marked + {b} + Elems(rest) {
      var j :| 0 <= j < |g[b].preds| && g[b].preds[j] == p;
    }
    CoveredUnion(g, {b}, Elems(rest), marked + {b} + Elems(rest), marked + {b} + Elems(rest),
                 marked + Elems(Search(g, b, marked)));
  }

  lemma {:induction false} SearchPredsClosed(g: Graph, y: BlockId, i: nat, marked: set<BlockId>)
    requires Wf(g) && y < |g| && i <= |g[y].preds|
    ensures var s := Elems(SearchPreds(g, y, i, marked));
      PredsCovered(g, s, marked + s) &&
      forall j :: i <= j < |g[y].preds| ==> g[y].preds[j] in marked + s
    decreases |Blocks(g) - marked|, 1, |g[y].preds| - i
  {
    if i < |g[y].preds| {
      var p := g[y].preds[i];
      assert p in g[y].preds;
      if p in marked {
        SearchPredsClosed(g, y, i + 1, marked);
      } else {
        assert marked - {p} == marked;
        var o := Search(g, p, marked);
        CardMonotone(Blocks(g), marked, marked + Elems(o));
        SearchClosed(g, p, marked);
        SearchShape(g, p, marked);
        SearchPredsClosed(g, y, i + 1, marked + Elems(o));
        var rest := SearchPreds(g, y, i + 1, marked + Elems(o));
        assert SearchPreds(g, y, i, marked) == o + rest;
        ElemsConcat(o, rest);
        var all := marked + Elems(o) + Elems(rest);
        CoveredUnion(g, Elems(o), Elems(rest), marked + Elems(o), marked + Elems(o) + Elems(rest), all);
        assert o[0] == p;
        assert p in all;
      }
    }
  }

  /** Every block reached backward from `b` outside `marked` is visited. */
  lemma SearchComplete(g: Graph, b: BlockId, marked: set<BlockId>, x: BlockId)
    requires Wf(g) && b < |g| && PredReaches(g, marked, b, x)
    ensures x in Search(g, b, marked)
  {
    var s := Search(g, b, marked);
    SearchShape(g, b, marked);
    SearchClosed(g, b, marked);
    var q :| IsPredPath(g, marked, q) && q[0] == b && q[|q| - 1] == x;
    ClosedWalk(g, marked, Elems(s), q);
  }

  /** A backward walk outside `marked` that starts in a set whose predecessors
      are all marked or in the set stays in the set. */
  lemma ClosedWalk(g: Graph, marked: set<BlockId>, v: set<BlockId>, q: seq<BlockId>)
    requires IsPredPath(g, marked, q) && q[0] in v && PredsCovered(g, v, marked + v)
    ensures q[|q| - 1] in v
  {
    var k := 0;
    while k < |q| - 1
      invariant 0 <= k < |q| && q[k] in v
    {
      assert q[k] < |g|;
      assert q[k + 1] in g[q[k]].preds && q[k + 1] !in marked;
      k := k + 1;
    }
  }

  /** `loop_search(b)` visits exactly the blocks a backward walk from `b` reaches
      without entering a marked block, each once, `b` first. */
  lemma SearchIsBackReach(g: Graph, b: BlockId, marked: set<BlockId>)
    requires Wf(g) && b < |g|
    ensures Elems(Search(g, b, marked)) == BackReachSet(g, marked, b)
    ensures Search(g, b, marked)[0] == b && Distinct(Search(g, b, marked))
  {
    SearchShape(g, b, marked);
    forall x | x in Search(g, b, marked) ensures x in BackReachSet(g, marked, b) {
      SearchSound(g, b, marked, x);
    }
    forall x | x in BackReachSet(g, marked, b) ensures x in Search(g, b, marked) {
      SearchComplete(g, b, marked, x);
    }
  }

  /** The nesting links agree: `b` is an inner loop of `a` exactly when `a` is
      the outer loop of `b`; inner lists name loops of the tree, each once, and
      no loop is its own outer loop. */
  ghost predicate Nested(loops: LoopTree) {
    LinksAgree(loops) && InnerListsWf(loops)
  }

  ghost predicate LinksAgree(loops: LoopTree) {
    forall a, b :: a in loops && b in loops ==> (b in loops[a].inner <==> loops[b].outer == Some(a))
  }

  ghost predicate InnerListsWf(loops: LoopTree) {
    forall a :: a in loops ==>
      Distinct(loops[a].inner) && Elems(loops[a].inner) <= loops.Keys && loops[a].outer != Some(a) &&
      (loops[a].outer.Some? ==> loops[a].outer.value in loops)
  }

  /** Claiming changes no header, latch list or reducibility flag. */
  lemma {:induction false} ClaimAllHeads(f: Forest, k: LoopKey, xs: seq<BlockId>)
    requires k in f.loops && OwnersKnown(f)
    ensures SameHeads(f.loops, ClaimAll(f, k, xs).loops)
    decreases |xs|
  {
    if xs != [] {
      ClaimHeads(f, k, xs[0]);
      ClaimAllHeads(Claim(f, k, xs[0]), k, xs[1..]);
      SameHeadsTrans(f.loops, Claim(f, k, xs[0]).loops, ClaimAll(f, k, xs).loops);
    }
  }

  /** Making `k2`, a loop without an outer loop, an inner loop of `k`. */
  function Attach(loops: LoopTree, k: LoopKey, k2: LoopKey): (r: LoopTree)
    requires k in loops && k2 in loops
    ensures r.Keys == loops.Keys
  {
    var l1 := loops[k2 := loops[k2].(outer := Some(k))];
    l1[k := l1[k].(inner := l1[k].inner + [k2])]
  }

  lemma AttachNested(loops: LoopTree, k: LoopKey, k2: LoopKey)
    requires k in loops && k2 in loops && k != k2 && loops[k2].outer.None? && Nested(loops)
    ensures Nested(Attach(loops, k, k2))
  {
    var r := Attach(loops, k, k2);
    assert k2 !in loops[k].inner;
    AttachRecords(loops, k, k2);
    AttachLinks(loops, k, k2);
    AttachInner(loops, k, k2);
  }

  lemma AttachRecords(loops: LoopTree, k: LoopKey, k2: LoopKey)
    requires k in loops && k2 in loops && k != k2
    ensures var r := Attach(loops, k, k2);
      r[k].inner == loops[k].inner + [k2] && r[k].outer == loops[k].outer &&
      r[k2].outer == Some(k) && r[k2].inner == loops[k2].inner &&
      forall a :: a in loops && a != k && a != k2 ==> r[a] == loops[a]
  {
  }

  lemma AttachLinks(loops: LoopTree, k: LoopKey, k2: LoopKey)
    requires k in loops && k2 in loops && k != k2 && loops[k2].outer.None? && LinksAgree(loops)
    ensures LinksAgree(Attach(loops, k, k2))
  {
    var r := Attach(loops, k, k2);
    AttachRecords(loops, k, k2);
    forall a, b | a in r && b in r ensures b in r[a].inner <==> r[b].outer == Some(a) {
      if a == k {
        assert b in r[a].inner <==> b in loops[k].inner || b == k2;
      }
    }
  }

  lemma AttachInner(loops: LoopTree, k: LoopKey, k2: LoopKey)
    requires k in loops && k2 in loops && k != k2 && k2 !in loops[k].inner && InnerListsWf(loops)
    ensures InnerListsWf(Attach(loops, k, k2))
  {
    var r := Attach(loops, k, k2);
    AttachRecords(loops, k, k2);
    DistinctConcat(loops[k].inner, [k2]);
    ElemsConcat(loops[k].inner, [k2]);
  }

  /** Claiming changes no header, latch list or reducibility flag. */
  lemma ClaimHeads(f: Forest, k: LoopKey, x: BlockId)
    requires k in f.loops && OwnersKnown(f)
    ensures SameHeads(f.loops, Claim(f, k, x).loops)
  {
    var r := Claim(f, k, x).loops;
    if x !in f.owner {
      assert forall a :: a in f.loops && a != k ==> r[a] == f.loops[a];
    } else if f.owner[x] != k && f.loops[f.owner[x]].outer.None? {
      assert forall a :: a in f.loops && a != k && a != f.owner[x] ==> r[a] == f.loops[a];
    }
  }

  lemma SameHeadsTrans(a: LoopTree, b: LoopTree, c: LoopTree)
    requires SameHeads(a, b) && SameHeads(b, c)
    ensures SameHeads(a, c)
  {
  }

  /** Replacing a loop record by one with the same links keeps the nesting. */
  lemma SameLinksNested(loops: LoopTree, k: LoopKey, l: Loop)
    requires k in loops && Nested(loops) && l.inner == loops[k].inner && l.outer == loops[k].outer
    ensures Nested(loops[k := l])
  {
    var r := loops[k := l];
    forall a, b | a in r && b in r ensures b in r[a].inner <==> r[b].outer == Some(a) {
      assert r[a].inner == loops[a].inner && r[b].outer == loops[b].outer;
    }
    forall a | a in r
      ensures Distinct(r[a].inner) && Elems(r[a].inner) <= r.Keys && r[a].outer != Some(a) &&
        (r[a].outer.Some? ==> r[a].outer.value in r)
    {
      assert r[a].inner == loops[a].inner && r[a].outer == loops[a].outer;
    }
  }

  /** Claiming keeps the nesting links consistent. */
  lemma ClaimNested(f: Forest, k: LoopKey, x: BlockId)
    requires k in f.loops && OwnersKnown(f) && Nested(f.loops)
    ensures Nested(Claim(f, k, x).loops)
  {
    if x !in f.owner {
      SameLinksNested(f.loops, k, f.loops[k].(blocks := f.loops[k].blocks + [x]));
    } else if f.owner[x] != k && f.loops[f.owner[x]].outer.None? {
      AttachNested(f.loops, k, f.owner[x]);
    }
  }

  lemma {:induction false} ClaimAllNested(f: Forest, k: LoopKey, xs: seq<BlockId>)
    requires k in f.loops && OwnersKnown(f) && Nested(f.loops)
    ensures Nested(ClaimAll(f, k, xs).loops)
    decreases |xs|
  {
    if xs != [] {
      ClaimNested(f, k, xs[0]);
      ClaimAllNested(Claim(f, k, xs[0]), k, xs[1..]);
    }
  }

  /** The blocks visited, claimed in order by the step as written. */
  function ClaimAllAsWritten(f: Forest, k: LoopKey, xs: seq<BlockId>): (r: Forest)
    requires k in f.loops && OwnersKnown(f)
    ensures r.loops.Keys == f.loops.Keys && OwnersKnown(r)
    decreases |xs|
  {
    if xs == [] then f
    else
      ClaimAllAsWritten(ClaimAsWritten(f, k, xs[0]), k, xs[1..])
  }

  /** The visits of the searches from each latch in turn; the marks of one
      search stay for the next. */
  function SearchLatches(g: Graph, latches: seq<BlockId>, marked: set<BlockId>): seq<BlockId>
    requires Wf(g) && AllBlocks(g, latches)
    decreases |latches|
  {
    if latches == [] then []
    else
      var init := latches[..|latches| - 1];
      var l := latches[|latches| - 1];
      var before := SearchLatches(g, init, marked);
      before + Search(g, l, marked + Elems(before))
  }

  /** A loop with header 1 and latches 3 and 2, where 2 is a predecessor of 3:
      0 -> 1, 1 -> 2, 2 -> 3 (true) and 2 -> 1 (false), 3 -> 1. */
  const SharedLatchGraph: Graph := [
    Node(Some(1), None, []),
    Node(Some(2), None, [0, 2, 3]),
    Node(Some(3), Some(1), [1]),
    Node(Some(1), None, [2])
  ]

  /** The state `populate_loops` reaches before walking from the latches of
      header 1: the loop record of `collect_back_edges` and the header owning
      itself. */
  const SharedLatchForest: Forest :=
    Forest(map[Header(1) := Loop(Some(1), [3, 2], [1, 1], true, None, [])], map[1 := Header(1)])

  /** The walk from latch 3 reaches latch 2; the walk from latch 2 then stops at
      once, as its only predecessor is the marked header. */
  lemma SharedLatchVisits()
    ensures Wf(SharedLatchGraph)
    ensures SearchLatches(SharedLatchGraph, [3, 2], {1}) == [3, 2, 2]
  {
    var g := SharedLatchGraph;
    SearchFromLatch3();
    SearchFromLatch2();
    assert [3, 2][..1] == [3] && [3][..0] == [];
    var none: set<BlockId> := {1} + Elems([]);
    assert none == {1};
    assert SearchLatches(g, [3], {1}) == [] + Search(g, 3, none);
    assert SearchLatches(g, [3], {1}) == [3, 2];
    assert {1} + Elems([3, 2]) == {1, 3, 2};
    var after: set<BlockId> := {1} + Elems(SearchLatches(g, [3], {1}));
    assert after == {1, 3, 2};
    assert SearchLatches(g, [3, 2], {1}) == SearchLatches(g, [3], {1}) + Search(g, 2, after);
    assert [3, 2] + [2] == [3, 2, 2];
  }

  /** From latch 3 the walk goes to its predecessor 2 and stops at the header. */
  lemma SearchFromLatch3()
    ensures Search(SharedLatchGraph, 3, {1}) == [3, 2]
  {
    var g := SharedLatchGraph;
    assert g[3].preds == [2] && g[2].preds == [1];
    assert SearchPreds(g, 2, 1, {1, 3, 2}) == [];
    assert SearchPreds(g, 2, 0, {1, 3, 2}) == [];
    assert Search(g, 2, {1, 3}) == [2];
    assert SearchPreds(g, 3, 1, {1, 3, 2}) == [];
    assert SearchPreds(g, 3, 0, {1, 3}) == [2];
    assert {1} + {3} == {1, 3};
    assert Elems([3, 2]) == {3, 2};
  }

  /** From latch 2, once 3 and 2 are marked, the walk visits 2 alone. */
  lemma SearchFromLatch2()
    ensures Search(SharedLatchGraph, 2, {1, 3, 2}) == [2]
  {
    var g := SharedLatchGraph;
    assert g[2].preds == [1];
    assert SearchPreds(g, 2, 1, {1, 3, 2}) == [];
    assert SearchPreds(g, 2, 0, {1, 3, 2}) == [];
    assert {1, 3, 2} + {2} == {1, 3, 2};
  }

  /** The walk from latch 3 already claimed latch 2, so the walk from latch 2
      finds its own loop as the owner; as written, that loop becomes its own
      outer and inner loop. */
  lemma AsWrittenSelfParent()
    ensures var r := ClaimAllAsWritten(SharedLatchForest, Header(1), [3, 2, 2]).loops;
      r[Header(1)].outer == Some(Header(1)) && r[Header(1)].inner == [Header(1)]
  {
    var f0 := SharedLatchForest;
    var f1 := ClaimAsWritten(f0, Header(1), 3);
    var f2 := ClaimAsWritten(f1, Header(1), 2);
    assert f2.owner[2] == Header(1);
    assert f2.loops[Header(1)].outer == None && f2.loops[Header(1)].inner == [];
    var f3 := ClaimAsWritten(f2, Header(1), 2);
    assert f3.loops[Header(1)].outer == Some(Header(1));
    assert [3, 2, 2][1..] == [2, 2] && [2, 2][1..] == [2];
    assert ClaimAllAsWritten(f2, Header(1), [2]) == f3;
    assert ClaimAllAsWritten(f0, Header(1), [3, 2, 2]) == f3;
  }

  /** A loop that is its own outer loop breaks the nesting. */
  lemma SelfParentNotNested(loops: LoopTree, k: LoopKey)
    requires k in loops && loops[k].outer == Some(k)
    ensures !Nested(loops)
  {
  }

  lemma SharedLatchNested()
    ensures Nested(SharedLatchForest.loops)
  {
    var l := SharedLatchForest.loops;
    assert l.Keys == {Header(1)};
    assert l[Header(1)].inner == [] && l[Header(1)].outer == None;
  }

  /** The forest before the walk is consistently nested, the forest after the
      walk as written is not. */
  lemma AsWrittenBreaksNesting()
    ensures Nested(SharedLatchForest.loops)
    ensures !Nested(ClaimAllAsWritten(SharedLatchForest, Header(1), [3, 2, 2]).loops)
  {
    SharedLatchNested();
    AsWrittenSelfParent();
    SelfParentNotNested(ClaimAllAsWritten(SharedLatchForest, Header(1), [3, 2, 2]).loops, Header(1));
  }

  /** With the corrected step the same walk claims 3 and 2 and leaves the loop
      without an outer loop. */
  lemma CorrectedSharedLatch()
    ensures var r := ClaimAll(SharedLatchForest, Header(1), [3, 2, 2]).loops;
      r[Header(1)].outer == None && r[Header(1)].inner == [] && r[Header(1)].blocks == [1, 1, 3, 2] && Nested(r)
  {
    var f0 := SharedLatchForest;
    var f1 := Claim(f0, Header(1), 3);
    var f2 := Claim(f1, Header(1), 2);
    assert f2.owner[2] == Header(1);
    assert f2.loops[Header(1)] == Loop(Some(1), [3, 2], [1, 1, 3, 2], true, None, []);
    assert [3, 2, 2][1..] == [2, 2] && [2, 2][1..] == [2];
    assert ClaimAll(f2, Header(1), [2]) == f2;
    assert ClaimAll(f0, Header(1), [3, 2, 2]) == f2;
    SharedLatchNested();
    ClaimAllNested(f0, Header(1), [3, 2, 2]);
  }

  /** The blocks a backward walk from some latch reaches outside `marked`. */
  ghost function LatchBody(g: Graph, marked: set<BlockId>, latches: seq<BlockId>): set<BlockId> {
    set x: BlockId | x < |g| && ReachedFromLatch(g, marked, latches, x)
  }

  ghost predicate ReachedFromLatch(g: Graph, marked: set<BlockId>, latches: seq<BlockId>, x: BlockId) {
    exists l :: l in latches && PredReaches(g, marked, l, x)
  }

  /** Searching from the latches in turn visits only blocks reached backward from
      a latch outside the marks the searches started with. */
  lemma {:induction false} SearchLatchesSound(g: Graph, latches: seq<BlockId>, marked: set<BlockId>, x: BlockId)
    requires Wf(g) && AllBlocks(g, latches) && x in SearchLatches(g, latches, marked)
    ensures x in LatchBody(g, marked, latches)
    decreases |latches|
  {
    var init := latches[..|latches| - 1];
    var l := latches[|latches| - 1];
    assert l in latches;
    assert forall y :: y in init ==> y in latches;
    var before := SearchLatches(g, init, marked);
    if x in before {
      SearchLatchesSound(g, init, marked, x);
      var l2 :| l2 in init && PredReaches(g, marked, l2, x);
      assert l2 in latches;
    } else {
      assert x in Search(g, l, marked + Elems(before));
      SearchSound(g, l, marked + Elems(before), x);
      PredReachesWeaken(g, marked + Elems(before), marked, l, x);
      SearchShape(g, l, marked + Elems(before));
    }
  }

  /** What the searches visit is closed: every predecessor of a visited block is
      marked or visited, and every latch is visited. */
  lemma {:induction false} SearchLatchesClosed(g: Graph, latches: seq<BlockId>, marked: set<BlockId>)
    requires Wf(g) && AllBlocks(g, latches)
    ensures var v := Elems(SearchLatches(g, latches, marked));
      PredsCovered(g, v, marked + v) && Elems(latches) <= v
    decreases |latches|
  {
    if latches != [] {
      var init := latches[..|latches| - 1];
      var l := latches[|latches| - 1];
      var before := SearchLatches(g, init, marked);
      var o := Search(g, l, marked + Elems(before));
      SearchLatchesClosed(g, init, marked);
      SearchClosed(g, l, marked + Elems(before));
      SearchShape(g, l, marked + Elems(before));
      ElemsConcat(before, o);
      var v := Elems(before) + Elems(o);
      CoveredUnion(g, Elems(before), Elems(o), marked + Elems(before), marked + Elems(before) + Elems(o), marked + v);
      assert latches == init + [l];
      ElemsConcat(init, [l]);
    }
  }

  /** The marks after the searches are the marks before plus every block reached
      backward from a latch outside them: the loop body bounded by the marks. */
  lemma SearchLatchesIsBody(g: Graph, latches: seq<BlockId>, marked: set<BlockId>)
    requires Wf(g) && AllBlocks(g, latches)
    ensures marked + Elems(SearchLatches(g, latches, marked)) == marked + LatchBody(g, marked, latches)
  {
    var v := Elems(SearchLatches(g, latches, marked));
    SearchLatchesClosed(g, latches, marked);
    forall x | x in v ensures x in LatchBody(g, marked, latches) {
      SearchLatchesSound(g, latches, marked, x);
    }
    forall x | x in LatchBody(g, marked, latches) ensures x in marked + v {
      var l :| l in latches && PredReaches(g, marked, l, x);
      var q :| IsPredPath(g, marked, q) && q[0] == l && q[|q| - 1] == x;
      assert l in Elems(latches);
      ClosedWalk(g, marked, v, q);
    }
  }
}
