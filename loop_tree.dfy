/** `populate_loops` and `loop_tree`: headers are taken in reverse RPO; a reducible
    loop is filled by backward walks from its latches (with the header marked), an
    irreducible one takes just its latches. Then the blocks owned by no loop form
    the root loop, and every loop without an outer loop is attached to the root. */
module LoopTrees {
  import opened Wrappers
  import opened Cfg
  import opened Walks
  import opened Dom
  import opened Rpo
  import opened Loops
  import opened LoopSearches

  /** Before the root is added, every key is a header naming a block, and every
      latch names a block. */
  ghost predicate InGraph(g: Graph, loops: LoopTree) {
    forall k :: k in loops ==> k.Header? && k.block < |g| && AllBlocks(g, loops[k].latches)
  }

  lemma SameHeadsInGraph(g: Graph, a: LoopTree, b: LoopTree)
    requires InGraph(g, a) && SameHeads(a, b)
    ensures InGraph(g, b)
  {
  }

  /** The irreducible branch: each latch is pushed onto the blocks of `k` and
      made to belong to `k`. */
  function AppendLatches(f: Forest, k: LoopKey, latches: seq<BlockId>): (r: Forest)
    requires k in f.loops && OwnersKnown(f)
    ensures r.loops.Keys == f.loops.Keys && OwnersKnown(r)
    ensures r.loops[k].blocks == f.loops[k].blocks + latches
    ensures r.owner.Keys == f.owner.Keys + Elems(latches)
    ensures forall l :: l in latches ==> r.owner[l] == k
    ensures forall y :: y in f.owner && y !in latches ==> r.owner[y] == f.owner[y]
    ensures forall j :: j in f.loops && j != k ==> r.loops[j] == f.loops[j]
    decreases |latches|
  {
    if latches == [] then f
    else
      var init := latches[..|latches| - 1];
      var l := latches[|latches| - 1];
      var f1 := AppendLatches(f, k, init);
      assert latches == init + [l];
      ElemsConcat(init, [l]);
      Forest(f1.loops[k := f1.loops[k].(blocks := f1.loops[k].blocks + [l])], f1.owner[l := k])
  }

  /** Appending latches changes no header, latch list, reducibility flag or
      nesting link. */
  lemma {:induction false} AppendLatchesKeeps(f: Forest, k: LoopKey, latches: seq<BlockId>)
    requires k in f.loops && OwnersKnown(f)
    ensures var r := AppendLatches(f, k, latches).loops;
      SameHeads(f.loops, r) && (Nested(f.loops) ==> Nested(r))
    decreases |latches|
  {
    if latches != [] {
      var init := latches[..|latches| - 1];
      var l := latches[|latches| - 1];
      var f1 := AppendLatches(f, k, init);
      AppendLatchesKeeps(f, k, init);
      var r := AppendLatches(f, k, latches).loops;
      assert r == f1.loops[k := f1.loops[k].(blocks := f1.loops[k].blocks + [l])];
      assert SameHeads(f1.loops, r);
      SameHeadsTrans(f.loops, f1.loops, r);
      if Nested(f.loops) {
        SameLinksNested(f1.loops, k, f1.loops[k].(blocks := f1.loops[k].blocks + [l]));
      }
    }
  }

  /** One header of `populate_loops`: the header is made to belong to its loop;
      a reducible loop is searched from each latch with the header marked, the
      marks of one search staying for the next; an irreducible loop takes its
      latches. The result is the new state and the marks. */
  function HeaderStep(g: Graph, f: Forest, h: BlockId, marked: set<BlockId>): (r: (Forest, set<BlockId>))
    requires Wf(g) && Header(h) in f.loops && OwnersKnown(f) && InGraph(g, f.loops)
    ensures r.0.loops.Keys == f.loops.Keys && OwnersKnown(r.0)
  {
    var k := Header(h);
    var f0 := Forest(f.loops, f.owner[h := k]);
    var l := f.loops[k];
    if l.reducible then
      var v := SearchLatches(g, l.latches, marked + {h});
      (ClaimAll(f0, k, v), marked + {h} + Elems(v))
    else (AppendLatches(f0, k, l.latches), marked)
  }

  /** `HeaderStep` keeps the headers, latches and reducibility flags, and the
      nesting invariant. */
  lemma HeaderStepKeeps(g: Graph, f: Forest, h: BlockId, marked: set<BlockId>)
    requires Wf(g) && Header(h) in f.loops && OwnersKnown(f) && InGraph(g, f.loops)
    ensures var r := HeaderStep(g, f, h, marked).0.loops;
      SameHeads(f.loops, r) && InGraph(g, r) && (Nested(f.loops) ==> Nested(r))
  {
    var k := Header(h);
    var f0 := Forest(f.loops, f.owner[h := k]);
    var l := f.loops[k];
    if l.reducible {
      var v := SearchLatches(g, l.latches, marked + {h});
      ClaimAllHeads(f0, k, v);
      if Nested(f.loops) {
        ClaimAllNested(f0, k, v);
      }
    } else {
      AppendLatchesKeeps(f0, k, l.latches);
    }
    SameHeadsInGraph(g, f.loops, HeaderStep(g, f, h, marked).0.loops);
  }

  /** No loop loses blocks: every block list of `a` is a prefix of the one in `b`. */
  ghost predicate Grows(a: LoopTree, b: LoopTree) {
    a.Keys == b.Keys && forall k :: k in a ==> a[k].blocks <= b[k].blocks
  }

  /** Every block that has an owner is among the blocks of that owner. */
  ghost predicate OwnedIn(f: Forest) {
    forall x :: x in f.owner ==> f.owner[x] in f.loops && x in f.loops[f.owner[x]].blocks
  }

  /** Every header is among the blocks of its loop. */
  ghost predicate HeadersIn(loops: LoopTree) {
    forall k :: k in loops && k.Header? ==> k.block in loops[k].blocks
  }

  lemma PrefixIn(a: seq<BlockId>, b: seq<BlockId>, x: BlockId)
    requires a <= b && x in a
    ensures x in b
  {
    var j :| 0 <= j < |a| && a[j] == x;
    assert b[j] == x;
  }

  lemma GrowsTrans(a: LoopTree, b: LoopTree, c: LoopTree)
    requires Grows(a, b) && Grows(b, c)
    ensures Grows(a, c)
  {
    forall k | k in a ensures a[k].blocks <= c[k].blocks {
      assert a[k].blocks == b[k].blocks[..|a[k].blocks|];
      assert b[k].blocks == c[k].blocks[..|b[k].blocks|];
    }
  }

  lemma GrowsHeadersIn(a: LoopTree, b: LoopTree)
    requires Grows(a, b) && HeadersIn(a)
    ensures HeadersIn(b)
  {
    forall k | k in b && k.Header? ensures k.block in b[k].blocks {
      PrefixIn(a[k].blocks, b[k].blocks, k.block);
    }
  }

  /** A claim only appends blocks and only gives a block an owner whose blocks
      receive it. */
  lemma ClaimGrows(f: Forest, k: LoopKey, x: BlockId)
    requires k in f.loops && OwnersKnown(f)
    ensures Grows(f.loops, Claim(f, k, x).loops)
    ensures OwnedIn(f) ==> OwnedIn(Claim(f, k, x))
  {
    var r := Claim(f, k, x);
    if x !in f.owner {
      assert r.loops == f.loops[k := f.loops[k].(blocks := f.loops[k].blocks + [x])];
      if OwnedIn(f) {
        forall y | y in r.owner ensures r.owner[y] in r.loops && y in r.loops[r.owner[y]].blocks {
          if y != x {
            PrefixIn(f.loops[f.owner[y]].blocks, r.loops[f.owner[y]].blocks, y);
          }
        }
      }
    } else if f.owner[x] != k && f.loops[f.owner[x]].outer.None? {
      AttachRecords(f.loops, k, f.owner[x]);
    }
  }

  lemma {:induction false} ClaimAllGrows(f: Forest, k: LoopKey, xs: seq<BlockId>)
    requires k in f.loops && OwnersKnown(f)
    ensures Grows(f.loops, ClaimAll(f, k, xs).loops)
    ensures OwnedIn(f) ==> OwnedIn(ClaimAll(f, k, xs))
    decreases |xs|
  {
    if xs != [] {
      var f1 := Claim(f, k, xs[0]);
      ClaimGrows(f, k, xs[0]);
      ClaimAllGrows(f1, k, xs[1..]);
      GrowsTrans(f.loops, f1.loops, ClaimAll(f, k, xs).loops);
    } else {
      GrowsTrans(f.loops, f.loops, f.loops);
    }
  }

  lemma {:induction false} AppendLatchesGrows(f: Forest, k: LoopKey, latches: seq<BlockId>)
    requires k in f.loops && OwnersKnown(f)
    ensures Grows(f.loops, AppendLatches(f, k, latches).loops)
    ensures OwnedIn(f) ==> OwnedIn(AppendLatches(f, k, latches))
    decreases |latches|
  {
    if latches == [] {
      GrowsTrans(f.loops, f.loops, f.loops);
    } else {
      var init := latches[..|latches| - 1];
      var l := latches[|latches| - 1];
      var f1 := AppendLatches(f, k, init);
      AppendLatchesGrows(f, k, init);
      var r := AppendLatches(f, k, latches);
      assert r == Forest(f1.loops[k := f1.loops[k].(blocks := f1.loops[k].blocks + [l])], f1.owner[l := k]);
      assert Grows(f1.loops, r.loops);
      GrowsTrans(f.loops, f1.loops, r.loops);
      if OwnedIn(f) {
        forall y | y in r.owner ensures r.owner[y] in r.loops && y in r.loops[r.owner[y]].blocks {
          if y != l {
            PrefixIn(f1.loops[f1.owner[y]].blocks, r.loops[f1.owner[y]].blocks, y);
          }
        }
      }
    }
  }

  /** A header step only appends blocks, and keeps every owned block among the
      blocks of its owner. */
  lemma HeaderStepGrows(g: Graph, f: Forest, h: BlockId, marked: set<BlockId>)
    requires Wf(g) && Header(h) in f.loops && OwnersKnown(f) && InGraph(g, f.loops)
    ensures Grows(f.loops, HeaderStep(g, f, h, marked).0.loops)
    ensures OwnedIn(f) && HeadersIn(f.loops) ==> OwnedIn(HeaderStep(g, f, h, marked).0)
  {
    var k := Header(h);
    var f0 := Forest(f.loops, f.owner[h := k]);
    var l := f.loops[k];
    assert OwnedIn(f) && HeadersIn(f.loops) ==> OwnedIn(f0);
    if l.reducible {
      ClaimAllGrows(f0, k, SearchLatches(g, l.latches, marked + {h}));
    } else {
      AppendLatchesGrows(f0, k, l.latches);
    }
  }

  /** The body of a reducible loop: after its step the header and the blocks that a
      backward walk from a latch reaches without entering a marked block are
      marked; each such block that belonged to no loop now belongs to this loop
      and has been appended to its blocks; nothing else has been appended. */
  lemma HeaderStepBody(g: Graph, f: Forest, h: BlockId, marked: set<BlockId>)
    requires Wf(g) && Header(h) in f.loops && OwnersKnown(f) && InGraph(g, f.loops)
    requires f.loops[Header(h)].reducible
    ensures var (r, m) := HeaderStep(g, f, h, marked);
      var body := LatchBody(g, marked + {h}, f.loops[Header(h)].latches);
      m == marked + {h} + body &&
      h in r.owner && r.owner[h] == Header(h) &&
      (forall x :: x in body && x !in f.owner && x !in marked && x != h ==>
         x in r.owner && r.owner[x] == Header(h) && x in r.loops[Header(h)].blocks) &&
      (forall x :: x in r.loops[Header(h)].blocks ==> x in f.loops[Header(h)].blocks || x in body)
  {
    var k := Header(h);
    var f0 := Forest(f.loops, f.owner[h := k]);
    var l := f.loops[k];
    var v := SearchLatches(g, l.latches, marked + {h});
    var body := LatchBody(g, marked + {h}, l.latches);
    assert HeaderStep(g, f, h, marked) == (ClaimAll(f0, k, v), marked + {h} + Elems(v));
    SearchLatchesIsBody(g, l.latches, marked + {h});
    assert marked + {h} + Elems(v) == marked + {h} + body;
    BodyVisited(g, l.latches, marked + {h}, v, body);
    ClaimedBody(f0, k, v, body, f.owner.Keys + marked + {h});
  }

  lemma BodyVisited(g: Graph, latches: seq<BlockId>, marked: set<BlockId>, v: seq<BlockId>, body: set<BlockId>)
    requires Wf(g) && AllBlocks(g, latches)
    requires v == SearchLatches(g, latches, marked) && body == LatchBody(g, marked, latches)
    ensures Elems(v) <= body
  {
    forall x | x in Elems(v) ensures x in body {
      SearchLatchesSound(g, latches, marked, x);
    }
  }

  /** Claiming the visits `v` of loop `k`: the unowned among them become blocks and
      members of `k`, and only visited blocks are appended. */
  lemma ClaimedBody(f0: Forest, k: LoopKey, v: seq<BlockId>, body: set<BlockId>, excluded: set<BlockId>)
    requires k in f0.loops && OwnersKnown(f0) && Elems(v) <= body
    requires forall x :: x in body && x !in excluded ==> x in v
    requires f0.owner.Keys <= excluded
    ensures var r := ClaimAll(f0, k, v);
      (forall x :: x in body && x !in excluded ==> x in r.owner && r.owner[x] == k && x in r.loops[k].blocks) &&
      (forall x :: x in r.loops[k].blocks ==> x in f0.loops[k].blocks || x in body) &&
      f0.owner.Keys <= r.owner.Keys && forall y :: y in f0.owner ==> r.owner[y] == f0.owner[y]
  {
    var r := ClaimAll(f0, k, v);
    var nb := NewBlocks(v, f0.owner.Keys);
    ClaimAllOwners(f0, k, v);
    ClaimAllBlocks(f0, k, v);
    assert r.loops[k].blocks == f0.loops[k].blocks + nb;
    forall x | x in body && x !in excluded
      ensures x in r.owner && r.owner[x] == k && x in r.loops[k].blocks
    {
      assert x in v && x in Elems(nb);
    }
    forall x | x in r.loops[k].blocks ensures x in f0.loops[k].blocks || x in body {
      if x !in f0.loops[k].blocks {
        assert x in nb && x in Elems(nb);
      }
    }
  }

  /** The latch loop of a reducible header: `loop_search` from each latch in turn,
      the marks persisting. */
  method SearchFromLatches(g: Graph, k: LoopKey, f: Forest, latches: seq<BlockId>, marked: set<BlockId>)
    returns (fOut: Forest, markedOut: set<BlockId>)
    requires Wf(g) && k in f.loops && OwnersKnown(f) && AllBlocks(g, latches)
    ensures fOut == ClaimAll(f, k, SearchLatches(g, latches, marked))
    ensures markedOut == marked + Elems(SearchLatches(g, latches, marked))
  {
    fOut, markedOut := f, marked;
    var i := 0;
    while i < |latches|
      invariant i <= |latches|
      invariant k in fOut.loops && OwnersKnown(fOut)
      invariant fOut == ClaimAll(f, k, SearchLatches(g, latches[..i], marked))
      invariant markedOut == marked + Elems(SearchLatches(g, latches[..i], marked))
    {
      fOut, markedOut := SearchLatchAt(g, k, f, latches, i, marked, fOut, markedOut);
      i := i + 1;
    }
    assert latches[..i] == latches;
  }

  /** One round of the latch loop: `loop_search` from latch `i` extends the state
      of the searches from the latches before it. */
  method SearchLatchAt(g: Graph, k: LoopKey, f: Forest, latches: seq<BlockId>, i: nat, marked: set<BlockId>,
                       fCur: Forest, markedCur: set<BlockId>)
    returns (fOut: Forest, markedOut: set<BlockId>)
    requires Wf(g) && k in f.loops && OwnersKnown(f) && AllBlocks(g, latches) && i < |latches|
    requires k in fCur.loops && OwnersKnown(fCur)
    requires fCur == ClaimAll(f, k, SearchLatches(g, latches[..i], marked))
    requires markedCur == marked + Elems(SearchLatches(g, latches[..i], marked))
    ensures k in fOut.loops && OwnersKnown(fOut)
    ensures fOut == ClaimAll(f, k, SearchLatches(g, latches[..i + 1], marked))
    ensures markedOut == marked + Elems(SearchLatches(g, latches[..i + 1], marked))
  {
    ghost var before := SearchLatches(g, latches[..i], marked);
    fOut, markedOut := LoopSearch(g, latches[i], k, fCur, markedCur);
    ghost var o := Search(g, latches[i], marked + Elems(before));
    LatchStep(g, latches, i, marked);
    ClaimAllConcat(f, k, before, o);
    ElemsConcat(before, o);
  }

  lemma LatchStep(g: Graph, latches: seq<BlockId>, i: nat, marked: set<BlockId>)
    requires Wf(g) && i < |latches| && AllBlocks(g, latches)
    ensures var before := SearchLatches(g, latches[..i], marked);
      SearchLatches(g, latches[..i + 1], marked) == before + Search(g, latches[i], marked + Elems(before))
  {
    assert latches[..i + 1][..i] == latches[..i];
  }

  /** One header of `populate_loops`, imperatively. */
  method ProcessHeader(g: Graph, f: Forest, h: BlockId, marked: set<BlockId>)
    returns (fOut: Forest, markedOut: set<BlockId>)
    requires Wf(g) && Header(h) in f.loops && OwnersKnown(f) && InGraph(g, f.loops)
    ensures (fOut, markedOut) == HeaderStep(g, f, h, marked)
  {
    var k := Header(h);
    var loop := f.loops[k];
    fOut := Forest(f.loops, f.owner[h := k]);
    markedOut := marked;
    if loop.reducible {
      markedOut := markedOut + {h};
      fOut, markedOut := SearchFromLatches(g, k, fOut, loop.latches, markedOut);
    } else {
      var i := 0;
      ghost var f0 := fOut;
      while i < |loop.latches|
        invariant i <= |loop.latches| && k in fOut.loops && OwnersKnown(fOut)
        invariant fOut == AppendLatches(f0, k, loop.latches[..i])
      {
        var latch := loop.latches[i];
        assert loop.latches[..i + 1][..i] == loop.latches[..i];
        fOut := Forest(fOut.loops[k := fOut.loops[k].(blocks := fOut.loops[k].blocks + [latch])],
                       fOut.owner[latch := k]);
        i := i + 1;
      }
      assert loop.latches[..i] == loop.latches;
    }
  }

  /** `populate_loops` over the blocks `rpo[..i]`, last first: a block with a loop is
      processed by `HeaderStep`, after which the marks on the blocks of `rpo` are
      cleared (marks left on blocks outside `rpo` stay). */
  function Populate(g: Graph, f: Forest, rpo: seq<BlockId>, i: nat, marked: set<BlockId>): (r: Forest)
    requires Wf(g) && OwnersKnown(f) && InGraph(g, f.loops) && i <= |rpo|
    ensures r.loops.Keys == f.loops.Keys && OwnersKnown(r)
    decreases i
  {
    if i == 0 then f
    else
      var b := rpo[i - 1];
      if Header(b) in f.loops then
        var st := HeaderStep(g, f, b, marked);
        HeaderStepKeeps(g, f, b, marked);
        Populate(g, st.0, rpo, i - 1, st.1 - Elems(rpo))
      else Populate(g, f, rpo, i - 1, marked)
  }

  /** Unfolding `Populate` at a header: the step's result carries the invariants. */
  lemma PopulateUnfold(g: Graph, f: Forest, rpo: seq<BlockId>, i: nat, marked: set<BlockId>, f1: Forest, m1: set<BlockId>)
    requires Wf(g) && OwnersKnown(f) && InGraph(g, f.loops) && 0 < i <= |rpo| && Header(rpo[i - 1]) in f.loops
    requires (f1, m1) == HeaderStep(g, f, rpo[i - 1], marked)
    ensures OwnersKnown(f1) && InGraph(g, f1.loops)
    ensures Populate(g, f, rpo, i, marked) == Populate(g, f1, rpo, i - 1, m1 - Elems(rpo))
    ensures SameHeads(f.loops, f1.loops) && (Nested(f.loops) ==> Nested(f1.loops))
    ensures f.owner.Keys + {rpo[i - 1]} <= f1.owner.Keys
    ensures Grows(f.loops, f1.loops) && (OwnedIn(f) && HeadersIn(f.loops) ==> OwnedIn(f1))
  {
    HeaderStepKeeps(g, f, rpo[i - 1], marked);
    HeaderStepOwners(g, f, rpo[i - 1], marked);
    HeaderStepGrows(g, f, rpo[i - 1], marked);
  }

  /** A header step gives its header an owner and takes no block's owner away. */
  lemma HeaderStepOwners(g: Graph, f: Forest, h: BlockId, marked: set<BlockId>)
    requires Wf(g) && Header(h) in f.loops && OwnersKnown(f) && InGraph(g, f.loops)
    ensures f.owner.Keys + {h} <= HeaderStep(g, f, h, marked).0.owner.Keys
  {
    var k := Header(h);
    var f0 := Forest(f.loops, f.owner[h := k]);
    var l := f.loops[k];
    if l.reducible {
      ClaimAllOwners(f0, k, SearchLatches(g, l.latches, marked + {h}));
    }
  }

  /** The loop of `populate_loops` that clears the marks of the blocks of `rpo`. */
  method ClearMarks(marked: set<BlockId>, rpo: seq<BlockId>) returns (m: set<BlockId>)
    ensures m == marked - Elems(rpo)
  {
    m := marked;
    var j := 0;
    while j < |rpo|
      invariant j <= |rpo| && m == marked - Elems(rpo[..j])
    {
      ElemsSnoc(rpo, j);
      m := m - {rpo[j]};
      j := j + 1;
    }
    assert rpo[..j] == rpo;
  }

  /** The invariant of `populate_loops` after the blocks from `i` on have been
      processed, starting from `f0` and ending in `f` with marks `marked`: what is
      left to do yields the same result. */
  ghost predicate PopulateInv(g: Graph, f0: Forest, rpo: seq<BlockId>, i: nat, marked: set<BlockId>, f: Forest)
    requires Wf(g) && OwnersKnown(f0) && InGraph(g, f0.loops)
  {
    i <= |rpo| && OwnersKnown(f) && InGraph(g, f.loops) &&
    Populate(g, f, rpo, i, marked) == Populate(g, f0, rpo, |rpo|, {})
  }

  /** What the rounds so far have kept: headers, latches, flags, nesting, owners,
      blocks, and an owner for every header among `rpo[i..]`. */
  ghost predicate PopulateKept(f0: Forest, rpo: seq<BlockId>, i: nat, f: Forest) {
    SameHeads(f0.loops, f.loops) && (Nested(f0.loops) ==> Nested(f.loops)) &&
    f0.owner.Keys <= f.owner.Keys &&
    (forall j :: i <= j < |rpo| && Header(rpo[j]) in f0.loops ==> rpo[j] in f.owner) &&
    Grows(f0.loops, f.loops) && (OwnedIn(f0) && HeadersIn(f0.loops) ==> OwnedIn(f))
  }

  /** One round of `populate_loops`: the block at `i - 1`, if it heads a loop. */
  method PopulateRound(g: Graph, rpo: seq<BlockId>, i: nat, f: Forest, marked: set<BlockId>)
    returns (fOut: Forest, markedOut: set<BlockId>)
    requires Wf(g) && OwnersKnown(f) && InGraph(g, f.loops) && 0 < i <= |rpo|
    ensures OwnersKnown(fOut) && InGraph(g, fOut.loops)
    ensures Populate(g, f, rpo, i, marked) == Populate(g, fOut, rpo, i - 1, markedOut)
    ensures SameHeads(f.loops, fOut.loops) && (Nested(f.loops) ==> Nested(fOut.loops))
    ensures f.owner.Keys <= fOut.owner.Keys
    ensures Header(rpo[i - 1]) in f.loops ==> rpo[i - 1] in fOut.owner
    ensures Grows(f.loops, fOut.loops) && (OwnedIn(f) && HeadersIn(f.loops) ==> OwnedIn(fOut))
  {
    var b := rpo[i - 1];
    if Header(b) in f.loops {
      var m1;
      fOut, m1 := ProcessHeader(g, f, b, marked);
      PopulateUnfold(g, f, rpo, i, marked, fOut, m1);
      markedOut := ClearMarks(m1, rpo);
    } else {
      fOut, markedOut := f, marked;
      GrowsTrans(f.loops, f.loops, f.loops);
    }
  }

  lemma PopulateKeptStep(f0: Forest, rpo: seq<BlockId>, i: nat, f: Forest, f1: Forest)
    requires 0 < i <= |rpo| && PopulateKept(f0, rpo, i, f)
    requires SameHeads(f.loops, f1.loops) && (Nested(f.loops) ==> Nested(f1.loops))
    requires f.owner.Keys <= f1.owner.Keys
    requires Header(rpo[i - 1]) in f.loops ==> rpo[i - 1] in f1.owner
    requires Grows(f.loops, f1.loops) && (OwnedIn(f) && HeadersIn(f.loops) ==> OwnedIn(f1))
    ensures PopulateKept(f0, rpo, i - 1, f1)
  {
    SameHeadsTrans(f0.loops, f.loops, f1.loops);
    GrowsTrans(f0.loops, f.loops, f1.loops);
    if HeadersIn(f0.loops) {
      GrowsHeadersIn(f0.loops, f.loops);
    }
  }

  lemma PopulateStart(g: Graph, f0: Forest, rpo: seq<BlockId>)
    requires Wf(g) && OwnersKnown(f0) && InGraph(g, f0.loops)
    ensures PopulateInv(g, f0, rpo, |rpo|, {}, f0) && PopulateKept(f0, rpo, |rpo|, f0)
  {
    GrowsTrans(f0.loops, f0.loops, f0.loops);
  }

  /** `populate_loops(rpo)`: the headers in reverse RPO, starting with no marks.
      The headers, latches and reducibility flags stay as they were, the nesting
      invariant is kept, every header ends up owned by a loop, no loop loses a
      block, and an owned block is among the blocks of its owner. */
  method PopulateLoops(g: Graph, rpo: seq<BlockId>, f: Forest) returns (fOut: Forest)
    requires Wf(g) && OwnersKnown(f) && InGraph(g, f.loops)
    ensures fOut == Populate(g, f, rpo, |rpo|, {})
    ensures OwnersKnown(fOut) && InGraph(g, fOut.loops)
    ensures SameHeads(f.loops, fOut.loops) && (Nested(f.loops) ==> Nested(fOut.loops))
    ensures f.owner.Keys <= fOut.owner.Keys
    ensures forall j :: 0 <= j < |rpo| && Header(rpo[j]) in f.loops ==> rpo[j] in fOut.owner
    ensures Grows(f.loops, fOut.loops) && (OwnedIn(f) && HeadersIn(f.loops) ==> OwnedIn(fOut))
  {
    fOut := f;
    var marked: set<BlockId> := {};
    var i: nat := |rpo|;
    PopulateStart(g, f, rpo);
    while i > 0
      invariant PopulateInv(g, f, rpo, i, marked, fOut) && PopulateKept(f, rpo, i, fOut)
    {
      fOut, marked := PopulateRoundInv(g, f, rpo, i, fOut, marked);
      i := i - 1;
    }
  }

  method PopulateRoundInv(g: Graph, f0: Forest, rpo: seq<BlockId>, i: nat, f: Forest, marked: set<BlockId>)
    returns (fOut: Forest, markedOut: set<BlockId>)
    requires Wf(g) && OwnersKnown(f0) && InGraph(g, f0.loops) && 0 < i
    requires PopulateInv(g, f0, rpo, i, marked, f) && PopulateKept(f0, rpo, i, f)
    ensures PopulateInv(g, f0, rpo, i - 1, markedOut, fOut) && PopulateKept(f0, rpo, i - 1, fOut)
  {
    fOut, markedOut := PopulateRound(g, rpo, i, f, marked);
    PopulateKeptStep(f0, rpo, i, f, fOut);
  }

  /** `n` copies of the header `h`: the blocks `collect_back_edges` gives the loop
      of `h` when it has `n` latches. */
  function Copies(h: BlockId, n: nat): (r: seq<BlockId>)
    ensures |r| == n && forall j :: 0 <= j < n ==> r[j] == h
  {
    seq(n, _ => h)
  }

  /** Every block of a loop has an owner, except copies of the loop's own header,
      whose turn may not have come yet. */
  ghost predicate BlocksOwned(f: Forest) {
    forall k, x :: k in f.loops && x in f.loops[k].blocks ==> x in f.owner || (k.Header? && x == k.block)
  }

  /** The loop of header `h` once its turn is over. An irreducible loop holds its
      header copies followed by its latches. A reducible loop holds its header
      copies followed by distinct blocks other than the header, each reached by a
      backward walk from a latch that does not pass through the header; and every
      block of `reach` that such a walk reaches without leaving `reach` has an
      owner. */
  ghost predicate LoopDone(g: Graph, reach: set<BlockId>, f: Forest, h: BlockId)
    requires Header(h) in f.loops
  {
    var l := f.loops[Header(h)];
    var n := |l.latches|;
    Copies(h, n) <= l.blocks &&
    (!l.reducible ==> l.blocks == Copies(h, n) + l.latches) &&
    (l.reducible ==>
      Distinct(l.blocks[n..]) && h !in l.blocks[n..] &&
      (forall x :: x in l.blocks[n..] ==> x in LatchBody(g, {h}, l.latches)) &&
      (forall x :: x in reach && x in LatchBody(g, {h} + (Blocks(g) - reach), l.latches) ==> x in f.owner))
  }

  /** A walk that avoids more also avoids less. */
  lemma LatchBodyWeaken(g: Graph, avoid: set<BlockId>, small: set<BlockId>, latches: seq<BlockId>, x: BlockId)
    requires small <= avoid && x in LatchBody(g, avoid, latches)
    ensures x in LatchBody(g, small, latches)
  {
    var l :| l in latches && PredReaches(g, avoid, l, x);
    PredReachesWeaken(g, avoid, small, l, x);
  }

  /** A backward walk that stays inside `reach` avoids marks made outside `reach`. */
  lemma LatchBodyWithin(g: Graph, reach: set<BlockId>, marked: set<BlockId>, h: BlockId, latches: seq<BlockId>,
                        x: BlockId)
    requires marked !! reach && x in LatchBody(g, {h} + (Blocks(g) - reach), latches)
    ensures x in LatchBody(g, marked + {h}, latches)
  {
    var avoid := {h} + (Blocks(g) - reach);
    var l :| l in latches && PredReaches(g, avoid, l, x);
    var q :| IsPredPath(g, avoid, q) && q[0] == l && q[|q| - 1] == x;
    forall j | 1 <= j < |q| ensures q[j] !in marked + {h} {
      assert q[j] < |g| && q[j] !in avoid;
      assert q[j] in reach;
    }
    assert IsPredPath(g, marked + {h}, q);
  }

  /** Claiming for `k` leaves the blocks of every other loop alone. */
  lemma ClaimBlocksFrame(f: Forest, k: LoopKey, x: BlockId)
    requires k in f.loops && OwnersKnown(f)
    ensures forall j :: j in f.loops && j != k ==> Claim(f, k, x).loops[j].blocks == f.loops[j].blocks
  {
    if x in f.owner {
      var k2 := f.owner[x];
      if k2 != k && f.loops[k2].outer.None? {
        AttachRecords(f.loops, k, k2);
      }
    }
  }

  lemma {:induction false} ClaimAllBlocksFrame(f: Forest, k: LoopKey, xs: seq<BlockId>)
    requires k in f.loops && OwnersKnown(f)
    ensures forall j :: j in f.loops && j != k ==> ClaimAll(f, k, xs).loops[j].blocks == f.loops[j].blocks
    decreases |xs|
  {
    if xs != [] {
      ClaimBlocksFrame(f, k, xs[0]);
      ClaimAllBlocksFrame(Claim(f, k, xs[0]), k, xs[1..]);
    }
  }

  /** The turn of header `h`, started while its loop still holds only its header
      copies and no mark lies in `reach`: afterwards the loop is done, no other
      loop's blocks have changed, and every block of a loop stays owned. */
  lemma HeaderStepDone(g: Graph, f: Forest, h: BlockId, marked: set<BlockId>, reach: set<BlockId>)
    requires Wf(g) && Header(h) in f.loops && OwnersKnown(f) && InGraph(g, f.loops)
    requires f.loops[Header(h)].blocks == Copies(h, |f.loops[Header(h)].latches|)
    requires marked !! reach
    ensures var r := HeaderStep(g, f, h, marked).0;
      LoopDone(g, reach, r, h) &&
      (forall j :: j in f.loops && j != Header(h) ==> r.loops[j].blocks == f.loops[j].blocks) &&
      (BlocksOwned(f) ==> BlocksOwned(r))
  {
    var k := Header(h);
    var f0 := Forest(f.loops, f.owner[h := k]);
    var l := f.loops[k];
    HeaderStepKeeps(g, f, h, marked);
    if l.reducible {
      var v := SearchLatches(g, l.latches, marked + {h});
      assert HeaderStep(g, f, h, marked).0 == ClaimAll(f0, k, v);
      ClaimedLoopDone(g, f0, h, marked, reach, v);
    } else {
      assert HeaderStep(g, f, h, marked).0 == AppendLatches(f0, k, l.latches);
    }
  }

  /** The reducible branch: claiming the visits `v` of the walks from the latches
      of `h`, with the header already owned. */
  lemma ClaimedLoopDone(g: Graph, f0: Forest, h: BlockId, marked: set<BlockId>, reach: set<BlockId>,
                        v: seq<BlockId>)
    requires Wf(g) && Header(h) in f0.loops && OwnersKnown(f0) && InGraph(g, f0.loops)
    requires f0.loops[Header(h)].reducible && h in f0.owner
    requires f0.loops[Header(h)].blocks == Copies(h, |f0.loops[Header(h)].latches|)
    requires marked !! reach && v == SearchLatches(g, f0.loops[Header(h)].latches, marked + {h})
    ensures var r := ClaimAll(f0, Header(h), v);
      LoopDone(g, reach, r, h) &&
      (forall j :: j in f0.loops && j != Header(h) ==> r.loops[j].blocks == f0.loops[j].blocks) &&
      (BlocksOwned(f0) ==> BlocksOwned(r))
  {
    var k := Header(h);
    var l := f0.loops[k];
    var n := |l.latches|;
    var r := ClaimAll(f0, k, v);
    ClaimAllHeads(f0, k, v);
    ClaimAllBlocks(f0, k, v);
    ClaimAllOwners(f0, k, v);
    ClaimAllBlocksFrame(f0, k, v);
    var nb := NewBlocks(v, f0.owner.Keys);
    assert r.loops[k].blocks == l.blocks + nb;
    assert r.loops[k].blocks[n..] == nb;
    ClaimedSound(g, l.latches, marked, h, v, nb, f0.owner.Keys);
    ClaimedComplete(g, l.latches, marked, h, reach, v);
    if BlocksOwned(f0) {
      forall j, x | j in r.loops && x in r.loops[j].blocks ensures x in r.owner || (j.Header? && x == j.block) {
        if j == k && x in nb {
          assert x in Elems(nb);
        }
      }
    }
  }

  lemma ClaimedSound(g: Graph, latches: seq<BlockId>, marked: set<BlockId>, h: BlockId, v: seq<BlockId>,
                     nb: seq<BlockId>, owned: set<BlockId>)
    requires Wf(g) && AllBlocks(g, latches) && v == SearchLatches(g, latches, marked + {h})
    requires nb == NewBlocks(v, owned) && h in owned
    ensures Distinct(nb) && h !in nb
    ensures forall x :: x in nb ==> x in LatchBody(g, {h}, latches)
  {
    BodyVisited(g, latches, marked + {h}, v, LatchBody(g, marked + {h}, latches));
    forall x | x in nb ensures x in LatchBody(g, {h}, latches) {
      assert x in Elems(nb);
      LatchBodyWeaken(g, marked + {h}, {h}, latches, x);
    }
    assert h !in Elems(nb);
  }

  lemma ClaimedComplete(g: Graph, latches: seq<BlockId>, marked: set<BlockId>, h: BlockId, reach: set<BlockId>,
                        v: seq<BlockId>)
    requires Wf(g) && AllBlocks(g, latches) && v == SearchLatches(g, latches, marked + {h})
    requires marked !! reach
    ensures forall x :: x in reach && x in LatchBody(g, {h} + (Blocks(g) - reach), latches) ==>
      x == h || x in Elems(v)
  {
    SearchLatchesIsBody(g, latches, marked + {h});
    forall x | x in reach && x in LatchBody(g, {h} + (Blocks(g) - reach), latches)
      ensures x == h || x in Elems(v)
    {
      LatchBodyWithin(g, reach, marked, h, latches, x);
      assert x in marked + {h} + Elems(v);
    }
  }

  /** A done loop stays done while its blocks, latches and flag stay and owners
      are only added. */
  lemma LoopDoneStable(g: Graph, reach: set<BlockId>, a: Forest, b: Forest, h: BlockId)
    requires Header(h) in a.loops && LoopDone(g, reach, a, h)
    requires SameHeads(a.loops, b.loops) && b.loops[Header(h)].blocks == a.loops[Header(h)].blocks
    requires a.owner.Keys <= b.owner.Keys
    ensures LoopDone(g, reach, b, h)
  {
  }

  /** What `Populate` over `rpo[..i]` does to the loop records, when `rpo` has no
      repeats, no mark lies on a block of `rpo`, and every loop still to be
      processed holds only its header copies: the loops of the headers among
      `rpo[..i]` are done, the blocks of every other loop are unchanged, the
      headers, latches and flags stay, owners are only added, and every block of
      a loop stays owned. */
  lemma {:induction false} PopulateDone(g: Graph, f: Forest, rpo: seq<BlockId>, i: nat, marked: set<BlockId>)
    requires Wf(g) && OwnersKnown(f) && InGraph(g, f.loops) && i <= |rpo| && Distinct(rpo)
    requires marked !! Elems(rpo) && BlocksOwned(f)
    requires forall j :: 0 <= j < i && Header(rpo[j]) in f.loops ==>
      f.loops[Header(rpo[j])].blocks == Copies(rpo[j], |f.loops[Header(rpo[j])].latches|)
    ensures var r := Populate(g, f, rpo, i, marked);
      BlocksOwned(r) && SameHeads(f.loops, r.loops) && f.owner.Keys <= r.owner.Keys &&
      (forall j :: 0 <= j < i && Header(rpo[j]) in f.loops ==> LoopDone(g, Elems(rpo), r, rpo[j])) &&
      (forall k :: k in f.loops && k.Header? && k.block !in rpo[..i] ==> r.loops[k].blocks == f.loops[k].blocks)
    decreases i, 1
  {
    if i == 0 {
      SameHeadsTrans(f.loops, f.loops, f.loops);
    } else if Header(rpo[i - 1]) in f.loops {
      PopulateDoneHeader(g, f, rpo, i, marked);
    } else {
      var h := rpo[i - 1];
      assert forall j :: 0 <= j < i - 1 ==> rpo[..i - 1][j] == rpo[j] && rpo[..i][j] == rpo[j];
      assert rpo[..i] == rpo[..i - 1] + [h];
      PopulateDone(g, f, rpo, i - 1, marked);
    }
  }

  /** The step of `PopulateDone` at a header. */
  lemma {:induction false} PopulateDoneHeader(g: Graph, f: Forest, rpo: seq<BlockId>, i: nat, marked: set<BlockId>)
    requires Wf(g) && OwnersKnown(f) && InGraph(g, f.loops) && 0 < i <= |rpo| && Distinct(rpo)
    requires marked !! Elems(rpo) && BlocksOwned(f) && Header(rpo[i - 1]) in f.loops
    requires forall j :: 0 <= j < i && Header(rpo[j]) in f.loops ==>
      f.loops[Header(rpo[j])].blocks == Copies(rpo[j], |f.loops[Header(rpo[j])].latches|)
    ensures var r := Populate(g, f, rpo, i, marked);
      BlocksOwned(r) && SameHeads(f.loops, r.loops) && f.owner.Keys <= r.owner.Keys &&
      (forall j :: 0 <= j < i && Header(rpo[j]) in f.loops ==> LoopDone(g, Elems(rpo), r, rpo[j])) &&
      (forall k :: k in f.loops && k.Header? && k.block !in rpo[..i] ==> r.loops[k].blocks == f.loops[k].blocks)
    decreases i, 0
  {
    var h := rpo[i - 1];
    assert forall j :: 0 <= j < i - 1 ==> rpo[..i - 1][j] == rpo[j] && rpo[..i][j] == rpo[j];
    assert rpo[..i] == rpo[..i - 1] + [h];
    var st := HeaderStep(g, f, h, marked);
    var f1, m1 := st.0, st.1;
    HeaderStepDone(g, f, h, marked, Elems(rpo));
    PopulateUnfold(g, f, rpo, i, marked, f1, m1);
    forall j | 0 <= j < i - 1 && Header(rpo[j]) in f1.loops
      ensures f1.loops[Header(rpo[j])].blocks == Copies(rpo[j], |f1.loops[Header(rpo[j])].latches|)
    {
      assert rpo[j] != h;
    }
    PopulateDone(g, f1, rpo, i - 1, m1 - Elems(rpo));
    var r := Populate(g, f, rpo, i, marked);
    SameHeadsTrans(f.loops, f1.loops, r.loops);
    assert h !in rpo[..i - 1];
    LoopDoneStable(g, Elems(rpo), f1, r, h);
    forall j | 0 <= j < i && Header(rpo[j]) in f.loops ensures LoopDone(g, Elems(rpo), r, rpo[j]) {
      if j < i - 1 {
        assert rpo[j] in rpo[..i - 1];
      }
    }
  }
}
