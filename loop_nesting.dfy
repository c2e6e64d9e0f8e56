/** The nesting links `populate_loops` sets (lib/cfg_analysis/loop.hpp 81-84, with
    the corrected guard of `LoopSearches.Claim`). A loop gets the loop of a header
    as its outer loop only when one of its blocks lies on a backward walk from a
    latch of that reducible loop (`OuterSound`); and a header that such a walk
    reaches after its own turn always ends up with an outer loop (`Nests`). */
module LoopNesting {
  import opened Wrappers
  import opened Cfg
  import opened Walks
  import opened Loops
  import opened LoopSearches
  import opened LoopTrees

  /** Loop `k` lies inside the loop of header `p`: `p` is reducible and some block
      of `k` is reached by a backward walk from a latch of `p` that does not pass
      through `p`. */
  ghost predicate InsideOf(g: Graph, loops: LoopTree, k: LoopKey, p: BlockId)
    requires k in loops
  {
    Header(p) in loops && loops[Header(p)].reducible &&
    exists x :: x in loops[k].blocks && x in LatchBody(g, {p}, loops[Header(p)].latches)
  }

  /** Every loop whose outer loop is the loop of a header lies inside it. */
  ghost predicate OuterSound(g: Graph, loops: LoopTree) {
    forall k :: k in loops && loops[k].outer.Some? && loops[k].outer.value.Header? ==>
      InsideOf(g, loops, k, loops[k].outer.value.block)
  }

  /** The blocks some irreducible loop lists among its latches: `populate_loops`
      hands each of them to that loop in `bb_to_loop`. */
  ghost function IrreducibleLatches(loops: LoopTree): set<BlockId> {
    set j, x | j in loops && !loops[j].reducible && x in loops[j].latches :: x
  }

  lemma IrreducibleLatchesSame(a: LoopTree, b: LoopTree)
    requires SameHeads(a, b)
    ensures IrreducibleLatches(a) == IrreducibleLatches(b)
  {
    forall x | x in IrreducibleLatches(a) ensures x in IrreducibleLatches(b) {
      var j :| j in a && !a[j].reducible && x in a[j].latches;
      assert j in b && !b[j].reducible && x in b[j].latches;
    }
    forall x | x in IrreducibleLatches(b) ensures x in IrreducibleLatches(a) {
      var j :| j in b && !b[j].reducible && x in b[j].latches;
      assert j in a && !a[j].reducible && x in a[j].latches;
    }
  }

  /** Header `c`, other than `p`, is reached from a latch of the reducible loop of
      `p` by a backward walk through blocks of `reach` that does not pass through
      `p`, and no irreducible loop has `c` as a latch. */
  ghost predicate Nests(g: Graph, loops: LoopTree, reach: set<BlockId>, p: BlockId, c: BlockId) {
    Header(p) in loops && Header(c) in loops && p != c && loops[Header(p)].reducible &&
    c in reach && c in LatchBody(g, {p} + (Blocks(g) - reach), loops[Header(p)].latches) &&
    c !in IrreducibleLatches(loops)
  }

  /** Every header `c` that `order` lists after a header `p` whose walks reach it
      (`Nests`) has a loop, not the root, as its outer loop. */
  ghost predicate OuterComplete(g: Graph, loops: LoopTree, reach: set<BlockId>, order: seq<BlockId>) {
    forall i, j :: 0 <= i < j < |order| && Nests(g, loops, reach, order[i], order[j]) ==>
      loops[Header(order[j])].outer.Some? && loops[Header(order[j])].outer.value.Header?
  }

  lemma NestsSame(g: Graph, a: LoopTree, b: LoopTree, reach: set<BlockId>, p: BlockId, c: BlockId)
    requires SameHeads(a, b)
    ensures Nests(g, a, reach, p, c) <==> Nests(g, b, reach, p, c)
  {
    IrreducibleLatchesSame(a, b);
  }

  /** The outer links stay, and no block is lost: soundness carries over. */
  lemma OuterSoundTransfer(g: Graph, a: LoopTree, b: LoopTree)
    requires OuterSound(g, a) && SameHeads(a, b) && Grows(a, b)
    requires forall k :: k in a ==> b[k].outer == a[k].outer
    ensures OuterSound(g, b)
  {
    forall k | k in b && b[k].outer.Some? && b[k].outer.value.Header?
      ensures InsideOf(g, b, k, b[k].outer.value.block)
    {
      var p := b[k].outer.value.block;
      assert InsideOf(g, a, k, p);
      var x :| x in a[k].blocks && x in LatchBody(g, {p}, a[Header(p)].latches);
      PrefixIn(a[k].blocks, b[k].blocks, x);
    }
  }

  /** A claim for a reducible loop `k` of a block on one of its backward walks
      keeps every outer link sound: a loop it attaches owns that block. */
  lemma ClaimOuterSound(g: Graph, f: Forest, k: LoopKey, x: BlockId)
    requires k in f.loops && OwnersKnown(f) && OwnedIn(f) && OuterSound(g, f.loops)
    requires k.Header? && f.loops[k].reducible && x in LatchBody(g, {k.block}, f.loops[k].latches)
    ensures OuterSound(g, Claim(f, k, x).loops)
  {
    var r := Claim(f, k, x).loops;
    ClaimGrows(f, k, x);
    ClaimHeads(f, k, x);
    if x !in f.owner {
      OuterSoundTransfer(g, f.loops, r);
    } else if f.owner[x] != k && f.loops[f.owner[x]].outer.None? {
      var k2 := f.owner[x];
      AttachRecords(f.loops, k, k2);
      forall j | j in r && r[j].outer.Some? && r[j].outer.value.Header?
        ensures InsideOf(g, r, j, r[j].outer.value.block)
      {
        if j == k2 {
          PrefixIn(f.loops[k2].blocks, r[k2].blocks, x);
        } else {
          var p := r[j].outer.value.block;
          assert InsideOf(g, f.loops, j, p);
          var y :| y in f.loops[j].blocks && y in LatchBody(g, {p}, f.loops[Header(p)].latches);
          PrefixIn(f.loops[j].blocks, r[j].blocks, y);
        }
      }
    }
  }

  lemma {:induction false} ClaimAllOuterSound(g: Graph, f: Forest, k: LoopKey, xs: seq<BlockId>)
    requires k in f.loops && OwnersKnown(f) && OwnedIn(f) && OuterSound(g, f.loops)
    requires k.Header? && f.loops[k].reducible
    requires forall x :: x in xs ==> x in LatchBody(g, {k.block}, f.loops[k].latches)
    ensures OuterSound(g, ClaimAll(f, k, xs).loops)
    decreases |xs|
  {
    if xs != [] {
      var f1 := Claim(f, k, xs[0]);
      ClaimOuterSound(g, f, k, xs[0]);
      ClaimGrows(f, k, xs[0]);
      ClaimHeads(f, k, xs[0]);
      assert forall x :: x in xs[1..] ==> x in xs;
      ClaimAllOuterSound(g, f1, k, xs[1..]);
    }
  }

  /** Appending latches touches no outer link. */
  lemma {:induction false} AppendLatchesOuter(f: Forest, k: LoopKey, latches: seq<BlockId>)
    requires k in f.loops && OwnersKnown(f)
    ensures forall j :: j in f.loops ==> AppendLatches(f, k, latches).loops[j].outer == f.loops[j].outer
    decreases |latches|
  {
    if latches != [] {
      AppendLatchesOuter(f, k, latches[..|latches| - 1]);
    }
  }

  /** A header step keeps every outer link sound. */
  lemma HeaderStepOuterSound(g: Graph, f: Forest, h: BlockId, marked: set<BlockId>)
    requires Wf(g) && Header(h) in f.loops && OwnersKnown(f) && InGraph(g, f.loops)
    requires OwnedIn(f) && HeadersIn(f.loops) && OuterSound(g, f.loops)
    ensures OuterSound(g, HeaderStep(g, f, h, marked).0.loops)
  {
    var k := Header(h);
    var f0 := Forest(f.loops, f.owner[h := k]);
    var l := f.loops[k];
    assert OwnedIn(f0);
    if l.reducible {
      var v := SearchLatches(g, l.latches, marked + {h});
      BodyVisited(g, l.latches, marked + {h}, v, LatchBody(g, marked + {h}, l.latches));
      forall x | x in v ensures x in LatchBody(g, {h}, l.latches) {
        assert x in Elems(v);
        LatchBodyWeaken(g, marked + {h}, {h}, l.latches, x);
      }
      ClaimAllOuterSound(g, f0, k, v);
    } else {
      AppendLatchesOuter(f0, k, l.latches);
      AppendLatchesGrows(f0, k, l.latches);
      AppendLatchesKeeps(f0, k, l.latches);
      OuterSoundTransfer(g, f.loops, AppendLatches(f0, k, l.latches).loops);
    }
  }

  /** One turn of `populate_loops` at a header, unfolded. */
  lemma PopulateStep(g: Graph, f: Forest, rpo: seq<BlockId>, i: nat, marked: set<BlockId>)
    requires Wf(g) && OwnersKnown(f) && InGraph(g, f.loops) && 0 < i <= |rpo| && Header(rpo[i - 1]) in f.loops
    ensures var st := HeaderStep(g, f, rpo[i - 1], marked);
      OwnersKnown(st.0) && InGraph(g, st.0.loops) && SameHeads(f.loops, st.0.loops) &&
      Populate(g, f, rpo, i, marked) == Populate(g, st.0, rpo, i - 1, st.1 - Elems(rpo))
  {
    var st := HeaderStep(g, f, rpo[i - 1], marked);
    PopulateUnfold(g, f, rpo, i, marked, st.0, st.1);
  }

  /** `populate_loops` keeps every outer link sound. */
  lemma {:induction false} PopulateOuterSound(g: Graph, f: Forest, rpo: seq<BlockId>, i: nat, marked: set<BlockId>)
    requires Wf(g) && OwnersKnown(f) && InGraph(g, f.loops) && i <= |rpo|
    requires OwnedIn(f) && HeadersIn(f.loops) && OuterSound(g, f.loops)
    ensures OuterSound(g, Populate(g, f, rpo, i, marked).loops)
    decreases i, 1
  {
    if i > 0 {
      if Header(rpo[i - 1]) in f.loops {
        var st := HeaderStep(g, f, rpo[i - 1], marked);
        PopulateUnfold(g, f, rpo, i, marked, st.0, st.1);
        HeaderStepSound(g, f, rpo[i - 1], marked, st.0);
        PopulateOuterSoundRest(g, rpo, i, st.0, st.1);
      } else {
        PopulateOuterSound(g, f, rpo, i - 1, marked);
      }
    }
  }

  /** The rest of `PopulateOuterSound` after a header step, from the forest the
      step left. */
  lemma {:induction false} PopulateOuterSoundRest(g: Graph, rpo: seq<BlockId>, i: nat, f1: Forest, m1: set<BlockId>)
    requires Wf(g) && 0 < i <= |rpo| && OwnersKnown(f1) && InGraph(g, f1.loops)
    requires OwnedIn(f1) && HeadersIn(f1.loops) && OuterSound(g, f1.loops)
    ensures OuterSound(g, Populate(g, f1, rpo, i - 1, m1 - Elems(rpo)).loops)
    decreases i, 0
  {
    PopulateOuterSound(g, f1, rpo, i - 1, m1 - Elems(rpo));
  }

  /** A header step keeps the facts `PopulateOuterSound` carries. */
  lemma HeaderStepSound(g: Graph, f: Forest, h: BlockId, marked: set<BlockId>, r: Forest)
    requires Wf(g) && Header(h) in f.loops && OwnersKnown(f) && InGraph(g, f.loops)
    requires OwnedIn(f) && HeadersIn(f.loops) && OuterSound(g, f.loops)
    requires r == HeaderStep(g, f, h, marked).0
    ensures OwnedIn(r) && HeadersIn(r.loops) && OuterSound(g, r.loops)
  {
    HeaderStepGrows(g, f, h, marked);
    HeaderStepOuterSound(g, f, h, marked);
    GrowsHeadersIn(f.loops, HeaderStep(g, f, h, marked).0.loops);
  }

  /** A claim never removes or changes an outer link that is set. */
  lemma ClaimKeepsOuter(f: Forest, k: LoopKey, x: BlockId)
    requires k in f.loops && OwnersKnown(f)
    ensures forall j :: j in f.loops && f.loops[j].outer.Some? ==>
      Claim(f, k, x).loops[j].outer == f.loops[j].outer
  {
    if x in f.owner && f.owner[x] != k && f.loops[f.owner[x]].outer.None? {
      AttachRecords(f.loops, k, f.owner[x]);
    }
  }

  lemma {:induction false} ClaimAllKeepsOuter(f: Forest, k: LoopKey, xs: seq<BlockId>)
    requires k in f.loops && OwnersKnown(f)
    ensures forall j :: j in f.loops && f.loops[j].outer.Some? ==>
      ClaimAll(f, k, xs).loops[j].outer == f.loops[j].outer
    decreases |xs|
  {
    if xs != [] {
      ClaimKeepsOuter(f, k, xs[0]);
      ClaimAllKeepsOuter(Claim(f, k, xs[0]), k, xs[1..]);
    }
  }

  lemma HeaderStepKeepsOuter(g: Graph, f: Forest, h: BlockId, marked: set<BlockId>)
    requires Wf(g) && Header(h) in f.loops && OwnersKnown(f) && InGraph(g, f.loops)
    ensures forall j :: j in f.loops && f.loops[j].outer.Some? ==>
      HeaderStep(g, f, h, marked).0.loops[j].outer == f.loops[j].outer
  {
    var k := Header(h);
    var f0 := Forest(f.loops, f.owner[h := k]);
    var l := f.loops[k];
    if l.reducible {
      ClaimAllKeepsOuter(f0, k, SearchLatches(g, l.latches, marked + {h}));
    } else {
      AppendLatchesOuter(f0, k, l.latches);
    }
  }

  /** Once set, an outer link stays for the rest of `populate_loops`. */
  lemma {:induction false} PopulateKeepsOuter(g: Graph, f: Forest, rpo: seq<BlockId>, i: nat, marked: set<BlockId>)
    requires Wf(g) && OwnersKnown(f) && InGraph(g, f.loops) && i <= |rpo|
    ensures forall j :: j in f.loops && f.loops[j].outer.Some? ==>
      Populate(g, f, rpo, i, marked).loops[j].outer == f.loops[j].outer
    decreases i, 1
  {
    if i > 0 {
      if Header(rpo[i - 1]) in f.loops {
        PopulateKeepsOuterHeader(g, f, rpo, i, marked);
      } else {
        PopulateKeepsOuter(g, f, rpo, i - 1, marked);
      }
    }
  }

  /** The step of `PopulateKeepsOuter` at a header. */
  lemma {:induction false} PopulateKeepsOuterHeader(g: Graph, f: Forest, rpo: seq<BlockId>, i: nat, marked: set<BlockId>)
    requires Wf(g) && OwnersKnown(f) && InGraph(g, f.loops) && 0 < i <= |rpo| && Header(rpo[i - 1]) in f.loops
    ensures forall j :: j in f.loops && f.loops[j].outer.Some? ==>
      Populate(g, f, rpo, i, marked).loops[j].outer == f.loops[j].outer
    decreases i, 0
  {
    var st := HeaderStep(g, f, rpo[i - 1], marked);
    var f1, m1 := st.0, st.1 - Elems(rpo);
    PopulateStep(g, f, rpo, i, marked);
    HeaderStepKeepsOuter(g, f, rpo[i - 1], marked);
    PopulateKeepsOuter(g, f1, rpo, i - 1, m1);
  }

  /** Claiming a block owned by another loop gives that loop an outer link. */
  lemma {:induction false} ClaimAllAttaches(f: Forest, k: LoopKey, xs: seq<BlockId>, x: BlockId)
    requires k in f.loops && OwnersKnown(f)
    requires x in xs && x in f.owner && f.owner[x] != k
    ensures ClaimAll(f, k, xs).loops[f.owner[x]].outer.Some?
    decreases |xs|
  {
    var k2 := f.owner[x];
    var f1 := Claim(f, k, xs[0]);
    if xs[0] == x {
      if f.loops[k2].outer.None? {
        AttachRecords(f.loops, k, k2);
      }
      ClaimAllKeepsOuter(f1, k, xs[1..]);
    } else {
      assert x in xs[1..];
      ClaimAllAttaches(f1, k, xs[1..], x);
    }
  }

  /** The turn of a reducible header `p` with no mark in `reach`: a block of
      `reach` its walks reach, owned by another loop, gives that loop an outer
      link. */
  lemma HeaderStepNests(g: Graph, f: Forest, p: BlockId, marked: set<BlockId>, reach: set<BlockId>, c: BlockId)
    requires Wf(g) && Header(p) in f.loops && OwnersKnown(f) && InGraph(g, f.loops)
    requires f.loops[Header(p)].reducible && marked !! reach && c != p && c in reach
    requires c in LatchBody(g, {p} + (Blocks(g) - reach), f.loops[Header(p)].latches)
    requires c in f.owner && f.owner[c] != Header(p)
    ensures HeaderStep(g, f, p, marked).0.loops[f.owner[c]].outer.Some?
  {
    var k := Header(p);
    var f0 := Forest(f.loops, f.owner[p := k]);
    var l := f.loops[k];
    var v := SearchLatches(g, l.latches, marked + {p});
    ClaimedComplete(g, l.latches, marked, p, reach, v);
    assert c in Elems(v);
    ClaimAllAttaches(f0, k, v, c);
  }

  /** A header step leaves its header owned by its own loop. */
  lemma HeaderStepOwnsHeader(g: Graph, f: Forest, h: BlockId, marked: set<BlockId>)
    requires Wf(g) && Header(h) in f.loops && OwnersKnown(f) && InGraph(g, f.loops)
    ensures var r := HeaderStep(g, f, h, marked).0;
      h in r.owner && r.owner[h] == Header(h)
  {
    var k := Header(h);
    var f0 := Forest(f.loops, f.owner[h := k]);
    var l := f.loops[k];
    if l.reducible {
      ClaimAllOwners(f0, k, SearchLatches(g, l.latches, marked + {h}));
    }
  }

  /** A header step keeps the owner of every other block, unless the header is
      irreducible and takes the block as a latch. */
  lemma HeaderStepOwnerKept(g: Graph, f: Forest, h: BlockId, marked: set<BlockId>, c: BlockId)
    requires Wf(g) && Header(h) in f.loops && OwnersKnown(f) && InGraph(g, f.loops)
    requires c in f.owner && c != h && (f.loops[Header(h)].reducible || c !in f.loops[Header(h)].latches)
    ensures var r := HeaderStep(g, f, h, marked).0;
      c in r.owner && r.owner[c] == f.owner[c]
  {
    var k := Header(h);
    var f0 := Forest(f.loops, f.owner[h := k]);
    var l := f.loops[k];
    if l.reducible {
      ClaimAllOwners(f0, k, SearchLatches(g, l.latches, marked + {h}));
    }
  }

  /** What `populate_loops` over `rpo[..i]` does to the nesting, when `rpo` has no
      repeats, no mark lies on a block of `rpo`, and every header among `rpo[i..]`
      owns itself unless an irreducible loop has it as a latch: a header `c`
      reached by the walks of a reducible header `p` earlier in `rpo` ends up with
      an outer loop. */
  lemma PopulateNests(g: Graph, f: Forest, rpo: seq<BlockId>, i: nat, marked: set<BlockId>)
    requires Wf(g) && OwnersKnown(f) && InGraph(g, f.loops) && i <= |rpo| && Distinct(rpo)
    requires marked !! Elems(rpo)
    requires forall j :: i <= j < |rpo| && Header(rpo[j]) in f.loops && rpo[j] !in IrreducibleLatches(f.loops) ==>
      rpo[j] in f.owner && f.owner[rpo[j]] == Header(rpo[j])
    ensures var r := Populate(g, f, rpo, i, marked);
      forall jp, jc :: 0 <= jp < i && jp < jc < |rpo| && Nests(g, f.loops, Elems(rpo), rpo[jp], rpo[jc]) ==>
        r.loops[Header(rpo[jc])].outer.Some?
  {
    forall jp, jc | 0 <= jp < i && jp < jc < |rpo| && Nests(g, f.loops, Elems(rpo), rpo[jp], rpo[jc])
      ensures Populate(g, f, rpo, i, marked).loops[Header(rpo[jc])].outer.Some?
    {
      PopulateNestsPair(g, f, rpo, i, marked, jp, jc);
    }
  }

  /** `PopulateNests` for one pair of positions, by induction on `i`. */
  lemma {:induction false} PopulateNestsPair(g: Graph, f: Forest, rpo: seq<BlockId>, i: nat, marked: set<BlockId>, jp: nat, jc: nat)
    requires Wf(g) && OwnersKnown(f) && InGraph(g, f.loops) && i <= |rpo| && Distinct(rpo)
    requires marked !! Elems(rpo)
    requires forall j :: i <= j < |rpo| && Header(rpo[j]) in f.loops && rpo[j] !in IrreducibleLatches(f.loops) ==>
      rpo[j] in f.owner && f.owner[rpo[j]] == Header(rpo[j])
    requires jp < i && jp < jc < |rpo| && Nests(g, f.loops, Elems(rpo), rpo[jp], rpo[jc])
    ensures Populate(g, f, rpo, i, marked).loops[Header(rpo[jc])].outer.Some?
    decreases i, 1
  {
    if Header(rpo[i - 1]) in f.loops {
      PopulateNestsPairHeader(g, f, rpo, i, marked, jp, jc);
    } else {
      PopulateNestsPair(g, f, rpo, i - 1, marked, jp, jc);
    }
  }

  /** The step of `PopulateNestsPair` at a header. */
  lemma {:induction false} PopulateNestsPairHeader(g: Graph, f: Forest, rpo: seq<BlockId>, i: nat, marked: set<BlockId>, jp: nat, jc: nat)
    requires Wf(g) && OwnersKnown(f) && InGraph(g, f.loops) && 0 < i <= |rpo| && Distinct(rpo)
    requires marked !! Elems(rpo) && Header(rpo[i - 1]) in f.loops
    requires forall j :: i <= j < |rpo| && Header(rpo[j]) in f.loops && rpo[j] !in IrreducibleLatches(f.loops) ==>
      rpo[j] in f.owner && f.owner[rpo[j]] == Header(rpo[j])
    requires jp < i && jp < jc < |rpo| && Nests(g, f.loops, Elems(rpo), rpo[jp], rpo[jc])
    ensures Populate(g, f, rpo, i, marked).loops[Header(rpo[jc])].outer.Some?
    decreases i, 0
  {
    var st := HeaderStep(g, f, rpo[i - 1], marked);
    var f1, m1 := st.0, st.1 - Elems(rpo);
    PopulateStep(g, f, rpo, i, marked);
    if jp == i - 1 {
      NestsAtStep(g, f, rpo, i, marked, jp, jc);
      PopulateKeepsOuter(g, f1, rpo, i - 1, m1);
    } else {
      SelfOwnedStep(g, f, rpo, i, marked);
      NestsSame(g, f.loops, f1.loops, Elems(rpo), rpo[jp], rpo[jc]);
      PopulateNestsPair(g, f1, rpo, i - 1, m1, jp, jc);
    }
  }

  /** The turn of `rpo[i - 1]` keeps the later headers owning themselves. */
  lemma SelfOwnedStep(g: Graph, f: Forest, rpo: seq<BlockId>, i: nat, marked: set<BlockId>)
    requires Wf(g) && OwnersKnown(f) && InGraph(g, f.loops) && 0 < i <= |rpo| && Distinct(rpo)
    requires Header(rpo[i - 1]) in f.loops
    requires forall j :: i <= j < |rpo| && Header(rpo[j]) in f.loops && rpo[j] !in IrreducibleLatches(f.loops) ==>
      rpo[j] in f.owner && f.owner[rpo[j]] == Header(rpo[j])
    ensures var f1 := HeaderStep(g, f, rpo[i - 1], marked).0;
      forall j :: i - 1 <= j < |rpo| && Header(rpo[j]) in f1.loops && rpo[j] !in IrreducibleLatches(f1.loops) ==>
        rpo[j] in f1.owner && f1.owner[rpo[j]] == Header(rpo[j])
  {
    var p := rpo[i - 1];
    var f1 := HeaderStep(g, f, p, marked).0;
    HeaderStepKeeps(g, f, p, marked);
    IrreducibleLatchesSame(f.loops, f1.loops);
    forall j | i - 1 <= j < |rpo| && Header(rpo[j]) in f1.loops && rpo[j] !in IrreducibleLatches(f1.loops)
      ensures rpo[j] in f1.owner && f1.owner[rpo[j]] == Header(rpo[j])
    {
      if j >= i {
        var c := rpo[j];
        assert c != p;
        assert f.loops[Header(p)].reducible || c !in f.loops[Header(p)].latches;
        HeaderStepOwnerKept(g, f, p, marked, c);
      } else {
        HeaderStepOwnsHeader(g, f, p, marked);
      }
    }
  }

  /** At the turn of `rpo[i - 1]`, a later header its walks reach gets an outer
      loop. */
  lemma NestsAtStep(g: Graph, f: Forest, rpo: seq<BlockId>, i: nat, marked: set<BlockId>, jp: nat, jc: nat)
    requires Wf(g) && OwnersKnown(f) && InGraph(g, f.loops) && 0 < i <= |rpo| && Distinct(rpo)
    requires marked !! Elems(rpo) && Header(rpo[i - 1]) in f.loops && jp == i - 1 && jp < jc < |rpo|
    requires Nests(g, f.loops, Elems(rpo), rpo[jp], rpo[jc])
    requires forall j :: i <= j < |rpo| && Header(rpo[j]) in f.loops && rpo[j] !in IrreducibleLatches(f.loops) ==>
      rpo[j] in f.owner && f.owner[rpo[j]] == Header(rpo[j])
    ensures HeaderStep(g, f, rpo[i - 1], marked).0.loops[Header(rpo[jc])].outer.Some?
  {
    HeaderStepNests(g, f, rpo[jp], marked, Elems(rpo), rpo[jc]);
  }
}
