/** `rpo`: reverse postorder. Each block is written into a pre-sized buffer at
    index `--counter` once both of its successor subtrees are done, so the
    postorder fills the buffer from the back. */
module Rpo {
  import opened Wrappers
  import opened Cfg
  import opened Walks

  function Reverse<T>(s: seq<T>): (r: seq<T>)
    ensures |r| == |s| && forall i :: 0 <= i < |s| ==> r[i] == s[|s| - 1 - i]
  {
    if s == [] then [] else Reverse(s[1..]) + [s[0]]
  }

  /** The reverse postorder of the blocks reachable from `entry`. */
  function RpoOrder(g: Graph, entry: BlockId): seq<BlockId>
    requires Wf(g) && entry < |g|
  {
    Reverse(Walk(g, {}, entry, {}, {}).post)
  }

  /** The back edges met by the same traversal. */
  function BackEdges(g: Graph, entry: BlockId): seq<(BlockId, BlockId)>
    requires Wf(g) && entry < |g|
  {
    Walk(g, {}, entry, {}, {}).back
  }

  lemma DistinctCard<T>(s: seq<T>)
    requires Distinct(s)
    ensures |Elems(s)| == |s|
  {
    if s != [] {
      DistinctCard(s[1..]);
      assert Elems(s) == {s[0]} + Elems(s[1..]);
      assert s[0] !in Elems(s[1..]);
    }
  }

  lemma ReverseKeeps<T>(s: seq<T>)
    ensures Elems(Reverse(s)) == Elems(s)
    ensures Distinct(s) ==> Distinct(Reverse(s))
  {
    var r := Reverse(s);
    forall x | x in Elems(r) ensures x in Elems(s) {
      var i :| 0 <= i < |r| && r[i] == x;
      assert s[|s| - 1 - i] == x;
    }
    forall x | x in Elems(s) ensures x in Elems(r) {
      var i :| 0 <= i < |s| && s[i] == x;
      assert r[|s| - 1 - i] == x;
    }
    if Distinct(s) {
      forall i, j | 0 <= i < j < |r| ensures r[i] != r[j] {
        assert r[i] == s[|s| - 1 - i] && r[j] == s[|s| - 1 - j];
      }
    }
  }

  /** The entry comes first in reverse postorder. */
  lemma RpoStartsAtEntry(g: Graph, entry: BlockId)
    requires Wf(g) && entry < |g|
    ensures RpoOrder(g, entry) != [] && RpoOrder(g, entry)[0] == entry
  {
    WalkFromEntryOrders(g, {}, entry);
  }

  /** Every reachable block is placed exactly once, so the order is as long as
      there are reachable blocks. */
  lemma RpoOrderIsReachSet(g: Graph, entry: BlockId)
    requires Wf(g) && entry < |g|
    ensures Elems(RpoOrder(g, entry)) == ReachSet(g, {}, entry)
    ensures Distinct(RpoOrder(g, entry)) && |RpoOrder(g, entry)| == |ReachSet(g, {}, entry)|
  {
    var post := Walk(g, {}, entry, {}, {}).post;
    WalkFromEntryReach(g, {}, entry);
    WalkFromEntryOrders(g, {}, entry);
    ReverseKeeps(post);
    DistinctCard(Reverse(post));
  }

  /** An order in which every edge not in `back` goes backwards, reversed, has
      every such edge going forwards. */
  lemma ReverseForward(g: Graph, post: seq<BlockId>, back: seq<(BlockId, BlockId)>)
    requires Distinct(post)
    requires forall i, s: BlockId :: 0 <= i < |post| && Edge(g, post[i], s) ==> s in post[..i] || (post[i], s) in back
    ensures var r := Reverse(post);
      forall i, j :: 0 <= i < |r| && 0 <= j < |r| && Edge(g, r[i], r[j]) && (r[i], r[j]) !in back ==> i < j
  {
    var r := Reverse(post);
    var n := |post|;
    forall i, j | 0 <= i < n && 0 <= j < n && Edge(g, r[i], r[j]) && (r[i], r[j]) !in back
      ensures i < j
    {
      var pi, pj := n - 1 - i, n - 1 - j;
      assert r[i] == post[pi] && r[j] == post[pj];
      assert post[pj] in post[..pi];
      var k :| 0 <= k < pi && post[..pi][k] == post[pj];
      assert post[k] == post[pj];
    }
  }

  /** For every edge U -> V between reachable blocks that is not a back edge, V
      comes after U in reverse postorder. */
  lemma RpoForwardEdges(g: Graph, entry: BlockId)
    requires Wf(g) && entry < |g|
    ensures var r := RpoOrder(g, entry);
      forall i, j :: 0 <= i < |r| && 0 <= j < |r| && Edge(g, r[i], r[j]) && (r[i], r[j]) !in BackEdges(g, entry) ==> i < j
  {
    var t := Walk(g, {}, entry, {}, {});
    WalkFromEntryEdges(g, {}, entry);
    WalkFromEntryOrders(g, {}, entry);
    forall i, s: BlockId | 0 <= i < |t.post| && Edge(g, t.post[i], s)
      ensures s in t.post[..i] || (t.post[i], s) in t.back
    {
      var none: set<BlockId> := {};
      assert s !in none;
    }
    ReverseForward(g, t.post, t.back);
  }

  /** Placement predicate: the block at postorder position `p` sits at
      `counter - 1 - p`. */
  ghost predicate Placed(buf: seq<Option<BlockId>>, post: seq<BlockId>, counter: int) {
    |post| <= counter <= |buf| &&
    forall p :: 0 <= p < |post| ==> buf[counter - 1 - p] == Some(post[p])
  }

  /** Two buffers that agree everywhere except on `[lo, hi)`. */
  ghost predicate SameOutside(a: seq<Option<BlockId>>, b: seq<Option<BlockId>>, lo: int, hi: int) {
    |a| == |b| && forall k :: 0 <= k < |a| && !(lo <= k < hi) ==> a[k] == b[k]
  }

  /** The recursive visit of lib/cfg_analysis/rpo.hpp with the buffer and the
      by-reference counter. */
  method RpoVisit(g: Graph, b: BlockId, buf: array<Option<BlockId>>, counter: nat,
                  visited: set<BlockId>, ghost grey: set<BlockId>)
    returns (counterOut: nat, visitedOut: set<BlockId>)
    requires Wf(g) && b < |g| && b !in visited
    requires |Walk(g, {}, b, visited, grey).post| <= counter <= buf.Length
    modifies buf
    ensures counterOut == counter - |Walk(g, {}, b, visited, grey).post|
    ensures Placed(buf[..], Walk(g, {}, b, visited, grey).post, counter)
    ensures SameOutside(old(buf[..]), buf[..], counterOut, counter)
    ensures visitedOut == visited + Elems(Walk(g, {}, b, visited, grey).pre)
    decreases |Blocks(g) - visited|, 0
  {
    CardShrinks(Blocks(g), visited, b);
    WalkPostLength(g, {}, b, visited, grey);
    var v1 := visited + {b};
    ghost var buf0 := buf[..];
    var c1, v2 := RpoSuccessor(g, b, g[b].trueSucc, buf, counter, v1, grey + {b});
    ghost var buf1 := buf[..];
    CardMonotone(Blocks(g), v1, v2);
    var c2, v3 := RpoSuccessor(g, b, g[b].falseSucc, buf, c1, v2, grey + {b});
    ghost var buf2 := buf[..];
    counterOut := c2 - 1;
    buf[counterOut] := Some(b);
    visitedOut := v3;
    RpoVisitComposes(g, b, visited, grey, buf1, buf2, buf[..], counter, c1, c2, v2, v3);
    SameOutsideCompose(buf0, buf1, buf2, buf[..], counter, c1, c2, b);
  }

  lemma SameOutsideCompose(buf0: seq<Option<BlockId>>, buf1: seq<Option<BlockId>>, buf2: seq<Option<BlockId>>,
                           buf3: seq<Option<BlockId>>, c0: int, c1: int, c2: int, b: BlockId)
    requires SameOutside(buf0, buf1, c1, c0) && SameOutside(buf1, buf2, c2, c1)
    requires c2 <= c1 <= c0 && 1 <= c2 <= |buf2| && buf3 == buf2[c2 - 1 := Some(b)]
    ensures SameOutside(buf0, buf3, c2 - 1, c0)
  {
  }

  lemma WalkPostLength(g: Graph, removed: set<BlockId>, b: BlockId, visited: set<BlockId>, grey: set<BlockId>)
    requires Wf(g) && b < |g| && b !in visited
    ensures var t1 := Step(g, removed, b, g[b].trueSucc, visited + {b}, grey + {b});
      var t2 := Step(g, removed, b, g[b].falseSucc, visited + {b} + Elems(t1.pre), grey + {b});
      |Walk(g, removed, b, visited, grey).post| == |t1.post| + |t2.post| + 1
  {
    WalkUnfold(g, removed, b, visited, grey);
  }

  /** The two successor steps and the final placement of `b` make up one level of
      `Walk`. */
  lemma RpoVisitComposes(g: Graph, b: BlockId, visited: set<BlockId>, grey: set<BlockId>,
                         buf1: seq<Option<BlockId>>, buf2: seq<Option<BlockId>>, buf3: seq<Option<BlockId>>,
                         counter: int, c1: int, c2: int, v2: set<BlockId>, v3: set<BlockId>)
    requires Wf(g) && b < |g| && b !in visited
    requires var t1 := Step(g, {}, b, g[b].trueSucc, visited + {b}, grey + {b});
      c1 == counter - |t1.post| && Placed(buf1, t1.post, counter) && v2 == visited + {b} + Elems(t1.pre)
    requires var t2 := Step(g, {}, b, g[b].falseSucc, v2, grey + {b});
      c2 == c1 - |t2.post| && Placed(buf2, t2.post, c1) && v3 == v2 + Elems(t2.pre)
    requires |buf1| == |buf2| && c2 >= 1
    requires SameOutside(buf1, buf2, c2, c1)
    requires buf3 == buf2[c2 - 1 := Some(b)]
    ensures Placed(buf3, Walk(g, {}, b, visited, grey).post, counter)
    ensures v3 == visited + Elems(Walk(g, {}, b, visited, grey).pre)
  {
    var t1 := Step(g, {}, b, g[b].trueSucc, visited + {b}, grey + {b});
    var t2 := Step(g, {}, b, g[b].falseSucc, v2, grey + {b});
    WalkUnfold(g, {}, b, visited, grey);
    PlacedCompose(buf1, buf2, buf3, t1.post, t2.post, b, counter, c1, c2);
    ElemsConcat([b], t1.pre);
    ElemsConcat([b] + t1.pre, t2.pre);
  }

  lemma PlacedCompose(buf1: seq<Option<BlockId>>, buf2: seq<Option<BlockId>>, buf3: seq<Option<BlockId>>,
                      p1: seq<BlockId>, p2: seq<BlockId>, b: BlockId, c0: int, c1: int, c2: int)
    requires c1 == c0 - |p1| && c2 == c1 - |p2| && c2 >= 1
    requires Placed(buf1, p1, c0) && Placed(buf2, p2, c1)
    requires |buf1| == |buf2| == |buf3|
    requires SameOutside(buf1, buf2, c2, c1)
    requires buf3 == buf2[c2 - 1 := Some(b)]
    ensures Placed(buf3, p1 + p2 + [b], c0)
  {
    var post := p1 + p2 + [b];
    forall p | 0 <= p < |post| ensures buf3[c0 - 1 - p] == Some(post[p]) {
      if p < |p1| {
        assert post[p] == p1[p];
      } else if p < |p1| + |p2| {
        assert post[p] == p2[p - |p1|];
      }
    }
  }

  /** The `process_successor` step of `rpo`. */
  method RpoSuccessor(g: Graph, u: BlockId, s: Option<BlockId>, buf: array<Option<BlockId>>, counter: nat,
                      visited: set<BlockId>, ghost grey: set<BlockId>)
    returns (counterOut: nat, visitedOut: set<BlockId>)
    requires Wf(g) && (s.Some? ==> s.value < |g|)
    requires |Step(g, {}, u, s, visited, grey).post| <= counter <= buf.Length
    modifies buf
    ensures counterOut == counter - |Step(g, {}, u, s, visited, grey).post|
    ensures Placed(buf[..], Step(g, {}, u, s, visited, grey).post, counter)
    ensures SameOutside(old(buf[..]), buf[..], counterOut, counter)
    ensures visitedOut == visited + Elems(Step(g, {}, u, s, visited, grey).pre)
    decreases |Blocks(g) - visited|, 1
  {
    if s.None? || s.value in visited {
      counterOut, visitedOut := counter, visited;
    } else {
      counterOut, visitedOut := RpoVisit(g, s.value, buf, counter, visited, grey);
    }
  }

  lemma PlacedReverse(buf: seq<Option<BlockId>>, post: seq<BlockId>, count: int)
    requires Placed(buf, post, count)
    ensures forall k :: 0 <= k < |post| ==> buf[count - |post| + k] == Some(Reverse(post)[k])
  {
    forall k | 0 <= k < |post| ensures buf[count - |post| + k] == Some(Reverse(post)[k]) {
      assert buf[count - 1 - (|post| - 1 - k)] == Some(post[|post| - 1 - k]);
    }
  }

  /** `rpo(entry, count)`: a buffer of `count` slots, the last ones holding the
      reverse postorder and any leading slots left empty. With `count` equal to
      the number of reachable blocks (`RpoOrderIsReachSet`) the buffer is full
      and starts with the entry. */
  method Rpo(g: Graph, entry: BlockId, count: nat) returns (r: seq<Option<BlockId>>)
    requires Wf(g) && entry < |g| && |RpoOrder(g, entry)| <= count
    ensures |r| == count
    ensures forall k :: 0 <= k < count - |RpoOrder(g, entry)| ==> r[k] == None
    ensures forall k :: 0 <= k < |RpoOrder(g, entry)| ==>
      r[count - |RpoOrder(g, entry)| + k] == Some(RpoOrder(g, entry)[k])
    ensures count == |RpoOrder(g, entry)| ==> r != [] && r[0] == Some(entry)
    ensures count == |RpoOrder(g, entry)| ==> forall k :: 0 <= k < count ==> r[k].Some?
  {
    var buf := new Option<BlockId>[count](_ => None);
    var c, _ := RpoVisit(g, entry, buf, count, {}, {});
    r := buf[..];
    RpoResult(g, entry, count, r);
    RpoFullStartsAtEntry(g, entry, r);
    RpoFullNoGaps(g, entry, r);
  }

  lemma RpoResult(g: Graph, entry: BlockId, count: nat, r: seq<Option<BlockId>>)
    requires Wf(g) && entry < |g| && |r| == count
    requires Placed(r, Walk(g, {}, entry, {}, {}).post, count)
    requires forall k :: 0 <= k < count - |Walk(g, {}, entry, {}, {}).post| ==> r[k] == None
    ensures forall k :: 0 <= k < count - |RpoOrder(g, entry)| ==> r[k] == None
    ensures forall k :: 0 <= k < |RpoOrder(g, entry)| ==>
      r[count - |RpoOrder(g, entry)| + k] == Some(RpoOrder(g, entry)[k])
  {
    var post := Walk(g, {}, entry, {}, {}).post;
    BufferContents(r, post, count);
    assert RpoOrder(g, entry) == Reverse(post);
  }

  lemma RpoFullStartsAtEntry(g: Graph, entry: BlockId, r: seq<Option<BlockId>>)
    requires Wf(g) && entry < |g| && |RpoOrder(g, entry)| <= |r|
    requires forall k :: 0 <= k < |RpoOrder(g, entry)| ==>
      r[|r| - |RpoOrder(g, entry)| + k] == Some(RpoOrder(g, entry)[k])
    ensures |r| == |RpoOrder(g, entry)| ==> r != [] && r[0] == Some(entry)
  {
    RpoStartsAtEntry(g, entry);
    FullBuffer(r, RpoOrder(g, entry), entry);
  }

  lemma RpoFullNoGaps(g: Graph, entry: BlockId, r: seq<Option<BlockId>>)
    requires Wf(g) && entry < |g| && |RpoOrder(g, entry)| <= |r|
    requires forall k :: 0 <= k < |RpoOrder(g, entry)| ==>
      r[|r| - |RpoOrder(g, entry)| + k] == Some(RpoOrder(g, entry)[k])
    ensures |r| == |RpoOrder(g, entry)| ==> forall k :: 0 <= k < |r| ==> r[k].Some?
  {
    RpoStartsAtEntry(g, entry);
    FullBuffer(r, RpoOrder(g, entry), entry);
  }

  lemma BufferContents(r: seq<Option<BlockId>>, post: seq<BlockId>, count: nat)
    requires |r| == count && Placed(r, post, count)
    requires forall k :: 0 <= k < count - |post| ==> r[k] == None
    ensures |Reverse(post)| <= count
    ensures forall k :: 0 <= k < count - |Reverse(post)| ==> r[k] == None
    ensures forall k :: 0 <= k < |Reverse(post)| ==> r[count - |Reverse(post)| + k] == Some(Reverse(post)[k])
  {
    PlacedReverse(r, post, count);
  }

  lemma FullBuffer(r: seq<Option<BlockId>>, order: seq<BlockId>, entry: BlockId)
    requires |order| <= |r|
    requires forall k :: 0 <= k < |order| ==> r[|r| - |order| + k] == Some(order[k])
    requires order != [] && order[0] == entry
    ensures |r| == |order| ==> r != [] && r[0] == Some(entry)
    ensures |r| == |order| ==> forall k :: 0 <= k < |r| ==> r[k].Some?
  {
    if |r| == |order| {
      assert r[0] == Some(order[0]);
      forall k | 0 <= k < |r| ensures r[k].Some? {
        assert r[|r| - |order| + k] == Some(order[k]);
      }
    }
  }
}
