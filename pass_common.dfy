/** What both passes share: redirecting the users of one instruction to another
    (`replace_instr_uses`), and the three ways a rule rewrites the instruction under
    the cursor: leave it, forward its users to an existing instruction and erase it,
    or insert a fresh constant before it, forward its users to the constant and
    erase it. */
module PassCommon {
  import opened IrTypes
  import opened Instrs
  import opened Functions
  import Walks
  import Cfg
  import Rpo

  /** One round of the loop in `replace_instr_uses`: user `u` has its `from` operand
      replaced, then joins the users list of `to`. */
  function UseStep(arena: seq<Instr>, from: InstrId, to: InstrId, u: InstrId): (r: seq<Instr>)
    requires u < |arena| && to < |arena|
    ensures |r| == |arena|
  {
    var a1 := arena[u := ReplaceOperand(arena[u], from, to)];
    a1[to := AddUser(a1[to], u)]
  }

  /** The arena after the loop has handled every entry of `users`, in order. */
  function ReplaceUses(arena: seq<Instr>, from: InstrId, to: InstrId, users: seq<InstrId>)
    : (r: seq<Instr>)
    requires to < |arena| && forall u :: u in users ==> u < |arena|
    ensures |r| == |arena|
    decreases |users|
  {
    if users == [] then arena
    else
      PrefixMembers(users, |users| - 1);
      assert users[|users| - 1] in users;
      UseStep(ReplaceUses(arena, from, to, users[..|users| - 1]), from, to, users[|users| - 1])
  }

  lemma PrefixMembers<T>(s: seq<T>, n: nat)
    requires n <= |s|
    ensures forall u :: u in s[..n] ==> u in s
  {
  }

  /** What `replace_instr_uses` does to instruction `x`: a listed user has its `from`
      operands swapped for `to`, `to`'s users list gains the listed users in order,
      and nothing else about `x` changes. */
  ghost predicate RedirectedAt(a: seq<Instr>, r: seq<Instr>, from: InstrId, to: InstrId,
                               users: seq<InstrId>, x: InstrId)
    requires x < |a| && x < |r|
  {
    SameKind(r[x], a[x]) &&
    r[x].Operands() == (if x in users then Swap(a[x].Operands(), from, to) else a[x].Operands()) &&
    r[x].users == (if x == to then a[x].users + users else a[x].users)
  }

  ghost predicate Redirected(a: seq<Instr>, r: seq<Instr>, from: InstrId, to: InstrId,
                             users: seq<InstrId>) {
    |r| == |a| && forall x: InstrId :: x < |a| ==> RedirectedAt(a, r, from, to, users, x)
  }

  /** One round of the loop touches only the user and `to`. */
  lemma UseStepEffect(p: seq<Instr>, from: InstrId, to: InstrId, u: InstrId, x: InstrId)
    requires u < |p| && to < |p| && x < |p|
    ensures SameKind(UseStep(p, from, to, u)[x], p[x])
    ensures UseStep(p, from, to, u)[x].Operands() ==
      (if x == u then Swap(p[x].Operands(), from, to) else p[x].Operands())
    ensures UseStep(p, from, to, u)[x].users == (if x == to then p[x].users + [u] else p[x].users)
  {
    ReplaceOperandSwaps(p[x], from, to);
  }

  /** Nothing is missed and nothing else is touched: the loop's whole effect. */
  lemma {:induction false} ReplaceUsesEffect(arena: seq<Instr>, from: InstrId, to: InstrId,
                                             users: seq<InstrId>)
    requires to < |arena| && forall u :: u in users ==> u < |arena|
    ensures Redirected(arena, ReplaceUses(arena, from, to, users), from, to, users)
    decreases |users|
  {
    var r := ReplaceUses(arena, from, to, users);
    if users != [] {
      var pre := users[..|users| - 1];
      var u := users[|users| - 1];
      assert users == pre + [u];
      assert u in users;
      PrefixMembers(users, |users| - 1);
      ReplaceUsesEffect(arena, from, to, pre);
      var p := ReplaceUses(arena, from, to, pre);
      assert r == UseStep(p, from, to, u);
      forall x: InstrId | x < |arena| ensures RedirectedAt(arena, r, from, to, users, x) {
        assert RedirectedAt(arena, p, from, to, pre, x);
        UseStepEffect(p, from, to, u, x);
        assert x in users <==> x in pre || x == u;
        if x == u {
          SwapTwice(arena[x].Operands(), from, to);
          assert r[x].Operands() == Swap(arena[x].Operands(), from, to);
        } else {
          assert r[x].Operands() == p[x].Operands();
        }
        if x == to {
          assert r[x].users == arena[x].users + pre + [u];
          Walks.ConcatAssoc3(arena[x].users, pre, [u]);
        }
      }
    }
  }

  /** Redirecting users keeps the arena closed. */
  lemma ReplaceUsesOk(arena: seq<Instr>, from: InstrId, to: InstrId, users: seq<InstrId>)
    requires ArenaOk(arena)
    requires to < |arena| && forall u :: u in users ==> u < |arena|
    ensures ArenaOk(ReplaceUses(arena, from, to, users))
  {
    var r := ReplaceUses(arena, from, to, users);
    ReplaceUsesEffect(arena, from, to, users);
    forall x, op | 0 <= x < |r| && op in r[x].Operands() ensures op < |r| {
      assert RedirectedAt(arena, r, from, to, users, x);
      if x in users {
        SwapMember(arena[x].Operands(), from, to, op);
      }
    }
    forall x, u | 0 <= x < |r| && u in r[x].users ensures u < |r| {
      assert RedirectedAt(arena, r, from, to, users, x);
    }
    forall x | 0 <= x < |r| && r[x].BinInstr? ensures IsBinary(r[x].kind) {
      assert RedirectedAt(arena, r, from, to, users, x);
    }
  }

  /** With consistent users lists, redirecting all users of `from` to a different
      `to` keeps them consistent and leaves `from` without any use. */
  lemma ReplaceUsesDefUse(arena: seq<Instr>, from: InstrId, to: InstrId)
    requires ArenaOk(arena) && UsesRecorded(arena)
    requires from < |arena| && to < |arena| && from != to
    ensures UsesRecorded(ReplaceUses(arena, from, to, arena[from].users))
    ensures forall y :: 0 <= y < |arena| ==>
      from !in ReplaceUses(arena, from, to, arena[from].users)[y].Operands()
  {
    var users := arena[from].users;
    var r := ReplaceUses(arena, from, to, users);
    ReplaceUsesEffect(arena, from, to, users);
    forall x, op | 0 <= x < |r| && op in r[x].Operands() && op < |r| ensures x in r[op].users {
      assert RedirectedAt(arena, r, from, to, users, x);
      assert RedirectedAt(arena, r, from, to, users, op);
      if x in users {
        SwapMember(arena[x].Operands(), from, to, op);
      }
    }
    forall y | 0 <= y < |arena| ensures from !in r[y].Operands() {
      assert RedirectedAt(arena, r, from, to, users, y);
      if y in users {
        SwapRemoves(arena[y].Operands(), from, to);
      } else {
        assert from !in arena[y].Operands();
      }
    }
  }

  ghost predicate Below(s: seq<InstrId>, n: nat) {
    forall u :: u in s ==> u < n
  }

  /** One more round of the loop. */
  lemma ReplaceUsesSnoc(arena: seq<Instr>, from: InstrId, to: InstrId, users: seq<InstrId>, i: nat)
    requires to < |arena| && forall u :: u in users ==> u < |arena|
    requires i < |users|
    ensures Below(users[..i + 1], |arena|) && Below(users[..i], |arena|)
    ensures users[i] in users
    ensures ReplaceUses(arena, from, to, users[..i + 1]) ==
      UseStep(ReplaceUses(arena, from, to, users[..i]), from, to, users[i])
  {
    PrefixMembers(users, i + 1);
    PrefixMembers(users, i);
    assert users[..i + 1][..i] == users[..i];
  }

  /** `replace_instr_uses(from, to)`: the loop over `from`'s users list, proved to
      produce `ReplaceUses`. The list is read once, before the loop. */
  method ReplaceInstrUses(f: Function, from: InstrId, to: InstrId)
    requires ArenaOk(f.arena) && from < |f.arena| && to < |f.arena|
    modifies f
    ensures f.arena == ReplaceUses(old(f.arena), from, to, old(f.arena[from].users))
    ensures f.blocks == old(f.blocks)
  {
    ghost var a0 := f.arena;
    var users := f.arena[from].users;
    assert forall u :: u in users ==> u < |a0|;
    for i := 0 to |users|
      invariant |f.arena| == |a0|
      invariant Below(users[..i], |a0|)
      invariant f.arena == ReplaceUses(a0, from, to, users[..i])
      invariant f.blocks == old(f.blocks)
    {
      assert users[i] in users;
      ReplaceUsesSnoc(a0, from, to, users, i);
      f.ReplaceOperandOf(users[i], from, to);
      f.AddUserTo(to, users[i]);
    }
    assert users[..|users|] == users;
  }

  /** What a rule decides for the instruction under the cursor. */
  datatype Rewrite = Keep | Forward(to: InstrId) | NewConst(value: u64)

  /** A fresh constant with no users, appended to the arena. */
  lemma ExtendOk(arena: seq<Instr>, v: u64)
    requires ArenaOk(arena)
    ensures ArenaOk(arena + [ConstInstr(v, [])])
    ensures UsesRecorded(arena) ==> UsesRecorded(arena + [ConstInstr(v, [])])
  {
    var a1 := arena + [ConstInstr(v, [])];
    assert forall x :: 0 <= x < |arena| ==> a1[x] == arena[x];
  }

  /** The arena and the block's instruction list after one rewrite at `pos`. In both
      real rewrites the cursor afterwards is `pos`: the new constant, or the
      instruction that followed the erased one. */
  function ApplyRewrite(arena: seq<Instr>, code: seq<InstrId>, pos: nat, rw: Rewrite)
    : (r: (seq<Instr>, seq<InstrId>))
    requires ArenaOk(arena) && CodeIn(arena, code) && pos < |code|
    requires rw.Forward? ==> rw.to < |arena|
    ensures ArenaOk(r.0) && CodeIn(r.0, r.1) && |arena| <= |r.0|
    ensures rw.Keep? ==> r == (arena, code)
    ensures rw.Forward? ==> |r.0| == |arena| && |r.1| + 1 == |code|
    ensures rw.NewConst? ==> |r.0| == |arena| + 1 && |r.1| == |code|
  {
    var id := code[pos];
    match rw
    case Keep => (arena, code)
    case Forward(x) =>
      ReplaceUsesOk(arena, id, x, arena[id].users);
      SpliceIn(arena, code, pos, []);
      assert code[..pos] + [] == code[..pos];
      (ReplaceUses(arena, id, x, arena[id].users), code[..pos] + code[pos + 1..])
    case NewConst(v) =>
      var a1 := arena + [ConstInstr(v, [])];
      ExtendOk(arena, v);
      ReplaceUsesOk(a1, id, |arena|, a1[id].users);
      SpliceIn(a1, code, pos, [|arena|]);
      (ReplaceUses(a1, id, |arena|, a1[id].users), code[..pos] + [|arena|] + code[pos + 1..])
  }

  /** Splicing instructions of the arena into a block keeps it inside the arena. */
  lemma SpliceIn(arena: seq<Instr>, code: seq<InstrId>, pos: nat, mid: seq<InstrId>)
    requires pos < |code| && forall j :: 0 <= j < |code| ==> code[j] < |arena|
    requires forall j :: 0 <= j < |mid| ==> mid[j] < |arena|
    ensures CodeIn(arena, code[..pos] + mid + code[pos + 1..])
  {
    var c := code[..pos] + mid + code[pos + 1..];
    forall j | 0 <= j < |c| ensures c[j] < |arena| {
      if j < pos {
        assert c[j] == code[j];
      } else if j < pos + |mid| {
        assert c[j] == mid[j - pos];
      } else {
        assert c[j] == code[j - |mid| + 1];
      }
    }
  }

  /** Within a block an operand that is itself in the block comes earlier than
      its user, unless the user is a phi: a phi may take a value computed later in
      its own block, as in a loop of a single block. */
  ghost predicate DefsBefore(arena: seq<Instr>, code: seq<InstrId>) {
    forall i, j ::
      (0 <= i < |code| && 0 <= j < |code| && code[j] < |arena| &&
       arena[code[j]].Kind() != KPhi && code[i] in arena[code[j]].Operands()) ==> i < j
  }

  /** A well-formed block: closed arena, distinct instructions, definitions first. */
  ghost predicate BlockOk(arena: seq<Instr>, code: seq<InstrId>) {
    ArenaOk(arena) && CodeIn(arena, code) && Walks.Distinct(code) && DefsBefore(arena, code)
  }

  /** `a` and `b` agree on everything a rule examines at instruction `y`: its class,
      kind and operands, and the class, kind and value of each operand. */
  ghost predicate SameView(a: seq<Instr>, b: seq<Instr>, y: InstrId) {
    y < |a| && y < |b| && SameKind(a[y], b[y]) && a[y].Operands() == b[y].Operands() &&
    forall op :: op in a[y].Operands() ==> op < |a| && op < |b| && SameKind(a[op], b[op])
  }

  /** A rule rewrites only a binary instruction, and may forward only to one of
      its operands. */
  ghost predicate Allowed(arena: seq<Instr>, id: InstrId, rw: Rewrite) {
    id < |arena| && (!rw.Keep? ==> arena[id].BinInstr?) &&
    (rw.Forward? ==> rw.to in arena[id].Operands())
  }

  /** The arena a real rewrite redirects over (with the new constant for `NewConst`)
      and the instruction the users are redirected to. */
  function Base(arena: seq<Instr>, rw: Rewrite): seq<Instr> {
    if rw.NewConst? then arena + [ConstInstr(rw.value, [])] else arena
  }

  function Target(arena: seq<Instr>, rw: Rewrite): InstrId {
    if rw.Forward? then rw.to else |arena|
  }

  /** A real rewrite is one `replace_instr_uses` over the base arena, plus the
      change to the instruction list. */
  lemma RewriteShape(arena: seq<Instr>, code: seq<InstrId>, pos: nat, rw: Rewrite)
    requires ArenaOk(arena) && CodeIn(arena, code) && pos < |code|
    requires rw.Forward? ==> rw.to < |arena|
    requires !rw.Keep?
    ensures |Base(arena, rw)| == (if rw.NewConst? then |arena| + 1 else |arena|)
    ensures forall x :: 0 <= x < |arena| ==> Base(arena, rw)[x] == arena[x]
    ensures Target(arena, rw) < |Base(arena, rw)|
    ensures rw.NewConst? ==> Base(arena, rw)[|arena|] == ConstInstr(rw.value, [])
    ensures Redirected(Base(arena, rw), ApplyRewrite(arena, code, pos, rw).0, code[pos],
                       Target(arena, rw), arena[code[pos]].users)
    ensures rw.Forward? ==> ApplyRewrite(arena, code, pos, rw).1 == code[..pos] + code[pos + 1..]
    ensures rw.NewConst? ==>
      ApplyRewrite(arena, code, pos, rw).1 == code[..pos] + [|arena|] + code[pos + 1..]
  {
    var base := Base(arena, rw);
    assert forall x :: 0 <= x < |arena| ==> base[x] == arena[x];
    assert base[code[pos]] == arena[code[pos]];
    assert forall u :: u in arena[code[pos]].users ==> u < |arena|;
    ReplaceUsesEffect(base, code[pos], Target(arena, rw), arena[code[pos]].users);
  }

  /** A rewrite at `pos` leaves the instruction list before the cursor as it was. */
  lemma RewriteKeepsPrefix(arena: seq<Instr>, code: seq<InstrId>, pos: nat, rw: Rewrite)
    requires ArenaOk(arena) && CodeIn(arena, code) && pos < |code|
    requires rw.Forward? ==> rw.to < |arena|
    ensures var r := ApplyRewrite(arena, code, pos, rw);
      pos <= |r.1| && r.1[..pos] == code[..pos]
  {
    if !rw.Keep? {
      RewriteShape(arena, code, pos, rw);
    }
  }

  /** A rewrite at `pos` leaves every instruction before the cursor, and everything
      a rule sees there, as it was; after a `NewConst` the constant is at `pos`. */
  lemma RewriteKeepsEarlier(arena: seq<Instr>, code: seq<InstrId>, pos: nat, rw: Rewrite)
    requires BlockOk(arena, code) && pos < |code| && Allowed(arena, code[pos], rw)
    ensures var r := ApplyRewrite(arena, code, pos, rw);
      forall j :: 0 <= j < pos ==>
        j < |r.1| && r.1[j] == code[j] && code[j] < |r.0| &&
        SameKind(arena[code[j]], r.0[code[j]]) &&
        (arena[code[j]].Kind() != KPhi ==> SameView(arena, r.0, code[j]))
    ensures var r := ApplyRewrite(arena, code, pos, rw);
      rw.NewConst? ==> |r.1| == |code| && r.1[pos] == |arena| && r.0[|arena|].ConstInstr?
  {
    var r := ApplyRewrite(arena, code, pos, rw);
    if !rw.Keep? {
      var from := code[pos];
      var base := Base(arena, rw);
      var to := Target(arena, rw);
      var users := arena[from].users;
      RewriteShape(arena, code, pos, rw);
      forall j | 0 <= j < pos
        ensures j < |r.1| && r.1[j] == code[j] && code[j] < |r.0| &&
          SameKind(arena[code[j]], r.0[code[j]]) &&
          (arena[code[j]].Kind() != KPhi ==> SameView(arena, r.0, code[j]))
      {
        var y := code[j];
        assert RedirectedAt(base, r.0, from, to, users, y);
        if arena[y].Kind() != KPhi {
          assert from !in arena[y].Operands();
          SwapAbsent(arena[y].Operands(), from, to);
          forall op | op in arena[y].Operands()
            ensures op < |arena| && op < |r.0| && SameKind(arena[op], r.0[op])
          {
            assert RedirectedAt(base, r.0, from, to, users, op);
          }
        }
      }
      if rw.NewConst? {
        assert RedirectedAt(base, r.0, from, to, users, |arena|);
      }
    }
  }

  /** After swapping `from` for a different `to`, `from` is gone. */
  lemma SwapRemoves(s: seq<InstrId>, from: InstrId, to: InstrId)
    requires from != to
    ensures from !in Swap(s, from, to)
  {
  }

  /** Swapping an absent entry changes nothing. */
  lemma SwapAbsent(s: seq<InstrId>, from: InstrId, to: InstrId)
    requires from !in s
    ensures Swap(s, from, to) == s
  {
  }

  /** A rewrite keeps the block well formed. */
  lemma RewriteKeepsBlock(arena: seq<Instr>, code: seq<InstrId>, pos: nat, rw: Rewrite)
    requires BlockOk(arena, code) && pos < |code| && Allowed(arena, code[pos], rw)
    ensures BlockOk(ApplyRewrite(arena, code, pos, rw).0, ApplyRewrite(arena, code, pos, rw).1)
  {
    if !rw.Keep? {
      var r := ApplyRewrite(arena, code, pos, rw);
      RewriteShape(arena, code, pos, rw);
      RewriteKeepsDistinct(arena, code, pos, rw);
      if rw.Forward? {
        ForwardKeepsOrder(arena, code, pos, rw.to, r.0);
      } else {
        NewConstKeepsOrder(arena, code, pos, rw.value, r.0);
      }
    }
  }

  lemma RewriteKeepsDistinct(arena: seq<Instr>, code: seq<InstrId>, pos: nat, rw: Rewrite)
    requires ArenaOk(arena) && CodeIn(arena, code) && Walks.Distinct(code) && pos < |code|
    requires rw.Forward? ==> rw.to < |arena|
    ensures Walks.Distinct(ApplyRewrite(arena, code, pos, rw).1)
  {
    var c := ApplyRewrite(arena, code, pos, rw).1;
    if rw.Forward? {
      forall i, j | 0 <= i < j < |c| ensures c[i] != c[j] {
        var i0 := if i < pos then i else i + 1;
        var j0 := if j < pos then j else j + 1;
        assert c[i] == code[i0] && c[j] == code[j0];
      }
    } else if rw.NewConst? {
      forall i, j | 0 <= i < j < |c| ensures c[i] != c[j] {
        if i != pos && j != pos {
          assert c[i] == code[i] && c[j] == code[j];
        } else if i == pos {
          assert c[j] == code[j];
        } else {
          assert c[i] == code[i];
        }
      }
    }
  }

  /** One use in the block after a `Forward` rewrite: user `code[j0]` now names
      `code[i0]`, which is one of its old operands or the forwarding target. */
  lemma ForwardUse(arena: seq<Instr>, code: seq<InstrId>, pos: nat, to: InstrId,
                   r: seq<Instr>, i0: nat, j0: nat)
    requires BlockOk(arena, code) && pos < |code| && to in arena[code[pos]].Operands()
    requires arena[code[pos]].BinInstr?
    requires i0 < |code| && j0 < |code| && i0 != pos && j0 != pos && code[j0] < |r|
    requires RedirectedAt(arena, r, code[pos], to, arena[code[pos]].users, code[j0])
    requires r[code[j0]].Kind() != KPhi && code[i0] in r[code[j0]].Operands()
    ensures i0 < j0
  {
    var y := code[j0];
    var from := code[pos];
    if code[i0] !in arena[y].Operands() {
      SwapMember(arena[y].Operands(), from, to, code[i0]);
      assert code[i0] == to;
      assert i0 < pos;
      assert from in arena[y].Operands();
      assert pos < j0;
    }
  }

  /** Position `i` of a sequence with position `pos` removed. */
  lemma DropIndex<T>(s: seq<T>, pos: nat, i: nat)
    requires pos < |s| && i + 1 < |s|
    ensures (s[..pos] + s[pos + 1..])[i] == s[if i < pos then i else i + 1]
  {
  }

  /** Forwarding to an operand keeps definitions ahead of their uses: the users now
      name the operand, which sits before the erased instruction. */
  lemma ForwardKeepsOrder(arena: seq<Instr>, code: seq<InstrId>, pos: nat, to: InstrId,
                          r: seq<Instr>)
    requires BlockOk(arena, code) && pos < |code| && to in arena[code[pos]].Operands()
    requires arena[code[pos]].BinInstr?
    requires Redirected(arena, r, code[pos], to, arena[code[pos]].users)
    ensures DefsBefore(r, code[..pos] + code[pos + 1..])
  {
    var c := code[..pos] + code[pos + 1..];
    forall i, j | 0 <= i < |c| && 0 <= j < |c| && c[j] < |r| && r[c[j]].Kind() != KPhi &&
                  c[i] in r[c[j]].Operands()
      ensures i < j
    {
      var i0 := if i < pos then i else i + 1;
      var j0 := if j < pos then j else j + 1;
      DropIndex(code, pos, i);
      DropIndex(code, pos, j);
      assert RedirectedAt(arena, r, code[pos], to, arena[code[pos]].users, code[j0]);
      ForwardUse(arena, code, pos, to, r, i0, j0);
    }
  }

  /** One use in the block after a `NewConst` rewrite: user `y` (not the new constant)
      now names `op`, which is the new constant `k` or one of `y`'s old operands. */
  lemma NewConstUse(arena: seq<Instr>, code: seq<InstrId>, pos: nat, k: InstrId, v: u64,
                    r: seq<Instr>, i: nat, j: nat, op: InstrId)
    requires BlockOk(arena, code)
    requires pos < |code| && j < |code| && i < |code| && j != pos && k == |arena|
    requires |r| > k && r[code[j]].Kind() != KPhi && op in r[code[j]].Operands()
    requires RedirectedAt(arena + [ConstInstr(v, [])], r, code[pos], k, arena[code[pos]].users,
                          code[j])
    requires (i == pos && op == k) || (i != pos && op == code[i])
    ensures i < j
  {
    var y := code[j];
    var from := code[pos];
    assert (arena + [ConstInstr(v, [])])[y] == arena[y];
    assert k !in arena[y].Operands();
    if i == pos {
      assert from in arena[y].Operands() by {
        if from !in arena[y].Operands() {
          SwapAbsent(arena[y].Operands(), from, k);
        }
      }
    } else if op !in arena[y].Operands() {
      SwapMember(arena[y].Operands(), from, k, op);
    }
  }

  /** Forwarding to a new constant placed at the cursor keeps definitions ahead of
      their uses. */
  lemma NewConstKeepsOrder(arena: seq<Instr>, code: seq<InstrId>, pos: nat, v: u64,
                           r: seq<Instr>)
    requires BlockOk(arena, code) && pos < |code|
    requires Redirected(arena + [ConstInstr(v, [])], r, code[pos], |arena|, arena[code[pos]].users)
    ensures DefsBefore(r, code[..pos] + [|arena|] + code[pos + 1..])
  {
    var base := arena + [ConstInstr(v, [])];
    var c := code[..pos] + [|arena|] + code[pos + 1..];
    var from := code[pos];
    var users := arena[from].users;
    var k := |arena|;
    assert RedirectedAt(base, r, from, k, users, k);
    assert r[k].Operands() == [];
    assert forall j :: 0 <= j < |c| && j != pos ==> c[j] == code[j];
    forall i, j | 0 <= i < |c| && 0 <= j < |c| && c[j] < |r| && r[c[j]].Kind() != KPhi &&
                  c[i] in r[c[j]].Operands()
      ensures i < j
    {
      assert j != pos;
      assert RedirectedAt(base, r, from, k, users, code[j]);
      NewConstUse(arena, code, pos, k, v, r, i, j, c[i]);
    }
  }

  /** A rewrite keeps the users lists consistent and leaves the rewritten instruction
      without any use, so erasing it leaves no dangling operand. Operands are never
      redirected to an instruction of `gone`. */
  lemma RewriteKeepsUses(arena: seq<Instr>, code: seq<InstrId>, pos: nat, rw: Rewrite,
                         gone: set<InstrId>)
    requires ArenaOk(arena) && CodeIn(arena, code) && UsesRecorded(arena)
    requires pos < |code| && Allowed(arena, code[pos], rw) && !rw.Keep?
    requires rw.Forward? ==> rw.to != code[pos]
    requires Unreferenced(arena, gone) && forall x :: x in gone ==> x < |arena|
    ensures UsesRecorded(ApplyRewrite(arena, code, pos, rw).0)
    ensures Unreferenced(ApplyRewrite(arena, code, pos, rw).0, gone + {code[pos]})
  {
    var r := ApplyRewrite(arena, code, pos, rw);
    var from := code[pos];
    var base := Base(arena, rw);
    var to := Target(arena, rw);
    var users := arena[from].users;
    RewriteShape(arena, code, pos, rw);
    if rw.Forward? {
      assert to != from;
    } else {
      ExtendOk(arena, rw.value);
    }
    assert base[from] == arena[from];
    assert r.0 == ReplaceUses(base, from, to, base[from].users);
    ReplaceUsesDefUse(base, from, to);
    assert to !in gone;
    forall x, op | 0 <= x < |r.0| && op in r.0[x].Operands() ensures op !in gone + {from} {
      assert RedirectedAt(base, r.0, from, to, users, x);
      if x < |arena| {
        assert base[x] == arena[x];
        if x in users {
          SwapMember(arena[x].Operands(), from, to, op);
        }
      }
    }
  }

  /** Within a well-formed block no instruction is its own operand, so a
      forwarding rewrite never redirects an instruction to itself. */
  lemma ForwardNotSelf(arena: seq<Instr>, code: seq<InstrId>, pos: nat, to: InstrId)
    requires BlockOk(arena, code) && pos < |code| && to in arena[code[pos]].Operands()
    requires arena[code[pos]].BinInstr?
    ensures to != code[pos]
  {
  }

  /** Every instruction of the block before a rewrite is still there afterwards,
      except the rewritten one; the new constant is not in the old block. */
  lemma RewriteElems(arena: seq<Instr>, code: seq<InstrId>, pos: nat, rw: Rewrite)
    requires ArenaOk(arena) && CodeIn(arena, code) && pos < |code|
    requires rw.Forward? ==> rw.to < |arena|
    ensures var c := ApplyRewrite(arena, code, pos, rw).1;
      forall x :: x in code ==> x == code[pos] || x in c
    ensures rw.NewConst? ==> |arena| !in code
  {
    if !rw.Keep? {
      RewriteShape(arena, code, pos, rw);
      if rw.Forward? {
        SpliceElems(code, pos, []);
        assert code[..pos] + [] == code[..pos];
      } else {
        SpliceElems(code, pos, [|arena|]);
      }
    }
  }

  /** Replacing the element at `pos` by `mid` keeps every other element. */
  lemma SpliceElems<T>(s: seq<T>, pos: nat, mid: seq<T>)
    requires pos < |s|
    ensures forall x :: x in s ==> x == s[pos] || x in s[..pos] + mid + s[pos + 1..]
  {
    assert s == s[..pos] + [s[pos]] + s[pos + 1..];
  }

  /** After a run that turned block `code` into `r1` over the arena `r0`: the users
      lists are consistent, and neither an instruction of `gone` nor one the run
      removed from the block is an operand any more. */
  ghost predicate KeptUses(code: seq<InstrId>, r0: seq<Instr>, r1: seq<InstrId>, gone: set<InstrId>) {
    UsesRecorded(r0) && Unreferenced(r0, gone + (Walks.Elems(code) - Walks.Elems(r1)))
  }

  /** What a run drops from a block is what its first step dropped and what the
      rest dropped. */
  lemma KeptUsesAcross(code: seq<InstrId>, mid: seq<InstrId>, r0: seq<Instr>,
                       r1: seq<InstrId>, x: InstrId, gone: set<InstrId>)
    requires forall y :: y in code ==> y == x || y in mid
    requires KeptUses(mid, r0, r1, gone + {x})
    ensures KeptUses(code, r0, r1, gone)
  {
    assert gone + (Walks.Elems(code) - Walks.Elems(r1)) <=
           (gone + {x}) + (Walks.Elems(mid) - Walks.Elems(r1));
    UnreferencedMono(r0, (gone + {x}) + (Walks.Elems(mid) - Walks.Elems(r1)),
                     gone + (Walks.Elems(code) - Walks.Elems(r1)));
  }

  /** Fewer forbidden operands are still forbidden. */
  lemma UnreferencedMono(arena: seq<Instr>, gone: set<InstrId>, less: set<InstrId>)
    requires Unreferenced(arena, gone) && less <= gone
    ensures Unreferenced(arena, less)
  {
  }

  /** A longer arena still holds every instruction of a block. */
  lemma CodeInGrows(arena: seq<Instr>, longer: seq<Instr>, codes: seq<seq<InstrId>>)
    requires |arena| <= |longer| && forall b :: 0 <= b < |codes| ==> CodeIn(arena, codes[b])
    ensures forall b :: 0 <= b < |codes| ==> CodeIn(longer, codes[b])
  {
  }

  /** The blocks the passes visit: reverse postorder from the first block names
      each block of the graph at most once. */
  lemma RpoBlocks(g: Cfg.Graph)
    requires Cfg.Wf(g) && 0 < |g|
    ensures forall k :: 0 <= k < |Rpo.RpoOrder(g, 0)| ==> Rpo.RpoOrder(g, 0)[k] < |g|
    ensures Walks.Distinct(Rpo.RpoOrder(g, 0))
  {
    Rpo.RpoOrderIsReachSet(g, 0);
    forall k | 0 <= k < |Rpo.RpoOrder(g, 0)| ensures Rpo.RpoOrder(g, 0)[k] < |g| {
      assert Rpo.RpoOrder(g, 0)[k] in Walks.Elems(Rpo.RpoOrder(g, 0));
    }
  }

  /** The instructions that left some block between two snapshots of the block list. */
  ghost function Dropped(before: seq<seq<InstrId>>, after: seq<seq<InstrId>>): set<InstrId> {
    set b, x | 0 <= b < |before| && b < |after| && x in before[b] && x !in after[b] :: x
  }

  /** What a visit of block `b` drops, plus what the later visits drop, covers
      everything dropped overall, once `b` is not visited again. */
  lemma DroppedStep(codes: seq<seq<InstrId>>, b: nat, c: seq<InstrId>, final: seq<seq<InstrId>>)
    requires b < |codes| && |final| == |codes| && final[b] == c
    ensures Dropped(codes, final) <=
      (Walks.Elems(codes[b]) - Walks.Elems(c)) + Dropped(codes[b := c], final)
  {
    forall x | x in Dropped(codes, final)
      ensures x in (Walks.Elems(codes[b]) - Walks.Elems(c)) + Dropped(codes[b := c], final)
    {
      var k :| 0 <= k < |codes| && k < |final| && x in codes[k] && x !in final[k];
      if k != b {
        assert codes[b := c][k] == codes[k];
      }
    }
  }

  /** The order both passes visit blocks in: reverse postorder from the first block. */
  ghost function PassOrder(g: Cfg.Graph): (o: seq<Cfg.BlockId>)
    requires Cfg.Wf(g) && 0 < |g|
    ensures o == Rpo.RpoOrder(g, 0)
    ensures (forall k :: 0 <= k < |o| ==> o[k] < |g|) && Walks.Distinct(o)
  {
    RpoBlocks(g);
    Rpo.RpoOrder(g, 0)
  }
}
