/** Dominance-based check elimination (Passes/CheckElimination.cpp). */
module CheckElim {
  import opened Util
  import opened Cfg
  import opened Rpo
  import opened Ir
  import opened Dominators
  import opened Semantics
  import opened GraphEdits
  import opened CheckTheory
  import opened CheckGuards

  // ---------- what the pass relies on ----------

  /** Recorded dominators are strict dominators; they may have been recorded before edges were cut. */
  ghost predicate RecordsHold(es: Edges, s: Block, info: Info) {
    forall d, b :: info.Records(d, b) ==> SDom(es, s, d, b)
  }

  /** The block that `user` stands in is, or has among its recorded dominators, the successor `k` of the guard. */
  ghost predicate Guarded(p: Prog, info: Info, g: Id, k: nat, user: Id)
    requires g in p.code && user in p.code
  {
    k < |p.g.Succs(p.code[g].bb)| &&
    var succ := p.g.Succs(p.code[g].bb)[k];
    succ == p.code[user].bb || info.Records(succ, p.code[user].bb)
  }

  /** Where the pass would let an outcome of `g` remove an equal check, the block behind that outcome is entered
      from the block of `g` only, apart from edges that come back from what it dominates. */
  ghost predicate GuardsSound(p: Prog, s: Block, info: Info) {
    forall g, u, k: nat ::
      (g in p.code && u in p.code && g != u && k < 2 && IsCheck(p.code[g].opcode) &&
       ChecksEqual(p, g, u) && Guarded(p, info, g, k, u)) ==> GuardSound(p, s, g, k)
  }

  ghost predicate GuardSound(p: Prog, s: Block, g: Id, k: nat)
    requires g in p.code
  {
    k < |p.g.Succs(p.code[g].bb)| && SoleEntry(p.Edges(), s, p.code[g].bb, p.g.Succs(p.code[g].bb)[k])
  }

  /** Recorded users exist, and a check is recorded only with its operands. */
  ghost predicate UsersRight(p: Prog, users: Users) {
    forall x, v :: v in UsersOf(users, x) ==> v in p.code && (IsCheck(p.code[v].opcode) ==> x in p.Inputs(v))
  }

  /** Outcome `k` of the check `u` is the only one left. */
  ghost predicate KeptEdge(p0: Prog, p: Prog, u: Id, k: nat)
    requires u in p0.code
  {
    var b := p0.code[u].bb;
    k < 2 && |p0.g.Succs(b)| == 2 && p.g.Succs(b) == [p0.g.Succs(b)[k]]
  }

  /** `p` is what is left of `p0` after some checks have gone, each with one of its two edges, and nothing else. */
  ghost predicate Left(p0: Prog, p: Prog) {
    && p.Edges() <= p0.Edges()
    && (forall v :: v in p.code ==> LeftInstr(p0, p, v))
    && (forall u :: u in p.code && IsCheck(p.code[u].opcode) ==> p.g.Succs(p.code[u].bb) == p0.g.Succs(p.code[u].bb))
    && (forall u :: u in p0.code && u !in p.code ==> LeftOut(p0, p, u))
    && (forall b :: (forall u :: u in p0.code && u !in p.code ==> p0.code[u].bb != b) ==> p.g.Succs(b) == p0.g.Succs(b))
    && (forall b :: p.Body(b) <= p0.Body(b))
  }

  ghost predicate LeftOut(p0: Prog, p: Prog, u: Id)
    requires u in p0.code
  {
    IsCheck(p0.code[u].opcode) && (KeptEdge(p0, p, u, 0) || KeptEdge(p0, p, u, 1))
  }

  ghost predicate LeftInstr(p0: Prog, p: Prog, v: Id)
    requires v in p.code
  {
    && v in p0.code && p.code[v].opcode == p0.code[v].opcode && p.code[v].bb == p0.code[v].bb &&
       p.code[v].ty == p0.code[v].ty
    && (!p.code[v].opcode.Phi? ==> p.code[v] == p0.code[v])
  }

  /** The records say what is so, and no guard is trusted wrongly. */
  ghost predicate Trusted(p0: Prog, s: Block, info: Info) {
    RecordsHold(p0.Edges(), s, info) && GuardsSound(p0, s, info)
  }

  /** No removed check ever left by the edge that has gone with it. */
  ghost predicate RemovedDecided(p0: Prog, p: Prog, s: Block) {
    forall u, k: nat :: u in p0.code && u !in p.code && KeptEdge(p0, p, u, k) ==> Decided(p0, s, u, k)
  }

  /** Why the pass takes a check out and leaves it its outcome `k`: an equal check guards it by its own outcome `k`, or
      it checks the null value. */
  ghost predicate Reason(p0: Prog, info: Info, u: Id, k: nat)
    requires u in p0.code
  {
    || (exists g :: g in p0.code && g != u && SameCheck(p0.code, g, u) && Guarded(p0, info, g, k, u))
    || (k == 0 && p0.code[u].opcode.CheckNull? && ReadsNull(p0, u))
  }

  ghost predicate ReadsNull(p: Prog, u: Id) {
    exists x :: x in p.Inputs(u) && x in p.code && p.code[x].opcode.NullInstr?
  }

  /** Nothing has gone without a reason. */
  ghost predicate Justified(p0: Prog, p: Prog, info: Info) {
    forall u :: u in p0.code && u !in p.code ==> JustifiedAt(p0, p, info, u)
  }

  ghost predicate JustifiedAt(p0: Prog, p: Prog, info: Info, u: Id)
    requires u in p0.code
  {
    || (KeptEdge(p0, p, u, 0) && Reason(p0, info, u, 0))
    || (KeptEdge(p0, p, u, 1) && Reason(p0, info, u, 1))
  }

  /** What holds before and after every removal. */
  ghost predicate ElimInv(p0: Prog, s: Block, info: Info, p: Prog, users: Users) {
    && WellFormed(p0, s) && WellFormed(p, s) && Left(p0, p) && UsersRight(p, users) && Justified(p0, p, info)
    && (Trusted(p0, s, info) ==> SameRuns(p0, p, s))
    && (RemovedDecided(p0, p, s) ==> SameRuns(p0, p, s))
  }

  // ---------- one removal ----------

  function WithoutUser(users: Users, xs: seq<Id>, u: Id): Users {
    map x | x in users :: if x in xs then users[x] - {u} else users[x]
  }

  /** The user sets after a check has gone. */
  function UsersAfter(p: Prog, users: Users, u: Id, i: nat): Users
    requires u in p.code && i < |p.g.Succs(p.BlockOf(u))|
  {
    var b := p.BlockOf(u);
    var c := p.g.Succs(b)[i];
    WithoutUser(if b in p.g.Preds(c) then ErasePhiUsers(p.code, users, p.Phis(c), FirstIndex(p.g.Preds(c), b))
                else users,
                p.Inputs(u), u)
  }

  lemma UsersAfterShrink(p: Prog, users: Users, u: Id, i: nat, x: Id)
    requires u in p.code && i < |p.g.Succs(p.BlockOf(u))|
    ensures UsersOf(UsersAfter(p, users, u, i), x) <= UsersOf(users, x)
    ensures x in p.Inputs(u) ==> u !in UsersOf(UsersAfter(p, users, u, i), x)
  {
  }

  lemma UsersStayRight(p: Prog, s: Block, users: Users, u: Id, i: nat)
    requires WellFormed(p, s) && UsersRight(p, users) && u in p.code && IsCheck(p.code[u].opcode) && i < 2
    requires i < |p.g.Succs(p.BlockOf(u))|
    ensures UsersRight(DropCheck(p, u, i), UsersAfter(p, users, u, i))
  {
    hide WellFormed, DropCheck, UsersAfter;
    DropCheckFacts(p, s, u, i);
    hide CutEdge;
    var p', users' := DropCheck(p, u, i), UsersAfter(p, users, u, i);
    forall x, v | v in UsersOf(users', x) ensures v in p'.code && (IsCheck(p'.code[v].opcode) ==> x in p'.Inputs(v)) {
      UsersAfterShrink(p, users, u, i, x);
      assert v in UsersOf(users, x);
    }
  }

  /** Checks stand in different blocks. */
  lemma OtherBlock(p0: Prog, s: Block, p: Prog, u: Id, v: Id)
    requires WellFormed(p, s) && Left(p0, p) && u in p.code && IsCheck(p.code[u].opcode)
    requires v in p0.code && v !in p.code
    ensures p0.code[v].bb != p.code[u].bb
  {
    hide WellFormed, Ir.Prog.Edges;
    CheckIsPlaced(p, s, u);
    assert LeftOut(p0, p, v);
  }

  /** The edges that had gone stay gone, and one more goes. */
  lemma EdgesAfterDrop(p0: Prog, s: Block, p: Prog, u: Id, i: nat, v: Id)
    requires WellFormed(p, s) && Left(p0, p) && u in p.code && IsCheck(p.code[u].opcode) && i < 2
    requires v in p0.code && v !in DropCheck(p, u, i).code
    ensures v == u ==> KeptEdge(p0, DropCheck(p, u, i), u, 1 - i)
    ensures v != u ==> forall k: nat :: KeptEdge(p0, DropCheck(p, u, i), v, k) <==> KeptEdge(p0, p, v, k)
    ensures LeftOut(p0, DropCheck(p, u, i), v)
  {
    hide WellFormed, DropCheck, Ir.Prog.Edges;
    CheckIsPlaced(p, s, u);
    DropCheckFacts(p, s, u, i);
    CutEdgeFacts(p, p.code[u].bb, i);
    hide CutEdge;
    assert LeftInstr(p0, p, u);
    if v != u {
      OtherBlock(p0, s, p, u, v);
      assert LeftOut(p0, p, v);
    }
  }

  /** Every check is among the recorded users of what it reads. */
  ghost predicate ChecksCovered(p: Prog, users: Users) {
    forall u, x :: u in p.code && (p.code[u].opcode.CheckNull? || p.code[u].opcode.CheckBounds?) && x in p.Inputs(u) ==>
                     u in UsersOf(users, x)
  }

  /** A user that is no phi and not the removed check stays recorded. */
  lemma UserStays(p: Prog, s: Block, users: Users, u: Id, i: nat, v: Id, x: Id)
    requires WellFormed(p, s) && u in p.code && IsCheck(p.code[u].opcode) && i < |p.g.Succs(p.BlockOf(u))|
    requires v in p.code && !p.code[v].opcode.Phi? && v != u && v in UsersOf(users, x)
    ensures v in UsersOf(UsersAfter(p, users, u, i), x)
  {
    var c := p.g.Succs(p.BlockOf(u))[i];
    hide WellFormed;
    PhisAre(p, s, c);
    hide Graph.Succs, Graph.Preds;
  }

  lemma CoveredAfter(p: Prog, s: Block, users: Users, u: Id, i: nat)
    requires WellFormed(p, s) && u in p.code && IsCheck(p.code[u].opcode) && i < 2 && ChecksCovered(p, users)
    ensures i < |p.g.Succs(p.BlockOf(u))|
    ensures ChecksCovered(DropCheck(p, u, i), UsersAfter(p, users, u, i))
  {
    hide WellFormed, DropCheck, UsersAfter;
    CheckIsPlaced(p, s, u);
    DropCheckFacts(p, s, u, i);
    hide CutEdge;
    var p' := DropCheck(p, u, i);
    forall v, x | v in p'.code && (p'.code[v].opcode.CheckNull? || p'.code[v].opcode.CheckBounds?) && x in p'.Inputs(v)
      ensures v in UsersOf(UsersAfter(p, users, u, i), x)
    {
      assert v in p'.code.Keys;
      assert v in p.code && v != u && p'.code[v] == p.code[v];
      assert v in UsersOf(users, x);
      UserStays(p, s, users, u, i, v, x);
    }
  }

  lemma LeftAfterDrop(p0: Prog, s: Block, p: Prog, u: Id, i: nat)
    requires WellFormed(p, s) && Left(p0, p) && u in p.code && IsCheck(p.code[u].opcode) && i < 2
    ensures Left(p0, DropCheck(p, u, i))
  {
    hide WellFormed, DropCheck, Ir.Prog.Edges;
    CheckIsPlaced(p, s, u);
    var p' := DropCheck(p, u, i);
    DropCheckFacts(p, s, u, i);
    DropMirror(p, s, u, i);
    hide CutEdge, Graph.Mirrored, Graph.Closed, PhiArity, SamePairing, Ir.Prog.NoParallelEdges, LeftOut, CheckPlaced;
    hide LeftInstr, Graph.Succs, Prog.Body;
    forall v | v in p'.code ensures LeftInstr(p0, p', v) {
      InstrLeft(p0, s, p, u, i, v);
    }
    forall v | v in p'.code && IsCheck(p'.code[v].opcode)
      ensures p'.g.Succs(p'.code[v].bb) == p0.g.Succs(p'.code[v].bb)
    {
      CheckStays(p, s, u, i, v);
    }
    forall v | v in p0.code && v !in p'.code ensures LeftOut(p0, p', v) {
      EdgesAfterDrop(p0, s, p, u, i, v);
    }
    forall b | forall v :: v in p0.code && v !in p'.code ==> p0.code[v].bb != b ensures p'.g.Succs(b) == p0.g.Succs(b) {
      InstrLeft(p0, s, p, u, i, u);
      OtherEdges(p, s, u, i, b);
    }
  }

  lemma InstrLeft(p0: Prog, s: Block, p: Prog, u: Id, i: nat, v: Id)
    requires WellFormed(p, s) && Left(p0, p) && u in p.code && IsCheck(p.code[u].opcode) && i < 2 && v in p.code
    ensures v in p0.code && p.code[v].bb == p0.code[v].bb
    ensures u !in DropCheck(p, u, i).code
    ensures v != u ==> v in DropCheck(p, u, i).code && LeftInstr(p0, DropCheck(p, u, i), v)
  {
    hide WellFormed, DropCheck, Ir.Prog.Edges, LeftOut;
    CheckIsPlaced(p, s, u);
    DropCheckFacts(p, s, u, i);
    hide CutEdge;
    assert LeftInstr(p0, p, v);
  }

  lemma OtherEdges(p: Prog, s: Block, u: Id, i: nat, b: Block)
    requires WellFormed(p, s) && u in p.code && IsCheck(p.code[u].opcode) && i < 2 && b != p.code[u].bb
    ensures DropCheck(p, u, i).g.Succs(b) == p.g.Succs(b)
  {
    hide WellFormed, DropCheck;
    CheckIsPlaced(p, s, u);
    DropCheckFacts(p, s, u, i);
    CutEdgeFacts(p, p.code[u].bb, i);
    hide CutEdge;
  }

  /** Where runs are the same, a check that is left decides as it did. */
  lemma StillDecided(p0: Prog, s: Block, p: Prog, u: Id, k: nat)
    requires WellFormed(p0, s) && WellFormed(p, s) && Left(p0, p) && SameRuns(p0, p, s)
    requires u in p.code && IsCheck(p.code[u].opcode) && u in p0.code && Decided(p0, s, u, k)
    ensures Decided(p, s, u, k)
  {
    hide WellFormed, Exec, RunTo, VerdictOf, Ir.Prog.Edges;
    var b := p.code[u].bb;
    assert LeftInstr(p0, p, u);
    SameBlock(p0, s, p, u);
    forall w, n | Exec(p, s, w, n).At? && Exec(p, s, w, n).b == b
      ensures VerdictOf(p, w, RunBody(p, w, Exec(p, s, w, n).st, b).env, u) == (k == 0)
    {
      SameBody(p0, p, w, Exec(p, s, w, n).st, b, |p.Body(b)|);
      SameVerdictLeft(p0, p, w, RunBody(p, w, Exec(p, s, w, n).st, b).env, u);
    }
  }

  lemma SameVerdictLeft(p0: Prog, p: Prog, w: World, env: Env, u: Id)
    requires u in p.code && u in p0.code && p.code[u] == p0.code[u]
    ensures VerdictOf(p, w, env, u) == VerdictOf(p0, w, env, u)
  {
  }

  /** The block of a check that is left has lost nothing. */
  lemma SameBlock(p0: Prog, s: Block, p: Prog, u: Id)
    requires WellFormed(p0, s) && WellFormed(p, s) && Left(p0, p) && u in p.code && IsCheck(p.code[u].opcode)
    ensures u in p0.code && p0.code[u] == p.code[u] && p0.Body(p.code[u].bb) == p.Body(p.code[u].bb)
    ensures forall v :: v in p.Body(p.code[u].bb) ==> v in p0.code && v in p.code && p.code[v] == p0.code[v]
  {
    hide WellFormed, Ir.Prog.Edges, LeftOut;
    var b := p.code[u].bb;
    assert LeftInstr(p0, p, u);
    CheckIsPlaced(p, s, u);
    CheckIsPlaced(p0, s, u);
    EdgesAre(p0, s);
    hide Runnable, Ir.Prog.Ssa, Graph.Closed, Graph.Mirrored, PhiArity, Ir.Prog.NoParallelEdges;
    assert Distinct(p0.Body(b));
    var m := |p.Body(b)| - 1;
    assert p0.Body(b)[m] == u;
    forall v | v in p.Body(b) ensures v in p0.code && v in p.code && p.code[v] == p0.code[v] {
      BodyIs(p, s, b, v);
      assert LeftInstr(p0, p, v);
    }
  }

  lemma SameRunsTrans(p0: Prog, p: Prog, p': Prog, s: Block)
    requires SameRuns(p0, p, s) && SameRuns(p, p', s)
    ensures SameRuns(p0, p', s)
  {
    hide Exec;
  }

  /** Fewer checks had to be decided before the last one went. */
  lemma DecidedBefore(p0: Prog, s: Block, p: Prog, u: Id, i: nat)
    requires WellFormed(p, s) && Left(p0, p) && u in p.code && IsCheck(p.code[u].opcode) && i < 2
    requires RemovedDecided(p0, DropCheck(p, u, i), s)
    ensures RemovedDecided(p0, p, s) && u in p0.code && Decided(p0, s, u, 1 - i)
  {
    hide WellFormed, DropCheck, Decided, KeptEdge, LeftOut, Ir.Prog.Edges;
    CheckIsPlaced(p, s, u);
    DropCheckFacts(p, s, u, i);
    hide CutEdge;
    var p' := DropCheck(p, u, i);
    assert LeftInstr(p0, p, u);
    EdgesAfterDrop(p0, s, p, u, i, u);
    assert KeptEdge(p0, p', u, 1 - i);
    forall v, k: nat | v in p0.code && v !in p.code && KeptEdge(p0, p, v, k) ensures Decided(p0, s, v, k) {
      EdgesAfterDrop(p0, s, p, u, i, v);
      assert KeptEdge(p0, p', v, k);
    }
  }

  /** A check that goes for a reason leaves everything gone for a reason. */
  lemma JustifiedAfter(p0: Prog, s: Block, info: Info, p: Prog, u: Id, i: nat)
    requires WellFormed(p, s) && Left(p0, p) && Justified(p0, p, info) && i < 2
    requires u in p.code && u in p0.code && IsCheck(p.code[u].opcode) && Reason(p0, info, u, 1 - i)
    ensures Justified(p0, DropCheck(p, u, i), info)
  {
    hide WellFormed, DropCheck, Reason, KeptEdge, Left;
    DropKeys(p, s, u, i);
    var p' := DropCheck(p, u, i);
    forall v | v in p0.code && v !in p'.code ensures JustifiedAt(p0, p', info, v) {
      EdgesAfterDrop(p0, s, p, u, i, v);
      if v != u {
        assert v !in p'.code.Keys;
        assert JustifiedAt(p0, p, info, v);
      }
    }
  }

  /** Removing a check for a reason keeps the invariant if trust makes it a decided one. */
  lemma DropKeeps(p0: Prog, s: Block, info: Info, p: Prog, users: Users, u: Id, i: nat)
    requires ElimInv(p0, s, info, p, users) && u in p.code && IsCheck(p.code[u].opcode) && i < 2
    requires u in p0.code && Reason(p0, info, u, 1 - i)
    requires Trusted(p0, s, info) ==> Decided(p, s, u, 1 - i)
    ensures i < |p.g.Succs(p.BlockOf(u))|
    ensures ElimInv(p0, s, info, DropCheck(p, u, i), UsersAfter(p, users, u, i))
  {
    hide WellFormed, Left, UsersRight, Trusted, RemovedDecided, SameRuns, Decided, DropCheck, UsersAfter;
    hide Justified, Reason;
    CheckIsPlaced(p, s, u);
    JustifiedAfter(p0, s, info, p, u, i);
    DropWellFormed(p, s, u, i);
    LeftAfterDrop(p0, s, p, u, i);
    UsersStayRight(p, s, users, u, i);
    if Decided(p, s, u, 1 - i) {
      DropKeepsRuns(p, s, u, i);
      if SameRuns(p0, p, s) {
        SameRunsTrans(p0, p, DropCheck(p, u, i), s);
      }
    }
    if RemovedDecided(p0, DropCheck(p, u, i), s) {
      DecidedBefore(p0, s, p, u, i);
      StillDecided(p0, s, p, u, 1 - i);
      DropKeepsRuns(p, s, u, i);
      SameRunsTrans(p0, p, DropCheck(p, u, i), s);
    }
  }

  /** In what is left, a guard that was sound decides the checks it guards. */
  lemma GuardDecides(p0: Prog, s: Block, info: Info, p: Prog, users: Users, g: Id, k: nat, u: Id)
    requires ElimInv(p0, s, info, p, users) && Trusted(p0, s, info) && k < 2
    requires g in p.code && u in p.code && g != u && IsCheck(p.code[g].opcode) && ChecksEqual(p, g, u)
    requires Guarded(p, info, g, k, u)
    ensures Decided(p, s, u, k)
  {
    hide WellFormed, SameRuns, UsersRight, Decided, Dom, ChecksEqual, Ir.Prog.Edges, Info.Records, RemovedDecided;
    hide LeftOut;
    CheckIsPlaced(p, s, g);
    assert LeftInstr(p0, p, g) && LeftInstr(p0, p, u);
    OriginallyEqual(p0, s, p, g, u);
    assert GuardSound(p0, s, g, k);
    var es0, es, S := p0.Edges(), p.Edges(), p.g.Succs(p.code[g].bb)[k];
    SoleEntryLeft(es0, es, s, p.code[g].bb, S);
    if S != p.code[u].bb {
      assert SDom(es0, s, S, p.code[u].bb);
      DomMono(es0, es, s, S, p.code[u].bb);
    } else {
      DomRefl(es, s, S);
    }
    DecidedByGuard(p, s, g, k, u);
  }

  // ---------- exactly when runs are kept ----------

  /** In a run that stays as it was, a removed check leaves by the edge that is left. */
  lemma RemovedLeaves(p0: Prog, s: Block, p: Prog, u: Id, k: nat, w: World, n: nat)
    requires WellFormed(p0, s) && Left(p0, p) && SameRuns(p0, p, s)
    requires u in p0.code && u !in p.code && KeptEdge(p0, p, u, k)
    requires Exec(p0, s, w, n).At? && Exec(p0, s, w, n).b == p0.code[u].bb
    ensures VerdictOf(p0, w, RunBody(p0, w, Exec(p0, s, w, n).st, p0.code[u].bb).env, u) == (k == 0)
  {
    hide WellFormed, RunBody, VerdictOf, Taken, SameRuns, Exec, Ir.Prog.Edges;
    var b, st := p0.code[u].bb, Exec(p0, s, w, n).st;
    assert LeftOut(p0, p, u);
    LeavesByTheRest(p0, p, s, w, n, b, p0.g.Succs(b)[k]);
    TakenTells(p0, s, w, RunBody(p0, w, st, b).env, u, k);
  }

  /** What is left runs as the original did if and only if no removed check ever left by the edge that has gone. */
  lemma RunsKeptExactly(p0: Prog, s: Block, info: Info, p: Prog, users: Users)
    requires ElimInv(p0, s, info, p, users)
    ensures SameRuns(p0, p, s) <==> RemovedDecided(p0, p, s)
  {
    hide WellFormed, Left, UsersRight, Trusted, Exec, RunBody, VerdictOf, KeptEdge;
    if SameRuns(p0, p, s) {
      forall u, k: nat | u in p0.code && u !in p.code && KeptEdge(p0, p, u, k) ensures Decided(p0, s, u, k) {
        forall w, n | Exec(p0, s, w, n).At? && Exec(p0, s, w, n).b == p0.code[u].bb
          ensures VerdictOf(p0, w, RunBody(p0, w, Exec(p0, s, w, n).st, p0.code[u].bb).env, u) == (k == 0)
        {
          RemovedLeaves(p0, s, p, u, k, w, n);
        }
      }
    }
  }

  lemma SoleEntryLeft(es0: Edges, es: Edges, s: Block, b: Block, c: Block)
    requires es <= es0 && SoleEntry(es0, s, b, c)
    ensures SoleEntry(es, s, b, c)
  {
    forall u: Block | (u, c) in es && u != b ensures Dom(es, s, c, u) {
      DomMono(es0, es, s, c, u);
    }
  }

  /** Checks that compare equal in what is left did so in the original graph. */
  lemma OriginallyEqual(p0: Prog, s: Block, p: Prog, g: Id, u: Id)
    requires WellFormed(p, s) && Left(p0, p) && ChecksEqual(p, g, u) && IsCheck(p.code[g].opcode)
    ensures ChecksEqual(p0, g, u)
  {
    hide WellFormed, Ir.Prog.Edges;
    assert LeftInstr(p0, p, g) && LeftInstr(p0, p, u);
    var xs, ys := p.code[g].inputs, p.code[u].inputs;
    forall i | 0 <= i < |xs| ensures xs[i] == ys[i] || SameConstant(p0, xs[i], ys[i]) {
      if xs[i] != ys[i] {
        assert LeftInstr(p0, p, xs[i]) && LeftInstr(p0, p, ys[i]);
      }
    }
  }

  // ---------- which checks go ----------

  /** The checks among `users` that an equal check `g` removes, with the outcome it leaves them. */
  ghost function Removable(p: Prog, info: Info, g: Id, users: set<Id>): map<Id, nat>
    requires g in p.code
  {
    map v | v in users && Goes(p, info, g, v) :: OutcomeLeft(p, info, g, v)
  }

  ghost predicate Goes(p: Prog, info: Info, g: Id, v: Id)
    requires g in p.code
  {
    v in p.code && v != g && ChecksEqual(p, g, v) && (Guarded(p, info, g, 0, v) || Guarded(p, info, g, 1, v))
  }

  ghost function OutcomeLeft(p: Prog, info: Info, g: Id, v: Id): nat
    requires g in p.code && v in p.code
  {
    if Guarded(p, info, g, 0, v) then 0 else 1
  }

  /** Exactly the checks in `gone` have gone, and their blocks go on where `gone` says. */
  ghost predicate Sifted(p1: Prog, p: Prog, gone: map<Id, nat>) {
    && Left(p1, p) && p.code.Keys == p1.code.Keys - gone.Keys
    && (forall v :: v in gone ==> v in p1.code && KeptEdge(p1, p, v, gone[v]))
  }

  lemma NothingSifted(p: Prog)
    ensures Sifted(p, p, map[]) && Left(p, p)
  {
  }

  lemma NoneWithout(users: Users, u: Id)
    ensures WithoutUser(users, [], u) == users
  {
  }

  lemma WithoutNext(users: Users, xs: seq<Id>, i: nat, u: Id)
    requires i < |xs|
    ensures var before := WithoutUser(users, xs[..i], u);
            WithoutUser(users, xs[..i + 1], u) ==
              if xs[i] in before then before[xs[i] := before[xs[i]] - {u}] else before
  {
    assert xs[..i + 1] == xs[..i] + [xs[i]];
    assert forall x :: x in users ==> users[x] - {u} - {u} == users[x] - {u};
  }

  lemma CutKeepsOthers(p: Prog, b: Block, i: nat, user: Id)
    requires i < |p.g.Succs(b)| && p.Placed() && user in p.code && !p.code[user].opcode.Phi?
    ensures CutEdge(p, b, i).BlockOf(user) == p.BlockOf(user) && user in CutEdge(p, b, i).code
  {
    CutEdgeFacts(p, b, i);
  }

  // ---------- the pass ----------

  class CheckElimination {
    const graph: MethodGraph
    const s: Block
    const dominators: Info

    constructor (graph: MethodGraph, s: Block, dominators: Info)
      ensures this.graph == graph && this.s == s && this.dominators == dominators
    {
      this.graph, this.s, this.dominators := graph, s, dominators;
    }

    /** Cuts one edge of the check's block and takes the check out. */
    method Remove(user: Id, succToRemove: nat)
      requires graph.Shape().Placed() && user in graph.code
      requires succToRemove < |graph.Shape().g.Succs(graph.Shape().BlockOf(user))|
      requires !graph.code[user].opcode.Phi?
      modifies graph
      ensures graph.Shape() == DropCheck(old(graph.Shape()), user, succToRemove)
      ensures graph.users == UsersAfter(old(graph.Shape()), old(graph.users), user, succToRemove)
    {
      var inputs := graph.code[user].inputs;
      ghost var p := graph.Shape();
      CutKeepsOthers(p, p.BlockOf(user), succToRemove, user);
      graph.RemoveSuccessor(graph.code[user].bb, succToRemove);
      ghost var cutUsers := graph.users;
      NoneWithout(cutUsers, user);
      for i := 0 to |inputs|
        invariant graph.users == WithoutUser(cutUsers, inputs[..i], user)
        invariant graph.Shape() == CutEdge(p, p.BlockOf(user), succToRemove)
      {
        WithoutNext(cutUsers, inputs, i, user);
        graph.RemoveUser(inputs[i], user);
      }
      assert inputs[..|inputs|] == inputs;
      graph.RemoveInstr(user);
    }

    /** Removes `user`, whose edge `succToRemove` is dead if control has come through `succ`, the other outcome of
        the equal check `guard`. */
    method CheckDominanceAndRemove(succ: Option<Block>, user: Id, succToRemove: nat, ghost p0: Prog, ghost guard: Id)
      returns (removed: bool)
      requires ElimInv(p0, s, dominators, graph.Shape(), graph.users) && succToRemove < 2
      requires guard in graph.code && user in graph.code && guard != user && IsCheck(graph.code[guard].opcode)
      requires ChecksEqual(graph.Shape(), guard, user) && succ == OutcomeBlock(graph.Shape(), guard, 1 - succToRemove)
      modifies graph
      ensures ElimInv(p0, s, dominators, graph.Shape(), graph.users)
      ensures removed == old(Guarded(graph.Shape(), dominators, guard, 1 - succToRemove, user))
      ensures !removed ==> graph.Shape() == old(graph.Shape()) && graph.users == old(graph.users)
      ensures removed ==> succToRemove < |old(graph.Shape().g.Succs(graph.Shape().BlockOf(user)))|
      ensures removed ==> graph.Shape() == DropCheck(old(graph.Shape()), user, succToRemove)
      ensures old(ChecksCovered(graph.Shape(), graph.users)) ==> ChecksCovered(graph.Shape(), graph.users)
    {
      hide *;
      CoveredThen(p0, s, dominators, graph.Shape(), graph.users, guard, user, succToRemove);
      ghost var p := graph.Shape();
      OutcomeGuards(p, dominators, guard, 1 - succToRemove, user);
      if succ.None? {
        return false;
      }
      var block := graph.code[user].bb;
      if succ.value == block {
        GuardedRemoval(p0, s, dominators, p, graph.users, guard, user, succToRemove);
        Remove(user, succToRemove);
        return true;
      }
      var doms := dominators.Dominators(block);
      for i := 0 to |doms|
        invariant forall j :: 0 <= j < i ==> doms[j].0 != succ.value
      {
        if doms[i].0 == succ.value {
          RecordedAt(dominators, block, i);
          GuardedRemoval(p0, s, dominators, p, graph.users, guard, user, succToRemove);
          Remove(user, succToRemove);
          return true;
        }
      }
      NotRecorded(dominators, succ.value, block);
      return false;
    }

    /** Null checks of the null value always find it null. */
    method ProcessNullInstruction(nullInstr: Id, ghost p0: Prog)
      requires ElimInv(p0, s, dominators, graph.Shape(), graph.users)
      requires nullInstr in graph.code && graph.code[nullInstr].opcode.NullInstr?
      modifies graph
      ensures ElimInv(p0, s, dominators, graph.Shape(), graph.users)
      ensures Sifted(old(graph.Shape()), graph.Shape(),
                     NullChecks(old(graph.Shape()), old(UsersOf(graph.users, nullInstr))))
      ensures old(ChecksCovered(graph.Shape(), graph.users)) ==> ChecksCovered(graph.Shape(), graph.users)
    {
      hide *;
      var todo := UsersOf(graph.users, nullInstr);
      ghost var p1, users, done := graph.Shape(), todo, {};
      NothingSifted(p1);
      NoNullChecks(p1);
      UsersPresent(p0, s, dominators, p1, graph.users, nullInstr);
      while todo != {}
        invariant todo + done == users && todo !! done && AllPresent(p1, users, nullInstr)
        invariant ElimInv(p0, s, dominators, graph.Shape(), graph.users)
        invariant nullInstr in graph.code && graph.code[nullInstr].opcode.NullInstr?
        invariant Sifted(p1, graph.Shape(), NullChecks(p1, done))
        invariant old(ChecksCovered(graph.Shape(), graph.users)) ==> ChecksCovered(graph.Shape(), graph.users)
        decreases todo
      {
        var user :| user in todo;
        todo := todo - {user};
        ghost var p, before := graph.Shape(), done;
        NullChecksNext(p1, before, user);
        NextUser(p1, p, NullChecks(p1, before), users, nullInstr, user);
        done := done + {user};
        if graph.code[user].opcode.CheckNull? {
          NullRemoval(p0, s, dominators, p, graph.users, nullInstr, user);
          NullCovered(p0, s, dominators, p, graph.users, user, 1);
          SiftedNext(p1, s, p, NullChecks(p1, before), user, 1);
          InstrStays(p, s, user, 1, nullInstr);
          Remove(user, 1);
        }
      }
      assert done == users;
    }

    /** Removes the checks for null of the same value that this one decides. */
    method ProcessNullCheck(checkNullInstr: Id, ghost p0: Prog)
      requires ElimInv(p0, s, dominators, graph.Shape(), graph.users)
      requires checkNullInstr in graph.code && graph.code[checkNullInstr].opcode.CheckNull?
      modifies graph
      ensures ElimInv(p0, s, dominators, graph.Shape(), graph.users)
      ensures |old(graph.code)[checkNullInstr].inputs| == 1
      ensures var input := old(graph.code)[checkNullInstr].inputs[0];
              Sifted(old(graph.Shape()), graph.Shape(),
                     Removable(old(graph.Shape()), dominators, checkNullInstr, old(UsersOf(graph.users, input))))
      ensures old(ChecksCovered(graph.Shape(), graph.users)) ==> ChecksCovered(graph.Shape(), graph.users)
    {
      hide *;
      CheckOperands(p0, s, dominators, graph.Shape(), graph.users, checkNullInstr);
      var input := graph.code[checkNullInstr].inputs[0];
      var todo := UsersOf(graph.users, input);
      var g := checkNullInstr;
      ghost var p1, users, done := graph.Shape(), todo, {};
      NothingSifted(p1);
      NoneRemovable(p1, dominators, g);
      UsersPresent(p0, s, dominators, p1, graph.users, input);
      while todo != {}
        invariant todo + done == users && todo !! done && AllPresent(p1, users, input)
        invariant ElimInv(p0, s, dominators, graph.Shape(), graph.users)
        invariant g in graph.code && graph.code[g] == p1.code[g]
        invariant Sifted(p1, graph.Shape(), Removable(p1, dominators, g, done))
        invariant old(ChecksCovered(graph.Shape(), graph.users)) ==> ChecksCovered(graph.Shape(), graph.users)
        decreases todo
      {
        var user :| user in todo;
        todo := todo - {user};
        ghost var before := done;
        done := done + {user};
        RemovableNext(p1, dominators, g, before, user);
        NextUser(p1, graph.Shape(), Removable(p1, dominators, g, before), users, input, user);
        if graph.code[user].opcode.CheckNull? && user != g {
          NullChecksEqual(p0, s, dominators, graph.Shape(), graph.users, g, user, input);
          SiftOne(user, g, p0, p1, before);
        } else {
          NotRemovable(p1, graph.Shape(), before, dominators, g, user);
        }
      }
      assert done == users;
    }

    /** Tries both outcomes of the guard. */
    method SiftOne(user: Id, g: Id, ghost p0: Prog, ghost p1: Prog, ghost before: set<Id>)
      requires ElimInv(p0, s, dominators, graph.Shape(), graph.users)
      requires g in p1.code && g in graph.code && graph.code[g] == p1.code[g] && user in graph.code && user != g
      requires user !in before
      requires IsCheck(graph.code[g].opcode) && ChecksEqual(graph.Shape(), g, user)
      requires Sifted(p1, graph.Shape(), Removable(p1, dominators, g, before))
      modifies graph
      ensures ElimInv(p0, s, dominators, graph.Shape(), graph.users)
      ensures g in graph.code && graph.code[g] == p1.code[g]
      ensures Sifted(p1, graph.Shape(), Removable(p1, dominators, g, before + {user}))
      ensures old(ChecksCovered(graph.Shape(), graph.users)) ==> ChecksCovered(graph.Shape(), graph.users)
    {
      hide *;
      ghost var p, users := graph.Shape(), graph.users;
      RemovableNext(p1, dominators, g, before, user);
      SameGuarding(p0, p1, s, dominators, p, graph.users, Removable(p1, dominators, g, before), g, user);
      var removed := CheckDominanceAndRemove(OutcomeBlock(graph.Shape(), g, 0), user, 1, p0, g);
      if removed {
        SiftedStep(p0, p1, s, dominators, p, users, Removable(p1, dominators, g, before), g, user, 1);
        return;
      }
      removed := CheckDominanceAndRemove(OutcomeBlock(graph.Shape(), g, 1), user, 0, p0, g);
      if removed {
        SiftedStep(p0, p1, s, dominators, p, users, Removable(p1, dominators, g, before), g, user, 0);
      }
    }

    /** Removes the equal bounds checks that this one decides. */
    method ProcessBoundsCheck(checkBoundsInstr: Id, ghost p0: Prog)
      requires ElimInv(p0, s, dominators, graph.Shape(), graph.users)
      requires checkBoundsInstr in graph.code && graph.code[checkBoundsInstr].opcode.CheckBounds?
      modifies graph
      ensures ElimInv(p0, s, dominators, graph.Shape(), graph.users)
      ensures |old(graph.code)[checkBoundsInstr].inputs| == 2
      ensures var input := old(graph.code)[checkBoundsInstr].inputs[0];
              Sifted(old(graph.Shape()), graph.Shape(),
                     Removable(old(graph.Shape()), dominators, checkBoundsInstr, old(UsersOf(graph.users, input))))
      ensures old(ChecksCovered(graph.Shape(), graph.users)) ==> ChecksCovered(graph.Shape(), graph.users)
    {
      hide *;
      CheckOperands(p0, s, dominators, graph.Shape(), graph.users, checkBoundsInstr);
      var input := graph.code[checkBoundsInstr].inputs[0];
      var todo := UsersOf(graph.users, input);
      var g := checkBoundsInstr;
      ghost var p1, users, done := graph.Shape(), todo, {};
      NothingSifted(p1);
      NoneRemovable(p1, dominators, g);
      UsersPresent(p0, s, dominators, p1, graph.users, input);
      while todo != {}
        invariant todo + done == users && todo !! done && AllPresent(p1, users, input)
        invariant ElimInv(p0, s, dominators, graph.Shape(), graph.users)
        invariant g in graph.code && graph.code[g] == p1.code[g]
        invariant Sifted(p1, graph.Shape(), Removable(p1, dominators, g, done))
        invariant old(ChecksCovered(graph.Shape(), graph.users)) ==> ChecksCovered(graph.Shape(), graph.users)
        decreases todo
      {
        var user :| user in todo;
        todo := todo - {user};
        ghost var before := done;
        done := done + {user};
        RemovableNext(p1, dominators, g, before, user);
        NextUser(p1, graph.Shape(), Removable(p1, dominators, g, before), users, input, user);
        var equal := AreChecksEqual(graph.Shape(), g, user);
        if graph.code[user].opcode.CheckBounds? && user != g && equal {
          SiftOne(user, g, p0, p1, before);
        } else {
          NotRemovable(p1, graph.Shape(), before, dominators, g, user);
        }
      }
      assert done == users;
    }

    /** Looks at every instruction of the listed blocks. */
    method EliminateRedundantChecks(rpo: seq<Block>)
      requires WellFormed(graph.Shape(), s) && UsersRight(graph.Shape(), graph.users)
      modifies graph
      ensures WellFormed(graph.Shape(), s) && Left(old(graph.Shape()), graph.Shape())
      ensures Justified(old(graph.Shape()), graph.Shape(), dominators)
      ensures old(ChecksCovered(graph.Shape(), graph.users)) ==> NoneGuarded(graph.Shape(), dominators, rpo)
      ensures SameRuns(old(graph.Shape()), graph.Shape(), s) <==> RemovedDecided(old(graph.Shape()), graph.Shape(), s)
      ensures old(Trusted(graph.Shape(), s, dominators)) ==> SameRuns(old(graph.Shape()), graph.Shape(), s)
    {
      hide *;
      ghost var p0, covered := graph.Shape(), ChecksCovered(graph.Shape(), graph.users);
      ElimStart(p0, s, dominators, graph.users);
      NothingDone(p0, dominators, rpo);
      for j := 0 to |rpo|
        invariant ElimInv(p0, s, dominators, graph.Shape(), graph.users)
        invariant covered ==> ChecksCovered(graph.Shape(), graph.users)
        invariant covered ==> ListDone(graph.Shape(), dominators, rpo, j, 0)
      {
        var i := 0;
        while i < |graph.Shape().Body(rpo[j])|
          invariant ElimInv(p0, s, dominators, graph.Shape(), graph.users)
          invariant covered ==> ChecksCovered(graph.Shape(), graph.users)
          invariant covered ==> ListDone(graph.Shape(), dominators, rpo, j, i)
          decreases |graph.Shape().Body(rpo[j])| - i
        {
          var instr := graph.Shape().Body(rpo[j])[i];
          ghost var p1, users := graph.Shape(), graph.users;
          ListedHere(p0, s, dominators, p1, users, rpo[j], instr);
          ghost var gone: map<Id, nat> := map[];
          NothingSifted(p1);
          match graph.code[instr].opcode {
            case NullInstr =>
              gone := NullChecks(p1, UsersOf(users, instr));
              ProcessNullInstruction(instr, p0);
              NullDoneNow(p0, s, dominators, p1, users, graph.Shape(), instr);
            case CheckNull =>
              CheckOperands(p0, s, dominators, p1, users, instr);
              gone := Removable(p1, dominators, instr, UsersOf(users, p1.code[instr].inputs[0]));
              ProcessNullCheck(instr, p0);
              GuardDoneNow(p0, s, dominators, p1, users, graph.Shape(), graph.users, instr);
            case CheckBounds =>
              CheckOperands(p0, s, dominators, p1, users, instr);
              gone := Removable(p1, dominators, instr, UsersOf(users, p1.code[instr].inputs[0]));
              ProcessBoundsCheck(instr, p0);
              GuardDoneNow(p0, s, dominators, p1, users, graph.Shape(), graph.users, instr);
            case _ =>
              OtherDone(p1, dominators, instr);
          }
          BodyShrinks(p1, graph.Shape(), gone, rpo[j]);
          if covered {
            ListStep(p0, s, dominators, p1, graph.Shape(), graph.users, rpo, j, i);
          }
          i := i + 1;
        }
        if covered {
          ListNext(graph.Shape(), dominators, rpo, j, i);
        }
      }
      ElimOutcome(p0, s, dominators, graph.Shape(), graph.users);
      if covered {
        DoneIsUnguarded(p0, s, dominators, graph.Shape(), graph.users, rpo);
      }
    }
  }

  // ---------- nothing is passed over ----------

  /** `v` and `g` read the same value first. */
  ghost predicate SharesFirst(p: Prog, g: Id, v: Id) {
    p.Inputs(g) != [] && p.Inputs(g)[0] in p.Inputs(v)
  }

  /** If `g` is a check, neither of its outcomes guards an equal check that shares its first operand. */
  ghost predicate GuardDone(p: Prog, info: Info, g: Id) {
    g in p.code && IsCheck(p.code[g].opcode) ==>
      forall u :: u in p.code && u != g && SharesFirst(p, g, u) && ChecksEqual(p, g, u) ==>
                    !Guarded(p, info, g, 0, u) && !Guarded(p, info, g, 1, u)
  }

  /** If `x` is the null value, no null check reads it. */
  ghost predicate NullDone(p: Prog, x: Id) {
    x in p.code && p.code[x].opcode.NullInstr? ==>
      forall u :: u in p.code && p.code[u].opcode.CheckNull? ==> x !in p.Inputs(u)
  }

  ghost predicate InstrDone(p: Prog, info: Info, v: Id) {
    GuardDone(p, info, v) && NullDone(p, v)
  }

  ghost predicate BodyDone(p: Prog, info: Info, b: Block, n: nat) {
    forall m :: 0 <= m < n && m < |p.Body(b)| ==> InstrDone(p, info, p.Body(b)[m])
  }

  /** The blocks before the `j`-th have been looked at, and the first `i` instructions of that one. */
  ghost predicate ListDone(p: Prog, info: Info, rpo: seq<Block>, j: nat, i: nat)
    requires j <= |rpo|
  {
    && (forall l :: 0 <= l < j ==> BodyDone(p, info, rpo[l], |p.Body(rpo[l])|))
    && (j < |rpo| ==> BodyDone(p, info, rpo[j], i))
  }

  /** In the listed blocks no check has an outcome whose block is, or is recorded to dominate, the block of an equal
      check that shares its first operand; and no null check reads a null value of the listed blocks. */
  ghost predicate NoneGuarded(p: Prog, info: Info, listed: seq<Block>) {
    && (forall g, u, k: nat ::
          g in p.code && u in p.code && g != u && p.code[g].bb in listed &&
          (p.code[g].opcode.CheckNull? || p.code[g].opcode.CheckBounds?) && SharesFirst(p, g, u) &&
          SameCheck(p.code, g, u) && k < |p.g.Succs(p.code[g].bb)| ==>
            p.g.Succs(p.code[g].bb)[k] != p.code[u].bb && !info.Records(p.g.Succs(p.code[g].bb)[k], p.code[u].bb))
    && (forall x, u ::
          x in p.code && u in p.code && p.code[x].bb in listed && p.code[x].opcode.NullInstr? &&
          p.code[u].opcode.CheckNull? ==>
            x !in p.Inputs(u))
  }

  lemma NothingDone(p: Prog, info: Info, rpo: seq<Block>)
    ensures ListDone(p, info, rpo, 0, 0)
  {
  }

  lemma OtherDone(p: Prog, info: Info, v: Id)
    requires v in p.code && !p.code[v].opcode.NullInstr?
    requires !p.code[v].opcode.CheckNull? && !p.code[v].opcode.CheckBounds?
    ensures InstrDone(p, info, v)
  {
  }

  /** What has been done stays done when more checks go. */
  lemma DoneStays(p1: Prog, s: Block, p: Prog, info: Info, v: Id)
    requires WellFormed(p, s) && Left(p1, p) && InstrDone(p1, info, v)
    ensures InstrDone(p, info, v)
  {
    hide WellFormed, ChecksEqual, Info.Records, Ir.Prog.Edges, LeftOut;
    if v in p.code {
      assert LeftInstr(p1, p, v);
      forall u | u in p.code && u != v && IsCheck(p.code[v].opcode) && SharesFirst(p, v, u) && ChecksEqual(p, v, u)
        ensures !Guarded(p, info, v, 0, u) && !Guarded(p, info, v, 1, u)
      {
        assert LeftInstr(p1, p, u);
        OriginallyEqual(p1, s, p, v, u);
        SameKind(p, v, u);
      }
      forall u | u in p.code && p.code[v].opcode.NullInstr? && p.code[u].opcode.CheckNull? ensures v !in p.Inputs(u) {
        assert LeftInstr(p1, p, u);
      }
    }
  }

  lemma NullDoneNow(p0: Prog, s: Block, info: Info, p1: Prog, users: Users, p: Prog, x: Id)
    requires x in p1.code && p1.code[x].opcode.NullInstr? && Sifted(p1, p, NullChecks(p1, UsersOf(users, x)))
    ensures ChecksCovered(p1, users) ==> InstrDone(p, info, x)
  {
    hide Ir.Prog.Edges, LeftOut, KeptEdge, Guarded, SharesFirst;
    if ChecksCovered(p1, users) {
      if x in p.code {
        assert LeftInstr(p1, p, x);
      }
      forall u | u in p.code && p.code[u].opcode.CheckNull? ensures x !in p.Inputs(u) {
        assert LeftInstr(p1, p, u);
        assert u in p.code.Keys && u !in NullChecks(p1, UsersOf(users, x)).Keys;
      }
    }
  }

  lemma GuardDoneNow(p0: Prog, s: Block, info: Info, p1: Prog, users: Users, p: Prog, users': Users, g: Id)
    requires ElimInv(p0, s, info, p, users') && g in p1.code && IsCheck(p1.code[g].opcode) && p1.code[g].inputs != []
    requires Sifted(p1, p, Removable(p1, info, g, UsersOf(users, p1.code[g].inputs[0])))
    ensures ChecksCovered(p1, users) ==> InstrDone(p, info, g)
  {
    hide WellFormed, UsersRight, Trusted, RemovedDecided, SameRuns, Justified, ChecksEqual, Info.Records, Ir.Prog.Edges;
    hide LeftOut, KeptEdge;
    if ChecksCovered(p1, users) && g in p.code {
      assert LeftInstr(p1, p, g);
      forall u | u in p.code && u != g && SharesFirst(p, g, u) && ChecksEqual(p, g, u)
        ensures !Guarded(p, info, g, 0, u) && !Guarded(p, info, g, 1, u)
      {
        assert LeftInstr(p1, p, u);
        OriginallyEqual(p1, s, p, g, u);
        SameKind(p, g, u);
        assert u in UsersOf(users, p1.code[g].inputs[0]);
        assert u in p.code.Keys && u !in Removable(p1, info, g, UsersOf(users, p1.code[g].inputs[0])).Keys;
        assert !Goes(p1, info, g, u);
      }
    }
  }

  lemma ListStep(p0: Prog, s: Block, info: Info, p1: Prog, p: Prog, users: Users, rpo: seq<Block>, j: nat, i: nat)
    requires ElimInv(p0, s, info, p, users) && Left(p1, p) && j < |rpo| && ListDone(p1, info, rpo, j, i)
    requires i < |p1.Body(rpo[j])| && InstrDone(p, info, p1.Body(rpo[j])[i])
    ensures ListDone(p, info, rpo, j, i + 1)
  {
    hide InstrDone, WellFormed, UsersRight, Trusted, RemovedDecided, SameRuns, Justified, Ir.Prog.Edges, Prog.Body;
    forall b: Block, n: nat, m: nat | BodyDone(p1, info, b, n) && m < n && m < |p.Body(b)|
      ensures InstrDone(p, info, p.Body(b)[m])
    {
      PrefixAt(p1, p, b, m);
      DoneStays(p1, s, p, info, p.Body(b)[m]);
    }
    forall l | 0 <= l < j ensures BodyDone(p, info, rpo[l], |p.Body(rpo[l])|) {
      assert p.Body(rpo[l]) <= p1.Body(rpo[l]);
      assert BodyDone(p1, info, rpo[l], |p1.Body(rpo[l])|);
    }
    assert p.Body(rpo[j]) <= p1.Body(rpo[j]);
  }

  lemma PrefixAt(p1: Prog, p: Prog, b: Block, m: nat)
    requires Left(p1, p) && m < |p.Body(b)|
    ensures m < |p1.Body(b)| && p.Body(b)[m] == p1.Body(b)[m]
  {
    hide Ir.Prog.Edges, Prog.Body;
    assert p.Body(b) <= p1.Body(b);
  }

  lemma ListNext(p: Prog, info: Info, rpo: seq<Block>, j: nat, i: nat)
    requires j < |rpo| && ListDone(p, info, rpo, j, i) && i >= |p.Body(rpo[j])|
    ensures ListDone(p, info, rpo, j + 1, 0)
  {
    hide InstrDone, Prog.Body;
  }

  lemma DoneIsUnguarded(p0: Prog, s: Block, info: Info, p: Prog, users: Users, rpo: seq<Block>)
    requires ElimInv(p0, s, info, p, users) && ListDone(p, info, rpo, |rpo|, 0)
    ensures NoneGuarded(p, info, rpo)
  {
    hide WellFormed, Left, UsersRight, Trusted, RemovedDecided, SameRuns, Justified, SameCheck, ChecksEqual;
    hide SharesFirst, Info.Records, Graph.Succs, ListDone;
    forall v | v in p.code && p.code[v].bb in rpo && !p.code[v].opcode.Phi? ensures InstrDone(p, info, v) {
      ListedDone(p, s, info, rpo, v);
    }
    forall g, u, k: nat | g in p.code && u in p.code && g != u && p.code[g].bb in rpo &&
        (p.code[g].opcode.CheckNull? || p.code[g].opcode.CheckBounds?) && SharesFirst(p, g, u) &&
        SameCheck(p.code, g, u) && k < |p.g.Succs(p.code[g].bb)|
      ensures p.g.Succs(p.code[g].bb)[k] != p.code[u].bb && !info.Records(p.g.Succs(p.code[g].bb)[k], p.code[u].bb)
    {
      ChecksEqualExactly(p, g, u);
      CheckIsPlaced(p, s, g);
      assert InstrDone(p, info, g);
      assert !Guarded(p, info, g, k, u);
    }
    forall x, u | x in p.code && u in p.code && p.code[x].bb in rpo && p.code[x].opcode.NullInstr? &&
        p.code[u].opcode.CheckNull?
      ensures x !in p.Inputs(u)
    {
      assert InstrDone(p, info, x);
    }
  }

  lemma ListedDone(p: Prog, s: Block, info: Info, rpo: seq<Block>, v: Id)
    requires WellFormed(p, s) && ListDone(p, info, rpo, |rpo|, 0)
    requires v in p.code && p.code[v].bb in rpo && !p.code[v].opcode.Phi?
    ensures InstrDone(p, info, v)
  {
    hide WellFormed, InstrDone;
    EdgesAre(p, s);
    hide Graph.Closed, Graph.Mirrored, PhiArity, Ir.Prog.NoParallelEdges, Ir.Prog.Ssa, Runnable, Prog.Body;
    var b := p.code[v].bb;
    var l := FirstIndex(rpo, b);
    assert BodyDone(p, info, rpo[l], |p.Body(rpo[l])|);
    var m := FirstIndex(p.Body(b), v);
    assert p.Body(b)[m] == v;
  }

  // ---------- steps of the loops over users ----------

  function OutcomeBlock(p: Prog, g: Id, k: nat): Option<Block> {
    var succs := p.g.Succs(p.BlockOf(g));
    if k < |succs| then Some(succs[k]) else None
  }

  lemma OutcomeGuards(p: Prog, info: Info, g: Id, k: nat, user: Id)
    requires g in p.code && user in p.code
    ensures Guarded(p, info, g, k, user) <==>
              OutcomeBlock(p, g, k).Some? &&
              (OutcomeBlock(p, g, k).value == p.code[user].bb ||
               info.Records(OutcomeBlock(p, g, k).value, p.code[user].bb))
  {
  }

  lemma RecordedAt(info: Info, b: Block, i: nat)
    requires i < |info.Dominators(b)|
    ensures info.Records(info.Dominators(b)[i].0, b)
  {
    assert info.Dominators(b)[i] in info.Dominators(b);
  }

  lemma CoveredThen(p0: Prog, s: Block, info: Info, p: Prog, users: Users, g: Id, u: Id, i: nat)
    requires ElimInv(p0, s, info, p, users) && i < 2 && g in p.code && IsCheck(p.code[g].opcode) && ChecksEqual(p, g, u)
    ensures u in p.code && i < |p.g.Succs(p.BlockOf(u))|
    ensures ChecksCovered(p, users) ==> ChecksCovered(DropCheck(p, u, i), UsersAfter(p, users, u, i))
  {
    SameKind(p, g, u);
    hide *;
    NullCovered(p0, s, info, p, users, u, i);
  }

  lemma NullCovered(p0: Prog, s: Block, info: Info, p: Prog, users: Users, u: Id, i: nat)
    requires ElimInv(p0, s, info, p, users) && i < 2 && u in p.code && IsCheck(p.code[u].opcode)
    ensures i < |p.g.Succs(p.BlockOf(u))|
    ensures ChecksCovered(p, users) ==> ChecksCovered(DropCheck(p, u, i), UsersAfter(p, users, u, i))
  {
    hide WellFormed, Left, UsersRight, Trusted, RemovedDecided, SameRuns, Justified, DropCheck, UsersAfter;
    hide ChecksCovered;
    CheckIsPlaced(p, s, u);
    if ChecksCovered(p, users) {
      CoveredAfter(p, s, users, u, i);
    }
  }

  lemma NotRecorded(info: Info, d: Block, b: Block)
    requires forall j :: 0 <= j < |info.Dominators(b)| ==> info.Dominators(b)[j].0 != d
    ensures !info.Records(d, b)
  {
  }

  /** A guarded check may go. */
  lemma GuardedRemoval(p0: Prog, s: Block, info: Info, p: Prog, users: Users, g: Id, u: Id, i: nat)
    requires ElimInv(p0, s, info, p, users) && i < 2
    requires g in p.code && u in p.code && g != u && IsCheck(p.code[g].opcode) && ChecksEqual(p, g, u)
    requires Guarded(p, info, g, 1 - i, u)
    ensures p.Placed() && i < |p.g.Succs(p.BlockOf(u))| && !p.code[u].opcode.Phi?
    ensures ElimInv(p0, s, info, DropCheck(p, u, i), UsersAfter(p, users, u, i))
  {
    hide *;
    SameKind(p, g, u);
    if Trusted(p0, s, info) {
      GuardDecides(p0, s, info, p, users, g, 1 - i, u);
    }
    GuardIsReason(p0, s, info, p, users, g, 1 - i, u);
    RemovalReady(p0, s, info, p, users, u, i);
  }

  /** A guard in what is left was one from the start. */
  lemma GuardIsReason(p0: Prog, s: Block, info: Info, p: Prog, users: Users, g: Id, k: nat, u: Id)
    requires ElimInv(p0, s, info, p, users)
    requires g in p.code && u in p.code && g != u && IsCheck(p.code[g].opcode) && ChecksEqual(p, g, u)
    requires Guarded(p, info, g, k, u)
    ensures u in p0.code && Reason(p0, info, u, k)
  {
    hide WellFormed, UsersRight, Trusted, RemovedDecided, SameRuns, Justified, ChecksEqual, SameCheck, Info.Records;
    hide Ir.Prog.Edges, LeftOut;
    OriginallyEqual(p0, s, p, g, u);
    ChecksEqualExactly(p0, g, u);
    assert LeftInstr(p0, p, g) && LeftInstr(p0, p, u);
    assert Guarded(p0, info, g, k, u);
  }

  lemma NullIsReason(p0: Prog, s: Block, info: Info, p: Prog, users: Users, x: Id, u: Id)
    requires ElimInv(p0, s, info, p, users) && x in p.code && p.code[x].opcode.NullInstr?
    requires u in p.code && p.code[u].opcode.CheckNull? && x in p.Inputs(u)
    ensures u in p0.code && Reason(p0, info, u, 0)
  {
    hide WellFormed, UsersRight, Trusted, RemovedDecided, SameRuns, Justified, SameCheck, Guarded, Ir.Prog.Edges;
    hide LeftOut;
    assert LeftInstr(p0, p, x) && LeftInstr(p0, p, u);
  }

  lemma SameKind(p: Prog, g: Id, u: Id)
    requires ChecksEqual(p, g, u) && IsCheck(p.code[g].opcode)
    ensures u in p.code && IsCheck(p.code[u].opcode)
  {
  }

  lemma RemovalReady(p0: Prog, s: Block, info: Info, p: Prog, users: Users, u: Id, i: nat)
    requires ElimInv(p0, s, info, p, users) && u in p.code && IsCheck(p.code[u].opcode) && i < 2
    requires u in p0.code && Reason(p0, info, u, 1 - i)
    requires Trusted(p0, s, info) ==> Decided(p, s, u, 1 - i)
    ensures p.Placed() && i < |p.g.Succs(p.BlockOf(u))| && !p.code[u].opcode.Phi?
    ensures ElimInv(p0, s, info, DropCheck(p, u, i), UsersAfter(p, users, u, i))
  {
    hide WellFormed, Left, UsersRight, Trusted, RemovedDecided, Decided, DropCheck, UsersAfter, SameRuns;
    hide Justified, Reason;
    DropKeeps(p0, s, info, p, users, u, i);
    EdgesAre(p, s);
  }

  lemma NullRemoval(p0: Prog, s: Block, info: Info, p: Prog, users: Users, x: Id, u: Id)
    requires ElimInv(p0, s, info, p, users) && x in p.code && p.code[x].opcode.NullInstr?
    requires u in p.code && p.code[u].opcode.CheckNull? && x in p.Inputs(u)
    ensures WellFormed(p, s) && IsCheck(p.code[u].opcode)
    ensures p.Placed() && 1 < |p.g.Succs(p.BlockOf(u))| && !p.code[u].opcode.Phi?
    ensures ElimInv(p0, s, info, DropCheck(p, u, 1), UsersAfter(p, users, u, 1))
  {
    hide WellFormed, Left, UsersRight, Trusted, RemovedDecided, Decided, DropCheck, UsersAfter, SameRuns;
    hide Justified, Reason;
    NullDecided(p, s, x, u);
    NullIsReason(p0, s, info, p, users, x, u);
    RemovalReady(p0, s, info, p, users, u, 1);
  }

  /** The null checks among the users, which all find null. */
  ghost function NullChecks(p: Prog, users: set<Id>): map<Id, nat> {
    map v | v in users && v in p.code && p.code[v].opcode.CheckNull? :: 0
  }

  lemma NoNullChecks(p: Prog)
    ensures NullChecks(p, {}) == map[]
  {
  }

  lemma NullChecksNext(p: Prog, done: set<Id>, user: Id)
    requires user !in done
    ensures user !in NullChecks(p, done)
    ensures NullChecks(p, done + {user}) ==
              if user in p.code && p.code[user].opcode.CheckNull? then NullChecks(p, done)[user := 0]
              else NullChecks(p, done)
  {
  }

  /** The users exist, and the checks among them read `x`. */
  ghost predicate AllPresent(p: Prog, users: set<Id>, x: Id) {
    forall v :: v in users ==> v in p.code && (IsCheck(p.code[v].opcode) ==> x in p.Inputs(v))
  }

  lemma UsersPresent(p0: Prog, s: Block, info: Info, p: Prog, users: Users, x: Id)
    requires ElimInv(p0, s, info, p, users)
    ensures AllPresent(p, UsersOf(users, x), x)
  {
  }

  /** A user not yet looked at is still there. */
  lemma NextUser(p1: Prog, p: Prog, gone: map<Id, nat>, users: set<Id>, x: Id, user: Id)
    requires Sifted(p1, p, gone) && AllPresent(p1, users, x) && user in users && user !in gone
    ensures user in p1.code && user in p.code && p.code[user].opcode == p1.code[user].opcode
    ensures p.code[user].opcode.CheckNull? || p.code[user].opcode.CheckBounds? ==> x in p.Inputs(user)
  {
    hide Ir.Prog.Edges;
    assert user in p.code.Keys;
    assert LeftInstr(p1, p, user);
  }

  lemma SiftedNext(p1: Prog, s: Block, p: Prog, gone: map<Id, nat>, u: Id, i: nat)
    requires WellFormed(p, s) && Sifted(p1, p, gone) && u in p.code && IsCheck(p.code[u].opcode) && i < 2
    ensures i < |p.g.Succs(p.BlockOf(u))|
    ensures Sifted(p1, DropCheck(p, u, i), gone[u := 1 - i])
  {
    hide WellFormed, DropCheck, Ir.Prog.Edges, KeptEdge, LeftOut, Left;
    CheckIsPlaced(p, s, u);
    var p' := DropCheck(p, u, i);
    LeftAfterDrop(p1, s, p, u, i);
    DropKeys(p, s, u, i);
    NotGone(p1, p, u);
    forall v | v in gone[u := 1 - i] ensures v in p1.code && KeptEdge(p1, p', v, gone[u := 1 - i][v]) {
      EdgesAfterDrop(p1, s, p, u, i, v);
    }
  }

  lemma DropKeys(p: Prog, s: Block, u: Id, i: nat)
    requires WellFormed(p, s) && u in p.code && IsCheck(p.code[u].opcode) && i < 2
    ensures i < |p.g.Succs(p.BlockOf(u))| && DropCheck(p, u, i).code.Keys == p.code.Keys - {u}
  {
    hide WellFormed, DropCheck;
    CheckIsPlaced(p, s, u);
    DropCheckFacts(p, s, u, i);
  }

  lemma NotGone(p1: Prog, p: Prog, u: Id)
    requires Left(p1, p) && u in p.code
    ensures u in p1.code
  {
    assert LeftInstr(p1, p, u);
  }

  lemma InstrStays(p: Prog, s: Block, u: Id, i: nat, x: Id)
    requires WellFormed(p, s) && u in p.code && IsCheck(p.code[u].opcode) && i < 2
    requires x in p.code && x != u && !p.code[x].opcode.Phi?
    ensures i < |p.g.Succs(p.BlockOf(u))|
    ensures x in DropCheck(p, u, i).code && DropCheck(p, u, i).code[x] == p.code[x]
  {
    hide WellFormed, DropCheck;
    CheckIsPlaced(p, s, u);
    DropCheckFacts(p, s, u, i);
  }

  lemma CheckOperands(p0: Prog, s: Block, info: Info, p: Prog, users: Users, g: Id)
    requires ElimInv(p0, s, info, p, users) && g in p.code
    requires p.code[g].opcode.CheckNull? || p.code[g].opcode.CheckBounds?
    ensures |p.code[g].inputs| == if p.code[g].opcode.CheckNull? then 1 else 2
    ensures IsCheck(p.code[g].opcode)
  {
    hide WellFormed, Left, UsersRight, Trusted, RemovedDecided, SameRuns, Justified;
    CheckIsPlaced(p, s, g);
  }

  lemma NoneRemovable(p: Prog, info: Info, g: Id)
    requires g in p.code
    ensures Removable(p, info, g, {}) == map[]
  {
  }

  lemma RemovableNext(p: Prog, info: Info, g: Id, done: set<Id>, user: Id)
    requires g in p.code && user !in done
    ensures user !in Removable(p, info, g, done) && g !in Removable(p, info, g, done)
    ensures Removable(p, info, g, done + {user}) ==
              if Goes(p, info, g, user) then Removable(p, info, g, done)[user := OutcomeLeft(p, info, g, user)]
              else Removable(p, info, g, done)
  {
    hide ChecksEqual, Guarded;
  }

  /** Constants stay, so checks that were equal when the guard was taken up are still found equal. */
  lemma NotRemovable(p1: Prog, p: Prog, done: set<Id>, info: Info, g: Id, user: Id)
    requires g in p1.code && g in p.code && p.code[g] == p1.code[g] && user in p.code && IsCheck(p.code[g].opcode)
    requires Sifted(p1, p, Removable(p1, info, g, done))
    requires user == g || !ChecksEqual(p, g, user) || p.code[user].opcode != p.code[g].opcode
    ensures !Goes(p1, info, g, user)
  {
    hide Guarded, Ir.Prog.Edges;
    assert LeftInstr(p1, p, user);
  }

  /** What guards a user is the same as when the guard was taken up. */
  lemma SameGuarding(p0: Prog, p1: Prog, s: Block, info: Info, p: Prog, users: Users, gone: map<Id, nat>, g: Id,
                     user: Id)
    requires ElimInv(p0, s, info, p, users) && Sifted(p1, p, gone)
    requires g in p1.code && g in p.code && p.code[g] == p1.code[g] && user in p.code && user != g
    requires IsCheck(p.code[g].opcode) && ChecksEqual(p, g, user)
    ensures user in p1.code
    ensures Goes(p1, info, g, user) <==> Guarded(p, info, g, 0, user) || Guarded(p, info, g, 1, user)
    ensures OutcomeLeft(p1, info, g, user) == if Guarded(p, info, g, 0, user) then 0 else 1
  {
    hide WellFormed, UsersRight, Trusted, RemovedDecided, SameRuns, Info.Records, ChecksEqual, Ir.Prog.Edges;
    OriginallyEqual(p1, s, p, g, user);
    assert LeftInstr(p1, p, user);
  }

  lemma SiftedStep(p0: Prog, p1: Prog, s: Block, info: Info, p: Prog, users: Users, gone: map<Id, nat>, g: Id,
                   user: Id, i: nat)
    requires ElimInv(p0, s, info, p, users) && Sifted(p1, p, gone) && i < 2
    requires g in p.code && user in p.code && user != g && IsCheck(p.code[g].opcode) && ChecksEqual(p, g, user)
    ensures i < |p.g.Succs(p.BlockOf(user))|
    ensures Sifted(p1, DropCheck(p, user, i), gone[user := 1 - i])
    ensures g in DropCheck(p, user, i).code && DropCheck(p, user, i).code[g] == p.code[g]
  {
    hide WellFormed, UsersRight, Trusted, RemovedDecided, SameRuns, Left, Sifted, DropCheck, SameOperands;
    SiftedNext(p1, s, p, gone, user, i);
    InstrStays(p, s, user, i, g);
  }

  /** Two null checks that read the same value are equal. */
  lemma NullChecksEqual(p0: Prog, s: Block, info: Info, p: Prog, users: Users, g: Id, u: Id, x: Id)
    requires ElimInv(p0, s, info, p, users) && g in p.code && u in p.code
    requires p.code[g].opcode.CheckNull? && p.code[u].opcode.CheckNull? && x in p.code[g].inputs && x in p.Inputs(u)
    ensures ChecksEqual(p, g, u)
  {
    hide WellFormed, Left, UsersRight, Trusted, RemovedDecided, SameRuns, Justified;
    CheckIsPlaced(p, s, g);
    CheckIsPlaced(p, s, u);
  }

  lemma ElimStart(p0: Prog, s: Block, info: Info, users: Users)
    requires WellFormed(p0, s) && UsersRight(p0, users)
    ensures ElimInv(p0, s, info, p0, users)
  {
    hide WellFormed, UsersRight, Trusted, RemovedDecided, Exec, JustifiedAt;
    NothingSifted(p0);
  }

  lemma ElimOutcome(p0: Prog, s: Block, info: Info, p: Prog, users: Users)
    requires ElimInv(p0, s, info, p, users)
    ensures WellFormed(p, s) && Left(p0, p) && Justified(p0, p, info)
    ensures SameRuns(p0, p, s) <==> RemovedDecided(p0, p, s)
    ensures Trusted(p0, s, info) ==> SameRuns(p0, p, s)
  {
    hide WellFormed, Left, UsersRight, Trusted, RemovedDecided, SameRuns, Justified;
    RunsKeptExactly(p0, s, info, p, users);
  }

  /** A check that is removed although it also leaves by the edge that goes with it changes a run. */
  lemma UndecidedChanges(p0: Prog, s: Block, info: Info, p: Prog, users: Users, gone: map<Id, nat>, u: Id)
    requires ElimInv(p0, s, info, p, users) && Sifted(p0, p, gone)
    requires u in gone && u in p0.code && !Decided(p0, s, u, gone[u])
    ensures p.code.Keys == p0.code.Keys - gone.Keys && KeptEdge(p0, p, u, gone[u]) && !SameRuns(p0, p, s)
  {
    hide WellFormed, Left, UsersRight, Trusted, SameRuns, Decided, KeptEdge;
    RunsKeptExactly(p0, s, info, p, users);
    assert u !in p.code.Keys;
  }

  lemma ListedHere(p0: Prog, s: Block, info: Info, p: Prog, users: Users, b: Block, v: Id)
    requires ElimInv(p0, s, info, p, users) && v in p.Body(b)
    ensures v in p.code
  {
    hide WellFormed, Left, UsersRight, Trusted, RemovedDecided, SameRuns, Justified;
    BodyIs(p, s, b, v);
  }

  lemma BodyShrinks(p1: Prog, p: Prog, gone: map<Id, nat>, b: Block)
    requires Sifted(p1, p, gone)
    ensures |p.Body(b)| <= |p1.Body(b)| && Left(p1, p)
  {
    assert p.Body(b) <= p1.Body(b);
  }

  // ---------- with freshly found dominators ----------

  /** Lists found by the dominator analysis record nothing but strict dominance. */
  lemma FreshRecordsHold(g: Graph, s: Block, rpo: seq<BlockWithIndex>, info: Info)
    requires RpoList(g, s, rpo) && info.Correct(g, s, rpo)
    ensures RecordsHold(g.AllEdges(), s, info)
    ensures forall d, b :: info.Records(d, b) ==> Reach(g.AllEdges(), s, b)
  {
    hide SDom, Reach, DominatorsOf, DominatedOf;
    forall d, b | info.Records(d, b) ensures SDom(g.AllEdges(), s, d, b) && Reach(g.AllEdges(), s, b) {
      RecordedIsReached(g, s, rpo, info, d, b);
      RecordsIsStrictDominance(g, s, rpo, info, d, b);
    }
  }

  lemma RecordedIsReached(g: Graph, s: Block, rpo: seq<BlockWithIndex>, info: Info, d: Block, b: Block)
    requires RpoList(g, s, rpo) && info.Correct(g, s, rpo) && info.Records(d, b)
    ensures Reach(g.AllEdges(), s, b)
  {
    hide DominatorsOf, DominatedOf, ImmediateDom;
    assert b in BlocksOf(rpo);
    assert IsRpo(g, s, None, BlocksOf(rpo));
  }

  /** The hypothesis of the pass in terms of paths: where an outcome of a check dominates an equal check, its
      block is entered from the check's block only, apart from edges that come back from what it dominates. */
  ghost predicate OutcomesSeparate(p: Prog, s: Block) {
    forall g, u, k: nat ::
      (g in p.code && u in p.code && g != u && k < 2 && IsCheck(p.code[g].opcode) && ChecksEqual(p, g, u) &&
       k < |p.g.Succs(p.code[g].bb)| && DominatedBy(p, s, p.g.Succs(p.code[g].bb)[k], p.code[u].bb)) ==>
           GuardSound(p, s, g, k)
  }

  ghost predicate DominatedBy(p: Prog, s: Block, d: Block, b: Block) {
    d == b || (Reach(p.Edges(), s, b) && SDom(p.Edges(), s, d, b))
  }

  lemma SeparateIsTrusted(p: Prog, s: Block, rpo: seq<BlockWithIndex>, info: Info)
    requires RpoList(p.g, s, rpo) && info.Correct(p.g, s, rpo) && OutcomesSeparate(p, s)
    ensures Trusted(p, s, info)
  {
    hide ChecksEqual, GuardSound, Reach, SDom, Info.Correct, Info.Records, RpoList;
    FreshRecordsHold(p.g, s, rpo, info);
  }

  /** Finds the dominators afresh. */
  method FreshDominators(g: Graph, s: Block) returns (rpo: seq<BlockWithIndex>, info: Info)
    requires g.Closed() && g.Mirrored() && s in g.blocks
    ensures RpoList(g, s, rpo) && info.Correct(g, s, rpo)
  {
    hide *;
    var analyzer := new DominatorAnalyzer(g);
    rpo := analyzer.FindDominators(s);
    info := analyzer.Facts();
  }

  /** In terms of paths: no check of a reachable block has an outcome whose block is, or strictly dominates, the block
      of an equal check that shares its first operand; and no null check reads a null value of a reachable block.
      Dominance and reachability are those of the original graph. */
  ghost predicate NothingRedundant(p0: Prog, p: Prog, s: Block) {
    && (forall g, u, k: nat ::
          g in p.code && u in p.code && g != u && Reach(p0.Edges(), s, p.code[g].bb) &&
          (p.code[g].opcode.CheckNull? || p.code[g].opcode.CheckBounds?) && SharesFirst(p, g, u) &&
          SameCheck(p.code, g, u) && k < |p.g.Succs(p.code[g].bb)| ==>
            !DominatedBy(p0, s, p.g.Succs(p.code[g].bb)[k], p.code[u].bb))
    && (forall x, u ::
          x in p.code && u in p.code && Reach(p0.Edges(), s, p.code[x].bb) && p.code[x].opcode.NullInstr? &&
          p.code[u].opcode.CheckNull? ==>
            x !in p.Inputs(u))
  }

  /** Every removed check was a null check of the null value, or had an equal check whose outcome's block is, or
      strictly dominates, its own block; it keeps that outcome. */
  ghost predicate OnlyRedundant(p0: Prog, p: Prog, s: Block) {
    forall u :: u in p0.code && u !in p.code ==>
      (KeptEdge(p0, p, u, 0) && WasRedundant(p0, s, u, 0)) || (KeptEdge(p0, p, u, 1) && WasRedundant(p0, s, u, 1))
  }

  ghost predicate WasRedundant(p0: Prog, s: Block, u: Id, k: nat)
    requires u in p0.code
  {
    || (exists g :: g in p0.code && g != u && SameCheck(p0.code, g, u) && k < |p0.g.Succs(p0.code[g].bb)| &&
                    DominatedBy(p0, s, p0.g.Succs(p0.code[g].bb)[k], p0.code[u].bb))
    || (k == 0 && p0.code[u].opcode.CheckNull? && ReadsNull(p0, u))
  }

  lemma JustifiedByPaths(p0: Prog, p: Prog, s: Block, rpo: seq<BlockWithIndex>, info: Info)
    requires RpoList(p0.g, s, rpo) && info.Correct(p0.g, s, rpo) && Justified(p0, p, info)
    ensures OnlyRedundant(p0, p, s)
  {
    hide SameCheck, Reach, SDom, Info.Correct, Info.Records, RpoList, KeptEdge, ReadsNull;
    FreshRecordsHold(p0.g, s, rpo, info);
    forall u, k: nat | u in p0.code && Reason(p0, info, u, k) ensures WasRedundant(p0, s, u, k) {
      if g :| g in p0.code && g != u && SameCheck(p0.code, g, u) && Guarded(p0, info, g, k, u) {
        assert DominatedBy(p0, s, p0.g.Succs(p0.code[g].bb)[k], p0.code[u].bb);
      }
    }
    hide Reason, WasRedundant;
    forall u | u in p0.code && u !in p.code
      ensures (KeptEdge(p0, p, u, 0) && WasRedundant(p0, s, u, 0)) ||
              (KeptEdge(p0, p, u, 1) && WasRedundant(p0, s, u, 1))
    {
      assert JustifiedAt(p0, p, info, u);
    }
  }

  lemma NoneRedundant(p0: Prog, p: Prog, s: Block, rpo: seq<BlockWithIndex>, info: Info)
    requires RpoList(p0.g, s, rpo) && info.Correct(p0.g, s, rpo) && NoneGuarded(p, info, BlocksOf(rpo))
    ensures NothingRedundant(p0, p, s)
  {
    hide SameCheck, SharesFirst, Reach, SDom, Info.Correct, Info.Records, RpoList;
    forall b | Reach(p0.Edges(), s, b) ensures b in BlocksOf(rpo) {
      ReachedListed(p0.g, s, rpo, b);
    }
    forall d, b | DominatedBy(p0, s, d, b) ensures d == b || info.Records(d, b) {
      if d != b {
        RecordsIsStrictDominance(p0.g, s, rpo, info, d, b);
      }
    }
    hide DominatedBy;
  }

  lemma ReachedListed(g: Graph, s: Block, rpo: seq<BlockWithIndex>, b: Block)
    requires RpoList(g, s, rpo) && Reach(g.AllEdges(), s, b)
    ensures b in BlocksOf(rpo)
  {
    hide Reach;
    RpoHoldsReachable(g, s, BlocksOf(rpo), b);
  }

  /** Analyses the graph and eliminates its redundant checks. */
  method Run(graph: MethodGraph, s: Block)
    requires WellFormed(graph.Shape(), s) && s in graph.blocks && UsersRight(graph.Shape(), graph.users)
    modifies graph
    ensures WellFormed(graph.Shape(), s) && Left(old(graph.Shape()), graph.Shape())
    ensures old(ChecksCovered(graph.Shape(), graph.users)) ==>
              NothingRedundant(old(graph.Shape()), graph.Shape(), s)
    ensures OnlyRedundant(old(graph.Shape()), graph.Shape(), s)
    ensures SameRuns(old(graph.Shape()), graph.Shape(), s) <==> RemovedDecided(old(graph.Shape()), graph.Shape(), s)
    ensures old(OutcomesSeparate(graph.Shape(), s)) ==> SameRuns(old(graph.Shape()), graph.Shape(), s)
  {
    hide *;
    ghost var p, users := graph.Shape(), graph.users;
    EdgesAre(p, s);
    var rpo, dominators := FreshDominators(graph.Shape().g, s);
    if OutcomesSeparate(p, s) {
      SeparateIsTrusted(p, s, rpo, dominators);
    }
    var pass := new CheckElimination(graph, s, dominators);
    pass.EliminateRedundantChecks(BlocksOf(rpo));
    JustifiedByPaths(p, graph.Shape(), s, rpo, dominators);
    if ChecksCovered(p, users) {
      NoneRedundant(p, graph.Shape(), s, rpo, dominators);
    }
  }
}
