/** Removing a check that is decided before it is reached keeps every run
    (Passes/CheckElimination.cpp:12-60, 62-87). */
module CheckTheory {
  import opened Util
  import opened Cfg
  import opened Ir
  import opened Semantics
  import opened GraphEdits

  predicate IsCheck(op: Opcode) {
    op.CheckNull? || op.CheckBounds?
  }

  // ---------- dropping a check and one of its edges ----------

  /** The check `u` goes, and successor `i` of its block. */
  function DropCheck(p: Prog, u: Id, i: nat): Prog
    requires i < |p.g.Succs(p.BlockOf(u))|
  {
    DropInstr(CutEdge(p, p.BlockOf(u), i), u)
  }

  /** Checks end two-way blocks, have their operands and yield no value; the start has no phis. */
  ghost predicate WellFormed(p: Prog, s: Block) {
    && Runnable(p, s) && p.NoParallelEdges()
    && (forall u :: u in p.code && IsCheck(p.code[u].opcode) ==> CheckPlaced(p, u))
    && (forall v, x :: x in p.Inputs(v) && x in p.code ==> !IsBranch(p.code[x].opcode))
    && (forall v :: v in p.code && p.code[v].opcode.NullInstr? ==> p.code[v].ty == REF)
  }

  ghost predicate CheckPlaced(p: Prog, u: Id)
    requires u in p.code
  {
    var b := p.code[u].bb;
    && p.Body(b) != [] && p.Body(b)[|p.Body(b)| - 1] == u
    && |p.g.Succs(b)| == 2 && p.g.Succs(b)[0] != p.g.Succs(b)[1]
    && |p.Inputs(u)| == if p.code[u].opcode.CheckNull? then 1 else 2
  }

  lemma DropCheckFacts(p: Prog, s: Block, u: Id, i: nat)
    requires WellFormed(p, s) && u in p.code && IsCheck(p.code[u].opcode) && i < 2
    ensures var b, p' := p.code[u].bb, DropCheck(p, u, i);
            && p'.g == CutEdge(p, b, i).g
            && p'.g.Succs(b) == [p.g.Succs(b)[1 - i]]
            && (forall x :: x != b ==> p'.Body(x) == p.Body(x))
            && p'.Body(b) == p.Body(b)[..|p.Body(b)| - 1] && u !in p'.Body(b)
            && (forall x :: p'.Phis(x) == p.Phis(x))
            && p'.code.Keys == p.code.Keys - {u}
            && (forall v :: v in p'.code ==>
                p'.code[v].opcode == p.code[v].opcode && p'.code[v].bb == p.code[v].bb && p'.code[v].ty == p.code[v].ty)
            && (forall v :: v in p'.code && !p.code[v].opcode.Phi? ==> p'.code[v] == p.code[v])
  {
    hide Runnable, Ir.Prog.NoParallelEdges;
    var b := p.code[u].bb;
    var cut := CutEdge(p, b, i);
    CutEdgeFacts(p, b, i);
    WithoutLast(p, s, u);
    PhisAre(p, s, p.g.Succs(b)[i]);
    assert CheckPlaced(p, u);
    assert EraseAt(p.g.Succs(b), i) == [p.g.Succs(b)[1 - i]];
    hide CutEdge;
  }

  lemma CheckIsPlaced(p: Prog, s: Block, u: Id)
    requires WellFormed(p, s) && u in p.code && IsCheck(p.code[u].opcode)
    ensures CheckPlaced(p, u) && p.code[u].bb in p.g.blocks
  {
    hide Ir.Prog.Strict, Graph.Mirrored, Ir.Prog.NoParallelEdges;
    assert CheckPlaced(p, u);
    assert p.code[u].bb in p.body;
  }

  lemma BodyIs(p: Prog, s: Block, b: Block, v: Id)
    requires WellFormed(p, s) && v in p.Body(b)
    ensures v in p.code && p.code[v].bb == b && !p.code[v].opcode.Phi?
  {
    hide Ir.Prog.Strict, Graph.Mirrored, Ir.Prog.NoParallelEdges;
  }

  lemma EdgesAre(p: Prog, s: Block)
    requires WellFormed(p, s)
    ensures p.g.Closed() && p.g.Mirrored() && p.NoParallelEdges() && p.Placed() && p.Ssa(s) && PhiArity(p)
    ensures p.Phis(s) == []
    ensures Runnable(p, s)
  {
    hide Graph.Closed, Graph.Mirrored, Ir.Prog.NoParallelEdges, Ir.Prog.Placed;
  }

  lemma PhisAre(p: Prog, s: Block, c: Block)
    requires WellFormed(p, s)
    ensures forall v :: v in p.Phis(c) ==> v in p.code && p.code[v].opcode.Phi? && p.code[v].bb == c
  {
    hide Ir.Prog.Strict, Graph.Mirrored, Ir.Prog.NoParallelEdges;
  }

  lemma WithoutLast(p: Prog, s: Block, u: Id)
    requires WellFormed(p, s) && u in p.code && IsCheck(p.code[u].opcode)
    ensures var body := p.Body(p.code[u].bb); Without(body, u) == body[..|body| - 1] && u !in body[..|body| - 1]
  {
    var body := p.Body(p.code[u].bb);
    assert CheckPlaced(p, u);
    DistinctSplit(body, |body| - 1, u);
    assert body == body[..|body| - 1] + [u];
    WithoutAppend(body[..|body| - 1], u);
  }

  lemma {:induction false} WithoutAppend(xs: seq<nat>, u: nat)
    requires u !in xs
    ensures Without(xs + [u], u) == xs
  {
    if xs == [] {
      assert xs + [u] == [u];
    } else {
      assert (xs + [u])[1..] == xs[1..] + [u];
      WithoutAppend(xs[1..], u);
    }
  }

  // ---------- the shape is kept ----------

  lemma DropMirror(p: Prog, s: Block, u: Id, i: nat)
    requires WellFormed(p, s) && u in p.code && IsCheck(p.code[u].opcode) && i < 2
    ensures var p' := DropCheck(p, u, i);
            && p'.g.Mirrored() && p'.NoParallelEdges() && PhiArity(p') && SamePairing(p, p')
            && p'.g.blocks == p.g.blocks && p'.g.Closed()
            && p'.Edges() <= p.Edges()
  {
    hide WellFormed, DropCheck, Graph.Mirrored, Graph.Closed, Ir.Prog.Placed, PhiArity, SamePairing;
    var b := p.code[u].bb;
    CheckIsPlaced(p, s, u);
    EdgesAre(p, s);
    CutKeepsMirror(p, b, i);
    CutKeepsPhis(p, b, i);
    DropCheckFacts(p, s, u, i);
    CutClosed(p, b, i);
    PairingAfterDrop(p, s, u, i);
    hide CutEdge;
    assert DropCheck(p, u, i).NoParallelEdges();
  }

  lemma CutClosed(p: Prog, b: Block, i: nat)
    requires p.g.Closed() && i < |p.g.Succs(b)|
    ensures CutEdge(p, b, i).g.Closed() && CutEdge(p, b, i).Edges() <= p.Edges()
  {
    CutEdgeFacts(p, b, i);
    var p' := CutEdge(p, b, i);
    assert p.g.Succs(b)[i] in p.g.Succs(b);
    assert b in p.g.succs;
    forall u: Block, v: Block | v in p'.g.Succs(u) ensures v in p.g.Succs(u) {
    }
    forall u: Block, v: Block | (u, v) in p'.Edges() ensures (u, v) in p.Edges() {
      EdgeIsSucc(p'.g, u, v);
      EdgeIsSucc(p.g, u, v);
    }
  }

  /** Dropping a body instruction does not touch phis. */
  lemma DropPhi(p: Prog, s: Block, u: Id, i: nat, c: Block, q: Id)
    requires WellFormed(p, s) && u in p.code && IsCheck(p.code[u].opcode) && i < 2 && q in p.Phis(c)
    ensures q != u && DropCheck(p, u, i).Inputs(q) == CutEdge(p, p.code[u].bb, i).Inputs(q)
  {
    hide WellFormed;
    CheckIsPlaced(p, s, u);
    PhisAre(p, s, c);
    CutEdgeFacts(p, p.code[u].bb, i);
    hide CutEdge;
  }

  lemma PairingAfterDrop(p: Prog, s: Block, u: Id, i: nat)
    requires WellFormed(p, s) && u in p.code && IsCheck(p.code[u].opcode) && i < |p.g.Succs(p.code[u].bb)| && i < 2
    requires PhiArity(CutEdge(p, p.code[u].bb, i)) && SamePairing(p, CutEdge(p, p.code[u].bb, i))
    ensures PhiArity(DropCheck(p, u, i)) && SamePairing(p, DropCheck(p, u, i))
  {
    hide WellFormed, DropCheck;
    var cut, p' := CutEdge(p, p.code[u].bb, i), DropCheck(p, u, i);
    CutEdgeFacts(p, p.code[u].bb, i);
    DropCheckFacts(p, s, u, i);
    hide CutEdge, Incoming;
    forall c, q | q in p'.Phis(c) ensures |p'.Inputs(q)| == |p'.g.Preds(c)| {
      DropPhi(p, s, u, i, c, q);
      assert q in cut.Phis(c);
    }
    forall x, c, q | q in p'.Phis(c) && x in p'.g.Preds(c) ensures Incoming(p', x, c, q) == Incoming(p, x, c, q) {
      DropPhi(p, s, u, i, c, q);
      assert q in cut.Phis(c) && x in cut.g.Preds(c);
      SameIncoming(p', cut, x, c, q);
    }
  }

  lemma SameIncoming(p: Prog, p': Prog, x: Block, c: Block, q: Id)
    requires p.g == p'.g && p.Inputs(q) == p'.Inputs(q)
    ensures Incoming(p, x, c, q) == Incoming(p', x, c, q)
  {
  }

  lemma DropFields(p: Prog, s: Block, u: Id, i: nat)
    requires WellFormed(p, s) && u in p.code && IsCheck(p.code[u].opcode) && i < 2
    ensures var p' := DropCheck(p, u, i);
            p'.g.blocks == p.g.blocks && forall b :: b in p'.phis || b in p'.body ==> b in p'.g.blocks
  {
    hide WellFormed;
    CheckIsPlaced(p, s, u);
    EdgesAre(p, s);
    hide Ir.Prog.Ssa, Graph.Mirrored, Graph.Closed;
  }

  lemma DropDistinct(p: Prog, s: Block, u: Id, i: nat, b: Block)
    requires WellFormed(p, s) && u in p.code && IsCheck(p.code[u].opcode) && i < 2
    ensures Distinct(DropCheck(p, u, i).Phis(b)) && Distinct(DropCheck(p, u, i).Body(b))
  {
    hide WellFormed, DropCheck;
    DropCheckFacts(p, s, u, i);
    EdgesAre(p, s);
    hide Ir.Prog.Ssa, Graph.Mirrored, Graph.Closed, CutEdge;
    assert Distinct(p.Phis(b)) && Distinct(p.Body(b));
  }

  lemma DropPlaced(p: Prog, s: Block, u: Id, i: nat)
    requires WellFormed(p, s) && u in p.code && IsCheck(p.code[u].opcode) && i < 2
    ensures DropCheck(p, u, i).Placed()
  {
    hide WellFormed, DropCheck, CutEdge, Ir.Prog.Placed;
    CheckIsPlaced(p, s, u);
    var p' := DropCheck(p, u, i);
    DropCheckFacts(p, s, u, i);
    DropFields(p, s, u, i);
    hide Ir.Prog.Phis, Ir.Prog.Body, Graph.Succs;
    forall b, v | v in p'.Phis(b) ensures IsPhiOf(p', v, b) {
      PhisAre(p, s, b);
    }
    forall b, v | v in p'.Body(b) ensures IsBodyOf(p', v, b) {
      BodyIs(p, s, b, v);
    }
    forall v | v in p'.code ensures IsListed(p', v) {
      DropListed(p, s, u, v);
    }
    forall b ensures Distinct(p'.Phis(b)) && Distinct(p'.Body(b)) {
      DropDistinct(p, s, u, i, b);
    }
    PlacedBy(p');
  }

  lemma DropListed(p: Prog, s: Block, u: Id, v: Id)
    requires WellFormed(p, s) && u in p.code && IsCheck(p.code[u].opcode) && v in p.code && v != u
    ensures if p.code[v].opcode.Phi? then v in p.Phis(p.code[v].bb)
            else v in p.Body(p.code[v].bb) && (p.code[v].bb == p.code[u].bb ==>
                   p.Body(p.code[u].bb) != [] && v in p.Body(p.code[u].bb)[..|p.Body(p.code[u].bb)| - 1])
  {
    hide WellFormed;
    CheckIsPlaced(p, s, u);
    EdgesAre(p, s);
    hide Ir.Prog.Ssa, Graph.Mirrored, Graph.Closed;
    var body := p.Body(p.code[u].bb);
    assert body == body[..|body| - 1] + [u];
  }

  /** Less edges, more dominance: what was available stays available. */
  lemma DropAvailable(p: Prog, s: Block, u: Id, i: nat, x: Id, b: Block, k: nat)
    requires WellFormed(p, s) && u in p.code && IsCheck(p.code[u].opcode) && i < 2
    requires x != u && p.Available(s, x, b, k)
    ensures DropCheck(p, u, i).Available(s, x, b, k)
  {
    hide WellFormed, DropCheck, Dom;
    CheckIsPlaced(p, s, u);
    var p' := DropCheck(p, u, i);
    DropCheckFacts(p, s, u, i);
    DropMirror(p, s, u, i);
    hide Graph.Mirrored, Graph.Closed, PhiArity, SamePairing, CutEdge;
    if p.code[x].bb != b {
      DomMono(p.Edges(), p'.Edges(), s, p.code[x].bb, b);
    } else if b == p.code[u].bb && !p.code[x].opcode.Phi? {
      PrefixKeeps(p.Body(b), k, x);
    }
  }

  lemma PrefixKeeps(body: seq<Id>, k: nat, x: Id)
    requires body != [] && x != body[|body| - 1] && x in body[..if k <= |body| then k else |body|]
    ensures var rest := body[..|body| - 1]; x in rest[..if k <= |rest| then k else |rest|]
  {
    var n := if k <= |body| then k else |body|;
    var j := FirstIndex(body[..n], x);
    var rest := body[..|body| - 1];
    assert body[j] == x && j < |body| - 1;
    assert rest[..if k <= |rest| then k else |rest|][j] == x;
  }

  lemma DropStrict(p: Prog, s: Block, u: Id, i: nat)
    requires WellFormed(p, s) && u in p.code && IsCheck(p.code[u].opcode) && i < 2
    ensures DropCheck(p, u, i).Strict(s)
  {
    var p' := DropCheck(p, u, i);
    DropCheckFacts(p, s, u, i);
    DropMirror(p, s, u, i);
    hide DropCheck, WellFormed, Ir.Prog.Available;
    forall b, k, x | 0 <= k < |p'.Body(b)| && x in p'.Inputs(p'.Body(b)[k]) ensures p'.Available(s, x, b, k) {
      BodyUse(p, s, u, i, b, k, x);
    }
    forall b, q, j | q in p'.Phis(b) && 0 <= j < |p'.Inputs(q)| && j < |p'.g.Preds(b)|
      ensures p'.Available(s, p'.Inputs(q)[j], p'.g.Preds(b)[j], |p'.Body(p'.g.Preds(b)[j])|)
    {
      PhiUse(p, s, u, i, b, q, j);
    }
  }

  lemma BodyUse(p: Prog, s: Block, u: Id, i: nat, b: Block, k: nat, x: Id)
    requires WellFormed(p, s) && u in p.code && IsCheck(p.code[u].opcode) && i < 2
    requires k < |DropCheck(p, u, i).Body(b)| && x in DropCheck(p, u, i).Inputs(DropCheck(p, u, i).Body(b)[k])
    ensures DropCheck(p, u, i).Available(s, x, b, k)
  {
    hide WellFormed, DropCheck, Ir.Prog.Available;
    DropCheckFacts(p, s, u, i);
    CheckIsPlaced(p, s, u);
    hide CutEdge;
    var v := p.Body(b)[k];
    BodyIs(p, s, b, v);
    UseIs(p, s, b, k, x);
    DropAvailable(p, s, u, i, x, b, k);
  }

  lemma UseIs(p: Prog, s: Block, b: Block, k: nat, x: Id)
    requires WellFormed(p, s) && k < |p.Body(b)| && x in p.Inputs(p.Body(b)[k])
    ensures p.Available(s, x, b, k) && x in p.code && !IsBranch(p.code[x].opcode)
  {
    hide Ir.Prog.Placed, Graph.Mirrored, Ir.Prog.NoParallelEdges, Dom;
    assert p.Available(s, x, b, k);
  }

  lemma InputIsIncoming(p: Prog, b: Block, q: Id, j: nat)
    requires p.NoParallelEdges() && j < |p.Inputs(q)| && j < |p.g.Preds(b)|
    ensures Incoming(p, p.g.Preds(b)[j], b, q) == Some(p.Inputs(q)[j])
  {
    IndexUnique(p.g.Preds(b), j);
  }

  lemma IncomingAvailable(p: Prog, s: Block, pred: Block, b: Block, q: Id)
    requires WellFormed(p, s) && q in p.Phis(b) && Incoming(p, pred, b, q).Some?
    ensures var x := Incoming(p, pred, b, q).value;
            p.Available(s, x, pred, |p.Body(pred)|) && x in p.code && !IsBranch(p.code[x].opcode)
  {
    hide Ir.Prog.Placed, Ir.Prog.Available, Graph.Mirrored, Graph.Closed, Ir.Prog.NoParallelEdges;
    var n := FirstIndex(p.g.Preds(b), pred);
    AvailableExists(p, s, p.Inputs(q)[n], pred, |p.Body(pred)|);
    assert p.g.Preds(b)[n] == pred;
    assert p.Available(s, p.Inputs(q)[n], p.g.Preds(b)[n], |p.Body(p.g.Preds(b)[n])|);
  }

  lemma PhiUse(p: Prog, s: Block, u: Id, i: nat, b: Block, q: Id, j: nat)
    requires WellFormed(p, s) && u in p.code && IsCheck(p.code[u].opcode) && i < 2
    requires q in DropCheck(p, u, i).Phis(b)
    requires j < |DropCheck(p, u, i).Inputs(q)| && j < |DropCheck(p, u, i).g.Preds(b)|
    ensures var p' := DropCheck(p, u, i);
            p'.Available(s, p'.Inputs(q)[j], p'.g.Preds(b)[j], |p'.Body(p'.g.Preds(b)[j])|)
  {
    hide WellFormed, DropCheck, Ir.Prog.Available, Incoming;
    CheckIsPlaced(p, s, u);
    var p' := DropCheck(p, u, i);
    DropCheckFacts(p, s, u, i);
    DropMirror(p, s, u, i);
    hide CutEdge;
    var pred := p'.g.Preds(b)[j];
    InputIsIncoming(p', b, q, j);
    assert Incoming(p, pred, b, q) == Some(p'.Inputs(q)[j]);
    var x := p'.Inputs(q)[j];
    IncomingAvailable(p, s, pred, b, q);
    DropAvailable(p, s, u, i, x, pred, |p.Body(pred)|);
    AvailableAtEnd(p', s, x, pred, |p.Body(pred)|);
  }

  lemma AvailableAtEnd(p: Prog, s: Block, x: Id, b: Block, k: nat)
    requires p.Available(s, x, b, k) && k >= |p.Body(b)|
    ensures p.Available(s, x, b, |p.Body(b)|)
  {
  }

  lemma DropWellFormed(p: Prog, s: Block, u: Id, i: nat)
    requires WellFormed(p, s) && u in p.code && IsCheck(p.code[u].opcode) && i < 2
    ensures WellFormed(DropCheck(p, u, i), s)
  {
    var p' := DropCheck(p, u, i);
    DropCheckFacts(p, s, u, i);
    DropMirror(p, s, u, i);
    DropPlaced(p, s, u, i);
    DropStrict(p, s, u, i);
    hide DropCheck, Ir.Prog.Placed, Ir.Prog.Strict;
    forall v | v in p'.code && IsCheck(p'.code[v].opcode) ensures CheckPlaced(p', v) {
      CheckStays(p, s, u, i, v);
    }
    forall v, x | x in p'.Inputs(v) && x in p'.code ensures !IsBranch(p'.code[x].opcode) {
      InputsStay(p, s, u, i, v, x);
    }
  }

  lemma InputsStay(p: Prog, s: Block, u: Id, i: nat, v: Id, x: Id)
    requires WellFormed(p, s) && u in p.code && IsCheck(p.code[u].opcode) && i < 2
    requires x in DropCheck(p, u, i).Inputs(v)
    ensures x in p.Inputs(v)
  {
    hide WellFormed;
    CheckIsPlaced(p, s, u);
    hide Graph.Succs, Graph.Preds;
  }

  lemma CheckStays(p: Prog, s: Block, u: Id, i: nat, v: Id)
    requires WellFormed(p, s) && u in p.code && IsCheck(p.code[u].opcode) && i < 2
    requires v in p.code && v != u && IsCheck(p.code[v].opcode)
    ensures p.code[v].bb != p.code[u].bb && v in DropCheck(p, u, i).code && CheckPlaced(DropCheck(p, u, i), v)
    ensures DropCheck(p, u, i).g.Succs(p.code[v].bb) == p.g.Succs(p.code[v].bb)
  {
    hide WellFormed, DropCheck;
    CheckIsPlaced(p, s, u);
    CheckIsPlaced(p, s, v);
    DropCheckFacts(p, s, u, i);
    CutEdgeFacts(p, p.code[u].bb, i);
    hide CutEdge;
  }

  // ---------- a decided check ----------

  /** Whenever a run is at the end of the check's block, it leaves by successor `keep`. */
  ghost predicate Decided(p: Prog, s: Block, u: Id, keep: nat)
    requires u in p.code
  {
    forall w, n :: Exec(p, s, w, n).At? && Exec(p, s, w, n).b == p.code[u].bb ==>
      VerdictOf(p, w, RunBody(p, w, Exec(p, s, w, n).st, p.code[u].bb).env, u) == (keep == 0)
  }

  ghost predicate SameRuns(p: Prog, p': Prog, s: Block) {
    forall w, n :: Exec(p', s, w, n) == Exec(p, s, w, n)
  }

  lemma {:induction false} SameBody(p: Prog, p': Prog, w: World, st: Store, b: Block, k: nat)
    requires k <= |p'.Body(b)| && p'.Body(b) <= p.Body(b)
    requires forall v :: v in p'.Body(b) ==> v in p.code && v in p'.code && p'.code[v] == p.code[v]
    ensures RunTo(p', w, st, b, k) == RunTo(p, w, st, b, k)
  {
    if k > 0 {
      SameBody(p, p', w, st, b, k - 1);
      assert p'.Body(b)[k - 1] == p.Body(b)[k - 1];
    }
  }

  /** A body without its final branch does the same. */
  lemma SameRunBody(p: Prog, s: Block, u: Id, i: nat, w: World, st: Store, b: Block)
    requires WellFormed(p, s) && u in p.code && IsCheck(p.code[u].opcode) && i < 2
    ensures RunBody(DropCheck(p, u, i), w, st, b) == RunBody(p, w, st, b)
  {
    hide WellFormed, DropCheck;
    CheckIsPlaced(p, s, u);
    var p' := DropCheck(p, u, i);
    DropCheckFacts(p, s, u, i);
    hide CutEdge;
    forall v | v in p'.Body(b) ensures v in p.code && v in p'.code && p'.code[v] == p.code[v] {
      BodyIs(p, s, b, v);
    }
    SameBody(p, p', w, st, b, |p'.Body(b)|);
    if b == p.code[u].bb {
      BranchDoesNothing(p, w, RunTo(p, w, st, b, |p'.Body(b)|), u);
    }
  }

  lemma BranchDoesNothing(p: Prog, w: World, st: Store, u: Id)
    requires u in p.code && IsBranch(p.code[u].opcode)
    ensures RunInstr(p, w, st, u) == st
  {
  }

  lemma SamePhiValue(p: Prog, s: Block, u: Id, i: nat, env: Env, b: Block, c: Block, q: Id)
    requires WellFormed(p, s) && u in p.code && IsCheck(p.code[u].opcode) && i < 2
    requires c in DropCheck(p, u, i).g.Succs(b) && q in p.Phis(c)
    ensures PhiValue(DropCheck(p, u, i), env, b, c, q) == PhiValue(p, env, b, c, q)
  {
    hide WellFormed, DropCheck, Incoming, Coerce, Graph.Closed, PhiArity;
    CheckIsPlaced(p, s, u);
    var p' := DropCheck(p, u, i);
    DropCheckFacts(p, s, u, i);
    DropMirror(p, s, u, i);
    EdgeIsSucc(p'.g, b, c);
    EdgeIsPred(p'.g, b, c);
    PhisAre(p, s, c);
    assert Incoming(p', b, c, q) == Incoming(p, b, c, q);
    hide CutEdge, SamePairing, Graph.Mirrored, Ir.Prog.NoParallelEdges;
    assert q != u;
  }

  lemma SameEnter(p: Prog, s: Block, u: Id, i: nat, st: Store, b: Block, c: Block)
    requires WellFormed(p, s) && u in p.code && IsCheck(p.code[u].opcode) && i < 2
    requires c in DropCheck(p, u, i).g.Succs(b)
    ensures Enter(DropCheck(p, u, i), st, b, c) == Enter(p, st, b, c)
  {
    hide WellFormed, DropCheck, PhiValue;
    CheckIsPlaced(p, s, u);
    var p' := DropCheck(p, u, i);
    DropCheckFacts(p, s, u, i);
    hide CutEdge;
    forall q | q in p.Phis(c) ensures PhiValue(p', st.env, b, c, q) == PhiValue(p, st.env, b, c, q) {
      SamePhiValue(p, s, u, i, st.env, b, c, q);
    }
  }

  lemma SameTaken(p: Prog, s: Block, u: Id, i: nat, w: World, env: Env, b: Block)
    requires WellFormed(p, s) && u in p.code && IsCheck(p.code[u].opcode) && i < 2 && p.g.Succs(b) != []
    requires b == p.code[u].bb ==> VerdictOf(p, w, env, u) == (1 - i == 0)
    ensures DropCheck(p, u, i).g.Succs(b) != []
    ensures Taken(DropCheck(p, u, i), w, env, b) == Taken(p, w, env, b)
  {
    hide WellFormed, DropCheck, Verdict;
    CheckIsPlaced(p, s, u);
    var p' := DropCheck(p, u, i);
    DropCheckFacts(p, s, u, i);
    CutEdgeFacts(p, p.code[u].bb, i);
    hide CutEdge;
    if b != p.code[u].bb && p.Body(b) != [] {
      LastStays(p, s, u, i, b);
    }
  }

  lemma LastStays(p: Prog, s: Block, u: Id, i: nat, b: Block)
    requires WellFormed(p, s) && u in p.code && IsCheck(p.code[u].opcode) && i < 2
    requires b != p.code[u].bb && p.Body(b) != []
    ensures var v := p.Body(b)[|p.Body(b)| - 1];
            v in p.code && v in DropCheck(p, u, i).code && DropCheck(p, u, i).code[v] == p.code[v]
  {
    hide WellFormed, DropCheck, CutEdge;
    DropCheckFacts(p, s, u, i);
    BodyIs(p, s, b, p.Body(b)[|p.Body(b)| - 1]);
  }

  lemma HaltsTogether(p: Prog, s: Block, u: Id, i: nat, b: Block)
    requires WellFormed(p, s) && u in p.code && IsCheck(p.code[u].opcode) && i < 2
    ensures DropCheck(p, u, i).g.Succs(b) == [] <==> p.g.Succs(b) == []
  {
    hide WellFormed, DropCheck;
    DropCheckFacts(p, s, u, i);
    CheckIsPlaced(p, s, u);
    CutEdgeFacts(p, p.code[u].bb, i);
    hide CutEdge;
  }

  /** Dropping a decided check, with the edge that is never taken, leaves every run as it was. */
  lemma {:induction false} DropKeepsRun(p: Prog, s: Block, u: Id, i: nat, w: World, n: nat)
    requires WellFormed(p, s) && u in p.code && IsCheck(p.code[u].opcode) && i < 2 && Decided(p, s, u, 1 - i)
    ensures Exec(DropCheck(p, u, i), s, w, n) == Exec(p, s, w, n)
  {
    hide WellFormed, DropCheck, RunBody, Taken, Enter, VerdictOf;
    if n > 0 {
      CheckIsPlaced(p, s, u);
      DropKeepsRun(p, s, u, i, w, n - 1);
      var p', c := DropCheck(p, u, i), Exec(p, s, w, n - 1);
      if c.At? {
        var after := RunBody(p, w, c.st, c.b);
        SameRunBody(p, s, u, i, w, c.st, c.b);
        HaltsTogether(p, s, u, i, c.b);
        if p.g.Succs(c.b) != [] {
          SameTaken(p, s, u, i, w, after.env, c.b);
          var next := Taken(p', w, after.env, c.b);
          TakenIsSucc(p', w, after.env, c.b);
          SameEnter(p, s, u, i, after, c.b, next);
        }
      }
    }
  }

  lemma DropKeepsRuns(p: Prog, s: Block, u: Id, i: nat)
    requires WellFormed(p, s) && u in p.code && IsCheck(p.code[u].opcode) && i < 2 && Decided(p, s, u, 1 - i)
    ensures SameRuns(p, DropCheck(p, u, i), s)
  {
    hide WellFormed, DropCheck, Decided, Exec;
    CheckIsPlaced(p, s, u);
    forall w, n ensures Exec(DropCheck(p, u, i), s, w, n) == Exec(p, s, w, n) {
      DropKeepsRun(p, s, u, i, w, n);
    }
  }

  /** Where runs are the same and one successor is left, that is the one taken. */
  lemma LeavesByTheRest(p: Prog, p': Prog, s: Block, w: World, n: nat, b: Block, c: Block)
    requires SameRuns(p, p', s) && Exec(p, s, w, n).At? && Exec(p, s, w, n).b == b
    requires p.g.Succs(b) != [] && p'.g.Succs(b) == [c]
    ensures Taken(p, w, RunBody(p, w, Exec(p, s, w, n).st, b).env, b) == c
  {
    hide RunBody, Taken, Enter;
    var st := Exec(p, s, w, n).st;
    assert Exec(p, s, w, n + 1) == Step(p, w, Exec(p, s, w, n));
    assert Exec(p', s, w, n + 1) == Step(p', w, Exec(p', s, w, n));
    TakenIsSucc(p', w, RunBody(p', w, st, b).env, b);
  }
}
