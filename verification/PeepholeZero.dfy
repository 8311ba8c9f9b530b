/** Putting a new zero in place of an over-shift (Passes/peepholes.cpp:76-85). */
module PeepholeZero {
  import opened Util
  import opened Cfg
  import opened Ir
  import opened Semantics
  import opened GraphEdits
  import opened PeepholeArith
  import opened PeepholeTheory
  import opened PeepholeRuns
  import opened PeepholeRules

  /** A new constant zero of the same type right after `v`. */
  function InsertZero(p: Prog, v: Id, z: Id): Prog
    requires v in p.code && v in p.Body(p.code[v].bb)
  {
    AddConstantAfter(p, v, z, p.code[v].ty, 0)
  }

  /** A pure instruction, and an id that is not yet in use. */
  ghost predicate CanInsert(p: Prog, s: Block, v: Id, z: Id) {
    PeepOk(p, s) && v in p.code && IsPure(p.code[v].opcode) && z !in p.code
  }

  lemma CanInsertBody(p: Prog, s: Block, v: Id, z: Id)
    requires CanInsert(p, s, v, z)
    ensures v in p.Body(p.code[v].bb) && Distinct(p.Body(p.code[v].bb))
    ensures forall b :: v in p.Body(b) ==> b == p.code[v].bb
  {
    hide PeepOk;
    PeepFacts(p, s);
    hide Graph.Closed, Graph.Mirrored, Ir.Prog.Ssa;
    InBody(p, v);
  }

  lemma InsertFacts(p: Prog, s: Block, v: Id, z: Id)
    requires CanInsert(p, s, v, z)
    ensures v in p.Body(p.code[v].bb)
    ensures var p1, b0 := InsertZero(p, v, z), p.code[v].bb;
            && p1.g == p.g && p1.phis == p.phis && p1.Edges() == p.Edges()
            && p1.Body(b0) == InsertAt(p.Body(b0), FirstIndex(p.Body(b0), v), z)
            && (forall b :: b != b0 ==> p1.Body(b) == p.Body(b))
            && (forall b :: b in p1.body ==> b in p.body)
            && (forall u :: u in p1.code <==> u in p.code || u == z)
            && (forall u :: u in p.code ==> p1.code[u] == p.code[u])
            && p1.code[z] == Instr(Constant(0), p.code[v].ty, [], b0)
  {
    hide PeepOk, InsertAt;
    CanInsertBody(p, s, v, z);
  }

  lemma Unlisted(p: Prog, s: Block, v: Id, z: Id, b: Block)
    requires CanInsert(p, s, v, z)
    ensures z !in p.Body(b) && z !in p.Phis(b)
  {
    hide PeepOk;
    Listed(p, s, b, z);
  }

  lemma InsertedAt(body: seq<Id>, j: nat, z: Id, a: nat)
    requires j < |body| && a <= |body|
    ensures |InsertAt(body, j, z)| == |body| + 1
    ensures InsertAt(body, j, z)[a] == if a <= j then body[a] else if a == j + 1 then z else body[a - 1]
  {
  }

  lemma InsertMembers(body: seq<Id>, j: nat, z: Id, u: Id)
    requires j < |body| && Distinct(body) && z !in body
    ensures u in InsertAt(body, j, z) <==> u in body || u == z
    ensures Distinct(InsertAt(body, j, z)) && FirstIndex(InsertAt(body, j, z), z) == j + 1
    ensures EraseAt(InsertAt(body, j, z), j + 1) == body
  {
    var r := InsertAt(body, j, z);
    InsertIsBetween(body, j, z, u);
    hide InsertAt;
    InsertedAt(body, j, z, j + 1);
    forall a, c | 0 <= a < c < |r| ensures r[a] != r[c] {
      InsertedAt(body, j, z, a);
      InsertedAt(body, j, z, c);
    }
    IndexUnique(r, j + 1);
  }

  lemma InsertIsBetween(body: seq<Id>, j: nat, z: Id, u: Id)
    requires j < |body|
    ensures u in InsertAt(body, j, z) <==> u in body || u == z
    ensures EraseAt(InsertAt(body, j, z), j + 1) == body
  {
    assert body == body[..j + 1] + body[j + 1..];
  }

  lemma InsertPlaced(p: Prog, s: Block, v: Id, z: Id)
    requires CanInsert(p, s, v, z)
    ensures v in p.Body(p.code[v].bb) && InsertZero(p, v, z).Placed()
  {
    hide CanInsert, PeepOk, InsertAt, Ir.Prog.Placed, InsertZero;
    InsertBasics(p, s, v, z);
    var p1, b0 := InsertZero(p, v, z), p.code[v].bb;
    forall b, u | u in p1.Phis(b) ensures IsPhiOf(p1, u, b) {
      Listed(p, s, b, u);
    }
    forall b, u | u in p1.Body(b) ensures IsBodyOf(p1, u, b) {
      InsertedBody(p, s, v, z, b, u);
      Listed(p, s, b, u);
    }
    forall u | u in p1.code ensures IsListed(p1, u) {
      InsertedBody(p, s, v, z, p1.code[u].bb, u);
      Listed(p, s, p1.code[u].bb, u);
    }
    forall b ensures Distinct(p1.Phis(b)) && Distinct(p1.Body(b)) {
      InsertedBody(p, s, v, z, b, v);
    }
    forall b | b in p1.phis || b in p1.body ensures b in p1.g.blocks {
      Listed(p, s, b, v);
    }
    PlacedBy(p1);
  }

  lemma InsertBasics(p: Prog, s: Block, v: Id, z: Id)
    requires CanInsert(p, s, v, z)
    ensures PeepOk(p, s) && v in p.code && v in p.Body(p.code[v].bb) && z !in p.code
    ensures var p1, b0 := InsertZero(p, v, z), p.code[v].bb;
            && p1.g == p.g && p1.phis == p.phis && p1.Edges() == p.Edges() && (forall b :: p1.Phis(b) == p.Phis(b))
            && (forall b :: b in p1.body ==> b in p.body)
            && (forall u :: u in p1.code <==> u in p.code || u == z)
            && (forall u :: u in p.code ==> p1.code[u] == p.code[u])
            && p1.code[z] == Instr(Constant(0), p.code[v].ty, [], b0)
  {
    hide PeepOk, InsertAt;
    InsertFacts(p, s, v, z);
  }

  lemma InsertedBody(p: Prog, s: Block, v: Id, z: Id, b: Block, u: Id)
    requires CanInsert(p, s, v, z)
    ensures v in p.code && v in p.Body(p.code[v].bb)
    ensures u in InsertZero(p, v, z).Body(b) <==> u in p.Body(b) || (u == z && b == p.code[v].bb)
    ensures Distinct(InsertZero(p, v, z).Body(b)) && Distinct(p.Phis(b)) && Distinct(p.Body(b))
  {
    hide PeepOk, InsertAt, InsertZero;
    InsertFacts(p, s, v, z);
    PeepFacts(p, s);
    hide Graph.Closed, Graph.Mirrored, Ir.Prog.Ssa;
    assert Distinct(p.Body(b)) && Distinct(p.Phis(b));
    hide Ir.Prog.Placed;
    Unlisted(p, s, v, z, b);
    if b == p.code[v].bb {
      InsertMembers(p.Body(b), FirstIndex(p.Body(b), v), z, u);
    }
  }

  // ---------- availability ----------

  /** Where position `k` of the old body is in the new one. */
  function Shifted(p: Prog, v: Id, b: Block, k: nat): nat {
    if v in p.Body(b) && FirstIndex(p.Body(b), v) < k then k + 1 else k
  }

  lemma InsertPrefix(body: seq<Id>, j: nat, z: Id, k: nat, x: Id)
    requires j < |body| && k <= |body| && x in body[..k]
    ensures x in InsertAt(body, j, z)[..if j < k then k + 1 else k]
  {
    var i := FirstIndex(body[..k], x);
    var i' := if i <= j then i else i + 1;
    assert InsertAt(body, j, z)[..if j < k then k + 1 else k][i'] == x;
  }

  lemma AvailableShifts(p: Prog, s: Block, v: Id, z: Id, x: Id, b: Block, k: nat)
    requires CanInsert(p, s, v, z) && k <= |p.Body(b)| && p.Available(s, x, b, k)
    ensures v in p.Body(p.code[v].bb) && InsertZero(p, v, z).Available(s, x, b, Shifted(p, v, b, k))
  {
    hide PeepOk, InsertZero, Dom;
    InsertFacts(p, s, v, z);
    CanInsertBody(p, s, v, z);
    if p.code[x].bb == b && !p.code[x].opcode.Phi? && v in p.Body(b) {
      InsertPrefix(p.Body(b), FirstIndex(p.Body(b), v), z, k, x);
    }
  }

  /** Where the operation is available, so is the zero after it. */
  lemma ZeroAvailable(p: Prog, s: Block, v: Id, z: Id, b: Block, k: nat)
    requires CanInsert(p, s, v, z) && k <= |p.Body(b)| && p.Available(s, v, b, k)
    ensures v in p.Body(p.code[v].bb) && InsertZero(p, v, z).Available(s, z, b, Shifted(p, v, b, k))
  {
    hide PeepOk, InsertZero, Dom;
    InsertFacts(p, s, v, z);
    CanInsertBody(p, s, v, z);
    if p.code[v].bb == b {
      var body, j := p.Body(b), FirstIndex(p.Body(b), v);
      var i := FirstIndex(body[..k], v);
      IndexUnique(body, i);
      assert InsertAt(body, j, z)[..k + 1][j + 1] == z;
    }
  }

  /** The old position of an instruction of the new body. */
  lemma ShiftedBack(p: Prog, s: Block, v: Id, z: Id, b: Block, k: nat) returns (n: nat)
    requires CanInsert(p, s, v, z)
    requires v in p.Body(p.code[v].bb) && k < |InsertZero(p, v, z).Body(b)| && InsertZero(p, v, z).Body(b)[k] != z
    ensures n < |p.Body(b)| && p.Body(b)[n] == InsertZero(p, v, z).Body(b)[k] && Shifted(p, v, b, n) == k
  {
    hide PeepOk, InsertZero;
    InsertFacts(p, s, v, z);
    CanInsertBody(p, s, v, z);
    n := if v in p.Body(b) && FirstIndex(p.Body(b), v) < k then k - 1 else k;
  }

  lemma ShiftedEnd(p: Prog, s: Block, v: Id, z: Id, b: Block)
    requires CanInsert(p, s, v, z)
    ensures v in p.Body(p.code[v].bb) && Shifted(p, v, b, |p.Body(b)|) == |InsertZero(p, v, z).Body(b)|
  {
    hide PeepOk, InsertZero;
    InsertFacts(p, s, v, z);
    CanInsertBody(p, s, v, z);
  }

  lemma OldInputs(p: Prog, s: Block, v: Id, z: Id, d: Id)
    requires CanInsert(p, s, v, z)
    ensures v in p.Body(p.code[v].bb)
    ensures d != z ==> InsertZero(p, v, z).Inputs(d) == p.Inputs(d)
    ensures InsertZero(p, v, z).Inputs(z) == []
  {
    hide PeepOk, InsertZero, InsertAt;
    InsertFacts(p, s, v, z);
  }

  lemma UseAt(p: Prog, s: Block, b: Block, k: nat, x: Id)
    requires PeepOk(p, s) && k < |p.Body(b)| && x in p.Inputs(p.Body(b)[k])
    ensures p.Available(s, x, b, k) && x in p.code
  {
    hide PeepOk, Dom;
    PeepFacts(p, s);
    hide Graph.Closed, Graph.Mirrored, Ir.Prog.Placed;
    assert p.Available(s, x, b, k);
  }

  lemma PhiUseAt(p: Prog, s: Block, b: Block, q: Id, j: nat)
    requires PeepOk(p, s) && q in p.Phis(b) && j < |p.Inputs(q)|
    ensures |p.Inputs(q)| == |p.g.Preds(b)|
    ensures p.Available(s, p.Inputs(q)[j], p.g.Preds(b)[j], |p.Body(p.g.Preds(b)[j])|)
  {
    hide PeepOk, Ir.Prog.Available;
    PeepFacts(p, s);
    hide Graph.Closed, Graph.Mirrored, Ir.Prog.Placed;
    assert |p.Inputs(q)| == |p.g.Preds(b)|;
    assert p.Available(s, p.Inputs(q)[j], p.g.Preds(b)[j], |p.Body(p.g.Preds(b)[j])|);
  }

  lemma InsertStrict(p: Prog, s: Block, v: Id, z: Id)
    requires CanInsert(p, s, v, z)
    ensures v in p.Body(p.code[v].bb) && InsertZero(p, v, z).Strict(s)
  {
    hide CanInsert, PeepOk, InsertAt, Ir.Prog.Available, InsertZero, Ir.Prog.Body, Ir.Prog.Inputs;
    InsertBasics(p, s, v, z);
    var p1 := InsertZero(p, v, z);
    forall b, k, x | 0 <= k < |p1.Body(b)| && x in p1.Inputs(p1.Body(b)[k]) ensures p1.Available(s, x, b, k) {
      OldInputs(p, s, v, z, p1.Body(b)[k]);
      var n := ShiftedBack(p, s, v, z, b, k);
      UseAt(p, s, b, n, x);
      AvailableShifts(p, s, v, z, x, b, n);
    }
    forall b, q | q in p1.Phis(b) ensures |p1.Inputs(q)| == |p1.g.Preds(b)| && p1.Inputs(q) == p.Inputs(q) {
      InsertedPhi(p, s, v, z, b, q);
    }
    forall b, q, j | q in p1.Phis(b) && 0 <= j < |p1.Inputs(q)| && j < |p1.g.Preds(b)|
      ensures p1.Available(s, p1.Inputs(q)[j], p1.g.Preds(b)[j], |p1.Body(p1.g.Preds(b)[j])|)
    {
      PhiUseAt(p, s, b, q, j);
      var pred := p.g.Preds(b)[j];
      AvailableShifts(p, s, v, z, p.Inputs(q)[j], pred, |p.Body(pred)|);
      ShiftedEnd(p, s, v, z, pred);
    }
  }

  lemma InsertedPhi(p: Prog, s: Block, v: Id, z: Id, b: Block, q: Id)
    requires CanInsert(p, s, v, z) && q in p.Phis(b)
    ensures v in p.Body(p.code[v].bb) && InsertZero(p, v, z).Inputs(q) == p.Inputs(q) && |p.Inputs(q)| == |p.g.Preds(b)|
  {
    hide PeepOk, InsertZero;
    PeepFacts(p, s);
    hide Graph.Closed, Graph.Mirrored, Ir.Prog.Placed;
    Unlisted(p, s, v, z, b);
    OldInputs(p, s, v, z, q);
  }

  lemma InsertedEnd(p: Prog, s: Block, v: Id, z: Id, b: Block)
    requires CanInsert(p, s, v, z) && |p.g.Succs(b)| >= 2
    ensures v in p.Body(p.code[v].bb) && EndsInBranch(InsertZero(p, v, z), b)
  {
    hide InsertZero, Runnable, InstrTyped;
    InsertFacts(p, s, v, z);
    assert EndsInBranch(p, b);
    var body := p.Body(b);
    if b == p.code[v].bb {
      var j := FirstIndex(body, v);
      assert InsertAt(body, j, z)[|body|] == body[|body| - 1];
    }
  }

  lemma InsertedTyped(p: Prog, s: Block, v: Id, z: Id, u: Id)
    requires CanInsert(p, s, v, z) && (u in p.code || u == z)
    ensures v in p.Body(p.code[v].bb) && u in InsertZero(p, v, z).code && InstrTyped(InsertZero(p, v, z), u)
  {
    hide InsertZero, PeepOk, InsertAt;
    InsertFacts(p, s, v, z);
    if u != z {
      EachTyped(p, s, u);
      OldTyped(p, InsertZero(p, v, z), u);
    }
  }

  lemma OldTyped(p: Prog, p1: Prog, u: Id)
    requires u in p.code && InstrTyped(p, u) && forall x :: x in p.code ==> x in p1.code && p1.code[x] == p.code[x]
    ensures InstrTyped(p1, u)
  {
  }

  lemma InsertOk(p: Prog, s: Block, v: Id, z: Id)
    requires CanInsert(p, s, v, z)
    ensures v in p.Body(p.code[v].bb) && PeepOk(InsertZero(p, v, z), s)
  {
    hide CanInsert, PeepOk, InsertAt, InsertZero, InstrTyped, EndsInBranch, Ir.Prog.Placed, Ir.Prog.Strict;
    hide Graph.Closed, Graph.Mirrored;
    InsertBasics(p, s, v, z);
    InsertPlaced(p, s, v, z);
    InsertStrict(p, s, v, z);
    PeepFacts(p, s);
    var p1 := InsertZero(p, v, z);
    assert Runnable(p1, s);
    forall b | |p1.g.Succs(b)| >= 2 ensures EndsInBranch(p1, b) {
      InsertedEnd(p, s, v, z, b);
    }
    forall u | u in p1.code ensures InstrTyped(p1, u) {
      InsertedTyped(p, s, v, z, u);
    }
    PeepIs(p1, s);
  }

  // ---------- the zero equals the operation ----------

  lemma OperandsListed(p: Prog, s: Block, v: Id)
    requires PeepOk(p, s) && v in p.code && !p.code[v].opcode.Phi?
    ensures forall x :: x in p.code[v].inputs ==> x in p.code
  {
    hide PeepOk, Ir.Prog.Available;
    PeepFacts(p, s);
    hide Graph.Closed, Graph.Mirrored;
    InBody(p, v);
    hide Ir.Prog.Placed, Ir.Prog.Ssa;
    var k := FirstIndex(p.Body(p.code[v].bb), v);
    forall x | x in p.code[v].inputs ensures x in p.code {
      UseAt(p, s, p.code[v].bb, k, x);
    }
  }

  /** Rules look at the instruction and its operands only. */
  lemma SameRule(p: Prog, p': Prog, v: Id)
    requires v in p.code && v in p'.code && p'.code[v] == p.code[v]
    requires forall x :: x in p.code[v].inputs ==> x in p.code && x in p'.code && p'.code[x] == p.code[x]
    ensures Rule(p', v) == Rule(p, v)
  {
    hide Wrap, AllOnes, TypeIdToSize;
  }

  lemma ZeroRuleStays(p: Prog, s: Block, v: Id, z: Id)
    requires CanInsert(p, s, v, z) && Rule(p, v).Zero?
    ensures v in p.Body(p.code[v].bb) && Rule(InsertZero(p, v, z), v).Zero?
  {
    hide CanInsert, PeepOk, InsertZero, Rule;
    InsertBasics(p, s, v, z);
    PureIsNoPhi(p, s, v, z);
    OperandsListed(p, s, v);
    SameRule(p, InsertZero(p, v, z), v);
  }

  lemma PureIsNoPhi(p: Prog, s: Block, v: Id, z: Id)
    requires CanInsert(p, s, v, z)
    ensures v in p.code && !p.code[v].opcode.Phi?
  {
    hide PeepOk;
  }

  lemma ZeroType(p: Prog, s: Block, v: Id)
    requires PeepOk(p, s) && v in p.code && Rule(p, v).Zero?
    ensures IsInteger(p.code[v].ty)
  {
    hide PeepOk, ConstantValue, AllOnes;
    OperationTyped(p, s, v);
  }

  /** The operation and the zero after it are always equal. */
  lemma ZeroEqual(p: Prog, s: Block, v: Id, z: Id)
    requires CanInsert(p, s, v, z) && Rule(p, v).Zero? && Reach(p.Edges(), s, p.code[v].bb)
    ensures v in p.Body(p.code[v].bb)
    ensures AlwaysEqual(InsertZero(p, v, z), s, v, z) && AlwaysEqual(InsertZero(p, v, z), s, z, v)
  {
    hide CanInsert, PeepOk, InsertZero, Rule, Reach, Sane, Ir.Prog.Available;
    InsertBasics(p, s, v, z);
    InsertOk(p, s, v, z);
    ZeroRuleStays(p, s, v, z);
    ZeroType(p, s, v);
    var p1 := InsertZero(p, v, z);
    forall w, b, k, env | Sane(p1, s, w, b, k, env) && p1.Available(s, v, b, k) && p1.Available(s, z, b, k)
      ensures Get(env, v) == Get(env, z)
    {
      RuleValue(p1, s, w, v, b, k, env);
      ConstantHere(p1, s, w, z, b, k, env);
      ZeroConstant(p1, z);
    }
  }

  lemma ZeroConstant(p: Prog, z: Id)
    requires z in p.code && p.code[z].opcode == Constant(0) && IsInteger(p.code[z].ty)
    ensures IsConstant(p, z) && ConstantValue(p, p.code[z].ty, z) == 0
  {
    hide Wrap, InRange;
    OnesInRange(p.code[z].ty);
    WrapInRange(p.code[z].ty, 0);
  }

  lemma ZeroServed(p: Prog, s: Block, v: Id, z: Id)
    requires CanInsert(p, s, v, z)
    ensures v in p.Body(p.code[v].bb)
    ensures Served(InsertZero(p, v, z), s, v, z)
  {
    hide CanInsert, PeepOk, InsertZero, Ir.Prog.Available, Ir.Prog.Body, Ir.Prog.Inputs;
    InsertBasics(p, s, v, z);
    var p1 := InsertZero(p, v, z);
    forall b, k | 0 <= k < |p1.Body(b)| && v in p1.Inputs(p1.Body(b)[k]) ensures p1.Available(s, z, b, k) {
      OldInputs(p, s, v, z, p1.Body(b)[k]);
      var n := ShiftedBack(p, s, v, z, b, k);
      UseAt(p, s, b, n, v);
      ZeroAvailable(p, s, v, z, b, n);
    }
    forall b, q, j | q in p1.Phis(b) && 0 <= j < |p1.Inputs(q)| && j < |p1.g.Preds(b)| && p1.Inputs(q)[j] == v
      ensures p1.Available(s, z, p1.g.Preds(b)[j], |p1.Body(p1.g.Preds(b)[j])|)
    {
      InsertedPhi(p, s, v, z, b, q);
      PhiUseAt(p, s, b, q, j);
      var pred := p.g.Preds(b)[j];
      ZeroAvailable(p, s, v, z, pred, |p.Body(pred)|);
      ShiftedEnd(p, s, v, z, pred);
    }
  }

  /** Nothing reads the new zero yet. */
  lemma ZeroUnread(p: Prog, s: Block, v: Id, z: Id)
    requires CanInsert(p, s, v, z)
    ensures v in p.Body(p.code[v].bb)
    ensures forall u :: z !in InsertZero(p, v, z).Inputs(u)
  {
    hide CanInsert, PeepOk, InsertZero, Ir.Prog.Body;
    InsertBasics(p, s, v, z);
    forall u ensures z !in InsertZero(p, v, z).Inputs(u) {
      OldInputs(p, s, v, z, u);
      NotRead(p, s, v, z, u);
    }
  }

  lemma NotRead(p: Prog, s: Block, v: Id, z: Id, u: Id)
    requires CanInsert(p, s, v, z)
    ensures z !in p.Inputs(u)
  {
    hide PeepOk, Ir.Prog.Available;
    if u in p.code && z in p.Inputs(u) {
      if p.code[u].opcode.Phi? {
        Listed(p, s, p.code[u].bb, u);
        var j := FirstIndex(p.Inputs(u), z);
        PhiUseAt(p, s, p.code[u].bb, u, j);
        AvailableExists(p, s, z, p.g.Preds(p.code[u].bb)[j], |p.Body(p.g.Preds(p.code[u].bb)[j])|);
      } else {
        OperandsListed(p, s, u);
      }
    }
  }

  /** Taking the new zero out again gives the graph back. */
  lemma InsertThenDrop(p: Prog, s: Block, v: Id, z: Id)
    requires CanInsert(p, s, v, z)
    ensures v in p.Body(p.code[v].bb)
    ensures UseInstead(InsertZero(p, v, z), z, v) == p
  {
    hide CanInsert, PeepOk;
    InsertBasics(p, s, v, z);
    CanInsertBody(p, s, v, z);
    ZeroUnread(p, s, v, z);
    var p1, b0 := InsertZero(p, v, z), p.code[v].bb;
    InsertedBody(p, s, v, z, b0, z);
    var j := FirstIndex(p.Body(b0), v);
    Unlisted(p, s, v, z, b0);
    InsertMembers(p.Body(b0), j, z, z);
    InsertFacts(p, s, v, z);
    WithoutIs(p1, b0, z);
    assert Without(p1.Body(b0), z) == p.Body(b0);
    hide InsertAt, Without;
    SameCode(p, p1, v, z);
    assert b0 in p.body && p.body[b0] == p.Body(b0);
    assert p1.body[b0 := p.Body(b0)] == p.body;
  }

  lemma SameCode(p: Prog, p1: Prog, v: Id, z: Id)
    requires z !in p.code && z in p1.code && (forall u :: u in p1.code <==> u in p.code || u == z)
    requires forall u :: u in p.code ==> p1.code[u] == p.code[u]
    requires forall u :: z !in p1.Inputs(u)
    ensures Redirected(p1.code, z, v) - {z} == p.code
  {
    forall u | u in p.code ensures ReplacedInputs(p.code[u].inputs, z, v) == p.code[u].inputs {
      assert p1.Inputs(u) == p.code[u].inputs;
    }
  }

  /** Putting a new zero in place of an over-shift keeps every run on all values that are left. */
  lemma ZeroInstead(p: Prog, s: Block, v: Id, z: Id)
    requires CanInsert(p, s, v, z) && Rule(p, v).Zero? && Reach(p.Edges(), s, p.code[v].bb)
    ensures v in p.Body(p.code[v].bb)
    ensures var p2 := UseInstead(InsertZero(p, v, z), v, z);
            PeepOk(p2, s) && Agree(p, p2, s) && p2.code.Keys == p.code.Keys - {v} + {z}
  {
    hide CanInsert, PeepOk, InsertZero, Rule, Reach, Served, AlwaysEqual, UseInstead, Agree;
    InsertBasics(p, s, v, z);
    PureOf(p, s, v, z);
    ZeroIsShift(p, v);
    var p1 := InsertZero(p, v, z);
    InsertOk(p, s, v, z);
    ZeroEqual(p, s, v, z);
    ZeroServed(p, s, v, z);
    ZeroUnread(p, s, v, z);
    UnreadServed(p1, s, z, v);
    InsertThenDrop(p, s, v, z);
    UseInsteadAgrees(p1, s, z, v);
    AgreeBack(p1, p, s);
    UseInsteadAgrees(p1, s, v, z);
    UseInsteadOk(p1, s, v, z);
    KeysAre(p1, s, v, z);
    AgreeTrans(p, p1, UseInstead(p1, v, z), s);
    assert UseInstead(p1, v, z).code.Keys == p.code.Keys - {v} + {z};
  }

  lemma ZeroIsShift(p: Prog, v: Id)
    requires Rule(p, v).Zero?
    ensures v in p.code && p.code[v].opcode == Binary(ASHR)
  {
    hide ConstantValue, AllOnes;
  }

  lemma PureOf(p: Prog, s: Block, v: Id, z: Id)
    requires CanInsert(p, s, v, z)
    ensures IsPure(p.code[v].opcode)
  {
    hide PeepOk;
  }

  lemma UnreadServed(p: Prog, s: Block, z: Id, v: Id)
    requires forall u :: z !in p.Inputs(u)
    ensures Served(p, s, z, v)
  {
    hide Ir.Prog.Available, Ir.Prog.Inputs;
  }
}
