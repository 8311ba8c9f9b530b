/** Using another value in place of an instruction that always equals it keeps every run on all other values
    (Passes/pass.cpp:5-13). */
module PeepholeTheory {
  import opened Util
  import opened Cfg
  import opened Ir
  import opened Semantics
  import opened GraphEdits

  predicate Modelled(op: BinaryOp) {
    op == ADD || op == SUB || op == OR || op == ASHR
  }

  function TypeIn(p: Prog, x: Id): TypeId {
    if x in p.code then p.code[x].ty else NONE
  }

  /** `sub` takes `x` away from a value, in the type `ty`; `x` may be of another integer type. */
  ghost predicate Undone(p: Prog, ty: TypeId, x: Id, sub: Id) {
    && sub in p.code && p.code[sub].opcode == Binary(SUB) && p.code[sub].ty == ty
    && |p.code[sub].inputs| == 2 && p.code[sub].inputs[1] == x && IsInteger(TypeIn(p, x))
  }

  /** An addition has operands of its own type, or puts back what one of them has taken away; a subtraction is in
      the type of its first operand; ors and shifts have operands of their own type. */
  ghost predicate OperandsTyped(p: Prog, op: BinaryOp, ty: TypeId, x: Id, y: Id) {
    var same := TypeIn(p, x) == ty && TypeIn(p, y) == ty;
    IsInteger(ty) &&
    match op
    case ADD => same || Undone(p, ty, x, y) || Undone(p, ty, y, x)
    case SUB => TypeIn(p, x) == ty && IsInteger(TypeIn(p, y))
    case _ => same
  }

  /** Branches yield nothing; binary operations have two operands, typed if the operation is modelled. */
  ghost predicate InstrTyped(p: Prog, v: Id)
    requires v in p.code
  {
    && (IsBranch(p.code[v].opcode) ==> p.code[v].ty == VOID)
    && (p.code[v].opcode.Binary? ==>
          && |p.code[v].inputs| == 2
          && (Modelled(p.code[v].opcode.op) ==>
                OperandsTyped(p, p.code[v].opcode.op, p.code[v].ty, p.code[v].inputs[0], p.code[v].inputs[1])))
  }

  ghost predicate EndsInBranch(p: Prog, b: Block) {
    p.Body(b) != [] && p.Body(b)[|p.Body(b)| - 1] in p.code && IsBranch(p.code[p.Body(b)[|p.Body(b)| - 1]].opcode)
  }

  /** A well-typed graph in strict SSA whose two-way blocks end in branches. */
  ghost predicate PeepOk(p: Prog, s: Block) {
    && Runnable(p, s)
    && (forall b :: |p.g.Succs(b)| >= 2 ==> EndsInBranch(p, b))
    && (forall v :: v in p.code ==> InstrTyped(p, v))
  }

  // ---------- using another value instead ----------

  function Redirected(code: map<Id, Instr>, v: Id, r: Id): map<Id, Instr> {
    map u | u in code :: code[u].(inputs := ReplacedInputs(code[u].inputs, v, r))
  }

  /** Every reader of `v` reads `r`, and `v` is gone. */
  function UseInstead(p: Prog, v: Id, r: Id): Prog {
    DropInstr(p.(code := Redirected(p.code, v, r)), v)
  }

  /** Wherever `v` is read, `r` is available. */
  ghost predicate Served(p: Prog, s: Block, v: Id, r: Id) {
    && (forall b, k :: 0 <= k < |p.Body(b)| && v in p.Inputs(p.Body(b)[k]) ==> p.Available(s, r, b, k))
    && (forall b, q, j :: q in p.Phis(b) && 0 <= j < |p.Inputs(q)| && j < |p.g.Preds(b)| && p.Inputs(q)[j] == v ==>
          p.Available(s, r, p.g.Preds(b)[j], |p.Body(p.g.Preds(b)[j])|))
  }

  /** At every point of every run at which both are available, `v` and `r` are equal. */
  ghost predicate AlwaysEqual(p: Prog, s: Block, v: Id, r: Id) {
    forall w, b, k, env ::
      Reach(p.Edges(), s, b) && Sane(p, s, w, b, k, env) && p.Available(s, v, b, k) && p.Available(s, r, b, k) ==>
      Get(env, v) == Get(env, r)
  }

  ghost predicate Replaceable(p: Prog, s: Block, v: Id, r: Id) {
    && PeepOk(p, s)
    && v in p.code && r in p.code && v != r && IsPure(p.code[v].opcode) && p.code[r].ty == p.code[v].ty
    && p.code[v].opcode != Binary(SUB)
    && Served(p, s, v, r) && AlwaysEqual(p, s, v, r)
  }

  /** Where the instruction before `k` ends up once `v` has gone. */
  function Moved(p: Prog, v: Id, b: Block, k: nat): nat {
    if v in p.Body(b) && FirstIndex(p.Body(b), v) < k then k - 1 else k
  }

  lemma WithoutIs(p: Prog, b: Block, v: Id)
    requires Distinct(p.Body(b)) && v in p.Body(b)
    ensures Without(p.Body(b), v) == EraseAt(p.Body(b), FirstIndex(p.Body(b), v))
  {
    DistinctCount(p.Body(b), v);
    WithoutOnce(p.Body(b), v);
  }

  lemma PeepFacts(p: Prog, s: Block)
    requires PeepOk(p, s)
    ensures p.g.Closed() && p.g.Mirrored() && p.Ssa(s) && p.Placed() && p.Phis(s) == [] && Runnable(p, s)
  {
    hide Graph.Closed, Graph.Mirrored, Ir.Prog.Placed, Ir.Prog.Strict, InstrTyped, EndsInBranch;
  }

  lemma InBody(p: Prog, v: Id)
    requires p.Placed() && v in p.code && !p.code[v].opcode.Phi?
    ensures v in p.Body(p.code[v].bb) && Distinct(p.Body(p.code[v].bb))
    ensures forall b :: v in p.Body(b) ==> b == p.code[v].bb
  {
  }

  lemma UseInsteadFacts(p: Prog, s: Block, v: Id, r: Id)
    requires PeepOk(p, s) && v in p.code && IsPure(p.code[v].opcode)
    ensures var p', b0 := UseInstead(p, v, r), p.code[v].bb;
            && p'.g == p.g && p'.phis == p.phis
            && v in p.Body(b0) && (forall b :: v in p.Body(b) ==> b == b0)
            && p'.Body(b0) == EraseAt(p.Body(b0), FirstIndex(p.Body(b0), v))
            && (forall b :: b != b0 ==> p'.Body(b) == p.Body(b))
            && (forall b :: b in p'.body ==> b in p.body || b == b0)
            && p'.code.Keys == p.code.Keys - {v}
            && (forall u :: u in p.code && u != v ==>
                p'.code[u] == p.code[u].(inputs := ReplacedInputs(p.code[u].inputs, v, r)))
  {
    hide PeepOk;
    PeepFacts(p, s);
    hide Graph.Closed, Graph.Mirrored, Ir.Prog.Strict;
    InBody(p, v);
    WithoutIs(p, p.code[v].bb, v);
    hide Ir.Prog.Placed, EraseAt, Without, ReplacedInputs;
  }

  // ---------- the shape is kept ----------

  lemma ErasePrefix(body: seq<Id>, j: nat, k: nat, x: Id)
    requires j < |body| && x != body[j] && k <= |body| && x in body[..k]
    ensures var k' := if j < k then k - 1 else k;
            k' <= |EraseAt(body, j)| && x in EraseAt(body, j)[..k']
  {
    var i := FirstIndex(body[..k], x);
    assert body[i] == x;
    EraseAtIndex(body, j, i);
    var i' := if i < j then i else i - 1;
    var k' := if j < k then k - 1 else k;
    assert EraseAt(body, j)[..k'][i'] == x;
  }

  lemma AvailableMoves(p: Prog, s: Block, v: Id, r: Id, x: Id, b: Block, k: nat)
    requires PeepOk(p, s) && v in p.code && IsPure(p.code[v].opcode)
    requires x != v && k <= |p.Body(b)| && p.Available(s, x, b, k)
    ensures UseInstead(p, v, r).Available(s, x, b, Moved(p, v, b, k))
  {
    hide PeepOk, UseInstead, Dom, ReplacedInputs;
    UseInsteadFacts(p, s, v, r);
    var p' := UseInstead(p, v, r);
    assert x in p'.code.Keys;
    if p.code[x].bb == b && !p.code[x].opcode.Phi? && v in p.Body(b) {
      ErasePrefix(p.Body(b), FirstIndex(p.Body(b), v), k, x);
    }
    hide EraseAt;
  }

  lemma CodeKept(p: Prog, s: Block, v: Id, r: Id, u: Id)
    requires PeepOk(p, s) && v in p.code && IsPure(p.code[v].opcode)
    ensures u in UseInstead(p, v, r).code <==> u in p.code && u != v
    ensures u in UseInstead(p, v, r).code ==>
              UseInstead(p, v, r).code[u] == p.code[u].(inputs := ReplacedInputs(p.code[u].inputs, v, r))
  {
    hide PeepOk, UseInstead, ReplacedInputs, EraseAt;
    UseInsteadFacts(p, s, v, r);
    assert u in UseInstead(p, v, r).code <==> u in UseInstead(p, v, r).code.Keys;
  }

  lemma BodyKept(p: Prog, s: Block, v: Id, r: Id, b: Block, u: Id)
    requires PeepOk(p, s) && v in p.code && IsPure(p.code[v].opcode)
    ensures u in UseInstead(p, v, r).Body(b) <==> u in p.Body(b) && u != v
    ensures Distinct(UseInstead(p, v, r).Body(b)) && Distinct(UseInstead(p, v, r).Phis(b))
    ensures UseInstead(p, v, r).Phis(b) == p.Phis(b)
  {
    hide PeepOk, UseInstead, ReplacedInputs, EraseAt;
    PeepFacts(p, s);
    UseInsteadFacts(p, s, v, r);
    hide Graph.Closed, Graph.Mirrored, Ir.Prog.Ssa;
    assert Distinct(p.Body(b)) && Distinct(p.Phis(b));
    hide Ir.Prog.Placed;
    if b == p.code[v].bb {
      var j := FirstIndex(p.Body(b), v);
      EraseMember(p.Body(b), j, u);
      DistinctErase(p.Body(b), j);
    }
  }

  lemma Listed(p: Prog, s: Block, b: Block, u: Id)
    requires PeepOk(p, s)
    ensures u in p.Phis(b) ==> IsPhiOf(p, u, b)
    ensures u in p.Body(b) ==> IsBodyOf(p, u, b)
    ensures u in p.code ==> IsListed(p, u)
    ensures b in p.phis || b in p.body ==> b in p.g.blocks
  {
    hide PeepOk;
    PeepFacts(p, s);
    hide Graph.Closed, Graph.Mirrored, Ir.Prog.Ssa;
  }

  lemma UseInsteadPlaced(p: Prog, s: Block, v: Id, r: Id)
    requires PeepOk(p, s) && v in p.code && IsPure(p.code[v].opcode)
    ensures UseInstead(p, v, r).Placed()
  {
    hide PeepOk, UseInstead, ReplacedInputs, EraseAt, Ir.Prog.Placed, Ir.Prog.Phis, Ir.Prog.Body;
    var p' := UseInstead(p, v, r);
    forall b, u | u in p'.Phis(b) ensures IsPhiOf(p', u, b) {
      BodyKept(p, s, v, r, b, u);
      PhiKept(p, s, v, r, b, u);
      Listed(p, s, b, u);
      CodeKept(p, s, v, r, u);
    }
    forall b, u | u in p'.Body(b) ensures IsBodyOf(p', u, b) {
      BodyKept(p, s, v, r, b, u);
      Listed(p, s, b, u);
      CodeKept(p, s, v, r, u);
    }
    forall u | u in p'.code ensures IsListed(p', u) {
      CodeKept(p, s, v, r, u);
      Listed(p, s, p.code[u].bb, u);
      BodyKept(p, s, v, r, p.code[u].bb, u);
    }
    forall b ensures Distinct(p'.Phis(b)) && Distinct(p'.Body(b)) {
      BodyKept(p, s, v, r, b, v);
    }
    UseInsteadFacts(p, s, v, r);
    forall b | b in p'.phis || b in p'.body ensures b in p'.g.blocks {
      Listed(p, s, b, v);
      BodyHasBlock(p, p.code[v].bb, v);
    }
    PlacedBy(p');
  }

  lemma BodyHasBlock(p: Prog, b: Block, v: Id)
    requires v in p.Body(b)
    ensures b in p.body
  {
  }

  lemma EraseMember(body: seq<Id>, j: nat, u: Id)
    requires j < |body| && Distinct(body)
    ensures u in EraseAt(body, j) <==> u in body && u != body[j]
  {
    DistinctSplit(body, j, u);
    assert body == body[..j] + [body[j]] + body[j + 1..];
  }

  /** The instruction at a position of the shortened body. */
  function Original(p: Prog, v: Id, b: Block, k: nat): nat {
    if v in p.Body(b) && FirstIndex(p.Body(b), v) <= k then k + 1 else k
  }

  lemma OriginalAt(p: Prog, s: Block, v: Id, r: Id, b: Block, k: nat)
    requires PeepOk(p, s) && v in p.code && IsPure(p.code[v].opcode) && k < |UseInstead(p, v, r).Body(b)|
    ensures var n := Original(p, v, b, k);
            n < |p.Body(b)| && p.Body(b)[n] == UseInstead(p, v, r).Body(b)[k] && p.Body(b)[n] != v &&
              Moved(p, v, b, n) == k
    ensures UseInstead(p, v, r).Body(b)[k] in p.code
    ensures UseInstead(p, v, r).Inputs(UseInstead(p, v, r).Body(b)[k]) ==
              ReplacedInputs(p.Inputs(UseInstead(p, v, r).Body(b)[k]), v, r)
  {
    hide PeepOk, UseInstead, ReplacedInputs;
    UseInsteadFacts(p, s, v, r);
    var d := UseInstead(p, v, r).Body(b)[k];
    BodyKept(p, s, v, r, b, d);
    Listed(p, s, b, d);
    CodeKept(p, s, v, r, d);
  }

  lemma MovedEnd(p: Prog, s: Block, v: Id, r: Id, b: Block)
    requires PeepOk(p, s) && v in p.code && IsPure(p.code[v].opcode)
    ensures Moved(p, v, b, |p.Body(b)|) == |UseInstead(p, v, r).Body(b)|
  {
    hide PeepOk, UseInstead, ReplacedInputs;
    UseInsteadFacts(p, s, v, r);
  }

  lemma ReplacedMember(inputs: seq<Id>, v: Id, r: Id, x: Id)
    requires x in ReplacedInputs(inputs, v, r) && r != v
    ensures x != v && (x in inputs || (x == r && v in inputs))
  {
    var i := FirstIndex(ReplacedInputs(inputs, v, r), x);
    assert inputs[i] in inputs;
  }

  lemma BodyUse(p: Prog, s: Block, v: Id, r: Id, b: Block, k: nat, x: Id)
    requires Replaceable(p, s, v, r)
    requires k < |UseInstead(p, v, r).Body(b)| && x in UseInstead(p, v, r).Inputs(UseInstead(p, v, r).Body(b)[k])
    ensures UseInstead(p, v, r).Available(s, x, b, k)
  {
    hide PeepOk, UseInstead, ReplacedInputs, Ir.Prog.Available, AlwaysEqual;
    OriginalAt(p, s, v, r, b, k);
    var n := Original(p, v, b, k);
    PeepFacts(p, s);
    hide Graph.Closed, Graph.Mirrored, Ir.Prog.Placed;
    var d := p.Body(b)[n];
    ReplacedMember(p.Inputs(d), v, r, x);
    if x in p.Inputs(d) {
      assert p.Available(s, x, b, n);
    } else {
      assert p.Available(s, r, b, n);
    }
    AvailableMoves(p, s, v, r, x, b, n);
  }

  lemma PhiUse(p: Prog, s: Block, v: Id, r: Id, b: Block, q: Id, j: nat)
    requires Replaceable(p, s, v, r)
    requires q in p.Phis(b) && j < |UseInstead(p, v, r).Inputs(q)| && j < |p.g.Preds(b)|
    ensures |UseInstead(p, v, r).Inputs(q)| == |p.g.Preds(b)|
    ensures var p' := UseInstead(p, v, r);
            p'.Available(s, p'.Inputs(q)[j], p.g.Preds(b)[j], |p'.Body(p.g.Preds(b)[j])|)
  {
    hide PeepOk, UseInstead, Ir.Prog.Available, AlwaysEqual;
    UseInsteadFacts(p, s, v, r);
    PeepFacts(p, s);
    hide Graph.Closed, Graph.Mirrored;
    PhiKept(p, s, v, r, b, q);
    hide Ir.Prog.Placed;
    var p', pred := UseInstead(p, v, r), p.g.Preds(b)[j];
    var x := p'.Inputs(q)[j];
    assert p.Available(s, p.Inputs(q)[j], p.g.Preds(b)[j], |p.Body(p.g.Preds(b)[j])|);
    assert p.Available(s, x, pred, |p.Body(pred)|);
    AvailableMoves(p, s, v, r, x, pred, |p.Body(pred)|);
    MovedEnd(p, s, v, r, pred);
  }

  lemma PhiKept(p: Prog, s: Block, v: Id, r: Id, b: Block, q: Id)
    requires PeepOk(p, s) && v in p.code && IsPure(p.code[v].opcode) && q in p.Phis(b)
    ensures q in p.code && q != v && |p.Inputs(q)| == |p.g.Preds(b)|
    ensures UseInstead(p, v, r).Inputs(q) == ReplacedInputs(p.Inputs(q), v, r)
    ensures q in UseInstead(p, v, r).code && UseInstead(p, v, r).code[q].ty == p.code[q].ty
  {
    hide PeepOk, UseInstead, ReplacedInputs, EraseAt;
    UseInsteadFacts(p, s, v, r);
    PeepFacts(p, s);
    hide Graph.Closed, Graph.Mirrored;
    PhiIsPhi(p, b, q);
    assert q in UseInstead(p, v, r).code.Keys;
  }

  lemma UseInsteadStrict(p: Prog, s: Block, v: Id, r: Id)
    requires Replaceable(p, s, v, r)
    ensures UseInstead(p, v, r).Strict(s)
  {
    hide PeepOk, UseInstead, Ir.Prog.Available, Served, AlwaysEqual, ReplacedInputs, EraseAt, Ir.Prog.Phis;
    hide Ir.Prog.Body;
    var p' := UseInstead(p, v, r);
    SameGraph(p, v, r);
    forall b, k, x | 0 <= k < |p'.Body(b)| && x in p'.Inputs(p'.Body(b)[k]) ensures p'.Available(s, x, b, k) {
      BodyUse(p, s, v, r, b, k, x);
    }
    forall b, q | q in p'.Phis(b) ensures |p'.Inputs(q)| == |p'.g.Preds(b)| {
      BodyKept(p, s, v, r, b, q);
      PhiKept(p, s, v, r, b, q);
    }
    forall b, q, j | q in p'.Phis(b) && 0 <= j < |p'.Inputs(q)| && j < |p'.g.Preds(b)|
      ensures p'.Available(s, p'.Inputs(q)[j], p'.g.Preds(b)[j], |p'.Body(p'.g.Preds(b)[j])|)
    {
      BodyKept(p, s, v, r, b, q);
      PhiUse(p, s, v, r, b, q, j);
    }
  }

  lemma SameGraph(p: Prog, v: Id, r: Id)
    ensures UseInstead(p, v, r).g == p.g && UseInstead(p, v, r).phis == p.phis
    ensures UseInstead(p, v, r).Edges() == p.Edges()
  {
  }

  /** An input of an instruction once `r` is read instead of `v`. */
  function Instead(x: Id, v: Id, r: Id): Id {
    if x == v then r else x
  }

  lemma TypeStays(p: Prog, s: Block, v: Id, r: Id, x: Id)
    requires PeepOk(p, s) && v in p.code && IsPure(p.code[v].opcode) && r in p.code && r != v
    requires p.code[r].ty == p.code[v].ty
    ensures TypeIn(UseInstead(p, v, r), Instead(x, v, r)) == TypeIn(p, x)
  {
    hide UseInstead, PeepOk;
    CodeKept(p, s, v, r, Instead(x, v, r));
  }

  lemma UndoneStays(p: Prog, s: Block, v: Id, r: Id, ty: TypeId, x: Id, sub: Id)
    requires PeepOk(p, s) && v in p.code && IsPure(p.code[v].opcode) && r in p.code && r != v
    requires p.code[r].ty == p.code[v].ty
    requires sub != v && Undone(p, ty, x, sub)
    ensures Undone(UseInstead(p, v, r), ty, Instead(x, v, r), sub)
  {
    hide UseInstead, PeepOk;
    TypeStays(p, s, v, r, x);
    CodeKept(p, s, v, r, sub);
  }

  lemma BinaryStays(p: Prog, s: Block, v: Id, r: Id, u: Id)
    requires PeepOk(p, s) && v in p.code && IsPure(p.code[v].opcode) && r in p.code && r != v
    requires p.code[r].ty == p.code[v].ty
    requires p.code[v].opcode != Binary(SUB) && u in p.code && u != v
    ensures u in UseInstead(p, v, r).code && InstrTyped(UseInstead(p, v, r), u)
  {
    hide UseInstead, PeepOk, Undone;
    CodeKept(p, s, v, r, u);
    EachTyped(p, s, u);
    var ins := p.code[u];
    if ins.opcode.Binary? && Modelled(ins.opcode.op) {
      var x, y := ins.inputs[0], ins.inputs[1];
      TypeStays(p, s, v, r, x);
      TypeStays(p, s, v, r, y);
      if Undone(p, ins.ty, x, y) {
        NotSub(p, ins.ty, v, x, y);
        UndoneStays(p, s, v, r, ins.ty, x, y);
      }
      if Undone(p, ins.ty, y, x) {
        NotSub(p, ins.ty, v, y, x);
        UndoneStays(p, s, v, r, ins.ty, y, x);
      }
    }
  }

  lemma NotSub(p: Prog, ty: TypeId, v: Id, x: Id, sub: Id)
    requires v in p.code && p.code[v].opcode != Binary(SUB) && Undone(p, ty, x, sub)
    ensures sub != v
  {
  }

  lemma EachTyped(p: Prog, s: Block, x: Id)
    requires PeepOk(p, s) && x in p.code
    ensures InstrTyped(p, x)
  {
    hide Runnable, EndsInBranch, InstrTyped;
  }

  lemma EndStays(p: Prog, s: Block, v: Id, r: Id, b: Block)
    requires PeepOk(p, s) && v in p.code && IsPure(p.code[v].opcode) && |p.g.Succs(b)| >= 2
    ensures var p' := UseInstead(p, v, r);
            EndsInBranch(p', b) && p'.Body(b)[|p'.Body(b)| - 1] == p.Body(b)[|p.Body(b)| - 1]
  {
    hide UseInstead, ReplacedInputs, Runnable, InstrTyped;
    UseInsteadFacts(p, s, v, r);
    var p' := UseInstead(p, v, r);
    assert EndsInBranch(p, b);
    assert p.Body(b)[|p.Body(b)| - 1] in p'.code.Keys;
  }

  lemma UseInsteadOk(p: Prog, s: Block, v: Id, r: Id)
    requires Replaceable(p, s, v, r)
    ensures PeepOk(UseInstead(p, v, r), s)
  {
    var p' := UseInstead(p, v, r);
    UseInsteadFacts(p, s, v, r);
    UseInsteadStrict(p, s, v, r);
    UseInsteadPlaced(p, s, v, r);
    PeepFacts(p, s);
    hide UseInstead, PeepOk, Graph.Closed, Graph.Mirrored, Ir.Prog.Placed, Ir.Prog.Strict, InstrTyped, EndsInBranch;
    hide Served, AlwaysEqual, EraseAt, ReplacedInputs;
    assert Runnable(p', s);
    forall b | |p'.g.Succs(b)| >= 2 ensures EndsInBranch(p', b) {
      EndStays(p, s, v, r, b);
    }
    forall u | u in p'.code ensures InstrTyped(p', u) {
      assert u in p.code.Keys;
      BinaryStays(p, s, v, r, u);
    }
    PeepIs(p', s);
  }

  lemma PeepIs(p: Prog, s: Block)
    requires Runnable(p, s)
    requires forall b :: |p.g.Succs(b)| >= 2 ==> EndsInBranch(p, b)
    requires forall v :: v in p.code ==> InstrTyped(p, v)
    ensures PeepOk(p, s)
  {
    hide Runnable, EndsInBranch, InstrTyped;
  }
}
