/** Which value each peephole uses instead of an operation, and why the two are always equal
    (Passes/peepholes.cpp:33-164). */
module PeepholeRules {
  import opened Util
  import opened Cfg
  import opened Ir
  import opened Semantics
  import opened PeepholeArith
  import opened PeepholeTheory

  /** Leave the operation, use another value instead, or put a new zero in its place. */
  datatype Rewrite = Keep | Use(r: Id) | Zero

  predicate IsConstant(p: Prog, x: Id) {
    x in p.code && p.code[x].opcode.Constant?
  }

  /** A constant's value as one of the given type. */
  function ConstantValue(p: Prog, ty: TypeId, c: Id): int {
    if !IsConstant(p, c) then 0
    else if IsInteger(ty) then Wrap(ty, p.code[c].opcode.value)
    else p.code[c].opcode.value
  }

  predicate HasValues(ty: TypeId) {
    IsInteger(ty) || TypeIdIsFloatingPoint(ty)
  }

  /** -1 for signed types, the largest value for unsigned ones. */
  function Ones(ty: TypeId): int {
    if IsInteger(ty) then AllOnes(ty) else -1
  }

  /** The rules for one constant operand `c`, the other operand being `x`. */
  function ConstantRule(p: Prog, v: Id, c: Id, x: Id): Rewrite
    requires v in p.code && p.code[v].opcode.Binary? && |p.code[v].inputs| == 2
  {
    var ty := p.code[v].ty;
    var value := ConstantValue(p, ty, c);
    if !HasValues(ty) then Keep
    else match p.code[v].opcode.op
      case ADD => if value == 0 then Use(x) else Keep
      case OR => if value == 0 then Use(x) else if value == Ones(ty) then Use(c) else Keep
      case ASHR =>
        if c != p.code[v].inputs[1] then Keep
        else if value >= TypeIdToSize(ty) then Zero
        else if value == 0 then Use(x)
        else Keep
      case _ => Keep
  }

  /** x + (s - x) is s. */
  function AddAfterSubRule(p: Prog, x: Id, sub: Id): Rewrite {
    if sub in p.code && p.code[sub].opcode == Binary(SUB) && |p.code[sub].inputs| == 2 && p.code[sub].inputs[1] == x
    then Use(p.code[sub].inputs[0]) else Keep
  }

  /** The first rule that applies to an instruction. */
  function Rule(p: Prog, v: Id): Rewrite {
    if v !in p.code || !p.code[v].opcode.Binary? || |p.code[v].inputs| != 2 then Keep
    else
      var op, x, y := p.code[v].opcode.op, p.code[v].inputs[0], p.code[v].inputs[1];
      if op == OR && x == y then Use(x)
      else if op == ADD && AddAfterSubRule(p, x, y) != Keep then AddAfterSubRule(p, x, y)
      else if op == ADD && AddAfterSubRule(p, y, x) != Keep then AddAfterSubRule(p, y, x)
      else if IsConstant(p, x) then ConstantRule(p, v, x, y)
      else if IsConstant(p, y) then ConstantRule(p, v, y, x)
      else Keep
  }

  // ---------- operands are available where the result is ----------

  lemma AvailableGrows(p: Prog, s: Block, x: Id, b: Block, j: nat, k: nat)
    requires p.Available(s, x, b, j) && j <= k
    ensures p.Available(s, x, b, k)
  {
    hide Dom;
    var n := |p.Body(b)|;
    var short, long := p.Body(b)[..if j <= n then j else n], p.Body(b)[..if k <= n then k else n];
    assert short <= long;
    assert forall y :: y in short ==> y in long;
  }

  lemma AvailableInside(p: Prog, s: Block, v: Id, j: nat, k: nat)
    requires p.Placed() && v in p.code && !p.code[v].opcode.Phi?
    requires p.Available(s, v, p.code[v].bb, k) && StandsAt(p, v, p.code[v].bb, j)
    ensures j < k
  {
    var body := p.Body(p.code[v].bb);
    assert Distinct(body);
    var n := if k <= |body| then k else |body|;
    var i := FirstIndex(body[..n], v);
    assert body[i] == v;
  }

  /** A dominator of a reachable block strictly dominates every unreachable one. */
  lemma UnreachedBelow(es: Edges, s: Block, a: Block, b: Block)
    requires Reach(es, s, a) && !Reach(es, s, b)
    ensures SDom(es, s, a, b)
  {
  }

  lemma OperandAvailable(p: Prog, s: Block, v: Id, x: Id, b: Block, k: nat)
    requires p.Ssa(s) && v in p.code && !p.code[v].opcode.Phi? && x in p.Inputs(v)
    requires Reach(p.Edges(), s, p.code[v].bb) && p.Available(s, v, b, k)
    ensures p.Available(s, x, b, k)
  {
    hide Dom, Reach;
    var es := p.Edges();
    var j := InputsBefore(p, s, v, x);
    if p.code[v].bb == b {
      AvailableInside(p, s, v, j, k);
      AvailableGrows(p, s, x, b, j, k);
    } else if p.code[x].bb != p.code[v].bb {
      if Reach(es, s, b) {
        SDomTrans(es, s, p.code[x].bb, p.code[v].bb, b);
      } else {
        SDomReach(es, s, p.code[x].bb, p.code[v].bb);
        UnreachedBelow(es, s, p.code[x].bb, b);
      }
    }
  }

  /** Its operands stand in reachable blocks, and are not the instruction itself. */
  lemma OperandReached(p: Prog, s: Block, v: Id, x: Id)
    requires p.Ssa(s) && v in p.code && !p.code[v].opcode.Phi? && x in p.Inputs(v) && Reach(p.Edges(), s, p.code[v].bb)
    ensures x in p.code && Reach(p.Edges(), s, p.code[x].bb)
  {
    hide Dom, Reach;
    var j := InputsBefore(p, s, v, x);
    if p.code[x].bb != p.code[v].bb {
      SDomReach(p.Edges(), s, p.code[x].bb, p.code[v].bb);
    }
  }

  /** `r` is available wherever `v` is, and was so before `v`. */
  ghost predicate Behind(p: Prog, s: Block, v: Id, r: Id) {
    && r in p.code && v in p.code && r != v
    && forall b, k :: p.Available(s, v, b, k) ==> p.Available(s, r, b, k)
  }

  lemma OperandBehind(p: Prog, s: Block, v: Id, x: Id)
    requires p.Ssa(s) && v in p.code && !p.code[v].opcode.Phi? && x in p.Inputs(v) && Reach(p.Edges(), s, p.code[v].bb)
    ensures Behind(p, s, v, x)
  {
    hide Reach, Ir.Prog.Available;
    OperandReached(p, s, v, x);
    forall b, k | p.Available(s, v, b, k) ensures p.Available(s, x, b, k) {
      OperandAvailable(p, s, v, x, b, k);
    }
    var j := InputsBefore(p, s, v, x);
    NotBeforeItself(p, s, v, j);
  }

  lemma NotBeforeItself(p: Prog, s: Block, v: Id, j: nat)
    requires p.Placed() && v in p.code && !p.code[v].opcode.Phi? && StandsAt(p, v, p.code[v].bb, j)
    ensures !p.Available(s, v, p.code[v].bb, j)
  {
    hide Dom;
    if p.Available(s, v, p.code[v].bb, j) {
      AvailableInside(p, s, v, j, j);
    }
  }

  lemma BehindTwice(p: Prog, s: Block, v: Id, x: Id, r: Id)
    requires p.Ssa(s) && v in p.code && !p.code[v].opcode.Phi? && x in p.Inputs(v) && Reach(p.Edges(), s, p.code[v].bb)
    requires Behind(p, s, x, r)
    ensures Behind(p, s, v, r)
  {
    hide Reach, Ir.Prog.Available;
    OperandBehind(p, s, v, x);
    var j := InputsBefore(p, s, v, x);
    NotBeforeItself(p, s, v, j);
    assert p.Available(s, r, p.code[v].bb, j);
  }

  lemma BehindServed(p: Prog, s: Block, v: Id, r: Id)
    requires PeepOk(p, s) && Behind(p, s, v, r)
    ensures Served(p, s, v, r)
  {
    hide Ir.Prog.Available, PeepOk;
    PeepFacts(p, s);
    hide Graph.Closed, Graph.Mirrored, Ir.Prog.Placed;
    forall b, k | 0 <= k < |p.Body(b)| && v in p.Inputs(p.Body(b)[k]) ensures p.Available(s, r, b, k) {
      assert p.Available(s, v, b, k);
    }
    forall b, q, j | q in p.Phis(b) && 0 <= j < |p.Inputs(q)| && j < |p.g.Preds(b)| && p.Inputs(q)[j] == v
      ensures p.Available(s, r, p.g.Preds(b)[j], |p.Body(p.g.Preds(b)[j])|)
    {
      assert p.Available(s, p.Inputs(q)[j], p.g.Preds(b)[j], |p.Body(p.g.Preds(b)[j])|);
    }
  }

  // ---------- values ----------

  /** `x` is an integer, of whatever integer type, and has been computed. */
  ghost predicate IntegerAt(p: Prog, env: Env, x: Id) {
    x in p.code && IsInteger(p.code[x].ty) && x in env && env[x].IntV? && InRange(p.code[x].ty, env[x].n)
  }

  /** The operands of `v` are integers, and its value is that of the operation on them. */
  ghost predicate Computed(p: Prog, w: World, v: Id, env: Env) {
    && v in p.code && |p.code[v].inputs| == 2
    && IntegerAt(p, env, p.code[v].inputs[0]) && IntegerAt(p, env, p.code[v].inputs[1])
    && v in env && env[v] == PureValue(w, p.code[v], [env[p.code[v].inputs[0]], env[p.code[v].inputs[1]]])
  }

  lemma IntegerOperation(p: Prog, s: Block, w: World, v: Id, b: Block, k: nat, env: Env)
    requires PeepOk(p, s) && Sane(p, s, w, b, k, env) && v in p.code && p.Available(s, v, b, k)
    requires p.code[v].opcode.Binary? && Modelled(p.code[v].opcode.op) && Reach(p.Edges(), s, p.code[v].bb)
    ensures Computed(p, w, v, env)
    ensures forall x :: x in p.code[v].inputs ==> p.Available(s, x, b, k)
  {
    hide PeepOk, Reach, Ir.Prog.Available, PureValue, IntegerAt;
    PeepFacts(p, s);
    hide Graph.Closed, Graph.Mirrored, Ir.Prog.Placed, Runnable, Ir.Prog.Ssa;
    OperationTyped(p, s, v);
    assert Holding(p, w, v, env);
    forall x | x in p.code[v].inputs ensures p.Available(s, x, b, k) && IntegerAt(p, env, x) && x in env {
      OperandAvailable(p, s, v, x, b, k);
      AvailableExists(p, s, x, b, k);
      EachTyped(p, s, x);
      NotBranch(p, s, w, x, b, k, env);
    }
    assert Values(env, p.code[v].inputs) == [env[p.code[v].inputs[0]], env[p.code[v].inputs[1]]];
  }

  lemma OperationTyped(p: Prog, s: Block, v: Id)
    requires PeepOk(p, s) && v in p.code && p.code[v].opcode.Binary?
    ensures |p.code[v].inputs| == 2
    ensures Modelled(p.code[v].opcode.op) ==>
              && IsInteger(p.code[v].ty)
              && OperandsTyped(p, p.code[v].opcode.op, p.code[v].ty, p.code[v].inputs[0], p.code[v].inputs[1])
              && forall x :: x in p.code[v].inputs ==> IsInteger(TypeIn(p, x))
  {
    hide Runnable, EndsInBranch, PeepOk;
    EachTyped(p, s, v);
  }

  /** An available value of an integer type has been computed. */
  lemma NotBranch(p: Prog, s: Block, w: World, x: Id, b: Block, k: nat, env: Env)
    requires Sane(p, s, w, b, k, env) && p.Available(s, x, b, k) && x in p.code
    requires IsInteger(TypeIn(p, x)) && InstrTyped(p, x)
    ensures IntegerAt(p, env, x) && x in env
  {
    hide Ir.Prog.Available, PureValue, InRange;
    assert Holding(p, w, x, env);
    assert TypedValue(p, x, env[x]);
  }

  /** Two operations do not read each other. */
  lemma NotMutual(p: Prog, s: Block, x: Id, y: Id)
    requires PeepOk(p, s) && x in p.code && y in p.code && !p.code[x].opcode.Phi? && !p.code[y].opcode.Phi?
    requires Reach(p.Edges(), s, p.code[x].bb) && Reach(p.Edges(), s, p.code[y].bb)
    ensures x !in p.Inputs(y) || y !in p.Inputs(x)
  {
    hide PeepOk, Reach, Ir.Prog.Available;
    PeepFacts(p, s);
    if x in p.Inputs(y) && y in p.Inputs(x) {
      OperandBehind(p, s, y, x);
      BehindTwice(p, s, x, y, x);
      assert false;
    }
  }

  /** An addition to which no subtraction rule applies has operands of its type; where one applies, the subtraction
      is in its type. */
  lemma AdditionTyped(p: Prog, s: Block, v: Id, x: Id, y: Id)
    requires PeepOk(p, s) && v in p.code && p.code[v].opcode == Binary(ADD) && Reach(p.Edges(), s, p.code[v].bb)
    requires p.code[v].inputs == [x, y] || p.code[v].inputs == [y, x]
    ensures IsInteger(p.code[v].ty)
    ensures AddAfterSubRule(p, x, y) != Keep ==> y in p.code && p.code[y].ty == p.code[v].ty
    ensures AddAfterSubRule(p, x, y) == Keep && AddAfterSubRule(p, y, x) == Keep ==>
              TypeIn(p, x) == p.code[v].ty && TypeIn(p, y) == p.code[v].ty
  {
    hide PeepOk, Reach;
    OperationTyped(p, s, v);
    if AddAfterSubRule(p, x, y) != Keep && Undone(p, p.code[v].ty, y, x) {
      PeepFacts(p, s);
      OperandReached(p, s, v, x);
      OperandReached(p, s, v, y);
      NotMutual(p, s, x, y);
    }
  }

  lemma ConstantHere(p: Prog, s: Block, w: World, c: Id, b: Block, k: nat, env: Env)
    requires Sane(p, s, w, b, k, env) && p.Available(s, c, b, k) && IsConstant(p, c) && IsInteger(p.code[c].ty)
    ensures Get(env, c) == IntV(ConstantValue(p, p.code[c].ty, c))
  {
    hide Ir.Prog.Available, Wrap;
    assert Holding(p, w, c, env);
  }

  /** The result of an integer operation on known operands. */
  lemma OperationValue(w: World, ins: Instr, a: int, b: int)
    requires ins.opcode.Binary? && IsInteger(ins.ty)
    ensures ins.opcode.op == ADD ==> PureValue(w, ins, [IntV(a), IntV(b)]) == IntV(Wrap(ins.ty, a + b))
    ensures ins.opcode.op == SUB ==> PureValue(w, ins, [IntV(a), IntV(b)]) == IntV(Wrap(ins.ty, a - b))
    ensures ins.opcode.op == OR ==>
              PureValue(w, ins, [IntV(a), IntV(b)]) ==
                  IntV(Wrap(ins.ty, Or(TypeIdToSize(ins.ty), Bits(ins.ty, a), Bits(ins.ty, b))))
    ensures ins.opcode.op == ASHR ==>
              PureValue(w, ins, [IntV(a), IntV(b)]) == IntV(Wrap(ins.ty, ShiftRight(ins.ty, a, b)))
  {
    hide Wrap, Or, Bits, ShiftRight, TypeIdToSize;
  }

  /** x | x is x. */
  lemma OrSame(p: Prog, s: Block, w: World, v: Id, b: Block, k: nat, env: Env)
    requires PeepOk(p, s) && Sane(p, s, w, b, k, env) && p.Available(s, v, b, k) && Reach(p.Edges(), s, p.code[v].bb)
    requires v in p.code && p.code[v].opcode == Binary(OR) && |p.code[v].inputs| == 2
    requires p.code[v].inputs[0] == p.code[v].inputs[1]
    ensures Get(env, v) == Get(env, p.code[v].inputs[0])
  {
    hide PeepOk, Reach, Ir.Prog.Available, PureValue, Wrap, InRange, Or, Bits, Sane, TypeIdToSize;
    IntegerOperation(p, s, w, v, b, k, env);
    OperationTyped(p, s, v);
    var ins, x := p.code[v], p.code[v].inputs[0];
    OperationValue(w, ins, env[x].n, env[x].n);
    OrLaws(ins.ty, env[x].n);
  }

  lemma SubThenAddLaw(w: World, add: Instr, sub: Instr, s: int, x: int, t: Value)
    requires add.opcode == Binary(ADD) && sub.opcode == Binary(SUB) && IsInteger(add.ty) && sub.ty == add.ty
    requires InRange(add.ty, s)
    requires t == PureValue(w, sub, [IntV(s), IntV(x)])
    ensures PureValue(w, add, [t, IntV(x)]) == IntV(s) && PureValue(w, add, [IntV(x), t]) == IntV(s)
  {
    hide PureValue, Wrap, InRange, TypeIdToSize;
    OperationValue(w, sub, s, x);
    OperationValue(w, add, t.n, x);
    OperationValue(w, add, x, t.n);
    AddAfterSub(add.ty, s, x);
  }

  lemma SubOperands(p: Prog, s: Block, w: World, v: Id, sub: Id, b: Block, k: nat, env: Env)
    requires PeepOk(p, s) && Sane(p, s, w, b, k, env) && v in p.code && p.Available(s, v, b, k)
    requires Reach(p.Edges(), s, p.code[v].bb)
    requires p.code[v].opcode == Binary(ADD) && sub in p.code[v].inputs && sub in p.code
    requires p.code[sub].opcode == Binary(SUB)
    ensures Computed(p, w, v, env) && Computed(p, w, sub, env)
  {
    hide PeepOk, Reach, Ir.Prog.Available, PureValue, Sane, Runnable, Ir.Prog.Ssa, Graph.Closed, Graph.Mirrored;
    hide Ir.Prog.Placed, Computed;
    IntegerOperation(p, s, w, v, b, k, env);
    PeepFacts(p, s);
    OperandReached(p, s, v, sub);
    IntegerOperation(p, s, w, sub, b, k, env);
  }

  /** (s - x) + x and x + (s - x) are s. */
  lemma SubThenAdd(p: Prog, s: Block, w: World, v: Id, x: Id, sub: Id, b: Block, k: nat, env: Env)
    requires PeepOk(p, s) && Sane(p, s, w, b, k, env) && p.Available(s, v, b, k) && Reach(p.Edges(), s, p.code[v].bb)
    requires v in p.code && p.code[v].opcode == Binary(ADD)
    requires p.code[v].inputs == [x, sub] || p.code[v].inputs == [sub, x]
    requires AddAfterSubRule(p, x, sub).Use? && p.code[sub].ty == p.code[v].ty
    ensures Get(env, v) == Get(env, AddAfterSubRule(p, x, sub).r)
  {
    hide PeepOk, Reach, Ir.Prog.Available, PureValue, InRange, Sane, TypeIdToSize;
    assert sub in p.code[v].inputs && x in p.code[v].inputs;
    SubOperands(p, s, w, v, sub, b, k, env);
    OperationTyped(p, s, sub);
    OperationTyped(p, s, v);
    var r := p.code[sub].inputs[0];
    SubThenAddLaw(w, p.code[v], p.code[sub], env[r].n, env[x].n, env[sub]);
  }

  /** The arithmetic of the constant rules. */
  lemma ConstantRuleLaw(w: World, ins: Instr, first: bool, c: int, x: int)
    requires ins.opcode.Binary? && IsInteger(ins.ty) && InRange(ins.ty, c) && InRange(ins.ty, x)
    ensures var result := PureValue(w, ins, if first then [IntV(c), IntV(x)] else [IntV(x), IntV(c)]);
            && (ins.opcode.op == ADD && c == 0 ==> result == IntV(x))
            && (ins.opcode.op == OR && c == 0 ==> result == IntV(x))
            && (ins.opcode.op == OR && c == AllOnes(ins.ty) ==> result == IntV(c))
            && (ins.opcode.op == ASHR && !first && c >= TypeIdToSize(ins.ty) ==> result == IntV(0))
            && (ins.opcode.op == ASHR && !first && c == 0 ==> result == IntV(x))
  {
    hide PureValue, Wrap, InRange, Or, Bits, TypeIdToSize, ShiftRight, AllOnes;
    OperationValue(w, ins, c, x);
    OperationValue(w, ins, x, c);
    WrapInRange(ins.ty, x);
    OrLaws(ins.ty, x);
    ShiftByZero(ins.ty, x);
    if c >= TypeIdToSize(ins.ty) {
      ShiftTooFar(ins.ty, x, c);
    }
  }

  lemma ConstantRuleValue(p: Prog, s: Block, w: World, v: Id, c: Id, x: Id, b: Block, k: nat, env: Env)
    requires PeepOk(p, s) && Sane(p, s, w, b, k, env) && p.Available(s, v, b, k) && Reach(p.Edges(), s, p.code[v].bb)
    requires v in p.code && p.code[v].opcode.Binary? && IsConstant(p, c)
    requires p.code[v].inputs == [c, x] || p.code[v].inputs == [x, c]
    requires Modelled(p.code[v].opcode.op) && p.code[v].opcode.op != SUB ==>
               TypeIn(p, c) == p.code[v].ty && TypeIn(p, x) == p.code[v].ty
    ensures var rule := ConstantRule(p, v, c, x);
            && (rule.Use? ==> Get(env, v) == Get(env, rule.r))
            && (rule.Zero? ==> Get(env, v) == IntV(0))
  {
    hide PeepOk, Reach, Ir.Prog.Available, PureValue, Wrap, InRange, Sane, TypeIdToSize, AllOnes, ConstantValue;
    if Modelled(p.code[v].opcode.op) && p.code[v].opcode.op != SUB {
      IntegerOperation(p, s, w, v, b, k, env);
      assert c in p.code[v].inputs && x in p.code[v].inputs;
      ConstantHere(p, s, w, c, b, k, env);
      ConstantRuleLaw(w, p.code[v], false, env[c].n, env[x].n);
      ConstantRuleLaw(w, p.code[v], true, env[c].n, env[x].n);
    }
  }

  /** Wherever the operation is available, it has the value that its rule names. */
  lemma RuleValue(p: Prog, s: Block, w: World, v: Id, b: Block, k: nat, env: Env)
    requires PeepOk(p, s) && Sane(p, s, w, b, k, env) && v in p.code && p.Available(s, v, b, k)
    requires Reach(p.Edges(), s, p.code[v].bb)
    ensures Rule(p, v).Use? ==> Get(env, v) == Get(env, Rule(p, v).r)
    ensures Rule(p, v).Zero? ==> Get(env, v) == IntV(0)
  {
    hide PeepOk, Reach, Ir.Prog.Available, Sane, ConstantRule, AddAfterSubRule;
    if p.code[v].opcode.Binary? && |p.code[v].inputs| == 2 {
      var op, x, y := p.code[v].opcode.op, p.code[v].inputs[0], p.code[v].inputs[1];
      ConstantOperands(p, s, v, x, y);
      if op == OR && x == y {
        OrSame(p, s, w, v, b, k, env);
      } else if op == ADD && AddAfterSubRule(p, x, y) != Keep {
        AfterSubUses(p, x, y);
        AdditionTyped(p, s, v, x, y);
        SubThenAdd(p, s, w, v, x, y, b, k, env);
      } else if op == ADD && AddAfterSubRule(p, y, x) != Keep {
        AfterSubUses(p, y, x);
        AdditionTyped(p, s, v, y, x);
        SubThenAdd(p, s, w, v, y, x, b, k, env);
      } else if IsConstant(p, x) {
        ConstantRuleValue(p, s, w, v, x, y, b, k, env);
      } else if IsConstant(p, y) {
        ConstantRuleValue(p, s, w, v, y, x, b, k, env);
      }
    }
  }

  /** Where the constant rules are tried, the operands are of the operation's type. */
  lemma ConstantOperands(p: Prog, s: Block, v: Id, x: Id, y: Id)
    requires PeepOk(p, s) && v in p.code && p.code[v].opcode.Binary? && p.code[v].inputs == [x, y]
    requires Reach(p.Edges(), s, p.code[v].bb)
    ensures var op, ty := p.code[v].opcode.op, p.code[v].ty;
            || op == OR || op == ASHR
            || (op == ADD && AddAfterSubRule(p, x, y) == Keep && AddAfterSubRule(p, y, x) == Keep) ==>
              TypeIn(p, x) == ty && TypeIn(p, y) == ty
  {
    hide PeepOk, Reach, AddAfterSubRule;
    if p.code[v].opcode.op == ADD {
      AdditionTyped(p, s, v, x, y);
    } else {
      OperationTyped(p, s, v);
    }
  }

  lemma AfterSubUses(p: Prog, x: Id, sub: Id)
    requires AddAfterSubRule(p, x, sub) != Keep
    ensures AddAfterSubRule(p, x, sub).Use?
    ensures sub in p.code && p.code[sub].opcode == Binary(SUB) && AddAfterSubRule(p, x, sub).r in p.code[sub].inputs
  {
  }

  // ---------- what a rule names may be used instead ----------

  /** The value a rule names is an operand, or an operand of the subtraction that is one. */
  lemma RuleOperand(p: Prog, v: Id)
    requires Rule(p, v).Use?
    ensures v in p.code && p.code[v].opcode.Binary? && Modelled(p.code[v].opcode.op) && p.code[v].opcode.op != SUB
    ensures Rule(p, v).r in p.code[v].inputs ||
            exists sub :: sub in p.code[v].inputs && sub in p.code && p.code[sub].opcode == Binary(SUB) &&
                   Rule(p, v).r in p.code[sub].inputs
  {
    hide ConstantValue, AllOnes;
  }

  /** It is of the operation's type. */
  lemma RuleTyped(p: Prog, s: Block, v: Id)
    requires PeepOk(p, s) && Rule(p, v).Use? && Reach(p.Edges(), s, p.BlockOf(v))
    ensures v in p.code && TypeIn(p, Rule(p, v).r) == p.code[v].ty
  {
    hide PeepOk, Reach, ConstantValue, Ones, Ir.Prog.Edges;
    var op, x, y := p.code[v].opcode.op, p.code[v].inputs[0], p.code[v].inputs[1];
    ConstantOperands(p, s, v, x, y);
    OperationTyped(p, s, v);
    if op == ADD && AddAfterSubRule(p, x, y) != Keep {
      AdditionTyped(p, s, v, x, y);
      OperationTyped(p, s, y);
    } else if op == ADD && AddAfterSubRule(p, y, x) != Keep {
      AdditionTyped(p, s, v, y, x);
      OperationTyped(p, s, x);
    }
  }

  lemma RuleBehind(p: Prog, s: Block, v: Id)
    requires PeepOk(p, s) && Rule(p, v).Use? && Reach(p.Edges(), s, p.BlockOf(v))
    ensures v in p.code && Behind(p, s, v, Rule(p, v).r) && p.code[Rule(p, v).r].ty == p.code[v].ty
  {
    hide PeepOk, Reach, Rule;
    RuleOperand(p, v);
    RuleTyped(p, s, v);
    PeepFacts(p, s);
    hide Graph.Closed, Graph.Mirrored, Ir.Prog.Placed, Runnable, Ir.Prog.Ssa, Ir.Prog.Edges;
    var r := Rule(p, v).r;
    if r in p.code[v].inputs {
      OperandBehind(p, s, v, r);
    } else {
      var sub :| sub in p.code[v].inputs && sub in p.code && p.code[sub].opcode == Binary(SUB) &&
          r in p.code[sub].inputs;
      OperandReached(p, s, v, sub);
      OperandBehind(p, s, sub, r);
      BehindTwice(p, s, v, sub, r);
    }
  }

  lemma RuleReplaceable(p: Prog, s: Block, v: Id)
    requires PeepOk(p, s) && Rule(p, v).Use? && Reach(p.Edges(), s, p.BlockOf(v))
    ensures Replaceable(p, s, v, Rule(p, v).r)
  {
    RuleOperand(p, v);
    RuleBehind(p, s, v);
    BehindServed(p, s, v, Rule(p, v).r);
    hide PeepOk, Reach, Rule, Sane, Ir.Prog.Available, Served;
    forall w, b, k, env | Reach(p.Edges(), s, b) && Sane(p, s, w, b, k, env) && p.Available(s, v, b, k) &&
           p.Available(s, Rule(p, v).r, b, k)
      ensures Get(env, v) == Get(env, Rule(p, v).r)
    {
      RuleValue(p, s, w, v, b, k, env);
    }
  }
}
