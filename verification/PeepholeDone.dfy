/** What is left when no peephole applies, said of the instructions themselves: which operands no operation has any
    more (Passes/peepholes.cpp:33-164). */
module PeepholeDone {
  import opened Util
  import opened Cfg
  import opened Ir
  import opened Semantics
  import opened PeepholeArith
  import opened PeepholeTheory
  import opened PeepholeRules

  /** The number a constant stands for. */
  function Number(code: map<Id, Instr>, x: Id): Option<int> {
    if x in code && code[x].opcode.Constant? then Some(code[x].opcode.value) else None
  }

  /** `sub` takes `x` away from something. */
  ghost predicate TakesAway(code: map<Id, Instr>, sub: Id, x: Id) {
    sub in code && code[sub].opcode == Binary(SUB) && |code[sub].inputs| == 2 && code[sub].inputs[1] == x
  }

  /** `m` is the value of the type that `n` stands for. */
  ghost predicate StandsFor(ty: TypeId, n: int, m: int) {
    && Congruent(ty, n, m)
    && if ty == I8 || ty == I16 || ty == I32 || ty == I64
       then -(Pow2(TypeIdToSize(ty)) as int) <= 2 * m < Pow2(TypeIdToSize(ty))
       else 0 <= m < Pow2(TypeIdToSize(ty))
  }

  /** The constant operand that decides: the first operand if it is a constant, else the second one. */
  function Deciding(code: map<Id, Instr>, x: Id, y: Id): Option<int> {
    if Number(code, x).Some? then Number(code, x) else Number(code, y)
  }

  /** An operation on integers has none of the operands that a peephole would use up: an or has different operands,
      none of them zero or all ones; an addition no zero, and no operand that takes its other one away; a shift of
      something that is not a constant, or of a constant by itself, no count that is zero or at least the width. */
  ghost predicate LeftAlone(code: map<Id, Instr>, op: BinaryOp, ty: TypeId, x: Id, y: Id) {
    match op
    case ADD =>
      && !TakesAway(code, x, y) && !TakesAway(code, y, x)
      && (Deciding(code, x, y).Some? ==> !Congruent(ty, Deciding(code, x, y).value, 0))
    case OR =>
      && x != y
      && (Deciding(code, x, y).Some? ==>
            !Congruent(ty, Deciding(code, x, y).value, 0) && !Congruent(ty, Deciding(code, x, y).value, -1))
    case ASHR =>
      (Number(code, x).None? || x == y) && Number(code, y).Some? ==>
        forall m :: StandsFor(ty, Number(code, y).value, m) ==> m != 0 && m < TypeIdToSize(ty)
    case _ => true
  }

  ghost predicate LeftAloneAt(code: map<Id, Instr>, v: Id) {
    v in code && code[v].opcode.Binary? && |code[v].inputs| == 2 && code[v].ty !in {F32, F64, REF, VOID, NONE} ==>
      LeftAlone(code, code[v].opcode.op, code[v].ty, code[v].inputs[0], code[v].inputs[1])
  }

  /** No operation of the list has such operands. */
  ghost predicate AllLeftAlone(code: map<Id, Instr>, body: seq<Id>) {
    forall v :: v in body ==> LeftAloneAt(code, v)
  }

  lemma IntegersAre(ty: TypeId)
    ensures IsInteger(ty) <==> ty !in {F32, F64, REF, VOID, NONE}
  {
  }

  lemma RangeIs(ty: TypeId, m: int)
    requires IsInteger(ty)
    ensures InRange(ty, m) <==>
              if ty == I8 || ty == I16 || ty == I32 || ty == I64
              then -(Pow2(TypeIdToSize(ty)) as int) <= 2 * m < Pow2(TypeIdToSize(ty))
              else 0 <= m < Pow2(TypeIdToSize(ty))
  {
    Doubled(TypeIdToSize(ty));
    hide Pow2, TypeIdToSize;
  }

  lemma CongruentExactly(ty: TypeId, n: int, m: int)
    requires IsInteger(ty) && InRange(ty, m)
    ensures Congruent(ty, n, m) <==> Wrap(ty, n) == m
  {
    hide Pow2, Wrap, TypeIdToSize, IsInteger, InRange;
    WrapExactly(ty, n, m);
  }

  lemma StandsForExactly(ty: TypeId, n: int, m: int)
    requires IsInteger(ty)
    ensures StandsFor(ty, n, m) <==> m == Wrap(ty, n)
  {
    RangeIs(ty, m);
    hide Pow2, Wrap, TypeIdToSize, IsInteger, InRange, Congruent;
    WrapInRange(ty, n);
    if InRange(ty, m) {
      CongruentExactly(ty, n, m);
    }
  }

  lemma ZeroExactly(ty: TypeId, n: int)
    requires IsInteger(ty)
    ensures Wrap(ty, n) == 0 <==> Congruent(ty, n, 0)
  {
    hide Pow2, Wrap;
    OnesInRange(ty);
    WrapExactly(ty, n, 0);
  }

  lemma OnesExactly(ty: TypeId, n: int)
    requires IsInteger(ty)
    ensures Wrap(ty, n) == AllOnes(ty) <==> Congruent(ty, n, -1)
  {
    hide Pow2, Wrap;
    OnesInRange(ty);
    WrapExactly(ty, n, AllOnes(ty));
    var size := Pow2(TypeIdToSize(ty));
    if !IsSigned(ty) {
      assert n - (size - 1) + 1 * size == n - (-1);
      ModShift(n - (size - 1), size, 1);
    }
  }

  /** The rules for a constant operand, on integers. */
  lemma ConstantExactly(p: Prog, v: Id, c: Id, x: Id)
    requires v in p.code && p.code[v].opcode.Binary? && |p.code[v].inputs| == 2 && IsInteger(p.code[v].ty)
    requires IsConstant(p, c)
    ensures var op, ty, n := p.code[v].opcode.op, p.code[v].ty, p.code[c].opcode.value;
            && (op == ADD ==> (ConstantRule(p, v, c, x) == Keep <==> !Congruent(ty, n, 0)))
            && (op == OR ==>
                  (ConstantRule(p, v, c, x) == Keep <==> !Congruent(ty, n, 0) && !Congruent(ty, n, -1)))
            && (op == ASHR ==>
                  (ConstantRule(p, v, c, x) == Keep <==>
                     (c == p.code[v].inputs[1] ==> Wrap(ty, n) != 0 && Wrap(ty, n) < TypeIdToSize(ty))))
            && (op != ADD && op != OR && op != ASHR ==> ConstantRule(p, v, c, x) == Keep)
  {
    hide Wrap, AllOnes, TypeIdToSize, Congruent;
    ZeroExactly(p.code[v].ty, p.code[c].opcode.value);
    OnesExactly(p.code[v].ty, p.code[c].opcode.value);
  }

  lemma TakesAwayExactly(p: Prog, x: Id, sub: Id)
    ensures AddAfterSubRule(p, x, sub) != Keep <==> TakesAway(p.code, sub, x)
  {
  }

  /** When the rules leave an operation alone. */
  lemma KeepCases(p: Prog, v: Id)
    requires v in p.code && p.code[v].opcode.Binary? && |p.code[v].inputs| == 2
    ensures var op, x, y := p.code[v].opcode.op, p.code[v].inputs[0], p.code[v].inputs[1];
            Rule(p, v) == Keep <==>
              && (op == OR ==> x != y)
              && (op == ADD ==> AddAfterSubRule(p, x, y) == Keep && AddAfterSubRule(p, y, x) == Keep)
              && (if IsConstant(p, x) then ConstantRule(p, v, x, y) == Keep
                  else IsConstant(p, y) ==> ConstantRule(p, v, y, x) == Keep)
  {
    hide ConstantRule, AddAfterSubRule, IsConstant;
  }

  /** No rule applies to an operation on integers exactly when it has none of the operands. */
  lemma KeepExactly(p: Prog, v: Id)
    requires v in p.code && p.code[v].opcode.Binary? && |p.code[v].inputs| == 2
    requires p.code[v].ty !in {F32, F64, REF, VOID, NONE}
    ensures Rule(p, v) == Keep <==>
              LeftAlone(p.code, p.code[v].opcode.op, p.code[v].ty, p.code[v].inputs[0], p.code[v].inputs[1])
  {
    var op, ty, x, y := p.code[v].opcode.op, p.code[v].ty, p.code[v].inputs[0], p.code[v].inputs[1];
    IntegersAre(ty);
    NumbersAre(p, x);
    NumbersAre(p, y);
    KeepCases(p, v);
    TakesAwayExactly(p, x, y);
    TakesAwayExactly(p, y, x);
    hide *;
    if IsConstant(p, x) {
      ConstantExactly(p, v, x, y);
      CountExactly(ty, p.code[x].opcode.value);
      KeptByConstant(p, op, ty, x, y, x, ConstantRule(p, v, x, y) == Keep);
    } else if IsConstant(p, y) {
      ConstantExactly(p, v, y, x);
      CountExactly(ty, p.code[y].opcode.value);
      KeptByConstant(p, op, ty, x, y, y, ConstantRule(p, v, y, x) == Keep);
    } else {
      KeptByNone(p, op, ty, x, y);
    }
  }

  lemma NumbersAre(p: Prog, x: Id)
    ensures IsConstant(p, x) ==> x in p.code && Number(p.code, x) == Some(p.code[x].opcode.value)
    ensures !IsConstant(p, x) ==> Number(p.code, x) == None
  {
  }

  /** With a constant operand `c` to decide by. */
  lemma KeptByConstant(p: Prog, op: BinaryOp, ty: TypeId, x: Id, y: Id, c: Id, keeps: bool)
    requires Number(p.code, c).Some? && c == if Number(p.code, x).Some? then x else y
    requires var n := Number(p.code, c).value;
             && (op == ADD ==> (keeps <==> !Congruent(ty, n, 0)))
             && (op == OR ==> (keeps <==> !Congruent(ty, n, 0) && !Congruent(ty, n, -1)))
             && (op == ASHR ==>
                   (keeps <==>
                      (c == y ==> forall m :: StandsFor(ty, n, m) ==> m != 0 && m < TypeIdToSize(ty))))
             && (op != ADD && op != OR && op != ASHR ==> keeps)
    ensures LeftAlone(p.code, op, ty, x, y) <==>
              && (op == OR ==> x != y)
              && (op == ADD ==> !TakesAway(p.code, x, y) && !TakesAway(p.code, y, x))
              && keeps
  {
    hide Congruent, StandsFor, TakesAway, TypeIdToSize, Number;
  }

  lemma KeptByNone(p: Prog, op: BinaryOp, ty: TypeId, x: Id, y: Id)
    requires Number(p.code, x).None? && Number(p.code, y).None?
    ensures LeftAlone(p.code, op, ty, x, y) <==>
              && (op == OR ==> x != y)
              && (op == ADD ==> !TakesAway(p.code, x, y) && !TakesAway(p.code, y, x))
  {
    hide Congruent, StandsFor, TakesAway, TypeIdToSize, Number;
  }

  lemma CountExactly(ty: TypeId, n: int)
    requires IsInteger(ty)
    ensures (forall m :: StandsFor(ty, n, m) ==> m != 0 && m < TypeIdToSize(ty)) <==>
              Wrap(ty, n) != 0 && Wrap(ty, n) < TypeIdToSize(ty)
  {
    hide StandsFor, Wrap, TypeIdToSize, IsInteger;
    forall m ensures StandsFor(ty, n, m) <==> m == Wrap(ty, n) {
      StandsForExactly(ty, n, m);
    }
    assert StandsFor(ty, n, Wrap(ty, n));
  }

  /** On a typed graph a rule applies exactly to what is not to be left alone. */
  lemma RuleExactly(p: Prog, s: Block, v: Id)
    requires PeepOk(p, s)
    ensures Rule(p, v) == Keep <==> LeftAloneAt(p.code, v)
  {
    hide PeepOk, LeftAlone;
    if v in p.code && p.code[v].opcode.Binary? && |p.code[v].inputs| == 2 {
      if p.code[v].ty in {F32, F64, REF, VOID, NONE} {
        OperationTyped(p, s, v);
        IntegersAre(p.code[v].ty);
        UnmodelledKept(p, v);
      } else {
        KeepExactly(p, v);
      }
    }
  }

  lemma UnmodelledKept(p: Prog, v: Id)
    requires v in p.code && p.code[v].opcode.Binary? && !Modelled(p.code[v].opcode.op)
    ensures Rule(p, v) == Keep
  {
    hide AddAfterSubRule, IsConstant, ConstantValue, Ones;
  }
}
