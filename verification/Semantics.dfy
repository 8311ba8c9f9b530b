/** What running a graph means: blocks are executed from the start block on, phis are assigned simultaneously
    along an edge, operations whose effect is not modelled are answered by a world and logged. */
module Semantics {
  import opened Util
  import opened Cfg
  import opened Ir

  datatype Value = IntV(n: int) | NullV | RefV(id: nat)

  /** An opaque operation that was carried out, with the values it read. */
  datatype Event = Event(instr: Id, args: seq<Value>)

  /** Everything a run depends on besides the graph: parameters, the answers of opaque operations to the log so
      far, the arithmetic that is not modelled, and the tests of branches. */
  datatype World = World(param: nat -> Value,
                         result: (seq<Event>, Id) -> Value,
                         pure: (Opcode, TypeId, seq<Value>) -> Value,
                         test: (Id, seq<Value>) -> bool,
                         inBounds: seq<Value> -> bool)

  type Env = map<Id, Value>

  datatype Store = Store(env: Env, log: seq<Event>)

  datatype Config = At(b: Block, st: Store) | Halted(st: Store)

  // ---------- values ----------

  predicate IsSigned(ty: TypeId) {
    ty == I8 || ty == I16 || ty == I32 || ty == I64
  }

  predicate IsInteger(ty: TypeId) {
    IsSigned(ty) || ty == U8 || ty == U16 || ty == U32 || ty == U64
  }

  function Pow2(n: nat): (r: nat)
    ensures r >= 1
  {
    if n == 0 then 1 else 2 * Pow2(n - 1)
  }

  function Lowest(ty: TypeId): int
    requires IsInteger(ty)
  {
    var half: int := Pow2(TypeIdToSize(ty) - 1);
    if IsSigned(ty) then -half else 0
  }

  /** The value of the type that is congruent to `n` modulo two to the type's width. */
  function Wrap(ty: TypeId, n: int): int
    requires IsInteger(ty)
  {
    (n - Lowest(ty)) % Pow2(TypeIdToSize(ty)) + Lowest(ty)
  }

  predicate InRange(ty: TypeId, n: int)
    requires IsInteger(ty)
  {
    Lowest(ty) <= n < Lowest(ty) + Pow2(TypeIdToSize(ty))
  }

  lemma SmallMod(y: int, m: int)
    requires m >= 1
    ensures 0 <= y % m < m
    ensures 0 <= y < m ==> y % m == y
  {
    var q := y / m;
    assert y == q * m + y % m;
    if q >= 1 {
      assert q * m >= m;
    } else if q <= -1 {
      assert q * m <= -m;
    }
  }

  lemma WrapInRange(ty: TypeId, n: int)
    requires IsInteger(ty)
    ensures InRange(ty, Wrap(ty, n))
    ensures InRange(ty, n) ==> Wrap(ty, n) == n
  {
    hide Pow2, Lowest;
    SmallMod(n - Lowest(ty), Pow2(TypeIdToSize(ty)));
  }

  /** A result as a value of its type. */
  function Coerce(ty: TypeId, v: Value): Value {
    if IsInteger(ty) then IntV(Wrap(ty, if v.IntV? then v.n else 0)) else v
  }

  ghost predicate HasType(ty: TypeId, v: Value) {
    IsInteger(ty) ==> v.IntV? && InRange(ty, v.n)
  }

  lemma CoerceHasType(ty: TypeId, v: Value)
    ensures HasType(ty, Coerce(ty, v))
    ensures HasType(ty, v) ==> Coerce(ty, v) == v
  {
    if IsInteger(ty) {
      WrapInRange(ty, if v.IntV? then v.n else 0);
    }
  }

  /** The largest shift that is not an over-shift, plus one: std::numeric_limits<T>::digits. */
  function Digits(ty: TypeId): int {
    if IsSigned(ty) then TypeIdToSize(ty) - 1 else TypeIdToSize(ty)
  }

  /** The value read as a signed one of the same width. */
  function AsSigned(ty: TypeId, n: int): int
    requires IsInteger(ty)
  {
    if n >= Pow2(TypeIdToSize(ty) - 1) then n - Pow2(TypeIdToSize(ty)) else n
  }

  /** Arithmetic shift right on every integer type (Passes/constantFolding.cpp:62-81). */
  function ShiftRight(ty: TypeId, a: int, n: int): int
    requires IsInteger(ty)
  {
    if n < 0 || n >= Digits(ty) then 0
    else Wrap(ty, AsSigned(ty, a) / Pow2(n))
  }

  /** Bitwise or of two numbers of `bits` bits. */
  function Or(bits: nat, a: nat, b: nat): nat {
    if bits == 0 then 0
    else 2 * Or(bits - 1, a / 2, b / 2) + (if a % 2 == 1 || b % 2 == 1 then 1 else 0)
  }

  /** The bits of a value as an unsigned number. */
  function Bits(ty: TypeId, n: int): nat
    requires IsInteger(ty)
  {
    n % Pow2(TypeIdToSize(ty))
  }

  function Arithmetic(w: World, op: BinaryOp, ty: TypeId, args: seq<Value>): Value {
    if IsInteger(ty) && |args| == 2 && args[0].IntV? && args[1].IntV? then
      var a, b := args[0].n, args[1].n;
      match op
      case ADD => IntV(a + b)
      case SUB => IntV(a - b)
      case OR => IntV(Or(TypeIdToSize(ty), Bits(ty, a), Bits(ty, b)))
      case ASHR => IntV(ShiftRight(ty, a, b))
      case MUL | DIV | AND => w.pure(Binary(op), ty, args)
    else w.pure(Binary(op), ty, args)
  }

  // ---------- running ----------

  predicate IsBranch(op: Opcode) {
    op.If? || op.CheckNull? || op.CheckBounds?
  }

  /** Operations whose value depends on nothing but their inputs. */
  predicate IsPure(op: Opcode) {
    op.Param? || op.Constant? || op.Cast? || op.Binary? || op.NullInstr?
  }

  function Get(env: Env, x: Id): Value {
    if x in env then env[x] else NullV
  }

  function Values(env: Env, xs: seq<Id>): (r: seq<Value>)
    ensures |r| == |xs| && forall i :: 0 <= i < |xs| ==> r[i] == Get(env, xs[i])
  {
    if xs == [] then [] else [Get(env, xs[0])] + Values(env, xs[1..])
  }

  function PureValue(w: World, ins: Instr, args: seq<Value>): Value {
    Coerce(ins.ty,
           match ins.opcode
           case Param(i) => w.param(i)
           case Constant(n) => IntV(n)
           case Binary(op) => Arithmetic(w, op, ins.ty, args)
           case NullInstr => NullV
           case other => w.pure(other, ins.ty, args))
  }

  function RunInstr(p: Prog, w: World, st: Store, v: Id): Store {
    if v !in p.code || IsBranch(p.code[v].opcode) then st
    else
      var ins := p.code[v];
      var args := Values(st.env, ins.inputs);
      if IsPure(ins.opcode) then Store(st.env[v := PureValue(w, ins, args)], st.log)
      else
        var log := st.log + [Event(v, args)];
        Store(st.env[v := Coerce(ins.ty, w.result(log, v))], log)
  }

  /** After the first `k` instructions of the body of `b`. */
  function RunTo(p: Prog, w: World, st: Store, b: Block, k: nat): Store
    requires k <= |p.Body(b)|
  {
    if k == 0 then st else RunInstr(p, w, RunTo(p, w, st, b, k - 1), p.Body(b)[k - 1])
  }

  function RunBody(p: Prog, w: World, st: Store, b: Block): Store {
    RunTo(p, w, st, b, |p.Body(b)|)
  }

  /** What a branch decides; true takes the first successor. */
  function Verdict(w: World, v: Id, ins: Instr, args: seq<Value>): bool {
    match ins.opcode
    case If => w.test(v, args)
    case CheckNull => args != [] && args[0] == NullV
    case CheckBounds => w.inBounds(args)
    case _ => true
  }

  function VerdictOf(p: Prog, w: World, env: Env, v: Id): bool {
    v in p.code ==> Verdict(w, v, p.code[v], Values(env, p.code[v].inputs))
  }

  /** The successor taken from the end of `b`. */
  function Taken(p: Prog, w: World, env: Env, b: Block): Block
    requires p.g.Succs(b) != []
  {
    var succs := p.g.Succs(b);
    if |succs| == 1 || p.Body(b) == [] || VerdictOf(p, w, env, p.Body(b)[|p.Body(b)| - 1]) then succs[0] else succs[1]
  }

  /** The phi input for the edge from `b` to `c`. */
  function Incoming(p: Prog, b: Block, c: Block, q: Id): Option<Id> {
    if b in p.g.Preds(c) && FirstIndex(p.g.Preds(c), b) < |p.Inputs(q)|
    then Some(p.Inputs(q)[FirstIndex(p.g.Preds(c), b)]) else None
  }

  function PhiValue(p: Prog, env: Env, b: Block, c: Block, q: Id): Value {
    Coerce(if q in p.code then p.code[q].ty else NONE,
           match Incoming(p, b, c, q) case Some(x) => Get(env, x) case None => NullV)
  }

  function Enter(p: Prog, st: Store, b: Block, c: Block): Store {
    Store(st.env + (map q | q in p.Phis(c) :: PhiValue(p, st.env, b, c, q)), st.log)
  }

  function Step(p: Prog, w: World, c: Config): Config {
    match c
    case Halted(_) => c
    case At(b, st) =>
      var after := RunBody(p, w, st, b);
      if p.g.Succs(b) == [] then Halted(after)
      else
        var next := Taken(p, w, after.env, b);
        At(next, Enter(p, after, b, next))
  }

  /** After `n` blocks. */
  function Exec(p: Prog, s: Block, w: World, n: nat): Config {
    if n == 0 then At(s, Store(map[], [])) else Step(p, w, Exec(p, s, w, n - 1))
  }

  // ---------- what holds at every point of every run ----------

  /** A graph that can be run: strict SSA, and no phis where a run starts. */
  ghost predicate Runnable(p: Prog, s: Block) {
    p.g.Closed() && p.g.Mirrored() && p.Ssa(s) && p.Phis(s) == []
  }

  /** The values of a point: available ones are there, have their type, and a pure operation has the value of
      its operation on the current values of its inputs. */
  ghost predicate Sane(p: Prog, s: Block, w: World, b: Block, k: nat, env: Env) {
    && (forall v :: v in env ==> TypedValue(p, v, env[v]))
    && (forall v :: p.Available(s, v, b, k) ==> Holding(p, w, v, env))
  }

  ghost predicate TypedValue(p: Prog, v: Id, x: Value) {
    v in p.code && HasType(p.code[v].ty, x)
  }

  ghost predicate Holding(p: Prog, w: World, v: Id, env: Env) {
    v in p.code && !IsBranch(p.code[v].opcode) ==>
      v in env && (IsPure(p.code[v].opcode) ==> env[v] == PureValue(w, p.code[v], Values(env, p.code[v].inputs)))
  }

  lemma ValuesAgree(e: Env, e': Env, xs: seq<Id>)
    requires forall x :: x in xs ==> Get(e, x) == Get(e', x)
    ensures Values(e, xs) == Values(e', xs)
  {
  }

  /** Changing other values than `v` and its inputs keeps what is known of `v`. */
  lemma HoldingKept(p: Prog, w: World, v: Id, e: Env, e': Env)
    requires Holding(p, w, v, e) && (v in e ==> v in e' && e'[v] == e[v])
    requires forall x :: x in p.Inputs(v) ==> Get(e, x) == Get(e', x)
    ensures Holding(p, w, v, e')
  {
    ValuesAgree(e, e', p.Inputs(v));
  }

  /** Where an instruction stands. */
  ghost predicate StandsAt(p: Prog, v: Id, b: Block, k: nat) {
    k < |p.Body(b)| && p.Body(b)[k] == v
  }

  lemma AvailableNext(p: Prog, s: Block, v: Id, b: Block, k: nat)
    requires p.Ssa(s) && k < |p.Body(b)| && p.Available(s, v, b, k + 1)
    ensures v == p.Body(b)[k] || p.Available(s, v, b, k)
  {
    hide Dom, SDom, Ir.Prog.Ssa, Ir.Prog.Edges;
    assert p.Body(b)[..k + 1] == p.Body(b)[..k] + [p.Body(b)[k]];
  }

  lemma OneWay(es: Edges, s: Block, a: Block, b: Block)
    requires Reach(es, s, b) && SDom(es, s, a, b)
    ensures !SDom(es, s, b, a)
  {
    if Dom(es, s, b, a) {
      SDomTrans(es, s, b, a, b);
      assert false;
    }
  }

  /** The inputs of a non-phi were available where it stands. */
  lemma InputsBefore(p: Prog, s: Block, v: Id, x: Id) returns (j: nat)
    requires p.Ssa(s) && v in p.code && !p.code[v].opcode.Phi? && x in p.Inputs(v)
    ensures StandsAt(p, v, p.code[v].bb, j) && p.Available(s, x, p.code[v].bb, j)
    ensures x in p.code
    ensures p.code[x].bb == p.code[v].bb && !p.code[x].opcode.Phi? ==> x in p.Body(p.code[v].bb)[..j]
  {
    j := FirstIndex(p.Body(p.code[v].bb), v);
    assert p.Available(s, p.Inputs(v)[FirstIndex(p.Inputs(v), x)], p.code[v].bb, j);
  }

  /** In a reachable block an available non-phi is not, and does not read, what is defined only later in it. */
  lemma InputNotLater(p: Prog, s: Block, v: Id, b: Block, k: nat)
    requires p.Ssa(s) && Reach(p.Edges(), s, b) && k < |p.Body(b)|
    requires p.Available(s, v, b, k) && !p.code[v].opcode.Phi?
    ensures p.Body(b)[k] !in p.Inputs(v) && v != p.Body(b)[k]
  {
    hide Reach, Dom;
    var d := p.Body(b)[k];
    DistinctSplit(p.Body(b), k, d);
    forall x | x in p.Inputs(v) ensures x != d {
      var j := InputsBefore(p, s, v, x);
      if p.code[v].bb == b {
        var i := FirstIndex(p.Body(b)[..k], v);
        assert p.Body(b)[i] == v && i == j;
        assert p.Body(b)[..j] <= p.Body(b)[..k];
      } else {
        OneWay(p.Edges(), s, p.code[v].bb, b);
      }
    }
  }

  /** One instruction. */
  lemma SaneInstr(p: Prog, s: Block, w: World, b: Block, k: nat, st: Store)
    requires p.Ssa(s) && Reach(p.Edges(), s, b) && k < |p.Body(b)| && Sane(p, s, w, b, k, st.env)
    ensures Sane(p, s, w, b, k + 1, RunInstr(p, w, st, p.Body(b)[k]).env)
  {
    hide Reach, Dom, Ir.Prog.Available, Ir.Prog.Ssa, HasType, Coerce, RunInstr, Holding, TypedValue;
    RunInstrTyped(p, w, st, p.Body(b)[k]);
    forall v | p.Available(s, v, b, k + 1) ensures Holding(p, w, v, RunInstr(p, w, st, p.Body(b)[k]).env) {
      HoldingNext(p, s, w, b, k, st, v);
    }
  }

  lemma HoldingNext(p: Prog, s: Block, w: World, b: Block, k: nat, st: Store, v: Id)
    requires p.Ssa(s) && Reach(p.Edges(), s, b) && k < |p.Body(b)| && Sane(p, s, w, b, k, st.env)
    requires p.Available(s, v, b, k + 1)
    ensures Holding(p, w, v, RunInstr(p, w, st, p.Body(b)[k]).env)
  {
    hide Reach, Dom, Ir.Prog.Available, Ir.Prog.Ssa, HasType, Coerce, RunInstr, PureValue;
    var d := p.Body(b)[k];
    var st' := RunInstr(p, w, st, d);
    RunInstrTyped(p, w, st, d);
    AvailableNext(p, s, v, b, k);
    AvailableExists(p, s, v, b, k + 1);
    DefinedNotOwnInput(p, s, b, k);
    if v == d {
      HoldingDefined(p, w, st, d);
    } else {
      assert Holding(p, w, v, st.env);
      if !p.code[v].opcode.Phi? {
        InputNotLater(p, s, v, b, k);
        assert Get(st'.env, v) == Get(st.env, v);
        HoldingKept(p, w, v, st.env, st'.env);
      }
    }
  }

  lemma HoldingDefined(p: Prog, w: World, st: Store, d: Id)
    requires d in p.code && d !in p.Inputs(d)
    ensures Holding(p, w, d, RunInstr(p, w, st, d).env)
  {
    hide PureValue, Coerce;
    ValuesAgree(st.env, RunInstr(p, w, st, d).env, p.Inputs(d));
  }

  lemma AvailableExists(p: Prog, s: Block, v: Id, b: Block, k: nat)
    requires p.Available(s, v, b, k)
    ensures v in p.code
  {
  }

  lemma DefinedNotOwnInput(p: Prog, s: Block, b: Block, k: nat)
    requires p.Ssa(s) && k < |p.Body(b)|
    ensures p.Body(b)[k] !in p.Inputs(p.Body(b)[k])
    ensures p.Body(b)[k] in p.code && p.code[p.Body(b)[k]].bb == b && !p.code[p.Body(b)[k]].opcode.Phi?
  {
    var d := p.Body(b)[k];
    if d in p.Inputs(d) {
      assert p.Available(s, d, b, k);
      DistinctSplit(p.Body(b), k, d);
    }
  }

  lemma RunInstrTyped(p: Prog, w: World, st: Store, d: Id)
    requires forall v :: v in st.env ==> TypedValue(p, v, st.env[v])
    ensures forall v :: v in RunInstr(p, w, st, d).env ==> TypedValue(p, v, RunInstr(p, w, st, d).env[v])
    ensures forall v :: v != d ==> Get(RunInstr(p, w, st, d).env, v) == Get(st.env, v)
    ensures forall v :: v != d ==> (v in RunInstr(p, w, st, d).env <==> v in st.env)
  {
    hide HasType, Coerce, Arithmetic;
    if d in p.code {
      var args := Values(st.env, p.code[d].inputs);
      var log := st.log + [Event(d, args)];
      CoerceHasType(p.code[d].ty, w.result(log, d));
      PureTyped(w, p.code[d], args);
    }
  }

  lemma PureTyped(w: World, ins: Instr, args: seq<Value>)
    ensures HasType(ins.ty, PureValue(w, ins, args))
  {
    hide HasType, Coerce, Arithmetic;
    CoerceHasType(ins.ty, match ins.opcode
                          case Param(i) => w.param(i)
                          case Constant(n) => IntV(n)
                          case Binary(op) => Arithmetic(w, op, ins.ty, args)
                          case NullInstr => NullV
                          case other => w.pure(other, ins.ty, args));
  }

  lemma {:induction false} SaneTo(p: Prog, s: Block, w: World, b: Block, k: nat, st: Store)
    requires p.Ssa(s) && Reach(p.Edges(), s, b) && k <= |p.Body(b)| && Sane(p, s, w, b, 0, st.env)
    ensures Sane(p, s, w, b, k, RunTo(p, w, st, b, k).env)
  {
    hide Reach, Sane, Ir.Prog.Ssa, RunInstr;
    if k > 0 {
      SaneTo(p, s, w, b, k - 1, st);
      SaneInstr(p, s, w, b, k - 1, RunTo(p, w, st, b, k - 1));
    }
  }

  /** What is available at the start of a block and is not one of its phis was available at the end of the
      predecessor, and reads none of the block's phis. */
  lemma AvailableAcross(p: Prog, s: Block, b: Block, c: Block, v: Id)
    requires p.Ssa(s) && Reach(p.Edges(), s, c) && (b, c) in p.Edges() && p.Available(s, v, c, 0) && v !in p.Phis(c)
    ensures v in p.code && p.Available(s, v, b, |p.Body(b)|)
    ensures !p.code[v].opcode.Phi? ==> forall x :: x in p.Inputs(v) ==> x !in p.Phis(c)
  {
    hide Reach, Dom;
    DomPred(p.Edges(), s, p.code[v].bb, b, c);
    assert p.Body(b)[..|p.Body(b)|] == p.Body(b);
    if !p.code[v].opcode.Phi? {
      OneWay(p.Edges(), s, p.code[v].bb, c);
      forall x | x in p.Inputs(v) ensures x !in p.Phis(c) {
        var j := InputsBefore(p, s, v, x);
      }
    }
  }

  lemma EnterGets(p: Prog, st: Store, b: Block, c: Block, x: Id)
    ensures x !in p.Phis(c) ==>
              (x in Enter(p, st, b, c).env <==> x in st.env) && Get(Enter(p, st, b, c).env, x) == Get(st.env, x)
    ensures x in p.Phis(c) ==> x in Enter(p, st, b, c).env && Enter(p, st, b, c).env[x] == PhiValue(p, st.env, b, c, x)
  {
    hide PhiValue;
  }

  lemma HoldingEntered(p: Prog, s: Block, w: World, b: Block, c: Block, st: Store, v: Id)
    requires p.Ssa(s) && Reach(p.Edges(), s, c) && (b, c) in p.Edges() && Sane(p, s, w, b, |p.Body(b)|, st.env)
    requires p.Available(s, v, c, 0)
    ensures Holding(p, w, v, Enter(p, st, b, c).env)
  {
    hide Reach, Dom, Ir.Prog.Available, Ir.Prog.Strict, HasType, Coerce, Enter, PureValue, Ir.Prog.Placed;
    EnterGets(p, st, b, c, v);
    if v !in p.Phis(c) {
      AvailableAcross(p, s, b, c, v);
      assert Holding(p, w, v, st.env);
      if !p.code[v].opcode.Phi? {
        forall x | x in p.Inputs(v) ensures Get(st.env, x) == Get(Enter(p, st, b, c).env, x) {
          EnterGets(p, st, b, c, x);
        }
        HoldingKept(p, w, v, st.env, Enter(p, st, b, c).env);
      }
    } else {
      PhiIsPhi(p, c, v);
    }
  }

  lemma PhiIsPhi(p: Prog, c: Block, q: Id)
    requires p.Placed() && q in p.Phis(c)
    ensures q in p.code && p.code[q].opcode.Phi?
  {
  }

  /** One edge. */
  lemma SaneEnter(p: Prog, s: Block, w: World, b: Block, c: Block, st: Store)
    requires p.Ssa(s) && Reach(p.Edges(), s, c) && (b, c) in p.Edges() && Sane(p, s, w, b, |p.Body(b)|, st.env)
    ensures Sane(p, s, w, c, 0, Enter(p, st, b, c).env)
  {
    hide Reach, Dom, Ir.Prog.Available, Ir.Prog.Strict, HasType, Coerce, PhiValue, Enter, Holding, Ir.Prog.Placed;
    var st' := Enter(p, st, b, c);
    forall v | v in st'.env ensures TypedValue(p, v, st'.env[v]) {
      EnterGets(p, st, b, c, v);
      if v in p.Phis(c) {
        PhiIsPhi(p, c, v);
        PhiTyped(p, st.env, b, c, v);
      }
    }
    forall v | p.Available(s, v, c, 0) ensures Holding(p, w, v, st'.env) {
      HoldingEntered(p, s, w, b, c, st, v);
    }
  }

  lemma PhiTyped(p: Prog, env: Env, b: Block, c: Block, q: Id)
    requires q in p.code
    ensures HasType(p.code[q].ty, PhiValue(p, env, b, c, q))
  {
    hide HasType, Coerce;
    CoerceHasType(p.code[q].ty, match Incoming(p, b, c, q) case Some(x) => Get(env, x) case None => NullV);
  }

  lemma TakenIsEdge(p: Prog, w: World, env: Env, b: Block)
    requires p.g.Succs(b) != []
    ensures (b, Taken(p, w, env, b)) in p.Edges()
  {
    EdgeIsSucc(p.g, b, Taken(p, w, env, b));
  }

  lemma SaneStart(p: Prog, s: Block, w: World)
    requires Runnable(p, s)
    ensures Sane(p, s, w, s, 0, map[]) && Reach(p.Edges(), s, s)
  {
    PathSingle(p.Edges(), s);
    forall v ensures !p.Available(s, v, s, 0) {
      if v in p.code && p.code[v].bb != s && SDom(p.Edges(), s, p.code[v].bb, s) {
        NothingAboveStart(p.Edges(), s, p.code[v].bb);
      }
    }
  }

  /** In strict SSA, wherever a run is, every available pure operation has the value of its operation on the
      current values of its inputs, loops included. */
  lemma {:induction false} SaneRun(p: Prog, s: Block, w: World, n: nat)
    requires Runnable(p, s)
    ensures var c := Exec(p, s, w, n);
            c.At? ==> Reach(p.Edges(), s, c.b) && Sane(p, s, w, c.b, 0, c.st.env)
  {
    hide Reach, Sane, Taken, Enter, Ir.Prog.Ssa;
    if n == 0 {
      SaneStart(p, s, w);
    } else {
      SaneRun(p, s, w, n - 1);
      var c := Exec(p, s, w, n - 1);
      if c.At? && p.g.Succs(c.b) != [] {
        var after := RunBody(p, w, c.st, c.b);
        SaneTo(p, s, w, c.b, |p.Body(c.b)|, c.st);
        var next := Taken(p, w, after.env, c.b);
        TakenIsEdge(p, w, after.env, c.b);
        ReachStep(p.Edges(), s, c.b, next);
        SaneEnter(p, s, w, c.b, next, after);
      }
    }
  }

  /** The same at any position inside the block. */
  lemma PureAtPoint(p: Prog, s: Block, w: World, n: nat, k: nat, v: Id)
    requires Runnable(p, s) && Exec(p, s, w, n).At? && k <= |p.Body(Exec(p, s, w, n).b)|
    requires p.Available(s, v, Exec(p, s, w, n).b, k) && IsPure(p.code[v].opcode)
    ensures var c := Exec(p, s, w, n);
            var env := RunTo(p, w, c.st, c.b, k).env;
            v in env && env[v] == PureValue(w, p.code[v], Values(env, p.code[v].inputs)) &&
              HasType(p.code[v].ty, env[v])
  {
    hide Reach, Exec, PureValue, HasType, Ir.Prog.Ssa, RunTo, Ir.Prog.Available;
    SaneRun(p, s, w, n);
    var c := Exec(p, s, w, n);
    SaneTo(p, s, w, c.b, k, c.st);
    var env := RunTo(p, w, c.st, c.b, k).env;
    AvailableExists(p, s, v, c.b, k);
    assert Holding(p, w, v, env);
    assert TypedValue(p, v, env[v]);
  }

  lemma AvailableLater(p: Prog, s: Block, x: Id, b: Block, k: nat)
    requires p.Available(s, x, b, k) && k < |p.Body(b)|
    ensures p.Available(s, x, b, k + 1)
  {
    hide Dom;
    assert p.Body(b)[..k] <= p.Body(b)[..k + 1];
    assert forall y :: y in p.Body(b)[..k] ==> y in p.Body(b)[..k + 1];
  }

  lemma SaneAtEnd(p: Prog, s: Block, w: World, b: Block, st: Store)
    requires p.Ssa(s) && Reach(p.Edges(), s, b) && Sane(p, s, w, b, 0, st.env)
    ensures Sane(p, s, w, b, |p.Body(b)|, RunBody(p, w, st, b).env)
  {
    hide Sane, RunTo, Ir.Prog.Ssa, Reach;
    SaneTo(p, s, w, b, |p.Body(b)|, st);
  }

  lemma TakenIsSucc(p: Prog, w: World, env: Env, b: Block)
    requires p.g.Succs(b) != []
    ensures Taken(p, w, env, b) in p.g.Succs(b)
  {
  }

  lemma EnterLog(p: Prog, st: Store, b: Block, c: Block)
    ensures Enter(p, st, b, c).log == st.log
  {
  }
}
