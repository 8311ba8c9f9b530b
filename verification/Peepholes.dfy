/** The peephole pass (Passes/peepholes.cpp, Passes/pass.cpp:5-13). */
module Peepholes {
  import opened Util
  import opened Cfg
  import opened Rpo
  import opened Ir
  import opened Semantics
  import opened GraphEdits
  import opened PeepholeTheory
  import opened PeepholeRuns
  import opened PeepholeRules
  import opened PeepholeZero
  import opened PeepholeDone

  // ---------- redirecting the users of one instruction ----------

  function RedirectedFor(code: map<Id, Instr>, done: set<Id>, v: Id, r: Id): map<Id, Instr> {
    map u | u in code :: if u in done then code[u].(inputs := ReplacedInputs(code[u].inputs, v, r)) else code[u]
  }

  /** The listed instructions that read `v`. */
  function Readers(code: map<Id, Instr>, done: set<Id>, v: Id): set<Id> {
    set u | u in done && u in code && v in code[u].inputs
  }

  /** The users of `x` once the readers of `v` among `done` read `r`. */
  function UsersThen(users: Users, code: map<Id, Instr>, done: set<Id>, v: Id, r: Id, x: Id): set<Id> {
    if x == r then UsersOf(users, r) + Readers(code, done, v)
    else if x == v then UsersOf(users, v) - Readers(code, done, v)
    else UsersOf(users, x)
  }

  ghost predicate UsersRedirected(users: Users, users': Users, code: map<Id, Instr>, done: set<Id>, v: Id, r: Id) {
    forall x :: UsersOf(users', x) == UsersThen(users, code, done, v, r, x)
  }

  lemma NothingRedirected(users: Users, code: map<Id, Instr>, v: Id, r: Id)
    ensures RedirectedFor(code, {}, v, r) == code && UsersRedirected(users, users, code, {}, v, r)
  {
    assert Readers(code, {}, v) == {};
  }

  lemma NextRedirected(users0: Users, users: Users, code: map<Id, Instr>, done: set<Id>, v: Id, r: Id, u: Id)
    requires v != r && u !in done && u in code && UsersRedirected(users0, users, code, done, v, r)
    ensures u in RedirectedFor(code, done, v, r) && RedirectedFor(code, done, v, r)[u] == code[u]
    ensures RedirectedFor(code, done + {u}, v, r) ==
              RedirectedFor(code, done, v, r)[u := code[u].(inputs := ReplacedInputs(code[u].inputs, v, r))]
    ensures UsersRedirected(users0, if v in code[u].inputs then UsersMoved(users, v, r, u) else users, code,
                            done + {u}, v, r)
  {
    hide ReplacedInputs;
    var users' := if v in code[u].inputs then UsersMoved(users, v, r, u) else users;
    var a, b := Readers(code, done, v), Readers(code, done + {u}, v);
    assert b == if v in code[u].inputs then a + {u} else a;
    hide Readers;
    forall x ensures UsersOf(users', x) == UsersThen(users0, code, done + {u}, v, r, x) {
      assert UsersOf(users, x) == UsersThen(users0, code, done, v, r, x);
      assert UsersOf(users, r) == UsersThen(users0, code, done, v, r, r);
    }
  }

  lemma SkippedRedirected(users0: Users, users: Users, code: map<Id, Instr>, done: set<Id>, v: Id, r: Id, u: Id)
    requires u !in done && u !in code && UsersRedirected(users0, users, code, done, v, r)
    ensures RedirectedFor(code, done + {u}, v, r) == RedirectedFor(code, done, v, r)
    ensures UsersRedirected(users0, users, code, done + {u}, v, r)
  {
    assert Readers(code, done + {u}, v) == Readers(code, done, v);
  }

  lemma AllRedirected(p: Prog, users: Users, v: Id, r: Id)
    requires UsersCover(p, users) && v != r
    ensures RedirectedFor(p.code, UsersOf(users, v), v, r) == Redirected(p.code, v, r)
  {
    forall u | u in p.code && u !in UsersOf(users, v)
      ensures ReplacedInputs(p.code[u].inputs, v, r) == p.code[u].inputs
    {
      assert v in p.Inputs(u) ==> u in UsersOf(users, v);
    }
  }

  /** The recorded users still cover all readers. */
  lemma RedirectedCover(p: Prog, users: Users, users': Users, v: Id, r: Id)
    requires UsersCover(p, users) && v != r && UsersRedirected(users, users', p.code, UsersOf(users, v), v, r)
    ensures UsersCover(UseInstead(p, v, r), users')
  {
    var p' := UseInstead(p, v, r);
    forall u, y | u in p'.code && y in p'.Inputs(u) ensures u in UsersOf(users', y) {
      ReplacedMember(p.code[u].inputs, v, r, y);
      assert y in p.Inputs(u) ==> u in UsersOf(users, y);
      assert v in p.Inputs(u) ==> u in UsersOf(users, v);
      assert UsersOf(users', y) == UsersThen(users, p.code, UsersOf(users, v), v, r, y);
    }
  }

  /** Where the recorded users were exactly the readers, they still are. */
  lemma RedirectedExact(p: Prog, users: Users, users': Users, v: Id, r: Id)
    requires UsersExact(p, users) && v != r && UsersRedirected(users, users', p.code, UsersOf(users, v), v, r)
    ensures UsersExact(UseInstead(p, v, r), users')
  {
    var p' := UseInstead(p, v, r);
    forall u, y | u in p'.code ensures u in UsersOf(users', y) <==> y in p'.Inputs(u) {
      assert u in p.code && p'.Inputs(u) == ReplacedInputs(p.Inputs(u), v, r);
      assert UsersOf(users', y) == UsersThen(users, p.code, UsersOf(users, v), v, r, y);
      assert u in UsersOf(users, y) <==> y in p.Inputs(u);
      assert u in UsersOf(users, v) <==> v in p.Inputs(u);
      if v in p.Inputs(u) {
        ReplacedReads(p.Inputs(u), v, r, y);
      } else {
        assert ReplacedInputs(p.Inputs(u), v, r) == p.Inputs(u);
      }
    }
  }

  /** Redirects every user, then unlinks the instruction.  Recorded users that are gone are passed over. */
  method ReplaceInstr(graph: MethodGraph, instr: Id, newInstr: Id)
    requires instr != newInstr && UsersCover(graph.Shape(), graph.users)
    modifies graph
    ensures graph.Shape() == UseInstead(old(graph.Shape()), instr, newInstr) && graph.nextId == old(graph.nextId)
    ensures UsersRedirected(old(graph.users), graph.users, old(graph.code), old(UsersOf(graph.users, instr)), instr,
                            newInstr)
    ensures UsersCover(graph.Shape(), graph.users)
    ensures old(UsersExact(graph.Shape(), graph.users)) ==> UsersExact(graph.Shape(), graph.users)
  {
    hide *;
    ghost var p, users0, code0 := graph.Shape(), graph.users, graph.code;
    var todo := UsersOf(graph.users, instr);
    ghost var all, done := todo, {};
    NothingRedirected(users0, code0, instr, newInstr);
    while todo != {}
      invariant todo + done == all && todo !! done
      invariant graph.code == RedirectedFor(code0, done, instr, newInstr)
      invariant UsersRedirected(users0, graph.users, code0, done, instr, newInstr)
      invariant graph.Shape() == p.(code := graph.code) && graph.nextId == old(graph.nextId)
      decreases todo
    {
      var user :| user in todo;
      todo := todo - {user};
      SameKeys(code0, done, instr, newInstr, user);
      if user in graph.code {
        NextRedirected(users0, graph.users, code0, done, instr, newInstr, user);
        var found := graph.ReplaceInput(user, instr, newInstr);
      } else {
        SkippedRedirected(users0, graph.users, code0, done, instr, newInstr, user);
      }
      done := done + {user};
    }
    assert done == all;
    AllRedirected(p, users0, instr, newInstr);
    RedirectedCover(p, users0, graph.users, instr, newInstr);
    if UsersExact(p, users0) {
      RedirectedExact(p, users0, graph.users, instr, newInstr);
    }
    UseInsteadIs(p, instr, newInstr);
    graph.RemoveInstr(instr);
  }

  lemma SameKeys(code: map<Id, Instr>, done: set<Id>, v: Id, r: Id, u: Id)
    ensures u in RedirectedFor(code, done, v, r) <==> u in code
  {
  }

  lemma UseInsteadIs(p: Prog, v: Id, r: Id)
    ensures UseInstead(p, v, r) == DropInstr(p.(code := Redirected(p.code, v, r)), v)
  {
  }

  // ---------- what every replacement keeps ----------

  ghost predicate IdsBelow(p: Prog, n: nat) {
    forall v :: v in p.code ==> v < n
  }

  ghost predicate SameShape(a: Instr, b: Instr) {
    a.opcode == b.opcode && a.ty == b.ty && a.bb == b.bb && |a.inputs| == |b.inputs|
  }

  /** Only additions, ors and shifts have gone, only zeroes are new, and nothing else has changed but its inputs. */
  ghost predicate OnlyRewritten(p0: Prog, p: Prog) {
    && (forall v :: v in p0.code && v !in p.code ==>
          p0.code[v].opcode == Binary(ADD) || p0.code[v].opcode == Binary(OR) || p0.code[v].opcode == Binary(ASHR))
    && (forall v :: v in p.code ==>
          if v in p0.code then SameShape(p0.code[v], p.code[v]) else p.code[v].opcode == Constant(0))
    && p.phis == p0.phis
  }

  lemma UseRewrites(p0: Prog, s: Block, p: Prog, v: Id, r: Id)
    requires PeepOk(p, s) && OnlyRewritten(p0, p) && v in p.code && p.code[v].opcode.Binary?
    requires p.code[v].opcode.op == ADD || p.code[v].opcode.op == OR || p.code[v].opcode.op == ASHR
    ensures OnlyRewritten(p0, UseInstead(p, v, r))
  {
    hide PeepOk, UseInstead;
    SameGraph(p, v, r);
    forall u ensures u in UseInstead(p, v, r).code <==> u in p.code && u != v {
      CodeKept(p, s, v, r, u);
    }
    forall u | u in UseInstead(p, v, r).code ensures SameShape(p.code[u], UseInstead(p, v, r).code[u]) {
      CodeKept(p, s, v, r, u);
    }
  }

  lemma InsertRewrites(p0: Prog, s: Block, p: Prog, v: Id, z: Id)
    requires CanInsert(p, s, v, z) && OnlyRewritten(p0, p) && z !in p0.code
    ensures v in p.Body(p.code[v].bb) && OnlyRewritten(p0, InsertZero(p, v, z))
  {
    hide PeepOk, InsertZero, CanInsert;
    InsertBasics(p, s, v, z);
  }

  /** What holds between replacements: runs agree with those of the original graph. */
  ghost predicate PeepInv(p0: Prog, s: Block, p: Prog, users: Users, nextId: nat) {
    && PeepOk(p, s) && Agree(p0, p, s) && UsersCover(p, users)
    && IdsBelow(p0, nextId) && IdsBelow(p, nextId) && p.g == p0.g && OnlyRewritten(p0, p)
  }

  ghost function Binaries(p: Prog): set<Id> {
    set v | v in p.code && p.code[v].opcode.Binary?
  }

  /** `v` has been replaced: one binary operation less, and its block has lost or exchanged one instruction. */
  ghost predicate OneLess(p: Prog, p': Prog, v: Id) {
    && v in p.code && v in Binaries(p) && Binaries(p') == Binaries(p) - {v}
    && v in p.Body(p.code[v].bb)
    && var b, j := p.code[v].bb, FirstIndex(p.Body(p.code[v].bb), v);
       p'.Body(b) == EraseAt(p.Body(b), j) || exists z: Id :: BodyExchanged(p, p', b, j, z)
  }

  ghost predicate BodyExchanged(p: Prog, p': Prog, b: Block, j: nat, z: Id) {
    j < |p.Body(b)| && p'.Body(b) == p.Body(b)[j := z]
  }

  /** What applying the rule for `v` leads to. */
  ghost predicate Applied(p: Prog, p': Prog, v: Id, z: Id) {
    match Rule(p, v)
    case Keep => p' == p
    case Use(r) => p' == UseInstead(p, v, r)
    case Zero => v in p.code && v in p.Body(p.code[v].bb) && p' == UseInstead(InsertZero(p, v, z), v, z)
  }

  lemma UseBinaries(p: Prog, s: Block, v: Id, r: Id)
    requires PeepOk(p, s) && v in p.code && p.code[v].opcode.Binary?
    ensures Binaries(UseInstead(p, v, r)) == Binaries(p) - {v} && OneLess(p, UseInstead(p, v, r), v)
    ensures UseInstead(p, v, r).g == p.g && UseInstead(p, v, r).code.Keys == p.code.Keys - {v}
  {
    hide PeepOk, UseInstead, ReplacedInputs;
    UseInsteadFacts(p, s, v, r);
    hide EraseAt;
    forall u ensures u in Binaries(UseInstead(p, v, r)) <==> u in Binaries(p) - {v} {
      CodeKept(p, s, v, r, u);
    }
  }

  lemma UseKeeps(p0: Prog, s: Block, p: Prog, users: Users, users': Users, nextId: nat, v: Id)
    requires PeepInv(p0, s, p, users, nextId) && v in p.code && Reach(p.Edges(), s, p.code[v].bb) && Rule(p, v).Use?
    requires UsersCover(UseInstead(p, v, Rule(p, v).r), users')
    ensures PeepInv(p0, s, UseInstead(p, v, Rule(p, v).r), users', nextId)
    ensures OneLess(p, UseInstead(p, v, Rule(p, v).r), v)
  {
    hide PeepOk, Agree, UsersCover, Reach, Rule, UseInstead, Served, AlwaysEqual, OneLess, OnlyRewritten;
    var r := Rule(p, v).r;
    RuleReplaceable(p, s, v);
    RuleIsBinary(p, v);
    RuleOperand(p, v);
    UseRewrites(p0, s, p, v, r);
    UseInsteadAgrees(p, s, v, r);
    UseInsteadOk(p, s, v, r);
    UseBinaries(p, s, v, r);
    AgreeTrans(p0, p, UseInstead(p, v, r), s);
    Shrunk(p, UseInstead(p, v, r), v, nextId);
  }

  lemma Shrunk(p: Prog, p': Prog, v: Id, nextId: nat)
    requires IdsBelow(p, nextId) && p'.code.Keys == p.code.Keys - {v}
    ensures IdsBelow(p', nextId)
  {
    forall u | u in p'.code ensures u < nextId {
      assert u in p'.code.Keys;
    }
  }

  lemma RuleIsBinary(p: Prog, v: Id)
    requires Rule(p, v) != Keep
    ensures v in p.code && p.code[v].opcode.Binary? && IsPure(p.code[v].opcode)
  {
    hide ConstantRule, AddAfterSubRule;
  }

  lemma ZeroBinaries(p: Prog, s: Block, v: Id, z: Id)
    requires CanInsert(p, s, v, z) && p.code[v].opcode.Binary?
    ensures v in p.Body(p.code[v].bb)
    ensures var p2 := UseInstead(InsertZero(p, v, z), v, z);
            Binaries(p2) == Binaries(p) - {v} && OneLess(p, p2, v) && p2.g == p.g
  {
    hide CanInsert, PeepOk, InsertZero, UseInstead, OneLess;
    InsertBasics(p, s, v, z);
    InsertOk(p, s, v, z);
    var p1 := InsertZero(p, v, z);
    UseBinaries(p1, s, v, z);
    assert Binaries(p1) == Binaries(p);
    ExchangedBody(p, s, v, z);
  }

  /** The net effect on the block is an exchange. */
  lemma ExchangedBody(p: Prog, s: Block, v: Id, z: Id)
    requires CanInsert(p, s, v, z) && p.code[v].opcode.Binary?
    requires v in p.Body(p.code[v].bb)
    requires Binaries(UseInstead(InsertZero(p, v, z), v, z)) == Binaries(p) - {v}
    ensures OneLess(p, UseInstead(InsertZero(p, v, z), v, z), v)
  {
    hide PeepOk, InsertZero, UseInstead;
    InsertFacts(p, s, v, z);
    CanInsertBody(p, s, v, z);
    InsertOk(p, s, v, z);
    var p1, b := InsertZero(p, v, z), p.code[v].bb;
    var body, j := p.Body(b), FirstIndex(p.Body(b), v);
    UseInsteadFacts(p1, s, v, z);
    InsertThenErase(body, j, z);
    FirstIndexIs(p1.Body(b), j, v);
    hide InsertAt, EraseAt;
    assert BodyExchanged(p, UseInstead(p1, v, z), b, j, z);
  }

  lemma InsertThenErase(body: seq<Id>, j: nat, z: Id)
    requires j < |body|
    ensures InsertAt(body, j, z)[j] == body[j] && InsertAt(body, j, z)[..j] == body[..j]
    ensures EraseAt(InsertAt(body, j, z), j) == body[j := z]
  {
  }

  lemma ZeroRewrites(p0: Prog, s: Block, p: Prog, v: Id, z: Id)
    requires CanInsert(p, s, v, z) && OnlyRewritten(p0, p) && z !in p0.code && Rule(p, v).Zero?
    ensures v in p.Body(p.code[v].bb) && OnlyRewritten(p0, UseInstead(InsertZero(p, v, z), v, z))
  {
    hide PeepOk, InsertZero, CanInsert, UseInstead, Rule, OnlyRewritten;
    ZeroIsShift(p, v);
    InsertBasics(p, s, v, z);
    InsertOk(p, s, v, z);
    InsertRewrites(p0, s, p, v, z);
    UseRewrites(p0, s, InsertZero(p, v, z), v, z);
  }

  lemma ZeroKeeps(p0: Prog, s: Block, p: Prog, users: Users, users': Users, nextId: nat, v: Id)
    requires PeepInv(p0, s, p, users, nextId) && v in p.code && Reach(p.Edges(), s, p.code[v].bb) && Rule(p, v).Zero?
    requires v in p.Body(p.code[v].bb) && UsersCover(UseInstead(InsertZero(p, v, nextId), v, nextId), users')
    ensures PeepInv(p0, s, UseInstead(InsertZero(p, v, nextId), v, nextId), users', nextId + 1)
    ensures OneLess(p, UseInstead(InsertZero(p, v, nextId), v, nextId), v)
  {
    hide PeepOk, Agree, UsersCover, Reach, Rule, UseInstead, InsertZero, OneLess, OnlyRewritten;
    RuleIsBinary(p, v);
    var z := nextId;
    ZeroRewrites(p0, s, p, v, z);
    ZeroInstead(p, s, v, z);
    ZeroBinaries(p, s, v, z);
    AgreeTrans(p0, p, UseInstead(InsertZero(p, v, z), v, z), s);
    Exchanged(p, UseInstead(InsertZero(p, v, z), v, z), v, z);
  }

  lemma Exchanged(p: Prog, p': Prog, v: Id, z: Id)
    requires IdsBelow(p, z) && p'.code.Keys == p.code.Keys - {v} + {z}
    ensures IdsBelow(p', z + 1)
  {
    forall u | u in p'.code ensures u < z + 1 {
      assert u in p'.code.Keys;
    }
  }

  /** A new instruction that reads nothing and is not read needs no users. */
  lemma InsertCover(p: Prog, s: Block, users: Users, v: Id, z: Id)
    requires CanInsert(p, s, v, z) && UsersCover(p, users)
    ensures v in p.Body(p.code[v].bb) && UsersCover(InsertZero(p, v, z), users)
  {
    hide CanInsert, PeepOk, InsertZero;
    InsertBasics(p, s, v, z);
    forall u, y | u in InsertZero(p, v, z).code && y in InsertZero(p, v, z).Inputs(u) ensures u in UsersOf(users, y) {
      OldInputs(p, s, v, z, u);
    }
  }

  lemma Insertable(p0: Prog, s: Block, p: Prog, users: Users, nextId: nat, v: Id)
    requires PeepInv(p0, s, p, users, nextId) && Rule(p, v) != Keep
    ensures v in p.code && CanInsert(p, s, v, nextId) && v in p.Body(p.code[v].bb) && UsersCover(p, users)
  {
    hide PeepOk, Agree, UsersCover, Rule, OnlyRewritten;
    RuleIsBinary(p, v);
    CanInsertBody(p, s, v, nextId);
  }

  // ---------- the pass ----------

  class PeepHoles {
    const graph: MethodGraph
    const s: Block

    constructor (graph: MethodGraph, s: Block)
      ensures this.graph == graph && this.s == s
    {
      this.graph, this.s := graph, s;
    }

    /** Uses a value of the rule for `instr` instead of it. */
    method Use(instr: Id, newInstr: Id, ghost p0: Prog)
      requires PeepInv(p0, s, graph.Shape(), graph.users, graph.nextId)
      requires instr in graph.code && Reach(graph.Shape().Edges(), s, graph.code[instr].bb)
      requires Rule(graph.Shape(), instr) == PeepholeRules.Use(newInstr)
      modifies graph
      ensures PeepInv(p0, s, graph.Shape(), graph.users, graph.nextId)
      ensures graph.Shape() == UseInstead(old(graph.Shape()), instr, newInstr)
      ensures OneLess(old(graph.Shape()), graph.Shape(), instr)
    {
      hide *;
      ghost var p, users := graph.Shape(), graph.users;
      NotItself(p0, s, p, users, graph.nextId, instr);
      ReplaceInstr(graph, instr, newInstr);
      UseKeeps(p0, s, p, users, graph.users, graph.nextId, instr);
    }

    /** Tries the rules for a constant operand. */
    method CheckAndApplyConstantPeephole(instr: Id, constInput: Id, realInput: Id,
                                         ghost p0: Prog)
      returns (changed: bool)
      requires PeepInv(p0, s, graph.Shape(), graph.users, graph.nextId)
      requires instr in graph.code && Reach(graph.Shape().Edges(), s, graph.code[instr].bb)
      requires graph.code[instr].opcode.Binary? && |graph.code[instr].inputs| == 2
      requires Rule(graph.Shape(), instr) == ConstantRule(graph.Shape(), instr, constInput, realInput)
      modifies graph
      ensures PeepInv(p0, s, graph.Shape(), graph.users, graph.nextId)
      ensures changed == (old(Rule(graph.Shape(), instr)) != Keep) == !LeftAloneAt(old(graph.code), instr)
      ensures Applied(old(graph.Shape()), graph.Shape(), instr, old(graph.nextId))
      ensures changed ==> OneLess(old(graph.Shape()), graph.Shape(), instr)
      ensures !changed ==> graph.users == old(graph.users)
    {
      hide *;
      var typeId := graph.code[instr].ty;
      var constVal := ConstantValue(graph.Shape(), typeId, constInput);
      ghost var p, users := graph.Shape(), graph.users;
      AloneExactly(p0, s, p, users, graph.nextId, instr);
      ConstantRuleIs(p, instr, constInput, realInput);
      AppliedIs(p, instr, graph.nextId);
      if !HasValues(typeId) {
        return false;
      }
      match graph.code[instr].opcode.op {
        case ADD =>
          if constVal == 0 {
            Use(instr, realInput, p0);
            return true;
          }
        case OR =>
          if constVal == 0 {
            Use(instr, realInput, p0);
            return true;
          }
          if constVal == Ones(typeId) {
            Use(instr, constInput, p0);
            return true;
          }
        case ASHR =>
          if constInput == graph.code[instr].inputs[1] {
            if constVal >= TypeIdToSize(typeId) {
              Insertable(p0, s, p, users, graph.nextId, instr);
              InsertCover(p, s, users, instr, graph.nextId);
              ZeroIsNew(p, s, instr, graph.nextId);
              var zeroConst := graph.AllocateConstantAfter(instr, typeId, 0);
              ReplaceInstr(graph, instr, zeroConst);
              ZeroKeeps(p0, s, p, users, graph.users, zeroConst, instr);
              return true;
            }
            if constVal == 0 {
              Use(instr, realInput, p0);
              return true;
            }
          }
        case _ =>
      }
      return false;
    }

    /** Tries (s - x) + x. */
    method CheckAndApplyAddAfterSubPeephole(instr: Id, realInput: Id, subInstr: Id,
                                            ghost p0: Prog)
      returns (changed: bool)
      requires PeepInv(p0, s, graph.Shape(), graph.users, graph.nextId)
      requires instr in graph.code && Reach(graph.Shape().Edges(), s, graph.code[instr].bb) && subInstr in graph.code
      requires graph.code[subInstr].opcode.Binary? ==> |graph.code[subInstr].inputs| == 2
      requires AddAfterSubRule(graph.Shape(), realInput, subInstr) != Keep ==>
                 Rule(graph.Shape(), instr) == AddAfterSubRule(graph.Shape(), realInput, subInstr)
      modifies graph
      ensures PeepInv(p0, s, graph.Shape(), graph.users, graph.nextId)
      ensures changed == (old(AddAfterSubRule(graph.Shape(), realInput, subInstr)) != Keep)
      ensures changed ==> Applied(old(graph.Shape()), graph.Shape(), instr, old(graph.nextId))
      ensures changed ==> OneLess(old(graph.Shape()), graph.Shape(), instr)
      ensures !changed ==>
                graph.Shape() == old(graph.Shape()) && graph.users == old(graph.users) &&
                graph.nextId == old(graph.nextId)
    {
      hide *;
      AddAfterSubIs(graph.Shape(), realInput, subInstr);
      AppliedIs(graph.Shape(), instr, graph.nextId);
      var sub := graph.code[subInstr];
      if sub.opcode.Binary? && sub.opcode.op == SUB && sub.inputs[1] == realInput {
        Use(instr, sub.inputs[0], p0);
        return true;
      }
      return false;
    }

    /** Applies the first rule that fits an instruction. */
    method ProcessInstr(instr: Id, ghost p0: Prog) returns (changed: bool)
      requires PeepInv(p0, s, graph.Shape(), graph.users, graph.nextId)
      requires instr in graph.code && Reach(graph.Shape().Edges(), s, graph.code[instr].bb)
      modifies graph
      ensures PeepInv(p0, s, graph.Shape(), graph.users, graph.nextId)
      ensures changed == (old(Rule(graph.Shape(), instr)) != Keep) == !LeftAloneAt(old(graph.code), instr)
      ensures Applied(old(graph.Shape()), graph.Shape(), instr, old(graph.nextId))
      ensures changed ==> OneLess(old(graph.Shape()), graph.Shape(), instr)
    {
      hide *;
      ghost var p := graph.Shape();
      AloneExactly(p0, s, p, graph.users, graph.nextId, instr);
      AppliedIs(p, instr, graph.nextId);
      RuleIs(p, instr);
      if !graph.code[instr].opcode.Binary? {
        return false;
      }
      OperandsKnown(p0, s, p, graph.users, graph.nextId, instr);
      var op, inputs := graph.code[instr].opcode.op, graph.code[instr].inputs;
      if op == OR {
        if inputs[0] == inputs[1] {
          Use(instr, inputs[0], p0);
          return true;
        }
      }
      if op == ADD {
        changed := CheckAndApplyAddAfterSubPeephole(instr, inputs[0], inputs[1], p0);
        if changed {
          return true;
        }
        changed := CheckAndApplyAddAfterSubPeephole(instr, inputs[1], inputs[0], p0);
        if changed {
          return true;
        }
      }
      if IsConstant(graph.Shape(), inputs[0]) {
        changed := CheckAndApplyConstantPeephole(instr, inputs[0], inputs[1], p0);
        return changed;
      }
      if IsConstant(graph.Shape(), inputs[1]) {
        changed := CheckAndApplyConstantPeephole(instr, inputs[1], inputs[0], p0);
        return changed;
      }
      return false;
    }

    /** Walks a block once; a removed instruction does not hide the one after it. */
    method ProcessBlock(b: Block, ghost p0: Prog) returns (changed: bool)
      requires PeepInv(p0, s, graph.Shape(), graph.users, graph.nextId) && Reach(p0.Edges(), s, b)
      modifies graph
      ensures PeepInv(p0, s, graph.Shape(), graph.users, graph.nextId)
      ensures changed ==> |Binaries(graph.Shape())| < |Binaries(old(graph.Shape()))|
      ensures !changed ==> graph.Shape() == old(graph.Shape()) && Settled(graph.Shape(), b)
      ensures !changed ==> AllLeftAlone(graph.code, graph.Shape().Body(b))
    {
      hide *;
      changed := false;
      ghost var start := graph.Shape();
      var i: nat := 0;
      NothingSettled(start, b);
      while i < |graph.Shape().Body(b)|
        invariant i <= |graph.Shape().Body(b)|
        invariant PeepInv(p0, s, graph.Shape(), graph.users, graph.nextId)
        invariant changed ==> |Binaries(graph.Shape())| < |Binaries(start)|
        invariant !changed ==> graph.Shape() == start && SettledTo(start, b, i)
        decreases |graph.Shape().Body(b)| - i
      {
        var instr := graph.Shape().Body(b)[i];
        var size := |graph.Shape().Body(b)|;
        ghost var p, z := graph.Shape(), graph.nextId;
        InstrHere(p0, s, p, graph.users, graph.nextId, b, i);
        var applied := ProcessInstr(instr, p0);
        if applied {
          changed := true;
          BlockAfter(p, graph.Shape(), b, i);
          i := i + |graph.Shape().Body(b)| + 1 - size;
        } else {
          StillSettled(p, graph.Shape(), start, b, i, instr, z, changed);
          i := i + 1;
        }
      }
      AllSettled(start, b);
      SettledAlone(p0, s, graph.Shape(), graph.users, graph.nextId, b);
    }

    /** Repeats the walk over the blocks until nothing changes. */
    method Run(rpo: seq<Block>)
      requires PeepOk(graph.Shape(), s) && UsersCover(graph.Shape(), graph.users)
      requires IdsBelow(graph.Shape(), graph.nextId)
      requires forall b :: b in rpo ==> Reach(graph.Shape().Edges(), s, b)
      modifies graph
      ensures Agree(old(graph.Shape()), graph.Shape(), s) && OnlyRewritten(old(graph.Shape()), graph.Shape())
      ensures PeepOk(graph.Shape(), s) && UsersCover(graph.Shape(), graph.users)
      ensures forall b :: b in rpo ==> Settled(graph.Shape(), b) && AllLeftAlone(graph.code, graph.Shape().Body(b))
    {
      hide *;
      ghost var p0 := graph.Shape();
      PeepStart(p0, s, graph.users, graph.nextId);
      var changed := true;
      while changed
        invariant PeepInv(p0, s, graph.Shape(), graph.users, graph.nextId)
        invariant !changed ==> forall b :: b in rpo ==> Settled(graph.Shape(), b)
        decreases |Binaries(graph.Shape())|, changed
      {
        changed := false;
        ghost var start := graph.Shape();
        for k := 0 to |rpo|
          invariant PeepInv(p0, s, graph.Shape(), graph.users, graph.nextId)
          invariant changed ==> |Binaries(graph.Shape())| < |Binaries(start)|
          invariant !changed ==> graph.Shape() == start && forall b :: b in rpo[..k] ==> Settled(start, b)
        {
          ghost var p := graph.Shape();
          assert rpo[..k + 1] == rpo[..k] + [rpo[k]];
          var here := ProcessBlock(rpo[k], p0);
          changed := changed || here;
        }
        assert rpo[..|rpo|] == rpo;
      }
      PeepOutcome(p0, s, graph.Shape(), graph.users, graph.nextId);
      forall b | b in rpo ensures AllLeftAlone(graph.code, graph.Shape().Body(b)) {
        SettledAlone(p0, s, graph.Shape(), graph.users, graph.nextId, b);
      }
    }
  }

  /** The pass on all blocks that can be reached. */
  method Optimize(graph: MethodGraph, s: Block)
    requires PeepOk(graph.Shape(), s) && UsersCover(graph.Shape(), graph.users) && s in graph.blocks
    requires IdsBelow(graph.Shape(), graph.nextId)
    modifies graph
    ensures Agree(old(graph.Shape()), graph.Shape(), s) && OnlyRewritten(old(graph.Shape()), graph.Shape())
    ensures PeepOk(graph.Shape(), s) && UsersCover(graph.Shape(), graph.users)
    ensures forall b :: Reach(old(graph.Shape()).Edges(), s, b) ==> AllLeftAlone(graph.code, graph.Shape().Body(b))
  {
    hide *;
    ghost var p := graph.Shape();
    PeepFacts(p, s);
    var rpo := ReversePostOrder(graph.Shape().g, s, None);
    ReachedIsListed(p, s, BlocksOf(rpo));
    var pass := new PeepHoles(graph, s);
    pass.Run(BlocksOf(rpo));
  }

  lemma ReachedIsListed(p: Prog, s: Block, r: seq<Block>)
    requires IsRpo(p.g, s, None, r)
    ensures forall b :: b in r <==> Reach(p.Edges(), s, b)
  {
    hide Reach;
    forall b ensures b in r <==> Reach(p.Edges(), s, b) {
      RpoHoldsReachable(p.g, s, r, b);
    }
  }

  // ---------- steps ----------

  /** No rule applies to the instructions of a block. */
  ghost predicate Settled(p: Prog, b: Block) {
    forall v :: v in p.Body(b) ==> Rule(p, v) == Keep
  }

  ghost predicate SettledTo(p: Prog, b: Block, n: nat) {
    forall m :: 0 <= m < n && m < |p.Body(b)| ==> Rule(p, p.Body(b)[m]) == Keep
  }

  /** A rule applies to an instruction exactly when it is not to be left alone. */
  lemma AloneExactly(p0: Prog, s: Block, p: Prog, users: Users, nextId: nat, v: Id)
    requires PeepInv(p0, s, p, users, nextId)
    ensures Rule(p, v) == Keep <==> LeftAloneAt(p.code, v)
  {
    hide PeepOk, Agree, UsersCover, Rule, LeftAloneAt, OnlyRewritten;
    PeepholeDone.RuleExactly(p, s, v);
  }

  lemma SettledAlone(p0: Prog, s: Block, p: Prog, users: Users, nextId: nat, b: Block)
    requires PeepInv(p0, s, p, users, nextId)
    ensures Settled(p, b) <==> AllLeftAlone(p.code, p.Body(b))
  {
    hide PeepInv, Rule, LeftAloneAt;
    forall v ensures Rule(p, v) == Keep <==> LeftAloneAt(p.code, v) {
      AloneExactly(p0, s, p, users, nextId, v);
    }
  }

  lemma NotItself(p0: Prog, s: Block, p: Prog, users: Users, nextId: nat, v: Id)
    requires PeepInv(p0, s, p, users, nextId) && v in p.code && Reach(p.Edges(), s, p.code[v].bb) && Rule(p, v).Use?
    ensures Rule(p, v).r != v && UsersCover(p, users)
  {
    hide PeepOk, Agree, UsersCover, Reach, Rule, Served, AlwaysEqual, OnlyRewritten;
    RuleReplaceable(p, s, v);
  }

  lemma ConstantRuleIs(p: Prog, v: Id, c: Id, x: Id)
    requires v in p.code && p.code[v].opcode.Binary? && |p.code[v].inputs| == 2
    ensures var ty, value, op := p.code[v].ty, ConstantValue(p, p.code[v].ty, c), p.code[v].opcode.op;
            ConstantRule(p, v, c, x) ==
              if !HasValues(ty) then Keep
              else if op == ADD then (if value == 0 then PeepholeRules.Use(x) else Keep)
              else if op == OR then (if value == 0 then PeepholeRules.Use(x)
                                     else if value == Ones(ty) then PeepholeRules.Use(c) else Keep)
              else if op == ASHR then
                (if c != p.code[v].inputs[1] then Keep else if value >= TypeIdToSize(ty) then Zero
                 else if value == 0 then PeepholeRules.Use(x) else Keep)
              else Keep
  {
    hide ConstantValue, Ones;
  }

  lemma AddAfterSubIs(p: Prog, x: Id, sub: Id)
    requires sub in p.code && (p.code[sub].opcode.Binary? ==> |p.code[sub].inputs| == 2)
    ensures AddAfterSubRule(p, x, sub) ==
              if p.code[sub].opcode.Binary? && p.code[sub].opcode.op == SUB && p.code[sub].inputs[1] == x
              then PeepholeRules.Use(p.code[sub].inputs[0]) else Keep
  {
  }

  lemma RuleIs(p: Prog, v: Id)
    requires v in p.code
    ensures !p.code[v].opcode.Binary? ==> Rule(p, v) == Keep
    ensures p.code[v].opcode.Binary? && |p.code[v].inputs| == 2 ==>
              var op, x, y := p.code[v].opcode.op, p.code[v].inputs[0], p.code[v].inputs[1];
              Rule(p, v) ==
                if op == OR && x == y then PeepholeRules.Use(x)
                else if op == ADD && AddAfterSubRule(p, x, y) != Keep then AddAfterSubRule(p, x, y)
                else if op == ADD && AddAfterSubRule(p, y, x) != Keep then AddAfterSubRule(p, y, x)
                else if IsConstant(p, x) then ConstantRule(p, v, x, y)
                else if IsConstant(p, y) then ConstantRule(p, v, y, x)
                else Keep
  {
    hide ConstantRule, AddAfterSubRule, IsConstant;
  }

  lemma AppliedIs(p: Prog, v: Id, z: Id)
    ensures Rule(p, v) == Keep ==> Applied(p, p, v, z)
    ensures Rule(p, v).Use? ==> Applied(p, UseInstead(p, v, Rule(p, v).r), v, z)
    ensures Rule(p, v).Zero? && v in p.code && v in p.Body(p.code[v].bb) ==>
              Applied(p, UseInstead(InsertZero(p, v, z), v, z), v, z)
  {
    hide Rule, UseInstead, InsertZero;
  }

  lemma ZeroIsNew(p: Prog, s: Block, v: Id, z: Id)
    requires CanInsert(p, s, v, z) && v in p.Body(p.code[v].bb)
    ensures v != z && InsertZero(p, v, z) == AddConstantAfter(p, v, z, p.code[v].ty, 0)
  {
    hide PeepOk;
  }

  lemma OperandsKnown(p0: Prog, s: Block, p: Prog, users: Users, nextId: nat, v: Id)
    requires PeepInv(p0, s, p, users, nextId) && v in p.code && p.code[v].opcode.Binary?
    ensures |p.code[v].inputs| == 2
    ensures forall x :: x in p.code[v].inputs ==> x in p.code && (p.code[x].opcode.Binary? ==> |p.code[x].inputs| == 2)
    ensures p.code[v].inputs[0] in p.code && p.code[v].inputs[1] in p.code
    ensures p.code[p.code[v].inputs[0]].opcode.Binary? ==> |p.code[p.code[v].inputs[0]].inputs| == 2
    ensures p.code[p.code[v].inputs[1]].opcode.Binary? ==> |p.code[p.code[v].inputs[1]].inputs| == 2
  {
    hide PeepOk, Agree, UsersCover, OnlyRewritten;
    OperationTyped(p, s, v);
    OperandsListed(p, s, v);
    forall x | x in p.code[v].inputs ensures p.code[x].opcode.Binary? ==> |p.code[x].inputs| == 2 {
      EachTyped(p, s, x);
    }
    assert p.code[v].inputs[0] in p.code[v].inputs && p.code[v].inputs[1] in p.code[v].inputs;
  }

  lemma InstrHere(p0: Prog, s: Block, p: Prog, users: Users, nextId: nat, b: Block, i: nat)
    requires PeepInv(p0, s, p, users, nextId) && i < |p.Body(b)|
    ensures p.Body(b)[i] in p.code && p.code[p.Body(b)[i]].bb == b && p.Edges() == p0.Edges()
    ensures FirstIndex(p.Body(b), p.Body(b)[i]) == i
  {
    hide PeepOk, Agree, UsersCover, OnlyRewritten;
    Listed(p, s, b, p.Body(b)[i]);
    PeepFacts(p, s);
    hide Graph.Closed, Graph.Mirrored, Ir.Prog.Ssa;
    IndexUnique(p.Body(b), i);
  }

  /** After a replacement the walk goes on with the instruction that came next. */
  lemma BlockAfter(p: Prog, p': Prog, b: Block, i: nat)
    requires i < |p.Body(b)| && OneLess(p, p', p.Body(b)[i]) && p.code[p.Body(b)[i]].bb == b
    requires FirstIndex(p.Body(b), p.Body(b)[i]) == i
    ensures |Binaries(p')| < |Binaries(p)|
    ensures |p'.Body(b)| == |p.Body(b)| || |p'.Body(b)| == |p.Body(b)| - 1
    ensures var next := i + |p'.Body(b)| + 1 - |p.Body(b)|;
            0 <= next <= |p'.Body(b)| && |p'.Body(b)| - next == |p.Body(b)| - i - 1 &&
              p'.Body(b)[next..] == p.Body(b)[i + 1..]
  {
    hide Ir.Prog.Body;
  }

  lemma NothingSettled(p: Prog, b: Block)
    ensures SettledTo(p, b, 0)
  {
  }

  lemma StillSettled(p: Prog, p': Prog, start: Prog, b: Block, i: nat, v: Id, z: Id, changed: bool)
    requires Rule(p, v) == Keep && Applied(p, p', v, z) && i < |p.Body(b)| && v == p.Body(b)[i]
    requires !changed ==> p == start && SettledTo(start, b, i)
    ensures p' == p
    ensures !changed ==> SettledTo(start, b, i + 1)
  {
    hide Rule;
  }

  lemma AllSettled(p: Prog, b: Block)
    ensures SettledTo(p, b, |p.Body(b)|) ==> Settled(p, b)
  {
    hide Rule;
    if SettledTo(p, b, |p.Body(b)|) {
      forall v | v in p.Body(b) ensures Rule(p, v) == Keep {
        var m := FirstIndex(p.Body(b), v);
        assert p.Body(b)[m] == v;
      }
    }
  }

  lemma PeepStart(p: Prog, s: Block, users: Users, nextId: nat)
    requires PeepOk(p, s) && UsersCover(p, users) && IdsBelow(p, nextId)
    ensures PeepInv(p, s, p, users, nextId)
  {
    hide PeepOk, UsersCover, Agree;
    AgreeSelf(p, s);
  }

  lemma PeepOutcome(p0: Prog, s: Block, p: Prog, users: Users, nextId: nat)
    requires PeepInv(p0, s, p, users, nextId)
    ensures Agree(p0, p, s) && PeepOk(p, s) && UsersCover(p, users) && OnlyRewritten(p0, p)
  {
    hide PeepOk, UsersCover, Agree;
  }
}
