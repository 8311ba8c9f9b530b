/** Runs before and after a replacement agree on every value that is left. */
module PeepholeRuns {
  import opened Util
  import opened Cfg
  import opened Ir
  import opened Semantics
  import opened GraphEdits
  import opened PeepholeTheory

  /** The same log, and the same values for the given instructions. */
  ghost predicate StoresAgree(kept: set<Id>, st: Store, st': Store) {
    st.log == st'.log && forall x :: x in kept ==> Get(st.env, x) == Get(st'.env, x)
  }

  ghost predicate ConfigsAgree(kept: set<Id>, c: Config, c': Config) {
    && (c.At? <==> c'.At?)
    && (c.At? ==> c.b == c'.b)
    && StoresAgree(kept, c.st, c'.st)
  }

  /** In every run the two graphs pass the same blocks, carry out the same opaque operations on the same values,
      and give every instruction that is in both the same value. */
  ghost predicate Agree(p: Prog, p': Prog, s: Block) {
    forall w, n :: ConfigsAgree(p.code.Keys * p'.code.Keys, Exec(p, s, w, n), Exec(p', s, w, n))
  }

  lemma AgreeSelf(p: Prog, s: Block)
    ensures Agree(p, p, s)
  {
  }

  lemma AgreeBack(p: Prog, p': Prog, s: Block)
    requires Agree(p, p', s)
    ensures Agree(p', p, s)
  {
    hide Exec;
    assert p'.code.Keys * p.code.Keys == p.code.Keys * p'.code.Keys;
    forall w, n ensures ConfigsAgree(p'.code.Keys * p.code.Keys, Exec(p', s, w, n), Exec(p, s, w, n)) {
      assert ConfigsAgree(p.code.Keys * p'.code.Keys, Exec(p, s, w, n), Exec(p', s, w, n));
    }
  }

  /** Instructions that are in the first and the last graph have been in the middle one. */
  lemma AgreeTrans(p: Prog, p': Prog, p'': Prog, s: Block)
    requires Agree(p, p', s) && Agree(p', p'', s) && p.code.Keys * p''.code.Keys <= p'.code.Keys
    ensures Agree(p, p'', s)
  {
    hide Exec;
    forall w, n ensures ConfigsAgree(p.code.Keys * p''.code.Keys, Exec(p, s, w, n), Exec(p'', s, w, n)) {
      assert ConfigsAgree(p.code.Keys * p'.code.Keys, Exec(p, s, w, n), Exec(p', s, w, n));
      assert ConfigsAgree(p'.code.Keys * p''.code.Keys, Exec(p', s, w, n), Exec(p'', s, w, n));
    }
  }

  // ---------- one instruction ----------

  /** What a reader of `v` reads instead is what it read. */
  lemma ReadsAgree(p: Prog, s: Block, w: World, v: Id, r: Id, b: Block, k: nat, env: Env, env': Env, xs: seq<Id>)
    requires AlwaysEqual(p, s, v, r) && r != v && r in p.code && Reach(p.Edges(), s, b) && Sane(p, s, w, b, k, env)
    requires forall x :: x in xs ==> x in p.code && p.Available(s, x, b, k)
    requires v in xs ==> p.Available(s, r, b, k)
    requires forall x :: x in p.code && x != v ==> Get(env, x) == Get(env', x)
    ensures Values(env', ReplacedInputs(xs, v, r)) == Values(env, xs)
  {
    hide Sane, Ir.Prog.Available, Reach;
    forall i | 0 <= i < |xs| ensures Get(env', ReplacedInputs(xs, v, r)[i]) == Get(env, xs[i]) {
      assert xs[i] in xs;
    }
  }

  lemma ArgumentsAgree(p: Prog, s: Block, w: World, v: Id, r: Id, b: Block, k: nat, st: Store, st': Store)
    requires Replaceable(p, s, v, r) && Reach(p.Edges(), s, b) && k < |p.Body(b)| && Sane(p, s, w, b, k, st.env)
    requires StoresAgree(p.code.Keys - {v}, st, st')
    ensures p.Body(b)[k] in p.code
    ensures Values(st'.env, ReplacedInputs(p.code[p.Body(b)[k]].inputs, v, r)) ==
              Values(st.env, p.code[p.Body(b)[k]].inputs)
  {
    hide PeepOk, Reach, Sane, Ir.Prog.Available, AlwaysEqual;
    Listed(p, s, b, p.Body(b)[k]);
    PeepFacts(p, s);
    hide Graph.Closed, Graph.Mirrored, Ir.Prog.Placed;
    var d := p.Body(b)[k];
    assert p.Inputs(d) == p.code[d].inputs;
    forall x | x in p.code[d].inputs ensures x in p.code && p.Available(s, x, b, k) {
      assert p.Available(s, x, b, k);
      AvailableExists(p, s, x, b, k);
    }
    forall x | x in p.code && x != v ensures Get(st.env, x) == Get(st'.env, x) {
      assert x in p.code.Keys - {v};
    }
    ReadsAgree(p, s, w, v, r, b, k, st.env, st'.env, p.code[d].inputs);
  }

  lemma InstrAgrees(p: Prog, p': Prog, w: World, v: Id, r: Id, d: Id, st: Store, st': Store)
    requires d in p.code && d in p'.code && d != v
    requires p'.code[d] == p.code[d].(inputs := ReplacedInputs(p.code[d].inputs, v, r))
    requires StoresAgree(p.code.Keys - {v}, st, st')
    requires Values(st'.env, ReplacedInputs(p.code[d].inputs, v, r)) == Values(st.env, p.code[d].inputs)
    ensures StoresAgree(p.code.Keys - {v}, RunInstr(p, w, st, d), RunInstr(p', w, st', d))
  {
    hide Coerce, Arithmetic, ReplacedInputs;
    if !IsBranch(p.code[d].opcode) {
      var args := Values(st.env, p.code[d].inputs);
      assert PureValue(w, p'.code[d], args) == PureValue(w, p.code[d], args);
      hide PureValue;
      forall x | x in p.code.Keys - {v}
        ensures Get(RunInstr(p, w, st, d).env, x) == Get(RunInstr(p', w, st', d).env, x)
      {
        assert Get(st.env, x) == Get(st'.env, x);
      }
    }
  }

  lemma DroppedAgrees(p: Prog, w: World, v: Id, st: Store, st': Store)
    requires v in p.code && IsPure(p.code[v].opcode) && StoresAgree(p.code.Keys - {v}, st, st')
    ensures StoresAgree(p.code.Keys - {v}, RunInstr(p, w, st, v), st')
  {
    hide PureValue;
    forall x | x in p.code.Keys - {v} ensures Get(RunInstr(p, w, st, v).env, x) == Get(st'.env, x) {
      assert Get(st.env, x) == Get(st'.env, x);
    }
  }

  // ---------- one block ----------

  /** Where the next instruction stands in the shortened body. */
  lemma MovedNext(p: Prog, s: Block, v: Id, r: Id, b: Block, k: nat)
    requires PeepOk(p, s) && v in p.code && IsPure(p.code[v].opcode) && k < |p.Body(b)|
    ensures Moved(p, v, b, k) <= |UseInstead(p, v, r).Body(b)|
    ensures p.Body(b)[k] == v ==> Moved(p, v, b, k + 1) == Moved(p, v, b, k)
    ensures p.Body(b)[k] != v ==>
              && Moved(p, v, b, k + 1) == Moved(p, v, b, k) + 1 <= |UseInstead(p, v, r).Body(b)|
              && UseInstead(p, v, r).Body(b)[Moved(p, v, b, k)] == p.Body(b)[k]
  {
    hide PeepOk, UseInstead, ReplacedInputs;
    UseInsteadFacts(p, s, v, r);
    PeepFacts(p, s);
    hide Graph.Closed, Graph.Mirrored, Ir.Prog.Ssa;
    assert Distinct(p.Body(b));
    if p.Body(b)[k] == v {
      IndexUnique(p.Body(b), k);
    }
  }

  lemma ReplaceableFacts(p: Prog, s: Block, v: Id, r: Id)
    requires Replaceable(p, s, v, r)
    ensures PeepOk(p, s) && Runnable(p, s) && p.Ssa(s) && v in p.code && IsPure(p.code[v].opcode)
  {
    hide Served, AlwaysEqual, InstrTyped, EndsInBranch, Graph.Closed, Graph.Mirrored, Ir.Prog.Ssa;
  }

  lemma BodyStep(p: Prog, s: Block, w: World, v: Id, r: Id, b: Block, k: nat, st: Store, st': Store)
    requires Replaceable(p, s, v, r) && Reach(p.Edges(), s, b) && k < |p.Body(b)| && Sane(p, s, w, b, k, st.env)
    requires StoresAgree(p.code.Keys - {v}, st, st')
    ensures var d, p' := p.Body(b)[k], UseInstead(p, v, r);
            StoresAgree(p.code.Keys - {v}, RunInstr(p, w, st, d), if d == v then st' else RunInstr(p', w, st', d))
  {
    hide Replaceable, PeepOk, Reach, Sane, UseInstead, StoresAgree, RunInstr, Ir.Prog.Ssa, Runnable;
    ReplaceableFacts(p, s, v, r);
    var d := p.Body(b)[k];
    if d == v {
      DroppedAgrees(p, w, v, st, st');
    } else {
      ArgumentsAgree(p, s, w, v, r, b, k, st, st');
      CodeKept(p, s, v, r, d);
      InstrAgrees(p, UseInstead(p, v, r), w, v, r, d, st, st');
    }
  }

  lemma {:induction false} BodyAgrees(p: Prog, s: Block, w: World, v: Id, r: Id, b: Block, k: nat, st: Store,
                                      st': Store)
    requires Replaceable(p, s, v, r) && Reach(p.Edges(), s, b) && Sane(p, s, w, b, 0, st.env) && k <= |p.Body(b)|
    requires StoresAgree(p.code.Keys - {v}, st, st')
    ensures Moved(p, v, b, k) <= |UseInstead(p, v, r).Body(b)|
    ensures StoresAgree(p.code.Keys - {v}, RunTo(p, w, st, b, k),
                        RunTo(UseInstead(p, v, r), w, st', b, Moved(p, v, b, k)))
  {
    hide Replaceable, PeepOk, Reach, Sane, UseInstead, StoresAgree, RunInstr, Moved, Ir.Prog.Ssa, Runnable;
    ReplaceableFacts(p, s, v, r);
    if k == 0 {
      MovedStart(p, v, b);
    } else {
      BodyAgrees(p, s, w, v, r, b, k - 1, st, st');
      MovedNext(p, s, v, r, b, k - 1);
      SaneTo(p, s, w, b, k - 1, st);
      BodyStep(p, s, w, v, r, b, k - 1, RunTo(p, w, st, b, k - 1),
               RunTo(UseInstead(p, v, r), w, st', b, Moved(p, v, b, k - 1)));
    }
  }

  lemma MovedStart(p: Prog, v: Id, b: Block)
    ensures Moved(p, v, b, 0) == 0
  {
  }

  // ---------- one edge ----------

  lemma LastArguments(p: Prog, s: Block, w: World, v: Id, r: Id, b: Block, st: Store, st': Store)
    requires Replaceable(p, s, v, r) && Reach(p.Edges(), s, b) && p.Body(b) != []
    requires Sane(p, s, w, b, |p.Body(b)|, st.env)
    requires StoresAgree(p.code.Keys - {v}, st, st')
    ensures var d := p.Body(b)[|p.Body(b)| - 1];
            d in p.code && Values(st'.env, ReplacedInputs(p.code[d].inputs, v, r)) == Values(st.env, p.code[d].inputs)
  {
    hide PeepOk, Reach, Sane, Ir.Prog.Available, AlwaysEqual;
    var k := |p.Body(b)| - 1;
    Listed(p, s, b, p.Body(b)[k]);
    PeepFacts(p, s);
    hide Graph.Closed, Graph.Mirrored, Ir.Prog.Placed;
    var d := p.Body(b)[k];
    assert p.Inputs(d) == p.code[d].inputs;
    forall x | x in p.code[d].inputs ensures x in p.code && p.Available(s, x, b, k + 1) {
      assert p.Available(s, x, b, k);
      AvailableExists(p, s, x, b, k);
      AvailableLater(p, s, x, b, k);
    }
    if v in p.code[d].inputs {
      assert p.Available(s, r, b, k);
      AvailableLater(p, s, r, b, k);
    }
    forall x | x in p.code && x != v ensures Get(st.env, x) == Get(st'.env, x) {
      assert x in p.code.Keys - {v};
    }
    ReadsAgree(p, s, w, v, r, b, k + 1, st.env, st'.env, p.code[d].inputs);
  }

  lemma TakenAgrees(p: Prog, s: Block, w: World, v: Id, r: Id, b: Block, st: Store, st': Store)
    requires Replaceable(p, s, v, r) && Reach(p.Edges(), s, b) && Sane(p, s, w, b, |p.Body(b)|, st.env)
    requires StoresAgree(p.code.Keys - {v}, st, st') && p.g.Succs(b) != []
    ensures UseInstead(p, v, r).g == p.g
    ensures Taken(UseInstead(p, v, r), w, st'.env, b) == Taken(p, w, st.env, b)
  {
    hide Reach, Sane, UseInstead, StoresAgree, Served, AlwaysEqual, Runnable, InstrTyped, ReplacedInputs, EraseAt;
    SameGraph(p, v, r);
    if |p.g.Succs(b)| >= 2 {
      EndStays(p, s, v, r, b);
      LastArguments(p, s, w, v, r, b, st, st');
      CodeKept(p, s, v, r, p.Body(b)[|p.Body(b)| - 1]);
    }
  }

  lemma IncomingReplaced(p: Prog, s: Block, v: Id, r: Id, b: Block, c: Block, q: Id)
    requires PeepOk(p, s) && v in p.code && IsPure(p.code[v].opcode) && q in p.Phis(c) && b in p.g.Preds(c)
    ensures var j := FirstIndex(p.g.Preds(c), b);
            && j < |p.Inputs(q)| && Incoming(p, b, c, q) == Some(p.Inputs(q)[j])
            && Incoming(UseInstead(p, v, r), b, c, q) == Some(if p.Inputs(q)[j] == v then r else p.Inputs(q)[j])
  {
    hide PeepOk, UseInstead;
    SameGraph(p, v, r);
    PhiKept(p, s, v, r, c, q);
  }

  lemma PhiAgrees(p: Prog, s: Block, w: World, v: Id, r: Id, b: Block, c: Block, q: Id, env: Env, env': Env)
    requires Replaceable(p, s, v, r) && Reach(p.Edges(), s, b) && Sane(p, s, w, b, |p.Body(b)|, env)
    requires forall x :: x in p.code && x != v ==> Get(env, x) == Get(env', x)
    requires q in p.Phis(c) && b in p.g.Preds(c)
    ensures PhiValue(UseInstead(p, v, r), env', b, c, q) == PhiValue(p, env, b, c, q)
  {
    hide PeepOk, Reach, Sane, UseInstead, Incoming, Coerce, Ir.Prog.Available;
    PhiKept(p, s, v, r, c, q);
    IncomingReplaced(p, s, v, r, b, c, q);
    PeepFacts(p, s);
    hide Graph.Closed, Graph.Mirrored, Ir.Prog.Placed;
    var j := FirstIndex(p.g.Preds(c), b);
    var x := p.Inputs(q)[j];
    assert p.Available(s, p.Inputs(q)[j], p.g.Preds(c)[j], |p.Body(p.g.Preds(c)[j])|);
    AvailableExists(p, s, x, b, |p.Body(b)|);
    if x == v {
      assert p.Available(s, r, p.g.Preds(c)[j], |p.Body(p.g.Preds(c)[j])|);
      assert Get(env, v) == Get(env, r);
    }
  }

  lemma EnterAgrees(p: Prog, s: Block, w: World, v: Id, r: Id, b: Block, c: Block, st: Store, st': Store)
    requires Replaceable(p, s, v, r) && Reach(p.Edges(), s, b) && Sane(p, s, w, b, |p.Body(b)|, st.env)
    requires StoresAgree(p.code.Keys - {v}, st, st') && c in p.g.Succs(b)
    ensures StoresAgree(p.code.Keys - {v}, Enter(p, st, b, c), Enter(UseInstead(p, v, r), st', b, c))
  {
    hide PeepOk, Reach, Sane, UseInstead, PhiValue, Served, AlwaysEqual, Enter;
    var p' := UseInstead(p, v, r);
    PeepFacts(p, s);
    EdgeIsSucc(p.g, b, c);
    EdgeIsPred(p.g, b, c);
    hide Graph.Closed, Graph.Mirrored, Ir.Prog.Placed, Ir.Prog.Ssa;
    SameGraph(p, v, r);
    forall x | x in p.code && x != v ensures Get(st.env, x) == Get(st'.env, x) {
      assert x in p.code.Keys - {v};
    }
    forall x | x in p.code.Keys - {v} ensures Get(Enter(p, st, b, c).env, x) == Get(Enter(p', st', b, c).env, x) {
      EnterGets(p, st, b, c, x);
      EnterGets(p', st', b, c, x);
      assert p'.Phis(c) == p.Phis(c);
      if x in p.Phis(c) {
        PhiAgrees(p, s, w, v, r, b, c, x, st.env, st'.env);
      }
    }
    EnterLog(p, st, b, c);
    EnterLog(p', st', b, c);
  }

  // ---------- whole runs ----------

  lemma RunBodyAgrees(p: Prog, s: Block, w: World, v: Id, r: Id, b: Block, st: Store, st': Store)
    requires Replaceable(p, s, v, r) && Reach(p.Edges(), s, b) && Sane(p, s, w, b, 0, st.env)
    requires StoresAgree(p.code.Keys - {v}, st, st')
    ensures StoresAgree(p.code.Keys - {v}, RunBody(p, w, st, b), RunBody(UseInstead(p, v, r), w, st', b))
  {
    hide Replaceable, PeepOk, Reach, Sane, UseInstead, StoresAgree, RunTo, Moved;
    ReplaceableFacts(p, s, v, r);
    BodyAgrees(p, s, w, v, r, b, |p.Body(b)|, st, st');
    MovedEnd(p, s, v, r, b);
  }

  lemma {:induction false} RunAgrees(p: Prog, s: Block, w: World, v: Id, r: Id, n: nat)
    requires Replaceable(p, s, v, r)
    ensures ConfigsAgree(p.code.Keys - {v}, Exec(p, s, w, n), Exec(UseInstead(p, v, r), s, w, n))
  {
    hide Replaceable, PeepOk, Reach, Sane, UseInstead, StoresAgree, RunBody, Taken, Enter, Ir.Prog.Ssa, Runnable;
    hide Ir.Prog.Edges;
    ReplaceableFacts(p, s, v, r);
    if n == 0 {
      EmptyAgree(p.code.Keys - {v});
    } else {
      RunAgrees(p, s, w, v, r, n - 1);
      var p', c, c' := UseInstead(p, v, r), Exec(p, s, w, n - 1), Exec(UseInstead(p, v, r), s, w, n - 1);
      if c.At? {
        SaneRun(p, s, w, n - 1);
        var after, after' := RunBody(p, w, c.st, c.b), RunBody(p', w, c'.st, c.b);
        RunBodyAgrees(p, s, w, v, r, c.b, c.st, c'.st);
        SaneAtEnd(p, s, w, c.b, c.st);
        SameGraph(p, v, r);
        if p.g.Succs(c.b) != [] {
          TakenAgrees(p, s, w, v, r, c.b, after, after');
          TakenIsSucc(p, w, after.env, c.b);
          EnterAgrees(p, s, w, v, r, c.b, Taken(p, w, after.env, c.b), after, after');
        }
      }
    }
  }

  lemma EmptyAgree(kept: set<Id>)
    ensures StoresAgree(kept, Store(map[], []), Store(map[], []))
  {
  }

  /** Using an equal value instead of a pure instruction keeps every run on all values that are left. */
  lemma UseInsteadAgrees(p: Prog, s: Block, v: Id, r: Id)
    requires Replaceable(p, s, v, r)
    ensures Agree(p, UseInstead(p, v, r), s)
  {
    hide UseInstead, Exec, ConfigsAgree, Replaceable, PeepOk, Runnable, Ir.Prog.Ssa;
    ReplaceableFacts(p, s, v, r);
    KeysAre(p, s, v, r);
    forall w, n
      ensures ConfigsAgree(p.code.Keys * UseInstead(p, v, r).code.Keys, Exec(p, s, w, n),
                           Exec(UseInstead(p, v, r), s, w, n))
    {
      RunAgrees(p, s, w, v, r, n);
    }
  }

  lemma KeysAre(p: Prog, s: Block, v: Id, r: Id)
    requires PeepOk(p, s) && v in p.code && IsPure(p.code[v].opcode)
    ensures p.code.Keys * UseInstead(p, v, r).code.Keys == p.code.Keys - {v}
    ensures UseInstead(p, v, r).code.Keys == p.code.Keys - {v}
  {
    hide UseInstead, PeepOk, EraseAt, ReplacedInputs;
    UseInsteadFacts(p, s, v, r);
  }
}
