/** A run that check elimination changes: the block behind the guard's outcome is also entered from elsewhere,
    which the pass does not test (Passes/CheckElimination.cpp:62-87). */
module CheckGap {
  import opened Util
  import opened Cfg
  import opened Ir
  import opened Dominators
  import opened Semantics
  import opened GraphEdits
  import opened CheckTheory
  import opened CheckGuards
  import opened CheckElim

  /** Block 0 goes to 1 or straight to 2; 1 checks value 0 for null and goes to 2 if it is; 2 checks it again. */
  const G := Graph(
    [0, 1, 2, 3, 4, 5],
    map[0 := [1, 2], 1 := [2, 3], 2 := [4, 5]],
    map[1 := [0], 2 := [0, 1], 3 := [1], 4 := [2], 5 := [2]])

  const P := Prog(G, map[],
    map[0 := [0, 1], 1 := [2], 2 := [3]],
    map[0 := Instr(Param(0), REF, [], 0), 1 := Instr(If, VOID, [0, 0], 0),
        2 := Instr(CheckNull, VOID, [0], 1), 3 := Instr(CheckNull, VOID, [0], 2)])

  lemma SuccsAre(u: Block)
    ensures P.g.Succs(u) == if u == 0 then [1, 2] else if u == 1 then [2, 3] else if u == 2 then [4, 5] else []
    ensures u in P.g.succs <==> u <= 2
  {
  }

  lemma PredsAre(v: Block)
    ensures P.g.Preds(v) ==
              if v == 1 then [0] else if v == 2 then [0, 1] else if v == 3 then [1]
              else if v == 4 || v == 5 then [2] else []
  {
  }

  lemma BlocksAre()
    ensures P.g.blocks == [0, 1, 2, 3, 4, 5]
  {
  }

  lemma BodyAre(b: Block)
    ensures P.Phis(b) == []
    ensures P.Body(b) == if b == 0 then [0, 1] else if b == 1 then [2] else if b == 2 then [3] else []
    ensures b in P.phis || b in P.body ==> b <= 2
  {
  }

  lemma CodeIs(v: Id)
    ensures v in P.code <==> v <= 3
    ensures v == 0 ==> P.code[v] == Instr(Param(0), REF, [], 0)
    ensures v == 1 ==> P.code[v] == Instr(If, VOID, [0, 0], 0)
    ensures v == 2 ==> P.code[v] == Instr(CheckNull, VOID, [0], 1)
    ensures v == 3 ==> P.code[v] == Instr(CheckNull, VOID, [0], 2)
  {
  }

  lemma IsClosed()
    ensures P.g.Closed() && P.NoParallelEdges()
  {
    hide P, G, Graph.Succs, Graph.Preds;
    BlocksAre();
    forall u: Block | u in P.g.succs ensures u in P.g.blocks {
      SuccsAre(u);
      assert P.g.blocks[u] == u;
    }
    forall u: Block, v: Block | v in P.g.Succs(u) ensures v in P.g.blocks {
      SuccsAre(u);
      assert P.g.blocks[v] == v;
    }
    forall b: Block ensures Distinct(P.g.Preds(b)) {
      PredsAre(b);
    }
  }

  lemma IsMirrored()
    ensures P.g.Mirrored()
  {
    hide P, G, Graph.Succs, Graph.Preds;
    forall u: Block, v: Block ensures multiset(P.g.Preds(v))[u] == multiset(P.g.Succs(u))[v] {
      SuccsAre(u);
      PredsAre(v);
      CountTwo(0, 1, u);
      CountTwo(2, 1, u);
      CountTwo(1, 2, v);
      CountTwo(2, 3, v);
      CountTwo(4, 5, v);
    }
  }

  lemma IsPlaced()
    ensures P.Placed()
  {
    hide P, Prog.Phis, Prog.Body;
    BlocksAre();
    forall b, v | v in P.Phis(b) ensures IsPhiOf(P, v, b) {
      BodyAre(b);
    }
    forall b, v | v in P.Body(b) ensures IsBodyOf(P, v, b) {
      BodyAre(b);
      CodeIs(v);
    }
    forall v | v in P.code ensures IsListed(P, v) {
      CodeIs(v);
      BodyAre(P.code[v].bb);
    }
    forall b ensures Distinct(P.Phis(b)) && Distinct(P.Body(b)) {
      BodyAre(b);
    }
    forall b | b in P.phis || b in P.body ensures b in P.g.blocks {
      BodyAre(b);
      assert P.g.blocks[b] == b;
    }
    PlacedBy(P);
  }

  lemma InputsAre(v: Id)
    ensures P.Inputs(v) == if v == 1 then [0, 0] else if v == 2 || v == 3 then [0] else []
  {
  }

  lemma IsStrict()
    ensures P.Strict(0)
  {
    hide P, Prog.Phis, Prog.Body, Prog.Inputs, Dom;
    forall b, k, x | 0 <= k < |P.Body(b)| && x in P.Inputs(P.Body(b)[k]) ensures P.Available(0, x, b, k) {
      BodyAre(b);
      InputsAre(P.Body(b)[k]);
      CodeIs(x);
      DomStart(P.Edges(), 0, b);
      if b == 0 {
        assert P.Body(0)[..1] == [0];
      }
    }
    forall b ensures P.Phis(b) == [] {
      BodyAre(b);
    }
  }

  lemma IsRunnable()
    ensures Runnable(P, 0) && P.NoParallelEdges()
  {
    IsClosed();
    IsMirrored();
    IsPlaced();
    IsStrict();
    BodyAre(0);
    hide P, Prog.Phis, Graph.Closed, Graph.Mirrored, Prog.Placed, Prog.Strict, Prog.NoParallelEdges;
  }

  lemma ChecksAre(u: Id)
    requires u in P.code && IsCheck(P.code[u].opcode)
    ensures CheckPlaced(P, u)
  {
    CodeIs(u);
    BodyAre(P.code[u].bb);
    SuccsAre(P.code[u].bb);
    InputsAre(u);
    hide P, Prog.Body, Prog.Inputs, Graph.Succs;
  }

  lemma InputsAreValues(v: Id, x: Id)
    requires x in P.Inputs(v) && x in P.code
    ensures !IsBranch(P.code[x].opcode)
  {
    InputsAre(v);
    CodeIs(0);
    hide P, Prog.Inputs;
  }

  lemma IsWellFormed()
    ensures WellFormed(P, 0)
  {
    hide P, Runnable, Prog.NoParallelEdges, IsCheck, IsBranch, CheckPlaced;
    IsRunnable();
    forall u | u in P.code && IsCheck(P.code[u].opcode) ensures CheckPlaced(P, u) {
      ChecksAre(u);
    }
    forall v, x | x in P.Inputs(v) && x in P.code ensures !IsBranch(P.code[x].opcode) {
      InputsAreValues(v, x);
    }
    forall v | v in P.code && P.code[v].opcode.NullInstr? ensures P.code[v].ty == REF {
      CodeIs(v);
    }
  }

  /** The pass trusts check 2 with check 3, although block 2 is also entered from block 0. */
  lemma GuardTrusted(info: Info)
    ensures 2 in P.code && 3 in P.code && IsCheck(P.code[2].opcode) && ChecksEqual(P, 2, 3) && Guarded(P, info, 2, 0, 3)
    ensures !GuardSound(P, 0, 2, 0)
  {
    CodeIs(2);
    CodeIs(3);
    SuccsAre(1);
    hide P, Graph.Succs, Dom;
    SuccsAre(0);
    EdgeIsSucc(P.g, 0, 2);
    if Dom(P.Edges(), 0, 2, 0) {
      NothingAboveStart(P.Edges(), 0, 2);
    }
    assert P.g.Succs(1)[0] == 2;
  }

  /** With a reference that is not null, and straight to block 2. */
  const W := World(_ => RefV(1), (_, _) => NullV, (_, _, _) => NullV, (_, _) => false, _ => true)

  /** The original leaves block 2 to block 5. */
  lemma OriginalRun()
    ensures Exec(P, 0, W, 1).At? && Exec(P, 0, W, 1).b == 2
    ensures Exec(P, 0, W, 2).At? && Exec(P, 0, W, 2).b == 5
  {
    var st0 := Store(map[], []);
    FirstBlock();
    var st1 := RunBody(P, W, st0, 0);
    SecondBlock(Enter(P, st1, 0, 2));
    assert Exec(P, 0, W, 0) == At(0, st0);
    assert Exec(P, 0, W, 1) == At(2, Enter(P, st1, 0, 2));
    EnterGets(P, st1, 0, 2, 0);
    BodyAre(2);
    hide P, Taken, RunBody;
    assert Exec(P, 0, W, 2) == Step(P, W, Exec(P, 0, W, 1));
    SuccsAre(2);
  }

  lemma FirstBlock()
    ensures var st := RunBody(P, W, Store(map[], []), 0);
            Get(st.env, 0) == RefV(1) && P.g.Succs(0) != [] && Taken(P, W, st.env, 0) == 2
  {
    var st0 := Store(map[], []);
    BodyAre(0);
    CodeIs(0);
    CodeIs(1);
    SuccsAre(0);
    hide P, G;
    assert RunTo(P, W, st0, 0, 1) == RunInstr(P, W, st0, 0);
    assert RunTo(P, W, st0, 0, 2) == RunInstr(P, W, RunTo(P, W, st0, 0, 1), 1);
    assert Get(RunTo(P, W, st0, 0, 2).env, 0) == RefV(1);
  }

  lemma SecondBlock(st: Store)
    requires Get(st.env, 0) == RefV(1)
    ensures P.g.Succs(2) != [] && Taken(P, W, RunBody(P, W, st, 2).env, 2) == 5
  {
    BodyAre(2);
    CodeIs(3);
    SuccsAre(2);
    hide P, G;
    assert RunTo(P, W, st, 2, 1) == RunInstr(P, W, RunTo(P, W, st, 2, 0), 3) == st;
    assert Values(st.env, [0])[0] == RefV(1);
  }

  /** In this run check 3 does not find null. */
  lemma NotDecided()
    ensures 3 in P.code && IsCheck(P.code[3].opcode) && !Decided(P, 0, 3, 0)
  {
    OriginalRun();
    IsWellFormed();
    CodeIs(3);
    SuccsAre(2);
    hide P, WellFormed, W, RunBody, Taken, VerdictOf, Graph.Succs;
    assert Exec(P, 0, W, 2) == Step(P, W, Exec(P, 0, W, 1));
    hide Exec;
    TakenTells(P, 0, W, RunBody(P, W, Exec(P, 0, W, 1).st, 2).env, 3, 0);
  }

  /** So removing the check, with the edge to block 5, changes a run. */
  lemma RunChanges()
    ensures 1 < |P.g.Succs(P.BlockOf(3))|
    ensures !SameRuns(P, DropCheck(P, 3, 1), 0)
  {
    NotDecided();
    IsWellFormed();
    hide P, WellFormed, Decided, SameRuns, DropCheck;
    DropKeepsRunsExactly(P, 0, 3, 1);
  }

  const USERS: Users := map[0 := {1, 2, 3}]

  lemma UsersAreRight()
    ensures UsersRight(P, USERS) && UsersOf(USERS, 0) == {1, 2, 3}
  {
    forall x, v | v in UsersOf(USERS, x) ensures v in P.code && x in P.Inputs(v) {
      CodeIs(v);
      InputsAre(v);
    }
  }

  const GONE: map<Id, nat> := map[3 := 0]

  lemma GoneIs()
    ensures GONE.Keys == {3} && 3 in GONE && GONE[3] == 0
  {
  }

  /** Taking up check 2, the pass removes check 3 and nothing else. */
  lemma OnlyThree(info: Info)
    ensures 2 in P.code && Removable(P, info, 2, {1, 2, 3}) == GONE
  {
    CodeIs(1);
    GuardTrusted(info);
    hide P, SameOperands, Guarded;
    assert !ChecksEqual(P, 2, 1);
  }

  lemma ExampleChanged(info: Info, p: Prog, users: Users)
    requires ElimInv(P, 0, info, p, users) && Sifted(P, p, GONE)
    ensures p.code.Keys == P.code.Keys - {3} && p.g.Succs(2) == [4] && !SameRuns(P, p, 0)
  {
    hide *;
    NotDecided();
    GoneIs();
    UndecidedChanges(P, 0, info, p, users, GONE, 3);
    ThreeKept(p);
  }

  lemma ThreeKept(p: Prog)
    requires 3 in P.code && KeptEdge(P, p, 3, 0)
    ensures p.g.Succs(2) == [4]
  {
    CodeIs(3);
    SuccsAre(2);
    hide P, Graph.Succs;
  }

  /** The pass, with any records of dominators, removes check 3 on the word of check 2, and changes a run. */
  method PassRemoves(info: Info) returns (graph: MethodGraph)
    ensures WellFormed(P, 0)
    ensures graph.code.Keys == P.code.Keys - {3} && graph.Shape().g.Succs(2) == [4]
    ensures !SameRuns(P, graph.Shape(), 0)
  {
    hide *;
    IsWellFormed();
    UsersAreRight();
    CodeIs(2);
    graph := new MethodGraph(P, USERS, 4);
    var pass := new CheckElimination(graph, 0, info);
    ElimStart(P, 0, info, USERS);
    OnlyThree(info);
    InputsAre(2);
    pass.ProcessNullCheck(2, P);
    ExampleChanged(info, graph.Shape(), graph.users);
  }
}
