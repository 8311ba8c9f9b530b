/** Two graphs on which cutting an edge does not keep what it should: a phi loses fewer inputs than its block loses
    predecessors when the edge has a parallel one (IR/basicBlock.cpp:12-42), and a phi that reads a value twice is
    struck from the value's users although it still reads it (IR/instructions/instr.h:123-132). */
module EditGap {
  import opened Util
  import opened Cfg
  import opened Ir
  import opened GraphEdits

  // ---------- a parallel edge ----------

  /** Both edges of block 0 go to block 1, whose phi reads one value along each. */
  const FORK := Prog(
    Graph([0, 1], map[0 := [1, 1]], map[1 := [0, 0]]),
    map[1 := [3]], map[0 := [0, 1, 2]],
    map[0 := Instr(Param(0), U32, [], 0), 1 := Instr(Param(1), U32, [], 0), 2 := Instr(If, VOID, [0, 1], 0),
        3 := Instr(Phi, U32, [0, 1], 1)])

  lemma ForkLists(b: Block)
    ensures FORK.Phis(b) == (if b == 1 then [3] else []) && FORK.Body(b) == (if b == 0 then [0, 1, 2] else [])
    ensures FORK.g.Succs(b) == (if b == 0 then [1, 1] else []) && FORK.g.Preds(b) == (if b == 1 then [0, 0] else [])
    ensures b in FORK.phis || b in FORK.body ==> b in FORK.g.blocks
  {
    assert FORK.g.blocks[0] == 0 && FORK.g.blocks[1] == 1;
  }

  lemma ForkCode(v: Id)
    ensures v in FORK.code <==> v <= 3
    ensures v in FORK.code ==> FORK.code[v].bb == (if v == 3 then 1 else 0) && (FORK.code[v].opcode.Phi? <==> v == 3)
    ensures FORK.Inputs(v) == if v == 2 || v == 3 then [0, 1] else []
  {
  }

  lemma ForkPlaced()
    ensures FORK.Placed()
  {
    hide FORK, Prog.Phis, Prog.Body;
    forall b, v | v in FORK.Phis(b) ensures IsPhiOf(FORK, v, b) {
      ForkLists(b);
      ForkCode(v);
    }
    forall b, v | v in FORK.Body(b) ensures IsBodyOf(FORK, v, b) {
      ForkLists(b);
      ForkCode(v);
    }
    forall v | v in FORK.code ensures IsListed(FORK, v) {
      ForkCode(v);
      ForkLists(FORK.code[v].bb);
    }
    forall b ensures Distinct(FORK.Phis(b)) && Distinct(FORK.Body(b)) {
      ForkLists(b);
    }
    forall b | b in FORK.phis || b in FORK.body ensures b in FORK.g.blocks {
      ForkLists(b);
    }
    PlacedBy(FORK);
  }

  lemma ForkStrict()
    ensures FORK.Strict(0) && PhiArity(FORK)
  {
    hide FORK, Prog.Phis, Prog.Body, Prog.Inputs, Graph.Preds;
    forall b, k, x | 0 <= k < |FORK.Body(b)| && x in FORK.Inputs(FORK.Body(b)[k]) ensures FORK.Available(0, x, b, k) {
      ForkLists(b);
      ForkCode(FORK.Body(b)[k]);
      ForkCode(x);
      assert k == 2 && FORK.Body(0)[..2] == [0, 1];
    }
    forall b, q, j | q in FORK.Phis(b) && 0 <= j < |FORK.Inputs(q)| && j < |FORK.g.Preds(b)|
      ensures FORK.Available(0, FORK.Inputs(q)[j], FORK.g.Preds(b)[j], |FORK.Body(FORK.g.Preds(b)[j])|)
    {
      ForkLists(b);
      ForkLists(0);
      ForkCode(q);
      ForkCode(j);
      assert FORK.Body(0)[..3][j] == j;
    }
    forall b, q | q in FORK.Phis(b) ensures |FORK.Inputs(q)| == |FORK.g.Preds(b)| {
      ForkLists(b);
      ForkCode(q);
    }
  }

  lemma ForkMirrored()
    ensures FORK.g.Mirrored()
  {
    hide FORK, Graph.Succs, Graph.Preds;
    forall u: Block, v: Block ensures multiset(FORK.g.Preds(v))[u] == multiset(FORK.g.Succs(u))[v] {
      ForkLists(u);
      ForkLists(v);
      CountTwo(0, 0, u);
      CountTwo(1, 1, v);
    }
  }

  /** Cutting one of the two edges takes both entries out of the predecessors and one input out of the phi. */
  lemma ParallelCut()
    ensures FORK.Placed() && FORK.Strict(0) && FORK.g.Mirrored() && PhiArity(FORK)
    ensures 0 < |FORK.g.Succs(0)| && !PhiArity(CutEdge(FORK, 0, 0)) && !CutEdge(FORK, 0, 0).g.Mirrored()
  {
    ForkPlaced();
    ForkStrict();
    ForkMirrored();
    ForkLists(0);
    ForkLists(1);
    ForkCode(3);
    hide FORK, Prog.Placed, Prog.Strict, Graph.Mirrored, CutEdge, Prog.Phis, Prog.Body, Prog.Inputs, Graph.Succs;
    hide Graph.Preds;
    var p' := CutEdge(FORK, 0, 0);
    CutEdgeFacts(FORK, 0, 0);
    CountTwo(0, 0, 0);
    assert 1 in FORK.g.Preds(1) || 3 in p'.Phis(1);
    CutArityExactly(FORK, 0, 0);
    MirrorLost(p');
  }

  lemma MirrorLost(p: Prog)
    requires p.g.Preds(1) == [] && p.g.Succs(0) == [1]
    ensures !p.g.Mirrored()
  {
    assert multiset(p.g.Preds(1))[0] == 0 && multiset(p.g.Succs(0))[1] == 1;
  }

  /** The program's own cut does so. */
  method ArityLost() returns (graph: MethodGraph)
    ensures FORK.Placed() && FORK.Strict(0) && FORK.g.Mirrored() && PhiArity(FORK)
    ensures !PhiArity(graph.Shape()) && !graph.Shape().g.Mirrored()
  {
    ParallelCut();
    hide *;
    graph := new MethodGraph(FORK, map[], 4);
    graph.RemoveSuccessor(0, 0);
  }

  // ---------- a value read twice ----------

  /** A diamond whose join reads value 0 from both sides. */
  const JOIN := Prog(
    Graph([0, 1, 2, 3], map[0 := [1, 2], 1 := [3], 2 := [3]], map[1 := [0], 2 := [0], 3 := [1, 2]]),
    map[3 := [2]], map[0 := [0, 1]],
    map[0 := Instr(Param(0), U32, [], 0), 1 := Instr(If, VOID, [0, 0], 0), 2 := Instr(Phi, U32, [0, 0], 3)])

  const USERS: Users := map[0 := {1, 2}]

  lemma JoinLists(b: Block)
    ensures JOIN.Phis(b) == (if b == 3 then [2] else []) && JOIN.Body(b) == (if b == 0 then [0, 1] else [])
    ensures JOIN.g.Succs(b) == if b == 0 then [1, 2] else if b == 1 || b == 2 then [3] else []
    ensures JOIN.g.Preds(b) == if b == 1 || b == 2 then [0] else if b == 3 then [1, 2] else []
    ensures b in JOIN.phis || b in JOIN.body ==> b in JOIN.g.blocks
  {
    assert JOIN.g.blocks[0] == 0 && JOIN.g.blocks[3] == 3;
  }

  lemma JoinCode(v: Id)
    ensures v in JOIN.code <==> v <= 2
    ensures v in JOIN.code ==> JOIN.code[v].bb == (if v == 2 then 3 else 0) && (JOIN.code[v].opcode.Phi? <==> v == 2)
    ensures JOIN.Inputs(v) == if v == 1 || v == 2 then [0, 0] else []
  {
  }

  lemma JoinPlaced()
    ensures JOIN.Placed()
  {
    hide JOIN, Prog.Phis, Prog.Body;
    forall b, v | v in JOIN.Phis(b) ensures IsPhiOf(JOIN, v, b) {
      JoinLists(b);
      JoinCode(v);
    }
    forall b, v | v in JOIN.Body(b) ensures IsBodyOf(JOIN, v, b) {
      JoinLists(b);
      JoinCode(v);
    }
    forall v | v in JOIN.code ensures IsListed(JOIN, v) {
      JoinCode(v);
      JoinLists(JOIN.code[v].bb);
    }
    forall b ensures Distinct(JOIN.Phis(b)) && Distinct(JOIN.Body(b)) {
      JoinLists(b);
    }
    forall b | b in JOIN.phis || b in JOIN.body ensures b in JOIN.g.blocks {
      JoinLists(b);
    }
    PlacedBy(JOIN);
  }

  lemma JoinStrict()
    ensures JOIN.Strict(0) && PhiArity(JOIN) && UsersCover(JOIN, USERS)
  {
    hide JOIN, Prog.Phis, Prog.Body, Prog.Inputs, Graph.Preds, Dom;
    JoinCode(0);
    forall b, k, x | 0 <= k < |JOIN.Body(b)| && x in JOIN.Inputs(JOIN.Body(b)[k]) ensures JOIN.Available(0, x, b, k) {
      JoinLists(b);
      JoinCode(JOIN.Body(b)[k]);
      assert k == 1 && JOIN.Body(0)[..1] == [0];
    }
    forall b, q, j | q in JOIN.Phis(b) && 0 <= j < |JOIN.Inputs(q)| && j < |JOIN.g.Preds(b)|
      ensures JOIN.Available(0, JOIN.Inputs(q)[j], JOIN.g.Preds(b)[j], |JOIN.Body(JOIN.g.Preds(b)[j])|)
    {
      JoinLists(b);
      JoinCode(q);
      DomStart(JOIN.Edges(), 0, JOIN.g.Preds(b)[j]);
    }
    forall b, q | q in JOIN.Phis(b) ensures |JOIN.Inputs(q)| == |JOIN.g.Preds(b)| {
      JoinLists(b);
      JoinCode(q);
    }
    forall v, x | v in JOIN.code && x in JOIN.Inputs(v) ensures v in UsersOf(USERS, x) {
      JoinCode(v);
    }
  }

  lemma JoinMirrored()
    ensures JOIN.g.Mirrored() && JOIN.NoParallelEdges()
  {
    hide JOIN, Graph.Succs, Graph.Preds;
    forall u: Block, v: Block ensures multiset(JOIN.g.Preds(v))[u] == multiset(JOIN.g.Succs(u))[v] {
      JoinLists(u);
      JoinLists(v);
      CountTwo(1, 2, u);
      CountTwo(1, 2, v);
    }
    forall b ensures Distinct(JOIN.g.Preds(b)) {
      JoinLists(b);
    }
  }

  lemma Struck(code: map<Id, Instr>, users: Users, phis: seq<Id>, i: nat, q: Id)
    requires q in phis && q in code && i < |code[q].inputs|
    ensures q !in UsersOf(ErasePhiUsers(code, users, phis, i), code[q].inputs[i])
  {
  }

  lemma JoinCut()
    ensures JOIN.g.Succs(1) == [3] && JOIN.g.Preds(3) == [1, 2] && JOIN.Phis(3) == [2] && FirstIndex([1, 2], 1) == 0
    ensures 2 in CutEdge(JOIN, 1, 0).code && CutEdge(JOIN, 1, 0).Inputs(2) == [0]
    ensures 2 in JOIN.code && JOIN.code[2].inputs == [0, 0]
  {
    JoinLists(1);
    JoinLists(3);
    JoinCode(2);
    CutEdgeFacts(JOIN, 1, 0);
    FirstIndexIs([1, 2], 0, 1);
    hide JOIN, Graph.Succs, Graph.Preds, Prog.Phis, Prog.Body, CutEdge;
  }

  lemma JoinLoses()
    ensures !UsersCover(CutEdge(JOIN, 1, 0), ErasePhiUsers(JOIN.code, USERS, [2], 0))
  {
    JoinCut();
    hide JOIN, USERS, CutEdge, ErasePhiUsers, Graph.Succs, Prog.Inputs;
    Struck(JOIN.code, USERS, [2], 0, 2);
  }

  /** Cutting one side of the diamond strikes the phi from the users of value 0, which it still reads. */
  method UserLost() returns (graph: MethodGraph)
    ensures JOIN.Placed() && JOIN.Strict(0) && JOIN.g.Mirrored() && JOIN.NoParallelEdges() && UsersCover(JOIN, USERS)
    ensures !UsersCover(graph.Shape(), graph.users)
  {
    JoinPlaced();
    JoinStrict();
    JoinMirrored();
    JoinCut();
    JoinLoses();
    hide *;
    graph := new MethodGraph(JOIN, USERS, 3);
    graph.RemoveSuccessor(1, 0);
  }
}
