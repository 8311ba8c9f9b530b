/** A reducible program, scheduled by the wait-count scheduler, on which the one-pass live ranges miss a live
    value: the exit of an inner loop is placed before the inner body (Analyzers/linearOrderAnalyzer.cpp:72-83),
    and the outer loop's end is taken from its own nodes only (Analyzers/livenessAnalyzer.cpp:54-67). */
module LivenessGap {
  import opened Util
  import opened Cfg
  import opened Rpo
  import opened Ir
  import opened NaturalLoops
  import opened Loops
  import opened LinearOrder
  import opened LiveRanges
  import opened Liveness
  import opened LivenessPass
  import opened LivenessTheory
  import opened LivenessExact
  import opened Pools
  import opened RegAlloc
  import opened Pipeline

  /** 1 heads the outer loop (latch 3), 2 the inner one (latch 4); 5 is the exit. */
  const G := Graph(
    [0, 1, 2, 3, 4, 5],
    map[0 := [1], 1 := [2, 5], 2 := [3, 4], 3 := [1], 4 := [2], 5 := []],
    map[0 := [], 1 := [0, 3], 2 := [1, 4], 3 := [2], 4 := [2], 5 := [1]])

  const ORDER: seq<Block> := [0, 1, 2, 3, 5, 4]

  /** Value 10 is defined in block 0 and read in block 1; block 4 defines and reads value 12. */
  const P := Prog(G, map[],
    map[0 := [10], 1 := [11], 4 := [12, 13]],
    map[10 := Instr(Param(0), U64, [], 0), 11 := Instr(Cast, U32, [10], 1),
        12 := Instr(Constant(7), U64, [], 4), 13 := Instr(Cast, U32, [12], 4)])

  lemma EdgesAre(u: Block, v: Block)
    ensures (u, v) in P.Edges() <==>
            (u == 0 && v == 1) || (u == 1 && (v == 2 || v == 5)) || (u == 2 && (v == 3 || v == 4)) ||
            (u == 3 && v == 1) || (u == 4 && v == 2)
  {
    EdgeIsSucc(G, u, v);
  }

  lemma Dominance()
    ensures SDom(P.Edges(), 0, 1, 3) && SDom(P.Edges(), 0, 2, 4)
    ensures SDom(P.Edges(), 0, 0, 1)
  {
    var es := P.Edges();
    forall u: Block, v: Block ensures (u, v) in es <==>
            (u == 0 && v == 1) || (u == 1 && (v == 2 || v == 5)) || (u == 2 && (v == 3 || v == 4)) ||
            (u == 3 && v == 1) || (u == 4 && v == 2)
    {
      EdgesAre(u, v);
    }
    DomRefl(es, 0, 2);
    DomRefl(es, 0, 1);
    DomByPreds(es, 0, 2, 4);
    DomByPreds(es, 0, 2, 3);
    DomByPreds(es, 0, 1, 2);
    DomTrans(es, 0, 1, 2, 3);
    DomStart(es, 0, 1);
  }

  lemma PathsFromStart()
    ensures PathTo(P.Edges(), 0, 0, [0]) && PathTo(P.Edges(), 0, 1, [0, 1])
    ensures PathTo(P.Edges(), 0, 2, [0, 1, 2]) && PathTo(P.Edges(), 0, 5, [0, 1, 5])
    ensures PathTo(P.Edges(), 0, 3, [0, 1, 2, 3]) && PathTo(P.Edges(), 0, 4, [0, 1, 2, 4])
  {
    var es := P.Edges();
    EdgesAre(0, 1); EdgesAre(1, 2); EdgesAre(1, 5); EdgesAre(2, 3); EdgesAre(2, 4);
    PathSingle(es, 0);
    PathAppend(es, [0], 1);
    assert [0] + [1] == [0, 1];
    PathAppend(es, [0, 1], 2);
    assert [0, 1] + [2] == [0, 1, 2];
    PathAppend(es, [0, 1], 5);
    assert [0, 1] + [5] == [0, 1, 5];
    PathAppend(es, [0, 1, 2], 3);
    assert [0, 1, 2] + [3] == [0, 1, 2, 3];
    PathAppend(es, [0, 1, 2], 4);
    assert [0, 1, 2] + [4] == [0, 1, 2, 4];
  }

  /** Exactly the edges 3 to 1 and 4 to 2 are back edges. */
  lemma BackEdgesAre(u: Block, v: Block)
    requires (u, v) in P.Edges()
    ensures SDom(P.Edges(), 0, v, u) <==> (u == 3 && v == 1) || (u == 4 && v == 2)
  {
    EdgesAre(u, v);
    Dominance();
    PathsFromStart();
  }

  lemma OrderIndex()
    ensures FirstIndex(ORDER, 0) == 0 && FirstIndex(ORDER, 1) == 1 && FirstIndex(ORDER, 2) == 2
    ensures FirstIndex(ORDER, 3) == 3 && FirstIndex(ORDER, 5) == 4 && FirstIndex(ORDER, 4) == 5
    ensures Distinct(ORDER)
  {
    IndexUnique(ORDER, 0); IndexUnique(ORDER, 1); IndexUnique(ORDER, 2);
    IndexUnique(ORDER, 3); IndexUnique(ORDER, 4); IndexUnique(ORDER, 5);
  }

  /** A line that respects the forward edges exists only for reducible graphs. */
  lemma OrderedIsReducible(es: Edges, s: Block, order: seq<Block>)
    requires ForwardOrdered(es, s, order) && Distinct(order)
    ensures Reducible(es, s)
  {
    forall p | Path(Forward(es, s), p) && |p| > 1 ensures p[0] != p[|p| - 1] {
      RisesAlong(es, s, order, p);
    }
  }

  lemma {:induction false} RisesAlong(es: Edges, s: Block, order: seq<Block>, p: seq<Block>)
    requires ForwardOrdered(es, s, order) && Distinct(order) && Path(Forward(es, s), p) && |p| > 1
    ensures p[0] in order && p[|p| - 1] in order && FirstIndex(order, p[0]) < FirstIndex(order, p[|p| - 1])
  {
    var n := |p| - 1;
    assert Hop(Forward(es, s), p, n - 1);
    assert Precedes(order, p[n - 1], p[n]);
    PrecedesIndex(order, p[n - 1], p[n]);
    if n > 1 {
      PathPrefix(Forward(es, s), p, n);
      RisesAlong(es, s, order, p[..n]);
    }
  }

  // ---------- the loop nest ----------

  lemma BackEdgesExactly(u: Block, h: Block)
    ensures BackEdge(P.Edges(), 0, u, h) <==> (u == 3 && h == 1) || (u == 4 && h == 2)
  {
    EdgesAre(u, h);
    PathsFromStart();
    if (u, h) in P.Edges() {
      BackEdgesAre(u, h);
    }
  }

  lemma HeadersAre(h: Block)
    ensures Header(P.Edges(), 0, h) <==> h == 1 || h == 2
  {
    hide BackEdge, P;
    BackEdgesExactly(3, 1);
    BackEdgesExactly(4, 2);
    forall u: Block ensures BackEdge(P.Edges(), 0, u, h) <==> (u == 3 && h == 1) || (u == 4 && h == 2) {
      BackEdgesExactly(u, h);
    }
  }

  /** Which blocks reach the latch of `h` without passing `h`. */
  lemma LatchReachers(h: Block, b: Block)
    requires ReachesLatch(P.Edges(), 0, h, b)
    ensures (h == 1 && 2 <= b <= 4) || (h == 2 && b == 4)
  {
    var es := P.Edges();
    var u :| BackEdge(es, 0, u, h) && ReachAvoiding(es, b, u, h);
    BackEdgesExactly(u, h);
    var q :| PathTo(es, b, u, q) && h !in q;
    var vs := if h == 1 then {2, 3, 4} else {4};
    forall x: Block, y: Block | x in vs && x != h && (y, x) in es ensures y in vs || y == h {
      EdgesAre(y, x);
    }
    forall x: Block, y: Block | x in vs + {h} && x != h && (y, x) in es ensures y in vs + {h} {
    }
    BackwardClosed(es, q, h, vs + {h});
    assert q[0] in q;
  }

  lemma ReachersExist()
    ensures ReachesLatch(P.Edges(), 0, 1, 2) && ReachesLatch(P.Edges(), 0, 1, 3) && ReachesLatch(P.Edges(), 0, 1, 4)
    ensures ReachesLatch(P.Edges(), 0, 2, 4)
  {
    hide BackEdge;
    var es := P.Edges();
    BackEdgesExactly(3, 1);
    BackEdgesExactly(4, 2);
    EdgesAre(2, 3); EdgesAre(4, 2);
    PathSingle(es, 3);
    PathSingle(es, 4);
    PathCons(es, 2, [3]);
    assert [2] + [3] == [2, 3];
    PathCons(es, 4, [2, 3]);
    assert [4] + [2, 3] == [4, 2, 3];
    assert PathTo(es, 3, 3, [3]) && 1 !in [3];
    assert PathTo(es, 2, 3, [2, 3]) && 1 !in [2, 3];
    assert PathTo(es, 4, 3, [4, 2, 3]) && 1 !in [4, 2, 3];
    assert PathTo(es, 4, 4, [4]) && 2 !in [4];
  }

  /** The natural loops: blocks 1 to 4 around 1, and in it 2 and 4 around 2. */
  lemma LoopsAre(h: Block, b: Block)
    ensures InLoop(P.Edges(), 0, h, b) <==> (h == 1 && 1 <= b <= 4) || (h == 2 && (b == 2 || b == 4))
  {
    hide Header, ReachesLatch, P;
    HeadersAre(h);
    ReachersExist();
    if ReachesLatch(P.Edges(), 0, h, b) {
      LatchReachers(h, b);
    }
  }

  lemma NotAboveOuter()
    ensures !Dom(P.Edges(), 0, 2, 1)
  {
    PathsFromStart();
    assert 2 !in [0, 1];
  }

  /** The assigned loops of any nest the loop analysis can find. */
  lemma HeadsAre(info: LoopInfo, b: Block)
    requires NestDone(P.Edges(), 0, info)
    ensures b in info.loopOf <==> 1 <= b <= 4
    ensures b in info.loopOf ==>
              HeadOf(info, b) == Some(if b == 1 || b == 3 then 1 else 2) &&
              HeadOf(info, b).value in info.loopOf && info.loopOf[b] == info.loopOf[HeadOf(info, b).value]
  {
    hide NestDone, InLoop, Dom, P;
    AssignedIsInnermost(P.Edges(), 0, info, b);
    LoopsAre(1, b);
    LoopsAre(2, b);
    if b in info.loopOf {
      var h := HeadOf(info, b).value;
      LoopsAre(h, b);
      NotAboveOuter();
      HeadOwnsLoop(P.Edges(), 0, info, b);
    } else if h :| InLoop(P.Edges(), 0, h, b) {
      LoopsAre(h, b);
    }
  }

  lemma MatesAre(info: LoopInfo, u: Block)
    requires NestDone(P.Edges(), 0, info)
    ensures InSameLoop(info, u, 3) <==> u == 1 || u == 3
  {
    hide NestDone, P;
    HeadsAre(info, u);
    HeadsAre(info, 3);
    HeadsAre(info, 1);
  }

  /** The outer loop's own nodes hold its latch only: the inner body is in a subloop. */
  lemma OuterNodes(info: LoopInfo)
    requires NestDone(P.Edges(), 0, info)
    ensures 1 in info.loopOf && info.loopOf[1] < |info.loops| && info.loops[info.loopOf[1]].nodes == {3}
  {
    hide NestDone, BackEdge, P;
    HeadsAre(info, 1);
    HeadersAre(1);
    NodesOfLoop(P.Edges(), 0, info, 1);
    forall b ensures b in info.loops[info.loopOf[1]].nodes <==> b == 3 {
      BackEdgesExactly(b, 1);
      HeadsAre(info, b);
    }
  }

  lemma LoopHeadersAre(info: LoopInfo, g: Block)
    requires NestDone(P.Edges(), 0, info)
    ensures IsLoopHeader(info, g) <==> g == 1 || g == 2
  {
    hide NestDone, Header, P;
    HeaderIsLoopHeader(P.Edges(), 0, info, g);
    HeadersAre(g);
  }

  lemma SourcesAreReached()
    ensures SourcesReached(P.Edges(), 0)
  {
    AllReached();
    BlocksAre();
    hide Reach, P, G;
    forall e | e in P.Edges() ensures Reach(P.Edges(), 0, e.0) {
      EdgesAre(e.0, e.1);
      assert G.blocks[e.0] == e.0;
    }
  }

  lemma LoopsAreRight(info: LoopInfo)
    requires NestDone(P.Edges(), 0, info)
    ensures BackEdgesAgree(P.Edges(), 0, info)
  {
    SourcesAreReached();
    hide NestDone, SourcesReached, P;
    forall b: Block ensures (b, b) !in P.Edges() {
      EdgesAre(b, b);
    }
    NestNamesBackEdges(P.Edges(), 0, info);
  }

  /** There is such a nest, and this is what it looks like. */
  const NEST := LoopInfo(
    [Loop(Some(1), {3}, {1}, true), Loop(Some(2), {4}, {}, true)],
    map[1 := 0, 2 := 1, 3 := 0, 4 := 1])

  lemma NestExists()
    ensures NestDone(P.Edges(), 0, NEST)
  {
    hide Header, InLoop, BackEdge, P;
    forall b ensures AssignedOk(P.Edges(), 0, NEST, {1, 2}, b) {
      NestAssigned(b);
    }
    NestOuter();
    NestInner();
    assert Nested(P.Edges(), 0, NEST, {1, 2});
    forall h ensures Header(P.Edges(), 0, h) <==> h in {1, 2} {
      HeadersAre(h);
    }
    assert AllHeaders(P.Edges(), 0, {1, 2});
  }

  lemma NestAssigned(b: Block)
    ensures AssignedOk(P.Edges(), 0, NEST, {1, 2}, b)
  {
    hide Header, InLoop, Dom, P;
    HeadersAre(b);
    LoopsAre(1, b);
    LoopsAre(2, b);
    DomRefl(P.Edges(), 0, 1);
    DomRefl(P.Edges(), 0, 2);
    Dominance();
    OuterAboveInner();
  }

  lemma OuterAboveInner()
    ensures Dom(P.Edges(), 0, 1, 2)
  {
    hide Dom, InLoop, P;
    LoopsAre(1, 2);
    LoopDominated(P.Edges(), 0, 1, 2);
  }

  lemma NestOuter()
    ensures LoopOk(P.Edges(), 0, NEST, {1, 2}, 0)
  {
    hide Header, InLoop, BackEdge, P;
    HeadersAre(1);
    HeadersAre(2);
    LoopsAre(1, 2);
    forall b ensures BackEdge(P.Edges(), 0, b, 1) <==> b == 3 {
      BackEdgesExactly(b, 1);
    }
    forall m ensures IsSubLoop(P.Edges(), 0, NEST, 1, m) <==> m == 1 {
      OuterSubLoops(m);
    }
  }

  lemma OuterSubLoops(m: LoopId)
    ensures IsSubLoop(P.Edges(), 0, NEST, 1, m) <==> m == 1
  {
    hide Header, InLoop, P;
    HeadersAre(2);
    LoopsAre(1, 2);
    if h :| Header(P.Edges(), 0, h) && h != 1 && InLoop(P.Edges(), 0, 1, h) && h in NEST.loopOf && NEST.loopOf[h] == m {
      HeadersAre(h);
    }
  }

  lemma NestInner()
    ensures LoopOk(P.Edges(), 0, NEST, {1, 2}, 1)
  {
    hide Header, InLoop, BackEdge, P;
    HeadersAre(2);
    forall b ensures BackEdge(P.Edges(), 0, b, 2) <==> b == 4 {
      BackEdgesExactly(b, 2);
    }
    forall m ensures !IsSubLoop(P.Edges(), 0, NEST, 2, m) {
      if h :| Header(P.Edges(), 0, h) && h != 2 && InLoop(P.Edges(), 0, 2, h) {
        HeadersAre(h);
        LoopsAre(2, h);
      }
    }
  }

  // ---------- the line ----------

  /** What has to be scheduled before a block. */
  lemma ForwardIs(info: LoopInfo, v: Block, done: set<Block>)
    requires NestDone(P.Edges(), 0, info)
    ensures ForwardPredsIn(G, info, v, done) <==>
              if v == 1 then 0 in done else if v == 2 || v == 5 then 1 in done
              else if v == 3 || v == 4 then 2 in done else true
  {
    PredsAre(v);
    LoopsAreRight(info);
    hide G, Graph.Preds, IsBackEdge, NestDone, SDom;
    forall u | u in G.Preds(v) ensures IsBackEdge(info, u, v) <==> (u == 3 && v == 1) || (u == 4 && v == 2) {
      EdgesAre(u, v);
      BackEdgesAre(u, v);
    }
    hide P;
  }

  lemma ReadyIs(info: LoopInfo, order: seq<Block>, k: nat, b: Block)
    requires k <= |order| && NestDone(P.Edges(), 0, info)
    ensures ReadyBy(G, info, order, k, b) <==>
              if b == 1 then 0 in order[..k] else if b == 2 || b == 5 then 1 in order[..k]
              else if b == 3 || b == 4 then 2 in order[..k] else true
    ensures ReadyAt(G, info, order, k, b) <==> b <= 5 && b !in order[..k] && ReadyBy(G, info, order, k, b)
  {
    ForwardIs(info, b, Elems(order[..k]));
    BlocksAre();
    assert b <= 5 ==> G.blocks[b] == b;
    hide G, P, ForwardPredsIn, NestDone;
  }

  /** Where a successor is ready, the first ready one comes next. */
  lemma SuccessorNext(info: LoopInfo, order: seq<Block>, k: nat, c: Block)
    requires 0 < k < |order| && RuleAt(G, info, order, k)
    requires |G.Succs(order[k - 1])| > 0 && G.Succs(order[k - 1])[0] == c && ReadyAt(G, info, order, k, c)
    ensures order[k] == c
  {
    hide ReadyAt, NoLater, InSameLoop, G;
    assert c in G.Succs(order[k - 1]);
    assert FirstOf(G, info, order, k, G.Succs(order[k - 1]), order[k]);
  }

  /** The first four blocks of any line that keeps the scheduler's rules. */
  lemma FirstFour(info: LoopInfo, order: seq<Block>)
    requires NestDone(P.Edges(), 0, info)
    requires |order| == 6 && order[0] == 0 && RulesKept(G, info, order)
    ensures order[..4] == [0, 1, 2, 3]
  {
    hide RuleAt, ReadyAt, ReadyBy, G, Graph.Succs, P, NestDone;
    SuccsAre(0); SuccsAre(1); SuccsAre(2);
    ReadyIs(info, order, 1, 1);
    assert order[..1] == [0];
    SuccessorNext(info, order, 1, 1);
    ReadyIs(info, order, 2, 2);
    assert order[..2] == [0, 1];
    SuccessorNext(info, order, 2, 2);
    ReadyIs(info, order, 3, 3);
    assert order[..3] == [0, 1, 2];
    SuccessorNext(info, order, 3, 3);
  }

  /** Block 5 has been ready since block 1 was scheduled, block 4 only since block 2. */
  lemma ExitComesFirst(info: LoopInfo, order: seq<Block>)
    requires NestDone(P.Edges(), 0, info)
    requires |order| == 6 && order[..4] == [0, 1, 2, 3] && RuleAt(G, info, order, 4)
    ensures order[4] == 5
  {
    SuccsAre(3);
    forall u ensures InSameLoop(info, u, 3) <==> u == 1 || u == 3 {
      MatesAre(info, u);
    }
    forall c ensures ReadyAt(G, info, order, 4, c) <==> c == 4 || c == 5 {
      ReadyIs(info, order, 4, c);
    }
    assert order[..2] == [0, 1] by {
      assert order[..4][..2] == order[..2];
    }
    ReadyIs(info, order, 2, 5);
    ReadyIs(info, order, 2, 4);
    hide ReadyAt, ReadyBy, InSameLoop, G, Graph.Succs, P, NestDone;
    assert order[3] == order[..4][3] == 3;
    assert NoLater(G, info, order, 4, order[4], 5);
  }

  /** Every line that keeps the scheduler's rules is this one: the scheduler has no other choice. */
  lemma OnlyOrder(info: LoopInfo, order: seq<Block>)
    requires NestDone(P.Edges(), 0, info)
    requires Permutes(G.blocks, 0, order) && RulesKept(G, info, order)
    ensures order == ORDER
  {
    BlocksAre();
    hide RuleAt, G, P, NestDone;
    FirstFour(info, order);
    ExitComesFirst(info, order);
    LastIsLeft(order);
  }

  lemma LastIsLeft(order: seq<Block>)
    requires |order| == 6 && Distinct(order) && (forall b :: b in order ==> b <= 5)
    requires order[..4] == [0, 1, 2, 3] && order[4] == 5
    ensures order == [0, 1, 2, 3, 5, 4]
  {
    assert order[..4][0] == order[0] && order[..4][1] == order[1] && order[..4][2] == order[2] &&
           order[..4][3] == order[3];
    assert order[5] in order;
    assert order[0] != order[5] && order[1] != order[5] && order[2] != order[5] && order[3] != order[5] &&
           order[4] != order[5];
  }

  lemma SuccsAre(u: Block)
    ensures G.Succs(u) ==
              if u == 0 || u == 3 then [1] else if u == 1 then [2, 5] else if u == 2 then [3, 4]
              else if u == 4 then [2] else []
    ensures u in G.succs <==> u <= 5
  {
  }

  lemma PredsAre(v: Block)
    ensures G.Preds(v) ==
              if v == 1 then [0, 3] else if v == 2 then [1, 4] else if v == 3 || v == 4 then [2]
              else if v == 5 then [1] else []
  {
  }

  lemma BlocksAre()
    ensures G.blocks == [0, 1, 2, 3, 4, 5]
  {
  }

  lemma GraphIsClosed()
    ensures G.Closed() && P.NoParallelEdges()
  {
    assert P.g == G;
    BlocksAre();
    hide G, P, Graph.Succs, Graph.Preds;
    forall u: Block | u in G.succs ensures u in G.blocks {
      SuccsAre(u);
      assert G.blocks[u] == u;
    }
    forall u: Block, v: Block | v in G.Succs(u) ensures v in G.blocks {
      SuccsAre(u);
      assert v <= 5 && G.blocks[v] == v;
    }
    forall b: Block ensures Distinct(G.Preds(b)) {
      PredsAre(b);
    }
  }

  lemma PredCounts(u: Block, v: Block)
    ensures multiset(G.Preds(v))[u] ==
            if (u == 0 && v == 1) || (u == 1 && (v == 2 || v == 5)) || (u == 2 && (v == 3 || v == 4)) ||
               (u == 3 && v == 1) || (u == 4 && v == 2) then 1 else 0
  {
    hide G, Graph.Preds;
    PredsAre(v);
    CountTwo(0, 3, u);
    CountTwo(1, 4, u);
    CountTwo(1, 2, u);
    CountTwo(2, 1, u);
  }

  lemma SuccCounts(u: Block, v: Block)
    ensures multiset(G.Succs(u))[v] ==
            if (u == 0 && v == 1) || (u == 1 && (v == 2 || v == 5)) || (u == 2 && (v == 3 || v == 4)) ||
               (u == 3 && v == 1) || (u == 4 && v == 2) then 1 else 0
  {
    hide G, Graph.Succs;
    SuccsAre(u);
    CountTwo(2, 5, v);
    CountTwo(3, 4, v);
    CountTwo(1, 2, v);
    CountTwo(2, 1, v);
  }

  lemma BodyIs(b: Block)
    ensures P.Phis(b) == []
    ensures P.Body(b) == if b == 0 then [10] else if b == 1 then [11] else if b == 4 then [12, 13] else []
    ensures b in P.phis || b in P.body ==> b in P.g.blocks
  {
  }

  lemma CodeIs(v: Id)
    ensures v in P.code <==> 10 <= v <= 13
    ensures v in P.code ==> !P.code[v].opcode.Phi? && P.code[v].bb == if v == 10 then 0 else if v == 11 then 1 else 4
  {
  }

  lemma InstructionsPlaced()
    ensures P.Placed()
  {
    hide P, Prog.Phis, Prog.Body;
    forall b, v | v in P.Body(b) ensures v in P.code && P.code[v].bb == b && !P.code[v].opcode.Phi? {
      BodyIs(b);
      CodeIs(v);
    }
    forall v | v in P.code ensures v in P.Body(P.code[v].bb) && !P.code[v].opcode.Phi? {
      CodeIs(v);
      BodyIs(P.code[v].bb);
    }
    forall b ensures P.Phis(b) == [] && Distinct(P.Body(b)) && (b in P.phis || b in P.body ==> b in P.g.blocks) {
      BodyIs(b);
    }
  }

  lemma UsesAvailable(b: Block, k: nat, x: Id)
    requires k < |P.Body(b)| && x in P.Inputs(P.Body(b)[k])
    ensures P.Available(0, x, b, k)
  {
    Dominance();
    assert (b == 1 && k == 0 && x == 10) || (b == 4 && k == 1 && x == 12);
    if b == 4 {
      assert P.Body(4)[..1] == [12];
    }
  }

  lemma ProgramIsSsa()
    ensures P.Ssa(0) && P.NoParallelEdges() && G.Closed() && G.Mirrored()
  {
    GraphIsClosed();
    InstructionsPlaced();
    hide Prog.Available, Prog.Placed, Graph.Closed, Prog.NoParallelEdges;
    forall b, k, x | 0 <= k < |P.Body(b)| && x in P.Inputs(P.Body(b)[k]) ensures P.Available(0, x, b, k) {
      UsesAvailable(b, k, x);
    }
    forall u: Block, v: Block ensures multiset(G.Preds(v))[u] == multiset(G.Succs(u))[v] {
      PredCounts(u, v);
      SuccCounts(u, v);
    }
  }

  lemma OrderIsForward()
    ensures ForwardOrdered(P.Edges(), 0, ORDER)
  {
    var es := P.Edges();
    forall u: Block, v: Block | (u, v) in es && !SDom(es, 0, v, u) ensures Precedes(ORDER, u, v) {
      EdgesAre(u, v);
      BackEdgesAre(u, v);
      EdgeGoesOn(u, v);
    }
  }

  lemma EdgeGoesOn(u: Block, v: Block)
    requires (u == 0 && v == 1) || (u == 1 && (v == 2 || v == 5)) || (u == 2 && (v == 3 || v == 4))
    ensures Precedes(ORDER, u, v)
  {
    assert ORDER[0] == 0 && ORDER[1] == 1 && ORDER[2] == 2 && ORDER[3] == 3 && ORDER[4] == 5 && ORDER[5] == 4;
  }

  lemma DominatorFirst(d: Block, b: Block)
    requires b in ORDER && SDom(P.Edges(), 0, d, b)
    ensures Precedes(ORDER, d, b)
  {
    PathsFromStart();
    assert ORDER[0] == 0 && ORDER[1] == 1 && ORDER[2] == 2 && ORDER[3] == 3 && ORDER[4] == 5 && ORDER[5] == 4;
    assert d in [0] || d in [0, 1] || d in [0, 1, 2] || d in [0, 1, 5] || d in [0, 1, 2, 3] || d in [0, 1, 2, 4];
  }

  lemma OrderIsLegal()
    ensures DominatorsFirst(P.Edges(), 0, ORDER) && Distinct(ORDER) && forall b :: b in ORDER <==> b in G.blocks
  {
    OrderIndex();
    hide P, Dom;
    forall d, b | b in ORDER && SDom(P.Edges(), 0, d, b) ensures Precedes(ORDER, d, b) {
      DominatorFirst(d, b);
    }
  }

  lemma GraphIsTame()
    ensures Tame(P.Edges(), 0) && ForwardOrdered(P.Edges(), 0, ORDER)
  {
    OrderIndex();
    OrderIsForward();
    hide P, Dom, ForwardOrdered;
    OrderedIsReducible(P.Edges(), 0, ORDER);
    forall b: Block ensures (b, b) !in P.Edges() {
      EdgesAre(b, b);
    }
  }

  /** The program and the line meet the hypotheses of the pass, with any nest the loop analysis can find. */
  lemma LineIsLegal(info: LoopInfo)
    requires NestDone(P.Edges(), 0, info)
    ensures Lined(P, 0, ORDER) && Tame(P.Edges(), 0)
    ensures BackEdgesAgree(P.Edges(), 0, info) && ForwardOrdered(P.Edges(), 0, ORDER)
  {
    ProgramIsSsa();
    OrderIsLegal();
    GraphIsTame();
    LoopsAreRight(info);
    AllReached();
    assert P.g == G;
    hide P, G, Prog.Ssa, Prog.NoParallelEdges, Graph.Closed, Graph.Mirrored, ForwardOrdered, BackEdgesAgree, Reach;
    hide Dom, DominatorsFirst, Tame;
  }

  lemma AllReached()
    ensures forall b :: b in G.blocks ==> Reach(P.Edges(), 0, b)
  {
    PathsFromStart();
  }

  // ---------- the missed value ----------

  lemma NoPhis(b: Block)
    ensures PhiOut(P, b) == {}
  {
  }

  /** Only block 1 reads value 10. */
  lemma OnlyReader(b: Block)
    ensures ReadFrom(P, b, 10) <==> b == 1
  {
    NoPhis(b);
    if b == 1 {
      assert P.Body(1)[0] == 11 && P.Inputs(11)[0] == 10;
      assert 10 in P.Inputs(P.Body(1)[0]);
    } else {
      forall m | 0 <= m < |P.Body(b)| ensures 10 !in P.Inputs(P.Body(b)[m]) {
        assert P.Body(b)[m] in {10, 12, 13};
      }
    }
  }

  /** Going forward from block 2 one never gets to block 1. */
  lemma NotForwardLive()
    ensures !ForwardLive(P, 0, 2, 10)
  {
    if f :| ForwardLivePath(P, 0, f, 10) && f[0] == 2 {
      hide P, LivePath, Dom;
      var es := Forward(P.Edges(), 0);
      forall u: Block, v: Block | u in {2, 3, 4} && v in f && (u, v) in es ensures v in {2, 3, 4} {
        EdgesAre(u, v);
        BackEdgesAre(u, v);
      }
      ClosedSetHoldsPath(es, f, {2, 3, 4});
      EndRead(f);
    }
  }

  lemma EndRead(f: seq<Block>)
    requires LivePath(P, f, 10)
    ensures 1 in f
  {
    hide P, ReadFrom, Defs;
    OnlyReader(f[|f| - 1]);
  }

  lemma LiveAtOuterHeader()
    ensures LivePath(P, [1], 10) && ForwardLive(P, 0, 1, 10)
  {
    PathSingle(P.Edges(), 1);
    PathSingle(Forward(P.Edges(), 0), 1);
    OnlyReader(1);
    hide ReadFrom, Dom;
    assert LivePath(P, [1], 10);
    assert ForwardLivePath(P, 0, [1], 10);
  }

  lemma ReadEarlier(lay: Layout, c: Block)
    requires lay.order == ORDER && c in lay.order && ReadFrom(P, c, 10)
    ensures lay.Index(c) <= lay.Index(4)
  {
    OrderIndex();
    hide P, ReadFrom;
    OnlyReader(c);
  }

  /** The outer loop is taken to end with its latch, block 3. */
  lemma OuterEndsEarly(info: LoopInfo, lay: Layout)
    requires NestDone(P.Edges(), 0, info) && lay.order == ORDER && Numbered(P, lay)
    ensures LoopEnd(lay, info, 1) == lay.End(3) < lay.End(4)
  {
    OrderIndex();
    hide P, NestDone, Numbered;
    OuterNodes(info);
    LaterBlock(P, lay, 3, 4);
    BlockPositions(P, lay, 4);
    assert IsMaxEnd(lay, {3}, MaxEnd(lay, {3}));
  }

  /** Nothing carries value 10 over the end of block 4. */
  lemma NotCarried(info: LoopInfo, lay: Layout)
    requires NestDone(P.Edges(), 0, info) && lay.order == ORDER && Numbered(P, lay)
    ensures !Carried(P, 0, info, lay, 4, 10)
  {
    hide *;
    forall c | c in lay.order && ReadFrom(P, c, 10) ensures lay.Index(c) <= lay.Index(4) {
      ReadEarlier(lay, c);
    }
    forall g | g in lay.order && IsLoopHeader(info, g) && ForwardLive(P, 0, g, 10)
      ensures LoopEnd(lay, info, g) < lay.End(4)
    {
      LoopHeadersAre(info, g);
      NotForwardLive();
      OuterEndsEarly(info, lay);
    }
    NoPhis(4);
    NotCarriedBy(P, 0, info, lay, 4, 10);
  }

  lemma ExampleAnalyzed(info: LoopInfo, lay: Layout, li: map<Block, set<Id>>, ranges: map<Id, LiveRange>)
    requires NestDone(P.Edges(), 0, info) && lay.order == ORDER && Numbered(P, lay)
    requires LiveInsInv(P, 0, ORDER, li, 0) && RangesInv(P, lay, info, li, 0, ranges)
    ensures Analyzed(P, 0, info, lay, li, ranges)
  {
    LineIsLegal(info);
    hide NestDone, P, LiveInsInv, RangesInv, Lined, ForwardOrdered, Tame, BackEdgesAgree, Numbered;
  }

  /** The pass, run on this program and line with any nest the loop analysis can find, leaves value 10 out of a
      point where it is live: the end of the inner body, from where control returns to block 1, which reads it. */
  lemma LiveValueMissed(info: LoopInfo, lay: Layout, li: map<Block, set<Id>>, ranges: map<Id, LiveRange>)
    requires NestDone(P.Edges(), 0, info) && lay.order == ORDER && Numbered(P, lay)
    requires LiveInsInv(P, 0, ORDER, li, 0) && RangesInv(P, lay, info, li, 0, ranges)
    ensures Analyzed(P, 0, info, lay, li, ranges) && !LoopsCarried(P, 0, info, lay)
    ensures LiveAt(P, 4, 2, 10) && !Holds(ranges, 10, PointPos(lay, 4, 2)) && !Sound(P, lay, ranges)
  {
    hide *;
    ExampleAnalyzed(info, lay, li, ranges);
    LoopsAre(1, 4);
    LiveAtOuterHeader();
    NotCarried(info, lay);
    BodyIs(4);
    NotCarriedMissed(P, 0, info, lay, li, ranges, 1, 4, 10);
  }

  lemma ExampleCompilable()
    ensures Compilable(P, 0) && P.g == G
  {
    ProgramIsSsa();
    GraphIsTame();
    AllReached();
    BlocksAre();
    assert P.g == G;
    hide P, G, Prog.Ssa, Prog.NoParallelEdges, Graph.Closed, Graph.Mirrored, Reach, Tame;
    assert G.blocks[0] == 0;
  }

  lemma ExampleFacts(info: LoopInfo, lay: Layout, li: map<Block, set<Id>>, ranges: map<Id, LiveRange>)
    requires Analyzed(P, 0, info, lay, li, ranges)
    ensures Numbered(P, lay) && LiveInsInv(P, 0, lay.order, li, 0) && RangesInv(P, lay, info, li, 0, ranges)
  {
    hide P, Numbered, LiveInsInv, RangesInv, Lined, Tame, BackEdgesAgree, ForwardOrdered;
  }

  // ---------- the place that stays held ----------

  /** Blocks 0 and 1 end before block 3, and block 4 comes after it. */
  lemma Tiles(lay: Layout)
    requires lay.order == ORDER && Numbered(P, lay)
    ensures lay.End(0) < lay.End(3) && lay.End(1) < lay.End(3) && lay.Start(1) < lay.End(3)
    ensures lay.End(3) <= lay.Start(4)
  {
    OrderIndex();
    hide P, Numbered;
    LaterBlock(P, lay, 0, 3);
    LaterBlock(P, lay, 1, 3);
    LaterBlock(P, lay, 3, 4);
    BlockPositions(P, lay, 1);
    BlockPositions(P, lay, 3);
  }

  /** No instruction stands at the end of block 3. */
  lemma NothingStandsThere(lay: Layout, v: Id)
    requires lay.order == ORDER && Numbered(P, lay) && v in Stream(P, lay.order, |lay.order|)
    ensures LiveOf(lay.live, v) != lay.End(3)
  {
    StreamMember(P, lay.order, |lay.order|, v);
    var i :| 0 <= i < |lay.order| && (v in P.Phis(lay.order[i]) || v in P.Body(lay.order[i]));
    var b := lay.order[i];
    BodyIs(b);
    Tiles(lay);
    hide P, Numbered, Stream, Prog.Phis, Prog.Body;
    BlockPositions(P, lay, b);
    var m := FirstIndex(P.Body(b), v);
    assert lay.Live(P.Body(b)[m]) == lay.Start(b) + 2 * m + 2;
  }

  /** The pass stretches value 10 to the end of block 3. */
  lemma OuterStretch(info: LoopInfo, lay: Layout, li: map<Block, set<Id>>, ranges: map<Id, LiveRange>)
    requires NestDone(P.Edges(), 0, info) && lay.order == ORDER && Analyzed(P, 0, info, lay, li, ranges)
    ensures Spans(ranges, 10, Lo(P, lay, 1, 10), lay.End(3)) && Lo(P, lay, 1, 10) < lay.End(3)
  {
    ExampleFacts(info, lay, li, ranges);
    LoopHeadersAre(info, 1);
    LiveAtOuterHeader();
    LiveInExactly(P, 0, lay.order, li, 1, 10);
    OuterEndsEarly(info, lay);
    Tiles(lay);
    CodeIs(10);
    BodyIs(1);
    hide P, Analyzed, Numbered, IsLoopHeader, LoopEnd, NestDone, Prog.Body;
    assert Asks(P, lay, info, li, 1, 10, lay.End(3));
    AskSpanned(P, 0, info, lay, li, ranges, 1, 10, lay.End(3));
  }

  /** Nothing stretches it further. */
  lemma EndOfTen(info: LoopInfo, lay: Layout, li: map<Block, set<Id>>, ranges: map<Id, LiveRange>, b: Block, hi: nat)
    requires NestDone(P.Edges(), 0, info) && lay.order == ORDER && Analyzed(P, 0, info, lay, li, ranges)
    requires b in lay.order && EndFrom(P, lay, info, li, b, 10, hi)
    ensures hi <= lay.End(3)
  {
    hide *;
    ExampleFacts(info, lay, li, ranges);
    Tiles(lay);
    EndCases(P, lay, info, li, b, 10, hi);
    if 10 in Out(P, lay.order, li, b) && hi == lay.End(b) {
      OutOfTen(info, lay, li, ranges, b);
    } else if UsedAt(P, lay, b, 0, 10, hi) {
      UseOfTen(lay, b, hi);
    } else if 10 in P.Body(b) && hi == lay.Live(10) {
      DefinitionOfTen(lay, b);
    } else {
      LoopHeadersAre(info, b);
      OuterEndsEarly(info, lay);
      HeaderOfTen(info, lay, li, ranges, b);
    }
  }

  lemma DefinitionOfTen(lay: Layout, b: Block)
    requires lay.order == ORDER && Numbered(P, lay) && b in lay.order && 10 in P.Body(b)
    ensures lay.Live(10) < lay.End(3)
  {
    Tiles(lay);
    BodyIs(b);
    hide P, Numbered, Prog.Body;
    BlockPositions(P, lay, b);
    assert P.Body(b)[0] == 10;
  }

  lemma HeaderOfTen(info: LoopInfo, lay: Layout, li: map<Block, set<Id>>, ranges: map<Id, LiveRange>, b: Block)
    requires lay.order == ORDER && Analyzed(P, 0, info, lay, li, ranges)
    requires b in lay.order && b in li && 10 in li[b]
    ensures b != 2
  {
    NotForwardLive();
    hide P, Numbered, LiveInsInv, RangesInv, Lined, Tame, BackEdgesAgree, ForwardOrdered, ForwardLive;
    LiveInExactly(P, 0, lay.order, li, b, 10);
  }

  lemma OutOfTen(info: LoopInfo, lay: Layout, li: map<Block, set<Id>>, ranges: map<Id, LiveRange>, b: Block)
    requires lay.order == ORDER && Analyzed(P, 0, info, lay, li, ranges)
    requires b in lay.order && 10 in Out(P, lay.order, li, b)
    ensures b == 0
  {
    NoPhis(b);
    OrderIndex();
    hide P, PhiOut, Out, ReadFrom, LiveInsInv, RangesInv, Lined, ForwardOrdered, Tame, BackEdgesAgree, Numbered;
    OutIsRead(P, 0, lay.order, li, b, 10);
    var e :| e in lay.order && FirstIndex(lay.order, b) < FirstIndex(lay.order, e) && ReadFrom(P, e, 10);
    OnlyReader(e);
  }

  lemma UseOfTen(lay: Layout, b: Block, hi: nat)
    requires lay.order == ORDER && Numbered(P, lay) && b in lay.order && UsedAt(P, lay, b, 0, 10, hi)
    ensures hi < lay.End(3)
  {
    Tiles(lay);
    OnlyReader(b);
    hide P, Numbered, PhiOut;
    BlockPositions(P, lay, b);
    var m :| 0 <= m < |P.Body(b)| && 10 in P.Inputs(P.Body(b)[m]) && hi == lay.Live(P.Body(b)[m]);
    assert 10 in UsesFrom(P, b, 0);
  }

  lemma TenListed(lay: Layout)
    requires lay.order == ORDER
    ensures 10 in Stream(P, lay.order, |lay.order|)
  {
    BodyIs(0);
    assert lay.order[0] == 0 && 10 in P.Body(lay.order[0]);
    hide P, Stream, Prog.Body;
    StreamMember(P, lay.order, |lay.order|, 10);
  }

  /** The range of value 10 ends with block 3, where its death is looked up by no instruction. */
  lemma NeverFreed(info: LoopInfo, lay: Layout, li: map<Block, set<Id>>, ranges: map<Id, LiveRange>)
    requires NestDone(P.Edges(), 0, info) && lay.order == ORDER && Analyzed(P, 0, info, lay, li, ranges)
    ensures !AllPassed(lay.live, ranges, Stream(P, lay.order, |lay.order|))
  {
    hide *;
    ExampleFacts(info, lay, li, ranges);
    OuterStretch(info, lay, li, ranges);
    TenListed(lay);
    SpansAre(ranges, 10, Lo(P, lay, 1, 10), lay.End(3));
    var b := EndAttained(P, lay, info, li, ranges, 10);
    EndOfTen(info, lay, li, ranges, b, ranges[10].range.1);
    forall v | v in Stream(P, lay.order, |lay.order|) ensures LiveOf(lay.live, v) != lay.End(3) {
      NothingStandsThere(lay, v);
    }
    NeverPassed(lay.live, ranges, Stream(P, lay.order, |lay.order|), 10);
  }

  lemma SpansAre(ranges: map<Id, LiveRange>, v: Id, lo: nat, hi: nat)
    requires Spans(ranges, v, lo, hi)
    ensures v in ranges && ranges[v].isRangeSet && ranges[v].range.0 <= lo && hi <= ranges[v].range.1
  {
  }

  /** The whole chain of analyses, run on this program with any registers, schedules this line, misses the value and
      still holds a place at the end. */
  method ChainMisses(registers: seq<Place>, nextId: nat)
    returns (alloc: Allocation, lay: Layout, ranges: map<Id, LiveRange>, ghost held: set<Place>)
    requires Distinct(registers) && forall r :: r in registers ==> r.isReg
    ensures lay.order == ORDER && LiveAt(P, 4, 2, 10) && !Holds(ranges, 10, PointPos(lay, 4, 2))
    ensures held != {}
  {
    hide *;
    ExampleCompilable();
    var info: LoopInfo;
    ghost var li, places;
    alloc, info, lay, ranges, li, places, held := AllocateGraph(P, 0, registers, nextId);
    OnlyOrder(info, lay.order);
    ExampleFacts(info, lay, li, ranges);
    LiveValueMissed(info, lay, li, ranges);
    NeverFreed(info, lay, li, ranges);
  }
}
