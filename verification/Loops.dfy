/** Back-edge collection and the loop nest (Analyzers/loopAnalyzer.cpp, Analyzers/loopAnalyzer.h). */
module Loops {
  import opened Util
  import opened Cfg
  import opened Rpo
  import opened Dominators
  import opened NaturalLoops

  type LoopId = nat

  /** A loop record; its identity is its position in the analyzer's list of loops. */
  datatype Loop = Loop(head: Option<Block>, nodes: set<Block>, subLoops: set<LoopId>, reducible: bool) {
    function AddNode(b: Block): Loop {
      this.(nodes := nodes + {b})
    }

    function AddSubLoop(l: LoopId): Loop {
      this.(subLoops := subLoops + {l})
    }
  }

  /** The loop field of every block, and the loops. */
  datatype LoopInfo = LoopInfo(loops: seq<Loop>, loopOf: map<Block, LoopId>) {
    ghost predicate IdsOk() {
      forall b :: b in loopOf ==> loopOf[b] < |loops|
    }
  }

  /** Every block that has a successor is reachable. */
  ghost predicate SourcesReached(es: Edges, s: Block) {
    forall e :: e in es ==> Reach(es, s, e.0)
  }

  ghost predicate Tame(es: Edges, s: Block) {
    Reducible(es, s) && NoSelfEdges(es)
  }

  // ---------- first phase: back edges ----------

  ghost predicate CollectInv(g: Graph, s: Block, stack: seq<Block>, grey: set<Block>, black: set<Block>,
                             log: seq<Classified>)
  {
    var es := g.AllEdges();
    && grey == Elems(stack) && grey !! black
    && (forall u :: u in black ==> Reach(es, s, u))
    && (forall u, v :: u in black && v in g.Succs(u) ==> v in black || v in grey)
    && (forall e :: e in log ==> e.1 in g.Succs(e.0))
    && (forall u: Block, h: Block :: (u, h, true) in log ==> BackEdge(es, s, u, h))
    && (forall u: Block, h: Block :: u in black && BackEdge(es, s, u, h) ==> (u, h, true) in log)
  }

  /** The loops, the loop fields and the two lists of loops. */
  datatype Table = Table(info: LoopInfo, red: seq<LoopId>, irr: seq<LoopId>)

  /** What examining the edge from `u` to the grey block `h` does to the table; `back` says that
      `h` is a recorded dominator of `u`. */
  function Classify(t: Table, u: Block, h: Block, back: bool): (r: Table)
    requires t.info.IdsOk()
    ensures r.info.IdsOk()
  {
    var loops, loopOf, n := t.info.loops, t.info.loopOf, |t.info.loops|;
    if back then
      if h in loopOf then
        Table(LoopInfo(loops[loopOf[h] := loops[loopOf[h]].AddNode(u)], loopOf), t.red, t.irr)
      else
        Table(LoopInfo(loops + [Loop(Some(h), {u}, {}, true)], loopOf[h := n]), t.red + [n], t.irr)
    else if h in loopOf then
      if u in loopOf then t
      else Table(LoopInfo(loops[loopOf[h] := loops[loopOf[h]].AddNode(u)], loopOf[u := loopOf[h]]), t.red, t.irr)
    else if u in loopOf then
      Table(LoopInfo(loops[loopOf[u] := loops[loopOf[u]].AddNode(h)], loopOf[h := loopOf[u]]), t.red, t.irr)
    else
      Table(LoopInfo(loops + [Loop(None, {h, u}, {}, false)], loopOf[h := n][u := n]), t.red, t.irr + [n])
  }

  /** What an edge to a grey block that does not dominate makes of the table: blocks that have a loop keep it, ends
      that have none join the loop of the other end, as nodes, and two ends without loops get a new one that is
      irreducible and has no head.  Ends that are in two loops already stay in them. */
  ghost predicate Merged(t: Table, t': Table, u: Block, h: Block)
    requires t.info.IdsOk() && t'.info.IdsOk()
  {
    var loops, loopOf, loops', loopOf' := t.info.loops, t.info.loopOf, t'.info.loops, t'.info.loopOf;
    && loopOf'.Keys == loopOf.Keys + {u, h}
    && (forall b :: b in loopOf ==> loopOf'[b] == loopOf[b])
    && (loopOf'[u] == loopOf'[h] <==> !(u in loopOf && h in loopOf && loopOf[u] != loopOf[h]))
    && |loops'| == |loops| + (if u in loopOf || h in loopOf then 0 else 1)
    && (forall l: nat :: l < |loops| ==>
          loops'[l] == loops[l].(nodes := loops[l].nodes + set b | b in {u, h} && b !in loopOf && loopOf'[b] == l))
    && (|loops'| > |loops| ==>
          loops'[|loops|] == Loop(None, {u, h}, {}, false) && loopOf'[u] == |loops| && t'.irr == t.irr + [|loops|])
    && (|loops'| == |loops| ==> t'.irr == t.irr)
    && t'.red == t.red
  }

  lemma MergeOutcome(t: Table, u: Block, h: Block)
    requires t.info.IdsOk()
    ensures Merged(t, Classify(t, u, h, false), u, h)
  {
    var t' := Classify(t, u, h, false);
    var loops, loopOf, loops', loopOf' := t.info.loops, t.info.loopOf, t'.info.loops, t'.info.loopOf;
    assert {h, u} == {u, h};
    forall l: nat | l < |loops|
      ensures loops'[l] == loops[l].(nodes := loops[l].nodes + set b | b in {u, h} && b !in loopOf && loopOf'[b] == l)
    {
      var joined := set b | b in {u, h} && b !in loopOf && loopOf'[b] == l;
      if u !in loopOf && h in loopOf && loopOf[h] == l {
        assert joined == {u};
      } else if h !in loopOf && u in loopOf && loopOf[u] == l {
        assert joined == {h};
      } else {
        assert joined == {};
        assert loops[l].nodes + {} == loops[l].nodes;
      }
    }
  }

  /** On any graph: the two lists hold the loops with a head, which are reducible, and those without, a head is in
      its own loop, and every other block with a loop is one of its nodes. */
  ghost predicate TableOk(t: Table) {
    var loops, loopOf := t.info.loops, t.info.loopOf;
    && t.info.IdsOk()
    && (forall l: nat :: l in t.red <==> l < |loops| && loops[l].head.Some?)
    && (forall l: nat :: l in t.irr <==> l < |loops| && loops[l].head.None?)
    && (forall l: nat :: l < |loops| ==> loops[l].reducible == loops[l].head.Some?)
    && (forall l: nat :: l < |loops| && loops[l].head.Some? ==>
          loops[l].head.value in loopOf && loopOf[loops[l].head.value] == l)
    && (forall b :: b in loopOf ==> loops[loopOf[b]].head == Some(b) || b in loops[loopOf[b]].nodes)
  }

  lemma ClassifyKeepsTable(t: Table, u: Block, h: Block, back: bool)
    requires TableOk(t)
    ensures TableOk(Classify(t, u, h, back))
    ensures h in Classify(t, u, h, back).info.loopOf && (back || u in Classify(t, u, h, back).info.loopOf)
    ensures forall b :: b in t.info.loopOf ==>
              b in Classify(t, u, h, back).info.loopOf && Classify(t, u, h, back).info.loopOf[b] == t.info.loopOf[b]
  {
    if back {
      BackKeepsTable(t, u, h);
    } else {
      MergeOutcome(t, u, h);
      hide Classify;
      MergeKeepsTable(t, Classify(t, u, h, false), u, h);
    }
  }

  lemma BackKeepsTable(t: Table, u: Block, h: Block)
    requires TableOk(t)
    ensures TableOk(Classify(t, u, h, true)) && h in Classify(t, u, h, true).info.loopOf
    ensures forall b :: b in t.info.loopOf ==>
              b in Classify(t, u, h, true).info.loopOf && Classify(t, u, h, true).info.loopOf[b] == t.info.loopOf[b]
  {
  }

  lemma MergeKeepsTable(t: Table, t': Table, u: Block, h: Block)
    requires TableOk(t) && t'.info.IdsOk() && Merged(t, t', u, h)
    ensures TableOk(t') && h in t'.info.loopOf && u in t'.info.loopOf
    ensures forall b :: b in t.info.loopOf ==> b in t'.info.loopOf && t'.info.loopOf[b] == t.info.loopOf[b]
  {
    assert h in t'.info.loopOf.Keys && u in t'.info.loopOf.Keys;
    forall b | b in t.info.loopOf ensures b in t'.info.loopOf {
      assert b in t'.info.loopOf.Keys;
    }
  }

  /** A classified edge: source, target, and whether it was taken as a reducible back edge. */
  type Classified = (Block, Block, bool)

  ghost function Replay(log: seq<Classified>): (t: Table)
    ensures t.info.IdsOk()
  {
    if log == [] then Table(LoopInfo([], map[]), [], [])
    else
      var e := log[|log| - 1];
      Classify(Replay(log[..|log| - 1]), e.0, e.1, e.2)
  }

  /** Whatever edges are met, in whatever order, the table stays in order, and both ends of every edge that is not
      taken as a back edge have a loop. */
  lemma {:induction false} ReplayKeepsTable(log: seq<Classified>)
    ensures TableOk(Replay(log))
    ensures forall e :: e in log ==> e.1 in Replay(log).info.loopOf && (e.2 || e.0 in Replay(log).info.loopOf)
  {
    hide Classify, TableOk;
    if log == [] {
      NothingClassified();
    } else {
      var n := |log| - 1;
      ReplayKeepsTable(log[..n]);
      ClassifyKeepsTable(Replay(log[..n]), log[n].0, log[n].1, log[n].2);
      assert log == log[..n] + [log[n]];
    }
  }

  lemma NothingClassified()
    ensures TableOk(Table(LoopInfo([], map[]), [], []))
  {
  }

  ghost function Found(log: seq<Classified>): Edges {
    set e | e in log && e.2 :: (e.0, e.1)
  }

  ghost predicate AllBack(log: seq<Classified>) {
    forall e :: e in log ==> e.2
  }

  lemma ReplayAppend(log: seq<Classified>, e: Classified)
    ensures Replay(log + [e]) == Classify(Replay(log), e.0, e.1, e.2)
    ensures AllBack(log) && e.2 ==> AllBack(log + [e])
  {
    assert (log + [e])[..|log|] == log;
  }

  /** When every classified edge is a back edge there is one loop per header, with its latches. */
  lemma {:induction false} ReplayMatches(log: seq<Classified>)
    requires AllBack(log)
    ensures LoopsMatch(Replay(log), Found(log))
  {
    if log == [] {
      assert Found(log) == {};
    } else {
      var n := |log| - 1;
      var e, t := log[n], Replay(log[..n]);
      assert log == log[..n] + [e];
      ReplayMatches(log[..n]);
      assert Found(log) == Found(log[..n]) + {(e.0, e.1)};
      if e.1 in t.info.loopOf {
        LoopsMatchAdd(t, Found(log[..n]), e.0, e.1);
      } else {
        LoopsMatchNew(t, Found(log[..n]), e.0, e.1);
      }
    }
  }

  ghost function LatchesIn(found: Edges, h: Block): set<Block> {
    set e | e in found && e.1 == h :: e.0
  }

  /** One reducible loop per header found so far, holding the header's latches. */
  ghost predicate LoopsMatch(t: Table, found: Edges) {
    var info := t.info;
    && (forall b :: b in info.loopOf <==> exists u :: (u, b) in found)
    && (forall b :: b in info.loopOf ==>
          && info.loopOf[b] < |info.loops|
          && info.loops[info.loopOf[b]] == Loop(Some(b), LatchesIn(found, b), {}, true))
    && (forall l :: 0 <= l < |info.loops| ==>
          info.loops[l].head.Some? && info.loops[l].head.value in info.loopOf &&
            info.loopOf[info.loops[l].head.value] == l)
    && t.red == seq(|info.loops|, i => i)
    && t.irr == []
  }

  lemma LoopsMatchNew(t: Table, found: Edges, u: Block, h: Block)
    requires t.info.IdsOk() && LoopsMatch(t, found) && h !in t.info.loopOf
    ensures LoopsMatch(Classify(t, u, h, true), found + {(u, h)})
  {
    var info, found' := t.info, found + {(u, h)};
    forall e | e in found ensures e.1 != h {
      assert (e.0, e.1) in found;
    }
    assert LatchesIn(found', h) == {u} by {
      assert (u, h) in found';
    }
    forall b | b in info.loopOf ensures LatchesIn(found', b) == LatchesIn(found, b) {
    }
  }

  lemma LoopsMatchAdd(t: Table, found: Edges, u: Block, h: Block)
    requires t.info.IdsOk() && LoopsMatch(t, found) && h in t.info.loopOf
    ensures LoopsMatch(Classify(t, u, h, true), found + {(u, h)})
  {
    var info, found' := t.info, found + {(u, h)};
    assert LatchesIn(found', h) == LatchesIn(found, h) + {u} by {
      assert (u, h) in found';
      forall x | x in LatchesIn(found, h) + {u} ensures x in LatchesIn(found', h) {
        assert (x, h) in found';
      }
    }
    forall b | b in info.loopOf && b != h ensures LatchesIn(found', b) == LatchesIn(found, b) {
    }
  }

  /** A strict dominator of the block at the end of the stack is on the stack. */
  lemma DominatorIsGrey(g: Graph, s: Block, stack: seq<Block>, block: Block, h: Block)
    requires PathTo(Forward(g.AllEdges(), s), s, block, stack + [block])
    requires SDom(g.AllEdges(), s, h, block)
    ensures h in stack
  {
    PathMono(Forward(g.AllEdges(), s), g.AllEdges(), stack + [block]);
    assert h in stack + [block];
  }

  /** On a reducible graph an edge to a grey block is a back edge. */
  lemma GreyTargetDominates(g: Graph, s: Block, stack: seq<Block>, block: Block, v: Block)
    requires PathTo(Forward(g.AllEdges(), s), s, block, stack + [block])
    requires v in stack + [block] && v in g.Succs(block) && Tame(g.AllEdges(), s)
    ensures SDom(g.AllEdges(), s, v, block)
  {
    var es := g.AllEdges();
    EdgeIsSucc(g, block, v);
    if !SDom(es, s, v, block) {
      SuccOnStackLeadsBack(es, s, stack, block, v);
      var q :| PathTo(Forward(es, s), v, block, q);
      PathAppend(Forward(es, s), q, v);
      assert false;
    }
  }

  lemma ForwardReach(es: Edges, s: Block, p: seq<Block>, b: Block)
    requires PathTo(Forward(es, s), s, b, p)
    ensures Reach(es, s, b)
  {
    PathMono(Forward(es, s), es, p);
    assert PathTo(es, s, b, p);
  }

  lemma CollectEnter(g: Graph, s: Block, stack: seq<Block>, grey: set<Block>, black: set<Block>, log: seq<Classified>,
                     block: Block)
    requires CollectInv(g, s, stack, grey, black, log) && block !in grey && block !in black
    ensures CollectInv(g, s, stack + [block], grey + {block}, black, log) && block !in stack
  {
    assert Elems(stack + [block]) == Elems(stack) + {block};
  }

  lemma CollectLeave(g: Graph, s: Block, stack: seq<Block>, grey: set<Block>, black: set<Block>, log: seq<Classified>,
                     block: Block)
    requires CollectInv(g, s, stack + [block], grey, black, log)
    requires block !in stack && Reach(g.AllEdges(), s, block)
    requires forall v :: v in g.Succs(block) ==> v in black || v in grey
    requires forall v :: v in g.Succs(block) && SDom(g.AllEdges(), s, v, block) ==> (block, v, true) in log
    ensures CollectInv(g, s, stack, grey - {block}, black + {block}, log)
  {
    assert Elems(stack + [block]) == Elems(stack) + {block};
    forall h: Block | BackEdge(g.AllEdges(), s, block, h) ensures (block, h, true) in log {
      EdgeIsSucc(g, block, h);
    }
  }

  /** Logging an edge to a grey block keeps the search invariant. */
  lemma GreyEdge(g: Graph, s: Block, stack: seq<Block>, grey: set<Block>, black: set<Block>, log: seq<Classified>,
                 block: Block, succ: Block, back: bool)
    requires CollectInv(g, s, stack + [block], grey, black, log)
    requires PathTo(Forward(g.AllEdges(), s), s, block, stack + [block]) && Reach(g.AllEdges(), s, block)
    requires succ in grey && succ in g.Succs(block) && back == SDom(g.AllEdges(), s, succ, block)
    ensures CollectInv(g, s, stack + [block], grey, black, log + [(block, succ, back)])
    ensures (block, succ, back) in log + [(block, succ, back)]
    ensures Tame(g.AllEdges(), s) ==> back
  {
    EdgeIsSucc(g, block, succ);
    if Tame(g.AllEdges(), s) {
      GreyTargetDominates(g, s, stack, block, succ);
    }
  }

  /** A successor that is not grey is not a dominator, so the search goes down a forward edge. */
  lemma WhiteEdge(g: Graph, s: Block, stack: seq<Block>, grey: set<Block>, black: set<Block>, log: seq<Classified>,
                  block: Block, succ: Block)
    requires CollectInv(g, s, stack + [block], grey, black, log)
    requires PathTo(Forward(g.AllEdges(), s), s, block, stack + [block])
    requires succ !in grey && succ in g.Succs(block)
    ensures !SDom(g.AllEdges(), s, succ, block)
    ensures PathTo(Forward(g.AllEdges(), s), s, succ, stack + [block] + [succ])
  {
    if SDom(g.AllEdges(), s, succ, block) {
      DominatorIsGrey(g, s, stack, block, succ);
      assert false;
    }
    Descend(g, s, stack, block, succ);
  }

  // ---------- cycles are met, whatever the order ----------

  /** The edge has been met while its target was grey. */
  ghost predicate Met(log: seq<Classified>, u: Block, v: Block) {
    (u, v, true) in log || (u, v, false) in log
  }

  /** Every successor of a finished block finished earlier, or its edge has been met; what has been met lies on a
      cycle, and is taken as a back edge exactly if its target strictly dominates its source. */
  ghost predicate FinishInv(g: Graph, s: Block, finish: seq<Block>, black: set<Block>, log: seq<Classified>) {
    && Distinct(finish) && black == Elems(finish)
    && (forall i, v :: 0 <= i < |finish| && v in g.Succs(finish[i]) ==> v in finish[..i] || Met(log, finish[i], v))
    && (forall e :: e in log ==> e.1 in g.Succs(e.0) && Reach(g.AllEdges(), e.1, e.0))
    && (forall e :: e in log ==> (e.2 <==> SDom(g.AllEdges(), s, e.1, e.0)))
  }

  lemma FinishStarts(g: Graph, s: Block)
    ensures FinishInv(g, s, [], {}, [])
  {
  }

  lemma FinishLog(g: Graph, s: Block, stack: seq<Block>, finish: seq<Block>, black: set<Block>, log: seq<Classified>,
                  block: Block, succ: Block, back: bool)
    requires FinishInv(g, s, finish, black, log) && back == SDom(g.AllEdges(), s, succ, block)
    requires PathTo(Forward(g.AllEdges(), s), s, block, stack + [block])
    requires succ in stack + [block] && succ in g.Succs(block)
    ensures FinishInv(g, s, finish, black, log + [(block, succ, back)])
    ensures Met(log + [(block, succ, back)], block, succ)
  {
    var log' := log + [(block, succ, back)];
    SuccOnStackLeadsBack(g.AllEdges(), s, stack, block, succ);
    ForwardIsReach(g.AllEdges(), s, succ, block);
    hide Dom, Reach, PathTo;
    assert (block, succ, back) in log';
    forall i, v | 0 <= i < |finish| && v in g.Succs(finish[i]) ensures v in finish[..i] || Met(log', finish[i], v) {
      assert v in finish[..i] || Met(log, finish[i], v);
    }
  }

  lemma ForwardIsReach(es: Edges, s: Block, a: Block, b: Block)
    requires Reach(Forward(es, s), a, b)
    ensures Reach(es, a, b)
  {
    var p :| PathTo(Forward(es, s), a, b, p);
    PathMono(Forward(es, s), es, p);
    assert PathTo(es, a, b, p);
  }

  lemma FinishLeave(g: Graph, s: Block, finish: seq<Block>, black: set<Block>, log: seq<Classified>, block: Block)
    requires FinishInv(g, s, finish, black, log) && block !in black
    requires forall v :: v in g.Succs(block) ==> v in black || Met(log, block, v)
    ensures FinishInv(g, s, finish + [block], black + {block}, log)
  {
    hide Dom, Reach, Met;
    var finish' := finish + [block];
    forall i, v | 0 <= i < |finish'| && v in g.Succs(finish'[i]) ensures v in finish'[..i] || Met(log, finish'[i], v) {
      assert finish'[..i] == finish[..i];
      assert finish[..|finish|] == finish;
    }
  }

  lemma MetStays(log: seq<Classified>, log': seq<Classified>, u: Block, v: Block)
    requires Met(log, u, v) && forall e :: e in log ==> e in log'
    ensures Met(log', u, v)
  {
  }

  lemma GreyIsStack(g: Graph, s: Block, stack: seq<Block>, grey: set<Block>, black: set<Block>, log: seq<Classified>)
    requires CollectInv(g, s, stack, grey, black, log)
    ensures forall b :: b in grey <==> b in stack
  {
    hide BackEdge, Reach;
  }

  /** A cycle of reachable blocks. */
  ghost predicate Cycle(es: Edges, s: Block, q: seq<Block>) {
    Path(es, q) && |q| > 1 && q[0] == q[|q| - 1] && Reach(es, s, q[0])
  }

  ghost predicate MetAt(log: seq<Classified>, q: seq<Block>, i: nat)
    requires i + 1 < |q|
  {
    Met(log, q[i], q[i + 1])
  }

  /** Some edge of the path has been met. */
  ghost predicate MeetsOne(log: seq<Classified>, q: seq<Block>) {
    exists i: nat :: i + 1 < |q| && MetAt(log, q, i)
  }

  /** Along edges that have not been met, blocks finish earlier and earlier. */
  lemma {:induction false} FallsAlong(g: Graph, s: Block, finish: seq<Block>, black: set<Block>, log: seq<Classified>,
                                      q: seq<Block>)
    requires FinishInv(g, s, finish, black, log) && Path(g.AllEdges(), q) && |q| > 1 && !MeetsOne(log, q)
    requires forall x :: x in q ==> x in finish
    ensures FirstIndex(finish, q[|q| - 1]) < FirstIndex(finish, q[0])
    decreases |q|
  {
    hide Dom, Reach, Met;
    var n := |q| - 2;
    assert Hop(g.AllEdges(), q, n);
    EdgeIsSucc(g, q[n], q[n + 1]);
    assert q[n] in q && q[n + 1] in q && q[0] in q;
    var i := FirstIndex(finish, q[n]);
    assert !MetAt(log, q, n);
    assert q[n + 1] in finish[..i];
    EarlierIndex(finish, i, q[n + 1]);
    if n > 0 {
      PathPrefix(g.AllEdges(), q, n + 1);
      var r := q[..n + 1];
      forall j: nat | j + 1 < |r| ensures !MetAt(log, r, j) {
        assert !MetAt(log, q, j);
      }
      FallsAlong(g, s, finish, black, log, r);
    }
  }

  lemma EarlierIndex(finish: seq<Block>, i: nat, v: Block)
    requires i <= |finish| && v in finish[..i]
    ensures v in finish && FirstIndex(finish, v) < i
  {
    var j := FirstIndex(finish[..i], v);
    assert finish[j] == v;
  }

  /** On any graph, whatever order the search takes, it meets an edge of every cycle of reachable blocks. */
  lemma CycleIsMet(g: Graph, s: Block, grey: set<Block>, black: set<Block>, finish: seq<Block>, log: seq<Classified>,
                   q: seq<Block>)
    requires CollectInv(g, s, [], grey, black, log) && FinishInv(g, s, finish, black, log) && s in black
    requires Cycle(g.AllEdges(), s, q)
    ensures MeetsOne(log, q)
  {
    ReachedIsBlack(g, s, grey, black, log, q[0]);
    BlackHoldsPath(g, s, grey, black, log, q);
    hide CollectInv, Reach, Dom, MeetsOne;
    if !MeetsOne(log, q) {
      forall x | x in q ensures x in finish {
        assert x in Elems(finish);
      }
      FallsAlong(g, s, finish, black, log, q);
      assert false;
    }
  }

  lemma BlackHoldsPath(g: Graph, s: Block, grey: set<Block>, black: set<Block>, log: seq<Classified>, q: seq<Block>)
    requires CollectInv(g, s, [], grey, black, log) && Path(g.AllEdges(), q) && q[0] in black
    ensures forall x :: x in q ==> x in black
  {
    hide BackEdge, Reach;
    forall a: Block, b: Block | a in black && b in q && (a, b) in g.AllEdges() ensures b in black {
      EdgeIsSucc(g, a, b);
    }
    ClosedSetHoldsPath(g.AllEdges(), q, black);
  }

  lemma ReachedIsBlack(g: Graph, s: Block, grey: set<Block>, black: set<Block>, log: seq<Classified>, b: Block)
    requires CollectInv(g, s, [], grey, black, log) && s in black && Reach(g.AllEdges(), s, b)
    ensures b in black
  {
    hide CollectInv;
    var p :| PathTo(g.AllEdges(), s, b, p);
    BlackHoldsPath(g, s, grey, black, log, p);
    assert p[|p| - 1] in p;
  }

  // ---------- second phase: flooding ----------

  /** The state after flooding from loop `l` with header `h`, when the blocks `vs` have been visited. */
  ghost function Flooded(info: LoopInfo, l: LoopId, h: Block, vs: set<Block>): LoopInfo
    requires l < |info.loops|
  {
    var body := vs - {h};
    LoopInfo(
      info.loops[l := info.loops[l].(
        nodes := info.loops[l].nodes + (body - info.loopOf.Keys),
        subLoops := info.loops[l].subLoops +
                    set b | b in body && b in info.loopOf && info.loopOf[b] != l :: info.loopOf[b])],
      map b | b in info.loopOf.Keys + body :: if b in info.loopOf then info.loopOf[b] else l)
  }

  lemma FloodedStart(info: LoopInfo, l: LoopId, h: Block)
    requires l < |info.loops|
    ensures Flooded(info, l, h, {h}) == info
  {
    var f := Flooded(info, l, h, {h});
    assert {h} - {h} == {};
    assert f.loopOf == info.loopOf;
    assert f.loops[l] == info.loops[l];
    assert f.loops == info.loops;
  }

  lemma FloodedNew(info: LoopInfo, l: LoopId, h: Block, vs: set<Block>, b: Block)
    requires l < |info.loops| && b !in vs && b != h && b !in info.loopOf
    ensures var f := Flooded(info, l, h, vs);
            b !in f.loopOf && Flooded(info, l, h, vs + {b}) ==
                LoopInfo(f.loops[l := f.loops[l].AddNode(b)], f.loopOf[b := l])
  {
    var f, f' := Flooded(info, l, h, vs), Flooded(info, l, h, vs + {b});
    assert vs + {b} - {h} == vs - {h} + {b};
    assert f'.loopOf == f.loopOf[b := l];
    assert f'.loops[l].nodes == f.loops[l].AddNode(b).nodes;
    assert f'.loops[l].subLoops == f.loops[l].AddNode(b).subLoops;
  }

  lemma FloodedOld(info: LoopInfo, l: LoopId, h: Block, vs: set<Block>, b: Block)
    requires l < |info.loops| && b !in vs && b != h && b in info.loopOf
    ensures var f := Flooded(info, l, h, vs);
            && b in f.loopOf && f.loopOf[b] == info.loopOf[b]
            && Flooded(info, l, h, vs + {b}) ==
               if info.loopOf[b] == l then f
                 else LoopInfo(f.loops[l := f.loops[l].AddSubLoop(info.loopOf[b])], f.loopOf)
  {
    var f, f' := Flooded(info, l, h, vs), Flooded(info, l, h, vs + {b});
    assert vs + {b} - {h} == vs - {h} + {b};
    assert f'.loopOf == f.loopOf;
    assert f'.loops[l].nodes == f.loops[l].nodes;
    if info.loopOf[b] == l {
      assert f'.loops[l].subLoops == f.loops[l].subLoops;
      assert f'.loops == f.loops;
    } else {
      assert f'.loops[l].subLoops == f.loops[l].AddSubLoop(info.loopOf[b]).subLoops;
      assert f'.loops == f.loops[l := f.loops[l].AddSubLoop(info.loopOf[b])];
    }
  }

  // ---------- what the nest looks like when the headers in `done` have been processed ----------

  function HeadOf(info: LoopInfo, b: Block): Option<Block> {
    if b in info.loopOf && info.loopOf[b] < |info.loops| then info.loops[info.loopOf[b]].head else None
  }

  /** The assigned loop of `b`: its own if it is a header, else that of the innermost processed header around it. */
  ghost predicate AssignedOk(es: Edges, s: Block, info: LoopInfo, done: set<Block>, b: Block) {
    && (b in info.loopOf <==> Header(es, s, b) || exists h :: h in done && InLoop(es, s, h, b))
    && (b in info.loopOf ==>
          && info.loopOf[b] < |info.loops|
          && HeadOf(info, b).Some?
          && InLoop(es, s, HeadOf(info, b).value, b)
          && (Header(es, s, b) ==> HeadOf(info, b).value == b)
          && (!Header(es, s, b) ==>
                && HeadOf(info, b).value in done
                && forall h :: h in done && InLoop(es, s, h, b) ==> Dom(es, s, h, HeadOf(info, b).value)))
  }

  /** Loop `l` is the loop of its header; its nodes are the latches and the blocks assigned to it, and once it
      is processed its subloops are those of the other headers in its natural loop. */
  ghost predicate LoopOk(es: Edges, s: Block, info: LoopInfo, done: set<Block>, l: LoopId)
    requires l < |info.loops|
  {
    var loop := info.loops[l];
    && loop.reducible && loop.head.Some?
    && Header(es, s, loop.head.value)
    && loop.head.value in info.loopOf && info.loopOf[loop.head.value] == l
    && (forall b :: b in loop.nodes <==>
          BackEdge(es, s, b, loop.head.value) || (b != loop.head.value && b in info.loopOf && info.loopOf[b] == l))
    && (forall m :: m in loop.subLoops <==> loop.head.value in done && IsSubLoop(es, s, info, loop.head.value, m))
  }

  /** `m` is the loop of another header in the natural loop of `h`. */
  ghost predicate IsSubLoop(es: Edges, s: Block, info: LoopInfo, h: Block, m: LoopId) {
    exists h' :: Header(es, s, h') && h' != h && InLoop(es, s, h, h') && h' in info.loopOf && info.loopOf[h'] == m
  }

  ghost predicate Nested(es: Edges, s: Block, info: LoopInfo, done: set<Block>) {
    && (forall b :: AssignedOk(es, s, info, done, b))
    && (forall l: nat :: l < |info.loops| ==> LoopOk(es, s, info, done, l))
  }

  lemma LoopBlockReached(es: Edges, s: Block, h: Block, b: Block)
    requires SourcesReached(es, s) && InLoop(es, s, h, b)
    ensures Reach(es, s, b)
  {
    if b == h {
      HeaderReach(es, s, h);
    } else {
      var u :| BackEdge(es, s, u, h) && ReachAvoiding(es, b, u, h);
      var q :| PathTo(es, b, u, q) && h !in q;
      if |q| > 1 {
        assert Hop(es, q, 0);
        assert Reach(es, s, (q[0], q[1]).0);
      }
    }
  }

  /** The collected loops are a nest in which no header has been processed yet. */
  lemma CollectedNest(es: Edges, s: Block, t: Table, found: Edges)
    requires LoopsMatch(t, found)
    requires forall u: Block, h: Block :: (u, h) in found <==> BackEdge(es, s, u, h)
    ensures Nested(es, s, t.info, {})
  {
    forall b: Block ensures AssignedOk(es, s, t.info, {}, b) {
      forall u: Block ensures (u, b) in found <==> BackEdge(es, s, u, b) {
      }
    }
    forall l: nat | l < |t.info.loops| ensures LoopOk(es, s, t.info, {}, l) {
      CollectedLoop(es, s, t, found, l);
    }
  }

  lemma CollectedLoop(es: Edges, s: Block, t: Table, found: Edges, l: LoopId)
    requires LoopsMatch(t, found) && l < |t.info.loops|
    requires forall u: Block, h: Block :: (u, h) in found <==> BackEdge(es, s, u, h)
    ensures LoopOk(es, s, t.info, {}, l)
  {
    var h := t.info.loops[l].head.value;
    var u :| (u, h) in found;
    assert BackEdge(es, s, u, h);
    forall b ensures b in LatchesIn(found, h) <==> BackEdge(es, s, b, h) {
      if BackEdge(es, s, b, h) {
        assert (b, h) in found;
      }
    }
    forall b | b in t.info.loopOf && t.info.loopOf[b] == l ensures b == h {
    }
  }

  // ---------- processing one more header ----------

  /** The natural loop of `h` as a set of blocks of the graph. */
  ghost predicate IsLoopSet(es: Edges, s: Block, h: Block, vs: set<Block>) {
    forall b :: b in vs <==> InLoop(es, s, h, b)
  }

  /** The header to process is new, and the headers it strictly dominates, and no others above it, are done. */
  ghost predicate NextHeader(es: Edges, s: Block, info: LoopInfo, done: set<Block>, l: LoopId, h: Block) {
    && l < |info.loops| && info.loops[l].head == Some(h) && h !in done
    && (forall h' :: Header(es, s, h') && SDom(es, s, h, h') ==> h' in done)
    && (forall h' :: h' in done ==> Header(es, s, h') && !Dom(es, s, h', h))
  }

  lemma ProcessedAssigned(es: Edges, s: Block, info: LoopInfo, done: set<Block>, l: LoopId, h: Block, vs: set<Block>,
                          b: Block)
    requires SourcesReached(es, s) && Nested(es, s, info, done)
    requires NextHeader(es, s, info, done, l, h) && IsLoopSet(es, s, h, vs)
    ensures AssignedOk(es, s, Flooded(info, l, h, vs), done + {h}, b)
  {
    hide Dom, Reach, Header, BackEdge, ReachesLatch;
    var info' := Flooded(info, l, h, vs);
    assert LoopOk(es, s, info, done, l);
    assert AssignedOk(es, s, info, done, b);
    assert forall x :: x in info.loopOf && x in info'.loopOf && info'.loopOf[x] == info.loopOf[x] ==>
                         HeadOf(info', x) == HeadOf(info, x);
    if b in info.loopOf {
      if InLoop(es, s, h, b) && !Header(es, s, b) {
        var h0 := HeadOf(info, b).value;
        LoopBlockReached(es, s, h, b);
        HeadersChain(es, s, h, h0, b);
        assert !Dom(es, s, h0, h);
      }
    } else if b in vs {
      DomRefl(es, s, h);
    }
  }

  lemma ProcessedOther(es: Edges, s: Block, info: LoopInfo, done: set<Block>, l: LoopId, h: Block, vs: set<Block>,
                       m: LoopId)
    requires Nested(es, s, info, done) && NextHeader(es, s, info, done, l, h) && IsLoopSet(es, s, h, vs)
    requires m < |info.loops| && m != l
    ensures LoopOk(es, s, Flooded(info, l, h, vs), done + {h}, m)
  {
    hide Dom, Reach, Header, BackEdge, InLoop;
    var info' := Flooded(info, l, h, vs);
    assert LoopOk(es, s, info, done, l);
    assert LoopOk(es, s, info, done, m);
    var hm := info.loops[m].head.value;
    assert hm != h;
    forall k ensures IsSubLoop(es, s, info', hm, k) <==> IsSubLoop(es, s, info, hm, k) {
      SubLoopsKept(es, s, info, done, l, h, vs, hm, k);
    }
  }

  /** Headers keep the loop they have, so subloops are named by the same ids. */
  lemma SubLoopsKept(es: Edges, s: Block, info: LoopInfo, done: set<Block>, l: LoopId, h: Block, vs: set<Block>,
                     hm: Block, k: LoopId)
    requires Nested(es, s, info, done) && l < |info.loops|
    ensures IsSubLoop(es, s, Flooded(info, l, h, vs), hm, k) <==> IsSubLoop(es, s, info, hm, k)
  {
    hide Dom, Reach, Header, BackEdge, InLoop;
    var info' := Flooded(info, l, h, vs);
    forall h' | Header(es, s, h') ensures h' in info.loopOf && info'.loopOf[h'] == info.loopOf[h'] {
      assert AssignedOk(es, s, info, done, h');
    }
  }

  lemma ProcessedLoop(es: Edges, s: Block, info: LoopInfo, done: set<Block>, l: LoopId, h: Block, vs: set<Block>)
    requires SourcesReached(es, s) && Nested(es, s, info, done)
    requires NextHeader(es, s, info, done, l, h) && IsLoopSet(es, s, h, vs)
    ensures LoopOk(es, s, Flooded(info, l, h, vs), done + {h}, l)
  {
    hide Dom, Reach, Header, BackEdge, InLoop;
    var info' := Flooded(info, l, h, vs);
    assert LoopOk(es, s, info, done, l);
    forall m ensures m in info'.loops[l].subLoops <==> IsSubLoop(es, s, info', h, m) {
      SubLoopsKept(es, s, info, done, l, h, vs, h, m);
      NewSubLoops(es, s, info, done, l, h, vs, m);
    }
    forall b | b in info.loopOf && info.loopOf[b] == l && b != h ensures b in info.loops[l].nodes {
    }
  }

  /** The loops met by the flood are those of the other headers in the loop. */
  lemma NewSubLoops(es: Edges, s: Block, info: LoopInfo, done: set<Block>, l: LoopId, h: Block, vs: set<Block>,
                    m: LoopId)
    requires SourcesReached(es, s) && Nested(es, s, info, done)
    requires NextHeader(es, s, info, done, l, h) && IsLoopSet(es, s, h, vs)
    ensures m in Flooded(info, l, h, vs).loops[l].subLoops <==> IsSubLoop(es, s, info, h, m)
  {
    hide Dom, Reach, Header, BackEdge, InLoop;
    var info' := Flooded(info, l, h, vs);
    assert LoopOk(es, s, info, done, l);
    if IsSubLoop(es, s, info, h, m) {
      var h' :| Header(es, s, h') && h' != h && InLoop(es, s, h, h') && h' in info.loopOf && info.loopOf[h'] == m;
      assert AssignedOk(es, s, info, done, h');
      assert m != l;
      assert h' in vs - {h};
    }
    if m in info'.loops[l].subLoops {
      var b :| b in vs - {h} && b in info.loopOf && info.loopOf[b] != l && info.loopOf[b] == m;
      MetLoopIsSubLoop(es, s, info, done, l, h, b);
    }
  }

  lemma MetLoopIsSubLoop(es: Edges, s: Block, info: LoopInfo, done: set<Block>, l: LoopId, h: Block, b: Block)
    requires SourcesReached(es, s) && Nested(es, s, info, done) && NextHeader(es, s, info, done, l, h)
    requires InLoop(es, s, h, b) && b in info.loopOf && info.loopOf[b] != l && b != h
    ensures IsSubLoop(es, s, info, h, info.loopOf[b])
  {
    hide Dom, Reach, Header, BackEdge, ReachesLatch;
    assert AssignedOk(es, s, info, done, b);
    var h' := HeadOf(info, b).value;
    assert LoopOk(es, s, info, done, info.loopOf[b]);
    if !Header(es, s, b) {
      LoopBlockReached(es, s, h, b);
      HeadersChain(es, s, h, h', b);
      assert SDom(es, s, h, h');
      NestedHeader(es, s, h, h', b);
    }
  }

  lemma ProcessedNest(es: Edges, s: Block, info: LoopInfo, done: set<Block>, l: LoopId, h: Block, vs: set<Block>)
    requires SourcesReached(es, s) && Nested(es, s, info, done)
    requires NextHeader(es, s, info, done, l, h) && IsLoopSet(es, s, h, vs)
    ensures Nested(es, s, Flooded(info, l, h, vs), done + {h})
  {
    hide AssignedOk, LoopOk, SourcesReached;
    var info', done' := Flooded(info, l, h, vs), done + {h};
    forall b ensures AssignedOk(es, s, info', done', b) {
      ProcessedAssigned(es, s, info, done, l, h, vs, b);
    }
    forall m: nat | m < |info'.loops| ensures LoopOk(es, s, info', done', m) {
      if m == l {
        ProcessedLoop(es, s, info, done, l, h, vs);
      } else {
        ProcessedOther(es, s, info, done, l, h, vs, m);
      }
    }
  }

  // ---------- the finished nest ----------

  /** Every header has been processed. */
  ghost predicate NestDone(es: Edges, s: Block, info: LoopInfo) {
    exists done :: Nested(es, s, info, done) && AllHeaders(es, s, done)
  }

  ghost predicate AllHeaders(es: Edges, s: Block, hs: set<Block>) {
    forall h :: Header(es, s, h) <==> h in hs
  }

  /** The assigned loop of a block is that of the innermost natural loop around it. */
  lemma AssignedIsInnermost(es: Edges, s: Block, info: LoopInfo, b: Block)
    requires NestDone(es, s, info)
    ensures b in info.loopOf <==> exists h :: InLoop(es, s, h, b)
    ensures b in info.loopOf ==> HeadOf(info, b).Some? && Innermost(es, s, HeadOf(info, b).value, b)
    ensures forall h: Block :: Innermost(es, s, h, b) ==> HeadOf(info, b) == Some(h)
  {
    hide Dom, Header, ReachesLatch;
    var done :| Nested(es, s, info, done) && AllHeaders(es, s, done);
    assert AssignedOk(es, s, info, done, b);
    if Header(es, s, b) {
      assert InLoop(es, s, b, b);
      forall h | InLoop(es, s, h, b) ensures Dom(es, s, h, b) {
        LoopDominated(es, s, h, b);
      }
    }
    if h :| InLoop(es, s, h, b) {
      assert h in done;
    }
    forall h: Block | Innermost(es, s, h, b) ensures HeadOf(info, b) == Some(h) {
      InnermostUnique(es, s, h, HeadOf(info, b).value, b);
    }
  }

  /** The loop a block is assigned to is its head's. */
  lemma HeadOwnsLoop(es: Edges, s: Block, info: LoopInfo, b: Block)
    requires NestDone(es, s, info) && b in info.loopOf
    ensures HeadOf(info, b).Some? && HeadOf(info, b).value in info.loopOf
    ensures info.loopOf[b] == info.loopOf[HeadOf(info, b).value]
  {
    hide Dom, Header, BackEdge, ReachesLatch;
    var done :| Nested(es, s, info, done) && AllHeaders(es, s, done);
    assert AssignedOk(es, s, info, done, b);
    assert LoopOk(es, s, info, done, info.loopOf[b]);
  }

  /** A block is in the natural loop of `h` exactly when it is `h`, or its assigned loop is the loop of `h`
      or one of that loop's recorded subloops. */
  lemma NaturalLoopFromNest(es: Edges, s: Block, info: LoopInfo, h: Block, b: Block)
    requires NestDone(es, s, info) && SourcesReached(es, s) && Header(es, s, h)
    ensures h in info.loopOf && info.loopOf[h] < |info.loops|
    ensures InLoop(es, s, h, b) <==>
            b == h || (b in info.loopOf && (info.loopOf[b] == info.loopOf[h] ||
                                            info.loopOf[b] in info.loops[info.loopOf[h]].subLoops))
  {
    hide Dom, Header, BackEdge, ReachesLatch, Reach;
    var done :| Nested(es, s, info, done) && AllHeaders(es, s, done);
    assert AssignedOk(es, s, info, done, h);
    assert AssignedOk(es, s, info, done, b);
    var l := info.loopOf[h];
    assert LoopOk(es, s, info, done, l);
    if b != h && b in info.loopOf {
      assert LoopOk(es, s, info, done, info.loopOf[b]);
      var h' := HeadOf(info, b).value;
      if InLoop(es, s, h, b) && info.loopOf[b] != l {
        LoopBlockReached(es, s, h, b);
        if !Header(es, s, b) {
          assert h in done;
          assert SDom(es, s, h, h');
          NestedHeader(es, s, h, h', b);
        }
        assert IsSubLoop(es, s, info, h, info.loopOf[b]);
      }
      if info.loopOf[b] in info.loops[l].subLoops {
        var h2 :| Header(es, s, h2) && h2 != h && InLoop(es, s, h, h2) && h2 in info.loopOf &&
            info.loopOf[h2] == info.loopOf[b];
        assert AssignedOk(es, s, info, done, h2);
        assert h2 == h';
        NestedLoop(es, s, h, h2, b);
      }
    }
  }

  // ---------- the flood, on any graph ----------

  /** `b` reaches one of `nodes` without passing `h`. */
  ghost predicate ReachesNode(es: Edges, nodes: set<Block>, h: Block, b: Block) {
    exists u :: u in nodes && ReachAvoiding(es, b, u, h)
  }

  /** What the flood backwards from `nodes` visits: `h`, and what reaches one of them without passing `h`. */
  ghost predicate IsFlood(es: Edges, nodes: set<Block>, h: Block, vs: set<Block>) {
    forall b :: b in vs <==> b == h || ReachesNode(es, nodes, h, b)
  }

  /** The same as a set of blocks of the graph. */
  ghost function FloodSet(g: Graph, nodes: set<Block>, h: Block): set<Block> {
    set b | b in g.blocks && (b == h || ReachesNode(g.AllEdges(), nodes, h, b))
  }

  /** A block reached by the flood, with all its predecessors reached too. */
  ghost predicate FloodedBlock(g: Graph, nodes: set<Block>, h: Block, visited: set<Block>, x: Block) {
    && x != h && ReachesNode(g.AllEdges(), nodes, h, x)
    && forall p :: p in g.Preds(x) ==> p in visited
  }

  lemma BlockFlooded(g: Graph, nodes: set<Block>, h: Block, visited: set<Block>, x: Block)
    requires x != h && ReachesNode(g.AllEdges(), nodes, h, x)
    requires forall j :: 0 <= j < |g.Preds(x)| ==> g.Preds(x)[j] in visited
    ensures FloodedBlock(g, nodes, h, visited, x)
  {
  }

  lemma FloodedGrows(g: Graph, nodes: set<Block>, h: Block, earlier: set<Block>, visited: set<Block>, x: Block)
    requires earlier <= visited
    requires x in earlier ==> FloodedBlock(g, nodes, h, earlier, x)
    requires x !in earlier ==> FloodedBlock(g, nodes, h, visited, x)
    ensures FloodedBlock(g, nodes, h, visited, x)
  {
  }

  lemma FloodsGrow(g: Graph, nodes: set<Block>, h: Block, seen: set<Block>, earlier: set<Block>, visited: set<Block>)
    requires earlier <= visited
    requires forall x :: x in earlier && x !in seen ==> FloodedBlock(g, nodes, h, earlier, x)
    requires forall x :: x in visited && x !in earlier ==> FloodedBlock(g, nodes, h, visited, x)
    ensures forall x :: x in visited && x !in seen ==> FloodedBlock(g, nodes, h, visited, x)
  {
    hide FloodedBlock;
    forall x | x in visited && x !in seen ensures FloodedBlock(g, nodes, h, visited, x) {
      FloodedGrows(g, nodes, h, earlier, visited, x);
    }
  }

  lemma FloodedSize(info: LoopInfo, l: LoopId, h: Block, vs: set<Block>)
    requires l < |info.loops|
    ensures |Flooded(info, l, h, vs).loops| == |info.loops|
    ensures SameHeads(info, Flooded(info, l, h, vs))
  {
  }

  lemma NodeReaches(es: Edges, nodes: set<Block>, h: Block, u: Block)
    requires u in nodes && u != h
    ensures ReachesNode(es, nodes, h, u)
  {
    PathSingle(es, u);
    assert PathTo(es, u, u, [u]) && h !in [u];
  }

  lemma PredFloods(g: Graph, nodes: set<Block>, h: Block, b: Block, p: Block)
    requires g.Closed() && g.Mirrored() && p in g.Preds(b) && b != h
    requires ReachesNode(g.AllEdges(), nodes, h, b)
    ensures p in g.blocks && (p != h ==> ReachesNode(g.AllEdges(), nodes, h, p))
  {
    var es := g.AllEdges();
    EdgeIsPred(g, p, b);
    if p != h {
      var u :| u in nodes && ReachAvoiding(es, b, u, h);
      var q :| PathTo(es, b, u, q) && h !in q;
      PathCons(es, p, q);
      assert PathTo(es, p, u, [p] + q) && h !in [p] + q;
    }
  }

  lemma {:induction false} BackwardClosed(es: Edges, p: seq<Block>, h: Block, vs: set<Block>)
    requires Path(es, p) && p[|p| - 1] in vs && h !in p
    requires forall x: Block, q: Block :: x in vs && x != h && (q, x) in es ==> q in vs
    ensures p[0] in vs
  {
    if |p| > 1 {
      PathSuffix(es, p, 1);
      BackwardClosed(es, p[1..], h, vs);
      assert Hop(es, p, 0);
    }
  }

  lemma NodePath(es: Edges, nodes: set<Block>, h: Block, b: Block) returns (u: Block, p: seq<Block>)
    requires ReachesNode(es, nodes, h, b)
    ensures u in nodes && Path(es, p) && p[0] == b && p[|p| - 1] == u && h !in p
  {
    u :| u in nodes && ReachAvoiding(es, b, u, h);
    p :| PathTo(es, b, u, p) && h !in p;
  }

  lemma NodesFlooded(g: Graph, nodes: set<Block>, h: Block, vs: set<Block>, b: Block)
    requires g.Mirrored() && nodes <= vs && ReachesNode(g.AllEdges(), nodes, h, b)
    requires forall x :: x in vs && x != h ==> FloodedBlock(g, nodes, h, vs, x)
    ensures b in vs
  {
    hide *;
    var u, p := NodePath(g.AllEdges(), nodes, h, b);
    FloodClosed(g, nodes, h, vs);
    BackwardClosed(g.AllEdges(), p, h, vs);
  }

  lemma FloodClosed(g: Graph, nodes: set<Block>, h: Block, vs: set<Block>)
    requires g.Mirrored()
    requires forall x :: x in vs && x != h ==> FloodedBlock(g, nodes, h, vs, x)
    ensures forall x: Block, q: Block :: x in vs && x != h && (q, x) in g.AllEdges() ==> q in vs
  {
    hide ReachesNode;
    forall x: Block, q: Block | x in vs && x != h && (q, x) in g.AllEdges() ensures q in vs {
      EdgeIsPred(g, q, x);
      assert FloodedBlock(g, nodes, h, vs, x);
    }
  }

  /** Once all nodes have been flooded, the visited blocks are exactly those of the flood. */
  lemma FloodIsExact(g: Graph, nodes: set<Block>, h: Block, vs: set<Block>)
    requires g.Mirrored() && h in vs && nodes <= vs
    requires forall x :: x in vs && x != h ==> FloodedBlock(g, nodes, h, vs, x)
    ensures IsFlood(g.AllEdges(), nodes, h, vs)
  {
    hide ReachesNode;
    forall b ensures b in vs <==> b == h || ReachesNode(g.AllEdges(), nodes, h, b) {
      if ReachesNode(g.AllEdges(), nodes, h, b) {
        NodesFlooded(g, nodes, h, vs, b);
      }
      if b in vs && b != h {
        assert FloodedBlock(g, nodes, h, vs, b);
      }
    }
  }

  lemma FloodSetIs(g: Graph, nodes: set<Block>, h: Block, vs: set<Block>)
    requires g.Closed() && h in g.blocks && nodes <= Elems(g.blocks)
    ensures IsFlood(g.AllEdges(), nodes, h, FloodSet(g, nodes, h))
    ensures IsFlood(g.AllEdges(), nodes, h, vs) ==> vs == FloodSet(g, nodes, h)
  {
    hide ReachesNode;
    forall b | ReachesNode(g.AllEdges(), nodes, h, b) ensures b in g.blocks {
      var u, p := NodePath(g.AllEdges(), nodes, h, b);
      if |p| > 1 {
        assert Hop(g.AllEdges(), p, 0);
      }
    }
  }

  /** The flood from the latches of a header is its natural loop. */
  lemma FloodIsLoop(es: Edges, s: Block, nodes: set<Block>, h: Block, vs: set<Block>)
    requires Header(es, s, h) && IsFlood(es, nodes, h, vs)
    requires forall u :: u in nodes <==> BackEdge(es, s, u, h)
    ensures IsLoopSet(es, s, h, vs)
  {
    hide BackEdge, ReachAvoiding, Header;
    forall b ensures ReachesNode(es, nodes, h, b) <==> ReachesLatch(es, s, h, b) {
      if u :| u in nodes && ReachAvoiding(es, b, u, h) {
        assert BackEdge(es, s, u, h);
      }
      if u :| BackEdge(es, s, u, h) && ReachAvoiding(es, b, u, h) {
        assert u in nodes;
      }
    }
    hide ReachesLatch, ReachesNode;
    forall b ensures b in vs <==> InLoop(es, s, h, b) {
      LatchAvoids(es, s, h, b);
    }
  }

  lemma LatchAvoids(es: Edges, s: Block, h: Block, b: Block)
    ensures ReachesLatch(es, s, h, b) ==> b != h
  {
    if ReachesLatch(es, s, h, b) {
      var u :| BackEdge(es, s, u, h) && ReachAvoiding(es, b, u, h);
      var p :| PathTo(es, b, u, p) && h !in p;
      assert p[0] in p;
    }
  }

  // ---------- one loop after the other ----------

  /** Heads and nodes are blocks of the graph. */
  ghost predicate InGraph(g: Graph, info: LoopInfo) {
    forall l :: 0 <= l < |info.loops| ==>
      info.loops[l].nodes <= Elems(g.blocks) && (info.loops[l].head.Some? ==> info.loops[l].head.value in g.blocks)
  }

  /** What processing loop `l` makes of the loops. */
  ghost function LoopProcessed(g: Graph, info: LoopInfo, l: LoopId): LoopInfo
    requires l < |info.loops| && info.loops[l].head.Some?
  {
    var h := info.loops[l].head.value;
    Flooded(info, l, h, FloodSet(g, info.loops[l].nodes, h))
  }

  /** What processing the listed loops in order makes of them. */
  ghost function Populated(g: Graph, info: LoopInfo, order: seq<LoopId>): LoopInfo {
    if order == [] then info
    else
      var before, l := Populated(g, info, order[..|order| - 1]), order[|order| - 1];
      if l < |before.loops| && before.loops[l].head.Some? then LoopProcessed(g, before, l) else before
  }

  lemma PopulatedNext(g: Graph, info: LoopInfo, order: seq<LoopId>, k: nat)
    requires k < |order|
    ensures var before := Populated(g, info, order[..k]);
            Populated(g, info, order[..k + 1]) ==
              if order[k] < |before.loops| && before.loops[order[k]].head.Some? then LoopProcessed(g, before, order[k])
              else before
  {
    assert order[..k + 1][..k] == order[..k];
  }

  lemma ProcessedInGraph(g: Graph, info: LoopInfo, l: LoopId)
    requires InGraph(g, info) && l < |info.loops| && info.loops[l].head.Some?
    ensures InGraph(g, LoopProcessed(g, info, l)) && SameHeads(info, LoopProcessed(g, info, l))
  {
    hide ReachesNode;
    var h := info.loops[l].head.value;
    FloodedSize(info, l, h, FloodSet(g, info.loops[l].nodes, h));
  }

  /** Before a loop is processed its nodes are the latches of its header. */
  lemma UnprocessedNodes(es: Edges, s: Block, info: LoopInfo, done: set<Block>, l: LoopId, h: Block)
    requires Nested(es, s, info, done) && NextHeader(es, s, info, done, l, h)
    ensures Header(es, s, h)
    ensures forall b :: b in info.loops[l].nodes <==> BackEdge(es, s, b, h)
  {
    hide Dom, BackEdge, Header, InLoop;
    assert LoopOk(es, s, info, done, l);
    forall b | b in info.loopOf && info.loopOf[b] == l ensures b == h {
      assert AssignedOk(es, s, info, done, b);
    }
  }

  // ---------- the order in which headers are processed ----------

  function Key(info: LoopInfo, index: map<Block, nat>, l: LoopId): nat {
    if l < |info.loops| && info.loops[l].head.Some? && info.loops[l].head.value in index
    then index[info.loops[l].head.value] else 0
  }

  ghost predicate IndexMap(r: seq<Block>, index: map<Block, nat>) {
    forall i :: 0 <= i < |r| ==> r[i] in index && index[r[i]] == i
  }

  /** A listing of all loops by falling index of their heads. */
  ghost predicate FallingOrder(info: LoopInfo, index: map<Block, nat>, order: seq<LoopId>) {
    && Distinct(order)
    && (forall l: LoopId :: l in order <==> l < |info.loops|)
    && (forall i, j :: 0 <= i < j < |order| ==> Key(info, index, order[i]) >= Key(info, index, order[j]))
  }

  /** The list of loops sorted by falling index of their heads. */
  function SortLoops(info: LoopInfo, index: map<Block, nat>, red: seq<LoopId>): seq<LoopId> {
    SortBy((l: LoopId) => 0 - Key(info, index, l) as int, red)
  }

  lemma SortedIsFalling(info: LoopInfo, index: map<Block, nat>, red: seq<LoopId>)
    requires red == seq(|info.loops|, i => i)
    ensures FallingOrder(info, index, SortLoops(info, index, red))
  {
    var key := (l: LoopId) => 0 - Key(info, index, l) as int;
    var order := SortBy(key, red);
    SortSorted(key, red);
    forall l: LoopId ensures l in red <==> l < |info.loops| {
      if l < |info.loops| {
        assert red[l] == l;
      }
    }
    forall i, j | 0 <= i < j < |order| ensures Key(info, index, order[i]) >= Key(info, index, order[j]) {
      assert key(order[i]) <= key(order[j]);
    }
  }

  /** The heads of the first `k` loops of the order. */
  ghost function HeadsOf(info: LoopInfo, order: seq<LoopId>, k: nat): set<Block>
    requires k <= |order|
  {
    set j | 0 <= j < k && order[j] < |info.loops| && info.loops[order[j]].head.Some? :: info.loops[order[j]].head.value
  }

  ghost predicate SameHeads(info: LoopInfo, info': LoopInfo) {
    && |info.loops| == |info'.loops|
    && forall l :: 0 <= l < |info.loops| ==> info'.loops[l].head == info.loops[l].head
  }

  lemma HeadIndex(g: Graph, s: Block, info: LoopInfo, r: seq<Block>, index: map<Block, nat>, l: LoopId)
    requires IsRpo(g, s, None, r) && IndexMap(r, index) && Nested(g.AllEdges(), s, info, {}) && l < |info.loops|
    ensures info.loops[l].head.Some? && Header(g.AllEdges(), s, info.loops[l].head.value)
    ensures info.loops[l].head.value in r && Key(info, index, l) == FirstIndex(r, info.loops[l].head.value)
    ensures info.loops[l].head.value in info.loopOf && info.loopOf[info.loops[l].head.value] == l
  {
    assert LoopOk(g.AllEdges(), s, info, {}, l);
    var h := info.loops[l].head.value;
    HeaderReach(g.AllEdges(), s, h);
    RpoHoldsReachable(g, s, r, h);
    assert r[FirstIndex(r, h)] in index;
  }

  lemma NextInOrder(g: Graph, s: Block, info: LoopInfo, info': LoopInfo, r: seq<Block>, index: map<Block, nat>,
                    order: seq<LoopId>, k: nat)
    requires IsRpo(g, s, None, r) && IndexMap(r, index) && Nested(g.AllEdges(), s, info, {})
    requires FallingOrder(info, index, order) && k < |order| && SameHeads(info, info')
    ensures order[k] < |info.loops| && info.loops[order[k]].head.Some?
    ensures var h := info.loops[order[k]].head.value;
            && NextHeader(g.AllEdges(), s, info', HeadsOf(info, order, k), order[k], h)
            && HeadsOf(info, order, k + 1) == HeadsOf(info, order, k) + {h}
  {
    hide Dom, Reach, BackEdge, LoopOk, AssignedOk, IsRpo, IndexMap, Key;
    assert order[k] in order;
    var l := order[k];
    HeadIndex(g, s, info, r, index, l);
    var h := info.loops[l].head.value;
    forall h' | Header(g.AllEdges(), s, h') && SDom(g.AllEdges(), s, h, h') ensures h' in HeadsOf(info, order, k) {
      InnerHeaderEarlier(g, s, info, r, index, order, k, h');
    }
    forall h' | h' in HeadsOf(info, order, k)
      ensures Header(g.AllEdges(), s, h') && !Dom(g.AllEdges(), s, h', h) && h' != h
    {
      var j :| 0 <= j < k && order[j] < |info.loops| && info.loops[order[j]].head == Some(h');
      HeadIndex(g, s, info, r, index, order[j]);
      assert h' != h;
      if Dom(g.AllEdges(), s, h', h) {
        RpoDominators(g, s, r, h', h);
        assert false;
      }
    }
  }

  lemma FallingAt(info: LoopInfo, index: map<Block, nat>, order: seq<LoopId>, i: nat, j: nat)
    requires FallingOrder(info, index, order) && i <= j < |order|
    ensures Key(info, index, order[i]) >= Key(info, index, order[j])
  {
  }

  lemma InnerHeaderEarlier(g: Graph, s: Block, info: LoopInfo, r: seq<Block>, index: map<Block, nat>,
                           order: seq<LoopId>, k: nat, h': Block)
    requires IsRpo(g, s, None, r) && IndexMap(r, index) && Nested(g.AllEdges(), s, info, {})
    requires FallingOrder(info, index, order) && k < |order| && order[k] < |info.loops|
    requires info.loops[order[k]].head.Some?
    requires Header(g.AllEdges(), s, h') && SDom(g.AllEdges(), s, info.loops[order[k]].head.value, h')
    ensures h' in HeadsOf(info, order, k)
  {
    hide Dom, Reach, BackEdge, LoopOk, IsRpo, IndexMap, Key;
    assert AssignedOk(g.AllEdges(), s, info, {}, h');
    var l' := info.loopOf[h'];
    HeadIndex(g, s, info, r, index, order[k]);
    HeadIndex(g, s, info, r, index, l');
    var j := FirstIndex(order, l');
    RpoDominators(g, s, r, info.loops[order[k]].head.value, h');
    if k <= j {
      FallingAt(info, index, order, k, j);
      assert false;
    }
  }

  lemma NoHeadsYet(info: LoopInfo, order: seq<LoopId>)
    ensures HeadsOf(info, order, 0) == {} && SameHeads(info, info)
  {
  }

  lemma HeadKept(info: LoopInfo, info': LoopInfo, l: LoopId)
    requires SameHeads(info, info') && l < |info.loops|
    ensures |info'.loops| == |info.loops| && info'.loops[l].head == info.loops[l].head
  {
  }

  lemma SameHeadsTrans(a: LoopInfo, b: LoopInfo, c: LoopInfo)
    requires SameHeads(a, b) && SameHeads(b, c)
    ensures SameHeads(a, c)
  {
  }

  lemma AllProcessed(es: Edges, s: Block, info: LoopInfo, info': LoopInfo, index: map<Block, nat>, order: seq<LoopId>)
    requires Nested(es, s, info, {}) && FallingOrder(info, index, order)
    requires Nested(es, s, info', HeadsOf(info, order, |order|))
    ensures NestDone(es, s, info')
  {
    hide Dom, BackEdge;
    var hs := HeadsOf(info, order, |order|);
    forall h ensures Header(es, s, h) <==> h in hs {
      assert AssignedOk(es, s, info, {}, h);
      if Header(es, s, h) {
        var l := info.loopOf[h];
        var j := FirstIndex(order, l);
        assert info.loops[order[j]].head.value == h;
      }
      if h in hs {
        var j :| 0 <= j < |order| && order[j] < |info.loops| && info.loops[order[j]].head == Some(h);
        assert LoopOk(es, s, info, {}, order[j]);
      }
    }
    assert AllHeaders(es, s, hs);
  }

  lemma SearchStarts(g: Graph, s: Block)
    ensures CollectInv(g, s, [], {}, {}, []) && AllBack([])
    ensures Replay([]) == Table(LoopInfo([], map[]), [], [])
    ensures PathTo(Forward(g.AllEdges(), s), s, s, [] + [s])
  {
    assert [] + [s] == [s];
  }

  /** When the search has finished, every back edge has been found. */
  lemma SearchCovers(g: Graph, s: Block, grey: set<Block>, black: set<Block>, log: seq<Classified>)
    requires CollectInv(g, s, [], grey, black, log) && s in black
    ensures forall u: Block, h: Block :: (u, h, true) in log <==> BackEdge(g.AllEdges(), s, u, h)
  {
    var es := g.AllEdges();
    forall u: Block, h: Block | BackEdge(es, s, u, h) ensures (u, h, true) in log {
      var p :| PathTo(es, s, u, p);
      forall a: Block, b: Block | a in black && b in p && (a, b) in es ensures b in black {
        EdgeIsSucc(g, a, b);
      }
      ClosedSetHoldsPath(es, p, black);
      assert u in p;
    }
  }

  lemma FoundIsBackEdges(g: Graph, s: Block, log: seq<Classified>)
    requires forall u: Block, h: Block :: (u, h, true) in log <==> BackEdge(g.AllEdges(), s, u, h)
    ensures forall u: Block, h: Block :: (u, h) in Found(log) <==> BackEdge(g.AllEdges(), s, u, h)
  {
    forall u: Block, h: Block ensures (u, h) in Found(log) <==> (u, h, true) in log {
      if (u, h) in Found(log) {
        var e :| e in log && e.2 && (e.0, e.1) == (u, h);
        assert e == (u, h, true);
      }
    }
  }

  // ---------- the nest on a reducible graph ----------

  /** Both ends of an edge of the path have a loop. */
  ghost predicate LoopsOne(info: LoopInfo, q: seq<Block>) {
    exists i: nat :: i + 1 < |q| && q[i] in info.loopOf && q[i + 1] in info.loopOf
  }

  ghost predicate TakesBackEdge(es: Edges, s: Block, q: seq<Block>) {
    exists i: nat :: i + 1 < |q| && BackEdge(es, s, q[i], q[i + 1])
  }

  /** Processing loops takes no block out of its loop. */
  lemma {:induction false} PopulatedKeeps(g: Graph, info: LoopInfo, order: seq<LoopId>, b: Block)
    requires b in info.loopOf
    ensures b in Populated(g, info, order).loopOf && Populated(g, info, order).loopOf[b] == info.loopOf[b]
  {
    if order != [] {
      PopulatedKeeps(g, info, order[..|order| - 1], b);
    }
  }

  /** A cycle that takes no back edge has an edge both of whose ends have a loop in the outcome. */
  lemma CycleIsLooped(g: Graph, s: Block, log: seq<Classified>, order: seq<LoopId>, q: seq<Block>)
    requires MeetsOne(log, q) && !TakesBackEdge(g.AllEdges(), s, q)
    requires forall u: Block, h: Block :: (u, h, true) in log ==> BackEdge(g.AllEdges(), s, u, h)
    ensures LoopsOne(Populated(g, Replay(log).info, order), q)
  {
    hide BackEdge, Populated, Replay;
    var i: nat :| i + 1 < |q| && MetAt(log, q, i);
    assert (q[i], q[i + 1], false) in log;
    ReplayKeepsTable(log);
    hide TableOk;
    PopulatedKeeps(g, Replay(log).info, order, q[i]);
    PopulatedKeeps(g, Replay(log).info, order, q[i + 1]);
  }

  lemma FinishFacts(g: Graph, s: Block, finish: seq<Block>, black: set<Block>, log: seq<Classified>)
    requires FinishInv(g, s, finish, black, log)
    ensures forall e :: e in log ==> e.1 in g.Succs(e.0) && Reach(g.AllEdges(), e.1, e.0)
    ensures forall e :: e in log ==> (e.2 <==> SDom(g.AllEdges(), s, e.1, e.0))
  {
    hide Reach, Dom;
  }

  /** Replaying edges of the graph makes loops of blocks of the graph. */
  lemma {:induction false} ReplayInGraph(g: Graph, log: seq<Classified>)
    requires g.Closed() && forall e :: e in log ==> e.1 in g.Succs(e.0)
    ensures InGraph(g, Replay(log).info)
  {
    if log != [] {
      var n := |log| - 1;
      assert forall e :: e in log[..n] ==> e in log;
      ReplayInGraph(g, log[..n]);
      assert log[n] in log;
      ClassifyInGraph(g, Replay(log[..n]), log[n].0, log[n].1, log[n].2);
    }
  }

  lemma ClassifyInGraph(g: Graph, t: Table, u: Block, h: Block, back: bool)
    requires t.info.IdsOk() && InGraph(g, t.info) && u in g.blocks && h in g.blocks
    ensures InGraph(g, Classify(t, u, h, back).info)
  {
    assert u in Elems(g.blocks) && h in Elems(g.blocks);
  }

  lemma TableHeads(t: Table)
    requires TableOk(t)
    ensures forall l: nat :: l in t.red ==> l < |t.info.loops| && t.info.loops[l].head.Some?
  {
  }

  lemma SortedMembers(info: LoopInfo, index: map<Block, nat>, red: seq<LoopId>)
    ensures forall l: LoopId :: l in SortLoops(info, index, red) <==> l in red
  {
  }

  lemma NothingPopulated(g: Graph, info: LoopInfo, order: seq<LoopId>)
    ensures Populated(g, info, order[..0]) == info && SameHeads(info, info)
  {
  }

  /** Processing the loops by falling index of their heads extends the nest header by header. */
  lemma {:induction false} PopulatedNest(g: Graph, s: Block, info: LoopInfo, r: seq<Block>, index: map<Block, nat>,
                                         order: seq<LoopId>, k: nat)
    requires g.Closed() && SourcesReached(g.AllEdges(), s) && InGraph(g, info)
    requires IsRpo(g, s, None, r) && IndexMap(r, index) && Nested(g.AllEdges(), s, info, {})
    requires FallingOrder(info, index, order) && k <= |order|
    ensures var now := Populated(g, info, order[..k]);
            Nested(g.AllEdges(), s, now, HeadsOf(info, order, k)) && SameHeads(info, now) && InGraph(g, now)
  {
    hide *;
    if k == 0 {
      NothingPopulated(g, info, order);
      NoHeadsYet(info, order);
    } else {
      PopulatedNest(g, s, info, r, index, order, k - 1);
      var before, l := Populated(g, info, order[..k - 1]), order[k - 1];
      NextInOrder(g, s, info, before, r, index, order, k - 1);
      HeadKept(info, before, l);
      PopulatedNext(g, info, order, k - 1);
      ProcessedNext(g, s, before, HeadsOf(info, order, k - 1), l);
      ProcessedInGraph(g, before, l);
      SameHeadsTrans(info, before, LoopProcessed(g, before, l));
    }
  }

  lemma ProcessedNext(g: Graph, s: Block, info: LoopInfo, done: set<Block>, l: LoopId)
    requires g.Closed() && SourcesReached(g.AllEdges(), s) && InGraph(g, info) && Nested(g.AllEdges(), s, info, done)
    requires l < |info.loops| && info.loops[l].head.Some?
    requires NextHeader(g.AllEdges(), s, info, done, l, info.loops[l].head.value)
    ensures Nested(g.AllEdges(), s, LoopProcessed(g, info, l), done + {info.loops[l].head.value})
  {
    hide Nested, NextHeader, SourcesReached, Flooded, BackEdge, Header, IsFlood, IsLoopSet, FloodSet;
    var h, nodes := info.loops[l].head.value, info.loops[l].nodes;
    UnprocessedNodes(g.AllEdges(), s, info, done, l, h);
    FloodSetIs(g, nodes, h, {});
    FloodIsLoop(g.AllEdges(), s, nodes, h, FloodSet(g, nodes, h));
    ProcessedNest(g.AllEdges(), s, info, done, l, h, FloodSet(g, nodes, h));
  }

  lemma ReducibleNest(g: Graph, s: Block, r: seq<Block>, index: map<Block, nat>, log: seq<Classified>)
    requires g.Closed() && SourcesReached(g.AllEdges(), s) && IsRpo(g, s, None, r) && IndexMap(r, index)
    requires AllBack(log) && forall e :: e in log ==> e.1 in g.Succs(e.0)
    requires forall u: Block, h: Block :: (u, h, true) in log <==> BackEdge(g.AllEdges(), s, u, h)
    ensures var t := Replay(log);
            t.irr == [] && NestDone(g.AllEdges(), s, Populated(g, t.info, SortLoops(t.info, index, t.red)))
  {
    hide *;
    var t := Replay(log);
    ReplayMatches(log);
    FoundIsBackEdges(g, s, log);
    CollectedNest(g.AllEdges(), s, t, Found(log));
    MatchLists(t, Found(log));
    ReplayInGraph(g, log);
    var order := SortLoops(t.info, index, t.red);
    SortedIsFalling(t.info, index, t.red);
    PopulatedNest(g, s, t.info, r, index, order, |order|);
    assert order[..|order|] == order;
    AllProcessed(g.AllEdges(), s, t.info, Populated(g, t.info, order), index, order);
  }

  lemma MatchLists(t: Table, found: Edges)
    requires LoopsMatch(t, found)
    ensures t.irr == [] && t.red == seq(|t.info.loops|, i => i)
  {
  }

  /** The block-to-node map of the reverse postorder. */
  method IndexBlocks(rpo: seq<BlockWithIndex>) returns (index: map<Block, nat>)
    requires rpo == Enumerate(BlocksOf(rpo)) && Distinct(BlocksOf(rpo))
    ensures IndexMap(BlocksOf(rpo), index)
  {
    index := map[];
    for i := 0 to |rpo|
      invariant forall j :: 0 <= j < i ==> rpo[j].0 in index && index[rpo[j].0] == j
    {
      assert BlocksOf(rpo)[i] == rpo[i].0;
      assert forall j :: 0 <= j < i ==> BlocksOf(rpo)[j] == rpo[j].0 && BlocksOf(rpo)[j] != BlocksOf(rpo)[i];
      index := index[rpo[i].0 := rpo[i].1];
    }
  }

  // ---------- the analyzer ----------

  class LoopAnalyzer {
    const g: Graph
    const dominators: Info
    var loops: seq<Loop>
    var loopOf: map<Block, LoopId>
    var reducibleLoops: seq<LoopId>
    var irreducibleLoops: seq<LoopId>
    /** The sets markedWithGrey and markedWithBlack of the first search, and the visited set of the second. */
    var grey: set<Block>
    var black: set<Block>
    var visited: set<Block>
    /** The edges to grey blocks, in the order they were examined, and the blocks in the order they were left. */
    ghost var log: seq<Classified>
    ghost var finish: seq<Block>

    constructor (g: Graph, dominators: Info)
      ensures this.g == g && this.dominators == dominators
      ensures CurrentTable() == Table(LoopInfo([], map[]), [], [])
      ensures grey == {} && black == {} && log == [] && finish == []
    {
      this.g, this.dominators := g, dominators;
      loops, loopOf, reducibleLoops, irreducibleLoops := [], map[], [], [];
      grey, black, visited, log, finish := {}, {}, {}, [], [];
    }

    function Facts(): (f: LoopInfo)
      reads this`loops, this`loopOf
      ensures f.loops == loops && f.loopOf == loopOf
    {
      LoopInfo(loops, loopOf)
    }

    function CurrentTable(): (t: Table)
      reads this`loops, this`loopOf, this`reducibleLoops, this`irreducibleLoops
      ensures t.info == Facts() && t.red == reducibleLoops && t.irr == irreducibleLoops
    {
      Table(Facts(), reducibleLoops, irreducibleLoops)
    }

    ghost predicate RecordsDominance(s: Block) {
      forall d, b :: Reach(g.AllEdges(), s, b) ==> (dominators.Records(d, b) <==> SDom(g.AllEdges(), s, d, b))
    }

    /** An edge to a grey dominator: the target's loop, created on demand, gets the source as a node. */
    method AddBackEdge(block: Block, succ: Block)
      requires Facts().IdsOk()
      modifies this`loops, this`loopOf, this`reducibleLoops
      ensures CurrentTable() == Classify(old(CurrentTable()), block, succ, true)
    {
      if succ !in loopOf {
        var l := |loops|;
        loops := loops + [Loop(Some(succ), {}, {}, true)];
        reducibleLoops := reducibleLoops + [l];
        loopOf := loopOf[succ := l];
      }
      var l := loopOf[succ];
      loops := loops[l := loops[l].AddNode(block)];
      assert {} + {block} == {block};
      assert succ !in old(loopOf) ==> loops == old(loops) + [Loop(Some(succ), {block}, {}, true)];
    }

    /** An edge to a grey block that does not dominate: ends without a loop join the other end's, or a new one. */
    method MergeIrreducible(block: Block, succ: Block)
      requires Facts().IdsOk()
      modifies this`loops, this`loopOf, this`irreducibleLoops
      ensures CurrentTable() == Classify(old(CurrentTable()), block, succ, false)
      ensures Merged(old(CurrentTable()), CurrentTable(), block, succ)
    {
      MergeOutcome(CurrentTable(), block, succ);
      hide Merged;
      if succ in loopOf || block in loopOf {
        var existing := if succ in loopOf then loopOf[succ] else loopOf[block];
        if succ !in loopOf {
          loopOf := loopOf[succ := existing];
          loops := loops[existing := loops[existing].AddNode(succ)];
        }
        if block !in loopOf {
          loopOf := loopOf[block := existing];
          loops := loops[existing := loops[existing].AddNode(block)];
        }
      } else {
        var l := |loops|;
        loops := loops + [Loop(None, {}, {}, false)];
        irreducibleLoops := irreducibleLoops + [l];
        loops := loops[l := loops[l].AddNode(succ).AddNode(block)];
        assert {} + {succ} + {block} == {succ, block};
        assert loops == old(loops) + [Loop(None, {succ, block}, {}, false)];
        loopOf := loopOf[succ := l][block := l];
      }
    }

    /** The body of the successor loop. */
    method FollowEdge(block: Block, succ: Block, ghost s: Block, ghost stack: seq<Block>)
      requires g.Closed() && RecordsDominance(s)
      requires succ in g.Succs(block) && Reach(g.AllEdges(), s, block) && grey !! black
      requires PathTo(Forward(g.AllEdges(), s), s, block, stack + [block])
      requires CollectInv(g, s, stack + [block], grey, black, log) && FinishInv(g, s, finish, black, log)
      requires CurrentTable() == Replay(log) && (Tame(g.AllEdges(), s) ==> AllBack(log))
      modifies this`loops, this`loopOf, this`reducibleLoops, this`irreducibleLoops
      modifies this`grey, this`black, this`log, this`finish
      ensures CollectInv(g, s, stack + [block], grey, black, log) && FinishInv(g, s, finish, black, log)
      ensures CurrentTable() == Replay(log) && (Tame(g.AllEdges(), s) ==> AllBack(log))
      ensures grey == old(grey) && old(black) <= black && (forall e :: e in old(log) ==> e in log)
      ensures grey !! black && (succ in black || Met(log, block, succ)) && (succ in black || succ in grey)
      ensures SDom(g.AllEdges(), s, succ, block) ==> (block, succ, true) in log
      decreases Elems(g.blocks) - (grey + black), 2
    {
      hide CollectInv, FinishInv, Met, Tame, PathTo, Dom, Reach, Forward, Replay, AllBack;
      if succ in grey {
        ghost var back := SDom(g.AllEdges(), s, succ, block);
        GreyEdge(g, s, stack, grey, black, log, block, succ, back);
        GreyIsStack(g, s, stack + [block], grey, black, log);
        FinishLog(g, s, stack, finish, black, log, block, succ, back);
        if dominators.Records(succ, block) {
          AddBackEdge(block, succ);
        } else {
          MergeIrreducible(block, succ);
        }
        ReplayAppend(log, (block, succ, back));
        log := log + [(block, succ, back)];
      } else {
        WhiteEdge(g, s, stack, grey, black, log, block, succ);
        CollectVisit(succ, s, stack + [block]);
      }
    }

    /** CollectBackEdgesDFSHelper. */
    method CollectVisit(block: Block, ghost s: Block, ghost stack: seq<Block>)
      requires g.Closed() && RecordsDominance(s) && block in g.blocks && block !in grey && grey !! black
      requires CollectInv(g, s, stack, grey, black, log) && FinishInv(g, s, finish, black, log)
      requires CurrentTable() == Replay(log) && (Tame(g.AllEdges(), s) ==> AllBack(log))
      requires block !in black ==> PathTo(Forward(g.AllEdges(), s), s, block, stack + [block])
      modifies this`loops, this`loopOf, this`reducibleLoops, this`irreducibleLoops
      modifies this`grey, this`black, this`log, this`finish
      ensures CollectInv(g, s, stack, grey, black, log) && FinishInv(g, s, finish, black, log)
      ensures CurrentTable() == Replay(log) && (Tame(g.AllEdges(), s) ==> AllBack(log))
      ensures grey == old(grey) && grey !! black && old(black) <= black && block in black
      ensures forall e :: e in old(log) ==> e in log
      decreases Elems(g.blocks) - (grey + black), 1
    {
      hide CollectInv, FinishInv, Met, Tame, PathTo, Dom, Reach, Forward, Replay, AllBack;
      if block in black {
        return;
      }
      ghost var es := g.AllEdges();
      ForwardReach(es, s, stack + [block], block);
      CollectEnter(g, s, stack, grey, black, log, block);
      grey := grey + {block};
      var succs := g.Succs(block);
      for k := 0 to |succs|
        invariant CollectInv(g, s, stack + [block], grey, black, log) && FinishInv(g, s, finish, black, log)
        invariant CurrentTable() == Replay(log) && (Tame(es, s) ==> AllBack(log))
        invariant grey == old(grey) + {block} && old(black) <= black && grey !! black
        invariant forall e :: e in old(log) ==> e in log
        invariant forall j :: 0 <= j < k ==> succs[j] in black || succs[j] in grey
        invariant forall j :: 0 <= j < k ==> succs[j] in black || Met(log, block, succs[j])
        invariant forall j :: 0 <= j < k && SDom(es, s, succs[j], block) ==> (block, succs[j], true) in log
      {
        ghost var before := log;
        FollowEdge(block, succs[k], s, stack);
        forall j | 0 <= j < k && Met(before, block, succs[j]) ensures Met(log, block, succs[j]) {
          MetStays(before, log, block, succs[j]);
        }
      }
      CollectLeave(g, s, stack, grey, black, log, block);
      FinishLeave(g, s, finish, black, log, block);
      finish := finish + [block];
      grey := grey - {block};
      black := black + {block};
    }

    // ---------- second phase ----------

    method AddNode(l: LoopId, b: Block)
      requires l < |loops|
      modifies this`loops
      ensures loops == old(loops)[l := old(loops[l]).AddNode(b)]
    {
      loops := loops[l := loops[l].AddNode(b)];
    }

    method AddSubLoop(l: LoopId, m: LoopId)
      requires l < |loops|
      modifies this`loops
      ensures loops == old(loops)[l := old(loops[l]).AddSubLoop(m)]
    {
      loops := loops[l := loops[l].AddSubLoop(m)];
    }

    /** Assigns an unassigned block to loop `l`, or records its loop as a subloop. */
    method Mark(block: Block, l: LoopId, ghost h: Block, ghost info: LoopInfo)
      requires l < |info.loops| && Facts() == Flooded(info, l, h, visited)
      requires block !in visited && block != h
      modifies this`loops, this`loopOf, this`visited
      ensures Facts() == Flooded(info, l, h, visited) && visited == old(visited) + {block}
    {
      hide *;
      if block in info.loopOf {
        FloodedOld(info, l, h, visited, block);
      } else {
        FloodedNew(info, l, h, visited, block);
      }
      FloodedSize(info, l, h, visited);
      FloodedSize(info, l, h, visited + {block});
      visited := visited + {block};
      if block !in loopOf {
        loopOf := loopOf[block := l];
        AddNode(l, block);
      } else if loopOf[block] != l {
        AddSubLoop(l, loopOf[block]);
      }
    }

    /** PopulateLoopsDFSHelper: floods backwards from `block`; `info` is the state before the flood. */
    method Flood(block: Block, l: LoopId, ghost nodes: set<Block>, ghost h: Block, ghost info: LoopInfo)
      requires g.Closed() && g.Mirrored() && block in g.blocks
      requires l < |info.loops| && Facts() == Flooded(info, l, h, visited)
      requires h in visited && (block !in visited ==> ReachesNode(g.AllEdges(), nodes, h, block))
      modifies this`loops, this`loopOf, this`visited
      ensures Facts() == Flooded(info, l, h, visited)
      ensures old(visited) <= visited && block in visited
      ensures forall x :: x in visited && x !in old(visited) ==> FloodedBlock(g, nodes, h, visited, x)
      decreases Elems(g.blocks) - visited
    {
      if block in visited {
        return;
      }
      assert ReachesNode(g.AllEdges(), nodes, h, block);
      assert block in Elems(g.blocks);
      hide *;
      ghost var seen := visited;
      Mark(block, l, h, info);
      var preds := g.Preds(block);
      for k := 0 to |preds|
        invariant Facts() == Flooded(info, l, h, visited)
        invariant seen + {block} <= visited
        invariant forall x :: x in visited && x !in seen + {block} ==> FloodedBlock(g, nodes, h, visited, x)
        invariant forall j :: 0 <= j < k ==> preds[j] in visited
      {
        ghost var earlier := visited;
        PredFloods(g, nodes, h, block, preds[k]);
        Flood(preds[k], l, nodes, h, info);
        FloodsGrow(g, nodes, h, seen + {block}, earlier, visited);
      }
      assert FloodedBlock(g, nodes, h, visited, block) by {
        BlockFlooded(g, nodes, h, visited, block);
      }
    }

    /** ProcessLoop: floods from every node the loop has so far. */
    method ProcessLoop(l: LoopId)
      requires g.Closed() && g.Mirrored() && InGraph(g, Facts()) && l < |loops| && loops[l].head.Some?
      modifies this`loops, this`loopOf, this`visited
      ensures Facts() == LoopProcessed(g, old(Facts()), l)
    {
      hide Flooded, FloodedBlock, ReachesNode, SameHeads;
      var h := loops[l].head.value;
      ghost var info := Facts();
      visited := {h};
      FloodedStart(info, l, h);
      var initialNodes := loops[l].nodes;
      var remaining := initialNodes;
      while remaining != {}
        invariant remaining <= initialNodes && h in visited
        invariant Facts() == Flooded(info, l, h, visited)
        invariant forall x :: x in visited && x != h ==> FloodedBlock(g, initialNodes, h, visited, x)
        invariant forall u :: u in initialNodes && u !in remaining ==> u in visited
        decreases remaining
      {
        var node :| node in remaining;
        remaining := remaining - {node};
        ghost var earlier := visited;
        if node != h {
          NodeReaches(g.AllEdges(), initialNodes, h, node);
          Flood(node, l, initialNodes, h, info);
        }
        forall x | x in visited && x != h ensures FloodedBlock(g, initialNodes, h, visited, x) {
          FloodedGrows(g, initialNodes, h, earlier, visited, x);
        }
      }
      FloodIsExact(g, initialNodes, h, visited);
      FloodSetIs(g, initialNodes, h, visited);
    }

    /** PopulateLoops: the loops are processed by falling index of their heads. */
    method PopulateLoops(index: map<Block, nat>)
      requires g.Closed() && g.Mirrored() && InGraph(g, Facts())
      requires forall l: nat :: l in reducibleLoops ==> l < |loops| && loops[l].head.Some?
      modifies this`loops, this`loopOf, this`visited, this`reducibleLoops
      ensures reducibleLoops == SortLoops(old(Facts()), index, old(reducibleLoops))
      ensures Facts() == Populated(g, old(Facts()), reducibleLoops)
    {
      hide *;
      ghost var info := Facts();
      SortedMembers(info, index, reducibleLoops);
      reducibleLoops := SortLoops(Facts(), index, reducibleLoops);
      ghost var order := reducibleLoops;
      NothingPopulated(g, info, order);
      for k := 0 to |reducibleLoops|
        invariant reducibleLoops == order
        invariant Facts() == Populated(g, info, order[..k])
        invariant InGraph(g, Facts()) && SameHeads(info, Facts())
      {
        ghost var earlier := Facts();
        assert order[k] in order;
        HeadKept(info, Facts(), reducibleLoops[k]);
        ProcessLoop(reducibleLoops[k]);
        PopulatedNext(g, info, order, k);
        ProcessedInGraph(g, earlier, order[k]);
        SameHeadsTrans(info, earlier, Facts());
      }
      assert order[..|order|] == order;
    }

    /** FindLoops, with the dominators already found.  On any graph the back edges found are those to strict
        dominators, and every cycle has an edge that has been met; on a reducible one the nest is complete. */
    method FindLoops(s: Block) returns (ghost index: map<Block, nat>)
      requires g.Closed() && g.Mirrored() && s in g.blocks && RecordsDominance(s)
      requires CurrentTable() == Table(LoopInfo([], map[]), [], [])
      requires grey == {} && black == {} && log == [] && finish == []
      modifies this
      ensures TableOk(Replay(log))
      ensures forall e :: e in log ==> e.1 in g.Succs(e.0) && Reach(g.AllEdges(), e.1, e.0)
      ensures forall e :: e in log ==> (e.2 <==> SDom(g.AllEdges(), s, e.1, e.0))
      ensures forall u: Block, h: Block :: (u, h, true) in log <==> BackEdge(g.AllEdges(), s, u, h)
      ensures forall q :: Cycle(g.AllEdges(), s, q) ==> MeetsOne(log, q)
      ensures forall q :: Cycle(g.AllEdges(), s, q) ==>
                TakesBackEdge(g.AllEdges(), s, q) || LoopsOne(Facts(), q)
      ensures reducibleLoops == SortLoops(Replay(log).info, index, Replay(log).red)
      ensures irreducibleLoops == Replay(log).irr
      ensures Facts() == Populated(g, Replay(log).info, reducibleLoops)
      ensures SourcesReached(g.AllEdges(), s) && Tame(g.AllEdges(), s) ==>
                NestDone(g.AllEdges(), s, Facts()) && irreducibleLoops == []
    {
      hide *;
      var rpo := ReversePostOrder(g, s, None);
      var blockToNode := IndexBlocks(rpo);
      index := blockToNode;
      SearchStarts(g, s);
      FinishStarts(g, s);
      CollectVisit(s, s, []);
      SearchCovers(g, s, grey, black, log);
      FinishFacts(g, s, finish, black, log);
      ReplayInGraph(g, log);
      ReplayKeepsTable(log);
      TableHeads(Replay(log));
      forall q | Cycle(g.AllEdges(), s, q) ensures MeetsOne(log, q) {
        CycleIsMet(g, s, grey, black, finish, log, q);
      }
      PopulateLoops(blockToNode);
      forall q | Cycle(g.AllEdges(), s, q)
        ensures TakesBackEdge(g.AllEdges(), s, q) || LoopsOne(Facts(), q)
      {
        if !TakesBackEdge(g.AllEdges(), s, q) {
          CycleIsLooped(g, s, log, reducibleLoops, q);
        }
      }
      if SourcesReached(g.AllEdges(), s) && Tame(g.AllEdges(), s) {
        ReducibleNest(g, s, BlocksOf(rpo), blockToNode, log);
      }
    }
  }
}
