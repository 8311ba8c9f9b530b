/** The analyses in the order in which they feed each other: dominators, loops, linear order, liveness,
    register allocation (tests/reg_alloc_1.cpp:35-52). */
module Pipeline {
  import opened Util
  import opened Cfg
  import opened Rpo
  import opened Ir
  import opened Dominators
  import opened NaturalLoops
  import opened Loops
  import opened LinearOrder
  import opened LiveRanges
  import opened Liveness
  import opened LivenessPass
  import opened LivenessTheory
  import opened LivenessExact
  import opened RangesExact
  import opened Pools
  import opened RegAlloc

  /** A reducible graph in strict SSA form, all of whose blocks are reachable. */
  ghost predicate Compilable(p: Prog, s: Block) {
    && p.g.Closed() && p.g.Mirrored() && s in p.g.blocks && p.Ssa(s) && p.NoParallelEdges()
    && (forall b :: b in p.g.blocks ==> Reach(p.Edges(), s, b))
    && Tame(p.Edges(), s)
  }

  lemma SourcesAreReached(p: Prog, s: Block)
    requires Compilable(p, s)
    ensures SourcesReached(p.Edges(), s)
  {
    hide Reach;
    forall e | e in p.Edges() ensures Reach(p.Edges(), s, e.0) {
      assert e.0 in p.g.succs;
    }
  }

  lemma IsSchedulable(p: Prog, s: Block, info: LoopInfo)
    requires Compilable(p, s) && NestDone(p.Edges(), s, info)
    ensures Schedulable(p.g, s, info)
  {
    SourcesAreReached(p, s);
    hide Reach, NestDone;
    NestNamesBackEdges(p.Edges(), s, info);
  }

  // ---------- the line suits the liveness pass ----------

  /** In a line that respects forward edges, every block follows its dominators. */
  lemma {:induction false} DominatorsPrecede(es: Edges, s: Block, order: seq<Block>, i: nat, d: Block)
    requires Distinct(order) && ForwardOrdered(es, s, order) && i < |order|
    requires Reach(es, s, order[i]) && SDom(es, s, d, order[i])
    ensures d in order[..i]
    decreases i
  {
    hide Dom;
    var b := order[i];
    if b == s {
      NothingAboveStart(es, s, d);
    } else {
      var u := EnteredForward(es, s, b);
      assert Precedes(order, u, b);
      var j, k :| 0 <= j < k < |order| && order[j] == u && order[k] == b;
      assert k == i;
      DomPred(es, s, d, u, b);
      if d == u {
        assert order[..i][j] == d;
      } else {
        DominatorsPrecede(es, s, order, j, d);
        assert order[..j] <= order[..i];
      }
    }
  }

  lemma LineOfSchedule(p: Prog, s: Block, order: seq<Block>)
    requires Compilable(p, s) && Permutes(p.g.blocks, s, order) && ForwardOrdered(p.Edges(), s, order)
    ensures Lined(p, s, order)
  {
    hide Reach, Dom;
    var es := p.Edges();
    forall d, b | b in order && SDom(es, s, d, b) ensures Precedes(order, d, b) {
      var i := FirstIndex(order, b);
      DominatorsPrecede(es, s, order, i, d);
      var j := FirstIndex(order[..i], d);
      assert order[j] == d;
    }
  }

  /** A latch of a loop is one of its nodes and comes after its header. */
  lemma LatchesFollow(p: Prog, s: Block, info: LoopInfo, order: seq<Block>)
    requires Compilable(p, s) && NestDone(p.Edges(), s, info) && Lined(p, s, order)
    ensures LatchesLater(p, order, info)
  {
    hide Dom, Reach, Ir.Prog.Ssa, Tame;
    var es := p.Edges();
    forall h | h in order && IsLoopHeader(info, h) ensures NodeNotBefore(order, info.loops[info.loopOf[h]].nodes, h) {
      HeadOfNest(es, s, info, h);
      var u :| BackEdge(es, s, u, h);
      NodesOfLoop(es, s, info, h);
      EdgeIsSucc(p.g, u, h);
      assert u in p.g.succs && u in order;
      assert Precedes(order, h, u);
      PrecedesIndex(order, h, u);
    }
  }

  lemma HeadOfNest(es: Edges, s: Block, info: LoopInfo, h: Block)
    requires NestDone(es, s, info) && IsLoopHeader(info, h)
    ensures Header(es, s, h) && h in info.loopOf && info.loopOf[h] < |info.loops|
  {
    hide Dom, Reach, BackEdge, ReachesLatch;
    var done :| Nested(es, s, info, done) && AllHeaders(es, s, done);
    assert AssignedOk(es, s, info, done, h);
    assert LoopOk(es, s, info, done, info.loopOf[h]);
  }

  // ---------- the numbering suits the allocator ----------

  lemma StreamMember(p: Prog, order: seq<Block>, k: nat, v: Id)
    requires k <= |order|
    ensures v in Stream(p, order, k) <==> exists i :: 0 <= i < k && (v in p.Phis(order[i]) || v in p.Body(order[i]))
  {
  }

  /** Instructions before position `pos` come first, and their positions do not fall. */
  ghost predicate Rises(live: map<Id, nat>, stream: seq<Id>, pos: nat) {
    && Distinct(stream)
    && (forall i, j :: 0 <= i < j < |stream| ==> LiveOf(live, stream[i]) <= LiveOf(live, stream[j]))
    && (forall v :: v in stream ==> LiveOf(live, v) <= pos)
  }

  lemma RisesAppend(live: map<Id, nat>, a: seq<Id>, pos: nat, b: seq<Id>, pos': nat)
    requires Rises(live, a, pos) && Rises(live, b, pos')
    requires forall v :: v in b ==> v !in a && pos <= LiveOf(live, v)
    requires pos <= pos'
    ensures Rises(live, a + b, pos')
  {
    var c := a + b;
    forall i, j | 0 <= i < j < |c| ensures c[i] != c[j] && LiveOf(live, c[i]) <= LiveOf(live, c[j]) {
      if j < |a| {
        assert c[i] == a[i] && c[j] == a[j];
      } else if i >= |a| {
        assert c[i] == b[i - |a|] && c[j] == b[j - |a|];
      } else {
        assert c[i] in a && c[j] == b[j - |a|] && c[j] in b;
      }
    }
  }

  lemma BlockRises(p: Prog, lay: Layout, b: Block)
    requires p.Placed() && Numbered(p, lay) && b in lay.order
    ensures Rises(lay.live, p.Phis(b), lay.Start(b)) && Rises(lay.live, p.Body(b), lay.End(b))
    ensures forall v :: v in p.Phis(b) ==> LiveOf(lay.live, v) == lay.Start(b)
    ensures forall v :: v in p.Body(b) ==> v !in p.Phis(b) && lay.Start(b) <= LiveOf(lay.live, v)
  {
    BlockPositions(p, lay, b);
    forall v | v in p.Phis(b) ensures LiveOf(lay.live, v) == lay.Start(b) {
    }
    forall m | 0 <= m < |p.Body(b)| ensures LiveOf(lay.live, p.Body(b)[m]) == lay.Start(b) + 2 * m + 2 {
    }
  }

  lemma {:induction false} StreamRises(p: Prog, lay: Layout, k: nat)
    requires p.Placed() && Numbered(p, lay) && Distinct(lay.order) && k <= |lay.order|
    ensures Rises(lay.live, Stream(p, lay.order, k), StartAt(p, lay.order, k))
  {
    if k > 0 {
      hide Rises, Ir.Prog.Placed;
      var b := lay.order[k - 1];
      StreamRises(p, lay, k - 1);
      assert BlockNumbered(p, lay, k - 1);
      IndexUnique(lay.order, k - 1);
      BlockRises(p, lay, b);
      BlockPositions(p, lay, b);
      forall v | v in p.Phis(b) || v in p.Body(b) ensures v !in Stream(p, lay.order, k - 1) {
        NotYetListed(p, lay.order, k - 1, v);
      }
      RisesAppend(lay.live, Stream(p, lay.order, k - 1), lay.Start(b), p.Phis(b), lay.Start(b));
      RisesAppend(lay.live, Stream(p, lay.order, k - 1) + p.Phis(b), lay.Start(b), p.Body(b), lay.End(b));
    } else {
      assert Stream(p, lay.order, 0) == [];
    }
  }

  lemma NotYetListed(p: Prog, order: seq<Block>, k: nat, v: Id)
    requires p.Placed() && Distinct(order) && k < |order| && (v in p.Phis(order[k]) || v in p.Body(order[k]))
    ensures v !in Stream(p, order, k)
  {
    hide Ir.Prog.Placed, Stream;
    StreamMember(p, order, k, v);
    forall i | 0 <= i < k ensures v !in p.Phis(order[i]) && v !in p.Body(order[i]) {
      PlacesDisjoint(p, order[k], order[i], v);
    }
  }

  /** Ranges start no earlier than the definition and do not end before they start. */
  lemma RangeStarts(p: Prog, s: Block, info: LoopInfo, lay: Layout, li: map<Block, set<Id>>,
                    ranges: map<Id, LiveRange>, v: Id)
    requires RangesInv(p, lay, info, li, 0, ranges)
    ensures StartsInTime(lay.live, ranges, v)
  {
    if v in ranges && ranges[v].isRangeSet {
      hide EndFrom;
      var lr := ranges[v];
      assert HullOk(lr) && IntervalsInv(p, lay, info, li, 0, v, Intervals(lr));
      var iv :| iv in lr.intervals && iv.0 == lr.range.0;
      assert iv in Intervals(lr);
      assert Accounted(p, lay, info, li, 0, v, iv);
    } else {
      assert RangeOf(ranges, v) == (0, 0);
    }
  }

  lemma AllocatorReady(p: Prog, s: Block, info: LoopInfo, lay: Layout, li: map<Block, set<Id>>,
                       ranges: map<Id, LiveRange>)
    requires Analyzed(p, s, info, lay, li, ranges)
    ensures Scannable(lay.live, ranges, Stream(p, lay.order, |lay.order|))
  {
    StreamRises(p, lay, |lay.order|);
    forall v ensures StartsInTime(lay.live, ranges, v) {
      RangeStarts(p, s, info, lay, li, ranges, v);
    }
  }

  // ---------- values that are live together have different places ----------

  ghost predicate PlacedApart(alloc: Allocation, v: Id, w: Id) {
    v in alloc && w in alloc && |alloc[v]| == 1 && |alloc[w]| == 1 && alloc[v][0].1 != alloc[w][0].1
  }

  /** At every program point, values live there have places, different ones for different values. */
  ghost predicate LiveApart(p: Prog, order: seq<Block>, alloc: Allocation) {
    && (forall b, k, v :: b in order && LiveAt(p, b, k, v) ==> v in alloc)
    && (forall b, k, v, w :: b in order && LiveAt(p, b, k, v) && LiveAt(p, b, k, w) && v != w ==>
        PlacedApart(alloc, v, w))
  }

  lemma HeldHasPlace(p: Prog, s: Block, info: LoopInfo, lay: Layout, li: map<Block, set<Id>>,
                     ranges: map<Id, LiveRange>, places: set<Place>, alloc: Allocation, v: Id, pos: nat)
    requires Analyzed(p, s, info, lay, li, ranges) && Holds(ranges, v, pos)
    requires Complete(p, ranges, places, alloc, Stream(p, lay.order, |lay.order|))
    ensures v in alloc && |alloc[v]| == 1 && alloc[v][0].0 == RangeOf(ranges, v)
    ensures RangeOf(ranges, v).0 < pos < RangeOf(ranges, v).1
  {
    hide Reach, Dom, Ir.Prog.Strict, LiveInsInv, Numbered, BackEdgesAgree, ForwardOrdered, Tame, IntervalsInv;
    var b := p.code[v].bb;
    assert v in p.Phis(b) || v in p.Body(b);
    assert b in lay.order;
    StreamMember(p, lay.order, |lay.order|, v);
    var i := FirstIndex(lay.order, b);
    assert lay.order[i] == b;
    assert OnePlace(p, ranges, places, v, alloc[v]);
  }

  /** Sound ranges and an allocation without overlaps keep live values apart. */
  lemma SoundRangesApart(p: Prog, s: Block, info: LoopInfo, lay: Layout, li: map<Block, set<Id>>,
                         ranges: map<Id, LiveRange>, places: set<Place>, alloc: Allocation)
    requires Analyzed(p, s, info, lay, li, ranges) && Sound(p, lay, ranges)
    requires Complete(p, ranges, places, alloc, Stream(p, lay.order, |lay.order|)) && NoOverlap(alloc)
    ensures LiveApart(p, lay.order, alloc)
  {
    hide Analyzed, LiveAt, Holds, Complete, RangeOf, Stream;
    forall b, k, v | b in lay.order && LiveAt(p, b, k, v)
      ensures v in alloc && |alloc[v]| == 1 && alloc[v][0].0 == RangeOf(ranges, v)
      ensures RangeOf(ranges, v).0 < PointPos(lay, b, k) < RangeOf(ranges, v).1
    {
      HeldHasPlace(p, s, info, lay, li, ranges, places, alloc, v, PointPos(lay, b, k));
    }
    forall b, k, v, w | b in lay.order && LiveAt(p, b, k, v) && LiveAt(p, b, k, w) && v != w
      ensures PlacedApart(alloc, v, w)
    {
      assert Apart(alloc[v], alloc[w]);
      assert alloc[v][0] in alloc[v] && alloc[w][0] in alloc[w];
      assert Overlap(alloc[v][0].0, alloc[w][0].0);
    }
  }

  lemma CompilableFacts(p: Prog, s: Block)
    requires Compilable(p, s)
    ensures p.g.Closed() && p.g.Mirrored() && s in p.g.blocks && Tame(p.Edges(), s) && Distinct(p.g.blocks)
    ensures NoSelfEdges(p.Edges()) && p.Edges() == p.g.AllEdges()
  {
  }

  lemma DominanceRecorded(analyzer: LoopAnalyzer, s: Block, rpo: seq<BlockWithIndex>)
    requires RpoList(analyzer.g, s, rpo) && analyzer.dominators.Correct(analyzer.g, s, rpo)
    ensures analyzer.RecordsDominance(s)
  {
    hide Reach, SDom, RpoList, Info.Correct, Info.Records;
    forall d, b | Reach(analyzer.g.AllEdges(), s, b)
      ensures analyzer.dominators.Records(d, b) <==> SDom(analyzer.g.AllEdges(), s, d, b)
    {
      RecordsIsStrictDominance(analyzer.g, s, rpo, analyzer.dominators, d, b);
    }
  }

  lemma NowAnalyzed(p: Prog, s: Block, info: LoopInfo, lay: Layout, li: map<Block, set<Id>>, ranges: map<Id, LiveRange>)
    requires Lined(p, s, lay.order) && Numbered(p, lay) && Schedulable(p.g, s, info)
    requires ForwardOrdered(p.Edges(), s, lay.order)
    requires LiveInsInv(p, s, lay.order, li, 0) && RangesInv(p, lay, info, li, 0, ranges)
    ensures Analyzed(p, s, info, lay, li, ranges)
  {
    hide Lined, Numbered, Reach, LiveInsInv, RangesInv, ForwardOrdered, Tame, BackEdgesAgree;
  }

  lemma PermutesNonEmpty(blocks: seq<Block>, s: Block, order: seq<Block>)
    requires Permutes(blocks, s, order)
    ensures order != []
  {
  }

  lemma RegistersAmong(registers: seq<Place>, st: State)
    ensures Elems(registers) <= Places(Elems(registers), st)
  {
  }

  /** The whole chain on one graph. */
  method AllocateGraph(p: Prog, s: Block, registers: seq<Place>, nextId: nat)
    returns (alloc: Allocation, info: LoopInfo, lay: Layout, ranges: map<Id, LiveRange>,
             ghost li: map<Block, set<Id>>, ghost places: set<Place>, ghost held: set<Place>)
    requires Compilable(p, s) && Distinct(registers) && forall r :: r in registers ==> r.isReg
    ensures NestDone(p.Edges(), s, info)
    ensures Permutes(p.g.blocks, s, lay.order) && RulesKept(p.g, info, lay.order) && LineFollows(p.g, s, lay.order)
    ensures Analyzed(p, s, info, lay, li, ranges)
    ensures Elems(registers) <= places
    ensures Complete(p, ranges, places, alloc, Stream(p, lay.order, |lay.order|)) && NoOverlap(alloc)
    ensures AllChosenWell(p, lay.live, ranges, Elems(registers), alloc, Stream(p, lay.order, |lay.order|))
    ensures held == {} <==> AllPassed(lay.live, ranges, Stream(p, lay.order, |lay.order|))
    ensures forall v :: v in p.code ==> v in ranges && RunsFromDefinition(p, s, info, lay, v, ranges[v])
    ensures Sound(p, lay, ranges) <==> LoopsCarried(p, s, info, lay)
    ensures LoopsCarried(p, s, info, lay) ==> LiveApart(p, lay.order, alloc)
    ensures LoopEndsCover(p.Edges(), s, lay, info) ==> LiveApart(p, lay.order, alloc)
  {
    hide *;
    CompilableFacts(p, s);
    SourcesAreReached(p, s);
    var dominatorAnalyzer := new DominatorAnalyzer(p.g);
    var rpo := dominatorAnalyzer.FindDominators(s);
    var dominators := dominatorAnalyzer.Facts();
    var loopAnalyzer := new LoopAnalyzer(p.g, dominators);
    DominanceRecorded(loopAnalyzer, s, rpo);
    ghost var index := loopAnalyzer.FindLoops(s);
    info := loopAnalyzer.Facts();
    IsSchedulable(p, s, info);
    var linearOrderAnalyzer := new LinearOrderAnalyzer(p.g, info);
    ghost var forced := linearOrderAnalyzer.CreateLinearOrder(s);
    var order := linearOrderAnalyzer.linearOrder;
    LineOfSchedule(p, s, order);
    LatchesFollow(p, s, info, order);
    var liveness := new LivenessAnalyzer(p, info, order);
    liveness.CalculateLiveRanges(s);
    lay, ranges, li := liveness.Lay(), liveness.ranges, liveness.liveIn;
    NowAnalyzed(p, s, info, lay, li, ranges);
    AllocatorReady(p, s, info, lay, li, ranges);
    var allocator := new Allocator(p, order, lay.live, ranges, registers, nextId);
    PermutesNonEmpty(p.g.blocks, s, order);
    allocator.Allocate();
    alloc := allocator.alloc;
    places, held := Places(allocator.Regs(), allocator.St()), Held(allocator.events);
    SoundExactly(p, s, info, lay, li, ranges);
    forall v | v in p.code ensures v in ranges && RunsFromDefinition(p, s, info, lay, v, ranges[v]) {
      RangeExactly(p, s, info, lay, li, ranges, v);
    }
    if LoopsCarried(p, s, info, lay) {
      SoundRangesApart(p, s, info, lay, li, ranges, places, alloc);
    }
    if LoopEndsCover(p.Edges(), s, lay, info) {
      CoveringLoopEndsSuffice(p, s, info, lay, li, ranges);
      SoundRangesApart(p, s, info, lay, li, ranges, places, alloc);
    }
    RegistersAmong(registers, allocator.St());
  }
}
