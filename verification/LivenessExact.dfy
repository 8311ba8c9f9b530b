/** Exactly when one reverse pass covers liveness, in terms of the program, the line and the loop nest: of what
    there is before the pass starts (Analyzers/livenessAnalyzer.cpp:92-175). */
module LivenessExact {
  import opened Util
  import opened Cfg
  import opened Rpo
  import opened Ir
  import opened NaturalLoops
  import opened Loops
  import opened LinearOrder
  import opened LiveRanges
  import opened Liveness
  import opened LivenessPass
  import opened LivenessTheory

  /** `v` is live into `h` without taking a back edge: on the way through the graph that one pass follows. */
  ghost predicate ForwardLive(p: Prog, s: Block, h: Block, v: Id) {
    exists f :: ForwardLivePath(p, s, f, v) && f[0] == h
  }

  ghost predicate ForwardLivePath(p: Prog, s: Block, f: seq<Block>, v: Id) {
    Path(Forward(p.Edges(), s), f) && LivePath(p, f, v)
  }

  /** Something carries the range of `v` over the end of `b`: a read on an edge out of `b`, a read in a block later
      in the line, or a header that `v` is live into and whose loop, as the pass measures it, ends no earlier. */
  ghost predicate Carried(p: Prog, s: Block, info: LoopInfo, lay: Layout, b: Block, v: Id) {
    || v in PhiOut(p, b)
    || (exists c :: c in lay.order && lay.Index(b) < lay.Index(c) && ReadFrom(p, c, v))
    || (exists g :: g in lay.order && IsLoopHeader(info, g) && ForwardLive(p, s, g, v) &&
                    lay.End(b) <= LoopEnd(lay, info, g))
  }

  /** What is live into a header without taking a back edge is carried over the end of every block of its loop. */
  ghost predicate LoopsCarried(p: Prog, s: Block, info: LoopInfo, lay: Layout) {
    forall h, b, v :: InLoop(p.Edges(), s, h, b) && ForwardLive(p, s, h, v) ==> Carried(p, s, info, lay, b, v)
  }

  // ---------- the computed live-in sets ----------

  lemma ForwardIsRising(p: Prog, s: Block, order: seq<Block>, f: seq<Block>)
    requires Path(Forward(p.Edges(), s), f) && ForwardOrdered(p.Edges(), s, order) && Lined(p, s, order)
    requires f[0] in order
    ensures Rising(p.Edges(), order, f)
  {
    hide Dom, Lined;
    PathMono(Forward(p.Edges(), s), p.Edges(), f);
    PathInLine(p, s, order, f);
    forall i: nat | i + 1 < |f| ensures RisesAt(order, f, i) {
      assert Hop(Forward(p.Edges(), s), f, i);
    }
  }

  lemma RisingIsForward(es: Edges, s: Block, order: seq<Block>, f: seq<Block>)
    requires Rising(es, order, f) && DominatorsFirst(es, s, order) && Distinct(order)
    ensures Path(Forward(es, s), f)
  {
    hide Dom;
    forall i: nat | i + 1 < |f| ensures Hop(Forward(es, s), f, i) {
      assert RisesAt(order, f, i) && Hop(es, f, i);
      PrecedesIndex(order, f[i], f[i + 1]);
      if Dom(es, s, f[i + 1], f[i]) {
        assert f[i] in f && f[i + 1] in f;
        PrecedesIndex(order, f[i + 1], f[i]);
      }
    }
  }

  /** The live-in sets of the pass are liveness along forward edges. */
  lemma LiveInExactly(p: Prog, s: Block, order: seq<Block>, li: map<Block, set<Id>>, h: Block, v: Id)
    requires Lined(p, s, order) && LiveInsInv(p, s, order, li, 0) && ForwardOrdered(p.Edges(), s, order)
    requires h in order
    ensures h in li && (v in li[h] <==> ForwardLive(p, s, h, v))
  {
    hide Lined, LiveInsInv, ForwardOrdered, Rising, LivePath;
    LinedOrder(p, s, order);
    AllHaveLiveIns(p, s, order, li);
    if v in li[h] {
      var q := LiveInIsLive(p, s, order, li, h, v);
      RisingIsForward(p.Edges(), s, order, q);
      assert ForwardLivePath(p, s, q, v);
    }
    if f :| ForwardLivePath(p, s, f, v) && f[0] == h {
      ForwardIsRising(p, s, order, f);
      RisingLive(p, s, order, li, f, v);
    }
  }

  lemma AllHaveLiveIns(p: Prog, s: Block, order: seq<Block>, li: map<Block, set<Id>>)
    requires LiveInsInv(p, s, order, li, 0)
    ensures forall h :: h in li <==> h in order
  {
    hide LiveInsAbove, LiveInAt;
    assert order[0..] == order;
  }

  // ---------- what carries a range ----------

  /** A value read in a block has a range that holds a position inside or at the end of the block. */
  lemma ReadReaches(p: Prog, s: Block, info: LoopInfo, lay: Layout, li: map<Block, set<Id>>,
                    ranges: map<Id, LiveRange>, c: Block, v: Id)
    requires Analyzed(p, s, info, lay, li, ranges) && c in lay.order && ReadFrom(p, c, v)
    ensures v in ranges && lay.Start(c) <= ranges[v].range.1
    ensures v in PhiOut(p, c) ==> lay.End(c) <= ranges[v].range.1
  {
    hide LiveInsInv, RangesInv, Reach, Dom, Tame, BackEdgesAgree, ForwardOrdered, PhiOut, Numbered, Lo, Prog.Ssa;
    ReadExists(p, s, c, v);
    BlockPositions(p, lay, c);
    if v in PhiOut(p, c) {
      PhiOutIsOut(p, lay.order, li, c);
      AskSpanned(p, s, info, lay, li, ranges, c, v, lay.End(c));
    } else {
      var m :| 0 <= m < |p.Body(c)| && v in p.Inputs(p.Body(c)[m]);
      assert UsedAt(p, lay, c, 0, v, lay.Live(p.Body(c)[m]));
      AskSpanned(p, s, info, lay, li, ranges, c, v, lay.Live(p.Body(c)[m]));
    }
  }

  lemma StretchedBy(p: Prog, s: Block, info: LoopInfo, lay: Layout, li: map<Block, set<Id>>,
                    ranges: map<Id, LiveRange>, g: Block, v: Id)
    requires Analyzed(p, s, info, lay, li, ranges)
    requires g in lay.order && IsLoopHeader(info, g) && g in li && v in li[g]
    ensures Reaches(ranges, v, LoopEnd(lay, info, g))
  {
    hide RangesInv, Dom, Numbered, Reach, Lo, Lined, LiveInsInv, LoopEnd, Tame, BackEdgesAgree, ForwardOrdered;
    LiveInFacts(p, s, lay.order, li, g, v);
    assert Asks(p, lay, info, li, g, v, LoopEnd(lay, info, g));
    AskSpanned(p, s, info, lay, li, ranges, g, v, LoopEnd(lay, info, g));
  }

  lemma CarriedReaches(p: Prog, s: Block, info: LoopInfo, lay: Layout, li: map<Block, set<Id>>,
                       ranges: map<Id, LiveRange>, b: Block, v: Id)
    requires Analyzed(p, s, info, lay, li, ranges) && b in lay.order && Carried(p, s, info, lay, b, v)
    ensures Reaches(ranges, v, lay.End(b))
  {
    hide LiveInsInv, RangesInv, Dom, Numbered, Lined, LoopEnd, Tame, BackEdgesAgree, ForwardOrdered, PhiOut;
    hide ForwardLive;
    if v in PhiOut(p, b) {
      ReadReaches(p, s, info, lay, li, ranges, b, v);
    } else if c :| c in lay.order && lay.Index(b) < lay.Index(c) && ReadFrom(p, c, v) {
      ReadReaches(p, s, info, lay, li, ranges, c, v);
      LaterBlock(p, lay, b, c);
    } else {
      var g :| g in lay.order && IsLoopHeader(info, g) && ForwardLive(p, s, g, v) &&
               lay.End(b) <= LoopEnd(lay, info, g);
      LiveInExactly(p, s, lay.order, li, g, v);
      StretchedBy(p, s, info, lay, li, ranges, g, v);
    }
  }

  // ---------- nothing else does ----------

  /** A range ends where some block asks for it, or at the definition. */
  lemma EndAttained(p: Prog, lay: Layout, info: LoopInfo, li: map<Block, set<Id>>, ranges: map<Id, LiveRange>, v: Id)
    returns (b: Block)
    requires RangesInv(p, lay, info, li, 0, ranges) && v in ranges && ranges[v].isRangeSet
    ensures b in lay.order && EndFrom(p, lay, info, li, b, v, ranges[v].range.1)
  {
    hide EndFrom, AsksMet;
    assert HullOk(ranges[v]) && IntervalsInv(p, lay, info, li, 0, v, Intervals(ranges[v]));
    var iv :| iv in ranges[v].intervals && iv.1 == ranges[v].range.1;
    assert iv in Intervals(ranges[v]);
    assert Accounted(p, lay, info, li, 0, v, iv);
    var j :| 0 <= j < |lay.order| && EndFrom(p, lay, info, li, lay.order[j], v, iv.1);
    b := lay.order[j];
  }

  lemma EndCases(p: Prog, lay: Layout, info: LoopInfo, li: map<Block, set<Id>>, b: Block, v: Id, hi: nat)
    requires EndFrom(p, lay, info, li, b, v, hi)
    ensures || (v in Out(p, lay.order, li, b) && hi == lay.End(b))
            || UsedAt(p, lay, b, 0, v, hi)
            || (IsLoopHeader(info, b) && b in li && v in li[b] && hi == LoopEnd(lay, info, b))
            || (v in p.Body(b) && hi == lay.Live(v))
  {
    hide UsedAt, IsLoopHeader, LoopEnd, Out;
  }

  /** A block that does not end before `b` is `b` or later in the line. */
  lemma EndsNotBefore(p: Prog, lay: Layout, b: Block, c: Block)
    requires Numbered(p, lay) && b in lay.order && c in lay.order && lay.End(b) <= lay.End(c)
    ensures c == b || lay.Index(b) < lay.Index(c)
  {
    BlockPositions(p, lay, b);
    if lay.Index(c) < lay.Index(b) {
      LaterBlock(p, lay, c, b);
    }
    assert lay.order[lay.Index(b)] == b && lay.order[lay.Index(c)] == c;
  }

  lemma RisingIndex(es: Edges, order: seq<Block>, f: seq<Block>)
    requires Rising(es, order, f) && Distinct(order)
    ensures f[|f| - 1] in order && FirstIndex(order, f[0]) <= FirstIndex(order, f[|f| - 1])
    decreases |f|
  {
    if |f| > 1 {
      RisingSuffix(es, order, f, 1);
      RisingIndex(es, order, f[1..]);
      assert RisesAt(order, f, 0) && f[0] in f && f[1] in f;
      PrecedesIndex(order, f[0], f[1]);
    }
  }

  /** What is live at the end of `c` on account of a later block is read in a later block. */
  lemma OutIsRead(p: Prog, s: Block, order: seq<Block>, li: map<Block, set<Id>>, c: Block, v: Id)
    requires Lined(p, s, order) && LiveInsInv(p, s, order, li, 0) && c in order
    requires v in Out(p, order, li, c) && v !in PhiOut(p, c)
    ensures exists e :: e in order && FirstIndex(order, c) < FirstIndex(order, e) && ReadFrom(p, e, v)
  {
    hide LiveInsInv, Reach, Dom, ReadFrom, PhiOut, Defs, Prog.Ssa;
    var e :| e in li && v in li[e] && Follows(p, order, c, e);
    var q := LiveInIsLive(p, s, order, li, e, v);
    RisingIndex(p.Edges(), order, q);
    assert ReadFrom(p, q[|q| - 1], v);
  }

  /** An end that reaches over `b` comes from something that carries the value over it. */
  lemma AskCarries(p: Prog, s: Block, info: LoopInfo, lay: Layout, li: map<Block, set<Id>>, ranges: map<Id, LiveRange>,
                   b: Block, c: Block, v: Id, hi: nat)
    requires Analyzed(p, s, info, lay, li, ranges) && b in lay.order && c in lay.order
    requires Asks(p, lay, info, li, c, v, hi) && lay.End(b) <= hi
    ensures Carried(p, s, info, lay, b, v)
  {
    hide LiveInsInv, RangesInv, Dom, Numbered, Lined, LoopEnd, Tame, BackEdgesAgree, ForwardOrdered, PhiOut, Out;
    hide ForwardLive;
    BlockPositions(p, lay, c);
    if v in Out(p, lay.order, li, c) && hi == lay.End(c) {
      EndsNotBefore(p, lay, b, c);
      if v !in PhiOut(p, c) {
        OutIsRead(p, s, lay.order, li, c, v);
      }
    } else if UsedAt(p, lay, c, 0, v, hi) {
      var m :| 0 <= m < |p.Body(c)| && v in p.Inputs(p.Body(c)[m]) && hi == lay.Live(p.Body(c)[m]);
      assert v in UsesFrom(p, c, 0);
      EndsNotBefore(p, lay, b, c);
    } else {
      LiveInExactly(p, s, lay.order, li, c, v);
    }
  }

  /** A value live into a header is defined before every block of the loop. */
  lemma DefinedBefore(p: Prog, s: Block, info: LoopInfo, lay: Layout, li: map<Block, set<Id>>,
                      ranges: map<Id, LiveRange>, h: Block, b: Block, c: Block, v: Id)
    requires Analyzed(p, s, info, lay, li, ranges) && InLoop(p.Edges(), s, h, b) && b in lay.order
    requires h in li && v in li[h] && c in lay.order && v in p.Body(c)
    ensures lay.Live(v) < lay.End(b)
  {
    hide RangesInv, Numbered, Tame, BackEdgesAgree, ForwardOrdered, LiveInsInv, InLoop, Dom, Reach, Lined;
    LiveInFacts(p, s, lay.order, li, h, v);
    LoopDominated(p.Edges(), s, h, b);
    DefinedAt(p, s, lay.order, c, v);
    DomIndex(p, s, lay, c, h);
    DomIndex(p, s, lay, h, b);
    BlockPositions(p, lay, c);
    var m := FirstIndex(p.Body(c), v);
    LaterBlock(p, lay, c, h);
    BlockPositions(p, lay, b);
    BlockPositions(p, lay, h);
    if h != b {
      LaterThanHeader(p, s, lay, h, b);
    }
  }

  lemma DomIndex(p: Prog, s: Block, lay: Layout, d: Block, b: Block)
    requires Lined(p, s, lay.order) && b in lay.order && Dom(p.Edges(), s, d, b)
    ensures d in lay.order && lay.Index(d) <= lay.Index(b) && (d != b ==> lay.Index(d) < lay.Index(b))
  {
    hide Dom, Reach, Prog.Ssa;
    if d != b {
      assert Precedes(lay.order, d, b);
      PrecedesIndex(lay.order, d, b);
    }
  }

  lemma ReachesCarried(p: Prog, s: Block, info: LoopInfo, lay: Layout, li: map<Block, set<Id>>,
                       ranges: map<Id, LiveRange>, h: Block, b: Block, v: Id)
    requires Analyzed(p, s, info, lay, li, ranges) && InLoop(p.Edges(), s, h, b) && b in lay.order
    requires h in li && v in li[h] && Reaches(ranges, v, lay.End(b))
    ensures Carried(p, s, info, lay, b, v)
  {
    hide LiveInsInv, Dom, Numbered, Lined, Tame, BackEdgesAgree, ForwardOrdered, InLoop, Carried, Asks, IntervalsInv;
    BlockPositions(p, lay, b);
    assert HullOk(ranges[v]);
    var hi := ranges[v].range.1;
    var c := EndAttained(p, lay, info, li, ranges, v);
    if Asks(p, lay, info, li, c, v, hi) {
      AskCarries(p, s, info, lay, li, ranges, b, c, v, hi);
    } else {
      DefinedBefore(p, s, info, lay, li, ranges, h, b, c, v);
    }
  }

  // ---------- the main theorem ----------

  lemma LoopInTheLine(p: Prog, s: Block, order: seq<Block>, h: Block, b: Block)
    requires Lined(p, s, order) && InLoop(p.Edges(), s, h, b)
    ensures h in order && b in order
  {
    hide Prog.Ssa, Reach, Dom, InLoop;
    var r := LoopAround(p.Edges(), s, h, b);
    assert Hop(p.Edges(), r, 0) && Hop(p.Edges(), r, |r| - 2);
    EdgeIsSucc(p.g, r[0], r[1]);
    EdgeIsSucc(p.g, r[|r| - 2], h);
    assert b in p.g.succs;
  }

  lemma LoopBlockCarried(p: Prog, s: Block, info: LoopInfo, lay: Layout, li: map<Block, set<Id>>,
                         ranges: map<Id, LiveRange>, h: Block, b: Block, v: Id)
    requires Analyzed(p, s, info, lay, li, ranges) && InLoop(p.Edges(), s, h, b)
    ensures h in li && (v in li[h] <==> ForwardLive(p, s, h, v))
    ensures v in li[h] ==> (Reaches(ranges, v, lay.End(b)) <==> Carried(p, s, info, lay, b, v))
  {
    hide LiveInsInv, RangesInv, Numbered, Lined, Tame, BackEdgesAgree, ForwardOrdered, InLoop;
    hide Carried, ForwardLive, Reaches;
    LoopInTheLine(p, s, lay.order, h, b);
    LiveInExactly(p, s, lay.order, li, h, v);
    if v in li[h] && Reaches(ranges, v, lay.End(b)) {
      ReachesCarried(p, s, info, lay, li, ranges, h, b, v);
    }
    if Carried(p, s, info, lay, b, v) {
      CarriedReaches(p, s, info, lay, li, ranges, b, v);
    }
  }

  /** The header condition on the results of the pass is this condition on what the pass is given. */
  lemma HeadersCoverExactly(p: Prog, s: Block, info: LoopInfo, lay: Layout, li: map<Block, set<Id>>,
                            ranges: map<Id, LiveRange>)
    requires Analyzed(p, s, info, lay, li, ranges)
    ensures HeadersCover(p, s, lay, li, ranges) <==> LoopsCarried(p, s, info, lay)
  {
    hide Analyzed, InLoop, Carried, ForwardLive, Reaches;
    if HeadersCover(p, s, lay, li, ranges) {
      forall h, b, v | InLoop(p.Edges(), s, h, b) && ForwardLive(p, s, h, v)
        ensures Carried(p, s, info, lay, b, v)
      {
        LoopBlockCarried(p, s, info, lay, li, ranges, h, b, v);
      }
    }
    if LoopsCarried(p, s, info, lay) {
      forall h, v, b | h in li && v in li[h] && InLoop(p.Edges(), s, h, b)
        ensures Reaches(ranges, v, lay.End(b))
      {
        LoopBlockCarried(p, s, info, lay, li, ranges, h, b, v);
      }
    }
  }

  /** The pass covers every point at which a value is live if and only if everything live into a header without
      taking a back edge is carried over the end of every block of the header's natural loop. */
  lemma SoundExactly(p: Prog, s: Block, info: LoopInfo, lay: Layout, li: map<Block, set<Id>>,
                     ranges: map<Id, LiveRange>)
    requires Analyzed(p, s, info, lay, li, ranges)
    ensures Sound(p, lay, ranges) <==> LoopsCarried(p, s, info, lay)
  {
    hide Analyzed, Sound, HeadersCover, LoopsCarried;
    SoundByHeaders(p, s, info, lay, li, ranges);
    HeadersCoverExactly(p, s, info, lay, li, ranges);
  }

  lemma NotCarriedBy(p: Prog, s: Block, info: LoopInfo, lay: Layout, b: Block, v: Id)
    requires v !in PhiOut(p, b)
    requires forall c :: c in lay.order && ReadFrom(p, c, v) ==> lay.Index(c) <= lay.Index(b)
    requires forall g :: g in lay.order && IsLoopHeader(info, g) && ForwardLive(p, s, g, v) ==>
                           LoopEnd(lay, info, g) < lay.End(b)
    ensures !Carried(p, s, info, lay, b, v)
  {
    hide ReadFrom, ForwardLive, PhiOut, IsLoopHeader, LoopEnd, Layout.Index, Layout.End;
  }

  /** Where a value is not carried over the end of a block of the loop, it is live there and its range is too short. */
  lemma NotCarriedMissed(p: Prog, s: Block, info: LoopInfo, lay: Layout, li: map<Block, set<Id>>,
                         ranges: map<Id, LiveRange>, h: Block, b: Block, v: Id)
    requires Analyzed(p, s, info, lay, li, ranges)
    requires InLoop(p.Edges(), s, h, b) && ForwardLive(p, s, h, v) && !Carried(p, s, info, lay, b, v)
    ensures !LoopsCarried(p, s, info, lay) && b in lay.order
    ensures LiveAt(p, b, |p.Body(b)|, v) && !Holds(ranges, v, PointPos(lay, b, |p.Body(b)|))
    ensures !Sound(p, lay, ranges)
  {
    hide LiveInsInv, RangesInv, Lined, Tame, BackEdgesAgree, ForwardOrdered, InLoop, Carried, ForwardLive, LiveOut;
    hide Numbered;
    LoopBlockCarried(p, s, info, lay, li, ranges, h, b, v);
    LoopInTheLine(p, s, lay.order, h, b);
    LiveRoundLoop(p, s, info, lay, li, ranges, h, b, v);
    BlockPositions(p, lay, b);
    assert LiveAt(p, b, |p.Body(b)|, v);
  }
}
