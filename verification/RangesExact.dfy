/** The computed ranges in closed form: a range runs from the definition to the last thing that asks for the value
    (Analyzers/livenessAnalyzer.cpp:92-175). */
module RangesExact {
  import opened Util
  import opened Cfg
  import opened Rpo
  import opened Ir
  import opened Loops
  import opened LinearOrder
  import opened LiveRanges
  import opened Liveness
  import opened LivenessPass
  import opened LivenessTheory
  import opened LivenessExact

  /** Where `v` is asked for: at an instruction that reads it, at the end of a block along whose edges it is read, at
      the end that the pass takes for a loop into whose header it is live without taking a back edge, and, unless it is
      a phi, at its own definition. */
  ghost predicate Needed(p: Prog, s: Block, info: LoopInfo, lay: Layout, v: Id, hi: nat) {
    || (exists b :: b in lay.order && UsedAt(p, lay, b, 0, v, hi))
    || (exists b :: b in lay.order && v in PhiOut(p, b) && hi == lay.End(b))
    || (exists g :: g in lay.order && IsLoopHeader(info, g) && ForwardLive(p, s, g, v) && hi == LoopEnd(lay, info, g))
    || (v in p.Body(p.BlockOf(v)) && hi == lay.Live(v))
  }

  // ---------- the end ----------

  lemma NeededReached(p: Prog, s: Block, info: LoopInfo, lay: Layout, li: map<Block, set<Id>>,
                      ranges: map<Id, LiveRange>,
                      v: Id, hi: nat)
    requires Analyzed(p, s, info, lay, li, ranges) && v in p.code && Needed(p, s, info, lay, v, hi)
    ensures v in ranges && ranges[v].isRangeSet && hi <= ranges[v].range.1
  {
    hide LiveInsInv, RangesInv, Dom, Numbered, Lined, LoopEnd, Tame, BackEdgesAgree, ForwardOrdered, PhiOut;
    hide ForwardLive;
    hide UsedAt, Lo;
    if b :| b in lay.order && UsedAt(p, lay, b, 0, v, hi) {
      AskSpanned(p, s, info, lay, li, ranges, b, v, hi);
    } else if b :| b in lay.order && v in PhiOut(p, b) && hi == lay.End(b) {
      PhiOutIsOut(p, lay.order, li, b);
      AskSpanned(p, s, info, lay, li, ranges, b, v, hi);
    } else if g :| g in lay.order && IsLoopHeader(info, g) && ForwardLive(p, s, g, v) && hi == LoopEnd(lay, info, g) {
      LiveInExactly(p, s, lay.order, li, g, v);
      AskSpanned(p, s, info, lay, li, ranges, g, v, hi);
    } else {
      DefinitionReached(p, s, info, lay, li, ranges, v);
    }
  }

  /** The block of an instruction is in the line. */
  lemma BlockInLine(p: Prog, s: Block, order: seq<Block>, v: Id)
    requires Lined(p, s, order) && v in p.code
    ensures p.code[v].bb in order && (v in p.Phis(p.code[v].bb) || v in p.Body(p.code[v].bb)) && p.Ssa(s)
  {
    hide Reach, DominatorsFirst, Prog.Strict;
  }

  lemma DefinitionReached(p: Prog, s: Block, info: LoopInfo, lay: Layout, li: map<Block, set<Id>>,
                          ranges: map<Id, LiveRange>, v: Id)
    requires Analyzed(p, s, info, lay, li, ranges) && v in p.code && v in p.Body(p.code[v].bb)
    ensures v in ranges && ranges[v].isRangeSet && lay.Live(v) <= ranges[v].range.1
  {
    hide LiveInsInv, Dom, Lined, Tame, BackEdgesAgree, ForwardOrdered, Numbered, EndFrom, Asks, Lo;
    BlockInLine(p, s, lay.order, v);
    var j := FirstIndex(lay.order, p.code[v].bb);
    assert v in ranges.Keys && IntervalsInv(p, lay, info, li, 0, v, Intervals(ranges[v])) && HullOk(ranges[v]);
    assert AsksMet(p, lay, info, li, j, v, Intervals(ranges[v]));
    var iv :| iv in Intervals(ranges[v]);
    assert Accounted(p, lay, info, li, 0, v, iv);
    assert iv in ranges[v].intervals;
  }

  /** A block that reads the value asks for it after the block's start. */
  lemma ReadNeeded(p: Prog, s: Block, info: LoopInfo, lay: Layout, e: Block, v: Id) returns (hi: nat)
    requires Numbered(p, lay) && e in lay.order && ReadFrom(p, e, v)
    ensures Needed(p, s, info, lay, v, hi) && lay.Start(e) < hi
  {
    hide Numbered, PhiOut, ForwardLive, LoopEnd;
    BlockPositions(p, lay, e);
    if v in PhiOut(p, e) {
      hi := lay.End(e);
    } else {
      var m :| 0 <= m < |p.Body(e)| && v in p.Inputs(p.Body(e)[m]);
      hi := lay.Live(p.Body(e)[m]);
      assert UsedAt(p, lay, e, 0, v, hi);
    }
  }

  /** The end of the range is asked for: a block that a later one has live is not the last to ask. */
  lemma EndNeeded(p: Prog, s: Block, info: LoopInfo, lay: Layout, li: map<Block, set<Id>>, ranges: map<Id, LiveRange>,
                  v: Id)
    requires Analyzed(p, s, info, lay, li, ranges) && v in p.code && v in ranges && ranges[v].isRangeSet
    ensures Needed(p, s, info, lay, v, ranges[v].range.1)
  {
    hide *;
    var hi := ranges[v].range.1;
    AnalyzedFacts(p, s, info, lay, li, ranges);
    var b := EndAttained(p, lay, info, li, ranges, v);
    EndCases(p, lay, info, li, b, v, hi);
    if v in Out(p, lay.order, li, b) && hi == lay.End(b) && v !in PhiOut(p, b) {
      OutIsRead(p, s, lay.order, li, b, v);
      var e :| e in lay.order && FirstIndex(lay.order, b) < FirstIndex(lay.order, e) && ReadFrom(p, e, v);
      var hi' := ReadNeeded(p, s, info, lay, e, v);
      NeededReached(p, s, info, lay, li, ranges, v, hi');
      LaterInLine(p, lay, b, e);
      assert false;
    } else if IsLoopHeader(info, b) && b in li && v in li[b] && hi == LoopEnd(lay, info, b) {
      LiveInExactly(p, s, lay.order, li, b, v);
      NeededBy(p, s, info, lay, b, v, hi);
    } else if v in p.Body(b) && hi == lay.Live(v) {
      OwnBlock(p, s, lay.order, b, v);
      NeededBy(p, s, info, lay, b, v, hi);
    } else {
      NeededBy(p, s, info, lay, b, v, hi);
    }
  }

  lemma LaterInLine(p: Prog, lay: Layout, b: Block, e: Block)
    requires Numbered(p, lay) && b in lay.order && e in lay.order
    requires FirstIndex(lay.order, b) < FirstIndex(lay.order, e)
    ensures lay.End(b) <= lay.Start(e)
  {
    hide Numbered;
    LaterBlock(p, lay, b, e);
  }

  lemma OwnBlock(p: Prog, s: Block, order: seq<Block>, b: Block, v: Id)
    requires Lined(p, s, order) && v in p.Body(b)
    ensures v in p.code && p.BlockOf(v) == b
  {
    hide Reach, DominatorsFirst, Prog.Strict;
  }

  lemma NeededBy(p: Prog, s: Block, info: LoopInfo, lay: Layout, b: Block, v: Id, hi: nat)
    requires b in lay.order
    ensures UsedAt(p, lay, b, 0, v, hi) ==> Needed(p, s, info, lay, v, hi)
    ensures v in PhiOut(p, b) && hi == lay.End(b) ==> Needed(p, s, info, lay, v, hi)
    ensures IsLoopHeader(info, b) && ForwardLive(p, s, b, v) && hi == LoopEnd(lay, info, b) ==>
              Needed(p, s, info, lay, v, hi)
    ensures v in p.Body(b) && p.BlockOf(v) == b && hi == lay.Live(v) ==> Needed(p, s, info, lay, v, hi)
  {
    hide UsedAt, PhiOut, ForwardLive, LoopEnd, IsLoopHeader;
  }

  lemma AnalyzedFacts(p: Prog, s: Block, info: LoopInfo, lay: Layout, li: map<Block, set<Id>>,
                      ranges: map<Id, LiveRange>)
    requires Analyzed(p, s, info, lay, li, ranges)
    ensures Lined(p, s, lay.order) && Numbered(p, lay) && LiveInsInv(p, s, lay.order, li, 0)
    ensures RangesInv(p, lay, info, li, 0, ranges) && ForwardOrdered(p.Edges(), s, lay.order)
    ensures ranges.Keys == p.code.Keys
  {
    hide Lined, Numbered, LiveInsInv, Tame, BackEdgesAgree, ForwardOrdered;
  }

  // ---------- the start ----------

  lemma ReadDominated(p: Prog, s: Block, order: seq<Block>, li: map<Block, set<Id>>, b: Block, v: Id)
    requires Lined(p, s, order) && LiveInsInv(p, s, order, li, 0) && ReadFrom(p, b, v)
    ensures v in p.code && Dom(p.Edges(), s, p.code[v].bb, b)
  {
    hide LiveInAt, Reach, Dom, DominatorsFirst, PhiOut, Out, Prog.Strict;
    if v in PhiOut(p, b) {
      PhiOutIsOut(p, order, li, b);
      OutDominated(p, s, order, li, b, v);
    } else {
      var m :| 0 <= m < |p.Body(b)| && v in p.Inputs(p.Body(b)[m]);
      UseDominated(p, s, b, m, v);
    }
  }

  /** A path on which nothing but its first block is `d`, to a block that `d` dominates, stays below `d`. */
  lemma BelowLast(es: Edges, s: Block, d: Block, r: seq<Block>, x: Block)
    requires Path(es, r) && Dom(es, s, d, r[|r| - 1]) && d !in r[1..] && x in r[1..]
    ensures SDom(es, s, d, x)
  {
    var k := FirstIndex(r[1..], x);
    PathSuffix(es, r, k + 1);
    forall q | PathTo(es, s, x, q) ensures d in q {
      PathJoin(es, q, r[k + 1..]);
      assert d in q + r[k + 1..][1..];
    }
  }

  /** The part of a path after its last visit to a dominator of its end. */
  lemma FromLast(es: Edges, s: Block, d: Block, b: Block) returns (r: seq<Block>)
    requires Reach(es, s, b) && Dom(es, s, d, b)
    ensures Path(es, r) && r[0] == d && r[|r| - 1] == b && d !in r[1..]
    ensures forall x :: x in r[1..] ==> SDom(es, s, d, x)
  {
    var w :| PathTo(es, s, b, w);
    var i := LastIndex(w, d);
    PathSuffix(es, w, i);
    r := w[i..];
    assert r[1..] == w[i + 1..];
    forall x | x in r[1..] ensures SDom(es, s, d, x) {
      BelowLast(es, s, d, r, x);
    }
  }

  lemma EarliestOnPath(p: Prog, s: Block, order: seq<Block>, d: Block, r: seq<Block>)
    requires Lined(p, s, order) && Path(p.Edges(), r) && r[0] == d && d in order
    requires forall x :: x in r[1..] ==> SDom(p.Edges(), s, d, x)
    ensures forall x :: x in r ==> x in order && FirstIndex(order, d) <= FirstIndex(order, x)
  {
    PathInLine(p, s, order, r);
    LinedOrder(p, s, order);
    hide Lined, Dom, Path;
    forall x | x in r ensures FirstIndex(order, d) <= FirstIndex(order, x) {
      if x != d {
        var k := FirstIndex(r, x);
        assert r[1..][k - 1] == x;
        assert Precedes(order, d, x);
        PrecedesIndex(order, d, x);
      }
    }
  }

  /** From a dominator one gets to the block by a path that only moves on in the line, and never comes back. */
  lemma RisingFrom(p: Prog, s: Block, order: seq<Block>, d: Block, b: Block) returns (f: seq<Block>)
    requires Lined(p, s, order) && ForwardOrdered(p.Edges(), s, order) && b in order && Dom(p.Edges(), s, d, b)
    ensures Rising(p.Edges(), order, f) && f != [] && f[0] == d && f[|f| - 1] == b && d !in f[1..]
  {
    hide Rising, Dom, ForwardOrdered, DominatorsFirst, Reach, Prog.Ssa;
    assert Reach(p.Edges(), s, b);
    DominatorInLine(p, s, order, d, b);
    LinedOrder(p, s, order);
    hide Lined;
    var r := FromLast(p.Edges(), s, d, b);
    EarliestOnPath(p, s, order, d, r);
    f := CutToRising(p.Edges(), s, order, r);
    RisingNonEmpty(p.Edges(), order, f);
  }

  lemma RisingNonEmpty(es: Edges, order: seq<Block>, f: seq<Block>)
    requires Rising(es, order, f)
    ensures f != []
  {
  }

  lemma DominatorInLine(p: Prog, s: Block, order: seq<Block>, d: Block, b: Block)
    requires Lined(p, s, order) && b in order && Dom(p.Edges(), s, d, b)
    ensures d in order
  {
    hide Reach, Dom, Prog.Ssa;
    if d != b {
      assert Precedes(order, d, b);
    }
  }

  /** What another block reads is in the live set at the end of the block that defines it. */
  lemma OutAtDefinition(p: Prog, s: Block, order: seq<Block>, li: map<Block, set<Id>>, b: Block, v: Id)
    requires Lined(p, s, order) && LiveInsInv(p, s, order, li, 0) && ForwardOrdered(p.Edges(), s, order)
    requires b in order && ReadFrom(p, b, v) && b != p.BlockOf(v)
    ensures v in p.code && v in Out(p, order, li, p.code[v].bb)
  {
    hide LiveInsInv, ReadFrom, Defs, ForwardOrdered, Lined, Dom, Out, Path;
    ReadDominated(p, s, order, li, b, v);
    LinedOrder(p, s, order);
    var d := p.code[v].bb;
    var f := RisingFrom(p, s, order, d, b);
    assert |f| > 1;
    RisingSuffix(p.Edges(), order, f, 1);
    var q := f[1..];
    forall x | x in q ensures v !in Defs(p, x) {
      DefinedAt(p, s, order, x, v);
    }
    assert LivePath(p, q, v);
    RisingLive(p, s, order, li, q, v);
    RisingIsOut(p, s, order, li, f, v);
  }

  /** Something at the definition asks for the value, if anything else does. */
  lemma StartAsked(p: Prog, s: Block, info: LoopInfo, lay: Layout, li: map<Block, set<Id>>, ranges: map<Id, LiveRange>,
                   b: Block, v: Id)
    requires Analyzed(p, s, info, lay, li, ranges) && v in p.code && b in lay.order && ReadFrom(p, b, v)
    ensures v in ranges && ranges[v].range.0 <= Lo(p, lay, p.code[v].bb, v)
  {
    hide LiveInsInv, RangesInv, Dom, Numbered, Lined, Tame, BackEdgesAgree, ForwardOrdered, PhiOut, Lo, Out, LoopEnd;
    BlockInLine(p, s, lay.order, v);
    var d := p.code[v].bb;
    if b != d {
      OutAtDefinition(p, s, lay.order, li, b, v);
      AskSpanned(p, s, info, lay, li, ranges, d, v, lay.End(d));
    } else if v in PhiOut(p, d) {
      PhiOutIsOut(p, lay.order, li, d);
      AskSpanned(p, s, info, lay, li, ranges, d, v, lay.End(d));
    } else {
      var m :| 0 <= m < |p.Body(d)| && v in p.Inputs(p.Body(d)[m]);
      assert UsedAt(p, lay, d, 0, v, lay.Live(p.Body(d)[m]));
      AskSpanned(p, s, info, lay, li, ranges, d, v, lay.Live(p.Body(d)[m]));
    }
  }

  /** A value asked for anywhere but at its definition is read somewhere. */
  lemma NeededIsRead(p: Prog, s: Block, info: LoopInfo, lay: Layout, v: Id, hi: nat) returns (b: Block)
    requires Lined(p, s, lay.order) && Needed(p, s, info, lay, v, hi)
    requires !(v in p.Body(p.BlockOf(v)) && hi == lay.Live(v))
    ensures b in lay.order && ReadFrom(p, b, v)
  {
    hide PhiOut, Lined, LoopEnd, IsLoopHeader, Defs;
    if c :| c in lay.order && UsedAt(p, lay, c, 0, v, hi) {
      b := c;
    } else if c :| c in lay.order && v in PhiOut(p, c) && hi == lay.End(c) {
      b := c;
    } else {
      var g :| g in lay.order && IsLoopHeader(info, g) && ForwardLive(p, s, g, v) && hi == LoopEnd(lay, info, g);
      var f :| ForwardLivePath(p, s, f, v) && f[0] == g;
      PathInLine(p, s, lay.order, f);
      b := f[|f| - 1];
    }
  }

  lemma DefinitionPosition(p: Prog, s: Block, lay: Layout, v: Id)
    requires Lined(p, s, lay.order) && Numbered(p, lay) && v in p.code
    ensures Lo(p, lay, p.code[v].bb, v) == lay.Live(v)
  {
    hide Lined, Numbered;
    BlockInLine(p, s, lay.order, v);
    BlockPositions(p, lay, p.code[v].bb);
  }

  lemma StartInTime(p: Prog, s: Block, info: LoopInfo, lay: Layout, li: map<Block, set<Id>>,
                    ranges: map<Id, LiveRange>, v: Id)
    requires RangesInv(p, lay, info, li, 0, ranges) && v in ranges && ranges[v].isRangeSet
    ensures lay.Live(v) <= ranges[v].range.0 <= ranges[v].range.1
  {
    hide EndFrom, AsksMet;
    assert HullOk(ranges[v]) && IntervalsInv(p, lay, info, li, 0, v, Intervals(ranges[v]));
    var iv :| iv in ranges[v].intervals && iv.0 == ranges[v].range.0;
    assert iv in Intervals(ranges[v]);
    assert Accounted(p, lay, info, li, 0, v, iv);
  }

  /** The range is set exactly if something asks for the value; it starts at the definition and ends where the value is
      asked for last. */
  ghost predicate RunsFromDefinition(p: Prog, s: Block, info: LoopInfo, lay: Layout, v: Id, lr: LiveRange) {
    && (lr.isRangeSet <==> exists hi: nat :: Needed(p, s, info, lay, v, hi))
    && (lr.isRangeSet ==>
          && lr.range.0 == lay.Live(v) && Needed(p, s, info, lay, v, lr.range.1)
          && forall hi: nat :: Needed(p, s, info, lay, v, hi) ==> hi <= lr.range.1)
  }

  lemma RangeExactly(p: Prog, s: Block, info: LoopInfo, lay: Layout, li: map<Block, set<Id>>,
                     ranges: map<Id, LiveRange>, v: Id)
    requires Analyzed(p, s, info, lay, li, ranges) && v in p.code
    ensures v in ranges && RunsFromDefinition(p, s, info, lay, v, ranges[v])
  {
    hide Analyzed, Needed, Lo, Prog.Body, Prog.BlockOf, Lined, Numbered, LiveInsInv, RangesInv, ForwardOrdered;
    AnalyzedFacts(p, s, info, lay, li, ranges);
    assert v in ranges.Keys;
    forall hi: nat | Needed(p, s, info, lay, v, hi) ensures ranges[v].isRangeSet && hi <= ranges[v].range.1 {
      NeededReached(p, s, info, lay, li, ranges, v, hi);
    }
    if ranges[v].isRangeSet {
      EndNeeded(p, s, info, lay, li, ranges, v);
      StartsAtDefinition(p, s, info, lay, li, ranges, v);
    }
  }

  lemma StartsAtDefinition(p: Prog, s: Block, info: LoopInfo, lay: Layout, li: map<Block, set<Id>>,
                           ranges: map<Id, LiveRange>, v: Id)
    requires Analyzed(p, s, info, lay, li, ranges) && v in p.code && v in ranges && ranges[v].isRangeSet
    ensures ranges[v].range.0 == lay.Live(v)
  {
    hide *;
    AnalyzedFacts(p, s, info, lay, li, ranges);
    EndNeeded(p, s, info, lay, li, ranges, v);
    StartInTime(p, s, info, lay, li, ranges, v);
    var hi := ranges[v].range.1;
    if !(v in p.Body(p.BlockOf(v)) && hi == lay.Live(v)) {
      var b := NeededIsRead(p, s, info, lay, v, hi);
      StartAsked(p, s, info, lay, li, ranges, b, v);
      DefinitionPosition(p, s, lay, v);
    }
  }
}
