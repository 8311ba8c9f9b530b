/** The liveness pass itself (Analyzers/livenessAnalyzer.cpp:10-18, 54-175). */
module LivenessPass {
  import opened Util
  import opened Cfg
  import opened Ir
  import opened Loops
  import opened LinearOrder
  import opened LiveRanges
  import opened Liveness

  /** The index of the first entry for a predecessor, if there is one. */
  method GetPredecessorIndex(g: Graph, pred: Block, succ: Block) returns (index: Option<nat>)
    ensures index.None? <==> pred !in g.Preds(succ)
    ensures index.Some? ==> index.value == FirstIndex(g.Preds(succ), pred)
  {
    var preds := g.Preds(succ);
    for i := 0 to |preds|
      invariant pred !in preds[..i]
    {
      if preds[i] == pred {
        FirstIndexIs(preds, i, pred);
        return Some(i);
      }
    }
    assert preds[..|preds|] == preds;
    return None;
  }

  /** The largest end of the loop's own nodes, 0 for a loop without nodes. */
  method GetLoopEndPos(lay: Layout, nodes: set<Block>) returns (maxPos: nat)
    ensures maxPos == MaxEnd(lay, nodes)
  {
    maxPos := 0;
    var remaining := nodes;
    while remaining != {}
      invariant remaining <= nodes && IsMaxEnd(lay, nodes - remaining, maxPos)
      decreases remaining
    {
      var node :| node in remaining;
      remaining := remaining - {node};
      assert nodes - remaining == (nodes - (remaining + {node})) + {node};
      if lay.End(node) > maxPos {
        maxPos := lay.End(node);
      }
    }
    assert nodes - {} == nodes;
    MaxEndUnique(lay, nodes, maxPos);
  }

  lemma MaxEndUnique(lay: Layout, nodes: set<Block>, m: nat)
    requires IsMaxEnd(lay, nodes, m)
    ensures m == MaxEnd(lay, nodes)
  {
    var n := MaxEnd(lay, nodes);
    assert IsMaxEnd(lay, nodes, n);
  }

  ghost predicate HullsOk(p: Prog, ranges: map<Id, LiveRange>) {
    ranges.Keys == p.code.Keys && forall v :: v in ranges ==> HullOk(ranges[v])
  }

  /** Every instruction's intervals satisfy the invariant of the blocks from the `k`-th on. */
  ghost predicate RangesInv(p: Prog, lay: Layout, info: LoopInfo, li: map<Block, set<Id>>, k: nat,
                            ranges: map<Id, LiveRange>) {
    && HullsOk(p, ranges)
    && forall v :: v in ranges ==> IntervalsInv(p, lay, info, li, k, v, Intervals(ranges[v]))
  }

  /** The ranges while block `b` is walked: body positions from `j` on are done. */
  ghost predicate RangesWalked(p: Prog, lay: Layout, out: set<Id>, b: Block, j: nat,
                               before: map<Id, LiveRange>, ranges: map<Id, LiveRange>)
  {
    && before.Keys == p.code.Keys && HullsOk(p, ranges)
    && forall v :: v in ranges ==> Intervals(ranges[v]) == Walked(p, lay, out, b, j, v, Intervals(before[v]))
  }

  /** An interval has been added to exactly the values in `vs`. */
  ghost predicate Added(p: Prog, before: map<Id, LiveRange>, ranges: map<Id, LiveRange>, vs: set<Id>, iv: Interval) {
    && before.Keys == p.code.Keys && HullsOk(p, ranges)
    && forall v :: v in ranges ==> Intervals(ranges[v]) == Intervals(before[v]) + (if v in vs then {iv} else {})
  }

  lemma RangesWalkedStart(p: Prog, lay: Layout, out: set<Id>, b: Block, before: map<Id, LiveRange>,
                          ranges: map<Id, LiveRange>)
    requires Added(p, before, ranges, out, (lay.Start(b), lay.End(b)))
    ensures RangesWalked(p, lay, out, b, |p.Body(b)|, before, ranges)
  {
    hide Walked, Intervals, HullOk;
    forall v | v in ranges
      ensures Intervals(ranges[v]) == Walked(p, lay, out, b, |p.Body(b)|, v, Intervals(before[v]))
    {
      WalkedEnd(p, lay, out, b, v, Intervals(before[v]));
    }
  }

  lemma RangesWalkedStep(p: Prog, s: Block, lay: Layout, out: set<Id>, b: Block, j: nat,
                         before: map<Id, LiveRange>, r0: map<Id, LiveRange>, r1: map<Id, LiveRange>,
                         r2: map<Id, LiveRange>)
    requires p.Ssa(s) && j < |p.Body(b)| && RangesWalked(p, lay, out, b, j + 1, before, r0)
    requires p.Body(b)[j] in r0 && p.Body(b)[j] in r1 && r1.Keys == r0.Keys && HullOk(r1[p.Body(b)[j]])
    requires Intervals(r1[p.Body(b)[j]]) == Shortened(Intervals(r0[p.Body(b)[j]]), lay.Start(b), lay.Live(p.Body(b)[j]))
    requires forall v :: v in r0 && v != p.Body(b)[j] ==> r1[v] == r0[v]
    requires Added(p, r1, r2, Elems(p.Inputs(p.Body(b)[j])), (lay.Start(b), lay.Live(p.Body(b)[j])))
    ensures RangesWalked(p, lay, out, b, j, before, r2)
  {
    hide Walked, HullOk, Shortened, Intervals, Prog.Strict;
    var d := p.Body(b)[j];
    forall v | v in r2
      ensures Intervals(r2[v]) == Walked(p, lay, out, b, j, v, Intervals(before[v]))
    {
      WalkedStep(p, s, lay, out, b, j, v, Intervals(before[v]));
      NotOwnInput(p, s, b, j);
      assert v in Elems(p.Inputs(d)) <==> v in p.Inputs(d);
    }
  }

  lemma NotOwnInput(p: Prog, s: Block, b: Block, j: nat)
    requires p.Ssa(s) && j < |p.Body(b)|
    ensures p.Body(b)[j] !in p.Inputs(p.Body(b)[j])
  {
    var d := p.Body(b)[j];
    if d in p.Inputs(d) {
      UseDominated(p, s, b, j, d);
      InTail(p.Body(b), j, j);
    }
  }

  /** The live set after the body positions from `j` on have been walked. */
  ghost function LiveAfterWalk(p: Prog, out: set<Id>, b: Block, j: nat): set<Id>
    requires j <= |p.Body(b)|
  {
    out + UsesFrom(p, b, j) - Elems(p.Body(b)[j..])
  }

  lemma LiveWalkStep(p: Prog, s: Block, out: set<Id>, b: Block, j: nat)
    requires p.Ssa(s) && j < |p.Body(b)|
    ensures LiveAfterWalk(p, out, b, j) ==
            LiveAfterWalk(p, out, b, j + 1) - {p.Body(b)[j]} + Elems(p.Inputs(p.Body(b)[j]))
  {
    var d := p.Body(b)[j];
    assert p.Body(b)[j..] == [d] + p.Body(b)[j + 1..];
    assert Elems(p.Body(b)[j..]) == {d} + Elems(p.Body(b)[j + 1..]);
    UsesFromStep(p, b, j);
    forall v | v in p.Inputs(d) ensures v !in p.Body(b)[j..] {
      UseDominated(p, s, b, j, v);
    }
    hide *;
    InputsNotBelow(Elems(p.Inputs(d)), Elems(p.Body(b)[j..]), p.Inputs(d), p.Body(b)[j..]);
    LiveWalkAlgebra(p, out, b, j);
  }

  lemma InputsNotBelow(a: set<Id>, c: set<Id>, x: seq<Id>, y: seq<Id>)
    requires a == Elems(x) && c == Elems(y) && forall v :: v in x ==> v !in y
    ensures a !! c
  {
  }

  lemma UsesFromStep(p: Prog, b: Block, j: nat)
    requires j < |p.Body(b)|
    ensures UsesFrom(p, b, j) == UsesFrom(p, b, j + 1) + Elems(p.Inputs(p.Body(b)[j]))
  {
    var d := p.Body(b)[j];
    forall v | v in Elems(p.Inputs(d)) ensures v in UsesFrom(p, b, j) {
      assert v in p.Inputs(p.Body(b)[j]);
    }
  }

  lemma LiveWalkAlgebra(p: Prog, out: set<Id>, b: Block, j: nat)
    requires j < |p.Body(b)|
    requires Elems(p.Body(b)[j..]) == {p.Body(b)[j]} + Elems(p.Body(b)[j + 1..])
    requires UsesFrom(p, b, j) == UsesFrom(p, b, j + 1) + Elems(p.Inputs(p.Body(b)[j]))
    requires Elems(p.Inputs(p.Body(b)[j])) !! Elems(p.Body(b)[j..])
    ensures LiveAfterWalk(p, out, b, j) ==
            LiveAfterWalk(p, out, b, j + 1) - {p.Body(b)[j]} + Elems(p.Inputs(p.Body(b)[j]))
  {
    hide UsesFrom, Elems;
  }

  // ---------- collecting the live set at the end of a block ----------

  ghost function PhiOutUpTo(p: Prog, b: Block, n: nat): set<Id>
    requires n <= |p.g.Succs(b)|
  {
    set i, q, j | 0 <= i < n && q in p.Phis(p.g.Succs(b)[i]) && 0 <= j < |p.Inputs(q)| &&
                  j < |p.g.Preds(p.g.Succs(b)[i])| && p.g.Preds(p.g.Succs(b)[i])[j] == b
      :: p.Inputs(q)[j]
  }

  lemma PhiOutAll(p: Prog, b: Block)
    ensures PhiOutUpTo(p, b, |p.g.Succs(b)|) == PhiOut(p, b)
  {
    forall v | v in PhiOut(p, b) ensures v in PhiOutUpTo(p, b, |p.g.Succs(b)|) {
      var c, q, j :| c in p.g.Succs(b) && q in p.Phis(c) && 0 <= j < |p.Inputs(q)| && j < |p.g.Preds(c)| &&
                     p.g.Preds(c)[j] == b && v == p.Inputs(q)[j];
      var i := FirstIndex(p.g.Succs(b), c);
      assert p.g.Succs(b)[i] == c;
    }
  }

  /** The inputs that the first `n` phis of `c` read along the edge with predecessor index `j`. */
  ghost function PhiInputs(p: Prog, c: Block, j: nat, n: nat): set<Id>
    requires n <= |p.Phis(c)|
  {
    set m | 0 <= m < n && j < |p.Inputs(p.Phis(c)[m])| :: p.Inputs(p.Phis(c)[m])[j]
  }

  method CollectPhiInputs(p: Prog, c: Block, j: nat, live0: set<Id>) returns (live: set<Id>)
    ensures live == live0 + PhiInputs(p, c, j, |p.Phis(c)|)
  {
    live := live0;
    var phis := p.Phis(c);
    for m := 0 to |phis|
      invariant live == live0 + PhiInputs(p, c, j, m)
    {
      var inputs := p.Inputs(phis[m]);
      if j < |inputs| {
        live := live + {inputs[j]};
      }
    }
  }

  lemma PhiOutStep(p: Prog, b: Block, n: nat, j: nat)
    requires n < |p.g.Succs(b)| && Distinct(p.g.Preds(p.g.Succs(b)[n]))
    requires j < |p.g.Preds(p.g.Succs(b)[n])| && p.g.Preds(p.g.Succs(b)[n])[j] == b
    ensures PhiOutUpTo(p, b, n + 1) == PhiOutUpTo(p, b, n) + PhiInputs(p, p.g.Succs(b)[n], j, |p.Phis(p.g.Succs(b)[n])|)
  {
    var c := p.g.Succs(b)[n];
    forall v | v in PhiInputs(p, c, j, |p.Phis(c)|) ensures v in PhiOutUpTo(p, b, n + 1) {
      var m :| 0 <= m < |p.Phis(c)| && j < |p.Inputs(p.Phis(c)[m])| && v == p.Inputs(p.Phis(c)[m])[j];
      assert p.Phis(c)[m] in p.Phis(p.g.Succs(b)[n]);
    }
    forall v | v in PhiOutUpTo(p, b, n + 1) && v !in PhiOutUpTo(p, b, n)
      ensures v in PhiInputs(p, c, j, |p.Phis(c)|)
    {
      var i, q, k :| 0 <= i < n + 1 && q in p.Phis(p.g.Succs(b)[i]) && 0 <= k < |p.Inputs(q)| &&
                     k < |p.g.Preds(p.g.Succs(b)[i])| && p.g.Preds(p.g.Succs(b)[i])[k] == b && v == p.Inputs(q)[k];
      assert i == n && k == j;
      var m := FirstIndex(p.Phis(c), q);
    }
  }

  ghost function SuccLiveIns(p: Prog, li: map<Block, set<Id>>, b: Block, n: nat): set<Id>
    requires n <= |p.g.Succs(b)|
  {
    set i, v | 0 <= i < n && p.g.Succs(b)[i] in li && v in li[p.g.Succs(b)[i]] :: v
  }

  /** The recorded live-in sets of successors are those of the successors later in the line. */
  lemma SuccLiveInsAre(p: Prog, order: seq<Block>, li: map<Block, set<Id>>, k: nat)
    requires Distinct(order) && k < |order| && li.Keys == Elems(order[k + 1..])
    ensures SuccLiveIns(p, li, order[k], |p.g.Succs(order[k])|) + PhiOut(p, order[k]) == Out(p, order, li, order[k])
  {
    var b := order[k];
    IndexUnique(order, k);
    forall c ensures c in p.g.Succs(b) && c in li ==> Follows(p, order, b, c) {
      if c in p.g.Succs(b) && c in li {
        var i := FirstIndex(order[k + 1..], c);
        assert order[k + 1 + i] == c;
        IndexUnique(order, k + 1 + i);
      }
    }
    forall v | v in Out(p, order, li, b) && v !in PhiOut(p, b) ensures v in SuccLiveIns(p, li, b, |p.g.Succs(b)|) {
      var c :| c in li && v in li[c] && Follows(p, order, b, c);
      var i := FirstIndex(p.g.Succs(b), c);
    }
  }

  class LivenessAnalyzer {
    const p: Prog
    const info: LoopInfo
    const order: seq<Block>
    /** The live ranges of blocks, the live positions and the ranges of instructions, and the live-in map. */
    var blockRange: map<Block, Interval>
    var live: map<Id, nat>
    var ranges: map<Id, LiveRange>
    var liveIn: map<Block, set<Id>>

    constructor (p: Prog, info: LoopInfo, order: seq<Block>)
      ensures this.p == p && this.info == info && this.order == order
      ensures liveIn == map[] && ranges.Keys == p.code.Keys && forall v :: v in ranges ==> ranges[v] == EMPTY_RANGE
    {
      this.p, this.info, this.order := p, info, order;
      blockRange, live, liveIn := map[], map[], map[];
      ranges := map v | v in p.code :: EMPTY_RANGE;
    }

    function Lay(): (lay: Layout)
      reads this`blockRange, this`live
      ensures lay == Layout(order, blockRange, live)
    {
      Layout(order, blockRange, live)
    }

    /** Numbers one block from `start` on. */
    method NumberBlock(k: nat, start: nat) returns (end: nat)
      requires k < |order| && start == StartAt(p, order, k) && p.Placed() && Distinct(order)
      requires forall j :: 0 <= j < k ==> BlockNumbered(p, Lay(), j)
      modifies this`live, this`blockRange
      ensures end == StartAt(p, order, k + 1)
      ensures forall j :: 0 <= j < k + 1 ==> BlockNumbered(p, Lay(), j)
    {
      hide *;
      ghost var before := Lay();
      var b := order[k];
      var countLive;
      BodyDistinct(p, b);
      live := NumberPhis(p.Phis(b), start, live);
      ghost var middle := live;
      live, countLive := NumberBody(p.Body(b), start, live);
      end := countLive + 2;
      blockRange := blockRange[b := (start, end)];
      StartAtNext(p, order, k);
      JustNumbered(p, before, middle, Lay(), k);
    }

    /** InitLiveLinForInstr. */
    method InitLiveLinForInstr()
      requires p.Placed() && Distinct(order)
      modifies this`live, this`blockRange
      ensures Numbered(p, Lay())
    {
      var countLive := 0;
      for k := 0 to |order|
        invariant countLive == StartAt(p, order, k)
        invariant forall j :: 0 <= j < k ==> BlockNumbered(p, Lay(), j)
      {
        countLive := NumberBlock(k, countLive);
      }
    }

    /** Adds `iv` to the ranges of all values of a set. */
    method AddToAll(vs: set<Id>, iv: Interval)
      requires HullsOk(p, ranges)
      modifies this`ranges
      ensures Added(p, old(ranges), ranges, vs, iv)
    {
      hide *;
      NothingAdded(p, ranges, iv);
      var remaining := vs;
      assert vs - vs == {};
      while remaining != {}
        invariant remaining <= vs && Added(p, old(ranges), ranges, vs - remaining, iv)
        decreases remaining
      {
        var v :| v in remaining;
        ghost var r := ranges;
        AddedHull(p, old(ranges), r, vs - remaining, iv, v);
        if v in ranges {
          ranges := ranges[v := ranges[v].AddInterval(iv)];
        }
        AddedStep(p, old(ranges), r, ranges, vs - remaining, v, iv);
        assert vs - (remaining - {v}) == (vs - remaining) + {v};
        remaining := remaining - {v};
      }
      assert vs - {} == vs;
    }

    /** Adds `iv` to the ranges of the listed inputs. */
    method AddToInputs(inputs: seq<Id>, iv: Interval)
      requires HullsOk(p, ranges)
      modifies this`ranges
      ensures Added(p, old(ranges), ranges, Elems(inputs), iv)
    {
      hide *;
      NothingAdded(p, ranges, iv);
      for i := 0 to |inputs|
        invariant Added(p, old(ranges), ranges, Elems(inputs[..i]), iv)
      {
        ghost var r := ranges;
        AddedHull(p, old(ranges), r, Elems(inputs[..i]), iv, inputs[i]);
        if inputs[i] in ranges {
          ranges := ranges[inputs[i] := ranges[inputs[i]].AddInterval(iv)];
        }
        AddedStep(p, old(ranges), r, ranges, Elems(inputs[..i]), inputs[i], iv);
        ElemsTake(inputs, i);
      }
      assert inputs[..|inputs|] == inputs;
    }

    /** The recorded live-in sets of the successors. */
    method CollectSuccessors(b: Block) returns (out: set<Id>)
      ensures out == SuccLiveIns(p, liveIn, b, |p.g.Succs(b)|)
    {
      var succs := p.g.Succs(b);
      out := {};
      for i := 0 to |succs|
        invariant out == SuccLiveIns(p, liveIn, b, i)
      {
        if succs[i] in liveIn {
          out := out + liveIn[succs[i]];
        }
      }
    }

    /** The live set at the end of block `k`. */
    method CollectLive(k: nat) returns (out: set<Id>)
      requires k < |order| && Distinct(order) && liveIn.Keys == Elems(order[k + 1..])
      requires p.g.Mirrored() && p.NoParallelEdges()
      ensures out == Out(p, order, liveIn, order[k])
    {
      hide Graph.Mirrored, Graph.AllEdges, SuccLiveIns, PhiOutUpTo, PhiOut, PhiInputs, Out;
      var b := order[k];
      var succs := p.g.Succs(b);
      out := CollectSuccessors(b);
      ghost var fromSuccs := out;
      NoPhiOut(p, b);
      for i := 0 to |succs|
        invariant out == fromSuccs + PhiOutUpTo(p, b, i)
      {
        var predIndex := GetPredecessorIndex(p.g, b, succs[i]);
        EdgeIsSucc(p.g, b, succs[i]);
        EdgeIsPred(p.g, b, succs[i]);
        if predIndex.Some? {
          PhiOutStep(p, b, i, predIndex.value);
          out := CollectPhiInputs(p, succs[i], predIndex.value, out);
        }
      }
      PhiOutAll(p, b);
      SuccLiveInsAre(p, order, liveIn, k);
    }

    /** The reverse walk over the body of block `b`. */
    method WalkBody(b: Block, out: set<Id>, ghost s: Block, ghost before: map<Id, LiveRange>) returns (alive: set<Id>)
      requires p.Ssa(s) && RangesWalked(p, Lay(), out, b, |p.Body(b)|, before, ranges)
      modifies this`ranges
      ensures RangesWalked(p, Lay(), out, b, 0, before, ranges)
      ensures alive == LiveAfterWalk(p, out, b, 0)
    {
      hide *;
      alive := out;
      var body := p.Body(b);
      var blockFrom := Lay().Start(b);
      var j: nat := |body|;
      NothingWalked(p, out, b);
      while j > 0
        invariant j <= |body| && alive == LiveAfterWalk(p, out, b, j)
        invariant RangesWalked(p, Lay(), out, b, j, before, ranges)
      {
        j := j - 1;
        var d := body[j];
        ghost var r0 := ranges;
        WalkedKeys(p, s, Lay(), out, b, j, before, r0);
        var shortened := ShortenRangeStart(ranges[d], Lay().Live(d), blockFrom);
        ranges := ranges[d := shortened];
        LiveWalkStep(p, s, out, b, j);
        alive := alive - {d};
        ghost var r1 := ranges;
        UpdatedHulls(p, r0, d, shortened);
        AddToInputs(p.Inputs(d), (blockFrom, Lay().Live(d)));
        alive := alive + Elems(p.Inputs(d));
        RangesWalkedStep(p, s, Lay(), out, b, j, before, r0, r1, ranges);
      }
    }

    /** Erases the phis of `b` from the live set. */
    method ErasePhis(b: Block, alive0: set<Id>) returns (alive: set<Id>)
      ensures alive == alive0 - Elems(p.Phis(b))
    {
      alive := alive0;
      var phis := p.Phis(b);
      for i := 0 to |phis|
        invariant alive == alive0 - Elems(phis[..i])
      {
        assert phis[..i + 1] == phis[..i] + [phis[i]];
        alive := alive - {phis[i]};
      }
      assert phis[..|phis|] == phis;
    }

    /** The body of the reverse loop over the line, for block `k`. */
    method ProcessBlock(k: nat, ghost s: Block)
      requires Lined(p, s, order) && Numbered(p, Lay()) && HeadersFirst(Lay(), info)
      requires k < |order| && LiveInsInv(p, s, order, liveIn, k + 1)
      requires RangesInv(p, Lay(), info, liveIn, k + 1, ranges)
      modifies this`ranges, this`liveIn
      ensures LiveInsInv(p, s, order, liveIn, k) && RangesInv(p, Lay(), info, liveIn, k, ranges)
    {
      hide *;
      var b := order[k];
      ghost var before := ranges;
      LinedFacts(p, s, order, liveIn, k + 1);
      var out := CollectLive(k);
      RangesInvKeys(p, Lay(), info, liveIn, k + 1, ranges);
      AddToAll(out, (Lay().Start(b), Lay().End(b)));
      RangesWalkedStart(p, Lay(), out, b, before, ranges);
      var alive := WalkBody(b, out, s, before);
      alive := ErasePhis(b, alive);
      LiveInIs(p, order, liveIn, b);
      RangesWalkedKeys(p, Lay(), out, b, before, ranges);
      ghost var walked := ranges;
      ghost var stretched := if IsLoopHeader(info, b) then alive else {};
      if IsLoopHeader(info, b) {
        var loopEndPos := LoopEndPos(b);
        AddToAll(alive, (Lay().Start(b), loopEndPos));
      } else {
        NothingAdded(p, ranges, (Lay().Start(b), LoopEnd(Lay(), info, b)));
      }
      LiveInsStep(p, s, order, liveIn, k);
      AddLiveInIs(p, order, liveIn, b, alive);
      RangesStep(p, s, Lay(), info, liveIn, k, before, walked, ranges, alive);
      liveIn := liveIn[b := alive];
    }

    /** GetLoopEndPos for the loop headed by `b`. */
    method LoopEndPos(b: Block) returns (pos: nat)
      requires IsLoopHeader(info, b)
      ensures pos == LoopEnd(Lay(), info, b)
    {
      pos := GetLoopEndPos(Lay(), info.loops[info.loopOf[b]].nodes);
    }

    method CalculateLiveRanges(ghost s: Block)
      requires Lined(p, s, order) && LatchesLater(p, order, info)
      requires liveIn == map[] && ranges.Keys == p.code.Keys && forall v :: v in ranges ==> ranges[v] == EMPTY_RANGE
      modifies this
      ensures Numbered(p, Lay()) && LiveInsInv(p, s, order, liveIn, 0)
      ensures RangesInv(p, Lay(), info, liveIn, 0, ranges)
    {
      hide *;
      LinedPlaced(p, s, order);
      InitLiveLinForInstr();
      HeadersFirstFromOrder(p, Lay(), info);
      NothingProcessed(p, s, Lay(), info, ranges);
      var k: nat := |order|;
      while k > 0
        invariant k <= |order| && LiveInsInv(p, s, order, liveIn, k)
        invariant RangesInv(p, Lay(), info, liveIn, k, ranges)
        invariant Numbered(p, Lay()) && HeadersFirst(Lay(), info)
      {
        k := k - 1;
        ProcessBlock(k, s);
      }
    }
  }

  lemma StartAtNext(p: Prog, order: seq<Block>, k: nat)
    requires k < |order|
    ensures StartAt(p, order, k + 1) == StartAt(p, order, k) + 2 * |p.Body(order[k])| + 2
  {
  }

  /** Phis get the start of their block. */
  method NumberPhis(phis: seq<Id>, start: nat, live0: map<Id, nat>) returns (live: map<Id, nat>)
    ensures PhisNumbered(phis, start, live0, live)
  {
    live := live0;
    for m := 0 to |phis|
      invariant forall v :: v in live0 && v !in phis ==> v in live && live[v] == live0[v]
      invariant forall i :: 0 <= i < m ==> phis[i] in live && live[phis[i]] == start
    {
      live := live[phis[m] := start];
    }
  }

  /** Every other instruction is two further. */
  method NumberBody(body: seq<Id>, start: nat, live0: map<Id, nat>) returns (live: map<Id, nat>, countLive: nat)
    requires Distinct(body)
    ensures countLive == start + 2 * |body| && BodyNumbered(body, start, live0, live)
  {
    live, countLive := live0, start;
    for m := 0 to |body|
      invariant countLive == start + 2 * m
      invariant forall v :: v in live0 && v !in body ==> v in live && live[v] == live0[v]
      invariant forall i :: 0 <= i < m ==> body[i] in live && live[body[i]] == start + 2 * i + 2
    {
      countLive := countLive + 2;
      live := live[body[m] := countLive];
    }
  }

  ghost predicate PhisNumbered(phis: seq<Id>, start: nat, live0: map<Id, nat>, live: map<Id, nat>) {
    && (forall v :: v in live0 && v !in phis ==> v in live && live[v] == live0[v])
    && (forall v :: v in phis ==> v in live && live[v] == start)
  }

  ghost predicate BodyNumbered(body: seq<Id>, start: nat, live0: map<Id, nat>, live: map<Id, nat>) {
    && (forall v :: v in live0 && v !in body ==> v in live && live[v] == live0[v])
    && (forall m :: 0 <= m < |body| ==> body[m] in live && live[body[m]] == start + 2 * m + 2)
  }

  /** Instructions of different places are different. */
  lemma PlacesDisjoint(p: Prog, b: Block, c: Block, v: Id)
    requires p.Placed()
    ensures b != c && (v in p.Phis(b) || v in p.Body(b)) ==> v !in p.Phis(c) && v !in p.Body(c)
    ensures v in p.Phis(b) ==> v !in p.Body(b)
  {
    assert v in p.Phis(b) ==> v in p.code && p.code[v].bb == b && p.code[v].opcode.Phi?;
    assert v in p.Body(b) ==> v in p.code && p.code[v].bb == b && !p.code[v].opcode.Phi?;
    assert v in p.Phis(c) ==> v in p.code && p.code[v].bb == c;
    assert v in p.Body(c) ==> v in p.code && p.code[v].bb == c;
  }

  lemma BodyDistinct(p: Prog, b: Block)
    requires p.Placed()
    ensures Distinct(p.Body(b))
  {
  }

  /** Numbering block `k` numbers it and leaves the positions of earlier blocks alone. */
  lemma JustNumbered(p: Prog, lay: Layout, middle: map<Id, nat>, lay': Layout, k: nat)
    requires p.Placed() && Distinct(lay.order) && lay'.order == lay.order && k < |lay.order|
    requires forall j :: 0 <= j < k ==> BlockNumbered(p, lay, j)
    requires PhisNumbered(p.Phis(lay.order[k]), StartAt(p, lay.order, k), lay.live, middle)
    requires BodyNumbered(p.Body(lay.order[k]), StartAt(p, lay.order, k), middle, lay'.live)
    requires lay'.at == lay.at[lay.order[k] := (StartAt(p, lay.order, k), StartAt(p, lay.order, k + 1))]
    ensures forall j :: 0 <= j < k + 1 ==> BlockNumbered(p, lay', j)
  {
    hide BlockNumbered, Prog.Placed, StartAt, PhisNumbered, BodyNumbered;
    forall j | 0 <= j < k + 1 ensures BlockNumbered(p, lay', j) {
      if j == k {
        ThisNumbered(p, lay, middle, lay', k);
      } else {
        NumberedKept(p, lay, middle, lay', j, k);
      }
    }
  }

  lemma ThisNumbered(p: Prog, lay: Layout, middle: map<Id, nat>, lay': Layout, k: nat)
    requires p.Placed() && lay'.order == lay.order && k < |lay.order|
    requires PhisNumbered(p.Phis(lay.order[k]), StartAt(p, lay.order, k), lay.live, middle)
    requires BodyNumbered(p.Body(lay.order[k]), StartAt(p, lay.order, k), middle, lay'.live)
    requires lay'.at == lay.at[lay.order[k] := (StartAt(p, lay.order, k), StartAt(p, lay.order, k + 1))]
    ensures BlockNumbered(p, lay', k)
  {
    hide Prog.Placed, StartAt;
    forall v | v in p.Phis(lay.order[k]) ensures v in lay'.live && lay'.live[v] == StartAt(p, lay.order, k) {
      PlacesDisjoint(p, lay.order[k], lay.order[k], v);
    }
  }

  lemma NumberedKept(p: Prog, lay: Layout, middle: map<Id, nat>, lay': Layout, j: nat, k: nat)
    requires p.Placed() && Distinct(lay.order) && lay'.order == lay.order && j < k < |lay.order|
    requires BlockNumbered(p, lay, j)
    requires PhisNumbered(p.Phis(lay.order[k]), StartAt(p, lay.order, k), lay.live, middle)
    requires BodyNumbered(p.Body(lay.order[k]), StartAt(p, lay.order, k), middle, lay'.live)
    requires lay'.at == lay.at[lay.order[k] := (StartAt(p, lay.order, k), StartAt(p, lay.order, k + 1))]
    ensures BlockNumbered(p, lay', j)
  {
    hide Prog.Placed, StartAt;
    var b := lay.order[j];
    assert b != lay.order[k];
    forall v | v in p.Phis(b) ensures v in lay'.live && lay'.live[v] == StartAt(p, lay.order, j) {
      PlacesDisjoint(p, b, lay.order[k], v);
    }
    forall m | 0 <= m < |p.Body(b)|
      ensures p.Body(b)[m] in lay'.live && lay'.live[p.Body(b)[m]] == StartAt(p, lay.order, j) + 2 * m + 2
    {
      PlacesDisjoint(p, b, lay.order[k], p.Body(b)[m]);
    }
  }

  lemma NothingWalked(p: Prog, out: set<Id>, b: Block)
    ensures LiveAfterWalk(p, out, b, |p.Body(b)|) == out
  {
    assert UsesFrom(p, b, |p.Body(b)|) == {};
  }

  lemma WalkedKeys(p: Prog, s: Block, lay: Layout, out: set<Id>, b: Block, j: nat, before: map<Id, LiveRange>,
                   ranges: map<Id, LiveRange>)
    requires p.Ssa(s) && j < |p.Body(b)| && RangesWalked(p, lay, out, b, j + 1, before, ranges)
    ensures p.Body(b)[j] in ranges && HullOk(ranges[p.Body(b)[j]]) && HullsOk(p, ranges)
  {
    hide Walked, HullOk, Intervals;
    assert p.Body(b)[j] in p.Body(b);
  }

  lemma UpdatedHulls(p: Prog, ranges: map<Id, LiveRange>, d: Id, lr: LiveRange)
    requires HullsOk(p, ranges) && d in ranges && HullOk(lr)
    ensures HullsOk(p, ranges[d := lr]) && ranges[d := lr].Keys == ranges.Keys
  {
  }

  lemma NoPhiOut(p: Prog, b: Block)
    ensures PhiOutUpTo(p, b, 0) == {}
  {
  }

  lemma NothingAdded(p: Prog, ranges: map<Id, LiveRange>, iv: Interval)
    requires HullsOk(p, ranges)
    ensures Added(p, ranges, ranges, {}, iv) && Elems<Id>([]) == {}
    ensures forall inputs: seq<Id> :: Elems(inputs[..0]) == {}
  {
  }

  lemma ElemsTake(s: seq<Id>, i: nat)
    requires i < |s|
    ensures Elems(s[..i + 1]) == Elems(s[..i]) + {s[i]}
  {
    assert s[..i + 1] == s[..i] + [s[i]];
  }

  lemma AddedHull(p: Prog, before: map<Id, LiveRange>, ranges: map<Id, LiveRange>, vs: set<Id>, iv: Interval, v: Id)
    requires Added(p, before, ranges, vs, iv)
    ensures v in ranges ==> HullOk(ranges[v])
  {
  }

  lemma AddedStep(p: Prog, before: map<Id, LiveRange>, r: map<Id, LiveRange>, r': map<Id, LiveRange>, vs: set<Id>,
                  v: Id, iv: Interval)
    requires Added(p, before, r, vs, iv)
    requires if v in r then HullOk(r[v]) && HullOk(r[v].AddInterval(iv)) && r' == r[v := r[v].AddInterval(iv)]
             else r' == r
    ensures Added(p, before, r', vs + {v}, iv)
  {
    hide HullOk, LiveRange.AddInterval, Intervals;
    forall x | x in r'
      ensures Intervals(r'[x]) == Intervals(before[x]) + (if x in vs + {v} then {iv} else {})
    {
      if x == v {
        assert Intervals(r'[v]) == Intervals(r[v]) + {iv};
      }
    }
  }

  // ---------- gluing the steps of one block ----------

  /** Every loop of the line has a node that is not placed before its header. */
  ghost predicate LatchesLater(p: Prog, order: seq<Block>, info: LoopInfo) {
    forall h :: h in order && IsLoopHeader(info, h) ==> NodeNotBefore(order, info.loops[info.loopOf[h]].nodes, h)
  }

  ghost predicate NodeNotBefore(order: seq<Block>, nodes: set<Block>, h: Block) {
    exists b :: b in nodes && b in order && h in order && FirstIndex(order, h) <= FirstIndex(order, b)
  }

  lemma HeadersFirstFromOrder(p: Prog, lay: Layout, info: LoopInfo)
    requires Numbered(p, lay) && LatchesLater(p, lay.order, info)
    ensures HeadersFirst(lay, info)
  {
    forall h | h in lay.order && IsLoopHeader(info, h) ensures lay.Start(h) <= LoopEnd(lay, info, h) {
      var nodes := info.loops[info.loopOf[h]].nodes;
      assert NodeNotBefore(lay.order, nodes, h);
      var b :| b in nodes && b in lay.order && FirstIndex(lay.order, h) <= FirstIndex(lay.order, b);
      BlockPositions(p, lay, b);
      BlockPositions(p, lay, h);
      if lay.Index(h) < lay.Index(b) {
        LaterBlock(p, lay, h, b);
      } else {
        assert h == lay.order[lay.Index(b)];
      }
      assert IsMaxEnd(lay, nodes, MaxEnd(lay, nodes));
    }
  }

  lemma LinedPlaced(p: Prog, s: Block, order: seq<Block>)
    requires Lined(p, s, order)
    ensures p.Placed() && Distinct(order)
  {
  }

  lemma LinedFacts(p: Prog, s: Block, order: seq<Block>, li: map<Block, set<Id>>, k: nat)
    requires Lined(p, s, order) && k <= |order| && LiveInsInv(p, s, order, li, k)
    ensures p.Ssa(s) && Distinct(order) && p.g.Mirrored() && p.NoParallelEdges()
    ensures li.Keys == Elems(order[k..])
  {
    hide Prog.Strict, Prog.Placed;
  }

  lemma RangesInvKeys(p: Prog, lay: Layout, info: LoopInfo, li: map<Block, set<Id>>, k: nat, ranges: map<Id, LiveRange>)
    requires RangesInv(p, lay, info, li, k, ranges)
    ensures HullsOk(p, ranges)
  {
  }

  lemma RangesWalkedKeys(p: Prog, lay: Layout, out: set<Id>, b: Block, before: map<Id, LiveRange>,
                         ranges: map<Id, LiveRange>)
    requires RangesWalked(p, lay, out, b, 0, before, ranges)
    ensures HullsOk(p, ranges)
  {
  }

  lemma NothingProcessed(p: Prog, s: Block, lay: Layout, info: LoopInfo, ranges: map<Id, LiveRange>)
    requires ranges.Keys == p.code.Keys && forall v :: v in ranges ==> ranges[v] == EMPTY_RANGE
    ensures LiveInsInv(p, s, lay.order, map[], |lay.order|)
    ensures RangesInv(p, lay, info, map[], |lay.order|, ranges)
  {
  }

  lemma AddLiveInIs(p: Prog, order: seq<Block>, li: map<Block, set<Id>>, b: Block, alive: set<Id>)
    requires alive == Out(p, order, li, b) + UsesFrom(p, b, 0) - Defs(p, b)
    ensures AddLiveIn(p, order, li, b) == li[b := alive]
  {
  }

  lemma LiveInIs(p: Prog, order: seq<Block>, li: map<Block, set<Id>>, b: Block)
    ensures LiveAfterWalk(p, Out(p, order, li, b), b, 0) - Elems(p.Phis(b)) ==
            Out(p, order, li, b) + UsesFrom(p, b, 0) - Defs(p, b)
  {
    hide Out, UsesFrom;
    assert p.Body(b)[0..] == p.Body(b);
  }

  /** The walk and the stretching of header live-ins together process block `k`. */
  lemma RangesStep(p: Prog, s: Block, lay: Layout, info: LoopInfo, li: map<Block, set<Id>>, k: nat,
                   before: map<Id, LiveRange>, walked: map<Id, LiveRange>, ranges: map<Id, LiveRange>, alive: set<Id>)
    requires Lined(p, s, lay.order) && Numbered(p, lay) && HeadersFirst(lay, info) && k < |lay.order|
    requires LiveInsInv(p, s, lay.order, li, k + 1) && RangesInv(p, lay, info, li, k + 1, before)
    requires RangesWalked(p, lay, Out(p, lay.order, li, lay.order[k]), lay.order[k], 0, before, walked)
    requires alive == Out(p, lay.order, li, lay.order[k]) + UsesFrom(p, lay.order[k], 0) - Defs(p, lay.order[k])
    requires Added(p, walked, ranges, if IsLoopHeader(info, lay.order[k]) then alive else {},
                   (lay.Start(lay.order[k]), LoopEnd(lay, info, lay.order[k])))
    ensures RangesInv(p, lay, info, li[lay.order[k] := alive], k, ranges)
  {
    hide Lined, Numbered, HeadersFirst, LiveInsInv, IntervalsInv, Walked, HullOk, Out, UsesFrom, Defs, Intervals;
    var b := lay.order[k];
    var li' := li[b := alive];
    forall v | v in ranges ensures IntervalsInv(p, lay, info, li', k, v, Intervals(ranges[v])) {
      IntervalsStep(p, s, lay, info, li, k, v, Intervals(before[v]));
      LiveInsStep(p, s, lay.order, li, k);
      LinedPlaced(p, s, lay.order);
      OutKept(p, lay.order, li, k, alive, k);
      assert AddLiveIn(p, lay.order, li, b) == li';
      assert Intervals(ranges[v]) == Processed(p, lay, info, li', b, v, Intervals(before[v]));
    }
  }
}
