/** Path-based liveness, and when one reverse pass covers it (Analyzers/livenessAnalyzer.cpp:92-175). */
module LivenessTheory {
  import opened Util
  import opened Cfg
  import opened Rpo
  import opened Ir
  import opened NaturalLoops
  import opened Loops
  import opened LinearOrder
  import opened LiveRanges
  import opened Liveness
  import opened LivenessPass

  /** `v` is read in the body of `b`, or by a phi along an edge leaving `b`. */
  ghost predicate ReadFrom(p: Prog, b: Block, v: Id) {
    v in UsesFrom(p, b, 0) || v in PhiOut(p, b)
  }

  /** A path along which `v` is not defined and at whose end it is read. */
  ghost predicate LivePath(p: Prog, q: seq<Block>, v: Id) {
    && Path(p.Edges(), q)
    && (forall x :: x in q ==> v !in Defs(p, x))
    && ReadFrom(p, q[|q| - 1], v)
  }

  ghost predicate LiveInto(p: Prog, c: Block, v: Id) {
    exists q :: LivePath(p, q, v) && q[0] == c
  }

  ghost predicate LiveOut(p: Prog, b: Block, v: Id) {
    v in PhiOut(p, b) || exists c :: c in p.g.Succs(b) && LiveInto(p, c, v)
  }

  /** `v` is live between the body positions `k - 1` and `k` of `b` (after the phis when `k` is 0):
      it has been defined there if at all, and some path from there reads it before defining it again. */
  ghost predicate LiveAt(p: Prog, b: Block, k: nat, v: Id) {
    k <= |p.Body(b)| && v !in p.Body(b)[k..] && (v in UsesFrom(p, b, k) || LiveOut(p, b, v))
  }

  /** The program point before body position `k` lies strictly between two instruction positions. */
  function PointPos(lay: Layout, b: Block, k: nat): nat {
    lay.Start(b) + 2 * k + 1
  }

  /** The outcome of the pass on a reducible graph whose line respects the forward edges. */
  ghost predicate Analyzed(p: Prog, s: Block, info: LoopInfo, lay: Layout, li: map<Block, set<Id>>,
                           ranges: map<Id, LiveRange>) {
    && Lined(p, s, lay.order) && Numbered(p, lay)
    && LiveInsInv(p, s, lay.order, li, 0) && RangesInv(p, lay, info, li, 0, ranges)
    && Tame(p.Edges(), s) && BackEdgesAgree(p.Edges(), s, info) && ForwardOrdered(p.Edges(), s, lay.order)
  }

  /** The computed range of `v` holds the point, with room on both sides. */
  ghost predicate Holds(ranges: map<Id, LiveRange>, v: Id, pos: nat) {
    v in ranges && ranges[v].isRangeSet && ranges[v].range.0 < pos < ranges[v].range.1
  }

  ghost predicate Spans(ranges: map<Id, LiveRange>, v: Id, lo: nat, hi: nat) {
    v in ranges && ranges[v].isRangeSet && ranges[v].range.0 <= lo && hi <= ranges[v].range.1
  }

  lemma AskSpanned(p: Prog, s: Block, info: LoopInfo, lay: Layout, li: map<Block, set<Id>>, ranges: map<Id, LiveRange>,
                   b: Block, v: Id, hi: nat)
    requires Analyzed(p, s, info, lay, li, ranges) && b in lay.order && v in p.code && Asks(p, lay, info, li, b, v, hi)
    ensures Spans(ranges, v, Lo(p, lay, b, v), hi)
  {
    hide Lined, Numbered, LiveInsInv, Tame, BackEdgesAgree, ForwardOrdered, Asks, Lo, Accounted;
    assert v in ranges && IntervalsInv(p, lay, info, li, 0, v, Intervals(ranges[v]));
    assert AsksMet(p, lay, info, li, lay.Index(b), v, Intervals(ranges[v]));
    var iv :| iv in Intervals(ranges[v]) && iv.0 <= Lo(p, lay, b, v) && iv.1 == hi;
    assert iv in ranges[v].intervals;
  }

  // ---------- forward-only paths ----------

  /** A path that always moves on in the line. */
  ghost predicate Rising(es: Edges, order: seq<Block>, f: seq<Block>) {
    && Path(es, f) && (forall x :: x in f ==> x in order)
    && (forall i: nat :: i + 1 < |f| ==> RisesAt(order, f, i))
  }

  ghost predicate RisesAt(order: seq<Block>, f: seq<Block>, i: nat)
    requires i + 1 < |f|
  {
    Precedes(order, f[i], f[i + 1])
  }

  /** What dominates the end of a path without lying on it dominates its start. */
  lemma DomBeforePath(es: Edges, s: Block, z: Block, f: seq<Block>)
    requires Path(es, f) && z !in f && Dom(es, s, z, f[|f| - 1])
    ensures Dom(es, s, z, f[0])
  {
    forall p | PathTo(es, s, f[0], p) ensures z in p {
      PathJoin(es, p, f);
      assert z in p + f[1..];
    }
  }

  /** From its earliest block on, a path can be cut down to one that only moves on in the line. */
  lemma {:induction false} CutToRising(es: Edges, s: Block, order: seq<Block>, q: seq<Block>) returns (f: seq<Block>)
    requires Path(es, q) && ForwardOrdered(es, s, order) && DominatorsFirst(es, s, order) && Distinct(order)
    requires q[0] in order
    requires forall x :: x in q ==> x in order && FirstIndex(order, q[0]) <= FirstIndex(order, x)
    ensures Rising(es, order, f) && f[0] == q[0] && f[|f| - 1] == q[|q| - 1]
    ensures forall x :: x in f ==> x in q
    ensures forall x :: x in f[1..] ==> x in q[1..]
    decreases |q|
  {
    if |q| == 1 {
      f := q;
    } else {
      var n := |q| - 1;
      PathPrefix(es, q, n);
      var g := CutToRising(es, s, order, q[..n]);
      assert Hop(es, q, n - 1);
      assert q[n] in q;
      f := CutLastHop(es, s, order, g, q[n]);
      assert forall y :: y in q[..n][1..] ==> y in q[1..];
      assert q[n] in q[1..] && forall y :: y in g ==> y in q;
    }
  }

  /** Extends a rising path by one edge, or cuts it back where the edge returns to it. */
  lemma CutLastHop(es: Edges, s: Block, order: seq<Block>, g: seq<Block>, z: Block) returns (f: seq<Block>)
    requires Rising(es, order, g) && (g[|g| - 1], z) in es && z in order && Distinct(order)
    requires ForwardOrdered(es, s, order) && DominatorsFirst(es, s, order)
    requires g[0] in order && FirstIndex(order, g[0]) <= FirstIndex(order, z)
    ensures Rising(es, order, f) && f[0] == g[0] && f[|f| - 1] == z
    ensures forall y :: y in f ==> y in g || y == z
    ensures forall y :: y in f[1..] ==> y in g[1..] || y == z
  {
    hide Dom;
    if SDom(es, s, z, g[|g| - 1]) {
      StaysAbove(es, s, order, z, g);
      var i := FirstIndex(g, z);
      f := g[..i + 1];
      RisingPrefix(es, order, g, i + 1);
      assert forall y :: y in f[1..] ==> y in g[1..];
    } else {
      f := g + [z];
      RisingAppend(es, order, g, z);
    }
  }

  lemma StaysAbove(es: Edges, s: Block, order: seq<Block>, z: Block, g: seq<Block>)
    requires Path(es, g) && g[0] in order && Dom(es, s, z, g[|g| - 1]) && Distinct(order)
    requires z in order && FirstIndex(order, g[0]) <= FirstIndex(order, z) && DominatorsFirst(es, s, order)
    ensures z in g
  {
    if z !in g {
      DomBeforePath(es, s, z, g);
      assert g[0] in g && SDom(es, s, z, g[0]);
      PrecedesIndex(order, z, g[0]);
    }
  }

  lemma RisingPrefix(es: Edges, order: seq<Block>, g: seq<Block>, n: nat)
    requires Rising(es, order, g) && 0 < n <= |g|
    ensures Rising(es, order, g[..n])
  {
    PathPrefix(es, g, n);
    forall i: nat | i + 1 < n ensures RisesAt(order, g[..n], i) {
      assert RisesAt(order, g, i);
    }
  }

  lemma RisingSuffix(es: Edges, order: seq<Block>, g: seq<Block>, n: nat)
    requires Rising(es, order, g) && n < |g|
    ensures Rising(es, order, g[n..])
  {
    PathSuffix(es, g, n);
    forall i: nat | i + 1 < |g| - n ensures RisesAt(order, g[n..], i) {
      assert RisesAt(order, g, n + i);
    }
  }

  lemma RisingAppend(es: Edges, order: seq<Block>, g: seq<Block>, z: Block)
    requires Rising(es, order, g) && (g[|g| - 1], z) in es && z in order && Precedes(order, g[|g| - 1], z)
    ensures Rising(es, order, g + [z])
  {
    PathAppend(es, g, z);
    forall i: nat | i + 1 < |g + [z]| ensures RisesAt(order, g + [z], i) {
      if i + 1 < |g| {
        assert RisesAt(order, g, i);
      }
    }
  }

  /** Along a rising live path the value is in the computed live-in sets. */
  lemma {:induction false} RisingLive(p: Prog, s: Block, order: seq<Block>, li: map<Block, set<Id>>, f: seq<Block>,
                                      v: Id)
    requires Distinct(order) && LiveInsInv(p, s, order, li, 0)
    requires Rising(p.Edges(), order, f) && LivePath(p, f, v)
    ensures f[0] in li && v in li[f[0]]
    decreases |f|
  {
    assert f[0] in f;
    assert LiveInAt(p, order, li, order[FirstIndex(order, f[0])]);
    if |f| > 1 {
      RisingSuffix(p.Edges(), order, f, 1);
      RisingLive(p, s, order, li, f[1..], v);
      assert RisesAt(order, f, 0) && Hop(p.Edges(), f, 0);
      EdgeIsSucc(p.g, f[0], f[1]);
      PrecedesIndex(order, f[0], f[1]);
      assert Follows(p, order, f[0], f[1]);
      assert v in Out(p, order, li, f[0]);
    }
  }

  // ---------- live at the end of a block ----------

  /** The range of every value live at the start of a header reaches the end of every block of its loop. */
  ghost predicate HeadersCover(p: Prog, s: Block, lay: Layout, li: map<Block, set<Id>>, ranges: map<Id, LiveRange>) {
    forall h, v, b :: h in li && v in li[h] && InLoop(p.Edges(), s, h, b) ==> Reaches(ranges, v, lay.End(b))
  }

  ghost predicate Reaches(ranges: map<Id, LiveRange>, v: Id, hi: nat) {
    v in ranges && hi <= ranges[v].range.1
  }

  /** The first index of an earliest block of a path. */
  lemma {:induction false} Earliest(order: seq<Block>, w: seq<Block>) returns (j: nat)
    requires w != [] && forall x :: x in w ==> x in order
    ensures j < |w| && forall i :: 0 <= i < |w| ==> FirstIndex(order, w[j]) <= FirstIndex(order, w[i])
    ensures forall i :: 0 <= i < j ==> FirstIndex(order, w[j]) < FirstIndex(order, w[i])
    decreases |w|
  {
    if |w| == 1 {
      j := 0;
    } else {
      var n := |w| - 1;
      assert forall x :: x in w[..n] ==> x in w;
      j := Earliest(order, w[..n]);
      assert w[..n][j] == w[j];
      assert forall i :: 0 <= i < n ==> w[..n][i] == w[i];
      assert w[n] in order;
      if FirstIndex(order, w[n]) < FirstIndex(order, w[j]) {
        j := n;
      }
    }
  }

  /** An edge that does not move on in the line closes a natural loop. */
  lemma BackwardEdge(p: Prog, s: Block, info: LoopInfo, lay: Layout, li: map<Block, set<Id>>,
                     ranges: map<Id, LiveRange>, u: Block, h: Block)
    requires Analyzed(p, s, info, lay, li, ranges) && (u, h) in p.Edges()
    requires u in lay.order && h in lay.order && lay.Index(h) <= lay.Index(u)
    ensures BackEdge(p.Edges(), s, u, h) && IsLoopHeader(info, h) && u != h
  {
    hide LiveInsInv, RangesInv, Numbered, Reach, Dom, Reducible;
    if Precedes(lay.order, u, h) {
      PrecedesIndex(lay.order, u, h);
    }
    assert IsBackEdge(info, u, h);
  }

  lemma PathInLine(p: Prog, s: Block, order: seq<Block>, q: seq<Block>)
    requires Lined(p, s, order) && Path(p.Edges(), q) && q[0] in order
    ensures forall x :: x in q ==> x in order
  {
    forall u: Block, v: Block | u in Elems(order) && v in q && (u, v) in p.Edges() ensures v in Elems(order) {
      EdgeIsSucc(p.g, u, v);
      assert v in p.g.blocks;
    }
    ClosedSetHoldsPath(p.Edges(), q, Elems(order));
    assert forall x :: x in q ==> x in Elems(order);
  }

  /** A suffix of a live path is live. */
  lemma LiveSuffix(p: Prog, q: seq<Block>, v: Id, n: nat)
    requires LivePath(p, q, v) && n < |q|
    ensures LivePath(p, q[n..], v)
  {
    PathSuffix(p.Edges(), q, n);
  }

  /** A live path cut down to a rising one is still live. */
  lemma CutLive(p: Prog, q: seq<Block>, f: seq<Block>, v: Id)
    requires LivePath(p, q, v) && Path(p.Edges(), f) && f[|f| - 1] == q[|q| - 1] && forall x :: x in f ==> x in q
    ensures LivePath(p, f, v)
  {
  }

  /** At the earliest block of a live path, the value is in the computed live-in set. */
  lemma EarliestLive(p: Prog, s: Block, info: LoopInfo, lay: Layout, li: map<Block, set<Id>>,
                     ranges: map<Id, LiveRange>, q: seq<Block>, v: Id)
    requires Analyzed(p, s, info, lay, li, ranges) && LivePath(p, q, v) && q[0] in lay.order
    requires forall x :: x in q ==> x in lay.order && lay.Index(q[0]) <= lay.Index(x)
    ensures q[0] in li && v in li[q[0]]
  {
    hide LiveInsInv, RangesInv, Numbered, Reach, Dom, Tame, BackEdgesAgree, Defs, ReadFrom;
    var f := CutToRising(p.Edges(), s, lay.order, q);
    CutLive(p, q, f, v);
    RisingLive(p, s, lay.order, li, f, v);
  }

  /** Case: the block is the earliest on its live path. */
  lemma LiveFromEarliest(p: Prog, s: Block, info: LoopInfo, lay: Layout, li: map<Block, set<Id>>,
                         ranges: map<Id, LiveRange>, b: Block, q: seq<Block>, v: Id)
    requires Analyzed(p, s, info, lay, li, ranges) && HeadersCover(p, s, lay, li, ranges)
    requires b in lay.order && q != [] && (b, q[0]) in p.Edges() && LivePath(p, q, v) && v in p.code
    requires forall x :: x in q ==> x in lay.order && lay.Index(b) <= lay.Index(x)
    ensures Spans(ranges, v, Lo(p, lay, b, v), lay.End(b))
  {
    hide LiveInsInv, RangesInv, Numbered, Reach, Dom, Tame, BackEdgesAgree, Defs, ReadFrom, Lined;
    var w := [b] + q;
    PathCons(p.Edges(), b, q);
    LinedOrder(p, s, lay.order);
    var f := CutToRising(p.Edges(), s, lay.order, w);
    assert w[1..] == q;
    if |f| > 1 {
      PathSuffix(p.Edges(), f, 1);
      CutLive(p, q, f[1..], v);
      RisingSuffix(p.Edges(), lay.order, f, 1);
      RisingLive(p, s, lay.order, li, f[1..], v);
      RisingIsOut(p, s, lay.order, li, f, v);
      AskSpanned(p, s, info, lay, li, ranges, b, v, lay.End(b));
    } else {
      assert b in q;
      var i := FirstIndex(q, b);
      assert w[i + 1] == b && Hop(p.Edges(), w, i);
      assert w[i] in w;
      BackwardEdge(p, s, info, lay, li, ranges, w[i], b);
      LiveSuffix(p, q, v, i);
      EarliestLive(p, s, info, lay, li, ranges, q[i..], v);
      HeaderSpans(p, s, info, lay, li, ranges, b, b, v);
    }
  }

  lemma LinedOrder(p: Prog, s: Block, order: seq<Block>)
    requires Lined(p, s, order)
    ensures Distinct(order) && DominatorsFirst(p.Edges(), s, order)
  {
  }

  lemma RisingIsOut(p: Prog, s: Block, order: seq<Block>, li: map<Block, set<Id>>, f: seq<Block>, v: Id)
    requires Distinct(order) && Rising(p.Edges(), order, f) && |f| > 1 && f[1] in li && v in li[f[1]]
    ensures v in Out(p, order, li, f[0])
  {
    assert RisesAt(order, f, 0) && Hop(p.Edges(), f, 0);
    assert f[0] in f && f[1] in f;
    EdgeIsSucc(p.g, f[0], f[1]);
    PrecedesIndex(order, f[0], f[1]);
    assert Follows(p, order, f[0], f[1]);
  }

  /** The stretched range of a header's live-in value spans every block of the loop that it reaches the end of. */
  lemma HeaderSpans(p: Prog, s: Block, info: LoopInfo, lay: Layout, li: map<Block, set<Id>>, ranges: map<Id, LiveRange>,
                    h: Block, b: Block, v: Id)
    requires Analyzed(p, s, info, lay, li, ranges) && HeadersCover(p, s, lay, li, ranges)
    requires h in lay.order && b in lay.order && IsLoopHeader(info, h) && InLoop(p.Edges(), s, h, b)
    requires h in li && v in li[h] && v in p.code && lay.Index(h) <= lay.Index(b)
    ensures Spans(ranges, v, Lo(p, lay, b, v), lay.End(b))
  {
    hide RangesInv, Reach, Dom, Tame, BackEdgesAgree, Lined, InLoop, ForwardOrdered;
    assert Asks(p, lay, info, li, h, v, LoopEnd(lay, info, h));
    AskSpanned(p, s, info, lay, li, ranges, h, v, LoopEnd(lay, info, h));
    assert Reaches(ranges, v, lay.End(b));
    NotDefinedAtHeader(p, s, lay.order, li, h, v);
    BlockPositions(p, lay, b);
    BlockPositions(p, lay, h);
    if h != b {
      LaterThanHeader(p, s, lay, h, b);
    }
    if v in p.Body(b) {
      var m := FirstIndex(p.Body(b), v);
    }
  }

  lemma LaterThanHeader(p: Prog, s: Block, lay: Layout, h: Block, b: Block)
    requires Numbered(p, lay) && h in lay.order && b in lay.order && lay.Index(h) <= lay.Index(b) && h != b
    ensures lay.End(h) <= lay.Start(b)
  {
    assert lay.order[lay.Index(h)] == h && lay.order[lay.Index(b)] == b;
    LaterBlock(p, lay, h, b);
  }

  lemma NotDefinedAtHeader(p: Prog, s: Block, order: seq<Block>, li: map<Block, set<Id>>, h: Block, v: Id)
    requires LiveInsInv(p, s, order, li, 0) && h in order && h in li && v in li[h]
    ensures v !in p.Body(h) && v !in p.Phis(h)
  {
    assert LiveInAt(p, order, li, order[FirstIndex(order, h)]);
  }

  /** Case: the live path goes back to a block earlier in the line; that is a header whose loop holds `b`. */
  lemma LiveThroughHeader(p: Prog, s: Block, info: LoopInfo, lay: Layout, li: map<Block, set<Id>>,
                          ranges: map<Id, LiveRange>, w: seq<Block>, j: nat, v: Id)
    requires Analyzed(p, s, info, lay, li, ranges) && HeadersCover(p, s, lay, li, ranges) && v in p.code
    requires Path(p.Edges(), w) && 0 < j < |w| && LivePath(p, w[j..], v)
    requires forall x :: x in w ==> x in lay.order
    requires forall i :: 0 <= i < |w| ==> lay.Index(w[j]) <= lay.Index(w[i])
    requires forall i :: 0 <= i < j ==> lay.Index(w[j]) < lay.Index(w[i])
    ensures Spans(ranges, v, Lo(p, lay, w[0], v), lay.End(w[0]))
  {
    hide LiveInsInv, RangesInv, Numbered, Reach, Dom, Tame, BackEdgesAgree, Defs, ReadFrom, Lined, ForwardOrdered;
    hide LivePath;
    var es, m := p.Edges(), w[j];
    assert forall x :: x in w[j..] ==> exists i :: j <= i < |w| && w[i] == x;
    EarliestLive(p, s, info, lay, li, ranges, w[j..], v);
    assert Hop(es, w, j - 1);
    BackwardEdge(p, s, info, lay, li, ranges, w[j - 1], m);
    PathPrefix(es, w, j);
    assert m !in w[..j];
    assert ReachAvoiding(es, w[0], w[j - 1], m);
    assert InLoop(es, s, m, w[0]);
    HeaderSpans(p, s, info, lay, li, ranges, m, w[0], v);
  }

  /** The path `q` with `b` put before it, and the index of its earliest block. */
  lemma WithSource(p: Prog, s: Block, info: LoopInfo, lay: Layout, li: map<Block, set<Id>>, ranges: map<Id, LiveRange>,
                   b: Block, q: seq<Block>) returns (j: nat)
    requires Analyzed(p, s, info, lay, li, ranges) && b in lay.order && Path(p.Edges(), q) && (b, q[0]) in p.Edges()
    ensures q != [] && Path(p.Edges(), [b] + q) && (forall x :: x in [b] + q ==> x in lay.order) && j < |[b] + q|
    ensures forall i :: 0 <= i < |[b] + q| ==>
              FirstIndex(lay.order, ([b] + q)[j]) <= FirstIndex(lay.order, ([b] + q)[i])
    ensures forall i :: 0 <= i < j ==> FirstIndex(lay.order, ([b] + q)[j]) < FirstIndex(lay.order, ([b] + q)[i])
    ensures j == 0 ==> forall x :: x in q ==> x in lay.order && FirstIndex(lay.order, b) <= FirstIndex(lay.order, x)
  {
    hide Lined, RangesInv, LiveInsInv, Numbered, Tame, BackEdgesAgree, ForwardOrdered, Hop, Graph.AllEdges;
    var w := [b] + q;
    PathCons(p.Edges(), b, q);
    PathInLine(p, s, lay.order, w);
    hide Path;
    j := Earliest(lay.order, w);
    forall x | x in q && j == 0 ensures x in lay.order && FirstIndex(lay.order, b) <= FirstIndex(lay.order, x) {
      var i := FirstIndex(q, x);
      assert w[i + 1] == x && w[i + 1] in w;
    }
  }

  /** A value live along a path that leaves `b` has a range that spans the rest of `b`. */
  lemma LivePathSpanned(p: Prog, s: Block, info: LoopInfo, lay: Layout, li: map<Block, set<Id>>,
                        ranges: map<Id, LiveRange>, b: Block, q: seq<Block>, v: Id)
    requires Analyzed(p, s, info, lay, li, ranges) && HeadersCover(p, s, lay, li, ranges)
    requires b in lay.order && v in p.code && LivePath(p, q, v) && (b, q[0]) in p.Edges()
    ensures Spans(ranges, v, Lo(p, lay, b, v), lay.End(b))
  {
    hide Analyzed, HeadersCover, Spans, Path, Graph.AllEdges, Defs, ReadFrom;
    var j := WithSource(p, s, info, lay, li, ranges, b, q);
    if j == 0 {
      EarliestSpanned(p, s, info, lay, li, ranges, b, q, v);
    } else {
      LiveSuffix(p, q, v, j - 1);
      assert ([b] + q)[j..] == q[j - 1..];
      BackSpanned(p, s, info, lay, li, ranges, [b] + q, j, v);
    }
  }

  lemma EarliestSpanned(p: Prog, s: Block, info: LoopInfo, lay: Layout, li: map<Block, set<Id>>,
                        ranges: map<Id, LiveRange>, b: Block, q: seq<Block>, v: Id)
    requires Analyzed(p, s, info, lay, li, ranges) && HeadersCover(p, s, lay, li, ranges)
    requires b in lay.order && q != [] && (b, q[0]) in p.Edges() && LivePath(p, q, v) && v in p.code
    requires forall x :: x in q ==> x in lay.order && FirstIndex(lay.order, b) <= FirstIndex(lay.order, x)
    ensures Spans(ranges, v, Lo(p, lay, b, v), lay.End(b))
  {
    hide Analyzed, HeadersCover, LivePath, Spans;
    LiveFromEarliest(p, s, info, lay, li, ranges, b, q, v);
  }

  lemma BackSpanned(p: Prog, s: Block, info: LoopInfo, lay: Layout, li: map<Block, set<Id>>, ranges: map<Id, LiveRange>,
                    w: seq<Block>, j: nat, v: Id)
    requires Analyzed(p, s, info, lay, li, ranges) && HeadersCover(p, s, lay, li, ranges) && v in p.code
    requires Path(p.Edges(), w) && 0 < j < |w| && LivePath(p, w[j..], v)
    requires forall x :: x in w ==> x in lay.order
    requires forall i :: 0 <= i < |w| ==> FirstIndex(lay.order, w[j]) <= FirstIndex(lay.order, w[i])
    requires forall i :: 0 <= i < j ==> FirstIndex(lay.order, w[j]) < FirstIndex(lay.order, w[i])
    ensures Spans(ranges, v, Lo(p, lay, w[0], v), lay.End(w[0]))
  {
    hide Analyzed, HeadersCover, LivePath, Spans, Path;
    LiveThroughHeader(p, s, info, lay, li, ranges, w, j, v);
  }

  /** A value live at the end of a block has a range that spans the rest of the block. */
  lemma LiveOutSpanned(p: Prog, s: Block, info: LoopInfo, lay: Layout, li: map<Block, set<Id>>,
                       ranges: map<Id, LiveRange>, b: Block, v: Id)
    requires Analyzed(p, s, info, lay, li, ranges) && HeadersCover(p, s, lay, li, ranges)
    requires b in lay.order && v in p.code && LiveOut(p, b, v)
    ensures Spans(ranges, v, Lo(p, lay, b, v), lay.End(b))
  {
    hide Analyzed, HeadersCover, LivePath, Spans, PhiOut, Out, Follows, Graph.AllEdges, LiveInto;
    if v in PhiOut(p, b) {
      assert v in Out(p, lay.order, li, b) by {
        PhiOutIsOut(p, lay.order, li, b);
      }
      AskSpanned(p, s, info, lay, li, ranges, b, v, lay.End(b));
    } else {
      var c :| c in p.g.Succs(b) && LiveInto(p, c, v);
      var q := LiveIntoPath(p, c, v);
      EdgeIsSucc(p.g, b, c);
      LivePathSpanned(p, s, info, lay, li, ranges, b, q, v);
    }
  }

  lemma LiveIntoPath(p: Prog, c: Block, v: Id) returns (q: seq<Block>)
    requires LiveInto(p, c, v)
    ensures LivePath(p, q, v) && q != [] && q[0] == c
  {
    q :| LivePath(p, q, v) && q[0] == c;
  }

  lemma PhiOutIsOut(p: Prog, order: seq<Block>, li: map<Block, set<Id>>, b: Block)
    ensures PhiOut(p, b) <= Out(p, order, li, b)
  {
  }

  // ---------- the main theorem ----------

  lemma ReadExists(p: Prog, s: Block, b: Block, v: Id)
    requires p.Ssa(s) && ReadFrom(p, b, v)
    ensures v in p.code
  {
    if v in UsesFrom(p, b, 0) {
      var m :| 0 <= m < |p.Body(b)| && v in p.Inputs(p.Body(b)[m]);
      assert p.Available(s, v, b, m);
    } else {
      var c, q, j :| c in p.g.Succs(b) && q in p.Phis(c) && 0 <= j < |p.Inputs(q)| && j < |p.g.Preds(c)| &&
                     p.g.Preds(c)[j] == b && p.Inputs(q)[j] == v;
      assert p.Available(s, p.Inputs(q)[j], p.g.Preds(c)[j], |p.Body(b)|);
    }
  }

  lemma LiveExists(p: Prog, s: Block, b: Block, k: nat, v: Id)
    requires p.Ssa(s) && LiveAt(p, b, k, v)
    ensures v in p.code
  {
    hide Prog.Ssa;
    if v in UsesFrom(p, b, k) {
      assert v in UsesFrom(p, b, 0);
      ReadExists(p, s, b, v);
    } else if v in PhiOut(p, b) {
      ReadExists(p, s, b, v);
    } else {
      var c :| c in p.g.Succs(b) && LiveInto(p, c, v);
      var q :| LivePath(p, q, v) && q[0] == c;
      ReadExists(p, s, q[|q| - 1], v);
    }
  }

  /** Every program point at which a value is live lies in the value's computed range. */
  ghost predicate Sound(p: Prog, lay: Layout, ranges: map<Id, LiveRange>) {
    forall b, k, v :: b in lay.order && LiveAt(p, b, k, v) ==> Holds(ranges, v, PointPos(lay, b, k))
  }

  lemma SpannedHolds(p: Prog, lay: Layout, ranges: map<Id, LiveRange>, b: Block, k: nat, v: Id, hi: nat)
    requires Numbered(p, lay) && b in lay.order && k <= |p.Body(b)| && v !in p.Body(b)[k..]
    requires Spans(ranges, v, Lo(p, lay, b, v), hi) && PointPos(lay, b, k) < hi
    ensures Holds(ranges, v, PointPos(lay, b, k))
  {
    BlockPositions(p, lay, b);
    if v in p.Body(b) {
      var i := FirstIndex(p.Body(b), v);
      NotInTail(p.Body(b), k, i);
    }
  }

  lemma LivePointHeld(p: Prog, s: Block, info: LoopInfo, lay: Layout, li: map<Block, set<Id>>,
                      ranges: map<Id, LiveRange>, b: Block, k: nat, v: Id)
    requires Analyzed(p, s, info, lay, li, ranges) && HeadersCover(p, s, lay, li, ranges)
    requires b in lay.order && LiveAt(p, b, k, v)
    ensures Holds(ranges, v, PointPos(lay, b, k))
  {
    hide LiveInsInv, RangesInv, Reach, Dom, Tame, BackEdgesAgree, Defs, ForwardOrdered, HeadersCover, LiveOut, PhiOut;
    hide Numbered, Lo;
    LiveExists(p, s, b, k, v);
    BlockPositions(p, lay, b);
    if v in UsesFrom(p, b, k) {
      var m :| k <= m < |p.Body(b)| && v in p.Inputs(p.Body(b)[m]);
      assert UsedAt(p, lay, b, 0, v, lay.Live(p.Body(b)[m]));
      AskSpanned(p, s, info, lay, li, ranges, b, v, lay.Live(p.Body(b)[m]));
      SpannedHolds(p, lay, ranges, b, k, v, lay.Live(p.Body(b)[m]));
    } else {
      LiveOutSpanned(p, s, info, lay, li, ranges, b, v);
      SpannedHolds(p, lay, ranges, b, k, v, lay.End(b));
    }
  }

  // ---------- the condition is necessary ----------

  /** A value in a computed live-in set is live into the block, along a path that only moves on in the line. */
  lemma {:induction false} LiveInIsLive(p: Prog, s: Block, order: seq<Block>, li: map<Block, set<Id>>, h: Block,
                                        v: Id) returns (q: seq<Block>)
    requires Distinct(order) && LiveInsInv(p, s, order, li, 0) && h in order && h in li && v in li[h]
    ensures LivePath(p, q, v) && q[0] == h && Rising(p.Edges(), order, q)
    decreases |order| - FirstIndex(order, h)
  {
    hide LiveInsInv, Defs, ReadFrom;
    if ReadFrom(p, h, v) {
      LiveInNotDefined(p, s, order, li, h, v);
      q := [h];
    } else {
      var c := LiveInFrom(p, s, order, li, h, v);
      var r := LiveInIsLive(p, s, order, li, c, v);
      LiveInNotDefined(p, s, order, li, h, v);
      q := [h] + r;
      LiveExtend(p, h, r, v);
      RisingCons(p, order, h, r);
    }
  }

  lemma RisingCons(p: Prog, order: seq<Block>, h: Block, r: seq<Block>)
    requires Rising(p.Edges(), order, r) && Follows(p, order, h, r[0])
    ensures Rising(p.Edges(), order, [h] + r)
  {
    EdgeIsSucc(p.g, h, r[0]);
    PathCons(p.Edges(), h, r);
    var q := [h] + r;
    forall i: nat | i + 1 < |q| ensures RisesAt(order, q, i) {
      if i > 0 {
        assert RisesAt(order, r, i - 1);
      } else {
        assert order[FirstIndex(order, h)] == h && order[FirstIndex(order, r[0])] == r[0];
      }
    }
  }

  lemma LiveInNotDefined(p: Prog, s: Block, order: seq<Block>, li: map<Block, set<Id>>, h: Block, v: Id)
    requires LiveInsInv(p, s, order, li, 0) && h in order && h in li && v in li[h]
    ensures v !in Defs(p, h)
  {
    assert LiveInAt(p, order, li, order[FirstIndex(order, h)]);
  }

  lemma LiveInFrom(p: Prog, s: Block, order: seq<Block>, li: map<Block, set<Id>>, h: Block, v: Id) returns (c: Block)
    requires LiveInsInv(p, s, order, li, 0) && h in order && h in li && v in li[h] && !ReadFrom(p, h, v)
    ensures c in li && v in li[c] && Follows(p, order, h, c)
  {
    assert LiveInAt(p, order, li, order[FirstIndex(order, h)]);
    c :| c in li && v in li[c] && Follows(p, order, h, c);
  }

  lemma LiveExtend(p: Prog, h: Block, r: seq<Block>, v: Id)
    requires LivePath(p, r, v) && r[0] in p.g.Succs(h) && v !in Defs(p, h)
    ensures LivePath(p, [h] + r, v)
  {
    hide Defs, ReadFrom;
    EdgeIsSucc(p.g, h, r[0]);
    PathCons(p.Edges(), h, r);
  }

  /** A value live into a header is not defined inside the loop. */
  lemma NotDefinedInLoop(p: Prog, s: Block, order: seq<Block>, li: map<Block, set<Id>>, h: Block, b: Block, v: Id)
    requires Lined(p, s, order) && LiveInsInv(p, s, order, li, 0) && h in li && v in li[h] && InLoop(p.Edges(), s, h, b)
    ensures v !in Defs(p, b)
  {
    LoopDominated(p.Edges(), s, h, b);
    DefinedAt(p, s, order, b, v);
    LiveInFacts(p, s, order, li, h, v);
    hide InLoop, Lined, LiveInsInv, Defs, Dom;
    if v in Defs(p, b) {
      DomAntisym(p.Edges(), s, h, b);
    }
  }

  lemma DefinedAt(p: Prog, s: Block, order: seq<Block>, b: Block, v: Id)
    requires Lined(p, s, order)
    ensures v in Defs(p, b) ==> v in p.code && p.code[v].bb == b
  {
    assert v in p.Phis(b) ==> v in p.code && p.code[v].bb == b;
    assert v in p.Body(b) ==> v in p.code && p.code[v].bb == b;
  }

  lemma LiveInFacts(p: Prog, s: Block, order: seq<Block>, li: map<Block, set<Id>>, h: Block, v: Id)
    requires Lined(p, s, order) && LiveInsInv(p, s, order, li, 0) && h in li && v in li[h]
    ensures v in p.code && SDom(p.Edges(), s, p.code[v].bb, h) && Reach(p.Edges(), s, h) && h in order
  {
    hide Prog.Strict, Prog.Placed, LiveInAt, Dom, DominatorsFirst, Graph.Mirrored;
    assert h in Elems(order[0..]) && h in order;
    assert h in p.g.blocks;
  }

  /** From the end of any block of the loop one can go round to the header. */
  lemma LoopAround(es: Edges, s: Block, h: Block, b: Block) returns (r: seq<Block>)
    requires InLoop(es, s, h, b)
    ensures Path(es, r) && |r| > 1 && r[0] == b && r[|r| - 1] == h
    ensures forall x :: x in r ==> InLoop(es, s, h, x)
  {
    var u: Block;
    var q: seq<Block>;
    if b == h {
      u :| BackEdge(es, s, u, h);
      var w :| PathTo(es, s, u, w);
      assert h in w;
      var i := LastIndex(w, h);
      PathSuffix(es, w, i);
      q := w[i..];
      assert q[1..] == w[i + 1..];
    } else {
      u :| BackEdge(es, s, u, h) && ReachAvoiding(es, b, u, h);
      q :| PathTo(es, b, u, q) && h !in q;
    }
    PathAppend(es, q, h);
    r := q + [h];
    assert h !in q[1..];
    forall x | x in r && x != h ensures InLoop(es, s, h, x) {
      SuffixAvoids(es, q, h, x);
      assert ReachAvoiding(es, x, u, h);
    }
  }

  lemma SuffixAvoids(es: Edges, q: seq<Block>, h: Block, x: Block)
    requires Path(es, q) && h !in q[1..] && x in q && x != h
    ensures ReachAvoiding(es, x, q[|q| - 1], h)
  {
    var i := LastIndex(q, x);
    PathSuffix(es, q, i);
    forall y | y in q[i..] ensures y != h {
      var k := FirstIndex(q[i..], y);
      assert q[i + k] == y && (i + k > 0 ==> q[1..][i + k - 1] == y);
    }
  }

  lemma LiveRoundLoop(p: Prog, s: Block, info: LoopInfo, lay: Layout, li: map<Block, set<Id>>,
                      ranges: map<Id, LiveRange>, h: Block, b: Block, v: Id)
    requires Analyzed(p, s, info, lay, li, ranges) && h in lay.order && h in li && v in li[h]
    requires InLoop(p.Edges(), s, h, b)
    ensures LiveOut(p, b, v)
  {
    hide RangesInv, Numbered, Reach, Dom, Tame, BackEdgesAgree, ReadFrom, ForwardOrdered, InLoop, Defs, LiveInsInv;
    hide Lined;
    LinedOrder(p, s, lay.order);
    var q := LiveInIsLive(p, s, lay.order, li, h, v);
    var r := LoopAround(p.Edges(), s, h, b);
    PathJoin(p.Edges(), r, q);
    var w := r + q[1..];
    assert w[|w| - 1] == q[|q| - 1];
    PathSuffix(p.Edges(), w, 1);
    forall x | x in w[1..] ensures v !in Defs(p, x) {
      if x in r {
        NotDefinedInLoop(p, s, lay.order, li, h, x, v);
      } else {
        assert x in q[1..];
        assert x in q;
      }
    }
    LivePathOut(p, w, v);
  }

  lemma LivePathOut(p: Prog, w: seq<Block>, v: Id)
    requires Path(p.Edges(), w) && |w| > 1 && LivePath(p, w[1..], v)
    ensures LiveOut(p, w[0], v)
  {
    hide Defs, ReadFrom;
    assert Hop(p.Edges(), w, 0);
    EdgeIsSucc(p.g, w[0], w[1]);
    assert LiveInto(p, w[1], v);
  }

  lemma SoundReaches(p: Prog, s: Block, info: LoopInfo, lay: Layout, li: map<Block, set<Id>>,
                     ranges: map<Id, LiveRange>, h: Block, b: Block, v: Id)
    requires Analyzed(p, s, info, lay, li, ranges) && Sound(p, lay, ranges)
    requires h in li && v in li[h] && InLoop(p.Edges(), s, h, b)
    ensures Reaches(ranges, v, lay.End(b))
  {
    hide RangesInv, Reach, Dom, Tame, BackEdgesAgree, ReadFrom, ForwardOrdered, InLoop, Defs, LiveOut, Numbered;
    LoopInLine(p, s, lay.order, li, h, b);
    LiveRoundLoop(p, s, info, lay, li, ranges, h, b, v);
    BlockPositions(p, lay, b);
    assert LiveAt(p, b, |p.Body(b)|, v);
    assert Holds(ranges, v, PointPos(lay, b, |p.Body(b)|));
  }

  lemma LoopInLine(p: Prog, s: Block, order: seq<Block>, li: map<Block, set<Id>>, h: Block, b: Block)
    requires Lined(p, s, order) && LiveInsInv(p, s, order, li, 0) && h in li && InLoop(p.Edges(), s, h, b)
    ensures h in order && b in order
  {
    assert h in Elems(order[0..]);
    var r := LoopAround(p.Edges(), s, h, b);
    assert Hop(p.Edges(), r, 0);
    EdgeIsSucc(p.g, r[0], r[1]);
    assert r[0] in p.g.succs;
  }

  /** In terms of its results, the pass is sound exactly when the range of every value live at the start of a loop
      header reaches the end of every block of the header's natural loop. */
  lemma SoundByHeaders(p: Prog, s: Block, info: LoopInfo, lay: Layout, li: map<Block, set<Id>>,
                       ranges: map<Id, LiveRange>)
    requires Analyzed(p, s, info, lay, li, ranges)
    ensures Sound(p, lay, ranges) <==> HeadersCover(p, s, lay, li, ranges)
  {
    hide Analyzed, LiveAt, Holds, InLoop, Reaches;
    if HeadersCover(p, s, lay, li, ranges) {
      forall b, k, v | b in lay.order && LiveAt(p, b, k, v) ensures Holds(ranges, v, PointPos(lay, b, k)) {
        LivePointHeld(p, s, info, lay, li, ranges, b, k, v);
      }
    }
    if Sound(p, lay, ranges) {
      forall h, v, b | h in li && v in li[h] && InLoop(p.Edges(), s, h, b) ensures Reaches(ranges, v, lay.End(b)) {
        SoundReaches(p, s, info, lay, li, ranges, h, b, v);
      }
    }
  }

  // ---------- a condition on the line alone ----------

  /** Every block of a natural loop ends at or before the loop end the pass uses. */
  ghost predicate LoopEndsCover(es: Edges, s: Block, lay: Layout, info: LoopInfo) {
    forall h, b :: InLoop(es, s, h, b) ==> lay.End(b) <= LoopEnd(lay, info, h)
  }

  lemma CoveringLoopEndsSuffice(p: Prog, s: Block, info: LoopInfo, lay: Layout, li: map<Block, set<Id>>,
                                ranges: map<Id, LiveRange>)
    requires Analyzed(p, s, info, lay, li, ranges) && LoopEndsCover(p.Edges(), s, lay, info)
    ensures Sound(p, lay, ranges)
  {
    hide Analyzed, InLoop, Reaches, LoopEnd;
    forall h, v, b | h in li && v in li[h] && InLoop(p.Edges(), s, h, b) ensures Reaches(ranges, v, lay.End(b)) {
      StretchReaches(p, s, info, lay, li, ranges, h, b, v);
    }
    SoundByHeaders(p, s, info, lay, li, ranges);
  }

  lemma StretchReaches(p: Prog, s: Block, info: LoopInfo, lay: Layout, li: map<Block, set<Id>>,
                       ranges: map<Id, LiveRange>, h: Block, b: Block, v: Id)
    requires Analyzed(p, s, info, lay, li, ranges) && h in li && v in li[h] && InLoop(p.Edges(), s, h, b)
    requires lay.End(b) <= LoopEnd(lay, info, h)
    ensures Reaches(ranges, v, lay.End(b))
  {
    hide RangesInv, Dom, Numbered, Reach, Lo, Lined, LiveInsInv, ReachesLatch, LoopEnd, Tame;
    LiveInFacts(p, s, lay.order, li, h, v);
    var u :| BackEdge(p.Edges(), s, u, h);
    assert IsBackEdge(info, u, h);
    assert Asks(p, lay, info, li, h, v, LoopEnd(lay, info, h));
    AskSpanned(p, s, info, lay, li, ranges, h, v, LoopEnd(lay, info, h));
  }

  /** A loop without subloops is covered by its own nodes. */
  lemma SimpleLoopCovered(p: Prog, s: Block, lay: Layout, info: LoopInfo, h: Block, b: Block)
    requires NestDone(p.Edges(), s, info) && SourcesReached(p.Edges(), s) && InLoop(p.Edges(), s, h, b)
    requires Distinct(lay.order) && ForwardOrdered(p.Edges(), s, lay.order)
    requires DominatorsFirst(p.Edges(), s, lay.order) && Numbered(p, lay)
    requires forall x :: Reach(p.Edges(), s, x) ==> x in lay.order
    requires h in info.loopOf && info.loopOf[h] < |info.loops| && info.loops[info.loopOf[h]].subLoops == {}
    ensures lay.End(b) <= LoopEnd(lay, info, h)
  {
    hide Dom, Reach, ReachesLatch;
    var es, l := p.Edges(), info.loopOf[h];
    NaturalLoopFromNest(es, s, info, h, b);
    NodesOfLoop(es, s, info, h);
    assert IsMaxEnd(lay, info.loops[l].nodes, LoopEnd(lay, info, h));
    if b == h {
      var u :| BackEdge(es, s, u, h);
      assert Precedes(lay.order, h, u);
      PrecedesIndex(lay.order, h, u);
      LaterBlock(p, lay, h, u);
      BlockPositions(p, lay, u);
    }
  }

  /** The nodes of a processed loop: the latches of its header and the blocks assigned to it. */
  lemma NodesOfLoop(es: Edges, s: Block, info: LoopInfo, h: Block)
    requires NestDone(es, s, info) && Header(es, s, h) && h in info.loopOf && info.loopOf[h] < |info.loops|
    ensures forall b :: b in info.loops[info.loopOf[h]].nodes <==>
              BackEdge(es, s, b, h) || (b != h && b in info.loopOf && info.loopOf[b] == info.loopOf[h])
  {
    hide Dom, Reach, BackEdge, ReachesLatch;
    var done :| Nested(es, s, info, done) && AllHeaders(es, s, done);
    assert AssignedOk(es, s, info, done, h);
    assert LoopOk(es, s, info, done, info.loopOf[h]);
  }
}
