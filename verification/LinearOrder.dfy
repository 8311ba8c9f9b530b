/** The wait-count scheduler that puts the blocks in a line (Analyzers/linearOrderAnalyzer.cpp). */
module LinearOrder {
  import opened Util
  import opened Cfg
  import opened Rpo
  import opened NaturalLoops
  import opened Loops

  predicate IsLoopHeader(info: LoopInfo, b: Block) {
    HeadOf(info, b) == Some(b)
  }

  predicate IsBackEdge(info: LoopInfo, pred: Block, succ: Block) {
    && IsLoopHeader(info, succ)
    && pred in info.loopOf
    && (info.loopOf[pred] == info.loopOf[succ] || info.loopOf[pred] in info.loops[info.loopOf[succ]].subLoops)
  }

  /** The predecessor entries of `b` that are not back edges and not in `done`. */
  function Pending(info: LoopInfo, b: Block, preds: seq<Block>, done: set<Block>): nat {
    if preds == [] then 0
    else
      var n := |preds| - 1;
      Pending(info, b, preds[..n], done) + (if IsBackEdge(info, preds[n], b) || preds[n] in done then 0 else 1)
  }

  lemma {:induction false} PendingZero(info: LoopInfo, b: Block, preds: seq<Block>, done: set<Block>)
    ensures Pending(info, b, preds, done) == 0 <==> forall u :: u in preds && !IsBackEdge(info, u, b) ==> u in done
  {
    if preds != [] {
      var n := |preds| - 1;
      PendingZero(info, b, preds[..n], done);
      assert preds == preds[..n] + [preds[n]];
    }
  }

  /** Scheduling `c` takes away as many pending entries as `c` has in the list. */
  lemma {:induction false} PendingStep(info: LoopInfo, b: Block, preds: seq<Block>, done: set<Block>, c: Block)
    requires c !in done
    ensures Pending(info, b, preds, done) ==
            Pending(info, b, preds, done + {c}) + (if IsBackEdge(info, c, b) then 0 else multiset(preds)[c])
  {
    if preds != [] {
      var n := |preds| - 1;
      PendingStep(info, b, preds[..n], done, c);
      assert preds == preds[..n] + [preds[n]];
    }
  }

  method CalculateWaitCount(g: Graph, info: LoopInfo, b: Block) returns (count: nat)
    ensures count == Pending(info, b, g.Preds(b), {})
  {
    count := 0;
    var isHeader := IsLoopHeader(info, b);
    var preds := g.Preds(b);
    for i := 0 to |preds|
      invariant count == Pending(info, b, preds[..i], {})
    {
      assert preds[..i + 1][..i] == preds[..i];
      if !(isHeader && IsBackEdge(info, preds[i], b)) {
        count := count + 1;
      }
    }
    assert preds[..|preds|] == preds;
  }

  // ---------- picking from the ready list ----------

  /** The index in `ready` of the block to schedule next: the first successor of the last block that is
      ready, else the first ready block of the last block's loop, else the first ready block. */
  ghost predicate Picked(g: Graph, info: LoopInfo, ready: seq<Block>, last: Option<Block>, i: nat)
    requires i < |ready|
  {
    if last.Some? && SuccessorReady(g.Succs(last.value), ready) then
      FirstReadySuccessor(g.Succs(last.value), ready, ready[i])
    else if last.Some? && LoopMateReady(info, ready, last.value) then
      InSameLoop(info, ready[i], last.value) && forall j :: 0 <= j < i ==> !InSameLoop(info, ready[j], last.value)
    else i == 0
  }

  ghost predicate SuccessorReady(succs: seq<Block>, ready: seq<Block>) {
    exists k :: 0 <= k < |succs| && succs[k] in ready
  }

  ghost predicate FirstReadySuccessor(succs: seq<Block>, ready: seq<Block>, v: Block) {
    exists k :: 0 <= k < |succs| && succs[k] == v && forall j :: 0 <= j < k ==> succs[j] !in ready
  }

  ghost predicate LoopMateReady(info: LoopInfo, ready: seq<Block>, b: Block) {
    exists j :: 0 <= j < |ready| && InSameLoop(info, ready[j], b)
  }

  predicate InSameLoop(info: LoopInfo, a: Block, b: Block) {
    a in info.loopOf && b in info.loopOf && info.loopOf[a] == info.loopOf[b]
  }

  method PickNextBlock(g: Graph, info: LoopInfo, ready: seq<Block>, last: Option<Block>)
    returns (selected: Block, rest: seq<Block>, at: nat)
    requires ready != []
    ensures at < |ready| && selected == ready[at] && rest == ready[..at] + ready[at + 1..]
    ensures Picked(g, info, ready, last, at)
  {
    var best: nat := |ready|;
    if last.Some? {
      best := FindReadySuccessor(g.Succs(last.value), ready);
      if best == |ready| && last.value in info.loopOf {
        best := FindInLoop(info, ready, last.value);
      }
    }
    if best == |ready| {
      best := 0;
    }
    selected, rest, at := ready[best], ready[..best] + ready[best + 1..], best;
  }

  method FindReadySuccessor(succs: seq<Block>, ready: seq<Block>) returns (best: nat)
    ensures best <= |ready|
    ensures best < |ready| <==> SuccessorReady(succs, ready)
    ensures best < |ready| ==> FirstReadySuccessor(succs, ready, ready[best])
  {
    best := |ready|;
    for k := 0 to |succs|
      invariant best == |ready|
      invariant forall j :: 0 <= j < k ==> succs[j] !in ready
    {
      best := Find(ready, succs[k]);
      if best < |ready| {
        assert succs[k] in ready;
        return;
      }
      assert ready[..|ready|] == ready;
    }
  }

  method FindInLoop(info: LoopInfo, ready: seq<Block>, b: Block) returns (i: nat)
    ensures i <= |ready| && forall j :: 0 <= j < i ==> !InSameLoop(info, ready[j], b)
    ensures i < |ready| ==> InSameLoop(info, ready[i], b)
    ensures i < |ready| <==> LoopMateReady(info, ready, b)
  {
    i := 0;
    while i < |ready| && !InSameLoop(info, ready[i], b)
      invariant i <= |ready| && forall j :: 0 <= j < i ==> !InSameLoop(info, ready[j], b)
    {
      i := i + 1;
    }
  }

  // ---------- what every step of the scheduler keeps ----------

  /** The scheduled and the ready blocks are distinct blocks of the graph, and exactly the visited ones. */
  ghost predicate QueueInv(blocks: seq<Block>, order: seq<Block>, ready: seq<Block>, visited: set<Block>) {
    && Distinct(order + ready)
    && visited == Elems(order + ready)
    && visited <= Elems(blocks)
  }

  lemma QueueTake(blocks: seq<Block>, order: seq<Block>, ready: seq<Block>, visited: set<Block>, i: nat)
    requires QueueInv(blocks, order, ready, visited) && i < |ready|
    ensures QueueInv(blocks, order + [ready[i]], ready[..i] + ready[i + 1..], visited)
    ensures ready[i] !in order && Elems(order + [ready[i]]) == Elems(order) + {ready[i]}
  {
    var order', ready' := order + [ready[i]], ready[..i] + ready[i + 1..];
    assert (order + ready)[|order| + i] == ready[i];
    assert forall j :: 0 <= j < |order| ==> (order + ready)[j] == order[j];
    assert forall k :: 0 <= k < |ready| ==> (order + ready)[|order| + k] == ready[k];
    forall x ensures x in order' + ready' <==> x in order + ready {
      assert ready == ready[..i] + [ready[i]] + ready[i + 1..];
    }
    forall a, b | 0 <= a < b < |order' + ready'| ensures (order' + ready')[a] != (order' + ready')[b] {
      var f := (k: int) => if k < |order| then k else if k == |order| then |order| + i
          else if k <= |order| + i then k - 1 else k;
      assert (order' + ready')[a] == (order + ready)[f(a)];
      assert (order' + ready')[b] == (order + ready)[f(b)];
    }
  }

  lemma QueuePush(blocks: seq<Block>, order: seq<Block>, ready: seq<Block>, visited: set<Block>, b: Block)
    requires QueueInv(blocks, order, ready, visited) && b !in visited && b in blocks
    ensures QueueInv(blocks, order, ready + [b], visited + {b})
  {
    assert order + (ready + [b]) == (order + ready) + [b];
  }

  // ---------- reducible graphs ----------

  /** A reducible graph whose loop information names exactly the back edges. */
  ghost predicate Schedulable(g: Graph, s: Block, info: LoopInfo) {
    && g.Closed() && g.Mirrored() && s in g.blocks
    && (forall b :: b in g.blocks ==> Reach(g.AllEdges(), s, b))
    && Tame(g.AllEdges(), s)
    && BackEdgesAgree(g.AllEdges(), s, info)
  }

  ghost predicate BackEdgesAgree(es: Edges, s: Block, info: LoopInfo) {
    forall u: Block, v: Block :: (u, v) in es ==> (IsBackEdge(info, u, v) <==> SDom(es, s, v, u))
  }

  /** The loop nest found by the loop analyzer classifies every edge correctly. */
  lemma NestNamesBackEdges(es: Edges, s: Block, info: LoopInfo)
    requires NestDone(es, s, info) && SourcesReached(es, s) && NoSelfEdges(es)
    ensures BackEdgesAgree(es, s, info)
  {
    forall u: Block, v: Block | (u, v) in es ensures IsBackEdge(info, u, v) <==> SDom(es, s, v, u) {
      NestNamesBackEdge(es, s, info, u, v);
    }
  }

  lemma NestNamesBackEdge(es: Edges, s: Block, info: LoopInfo, u: Block, v: Block)
    requires NestDone(es, s, info) && SourcesReached(es, s) && NoSelfEdges(es) && (u, v) in es
    ensures IsBackEdge(info, u, v) <==> SDom(es, s, v, u)
  {
    assert Reach(es, s, (u, v).0);
    HeaderIsLoopHeader(es, s, info, v);
    hide NestDone, Dom, Reach, ReachesLatch, SourcesReached;
    assert u != v;
    if Header(es, s, v) {
      NaturalLoopFromNest(es, s, info, v, u);
      if InLoop(es, s, v, u) {
        LoopDominated(es, s, v, u);
      }
    }
    if SDom(es, s, v, u) {
      assert BackEdge(es, s, u, v);
      LatchInLoop(es, s, u, v);
    }
  }

  lemma HeaderIsLoopHeader(es: Edges, s: Block, info: LoopInfo, h: Block)
    requires NestDone(es, s, info)
    ensures Header(es, s, h) <==> IsLoopHeader(info, h)
  {
    hide Dom, Reach, BackEdge, ReachesLatch;
    AssignedIsInnermost(es, s, info, h);
    if Header(es, s, h) {
      assert InLoop(es, s, h, h);
      var h' := HeadOf(info, h).value;
      assert Dom(es, s, h, h');
      LoopDominated(es, s, h', h);
      HeaderReach(es, s, h);
      DomAntisym(es, s, h, h');
    }
  }

  /** Every forward predecessor of `v` is in `done`. */
  ghost predicate ForwardPredsIn(g: Graph, info: LoopInfo, v: Block, done: set<Block>) {
    forall u :: u in g.Preds(v) && !IsBackEdge(info, u, v) ==> u in done
  }

  /** Forward predecessors come first, for the scheduled and for the ready blocks. */
  ghost predicate TopoInv(g: Graph, info: LoopInfo, order: seq<Block>, ready: seq<Block>) {
    && (forall v :: v in ready ==> ForwardPredsIn(g, info, v, Elems(order)))
    && (forall i :: 0 <= i < |order| ==> ForwardPredsIn(g, info, order[i], Elems(order[..i])))
  }

  /** How many more decrements the edge list of `current` from slot `k` on holds for `b`. */
  function Due(g: Graph, info: LoopInfo, current: Block, k: nat, b: Block): nat
    requires k <= |g.Succs(current)|
  {
    if IsBackEdge(info, current, b) then 0 else multiset(g.Succs(current)[k..])[b]
  }

  ghost predicate WaitOk(g: Graph, info: LoopInfo, order: seq<Block>, waits: map<Block, nat>, due: nat, b: Block) {
    b in waits && waits[b] == Pending(info, b, g.Preds(b), Elems(order)) + due && waits[b] >= 1
  }

  /** An unvisited block waits for exactly its unscheduled forward predecessors, of which there are some. */
  ghost predicate WaitInv(g: Graph, info: LoopInfo, order: seq<Block>, visited: set<Block>, waits: map<Block, nat>) {
    forall b :: b in g.blocks && b !in visited ==> WaitOk(g, info, order, waits, 0, b)
  }

  /** The same in the middle of the successor loop of `current`, before slot `k`. */
  ghost predicate ReleaseInv(g: Graph, info: LoopInfo, order: seq<Block>, visited: set<Block>, waits: map<Block, nat>,
                             current: Block, k: nat)
    requires k <= |g.Succs(current)|
  {
    forall b :: b in g.blocks && b !in visited ==> WaitOk(g, info, order, waits, Due(g, info, current, k, b), b)
  }

  lemma StartReady(g: Graph, s: Block, info: LoopInfo, waits: map<Block, nat>)
    requires Schedulable(g, s, info)
    requires forall b :: b in g.blocks ==> b in waits && waits[b] == Pending(info, b, g.Preds(b), {})
    ensures TopoInv(g, info, [], [s]) && WaitInv(g, info, [], {s}, waits)
  {
    var es := g.AllEdges();
    forall u | u in g.Preds(s) ensures IsBackEdge(info, u, s) {
      EdgeIsPred(g, u, s);
      DomStart(es, s, u);
      assert u != s;
    }
    forall b | b in g.blocks && b != s ensures WaitOk(g, info, [], waits, 0, b) {
      assert Elems<Block>([]) == {};
      assert Reach(es, s, b);
      var u := EnteredForward(es, s, b);
      EdgeIsPred(g, u, b);
      PendingZero(info, b, g.Preds(b), {});
    }
  }

  /** Taking block `i` from the ready list keeps forward predecessors first. */
  lemma TopoTake(g: Graph, info: LoopInfo, order: seq<Block>, ready: seq<Block>, i: nat)
    requires TopoInv(g, info, order, ready) && i < |ready|
    ensures TopoInv(g, info, order + [ready[i]], ready[..i] + ready[i + 1..])
  {
    var order' := order + [ready[i]];
    forall j | 0 <= j < |order'| ensures ForwardPredsIn(g, info, order'[j], Elems(order'[..j])) {
      if j < |order| {
        assert order'[..j] == order[..j];
      } else {
        assert order'[..j] == order;
      }
    }
    forall v | v in ready[..i] + ready[i + 1..] ensures ForwardPredsIn(g, info, v, Elems(order')) {
      assert v in ready;
    }
  }

  lemma ReleaseStarts(g: Graph, s: Block, info: LoopInfo, order: seq<Block>, visited: set<Block>,
                      waits: map<Block, nat>, current: Block)
    requires Schedulable(g, s, info) && WaitInv(g, info, order, visited, waits) && current !in order
    ensures ReleaseInv(g, info, order + [current], visited, waits, current, 0)
  {
    forall b | b in g.blocks && b !in visited
      ensures WaitOk(g, info, order + [current], waits, Due(g, info, current, 0, b), b)
    {
      PendingStep(info, b, g.Preds(b), Elems(order), current);
      assert Elems(order + [current]) == Elems(order) + {current};
      assert g.Succs(current)[0..] == g.Succs(current);
    }
  }

  lemma ReleaseEnds(g: Graph, info: LoopInfo, order: seq<Block>, visited: set<Block>, waits: map<Block, nat>,
                    current: Block)
    requires ReleaseInv(g, info, order, visited, waits, current, |g.Succs(current)|)
    ensures WaitInv(g, info, order, visited, waits)
  {
    forall b | b in g.blocks && b !in visited ensures WaitOk(g, info, order, waits, 0, b) {
      assert Due(g, info, current, |g.Succs(current)|, b) == 0;
    }
  }

  lemma DueStep(g: Graph, info: LoopInfo, current: Block, k: nat, b: Block)
    requires k < |g.Succs(current)|
    ensures Due(g, info, current, k, b) ==
            Due(g, info, current, k + 1, b) +
              (if b == g.Succs(current)[k] && !IsBackEdge(info, current, b) then 1 else 0)
  {
    var succs := g.Succs(current);
    assert succs[k..] == [succs[k]] + succs[k + 1..];
  }

  /** A slot whose target is visited, or not a block of the list, changes nothing. */
  lemma ReleaseSkip(g: Graph, info: LoopInfo, order: seq<Block>, visited: set<Block>, waits: map<Block, nat>,
                    current: Block, k: nat)
    requires k < |g.Succs(current)| && ReleaseInv(g, info, order, visited, waits, current, k)
    requires g.Succs(current)[k] in visited || g.Succs(current)[k] !in g.blocks
    ensures ReleaseInv(g, info, order, visited, waits, current, k + 1)
  {
    var n := k + 1;
    forall b | b in g.blocks && b !in visited ensures WaitOk(g, info, order, waits, Due(g, info, current, n, b), b) {
      DueStep(g, info, current, k, b);
    }
  }

  /** A slot whose target is unvisited takes one from its wait count; at zero the target is released. */
  lemma ReleaseSlot(g: Graph, info: LoopInfo, order: seq<Block>, ready: seq<Block>, visited: set<Block>,
                    waits: map<Block, nat>, current: Block, k: nat)
    requires k < |g.Succs(current)| && ReleaseInv(g, info, order, visited, waits, current, k)
    requires TopoInv(g, info, order, ready)
    requires var v := g.Succs(current)[k]; v !in visited && v in g.blocks && !IsBackEdge(info, current, v)
    ensures var v := g.Succs(current)[k];
            && v in waits && waits[v] >= 1
            && var waits' := waits[v := waits[v] - 1];
            && (waits[v] == 1 ==>
                  && ReleaseInv(g, info, order, visited + {v}, waits', current, k + 1)
                  && TopoInv(g, info, order, ready + [v]))
            && (waits[v] > 1 ==> ReleaseInv(g, info, order, visited, waits', current, k + 1))
  {
    var v, n := g.Succs(current)[k], k + 1;
    assert WaitOk(g, info, order, waits, Due(g, info, current, k, v), v);
    var waits' := waits[v := waits[v] - 1];
    DueStep(g, info, current, k, v);
    PendingZero(info, v, g.Preds(v), Elems(order));
    forall b | b in g.blocks && b !in visited && (b != v || waits[v] > 1)
      ensures WaitOk(g, info, order, waits', Due(g, info, current, n, b), b)
    {
      DueStep(g, info, current, k, b);
      assert WaitOk(g, info, order, waits, Due(g, info, current, k, b), b);
    }
  }

  // ---------- nothing is left when the ready list runs dry ----------

  /** Every block of the order is after its forward predecessors, so after its dominators. */
  lemma {:induction false} DominatorsScheduled(g: Graph, s: Block, info: LoopInfo, order: seq<Block>,
                                               ready: seq<Block>, i: nat, d: Block)
    requires Schedulable(g, s, info) && TopoInv(g, info, order, ready)
    requires i < |order| && order[i] in g.blocks && SDom(g.AllEdges(), s, d, order[i])
    ensures d in order[..i]
    decreases i
  {
    var es, b := g.AllEdges(), order[i];
    if b == s {
      NothingAboveStart(es, s, d);
    } else {
      assert Reach(es, s, b);
      var u := EnteredForward(es, s, b);
      EdgeIsPred(g, u, b);
      EdgeIsSucc(g, u, b);
      assert !IsBackEdge(info, u, b);
      assert ForwardPredsIn(g, info, order[i], Elems(order[..i]));
      assert u in Elems(order[..i]);
      DomPred(es, s, d, u, b);
      if d != u {
        var j := FirstIndex(order[..i], u);
        assert order[j] == u;
        DominatorsScheduled(g, s, info, order, ready, j, d);
        assert d in order[..j];
        assert order[..i][..j] == order[..j];
      }
    }
  }

  /** An unvisited block has an unscheduled, hence unvisited, forward predecessor. */
  lemma UnvisitedPred(g: Graph, s: Block, info: LoopInfo, order: seq<Block>, visited: set<Block>,
                      waits: map<Block, nat>, b: Block)
    returns (u: Block)
    requires Schedulable(g, s, info) && WaitInv(g, info, order, visited, waits)
    requires visited == Elems(order) && b in g.blocks && b !in visited
    ensures u in g.blocks && u !in visited && (u, b) in Forward(g.AllEdges(), s)
  {
    assert WaitOk(g, info, order, waits, 0, b);
    PendingZero(info, b, g.Preds(b), Elems(order));
    u :| u in g.Preds(b) && !IsBackEdge(info, u, b) && u !in Elems(order);
    EdgeIsPred(g, u, b);
    EdgeIsSucc(g, u, b);
    assert u != b;
  }

  /** So there would be forward paths of every length through unvisited blocks. */
  lemma {:induction false} UnvisitedPath(g: Graph, s: Block, info: LoopInfo, order: seq<Block>, visited: set<Block>,
                                         waits: map<Block, nat>, b: Block, n: nat) returns (p: seq<Block>)
    requires Schedulable(g, s, info) && WaitInv(g, info, order, visited, waits)
    requires visited == Elems(order) && b in g.blocks && b !in visited
    ensures Path(Forward(g.AllEdges(), s), p) && |p| == n + 1
    ensures forall x :: x in p ==> x in g.blocks && x !in visited
    decreases n
  {
    if n == 0 {
      p := [b];
    } else {
      var q := UnvisitedPath(g, s, info, order, visited, waits, b, n - 1);
      var u := UnvisitedPred(g, s, info, order, visited, waits, q[0]);
      PathSingle(Forward(g.AllEdges(), s), u);
      PathAppend(Forward(g.AllEdges(), s), [u], q[0]);
      PathJoin(Forward(g.AllEdges(), s), [u] + [q[0]], q);
      p := [u] + [q[0]] + q[1..];
    }
  }

  lemma NoneLeft(g: Graph, s: Block, info: LoopInfo, order: seq<Block>, visited: set<Block>, waits: map<Block, nat>,
                 b: Block)
    requires Schedulable(g, s, info) && WaitInv(g, info, order, visited, waits) && visited == Elems(order)
    requires b in g.blocks
    ensures b in visited
  {
    if b !in visited {
      var p := UnvisitedPath(g, s, info, order, visited, waits, b, |g.blocks|);
      if Distinct(p) {
        CardDistinct(p);
        CardDistinct(g.blocks);
        SubsetCard(Elems(p), Elems(g.blocks));
      }
      var i, j :| 0 <= i < j < |p| && p[i] == p[j];
      PathSuffix(Forward(g.AllEdges(), s), p, i);
      PathPrefix(Forward(g.AllEdges(), s), p[i..], j - i + 1);
      assert false;
    }
  }

  // ---------- the scheduler ----------

  /** The successor loop: takes one from the wait count of every unvisited successor and releases those at zero. */
  method ReleaseSuccessors(g: Graph, info: LoopInfo, current: Block, ready0: seq<Block>, visited0: set<Block>,
                           waits0: map<Block, nat>, ghost order: seq<Block>, ghost tame: bool)
    returns (ready: seq<Block>, visited: set<Block>, waits: map<Block, nat>)
    requires QueueInv(g.blocks, order, ready0, visited0) && waits0.Keys == Elems(g.blocks)
    requires tame ==> TopoInv(g, info, order, ready0) && ReleaseInv(g, info, order, visited0, waits0, current, 0)
    requires tame ==> forall v :: v in g.Succs(current) && IsBackEdge(info, current, v) ==> v in visited0
    requires tame ==> g.Mirrored() && order != [] && order[|order| - 1] == current && Fifo(g, info, order, ready0)
    ensures QueueInv(g.blocks, order, ready, visited) && waits.Keys == Elems(g.blocks)
    ensures tame ==>
              TopoInv(g, info, order, ready) && WaitInv(g, info, order, visited, waits) && Fifo(g, info, order, ready)
    ensures visited0 <= visited && ready0 <= ready
  {
    hide *;
    ready, visited, waits := ready0, visited0, waits0;
    var succs := g.Succs(current);
    for k := 0 to |succs|
      invariant QueueInv(g.blocks, order, ready, visited) && waits.Keys == Elems(g.blocks)
      invariant tame ==> TopoInv(g, info, order, ready) && ReleaseInv(g, info, order, visited, waits, current, k)
      invariant tame ==> Fifo(g, info, order, ready)
      invariant visited0 <= visited && ready0 <= ready
    {
      var succ := succs[k];
      ElemsMember(g.blocks, succ);
      if succ in visited || succ !in waits {
        if tame {
          ReleaseSkip(g, info, order, visited, waits, current, k);
        }
      } else {
        if tame {
          ReleaseSlot(g, info, order, ready, visited, waits, current, k);
        }
        if waits[succ] > 0 {
          waits := waits[succ := waits[succ] - 1];
        }
        if waits[succ] == 0 {
          if tame {
            ReleasedNow(g, info, order, ready, visited, current, succ);
          }
          QueuePush(g.blocks, order, ready, visited, succ);
          ready := ready + [succ];
          visited := visited + {succ};
        }
      }
    }
    if tame {
      ReleaseEnds(g, info, order, visited, waits, current);
    }
  }

  lemma ElemsMember<T>(s: seq<T>, x: T)
    ensures x in Elems(s) <==> x in s
  {
  }

  /** Advances the fallback pointer past the visited blocks. */
  method SkipVisited(blocks: seq<Block>, visited: set<Block>, start: nat) returns (i: nat)
    requires start <= |blocks| && forall j :: 0 <= j < start ==> blocks[j] in visited
    ensures start <= i <= |blocks| && forall j :: 0 <= j < i ==> blocks[j] in visited
    ensures i < |blocks| ==> blocks[i] !in visited
  {
    i := start;
    while i < |blocks| && blocks[i] in visited
      invariant start <= i <= |blocks| && forall j :: 0 <= j < i ==> blocks[j] in visited
    {
      i := i + 1;
    }
  }

  /** A listing of all blocks, each once, that begins with the start block. */
  ghost predicate Permutes(blocks: seq<Block>, s: Block, order: seq<Block>) {
    && Distinct(order) && |order| == |blocks|
    && (forall b :: b in order <==> b in blocks)
    && order != [] && order[0] == s
  }

  /** The source of every forward edge is placed before its target. */
  ghost predicate ForwardOrdered(es: Edges, s: Block, order: seq<Block>) {
    forall u: Block, v: Block :: (u, v) in es && !SDom(es, s, v, u) ==> Precedes(order, u, v)
  }

  lemma TopoIsForwardOrdered(g: Graph, s: Block, info: LoopInfo, order: seq<Block>)
    requires Schedulable(g, s, info) && TopoInv(g, info, order, [])
    requires forall b :: b in g.blocks ==> b in order
    ensures ForwardOrdered(g.AllEdges(), s, order)
  {
    var es := g.AllEdges();
    forall u: Block, v: Block | (u, v) in es && !SDom(es, s, v, u) ensures Precedes(order, u, v) {
      EdgeIsPred(g, u, v);
      EdgeIsSucc(g, u, v);
      var j := FirstIndex(order, v);
      assert ForwardPredsIn(g, info, order[j], Elems(order[..j]));
      var i := FirstIndex(order[..j], u);
      assert order[i] == u && order[j] == v;
    }
  }

  /** When the queue is empty and every block has been visited, the order is complete. */
  lemma AllVisited(blocks: seq<Block>, s: Block, order: seq<Block>, visited: set<Block>)
    requires Distinct(blocks) && QueueInv(blocks, order, [], visited) && order != [] && order[0] == s
    requires |order| >= |blocks| || forall b :: b in blocks ==> b in visited
    ensures Permutes(blocks, s, order)
  {
    assert order + [] == order;
    CardDistinct(order);
    CardDistinct(blocks);
    SubsetCard(Elems(order), Elems(blocks));
    forall b ensures b in order <==> b in blocks {
      assert b in Elems(order) <==> b in order;
      assert b in Elems(blocks) <==> b in blocks;
    }
    if forall b :: b in blocks ==> b in visited {
      assert Elems(order) == Elems(blocks);
    }
  }

  lemma ReleasedNow(g: Graph, info: LoopInfo, order: seq<Block>, ready: seq<Block>, visited: set<Block>,
                    current: Block, b: Block)
    requires QueueInv(g.blocks, order, ready, visited) && Fifo(g, info, order, ready) && g.Mirrored()
    requires order != [] && order[|order| - 1] == current && b in g.Succs(current) && !IsBackEdge(info, current, b)
    ensures Fifo(g, info, order, ready + [b])
  {
    EdgeIsSucc(g, current, b);
    EdgeIsPred(g, current, b);
    forall i, j | 0 <= i < j < |order| ensures order[i] != order[j] {
      assert (order + ready)[i] == order[i] && (order + ready)[j] == order[j];
    }
    FifoPush(g, info, order, ready, b);
  }

  // ---------- the rules the whole line follows ----------

  /** All forward predecessors of `b` are among the first `j` scheduled blocks. */
  ghost predicate ReadyBy(g: Graph, info: LoopInfo, order: seq<Block>, j: nat, b: Block)
    requires j <= |order|
  {
    ForwardPredsIn(g, info, b, Elems(order[..j]))
  }

  /** `b` could be scheduled as the `k`-th block. */
  ghost predicate ReadyAt(g: Graph, info: LoopInfo, order: seq<Block>, k: nat, b: Block)
    requires k <= |order|
  {
    b in g.blocks && b !in order[..k] && ReadyBy(g, info, order, k, b)
  }

  /** `a` became ready no later than `b`. */
  ghost predicate NoLater(g: Graph, info: LoopInfo, order: seq<Block>, k: nat, a: Block, b: Block)
    requires k <= |order|
  {
    forall j :: 0 <= j < k && ReadyBy(g, info, order, j, b) ==> ReadyBy(g, info, order, j, a)
  }

  ghost predicate FirstOf(g: Graph, info: LoopInfo, order: seq<Block>, k: nat, succs: seq<Block>, b: Block)
    requires k <= |order|
  {
    exists i :: 0 <= i < |succs| && succs[i] == b && forall j :: 0 <= j < i ==> !ReadyAt(g, info, order, k, succs[j])
  }

  /** The `k`-th block is ready; it is the first ready successor of the block before it, else of the ready blocks
      of that block's loop one that became ready first, else of all ready blocks one that became ready first. */
  ghost predicate RuleAt(g: Graph, info: LoopInfo, order: seq<Block>, k: nat)
    requires 0 < k < |order|
  {
    var last, b := order[k - 1], order[k];
    && ReadyAt(g, info, order, k, b)
    && if exists c :: c in g.Succs(last) && ReadyAt(g, info, order, k, c) then
         FirstOf(g, info, order, k, g.Succs(last), b)
       else if exists c :: ReadyAt(g, info, order, k, c) && InSameLoop(info, c, last) then
         InSameLoop(info, b, last) &&
         forall c :: ReadyAt(g, info, order, k, c) && InSameLoop(info, c, last) ==> NoLater(g, info, order, k, b, c)
       else forall c :: ReadyAt(g, info, order, k, c) ==> NoLater(g, info, order, k, b, c)
  }

  ghost predicate RulesKept(g: Graph, info: LoopInfo, order: seq<Block>) {
    forall k :: 0 < k < |order| ==> RuleAt(g, info, order, k)
  }

  // ---------- the rules in terms of paths ----------

  /** The innermost natural loops around `a` and `b` are the same. */
  ghost predicate Mates(es: Edges, s: Block, a: Block, b: Block) {
    exists h :: Innermost(es, s, h, a) && Innermost(es, s, h, b)
  }

  /** Being in the same loop, by the nest of FindLoops, is having the same innermost natural loop. */
  lemma MatesExactly(es: Edges, s: Block, info: LoopInfo, a: Block, b: Block)
    requires NestDone(es, s, info)
    ensures InSameLoop(info, a, b) <==> Mates(es, s, a, b)
  {
    hide NestDone, Innermost;
    AssignedIsInnermost(es, s, info, a);
    AssignedIsInnermost(es, s, info, b);
    if InSameLoop(info, a, b) {
      assert HeadOf(info, a) == HeadOf(info, b);
    }
    if h :| Innermost(es, s, h, a) && Innermost(es, s, h, b) {
      HeadOwnsLoop(es, s, info, a);
      HeadOwnsLoop(es, s, info, b);
    }
  }

  /** Every predecessor of `b` that `b` does not strictly dominate is among the first `j` blocks. */
  ghost predicate EnteredBy(g: Graph, s: Block, order: seq<Block>, j: nat, b: Block)
    requires j <= |order|
  {
    forall u :: u in g.Preds(b) && !SDom(g.AllEdges(), s, b, u) ==> u in order[..j]
  }

  ghost predicate CanFollow(g: Graph, s: Block, order: seq<Block>, k: nat, b: Block)
    requires k <= |order|
  {
    b in g.blocks && b !in order[..k] && EnteredBy(g, s, order, k, b)
  }

  /** `a` could be scheduled as soon as `b` could. */
  ghost predicate AsEarly(g: Graph, s: Block, order: seq<Block>, k: nat, a: Block, b: Block)
    requires k <= |order|
  {
    forall j :: 0 <= j < k && EnteredBy(g, s, order, j, b) ==> EnteredBy(g, s, order, j, a)
  }

  ghost predicate FirstToFollow(g: Graph, s: Block, order: seq<Block>, k: nat, succs: seq<Block>, b: Block)
    requires k <= |order|
  {
    exists i :: 0 <= i < |succs| && succs[i] == b && forall j :: 0 <= j < i ==> !CanFollow(g, s, order, k, succs[j])
  }

  /** The `k`-th block can follow; it is the first successor of the block before it that can, else of the blocks that
      can and share that block's innermost loop one that could first, else of all that can one that could first. */
  ghost predicate FollowsRule(g: Graph, s: Block, order: seq<Block>, k: nat)
    requires 0 < k < |order|
  {
    var es, last, b := g.AllEdges(), order[k - 1], order[k];
    && CanFollow(g, s, order, k, b)
    && if exists c :: c in g.Succs(last) && CanFollow(g, s, order, k, c) then
         FirstToFollow(g, s, order, k, g.Succs(last), b)
       else if exists c :: CanFollow(g, s, order, k, c) && Mates(es, s, c, last) then
         Mates(es, s, b, last) &&
         forall c :: CanFollow(g, s, order, k, c) && Mates(es, s, c, last) ==> AsEarly(g, s, order, k, b, c)
       else forall c :: CanFollow(g, s, order, k, c) ==> AsEarly(g, s, order, k, b, c)
  }

  ghost predicate LineFollows(g: Graph, s: Block, order: seq<Block>) {
    forall k :: 0 < k < |order| ==> FollowsRule(g, s, order, k)
  }

  lemma SchedulableFacts(g: Graph, s: Block, info: LoopInfo)
    requires Schedulable(g, s, info)
    ensures g.Mirrored() && BackEdgesAgree(g.AllEdges(), s, info)
  {
    hide BackEdgesAgree, Graph.Mirrored, Reach;
  }

  lemma EnteredExactly(g: Graph, s: Block, info: LoopInfo, order: seq<Block>, j: nat, b: Block)
    requires g.Mirrored() && BackEdgesAgree(g.AllEdges(), s, info) && j <= |order|
    ensures ReadyBy(g, info, order, j, b) <==> EnteredBy(g, s, order, j, b)
    ensures ReadyAt(g, info, order, j, b) <==> CanFollow(g, s, order, j, b)
  {
    hide IsBackEdge, SDom;
    forall u | u in g.Preds(b) ensures IsBackEdge(info, u, b) <==> SDom(g.AllEdges(), s, b, u) {
      EdgeIsPred(g, u, b);
    }
  }

  lemma AsEarlyExactly(g: Graph, s: Block, info: LoopInfo, order: seq<Block>, k: nat, a: Block, b: Block)
    requires g.Mirrored() && BackEdgesAgree(g.AllEdges(), s, info) && k <= |order|
    ensures NoLater(g, info, order, k, a, b) <==> AsEarly(g, s, order, k, a, b)
  {
    hide ReadyBy, EnteredBy, BackEdgesAgree, ReadyAt, CanFollow;
    forall j | 0 <= j < k
      ensures ReadyBy(g, info, order, j, a) == EnteredBy(g, s, order, j, a)
      ensures ReadyBy(g, info, order, j, b) == EnteredBy(g, s, order, j, b)
    {
      EnteredExactly(g, s, info, order, j, a);
      EnteredExactly(g, s, info, order, j, b);
    }
  }

  /** With the nest of FindLoops the scheduler's rule is the rule in terms of paths. */
  lemma RuleExactly(g: Graph, s: Block, info: LoopInfo, order: seq<Block>, k: nat)
    requires g.Mirrored() && BackEdgesAgree(g.AllEdges(), s, info) && NestDone(g.AllEdges(), s, info)
    requires 0 < k < |order|
    ensures RuleAt(g, info, order, k) <==> FollowsRule(g, s, order, k)
  {
    hide ReadyAt, CanFollow, NoLater, AsEarly, InSameLoop, Mates, BackEdgesAgree, NestDone, Graph.Succs, Graph.Mirrored;
    var es, last := g.AllEdges(), order[k - 1];
    forall c
      ensures ReadyAt(g, info, order, k, c) == CanFollow(g, s, order, k, c)
      ensures InSameLoop(info, c, last) == Mates(es, s, c, last)
      ensures NoLater(g, info, order, k, order[k], c) == AsEarly(g, s, order, k, order[k], c)
    {
      EnteredExactly(g, s, info, order, k, c);
      MatesExactly(es, s, info, c, last);
      AsEarlyExactly(g, s, info, order, k, order[k], c);
    }
  }

  lemma RulesExactly(g: Graph, s: Block, info: LoopInfo, order: seq<Block>)
    requires g.Mirrored() && BackEdgesAgree(g.AllEdges(), s, info) && NestDone(g.AllEdges(), s, info)
    ensures RulesKept(g, info, order) <==> LineFollows(g, s, order)
  {
    hide RuleAt, FollowsRule, BackEdgesAgree, NestDone, Graph.Mirrored;
    forall k | 0 < k < |order| ensures RuleAt(g, info, order, k) == FollowsRule(g, s, order, k) {
      RuleExactly(g, s, info, order, k);
    }
  }

  /** The ready list is in the order in which its blocks became ready. */
  ghost predicate Fifo(g: Graph, info: LoopInfo, order: seq<Block>, ready: seq<Block>) {
    forall i, i' :: 0 <= i < i' < |ready| ==> NoLater(g, info, order, |order|, ready[i], ready[i'])
  }

  lemma ReadyByPrefix(g: Graph, info: LoopInfo, order: seq<Block>, x: Block, j: nat, b: Block)
    requires j <= |order|
    ensures ReadyBy(g, info, order + [x], j, b) == ReadyBy(g, info, order, j, b)
    ensures ReadyAt(g, info, order + [x], j, b) == ReadyAt(g, info, order, j, b)
  {
    assert (order + [x])[..j] == order[..j];
  }

  lemma NoLaterPrefix(g: Graph, info: LoopInfo, order: seq<Block>, x: Block, k: nat, a: Block, b: Block)
    requires k <= |order|
    ensures NoLater(g, info, order + [x], k, a, b) == NoLater(g, info, order, k, a, b)
  {
    forall j | 0 <= j < k ensures ReadyBy(g, info, order + [x], j, a) == ReadyBy(g, info, order, j, a)
                              && ReadyBy(g, info, order + [x], j, b) == ReadyBy(g, info, order, j, b) {
      ReadyByPrefix(g, info, order, x, j, a);
      ReadyByPrefix(g, info, order, x, j, b);
    }
    hide ReadyBy;
  }

  /** The rule for a block does not depend on what comes after it. */
  lemma RulePrefix(g: Graph, info: LoopInfo, order: seq<Block>, x: Block, k: nat)
    requires 0 < k < |order| && RuleAt(g, info, order, k)
    ensures RuleAt(g, info, order + [x], k)
  {
    var order' := order + [x];
    forall c ensures ReadyAt(g, info, order', k, c) == ReadyAt(g, info, order, k, c) {
      ReadyByPrefix(g, info, order, x, k, c);
    }
    forall c ensures NoLater(g, info, order', k, order[k], c) == NoLater(g, info, order, k, order[k], c) {
      NoLaterPrefix(g, info, order, x, k, order[k], c);
    }
    assert order'[k] == order[k] && order'[k - 1] == order[k - 1];
    hide ReadyAt, NoLater, InSameLoop, Graph.Succs;
  }

  /** On a reducible graph the ready list holds exactly the blocks that could be scheduled. */
  lemma ReadyListIs(g: Graph, info: LoopInfo, order: seq<Block>, ready: seq<Block>, visited: set<Block>,
                    waits: map<Block, nat>, b: Block)
    requires QueueInv(g.blocks, order, ready, visited) && TopoInv(g, info, order, ready)
    requires WaitInv(g, info, order, visited, waits)
    ensures b in ready <==> ReadyAt(g, info, order, |order|, b)
  {
    assert order[..|order|] == order;
    assert b in Elems(order + ready) <==> b in order || b in ready;
    if b in ready {
      var i := FirstIndex(ready, b);
      assert (order + ready)[|order| + i] == b;
      assert forall j :: 0 <= j < |order| ==> (order + ready)[j] == order[j];
      assert b in Elems(g.blocks);
    }
    if b in g.blocks && b !in order && b !in ready {
      assert b !in visited;
      PendingZero(info, b, g.Preds(b), Elems(order));
    }
  }

  /** What PickNextBlock takes from the ready list follows the rule. */
  lemma PickedFollows(g: Graph, info: LoopInfo, order: seq<Block>, ready: seq<Block>, visited: set<Block>,
                      waits: map<Block, nat>, at: nat)
    requires QueueInv(g.blocks, order, ready, visited) && TopoInv(g, info, order, ready)
    requires WaitInv(g, info, order, visited, waits)
    requires order != [] && at < |ready| && Picked(g, info, ready, Some(order[|order| - 1]), at)
    requires Fifo(g, info, order, ready)
    ensures RuleAt(g, info, order + [ready[at]], |order|)
  {
    var k, b, last := |order|, ready[at], order[|order| - 1];
    var order' := order + [b];
    forall c ensures ReadyAt(g, info, order', k, c) == (c in ready) {
      ReadyListIs(g, info, order, ready, visited, waits, c);
      ReadyByPrefix(g, info, order, b, k, c);
    }
    assert order'[k] == b && order'[k - 1] == last;
    hide ReadyAt, QueueInv, TopoInv, WaitInv, InSameLoop, Graph.Succs;
    PickedCases(g, info, order, ready, at);
  }

  lemma PickedCases(g: Graph, info: LoopInfo, order: seq<Block>, ready: seq<Block>, at: nat)
    requires order != [] && at < |ready| && Picked(g, info, ready, Some(order[|order| - 1]), at)
    requires Fifo(g, info, order, ready)
    requires forall c :: ReadyAt(g, info, order + [ready[at]], |order|, c) == (c in ready)
    ensures RuleAt(g, info, order + [ready[at]], |order|)
  {
    hide ReadyAt, InSameLoop, Graph.Succs, NoLater;
    var k, b, last := |order|, ready[at], order[|order| - 1];
    var order' := order + [b];
    assert order'[k] == b && order'[k - 1] == last;
    if SuccessorReady(g.Succs(last), ready) {
      FirstReadyIs(g, info, order', k, g.Succs(last), ready, b);
      var i :| 0 <= i < |g.Succs(last)| && g.Succs(last)[i] in ready;
      assert g.Succs(last)[i] in g.Succs(last) && ReadyAt(g, info, order', k, g.Succs(last)[i]);
    } else {
      assert forall c :: c in g.Succs(last) ==> !ReadyAt(g, info, order', k, c);
      forall c | c in ready && (LoopMateReady(info, ready, last) ==> InSameLoop(info, c, last))
        ensures NoLater(g, info, order', k, b, c)
      {
        var i := FirstIndex(ready, c);
        NoLaterPrefix(g, info, order, b, k, b, c);
        FifoAt(g, info, order, ready, at, i);
      }
      assert LoopMateReady(info, ready, last) <==> exists c :: c in ready && InSameLoop(info, c, last);
    }
  }

  lemma FirstReadyIs(g: Graph, info: LoopInfo, order: seq<Block>, k: nat, succs: seq<Block>, ready: seq<Block>,
                     b: Block)
    requires k <= |order| && FirstReadySuccessor(succs, ready, b)
    requires forall c :: ReadyAt(g, info, order, k, c) == (c in ready)
    ensures FirstOf(g, info, order, k, succs, b)
  {
    hide ReadyAt;
  }

  lemma FifoAt(g: Graph, info: LoopInfo, order: seq<Block>, ready: seq<Block>, at: nat, i: nat)
    requires Fifo(g, info, order, ready) && at <= i < |ready|
    ensures NoLater(g, info, order, |order|, ready[at], ready[i])
  {
    hide ReadyBy;
  }

  lemma FifoTake(g: Graph, info: LoopInfo, order: seq<Block>, ready: seq<Block>, at: nat)
    requires Fifo(g, info, order, ready) && TopoInv(g, info, order, ready) && at < |ready|
    ensures Fifo(g, info, order + [ready[at]], ready[..at] + ready[at + 1..])
  {
    var order', rest := order + [ready[at]], ready[..at] + ready[at + 1..];
    forall i, i' | 0 <= i < i' < |rest| ensures NoLater(g, info, order', |order'|, rest[i], rest[i']) {
      var m, n := if i < at then i else i + 1, if i' < at then i' else i' + 1;
      assert rest[i] == ready[m] && rest[i'] == ready[n];
      FifoLonger(g, info, order, ready, ready[at], m, n);
    }
  }

  lemma FifoLonger(g: Graph, info: LoopInfo, order: seq<Block>, ready: seq<Block>, x: Block, m: nat, n: nat)
    requires Fifo(g, info, order, ready) && TopoInv(g, info, order, ready) && m < n < |ready|
    ensures NoLater(g, info, order + [x], |order| + 1, ready[m], ready[n])
  {
    FifoAt(g, info, order, ready, m, n);
    NoLaterPrefix(g, info, order, x, |order|, ready[m], ready[n]);
    assert ready[m] in ready;
    assert (order + [x])[..|order|] == order;
    hide Fifo, ForwardPredsIn;
  }

  /** A block released by `current`, the last scheduled one, was not ready before. */
  lemma FifoPush(g: Graph, info: LoopInfo, order: seq<Block>, ready: seq<Block>, b: Block)
    requires Fifo(g, info, order, ready) && Distinct(order) && order != []
    requires order[|order| - 1] in g.Preds(b) && !IsBackEdge(info, order[|order| - 1], b)
    ensures Fifo(g, info, order, ready + [b])
  {
    var n := |order| - 1;
    forall j | 0 <= j < |order| ensures !ReadyBy(g, info, order, j, b) {
      DistinctSplit(order, n, order[n]);
      assert order[..j] == order[..n][..j];
      assert forall x :: x in order[..n][..j] ==> x in order[..n];
      assert order[n] !in Elems(order[..j]);
    }
    forall i, i' | 0 <= i < i' < |ready + [b]|
      ensures NoLater(g, info, order, |order|, (ready + [b])[i], (ready + [b])[i'])
    {
      if i' < |ready| {
        FifoAt(g, info, order, ready, i, i');
      }
    }
  }

  class LinearOrderAnalyzer {
    const g: Graph
    const info: LoopInfo
    /** linearOrderedBlocks_ of the graph. */
    var linearOrder: seq<Block>

    constructor (g: Graph, info: LoopInfo)
      ensures this.g == g && this.info == info
    {
      this.g, this.info, linearOrder := g, info, [];
    }

    method InitWaitCounts() returns (waits: map<Block, nat>)
      ensures waits.Keys == Elems(g.blocks)
      ensures forall b :: b in g.blocks ==> waits[b] == Pending(info, b, g.Preds(b), {})
    {
      waits := map[];
      for i := 0 to |g.blocks|
        invariant waits.Keys == Elems(g.blocks[..i])
        invariant forall b :: b in g.blocks[..i] ==> waits[b] == Pending(info, b, g.Preds(b), {})
      {
        var count := CalculateWaitCount(g, info, g.blocks[i]);
        waits := waits[g.blocks[i] := count];
        assert g.blocks[..i + 1] == g.blocks[..i] + [g.blocks[i]];
      }
      assert g.blocks[..|g.blocks|] == g.blocks;
    }

    /** CreateLinearOrder.  `forced` says that the fallback branch was taken. */
    method CreateLinearOrder(s: Block) returns (ghost forced: bool)
      requires Distinct(g.blocks) && s in g.blocks
      modifies this
      ensures Permutes(g.blocks, s, linearOrder)
      ensures Schedulable(g, s, info) ==> !forced && ForwardOrdered(g.AllEdges(), s, linearOrder)
      ensures Schedulable(g, s, info) ==> RulesKept(g, info, linearOrder)
      ensures Schedulable(g, s, info) && NestDone(g.AllEdges(), s, info) ==> LineFollows(g, s, linearOrder)
    {
      hide *;
      ghost var tame := Schedulable(g, s, info);
      linearOrder := [];
      forced := false;
      var waits := InitWaitCounts();
      var ready, visited := [s], {s};
      StartQueue(g.blocks, s);
      if tame {
        StartWaits(g, s, info, waits);
        StartRules(g, info, s);
      }
      var last: Option<Block> := None;
      var fallback := 0;
      while ready != []
        invariant QueueInv(g.blocks, linearOrder, ready, visited) && waits.Keys == Elems(g.blocks)
        invariant if linearOrder == [] then ready == [s] else linearOrder[0] == s
        invariant tame ==> TopoInv(g, info, linearOrder, ready) && WaitInv(g, info, linearOrder, visited, waits)
        invariant tame ==> !forced && Fifo(g, info, linearOrder, ready) && RulesKept(g, info, linearOrder)
        invariant last == if linearOrder == [] then None else Some(linearOrder[|linearOrder| - 1])
        invariant fallback <= |g.blocks| && forall j :: 0 <= j < fallback ==> g.blocks[j] in visited
        invariant ready == [] ==> |linearOrder| >= |g.blocks|
        decreases |g.blocks| - |linearOrder|
      {
        ghost var order0 := linearOrder;
        OrderBounded(g.blocks, linearOrder, ready, visited);
        ready, visited, waits := ScheduleNext(ready, visited, waits, last, s, tame);
        last := Some(linearOrder[|linearOrder| - 1]);
        if ready == [] && |linearOrder| < |g.blocks| {
          fallback := SkipVisited(g.blocks, visited, fallback);
          if fallback < |g.blocks| {
            if tame {
              FallbackDead(g, s, info, linearOrder, visited, waits, g.blocks[fallback]);
            }
            forced := true;
            var forceBlock := g.blocks[fallback];
            QueuePush(g.blocks, linearOrder, ready, visited, forceBlock);
            ready := ready + [forceBlock];
            visited := visited + {forceBlock};
          } else {
            break;
          }
        }
      }
      OrderComplete(g.blocks, s, linearOrder, ready, visited, fallback);
      NothingUnvisited(g.blocks, visited);
      ghost var complete := linearOrder;
      AppendUnvisited(visited);
      assert linearOrder == complete;
      if tame {
        TopoIsForwardOrdered(g, s, info, linearOrder);
        SchedulableFacts(g, s, info);
        if NestDone(g.AllEdges(), s, info) {
          RulesExactly(g, s, info, linearOrder);
        }
      }
    }

    /** One turn of the scheduling loop: picks a block, schedules it and releases its successors. */
    method ScheduleNext(ready0: seq<Block>, visited0: set<Block>, waits0: map<Block, nat>, last: Option<Block>,
                        ghost s: Block, ghost tame: bool)
      returns (ready: seq<Block>, visited: set<Block>, waits: map<Block, nat>)
      requires ready0 != [] && QueueInv(g.blocks, linearOrder, ready0, visited0) && waits0.Keys == Elems(g.blocks)
      requires if linearOrder == [] then ready0 == [s] else linearOrder[0] == s
      requires last == if linearOrder == [] then None else Some(linearOrder[|linearOrder| - 1])
      requires tame ==> Schedulable(g, s, info) &&
                        TopoInv(g, info, linearOrder, ready0) && WaitInv(g, info, linearOrder, visited0, waits0) &&
                        Fifo(g, info, linearOrder, ready0) && RulesKept(g, info, linearOrder)
      modifies this
      ensures |linearOrder| == |old(linearOrder)| + 1
      ensures exists at :: 0 <= at < |ready0| && Picked(g, info, ready0, last, at) &&
                           linearOrder == old(linearOrder) + [ready0[at]]
                             && ready0[..at] + ready0[at + 1..] <= ready
      ensures QueueInv(g.blocks, linearOrder, ready, visited) && waits.Keys == Elems(g.blocks)
      ensures linearOrder[0] == s && visited0 <= visited
      ensures tame ==> TopoInv(g, info, linearOrder, ready) && WaitInv(g, info, linearOrder, visited, waits)
      ensures tame ==> Fifo(g, info, linearOrder, ready) && RulesKept(g, info, linearOrder)
    {
      hide *;
      var current, rest, at := PickNextBlock(g, info, ready0, last);
      ghost var before := linearOrder;
      QueueTake(g.blocks, linearOrder, ready0, visited0, at);
      if tame {
        TopoTake(g, info, linearOrder, ready0, at);
        ReleaseStarts(g, s, info, linearOrder, visited0, waits0, current);
        BackTargetsVisited(g, s, info, linearOrder + [current], rest, visited0);
        FifoTake(g, info, linearOrder, ready0, at);
        RulesGrow(g, info, linearOrder, ready0, visited0, waits0, last, at);
        SchedulableMirrored(g, s, info);
      }
      linearOrder := linearOrder + [current];
      ready, visited, waits := ReleaseSuccessors(g, info, current, rest, visited0, waits0, linearOrder, tame);
    }

    /** The last loop; by then nothing is unvisited. */
    method AppendUnvisited(visited: set<Block>)
      modifies this
      ensures linearOrder == old(linearOrder) +
                             (if |old(linearOrder)| < |g.blocks| then Unvisited(g.blocks, visited) else [])
    {
      if |linearOrder| < |g.blocks| {
        for i := 0 to |g.blocks|
          invariant linearOrder == old(linearOrder) + Unvisited(g.blocks[..i], visited)
        {
          assert g.blocks[..i + 1][..i] == g.blocks[..i];
          if g.blocks[i] !in visited {
            linearOrder := linearOrder + [g.blocks[i]];
          }
        }
        assert g.blocks[..|g.blocks|] == g.blocks;
      }
    }
  }

  lemma SchedulableMirrored(g: Graph, s: Block, info: LoopInfo)
    requires Schedulable(g, s, info)
    ensures g.Mirrored()
  {
  }

  lemma StartRules(g: Graph, info: LoopInfo, s: Block)
    ensures Fifo(g, info, [], [s]) && RulesKept(g, info, [])
  {
  }

  /** Scheduling one more block keeps the rules. */
  lemma RulesGrow(g: Graph, info: LoopInfo, order: seq<Block>, ready: seq<Block>, visited: set<Block>,
                  waits: map<Block, nat>, last: Option<Block>, at: nat)
    requires QueueInv(g.blocks, order, ready, visited) && TopoInv(g, info, order, ready)
    requires WaitInv(g, info, order, visited, waits)
    requires last == if order == [] then None else Some(order[|order| - 1])
    requires at < |ready| && Picked(g, info, ready, last, at) && Fifo(g, info, order, ready)
    requires RulesKept(g, info, order)
    ensures RulesKept(g, info, order + [ready[at]])
  {
    hide QueueInv, TopoInv, WaitInv, Picked, Fifo, RuleAt;
    var order' := order + [ready[at]];
    forall k | 0 < k < |order'| ensures RuleAt(g, info, order', k) {
      if k < |order| {
        RulePrefix(g, info, order, ready[at], k);
      } else {
        PickedFollows(g, info, order, ready, visited, waits, at);
      }
    }
  }

  /** The blocks not in `visited`, in list order. */
  function Unvisited(blocks: seq<Block>, visited: set<Block>): seq<Block> {
    if blocks == [] then []
    else
      var n := |blocks| - 1;
      Unvisited(blocks[..n], visited) + (if blocks[n] in visited then [] else [blocks[n]])
  }

  lemma {:induction false} NothingUnvisited(blocks: seq<Block>, visited: set<Block>)
    requires forall b :: b in blocks ==> b in visited
    ensures Unvisited(blocks, visited) == []
  {
    if blocks != [] {
      NothingUnvisited(blocks[..|blocks| - 1], visited);
    }
  }

  lemma StartQueue(blocks: seq<Block>, s: Block)
    requires s in blocks
    ensures QueueInv(blocks, [], [s], {s})
  {
    assert [] + [s] == [s];
  }

  lemma StartWaits(g: Graph, s: Block, info: LoopInfo, waits: map<Block, nat>)
    requires Schedulable(g, s, info) && waits.Keys == Elems(g.blocks)
    requires forall b :: b in g.blocks ==> waits[b] == Pending(info, b, g.Preds(b), {})
    ensures TopoInv(g, info, [], [s]) && WaitInv(g, info, [], {s}, waits)
  {
    forall b | b in g.blocks ensures b in waits {
      assert b in Elems(g.blocks);
    }
    StartReady(g, s, info, waits);
  }

  lemma OrderBounded(blocks: seq<Block>, order: seq<Block>, ready: seq<Block>, visited: set<Block>)
    requires QueueInv(blocks, order, ready, visited) && ready != []
    ensures |order| < |blocks|
  {
    CardDistinct(order + ready);
    SubsetCard(Elems(order + ready), Elems(blocks));
    ElemsCard(blocks);
  }

  lemma ElemsCard<T>(s: seq<T>)
    ensures |Elems(s)| <= |s|
  {
    if s != [] {
      var n := |s| - 1;
      ElemsCard(s[..n]);
      assert Elems(s) == Elems(s[..n]) + {s[n]};
    }
  }

  lemma BackTargetsVisited(g: Graph, s: Block, info: LoopInfo, order: seq<Block>, ready: seq<Block>,
                           visited: set<Block>)
    requires Schedulable(g, s, info) && TopoInv(g, info, order, ready) && QueueInv(g.blocks, order, ready, visited)
    requires order != []
    ensures var c := order[|order| - 1];
            forall v :: v in g.Succs(c) && IsBackEdge(info, c, v) ==> v in visited
  {
    var n := |order| - 1;
    var c := order[n];
    forall v | v in g.Succs(c) && IsBackEdge(info, c, v) ensures v in visited {
      EdgeIsSucc(g, c, v);
      assert order[n] in Elems(order + ready) && order[n] in g.blocks by {
        assert (order + ready)[n] == order[n];
        assert order[n] in Elems(g.blocks);
      }
      DominatorsScheduled(g, s, info, order, ready, n, v);
      var j := FirstIndex(order[..n], v);
      assert (order + ready)[j] == v;
    }
  }

  /** On a reducible graph an empty ready list means that all blocks are scheduled. */
  lemma FallbackDead(g: Graph, s: Block, info: LoopInfo, order: seq<Block>, visited: set<Block>,
                     waits: map<Block, nat>, b: Block)
    requires Schedulable(g, s, info) && WaitInv(g, info, order, visited, waits)
    requires QueueInv(g.blocks, order, [], visited)
    requires b in g.blocks
    ensures b in visited
  {
    assert order + [] == order;
    NoneLeft(g, s, info, order, visited, waits, b);
  }

  lemma OrderComplete(blocks: seq<Block>, s: Block, order: seq<Block>, ready: seq<Block>, visited: set<Block>,
                      fallback: nat)
    requires Distinct(blocks) && QueueInv(blocks, order, ready, visited)
    requires if order == [] then ready == [s] else order[0] == s
    requires ready == [] && (|order| >= |blocks| || fallback == |blocks|)
    requires fallback <= |blocks| && forall j :: 0 <= j < fallback ==> blocks[j] in visited
    ensures Permutes(blocks, s, order)
    ensures forall b :: b in blocks ==> b in visited
    ensures forall b :: b in blocks ==> b in order
  {
    AllVisited(blocks, s, order, visited);
    forall b | b in blocks ensures b in visited {
      assert order + [] == order;
      assert b in Elems(order);
    }
  }
}
