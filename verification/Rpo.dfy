/** Depth-first postorder and its reverse (Analyzers/dominatorAnalyzer.cpp:9-57). */
module Rpo {
  import opened Util
  import opened Cfg

  /** A block with its index in reverse postorder. */
  type BlockWithIndex = (Block, nat)

  /** `b` is reached from `s` by a path that does not meet the ignored block. */
  ghost predicate ReachSkipping(es: Edges, s: Block, b: Block, ignored: Option<Block>) {
    exists p :: PathTo(es, s, b, p) && Skips(p, ignored)
  }

  ghost predicate Skips(p: seq<Block>, ignored: Option<Block>) {
    ignored.Some? ==> ignored.value !in p
  }

  /** State of the search: `stack` holds the blocks being visited, from the start downwards;
      `result` those already finished, in finishing order. */
  ghost predicate DfsInv(g: Graph, s: Block, ignored: Option<Block>, stack: seq<Block>,
                         visited: set<Block>, result: seq<Block>)
  {
    && Distinct(result)
    && visited == Elems(stack) + Elems(result)
    && Elems(stack) !! Elems(result)
    && (forall b :: b in result ==> ReachSkipping(g.AllEdges(), s, b, ignored))
    && DominatorsLater(g, s, stack, result)
    && SuccessorsEarlier(g, s, ignored, stack, result)
  }

  /** The strict dominators of a finished block are still on the stack or finish after it. */
  ghost predicate DominatorsLater(g: Graph, s: Block, stack: seq<Block>, result: seq<Block>) {
    forall i, d {:trigger SDom(g.AllEdges(), s, d, result[i])} ::
      0 <= i < |result| && SDom(g.AllEdges(), s, d, result[i]) ==>
                     d in stack || d in result[i + 1..]
  }

  /** A successor of a finished block finished earlier, or leads back to it by forward edges. */
  ghost predicate SuccessorsEarlier(g: Graph, s: Block, ignored: Option<Block>, stack: seq<Block>, result: seq<Block>) {
    forall i, v :: 0 <= i < |result| && v in g.Succs(result[i]) && Some(v) != ignored ==>
                     && (v in stack || v in result)
                     && (v in result[..i] || Reach(Forward(g.AllEdges(), s), v, result[i]))
  }

  lemma SuccOnStackLeadsBack(es: Edges, s: Block, stack: seq<Block>, block: Block, v: Block)
    requires PathTo(Forward(es, s), s, block, stack + [block])
    requires v in stack + [block]
    ensures Reach(Forward(es, s), v, block)
  {
    var p := stack + [block];
    var k := FirstIndex(p, v);
    PathSuffix(Forward(es, s), p, k);
  }

  lemma FinishDominators(g: Graph, s: Block, stack: seq<Block>, block: Block, result: seq<Block>)
    requires PathTo(g.AllEdges(), s, block, stack + [block])
    requires DominatorsLater(g, s, stack + [block], result)
    ensures DominatorsLater(g, s, stack, result + [block])
  {
    var es, r := g.AllEdges(), result + [block];
    forall i, d | 0 <= i < |r| && SDom(es, s, d, r[i])
      ensures d in stack || d in r[i + 1..]
    {
      if i < |result| {
        assert SDom(es, s, d, result[i]);
        assert r[i + 1..] == result[i + 1..] + [block];
        assert r[i + 1..][|result| - i - 1] == block;
        assert d in stack + [block] || d in result[i + 1..];
      } else {
        assert d in stack + [block];
      }
    }
  }

  lemma FinishSuccessors(g: Graph, s: Block, ignored: Option<Block>, stack: seq<Block>, block: Block,
                         result: seq<Block>)
    requires PathTo(Forward(g.AllEdges(), s), s, block, stack + [block])
    requires SuccessorsEarlier(g, s, ignored, stack + [block], result)
    requires forall v :: v in g.Succs(block) && Some(v) != ignored ==> v in stack + [block] || v in result
    ensures SuccessorsEarlier(g, s, ignored, stack, result + [block])
  {
    var es, r := g.AllEdges(), result + [block];
    forall i, v | 0 <= i < |r| && v in g.Succs(r[i]) && Some(v) != ignored
      ensures (v in stack || v in r) && (v in r[..i] || Reach(Forward(es, s), v, r[i]))
    {
      if i < |result| {
        assert v in g.Succs(result[i]);
        assert r[..i] == result[..i];
      } else {
        assert r[..i] == result;
        if v !in result {
          SuccOnStackLeadsBack(es, s, stack, block, v);
        }
      }
    }
  }

  /** When the last successor is done, `block` moves from the stack to the result. */
  lemma Finish(g: Graph, s: Block, ignored: Option<Block>, stack: seq<Block>, block: Block,
               visited: set<Block>, result: seq<Block>)
    requires PathTo(Forward(g.AllEdges(), s), s, block, stack + [block])
    requires Skips(stack + [block], ignored) && block !in stack
    requires DfsInv(g, s, ignored, stack + [block], visited, result)
    requires forall v :: v in g.Succs(block) && Some(v) != ignored ==> v in visited
    ensures DfsInv(g, s, ignored, stack, visited, result + [block])
  {
    var es := g.AllEdges();
    PathMono(Forward(es, s), es, stack + [block]);
    FinishDominators(g, s, stack, block, result);
    FinishSuccessors(g, s, ignored, stack, block, result);
    assert Elems(stack + [block]) == Elems(stack) + {block};
    assert Elems(result + [block]) == Elems(result) + {block};
  }

  lemma Enter(g: Graph, s: Block, ignored: Option<Block>, stack: seq<Block>, block: Block,
              visited: set<Block>, result: seq<Block>)
    requires DfsInv(g, s, ignored, stack, visited, result) && block !in visited
    ensures DfsInv(g, s, ignored, stack + [block], visited + {block}, result)
  {
    assert Elems(stack + [block]) == Elems(stack) + {block};
  }

  /** The edge along which the search goes down is a forward edge. */
  lemma Descend(g: Graph, s: Block, stack: seq<Block>, block: Block, v: Block)
    requires PathTo(Forward(g.AllEdges(), s), s, block, stack + [block])
    requires v in g.Succs(block) && v !in stack + [block]
    ensures PathTo(Forward(g.AllEdges(), s), s, v, stack + [block] + [v])
  {
    var es := g.AllEdges();
    EdgeIsSucc(g, block, v);
    PathMono(Forward(es, s), es, stack + [block]);
    assert !Dom(es, s, v, block);
    PathAppend(Forward(es, s), stack + [block], v);
  }

  /** The visited set and the result vector that the recursive visit fills. */
  class PostOrder {
    const g: Graph
    const ignored: Option<Block>
    var visited: set<Block>
    var result: seq<Block>

    constructor (g: Graph, ignored: Option<Block>)
      ensures this.g == g && this.ignored == ignored && visited == {} && result == []
    {
      this.g, this.ignored, visited, result := g, ignored, {}, [];
    }

    /** DFSPOBlockVisit. */
    method Visit(block: Block, ghost s: Block, ghost stack: seq<Block>)
      requires g.Closed() && block in g.blocks
      requires DfsInv(g, s, ignored, stack, visited, result)
      requires Skips(stack, ignored)
      requires block !in visited && Some(block) != ignored ==>
                 PathTo(Forward(g.AllEdges(), s), s, block, stack + [block])
      modifies this
      ensures DfsInv(g, s, ignored, stack, visited, result)
      ensures old(visited) <= visited && old(result) <= result
      ensures block in visited || Some(block) == ignored
      decreases Elems(g.blocks) - visited
    {
      if block in visited || Some(block) == ignored {
        return;
      }
      Enter(g, s, ignored, stack, block, visited, result);
      visited := visited + {block};
      var succs := g.Succs(block);
      assert Skips(stack + [block], ignored);
      for k := 0 to |succs|
        invariant DfsInv(g, s, ignored, stack + [block], visited, result)
        invariant old(visited) + {block} <= visited && old(result) <= result
        invariant forall j :: 0 <= j < k && Some(succs[j]) != ignored ==> succs[j] in visited
      {
        if succs[k] !in visited {
          Descend(g, s, stack, block, succs[k]);
        }
        Visit(succs[k], s, stack + [block]);
      }
      Finish(g, s, ignored, stack, block, visited, result);
      result := result + [block];
    }
  }

  // ---------- what the reversed list satisfies ----------

  ghost predicate Precedes(r: seq<Block>, a: Block, b: Block) {
    exists i, j :: 0 <= i < j < |r| && r[i] == a && r[j] == b
  }

  /** `r` lists exactly the blocks reached without meeting the ignored block, each once; a block
      comes after all its strict dominators, and before each successor that does not lead back to it. */
  ghost predicate IsRpo(g: Graph, s: Block, ignored: Option<Block>, r: seq<Block>) {
    var es := g.AllEdges();
    && Distinct(r)
    && (forall b :: b in r <==> ReachSkipping(es, s, b, ignored))
    && (forall d, b :: b in r && SDom(es, s, d, b) ==> Precedes(r, d, b))
    && (forall u, v :: u in r && v in g.Succs(u) && Some(v) != ignored ==>
                         Precedes(r, u, v) || Reach(Forward(es, s), v, u))
  }

  /** The finished blocks are closed under successors, so nothing reachable is missing. */
  lemma AllReachedFinished(g: Graph, s: Block, ignored: Option<Block>, visited: set<Block>, result: seq<Block>,
                           b: Block)
    requires DfsInv(g, s, ignored, [], visited, result)
    requires s in visited || Some(s) == ignored
    requires ReachSkipping(g.AllEdges(), s, b, ignored)
    ensures b in result
  {
    var p :| PathTo(g.AllEdges(), s, b, p) && Skips(p, ignored);
    forall u, v | u in Elems(result) && v in p && (u, v) in g.AllEdges()
      ensures v in Elems(result)
    {
      var i := FirstIndex(result, u);
      assert v in g.Succs(result[i]);
      assert Some(v) != ignored;
    }
    assert p[0] in p && p[|p| - 1] in p;
    assert s in Elems(result);
    ClosedSetHoldsPath(g.AllEdges(), p, Elems(result));
    assert b in Elems(result);
  }

  lemma ReversedDominators(g: Graph, s: Block, result: seq<Block>, d: Block, b: Block)
    requires DominatorsLater(g, s, [], result) && b in result && SDom(g.AllEdges(), s, d, b)
    ensures Precedes(Reverse(result), d, b)
  {
    var i := FirstIndex(result, b);
    assert SDom(g.AllEdges(), s, d, result[i]);
    var j := i + 1 + FirstIndex(result[i + 1..], d);
    assert Reverse(result)[|result| - 1 - i] == b;
    assert Reverse(result)[|result| - 1 - j] == d;
  }

  lemma ReversedSuccessors(g: Graph, s: Block, ignored: Option<Block>, result: seq<Block>, u: Block, v: Block)
    requires SuccessorsEarlier(g, s, ignored, [], result)
    requires u in result && v in g.Succs(u) && Some(v) != ignored
    ensures Precedes(Reverse(result), u, v) || Reach(Forward(g.AllEdges(), s), v, u)
  {
    var i := FirstIndex(result, u);
    assert v in g.Succs(result[i]);
    if v in result[..i] {
      var j := FirstIndex(result[..i], v);
      assert Reverse(result)[|result| - 1 - i] == u;
      assert Reverse(result)[|result| - 1 - j] == v;
    }
  }

  lemma ReverseIsRpo(g: Graph, s: Block, ignored: Option<Block>, visited: set<Block>, result: seq<Block>)
    requires DfsInv(g, s, ignored, [], visited, result)
    requires s in visited || Some(s) == ignored
    ensures IsRpo(g, s, ignored, Reverse(result))
  {
    var es, r := g.AllEdges(), Reverse(result);
    ReverseSameElements(result);
    forall b | ReachSkipping(es, s, b, ignored) ensures b in r {
      AllReachedFinished(g, s, ignored, visited, result, b);
    }
    forall d, b | b in r && SDom(es, s, d, b) ensures Precedes(r, d, b) {
      ReversedDominators(g, s, result, d, b);
    }
    forall u, v | u in r && v in g.Succs(u) && Some(v) != ignored
      ensures Precedes(r, u, v) || Reach(Forward(es, s), v, u)
    {
      ReversedSuccessors(g, s, ignored, result, u, v);
    }
  }

  lemma ReverseSameElements<T>(q: seq<T>)
    requires Distinct(q)
    ensures Distinct(Reverse(q))
    ensures forall x :: x in Reverse(q) <==> x in q
  {
    var r := Reverse(q);
    forall x | x in q ensures x in r {
      var i := FirstIndex(q, x);
      assert r[|q| - 1 - i] == x;
    }
  }

  function Enumerate(r: seq<Block>): (e: seq<BlockWithIndex>)
    ensures |e| == |r| && forall i :: 0 <= i < |r| ==> e[i] == (r[i], i)
  {
    seq(|r|, i requires 0 <= i < |r| => (r[i], i))
  }

  /** The blocks of an indexed list. */
  function BlocksOf(e: seq<BlockWithIndex>): (r: seq<Block>)
    ensures |r| == |e| && forall i :: 0 <= i < |e| ==> r[i] == e[i].0
  {
    seq(|e|, i requires 0 <= i < |e| => e[i].0)
  }

  method EnumerateBlocks(blocks: seq<Block>) returns (r: seq<BlockWithIndex>)
    ensures r == Enumerate(blocks)
  {
    r := [];
    for index := 0 to |blocks|
      invariant r == Enumerate(blocks)[..index]
    {
      r := r + [(blocks[index], index)];
    }
  }

  method DFSPO(g: Graph, s: Block, ignored: Option<Block>) returns (r: seq<Block>)
    requires g.Closed() && s in g.blocks
    ensures IsRpo(g, s, ignored, Reverse(r))
  {
    var search := new PostOrder(g, ignored);
    PathSingle(Forward(g.AllEdges(), s), s);
    assert [] + [s] == [s];
    search.Visit(s, s, []);
    r := search.result;
    ReverseIsRpo(g, s, ignored, search.visited, r);
  }

  /** Reverse postorder of the blocks reached from `s` without entering `ignored`. */
  method ReversePostOrder(g: Graph, s: Block, ignored: Option<Block>) returns (r: seq<BlockWithIndex>)
    requires g.Closed() && s in g.blocks
    ensures r == Enumerate(BlocksOf(r)) && IsRpo(g, s, ignored, BlocksOf(r))
  {
    var post := DFSPO(g, s, ignored);
    r := EnumerateBlocks(Reverse(post));
    assert BlocksOf(r) == Reverse(post);
  }

  // ---------- consequences for the full order ----------

  lemma PrecedesIndex(r: seq<Block>, a: Block, b: Block)
    requires Distinct(r) && a in r && b in r
    ensures Precedes(r, a, b) <==> FirstIndex(r, a) < FirstIndex(r, b)
  {
    if Precedes(r, a, b) {
      var i, j :| 0 <= i < j < |r| && r[i] == a && r[j] == b;
      IndexUnique(r, i);
      IndexUnique(r, j);
    }
  }

  lemma RpoHoldsReachable(g: Graph, s: Block, r: seq<Block>, b: Block)
    requires IsRpo(g, s, None, r)
    ensures b in r <==> Reach(g.AllEdges(), s, b)
  {
    if Reach(g.AllEdges(), s, b) {
      var p :| PathTo(g.AllEdges(), s, b, p);
      assert Skips(p, None);
      assert ReachSkipping(g.AllEdges(), s, b, None);
    }
  }

  /** On a reducible graph every forward edge between listed blocks goes to a larger index. */
  lemma RpoForward(g: Graph, s: Block, r: seq<Block>, u: Block, v: Block)
    requires IsRpo(g, s, None, r) && Reducible(g.AllEdges(), s)
    requires u in r && (u, v) in Forward(g.AllEdges(), s)
    ensures v in r && FirstIndex(r, u) < FirstIndex(r, v)
  {
    var fw := Forward(g.AllEdges(), s);
    EdgeIsSucc(g, u, v);
    if Reach(fw, v, u) {
      var q :| PathTo(fw, v, u, q);
      PathAppend(fw, q, v);
      assert false;
    }
    assert Precedes(r, u, v);
    PrecedesIndex(r, u, v);
  }

  /** On an acyclic graph every edge between listed blocks goes to a larger index. */
  lemma RpoAcyclic(g: Graph, s: Block, r: seq<Block>, u: Block, v: Block)
    requires IsRpo(g, s, None, r) && Acyclic(g.AllEdges())
    requires u in r && v in g.Succs(u)
    ensures v in r && FirstIndex(r, u) < FirstIndex(r, v)
  {
    var es := g.AllEdges();
    EdgeIsSucc(g, u, v);
    if Reach(Forward(es, s), v, u) {
      var q :| PathTo(Forward(es, s), v, u, q);
      PathMono(Forward(es, s), es, q);
      PathAppend(es, q, v);
      assert false;
    }
    assert Precedes(r, u, v);
    PrecedesIndex(r, u, v);
  }

  lemma RpoDominators(g: Graph, s: Block, r: seq<Block>, d: Block, b: Block)
    requires IsRpo(g, s, None, r) && b in r && SDom(g.AllEdges(), s, d, b)
    ensures d in r && FirstIndex(r, d) < FirstIndex(r, b)
  {
    assert Precedes(r, d, b);
    PrecedesIndex(r, d, b);
  }

  lemma RpoStartsWith(g: Graph, s: Block, r: seq<Block>)
    requires IsRpo(g, s, None, r)
    ensures r != [] && r[0] == s
  {
    PathSingle(g.AllEdges(), s);
    RpoHoldsReachable(g, s, r, s);
    if r[0] != s {
      DomStart(g.AllEdges(), s, r[0]);
      assert SDom(g.AllEdges(), s, s, r[0]);
      RpoDominators(g, s, r, s, r[0]);
      assert false;
    }
  }
}
