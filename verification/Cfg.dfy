/** Control-flow graphs, paths and dominance.  Dominance is defined by paths:
    `d` dominates `b` when every path from the start block to `b` passes `d`. */
module Cfg {
  import opened Util

  type Block = nat

  /** A set of directed edges; paths and dominance are stated over such sets. */
  type Edges = set<(Block, Block)>

  /** The blocks in list order with the successor and predecessor lists each block stores
      (null slots left out). */
  datatype Graph = Graph(blocks: seq<Block>, succs: map<Block, seq<Block>>, preds: map<Block, seq<Block>>) {
    function Succs(b: Block): seq<Block> {
      if b in succs then succs[b] else []
    }

    function Preds(b: Block): seq<Block> {
      if b in preds then preds[b] else []
    }

    function AllEdges(): Edges {
      set u, v | u in succs && v in succs[u] :: (u, v)
    }

    /** Every successor is a block of the graph. */
    ghost predicate Closed() {
      && Distinct(blocks)
      && (forall u :: u in succs ==> u in blocks)
      && (forall u, v :: v in Succs(u) ==> v in blocks)
    }

    /** Predecessor lists and successor lists name the same edges, with the same multiplicity. */
    ghost predicate Mirrored() {
      forall u, v :: multiset(Preds(v))[u] == multiset(Succs(u))[v]
    }
  }

  lemma EdgeIsSucc(g: Graph, u: Block, v: Block)
    ensures (u, v) in g.AllEdges() <==> v in g.Succs(u)
  {
  }

  lemma EdgeIsPred(g: Graph, u: Block, v: Block)
    requires g.Mirrored()
    ensures (u, v) in g.AllEdges() <==> u in g.Preds(v)
  {
    EdgeIsSucc(g, u, v);
    assert u in multiset(g.Preds(v)) <==> v in multiset(g.Succs(u));
  }

  // ---------- paths ----------

  ghost predicate Hop(es: Edges, p: seq<Block>, i: nat)
    requires i + 1 < |p|
  {
    (p[i], p[i + 1]) in es
  }

  ghost predicate Path(es: Edges, p: seq<Block>) {
    |p| > 0 && forall i: nat :: i + 1 < |p| ==> Hop(es, p, i)
  }

  ghost predicate PathTo(es: Edges, s: Block, b: Block, p: seq<Block>) {
    Path(es, p) && p[0] == s && p[|p| - 1] == b
  }

  ghost predicate Reach(es: Edges, s: Block, b: Block) {
    exists p :: PathTo(es, s, b, p)
  }

  ghost predicate Dom(es: Edges, s: Block, d: Block, b: Block) {
    forall p :: PathTo(es, s, b, p) ==> d in p
  }

  ghost predicate SDom(es: Edges, s: Block, d: Block, b: Block) {
    d != b && Dom(es, s, d, b)
  }

  ghost predicate ReachAvoiding(es: Edges, s: Block, b: Block, x: Block) {
    exists p :: PathTo(es, s, b, p) && x !in p
  }

  lemma PathSingle(es: Edges, b: Block)
    ensures PathTo(es, b, b, [b])
  {
  }

  lemma PathPrefix(es: Edges, p: seq<Block>, n: nat)
    requires Path(es, p) && 0 < n <= |p|
    ensures PathTo(es, p[0], p[n - 1], p[..n])
  {
    forall i: nat | i + 1 < n ensures Hop(es, p[..n], i) {
      assert Hop(es, p, i);
    }
  }

  lemma PathSuffix(es: Edges, p: seq<Block>, n: nat)
    requires Path(es, p) && n < |p|
    ensures PathTo(es, p[n], p[|p| - 1], p[n..])
  {
    forall i: nat | i + 1 < |p| - n ensures Hop(es, p[n..], i) {
      assert Hop(es, p, n + i);
    }
  }

  lemma PathAppend(es: Edges, p: seq<Block>, c: Block)
    requires Path(es, p) && (p[|p| - 1], c) in es
    ensures PathTo(es, p[0], c, p + [c])
  {
    var q := p + [c];
    forall i: nat | i + 1 < |q| ensures Hop(es, q, i) {
      if i + 1 < |p| {
        assert Hop(es, p, i);
      }
    }
  }

  lemma PathJoin(es: Edges, p: seq<Block>, q: seq<Block>)
    requires Path(es, p) && Path(es, q) && p[|p| - 1] == q[0]
    ensures PathTo(es, p[0], q[|q| - 1], p + q[1..])
  {
    var r := p + q[1..];
    forall i: nat | i + 1 < |r| ensures Hop(es, r, i) {
      if i + 1 < |p| {
        assert Hop(es, p, i);
      } else {
        assert Hop(es, q, i + 1 - |p|);
      }
    }
  }

  lemma PathCons(es: Edges, b: Block, q: seq<Block>)
    requires Path(es, q) && (b, q[0]) in es
    ensures PathTo(es, b, q[|q| - 1], [b] + q)
  {
    var r := [b] + q;
    forall i: nat | i + 1 < |r| ensures Hop(es, r, i) {
      if i > 0 {
        assert Hop(es, q, i - 1);
      }
    }
  }

  lemma PathMono(es: Edges, es': Edges, p: seq<Block>)
    requires es <= es' && Path(es, p)
    ensures Path(es', p)
  {
    forall i: nat | i + 1 < |p| ensures Hop(es', p, i) {
      assert Hop(es, p, i);
    }
  }

  lemma ReachStep(es: Edges, s: Block, u: Block, v: Block)
    requires Reach(es, s, u) && (u, v) in es
    ensures Reach(es, s, v)
  {
    var p :| PathTo(es, s, u, p);
    PathAppend(es, p, v);
  }

  /** A set that holds the first block of a path and is closed under the path's edges holds them all. */
  lemma {:induction false} ClosedSetHoldsPath(es: Edges, p: seq<Block>, a: set<Block>)
    requires Path(es, p) && p[0] in a
    requires forall u, v :: u in a && v in p && (u, v) in es ==> v in a
    ensures forall x :: x in p ==> x in a
  {
    if |p| > 1 {
      var n := |p| - 1;
      PathPrefix(es, p, n);
      ClosedSetHoldsPath(es, p[..n], a);
      assert Hop(es, p, n - 1);
      assert p[n - 1] in p[..n];
      assert p == p[..n] + [p[n]];
    }
  }

  // ---------- dominance ----------

  lemma DomRefl(es: Edges, s: Block, b: Block)
    ensures Dom(es, s, b, b)
  {
  }

  lemma DomStart(es: Edges, s: Block, b: Block)
    ensures Dom(es, s, s, b)
  {
  }

  lemma NothingAboveStart(es: Edges, s: Block, d: Block)
    requires Dom(es, s, d, s)
    ensures d == s
  {
    PathSingle(es, s);
    assert d in [s];
  }

  /** A dominator of `c` other than `c` dominates every predecessor of `c`. */
  lemma DomPred(es: Edges, s: Block, d: Block, b: Block, c: Block)
    requires SDom(es, s, d, c) && (b, c) in es
    ensures Dom(es, s, d, b)
  {
    forall p | PathTo(es, s, b, p) ensures d in p {
      PathAppend(es, p, c);
    }
  }

  lemma DomTrans(es: Edges, s: Block, a: Block, b: Block, c: Block)
    requires Dom(es, s, a, b) && Dom(es, s, b, c)
    ensures Dom(es, s, a, c)
  {
    forall p | PathTo(es, s, c, p) ensures a in p {
      var i := FirstIndex(p, b);
      PathPrefix(es, p, i + 1);
      assert a in p[..i + 1];
    }
  }

  lemma DomAntisym(es: Edges, s: Block, a: Block, b: Block)
    requires Dom(es, s, a, b) && Dom(es, s, b, a) && Reach(es, s, a)
    ensures a == b
  {
    if a != b {
      var p := PathAvoiding(es, s, a, b);
      assert false;
    }
  }

  /** A strict dominator of `b` is reached by some path that has not yet met `b`. */
  lemma PathAvoiding(es: Edges, s: Block, b: Block, a: Block) returns (p: seq<Block>)
    requires a != b && Dom(es, s, a, b) && Reach(es, s, b)
    ensures PathTo(es, s, a, p) && b !in p
  {
    var q :| PathTo(es, s, b, q);
    var i := FirstIndex(q, b);
    PathPrefix(es, q, i + 1);
    assert a in q[..i + 1];
    var j := FirstIndex(q[..i + 1], a);
    PathPrefix(es, q, j + 1);
    p := q[..j + 1];
    assert forall k :: 0 <= k < |p| ==> p[k] == q[..i][k];
  }

  lemma SDomReach(es: Edges, s: Block, a: Block, b: Block)
    requires Dom(es, s, a, b) && Reach(es, s, b)
    ensures Reach(es, s, a)
  {
    if a != b {
      var p := PathAvoiding(es, s, b, a);
    }
  }

  lemma SDomTrans(es: Edges, s: Block, a: Block, b: Block, c: Block)
    requires Reach(es, s, c)
    requires Dom(es, s, a, b) && Dom(es, s, b, c) && (a != b || b != c)
    ensures SDom(es, s, a, c)
  {
    DomTrans(es, s, a, b, c);
    if a == c {
      DomAntisym(es, s, c, b);
    }
  }

  /** The dominators of a reachable block form a chain. */
  lemma DomChain(es: Edges, s: Block, a: Block, b: Block, c: Block)
    requires Dom(es, s, a, c) && Dom(es, s, b, c) && Reach(es, s, c)
    ensures Dom(es, s, a, b) || Dom(es, s, b, a)
  {
    var r :| PathTo(es, s, c, r);
    if a != b {
      if LastIndex(r, a) < LastIndex(r, b) {
        DomFromLast(es, s, a, b, c, r);
      } else {
        DomFromLast(es, s, b, a, c, r);
      }
    }
  }

  lemma DomFromLast(es: Edges, s: Block, a: Block, b: Block, c: Block, r: seq<Block>)
    requires Dom(es, s, a, c) && PathTo(es, s, c, r)
    requires a in r && b in r && LastIndex(r, a) < LastIndex(r, b)
    ensures Dom(es, s, a, b)
  {
    var j := LastIndex(r, b);
    forall p | PathTo(es, s, b, p) ensures a in p {
      PathSuffix(es, r, j);
      PathJoin(es, p, r[j..]);
      var q := p + r[j..][1..];
      assert a in q;
      assert r[j..][1..] == r[j + 1..];
      assert forall k :: j + 1 <= k < |r| ==> r[k] == r[LastIndex(r, a) + 1..][k - LastIndex(r, a) - 1];
    }
  }

  /** Entering `b` only from blocks that `d` dominates, or that `b` itself dominates, means passing `d`. */
  lemma DomByPreds(es: Edges, s: Block, d: Block, b: Block)
    requires b != s
    requires forall u: Block :: (u, b) in es ==> Dom(es, s, d, u) || Dom(es, s, b, u)
    ensures Dom(es, s, d, b)
  {
    forall p | PathTo(es, s, b, p) ensures d in p {
      var i := FirstIndex(p, b);
      assert Hop(es, p, i - 1);
      PathPrefix(es, p, i);
      assert d in p[..i];
    }
  }

  /** Fewer edges, fewer paths, more dominance. */
  lemma DomMono(es: Edges, es': Edges, s: Block, d: Block, b: Block)
    requires es' <= es && Dom(es, s, d, b)
    ensures Dom(es', s, d, b)
  {
    forall p | PathTo(es', s, b, p) ensures d in p {
      PathMono(es', es, p);
    }
  }

  /** Deleting `d` cuts off exactly the blocks that `d` dominates. */
  lemma RemovalTest(es: Edges, s: Block, d: Block, b: Block)
    ensures !ReachAvoiding(es, s, b, d) <==> Dom(es, s, d, b)
  {
  }

  // ---------- forward edges and reducibility ----------

  /** An edge whose target does not dominate its source. */
  ghost function Forward(es: Edges, s: Block): Edges {
    set e | e in es && !Dom(es, s, e.1, e.0)
  }

  /** Every cycle has an edge whose target dominates its source. */
  ghost predicate Reducible(es: Edges, s: Block) {
    forall p :: Path(Forward(es, s), p) && |p| > 1 ==> p[0] != p[|p| - 1]
  }

  ghost predicate Acyclic(es: Edges) {
    forall p :: Path(es, p) && |p| > 1 ==> p[0] != p[|p| - 1]
  }

  /** Every reachable block but the start is entered by a forward edge. */
  lemma EnteredForward(es: Edges, s: Block, b: Block) returns (u: Block)
    requires Reach(es, s, b) && b != s
    ensures Reach(es, s, u) && (u, b) in es && !Dom(es, s, b, u)
  {
    var p :| PathTo(es, s, b, p);
    var i := FirstIndex(p, b);
    u := p[i - 1];
    assert Hop(es, p, i - 1);
    PathPrefix(es, p, i);
  }
}
