/** Back edges and natural loops, defined by paths. */
module NaturalLoops {
  import opened Util
  import opened Cfg

  /** An edge of a reachable block to one of its strict dominators. */
  ghost predicate BackEdge(es: Edges, s: Block, u: Block, h: Block) {
    (u, h) in es && Reach(es, s, u) && SDom(es, s, h, u)
  }

  ghost predicate Header(es: Edges, s: Block, h: Block) {
    exists u :: BackEdge(es, s, u, h)
  }

  ghost predicate ReachesLatch(es: Edges, s: Block, h: Block, b: Block) {
    exists u :: BackEdge(es, s, u, h) && ReachAvoiding(es, b, u, h)
  }

  /** The natural loop of `h`: `h` and the blocks that reach a latch of `h` without passing `h`. */
  ghost predicate InLoop(es: Edges, s: Block, h: Block, b: Block) {
    Header(es, s, h) && (b == h || ReachesLatch(es, s, h, b))
  }

  /** `h` heads the innermost natural loop around `b`. */
  ghost predicate Innermost(es: Edges, s: Block, h: Block, b: Block) {
    && InLoop(es, s, h, b)
    && forall h' :: InLoop(es, s, h', b) ==> Dom(es, s, h', h)
  }

  ghost predicate NoSelfEdges(es: Edges) {
    forall b :: (b, b) !in es
  }

  lemma LatchInLoop(es: Edges, s: Block, u: Block, h: Block)
    requires BackEdge(es, s, u, h)
    ensures InLoop(es, s, h, u)
  {
    PathSingle(es, u);
    assert PathTo(es, u, u, [u]) && h !in [u];
  }

  lemma HeaderReach(es: Edges, s: Block, h: Block)
    requires Header(es, s, h)
    ensures Reach(es, s, h)
  {
    var u :| BackEdge(es, s, u, h);
    SDomReach(es, s, h, u);
  }

  /** The header dominates its loop. */
  lemma LoopDominated(es: Edges, s: Block, h: Block, b: Block)
    requires InLoop(es, s, h, b)
    ensures Dom(es, s, h, b)
  {
    if b != h {
      var u :| BackEdge(es, s, u, h) && ReachAvoiding(es, b, u, h);
      var q :| PathTo(es, b, u, q) && h !in q;
      forall p | PathTo(es, s, b, p) ensures h in p {
        PathJoin(es, p, q);
        assert h in p + q[1..];
      }
    }
  }

  /** Blocks visited on the way from an inner header to a loop block stay away from an outer header. */
  lemma PathFromInner(es: Edges, s: Block, h1: Block, h2: Block, b: Block) returns (p: seq<Block>)
    requires SDom(es, s, h1, h2) && Dom(es, s, h2, b) && Reach(es, s, b)
    ensures PathTo(es, h2, b, p) && h1 !in p
  {
    var r :| PathTo(es, s, b, r);
    DomTrans(es, s, h1, h2, b);
    assert h1 in r && h2 in r;
    var i := LastIndex(r, h1);
    PathSuffix(es, r, i);
    SDomReach(es, s, h2, b);
    var q := PathAvoiding(es, s, h2, h1);
    PathJoin(es, q, r[i..]);
    var w := q + r[i..][1..];
    assert PathTo(es, s, b, w);
    assert h2 in w;
    assert r[i..][1..] == r[i + 1..];
    var j := FirstIndex(r[i + 1..], h2);
    PathSuffix(es, r, i + 1 + j);
    p := r[i + 1 + j..];
    assert forall k :: 0 <= k < |p| ==> p[k] == r[i + 1..][j + k];
  }

  /** Of two loops sharing a block, the one with the dominating header contains the other's header... */
  lemma NestedHeader(es: Edges, s: Block, h1: Block, h2: Block, b: Block)
    requires InLoop(es, s, h1, b) && InLoop(es, s, h2, b) && SDom(es, s, h1, h2) && Reach(es, s, b)
    ensures InLoop(es, s, h1, h2)
  {
    if b != h2 {
      LoopDominated(es, s, h2, b);
      if b == h1 {
        DomAntisym(es, s, h1, h2);
      } else {
        var u :| BackEdge(es, s, u, h1) && ReachAvoiding(es, b, u, h1);
        var q :| PathTo(es, b, u, q) && h1 !in q;
        var p := PathFromInner(es, s, h1, h2, b);
        PathJoin(es, p, q);
        assert PathTo(es, h2, u, p + q[1..]) && h1 !in p + q[1..];
      }
    }
  }

  /** ... and with it the whole inner loop. */
  lemma NestedLoop(es: Edges, s: Block, h1: Block, h2: Block, c: Block)
    requires InLoop(es, s, h1, h2) && InLoop(es, s, h2, c) && h1 != h2
    ensures InLoop(es, s, h1, c)
  {
    if c != h2 && c != h1 {
      var u2 :| BackEdge(es, s, u2, h2) && ReachAvoiding(es, c, u2, h2);
      var q :| PathTo(es, c, u2, q) && h2 !in q;
      AvoidsOuterHeader(es, s, h1, h2, c, u2, q);
      var u1 :| BackEdge(es, s, u1, h1) && ReachAvoiding(es, h2, u1, h1);
      var p :| PathTo(es, h2, u1, p) && h1 !in p;
      PathAppend(es, q, h2);
      PathJoin(es, q + [h2], p);
      assert PathTo(es, c, u1, q + [h2] + p[1..]) && h1 !in q + [h2] + p[1..];
    }
  }

  /** An outer header on a path to the inner latch would bypass the inner header. */
  lemma AvoidsOuterHeader(es: Edges, s: Block, h1: Block, h2: Block, c: Block, u2: Block, q: seq<Block>)
    requires InLoop(es, s, h1, h2) && h1 != h2 && BackEdge(es, s, u2, h2)
    requires PathTo(es, c, u2, q) && h2 !in q
    ensures h1 !in q
  {
    if h1 in q {
      LoopDominated(es, s, h1, h2);
      SDomReach(es, s, h2, u2);
      var w := PathAvoiding(es, s, h2, h1);
      var i := FirstIndex(q, h1);
      PathSuffix(es, q, i);
      PathJoin(es, w, q[i..]);
      assert false;
    }
  }

  /** The headers of the loops around a block are ordered by dominance. */
  lemma HeadersChain(es: Edges, s: Block, h1: Block, h2: Block, b: Block)
    requires InLoop(es, s, h1, b) && InLoop(es, s, h2, b) && Reach(es, s, b)
    ensures Dom(es, s, h1, h2) || Dom(es, s, h2, h1)
  {
    LoopDominated(es, s, h1, b);
    LoopDominated(es, s, h2, b);
    DomChain(es, s, h1, h2, b);
  }

  lemma InnermostUnique(es: Edges, s: Block, h1: Block, h2: Block, b: Block)
    requires Innermost(es, s, h1, b) && Innermost(es, s, h2, b)
    ensures h1 == h2
  {
    HeaderReach(es, s, h1);
    DomAntisym(es, s, h1, h2);
  }
}
