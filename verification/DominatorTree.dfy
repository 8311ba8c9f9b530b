/** The dominator tree built from the immediate dominators
    (Analyzers/dominatorAnalyzer.cpp:156-184). */
module DominatorTree {
  import opened Util
  import opened Cfg
  import opened Rpo
  import opened Dominators

  datatype Tree = Node(block: Block, children: seq<Tree>)

  /** How often `b` occurs in the tree. */
  ghost function Count(t: Tree, b: Block): nat {
    (if t.block == b then 1 else 0) + CountAll(t.children, b)
  }

  ghost function CountAll(ts: seq<Tree>, b: Block): nat {
    if ts == [] then 0 else CountAll(ts[..|ts| - 1], b) + Count(ts[|ts| - 1], b)
  }

  /** Every child's immediate dominator is its parent. */
  ghost predicate ParentIsIdom(t: Tree, idom: map<Block, Block>) {
    forall c :: c in t.children ==> c.block in idom && idom[c.block] == t.block && ParentIsIdom(c, idom)
  }

  /** The blocks on the way from the root down to `b`, `b` left out. */
  ghost function Ancestors(t: Tree, b: Block): set<Block> {
    if t.block == b then {} else {t.block} + AncestorsAll(t.children, b)
  }

  ghost function AncestorsAll(ts: seq<Tree>, b: Block): set<Block> {
    if ts == [] then {}
    else
      var last := ts[|ts| - 1];
      AncestorsAll(ts[..|ts| - 1], b) + (if Count(last, b) > 0 then Ancestors(last, b) else {})
  }

  /** `b` occurs once if it is reachable and dominated by the root of the tree, else not at all. */
  ghost predicate CountOk(es: Edges, s: Block, t: Tree, b: Block) {
    Count(t, b) == if Reach(es, s, b) && Dom(es, s, t.block, b) then 1 else 0
  }

  /** Above a block of the tree stand exactly its strict dominators, from `t.block` on. */
  ghost predicate AncestorOk(es: Edges, s: Block, t: Tree, b: Block, d: Block) {
    Reach(es, s, b) && Dom(es, s, t.block, b) ==>
      (d in Ancestors(t, b) <==> Dom(es, s, t.block, d) && SDom(es, s, d, b))
  }

  ghost predicate TreeOk(es: Edges, s: Block, idom: map<Block, Block>, t: Tree) {
    && (forall b :: CountOk(es, s, t, b))
    && (forall b, d :: AncestorOk(es, s, t, b, d))
    && ParentIsIdom(t, idom)
  }

  ghost predicate ImmediateMap(es: Edges, s: Block, idom: map<Block, Block>) {
    && (forall b :: b in idom <==> Reach(es, s, b) && b != s)
    && (forall b :: b in idom ==> ImmediateDom(es, s, idom[b], b))
  }

  /** Below `r`, exactly one child of `r` dominates a given block: climb its idoms up to `r`. */
  lemma {:induction false} ChildAbove(g: Graph, s: Block, rpo: seq<Block>, idom: map<Block, Block>, r: Block,
                                      b: Block) returns (c: Block)
    requires IsRpo(g, s, None, rpo) && ImmediateMap(g.AllEdges(), s, idom)
    requires Reach(g.AllEdges(), s, b) && SDom(g.AllEdges(), s, r, b) && b in rpo
    ensures c in idom && idom[c] == r && Dom(g.AllEdges(), s, c, b)
    decreases FirstIndex(rpo, b)
  {
    var es := g.AllEdges();
    if b == s {
      NothingAboveStart(es, s, r);
      assert false;
    } else {
      var i := idom[b];
      if i == r {
        c := b;
      } else {
        RpoDominators(g, s, rpo, i, b);
        SDomReach(es, s, i, b);
        assert Dom(es, s, r, i);
        c := ChildAbove(g, s, rpo, idom, r, i);
        DomTrans(es, s, c, i, b);
      }
    }
  }

  lemma ChildUnique(es: Edges, s: Block, idom: map<Block, Block>, r: Block, b: Block, c1: Block, c2: Block)
    requires ImmediateMap(es, s, idom) && Reach(es, s, b)
    requires c1 in idom && c2 in idom && idom[c1] == r && idom[c2] == r
    requires Dom(es, s, c1, b) && Dom(es, s, c2, b)
    ensures c1 == c2
  {
    if c1 != c2 {
      DomChain(es, s, c1, c2, b);
      var x, y := if Dom(es, s, c1, c2) then c1 else c2, if Dom(es, s, c1, c2) then c2 else c1;
      assert SDom(es, s, x, y);
      assert Dom(es, s, x, r);
      DomAntisym(es, s, x, r);
    }
  }

  // ---------- assembling a node from its children ----------

  /** The children built so far are those of the first `k` listed blocks whose idom is `r`. */
  ghost predicate ChildrenOf(es: Edges, s: Block, idom: map<Block, Block>, r: Block,
                             list: seq<BlockWithIndex>, ts: seq<Tree>)
  {
    && (forall t :: t in ts ==> t.block in idom && idom[t.block] == r && TreeOk(es, s, idom, t))
    && (forall x :: x in list && x.0 in idom && idom[x.0] == r ==> exists t :: t in ts && t.block == x.0)
    && (forall i, j :: 0 <= i < j < |ts| ==> ts[i].block != ts[j].block)
  }

  /** With distinct blocks among the children, at most one of them counts `b`. */
  lemma {:induction false} CountChildren(es: Edges, s: Block, idom: map<Block, Block>, r: Block, ts: seq<Tree>,
                                         b: Block)
    requires ImmediateMap(es, s, idom)
    requires forall t :: t in ts ==> t.block in idom && idom[t.block] == r && TreeOk(es, s, idom, t)
    requires forall i, j :: 0 <= i < j < |ts| ==> ts[i].block != ts[j].block
    ensures CountAll(ts, b) ==
            if Reach(es, s, b) && exists t :: t in ts && Dom(es, s, t.block, b) then 1 else 0
  {
    if ts != [] {
      var n := |ts| - 1;
      CountChildren(es, s, idom, r, ts[..n], b);
      assert ts == ts[..n] + [ts[n]];
      assert CountOk(es, s, ts[n], b);
      if Reach(es, s, b) && Dom(es, s, ts[n].block, b) {
        forall t | t in ts[..n] ensures !Dom(es, s, t.block, b) {
          if Dom(es, s, t.block, b) {
            ChildUnique(es, s, idom, r, b, t.block, ts[n].block);
          }
        }
      }
    }
  }

  lemma {:induction false} AncestorsChildren(es: Edges, s: Block, idom: map<Block, Block>, r: Block, ts: seq<Tree>,
                                             b: Block, t: Tree)
    requires ImmediateMap(es, s, idom) && Reach(es, s, b)
    requires forall t :: t in ts ==> t.block in idom && idom[t.block] == r && TreeOk(es, s, idom, t)
    requires forall i, j :: 0 <= i < j < |ts| ==> ts[i].block != ts[j].block
    requires t in ts && Dom(es, s, t.block, b)
    ensures AncestorsAll(ts, b) == Ancestors(t, b)
  {
    hide Dom, AncestorOk, ParentIsIdom, ImmediateMap;
    assert CountOk(es, s, ts[|ts| - 1], b);
    var n := |ts| - 1;
    assert ts == ts[..n] + [ts[n]];
    if Dom(es, s, ts[n].block, b) {
      ChildUnique(es, s, idom, r, b, t.block, ts[n].block);
      CountChildren(es, s, idom, r, ts[..n], b);
      var i := FirstIndex(ts, t);
      forall t' | t' in ts[..n] ensures !Dom(es, s, t'.block, b) {
        if Dom(es, s, t'.block, b) {
          ChildUnique(es, s, idom, r, b, t'.block, ts[n].block);
        }
      }
      NoAncestors(ts[..n], b);
    } else {
      AncestorsChildren(es, s, idom, r, ts[..n], b, t);
    }
  }

  lemma {:induction false} NoAncestors(ts: seq<Tree>, b: Block)
    requires CountAll(ts, b) == 0
    ensures AncestorsAll(ts, b) == {}
  {
    if ts != [] {
      NoAncestors(ts[..|ts| - 1], b);
    }
  }

  /** A block strictly below `r` lies under the child that dominates it. */
  lemma BelowChild(g: Graph, s: Block, rpo: seq<BlockWithIndex>, info: Info, r: Block, ts: seq<Tree>,
                   b: Block) returns (t: Tree)
    requires RpoList(g, s, rpo) && info.Correct(g, s, rpo) && ImmediateMap(g.AllEdges(), s, info.idom)
    requires ChildrenOf(g.AllEdges(), s, info.idom, r, info.Dominated(r), ts)
    requires Reach(g.AllEdges(), s, b) && SDom(g.AllEdges(), s, r, b)
    ensures t in ts && Dom(g.AllEdges(), s, t.block, b)
  {
    var es := g.AllEdges();
    RpoHoldsReachable(g, s, BlocksOf(rpo), b);
    var c := ChildAbove(g, s, BlocksOf(rpo), info.idom, r, b);
    SDomReach(es, s, c, b);
    RecordsIsStrictDominance(g, s, rpo, info, r, c);
    var x :| x in info.Dominated(r) && x.0 == c;
    t :| t in ts && t.block == c;
  }

  lemma NotAboveParent(es: Edges, s: Block, idom: map<Block, Block>, r: Block, c: Block, b: Block)
    requires ImmediateMap(es, s, idom) && c in idom && idom[c] == r && Reach(es, s, b)
    requires Dom(es, s, c, b)
    ensures SDom(es, s, r, b)
  {
    SDomTrans(es, s, r, c, b);
  }

  lemma SomeChildDominates(g: Graph, s: Block, rpo: seq<BlockWithIndex>, info: Info, r: Block, ts: seq<Tree>, b: Block)
    requires RpoList(g, s, rpo) && info.Correct(g, s, rpo) && ImmediateMap(g.AllEdges(), s, info.idom)
    requires ChildrenOf(g.AllEdges(), s, info.idom, r, info.Dominated(r), ts) && Reach(g.AllEdges(), s, b)
    ensures (exists t :: t in ts && Dom(g.AllEdges(), s, t.block, b)) <==> SDom(g.AllEdges(), s, r, b)
  {
    if SDom(g.AllEdges(), s, r, b) {
      var t := BelowChild(g, s, rpo, info, r, ts, b);
    }
    if t :| t in ts && Dom(g.AllEdges(), s, t.block, b) {
      NotAboveParent(g.AllEdges(), s, info.idom, r, t.block, b);
    }
  }

  lemma NodeCount(g: Graph, s: Block, rpo: seq<BlockWithIndex>, info: Info, r: Block, ts: seq<Tree>, b: Block)
    requires RpoList(g, s, rpo) && info.Correct(g, s, rpo) && ImmediateMap(g.AllEdges(), s, info.idom)
    requires ChildrenOf(g.AllEdges(), s, info.idom, r, info.Dominated(r), ts) && Reach(g.AllEdges(), s, r)
    ensures CountOk(g.AllEdges(), s, Node(r, ts), b)
  {
    hide Dom, RpoList, TreeOk, ImmediateMap;
    CountChildren(g.AllEdges(), s, info.idom, r, ts, b);
    if Reach(g.AllEdges(), s, b) {
      SomeChildDominates(g, s, rpo, info, r, ts, b);
      DomRefl(g.AllEdges(), s, r);
    }
  }

  lemma NodeAncestors(g: Graph, s: Block, rpo: seq<BlockWithIndex>, info: Info, r: Block, ts: seq<Tree>, b: Block,
                      d: Block)
    requires RpoList(g, s, rpo) && info.Correct(g, s, rpo) && ImmediateMap(g.AllEdges(), s, info.idom)
    requires ChildrenOf(g.AllEdges(), s, info.idom, r, info.Dominated(r), ts) && Reach(g.AllEdges(), s, r)
    ensures AncestorOk(g.AllEdges(), s, Node(r, ts), b, d)
  {
    hide Dom, Reach, RpoList, TreeOk;
    var es := g.AllEdges();
    if !Reach(es, s, b) || !Dom(es, s, r, b) {
    } else if b == r {
      if Dom(es, s, r, d) && SDom(es, s, d, r) {
        DomAntisym(es, s, r, d);
      }
    } else {
      var t := BelowChild(g, s, rpo, info, r, ts, b);
      AncestorsChildren(es, s, info.idom, r, ts, b, t);
      AncestorsThroughChild(es, s, info.idom, r, t, b, d);
    }
  }

  lemma AncestorsThroughChild(es: Edges, s: Block, idom: map<Block, Block>, r: Block, t: Tree, b: Block, d: Block)
    requires ImmediateMap(es, s, idom) && Reach(es, s, b) && Reach(es, s, r) && SDom(es, s, r, b)
    requires t.block in idom && idom[t.block] == r && TreeOk(es, s, idom, t) && Dom(es, s, t.block, b)
    ensures d == r || d in Ancestors(t, b) <==> Dom(es, s, r, d) && SDom(es, s, d, b)
  {
    var c := t.block;
    assert AncestorOk(es, s, t, b, d);
    if d != r && Dom(es, s, r, d) && SDom(es, s, d, b) && !Dom(es, s, c, d) {
      DomChain(es, s, c, d, b);
      assert SDom(es, s, d, c);
      assert Dom(es, s, d, r);
      DomAntisym(es, s, r, d);
    }
    if d in Ancestors(t, b) {
      DomTrans(es, s, r, c, d);
    }
  }

  lemma NodeOk(g: Graph, s: Block, rpo: seq<BlockWithIndex>, info: Info, r: Block, ts: seq<Tree>)
    requires RpoList(g, s, rpo) && info.Correct(g, s, rpo) && ImmediateMap(g.AllEdges(), s, info.idom)
    requires ChildrenOf(g.AllEdges(), s, info.idom, r, info.Dominated(r), ts) && Reach(g.AllEdges(), s, r)
    ensures TreeOk(g.AllEdges(), s, info.idom, Node(r, ts))
  {
    hide Dom, Reach, RpoList, CountOk, AncestorOk, ImmediateMap;
    var es := g.AllEdges();
    forall b ensures CountOk(es, s, Node(r, ts), b) {
      NodeCount(g, s, rpo, info, r, ts, b);
    }
    forall b, d ensures AncestorOk(es, s, Node(r, ts), b, d) {
      NodeAncestors(g, s, rpo, info, r, ts, b, d);
    }
  }

  /** createNode: the subtree of the blocks dominated by `block`. */
  method CreateNode(g: Graph, info: Info, block: BlockWithIndex, ghost s: Block, ghost rpo: seq<BlockWithIndex>)
    returns (node: Tree)
    requires RpoList(g, s, rpo) && info.Correct(g, s, rpo) && ImmediateMap(g.AllEdges(), s, info.idom)
    requires block in rpo
    ensures node.block == block.0 && TreeOk(g.AllEdges(), s, info.idom, node)
    decreases |rpo| - block.1
  {
    hide *;
    ghost var es := g.AllEdges();
    ListedReach(g, s, rpo, block);
    var list := info.Dominated(block.0);
    var children := [];
    NoChildren(es, s, info.idom, block.0, list);
    for k := 0 to |list|
      invariant ChildrenSoFar(es, s, info.idom, block.0, list, k, children)
    {
      var child := list[k];
      NextListed(g, s, rpo, info, block, k);
      ghost var before := children;
      if child.0 in info.idom && info.idom[child.0] == block.0 {
        var t := CreateNode(g, info, child, s, rpo);
        children := children + [t];
      }
      NextChild(es, s, info.idom, block.0, list, k, before, children);
    }
    AllChildren(es, s, info.idom, block.0, list, children);
    node := Node(block.0, children);
    NodeOk(g, s, rpo, info, block.0, children);
  }

  lemma ListedReach(g: Graph, s: Block, rpo: seq<BlockWithIndex>, block: BlockWithIndex)
    requires RpoList(g, s, rpo) && block in rpo
    ensures Reach(g.AllEdges(), s, block.0) && block.1 < |rpo|
  {
    var r := BlocksOf(rpo);
    var k := FirstIndex(rpo, block);
    assert rpo[k] == Enumerate(r)[k] && r[k] == block.0;
    RpoHoldsReachable(g, s, r, block.0);
  }

  ghost predicate ChildrenSoFar(es: Edges, s: Block, idom: map<Block, Block>, r: Block,
                                list: seq<BlockWithIndex>, k: nat, ts: seq<Tree>)
    requires k <= |list|
  {
    && ChildrenOf(es, s, idom, r, list[..k], ts)
    && (forall t :: t in ts ==> t.block in BlocksOf(list[..k]))
  }

  lemma NoChildren(es: Edges, s: Block, idom: map<Block, Block>, r: Block, list: seq<BlockWithIndex>)
    ensures ChildrenSoFar(es, s, idom, r, list, 0, [])
  {
  }

  lemma AllChildren(es: Edges, s: Block, idom: map<Block, Block>, r: Block, list: seq<BlockWithIndex>, ts: seq<Tree>)
    requires ChildrenSoFar(es, s, idom, r, list, |list|, ts)
    ensures ChildrenOf(es, s, idom, r, list, ts)
  {
    assert list[..|list|] == list;
  }

  lemma NextChild(es: Edges, s: Block, idom: map<Block, Block>, r: Block,
                  list: seq<BlockWithIndex>, k: nat, before: seq<Tree>, after: seq<Tree>)
    requires k < |list| && list[k].0 !in BlocksOf(list[..k])
    requires ChildrenSoFar(es, s, idom, r, list, k, before)
    requires if list[k].0 in idom && idom[list[k].0] == r
             then exists t :: after == before + [t] && t.block == list[k].0 && TreeOk(es, s, idom, t)
             else after == before
    ensures ChildrenSoFar(es, s, idom, r, list, k + 1, after)
  {
    hide TreeOk;
    assert list[..k + 1] == list[..k] + [list[k]];
    assert BlocksOf(list[..k + 1]) == BlocksOf(list[..k]) + [list[k].0];
    if list[k].0 in idom && idom[list[k].0] == r {
      var t :| after == before + [t] && t.block == list[k].0 && TreeOk(es, s, idom, t);
      assert t in after;
    }
    forall x | x in list[..k + 1] && x.0 in idom && idom[x.0] == r
      ensures exists t :: t in after && t.block == x.0
    {
      if x in list[..k] {
        var t :| t in before && t.block == x.0;
        assert t in after;
      }
    }
  }

  /** A listed block comes later in reverse postorder, and is listed once. */
  lemma NextListed(g: Graph, s: Block, rpo: seq<BlockWithIndex>, info: Info, block: BlockWithIndex, k: nat)
    requires RpoList(g, s, rpo) && info.Correct(g, s, rpo)
    requires block in rpo && k < |info.Dominated(block.0)|
    ensures var list := info.Dominated(block.0);
            list[k] in rpo && block.1 < list[k].1 < |rpo| && list[k].0 !in BlocksOf(list[..k])
  {
    var es, r, list := g.AllEdges(), BlocksOf(rpo), info.Dominated(block.0);
    var i := FirstIndex(rpo, block);
    assert rpo[i] == Enumerate(r)[i] && r[i] == block.0;
    DominatedOfMember(es, s, rpo, block.0, list[k]);
    var j := FirstIndex(rpo, list[k]);
    assert rpo[j] == Enumerate(r)[j] && r[j] == list[k].0;
    RpoDominators(g, s, r, block.0, list[k].0);
    IndexUnique(r, i);
    IndexUnique(r, j);
    RpoIndexed(rpo);
    DominatedOfIndexed(es, s, rpo, block.0);
  }

  lemma IdomDomain(g: Graph, s: Block, rpo: seq<BlockWithIndex>, info: Info)
    requires RpoList(g, s, rpo) && info.Correct(g, s, rpo)
    ensures ImmediateMap(g.AllEdges(), s, info.idom)
  {
    forall b ensures b in info.idom <==> Reach(g.AllEdges(), s, b) && b != s {
      RpoHoldsReachable(g, s, BlocksOf(rpo), b);
    }
  }

  lemma RootOk(es: Edges, s: Block, idom: map<Block, Block>, root: Tree)
    requires root.block == s && TreeOk(es, s, idom, root)
    ensures forall b :: Count(root, b) == if Reach(es, s, b) then 1 else 0
    ensures forall b, d :: Reach(es, s, b) ==> (d in Ancestors(root, b) <==> SDom(es, s, d, b))
    ensures ParentIsIdom(root, idom)
  {
    forall b ensures Count(root, b) == if Reach(es, s, b) then 1 else 0 {
      DomStart(es, s, b);
      assert CountOk(es, s, root, b);
    }
    forall b, d | Reach(es, s, b) ensures d in Ancestors(root, b) <==> SDom(es, s, d, b) {
      DomStart(es, s, b);
      DomStart(es, s, d);
      assert AncestorOk(es, s, root, b, d);
    }
  }

  /** The tree of the whole graph. */
  method Build(g: Graph, s: Block, info: Info, rpo: seq<BlockWithIndex>) returns (root: Tree)
    requires RpoList(g, s, rpo) && info.Correct(g, s, rpo)
    ensures forall b :: Count(root, b) == if Reach(g.AllEdges(), s, b) then 1 else 0
    ensures forall b, d :: Reach(g.AllEdges(), s, b) ==> (d in Ancestors(root, b) <==> SDom(g.AllEdges(), s, d, b))
    ensures ParentIsIdom(root, info.idom)
  {
    ghost var es := g.AllEdges();
    RpoStartsWith(g, s, BlocksOf(rpo));
    IdomDomain(g, s, rpo, info);
    root := CreateNode(g, info, rpo[0], s, rpo);
    RootOk(es, s, info.idom, root);
  }
}
