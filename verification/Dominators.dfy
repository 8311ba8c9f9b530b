/** Strict dominators by the removal test, and immediate dominators by largest index
    (Analyzers/dominatorAnalyzer.cpp:69-119). */
module Dominators {
  import opened Util
  import opened Cfg
  import opened Rpo

  /** The immediate dominator: the strict dominator that all the others dominate. */
  ghost predicate ImmediateDom(es: Edges, s: Block, i: Block, b: Block) {
    && SDom(es, s, i, b)
    && forall d :: SDom(es, s, d, b) ==> Dom(es, s, d, i)
  }

  /** The entries of `rpo` that strictly dominate `b`, in list order. */
  ghost function DominatorsOf(es: Edges, s: Block, rpo: seq<BlockWithIndex>, b: Block): seq<BlockWithIndex> {
    if rpo == [] then []
    else
      var last := rpo[|rpo| - 1];
      DominatorsOf(es, s, rpo[..|rpo| - 1], b) + (if SDom(es, s, last.0, b) then [last] else [])
  }

  /** The entries of `rpo` that `d` strictly dominates, in list order. */
  ghost function DominatedOf(es: Edges, s: Block, rpo: seq<BlockWithIndex>, d: Block): seq<BlockWithIndex> {
    if rpo == [] then []
    else
      var last := rpo[|rpo| - 1];
      DominatedOf(es, s, rpo[..|rpo| - 1], d) + (if SDom(es, s, d, last.0) then [last] else [])
  }

  lemma {:induction false} DominatorsOfMember(es: Edges, s: Block, rpo: seq<BlockWithIndex>, b: Block,
                                              x: BlockWithIndex)
    ensures x in DominatorsOf(es, s, rpo, b) <==> x in rpo && SDom(es, s, x.0, b)
  {
    if rpo != [] {
      var n := |rpo| - 1;
      DominatorsOfMember(es, s, rpo[..n], b, x);
      assert rpo == rpo[..n] + [rpo[n]];
    }
  }

  lemma {:induction false} DominatedOfMember(es: Edges, s: Block, rpo: seq<BlockWithIndex>, d: Block, x: BlockWithIndex)
    ensures x in DominatedOf(es, s, rpo, d) <==> x in rpo && SDom(es, s, d, x.0)
  {
    if rpo != [] {
      var n := |rpo| - 1;
      DominatedOfMember(es, s, rpo[..n], d, x);
      assert rpo == rpo[..n] + [rpo[n]];
    }
  }

  /** An indexed list whose blocks are distinct, each carrying its own index in increasing order. */
  ghost predicate Indexed(rpo: seq<BlockWithIndex>) {
    && (forall i, j :: 0 <= i < j < |rpo| ==> rpo[i].0 != rpo[j].0)
    && (forall i, j :: 0 <= i < j < |rpo| ==> rpo[i].1 < rpo[j].1)
  }

  lemma IndexedAppend(q: seq<BlockWithIndex>, x: BlockWithIndex)
    requires Indexed(q) && forall y :: y in q ==> y.0 != x.0 && y.1 < x.1
    ensures Indexed(q + [x])
  {
  }

  lemma {:induction false} DominatorsOfIndexed(es: Edges, s: Block, rpo: seq<BlockWithIndex>, b: Block)
    requires Indexed(rpo)
    ensures Indexed(DominatorsOf(es, s, rpo, b))
  {
    if rpo != [] {
      var n := |rpo| - 1;
      DominatorsOfIndexed(es, s, rpo[..n], b);
      forall x | x in DominatorsOf(es, s, rpo[..n], b) ensures x.0 != rpo[n].0 && x.1 < rpo[n].1 {
        DominatorsOfMember(es, s, rpo[..n], b, x);
        var k := FirstIndex(rpo[..n], x);
        assert rpo[k] == x;
      }
      IndexedAppend(DominatorsOf(es, s, rpo[..n], b), rpo[n]);
    }
  }

  lemma {:induction false} DominatedOfIndexed(es: Edges, s: Block, rpo: seq<BlockWithIndex>, d: Block)
    requires Indexed(rpo)
    ensures Indexed(DominatedOf(es, s, rpo, d))
  {
    if rpo != [] {
      var n := |rpo| - 1;
      DominatedOfIndexed(es, s, rpo[..n], d);
      forall x | x in DominatedOf(es, s, rpo[..n], d) ensures x.0 != rpo[n].0 && x.1 < rpo[n].1 {
        DominatedOfMember(es, s, rpo[..n], d, x);
        var k := FirstIndex(rpo[..n], x);
        assert rpo[k] == x;
      }
      IndexedAppend(DominatedOf(es, s, rpo[..n], d), rpo[n]);
    }
  }

  lemma RpoIndexed(r: seq<BlockWithIndex>)
    requires r == Enumerate(BlocksOf(r)) && Distinct(BlocksOf(r))
    ensures Indexed(r)
  {
    forall i, j | 0 <= i < j < |r| ensures r[i].0 != r[j].0 && r[i].1 < r[j].1 {
      assert BlocksOf(r)[i] != BlocksOf(r)[j];
      assert Enumerate(BlocksOf(r))[i].1 == i && Enumerate(BlocksOf(r))[j].1 == j;
    }
  }

  /** What FindDominators leaves in the blocks. */
  datatype Info = Info(dominators: map<Block, seq<BlockWithIndex>>,
                       dominated: map<Block, seq<BlockWithIndex>>,
                       idom: map<Block, Block>) {
    function Dominators(b: Block): seq<BlockWithIndex> {
      if b in dominators then dominators[b] else []
    }

    function Dominated(b: Block): seq<BlockWithIndex> {
      if b in dominated then dominated[b] else []
    }

    /** The lists hold exactly the strict dominance relation in index order, and each
        idom entry is the immediate dominator. */
    ghost predicate Correct(g: Graph, s: Block, rpo: seq<BlockWithIndex>) {
      var es := g.AllEdges();
      && (forall b :: b in BlocksOf(rpo) ==> Dominators(b) == DominatorsOf(es, s, rpo, b))
      && (forall b :: b in BlocksOf(rpo) ==> Dominated(b) == DominatedOf(es, s, rpo, b))
      && (forall b :: b !in BlocksOf(rpo) ==> Dominators(b) == [] && Dominated(b) == [])
      && (forall b :: b in idom <==> b in BlocksOf(rpo) && b != s)
      && (forall b :: b in idom ==> ImmediateDom(es, s, idom[b], b))
    }

    /** `d` is named in the recorded dominators of `b`. */
    predicate Records(d: Block, b: Block) {
      exists x :: x in Dominators(b) && x.0 == d
    }
  }

  ghost predicate RpoList(g: Graph, s: Block, rpo: seq<BlockWithIndex>) {
    rpo == Enumerate(BlocksOf(rpo)) && IsRpo(g, s, None, BlocksOf(rpo))
  }

  /** The recorded relation is strict dominance, on every reachable block. */
  lemma RecordsIsStrictDominance(g: Graph, s: Block, rpo: seq<BlockWithIndex>, info: Info, d: Block, b: Block)
    requires RpoList(g, s, rpo) && info.Correct(g, s, rpo) && Reach(g.AllEdges(), s, b)
    ensures info.Records(d, b) <==> SDom(g.AllEdges(), s, d, b)
    ensures (exists x :: x in info.Dominated(d) && x.0 == b) <==> SDom(g.AllEdges(), s, d, b)
  {
    var es, r := g.AllEdges(), BlocksOf(rpo);
    RpoHoldsReachable(g, s, r, b);
    RpoHoldsReachable(g, s, r, d);
    var ib := FirstIndex(r, b);
    forall x | x in info.Dominators(b) ensures SDom(es, s, x.0, b) {
      DominatorsOfMember(es, s, rpo, b, x);
    }
    if SDom(es, s, d, b) {
      SDomReach(es, s, d, b);
      var id := FirstIndex(r, d);
      DominatorsOfMember(es, s, rpo, b, rpo[id]);
      DominatedOfMember(es, s, rpo, d, rpo[ib]);
      assert rpo[id] in info.Dominators(b) && rpo[ib] in info.Dominated(d);
    }
    if x :| x in info.Dominated(d) && x.0 == b {
      assert d in r;
      DominatedOfMember(es, s, rpo, d, x);
    }
  }

  // ---------- the immediate dominator ----------

  /** Of two strict dominators of a block, the one with the smaller index dominates the other. */
  lemma DominatorsChainByIndex(g: Graph, s: Block, r: seq<Block>, b: Block, d1: Block, d2: Block)
    requires IsRpo(g, s, None, r) && Reach(g.AllEdges(), s, b)
    requires SDom(g.AllEdges(), s, d1, b) && SDom(g.AllEdges(), s, d2, b)
    requires d1 in r && d2 in r && FirstIndex(r, d1) <= FirstIndex(r, d2)
    ensures Dom(g.AllEdges(), s, d1, d2)
  {
    var es := g.AllEdges();
    DomChain(es, s, d1, d2, b);
    if !Dom(es, s, d1, d2) {
      RpoDominators(g, s, r, d2, d1);
      assert false;
    }
  }

  /** The recorded dominator of largest index is the immediate dominator. */
  lemma LargestIndexIsImmediate(g: Graph, s: Block, rpo: seq<BlockWithIndex>, b: Block, m: BlockWithIndex)
    requires RpoList(g, s, rpo) && b in BlocksOf(rpo)
    requires m in DominatorsOf(g.AllEdges(), s, rpo, b)
    requires forall x :: x in DominatorsOf(g.AllEdges(), s, rpo, b) ==> x.1 <= m.1
    ensures ImmediateDom(g.AllEdges(), s, m.0, b)
  {
    var es, r := g.AllEdges(), BlocksOf(rpo);
    RpoHoldsReachable(g, s, r, b);
    DominatorsOfMember(es, s, rpo, b, m);
    forall d | SDom(es, s, d, b) ensures Dom(es, s, d, m.0) {
      RpoDominators(g, s, r, d, b);
      var i := FirstIndex(r, d);
      DominatorsOfMember(es, s, rpo, b, rpo[i]);
      assert rpo[i] == Enumerate(r)[i];
      var k := FirstIndex(rpo, m);
      assert rpo[k] == Enumerate(r)[k];
      IndexUnique(r, k);
      assert rpo[i].1 <= m.1;
      DominatorsChainByIndex(g, s, r, b, d, m.0);
    }
  }

  lemma ImmediateUnique(es: Edges, s: Block, i: Block, j: Block, b: Block)
    requires ImmediateDom(es, s, i, b) && ImmediateDom(es, s, j, b) && Reach(es, s, b)
    ensures i == j
  {
    SDomReach(es, s, i, b);
    DomAntisym(es, s, i, j);
  }

  /** The recorded immediate dominator is the block's only one, and only the start has none. */
  lemma ImmediateExactly(g: Graph, s: Block, rpo: seq<BlockWithIndex>, info: Info, i: Block, b: Block)
    requires RpoList(g, s, rpo) && info.Correct(g, s, rpo) && Reach(g.AllEdges(), s, b)
    ensures ImmediateDom(g.AllEdges(), s, i, b) <==> b in info.idom && info.idom[b] == i
  {
    hide DominatorsOf, DominatedOf, Dom, Reach;
    RpoHoldsReachable(g, s, BlocksOf(rpo), b);
    if ImmediateDom(g.AllEdges(), s, i, b) {
      if b == s {
        NothingAboveStart(g.AllEdges(), s, i);
      }
      ImmediateUnique(g.AllEdges(), s, i, info.idom[b], b);
    }
  }

  lemma NoDominatorsOnlyAtStart(g: Graph, s: Block, rpo: seq<BlockWithIndex>, b: Block)
    requires RpoList(g, s, rpo) && b in BlocksOf(rpo)
    ensures DominatorsOf(g.AllEdges(), s, rpo, b) == [] <==> b == s
  {
    var es, r := g.AllEdges(), BlocksOf(rpo);
    if b == s {
      if DominatorsOf(es, s, rpo, s) != [] {
        var x := DominatorsOf(es, s, rpo, s)[0];
        DominatorsOfMember(es, s, rpo, s, x);
        NothingAboveStart(es, s, x.0);
      }
    } else {
      DomStart(es, s, b);
      assert SDom(es, s, s, b);
      RpoDominators(g, s, r, s, b);
      DominatorsOfMember(es, s, rpo, b, rpo[FirstIndex(r, s)]);
    }
  }

  lemma BlocksOfTake(list: seq<BlockWithIndex>, k: nat)
    requires k < |list| && Indexed(list)
    ensures BlocksOf(list[..k + 1]) == BlocksOf(list[..k]) + [list[k].0]
    ensures list[k].0 !in BlocksOf(list[..k])
  {
  }

  lemma ListedBlocks(es: Edges, s: Block, rpo: seq<BlockWithIndex>, d: Block, b: Block)
    ensures b in BlocksOf(DominatedOf(es, s, rpo, d)) <==> b in BlocksOf(rpo) && SDom(es, s, d, b)
  {
    var list := DominatedOf(es, s, rpo, d);
    if b in BlocksOf(list) {
      var k := FirstIndex(BlocksOf(list), b);
      DominatedOfMember(es, s, rpo, d, list[k]);
      var i := FirstIndex(rpo, list[k]);
      assert BlocksOf(rpo)[i] == b;
    }
    if b in BlocksOf(rpo) && SDom(es, s, d, b) {
      var k := FirstIndex(BlocksOf(rpo), b);
      DominatedOfMember(es, s, rpo, d, rpo[k]);
      var i := FirstIndex(list, rpo[k]);
      assert BlocksOf(list)[i] == b;
    }
  }


  // ---------- the lists, block by block ----------

  /** The lists of `b` after the first `k` blocks of `rpo` have been handled. */
  ghost predicate ListedUpTo(es: Edges, s: Block, rpo: seq<BlockWithIndex>, k: nat, info: Info, b: Block)
    requires k <= |rpo|
  {
    && info.Dominators(b) == (if b in BlocksOf(rpo) then DominatorsOf(es, s, rpo[..k], b) else [])
    && info.Dominated(b) == (if b in BlocksOf(rpo[..k]) then DominatedOf(es, s, rpo, b) else [])
  }

  ghost predicate ListsUpTo(es: Edges, s: Block, rpo: seq<BlockWithIndex>, k: nat, info: Info)
    requires k <= |rpo|
  {
    forall b :: ListedUpTo(es, s, rpo, k, info, b)
  }

  lemma ListsCorrect(g: Graph, s: Block, rpo: seq<BlockWithIndex>, lists: Info, info: Info)
    requires ListsUpTo(g.AllEdges(), s, rpo, |rpo|, lists)
    requires info.dominators == lists.dominators && info.dominated == lists.dominated
    requires forall b :: b in info.idom <==> b in BlocksOf(rpo) && b != s
    requires forall b :: b in info.idom ==> ImmediateDom(g.AllEdges(), s, info.idom[b], b)
    ensures info.Correct(g, s, rpo)
  {
    assert rpo[..|rpo|] == rpo;
    forall b ensures info.Dominators(b) == (if b in BlocksOf(rpo) then DominatorsOf(g.AllEdges(), s, rpo, b) else [])
    {
      assert ListedUpTo(g.AllEdges(), s, rpo, |rpo|, lists, b);
    }
    forall b ensures info.Dominated(b) == (if b in BlocksOf(rpo) then DominatedOf(g.AllEdges(), s, rpo, b) else [])
    {
      assert ListedUpTo(g.AllEdges(), s, rpo, |rpo|, lists, b);
    }
  }

  lemma NoListsYet(es: Edges, s: Block, rpo: seq<BlockWithIndex>, info: Info)
    requires info.dominators == map[] && info.dominated == map[]
    ensures ListsUpTo(es, s, rpo, 0, info)
  {
    forall b ensures ListedUpTo(es, s, rpo, 0, info, b) {
      assert rpo[..0] == [];
    }
  }

  /** Handling one more block: it is pushed on the lists of the blocks it cuts off, and its own list is set. */
  lemma NextLists(es: Edges, s: Block, rpo: seq<BlockWithIndex>, k: nat, info: Info, info': Info)
    requires k < |rpo| && Indexed(rpo) && ListsUpTo(es, s, rpo, k, info)
    requires info'.dominated == info.dominated[rpo[k].0 := DominatedOf(es, s, rpo, rpo[k].0)]
    requires forall b :: info'.Dominators(b) == info.Dominators(b) +
               (if b in BlocksOf(DominatedOf(es, s, rpo, rpo[k].0)) then [rpo[k]] else [])
    ensures ListsUpTo(es, s, rpo, k + 1, info')
  {
    var n := k + 1;
    forall b: Block ensures ListedUpTo(es, s, rpo, n, info', b) {
      assert ListedUpTo(es, s, rpo, k, info, b);
      NextList(es, s, rpo, k, info, info', b);
    }
  }

  lemma NextList(es: Edges, s: Block, rpo: seq<BlockWithIndex>, k: nat, info: Info, info': Info, b: Block)
    requires k < |rpo| && Indexed(rpo) && ListedUpTo(es, s, rpo, k, info, b)
    requires info'.dominated == info.dominated[rpo[k].0 := DominatedOf(es, s, rpo, rpo[k].0)]
    requires info'.Dominators(b) == info.Dominators(b) +
               (if b in BlocksOf(DominatedOf(es, s, rpo, rpo[k].0)) then [rpo[k]] else [])
    ensures ListedUpTo(es, s, rpo, k + 1, info', b)
  {
    hide Dom, Indexed, Enumerate;
    ListedBlocks(es, s, rpo, rpo[k].0, b);
    BlocksOfTake(rpo, k);
    assert rpo[..k + 1][..k] == rpo[..k];
    assert rpo[..k + 1][k] == rpo[k];
  }

  /** What is still reached when `block` is ignored is what `block` does not dominate. */
  lemma StillReached(g: Graph, s: Block, remaining: seq<BlockWithIndex>, block: Block, b: Block)
    requires IsRpo(g, s, Some(block), BlocksOf(remaining))
    ensures b in Elems(BlocksOf(remaining)) <==> !Dom(g.AllEdges(), s, block, b)
  {
    if !Dom(g.AllEdges(), s, block, b) {
      var p :| PathTo(g.AllEdges(), s, b, p) && block !in p;
      assert Skips(p, Some(block));
      assert ReachSkipping(g.AllEdges(), s, b, Some(block));
    }
  }

  // ---------- the analyzer ----------

  method CreateSetFromIndexedBlocks(list: seq<BlockWithIndex>) returns (r: set<Block>)
    ensures r == Elems(BlocksOf(list))
  {
    r := {};
    for i := 0 to |list|
      invariant r == set k | 0 <= k < i :: list[k].0
    {
      r := r + {list[i].0};
    }
    forall x | x in r ensures x in BlocksOf(list) {
      var k :| 0 <= k < |list| && list[k].0 == x;
      assert BlocksOf(list)[k] == x;
    }
    forall x | x in BlocksOf(list) ensures x in r {
      var k := FirstIndex(BlocksOf(list), x);
      assert list[k].0 == x;
    }
  }

  /** std::max_element on the index component. */
  method MaxByIndex(list: seq<BlockWithIndex>) returns (m: BlockWithIndex)
    requires list != []
    ensures m in list && forall x :: x in list ==> x.1 <= m.1
  {
    m := list[0];
    for i := 1 to |list|
      invariant m in list && forall k :: 0 <= k < i ==> list[k].1 <= m.1
    {
      if m.1 < list[i].1 {
        m := list[i];
      }
    }
  }

  class DominatorAnalyzer {
    const g: Graph
    /** The fields dominators_, dominatedBlocks_ and iDominator_ of every block. */
    var dominators: map<Block, seq<BlockWithIndex>>
    var dominated: map<Block, seq<BlockWithIndex>>
    var idom: map<Block, Block>

    constructor (g: Graph)
      ensures this.g == g && dominators == map[] && dominated == map[] && idom == map[]
    {
      this.g, dominators, dominated, idom := g, map[], map[], map[];
    }

    function Facts(): (f: Info)
      reads this
      ensures f.dominators == dominators && f.dominated == dominated && f.idom == idom
    {
      Info(dominators, dominated, idom)
    }

    /** The blocks that are cut off when `block` is removed. */
    method CutOffBy(s: Block, rpo: seq<BlockWithIndex>, block: Block) returns (list: seq<BlockWithIndex>)
      requires g.Closed() && s in g.blocks && RpoList(g, s, rpo)
      ensures list == DominatedOf(g.AllEdges(), s, rpo, block)
    {
      var remaining := ReversePostOrder(g, s, Some(block));
      var liveBlocks := CreateSetFromIndexedBlocks(remaining);
      list := [];
      for k := 0 to |rpo|
        invariant list == DominatedOf(g.AllEdges(), s, rpo[..k], block)
      {
        var checkBlock := rpo[k];
        assert rpo[..k + 1][..k] == rpo[..k];
        StillReached(g, s, remaining, block, checkBlock.0);
        if checkBlock.0 !in liveBlocks && checkBlock.0 != block {
          list := list + [checkBlock];
        }
      }
      assert rpo[..|rpo|] == rpo;
    }

    /** Pushes `block` on the dominator list of every entry of `list`. */
    method PushDominator(list: seq<BlockWithIndex>, block: BlockWithIndex)
      requires Indexed(list)
      modifies this`dominators
      ensures forall b :: Facts().Dominators(b) ==
                          old(Facts()).Dominators(b) + (if b in BlocksOf(list) then [block] else [])
    {
      for k := 0 to |list|
        invariant forall b :: Facts().Dominators(b) ==
                              old(Facts()).Dominators(b) + (if b in BlocksOf(list[..k]) then [block] else [])
      {
        var b := list[k].0;
        BlocksOfTake(list, k);
        dominators := dominators[b := (if b in dominators then dominators[b] else []) + [block]];
      }
      assert list[..|list|] == list;
    }

    method FindDominators(s: Block) returns (rpo: seq<BlockWithIndex>)
      requires g.Closed() && s in g.blocks
      requires dominators == map[] && dominated == map[] && idom == map[]
      modifies this
      ensures RpoList(g, s, rpo) && Facts().Correct(g, s, rpo)
    {
      rpo := ReversePostOrder(g, s, None);
      RpoIndexed(rpo);
      hide RpoList, ListsUpTo, Info.Correct;
      FindLists(s, rpo);
      ghost var lists := Facts();
      FindImmediate(s, rpo);
      ListsCorrect(g, s, rpo, lists, Facts());
    }

    method FindLists(s: Block, rpo: seq<BlockWithIndex>)
      requires g.Closed() && s in g.blocks && RpoList(g, s, rpo) && Indexed(rpo)
      requires dominators == map[] && dominated == map[]
      modifies this`dominators, this`dominated
      ensures ListsUpTo(g.AllEdges(), s, rpo, |rpo|, Facts())
    {
      hide RpoList, DominatorsOf, DominatedOf, Indexed, SDom;
      NoListsYet(g.AllEdges(), s, rpo, Facts());
      for k := 0 to |rpo|
        invariant ListsUpTo(g.AllEdges(), s, rpo, k, Facts())
      {
        hide ListsUpTo;
        ghost var before := Facts();
        var list := CutOffBy(s, rpo, rpo[k].0);
        DominatedOfIndexed(g.AllEdges(), s, rpo, rpo[k].0);
        PushDominator(list, rpo[k]);
        dominated := dominated[rpo[k].0 := list];
        NextLists(g.AllEdges(), s, rpo, k, before, Facts());
      }
    }

    method FindImmediate(s: Block, rpo: seq<BlockWithIndex>)
      requires RpoList(g, s, rpo) && idom == map[] && ListsUpTo(g.AllEdges(), s, rpo, |rpo|, Facts())
      modifies this`idom
      ensures forall b :: b in idom <==> b in BlocksOf(rpo) && b != s
      ensures forall b :: b in idom ==> ImmediateDom(g.AllEdges(), s, idom[b], b)
    {
      hide *;
      ghost var lists := Facts();
      NothingListed(rpo);
      for k := 0 to |rpo|
        invariant dominators == lists.dominators
        invariant forall b :: b in idom <==> b in BlocksOf(rpo[..k]) && b != s
        invariant forall b :: b in idom ==> ImmediateDom(g.AllEdges(), s, idom[b], b)
      {
        var block := rpo[k].0;
        NextListed(rpo, k);
        NoDominatorsOnlyAtStart(g, s, rpo, block);
        var doms := Facts().Dominators(block);
        AllListed(g.AllEdges(), s, rpo, lists, Facts(), block);
        if doms != [] {
          var m := MaxByIndex(doms);
          LargestIndexIsImmediate(g, s, rpo, block, m);
          idom := idom[block := m.0];
        }
      }
      assert rpo[..|rpo|] == rpo;
    }
  }

  lemma NothingListed(rpo: seq<BlockWithIndex>)
    ensures BlocksOf(rpo[..0]) == []
  {
  }

  lemma NextListed(rpo: seq<BlockWithIndex>, k: nat)
    requires k < |rpo|
    ensures BlocksOf(rpo[..k + 1]) == BlocksOf(rpo[..k]) + [rpo[k].0] && rpo[k].0 in BlocksOf(rpo)
  {
    assert BlocksOf(rpo)[k] == rpo[k].0;
  }

  lemma AllListed(es: Edges, s: Block, rpo: seq<BlockWithIndex>, lists: Info, info: Info, b: Block)
    requires ListsUpTo(es, s, rpo, |rpo|, lists) && b in BlocksOf(rpo) && info.dominators == lists.dominators
    ensures info.Dominators(b) == DominatorsOf(es, s, rpo, b)
  {
    hide SDom;
    assert ListedUpTo(es, s, rpo, |rpo|, lists, b);
    assert rpo[..|rpo|] == rpo;
  }
}
