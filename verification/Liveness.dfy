/** Position numbering and live ranges in one reverse pass (Analyzers/livenessAnalyzer.cpp). */
module Liveness {
  import opened Util
  import opened Cfg
  import opened Rpo
  import opened Ir
  import opened Loops
  import opened LinearOrder
  import opened LiveRanges

  /** The block line and the positions given to blocks and instructions. */
  datatype Layout = Layout(order: seq<Block>, at: map<Block, Interval>, live: map<Id, nat>) {
    function Start(b: Block): nat {
      if b in at then at[b].0 else 0
    }

    function End(b: Block): nat {
      if b in at then at[b].1 else 0
    }

    function Live(v: Id): nat {
      if v in live then live[v] else 0
    }

    function Index(b: Block): nat {
      if b in order then FirstIndex(order, b) else |order|
    }
  }

  /** The first position of the `k`-th block of the line. */
  function StartAt(p: Prog, order: seq<Block>, k: nat): nat
    requires k <= |order|
  {
    if k == 0 then 0 else StartAt(p, order, k - 1) + 2 * |p.Body(order[k - 1])| + 2
  }

  /** Blocks tile the line; phis share the start of their block, the others follow at even distances. */
  ghost predicate Numbered(p: Prog, lay: Layout) {
    forall k :: 0 <= k < |lay.order| ==> BlockNumbered(p, lay, k)
  }

  ghost predicate BlockNumbered(p: Prog, lay: Layout, k: nat)
    requires k < |lay.order|
  {
    var b := lay.order[k];
    && b in lay.at && lay.at[b] == (StartAt(p, lay.order, k), StartAt(p, lay.order, k + 1))
    && (forall v :: v in p.Phis(b) ==> v in lay.live && lay.live[v] == StartAt(p, lay.order, k))
    && (forall m :: 0 <= m < |p.Body(b)| ==>
          p.Body(b)[m] in lay.live && lay.live[p.Body(b)[m]] == StartAt(p, lay.order, k) + 2 * m + 2)
  }

  lemma {:induction false} StartAtGrows(p: Prog, order: seq<Block>, i: nat, j: nat)
    requires i <= j <= |order|
    ensures StartAt(p, order, i) <= StartAt(p, order, j)
    ensures StartAt(p, order, i) % 2 == 0
    decreases j
  {
    if i < j {
      StartAtGrows(p, order, i, j - 1);
    } else if j > 0 {
      StartAtGrows(p, order, i - 1, j - 1);
    }
  }

  /** Positions of a block of the line. */
  lemma BlockPositions(p: Prog, lay: Layout, b: Block)
    requires Numbered(p, lay) && b in lay.order
    ensures lay.End(b) == lay.Start(b) + 2 * |p.Body(b)| + 2 && lay.Start(b) % 2 == 0
    ensures forall v :: v in p.Phis(b) ==> lay.Live(v) == lay.Start(b)
    ensures forall m :: 0 <= m < |p.Body(b)| ==> lay.Live(p.Body(b)[m]) == lay.Start(b) + 2 * m + 2
  {
    var k := FirstIndex(lay.order, b);
    assert BlockNumbered(p, lay, k);
    StartAtGrows(p, lay.order, k, k);
  }

  lemma LaterBlock(p: Prog, lay: Layout, b: Block, c: Block)
    requires Numbered(p, lay) && b in lay.order && c in lay.order && lay.Index(b) < lay.Index(c)
    ensures lay.End(b) <= lay.Start(c)
  {
    assert BlockNumbered(p, lay, lay.Index(b)) && BlockNumbered(p, lay, lay.Index(c));
    StartAtGrows(p, lay.order, lay.Index(b) + 1, lay.Index(c));
  }

  // ---------- the sets the pass computes ----------

  /** Values read by phis of successors along the edges from `b`. */
  function PhiOut(p: Prog, b: Block): set<Id> {
    set c, q, j | c in p.g.Succs(b) && q in p.Phis(c) && 0 <= j < |p.Inputs(q)| && j < |p.g.Preds(c)| &&
      p.g.Preds(c)[j] == b
      :: p.Inputs(q)[j]
  }

  /** The live set at the end of `b`: what successors later in the line have live at their start, and phi inputs. */
  ghost function Out(p: Prog, order: seq<Block>, li: map<Block, set<Id>>, b: Block): set<Id> {
    (set c, v | c in li && v in li[c] && Follows(p, order, b, c) :: v) + PhiOut(p, b)
  }

  /** `c` is a successor of `b` placed later in the line. */
  ghost predicate Follows(p: Prog, order: seq<Block>, b: Block, c: Block) {
    c in p.g.Succs(b) && b in order && c in order && FirstIndex(order, b) < FirstIndex(order, c)
  }

  /** The inputs of the body from position `j` on. */
  ghost function UsesFrom(p: Prog, b: Block, j: nat): set<Id> {
    set m, v | j <= m < |p.Body(b)| && v in p.Inputs(p.Body(b)[m]) :: v
  }

  ghost function Defs(p: Prog, b: Block): set<Id> {
    Elems(p.Phis(b)) + Elems(p.Body(b))
  }

  ghost predicate LiveInAt(p: Prog, order: seq<Block>, li: map<Block, set<Id>>, b: Block) {
    b in li && li[b] == Out(p, order, li, b) + UsesFrom(p, b, 0) - Defs(p, b)
  }

  // ---------- what a block asks of a range ----------

  /** GetLoopEndPos: the largest end among the loop's own nodes. */
  function LoopEnd(lay: Layout, info: LoopInfo, h: Block): nat {
    if h in info.loopOf && info.loopOf[h] < |info.loops| then MaxEnd(lay, info.loops[info.loopOf[h]].nodes) else 0
  }

  ghost predicate IsMaxEnd(lay: Layout, nodes: set<Block>, m: nat) {
    && (forall b :: b in nodes ==> lay.End(b) <= m)
    && (m == 0 || exists b :: b in nodes && lay.End(b) == m)
  }

  function MaxEnd(lay: Layout, nodes: set<Block>): (m: nat)
    ensures IsMaxEnd(lay, nodes, m)
  {
    var ends := set b | b in nodes :: lay.End(b);
    MaxExists(ends + {0});
    assert forall b :: b in nodes ==> lay.End(b) in ends;
    var m: nat :| m in ends + {0} && forall e :: e in ends + {0} ==> e <= m;
    m
  }

  lemma {:induction false} MaxExists(s: set<nat>)
    requires s != {}
    ensures exists m :: m in s && forall e :: e in s ==> e <= m
  {
    var x :| x in s;
    if s - {x} == {} {
      assert s == {x};
    } else {
      MaxExists(s - {x});
      var m :| m in s - {x} && forall e :: e in s - {x} ==> e <= m;
      var top := if m < x then x else m;
      forall e | e in s ensures e <= top {
        assert e == x || e in s - {x};
      }
    }
  }

  /** Where the part of `v`'s range inside `b` has to start. */
  function Lo(p: Prog, lay: Layout, b: Block, v: Id): nat {
    if v in p.Body(b) then lay.Live(v) else lay.Start(b)
  }

  /** `b` asks the range of `v` to reach from Lo to `hi`. */
  ghost predicate Asks(p: Prog, lay: Layout, info: LoopInfo, li: map<Block, set<Id>>, b: Block, v: Id, hi: nat) {
    || (v in Out(p, lay.order, li, b) && hi == lay.End(b))
    || UsedAt(p, lay, b, 0, v, hi)
    || (IsLoopHeader(info, b) && b in li && v in li[b] && hi == LoopEnd(lay, info, b))
  }

  ghost predicate UsedAt(p: Prog, lay: Layout, b: Block, j: nat, v: Id, hi: nat) {
    exists m :: j <= m < |p.Body(b)| && v in p.Inputs(p.Body(b)[m]) && hi == lay.Live(p.Body(b)[m])
  }

  // ---------- hypotheses on the line ----------

  /** What the pass is given: a strict SSA graph without parallel edges, and a line of all its blocks in
      which dominators come first and a loop does not end before its header. */
  ghost predicate Lined(p: Prog, s: Block, order: seq<Block>) {
    && p.g.Closed() && p.g.Mirrored() && p.Ssa(s) && p.NoParallelEdges()
    && Distinct(order) && (forall b :: b in order <==> b in p.g.blocks)
    && (forall b :: b in p.g.blocks ==> Reach(p.Edges(), s, b))
    && DominatorsFirst(p.Edges(), s, order)
  }

  ghost predicate DominatorsFirst(es: Edges, s: Block, order: seq<Block>) {
    forall d, b :: b in order && SDom(es, s, d, b) ==> Precedes(order, d, b)
  }

  ghost predicate HeadersFirst(lay: Layout, info: LoopInfo) {
    forall h :: h in lay.order && IsLoopHeader(info, h) ==> lay.Start(h) <= LoopEnd(lay, info, h)
  }

  /** Values live at the start of a block are defined strictly above it. */
  ghost predicate LiveInsAbove(p: Prog, s: Block, li: map<Block, set<Id>>) {
    forall c, x :: c in li && x in li[c] ==> x in p.code && SDom(p.Edges(), s, p.code[x].bb, c)
  }

  /** A value that reaches the end of a block, or is read in it, is defined in a block that dominates it. */
  lemma OutDominated(p: Prog, s: Block, order: seq<Block>, li: map<Block, set<Id>>, b: Block, v: Id)
    requires Lined(p, s, order) && v in Out(p, order, li, b)
    requires LiveInsAbove(p, s, li)
    ensures v in p.code && Dom(p.Edges(), s, p.code[v].bb, b)
  {
    if v in PhiOut(p, b) {
      var c, q, j :| c in p.g.Succs(b) && q in p.Phis(c) && 0 <= j < |p.Inputs(q)| && j < |p.g.Preds(c)| &&
                     p.g.Preds(c)[j] == b && p.Inputs(q)[j] == v;
      assert p.Available(s, p.Inputs(q)[j], p.g.Preds(c)[j], |p.Body(b)|);
    } else {
      var c :| c in li && v in li[c] && Follows(p, order, b, c);
      EdgeIsSucc(p.g, b, c);
      DomPred(p.Edges(), s, p.code[v].bb, b, c);
    }
  }

  lemma UseDominated(p: Prog, s: Block, b: Block, m: nat, v: Id)
    requires p.Ssa(s) && m < |p.Body(b)| && v in p.Inputs(p.Body(b)[m])
    ensures v in p.code && Dom(p.Edges(), s, p.code[v].bb, b)
    ensures v !in p.Body(b)[m..]
  {
    assert p.Available(s, v, b, m);
    DistinctSplit(p.Body(b), m, v);
    assert v in p.Body(b)[m..] ==> v in p.Body(b);
  }

  /** Being live at the start of a block means being defined strictly above it. */
  lemma LiveInDominated(p: Prog, s: Block, order: seq<Block>, li: map<Block, set<Id>>, b: Block, v: Id)
    requires Lined(p, s, order)
    requires LiveInsAbove(p, s, li)
    requires v in Out(p, order, li, b) + UsesFrom(p, b, 0) - Defs(p, b)
    ensures v in p.code && SDom(p.Edges(), s, p.code[v].bb, b)
  {
    if v in Out(p, order, li, b) {
      OutDominated(p, s, order, li, b, v);
    } else {
      var m :| 0 <= m < |p.Body(b)| && v in p.Inputs(p.Body(b)[m]);
      UseDominated(p, s, b, m, v);
    }
    assert p.code[v].bb == b ==> v in p.Phis(b) || v in p.Body(b);
  }

  // ---------- the intervals after the blocks from the k-th on have been processed ----------

  /** An end of `v`'s range that some processed block accounts for. */
  ghost predicate EndFrom(p: Prog, lay: Layout, info: LoopInfo, li: map<Block, set<Id>>, b: Block, v: Id, hi: nat) {
    Asks(p, lay, info, li, b, v, hi) || (v in p.Body(b) && hi == lay.Live(v))
  }

  ghost predicate Met(ivs: set<Interval>, lo: nat, hi: nat) {
    exists iv :: iv in ivs && iv.0 <= lo && iv.1 == hi
  }

  /** What block `j` of the line asks has been added. */
  ghost predicate AsksMet(p: Prog, lay: Layout, info: LoopInfo, li: map<Block, set<Id>>, j: nat, v: Id,
                          ivs: set<Interval>)
    requires j < |lay.order|
  {
    && (forall hi :: Asks(p, lay, info, li, lay.order[j], v, hi) ==> Met(ivs, Lo(p, lay, lay.order[j], v), hi))
    && (v in p.Body(lay.order[j]) ==> ivs != {})
  }

  /** Every interval added so far is accounted for by a processed block and starts no earlier than the definition. */
  ghost predicate Accounted(p: Prog, lay: Layout, info: LoopInfo, li: map<Block, set<Id>>, k: nat, v: Id,
                            iv: Interval) {
    && iv.0 <= iv.1
    && (exists j :: k <= j < |lay.order| && EndFrom(p, lay, info, li, lay.order[j], v, iv.1))
    && (k < |lay.order| && iv.0 >= lay.Start(lay.order[k]))
    && (k <= lay.Index(p.BlockOf(v)) ==> iv.0 >= lay.Live(v))
  }

  ghost predicate IntervalsInv(p: Prog, lay: Layout, info: LoopInfo, li: map<Block, set<Id>>, k: nat, v: Id,
                               ivs: set<Interval>) {
    && (forall j :: k <= j < |lay.order| ==> AsksMet(p, lay, info, li, j, v, ivs))
    && (forall iv :: iv in ivs ==> Accounted(p, lay, info, li, k, v, iv))
  }

  // ---------- what processing one block does to the intervals of one value ----------

  /** The intervals for the uses in the body from position `j` on. */
  ghost function UseIntervals(p: Prog, lay: Layout, b: Block, j: nat, v: Id): set<Interval> {
    set m | j <= m < |p.Body(b)| && v in p.Inputs(p.Body(b)[m]) :: (lay.Start(b), lay.Live(p.Body(b)[m]))
  }

  ghost function Base(p: Prog, lay: Layout, out: set<Id>, b: Block, j: nat, v: Id, ivs: set<Interval>): set<Interval> {
    ivs + (if v in out then {(lay.Start(b), lay.End(b))} else {}) + UseIntervals(p, lay, b, j, v)
  }

  /** After the body positions from `j` on have been walked. */
  ghost function Walked(p: Prog, lay: Layout, out: set<Id>, b: Block, j: nat, v: Id,
                        ivs: set<Interval>): set<Interval> {
    if j <= |p.Body(b)| && v in p.Body(b)[j..]
      then Shortened(Base(p, lay, out, b, j, v, ivs), lay.Start(b), lay.Live(v))
    else Base(p, lay, out, b, j, v, ivs)
  }

  /** After the whole block has been processed. */
  ghost function Processed(p: Prog, lay: Layout, info: LoopInfo, li: map<Block, set<Id>>, b: Block, v: Id,
                           ivs: set<Interval>): set<Interval> {
    Walked(p, lay, Out(p, lay.order, li, b), b, 0, v, ivs) +
    (if IsLoopHeader(info, b) && b in li && v in li[b] then {(lay.Start(b), LoopEnd(lay, info, b))} else {})
  }

  lemma WalkedEnd(p: Prog, lay: Layout, out: set<Id>, b: Block, v: Id, ivs: set<Interval>)
    ensures Walked(p, lay, out, b, |p.Body(b)|, v, ivs) ==
            ivs + (if v in out then {(lay.Start(b), lay.End(b))} else {})
  {
    assert UseIntervals(p, lay, b, |p.Body(b)|, v) == {};
  }

  lemma UseIntervalsStep(p: Prog, lay: Layout, b: Block, j: nat, v: Id)
    requires j < |p.Body(b)|
    ensures UseIntervals(p, lay, b, j, v) == UseIntervals(p, lay, b, j + 1, v) +
              (if v in p.Inputs(p.Body(b)[j]) then {(lay.Start(b), lay.Live(p.Body(b)[j]))} else {})
  {
  }

  /** One instruction: its own intervals are shortened, then its inputs get theirs. */
  lemma WalkedStep(p: Prog, s: Block, lay: Layout, out: set<Id>, b: Block, j: nat, v: Id, ivs: set<Interval>)
    requires p.Ssa(s) && j < |p.Body(b)|
    ensures var d := p.Body(b)[j];
            var w := Walked(p, lay, out, b, j + 1, v, ivs);
            Walked(p, lay, out, b, j, v, ivs) ==
              if v == d then Shortened(w, lay.Start(b), lay.Live(d))
              else if v in p.Inputs(d) then w + {(lay.Start(b), lay.Live(d))}
              else w
  {
    hide Shortened, Base;
    var d := p.Body(b)[j];
    DistinctSplit(p.Body(b), j, v);
    assert p.Body(b)[j..] == [d] + p.Body(b)[j + 1..];
    if v in p.Inputs(d) {
      UseDominated(p, s, b, j, v);
    }
    hide *;
    WalkedCases(p, lay, out, b, j, v, ivs);
  }

  lemma WalkedCases(p: Prog, lay: Layout, out: set<Id>, b: Block, j: nat, v: Id, ivs: set<Interval>)
    requires j < |p.Body(b)| && p.Body(b)[j] !in p.Body(b)[j + 1..]
    requires v in p.Inputs(p.Body(b)[j]) ==> v !in p.Body(b)[j..]
    ensures var d := p.Body(b)[j];
            var w := Walked(p, lay, out, b, j + 1, v, ivs);
            Walked(p, lay, out, b, j, v, ivs) ==
              if v == d then Shortened(w, lay.Start(b), lay.Live(d))
              else if v in p.Inputs(d) then w + {(lay.Start(b), lay.Live(d))}
              else w
  {
    hide Shortened;
    var d := p.Body(b)[j];
    UseIntervalsStep(p, lay, b, j, v);
    assert p.Body(b)[j..] == [d] + p.Body(b)[j + 1..];
    assert v in p.Body(b)[j..] <==> v == d || v in p.Body(b)[j + 1..];
    var base0, base1 := Base(p, lay, out, b, j + 1, v, ivs), Base(p, lay, out, b, j, v, ivs);
    assert base1 == base0 + (if v in p.Inputs(d) then {(lay.Start(b), lay.Live(d))} else {});
    assert v !in p.Inputs(d) ==> base1 == base0;
  }

  // ---------- one block keeps the interval invariant ----------

  /** The live-in map once `b` has been added to it. */
  ghost function AddLiveIn(p: Prog, order: seq<Block>, li: map<Block, set<Id>>, b: Block): map<Block, set<Id>> {
    li[b := Out(p, order, li, b) + UsesFrom(p, b, 0) - Defs(p, b)]
  }

  /** Live-in sets exist for the processed blocks, and hold values defined strictly above them. */
  ghost predicate LiveInsInv(p: Prog, s: Block, order: seq<Block>, li: map<Block, set<Id>>, k: nat)
    requires k <= |order|
  {
    && li.Keys == Elems(order[k..])
    && LiveInsAbove(p, s, li)
    && (forall j :: k <= j < |order| ==> LiveInAt(p, order, li, order[j]))
  }

  /** Adding the live-in set of an earlier block does not change what later blocks have live at their end. */
  lemma OutKept(p: Prog, order: seq<Block>, li: map<Block, set<Id>>, k: nat, x: set<Id>, j: nat)
    requires Distinct(order) && k <= j < |order| && order[k] !in li
    ensures Out(p, order, li[order[k] := x], order[j]) == Out(p, order, li, order[j])
  {
    IndexUnique(order, j);
    IndexUnique(order, k);
    var li' := li[order[k] := x];
    assert !Follows(p, order, order[j], order[k]);
    forall v ensures v in Out(p, order, li', order[j]) <==> v in Out(p, order, li, order[j]) {
      if c :| c in li && v in li[c] && Follows(p, order, order[j], c) {
        assert c in li' && v in li'[c];
      }
    }
  }

  lemma AsksKept(p: Prog, lay: Layout, info: LoopInfo, li: map<Block, set<Id>>, k: nat, x: set<Id>, j: nat, v: Id,
                 hi: nat)
    requires Distinct(lay.order) && k < j < |lay.order| && lay.order[k] !in li
    ensures Asks(p, lay, info, li[lay.order[k] := x], lay.order[j], v, hi) <==>
              Asks(p, lay, info, li, lay.order[j], v, hi)
  {
    OutKept(p, lay.order, li, k, x, j);
  }

  lemma LiveInsAboveStep(p: Prog, s: Block, order: seq<Block>, li: map<Block, set<Id>>, b: Block)
    requires Lined(p, s, order) && LiveInsAbove(p, s, li)
    ensures LiveInsAbove(p, s, AddLiveIn(p, order, li, b))
  {
    hide Lined, Reach, Dom, Out, Defs;
    var li' := AddLiveIn(p, order, li, b);
    forall c, x | c in li' && x in li'[c] ensures x in p.code && SDom(p.Edges(), s, p.code[x].bb, c) {
      if c == b {
        LiveInDominated(p, s, order, li, b, x);
      }
    }
  }

  lemma LiveInsStep(p: Prog, s: Block, order: seq<Block>, li: map<Block, set<Id>>, k: nat)
    requires Lined(p, s, order) && k < |order| && LiveInsInv(p, s, order, li, k + 1)
    ensures order[k] !in li && LiveInsInv(p, s, order, AddLiveIn(p, order, li, order[k]), k)
  {
    var b := order[k];
    var li' := AddLiveIn(p, order, li, b);
    assert order[k..] == [b] + order[k + 1..];
    DistinctSplit(order, k, b);
    assert li'.Keys == Elems(order[k..]);
    LiveInsAboveStep(p, s, order, li, b);
    hide Lined, Reach, Dom, Out, Defs, LiveInsAbove;
    forall j | k <= j < |order| ensures LiveInAt(p, order, li', order[j]) {
      LiveInKept(p, s, order, li, k, j);
    }
  }

  lemma LiveInKept(p: Prog, s: Block, order: seq<Block>, li: map<Block, set<Id>>, k: nat, j: nat)
    requires Distinct(order) && k <= j < |order| && order[k] !in li && LiveInsInv(p, s, order, li, k + 1)
    ensures LiveInAt(p, order, AddLiveIn(p, order, li, order[k]), order[j])
  {
    hide Reach, Dom, Out, Defs, LiveInsAbove;
    OutKept(p, order, li, k, AddLiveIn(p, order, li, order[k])[order[k]], j);
    if j > k {
      assert LiveInAt(p, order, li, order[j]);
      InTail(order, k + 1, j);
    }
  }

  /** What one block leaves in the intervals of `v`. */
  lemma ProcessedHas(p: Prog, lay: Layout, info: LoopInfo, li: map<Block, set<Id>>, b: Block, v: Id,
                     ivs: set<Interval>, iv: Interval)
    requires forall i :: i in ivs ==> i.0 != lay.Start(b)
    ensures iv in ivs ==> iv in Processed(p, lay, info, li, b, v, ivs)
    ensures v in p.Body(b) ==> Processed(p, lay, info, li, b, v, ivs) != {}
  {
    if v in p.Body(b) {
      assert p.Body(b)[0..] == p.Body(b);
      var base := Base(p, lay, Out(p, lay.order, li, b), b, 0, v, ivs);
      if base == {} {
        assert (lay.Live(v), lay.Live(v)) in Processed(p, lay, info, li, b, v, ivs);
      } else {
        var i :| i in base;
        assert ShortenOne(i, lay.Start(b), lay.Live(v)) in Processed(p, lay, info, li, b, v, ivs);
      }
      if iv in ivs {
        assert iv in base && ShortenOne(iv, lay.Start(b), lay.Live(v)) == iv;
      }
    }
  }

  lemma ProcessedMeetsAsks(p: Prog, lay: Layout, info: LoopInfo, li: map<Block, set<Id>>, b: Block, v: Id,
                           ivs: set<Interval>, hi: nat)
    requires LiveInAt(p, lay.order, li, b) && Asks(p, lay, info, li, b, v, hi)
    ensures (Lo(p, lay, b, v), hi) in Processed(p, lay, info, li, b, v, ivs)
  {
    var out, start := Out(p, lay.order, li, b), lay.Start(b);
    var base := Base(p, lay, out, b, 0, v, ivs);
    assert p.Body(b)[0..] == p.Body(b);
    if (v in out && hi == lay.End(b)) || UsedAt(p, lay, b, 0, v, hi) {
      if UsedAt(p, lay, b, 0, v, hi) {
        var m :| 0 <= m < |p.Body(b)| && v in p.Inputs(p.Body(b)[m]) && hi == lay.Live(p.Body(b)[m]);
        assert (start, hi) in UseIntervals(p, lay, b, 0, v);
      }
      assert (start, hi) in base;
      if v in p.Body(b) {
        assert ShortenOne((start, hi), start, lay.Live(v)) in Shortened(base, start, lay.Live(v));
      }
    }
  }

  lemma ProcessedOnly(p: Prog, lay: Layout, info: LoopInfo, li: map<Block, set<Id>>, b: Block, v: Id,
                      ivs: set<Interval>, iv: Interval)
    requires LiveInAt(p, lay.order, li, b) && iv in Processed(p, lay, info, li, b, v, ivs)
    requires forall i :: i in ivs ==> i.0 != lay.Start(b)
    ensures || iv in ivs
            || (iv.0 == Lo(p, lay, b, v) && Asks(p, lay, info, li, b, v, iv.1))
            || (v in p.Body(b) && iv == (lay.Live(v), lay.Live(v)))
  {
    var out, start := Out(p, lay.order, li, b), lay.Start(b);
    var base := Base(p, lay, out, b, 0, v, ivs);
    assert p.Body(b)[0..] == p.Body(b);
    if iv in Walked(p, lay, out, b, 0, v, ivs) {
      var i: Interval := iv;
      if v in p.Body(b) && base != {} {
        i :| i in base && iv == ShortenOne(i, start, lay.Live(v));
      }
      if i in UseIntervals(p, lay, b, 0, v) {
        var m :| 0 <= m < |p.Body(b)| && v in p.Inputs(p.Body(b)[m]) && i == (start, lay.Live(p.Body(b)[m]));
        assert UsedAt(p, lay, b, 0, v, i.1);
      }
    }
  }

  /** The dominating definition is in this block or in an earlier one. */
  lemma DefinitionIndex(p: Prog, s: Block, lay: Layout, k: nat, v: Id)
    requires Lined(p, s, lay.order) && k < |lay.order| && v in p.code
    requires Dom(p.Edges(), s, p.code[v].bb, lay.order[k])
    ensures lay.Index(p.BlockOf(v)) <= k
    ensures lay.Index(p.BlockOf(v)) == k ==> p.BlockOf(v) == lay.order[k]
  {
    var d := p.code[v].bb;
    IndexUnique(lay.order, k);
    if d != lay.order[k] {
      assert SDom(p.Edges(), s, d, lay.order[k]);
      assert Precedes(lay.order, d, lay.order[k]);
      var i, j :| 0 <= i < j < |lay.order| && lay.order[i] == d && lay.order[j] == lay.order[k];
      IndexUnique(lay.order, i);
      IndexUnique(lay.order, j);
    }
  }

  lemma AskDominated(p: Prog, s: Block, lay: Layout, info: LoopInfo, li: map<Block, set<Id>>, k: nat, v: Id, hi: nat)
    requires Lined(p, s, lay.order) && k < |lay.order| && LiveInsInv(p, s, lay.order, li, k)
    requires Asks(p, lay, info, li, lay.order[k], v, hi)
    ensures v in p.code && Dom(p.Edges(), s, p.code[v].bb, lay.order[k])
  {
    hide Lined, Reach, Out, Defs;
    var b := lay.order[k];
    if v in Out(p, lay.order, li, b) {
      OutDominated(p, s, lay.order, li, b, v);
    } else if UsedAt(p, lay, b, 0, v, hi) {
      var m :| 0 <= m < |p.Body(b)| && v in p.Inputs(p.Body(b)[m]) && hi == lay.Live(p.Body(b)[m]);
      UseAbove(p, s, lay.order, b, m, v);
    }
  }

  lemma UseAbove(p: Prog, s: Block, order: seq<Block>, b: Block, m: nat, v: Id)
    requires Lined(p, s, order) && m < |p.Body(b)| && v in p.Inputs(p.Body(b)[m])
    ensures v in p.code && Dom(p.Edges(), s, p.code[v].bb, b)
  {
    UseDominated(p, s, b, m, v);
  }

  /** An asked end lies at or after the start the block asks for. */
  lemma AskOrdered(p: Prog, s: Block, lay: Layout, info: LoopInfo, li: map<Block, set<Id>>, k: nat, v: Id, hi: nat)
    requires Lined(p, s, lay.order) && Numbered(p, lay) && HeadersFirst(lay, info)
    requires k < |lay.order| && LiveInsInv(p, s, lay.order, li, k)
    requires Asks(p, lay, info, li, lay.order[k], v, hi)
    ensures lay.Start(lay.order[k]) <= Lo(p, lay, lay.order[k], v) <= hi
  {
    hide LiveInsInv, Numbered, Lined, Reach, Dom, Out, Defs;
    var b := lay.order[k];
    BlockPositions(p, lay, b);
    if v in p.Body(b) {
      var i := FirstIndex(p.Body(b), v);
      if UsedAt(p, lay, b, 0, v, hi) {
        var m :| 0 <= m < |p.Body(b)| && v in p.Inputs(p.Body(b)[m]) && hi == lay.Live(p.Body(b)[m]);
        UseBefore(p, s, lay.order, b, m, v);
        NotInTail(p.Body(b), m, i);
      } else {
        HeaderLiveInNotDefined(p, s, lay.order, li, k, v);
      }
    }
  }

  lemma UseBefore(p: Prog, s: Block, order: seq<Block>, b: Block, m: nat, v: Id)
    requires Lined(p, s, order) && m < |p.Body(b)| && v in p.Inputs(p.Body(b)[m])
    ensures v !in p.Body(b)[m..]
  {
    UseDominated(p, s, b, m, v);
  }

  lemma HeaderLiveInNotDefined(p: Prog, s: Block, order: seq<Block>, li: map<Block, set<Id>>, k: nat, v: Id)
    requires k < |order| && LiveInsInv(p, s, order, li, k) && v in p.Body(order[k])
    ensures order[k] in li && v !in li[order[k]]
  {
    assert LiveInAt(p, order, li, order[k]);
  }

  lemma AskAccounted(p: Prog, s: Block, lay: Layout, info: LoopInfo, li: map<Block, set<Id>>, k: nat, v: Id, hi: nat)
    requires Lined(p, s, lay.order) && Numbered(p, lay) && HeadersFirst(lay, info)
    requires k < |lay.order| && LiveInsInv(p, s, lay.order, li, k)
    requires Asks(p, lay, info, li, lay.order[k], v, hi)
    ensures Accounted(p, lay, info, li, k, v, (Lo(p, lay, lay.order[k], v), hi))
  {
    hide *;
    AskDominated(p, s, lay, info, li, k, v, hi);
    DefinitionIndex(p, s, lay, k, v);
    AskOrdered(p, s, lay, info, li, k, v, hi);
    PhiOrBody(p, s, lay.order, v);
    AccountedBy(p, lay, info, li, k, v, hi);
  }

  lemma AccountedBy(p: Prog, lay: Layout, info: LoopInfo, li: map<Block, set<Id>>, k: nat, v: Id, hi: nat)
    requires Numbered(p, lay) && k < |lay.order| && Asks(p, lay, info, li, lay.order[k], v, hi)
    requires lay.Start(lay.order[k]) <= Lo(p, lay, lay.order[k], v) <= hi
    requires lay.Index(p.BlockOf(v)) <= k
    requires lay.Index(p.BlockOf(v)) == k ==> p.BlockOf(v) == lay.order[k]
    requires v in p.Phis(p.BlockOf(v)) || v in p.Body(p.BlockOf(v))
    ensures Accounted(p, lay, info, li, k, v, (Lo(p, lay, lay.order[k], v), hi))
  {
    BlockPositions(p, lay, lay.order[k]);
    hide Asks, Numbered;
    assert EndFrom(p, lay, info, li, lay.order[k], v, hi);
  }

  lemma PhiOrBody(p: Prog, s: Block, order: seq<Block>, v: Id)
    requires Lined(p, s, order) && v in p.code
    ensures v in p.Phis(p.BlockOf(v)) || v in p.Body(p.BlockOf(v))
  {
  }

  /** Processing block `k` of the line extends the interval invariant to it. */
  lemma IntervalsStep(p: Prog, s: Block, lay: Layout, info: LoopInfo, li: map<Block, set<Id>>, k: nat, v: Id,
                      ivs: set<Interval>)
    requires Lined(p, s, lay.order) && Numbered(p, lay) && HeadersFirst(lay, info)
    requires k < |lay.order| && LiveInsInv(p, s, lay.order, li, k + 1)
    requires IntervalsInv(p, lay, info, li, k + 1, v, ivs) && v in p.code
    ensures var li' := AddLiveIn(p, lay.order, li, lay.order[k]);
            IntervalsInv(p, lay, info, li', k, v, Processed(p, lay, info, li', lay.order[k], v, ivs))
  {
    hide Lined, Numbered, HeadersFirst, LiveInsInv, AsksMet, Accounted, Processed, AddLiveIn;
    var b := lay.order[k];
    var li' := AddLiveIn(p, lay.order, li, b);
    LiveInsStep(p, s, lay.order, li, k);
    forall i | i in ivs ensures i.0 != lay.Start(b) {
      LaterIntervals(p, s, lay, info, li, k, v, i);
    }
    forall j | k <= j < |lay.order| ensures AsksMet(p, lay, info, li', j, v, Processed(p, lay, info, li', b, v, ivs)) {
      AsksStillMet(p, s, lay, info, li, k, v, ivs, j);
    }
    forall iv | iv in Processed(p, lay, info, li', b, v, ivs) ensures Accounted(p, lay, info, li', k, v, iv) {
      StillAccounted(p, s, lay, info, li, k, v, ivs, iv);
    }
  }

  /** Intervals from later blocks start after block `k` has ended. */
  lemma LaterIntervals(p: Prog, s: Block, lay: Layout, info: LoopInfo, li: map<Block, set<Id>>, k: nat, v: Id,
                       i: Interval)
    requires Lined(p, s, lay.order) && Numbered(p, lay) && k < |lay.order|
    requires Accounted(p, lay, info, li, k + 1, v, i)
    ensures i.0 >= lay.End(lay.order[k]) && lay.Start(lay.order[k]) < lay.End(lay.order[k])
  {
    hide EndFrom;
    IndexUnique(lay.order, k);
    IndexUnique(lay.order, k + 1);
    LaterBlock(p, lay, lay.order[k], lay.order[k + 1]);
    BlockPositions(p, lay, lay.order[k]);
  }

  lemma AsksStillMet(p: Prog, s: Block, lay: Layout, info: LoopInfo, li: map<Block, set<Id>>, k: nat, v: Id,
                     ivs: set<Interval>, j: nat)
    requires Lined(p, s, lay.order) && Numbered(p, lay) && k <= j < |lay.order|
    requires LiveInsInv(p, s, lay.order, li, k + 1) && lay.order[k] !in li
    requires IntervalsInv(p, lay, info, li, k + 1, v, ivs)
    requires LiveInsInv(p, s, lay.order, AddLiveIn(p, lay.order, li, lay.order[k]), k)
    requires forall i :: i in ivs ==> i.0 != lay.Start(lay.order[k])
    ensures var li' := AddLiveIn(p, lay.order, li, lay.order[k]);
            AsksMet(p, lay, info, li', j, v, Processed(p, lay, info, li', lay.order[k], v, ivs))
  {
    hide Numbered, Processed, Asks, Accounted, Dom, Reach, Lo;
    var b := lay.order[k];
    var li' := AddLiveIn(p, lay.order, li, b);
    var ivs' := Processed(p, lay, info, li', b, v, ivs);
    var c := lay.order[j];
    forall iv ensures iv in ivs ==> iv in ivs' {
      ProcessedHas(p, lay, info, li', b, v, ivs, iv);
    }
    ProcessedHas(p, lay, info, li', b, v, ivs, (0, 0));
    if j > k {
      assert AsksMet(p, lay, info, li, j, v, ivs);
    }
    forall hi | Asks(p, lay, info, li', c, v, hi) ensures Met(ivs', Lo(p, lay, c, v), hi) {
      if j == k {
        assert LiveInAt(p, lay.order, li', b);
        ProcessedMeetsAsks(p, lay, info, li', b, v, ivs, hi);
      } else {
        AsksKept(p, lay, info, li, k, li'[b], j, v, hi);
      }
    }
  }

  lemma StillAccounted(p: Prog, s: Block, lay: Layout, info: LoopInfo, li: map<Block, set<Id>>, k: nat, v: Id,
                       ivs: set<Interval>, iv: Interval)
    requires Lined(p, s, lay.order) && Numbered(p, lay) && HeadersFirst(lay, info) && k < |lay.order|
    requires LiveInsInv(p, s, lay.order, li, k + 1) && lay.order[k] !in li
    requires IntervalsInv(p, lay, info, li, k + 1, v, ivs) && v in p.code
    requires LiveInsInv(p, s, lay.order, AddLiveIn(p, lay.order, li, lay.order[k]), k)
    requires forall i :: i in ivs ==> i.0 != lay.Start(lay.order[k])
    requires iv in Processed(p, lay, info, AddLiveIn(p, lay.order, li, lay.order[k]), lay.order[k], v, ivs)
    ensures Accounted(p, lay, info, AddLiveIn(p, lay.order, li, lay.order[k]), k, v, iv)
  {
    hide Numbered, Processed, Asks, Accounted, Dom, Reach, Lo, AddLiveIn, Lined;
    var b := lay.order[k];
    var li' := AddLiveIn(p, lay.order, li, b);
    assert LiveInAt(p, lay.order, li', b);
    ProcessedOnly(p, lay, info, li', b, v, ivs, iv);
    if iv in ivs {
      AccountedKept(p, s, lay, info, li, k, v, iv);
    } else if iv.0 == Lo(p, lay, b, v) && Asks(p, lay, info, li', b, v, iv.1) {
      AskAccounted(p, s, lay, info, li', k, v, iv.1);
      assert iv == (Lo(p, lay, b, v), iv.1);
    } else {
      DefinitionAccounted(p, s, lay, info, li', k, v);
    }
  }

  lemma AccountedKept(p: Prog, s: Block, lay: Layout, info: LoopInfo, li: map<Block, set<Id>>, k: nat, v: Id,
                      iv: Interval)
    requires Lined(p, s, lay.order) && Numbered(p, lay) && k < |lay.order| && lay.order[k] !in li
    requires Accounted(p, lay, info, li, k + 1, v, iv) && v in p.code
    ensures Accounted(p, lay, info, AddLiveIn(p, lay.order, li, lay.order[k]), k, v, iv)
  {
    LaterIntervals(p, s, lay, info, li, k, v, iv);
    BlockPositions(p, lay, lay.order[k]);
    var j :| k + 1 <= j < |lay.order| && EndFrom(p, lay, info, li, lay.order[j], v, iv.1);
    hide Asks;
    AsksKept(p, lay, info, li, k, AddLiveIn(p, lay.order, li, lay.order[k])[lay.order[k]], j, v, iv.1);
    if lay.Index(p.BlockOf(v)) == k {
      DefinedWithin(p, s, lay, k, v);
    }
  }

  lemma DefinedWithin(p: Prog, s: Block, lay: Layout, k: nat, v: Id)
    requires Lined(p, s, lay.order) && Numbered(p, lay) && v in p.code
    requires k < |lay.order| && lay.Index(p.BlockOf(v)) == k
    ensures lay.Live(v) <= lay.End(lay.order[k])
  {
    BlockPositions(p, lay, lay.order[k]);
    PhiOrBody(p, s, lay.order, v);
    if v in p.Body(lay.order[k]) {
      var m := FirstIndex(p.Body(lay.order[k]), v);
    }
  }

  lemma DefinitionAccounted(p: Prog, s: Block, lay: Layout, info: LoopInfo, li: map<Block, set<Id>>, k: nat, v: Id)
    requires Lined(p, s, lay.order) && Numbered(p, lay) && k < |lay.order| && v in p.Body(lay.order[k])
    ensures Accounted(p, lay, info, li, k, v, (lay.Live(v), lay.Live(v)))
  {
    BlockPositions(p, lay, lay.order[k]);
    var m := FirstIndex(p.Body(lay.order[k]), v);
    assert EndFrom(p, lay, info, li, lay.order[k], v, lay.Live(v));
  }
}
