/** Running a graph on registers and stack slots instead of on values: every instruction reads its operands from
    their places and writes its result to its own (Analyzers/regAlloc.cpp:149-218). */
module PlaceRuns {
  import opened Util
  import opened Cfg
  import opened Ir
  import opened Loops
  import opened LinearOrder
  import opened LiveRanges
  import opened Liveness
  import opened LivenessPass
  import opened LivenessTheory
  import opened LivenessExact
  import opened Pools
  import opened RegAlloc
  import opened Pipeline
  import opened Semantics

  // ---------- whatever has a place is live where it is defined ----------

  /** The program point right after the definition of `v`. */
  function AfterDef(p: Prog, v: Id): nat {
    if v in p.Body(p.BlockOf(v)) then FirstIndex(p.Body(p.BlockOf(v)), v) + 1 else 0
  }

  /** A value live into a block that its definition dominates is live out of the block that defines it. */
  lemma LiveFromDef(p: Prog, s: Block, order: seq<Block>, q: seq<Block>, v: Id)
    requires Lined(p, s, order) && LivePath(p, q, v) && v in p.code
    requires Reach(p.Edges(), s, q[0]) && Dom(p.Edges(), s, p.code[v].bb, q[0])
    ensures LiveOut(p, p.code[v].bb, v)
  {
    hide Lined, ReadFrom, Defs, LiveOut;
    var es, d := p.Edges(), p.code[v].bb;
    var r :| PathTo(es, s, q[0], r);
    var i := LastIndex(r, d);
    PathSuffix(es, r, i);
    PathJoin(es, r[i..], q);
    var w := r[i..] + q[1..];
    DefinedOnce(p, s, order, q[0], v);
    assert q[0] in q;
    if i + 1 == |r| {
      assert r[i] == q[0];
      assert d == q[0];
      DefinesItself(p, s, order, v);
    }
    assert w[|w| - 1] == q[|q| - 1];
    PathSuffix(es, w, 1);
    forall x | x in w[1..] ensures v !in Defs(p, x) {
      DefinedOnce(p, s, order, x, v);
      TailOf(r, i, q, d, x);
    }
    LivePathOut(p, w, v);
  }

  lemma DefinedOnce(p: Prog, s: Block, order: seq<Block>, b: Block, v: Id)
    requires Lined(p, s, order) && v in p.code
    ensures v in Defs(p, b) ==> b == p.code[v].bb
  {
    DefinedAt(p, s, order, b, v);
  }

  lemma DefinesItself(p: Prog, s: Block, order: seq<Block>, v: Id)
    requires Lined(p, s, order) && v in p.code
    ensures v in Defs(p, p.code[v].bb)
  {
    PhiOrBody(p, s, order, v);
  }

  lemma TailOf(r: seq<Block>, i: nat, q: seq<Block>, d: Block, x: Block)
    requires i < |r| && r[i] == d && d !in r[i + 1..] && q != [] && x in (r[i..] + q[1..])[1..]
    ensures x != d || x in q
  {
    var w := r[i..] + q[1..];
    var k := FirstIndex(w[1..], x);
    assert w[k + 1] == x;
    if k + 1 < |r| - i {
      assert r[i + 1..][k] == x;
    } else {
      assert q[1..][k + 1 - (|r| - i)] == x;
    }
  }

  /** A value read in, or along an edge out of, a block that its definition dominates. */
  lemma ReadIsLive(p: Prog, s: Block, order: seq<Block>, b: Block, v: Id)
    requires Lined(p, s, order) && b in order && v in p.code && ReadFrom(p, b, v) && Dom(p.Edges(), s, p.code[v].bb, b)
    ensures b != p.code[v].bb ==> LiveOut(p, p.code[v].bb, v)
    ensures v in PhiOut(p, b) ==> LiveOut(p, p.code[v].bb, v)
  {
    hide Lined, ReadFrom, Defs, LiveOut, PhiOut;
    if b != p.code[v].bb {
      DefinedOnce(p, s, order, b, v);
      PathSingle(p.Edges(), b);
      LinedReached(p, s, order, b);
      LiveFromDef(p, s, order, [b], v);
    } else if v in PhiOut(p, b) {
      PhiOutIsLive(p, b, v);
    }
  }

  lemma PhiOutIsLive(p: Prog, b: Block, v: Id)
    requires v in PhiOut(p, b)
    ensures LiveOut(p, b, v)
  {
  }

  lemma LinedReached(p: Prog, s: Block, order: seq<Block>, b: Block)
    requires Lined(p, s, order) && b in order
    ensures Reach(p.Edges(), s, b) && b in p.g.blocks && Distinct(order)
  {
    hide Reach, Ir.Prog.Ssa, DominatorsFirst;
  }

  lemma LiveInReaches(p: Prog, s: Block, order: seq<Block>, li: map<Block, set<Id>>, c: Block, v: Id)
    requires Lined(p, s, order) && LiveInsInv(p, s, order, li, 0) && c in li && v in li[c]
    ensures v in p.code && LiveOut(p, p.code[v].bb, v)
  {
    hide Lined, LiveInsInv, LivePath, LiveOut, Reach, Dom;
    LiveInFacts(p, s, order, li, c, v);
    LinedReached(p, s, order, c);
    var q := LiveInIsLive(p, s, order, li, c, v);
    PathNonEmpty(p, q, v);
    LiveFromDef(p, s, order, q, v);
  }

  lemma PathNonEmpty(p: Prog, q: seq<Block>, v: Id)
    requires LivePath(p, q, v)
    ensures q != []
  {
    hide Defs, ReadFrom;
  }

  /** What a block asks for is asked for by a reader that the definition reaches. */
  lemma AskIsLive(p: Prog, s: Block, info: LoopInfo, lay: Layout, li: map<Block, set<Id>>, j: nat, v: Id, hi: nat)
    requires Lined(p, s, lay.order) && LiveInsInv(p, s, lay.order, li, 0) && j < |lay.order|
    requires v in p.code && Asks(p, lay, info, li, lay.order[j], v, hi)
    ensures LiveOut(p, p.code[v].bb, v) || (lay.order[j] == p.code[v].bb && v in UsesFrom(p, p.code[v].bb, 0))
  {
    hide Lined, LiveInsInv, LiveOut, Reach, Dom, PhiOut, Defs, UsesFrom, ReadFrom;
    var b := lay.order[j];
    if UsedAt(p, lay, b, 0, v, hi) {
      UsedIsRead(p, lay, b, v, hi);
      var m :| 0 <= m < |p.Body(b)| && v in p.Inputs(p.Body(b)[m]) && hi == lay.Live(p.Body(b)[m]);
      UseAbove(p, s, lay.order, b, m, v);
      ReadIsLive(p, s, lay.order, b, v);
    } else if v in Out(p, lay.order, li, b) {
      if v in PhiOut(p, b) {
        OutAbove(p, s, lay.order, li, b, v);
        PhiOutIsRead(p, b, v);
        ReadIsLive(p, s, lay.order, b, v);
      } else {
        var c :| c in li && v in li[c] && Follows(p, lay.order, b, c);
        LiveInReaches(p, s, lay.order, li, c, v);
      }
    } else {
      LiveInReaches(p, s, lay.order, li, b, v);
    }
  }

  lemma OutAbove(p: Prog, s: Block, order: seq<Block>, li: map<Block, set<Id>>, b: Block, v: Id)
    requires Lined(p, s, order) && LiveInsInv(p, s, order, li, 0) && v in Out(p, order, li, b)
    ensures v in p.code && Dom(p.Edges(), s, p.code[v].bb, b)
  {
    OutDominated(p, s, order, li, b, v);
  }

  lemma UsedIsRead(p: Prog, lay: Layout, b: Block, v: Id, hi: nat)
    requires UsedAt(p, lay, b, 0, v, hi)
    ensures v in UsesFrom(p, b, 0) && ReadFrom(p, b, v)
  {
  }

  lemma PhiOutIsRead(p: Prog, b: Block, v: Id)
    requires v in PhiOut(p, b)
    ensures ReadFrom(p, b, v)
  {
  }

  /** A non-empty range ends at something other than the definition, which some block asked for. */
  lemma RangeAsked(p: Prog, info: LoopInfo, lay: Layout, li: map<Block, set<Id>>, ranges: map<Id, LiveRange>,
                   v: Id) returns (j: nat)
    requires RangesInv(p, lay, info, li, 0, ranges) && RangeOf(ranges, v).0 != RangeOf(ranges, v).1
    ensures v in p.code && j < |lay.order| && Asks(p, lay, info, li, lay.order[j], v, RangeOf(ranges, v).1)
  {
    hide Asks;
    assert v in ranges.Keys;
    var lr := ranges[v];
    assert HullOk(lr) && IntervalsInv(p, lay, info, li, 0, v, Intervals(lr));
    var last :| last in lr.intervals && last.1 == lr.range.1;
    var first :| first in lr.intervals && first.0 == lr.range.0;
    assert last in Intervals(lr) && first in Intervals(lr);
    assert Accounted(p, lay, info, li, 0, v, last) && Accounted(p, lay, info, li, 0, v, first);
    j :| 0 <= j < |lay.order| && EndFrom(p, lay, info, li, lay.order[j], v, last.1);
  }

  /** An instruction with a non-empty range is live right after its definition. */
  lemma PlacedIsLive(p: Prog, s: Block, info: LoopInfo, lay: Layout, li: map<Block, set<Id>>,
                     ranges: map<Id, LiveRange>, v: Id)
    requires Analyzed(p, s, info, lay, li, ranges) && RangeOf(ranges, v).0 != RangeOf(ranges, v).1
    ensures v in p.code && LiveAt(p, p.code[v].bb, AfterDef(p, v), v)
  {
    hide Lined, LiveInsInv, RangesInv, Tame, BackEdgesAgree, ForwardOrdered, Numbered, LiveOut, Asks, UsesFrom, RangeOf;
    var j := RangeAsked(p, info, lay, li, ranges, v);
    AskIsLive(p, s, info, lay, li, j, v, RangeOf(ranges, v).1);
    var b, k := p.code[v].bb, AfterDef(p, v);
    LinedBody(p, s, lay.order, v);
    if v in UsesFrom(p, b, 0) {
      UseAfterDef(p, s, lay.order, v);
    }
  }

  lemma LinedBody(p: Prog, s: Block, order: seq<Block>, v: Id)
    requires Lined(p, s, order) && v in p.code
    ensures AfterDef(p, v) <= |p.Body(p.code[v].bb)| && v !in p.Body(p.code[v].bb)[AfterDef(p, v)..]
    ensures p.Ssa(s)
  {
    var body := p.Body(p.code[v].bb);
    assert Distinct(body);
    if v in body {
      DistinctSplit(body, FirstIndex(body, v), v);
    }
  }

  /** In its own block a value is read only after its definition. */
  lemma UseAfterDef(p: Prog, s: Block, order: seq<Block>, v: Id)
    requires Lined(p, s, order) && v in p.code && v in UsesFrom(p, p.code[v].bb, 0)
    ensures v in UsesFrom(p, p.code[v].bb, AfterDef(p, v))
  {
    LinedBody(p, s, order, v);
    hide Lined;
    var b := p.code[v].bb;
    var m :| 0 <= m < |p.Body(b)| && v in p.Inputs(p.Body(b)[m]);
    UseBefore(p, s, order, b, m, v);
    if v in p.Body(b) {
      NotInTail(p.Body(b), m, FirstIndex(p.Body(b), v));
    }
  }

  // ---------- the machine ----------

  /** Registers and stack slots, and the log of opaque operations. */
  type Cells = map<Place, Value>

  datatype Machine = Machine(cells: Cells, log: seq<Event>)

  datatype MachineConfig = MachineAt(b: Block, m: Machine) | MachineHalted(m: Machine)

  function Read(alloc: Allocation, cells: Cells, x: Id): Value {
    match PlaceOf(alloc, x)
    case Some(pl) => if pl in cells then cells[pl] else NullV
    case None => NullV
  }

  function ReadAll(alloc: Allocation, cells: Cells, xs: seq<Id>): (r: seq<Value>)
    ensures |r| == |xs| && forall i :: 0 <= i < |xs| ==> r[i] == Read(alloc, cells, xs[i])
  {
    if xs == [] then [] else [Read(alloc, cells, xs[0])] + ReadAll(alloc, cells, xs[1..])
  }

  /** A result goes to the place of the instruction, if it has one. */
  function Write(alloc: Allocation, cells: Cells, v: Id, x: Value): Cells {
    match PlaceOf(alloc, v)
    case Some(pl) => cells[pl := x]
    case None => cells
  }

  function MachineInstr(p: Prog, w: World, alloc: Allocation, m: Machine, v: Id): Machine {
    if v !in p.code || IsBranch(p.code[v].opcode) then m
    else
      var ins := p.code[v];
      var args := ReadAll(alloc, m.cells, ins.inputs);
      if IsPure(ins.opcode) then Machine(Write(alloc, m.cells, v, PureValue(w, ins, args)), m.log)
      else
        var log := m.log + [Event(v, args)];
        Machine(Write(alloc, m.cells, v, Coerce(ins.ty, w.result(log, v))), log)
  }

  function MachineTo(p: Prog, w: World, alloc: Allocation, m: Machine, b: Block, k: nat): Machine
    requires k <= |p.Body(b)|
  {
    if k == 0 then m else MachineInstr(p, w, alloc, MachineTo(p, w, alloc, m, b, k - 1), p.Body(b)[k - 1])
  }

  function MachineTaken(p: Prog, w: World, alloc: Allocation, cells: Cells, b: Block): Block
    requires p.g.Succs(b) != []
  {
    var succs := p.g.Succs(b);
    if |succs| == 1 || p.Body(b) == [] || MachineVerdict(p, w, alloc, cells, p.Body(b)[|p.Body(b)| - 1])
    then succs[0] else succs[1]
  }

  function MachineVerdict(p: Prog, w: World, alloc: Allocation, cells: Cells, v: Id): bool {
    v in p.code ==> Verdict(w, v, p.code[v], ReadAll(alloc, cells, p.code[v].inputs))
  }

  function MachinePhi(p: Prog, alloc: Allocation, cells: Cells, b: Block, c: Block, q: Id): Value {
    Coerce(if q in p.code then p.code[q].ty else NONE,
           match Incoming(p, b, c, q) case Some(x) => Read(alloc, cells, x) case None => NullV)
  }

  /** The first `i` phis of `c` are written; all read the cells as they were on the edge. */
  function WritePhis(p: Prog, alloc: Allocation, cells: Cells, b: Block, c: Block, i: nat): Cells
    requires i <= |p.Phis(c)|
  {
    if i == 0 then cells
    else Write(alloc, WritePhis(p, alloc, cells, b, c, i - 1), p.Phis(c)[i - 1],
               MachinePhi(p, alloc, cells, b, c, p.Phis(c)[i - 1]))
  }

  function MachineStep(p: Prog, w: World, alloc: Allocation, c: MachineConfig): MachineConfig {
    match c
    case MachineHalted(_) => c
    case MachineAt(b, m) =>
      var after := MachineTo(p, w, alloc, m, b, |p.Body(b)|);
      if p.g.Succs(b) == [] then MachineHalted(after)
      else
        var next := MachineTaken(p, w, alloc, after.cells, b);
        MachineAt(next, Machine(WritePhis(p, alloc, after.cells, b, next, |p.Phis(next)|), after.log))
  }

  function MachineExec(p: Prog, s: Block, w: World, alloc: Allocation, n: nat): MachineConfig {
    if n == 0 then MachineAt(s, Machine(map[], [])) else MachineStep(p, w, alloc, MachineExec(p, s, w, alloc, n - 1))
  }

  // ---------- the machine computes the same ----------

  /** Branches yield nothing to read. */
  ghost predicate BranchesUnread(p: Prog) {
    forall u, x :: x in p.Inputs(u) && x in p.code ==> !IsBranch(p.code[x].opcode)
  }

  lemma LiveIsRead(p: Prog, b: Block, k: nat, v: Id)
    requires LiveAt(p, b, k, v) && BranchesUnread(p) && v in p.code
    ensures !IsBranch(p.code[v].opcode)
  {
    if v in UsesFrom(p, b, k) {
      var m :| k <= m < |p.Body(b)| && v in p.Inputs(p.Body(b)[m]);
    } else if v in PhiOut(p, b) {
      PhiOutRead(p, b, v);
    } else {
      var c :| c in p.g.Succs(b) && LiveInto(p, c, v);
      var q :| LivePath(p, q, v) && q[0] == c;
      var z := q[|q| - 1];
      if v in UsesFrom(p, z, 0) {
        var m :| 0 <= m < |p.Body(z)| && v in p.Inputs(p.Body(z)[m]);
      } else {
        PhiOutRead(p, z, v);
      }
    }
  }

  lemma PhiOutRead(p: Prog, b: Block, v: Id)
    requires v in PhiOut(p, b) && BranchesUnread(p) && v in p.code
    ensures !IsBranch(p.code[v].opcode)
  {
    var c, q, j :| c in p.g.Succs(b) && q in p.Phis(c) && 0 <= j < |p.Inputs(q)| && j < |p.g.Preds(c)| &&
                   p.g.Preds(c)[j] == b && p.Inputs(q)[j] == v;
    assert v in p.Inputs(q);
  }

  /** What an allocation has to do: live values have places of their own, and only they do. */
  ghost predicate Separating(p: Prog, order: seq<Block>, alloc: Allocation) {
    && LiveApart(p, order, alloc)
    && (forall v :: v in alloc ==> |alloc[v]| == 1 && v in p.code && LiveAt(p, p.code[v].bb, AfterDef(p, v), v))
  }

  /** Every value live at a point is in its place. */
  ghost predicate InPlace(p: Prog, alloc: Allocation, b: Block, k: nat, env: Env, cells: Cells) {
    forall v :: LiveAt(p, b, k, v) ==> Read(alloc, cells, v) == Get(env, v)
  }

  lemma WriteReads(alloc: Allocation, cells: Cells, v: Id, x: Value, y: Id)
    ensures PlaceOf(alloc, v).Some? ==> Read(alloc, Write(alloc, cells, v, x), v) == x
    ensures PlaceOf(alloc, y) != PlaceOf(alloc, v) || PlaceOf(alloc, v).None? ==>
              Read(alloc, Write(alloc, cells, v, x), y) == Read(alloc, cells, y)
  {
  }

  lemma OperandLive(p: Prog, s: Block, b: Block, k: nat, x: Id)
    requires p.Ssa(s) && k < |p.Body(b)| && x in p.Inputs(p.Body(b)[k])
    ensures LiveAt(p, b, k, x)
  {
    UseDominated(p, s, b, k, x);
  }

  lemma ArgumentsInPlace(p: Prog, s: Block, alloc: Allocation, b: Block, k: nat, env: Env, cells: Cells)
    requires p.Ssa(s) && k < |p.Body(b)| && InPlace(p, alloc, b, k, env, cells)
    ensures p.Body(b)[k] in p.code
    ensures ReadAll(alloc, cells, p.code[p.Body(b)[k]].inputs) == Values(env, p.code[p.Body(b)[k]].inputs)
  {
    hide Ir.Prog.Strict, LiveAt, Read, Get;
    var d := p.Body(b)[k];
    assert d in p.Body(b);
    forall i | 0 <= i < |p.code[d].inputs|
      ensures Read(alloc, cells, p.code[d].inputs[i]) == Get(env, p.code[d].inputs[i])
    {
      OperandLive(p, s, b, k, p.code[d].inputs[i]);
    }
  }

  /** A value live after an instruction is its result, or was live before it. */
  lemma LiveBefore(p: Prog, b: Block, k: nat, v: Id)
    requires k < |p.Body(b)| && LiveAt(p, b, k + 1, v)
    ensures v == p.Body(b)[k] || LiveAt(p, b, k, v)
  {
    hide LiveOut;
    assert p.Body(b)[k..] == [p.Body(b)[k]] + p.Body(b)[k + 1..];
  }

  lemma OthersApart(p: Prog, order: seq<Block>, alloc: Allocation, b: Block, k: nat, d: Id, v: Id)
    requires Separating(p, order, alloc) && b in order && LiveAt(p, b, k, v) && d != v
    requires d in alloc ==> LiveAt(p, b, k, d)
    ensures PlaceOf(alloc, d).None? || PlaceOf(alloc, v) != PlaceOf(alloc, d)
    ensures PlaceOf(alloc, v).Some?
  {
    hide LiveAt;
    if d in alloc {
      assert PlacedApart(alloc, d, v);
    }
  }

  lemma AfterIs(p: Prog, s: Block, b: Block, k: nat)
    requires p.Ssa(s) && k < |p.Body(b)|
    ensures p.Body(b)[k] in p.code && p.code[p.Body(b)[k]].bb == b && AfterDef(p, p.Body(b)[k]) == k + 1
  {
    hide Ir.Prog.Strict;
    assert p.Body(b)[k] in p.Body(b);
    IndexUnique(p.Body(b), k);
  }

  /** One instruction. */
  lemma InstrInPlace(p: Prog, s: Block, w: World, order: seq<Block>, alloc: Allocation, b: Block, k: nat, st: Store,
                     m: Machine)
    requires p.Ssa(s) && BranchesUnread(p) && Separating(p, order, alloc) && b in order && k < |p.Body(b)|
    requires InPlace(p, alloc, b, k, st.env, m.cells) && st.log == m.log
    ensures var d := p.Body(b)[k];
            && InPlace(p, alloc, b, k + 1, RunInstr(p, w, st, d).env, MachineInstr(p, w, alloc, m, d).cells)
            && RunInstr(p, w, st, d).log == MachineInstr(p, w, alloc, m, d).log
  {
    hide LiveAt, Ir.Prog.Ssa, BranchesUnread, Separating, PureValue, Coerce, PlaceOf, Read, Write;
    var d := p.Body(b)[k];
    ArgumentsInPlace(p, s, alloc, b, k, st.env, m.cells);
    AfterIs(p, s, b, k);
    var st', m' := RunInstr(p, w, st, d), MachineInstr(p, w, alloc, m, d);
    forall v | LiveAt(p, b, k + 1, v) ensures Read(alloc, m'.cells, v) == Get(st'.env, v) {
      LiveBefore(p, b, k, v);
      PlacedLiveAfter(p, order, alloc, d);
      if v == d {
        LiveHasPlace(p, order, alloc, b, k + 1, v);
        LiveIsRead(p, b, k + 1, v);
        WriteReads(alloc, m.cells, d, st'.env[d], d);
      } else {
        OthersApart(p, order, alloc, b, k + 1, d, v);
        assert Get(st'.env, v) == Get(st.env, v);
        WriteReads(alloc, m.cells, d, Get(st'.env, d), v);
      }
    }
  }

  lemma PlacedLiveAfter(p: Prog, order: seq<Block>, alloc: Allocation, d: Id)
    requires Separating(p, order, alloc)
    ensures d in alloc ==> d in p.code && LiveAt(p, p.code[d].bb, AfterDef(p, d), d)
  {
    hide LiveAt, LiveApart;
  }

  lemma LiveHasPlace(p: Prog, order: seq<Block>, alloc: Allocation, b: Block, k: nat, v: Id)
    requires Separating(p, order, alloc) && b in order && LiveAt(p, b, k, v)
    ensures PlaceOf(alloc, v).Some?
  {
    hide LiveAt;
  }

  lemma {:induction false} BodyInPlace(p: Prog, s: Block, w: World, order: seq<Block>, alloc: Allocation, b: Block,
                                       k: nat, st: Store, m: Machine)
    requires p.Ssa(s) && BranchesUnread(p) && Separating(p, order, alloc) && b in order && k <= |p.Body(b)|
    requires InPlace(p, alloc, b, 0, st.env, m.cells) && st.log == m.log
    ensures InPlace(p, alloc, b, k, RunTo(p, w, st, b, k).env, MachineTo(p, w, alloc, m, b, k).cells)
    ensures RunTo(p, w, st, b, k).log == MachineTo(p, w, alloc, m, b, k).log
  {
    hide InPlace, Ir.Prog.Ssa, BranchesUnread, Separating, RunInstr, MachineInstr;
    if k > 0 {
      BodyInPlace(p, s, w, order, alloc, b, k - 1, st, m);
      InstrInPlace(p, s, w, order, alloc, b, k - 1, RunTo(p, w, st, b, k - 1), MachineTo(p, w, alloc, m, b, k - 1));
    }
  }

  lemma BranchIdle(p: Prog, w: World, alloc: Allocation, st: Store, m: Machine, d: Id)
    requires d in p.code && IsBranch(p.code[d].opcode)
    ensures RunInstr(p, w, st, d) == st && MachineInstr(p, w, alloc, m, d) == m
  {
  }

  /** The final branch decides the same. */
  lemma SameVerdict(p: Prog, s: Block, w: World, order: seq<Block>, alloc: Allocation, b: Block, st: Store, m: Machine)
    requires p.Ssa(s) && BranchesUnread(p) && Separating(p, order, alloc) && b in order && p.Body(b) != []
    requires InPlace(p, alloc, b, 0, st.env, m.cells) && st.log == m.log
    ensures var n, d := |p.Body(b)|, p.Body(b)[|p.Body(b)| - 1];
            MachineVerdict(p, w, alloc, MachineTo(p, w, alloc, m, b, n).cells, d) ==
                VerdictOf(p, w, RunTo(p, w, st, b, n).env, d)
  {
    hide InPlace, Ir.Prog.Ssa, BranchesUnread, Separating, RunInstr, MachineInstr;
    var n, d := |p.Body(b)|, p.Body(b)[|p.Body(b)| - 1];
    BodyInPlace(p, s, w, order, alloc, b, n - 1, st, m);
    var before, before' := RunTo(p, w, st, b, n - 1), MachineTo(p, w, alloc, m, b, n - 1);
    ArgumentsInPlace(p, s, alloc, b, n - 1, before.env, before'.cells);
    if IsBranch(p.code[d].opcode) {
      BranchIdle(p, w, alloc, before, before', d);
    }
  }

  lemma SameTaken(p: Prog, s: Block, w: World, order: seq<Block>, alloc: Allocation, b: Block, st: Store, m: Machine)
    requires p.Ssa(s) && BranchesUnread(p) && Separating(p, order, alloc) && b in order && p.g.Succs(b) != []
    requires InPlace(p, alloc, b, 0, st.env, m.cells) && st.log == m.log
    ensures var n := |p.Body(b)|;
            MachineTaken(p, w, alloc, MachineTo(p, w, alloc, m, b, n).cells, b) ==
                Taken(p, w, RunTo(p, w, st, b, n).env, b)
  {
    hide InPlace, Ir.Prog.Ssa, BranchesUnread, Separating, RunTo, MachineTo, MachineVerdict, VerdictOf;
    if p.Body(b) != [] {
      SameVerdict(p, s, w, order, alloc, b, st, m);
    }
  }

  // ---------- one edge ----------

  ghost predicate PhisApart(alloc: Allocation, phis: seq<Id>) {
    forall i, j :: 0 <= i < j < |phis| ==>
             PlaceOf(alloc, phis[i]).None? || PlaceOf(alloc, phis[i]) != PlaceOf(alloc, phis[j])
  }

  /** Writing the phis leaves other places alone. */
  lemma {:induction false} OthersUnwritten(p: Prog, alloc: Allocation, cells: Cells, b: Block, c: Block, i: nat, y: Id)
    requires i <= |p.Phis(c)|
    requires forall j :: 0 <= j < i ==>
               PlaceOf(alloc, p.Phis(c)[j]).None? || PlaceOf(alloc, y) != PlaceOf(alloc, p.Phis(c)[j])
    ensures Read(alloc, WritePhis(p, alloc, cells, b, c, i), y) == Read(alloc, cells, y)
  {
    hide Read, Write, PlaceOf, MachinePhi;
    if i > 0 {
      OthersUnwritten(p, alloc, cells, b, c, i - 1, y);
      WriteReads(alloc, WritePhis(p, alloc, cells, b, c, i - 1), p.Phis(c)[i - 1],
                 MachinePhi(p, alloc, cells, b, c, p.Phis(c)[i - 1]), y);
    }
  }

  lemma {:induction false} PhiWritten(p: Prog, alloc: Allocation, cells: Cells, b: Block, c: Block, i: nat, j: nat)
    requires j < i <= |p.Phis(c)| && PhisApart(alloc, p.Phis(c)) && PlaceOf(alloc, p.Phis(c)[j]).Some?
    ensures Read(alloc, WritePhis(p, alloc, cells, b, c, i), p.Phis(c)[j]) ==
              MachinePhi(p, alloc, cells, b, c, p.Phis(c)[j])
  {
    hide Read, Write, PlaceOf, MachinePhi;
    var q := p.Phis(c)[i - 1];
    WriteReads(alloc, WritePhis(p, alloc, cells, b, c, i - 1), q, MachinePhi(p, alloc, cells, b, c, q), p.Phis(c)[j]);
    if j < i - 1 {
      PhiWritten(p, alloc, cells, b, c, i - 1, j);
    }
  }

  lemma ReadHereIsInto(p: Prog, c: Block, v: Id)
    requires ReadFrom(p, c, v) && v !in Defs(p, c)
    ensures LiveInto(p, c, v)
  {
    hide Defs, ReadFrom;
    PathSingle(p.Edges(), c);
    assert LivePath(p, [c], v);
  }

  lemma LiveOutIsInto(p: Prog, c: Block, v: Id)
    requires LiveOut(p, c, v) && v !in Defs(p, c)
    ensures LiveInto(p, c, v)
  {
    hide Defs, LivePath, PhiOut;
    if v in PhiOut(p, c) {
      PhiOutIsRead(p, c, v);
      ReadHereIsInto(p, c, v);
    } else {
      var e :| e in p.g.Succs(c) && LiveInto(p, e, v);
      var q := LiveIntoPath(p, e, v);
      LiveExtend(p, c, q, v);
      assert LivePath(p, [c] + q, v) && ([c] + q)[0] == c;
    }
  }

  /** What is live after the phis of a block and is not one of them was live at the end of the predecessor. */
  lemma LiveAcross(p: Prog, b: Block, c: Block, v: Id)
    requires c in p.g.Succs(b) && LiveAt(p, c, 0, v) && v !in p.Phis(c)
    ensures LiveAt(p, b, |p.Body(b)|, v)
  {
    hide Defs, LiveInto, PhiOut, UsesFrom;
    assert p.Body(c)[0..] == p.Body(c);
    NotDefinedHere(p, c, v);
    if v in UsesFrom(p, c, 0) {
      ReadHereIsInto(p, c, v);
    } else {
      LiveOutIsInto(p, c, v);
    }
  }

  lemma NotDefinedHere(p: Prog, c: Block, v: Id)
    requires v !in p.Phis(c) && v !in p.Body(c)
    ensures v !in Defs(p, c)
  {
  }

  /** A phi input is live at the end of the block it comes from. */
  lemma IncomingLive(p: Prog, b: Block, c: Block, q: Id)
    requires c in p.g.Succs(b) && q in p.Phis(c) && Incoming(p, b, c, q).Some?
    ensures LiveAt(p, b, |p.Body(b)|, Incoming(p, b, c, q).value)
  {
    var j := FirstIndex(p.g.Preds(c), b);
    assert p.Inputs(q)[j] in PhiOut(p, b);
  }

  lemma PhiLive(p: Prog, s: Block, order: seq<Block>, alloc: Allocation, c: Block, q: Id)
    requires p.Ssa(s) && Separating(p, order, alloc) && q in p.Phis(c)
    ensures q in p.code && p.code[q].opcode.Phi? && (q in alloc ==> LiveAt(p, c, 0, q))
  {
    hide LiveAt, Ir.Prog.Strict, LiveApart;
    assert q in p.code && p.code[q].bb == c && p.code[q].opcode.Phi?;
    assert q !in p.Body(c);
  }

  lemma PhisSeparate(p: Prog, s: Block, order: seq<Block>, alloc: Allocation, c: Block)
    requires p.Ssa(s) && Separating(p, order, alloc) && c in order
    ensures PhisApart(alloc, p.Phis(c)) && Distinct(p.Phis(c))
  {
    hide LiveAt, Ir.Prog.Strict;
    var phis := p.Phis(c);
    assert Distinct(phis);
    forall i, j | 0 <= i < j < |phis| && PlaceOf(alloc, phis[i]).Some?
      ensures PlaceOf(alloc, phis[i]) != PlaceOf(alloc, phis[j])
    {
      if PlaceOf(alloc, phis[j]).Some? {
        PhiLive(p, s, order, alloc, c, phis[i]);
        PhiLive(p, s, order, alloc, c, phis[j]);
        assert PlacedApart(alloc, phis[i], phis[j]);
      }
    }
  }

  lemma SamePhi(p: Prog, alloc: Allocation, b: Block, c: Block, q: Id, env: Env, cells: Cells)
    requires c in p.g.Succs(b) && q in p.Phis(c) && InPlace(p, alloc, b, |p.Body(b)|, env, cells)
    ensures MachinePhi(p, alloc, cells, b, c, q) == PhiValue(p, env, b, c, q)
  {
    hide LiveAt, Incoming, Read, Get, Coerce;
    if Incoming(p, b, c, q).Some? {
      IncomingLive(p, b, c, q);
    }
  }

  lemma EnterInPlace(p: Prog, s: Block, order: seq<Block>, alloc: Allocation, b: Block, c: Block, st: Store, m: Machine)
    requires p.Ssa(s) && Separating(p, order, alloc) && c in order && c in p.g.Succs(b)
    requires InPlace(p, alloc, b, |p.Body(b)|, st.env, m.cells)
    ensures InPlace(p, alloc, c, 0, Enter(p, st, b, c).env, WritePhis(p, alloc, m.cells, b, c, |p.Phis(c)|))
  {
    hide LiveAt, Ir.Prog.Ssa, Separating, Read, PlaceOf, WritePhis, Enter, MachinePhi, PhiValue, PhisApart;
    PhisSeparate(p, s, order, alloc, c);
    var phis := p.Phis(c);
    forall v | LiveAt(p, c, 0, v)
      ensures Read(alloc, WritePhis(p, alloc, m.cells, b, c, |phis|), v) == Get(Enter(p, st, b, c).env, v)
    {
      EnterGets(p, st, b, c, v);
      if v in phis {
        LiveHasPlace(p, order, alloc, c, 0, v);
        PhiWritten(p, alloc, m.cells, b, c, |phis|, FirstIndex(phis, v));
        SamePhi(p, alloc, b, c, v, st.env, m.cells);
      } else {
        LiveAcross(p, b, c, v);
        forall j | 0 <= j < |phis|
          ensures PlaceOf(alloc, phis[j]).None? || PlaceOf(alloc, v) != PlaceOf(alloc, phis[j])
        {
          PhiLive(p, s, order, alloc, c, phis[j]);
          OthersApart(p, order, alloc, c, 0, phis[j], v);
        }
        OthersUnwritten(p, alloc, m.cells, b, c, |phis|, v);
      }
    }
  }

  // ---------- whole runs ----------

  /** Both are at the same block, with the same log, and what is live is in its place. */
  ghost predicate Matches(p: Prog, order: seq<Block>, alloc: Allocation, c: Config, c': MachineConfig) {
    && (c.At? <==> c'.MachineAt?)
    && c.st.log == c'.m.log
    && (c.At? ==> c.b == c'.b && c.b in order && InPlace(p, alloc, c.b, 0, c.st.env, c'.m.cells))
  }

  /** Running on the allocated places passes the same blocks and carries out the same opaque operations, on the
      same values, as running on the values themselves. */
  lemma {:induction false} MachineMatches(p: Prog, s: Block, w: World, order: seq<Block>, alloc: Allocation, n: nat)
    requires p.Ssa(s) && BranchesUnread(p) && Separating(p, order, alloc) && p.g.Closed()
    requires s in order && forall b :: b in p.g.blocks ==> b in order
    ensures Matches(p, order, alloc, Exec(p, s, w, n), MachineExec(p, s, w, alloc, n))
  {
    hide LiveAt, Ir.Prog.Ssa, BranchesUnread, Separating, Enter, Taken, MachineTaken, WritePhis, RunTo, MachineTo;
    hide Graph.Closed, InPlace;
    if n == 0 {
      EmptyInPlace(p, alloc, s);
    } else {
      MachineMatches(p, s, w, order, alloc, n - 1);
      var c, c' := Exec(p, s, w, n - 1), MachineExec(p, s, w, alloc, n - 1);
      if c.At? {
        var size := |p.Body(c.b)|;
        BodyInPlace(p, s, w, order, alloc, c.b, size, c.st, c'.m);
        if p.g.Succs(c.b) != [] {
          var after, after' := RunTo(p, w, c.st, c.b, size), MachineTo(p, w, alloc, c'.m, c.b, size);
          SameTaken(p, s, w, order, alloc, c.b, c.st, c'.m);
          var next := Taken(p, w, after.env, c.b);
          NextInLine(p, w, order, after.env, c.b);
          EnterInPlace(p, s, order, alloc, c.b, next, after, after');
          EnterLog(p, after, c.b, next);
        }
      }
    }
  }

  lemma EmptyInPlace(p: Prog, alloc: Allocation, b: Block)
    ensures InPlace(p, alloc, b, 0, map[], map[])
  {
    hide LiveAt;
  }

  lemma NextInLine(p: Prog, w: World, order: seq<Block>, env: Env, b: Block)
    requires p.g.Closed() && p.g.Succs(b) != [] && forall x :: x in p.g.blocks ==> x in order
    ensures Taken(p, w, env, b) in p.g.Succs(b) && Taken(p, w, env, b) in order
  {
  }

  /** The outcome of allocation on sound ranges separates live values. */
  lemma AllocationSeparates(p: Prog, s: Block, info: LoopInfo, lay: Layout, li: map<Block, set<Id>>,
                            ranges: map<Id, LiveRange>, places: set<Place>, alloc: Allocation)
    requires Analyzed(p, s, info, lay, li, ranges) && LoopsCarried(p, s, info, lay)
    requires Complete(p, ranges, places, alloc, Stream(p, lay.order, |lay.order|)) && NoOverlap(alloc)
    ensures Separating(p, lay.order, alloc)
  {
    hide Analyzed, LoopsCarried, LiveAt, LiveApart, Sound, Stream;
    SoundExactly(p, s, info, lay, li, ranges);
    SoundRangesApart(p, s, info, lay, li, ranges, places, alloc);
    forall v | v in alloc ensures |alloc[v]| == 1 && v in p.code && LiveAt(p, p.code[v].bb, AfterDef(p, v), v) {
      assert OnePlace(p, ranges, places, v, alloc[v]);
      PlacedIsLive(p, s, info, lay, li, ranges, v);
    }
  }

  /** End to end: where loops carry what is live into their headers, the allocated program does what the program
      does. */
  lemma AllocatedRunsMatch(p: Prog, s: Block, info: LoopInfo, lay: Layout, li: map<Block, set<Id>>,
                           ranges: map<Id, LiveRange>, places: set<Place>, alloc: Allocation, w: World, n: nat)
    requires Analyzed(p, s, info, lay, li, ranges) && LoopsCarried(p, s, info, lay) && BranchesUnread(p)
    requires s in p.g.blocks
    requires Complete(p, ranges, places, alloc, Stream(p, lay.order, |lay.order|)) && NoOverlap(alloc)
    ensures Matches(p, lay.order, alloc, Exec(p, s, w, n), MachineExec(p, s, w, alloc, n))
  {
    hide LiveAt, LoopsCarried, Separating, Complete, NoOverlap, RangesInv, LiveInsInv, Numbered, Tame, BackEdgesAgree;
    hide ForwardOrdered, BranchesUnread, Matches;
    AllocationSeparates(p, s, info, lay, li, ranges, places, alloc);
    MachineMatches(p, s, w, lay.order, alloc, n);
  }
}
