/** When one check decides another (Passes/CheckElimination.cpp:12-87). */
module CheckGuards {
  import opened Util
  import opened Cfg
  import opened Ir
  import opened Semantics
  import opened GraphEdits
  import opened CheckTheory
  import opened PeepholeArith

  // ---------- equal checks ----------

  /** Two constants of one type with one value of that type. */
  predicate SameConstant(p: Prog, x: Id, y: Id) {
    x in p.code && y in p.code && p.code[x].opcode.Constant? && p.code[y].opcode.Constant? &&
    var ty := p.code[x].ty;
    ty == p.code[y].ty &&
    if IsInteger(ty) then Wrap(ty, p.code[x].opcode.value) == Wrap(ty, p.code[y].opcode.value)
    else TypeIdIsFloatingPoint(ty) && p.code[x].opcode.value == p.code[y].opcode.value
  }

  predicate SameOperands(p: Prog, xs: seq<Id>, ys: seq<Id>) {
    |xs| == |ys| && forall i :: 0 <= i < |xs| ==> xs[i] == ys[i] || SameConstant(p, xs[i], ys[i])
  }

  predicate ChecksEqual(p: Prog, g: Id, u: Id) {
    g in p.code && u in p.code && p.code[g].opcode == p.code[u].opcode &&
      SameOperands(p, p.code[g].inputs, p.code[u].inputs)
  }

  /** Constants of one type that stand for the same value of it. */
  ghost predicate SameNumber(code: map<Id, Instr>, x: Id, y: Id) {
    && x in code && y in code && code[x].opcode.Constant? && code[y].opcode.Constant? && code[x].ty == code[y].ty
    && match code[x].ty
       case F32 | F64 => code[x].opcode.value == code[y].opcode.value
       case REF | VOID | NONE => false
       case _ => Congruent(code[x].ty, code[x].opcode.value, code[y].opcode.value)
  }

  /** Two instructions of one kind whose operands are pairwise the same, or constants that stand for the same. */
  ghost predicate SameCheck(code: map<Id, Instr>, g: Id, u: Id) {
    && g in code && u in code && code[g].opcode == code[u].opcode && |code[g].inputs| == |code[u].inputs|
    && forall i :: 0 <= i < |code[g].inputs| ==>
         code[g].inputs[i] == code[u].inputs[i] || SameNumber(code, code[g].inputs[i], code[u].inputs[i])
  }

  lemma SameNumberExactly(p: Prog, x: Id, y: Id)
    ensures SameConstant(p, x, y) <==> SameNumber(p.code, x, y)
  {
    hide Wrap, Congruent;
    if x in p.code && y in p.code && p.code[x].opcode.Constant? && p.code[y].opcode.Constant? {
      if IsInteger(p.code[x].ty) {
        SameWrap(p.code[x].ty, p.code[x].opcode.value, p.code[y].opcode.value);
      }
    }
  }

  /** Whether the comparison finds two checks equal. */
  lemma ChecksEqualExactly(p: Prog, g: Id, u: Id)
    ensures ChecksEqual(p, g, u) <==> SameCheck(p.code, g, u)
  {
    hide SameConstant, SameNumber;
    forall x: Id, y: Id ensures SameConstant(p, x, y) <==> SameNumber(p.code, x, y) {
      SameNumberExactly(p, x, y);
    }
  }

  /** Compares two checks operand by operand. */
  method AreChecksEqual(p: Prog, check1: Id, check2: Id) returns (equal: bool)
    requires check1 in p.code && check2 in p.code
    ensures equal <==> ChecksEqual(p, check1, check2)
    ensures equal <==> SameCheck(p.code, check1, check2)
  {
    ChecksEqualExactly(p, check1, check2);
    hide SameCheck;
    if p.code[check1].opcode != p.code[check2].opcode {
      return false;
    }
    var inputs1, inputs2 := p.code[check1].inputs, p.code[check2].inputs;
    if |inputs1| != |inputs2| {
      return false;
    }
    for i := 0 to |inputs1|
      invariant forall j :: 0 <= j < i ==> inputs1[j] == inputs2[j] || SameConstant(p, inputs1[j], inputs2[j])
    {
      var input1, input2 := inputs1[i], inputs2[i];
      if input1 == input2 {
        continue;
      }
      if input1 in p.code && input2 in p.code && p.code[input1].opcode.Constant? && p.code[input2].opcode.Constant? {
        var ty := p.code[input1].ty;
        if ty != p.code[input2].ty {
          return false;
        }
        var areEqual :=
          if IsInteger(ty) then Wrap(ty, p.code[input1].opcode.value) == Wrap(ty, p.code[input2].opcode.value)
          else TypeIdIsFloatingPoint(ty) && p.code[input1].opcode.value == p.code[input2].opcode.value;
        if !areEqual {
          return false;
        }
        continue;
      }
      return false;
    }
    return true;
  }

  // ---------- passing through one edge ----------

  /** Every path from the start to `u` takes the edge from `b` to `c`. */
  ghost predicate ThroughEdge(es: Edges, s: Block, b: Block, c: Block, u: Block) {
    forall q :: PathTo(es, s, u, q) ==> TakesEdge(q, b, c)
  }

  ghost predicate TakesEdge(q: seq<Block>, b: Block, c: Block) {
    exists i :: 0 <= i && i + 1 < |q| && PairAt(q, i, b, c)
  }

  ghost predicate PairAt(q: seq<Block>, i: nat, b: Block, c: Block)
    requires i + 1 < |q|
  {
    q[i] == b && q[i + 1] == c
  }

  /** `c` is entered from `b` only, apart from edges that come back from what `c` dominates. */
  ghost predicate SoleEntry(es: Edges, s: Block, b: Block, c: Block) {
    c != s && forall u: Block :: (u, c) in es ==> u == b || Dom(es, s, c, u)
  }

  /** The reachable part of the same condition. */
  ghost predicate SoleReachableEntry(es: Edges, s: Block, b: Block, c: Block) {
    c != s && forall u: Block :: (u, c) in es && Reach(es, s, u) ==> u == b || Dom(es, s, c, u)
  }

  lemma EntryTakesEdge(es: Edges, s: Block, b: Block, c: Block, u: Block, q: seq<Block>)
    requires Dom(es, s, c, u) && SoleReachableEntry(es, s, b, c) && PathTo(es, s, u, q)
    ensures TakesEdge(q, b, c)
  {
    var i := FirstIndex(q, c);
    assert Hop(es, q, i - 1);
    PathPrefix(es, q, i);
    assert PathTo(es, s, q[i - 1], q[..i]) && c !in q[..i];
    assert PairAt(q, i - 1, b, c);
  }

  /** A path that avoids `c` up to `x`, enters `c` from there and goes on without meeting `c` again. */
  lemma DetourMisses(es: Edges, q: seq<Block>, r: seq<Block>, b: Block, c: Block)
    requires q != [] && c !in q && r != [] && r[0] == c && c !in r[1..] && q[|q| - 1] != b
    ensures !TakesEdge(q + r, b, c)
  {
    forall i: nat | i + 1 < |q + r| ensures !PairAt(q + r, i, b, c) {
      if i + 1 < |q| {
        assert (q + r)[i + 1] == q[i + 1];
      } else if i + 1 > |q| {
        assert (q + r)[i + 1] == r[1..][i + 1 - |q| - 1];
      }
    }
  }

  /** Every path to a reachable block takes the edge from `b` to `c` exactly when `c` dominates the block and
      is otherwise entered only from blocks that it dominates. */
  lemma ThroughEdgeExactly(es: Edges, s: Block, b: Block, c: Block, u: Block)
    requires Reach(es, s, u) && c != s
    ensures ThroughEdge(es, s, b, c, u) <==> Dom(es, s, c, u) && SoleReachableEntry(es, s, b, c)
  {
    if Dom(es, s, c, u) && SoleReachableEntry(es, s, b, c) {
      forall q | PathTo(es, s, u, q) ensures TakesEdge(q, b, c) {
        EntryTakesEdge(es, s, b, c, u, q);
      }
    }
    if ThroughEdge(es, s, b, c, u) {
      forall q | PathTo(es, s, u, q) ensures c in q {
        assert TakesEdge(q, b, c);
      }
      var r :| PathTo(es, s, u, r);
      forall x: Block | (x, c) in es && Reach(es, s, x) && x != b ensures Dom(es, s, c, x) {
        forall q | PathTo(es, s, x, q) ensures c in q {
          if c !in q {
            DetourExists(es, s, b, c, u, q, r);
          }
        }
      }
    }
  }

  lemma DetourExists(es: Edges, s: Block, b: Block, c: Block, u: Block, q: seq<Block>, r: seq<Block>)
    requires PathTo(es, s, u, r) && c in r && Path(es, q) && q[0] == s && c !in q
    requires q[|q| - 1] != b && (q[|q| - 1], c) in es
    ensures !ThroughEdge(es, s, b, c, u)
  {
    var j := LastIndex(r, c);
    PathSuffix(es, r, j);
    PathAppend(es, q, c);
    PathJoin(es, q + [c], r[j..]);
    assert r[j..] == [c] + r[j..][1..];
    assert q + r[j..] == (q + [c]) + r[j..][1..];
    assert r[j..][1..] == r[j + 1..];
    DetourMisses(es, q, r[j..], b, c);
    assert PathTo(es, s, u, q + r[j..]);
  }

  // ---------- the region behind one outcome of a check ----------

  /** The block behind a check is not above the check, and the check's block dominates it. */
  lemma EntryBelow(es: Edges, s: Block, b: Block, c: Block)
    requires SoleEntry(es, s, b, c) && Reach(es, s, c)
    ensures !Dom(es, s, c, b) && Dom(es, s, b, c)
  {
    hide Dom, Reach;
    var u := EnteredForward(es, s, c);
    DomRefl(es, s, b);
    DomByPreds(es, s, b, c);
  }

  /** The operands of a check are defined outside the region behind it. */
  lemma OperandOutside(p: Prog, s: Block, g: Id, c: Block, x: Id)
    requires WellFormed(p, s) && g in p.code && IsCheck(p.code[g].opcode) && x in p.Inputs(g)
    requires SoleEntry(p.Edges(), s, p.code[g].bb, c) && Reach(p.Edges(), s, c)
    ensures x in p.code && !Dom(p.Edges(), s, c, p.code[x].bb) && Dom(p.Edges(), s, p.code[x].bb, p.code[g].bb)
  {
    hide WellFormed, Dom, Reach, SoleEntry;
    EntryBelow(p.Edges(), s, p.code[g].bb, c);
    EdgesAre(p, s);
    hide Graph.Closed, Graph.Mirrored, PhiArity, Ir.Prog.NoParallelEdges, Ir.Prog.Placed;
    CheckOperand(p, s, g, x);
    if Dom(p.Edges(), s, c, p.code[x].bb) {
      DomTrans(p.Edges(), s, c, p.code[x].bb, p.code[g].bb);
    }
  }

  lemma CheckOperand(p: Prog, s: Block, g: Id, x: Id)
    requires WellFormed(p, s) && g in p.code && IsCheck(p.code[g].opcode) && x in p.Inputs(g)
    ensures x in p.code && Dom(p.Edges(), s, p.code[x].bb, p.code[g].bb)
    ensures p.Available(s, x, p.code[g].bb, |p.Body(p.code[g].bb)|)
  {
    hide WellFormed, Dom, Reach;
    CheckIsPlaced(p, s, g);
    var b := p.code[g].bb;
    UseIs(p, s, b, |p.Body(b)| - 1, x);
    DomRefl(p.Edges(), s, b);
    AvailableLater(p, s, x, b, |p.Body(b)| - 1);
  }

  lemma {:induction false} RunToGets(p: Prog, w: World, st: Store, b: Block, k: nat, x: Id)
    requires k <= |p.Body(b)| && x !in p.Body(b)
    ensures Get(RunTo(p, w, st, b, k).env, x) == Get(st.env, x)
  {
    hide PureValue, Coerce;
    if k > 0 {
      RunToGets(p, w, st, b, k - 1, x);
      assert p.Body(b)[k - 1] in p.Body(b);
    }
  }

  lemma SameVerdict(p: Prog, w: World, e: Env, e': Env, g: Id)
    requires forall x :: x in p.Inputs(g) ==> Get(e, x) == Get(e', x)
    ensures VerdictOf(p, w, e, g) == VerdictOf(p, w, e', g)
  {
    ValuesAgree(e, e', p.Inputs(g));
  }

  /** Running the body of a block of the region does not change what the check says. */
  lemma VerdictThroughBody(p: Prog, s: Block, w: World, g: Id, c: Block, b: Block, st: Store)
    requires WellFormed(p, s) && g in p.code && IsCheck(p.code[g].opcode)
    requires SoleEntry(p.Edges(), s, p.code[g].bb, c) && Reach(p.Edges(), s, c) && Dom(p.Edges(), s, c, b)
    ensures VerdictOf(p, w, RunBody(p, w, st, b).env, g) == VerdictOf(p, w, st.env, g)
  {
    hide WellFormed, Dom, Reach, SoleEntry, VerdictOf, RunTo;
    forall x | x in p.Inputs(g) ensures Get(RunBody(p, w, st, b).env, x) == Get(st.env, x) {
      OperandOutside(p, s, g, c, x);
      if x in p.Body(b) {
        BodyIs(p, s, b, x);
      }
      RunToGets(p, w, st, b, |p.Body(b)|, x);
    }
    SameVerdict(p, w, RunBody(p, w, st, b).env, st.env, g);
  }

  lemma VerdictThroughEdge(p: Prog, s: Block, w: World, g: Id, c: Block, b: Block, next: Block, st: Store)
    requires WellFormed(p, s) && g in p.code && IsCheck(p.code[g].opcode)
    requires SoleEntry(p.Edges(), s, p.code[g].bb, c) && Reach(p.Edges(), s, c) && Dom(p.Edges(), s, c, next)
    ensures VerdictOf(p, w, Enter(p, st, b, next).env, g) == VerdictOf(p, w, st.env, g)
  {
    hide WellFormed, Dom, Reach, SoleEntry, VerdictOf, Enter;
    forall x | x in p.Inputs(g) ensures Get(Enter(p, st, b, next).env, x) == Get(st.env, x) {
      OperandOutside(p, s, g, c, x);
      PhisAre(p, s, next);
      EnterGets(p, st, b, next, x);
    }
    SameVerdict(p, w, Enter(p, st, b, next).env, st.env, g);
  }

  lemma TakenTells(p: Prog, s: Block, w: World, env: Env, g: Id, k: nat)
    requires WellFormed(p, s) && g in p.code && IsCheck(p.code[g].opcode) && k < 2
    ensures |p.g.Succs(p.code[g].bb)| == 2
    ensures Taken(p, w, env, p.code[g].bb) == p.g.Succs(p.code[g].bb)[k] <==> VerdictOf(p, w, env, g) == (k == 0)
  {
    hide WellFormed, VerdictOf;
    CheckIsPlaced(p, s, g);
  }

  /** Dropping a check with one of its edges keeps all runs exactly when no run leaves the check by that edge.  Where
      else the edge's target is entered from does not decide this: another entry is harmless when the check there has
      come out the same way, and whether it has is a matter of the values computed. */
  lemma DropKeepsRunsExactly(p: Prog, s: Block, u: Id, i: nat)
    requires WellFormed(p, s) && u in p.code && IsCheck(p.code[u].opcode) && i < 2
    ensures i < |p.g.Succs(p.BlockOf(u))|
    ensures SameRuns(p, DropCheck(p, u, i), s) <==> Decided(p, s, u, 1 - i)
  {
    hide WellFormed, DropCheck, RunBody, VerdictOf, Taken, Exec;
    CheckIsPlaced(p, s, u);
    if Decided(p, s, u, 1 - i) {
      DropKeepsRuns(p, s, u, i);
    }
    DropCheckFacts(p, s, u, i);
    hide CutEdge, SameRuns;
    var b := p.code[u].bb;
    if SameRuns(p, DropCheck(p, u, i), s) {
      forall w, n | Exec(p, s, w, n).At? && Exec(p, s, w, n).b == b
        ensures VerdictOf(p, w, RunBody(p, w, Exec(p, s, w, n).st, b).env, u) == (1 - i == 0)
      {
        LeavesByTheRest(p, DropCheck(p, u, i), s, w, n, b, p.g.Succs(b)[1 - i]);
        TakenTells(p, s, w, RunBody(p, w, Exec(p, s, w, n).st, b).env, u, 1 - i);
      }
    }
  }

  /** Wherever a run is inside the region behind outcome `k` of a check, the check would decide the same way again. */
  lemma {:induction false} RegionHolds(p: Prog, s: Block, w: World, n: nat, g: Id, k: nat)
    requires WellFormed(p, s) && g in p.code && IsCheck(p.code[g].opcode) && k < 2 && |p.g.Succs(p.code[g].bb)| == 2
    requires SoleEntry(p.Edges(), s, p.code[g].bb, p.g.Succs(p.code[g].bb)[k])
    requires Exec(p, s, w, n).At? && Dom(p.Edges(), s, p.g.Succs(p.code[g].bb)[k], Exec(p, s, w, n).b)
    ensures VerdictOf(p, w, Exec(p, s, w, n).st.env, g) == (k == 0)
  {
    hide WellFormed, Dom, Reach, VerdictOf, Enter, RunBody, Taken, Ir.Prog.Edges, Sane;
    hide Runnable, Ir.Prog.Ssa, Graph.Closed, Graph.Mirrored, PhiArity, Ir.Prog.NoParallelEdges, Ir.Prog.Placed;
    var es, S := p.Edges(), p.g.Succs(p.code[g].bb)[k];
    if n == 0 {
      NothingAboveStart(es, s, S);
    } else {
      var c := Exec(p, s, w, n - 1);
      assert c.At? && p.g.Succs(c.b) != [];
      var after := RunBody(p, w, c.st, c.b);
      var next := Taken(p, w, after.env, c.b);
      EdgesAre(p, s);
      SaneRun(p, s, w, n);
      SDomReach(es, s, S, next);
      TakenIsEdge(p, w, after.env, c.b);
      VerdictThroughEdge(p, s, w, g, S, c.b, next, after);
      if next != S {
        DomPred(es, s, S, c.b, next);
      }
      if Dom(es, s, S, c.b) {
        RegionHolds(p, s, w, n - 1, g, k);
        VerdictThroughBody(p, s, w, g, S, c.b, c.st);
      } else {
        assert c.b == p.code[g].bb;
        TakenTells(p, s, w, after.env, g, k);
      }
    }
  }

  /** An operand of the guard is still available in the region behind it. */
  lemma OperandStays(p: Prog, s: Block, g: Id, c: Block, b: Block, x: Id)
    requires WellFormed(p, s) && g in p.code && IsCheck(p.code[g].opcode) && x in p.Inputs(g)
    requires SoleEntry(p.Edges(), s, p.code[g].bb, c) && Reach(p.Edges(), s, c) && Dom(p.Edges(), s, c, b)
    ensures x in p.code && p.Available(s, x, b, |p.Body(b)|)
  {
    hide WellFormed, Dom, Reach, SoleEntry;
    var es := p.Edges();
    OperandOutside(p, s, g, c, x);
    EntryBelow(es, s, p.code[g].bb, c);
    DomTrans(es, s, p.code[x].bb, p.code[g].bb, c);
    DomTrans(es, s, p.code[x].bb, c, b);
  }

  /** Constants that the comparison calls equal have equal values wherever both are available. */
  lemma ConstantsAgree(p: Prog, s: Block, w: World, b: Block, k: nat, env: Env, x: Id, y: Id)
    requires Sane(p, s, w, b, k, env) && p.Available(s, x, b, k) && p.Available(s, y, b, k)
    requires x == y || SameConstant(p, x, y)
    ensures Get(env, x) == Get(env, y)
  {
    hide Ir.Prog.Available;
    if x != y {
      assert Holding(p, w, x, env) && Holding(p, w, y, env);
    }
  }

  lemma EqualOperands(p: Prog, env: Env, xs: seq<Id>, ys: seq<Id>)
    requires |xs| == |ys| && forall i :: 0 <= i < |xs| ==> Get(env, xs[i]) == Get(env, ys[i])
    ensures Values(env, xs) == Values(env, ys)
  {
  }

  lemma EqualVerdicts(p: Prog, w: World, env: Env, g: Id, u: Id)
    requires ChecksEqual(p, g, u) && IsCheck(p.code[g].opcode)
    requires Values(env, p.code[g].inputs) == Values(env, p.code[u].inputs)
    ensures VerdictOf(p, w, env, u) == VerdictOf(p, w, env, g)
  {
  }

  /** A check is decided by an equal one whose block behind outcome `k` dominates it and is entered only from there. */
  lemma DecidedByGuard(p: Prog, s: Block, g: Id, k: nat, u: Id)
    requires WellFormed(p, s) && ChecksEqual(p, g, u) && IsCheck(p.code[g].opcode)
    requires k < 2 && |p.g.Succs(p.code[g].bb)| == 2
    requires SoleEntry(p.Edges(), s, p.code[g].bb, p.g.Succs(p.code[g].bb)[k])
    requires Dom(p.Edges(), s, p.g.Succs(p.code[g].bb)[k], p.code[u].bb)
    ensures Decided(p, s, u, k)
  {
    hide WellFormed, Dom, Reach, SoleEntry, SameOperands, VerdictOf, Exec, RunBody, IsCheck;
    forall w, n | Exec(p, s, w, n).At? && Exec(p, s, w, n).b == p.code[u].bb
      ensures VerdictOf(p, w, RunBody(p, w, Exec(p, s, w, n).st, p.code[u].bb).env, u) == (k == 0)
    {
      DecidedAt(p, s, g, k, u, w, n);
    }
  }

  lemma DecidedAt(p: Prog, s: Block, g: Id, k: nat, u: Id, w: World, n: nat)
    requires WellFormed(p, s) && ChecksEqual(p, g, u) && IsCheck(p.code[g].opcode)
    requires k < 2 && |p.g.Succs(p.code[g].bb)| == 2
    requires SoleEntry(p.Edges(), s, p.code[g].bb, p.g.Succs(p.code[g].bb)[k])
    requires Dom(p.Edges(), s, p.g.Succs(p.code[g].bb)[k], p.code[u].bb)
    requires Exec(p, s, w, n).At? && Exec(p, s, w, n).b == p.code[u].bb
    ensures VerdictOf(p, w, RunBody(p, w, Exec(p, s, w, n).st, p.code[u].bb).env, u) == (k == 0)
  {
    hide WellFormed, Dom, Reach, SoleEntry, VerdictOf, Exec, RunTo, Sane, SameConstant, Ir.Prog.Edges;
    hide Runnable, Ir.Prog.Ssa, Graph.Closed, Graph.Mirrored, PhiArity, Ir.Prog.NoParallelEdges, Ir.Prog.Placed;
    var es, S, b := p.Edges(), p.g.Succs(p.code[g].bb)[k], p.code[u].bb;
    var st := Exec(p, s, w, n).st;
    var env := RunBody(p, w, st, b).env;
    EdgesAre(p, s);
    SaneRun(p, s, w, n);
    SDomReach(es, s, S, b);
    RegionHolds(p, s, w, n, g, k);
    VerdictThroughBody(p, s, w, g, S, b, st);
    SaneAtEnd(p, s, w, b, st);
    var xs, ys := p.code[g].inputs, p.code[u].inputs;
    forall i | 0 <= i < |xs| ensures Get(env, xs[i]) == Get(env, ys[i]) {
      OperandStays(p, s, g, S, b, xs[i]);
      CheckOperand(p, s, u, ys[i]);
      ConstantsAgree(p, s, w, b, |p.Body(b)|, env, xs[i], ys[i]);
    }
    EqualOperands(p, env, xs, ys);
    EqualVerdicts(p, w, env, g, u);
  }

  /** A null check of the null instruction is decided. */
  lemma NullDecided(p: Prog, s: Block, x: Id, u: Id)
    requires WellFormed(p, s) && x in p.code && p.code[x].opcode.NullInstr?
    requires u in p.code && p.code[u].opcode.CheckNull? && x in p.Inputs(u)
    ensures Decided(p, s, u, 0)
  {
    hide WellFormed, Exec, RunBody;
    forall w, n | Exec(p, s, w, n).At? && Exec(p, s, w, n).b == p.code[u].bb
      ensures VerdictOf(p, w, RunBody(p, w, Exec(p, s, w, n).st, p.code[u].bb).env, u)
    {
      NullDecidedAt(p, s, x, u, w, n);
    }
  }

  lemma NullDecidedAt(p: Prog, s: Block, x: Id, u: Id, w: World, n: nat)
    requires WellFormed(p, s) && x in p.code && p.code[x].opcode.NullInstr?
    requires u in p.code && p.code[u].opcode.CheckNull? && x in p.Inputs(u)
    requires Exec(p, s, w, n).At? && Exec(p, s, w, n).b == p.code[u].bb
    ensures VerdictOf(p, w, RunBody(p, w, Exec(p, s, w, n).st, p.code[u].bb).env, u)
  {
    hide WellFormed, Exec, RunBody, Reach, Ir.Prog.Edges, Ir.Prog.Available, VerdictOf, Sane;
    hide Runnable, Ir.Prog.Ssa, Graph.Closed, Graph.Mirrored, PhiArity, Ir.Prog.NoParallelEdges, Ir.Prog.Placed;
    var b, st := p.code[u].bb, Exec(p, s, w, n).st;
    EdgesAre(p, s);
    SaneRun(p, s, w, n);
    SaneAtEnd(p, s, w, b, st);
    CheckOperand(p, s, u, x);
    NullVerdict(p, s, w, b, RunBody(p, w, st, b).env, x, u);
  }

  lemma NullVerdict(p: Prog, s: Block, w: World, b: Block, env: Env, x: Id, u: Id)
    requires WellFormed(p, s) && x in p.code && p.code[x].opcode.NullInstr?
    requires u in p.code && p.code[u].opcode.CheckNull? && x in p.Inputs(u)
    requires Sane(p, s, w, b, |p.Body(b)|, env) && p.Available(s, x, b, |p.Body(b)|)
    ensures VerdictOf(p, w, env, u)
  {
    hide WellFormed, Ir.Prog.Available;
    CheckIsPlaced(p, s, u);
    NullIsRef(p, s, x);
    assert Holding(p, w, x, env);
    assert p.Inputs(u) == [x];
  }

  lemma NullIsRef(p: Prog, s: Block, x: Id)
    requires WellFormed(p, s) && x in p.code && p.code[x].opcode.NullInstr?
    ensures p.code[x].ty == REF
  {
    hide Runnable;
  }
}
