/** Edits of a graph in place: def-use lists (IR/instructions/instr.h:123-161), edges and the phi inputs that
    belong to them (IR/basicBlock.cpp:6-42), removal and replacement of instructions (IR/basicBlock.h:96-136,
    Passes/pass.cpp:5-13). */
module GraphEdits {
  import opened Util
  import opened Cfg
  import opened Ir
  import opened Semantics

  /** The user sets kept beside the instructions. */
  type Users = map<Id, set<Id>>

  function UsersOf(users: Users, x: Id): set<Id> {
    if x in users then users[x] else {}
  }

  /** Every reader of a value is among its recorded users. */
  ghost predicate UsersCover(p: Prog, users: Users) {
    forall v, x :: v in p.code && x in p.Inputs(v) ==> v in UsersOf(users, x)
  }

  /** The recorded users of a value are its readers, as far as they are still there. */
  ghost predicate UsersExact(p: Prog, users: Users) {
    forall v, x :: v in p.code ==> (v in UsersOf(users, x) <==> x in p.Inputs(v))
  }

  // ---------- sequences ----------

  function EraseAt<T>(xs: seq<T>, i: nat): (r: seq<T>) {
    if i < |xs| then xs[..i] + xs[i + 1..] else xs
  }

  lemma EraseAtIndex<T>(xs: seq<T>, i: nat, j: nat)
    requires i < |xs| && j < |xs| && j != i
    ensures |EraseAt(xs, i)| == |xs| - 1
    ensures EraseAt(xs, i)[if j < i then j else j - 1] == xs[j]
  {
  }

  /** std::remove followed by erase: all copies of `b` go. */
  function Without(xs: seq<nat>, b: nat): (r: seq<nat>)
    ensures b !in r && forall x :: x in r <==> x in xs && x != b
    ensures |r| <= |xs| && (b in xs ==> |r| < |xs|) && (b !in xs ==> r == xs)
  {
    if xs == [] then [] else (if xs[0] == b then [] else [xs[0]]) + Without(xs[1..], b)
  }

  lemma {:induction false} WithoutCount(xs: seq<nat>, b: nat, x: nat)
    ensures multiset(Without(xs, b))[x] == if x == b then 0 else multiset(xs)[x]
    ensures |Without(xs, b)| == |xs| - multiset(xs)[b]
  {
    if xs != [] {
      WithoutCount(xs[1..], b, x);
      assert xs == [xs[0]] + xs[1..];
      assert multiset(xs) == multiset{xs[0]} + multiset(xs[1..]);
    }
  }

  lemma TailCount<T>(xs: seq<T>, x: T)
    requires xs != []
    ensures multiset(xs)[x] == multiset(xs[1..])[x] + (if xs[0] == x then 1 else 0)
  {
    assert xs == [xs[0]] + xs[1..];
  }

  /** A value that occurs once is the only one removed. */
  lemma {:induction false} WithoutOnce(xs: seq<nat>, b: nat)
    requires multiset(xs)[b] == 1
    ensures b in xs && Without(xs, b) == EraseAt(xs, FirstIndex(xs, b))
  {
    assert b in multiset(xs);
    TailCount(xs, b);
    if xs[0] == b {
      assert b !in multiset(xs[1..]);
      assert EraseAt(xs, 0) == xs[1..];
    } else {
      WithoutOnce(xs[1..], b);
      EraseTail(xs, FirstIndex(xs[1..], b));
    }
  }

  lemma EraseTail(xs: seq<nat>, i: nat)
    requires i + 1 < |xs|
    ensures EraseAt(xs, i + 1) == [xs[0]] + EraseAt(xs[1..], i)
  {
  }

  lemma {:induction false} DistinctCount<T>(xs: seq<T>, x: T)
    requires Distinct(xs)
    ensures multiset(xs)[x] == if x in xs then 1 else 0
  {
    if xs != [] {
      DistinctCount(xs[1..], x);
      assert xs == [xs[0]] + xs[1..];
      DistinctSplit(xs, 0, xs[0]);
    }
  }

  // ---------- cutting one edge ----------

  /** The instructions once input `i` of every listed phi is erased. */
  function ErasePhiInputs(code: map<Id, Instr>, phis: seq<Id>, i: nat): map<Id, Instr> {
    map v | v in code :: if v in phis then code[v].(inputs := EraseAt(code[v].inputs, i)) else code[v]
  }

  /** The listed phis whose input `i` is `x`. */
  function ReadingAt(code: map<Id, Instr>, phis: seq<Id>, i: nat, x: Id): set<Id> {
    set q | q in phis && q in code && i < |code[q].inputs| && code[q].inputs[i] == x
  }

  function ErasePhiUsers(code: map<Id, Instr>, users: Users, phis: seq<Id>, i: nat): Users {
    map x | x in users :: users[x] - ReadingAt(code, phis, i, x)
  }

  /** Successor `i` of `b` is cut off. */
  function CutEdge(p: Prog, b: Block, i: nat): Prog
    requires i < |p.g.Succs(b)|
  {
    var c := p.g.Succs(b)[i];
    var code := if b in p.g.Preds(c) then ErasePhiInputs(p.code, p.Phis(c), FirstIndex(p.g.Preds(c), b)) else p.code;
    p.(g := Graph(p.g.blocks, p.g.succs[b := EraseAt(p.g.Succs(b), i)], p.g.preds[c := Without(p.g.Preds(c), b)]),
       code := code)
  }

  lemma CutEdgeFacts(p: Prog, b: Block, i: nat)
    requires i < |p.g.Succs(b)|
    ensures var c, p' := p.g.Succs(b)[i], CutEdge(p, b, i);
            && p'.g.Succs(b) == EraseAt(p.g.Succs(b), i) && (forall u :: u != b ==> p'.g.Succs(u) == p.g.Succs(u))
            && p'.g.Preds(c) == Without(p.g.Preds(c), b) && (forall u :: u != c ==> p'.g.Preds(u) == p.g.Preds(u))
            && (forall u :: p'.Phis(u) == p.Phis(u) && p'.Body(u) == p.Body(u))
            && p'.code.Keys == p.code.Keys
            && (forall v :: v in p.code && v !in p.Phis(c) ==> p'.code[v] == p.code[v])
            && (forall v :: v in p.code ==>
                p'.code[v].opcode == p.code[v].opcode && p'.code[v].bb == p.code[v].bb && p'.code[v].ty == p.code[v].ty)
            && (b in p.g.Preds(c) ==> forall q :: q in p.Phis(c) && q in p.code ==>
                  p'.Inputs(q) == EraseAt(p.Inputs(q), FirstIndex(p.g.Preds(c), b)))
  {
  }

  /** Every phi has one input for each predecessor. */
  ghost predicate PhiArity(p: Prog) {
    forall c, q :: q in p.Phis(c) ==> |p.Inputs(q)| == |p.g.Preds(c)|
  }

  ghost predicate PhiArityAt(p: Prog, c: Block) {
    forall q :: q in p.Phis(c) ==> |p.Inputs(q)| == |p.g.Preds(c)|
  }

  /** The phi inputs of the remaining edges are those they had. */
  ghost predicate SamePairing(p: Prog, p': Prog) {
    forall u, c, q :: q in p'.Phis(c) && u in p'.g.Preds(c) ==> Incoming(p', u, c, q) == Incoming(p, u, c, q)
  }

  /** Erasing the position of the only `b` from both lists keeps what stands beside the other entries. */
  lemma PairedErase(preds: seq<Block>, inputs: seq<Id>, b: Block, u: Block)
    requires |inputs| == |preds| && multiset(preds)[b] == 1 && u in preds && u != b
    ensures b in preds && u in Without(preds, b)
    ensures FirstIndex(Without(preds, b), u) < |EraseAt(inputs, FirstIndex(preds, b))|
    ensures EraseAt(inputs, FirstIndex(preds, b))[FirstIndex(Without(preds, b), u)] == inputs[FirstIndex(preds, u)]
  {
    WithoutOnce(preds, b);
    var i, j := FirstIndex(preds, b), FirstIndex(preds, u);
    var erased := EraseAt(preds, i);
    var j' := if j < i then j else j - 1;
    EraseAtIndex(preds, i, j);
    EraseAtIndex(inputs, i, j);
    FirstIndexErased(preds, i, u);
  }

  lemma FirstIndexErased(preds: seq<Block>, i: nat, u: Block)
    requires i < |preds| && u in preds && u != preds[i]
    ensures u in EraseAt(preds, i)
    ensures FirstIndex(EraseAt(preds, i), u) ==
              if FirstIndex(preds, u) < i then FirstIndex(preds, u) else FirstIndex(preds, u) - 1
  {
    var j := FirstIndex(preds, u);
    var erased := EraseAt(preds, i);
    EraseAtIndex(preds, i, j);
    var j' := if j < i then j else j - 1;
    forall m | 0 <= m < j' ensures erased[m] != u {
      var n := if m < i then m else m + 1;
      assert erased[m] == preds[n] && preds[..j][n] == preds[n];
    }
    FirstIndexIs(erased, j', u);
  }

  /** Without a parallel edge, cutting an edge keeps the arity of every phi and the pairing of its inputs. */
  lemma CutKeepsPhis(p: Prog, b: Block, i: nat)
    requires i < |p.g.Succs(b)| && p.Placed() && PhiArity(p)
    requires multiset(p.g.Preds(p.g.Succs(b)[i]))[b] == 1
    ensures PhiArity(CutEdge(p, b, i)) && SamePairing(p, CutEdge(p, b, i))
  {
    var c, p' := p.g.Succs(b)[i], CutEdge(p, b, i);
    CutEdgeFacts(p, b, i);
    WithoutOnce(p.g.Preds(c), b);
    hide CutEdge, EraseAt;
    forall d, q | q in p'.Phis(d) ensures |p'.Inputs(q)| == |p'.g.Preds(d)| {
      PhiOfOneBlock(p, d, c, q);
      if d == c {
        EraseLength(p.Inputs(q), FirstIndex(p.g.Preds(c), b));
        EraseLength(p.g.Preds(c), FirstIndex(p.g.Preds(c), b));
      }
    }
    hide Incoming, Ir.Prog.Placed;
    forall u, d, q | q in p'.Phis(d) && u in p'.g.Preds(d) ensures Incoming(p', u, d, q) == Incoming(p, u, d, q) {
      IncomingKept(p, b, i, u, d, q);
    }
  }

  lemma IncomingKept(p: Prog, b: Block, i: nat, u: Block, d: Block, q: Id)
    requires i < |p.g.Succs(b)| && p.Placed() && PhiArity(p)
    requires multiset(p.g.Preds(p.g.Succs(b)[i]))[b] == 1
    requires q in p.Phis(d) && u in CutEdge(p, b, i).g.Preds(d)
    ensures Incoming(CutEdge(p, b, i), u, d, q) == Incoming(p, u, d, q)
  {
    var c := p.g.Succs(b)[i];
    CutEdgeFacts(p, b, i);
    PhiOfOneBlock(p, d, c, q);
    hide CutEdge, EraseAt, Ir.Prog.Placed;
    if d == c {
      PairedErase(p.g.Preds(c), p.Inputs(q), b, u);
    }
  }

  lemma EraseLength<T>(xs: seq<T>, i: nat)
    requires i < |xs|
    ensures |EraseAt(xs, i)| == |xs| - 1
  {
  }

  lemma PhiOfOneBlock(p: Prog, d: Block, c: Block, q: Id)
    requires p.Placed() && q in p.Phis(d)
    ensures q in p.code && (q in p.Phis(c) <==> d == c)
  {
  }

  /** The phis of a cut edge's target keep their arity exactly when there was no parallel edge. */
  lemma CutArityExactly(p: Prog, b: Block, i: nat)
    requires i < |p.g.Succs(b)| && p.Placed() && b in p.g.Preds(p.g.Succs(b)[i])
    requires PhiArityAt(p, p.g.Succs(b)[i]) && p.Phis(p.g.Succs(b)[i]) != []
    ensures PhiArityAt(CutEdge(p, b, i), p.g.Succs(b)[i]) <==> multiset(p.g.Preds(p.g.Succs(b)[i]))[b] == 1
  {
    var c, p' := p.g.Succs(b)[i], CutEdge(p, b, i);
    CutEdgeFacts(p, b, i);
    WithoutCount(p.g.Preds(c), b, b);
    hide CutEdge, EraseAt;
    forall q | q in p'.Phis(c) ensures |p'.Inputs(q)| == |p.g.Preds(c)| - 1 {
      PhiOfOneBlock(p, c, c, q);
      EraseLength(p.Inputs(q), FirstIndex(p.g.Preds(c), b));
    }
    assert p'.Phis(c)[0] in p'.Phis(c);
  }

  /** Any sequence of cuts. */
  function CutAll(p: Prog, cuts: seq<(Block, nat)>): Prog {
    if cuts == [] then p
    else
      var last := cuts[|cuts| - 1];
      var before := CutAll(p, cuts[..|cuts| - 1]);
      if last.1 < |before.g.Succs(last.0)| then CutEdge(before, last.0, last.1) else before
  }

  /** Cutting keeps the two edge lists each other's mirror, and edges single. */
  lemma CutKeepsMirror(p: Prog, b: Block, i: nat)
    requires i < |p.g.Succs(b)| && p.g.Mirrored() && p.NoParallelEdges()
    ensures CutEdge(p, b, i).g.Mirrored() && CutEdge(p, b, i).NoParallelEdges()
    ensures multiset(p.g.Preds(p.g.Succs(b)[i]))[b] == 1
  {
    var c, p' := p.g.Succs(b)[i], CutEdge(p, b, i);
    CutEdgeFacts(p, b, i);
    hide CutEdge;
    assert p.g.Succs(b)[i] in p.g.Succs(b);
    assert multiset(p.g.Preds(c))[b] == multiset(p.g.Succs(b))[c];
    DistinctCount(p.g.Preds(c), b);
    forall u, v ensures multiset(p'.g.Preds(v))[u] == multiset(p'.g.Succs(u))[v] {
      assert multiset(p.g.Preds(v))[u] == multiset(p.g.Succs(u))[v];
      EraseCount(p.g.Succs(b), i, v);
      WithoutCount(p.g.Preds(c), b, u);
    }
    forall v ensures Distinct(p'.g.Preds(v)) {
      if v == c {
        WithoutOnce(p.g.Preds(c), b);
        DistinctErase(p.g.Preds(c), FirstIndex(p.g.Preds(c), b));
      }
    }
  }

  lemma EraseCount<T>(xs: seq<T>, i: nat, x: T)
    requires i < |xs|
    ensures multiset(EraseAt(xs, i))[x] == multiset(xs)[x] - (if x == xs[i] then 1 else 0)
  {
    assert xs == xs[..i] + [xs[i]] + xs[i + 1..];
  }

  lemma DistinctErase<T>(xs: seq<T>, i: nat)
    requires i < |xs| && Distinct(xs)
    ensures Distinct(EraseAt(xs, i))
  {
    var r := EraseAt(xs, i);
    forall j, k | 0 <= j < k < |r| ensures r[j] != r[k] {
      assert r[j] == xs[if j < i then j else j + 1] && r[k] == xs[if k < i then k else k + 1];
    }
  }

  lemma CutKeepsPlaces(p: Prog, b: Block, i: nat)
    requires i < |p.g.Succs(b)| && p.Placed()
    ensures CutEdge(p, b, i).Placed()
  {
    CutEdgeFacts(p, b, i);
    SamePlaces(p, CutEdge(p, b, i));
  }

  lemma SamePlaces(p: Prog, p': Prog)
    requires p.Placed() && p'.g.blocks == p.g.blocks && p'.phis == p.phis && p'.body == p.body
    requires p'.code.Keys == p.code.Keys
    requires forall v :: v in p.code ==> p'.code[v].opcode == p.code[v].opcode && p'.code[v].bb == p.code[v].bb
    ensures p'.Placed()
  {
    forall b ensures p'.Phis(b) == p.Phis(b) && p'.Body(b) == p.Body(b) {
    }
    forall v ensures v in p'.code <==> v in p.code {
      assert v in p'.code.Keys <==> v in p.code.Keys;
    }
    hide Ir.Prog.Phis, Ir.Prog.Body;
    forall b, v | v in p'.Phis(b) ensures IsPhiOf(p', v, b) {
      assert v in p.Phis(b);
    }
    forall b, v | v in p'.Body(b) ensures IsBodyOf(p', v, b) {
      assert v in p.Body(b);
    }
    forall v | v in p'.code ensures IsListed(p', v) {
      assert v in p.code;
    }
    forall b ensures Distinct(p'.Phis(b)) && Distinct(p'.Body(b)) {
      assert Distinct(p.Phis(b)) && Distinct(p.Body(b));
    }
    hide Ir.Prog.Placed;
    PlacedBy(p');
  }

  ghost predicate IsPhiOf(p: Prog, v: Id, b: Block) {
    v in p.code && p.code[v].bb == b && p.code[v].opcode.Phi?
  }

  ghost predicate IsBodyOf(p: Prog, v: Id, b: Block) {
    v in p.code && p.code[v].bb == b && !p.code[v].opcode.Phi?
  }

  ghost predicate IsListed(p: Prog, v: Id)
    requires v in p.code
  {
    if p.code[v].opcode.Phi? then v in p.Phis(p.code[v].bb) else v in p.Body(p.code[v].bb)
  }

  lemma PlacedBy(p: Prog)
    requires forall b, v :: v in p.Phis(b) ==> IsPhiOf(p, v, b)
    requires forall b, v :: v in p.Body(b) ==> IsBodyOf(p, v, b)
    requires forall v :: v in p.code ==> IsListed(p, v)
    requires forall b :: Distinct(p.Phis(b)) && Distinct(p.Body(b))
    requires forall b :: b in p.phis || b in p.body ==> b in p.g.blocks
    ensures p.Placed()
  {
    hide Ir.Prog.Phis, Ir.Prog.Body, Distinct;
  }

  /** On a graph without parallel edges, no sequence of cuts disturbs the phis of the edges that remain. */
  lemma {:induction false} CutAllKeepsPhis(p: Prog, cuts: seq<(Block, nat)>)
    requires p.Placed() && PhiArity(p) && p.g.Mirrored() && p.NoParallelEdges()
    ensures var p' := CutAll(p, cuts);
            p'.Placed() && PhiArity(p') && p'.g.Mirrored() && p'.NoParallelEdges() && SamePairing(p, p')
    ensures forall c :: Elems(CutAll(p, cuts).g.Preds(c)) <= Elems(p.g.Preds(c))
  {
    if cuts != [] {
      var last := cuts[|cuts| - 1];
      var before := CutAll(p, cuts[..|cuts| - 1]);
      CutAllKeepsPhis(p, cuts[..|cuts| - 1]);
      if last.1 < |before.g.Succs(last.0)| {
        CutKeepsMirror(before, last.0, last.1);
        CutKeepsPhis(before, last.0, last.1);
        CutKeepsPlaces(before, last.0, last.1);
        CutEdgeFacts(before, last.0, last.1);
        var p' := CutEdge(before, last.0, last.1);
        hide CutEdge, Incoming, Ir.Prog.Placed, PhiArity, Graph.Mirrored, Ir.Prog.NoParallelEdges;
        forall u, c, q | q in p'.Phis(c) && u in p'.g.Preds(c) ensures Incoming(p', u, c, q) == Incoming(p, u, c, q) {
          assert q in before.Phis(c) && u in before.g.Preds(c);
        }
      }
    }
  }

  /** An instruction of a body is taken out. */
  function DropInstr(p: Prog, v: Id): Prog {
    p.(body := p.body[p.BlockOf(v) := Without(p.Body(p.BlockOf(v)), v)], code := p.code - {v})
  }

  // ---------- def-use lists ----------

  /** After one input of a phi is erased its reader is dropped from the users of that input, which still covers
      all readers exactly when the phi does not read the same value at another index. */
  lemma EraseCoversExactly(p: Prog, users: Users, v: Id, i: nat)
    requires v in p.code && i < |p.Inputs(v)| && UsersCover(p, users)
    ensures var x := p.Inputs(v)[i];
            var p' := p.(code := p.code[v := p.code[v].(inputs := EraseAt(p.Inputs(v), i))]);
            UsersCover(p', users[x := UsersOf(users, x) - {v}]) <==> x !in EraseAt(p.Inputs(v), i)
  {
    var x := p.Inputs(v)[i];
    var inputs := EraseAt(p.Inputs(v), i);
    var p' := p.(code := p.code[v := p.code[v].(inputs := inputs)]);
    var users' := users[x := UsersOf(users, x) - {v}];
    assert p'.Inputs(v) == inputs && v !in UsersOf(users', x);
    if x in inputs {
      assert v in p'.code && x in p'.Inputs(v);
    } else {
      forall u, y | u in p'.code && y in p'.Inputs(u) ensures u in UsersOf(users', y) {
        assert u in p.code && y in p.Inputs(u);
        assert u in UsersOf(users, y);
      }
    }
  }

  function ReplacedInputs(inputs: seq<Id>, x: Id, y: Id): (r: seq<Id>)
    ensures |r| == |inputs| && forall i :: 0 <= i < |inputs| ==> r[i] == if inputs[i] == x then y else inputs[i]
  {
    if inputs == [] then [] else [if inputs[0] == x then y else inputs[0]] + ReplacedInputs(inputs[1..], x, y)
  }

  lemma NothingErased(code: map<Id, Instr>, users: Users, i: nat)
    ensures ErasePhiInputs(code, [], i) == code && ErasePhiUsers(code, users, [], i) == users
  {
    var users' := ErasePhiUsers(code, users, [], i);
    forall x | x in users ensures users'[x] == users[x] {
      assert ReadingAt(code, [], i, x) == {};
      assert users[x] - {} == users[x];
    }
  }

  lemma OneUserErased(code: map<Id, Instr>, users: Users, v: Id, i: nat)
    requires v in code
    ensures i >= |code[v].inputs| ==> ErasePhiUsers(code, users, [v], i) == users
    ensures i < |code[v].inputs| ==>
              var x := code[v].inputs[i];
              ErasePhiUsers(code, users, [v], i) == if x in users then users[x := users[x] - {v}] else users
  {
    var users' := ErasePhiUsers(code, users, [v], i);
    forall x | x in users
      ensures users'[x] == if i < |code[v].inputs| && code[v].inputs[i] == x then users[x] - {v} else users[x]
    {
      assert ReadingAt(code, [v], i, x) == if i < |code[v].inputs| && code[v].inputs[i] == x then {v} else {};
      assert users[x] - {} == users[x];
    }
  }

  lemma SetMinus(a: set<Id>, b: set<Id>, c: set<Id>)
    ensures a - (b + c) == a - b - c
  {
  }

  lemma PhisErasedNext(code: map<Id, Instr>, users: Users, qs: seq<Id>, q: Id, i: nat)
    requires q !in qs && q in code
    ensures var code' := ErasePhiInputs(code, qs, i);
            && ErasePhiInputs(code, qs + [q], i) == code'[q := code'[q].(inputs := EraseAt(code'[q].inputs, i))]
            && ErasePhiUsers(code, users, qs + [q], i) ==
                 ErasePhiUsers(code', ErasePhiUsers(code, users, qs, i), [q], i)
  {
    var code' := ErasePhiInputs(code, qs, i);
    assert code'[q] == code[q];
    assert forall v :: v in qs + [q] <==> v in qs || v == q;
    var users' := ErasePhiUsers(code', ErasePhiUsers(code, users, qs, i), [q], i);
    forall x | x in users ensures ErasePhiUsers(code, users, qs + [q], i)[x] == users'[x] {
      assert ReadingAt(code, qs + [q], i, x) == ReadingAt(code, qs, i, x) + ReadingAt(code', [q], i, x);
      SetMinus(users[x], ReadingAt(code, qs, i, x), ReadingAt(code', [q], i, x));
    }
  }

  /** `user` moves from the users of `x` to those of `y`. */
  function UsersMoved(users: Users, x: Id, y: Id, user: Id): Users {
    var added := users[y := UsersOf(users, y) + {user}];
    if x in added then added[x := added[x] - {user}] else added
  }

  function InsertAt(body: seq<Id>, j: nat, z: Id): seq<Id>
    requires j < |body|
  {
    body[..j + 1] + [z] + body[j + 1..]
  }

  function AddConstantAfter(p: Prog, v: Id, z: Id, ty: TypeId, value: int): Prog
    requires v in p.code && v in p.Body(p.code[v].bb)
  {
    var b := p.code[v].bb;
    p.(body := p.body[b := InsertAt(p.Body(b), FirstIndex(p.Body(b), v), z)],
       code := p.code[z := Instr(Constant(value), ty, [], b)])
  }

  /** ReplaceInput keeps the user sets exact if and only if it does not replace an input by itself. */
  lemma MovedExactly(p: Prog, users: Users, user: Id, x: Id, y: Id)
    requires UsersExact(p, users) && user in p.code && x in p.Inputs(user)
    ensures var p' := p.(code := p.code[user := p.code[user].(inputs := ReplacedInputs(p.Inputs(user), x, y))]);
            UsersExact(p', UsersMoved(users, x, y, user)) <==> x != y
  {
    var inputs := ReplacedInputs(p.Inputs(user), x, y);
    var p' := p.(code := p.code[user := p.code[user].(inputs := inputs)]);
    var users' := UsersMoved(users, x, y, user);
    assert p'.Inputs(user) == inputs;
    ReplacedReads(p.Inputs(user), x, y, y);
    if x == y {
      assert user !in UsersOf(users', x) && user in p'.code && x in p'.Inputs(user);
    } else {
      forall v, z | v in p'.code ensures v in UsersOf(users', z) <==> z in p'.Inputs(v) {
        assert v in UsersOf(users, z) <==> z in p.Inputs(v);
        if v == user {
          ReplacedReads(p.Inputs(user), x, y, z);
        }
      }
    }
  }

  lemma ReplacedReads(inputs: seq<Id>, x: Id, y: Id, z: Id)
    requires x in inputs
    ensures z in ReplacedInputs(inputs, x, y) <==> z == y || (z in inputs && z != x)
  {
    var r := ReplacedInputs(inputs, x, y);
    var i := FirstIndex(inputs, x);
    assert r[i] == y;
    if z in inputs && z != x {
      var j := FirstIndex(inputs, z);
      assert r[j] == z;
    }
  }

  /** EraseInput keeps the user sets exact if and only if the phi does not read the erased value elsewhere. */
  lemma EraseExactly(p: Prog, users: Users, v: Id, i: nat)
    requires v in p.code && i < |p.Inputs(v)| && UsersExact(p, users)
    ensures var p' := p.(code := p.code[v := p.code[v].(inputs := EraseAt(p.Inputs(v), i))]);
            UsersExact(p', ErasePhiUsers(p.code, users, [v], i)) <==> p.Inputs(v)[i] !in EraseAt(p.Inputs(v), i)
  {
    var x, inputs := p.Inputs(v)[i], EraseAt(p.Inputs(v), i);
    var p' := p.(code := p.code[v := p.code[v].(inputs := inputs)]);
    OneUserErased(p.code, users, v, i);
    var users' := ErasePhiUsers(p.code, users, [v], i);
    hide ErasePhiUsers, EraseAt;
    assert p'.Inputs(v) == inputs && v !in UsersOf(users', x);
    if x in inputs {
      assert v in p'.code && x in p'.Inputs(v);
    } else {
      forall u, z | u in p'.code ensures u in UsersOf(users', z) <==> z in p'.Inputs(u) {
        assert u in UsersOf(users, z) <==> z in p.Inputs(u);
        if u == v {
          EraseReads(p.Inputs(v), i, z);
        }
      }
    }
  }

  lemma EraseReads(inputs: seq<Id>, i: nat, z: Id)
    requires i < |inputs|
    ensures z in inputs <==> z == inputs[i] || z in EraseAt(inputs, i)
  {
  }

  class MethodGraph {
    var blocks: seq<Block>
    var succs: map<Block, seq<Block>>
    var preds: map<Block, seq<Block>>
    var phis: map<Block, seq<Id>>
    var body: map<Block, seq<Id>>
    var code: map<Id, Instr>
    var users: Users
    /** The id the next allocated instruction gets. */
    var nextId: nat

    constructor (p: Prog, users: Users, nextId: nat)
      ensures Shape() == p && this.users == users && this.nextId == nextId
    {
      blocks, succs, preds := p.g.blocks, p.g.succs, p.g.preds;
      phis, body, code := p.phis, p.body, p.code;
      this.users, this.nextId := users, nextId;
    }

    function Shape(): (p: Prog)
      reads this
      ensures p == Prog(Graph(blocks, succs, preds), phis, body, code)
    {
      Prog(Graph(blocks, succs, preds), phis, body, code)
    }

    method RemoveUser(x: Id, user: Id)
      modifies this`users
      ensures users == if x in old(users) then old(users)[x := old(users)[x] - {user}] else old(users)
    {
      if x in users {
        users := users[x := users[x] - {user}];
      }
    }

    method AddUser(x: Id, user: Id)
      modifies this`users
      ensures users == old(users)[x := UsersOf(old(users), x) + {user}]
    {
      users := users[x := UsersOf(users, x) + {user}];
    }

    method EraseInput(v: Id, index: nat)
      requires v in code
      modifies this`code, this`users
      ensures code == old(code)[v := old(code)[v].(inputs := EraseAt(old(code)[v].inputs, index))]
      ensures users == ErasePhiUsers(old(code), old(users), [v], index)
    {
      var inputs := code[v].inputs;
      OneUserErased(code, users, v, index);
      if index >= |inputs| {
        assert code == code[v := code[v].(inputs := EraseAt(inputs, index))];
        return;
      }
      RemoveUser(inputs[index], v);
      code := code[v := code[v].(inputs := inputs[..index] + inputs[index + 1..])];
    }

    method RemovePredecessor(c: Block, pred: Block)
      modifies this`preds
      ensures preds == old(preds)[c := Without(if c in old(preds) then old(preds)[c] else [], pred)]
    {
      preds := preds[c := Without(if c in preds then preds[c] else [], pred)];
    }

    /** The erasing loop over the phis of the target. */
    method ErasePhis(c: Block, index: nat)
      requires Distinct(Shape().Phis(c)) && forall q :: q in Shape().Phis(c) ==> q in code
      modifies this`code, this`users
      ensures code == ErasePhiInputs(old(code), Shape().Phis(c), index)
      ensures users == ErasePhiUsers(old(code), old(users), Shape().Phis(c), index)
    {
      var qs := Shape().Phis(c);
      NothingErased(code, users, index);
      for i := 0 to |qs|
        invariant code == ErasePhiInputs(old(code), qs[..i], index)
        invariant users == ErasePhiUsers(old(code), old(users), qs[..i], index)
      {
        DistinctSplit(qs, i, qs[i]);
        assert qs[..i + 1] == qs[..i] + [qs[i]];
        PhisErasedNext(old(code), old(users), qs[..i], qs[i], index);
        EraseInput(qs[i], index);
      }
      assert qs[..|qs|] == qs;
    }

    method RemoveSuccessor(b: Block, index: nat)
      requires Shape().Placed()
      modifies this`code, this`users, this`preds, this`succs
      ensures index >= |old(Shape()).g.Succs(b)| ==> Shape() == old(Shape()) && users == old(users)
      ensures index < |old(Shape()).g.Succs(b)| ==>
                && Shape() == CutEdge(old(Shape()), b, index)
                && var c := old(Shape()).g.Succs(b)[index];
                   users == if b in old(Shape()).g.Preds(c)
                            then ErasePhiUsers(old(code), old(users), old(Shape()).Phis(c),
                                               FirstIndex(old(Shape()).g.Preds(c), b))
                            else old(users)
    {
      var targets := Shape().g.Succs(b);
      if index >= |targets| {
        return;
      }
      var succ := targets[index];
      var sources := Shape().g.Preds(succ);
      if b in sources {
        ErasePhis(succ, FirstIndex(sources, b));
      }
      RemovePredecessor(succ, b);
      succs := succs[b := targets[..index] + targets[index + 1..]];
    }

    method RemoveInstr(v: Id)
      modifies this`body, this`code
      ensures Shape() == DropInstr(old(Shape()), v)
    {
      var b := Shape().BlockOf(v);
      body := body[b := Without(Shape().Body(b), v)];
      code := code - {v};
    }

    /** Every occurrence of `input` among the inputs of `user` becomes `newInput`. */
    method ReplaceInput(user: Id, input: Id, newInput: Id) returns (found: bool)
      requires user in code
      modifies this`code, this`users
      ensures found == (input in old(code)[user].inputs)
      ensures var instr := old(code)[user];
              code == old(code)[user := instr.(inputs := ReplacedInputs(instr.inputs, input, newInput))]
      ensures users == if found then UsersMoved(old(users), input, newInput, user) else old(users)
    {
      var inputs := code[user].inputs;
      ghost var before := inputs;
      found := false;
      for i := 0 to |inputs|
        invariant code == old(code) && |inputs| == |before|
        invariant found == (input in before[..i])
        invariant forall j :: 0 <= j < |inputs| ==>
                    inputs[j] == if j < i && before[j] == input then newInput else before[j]
        invariant users == if found then old(users)[newInput := UsersOf(old(users), newInput) + {user}] else old(users)
      {
        assert before[..i + 1] == before[..i] + [before[i]];
        if inputs[i] == input {
          inputs := inputs[i := newInput];
          AddUser(newInput, user);
          assert found ==> users == old(users)[newInput := UsersOf(old(users), newInput) + {user}];
          found := true;
        }
      }
      assert before[..|before|] == before;
      assert inputs == ReplacedInputs(before, input, newInput);
      code := code[user := code[user].(inputs := inputs)];
      if found {
        RemoveUser(input, user);
      }
    }

    /** A new constant behind `insertInstr` in its block. */
    method AllocateConstantAfter(insertInstr: Id, ty: TypeId, value: int) returns (z: Id)
      requires insertInstr in code && insertInstr in Shape().Body(code[insertInstr].bb)
      modifies this`body, this`code, this`nextId
      ensures z == old(nextId) && nextId == z + 1
      ensures Shape() == AddConstantAfter(old(Shape()), insertInstr, z, ty, value)
    {
      z := nextId;
      nextId := nextId + 1;
      var b := code[insertInstr].bb;
      var list := Shape().Body(b);
      body := body[b := InsertAt(list, FirstIndex(list, insertInstr), z)];
      code := code[z := Instr(Constant(value), ty, [], b)];
    }
  }
}
