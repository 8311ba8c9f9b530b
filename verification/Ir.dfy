/** The intermediate representation: instructions in blocks, in strict SSA form
    (IR/instructions/instr.h, IR/basicBlock.h). */
module Ir {
  import opened Util
  import opened Cfg

  type Id = nat

  datatype TypeId = U8 | I8 | I16 | U16 | I32 | U32 | F32 | I64 | U64 | F64 | REF | VOID | NONE

  datatype BinaryOp = ADD | SUB | MUL | DIV | AND | OR | ASHR

  datatype Opcode =
    | Param(index: nat)
    | Constant(value: int)
    | Cast
    | Binary(op: BinaryOp)
    | Return
    | CallStatic
    | If
    | NewArr
    | Phi
    | LdArr
    | StArr
    | NewStr
    | NullInstr
    | CheckNull
    | CheckBounds

  datatype Instr = Instr(opcode: Opcode, ty: TypeId, inputs: seq<Id>, bb: Block)

  function TypeIdToSize(ty: TypeId): nat {
    match ty
    case U8 | I8 => 8
    case U16 | I16 => 16
    case U32 | I32 | F32 => 32
    case U64 | I64 | F64 | REF => 64
    case VOID | NONE => 0
  }

  predicate TypeIdIsFloatingPoint(ty: TypeId) {
    ty == F32 || ty == F64
  }

  /** A method graph.  A block's instruction list is its phis followed by the rest, its body. */
  datatype Prog = Prog(g: Graph, phis: map<Block, seq<Id>>, body: map<Block, seq<Id>>, code: map<Id, Instr>) {
    function Phis(b: Block): seq<Id> {
      if b in phis then phis[b] else []
    }

    function Body(b: Block): seq<Id> {
      if b in body then body[b] else []
    }

    function Inputs(v: Id): seq<Id> {
      if v in code then code[v].inputs else []
    }

    /** The block of an instruction. */
    function BlockOf(v: Id): Block {
      if v in code then code[v].bb else 0
    }

    function Edges(): Edges {
      g.AllEdges()
    }

    /** Every listed instruction exists, names its block, and stands in the section its opcode calls for. */
    ghost predicate Placed() {
      && (forall b, v :: v in Phis(b) ==> v in code && code[v].bb == b && code[v].opcode.Phi?)
      && (forall b, v :: v in Body(b) ==> v in code && code[v].bb == b && !code[v].opcode.Phi?)
      && (forall v :: v in code ==> if code[v].opcode.Phi? then v in Phis(code[v].bb) else v in Body(code[v].bb))
      && (forall b :: Distinct(Phis(b)) && Distinct(Body(b)))
      && (forall b :: b in phis || b in body ==> b in g.blocks)
    }

    /** The definition of `x` has been passed on every path to body position `k` of block `b`. */
    ghost predicate Available(s: Block, x: Id, b: Block, k: nat) {
      x in code &&
      if code[x].bb == b then code[x].opcode.Phi? || x in Body(b)[..if k <= |Body(b)| then k else |Body(b)|]
      else SDom(Edges(), s, code[x].bb, b)
    }

    /** Strict SSA: definitions come before uses, a phi input at the end of its predecessor. */
    ghost predicate Strict(s: Block) {
      && (forall b, k, x :: 0 <= k < |Body(b)| && x in Inputs(Body(b)[k]) ==> Available(s, x, b, k))
      && (forall b, q, j :: q in Phis(b) && 0 <= j < |Inputs(q)| && j < |g.Preds(b)| ==>
            Available(s, Inputs(q)[j], g.Preds(b)[j], |Body(g.Preds(b)[j])|))
      && (forall b, q :: q in Phis(b) ==> |Inputs(q)| == |g.Preds(b)|)
    }

    ghost predicate Ssa(s: Block) {
      Placed() && Strict(s)
    }

    /** No two edges join the same two blocks. */
    ghost predicate NoParallelEdges() {
      forall b :: Distinct(g.Preds(b))
    }
  }
}
