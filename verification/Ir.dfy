/** Result wrappers shared by the models. */
module Options {
  datatype Option<+T> = None | Some(value: T)
}

/**
 The compiler's intermediate representation as the register allocator sees it:
 virtual registers, instructions with at most one destination and two operands,
 and basic blocks laid out in order. A block falls through to the next one in
 the layout (`set_curbb` links `next` that way); only its last instruction may
 be a jump.
 */
module Ir {
  import opened Options

  const WORD_SIZE: nat := 8
  // Physical registers 0..5 of each class are allocatable; number 6 is the work
  // register of the class, and also the number that marks a spilled register.
  const PHYSICAL_REG_MAX: nat := 6
  const PHYSICAL_FREG_MAX: nat := 6
  const SPILLED: nat := 6

  datatype IrKind =
    | BOFS | IOFS | SOFS | LOAD | STORE
    | ADD | SUB | MUL | DIV | MOD | BITAND | BITOR | BITXOR | LSHIFT | RSHIFT | DIVU | MODU
    | CMP | INC | DEC | NEG | BITNOT | COND | TEST | JMP
    | PRECALL | PUSHARG | CALL | RESULT | ADDSP | CAST | MOV | MEMCPY | CLEAR | ASM
    | LOAD_SPILLED | STORE_SPILLED

  datatype CondKind = ANY | EQ | NE | LT | LE | GE | GT | ULT | ULE | UGE | UGT

  type Bytes = seq<bv8>

  /**
   A virtual register. `konst` holds the value of a constant; `addressed` marks
   variables whose address may be taken (`&x`, arrays, structs); `forced` those
   spilled before allocation; `offset` is nonzero for stack parameters only.
   */
  datatype VReg = VReg(size: nat, align: nat, flonum: bool, konst: Option<Bytes>,
                       param: bool, addressed: bool, forced: bool, offset: int)

  /** `living` is the mask a call gets from the allocator; it is empty before. */
  datatype IR = IR(kind: IrKind, dst: Option<nat>, opr1: Option<nat>, opr2: Option<nat>,
                   size: int, value: int, cond: CondKind, target: nat, living: set<int>)

  type Block = seq<IR>

  datatype Prog = Prog(vregs: seq<VReg>, bbs: seq<Block>)

  predicate IsConst(vregs: seq<VReg>, v: nat) {
    v < |vregs| && vregs[v].konst.Some?
  }

  function RegMax(flonum: bool): nat {
    if flonum then PHYSICAL_FREG_MAX else PHYSICAL_REG_MAX
  }

  function Named(o: Option<nat>): set<nat> {
    match o
    case None => {}
    case Some(v) => {v}
  }

  /** The virtual registers an instruction names, constants included. */
  function Mentions(ir: IR): set<nat> {
    Named(ir.dst) + Named(ir.opr1) + Named(ir.opr2)
  }

  /** The non-constant operands. */
  function Uses(vregs: seq<VReg>, ir: IR): set<nat> {
    set v | v in Named(ir.opr1) + Named(ir.opr2) && !IsConst(vregs, v)
  }

  ghost predicate WellFormedIR(p: Prog, ir: IR) {
    && (forall v | v in Mentions(ir) :: v < |p.vregs|)
    && (forall v | v in Named(ir.dst) :: !IsConst(p.vregs, v))
    && ir.kind != LOAD_SPILLED && ir.kind != STORE_SPILLED && ir.living == {}
    && (ir.kind == JMP ==> ir.dst.None? && ir.opr1.None? && ir.opr2.None? && ir.target < |p.bbs|)
    && (ir.kind == BOFS ==> ir.opr1.Some? && p.vregs[ir.opr1.value].addressed)
  }

  /** Jumps stand last in their block, and everything named exists. */
  ghost predicate WellFormed(p: Prog) {
    && (forall v | 0 <= v < |p.vregs| ::
          p.vregs[v].align > 0 && (p.vregs[v].addressed ==> p.vregs[v].konst.None? && (p.vregs[v].forced || p.vregs[v].param)))
    && (forall b, j | 0 <= b < |p.bbs| && 0 <= j < |p.bbs[b]| :: WellFormedIR(p, p.bbs[b][j]))
    && (forall b, j | 0 <= b < |p.bbs| && 0 <= j < |p.bbs[b]| - 1 :: p.bbs[b][j].kind != JMP)
  }

  /** The jump that ends a block, if there is one. */
  function LastJmp(block: Block): Option<IR> {
    if block != [] && block[|block| - 1].kind == JMP then Some(block[|block| - 1]) else None
  }

  /** The blocks control may reach from the end of block `b`. */
  function Succs(p: Prog, b: nat): set<nat>
    requires b < |p.bbs|
  {
    var jmp := LastJmp(p.bbs[b]);
    var fall := if b + 1 < |p.bbs| then {b + 1} else {};
    match jmp
    case None => fall
    case Some(ir) => if ir.cond == ANY then {ir.target} else fall + {ir.target}
  }

  /** Linear position of the first instruction of block `b`. */
  function StartOf(bbs: seq<Block>, b: nat): (n: nat)
    requires b <= |bbs|
  {
    if b == 0 then 0 else StartOf(bbs, b - 1) + |bbs[b - 1]|
  }

  lemma {:induction false} StartsIncrease(bbs: seq<Block>, b: nat, c: nat)
    requires b <= c <= |bbs|
    ensures StartOf(bbs, b) <= StartOf(bbs, c)
    ensures b < c ==> StartOf(bbs, b) + |bbs[b]| <= StartOf(bbs, c)
  {
    if b + 1 < c {
      StartsIncrease(bbs, b, c - 1);
    }
  }
}
