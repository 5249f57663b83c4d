/** Loads before and stores after instructions whose registers are spilled (`insert_load_store_spilled`). */
module SpillCode {
  import opened Options
  import opened Ir

  /** Which operands an instruction kind loads, whether it stores its result, and how wide the loads are. */
  datatype Rule = Rule(load1: bool, load2: bool, store: bool, loadSize: int) | NoRule

  function RuleOf(vregs: seq<VReg>, ir: IR): Rule {
    match ir.kind
    case MOV | ADD | SUB | MUL | DIV | DIVU | MOD | MODU | BITAND | BITOR | BITXOR | LSHIFT | RSHIFT
       | CMP | NEG | BITNOT | COND | TEST | PUSHARG | RESULT =>
      Rule(true, true, true, ir.size)
    case CAST =>
      Rule(true, false, true, if ir.opr1.Some? && ir.opr1.value < |vregs| then vregs[ir.opr1.value].size else 0)
    case CALL | LOAD | STORE | MEMCPY =>
      Rule(true, true, true, WORD_SIZE)
    case BOFS | IOFS | SOFS =>
      Rule(false, false, true, 0)
    case _ => NoRule
  }

  /** The kinds that the pass steps over; their operands are never in the frame. */
  predicate Passed(kind: IrKind) {
    kind in {INC, DEC, JMP, PRECALL, ADDSP, CLEAR, ASM, LOAD_SPILLED, STORE_SPILLED}
  }

  /** The kinds that take the address of something and load no operand. */
  predicate TakesAddress(kind: IrKind) {
    kind in {BOFS, IOFS, SOFS}
  }

  /** How many bytes of an operand an instruction uses. */
  function WidthUsed(vregs: seq<VReg>, ir: IR): int {
    if ir.kind in {CALL, LOAD, STORE, MEMCPY} then 8
    else if ir.kind == CAST then (if ir.opr1.Some? && ir.opr1.value < |vregs| then vregs[ir.opr1.value].size else 0)
    else ir.size
  }

  predicate InFrame(vregs: seq<VReg>, phys: seq<int>, o: Option<nat>) {
    o.Some? && o.value < |vregs| && o.value < |phys| && !IsConst(vregs, o.value) && phys[o.value] == SPILLED
  }

  function LoadSpilled(v: nat, offset: int, size: int): IR {
    IR(LOAD_SPILLED, Some(v), None, None, size, offset, ANY, 0, {})
  }

  function StoreSpilled(v: nat, offset: int, size: int): IR {
    IR(STORE_SPILLED, None, Some(v), None, size, offset, ANY, 0, {})
  }

  function OffsetOf(offs: seq<int>, v: nat): int {
    if v < |offs| then offs[v] else 0
  }

  function Loads(vregs: seq<VReg>, phys: seq<int>, offs: seq<int>, ir: IR): Block {
    var rule := RuleOf(vregs, ir);
    if rule.NoRule? then []
    else
      (if rule.load1 && InFrame(vregs, phys, ir.opr1)
       then [LoadSpilled(ir.opr1.value, OffsetOf(offs, ir.opr1.value), rule.loadSize)] else []) +
      (if rule.load2 && InFrame(vregs, phys, ir.opr2)
       then [LoadSpilled(ir.opr2.value, OffsetOf(offs, ir.opr2.value), rule.loadSize)] else [])
  }

  function Stores(vregs: seq<VReg>, phys: seq<int>, offs: seq<int>, ir: IR): Block {
    var rule := RuleOf(vregs, ir);
    if rule.Rule? && rule.store && InFrame(vregs, phys, ir.dst)
    then [StoreSpilled(ir.dst.value, OffsetOf(offs, ir.dst.value), ir.size)] else []
  }

  function ExpandIR(vregs: seq<VReg>, phys: seq<int>, offs: seq<int>, ir: IR): Block {
    Loads(vregs, phys, offs, ir) + [ir] + Stores(vregs, phys, offs, ir)
  }

  /**
   Of every kind that is not passed over an operand in the frame is loaded ahead of
   the instruction, at the width used, and a result in the frame is stored behind
   it; of the others nothing is.
   */
  lemma GroupIs(vregs: seq<VReg>, phys: seq<int>, offs: seq<int>, ir: IR)
    ensures var group := ExpandIR(vregs, phys, offs, ir);
            var in1 := InFrame(vregs, phys, ir.opr1) && !Passed(ir.kind) && !TakesAddress(ir.kind);
            var in2 := InFrame(vregs, phys, ir.opr2) && !Passed(ir.kind) && !TakesAddress(ir.kind) && ir.kind != CAST;
            var in3 := InFrame(vregs, phys, ir.dst) && !Passed(ir.kind);
            && group == (if in1 then [LoadSpilled(ir.opr1.value, OffsetOf(offs, ir.opr1.value), WidthUsed(vregs, ir))] else [])
                      + (if in2 then [LoadSpilled(ir.opr2.value, OffsetOf(offs, ir.opr2.value), WidthUsed(vregs, ir))] else [])
                      + [ir]
                      + (if in3 then [StoreSpilled(ir.dst.value, OffsetOf(offs, ir.dst.value), ir.size)] else [])
  {
  }

  function Expand(vregs: seq<VReg>, phys: seq<int>, offs: seq<int>, irs: Block): Block {
    if irs == [] then []
    else
      var last := |irs| - 1;
      Expand(vregs, phys, offs, irs[..last]) + ExpandIR(vregs, phys, offs, irs[last])
  }

  /** The code for instruction `j` starts at `|Expand(irs[..j])|`. */
  lemma {:induction false} ExpandSplits(vregs: seq<VReg>, phys: seq<int>, offs: seq<int>, irs: Block, j: nat)
    requires j <= |irs|
    ensures Expand(vregs, phys, offs, irs[..j]) <= Expand(vregs, phys, offs, irs)
    ensures j < |irs| ==> Expand(vregs, phys, offs, irs[..j + 1])
                          == Expand(vregs, phys, offs, irs[..j]) + ExpandIR(vregs, phys, offs, irs[j])
    decreases |irs|
  {
    if j < |irs| {
      var last := |irs| - 1;
      assert irs[..j + 1][..j] == irs[..j];
      ExpandSplits(vregs, phys, offs, irs[..last], j);
      assert irs[..last][..j] == irs[..j];
    } else {
      assert irs[..j] == irs;
    }
  }

  /** `vec_insert` at a position inside the vector or at its end. */
  function VecInsert(irs: Block, pos: nat, ir: IR): Block
    requires pos <= |irs|
  {
    irs[..pos] + [ir] + irs[pos..]
  }

  /** Inserts around the instruction at `j0`; `j` is the position of the last instruction of its group. */
  method InsertAround(vregs: seq<VReg>, phys: seq<int>, offs: seq<int>, irs0: Block, j0: nat, ghost done: Block, ghost rest: Block)
    returns (irs: Block, j: nat, inserted: bool)
    requires irs0 == done + rest && rest != [] && j0 == |done|
    ensures irs == done + ExpandIR(vregs, phys, offs, rest[0]) + rest[1..]
    ensures j + 1 == j0 + |ExpandIR(vregs, phys, offs, rest[0])|
    ensures inserted <==> j > j0
  {
    irs, j, inserted := irs0, j0, false;
    var ir := irs[j];
    var rule := RuleOf(vregs, ir);
    hide RuleOf, LoadSpilled, StoreSpilled, InFrame, VecInsert;
    ghost var head, loads, stores, tail := done, [], [], rest[1..];
    assert irs == head + (loads + [ir] + stores) + tail;
    if rule.Rule? {
      if rule.load1 && InFrame(vregs, phys, ir.opr1) {
        var ld := LoadSpilled(ir.opr1.value, OffsetOf(offs, ir.opr1.value), rule.loadSize);
        irs := InsertBefore(irs, j, ld, head, loads, ir, tail);
        loads := loads + [ld];
        j := j + 1;
        inserted := true;
      }
      if rule.load2 && InFrame(vregs, phys, ir.opr2) {
        var ld := LoadSpilled(ir.opr2.value, OffsetOf(offs, ir.opr2.value), rule.loadSize);
        irs := InsertBefore(irs, j, ld, head, loads, ir, tail);
        loads := loads + [ld];
        j := j + 1;
        inserted := true;
      }
      if rule.store && InFrame(vregs, phys, ir.dst) {
        j := j + 1;
        var st := StoreSpilled(ir.dst.value, OffsetOf(offs, ir.dst.value), ir.size);
        irs := InsertAfter(irs, j, st, head, loads, ir, tail);
        stores := [st];
        inserted := true;
      }
    }
    assert loads == Loads(vregs, phys, offs, ir) && stores == Stores(vregs, phys, offs, ir);
  }

  method InsertBefore(irs: Block, pos: nat, x: IR, ghost head: Block, ghost loads: Block, ghost ir: IR, ghost tail: Block)
    returns (irs': Block)
    requires irs == head + (loads + [ir] + []) + tail && pos == |head| + |loads|
    ensures irs' == head + (loads + [x] + [ir] + []) + tail
  {
    irs' := VecInsert(irs, pos, x);
  }

  method InsertAfter(irs: Block, pos: nat, x: IR, ghost head: Block, ghost loads: Block, ghost ir: IR, ghost tail: Block)
    returns (irs': Block)
    requires irs == head + (loads + [ir] + []) + tail && pos == |head| + |loads| + 1
    ensures irs' == head + (loads + [ir] + [x]) + tail
  {
    irs' := VecInsert(irs, pos, x);
  }

  /** Inserts the spill code of one block in place, stepping over what it inserts. */
  method InsertInBlock(vregs: seq<VReg>, phys: seq<int>, offs: seq<int>, irs0: Block) returns (irs: Block, inserted: bool)
    ensures irs == Expand(vregs, phys, offs, irs0)
    ensures inserted <==> irs != irs0
  {
    irs, inserted := irs0, false;
    var j: nat := 0;
    ghost var i: nat, done: Block := 0, [];
    assert irs0[..0] == [] && irs0[0..] == irs0;
    while j < |irs|
      invariant i <= |irs0| && i <= j == |done|
      invariant done == Expand(vregs, phys, offs, irs0[..i]) && irs == done + irs0[i..]
      invariant inserted <==> j > i
      decreases |irs0| - i
    {
      hide Expand, ExpandIR;
      ExpandSplits(vregs, phys, offs, irs0, i);
      var ins;
      irs, j, ins := InsertAround(vregs, phys, offs, irs, j, done, irs0[i..]);
      done := done + ExpandIR(vregs, phys, offs, irs0[i]);
      assert irs0[i..][1..] == irs0[i + 1..];
      inserted := inserted || ins;
      j := j + 1;
      i := i + 1;
    }
    assert irs0[..i] == irs0;
    assert irs == done;
    LongerIsDifferent(vregs, phys, offs, irs0);
  }

  lemma {:induction false} LongerIsDifferent(vregs: seq<VReg>, phys: seq<int>, offs: seq<int>, irs: Block)
    ensures |Expand(vregs, phys, offs, irs)| >= |irs|
    ensures |Expand(vregs, phys, offs, irs)| == |irs| ==> Expand(vregs, phys, offs, irs) == irs
  {
    hide ExpandIR;
    if irs != [] {
      var n := |irs| - 1;
      LongerIsDifferent(vregs, phys, offs, irs[..n]);
      OneIsSame(vregs, phys, offs, irs[n]);
      assert irs == irs[..n] + [irs[n]];
    }
  }

  lemma OneIsSame(vregs: seq<VReg>, phys: seq<int>, offs: seq<int>, ir: IR)
    ensures |ExpandIR(vregs, phys, offs, ir)| >= 1
    ensures |ExpandIR(vregs, phys, offs, ir)| == 1 ==> ExpandIR(vregs, phys, offs, ir) == [ir]
  {
  }

  method InsertLoadStoreSpilled(vregs: seq<VReg>, phys: seq<int>, offs: seq<int>, bbs: seq<Block>)
    returns (bbs': seq<Block>, inserted: bool)
    ensures |bbs'| == |bbs|
    ensures forall b | 0 <= b < |bbs| :: bbs'[b] == Expand(vregs, phys, offs, bbs[b])
    ensures inserted <==> bbs' != bbs
  {
    bbs', inserted := bbs, false;
    for i := 0 to |bbs|
      invariant |bbs'| == |bbs|
      invariant forall b | 0 <= b < i :: bbs'[b] == Expand(vregs, phys, offs, bbs[b])
      invariant forall b | i <= b < |bbs| :: bbs'[b] == bbs[b]
      invariant inserted <==> exists b :: 0 <= b < i && bbs'[b] != bbs[b]
    {
      var irs, ins := InsertInBlock(vregs, phys, offs, bbs[i]);
      bbs' := bbs'[i := irs];
      inserted := inserted || ins;
    }
  }
}
