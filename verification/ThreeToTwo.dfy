/**
 `three_to_two`: `A = B op C` becomes `A = B; A = A op C`. The meaning is kept
 exactly when `C` is not `A`, or `B` is.
 */
module ThreeToTwo {
  import opened Options
  import opened Ir
  import opened Machine

  /** The operations that are rewritten. */
  predicate IsArith(kind: IrKind) {
    kind == ADD || kind == SUB || kind == MUL || kind == DIV || kind == DIVU || kind == MOD || kind == MODU
    || kind == BITAND || kind == BITOR || kind == BITXOR || kind == LSHIFT || kind == RSHIFT || kind == NEG || kind == BITNOT
  }

  function MovOf(ir: IR): IR {
    IR(MOV, ir.dst, ir.opr1, None, ir.size, 0, ANY, 0, {})
  }

  function Two(ir: IR): seq<IR> {
    if IsArith(ir.kind) then [MovOf(ir), ir.(opr1 := ir.dst)] else [ir]
  }

  function Convert(irs: seq<IR>): seq<IR> {
    if irs == [] then [] else Two(irs[0]) + Convert(irs[1..])
  }

  /** The pass over one block: the copy is inserted ahead of the operation. */
  method ConvertBlock(irs0: seq<IR>) returns (irs: seq<IR>)
    ensures irs == Convert(irs0)
    ensures forall k | 0 <= k < |irs| :: TwoOperand(irs[k])
  {
    TwoOperands(irs0);
    irs := irs0;
    var i: nat := 0;
    ghost var done: seq<IR>, k: nat := [], 0;
    assert irs0[0..] == irs0;
    while i < |irs|
      invariant k <= |irs0| && i == |done| && irs == done + irs0[k..]
      invariant done + Convert(irs0[k..]) == Convert(irs0)
      decreases |irs0| - k
    {
      hide Two;
      ghost var ir, rest := irs0[k], irs0[k + 1..];
      assert irs0[k..] == [ir] + rest && irs0[k..][1..] == rest;
      Glue(done, Two(ir), Convert(rest));
      irs, i := ConvertAt(irs, i, done, ir, rest);
      done := done + Two(ir);
      k := k + 1;
    }
    assert irs0[k..] == [] && done + [] == done;
  }

  /** An operation works on its destination. */
  predicate TwoOperand(ir: IR) {
    ir.kind in {ADD, SUB, MUL, DIV, DIVU, MOD, MODU, BITAND, BITOR, BITXOR, LSHIFT, RSHIFT, NEG, BITNOT} ==> ir.opr1 == ir.dst
  }

  lemma {:induction false} TwoOperands(irs: seq<IR>)
    ensures forall k | 0 <= k < |Convert(irs)| :: TwoOperand(Convert(irs)[k])
  {
    if irs != [] {
      TwoOperands(irs[1..]);
    }
  }

  method ConvertAt(irs0: seq<IR>, i0: nat, ghost done: seq<IR>, ghost ir0: IR, ghost rest: seq<IR>) returns (irs: seq<IR>, i: nat)
    requires i0 == |done| && irs0 == done + ([ir0] + rest)
    ensures irs == (done + Two(ir0)) + rest && i == |done + Two(ir0)|
  {
    irs, i := irs0, i0;
    var ir := irs[i];
    if IsArith(ir.kind) {
      irs := irs[..i] + [MovOf(ir)] + irs[i..];
      i := i + 1;
      irs := irs[i := irs[i].(opr1 := ir.dst)];
    }
    i := i + 1;
  }

  lemma Glue(a: seq<IR>, b: seq<IR>, c: seq<IR>)
    ensures (a + b) + c == a + (b + c)
  {
  }

  // ----- What copies and operations do -----

  /** An operation's result, from the low bytes of its first operand and its second. */
  datatype Alu<!W> = Alu(op: (IrKind, nat, Bytes, Bytes) -> Bytes, flags: (IrKind, nat, Bytes, Bytes, W) -> W)

  function Width(ir: IR): nat {
    if ir.size >= 0 then ir.size else 0
  }

  ghost predicate Computes<W>(m: Sem<W>, alu: Alu<W>, ir: IR, a: Bytes, b: Bytes, refs: map<nat, Bytes>, w: W) {
    var x := Fit(a, Width(ir));
    && (ir.kind == MOV ==> m.exec(ir, a, b, refs, w) == Outcome(x, map[], w))
    && (IsArith(ir.kind) ==> m.exec(ir, a, b, refs, w) == Outcome(alu.op(ir.kind, Width(ir), x, b), map[], alu.flags(ir.kind, Width(ir), x, b, w)))
  }

  ghost predicate ComputesAll<W(!new)>(m: Sem<W>, alu: Alu<W>) {
    forall ir, a, b, refs, w :: Computes(m, alu, ir, a, b, refs, w)
  }

  /** The second operand is not overwritten by the copy. */
  predicate Fresh(ir: IR) {
    IsArith(ir.kind) ==> ir.opr2 != ir.dst || ir.opr1 == ir.dst
  }

  /** The destination is a variable as wide as the operation. */
  ghost predicate WellSized(p: Prog, ir: IR) {
    IsArith(ir.kind) ==>
      ir.dst.Some? && ir.opr1.Some? && ir.dst.value < |p.vregs| && !IsConst(p.vregs, ir.dst.value)
      && Width(ir) == SizeOf(p, ir.dst.value)
  }

  /** The state has a value of its size for every variable. */
  ghost predicate Sized<W>(p: Prog, s: VState<W>) {
    |s.env| == |p.vregs| && forall v | 0 <= v < |s.env| :: |s.env[v]| == SizeOf(p, v)
  }

  function ExecAll<W>(p: Prog, m: Sem<W>, irs: seq<IR>, s: VState<W>): VState<W> {
    if irs == [] then s else ExecAll(p, m, irs[1..], ExecV(p, m, irs[0], s))
  }

  lemma ExecSized<W>(p: Prog, m: Sem<W>, ir: IR, s: VState<W>)
    requires Sized(p, s)
    ensures Sized(p, ExecV(p, m, ir, s))
  {
  }

  lemma EnvKept<W>(p: Prog, s: VState<W>)
    requires Sized(p, s)
    ensures EnvAfter(p, s.env, map[]) == s.env
  {
  }

  /** What a copy and an operation make of the state. */
  lemma CopyIs<W(!new)>(p: Prog, m: Sem<W>, alu: Alu<W>, ir: IR, s: VState<W>)
    requires ComputesAll(m, alu) && Sized(p, s) && ir.kind == MOV && ir.dst.Some? && ir.dst.value < |p.vregs|
    ensures var x := Fit(OperandV(p, s.env, ir.opr1), Width(ir));
            ExecV(p, m, ir, s) == s.(env := s.env[ir.dst.value := Fit(x, SizeOf(p, ir.dst.value))])
  {
    EnvKept(p, s);
    assert Computes(m, alu, ir, OperandV(p, s.env, Read1(ir)), OperandV(p, s.env, ir.opr2), RefsV(p, s.env), s.w);
  }

  lemma ArithIs<W(!new)>(p: Prog, m: Sem<W>, alu: Alu<W>, ir: IR, s: VState<W>)
    requires ComputesAll(m, alu) && Sized(p, s) && IsArith(ir.kind) && ir.dst.Some? && ir.dst.value < |p.vregs|
    ensures var x, b, n := Fit(OperandV(p, s.env, ir.opr1), Width(ir)), OperandV(p, s.env, ir.opr2), Width(ir);
            ExecV(p, m, ir, s) == VState(s.env[ir.dst.value := Fit(alu.op(ir.kind, n, x, b), SizeOf(p, ir.dst.value))], alu.flags(ir.kind, n, x, b, s.w))
  {
    EnvKept(p, s);
    assert Computes(m, alu, ir, OperandV(p, s.env, Read1(ir)), OperandV(p, s.env, ir.opr2), RefsV(p, s.env), s.w);
  }

  /** A fresh destination: both instructions together do what the one did. */
  lemma TwoIsSame<W(!new)>(p: Prog, m: Sem<W>, alu: Alu<W>, ir: IR, s: VState<W>)
    requires ComputesAll(m, alu) && Sized(p, s) && WellSized(p, ir) && Fresh(ir)
    ensures ExecAll(p, m, Two(ir), s) == ExecV(p, m, ir, s)
  {
    var two := Two(ir);
    if IsArith(ir.kind) {
      hide ExecV, ComputesAll, OperandV;
      var mov, op, n := two[0], two[1], Width(ir);
      var s1 := ExecV(p, m, mov, s);
      CopyIs(p, m, alu, mov, s);
      ExecSized(p, m, mov, s);
      ArithIs(p, m, alu, op, s1);
      ArithIs(p, m, alu, ir, s);
      var x := Fit(OperandV(p, s.env, ir.opr1), n);
      OperandsKept(p, ir, s, x);
      assert s1.env == s.env[ir.dst.value := x];
      ExecTwo(p, m, mov, op, s);
    } else {
      assert two[1..] == [];
    }
  }

  lemma ExecTwo<W>(p: Prog, m: Sem<W>, a: IR, b: IR, s: VState<W>)
    ensures ExecAll(p, m, [a, b], s) == ExecV(p, m, b, ExecV(p, m, a, s))
  {
    assert [a, b][1..] == [b] && [b][1..] == [];
    assert ExecAll(p, m, [b], ExecV(p, m, a, s)) == ExecV(p, m, b, ExecV(p, m, a, s));
  }

  /** Behind the copy the destination holds the first operand, and the second is what it was. */
  lemma OperandsKept<W>(p: Prog, ir: IR, s: VState<W>, x: Bytes)
    requires Sized(p, s) && IsArith(ir.kind) && WellSized(p, ir) && Fresh(ir)
    requires x == Fit(OperandV(p, s.env, ir.opr1), Width(ir))
    ensures OperandV(p, s.env[ir.dst.value := x], ir.dst) == x
    ensures OperandV(p, s.env[ir.dst.value := x], ir.opr2) == OperandV(p, s.env, ir.opr2)
  {
    if ir.opr1 == ir.dst {
      assert x == s.env[ir.dst.value];
      assert s.env[ir.dst.value := x] == s.env;
    }
  }

  lemma {:induction false} ExecJoin<W>(p: Prog, m: Sem<W>, a: seq<IR>, b: seq<IR>, s: VState<W>)
    ensures ExecAll(p, m, a + b, s) == ExecAll(p, m, b, ExecAll(p, m, a, s))
    decreases |a|
  {
    if a == [] {
      assert a + b == b;
    } else {
      assert (a + b)[0] == a[0] && (a + b)[1..] == a[1..] + b;
      ExecJoin(p, m, a[1..], b, ExecV(p, m, a[0], s));
    }
  }

  /** A block whose destinations are fresh does what it did. */
  lemma {:induction false} ConvertIsSame<W(!new)>(p: Prog, m: Sem<W>, alu: Alu<W>, irs: seq<IR>, s: VState<W>)
    requires ComputesAll(m, alu) && Sized(p, s)
    requires forall ir | ir in irs :: WellSized(p, ir) && Fresh(ir)
    ensures ExecAll(p, m, Convert(irs), s) == ExecAll(p, m, irs, s)
    decreases irs
  {
    hide ComputesAll, WellSized, Fresh, ExecV, Two;
    if irs != [] {
      TwoIsSame(p, m, alu, irs[0], s);
      ExecSized(p, m, irs[0], s);
      ExecJoin(p, m, Two(irs[0]), Convert(irs[1..]), s);
      ConvertIsSame(p, m, alu, irs[1..], ExecV(p, m, irs[0], s));
    }
  }

  // ----- When it is not kept -----

  /** The operation that yields its second operand. */
  function Second(): Alu<()> {
    Alu((_, _, _, b) => b, (_, _, _, _, w) => w)
  }

  function SecondSem(): Sem<()> {
    Sem((ir: IR, a: Bytes, b: Bytes, refs: map<nat, Bytes>, w: ()) =>
          if ir.kind == MOV then Outcome(Fit(a, Width(ir)), map[], w) else Outcome(b, map[], w),
        (_, _) => false, (_, _, _) => [])
  }

  lemma SecondComputes()
    ensures ComputesAll(SecondSem(), Second())
  {
    forall ir, a, b, refs, w ensures Computes(SecondSem(), Second(), ir, a, b, refs, w) {}
  }

  /**
   The copy overwrites a second operand that is the destination: for operations
   in general the meaning is kept exactly when the destination is fresh.
   */
  lemma KeptIffFresh(p: Prog, ir: IR, s: VState<()>)
    requires IsArith(ir.kind) && WellSized(p, ir) && Sized(p, s)
    requires ir.opr1.value < |p.vregs| && !IsConst(p.vregs, ir.opr1.value)
    requires ir.dst.value < |s.env| && ir.opr1.value < |s.env|
    // The two operands differ in the bytes the operation reads.
    requires ir.opr1 != ir.dst ==> Fit(s.env[ir.opr1.value], Width(ir)) != s.env[ir.dst.value]
    ensures Fresh(ir) <==> ExecAll(p, SecondSem(), Two(ir), s) == ExecV(p, SecondSem(), ir, s)
  {
    SecondComputes();
    var m, alu := SecondSem(), Second();
    if Fresh(ir) {
      TwoIsSame(p, m, alu, ir, s);
    } else {
      Overwritten(p, ir, s);
    }
  }

  lemma Overwritten(p: Prog, ir: IR, s: VState<()>)
    requires IsArith(ir.kind) && WellSized(p, ir) && Sized(p, s) && !Fresh(ir)
    requires ir.opr1.value < |p.vregs| && !IsConst(p.vregs, ir.opr1.value)
    requires Fit(s.env[ir.opr1.value], Width(ir)) != s.env[ir.dst.value]
    ensures ExecAll(p, SecondSem(), Two(ir), s) != ExecV(p, SecondSem(), ir, s)
  {
    SecondComputes();
    hide ExecV, ComputesAll, SecondSem;
    var m, alu := SecondSem(), Second();
    var two := Two(ir);
    var mov, op, d := two[0], two[1], ir.dst.value;
    ExecTwo(p, m, mov, op, s);
    CopyIs(p, m, alu, mov, s);
    var s1 := ExecV(p, m, mov, s);
    ExecSized(p, m, mov, s);
    ArithIs(p, m, alu, op, s1);
    ArithIs(p, m, alu, ir, s);
    assert ExecV(p, m, ir, s).env[d] == s.env[d];
    assert ExecAll(p, m, two, s).env[d] == s1.env[d];
  }
}
