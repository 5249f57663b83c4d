/** The code of a condition jumps exactly when it should, with the effects in source order. */
module LowerCond {
  import opened Options
  import opened Ir
  import opened Conditions
  import opened LowerCode
  import opened LowerGen
  import St = Structured

  /** Values lie in the range of their type, and constants are what they say. */
  ghost predicate TypedAt<S>(m: St.Sem<S>, ty: Types, e: nat, s: S) {
    var v := m.eval(e, s).0;
    && ty.half(e) > 0
    && (if ty.unsigned(e) then 0 <= v < 2 * ty.half(e) else v + ty.half(e) >= 0 && v < ty.half(e))
    && (ty.konst(e).Some? ==> m.eval(e, s) == (ty.konst(e).value, s))
  }

  ghost predicate Typed<S(!new)>(m: St.Sem<S>, ty: Types) {
    forall e, s :: TypedAt(m, ty, e, s)
  }

  /** The operands of a compare have one type, and are not both constant. */
  predicate WellTyped(ty: Types, c: St.Cond) {
    match c
    case Fixnum(_) => true
    case Cmp(_, lhs, rhs) =>
      ty.half(lhs) == ty.half(rhs) && ty.unsigned(lhs) == ty.unsigned(rhs) && (ty.konst(lhs).None? || ty.konst(rhs).None?)
    case LogAnd(l, r) => WellTyped(ty, l) && WellTyped(ty, r)
    case LogOr(l, r) => WellTyped(ty, l) && WellTyped(ty, r)
  }

  /** The condition `gen_compare_expr` chooses holds of the operands in the order it compares them. */
  lemma CondChoice(kind: St.CmpKind, swap: bool, unsigned: bool, half: nat, a: int, b: int)
    requires half > 0
    requires if unsigned then 0 <= a < 2 * half && 0 <= b < 2 * half else a + half >= 0 && a < half && b + half >= 0 && b < half
    ensures var c := if swap then SwapCond(CondOf(kind)) else CondOf(kind);
            var c1 := if CondNo(c) > CondNo(NE) && unsigned then OfCondNo(CondNo(c) + (CondNo(ULT) - CondNo(LT))) else c;
            var x, y := Bits(if swap then b else a, half), Bits(if swap then a else b, half);
            Holds(c1, CmpFlags(x, y, half)) == St.Compare(kind, a, b)
  {
    hide Bits, Signed, CmpFlags;
    BitsOf(a, half);
    BitsOf(b, half);
    var x, y := Bits(if swap then b else a, half), Bits(if swap then a else b, half);
    CmpFlagsTell(x, y, half);
    SignedIs(a, b, unsigned, half);
  }

  lemma SignedIs(a: int, b: int, unsigned: bool, half: nat)
    requires half > 0
    requires if unsigned then 0 <= a < 2 * half && 0 <= b < 2 * half else a + half >= 0 && a < half && b + half >= 0 && b < half
    ensures Bits(a, half) == Bits(b, half) <==> a == b
    ensures !unsigned ==> Signed(Bits(a, half), half) == a && Signed(Bits(b, half), half) == b
    ensures unsigned ==> Bits(a, half) == a && Bits(b, half) == b
  {
    BitsOf(a, half);
    BitsOf(b, half);
  }

  /** One compare: its flags tell the comparison. */
  lemma CompareStep<S(!new)>(m: St.Sem<S>, ty: Types, kind: St.CmpKind, lhs: nat, rhs: nat, prog: Code, p: nat, st: Mach<S>)
    requires Typed(m, ty) && WellTyped(ty, St.Cmp(kind, lhs, rhs))
    requires At(prog, p, CompareCode(ty, kind, lhs, rhs).0)
    ensures |CompareCode(ty, kind, lhs, rhs).0| == 1
    ensures var (q, st1) := Step(m, prog, p, st);
            var (a, s1) := m.eval(lhs, st.s);
            var (b, s2) := m.eval(rhs, s1);
            q == p + 1 && st1.s == s2 && Holds(CompareCode(ty, kind, lhs, rhs).1, st1.flags) == St.Compare(kind, a, b)
  {
    hide Holds, CmpFlags, Bits, CondNo, OfCondNo, SwapCond;
    var (a, s1) := m.eval(lhs, st.s);
    var (b, s2) := m.eval(rhs, s1);
    var t := CompareCode(ty, kind, lhs, rhs).0[0];
    AtOne(prog, p, t);
    var swap := ty.konst(lhs).Some?;
    var half := ty.half(lhs);
    assert TypedAt(m, ty, lhs, st.s) && TypedAt(m, ty, rhs, s1) && TypedAt(m, ty, rhs, st.s);
    assert TypedAt(m, ty, lhs, m.eval(rhs, st.s).1);
    CondChoice(kind, swap, ty.unsigned(lhs), half, a, b);
    CompareTaken(m, ty, kind, lhs, rhs, prog, p, st);
  }

  /** `test` only asks for equality with zero, and an immediate operand fits 32 bits unless its type does. */
  lemma CompareForms(ty: Types, kind: St.CmpKind, lhs: nat, rhs: nat)
    ensures var (code, cond) := CompareCode(ty, kind, lhs, rhs);
            && |code| == 1
            && (code[0].Test? ==> (cond == EQ || cond == NE) && (ty.konst(lhs) == Some(0) || ty.konst(rhs) == Some(0)))
            && (code[0].CmpImm? ==> ty.small(code[0].lhs) || -0x8000_0000 <= code[0].imm <= 0x7fff_ffff)
  {
    hide SwapCond, CondOf, OfCondNo, CondNo;
  }

  /** The one instruction of a compare sets the flags of the operands in the order chosen. */
  lemma CompareTaken<S(!new)>(m: St.Sem<S>, ty: Types, kind: St.CmpKind, lhs: nat, rhs: nat, prog: Code, p: nat, st: Mach<S>)
    requires Typed(m, ty) && WellTyped(ty, St.Cmp(kind, lhs, rhs))
    requires |CompareCode(ty, kind, lhs, rhs).0| == 1 && p < |prog| && prog[p] == CompareCode(ty, kind, lhs, rhs).0[0]
    ensures var (q, st1) := Step(m, prog, p, st);
            var (a, s1) := m.eval(lhs, st.s);
            var (b, s2) := m.eval(rhs, s1);
            var swap, half := ty.konst(lhs).Some?, ty.half(lhs);
            && half > 0 && q == p + 1 && st1.s == s2
            && st1.flags == CmpFlags(Bits(if swap then b else a, half), Bits(if swap then a else b, half), half)
  {
    hide Holds, CmpFlags, Bits, CondNo, OfCondNo, SwapCond;
    var (a, s1) := m.eval(lhs, st.s);
    assert TypedAt(m, ty, lhs, st.s) && TypedAt(m, ty, rhs, s1) && TypedAt(m, ty, rhs, st.s);
    assert TypedAt(m, ty, lhs, m.eval(rhs, st.s).1);
  }

  lemma {:induction false} CondSim<S(!new)>(m: St.Sem<S>, ty: Types, c: St.Cond, tf: bool, bb: nat, n: nat, prog: Code, p: nat, st: Mach<S>) returns (k: nat)
    requires Typed(m, ty) && WellTyped(ty, c)
    requires Unique(prog) && HasLab(prog, bb) && At(prog, p, GenCond(ty, c, tf, bb, n).0)
    ensures var (v, s1) := St.CondValue(m, c, st.s);
            var (q, st1) := Go(m, prog, p, st, k);
            st1.s == s1 && q == if v == tf then Pos(prog, bb) else p + |GenCond(ty, c, tf, bb, n).0|
    decreases c
  {
    hide CompareCode, Step;
    match c
    case Fixnum(v) =>
      if (v != 0) == tf {
        AtOne(prog, p, Jcc(ANY, bb));
        JccStep(m, prog, p, st, ANY, bb);
        GoOne(m, prog, p, st);
        k := 1;
      } else {
        k := 0;
      }
    case Cmp(kind, lhs, rhs) =>
      k := CmpSim(m, ty, kind, lhs, rhs, tf, bb, prog, p, st);
    case LogAnd(l, r) =>
      k := LogSim(m, ty, l, r, false, tf, bb, n, prog, p, st);
    case LogOr(l, r) =>
      k := LogSim(m, ty, l, r, true, tf, bb, n, prog, p, st);
  }

  lemma JccStep<S>(m: St.Sem<S>, prog: Code, p: nat, st: Mach<S>, c: CondKind, bb: nat)
    requires p < |prog| && prog[p] == Jcc(c, bb) && HasLab(prog, bb)
    ensures Step(m, prog, p, st) == (if Holds(c, st.flags) then Pos(prog, bb) else p + 1, st)
  {
  }

  lemma CmpSim<S(!new)>(m: St.Sem<S>, ty: Types, kind: St.CmpKind, lhs: nat, rhs: nat, tf: bool, bb: nat, prog: Code, p: nat, st: Mach<S>) returns (k: nat)
    requires Typed(m, ty) && WellTyped(ty, St.Cmp(kind, lhs, rhs))
    requires Unique(prog) && HasLab(prog, bb)
    requires var (cmp, cond) := CompareCode(ty, if tf then kind else St.InvertKind(kind), lhs, rhs); At(prog, p, cmp + [Jcc(cond, bb)])
    ensures |CompareCode(ty, if tf then kind else St.InvertKind(kind), lhs, rhs).0| == 1
    ensures var (v, s1) := St.CondValue(m, St.Cmp(kind, lhs, rhs), st.s);
            var (q, st1) := Go(m, prog, p, st, k);
            st1.s == s1 && q == if v == tf then Pos(prog, bb) else p + 2
  {
    hide CompareCode, Step, Holds;
    var kd := if tf then kind else St.InvertKind(kind);
    var (cmp, cond) := CompareCode(ty, kd, lhs, rhs);
    AtJoin(prog, p, cmp, [Jcc(cond, bb)]);
    CompareStep(m, ty, kd, lhs, rhs, prog, p, st);
    var (q, st1) := Step(m, prog, p, st);
    AtOne(prog, p + 1, Jcc(cond, bb));
    JccStep(m, prog, p + 1, st1, cond, bb);
    GoOne(m, prog, p, st);
    GoOne(m, prog, p + 1, st1);
    GoPlus(m, prog, p, st, 1, 1);
    k := 2;
  }

  lemma {:induction false} LogSim<S(!new)>(m: St.Sem<S>, ty: Types, l: St.Cond, r: St.Cond, or: bool, tf: bool, bb: nat, n: nat, prog: Code, p: nat, st: Mach<S>) returns (k: nat)
    requires Typed(m, ty) && WellTyped(ty, l) && WellTyped(ty, r)
    requires var c := if or then St.LogOr(l, r) else St.LogAnd(l, r);
             Unique(prog) && HasLab(prog, bb) && At(prog, p, GenCond(ty, c, tf, bb, n).0)
    ensures var c := if or then St.LogOr(l, r) else St.LogAnd(l, r);
            var (v, s1) := St.CondValue(m, c, st.s);
            var (q, st1) := Go(m, prog, p, st, k);
            st1.s == s1 && q == if v == tf then Pos(prog, bb) else p + |GenCond(ty, c, tf, bb, n).0|
    decreases if or then St.LogOr(l, r) else St.LogAnd(l, r), 0
  {
    hide GenCond, Step, At, Unique, LogCode, HasLab, Typed, WellTyped;
    assert WellTyped(ty, l) && WellTyped(ty, r);
    var c := if or then St.LogOr(l, r) else St.LogAnd(l, r);
    var first := if or == tf then bb else n + 1;
    var (c1, n1) := GenCond(ty, l, or, first, n + 2);
    var (c2, n2) := GenCond(ty, r, tf, bb, n1);
    assert GenCond(ty, c, tf, bb, n).0 == LogCode(c1, n, c2) by { LogCodeIs(ty, l, r, or, tf, bb, n); }
    LogPlaces(prog, p, c1, n, c2);
    var q1, q2 := p + |c1|, p + |c1| + 1 + |c2|;
    var (v, s1) := St.CondValue(m, l, st.s);
    var k1 := CondSim(m, ty, l, or, first, n + 2, prog, p, st);
    var (p1, st1) := Go(m, prog, p, st, k1);
    if v == or {
      // The first operand settles it.
      k := k1;
      if or != tf {
        LabAfter(m, prog, p, st, k1, q2, n + 1);
        k := k1 + 1;
      }
    } else {
      LabAfter(m, prog, p, st, k1, q1, n);
      var k2 := CondSim(m, ty, r, tf, bb, n1, prog, q1 + 1, st1);
      GoPlus(m, prog, p, st, k1 + 1, k2);
      k := k1 + 1 + k2;
      if St.CondValue(m, r, s1).0 != tf {
        LabAfter(m, prog, p, st, k, q2, n + 1);
        k := k + 1;
      }
    }
  }

  /** One step more, over a label. */
  lemma LabAfter<S>(m: St.Sem<S>, prog: Code, p: nat, st: Mach<S>, k: nat, q: nat, l: nat)
    requires p <= |prog| && Go(m, prog, p, st, k).0 == q < |prog| && prog[q] == Lab(l)
    ensures Go(m, prog, p, st, k + 1) == (q + 1, Go(m, prog, p, st, k).1)
  {
    LabStep(m, prog, q, l, Go(m, prog, p, st, k).1);
    GoPlus(m, prog, p, st, k, 1);
  }

  lemma LogCodeIs(ty: Types, l: St.Cond, r: St.Cond, or: bool, tf: bool, bb: nat, n: nat)
    ensures var c := if or then St.LogOr(l, r) else St.LogAnd(l, r);
            var (c1, n1) := GenCond(ty, l, or, if or == tf then bb else n + 1, n + 2);
            GenCond(ty, c, tf, bb, n).0 == LogCode(c1, n, GenCond(ty, r, tf, bb, n1).0)
  {
  }

  /** Where the parts of `&&` and `||` lie. */
  lemma LogPlaces(prog: Code, p: nat, a: Code, n: nat, b: Code)
    requires At(prog, p, LogCode(a, n, b)) && Unique(prog)
    ensures At(prog, p, a) && At(prog, p + |a| + 1, b)
    ensures p + |LogCode(a, n, b)| == p + |a| + 1 + |b| + 1 <= |prog|
    ensures prog[p + |a|] == Lab(n)
    ensures HasLab(prog, n + 1) && Pos(prog, n + 1) == p + |a| + 1 + |b| && prog[p + |a| + 1 + |b|] == Lab(n + 1)
  {
    AtJoin(prog, p, a, [Lab(n)] + (b + [Lab(n + 1)]));
    AtHead(prog, p + |a|, Lab(n), b + [Lab(n + 1)]);
    AtJoin(prog, p + |a| + 1, b, [Lab(n + 1)]);
    AtOne(prog, p + |a| + 1 + |b|, Lab(n + 1));
    PosIs(prog, n + 1, p + |a| + 1 + |b|);
  }

  lemma LabStep<S>(m: St.Sem<S>, prog: Code, p: nat, l: nat, st: Mach<S>)
    requires p < |prog| && prog[p] == Lab(l)
    ensures Go(m, prog, p, st, 1) == (p + 1, st)
  {
    GoOne(m, prog, p, st);
  }
}
