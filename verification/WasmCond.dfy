/** The code of a condition leaves its truth on the stack. */
module WasmCond {
  import opened Options
  import opened Structured
  import opened WasmCode
  import opened WasmGen
  import opened WasmSim

  // ----- Conditions -----

  /** A condition's code leaves on the stack whether its truth is `tf`, with the effects in source order. */
  lemma {:induction false} CondExec<S>(m: Sem<S>, c: Cond, tf: bool, rest: Code, labels: seq<Label>, stack: seq<int>, s: S, fuel: nat)
    ensures var (v, s1) := CondValue(m, c, s);
            Exec(m, CondCode(c, tf) + rest, labels, stack, s, fuel) == Exec(m, rest, labels, stack + [Bool(v == tf)], s1, fuel)
    decreases c, 1
  {
    match c
    case Fixnum(v) => FixnumExec(m, v, tf, rest, labels, stack, s, fuel);
    case Cmp(kind, lhs, rhs) => CmpExec(m, kind, lhs, rhs, tf, rest, labels, stack, s, fuel);
    case LogAnd(l, r) => LogExec(m, l, r, tf, tf, rest, labels, stack, s, fuel);
    case LogOr(l, r) => LogExec(m, l, r, tf, !tf, rest, labels, stack, s, fuel);
  }

  lemma FixnumExec<S>(m: Sem<S>, v: int, tf: bool, rest: Code, labels: seq<Label>, stack: seq<int>, s: S, fuel: nat)
    ensures Exec(m, CondCode(Fixnum(v), tf) + rest, labels, stack, s, fuel) == Exec(m, rest, labels, stack + [Bool((v != 0) == tf)], s, fuel)
  {
    var cmp := TCmp(if tf then NE else EQ);
    assert CondCode(Fixnum(v), tf) + rest == [TConst(v)] + ([TConst(0)] + ([cmp] + rest));
    Head(TConst(v), [TConst(0)] + ([cmp] + rest));
    Head(TConst(0), [cmp] + rest);
    CmpStep(m, cmp.kind, v, 0, rest, labels, stack, s, fuel);
  }

  lemma CmpStep<S>(m: Sem<S>, kind: CmpKind, a: int, b: int, rest: Code, labels: seq<Label>, stack: seq<int>, s: S, fuel: nat)
    ensures Exec(m, [TCmp(kind)] + rest, labels, (stack + [a]) + [b], s, fuel)
         == Exec(m, rest, labels, stack + [Bool(Compare(kind, a, b))], s, fuel)
  {
    Head(TCmp(kind), rest);
    assert ((stack + [a]) + [b])[..|stack|] == stack;
  }

  lemma CmpExec<S>(m: Sem<S>, kind: CmpKind, lhs: nat, rhs: nat, tf: bool, rest: Code, labels: seq<Label>, stack: seq<int>, s: S, fuel: nat)
    ensures var (v, s1) := CondValue(m, Cmp(kind, lhs, rhs), s);
            Exec(m, CondCode(Cmp(kind, lhs, rhs), tf) + rest, labels, stack, s, fuel) == Exec(m, rest, labels, stack + [Bool(v == tf)], s1, fuel)
  {
    var k := if tf then kind else InvertKind(kind);
    var (a, s1) := m.eval(lhs, s);
    var (b, s2) := m.eval(rhs, s1);
    assert CondCode(Cmp(kind, lhs, rhs), tf) + rest == [TEval(lhs)] + ([TEval(rhs)] + ([TCmp(k)] + rest));
    Head(TEval(lhs), [TEval(rhs)] + ([TCmp(k)] + rest));
    Head(TEval(rhs), [TCmp(k)] + rest);
    CmpStep(m, k, a, b, rest, labels, stack, s2, fuel);
    assert Compare(k, a, b) == (Compare(kind, a, b) == tf);
  }

  lemma IfStep<S>(m: Sem<S>, arity: nat, v: bool, a: Code, b: Code, rest: Code, labels: seq<Label>, stack: seq<int>, s: S, fuel: nat)
    requires Closes(a, 0) && Closes(b, 0)
    ensures Exec(m, [TIf(arity)] + (a + ([TElse] + (b + ([TEnd] + rest)))), labels, stack + [Bool(v)], s, fuel)
         == Exec(m, if v then a + ([TElse] + (b + ([TEnd] + rest))) else b + ([TEnd] + rest), [Label(|stack|, arity, None)] + labels, stack, s, fuel)
  {
    var r1 := [TElse] + (b + ([TEnd] + rest));
    Head(TIf(arity), a + r1);
    assert (stack + [Bool(v)])[..|stack|] == stack;
    if !v {
      ClosesAt(a, 0, r1, 0, true);
      Head(TElse, b + ([TEnd] + rest));
    }
  }

  /** From the end of a `then` branch to behind the whole. */
  lemma ElseStep<S>(m: Sem<S>, b: Code, rest: Code, lab: Label, labels: seq<Label>, stack: seq<int>, s: S, fuel: nat)
    requires Closes(b, 0) && |stack| == lab.height + lab.arity
    ensures Exec(m, [TElse] + (b + ([TEnd] + rest)), [lab] + labels, stack, s, fuel) == Exec(m, rest, labels, stack, s, fuel)
  {
    Head(TElse, b + ([TEnd] + rest));
    ClosesAt(b, 0, [TEnd] + rest, 0, false);
    Head(TEnd, rest);
  }

  lemma EndStep<S>(m: Sem<S>, rest: Code, lab: Label, labels: seq<Label>, stack: seq<int>, s: S, fuel: nat)
    requires |stack| == lab.height + lab.arity
    ensures Exec(m, [TEnd] + rest, [lab] + labels, stack, s, fuel) == Exec(m, rest, labels, stack, s, fuel)
  {
    Head(TEnd, rest);
  }

  lemma ConstStep<S>(m: Sem<S>, v: int, rest: Code, labels: seq<Label>, stack: seq<int>, s: S, fuel: nat)
    ensures Exec(m, [TConst(v)] + rest, labels, stack, s, fuel) == Exec(m, rest, labels, stack + [v], s, fuel)
  {
    Head(TConst(v), rest);
  }

  /** The code of `&&` or `||` behind its first operand. */
  function Arms(b: Code, inThen: bool, rest: Code): Code {
    var k := [TConst(if inThen then 0 else 1)];
    [TIf(1)] + ((if inThen then b else k) + ([TElse] + ((if inThen then k else b) + ([TEnd] + rest))))
  }

  function Log(l: Cond, r: Cond, and: bool): Cond {
    if and then LogAnd(l, r) else LogOr(l, r)
  }

  lemma LogShape(l: Cond, r: Cond, tf: bool, inThen: bool, rest: Code)
    ensures CondCode(Log(l, r, inThen == tf), tf) + rest == CondCode(l, tf) + Arms(CondCode(r, tf), inThen, rest)
  {
    var a, b := CondCode(l, tf), CondCode(r, tf);
    if inThen {
      Shape(a, b, [TConst(0)], rest);
      assert [TElse] + [TConst(0)] + [TEnd] == [TElse, TConst(0), TEnd];
    } else {
      Shape(a, [TConst(1)], b, rest);
      assert [TIf(1)] + [TConst(1)] + [TElse] == [TIf(1), TConst(1), TElse];
    }
  }

  lemma Shape(a: Code, t: Code, f: Code, rest: Code)
    ensures a + [TIf(1)] + t + ([TElse] + f + [TEnd]) + rest == a + ([TIf(1)] + (t + ([TElse] + (f + ([TEnd] + rest)))))
    ensures a + ([TIf(1)] + t + [TElse]) + f + [TEnd] + rest == a + ([TIf(1)] + (t + ([TElse] + (f + ([TEnd] + rest)))))
  {
  }

  /** What `&&` and `||` do once their first operand `v` is on the stack. */
  lemma LogArms<S>(m: Sem<S>, b: Code, inThen: bool, v: bool, w: bool, rest: Code, labels: seq<Label>, stack: seq<int>, s1: S, s2: S, fuel: nat)
    requires Closes(b, 0)
    requires inThen == v ==> forall rest', labels' ::
               Exec(m, b + rest', labels', stack, s1, fuel) == Exec(m, rest', labels', stack + [Bool(w)], s2, fuel)
    ensures Exec(m, Arms(b, inThen, rest), labels, stack + [Bool(v)], s1, fuel)
         == Exec(m, rest, labels, stack + [if inThen == v then Bool(w) else Bool(v)], if inThen == v then s2 else s1, fuel)
  {
    hide Exec, Closes;
    var k := TConst(if inThen then 0 else 1);
    ClosesPlain(k);
    var t, f := if inThen then b else [k], if inThen then [k] else b;
    IfStep(m, 1, v, t, f, rest, labels, stack, s1, fuel);
    var lab := Label(|stack|, 1, None);
    var after := if v then [TElse] + (f + ([TEnd] + rest)) else [TEnd] + rest;
    var top := if inThen == v then Bool(w) else Bool(v);
    if inThen != v {
      ConstStep(m, k.value, after, [lab] + labels, stack, s1, fuel);
    }
    if v {
      ElseStep(m, f, rest, lab, labels, stack + [top], if inThen == v then s2 else s1, fuel);
    } else {
      EndStep(m, rest, lab, labels, stack + [top], if inThen == v then s2 else s1, fuel);
    }
  }

  /** `&&` for `inThen == tf`, `||` for `inThen != tf`. */
  lemma LogExec<S>(m: Sem<S>, l: Cond, r: Cond, tf: bool, inThen: bool, rest: Code, labels: seq<Label>, stack: seq<int>, s: S, fuel: nat)
    ensures var c := Log(l, r, inThen == tf);
            var (v, s1) := CondValue(m, c, s);
            Exec(m, CondCode(c, tf) + rest, labels, stack, s, fuel) == Exec(m, rest, labels, stack + [Bool(v == tf)], s1, fuel)
    decreases Log(l, r, inThen == tf), 0
  {
    hide Exec, Closes, CondCode, Arms, Bool;
    var (v, s1) := CondValue(m, l, s);
    var (w, s2) := CondValue(m, r, s1);
    var b := CondCode(r, tf);
    CondCloses(r, tf);
    LogShape(l, r, tf, inThen, rest);
    CondExec(m, l, tf, Arms(b, inThen, rest), labels, stack, s, fuel);
    forall rest', labels'
      ensures Exec(m, b + rest', labels', stack, s1, fuel) == Exec(m, rest', labels', stack + [Bool(w == tf)], s2, fuel)
    {
      CondExec(m, r, tf, rest', labels', stack, s1, fuel);
    }
    LogArms(m, b, inThen, v == tf, w == tf, rest, labels, stack, s1, s2, fuel);
  }
}
