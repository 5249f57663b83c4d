/**
 Code for conditions and statements (`gen_cond_jmp`, `gen_stmt` and the functions
 it calls). Labels are numbers handed out in order; `n` is the first one still
 free, and every function returns the next free one with its code.
 */
module LowerGen {
  import opened Options
  import opened Util
  import opened Ir
  import opened Conditions
  import opened LowerCode
  import St = Structured

  /** What the generator reads off the types and constants of expressions. */
  datatype Types = Types(half: nat -> nat, unsigned: nat -> bool, small: nat -> bool, konst: nat -> Option<int>)

  // ----- Conditions -----

  function CondOf(kind: St.CmpKind): CondKind {
    match kind
    case EQ => EQ
    case NE => NE
    case LT => LT
    case LE => LE
    case GE => GE
    case GT => GT
  }

  /** The condition for exchanged operands; `COND_GT - (cond - COND_LT)`. */
  function SwapCond(c: CondKind): CondKind
    requires 2 <= CondNo(c) <= 7
  {
    if CondNo(c) >= CondNo(LT) then OfCondNo(CondNo(GT) - (CondNo(c) - CondNo(LT))) else c
  }

  /** `gen_compare_expr`: the compare, and the condition to jump on. */
  function CompareCode(ty: Types, kind: St.CmpKind, lhs: nat, rhs: nat): (Code, CondKind) {
    var cond := CondOf(kind);
    var swap := ty.konst(lhs).Some?;
    var l, r := if swap then rhs else lhs, if swap then lhs else rhs;
    var c := if swap then SwapCond(cond) else cond;
    var c1 := if CondNo(c) > CondNo(NE) && ty.unsigned(l) then OfCondNo(CondNo(c) + (CondNo(ULT) - CondNo(LT))) else c;
    var half := ty.half(l);
    (match ty.konst(r)
     case None => [CmpReg(half, l, r)]
     case Some(v) =>
       if v == 0 && (c1 == EQ || c1 == NE) then [Test(half, l)]
       else if ty.small(l) || IsIm32(v) then [CmpImm(half, l, v)]
       else [CmpReg(half, l, r)], c1)
  }

  /** `gen_cond_jmp`: jumps to `bb` when the condition's truth equals `tf`. */
  function GenCond(ty: Types, c: St.Cond, tf: bool, bb: nat, n: nat): (r: (Code, nat))
    ensures r.1 >= n
  {
    match c
    case Fixnum(v) => (if (v != 0) == tf then [Jcc(ANY, bb)] else [], n)
    case Cmp(kind, lhs, rhs) =>
      var (cmp, cond) := CompareCode(ty, if tf then kind else St.InvertKind(kind), lhs, rhs);
      (cmp + [Jcc(cond, bb)], n)
    case LogAnd(l, r) =>
      var (c1, n1) := GenCond(ty, l, false, if tf then n + 1 else bb, n + 2);
      var (c2, n2) := GenCond(ty, r, tf, bb, n1);
      (LogCode(c1, n, c2), n2)
    case LogOr(l, r) =>
      var (c1, n1) := GenCond(ty, l, true, if tf then bb else n + 1, n + 2);
      var (c2, n2) := GenCond(ty, r, tf, bb, n1);
      (LogCode(c1, n, c2), n2)
  }

  /** Both operands, each ahead of a new block. */
  function LogCode(a: Code, n: nat, b: Code): Code {
    a + ([Lab(n)] + (b + [Lab(n + 1)]))
  }

  // ----- Switch dispatch -----

  /** The order of `compare_cases`: by value, `default` last. */
  predicate CaseLess(x: Option<int>, y: Option<int>) {
    x.Some? && (y.None? || x.value < y.value)
  }

  /** Index `i` put into an order. */
  function InsertCase(cases: seq<Option<int>>, o: seq<nat>, i: nat): (r: seq<nat>)
    requires i < |cases| && forall k | 0 <= k < |o| :: o[k] < |cases|
    ensures |r| == |o| + 1 && forall k | 0 <= k < |r| :: r[k] < |cases|
  {
    if o == [] || CaseLess(cases[i], cases[o[0]]) then [i] + o else [o[0]] + InsertCase(cases, o[1..], i)
  }

  /** The first `n` labels in order. */
  function OrderOf(cases: seq<Option<int>>, n: nat): (r: seq<nat>)
    requires n <= |cases|
    ensures |r| == n && forall k | 0 <= k < n :: r[k] < |cases|
  {
    if n == 0 then [] else InsertCase(cases, OrderOf(cases, n - 1), n - 1)
  }

  /** One test for equality. */
  function TestCase(half: nat, value: int, to: nat, n: nat): Code {
    [CmpCase(half, value), Jcc(EQ, to), Lab(n)]
  }

  function CaseValue(cases: seq<Option<int>>, i: nat): int {
    if i < |cases| && cases[i].Some? then cases[i].value else 0
  }

  /** `gen_switch_cond_recur`: `first` is the label of the first case, `other` where to go without a match. */
  function GenDispatch(half: nat, cases: seq<Option<int>>, order: seq<nat>, first: nat, other: nat, n: nat): (r: (Code, nat))
    ensures r.1 >= n
    decreases |order|
  {
    if |order| == 0 then ([Jcc(ANY, other)], n)
    else if |order| == 1 then
      (TestCase(half, CaseValue(cases, order[0]), first + order[0], n) + [Jcc(ANY, other)], n + 1)
    else if |order| == 2 then
      (TestCase(half, CaseValue(cases, order[0]), first + order[0], n)
       + (TestCase(half, CaseValue(cases, order[1]), first + order[1], n + 1) + [Jcc(ANY, other)]), n + 2)
    else
      var mid := |order| / 2;
      var (c1, n1) := GenDispatch(half, cases, order[..mid], first, other, n + 3);
      var (c2, n2) := GenDispatch(half, cases, order[mid + 1..], first, other, n1);
      (SplitCode(TestCase(half, CaseValue(cases, order[mid]), first + order[mid], n), n, c1, c2), n2)
  }

  /** Behind the test for the middle value: the greater ones behind a jump, the smaller ones ahead of them. */
  function SplitCode(test: Code, n: nat, below: Code, above: Code): Code {
    test + ([Jcc(GT, n + 2), Lab(n + 1)] + (below + ([Lab(n + 2)] + above)))
  }

  /** Where a switch goes without a match: to its default, else behind it. */
  function OtherLabel(cases: seq<Option<int>>, first: nat, brk: nat): nat {
    match St.FirstIndex(cases, None, 0)
    case Some(d) => first + d
    case None => brk
  }

  /** `gen_switch_cond` */
  function GenSwitchCond(ty: Types, comma: Option<nat>, value: nat, cases: seq<Option<int>>, first: nat, brk: nat, n: nat): (r: (Code, nat))
    ensures r.1 >= n
  {
    var other := OtherLabel(cases, first, brk);
    var order := OrderOf(cases, |cases|);
    var len := if St.FirstIndex(cases, None, 0).Some? && |cases| > 0 then |cases| - 1 else |cases|;
    var (c, n1) := GenDispatch(ty.half(value), cases, order[..len], first, other, n);
    ([Load(comma, value)] + (c + [Lab(n1)]), n1 + 1)
  }

  // ----- Statements -----

  /** The blocks `break`, `continue` and `return` go to. */
  datatype Env = Env(brk: nat, cont: nat, ret: nat)

  function Evals(e: Option<nat>): Code {
    match e
    case None => []
    case Some(x) => [Eval(x)]
  }

  /** A jump with the new block behind it. */
  function Leave(to: nat, n: nat): Code {
    [Jcc(ANY, to), Lab(n)]
  }

  function IfCode(c: Code, n: nat, t: Code, f: Option<(Code, nat)>): Code {
    c + ([Lab(n)] + (t + (match f
                          case None => [Lab(n + 1)]
                          case Some((b, end)) => [Jcc(ANY, end)] + ([Lab(n + 1)] + (b + [Lab(end)])))))
  }

  function LoopCode(n: nat, b: Code, c: Code): Code {
    [Lab(n)] + (b + ([Lab(n + 1)] + (c + [Lab(n + 2)])))
  }

  function ForCode(pre: Code, n: nat, c: Code, b: Code, post: Code): Code {
    pre + ([Lab(n)] + (c + ([Lab(n + 1)] + (b + ([Lab(n + 2)] + (post + ([Jcc(ANY, n)] + [Lab(n + 3)])))))))
  }

  function ForTest(ty: Types, c: Option<St.Cond>, bb: nat, n: nat): (r: (Code, nat))
    ensures r.1 >= n
  {
    match c
    case None => ([], n)
    case Some(x) => GenCond(ty, x, false, bb, n)
  }

  /** The code of a statement; `cs` is the label of its first case label. */
  function Gen(ty: Types, stmt: St.Stmt, n: nat, cs: nat, env: Env): (r: (Code, nat))
    ensures r.1 >= n
    decreases stmt, 1
  {
    match stmt
    case Empty => ([], n)
    case ExprStmt(e) => ([Eval(e)], n)
    case Return(val) => ((if val.Some? then [Result(val.value)] else []) + Leave(env.ret, n), n + 1)
    case Block(ss) => GenAll(ty, ss, n, cs, env)
    case If(c, t, f) =>
      var (cc, n1) := GenCond(ty, c, false, n + 1, n + 2);
      var (tc, n2) := Gen(ty, t, n1, 0, env);
      (match f
       case None => (IfCode(cc, n, tc, None), n2)
       case Some(b) =>
         var (fc, n3) := Gen(ty, b, n2 + 1, 0, env);
         (IfCode(cc, n, tc, Some((fc, n2))), n3))
    case Switch(comma, value, body) =>
      var cases := St.Labels(body);
      var (d, n1) := GenSwitchCond(ty, comma, value, cases, n + 1, n, n + 1 + |cases|);
      var (b, n2) := Gen(ty, body, n1, n + 1, env.(brk := n));
      (d + (b + [Lab(n)]), n2)
    case Case(_) => ([Lab(cs)], n)
    case Default => ([Lab(cs)], n)
    case While(c, body) =>
      var (b, n1) := Gen(ty, body, n + 3, 0, env.(brk := n + 2, cont := n + 1));
      var (cc, n2) := GenCond(ty, c, true, n, n1);
      ([Jcc(ANY, n + 1)] + LoopCode(n, b, cc), n2)
    case DoWhile(body, c) =>
      var (b, n1) := Gen(ty, body, n + 3, 0, env.(brk := n + 2, cont := n + 1));
      var (cc, n2) := GenCond(ty, c, true, n, n1);
      (LoopCode(n, b, cc), n2)
    case For(pre, c, post, body) =>
      var (cc, n1) := ForTest(ty, c, n + 3, n + 4);
      var (b, n2) := Gen(ty, body, n1, 0, env.(brk := n + 3, cont := n + 2));
      (ForCode(Evals(pre), n, cc, b, Evals(post)), n2)
    case Break => (Leave(env.brk, n), n + 1)
    case Continue => (Leave(env.cont, n), n + 1)
  }

  function GenAll(ty: Types, ss: seq<St.Stmt>, n: nat, cs: nat, env: Env): (r: (Code, nat))
    ensures r.1 >= n
    decreases ss, 0
  {
    if ss == [] then ([], n)
    else
      var (a, n1) := Gen(ty, ss[0], n, cs, env);
      var (b, n2) := GenAll(ty, ss[1..], n1, cs + |St.Labels(ss[0])|, env);
      (a + b, n2)
  }
}
