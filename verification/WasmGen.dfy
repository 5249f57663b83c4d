/**
 The statement compiler (`gen_stmt` and the functions it calls): appends code to
 one buffer and keeps three counters, the number of open constructs and the
 numbers that `break` and `continue` refer to.
 */
module WasmGen {
  import opened Options
  import opened Structured
  import opened WasmCode

  // ----- The code, as a function of the statement and the counters -----

  /** Leaves 1 on the stack when the condition's truth equals `tf`, else 0. */
  function CondCode(c: Cond, tf: bool): Code {
    match c
    case Fixnum(v) => [TConst(v), TConst(0), TCmp(if tf then NE else EQ)]
    case Cmp(kind, lhs, rhs) => [TEval(lhs), TEval(rhs), TCmp(if tf then kind else InvertKind(kind))]
    case LogAnd(l, r) =>
      if tf then CondCode(l, true) + [TIf(1)] + CondCode(r, true) + [TElse, TConst(0), TEnd]
      else CondCode(l, false) + [TIf(1), TConst(1), TElse] + CondCode(r, false) + [TEnd]
    case LogOr(l, r) =>
      if tf then CondCode(l, true) + [TIf(1), TConst(1), TElse] + CondCode(r, true) + [TEnd]
      else CondCode(l, false) + [TIf(1)] + CondCode(r, false) + [TElse, TConst(0), TEnd]
  }

  function CondJmp(c: Cond, tf: bool, depth: nat): Code {
    CondCode(c, tf) + [BrIf(depth)]
  }

  function Drops(e: Option<nat>): Code {
    match e
    case None => []
    case Some(x) => [TDrop(x)]
  }

  /** The tests of a switch from label `i` on. */
  function Dispatch(labels: seq<Option<int>>, value: nat, i: nat): Code
    requires i <= |labels|
    decreases |labels| - i
  {
    if i == |labels| then []
    else
      (match labels[i]
       case None => []
       case Some(v) => [TPeek(value), TConst(v), TEq, BrIf(i)])
      + Dispatch(labels, value, i + 1)
  }

  /** The last `default` label seen, or the number of labels. */
  function DefaultIndex(labels: seq<Option<int>>, n: nat): nat
    requires n <= |labels|
  {
    if n == 0 then |labels| else if labels[n - 1] == None then n - 1 else DefaultIndex(labels, n - 1)
  }

  function Repeat(t: Tok, n: nat): (c: Code)
    ensures |c| == n
  {
    if n == 0 then [] else [t] + Repeat(t, n - 1)
  }

  /** The constructs still open after a statement that opened with `depth` of them. */
  function DepthAfter(stmt: Stmt, depth: nat): nat {
    if |Labels(stmt)| <= depth then depth - |Labels(stmt)| else 0
  }

  function RawBr(depth: nat, target: nat): Code {
    [ByteBr(if depth > target then depth - target - 1 else 0)]
  }

  /** The back edge of a loop and the ends of its `loop` and of the block around it. */
  const LOOP_END: Code := [TBr(0, [0]), TEnd, TEnd]

  function IfCode(c: Cond, t: Code, f: Option<Code>): Code {
    CondCode(c, true) + ([TIf(0)] + (t + (if f.Some? then [TElse] + (f.value + [TEnd]) else [TEnd])))
  }

  function WhileCode(c: Cond, b: Code): Code {
    [TBlock, TLoop] + (CondJmp(c, false, 1) + (b + LOOP_END))
  }

  function DoWhileCode(b: Code, c: Cond): Code {
    [TBlock, TLoop, TBlock] + (b + ([TEnd] + (CondJmp(c, false, 1) + LOOP_END)))
  }

  function ForTest(c: Option<Cond>): Code {
    if c.Some? then CondJmp(c.value, false, 2) else []
  }

  function ForCode(pre: Option<nat>, c: Option<Cond>, post: Option<nat>, b: Code): Code {
    Drops(pre) + ([TBlock, TLoop, TBlock] + (ForTest(c) + (b + ([TEnd] + (Drops(post) + LOOP_END)))))
  }

  function SwitchCode(comma: Option<nat>, value: nat, labels: seq<Option<int>>, b: Code): Code {
    [TBlock] + (Repeat(TBlock, |labels|) + (Drops(comma) + (Dispatch(labels, value, 0)
    + ([Br(DefaultIndex(labels, |labels|))] + (b + [TEnd])))))
  }

  function ReturnCode(val: Option<nat>, depth: nat): Code {
    (if val.Some? then [TEval(val.value), TSetRet] else []) + [Br(if depth > 0 then depth - 1 else 0)]
  }

  function Emit(stmt: Stmt, depth: nat, brk: nat, cont: nat): Code
    decreases stmt, 1
  {
    match stmt
    case Empty => []
    case ExprStmt(e) => [TDrop(e)]
    case Return(val) => ReturnCode(val, depth)
    case Block(ss) => EmitAll(ss, depth, brk, cont)
    case If(c, t, f) =>
      IfCode(c, Emit(t, depth + 1, brk, cont), if f.Some? then Some(Emit(f.value, depth + 1, brk, cont)) else None)
    case Switch(comma, value, body) =>
      SwitchCode(comma, value, Labels(body), Emit(body, depth + |Labels(body)| + 1, depth, cont))
    case Case(_) | Default => [TEnd]
    case While(c, body) => WhileCode(c, Emit(body, depth + 2, depth, depth + 1))
    case DoWhile(body, c) => DoWhileCode(Emit(body, depth + 3, depth, depth + 2), c)
    case For(pre, c, post, body) => ForCode(pre, c, post, Emit(body, depth + 3, depth, depth + 2))
    case Break => RawBr(depth, brk)
    case Continue => RawBr(depth, cont)
  }

  function EmitAll(ss: seq<Stmt>, depth: nat, brk: nat, cont: nat): Code
    decreases ss, 0
  {
    if ss == [] then []
    else Emit(ss[0], depth, brk, cont) + EmitAll(ss[1..], DepthAfter(ss[0], depth), brk, cont)
  }
}
