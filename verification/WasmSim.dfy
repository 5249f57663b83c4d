/** Running the emitted code gives what the statement means. */
module WasmSim {
  import opened Options
  import opened Structured
  import opened WasmCode
  import opened WasmGen

  // ----- Nesting -----

  /** `c` closes `k` more constructs than it opens, and never more than that on the way. */
  ghost predicate Closes(c: Code, k: nat) {
    forall rest: Code, n: nat, e: bool | n >= k :: SkipTo(c + rest, n, e) == SkipTo(rest, n - k, e)
  }

  lemma ClosesAt(c: Code, k: nat, rest: Code, n: nat, e: bool)
    requires Closes(c, k) && n >= k
    ensures SkipTo(c + rest, n, e) == SkipTo(rest, n - k, e)
  {
  }

  lemma Head(t: Tok, rest: Code)
    ensures ([t] + rest)[0] == t && ([t] + rest)[1..] == rest
  {
  }

  lemma ClosesNothing()
    ensures Closes([], 0)
  {
    forall rest: Code, n: nat, e: bool
      ensures SkipTo([] + rest, n, e) == SkipTo(rest, n, e)
    {
      assert [] + rest == rest;
    }
  }

  lemma ClosesPlain(t: Tok)
    requires !t.TBlock? && !t.TLoop? && !t.TIf? && !t.TElse? && !t.TEnd?
    ensures Closes([t], 0)
  {
    forall rest: Code, n: nat, e: bool
      ensures SkipTo([t] + rest, n, e) == SkipTo(rest, n, e)
    {
      Head(t, rest);
    }
  }

  lemma ClosesEnd()
    ensures Closes([TEnd], 1)
  {
    forall rest: Code, n: nat, e: bool | n >= 1
      ensures SkipTo([TEnd] + rest, n, e) == SkipTo(rest, n - 1, e)
    {
      Head(TEnd, rest);
    }
  }

  lemma ClosesJoin(a: Code, k: nat, b: Code, l: nat)
    requires Closes(a, k) && Closes(b, l)
    ensures Closes(a + b, k + l)
  {
    forall rest: Code, n: nat, e: bool | n >= k + l
      ensures SkipTo((a + b) + rest, n, e) == SkipTo(rest, n - (k + l), e)
    {
      assert (a + b) + rest == a + (b + rest);
      ClosesAt(a, k, b + rest, n, e);
      ClosesAt(b, l, rest, n - k, e);
    }
  }

  /** An opening token takes one closing off. */
  lemma ClosesOpen(t: Tok, c: Code, k: nat)
    requires (t.TBlock? || t.TLoop? || t.TIf?) && k >= 1 && Closes(c, k)
    ensures Closes([t] + c, k - 1)
  {
    forall rest: Code, n: nat, e: bool | n >= k - 1
      ensures SkipTo(([t] + c) + rest, n, e) == SkipTo(rest, n - (k - 1), e)
    {
      assert ([t] + c) + rest == [t] + (c + rest);
      Head(t, c + rest);
      ClosesAt(c, k, rest, n + 1, e);
    }
  }

  lemma ClosesIfElse(t: Tok, a: Code, b: Code)
    requires t.TIf? && Closes(a, 0) && Closes(b, 0)
    ensures Closes([t] + a + [TElse] + b + [TEnd], 0)
  {
    var c := [t] + a + [TElse] + b + [TEnd];
    forall rest: Code, n: nat, e: bool
      ensures SkipTo(c + rest, n, e) == SkipTo(rest, n, e)
    {
      var r3 := [TEnd] + rest;
      var r2 := b + r3;
      var r1 := [TElse] + r2;
      assert c + rest == [t] + (a + r1);
      Head(t, a + r1);
      ClosesAt(a, 0, r1, n + 1, e);
      Head(TElse, r2);
      ClosesAt(b, 0, r3, n + 1, e);
      Head(TEnd, rest);
    }
  }

  lemma {:induction false} ClosesRepeat(t: Tok, j: nat, c: Code, k: nat)
    requires t.TBlock? && k >= j && Closes(c, k)
    ensures Closes(Repeat(t, j) + c, k - j)
  {
    if j == 0 {
      assert Repeat(t, j) + c == c;
    } else {
      ClosesRepeat(t, j - 1, c, k);
      ClosesOpen(t, Repeat(t, j - 1) + c, k - (j - 1));
      assert Repeat(t, j) + c == [t] + (Repeat(t, j - 1) + c);
    }
  }

  lemma {:induction false} CondCloses(c: Cond, tf: bool)
    ensures Closes(CondCode(c, tf), 0)
  {
    match c
    case Fixnum(_) | Cmp(_, _, _) =>
      var code := CondCode(c, tf);
      PlainCloses(code);
    case LogAnd(l, r) =>
      CondCloses(l, tf);
      CondCloses(r, tf);
      LogCloses(CondCode(l, tf), CondCode(r, tf), tf);
    case LogOr(l, r) =>
      CondCloses(l, tf);
      CondCloses(r, tf);
      LogCloses(CondCode(l, tf), CondCode(r, tf), !tf);
  }

  lemma {:induction false} PlainCloses(c: Code)
    requires forall k | 0 <= k < |c| :: !c[k].TBlock? && !c[k].TLoop? && !c[k].TIf? && !c[k].TElse? && !c[k].TEnd?
    ensures Closes(c, 0)
  {
    if c == [] {
      ClosesNothing();
    } else {
      ClosesPlain(c[0]);
      PlainCloses(c[1..]);
      assert c == [c[0]] + c[1..];
      ClosesJoin([c[0]], 0, c[1..], 0);
    }
  }

  /** Both shapes of `&&` and `||`: the second operand in the `then` branch, or in the `else` branch. */
  lemma LogCloses(a: Code, b: Code, inThen: bool)
    requires Closes(a, 0) && Closes(b, 0)
    ensures Closes(if inThen then a + [TIf(1)] + b + [TElse, TConst(0), TEnd]
                   else a + [TIf(1), TConst(1), TElse] + b + [TEnd], 0)
  {
    if inThen {
      ClosesPlain(TConst(0));
      ClosesIfElse(TIf(1), b, [TConst(0)]);
      var rest := [TIf(1)] + b + [TElse] + [TConst(0)] + [TEnd];
      ClosesJoin(a, 0, rest, 0);
      assert a + rest == a + [TIf(1)] + b + [TElse, TConst(0), TEnd];
    } else {
      ClosesPlain(TConst(1));
      ClosesIfElse(TIf(1), [TConst(1)], b);
      var rest := [TIf(1)] + [TConst(1)] + [TElse] + b + [TEnd];
      ClosesJoin(a, 0, rest, 0);
      assert a + rest == a + [TIf(1), TConst(1), TElse] + b + [TEnd];
    }
  }

  // ----- Statements -----

  /** A construct with a body in it closes what it opened. */
  lemma ClosesWrap(t: Tok, c: Code, k: nat)
    requires (t.TBlock? || t.TLoop? || t.TIf?) && Closes(c, k)
    ensures Closes([t] + (c + [TEnd]), k)
  {
    ClosesEnd();
    ClosesJoin(c, k, [TEnd], 1);
    ClosesOpen(t, c + [TEnd], k + 1);
  }

  lemma CondJmpCloses(c: Cond, tf: bool, depth: nat)
    ensures Closes(CondJmp(c, tf, depth), 0)
  {
    CondCloses(c, tf);
    ClosesPlain(BrIf(depth));
    ClosesJoin(CondCode(c, tf), 0, [BrIf(depth)], 0);
  }

  lemma LoopEndCloses()
    ensures Closes(LOOP_END, 2)
  {
    ClosesPlain(TBr(0, [0]));
    ClosesEnd();
    ClosesJoin([TBr(0, [0])], 0, [TEnd], 1);
    ClosesJoin([TBr(0, [0])] + [TEnd], 1, [TEnd], 1);
    assert [TBr(0, [0])] + [TEnd] + [TEnd] == LOOP_END;
  }

  lemma DropsClose(e: Option<nat>)
    ensures Closes(Drops(e), 0)
  {
    PlainCloses(Drops(e));
  }

  lemma {:induction false} DispatchCloses(labels: seq<Option<int>>, value: nat, i: nat)
    requires i <= |labels|
    ensures Closes(Dispatch(labels, value, i), 0)
    decreases |labels| - i
  {
    if i == |labels| {
      ClosesNothing();
    } else {
      DispatchCloses(labels, value, i + 1);
      var test := match labels[i] case None => [] case Some(v) => [TPeek(value), TConst(v), TEq, BrIf(i)];
      PlainCloses(test);
      ClosesJoin(test, 0, Dispatch(labels, value, i + 1), 0);
    }
  }

  lemma OpensTwo(c: Code)
    requires Closes(c, 2)
    ensures Closes([TBlock, TLoop] + c, 0)
  {
    ClosesOpen(TLoop, c, 2);
    ClosesOpen(TBlock, [TLoop] + c, 1);
    assert [TBlock, TLoop] + c == [TBlock] + ([TLoop] + c);
  }

  lemma OpensThree(c: Code)
    requires Closes(c, 3)
    ensures Closes([TBlock, TLoop, TBlock] + c, 0)
  {
    ClosesOpen(TBlock, c, 3);
    OpensTwo([TBlock] + c);
    assert [TBlock, TLoop, TBlock] + c == [TBlock, TLoop] + ([TBlock] + c);
  }

  lemma IfCloses(c: Cond, t: Code, f: Option<Code>)
    requires Closes(t, 0) && (f.Some? ==> Closes(f.value, 0))
    ensures Closes(IfCode(c, t, f), 0)
  {
    hide Closes, CondCode;
    CondCloses(c, true);
    var tail := t + (if f.Some? then [TElse] + (f.value + [TEnd]) else [TEnd]);
    if f.Some? {
      ClosesIfElse(TIf(0), t, f.value);
      assert [TIf(0)] + t + [TElse] + f.value + [TEnd] == [TIf(0)] + tail;
    } else {
      ClosesWrap(TIf(0), t, 0);
    }
    ClosesJoin(CondCode(c, true), 0, [TIf(0)] + tail, 0);
  }

  lemma WhileCloses(c: Cond, b: Code)
    requires Closes(b, 0)
    ensures Closes(WhileCode(c, b), 0)
  {
    hide Closes, CondJmp;
    CondJmpCloses(c, false, 1);
    LoopEndCloses();
    ClosesJoin(b, 0, LOOP_END, 2);
    ClosesJoin(CondJmp(c, false, 1), 0, b + LOOP_END, 2);
    OpensTwo(CondJmp(c, false, 1) + (b + LOOP_END));
  }

  lemma DoWhileCloses(b: Code, c: Cond)
    requires Closes(b, 0)
    ensures Closes(DoWhileCode(b, c), 0)
  {
    hide Closes, CondJmp;
    ClosesEnd();
    CondJmpCloses(c, false, 1);
    LoopEndCloses();
    var jmp := CondJmp(c, false, 1);
    ClosesJoin(jmp, 0, LOOP_END, 2);
    ClosesJoin([TEnd], 1, jmp + LOOP_END, 2);
    ClosesJoin(b, 0, [TEnd] + (jmp + LOOP_END), 3);
    OpensThree(b + ([TEnd] + (jmp + LOOP_END)));
  }

  lemma ForTestCloses(c: Option<Cond>)
    ensures Closes(ForTest(c), 0)
  {
    if c.Some? {
      CondJmpCloses(c.value, false, 2);
    } else {
      ClosesNothing();
    }
  }

  lemma ForCloses(pre: Option<nat>, c: Option<Cond>, post: Option<nat>, b: Code)
    requires Closes(b, 0)
    ensures Closes(ForCode(pre, c, post, b), 0)
  {
    hide Closes, ForTest, Drops;
    ForTestCloses(c);
    ClosesEnd();
    DropsClose(pre);
    DropsClose(post);
    LoopEndCloses();
    var next := [TEnd] + (Drops(post) + LOOP_END);
    ClosesJoin(Drops(post), 0, LOOP_END, 2);
    ClosesJoin([TEnd], 1, Drops(post) + LOOP_END, 2);
    ClosesJoin(b, 0, next, 3);
    ClosesJoin(ForTest(c), 0, b + next, 3);
    OpensThree(ForTest(c) + (b + next));
    ClosesJoin(Drops(pre), 0, [TBlock, TLoop, TBlock] + (ForTest(c) + (b + next)), 0);
  }

  lemma SwitchCloses(comma: Option<nat>, value: nat, labels: seq<Option<int>>, b: Code)
    requires Closes(b, |labels|)
    ensures Closes(SwitchCode(comma, value, labels, b), 0)
  {
    hide Closes, Drops, Dispatch, DefaultIndex, Uleb128, Repeat;
    var br := [Br(DefaultIndex(labels, |labels|))];
    var n := |labels|;
    DropsClose(comma);
    DispatchCloses(labels, value, 0);
    ClosesPlain(br[0]);
    ClosesEnd();
    ClosesJoin(b, n, [TEnd], 1);
    ClosesJoin(br, 0, b + [TEnd], n + 1);
    ClosesJoin(Dispatch(labels, value, 0), 0, br + (b + [TEnd]), n + 1);
    var inner := Drops(comma) + (Dispatch(labels, value, 0) + (br + (b + [TEnd])));
    ClosesJoin(Drops(comma), 0, Dispatch(labels, value, 0) + (br + (b + [TEnd])), n + 1);
    ClosesRepeat(TBlock, n, inner, n + 1);
    ClosesOpen(TBlock, Repeat(TBlock, n) + inner, 1);
  }

  /** The code of a statement is well nested but for the labels in it, each of which closes one block. */
  lemma {:induction false} EmitCloses(stmt: Stmt, depth: nat, brk: nat, cont: nat, canBreak: bool, canContinue: bool, inSwitch: bool)
    requires Valid(stmt, canBreak, canContinue, inSwitch)
    ensures Closes(Emit(stmt, depth, brk, cont), |Labels(stmt)|)
    decreases stmt, 1
  {
    hide Closes;
    match stmt
    case Block(ss) => EmitAllCloses(ss, depth, brk, cont, canBreak, canContinue, inSwitch);
    case If(c, t, f) =>
      NoLabels(t, canBreak, canContinue);
      EmitCloses(t, depth + 1, brk, cont, canBreak, canContinue, false);
      if f.Some? {
        NoLabels(f.value, canBreak, canContinue);
        EmitCloses(f.value, depth + 1, brk, cont, canBreak, canContinue, false);
      }
      IfCloses(c, Emit(t, depth + 1, brk, cont), if f.Some? then Some(Emit(f.value, depth + 1, brk, cont)) else None);
    case Switch(comma, value, body) =>
      EmitCloses(body, depth + |Labels(body)| + 1, depth, cont, true, canContinue, true);
      SwitchCloses(comma, value, Labels(body), Emit(body, depth + |Labels(body)| + 1, depth, cont));
    case While(c, body) =>
      NoLabels(body, true, true);
      EmitCloses(body, depth + 2, depth, depth + 1, true, true, false);
      WhileCloses(c, Emit(body, depth + 2, depth, depth + 1));
    case DoWhile(body, c) =>
      NoLabels(body, true, true);
      EmitCloses(body, depth + 3, depth, depth + 2, true, true, false);
      DoWhileCloses(Emit(body, depth + 3, depth, depth + 2), c);
    case For(pre, c, post, body) =>
      NoLabels(body, true, true);
      EmitCloses(body, depth + 3, depth, depth + 2, true, true, false);
      ForCloses(pre, c, post, Emit(body, depth + 3, depth, depth + 2));
    case Case(_) => ClosesEnd();
    case Default => ClosesEnd();
    case Return(val) => PlainCloses(ReturnCode(val, depth));
    case _ => PlainCloses(Emit(stmt, depth, brk, cont));
  }

  lemma {:induction false} EmitAllCloses(ss: seq<Stmt>, depth: nat, brk: nat, cont: nat, canBreak: bool, canContinue: bool, inSwitch: bool)
    requires forall st | st in ss :: Valid(st, canBreak, canContinue, inSwitch)
    ensures Closes(EmitAll(ss, depth, brk, cont), |LabelsOf(ss)|)
    decreases ss, 0
  {
    hide Closes;
    if ss == [] {
      ClosesNothing();
    } else {
      EmitCloses(ss[0], depth, brk, cont, canBreak, canContinue, inSwitch);
      var d := DepthAfter(ss[0], depth);
      EmitAllCloses(ss[1..], d, brk, cont, canBreak, canContinue, inSwitch);
      ClosesJoin(Emit(ss[0], depth, brk, cont), |Labels(ss[0])|, EmitAll(ss[1..], d, brk, cont), |LabelsOf(ss[1..])|);
    }
  }
}
