/** The compiler's own form: code appended to a buffer, and three counters. */
module WasmEmitter {
  import opened Options
  import opened Structured
  import opened WasmCode
  import opened WasmGen
  import opened WasmFunction

  lemma Assoc2(z: Code, a: Code, b: Code)
    ensures (z + a) + b == z + (a + b)
  {
  }

  lemma Assoc3(z: Code, a: Code, b: Code, c: Code)
    ensures ((z + a) + b) + c == z + (a + (b + c))
  {
    Assoc2(z + a, b, c);
    Assoc2(z, a, b + c);
  }

  lemma Assoc4(z: Code, a: Code, b: Code, c: Code, d: Code)
    ensures (((z + a) + b) + c) + d == z + (a + (b + (c + d)))
  {
    Assoc3(z + a, b, c, d);
    Assoc2(z, a, b + (c + d));
  }

  lemma Assoc5(z: Code, a: Code, b: Code, c: Code, d: Code, e: Code)
    ensures ((((z + a) + b) + c) + d) + e == z + (a + (b + (c + (d + e))))
  {
    Assoc4(z + a, b, c, d, e);
    Assoc2(z, a, b + (c + (d + e)));
  }

  lemma Assoc6(z: Code, a: Code, b: Code, c: Code, d: Code, e: Code, f: Code)
    ensures (((((z + a) + b) + c) + d) + e) + f == z + (a + (b + (c + (d + (e + f)))))
  {
    Assoc5(z + a, b, c, d, e, f);
    Assoc2(z, a, b + (c + (d + (e + f))));
  }

  lemma Assoc7(z: Code, a: Code, b: Code, c: Code, d: Code, e: Code, f: Code, g: Code)
    ensures ((((((z + a) + b) + c) + d) + e) + f) + g == z + (a + (b + (c + (d + (e + (f + g))))))
  {
    Assoc6(z + a, b, c, d, e, f, g);
    Assoc2(z, a, b + (c + (d + (e + (f + g)))));
  }

  lemma Nothing(z: Code)
    ensures z + [] == z
  {
  }

  lemma IfParts(stmt: Stmt, depth: nat, brk: nat, cont: nat, canBreak: bool, canContinue: bool)
    requires stmt.If? && Valid(stmt, canBreak, canContinue, false)
    ensures Valid(stmt.tblock, canBreak, canContinue, false)
    ensures stmt.fblock.Some? ==> Valid(stmt.fblock.value, canBreak, canContinue, false)
    ensures Emit(stmt, depth, brk, cont) == IfCode(stmt.cond, Emit(stmt.tblock, depth + 1, brk, cont),
              if stmt.fblock.Some? then Some(Emit(stmt.fblock.value, depth + 1, brk, cont)) else None)
  {
  }

  lemma SwitchParts(stmt: Stmt, depth: nat, brk: nat, cont: nat, canContinue: bool)
    requires stmt.Switch? && Valid(stmt, true, canContinue, false)
    ensures Valid(stmt.body, true, canContinue, true)
    ensures Emit(stmt, depth, brk, cont)
         == SwitchCode(stmt.comma, stmt.value, Labels(stmt.body), Emit(stmt.body, depth + |Labels(stmt.body)| + 1, depth, cont))
  {
  }

  lemma LoopParts(stmt: Stmt, depth: nat, brk: nat, cont: nat)
    requires (stmt.While? || stmt.DoWhile? || stmt.For?) && Valid(stmt, true, true, false)
    ensures Valid(stmt.body, true, true, false)
    ensures stmt.While? ==> Emit(stmt, depth, brk, cont) == WhileCode(stmt.cond, Emit(stmt.body, depth + 2, depth, depth + 1))
    ensures stmt.DoWhile? ==> Emit(stmt, depth, brk, cont) == DoWhileCode(Emit(stmt.body, depth + 3, depth, depth + 2), stmt.cond)
    ensures stmt.For? ==>
              Emit(stmt, depth, brk, cont) == ForCode(stmt.pre, stmt.forCond, stmt.post, Emit(stmt.body, depth + 3, depth, depth + 2))
  {
  }

  lemma ThenOne(z: Code)
    ensures (z + [TIf(1)]) + [TConst(1), TElse] == z + [TIf(1), TConst(1), TElse]
  {
    Assoc2(z, [TIf(1)], [TConst(1), TElse]);
    assert [TIf(1)] + [TConst(1), TElse] == [TIf(1), TConst(1), TElse];
  }

  lemma LogAssoc(z: Code, a: Code, p: Code, b: Code, u: Code)
    ensures (((z + a) + p) + b) + u == z + (a + p + b + u)
  {
    Assoc2(z, a, p);
    Assoc2(z, a + p, b);
    Assoc2(z, a + p + b, u);
  }

  class Emitter {
    var code: Code
    var curDepth: nat
    var breakDepth: nat
    var continueDepth: nat

    constructor ()
      ensures code == [] && curDepth == 0 && breakDepth == 0 && continueDepth == 0
    {
      code, curDepth, breakDepth, continueDepth := [], 0, 0, 0;
    }

    /** `ADD_CODE`. */
    method Add(c: Code)
      modifies this`code
      ensures code == old(code) + c
    {
      code := code + c;
    }

    method GenCond(cond: Cond, tf: bool)
      modifies this`code, this`curDepth
      ensures code == old(code) + CondCode(cond, tf)
      ensures curDepth == old(curDepth)
      decreases cond
    {
      ghost var z, c1, c0 := code, [TIf(1), TConst(1), TElse], [TElse, TConst(0), TEnd];
      match cond
      case Fixnum(v) =>
        Add([TConst(v), TConst(0), TCmp(if tf then NE else EQ)]);
      case Cmp(kind, lhs, rhs) =>
        Add([TEval(lhs), TEval(rhs), TCmp(if tf then kind else InvertKind(kind))]);
      case LogAnd(l, r) =>
        GenCond(l, tf);
        Add([TIf(1)]);
        curDepth := curDepth + 1;
        if tf {
          GenCond(r, true);
          Add([TElse, TConst(0), TEnd]);
          LogAssoc(z, CondCode(l, true), [TIf(1)], CondCode(r, true), c0);
        } else {
          Add([TConst(1), TElse]);
          ThenOne(z + CondCode(l, false));
          GenCond(r, false);
          Add([TEnd]);
          LogAssoc(z, CondCode(l, false), c1, CondCode(r, false), [TEnd]);
        }
        curDepth := curDepth - 1;
      case LogOr(l, r) =>
        GenCond(l, tf);
        Add([TIf(1)]);
        curDepth := curDepth + 1;
        if tf {
          Add([TConst(1), TElse]);
          ThenOne(z + CondCode(l, true));
          GenCond(r, true);
          Add([TEnd]);
          LogAssoc(z, CondCode(l, true), c1, CondCode(r, true), [TEnd]);
        } else {
          GenCond(r, false);
          Add([TElse, TConst(0), TEnd]);
          LogAssoc(z, CondCode(l, false), [TIf(1)], CondCode(r, false), c0);
        }
        curDepth := curDepth - 1;
    }

    method GenCondJmp(cond: Cond, tf: bool, depth: nat)
      modifies this`code, this`curDepth
      ensures code == old(code) + CondJmp(cond, tf, depth)
      ensures curDepth == old(curDepth)
    {
      GenCond(cond, tf);
      Add([BrIf(depth)]);
    }

    method GenDrop(e: Option<nat>)
      modifies this`code
      ensures code == old(code) + Drops(e)
    {
      if e.Some? {
        Add([TDrop(e.value)]);
      }
    }

    /** The tests of a switch and the branch to its default. */
    method GenDispatch(cases: seq<Option<int>>, value: nat)
      modifies this`code
      ensures code == old(code) + Dispatch(cases, value, 0) + [Br(DefaultIndex(cases, |cases|))]
    {
      hide Uleb128;
      var defaultIndex := |cases|;
      var i := 0;
      while i < |cases|
        invariant 0 <= i <= |cases|
        invariant code + Dispatch(cases, value, i) == old(code) + Dispatch(cases, value, 0)
        invariant defaultIndex == DefaultIndex(cases, i)
      {
        ghost var more := Dispatch(cases, value, i + 1);
        if cases[i] == None {
          defaultIndex := i;
          assert [] + more == more;
        } else {
          ghost var before := code;
          var test := [TPeek(value), TConst(cases[i].value), TEq, BrIf(i)];
          Add(test);
          assert before + (test + more) == (before + test) + more;
        }
        i := i + 1;
      }
      assert code + [] == code;
      Add([Br(defaultIndex)]);
    }

    method GenBlocks(n: nat)
      modifies this`code
      ensures code == old(code) + Repeat(TBlock, n)
    {
      var i := 0;
      while i < n
        invariant 0 <= i <= n && code + Repeat(TBlock, n - i) == old(code) + Repeat(TBlock, n)
      {
        ghost var before, more := code, Repeat(TBlock, n - i - 1);
        assert before + ([TBlock] + more) == (before + [TBlock]) + more;
        Add([TBlock]);
        i := i + 1;
      }
      assert code + [] == code;
    }

    method GenStmt(stmt: Stmt, ghost canBreak: bool, ghost canContinue: bool, ghost inSwitch: bool)
      requires Valid(stmt, canBreak, canContinue, inSwitch)
      requires InDepth(|Labels(stmt)|, curDepth, breakDepth, continueDepth)
      modifies this
      ensures code == old(code) + Emit(stmt, old(curDepth), old(breakDepth), old(continueDepth))
      ensures curDepth == old(curDepth) - |Labels(stmt)|
      ensures breakDepth == old(breakDepth) && continueDepth == old(continueDepth)
      decreases stmt, 1
    {
      match stmt
      case Empty =>
      case ExprStmt(e) => Add([TDrop(e)]);
      case Return(val) => GenReturn(val);
      case Block(ss) => GenStmts(ss, canBreak, canContinue, inSwitch);
      case If(_, _, _) => GenIf(stmt, canBreak, canContinue);
      case Switch(_, _, _) => GenSwitch(stmt, canContinue);
      case Case(_) => GenCase();
      case Default => GenCase();
      case While(_, _) => GenWhile(stmt);
      case DoWhile(_, _) => GenDoWhile(stmt);
      case For(_, _, _, _) => GenFor(stmt);
      case Break => Add([ByteBr(curDepth - breakDepth - 1)]);
      case Continue => Add([ByteBr(curDepth - continueDepth - 1)]);
    }

    method GenStmts(ss: seq<Stmt>, ghost canBreak: bool, ghost canContinue: bool, ghost inSwitch: bool)
      requires forall st | st in ss :: Valid(st, canBreak, canContinue, inSwitch)
      requires InDepth(|LabelsOf(ss)|, curDepth, breakDepth, continueDepth)
      modifies this
      ensures code == old(code) + EmitAll(ss, old(curDepth), old(breakDepth), old(continueDepth))
      ensures curDepth == old(curDepth) - |LabelsOf(ss)|
      ensures breakDepth == old(breakDepth) && continueDepth == old(continueDepth)
      decreases ss, 0
    {
      hide Emit, Valid;
      if |ss| > 0 {
        GenStmt(ss[0], canBreak, canContinue, inSwitch);
        GenStmts(ss[1..], canBreak, canContinue, inSwitch);
      }
    }

    method GenReturn(val: Option<nat>)
      requires curDepth > 0
      modifies this`code
      ensures code == old(code) + ReturnCode(val, curDepth)
    {
      if val.Some? {
        Add([TEval(val.value), TSetRet]);
      }
      Add([Br(curDepth - 1)]);
    }

    method GenCase()
      requires curDepth > 0
      modifies this`code, this`curDepth
      ensures code == old(code) + [TEnd] && curDepth == old(curDepth) - 1
    {
      Add([TEnd]);
      curDepth := curDepth - 1;
    }

    method GenIf(stmt: Stmt, ghost canBreak: bool, ghost canContinue: bool)
      requires stmt.If? && Valid(stmt, canBreak, canContinue, false)
      requires InDepth(0, curDepth, breakDepth, continueDepth)
      modifies this
      ensures code == old(code) + Emit(stmt, old(curDepth), old(breakDepth), old(continueDepth))
      ensures curDepth == old(curDepth) && breakDepth == old(breakDepth) && continueDepth == old(continueDepth)
      decreases stmt, 0
    {
      hide CondCode, Emit, Valid, Labels;
      ghost var z, c, n := code, CondCode(stmt.cond, true), curDepth + 1;
      ghost var t := Emit(stmt.tblock, n, breakDepth, continueDepth);
      IfParts(stmt, curDepth, breakDepth, continueDepth, canBreak, canContinue);
      NoLabels(stmt.tblock, canBreak, canContinue);
      GenCond(stmt.cond, true);
      Add([TIf(0)]);
      curDepth := curDepth + 1;
      GenStmt(stmt.tblock, canBreak, canContinue, false);
      if stmt.fblock.Some? {
        NoLabels(stmt.fblock.value, canBreak, canContinue);
        ghost var f := Emit(stmt.fblock.value, n, breakDepth, continueDepth);
        Add([TElse]);
        GenStmt(stmt.fblock.value, canBreak, canContinue, false);
        Assoc6(z, c, [TIf(0)], t, [TElse], f, [TEnd]);
      } else {
        Assoc4(z, c, [TIf(0)], t, [TEnd]);
      }
      Add([TEnd]);
      curDepth := curDepth - 1;
    }

    method GenSwitch(stmt: Stmt, ghost canContinue: bool)
      requires stmt.Switch? && Valid(stmt, true, canContinue, false)
      requires InDepth(0, curDepth, breakDepth, continueDepth)
      modifies this
      ensures code == old(code) + Emit(stmt, old(curDepth), old(breakDepth), old(continueDepth))
      ensures curDepth == old(curDepth) && breakDepth == old(breakDepth) && continueDepth == old(continueDepth)
      decreases stmt, 0
    {
      hide Dispatch, DefaultIndex, Repeat, Drops, Emit, Valid, Labels;
      SwitchParts(stmt, curDepth, breakDepth, continueDepth, canContinue);
      ghost var z, n := code, curDepth + |Labels(stmt.body)| + 1;
      ghost var b := Emit(stmt.body, n, curDepth, continueDepth);
      var saveDepth := breakDepth;
      breakDepth := curDepth;
      Add([TBlock]);
      var cases := Labels(stmt.body);
      GenBlocks(|cases|);
      curDepth := curDepth + |cases| + 1;
      GenDrop(stmt.comma);
      GenDispatch(cases, stmt.value);
      GenStmt(stmt.body, true, canContinue, true);
      Assoc7(z, [TBlock], Repeat(TBlock, |cases|), Drops(stmt.comma), Dispatch(cases, stmt.value, 0), [Br(DefaultIndex(cases, |cases|))], b, [TEnd]);
      Add([TEnd]);
      curDepth := curDepth - 1;
      breakDepth := saveDepth;
    }

    method GenWhile(stmt: Stmt)
      requires stmt.While? && Valid(stmt, true, true, false)
      requires InDepth(0, curDepth, breakDepth, continueDepth)
      modifies this
      ensures code == old(code) + Emit(stmt, old(curDepth), old(breakDepth), old(continueDepth))
      ensures curDepth == old(curDepth) && breakDepth == old(breakDepth) && continueDepth == old(continueDepth)
      decreases stmt, 0
    {
      hide CondJmp, Emit, Valid, Labels, LOOP_END;
      LoopParts(stmt, curDepth, breakDepth, continueDepth);
      ghost var z, b := code, Emit(stmt.body, curDepth + 2, curDepth, curDepth + 1);
      NoLabels(stmt.body, true, true);
      var saveBreak, saveContinue := breakDepth, continueDepth;
      breakDepth, continueDepth := curDepth, curDepth + 1;
      Add([TBlock, TLoop]);
      curDepth := curDepth + 2;
      GenCondJmp(stmt.cond, false, 1);
      GenStmt(stmt.body, true, true, false);
      Assoc4(z, [TBlock, TLoop], CondJmp(stmt.cond, false, 1), b, LOOP_END);
      Add(LOOP_END);
      curDepth := curDepth - 2;
      breakDepth, continueDepth := saveBreak, saveContinue;
    }

    method GenDoWhile(stmt: Stmt)
      requires stmt.DoWhile? && Valid(stmt, true, true, false)
      requires InDepth(0, curDepth, breakDepth, continueDepth)
      modifies this
      ensures code == old(code) + Emit(stmt, old(curDepth), old(breakDepth), old(continueDepth))
      ensures curDepth == old(curDepth) && breakDepth == old(breakDepth) && continueDepth == old(continueDepth)
      decreases stmt, 0
    {
      hide CondJmp, Emit, Valid, Labels, LOOP_END;
      LoopParts(stmt, curDepth, breakDepth, continueDepth);
      ghost var z, b := code, Emit(stmt.body, curDepth + 3, curDepth, curDepth + 2);
      NoLabels(stmt.body, true, true);
      var saveBreak, saveContinue := breakDepth, continueDepth;
      breakDepth, continueDepth := curDepth, curDepth + 2;
      Add([TBlock, TLoop, TBlock]);
      curDepth := curDepth + 3;
      GenStmt(stmt.body, true, true, false);
      Add([TEnd]);
      curDepth := curDepth - 1;
      GenCondJmp(stmt.cond, false, 1);
      Assoc5(z, [TBlock, TLoop, TBlock], b, [TEnd], CondJmp(stmt.cond, false, 1), LOOP_END);
      Add(LOOP_END);
      curDepth := curDepth - 2;
      breakDepth, continueDepth := saveBreak, saveContinue;
    }

    method GenFor(stmt: Stmt)
      requires stmt.For? && Valid(stmt, true, true, false)
      requires InDepth(0, curDepth, breakDepth, continueDepth)
      modifies this
      ensures code == old(code) + Emit(stmt, old(curDepth), old(breakDepth), old(continueDepth))
      ensures curDepth == old(curDepth) && breakDepth == old(breakDepth) && continueDepth == old(continueDepth)
      decreases stmt, 0
    {
      hide CondJmp, Drops, Emit, Valid, Labels, LOOP_END;
      LoopParts(stmt, curDepth, breakDepth, continueDepth);
      ghost var z, b := code, Emit(stmt.body, curDepth + 3, curDepth, curDepth + 2);
      NoLabels(stmt.body, true, true);
      var saveBreak, saveContinue := breakDepth, continueDepth;
      breakDepth, continueDepth := curDepth, curDepth + 2;
      GenDrop(stmt.pre);
      Add([TBlock, TLoop, TBlock]);
      curDepth := curDepth + 3;
      ghost var before := code;
      if stmt.forCond.Some? {
        GenCondJmp(stmt.forCond.value, false, 2);
      } else {
        Nothing(before);
      }
      GenStmt(stmt.body, true, true, false);
      Add([TEnd]);
      curDepth := curDepth - 1;
      GenDrop(stmt.post);
      Assoc7(z, Drops(stmt.pre), [TBlock, TLoop, TBlock], ForTest(stmt.forCond), b, [TEnd], Drops(stmt.post), LOOP_END);
      Add(LOOP_END);
      curDepth := curDepth - 2;
      breakDepth, continueDepth := saveBreak, saveContinue;
    }

    /** `gen_defun` from its outer block on. */
    method GenDefun(ss: seq<Stmt>)
      requires ValidBody(ss)
      requires curDepth == 0 && breakDepth == 0 && continueDepth == 0
      modifies this
      ensures code == old(code) + FunctionCode(ss)
      ensures curDepth == 0 && breakDepth == 0 && continueDepth == 0
    {
      NoLabelsOf(ss, false, false);
      Add([TBlock]);
      curDepth := curDepth + 1;
      GenStmts(ss, false, false, false);
      Add([TEnd]);
      curDepth := curDepth - 1;
    }
  }
}
