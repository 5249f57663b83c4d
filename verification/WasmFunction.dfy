/**
 A whole function body: the code is well nested, its branch depths are in range
 and read as they were meant, and it runs as the statements do.
 */
module WasmFunction {
  import opened Options
  import opened Structured
  import opened WasmCode
  import opened WasmGen
  import opened WasmSim
  import opened WasmTheorem

  /** The numbers `break` and `continue` refer to lie below the open labels. */
  predicate InDepth(k: nat, depth: nat, brk: nat, cont: nat) {
    k + brk < depth && k + cont < depth
  }

  // ----- Depths written as one byte -----

  lemma LoopCodeReads(c: Cond, n: nat)
    ensures ReadsAsMeant(CondJmp(c, false, n)) && ReadsAsMeant(LOOP_END)
  {
    CondReads(c, false);
    UlebRoundTrip(n);
  }

  lemma {:induction false} CondReads(c: Cond, tf: bool)
    ensures ReadsAsMeant(CondCode(c, tf))
  {
    match c
    case LogAnd(l, r) => CondReads(l, tf); CondReads(r, tf);
    case LogOr(l, r) => CondReads(l, tf); CondReads(r, tf);
    case _ =>
  }

  lemma {:induction false} DispatchReads(cases: seq<Option<int>>, value: nat, i: nat)
    requires i <= |cases|
    ensures ReadsAsMeant(Dispatch(cases, value, i))
    decreases |cases| - i
  {
    if i < |cases| {
      DispatchReads(cases, value, i + 1);
      UlebRoundTrip(i);
    }
  }

  lemma {:induction false} BlocksRead(n: nat)
    ensures ReadsAsMeant(Repeat(TBlock, n))
  {
    if n > 0 {
      BlocksRead(n - 1);
    }
  }

  lemma JoinReads(a: Code, b: Code)
    ensures ReadsAsMeant(a + b) <==> ReadsAsMeant(a) && ReadsAsMeant(b)
  {
    forall t | t in a + b ensures t in a || t in b {}
    forall t | t in a || t in b ensures t in a + b {}
  }

  lemma IfReads(c: Cond, a: Code, b: Code)
    ensures ReadsAsMeant(IfCode(c, a, None)) <==> ReadsAsMeant(a)
    ensures ReadsAsMeant(IfCode(c, a, Some(b))) <==> ReadsAsMeant(a) && ReadsAsMeant(b)
  {
    hide CondCode;
    CondReads(c, true);
    JoinReads(CondCode(c, true), [TIf(0)] + (a + [TEnd]));
    JoinReads([TIf(0)], a + [TEnd]);
    JoinReads(a, [TEnd]);
    var tail := a + ([TElse] + (b + [TEnd]));
    JoinReads(CondCode(c, true), [TIf(0)] + tail);
    JoinReads([TIf(0)], tail);
    JoinReads(a, [TElse] + (b + [TEnd]));
    JoinReads([TElse], b + [TEnd]);
    JoinReads(b, [TEnd]);
  }

  lemma LoopsRead(c: Cond, a: Code)
    ensures ReadsAsMeant(WhileCode(c, a)) <==> ReadsAsMeant(a)
    ensures ReadsAsMeant(DoWhileCode(a, c)) <==> ReadsAsMeant(a)
  {
    hide CondJmp;
    var jmp := CondJmp(c, false, 1);
    LoopCodeReads(c, 1);
    JoinReads([TBlock, TLoop], jmp + (a + LOOP_END));
    JoinReads(jmp, a + LOOP_END);
    JoinReads(a, LOOP_END);
    JoinReads([TBlock, TLoop, TBlock], a + ([TEnd] + (jmp + LOOP_END)));
    JoinReads(a, [TEnd] + (jmp + LOOP_END));
    JoinReads([TEnd], jmp + LOOP_END);
    JoinReads(jmp, LOOP_END);
  }

  lemma ForReads(pre: Option<nat>, c: Option<Cond>, post: Option<nat>, a: Code)
    ensures ReadsAsMeant(ForCode(pre, c, post, a)) <==> ReadsAsMeant(a)
  {
    hide CondJmp;
    var test, next := ForTest(c), [TEnd] + (Drops(post) + LOOP_END);
    if c.Some? {
      LoopCodeReads(c.value, 2);
    }
    JoinReads(Drops(pre), [TBlock, TLoop, TBlock] + (test + (a + next)));
    JoinReads([TBlock, TLoop, TBlock], test + (a + next));
    JoinReads(test, a + next);
    JoinReads(a, next);
    JoinReads([TEnd], Drops(post) + LOOP_END);
    JoinReads(Drops(post), LOOP_END);
  }

  lemma SwitchReads(comma: Option<nat>, value: nat, cases: seq<Option<int>>, b: Code)
    ensures ReadsAsMeant(SwitchCode(comma, value, cases, b)) <==> ReadsAsMeant(b)
  {
    hide Dispatch, Repeat, Uleb128, DecodeUleb128;
    var d := DefaultIndex(cases, |cases|);
    UlebRoundTrip(d);
    DispatchReads(cases, value, 0);
    BlocksRead(|cases|);
    var t4 := [Br(d)] + (b + [TEnd]);
    var t3 := Dispatch(cases, value, 0) + t4;
    var t2 := Drops(comma) + t3;
    JoinReads([TBlock], Repeat(TBlock, |cases|) + t2);
    JoinReads(Repeat(TBlock, |cases|), t2);
    JoinReads(Drops(comma), t3);
    JoinReads(Dispatch(cases, value, 0), t4);
    JoinReads([Br(d)], b + [TEnd]);
    JoinReads(b, [TEnd]);
  }

  /**
   The bytes written for every branch read as the depth meant exactly when no
   `break` or `continue` has to name a depth of 128 or more.
   */
  lemma {:induction false} ReadsIffFits(stmt: Stmt, depth: nat, brk: nat, cont: nat, canBreak: bool, canContinue: bool, inSwitch: bool)
    requires Valid(stmt, canBreak, canContinue, inSwitch) && InDepth(|Labels(stmt)|, depth, brk, cont)
    ensures ReadsAsMeant(Emit(stmt, depth, brk, cont)) <==> Fits(stmt, depth, brk, cont)
    decreases stmt, 1
  {
    hide IfCode, WhileCode, DoWhileCode, ForCode, SwitchCode, ReadsAsMeant;
    match stmt
    case Block(ss) => AllReadIffFit(ss, depth, brk, cont, canBreak, canContinue, inSwitch);
    case If(c, t, f) =>
      NoLabels(t, canBreak, canContinue);
      ReadsIffFits(t, depth + 1, brk, cont, canBreak, canContinue, false);
      if f.Some? {
        NoLabels(f.value, canBreak, canContinue);
        ReadsIffFits(f.value, depth + 1, brk, cont, canBreak, canContinue, false);
      }
      IfReads(c, Emit(t, depth + 1, brk, cont), if f.Some? then Emit(f.value, depth + 1, brk, cont) else []);
    case Switch(comma, value, body) =>
      var d := depth + |Labels(body)| + 1;
      ReadsIffFits(body, d, depth, cont, true, canContinue, true);
      SwitchReads(comma, value, Labels(body), Emit(body, d, depth, cont));
    case While(c, body) =>
      NoLabels(body, true, true);
      ReadsIffFits(body, depth + 2, depth, depth + 1, true, true, false);
      LoopsRead(c, Emit(body, depth + 2, depth, depth + 1));
    case DoWhile(body, c) =>
      NoLabels(body, true, true);
      ReadsIffFits(body, depth + 3, depth, depth + 2, true, true, false);
      LoopsRead(c, Emit(body, depth + 3, depth, depth + 2));
    case For(pre, c, post, body) =>
      NoLabels(body, true, true);
      ReadsIffFits(body, depth + 3, depth, depth + 2, true, true, false);
      ForReads(pre, c, post, Emit(body, depth + 3, depth, depth + 2));
    case _ => SimpleReads(stmt, depth, brk, cont);
  }

  lemma SimpleReads(stmt: Stmt, depth: nat, brk: nat, cont: nat)
    requires stmt.Empty? || stmt.ExprStmt? || stmt.Return? || stmt.Case? || stmt.Default? || stmt.Break? || stmt.Continue?
    requires InDepth(0, depth, brk, cont)
    ensures ReadsAsMeant(Emit(stmt, depth, brk, cont)) <==> Fits(stmt, depth, brk, cont)
  {
    hide Uleb128, DecodeUleb128, RawByte;
    UlebRoundTrip(depth - 1);
    RawByteReads(depth - brk - 1);
    RawByteReads(depth - cont - 1);
    if stmt.Break? || stmt.Continue? {
      var t := ByteBr(depth - (if stmt.Break? then brk else cont) - 1);
      assert Emit(stmt, depth, brk, cont) == [t];
      assert t in [t];
    }
  }

  lemma {:induction false} AllReadIffFit(ss: seq<Stmt>, depth: nat, brk: nat, cont: nat, canBreak: bool, canContinue: bool, inSwitch: bool)
    requires (forall st | st in ss :: Valid(st, canBreak, canContinue, inSwitch)) && InDepth(|LabelsOf(ss)|, depth, brk, cont)
    ensures ReadsAsMeant(EmitAll(ss, depth, brk, cont)) <==> AllFit(ss, depth, brk, cont)
    decreases ss, 0
  {
    hide ReadsAsMeant;
    if ss == [] {
      assert ReadsAsMeant([]) by { hide *; EmptyReads(); }
    } else {
      var d := DepthAfter(ss[0], depth);
      ReadsIffFits(ss[0], depth, brk, cont, canBreak, canContinue, inSwitch);
      AllReadIffFit(ss[1..], d, brk, cont, canBreak, canContinue, inSwitch);
      JoinReads(Emit(ss[0], depth, brk, cont), EmitAll(ss[1..], d, brk, cont));
    }
  }

  lemma EmptyReads()
    ensures ReadsAsMeant([])
  {
  }

  // ----- Static validity -----

  /** An open construct as the validator sees it: whether an `else` may follow, and its results. */
  datatype Frame = Frame(isIf: bool, arity: nat)

  /** The constructs open behind the code, or `None` when it is badly nested or a branch leads nowhere. */
  function Validate(code: Code, open_: seq<Frame>): Option<seq<Frame>>
    decreases |code|
  {
    if code == [] then Some(open_)
    else
      match code[0]
      case TBlock | TLoop => Validate(code[1..], [Frame(false, 0)] + open_)
      case TIf(arity) => Validate(code[1..], [Frame(true, arity)] + open_)
      case TElse =>
        if open_ != [] && open_[0].isIf then Validate(code[1..], [Frame(false, open_[0].arity)] + open_[1..]) else None
      case TEnd =>
        // An `if` that yields a value needs both branches.
        if open_ != [] && (open_[0].isIf ==> open_[0].arity == 0) then Validate(code[1..], open_[1..]) else None
      case TBr(_, imm) => if Reaches(imm, open_) then Validate(code[1..], open_) else None
      case TBrIf(_, imm) => if Reaches(imm, open_) then Validate(code[1..], open_) else None
      case _ => Validate(code[1..], open_)
  }

  predicate Reaches(imm: seq<nat>, open_: seq<Frame>) {
    match DecodeUleb128(imm)
    case None => false
    case Some(n) => n < |open_| && open_[n].arity == 0
  }

  lemma {:induction false} ValidateJoin(a: Code, b: Code, open_: seq<Frame>)
    ensures Validate(a + b, open_) == match Validate(a, open_) case None => None case Some(o) => Validate(b, o)
    decreases |a|
  {
    if a == [] {
      assert a + b == b;
    } else {
      assert (a + b)[0] == a[0] && (a + b)[1..] == a[1..] + b;
      match a[0]
      case TBlock | TLoop => ValidateJoin(a[1..], b, [Frame(false, 0)] + open_);
      case TIf(arity) => ValidateJoin(a[1..], b, [Frame(true, arity)] + open_);
      case TElse =>
        if open_ != [] && open_[0].isIf {
          ValidateJoin(a[1..], b, [Frame(false, open_[0].arity)] + open_[1..]);
        }
      case TEnd =>
        if open_ != [] {
          ValidateJoin(a[1..], b, open_[1..]);
        }
      case _ => ValidateJoin(a[1..], b, open_);
    }
  }

  ghost predicate Void(open_: seq<Frame>) {
    forall i | 0 <= i < |open_| :: open_[i].arity == 0
  }

  /** Code that leaves the open constructs as they are. */
  ghost predicate Keeps(c: Code, open_: seq<Frame>) {
    Validate(c, open_) == Some(open_)
  }

  const VOID: Frame := Frame(false, 0)

  lemma KeepsJoin(a: Code, b: Code, open_: seq<Frame>)
    requires Keeps(a, open_)
    ensures Validate(a + b, open_) == Validate(b, open_)
  {
    ValidateJoin(a, b, open_);
  }

  lemma ValidateHead(t: Tok, rest: Code, open_: seq<Frame>)
    ensures t.TBlock? || t.TLoop? ==> Validate([t] + rest, open_) == Validate(rest, [VOID] + open_)
    ensures t.TIf? ==> Validate([t] + rest, open_) == Validate(rest, [Frame(true, t.arity)] + open_)
    ensures t.TElse? && open_ != [] && open_[0].isIf ==> Validate([t] + rest, open_) == Validate(rest, [Frame(false, open_[0].arity)] + open_[1..])
    ensures t.TEnd? && open_ != [] && (open_[0].isIf ==> open_[0].arity == 0) ==> Validate([t] + rest, open_) == Validate(rest, open_[1..])
    ensures t.TBr? && Reaches(t.imm, open_) ==> Validate([t] + rest, open_) == Validate(rest, open_)
    ensures t.TBrIf? && Reaches(t.imm, open_) ==> Validate([t] + rest, open_) == Validate(rest, open_)
  {
    Head(t, rest);
  }

  /** The end of a construct, behind code that keeps what is open in it. */
  lemma KeepsEnd(c: Code, f: Frame, open_: seq<Frame>)
    requires Keeps(c, [f] + open_) && (f.isIf ==> f.arity == 0)
    ensures Validate(c + [TEnd], [f] + open_) == Some(open_)
  {
    KeepsJoin(c, [TEnd], [f] + open_);
    ValidateHead(TEnd, [], [f] + open_);
    assert [TEnd] + [] == [TEnd] && ([f] + open_)[1..] == open_;
  }

  lemma {:induction false} CondValid(c: Cond, tf: bool, open_: seq<Frame>)
    ensures Keeps(CondCode(c, tf), open_)
  {
    match c
    case LogAnd(l, r) =>
      CondValid(l, tf, open_);
      CondValid(r, tf, [Frame(tf, 1)] + open_);
      LogValid(CondCode(l, tf), CondCode(r, tf), tf, open_);
    case LogOr(l, r) =>
      CondValid(l, tf, open_);
      CondValid(r, tf, [Frame(!tf, 1)] + open_);
      LogValid(CondCode(l, tf), CondCode(r, tf), !tf, open_);
    case _ => PlainKeeps(CondCode(c, tf), open_);
  }

  predicate IsPlain(t: Tok) {
    !t.TBlock? && !t.TLoop? && !t.TIf? && !t.TElse? && !t.TEnd? && !t.TBr? && !t.TBrIf?
  }

  lemma {:induction false} PlainKeeps(c: Code, open_: seq<Frame>)
    requires forall k | 0 <= k < |c| :: IsPlain(c[k])
    ensures Keeps(c, open_)
  {
    if c != [] {
      assert IsPlain(c[0]);
      PlainKeeps(c[1..], open_);
    }
  }

  lemma LogValid(a: Code, b: Code, inThen: bool, open_: seq<Frame>)
    requires Keeps(a, open_) && Keeps(b, [Frame(inThen, 1)] + open_)
    ensures Keeps(if inThen then a + [TIf(1)] + b + [TElse, TConst(0), TEnd]
                  else a + [TIf(1), TConst(1), TElse] + b + [TEnd], open_)
  {
    hide Keeps;
    var yes, no := [Frame(true, 1)] + open_, [Frame(false, 1)] + open_;
    var c := if inThen then a + [TIf(1)] + b + [TElse, TConst(0), TEnd] else a + [TIf(1), TConst(1), TElse] + b + [TEnd];
    var k := [TConst(if inThen then 0 else 1)];
    assert Keeps(k, yes) && Keeps(k, no) by { ConstKeeps(k[0], yes); ConstKeeps(k[0], no); }
    var t, f := if inThen then b else k, if inThen then k else b;
    assert c == a + ([TIf(1)] + (t + ([TElse] + (f + [TEnd]))));
    KeepsJoin(a, [TIf(1)] + (t + ([TElse] + (f + [TEnd]))), open_);
    ValidateHead(TIf(1), t + ([TElse] + (f + [TEnd])), open_);
    KeepsJoin(t, [TElse] + (f + [TEnd]), yes);
    ValidateHead(TElse, f + [TEnd], yes);
    assert yes[1..] == open_;
    KeepsEnd(f, Frame(false, 1), open_);
    KeepsIs(c, open_);
  }

  lemma ConstKeeps(t: Tok, open_: seq<Frame>)
    requires t.TConst?
    ensures Keeps([t], open_)
  {
  }

  lemma KeepsIs(c: Code, open_: seq<Frame>)
    ensures Keeps(c, open_) <==> Validate(c, open_) == Some(open_)
  {
  }

  lemma CondJmpValid(c: Cond, n: nat, open_: seq<Frame>)
    requires n < |open_| && open_[n].arity == 0
    ensures Keeps(CondJmp(c, false, n), open_)
  {
    hide Uleb128, DecodeUleb128, CondCode;
    CondValid(c, false, open_);
    KeepsJoin(CondCode(c, false), [BrIf(n)], open_);
    UlebRoundTrip(n);
    ValidateHead(BrIf(n), [], open_);
    assert [BrIf(n)] + [] == [BrIf(n)];
  }

  lemma LoopEndValid(open_: seq<Frame>)
    ensures Validate(LOOP_END, [VOID, VOID] + open_) == Some(open_)
  {
    var o := [VOID, VOID] + open_;
    assert LOOP_END == [TBr(0, [0])] + ([TEnd] + ([TEnd] + []));
    ValidateHead(TBr(0, [0]), [TEnd] + ([TEnd] + []), o);
    ValidateHead(TEnd, [TEnd] + [], o);
    assert o[1..] == [VOID] + open_ && o[1..][1..] == open_;
    ValidateHead(TEnd, [], o[1..]);
  }

  lemma DropsKeep(e: Option<nat>, open_: seq<Frame>)
    ensures Keeps(Drops(e), open_)
  {
  }

  lemma {:induction false} DispatchKeeps(cases: seq<Option<int>>, value: nat, i: nat, open_: seq<Frame>)
    requires i <= |cases| < |open_| && Void(open_)
    ensures Keeps(Dispatch(cases, value, i), open_)
    decreases |cases| - i
  {
    hide Uleb128, DecodeUleb128;
    if i < |cases| {
      var more := Dispatch(cases, value, i + 1);
      DispatchKeeps(cases, value, i + 1, open_);
      match cases[i]
      case None => assert [] + more == more;
      case Some(v) =>
        UlebRoundTrip(i);
        var test := [TPeek(value), TConst(v), TEq] + ([BrIf(i)] + []);
        assert test == [TPeek(value), TConst(v), TEq, BrIf(i)];
        TestKeeps(value, v, i, open_);
        KeepsJoin(test, more, open_);
    }
  }

  lemma TestKeeps(value: nat, v: int, i: nat, open_: seq<Frame>)
    requires Reaches(Uleb128(i), open_)
    ensures Keeps([TPeek(value), TConst(v), TEq] + ([BrIf(i)] + []), open_)
  {
    hide Uleb128, Reaches;
    var c := [TPeek(value), TConst(v), TEq];
    PlainKeeps(c, open_);
    KeepsJoin(c, [BrIf(i)] + [], open_);
    ValidateHead(BrIf(i), [], open_);
  }

  function Voids(n: nat): (o: seq<Frame>)
    ensures |o| == n && forall i | 0 <= i < n :: o[i] == VOID
  {
    if n == 0 then [] else [VOID] + Voids(n - 1)
  }

  lemma {:induction false} BlocksOpen(n: nat, rest: Code, open_: seq<Frame>)
    ensures Validate(Repeat(TBlock, n) + rest, open_) == Validate(rest, Voids(n) + open_)
    decreases n
  {
    if n == 0 {
      assert Repeat(TBlock, n) + rest == rest && Voids(n) + open_ == open_;
    } else {
      assert Repeat(TBlock, n) + rest == [TBlock] + (Repeat(TBlock, n - 1) + rest);
      ValidateHead(TBlock, Repeat(TBlock, n - 1) + rest, open_);
      BlocksOpen(n - 1, rest, [VOID] + open_);
      assert Voids(n - 1) + ([VOID] + open_) == Voids(n) + open_;
    }
  }

  lemma IfValid(c: Cond, t: Code, f: Option<Code>, open_: seq<Frame>)
    requires Keeps(t, [Frame(true, 0)] + open_)
    requires f.Some? ==> Keeps(f.value, [VOID] + open_)
    ensures Keeps(IfCode(c, t, f), open_)
  {
    hide CondCode, Keeps;
    var yes := [Frame(true, 0)] + open_;
    var tail := t + (if f.Some? then [TElse] + (f.value + [TEnd]) else [TEnd]);
    CondValid(c, true, open_);
    KeepsJoin(CondCode(c, true), [TIf(0)] + tail, open_);
    ValidateHead(TIf(0), tail, open_);
    if f.Some? {
      KeepsJoin(t, [TElse] + (f.value + [TEnd]), yes);
      ValidateHead(TElse, f.value + [TEnd], yes);
      assert yes[1..] == open_;
      KeepsEnd(f.value, VOID, open_);
    } else {
      KeepsEnd(t, Frame(true, 0), open_);
    }
    KeepsIs(IfCode(c, t, f), open_);
  }

  lemma OpenLoop(c: Code, open_: seq<Frame>)
    ensures Validate([TBlock, TLoop] + c, open_) == Validate(c, [VOID, VOID] + open_)
  {
    assert [TBlock, TLoop] + c == [TBlock] + ([TLoop] + c);
    ValidateHead(TBlock, [TLoop] + c, open_);
    ValidateHead(TLoop, c, [VOID] + open_);
    assert [VOID] + ([VOID] + open_) == [VOID, VOID] + open_;
  }

  lemma WhileValid(c: Cond, b: Code, open_: seq<Frame>)
    requires Keeps(b, [VOID, VOID] + open_)
    ensures Keeps(WhileCode(c, b), open_)
  {
    hide CondJmp, Keeps, LOOP_END;
    var o := [VOID, VOID] + open_;
    OpenLoop(CondJmp(c, false, 1) + (b + LOOP_END), open_);
    CondJmpValid(c, 1, o);
    KeepsJoin(CondJmp(c, false, 1), b + LOOP_END, o);
    KeepsJoin(b, LOOP_END, o);
    LoopEndValid(open_);
    KeepsIs(WhileCode(c, b), open_);
  }

  /** From the end of the body's block of a do or for loop. */
  lemma LoopTailValid(b: Code, next: Code, open_: seq<Frame>)
    requires Keeps(b, [VOID, VOID, VOID] + open_) && Keeps(next, [VOID, VOID] + open_)
    ensures Validate(b + ([TEnd] + (next + LOOP_END)), [VOID, VOID, VOID] + open_) == Some(open_)
  {
    hide Keeps, LOOP_END;
    var o := [VOID, VOID, VOID] + open_;
    KeepsJoin(b, [TEnd] + (next + LOOP_END), o);
    ValidateHead(TEnd, next + LOOP_END, o);
    assert o[1..] == [VOID, VOID] + open_;
    KeepsJoin(next, LOOP_END, [VOID, VOID] + open_);
    LoopEndValid(open_);
  }

  lemma OpenBody(c: Code, open_: seq<Frame>)
    ensures Validate([TBlock, TLoop, TBlock] + c, open_) == Validate(c, [VOID, VOID, VOID] + open_)
  {
    assert [TBlock, TLoop, TBlock] + c == [TBlock, TLoop] + ([TBlock] + c);
    OpenLoop([TBlock] + c, open_);
    ValidateHead(TBlock, c, [VOID, VOID] + open_);
    assert [VOID] + ([VOID, VOID] + open_) == [VOID, VOID, VOID] + open_;
  }

  lemma DoWhileValid(b: Code, c: Cond, open_: seq<Frame>)
    requires Keeps(b, [VOID, VOID, VOID] + open_)
    ensures Keeps(DoWhileCode(b, c), open_)
  {
    hide CondJmp, Keeps, LOOP_END;
    var next := CondJmp(c, false, 1);
    OpenBody(b + ([TEnd] + (next + LOOP_END)), open_);
    CondJmpValid(c, 1, [VOID, VOID] + open_);
    LoopTailValid(b, next, open_);
    KeepsIs(DoWhileCode(b, c), open_);
  }

  lemma ForValid(pre: Option<nat>, c: Option<Cond>, post: Option<nat>, b: Code, open_: seq<Frame>)
    requires Keeps(b, [VOID, VOID, VOID] + open_)
    ensures Keeps(ForCode(pre, c, post, b), open_)
  {
    hide CondJmp, Keeps, LOOP_END, Drops, Validate;
    var o := [VOID, VOID, VOID] + open_;
    var tail := b + ([TEnd] + (Drops(post) + LOOP_END));
    DropsKeep(pre, open_);
    KeepsJoin(Drops(pre), [TBlock, TLoop, TBlock] + (ForTest(c) + tail), open_);
    OpenBody(ForTest(c) + tail, open_);
    if c.Some? {
      CondJmpValid(c.value, 2, o);
    } else {
      NothingKeeps(o);
    }
    KeepsJoin(ForTest(c), tail, o);
    DropsKeep(post, [VOID, VOID] + open_);
    LoopTailValid(b, Drops(post), open_);
    KeepsIs(ForCode(pre, c, post, b), open_);
  }

  lemma NothingKeeps(open_: seq<Frame>)
    ensures Keeps([], open_)
  {
  }

  lemma SwitchValid(comma: Option<nat>, value: nat, cases: seq<Option<int>>, b: Code, open_: seq<Frame>)
    requires Void(open_)
    requires Validate(b, Voids(|cases|) + ([VOID] + open_)) == Some([VOID] + open_)
    ensures Keeps(SwitchCode(comma, value, cases, b), open_)
  {
    hide Keeps, Drops, Dispatch, Repeat, Uleb128, DecodeUleb128, DefaultIndex, Voids, Validate;
    var n := |cases|;
    var d := DefaultIndex(cases, n);
    var o := Voids(n) + ([VOID] + open_);
    assert |o| == n + 1 + |open_| && Void(o) by { VoidsAre(n, open_); }
    var t4 := [Br(d)] + (b + [TEnd]);
    var t3 := Dispatch(cases, value, 0) + t4;
    var t2 := Drops(comma) + t3;
    ValidateHead(TBlock, Repeat(TBlock, n) + t2, open_);
    BlocksOpen(n, t2, [VOID] + open_);
    DropsKeep(comma, o);
    KeepsJoin(Drops(comma), t3, o);
    DispatchKeeps(cases, value, 0, o);
    KeepsJoin(Dispatch(cases, value, 0), t4, o);
    DefaultInRange(cases, n);
    UlebRoundTrip(d);
    ValidateHead(Br(d), b + [TEnd], o);
    ValidateJoin(b, [TEnd], o);
    ValidateHead(TEnd, [], [VOID] + open_);
    assert [TEnd] + [] == [TEnd] && ([VOID] + open_)[1..] == open_;
    assert Validate([], open_) == Some(open_) by { NothingKeeps(open_); KeepsIs([], open_); }
    KeepsIs(SwitchCode(comma, value, cases, b), open_);
  }

  lemma VoidsAre(n: nat, open_: seq<Frame>)
    requires Void(open_)
    ensures var o := Voids(n) + ([VOID] + open_); Void(o) && |o| == n + 1 + |open_| && o[n..] == [VOID] + open_
  {
  }

  lemma {:induction false} DefaultInRange(cases: seq<Option<int>>, n: nat)
    requires n <= |cases|
    ensures DefaultIndex(cases, n) <= |cases|
  {
    if n > 0 {
      DefaultInRange(cases, n - 1);
    }
  }

  /** The code of a statement is valid where it stands, and closes one construct for each of its labels. */
  lemma {:induction false} EmitValid(stmt: Stmt, open_: seq<Frame>, brk: nat, cont: nat, canBreak: bool, canContinue: bool, inSwitch: bool)
    requires Valid(stmt, canBreak, canContinue, inSwitch) && Fits(stmt, |open_|, brk, cont)
    requires Void(open_) && InDepth(|Labels(stmt)|, |open_|, brk, cont)
    ensures Validate(Emit(stmt, |open_|, brk, cont), open_) == Some(open_[|Labels(stmt)|..])
    decreases stmt, 1
  {
    hide IfCode, WhileCode, DoWhileCode, ForCode, SwitchCode, Validate, Voids;
    var n := |open_|;
    assert open_[0..] == open_;
    match stmt
    case Block(ss) => EmitAllValid(ss, open_, brk, cont, canBreak, canContinue, inSwitch);
    case If(c, t, f) =>
      BodyValid(t, [Frame(true, 0)] + open_, brk, cont, canBreak, canContinue);
      if f.Some? {
        BodyValid(f.value, [VOID] + open_, brk, cont, canBreak, canContinue);
      }
      IfValid(c, Emit(t, n + 1, brk, cont), if f.Some? then Some(Emit(f.value, n + 1, brk, cont)) else None, open_);
    case Switch(comma, value, body) =>
      var k := |Labels(body)|;
      var o := Voids(k) + ([VOID] + open_);
      VoidsAre(k, open_);
      EmitValid(body, o, n, cont, true, canContinue, true);
      SwitchValid(comma, value, Labels(body), Emit(body, n + k + 1, n, cont), open_);
    case While(c, body) =>
      BodyValid(body, [VOID, VOID] + open_, n, n + 1, true, true);
      WhileValid(c, Emit(body, n + 2, n, n + 1), open_);
    case DoWhile(body, c) =>
      BodyValid(body, [VOID, VOID, VOID] + open_, n, n + 2, true, true);
      DoWhileValid(Emit(body, n + 3, n, n + 2), c, open_);
    case For(pre, c, post, body) =>
      BodyValid(body, [VOID, VOID, VOID] + open_, n, n + 2, true, true);
      ForValid(pre, c, post, Emit(body, n + 3, n, n + 2), open_);
    case _ => SimpleValid(stmt, open_, brk, cont);
  }

  lemma {:induction false} BodyValid(stmt: Stmt, open_: seq<Frame>, brk: nat, cont: nat, canBreak: bool, canContinue: bool)
    requires Valid(stmt, canBreak, canContinue, false) && Fits(stmt, |open_|, brk, cont)
    requires Void(open_) && InDepth(0, |open_|, brk, cont)
    ensures Keeps(Emit(stmt, |open_|, brk, cont), open_)
    decreases stmt, 2
  {
    hide Emit, Validate, Valid, Fits;
    NoLabels(stmt, canBreak, canContinue);
    assert open_[0..] == open_;
    EmitValid(stmt, open_, brk, cont, canBreak, canContinue, false);
  }

  lemma SimpleValid(stmt: Stmt, open_: seq<Frame>, brk: nat, cont: nat)
    requires stmt.Empty? || stmt.ExprStmt? || stmt.Return? || stmt.Case? || stmt.Default? || stmt.Break? || stmt.Continue?
    requires Fits(stmt, |open_|, brk, cont) && Void(open_) && InDepth(|Labels(stmt)|, |open_|, brk, cont)
    ensures Validate(Emit(stmt, |open_|, brk, cont), open_) == Some(open_[|Labels(stmt)|..])
  {
    hide Uleb128, DecodeUleb128, RawByte;
    var n := |open_|;
    UlebRoundTrip(n - 1);
    RawByteReads(n - brk - 1);
    RawByteReads(n - cont - 1);
    assert open_[0..] == open_;
    match stmt
    case Return(val) =>
      var br := [Br(n - 1)];
      ValidateHead(br[0], [], open_);
      assert br + [] == br;
      if val.Some? {
        assert Keeps([TEval(val.value), TSetRet], open_) by {
          assert [TEval(val.value), TSetRet][1..] == [TSetRet] && Validate([TSetRet], open_) == Some(open_);
        }
        KeepsJoin([TEval(val.value), TSetRet], br, open_);
      } else {
        assert [] + br == br;
      }
    case _ =>
  }

  lemma {:induction false} EmitAllValid(ss: seq<Stmt>, open_: seq<Frame>, brk: nat, cont: nat, canBreak: bool, canContinue: bool, inSwitch: bool)
    requires (forall st | st in ss :: Valid(st, canBreak, canContinue, inSwitch)) && AllFit(ss, |open_|, brk, cont)
    requires Void(open_) && InDepth(|LabelsOf(ss)|, |open_|, brk, cont)
    ensures Validate(EmitAll(ss, |open_|, brk, cont), open_) == Some(open_[|LabelsOf(ss)|..])
    decreases ss, 0
  {
    hide Emit, Valid, Fits;
    assert open_[0..] == open_;
    if ss != [] {
      hide Validate;
      var n := |Labels(ss[0])|;
      var o := open_[n..];
      EmitValid(ss[0], open_, brk, cont, canBreak, canContinue, inSwitch);
      EmitAllValid(ss[1..], o, brk, cont, canBreak, canContinue, inSwitch);
      ValidateJoin(Emit(ss[0], |open_|, brk, cont), EmitAll(ss[1..], |o|, brk, cont), open_);
      assert o[|LabelsOf(ss[1..])|..] == open_[|LabelsOf(ss)|..];
    }
  }

  // ----- Functions -----

  /** `gen_defun` around the statements: one block, which `return` leaves. */
  function FunctionCode(ss: seq<Stmt>): Code {
    [TBlock] + (EmitAll(ss, 1, 0, 0) + [TEnd])
  }

  /** Valid statements of a function. */
  predicate ValidBody(ss: seq<Stmt>) {
    forall st | st in ss :: Valid(st, false, false, false)
  }

  /**
   The code of a function body is valid and self-contained, and reads as meant;
   run under any meaning of expressions, from any state, it reaches its end in
   the state the statements end or return in, or runs on as they do.
   */
  lemma FunctionSim<S>(m: Sem<S>, ss: seq<Stmt>, rest: Code, s: S, fuel: nat)
    requires ValidBody(ss) && AllFit(ss, 1, 0, 0)
    ensures Validate(FunctionCode(ss), []) == Some([]) && ReadsAsMeant(FunctionCode(ss))
    ensures match RunStmts(m, ss, 0, s, fuel)
            case Normal(_, s1, f) => Exec(m, FunctionCode(ss) + rest, [], [], s, fuel) == Exec(m, rest, [], [], s1, f)
            case Returned(s1, f) => Exec(m, FunctionCode(ss) + rest, [], [], s, fuel) == Exec(m, rest, [], [], s1, f)
            case Timeout => Exec(m, FunctionCode(ss) + rest, [], [], s, fuel) == OutOfFuel
            case _ => false
  {
    hide Exec, Branch, EmitAll, RunStmts, Closes, Validate, ReadsAsMeant, Emit, Valid, Fits;
    var code := EmitAll(ss, 1, 0, 0);
    var L := [FLAT];
    NoLabelsOf(ss, false, false);
    FunctionValid(ss);
    assert FunctionCode(ss) + rest == [TBlock] + (code + ([TEnd] + rest));
    BlockStep(m, code + ([TEnd] + rest), [], s, fuel);
    assert [Label(0, 0, None)] + [] == L && L[0..] == L && L[1..] == [];
    StmtsSim(m, ss, 0, 0, false, false, false, 0, [TEnd] + rest, L, s, fuel);
    FunctionOutcome(m, ss, s, fuel);
    var o := RunStmts(m, ss, 0, s, fuel);
    assert [FLAT] + [] == L;
    match o
    case Normal(_, s1, f) => WasmCond.EndStep(m, rest, FLAT, [], [], s1, f);
    case Returned(s1, f) =>
      ClosesNothing();
      BranchOut(m, [], 0, rest, L, s1, f);
      assert [] + ([TEnd] + rest) == [TEnd] + rest;
    case _ =>
  }

  lemma FunctionValid(ss: seq<Stmt>)
    requires ValidBody(ss) && AllFit(ss, 1, 0, 0)
    ensures Validate(FunctionCode(ss), []) == Some([]) && ReadsAsMeant(FunctionCode(ss))
  {
    hide EmitAll, Valid, Validate, ReadsAsMeant;
    var code := EmitAll(ss, 1, 0, 0);
    var o := [VOID];
    NoLabelsOf(ss, false, false);
    assert [VOID] + [] == o && o[0..] == o;
    ValidateHead(TBlock, code + [TEnd], []);
    EmitAllValid(ss, o, 0, 0, false, false, false);
    KeepsEnd(code, VOID, []);
    FunctionReads(ss);
  }

  /** A function's branches read as meant exactly when every `break` and `continue` depth fits one byte. */
  lemma FunctionReads(ss: seq<Stmt>)
    requires ValidBody(ss)
    ensures ReadsAsMeant(FunctionCode(ss)) <==> AllFit(ss, 1, 0, 0)
  {
    hide EmitAll, Valid, ReadsAsMeant, AllFit;
    var code := EmitAll(ss, 1, 0, 0);
    NoLabelsOf(ss, false, false);
    AllReadIffFit(ss, 1, 0, 0, false, false, false);
    JoinReads([TBlock], code + [TEnd]);
    JoinReads(code, [TEnd]);
    assert ReadsAsMeant([TBlock]) && ReadsAsMeant([TEnd]) by { OneReads(TBlock); OneReads(TEnd); }
  }

  lemma OneReads(t: Tok)
    requires !t.TBr? && !t.TBrIf?
    ensures ReadsAsMeant([t])
  {
  }

  // ----- A function whose branches do not read as meant -----

  function Cases(n: nat): (ss: seq<Stmt>)
    ensures |LabelsOf(ss)| == n && (forall st | st in ss :: st.Case?)
    ensures forall i | 0 <= i < n :: LabelsOf(ss)[i] == Some(n - i)
  {
    if n == 0 then [] else [Case(n)] + Cases(n - 1)
  }

  /** `switch (x) { case 0: break; case n: ... case 1: }` */
  function BreakAndCases(n: nat): Stmt {
    Switch(None, 0, Block([Case(0)] + ([Break] + Cases(n))))
  }

  /** An early `break` in a switch of more than 128 cases is written as bytes that mean something else. */
  lemma ManyCases(n: nat)
    ensures ValidBody([BreakAndCases(n)])
    ensures ReadsAsMeant(FunctionCode([BreakAndCases(n)])) <==> n < 128
  {
    hide FunctionCode, ReadsAsMeant, Valid, Fits, BreakAndCases;
    var stmt := BreakAndCases(n);
    ManyCasesValid(n);
    ManyCasesFit(n);
    FunctionReads([stmt]);
    assert [stmt][1..] == [];
  }

  lemma ManyCasesBody(n: nat)
    ensures var ss := [Case(0)] + ([Break] + Cases(n));
            ss[1..] == [Break] + Cases(n) && ([Break] + Cases(n))[1..] == Cases(n) && LabelsOf(ss) == [Some(0)] + LabelsOf(Cases(n))
  {
    var ss := [Case(0)] + ([Break] + Cases(n));
    assert ss[1..] == [Break] + Cases(n) && ([Break] + Cases(n))[1..] == Cases(n);
    assert LabelsOf([Break] + Cases(n)) == LabelsOf(Cases(n));
  }

  lemma ManyCasesValid(n: nat)
    ensures Valid(BreakAndCases(n), false, false, false)
  {
    var ss := [Case(0)] + ([Break] + Cases(n));
    ManyCasesBody(n);
    forall st | st in ss ensures Valid(st, true, false, true) {
      assert st == Case(0) || st == Break || st in Cases(n);
    }
    assert Valid(Block(ss), true, false, true);
  }

  lemma ManyCasesFit(n: nat)
    ensures Fits(BreakAndCases(n), 1, 0, 0) <==> n < 128
  {
    var ss := [Case(0)] + ([Break] + Cases(n));
    ManyCasesBody(n);
    CasesFit(Cases(n), n + 2, 1, 0);
    assert Fits(Case(0), n + 3, 1, 0) && DepthAfter(Case(0), n + 3) == n + 2 && DepthAfter(Break, n + 2) == n + 2;
    assert AllFit([Break] + Cases(n), n + 2, 1, 0) <==> n < 128;
    assert AllFit(ss, n + 3, 1, 0) <==> n < 128;
    var b := Block(ss);
    assert |Labels(b)| == n + 1;
    assert BreakAndCases(n).body == b;
    assert Fits(b, n + 3, 1, 0) <==> AllFit(ss, n + 3, 1, 0);
    assert 1 + |Labels(b)| + 1 == n + 3;
    assert Fits(BreakAndCases(n), 1, 0, 0) <==> Fits(b, n + 3, 1, 0);
  }

  lemma {:induction false} CasesFit(ss: seq<Stmt>, depth: nat, brk: nat, cont: nat)
    requires forall st | st in ss :: st.Case?
    ensures AllFit(ss, depth, brk, cont)
  {
    if ss != [] {
      assert ss[0].Case? && Fits(ss[0], depth, brk, cont);
      CasesFit(ss[1..], DepthAfter(ss[0], depth), brk, cont);
    }
  }
}
