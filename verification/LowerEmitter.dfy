/** The generator's own form: blocks appended to the current function, and the blocks `break` and `continue` go to. */
module LowerEmitter {
  import opened Options
  import opened Ir
  import opened LowerCode
  import opened LowerGen
  import opened LowerSwitch
  import opened Orders
  import Qsort
  import St = Structured

  // ----- Sorting the cases -----

  /** `compare_cases` */
  function CompareCases(cases: seq<Option<int>>, x: nat, y: nat): int {
    if x >= |cases| || cases[x].None? then 1
    else if y >= |cases| || cases[y].None? then -1
    else
      var d := cases[x].value - cases[y].value;
      if d > 0 then 1 else if d < 0 then -1 else 0
  }

  lemma CompareCasesIsWeak(cases: seq<Option<int>>, d: set<nat>)
    ensures Qsort.StrictWeak((x: nat, y: nat) => CompareCases(cases, x, y), d)
  {
    var cmp := (x: nat, y: nat) => CompareCases(cases, x, y);
    assert forall x, y :: Qsort.Before(cmp, x, y) <==> CompareCases(cases, x, y) < 0;
  }

  /** The quicksort puts the labels in the order of their values, `default` last. */
  method SortCases(cases: seq<Option<int>>) returns (order: seq<nat>)
    requires DistinctCases(cases)
    ensures order == OrderOf(cases, |cases|)
  {
    var a := new nat[|cases|](i => i);
    ghost var ids := a[..];
    ghost var d := set v | v in ids;
    CompareCasesIsWeak(cases, d);
    var cmp := (x: nat, y: nat) => CompareCases(cases, x, y);
    Qsort.MyQsort(a, 0, |cases|, cmp, d);
    order := a[..];
    assert ids[0..|cases|] == ids && order[0..|cases|] == order;
    SortedIsOrder(cases, ids, order, cmp);
  }

  lemma SortedIsOrder(cases: seq<Option<int>>, ids: seq<nat>, order: seq<nat>, cmp: (nat, nat) -> int)
    requires DistinctCases(cases) && |ids| == |order| == |cases| && multiset(ids) == multiset(order)
    requires forall i | 0 <= i < |ids| :: ids[i] == i
    requires cmp == ((x: nat, y: nat) => CompareCases(cases, x, y)) && Qsort.Sorted(cmp, order, 0, |order|)
    ensures order == OrderOf(cases, |cases|)
  {
    hide OrderOf;
    PermutedIsOrder(ids, order, |cases|);
    OrderInOrder(cases, order, cmp);
    OrderKeeps(cases, |cases|);
    forall x: nat ensures x in order <==> x in OrderOf(cases, |cases|) {
      OrderHas(cases, |cases|, x);
    }
    OneOrder(cases, order, OrderOf(cases, |cases|));
  }

  lemma OrderInOrder(cases: seq<Option<int>>, order: seq<nat>, cmp: (nat, nat) -> int)
    requires DistinctCases(cases) && IsOrder(order, |cases|)
    requires cmp == ((x: nat, y: nat) => CompareCases(cases, x, y)) && Qsort.Sorted(cmp, order, 0, |order|)
    ensures InOrder(cases, order)
  {
    forall i, j | 0 <= i < j < |order| ensures CaseLess(cases[order[i]], cases[order[j]]) {
      assert !Qsort.Before(cmp, order[j], order[i]);
      assert cases[order[i]] != cases[order[j]];
    }
  }

  // ----- Emission -----

  lemma Assoc(z: Code, a: Code, b: Code)
    ensures (z + a) + b == z + (a + b)
  {
  }

  lemma NoCode(z: Code)
    ensures z + [] == z
  {
  }

  class Generator {
    var code: Code
    // The next label `new_bb` hands out.
    var next: nat
    var breakBb: nat
    var continueBb: nat
    var retBb: nat

    constructor ()
      ensures code == [] && next == 0 && breakBb == 0 && continueBb == 0 && retBb == 0
    {
      code, next, breakBb, continueBb, retBb := [], 0, 0, 0, 0;
    }

    ghost function Blocks(): Env
      reads this
    {
      Env(breakBb, continueBb, retBb)
    }

    method NewBb() returns (l: nat)
      modifies this`next
      ensures l == old(next) && next == old(next) + 1
    {
      l := next;
      next := next + 1;
    }

    method Add(c: Code)
      modifies this`code
      ensures code == old(code) + c
    {
      code := code + c;
    }

    method SetCurbb(l: nat)
      modifies this`code
      ensures code == old(code) + [Lab(l)]
    {
      Add([Lab(l)]);
    }

    method NewIrJmp(cond: CondKind, l: nat)
      modifies this`code
      ensures code == old(code) + [Jcc(cond, l)]
    {
      Add([Jcc(cond, l)]);
    }

    method GenCondJmp(ty: Types, cond: St.Cond, tf: bool, bb: nat)
      modifies this`code, this`next
      ensures code == old(code) + GenCond(ty, cond, tf, bb, old(next)).0
      ensures next == GenCond(ty, cond, tf, bb, old(next)).1
      decreases cond, 1
    {
      match cond
      case Fixnum(v) =>
        if (v != 0) == tf {
          NewIrJmp(ANY, bb);
        } else {
          NoCode(code);
        }
      case Cmp(kind, lhs, rhs) =>
        var k := if tf then kind else St.InvertKind(kind);
        var (cmp, c) := CompareCode(ty, k, lhs, rhs);
        Assoc(code, cmp, [Jcc(c, bb)]);
        Add(cmp);
        NewIrJmp(c, bb);
      case LogAnd(l, r) => GenLogJmp(ty, cond, tf, bb);
      case LogOr(l, r) => GenLogJmp(ty, cond, tf, bb);
    }

    /** `&&` and `||`: the first operand jumps when its truth is the one that decides. */
    method GenLogJmp(ty: Types, cond: St.Cond, tf: bool, bb: nat)
      requires cond.LogAnd? || cond.LogOr?
      modifies this`code, this`next
      ensures code == old(code) + GenCond(ty, cond, tf, bb, old(next)).0
      ensures next == GenCond(ty, cond, tf, bb, old(next)).1
      decreases cond, 0
    {
      hide GenCond, LogCode;
      ghost var z := code;
      LogGen(ty, cond, tf, bb, next);
      var bb1 := NewBb();
      var bb2 := NewBb();
      var first := if cond.LogOr? == tf then bb else bb2;
      GenCondJmp(ty, cond.l, cond.LogOr?, first);
      SetCurbb(bb1);
      ghost var n1 := next;
      GenCondJmp(ty, cond.r, tf, bb);
      SetCurbb(bb2);
      LogIs(z, GenCond(ty, cond.l, cond.LogOr?, first, bb1 + 2).0, bb1, GenCond(ty, cond.r, tf, bb, n1).0);
    }

    /** `gen_switch_cond_recur` */
    method GenDispatchCode(half: nat, cases: seq<Option<int>>, order: seq<nat>, first: nat, other: nat)
      modifies this`code, this`next
      ensures code == old(code) + GenDispatch(half, cases, order, first, other, old(next)).0
      ensures next == GenDispatch(half, cases, order, first, other, old(next)).1
      decreases |order|
    {
      hide GenDispatch, TestCase, SplitCode;
      if |order| <= 2 {
        GenFew(half, cases, order, first, other);
      } else {
        ghost var z := code;
        SplitGen(half, cases, order, first, other, next);
        var bbne := NewBb();
        var mid := |order| / 2;
        var test := TestCase(half, CaseValue(cases, order[mid]), first + order[mid], bbne);
        Add(test);
        var bblt := NewBb();
        var bbgt := NewBb();
        Add([Jcc(GT, bbgt), Lab(bblt)]);
        GenDispatchCode(half, cases, order[..mid], first, other);
        SetCurbb(bbgt);
        ghost var n1 := next;
        GenDispatchCode(half, cases, order[mid + 1..], first, other);
        SplitIs(z, test, bbne, GenDispatch(half, cases, order[..mid], first, other, bbne + 3).0, GenDispatch(half, cases, order[mid + 1..], first, other, n1).0);
      }
    }

    /** At most two cases: one test after the other. */
    method GenFew(half: nat, cases: seq<Option<int>>, order: seq<nat>, first: nat, other: nat)
      requires |order| <= 2
      modifies this`code, this`next
      ensures code == old(code) + GenDispatch(half, cases, order, first, other, old(next)).0
      ensures next == GenDispatch(half, cases, order, first, other, old(next)).1
    {
      hide GenDispatch, TestCase;
      ghost var z, n := code, next;
      for i := 0 to |order|
        invariant next == n + i
        invariant i == 0 ==> code == z
        invariant i == 1 ==> code == z + TestCase(half, CaseValue(cases, order[0]), first + order[0], n)
        invariant i == 2 ==> code == (z + TestCase(half, CaseValue(cases, order[0]), first + order[0], n)) + TestCase(half, CaseValue(cases, order[1]), first + order[1], n + 1)
      {
        var nextbb := NewBb();
        Add(TestCase(half, CaseValue(cases, order[i]), first + order[i], nextbb));
      }
      FewIs(z, half, cases, order, first, other, n);
      NewIrJmp(ANY, other);
    }

    /** `gen_switch_cond` */
    method GenSwitchHead(ty: Types, comma: Option<nat>, value: nat, cases: seq<Option<int>>, first: nat, brk: nat)
      requires DistinctCases(cases)
      modifies this`code, this`next
      ensures code == old(code) + GenSwitchCond(ty, comma, value, cases, first, brk, old(next)).0
      ensures next == GenSwitchCond(ty, comma, value, cases, first, brk, old(next)).1
    {
      hide GenDispatch, OrderOf;
      ghost var z, n := code, next;
      Add([Load(comma, value)]);
      var d := St.FirstIndex(cases, None, 0);
      var other := if d.Some? then first + d.value else brk;
      var len := |cases|;
      var order := [];
      if len > 0 {
        order := SortCases(cases);
        if d.Some? {
          len := len - 1;
        }
      } else {
        assert OrderOf(cases, 0) == [] by { NoOrder(cases); }
      }
      GenDispatchCode(ty.half(value), cases, order[..len], first, other);
      var bb := NewBb();
      SetCurbb(bb);
      ghost var c := GenDispatch(ty.half(value), cases, order[..len], first, other, n).0;
      Assoc(z + [Load(comma, value)], c, [Lab(bb)]);
      Assoc(z, [Load(comma, value)], c + [Lab(bb)]);
    }

    method GenExprStmt(e: Option<nat>)
      modifies this`code
      ensures code == old(code) + Evals(e)
    {
      if e.Some? {
        Add([Eval(e.value)]);
      } else {
        NoCode(code);
      }
    }

    method GenStmt(ty: Types, stmt: St.Stmt, cs: nat, ghost canBreak: bool, ghost canContinue: bool, ghost inSwitch: bool)
      requires St.Valid(stmt, canBreak, canContinue, inSwitch)
      modifies this
      ensures code == old(code) + Gen(ty, stmt, old(next), cs, old(Blocks())).0
      ensures next == Gen(ty, stmt, old(next), cs, old(Blocks())).1 && Blocks() == old(Blocks())
      decreases stmt, 1
    {
      match stmt
      case Empty => NoCode(code);
      case ExprStmt(e) => Add([Eval(e)]);
      case Return(val) => GenReturn(ty, stmt);
      case Block(ss) => GenStmts(ty, ss, cs, canBreak, canContinue, inSwitch);
      case If(_, _, _) => GenIf(ty, stmt, canBreak, canContinue);
      case Switch(_, _, _) => GenSwitch(ty, stmt, canContinue);
      case Case(_) => SetCurbb(cs);
      case Default => SetCurbb(cs);
      case While(_, _) => GenWhile(ty, stmt);
      case DoWhile(_, _) => GenDoWhile(ty, stmt);
      case For(_, _, _, _) => GenFor(ty, stmt);
      case Break => GenLeave(breakBb);
      case Continue => GenLeave(continueBb);
    }

    method GenStmts(ty: Types, ss: seq<St.Stmt>, cs: nat, ghost canBreak: bool, ghost canContinue: bool, ghost inSwitch: bool)
      requires forall st | st in ss :: St.Valid(st, canBreak, canContinue, inSwitch)
      modifies this
      ensures code == old(code) + GenAll(ty, ss, old(next), cs, old(Blocks())).0
      ensures next == GenAll(ty, ss, old(next), cs, old(Blocks())).1 && Blocks() == old(Blocks())
      decreases ss, 0
    {
      hide Gen, St.Valid;
      if |ss| > 0 {
        ghost var z, n := code, next;
        GenStmt(ty, ss[0], cs, canBreak, canContinue, inSwitch);
        ghost var n1 := next;
        GenStmts(ty, ss[1..], cs + |St.Labels(ss[0])|, canBreak, canContinue, inSwitch);
        Assoc(z, Gen(ty, ss[0], n, cs, Blocks()).0, GenAll(ty, ss[1..], n1, cs + |St.Labels(ss[0])|, Blocks()).0);
      } else {
        NoCode(code);
      }
    }

    /** A jump with the new block behind it (`gen_break`, `gen_continue`). */
    method GenLeave(to: nat)
      modifies this`code, this`next
      ensures code == old(code) + Leave(to, old(next)) && next == old(next) + 1
    {
      ghost var z := code;
      var bb := NewBb();
      NewIrJmp(ANY, to);
      SetCurbb(bb);
      Assoc(z, [Jcc(ANY, to)], [Lab(bb)]);
      assert [Jcc(ANY, to)] + [Lab(bb)] == Leave(to, bb);
    }

    method GenReturn(ty: Types, stmt: St.Stmt)
      requires stmt.Return?
      modifies this`code, this`next
      ensures code == old(code) + Gen(ty, stmt, old(next), 0, old(Blocks())).0
      ensures next == old(next) + 1
    {
      ghost var z := code;
      if stmt.val.Some? {
        Add([Result(stmt.val.value)]);
      } else {
        NoCode(code);
      }
      Assoc(z, if stmt.val.Some? then [Result(stmt.val.value)] else [], Leave(retBb, next));
      GenLeave(retBb);
    }

    method GenIf(ty: Types, stmt: St.Stmt, ghost canBreak: bool, ghost canContinue: bool)
      requires stmt.If? && St.Valid(stmt, canBreak, canContinue, false)
      modifies this
      ensures code == old(code) + Gen(ty, stmt, old(next), 0, old(Blocks())).0
      ensures next == Gen(ty, stmt, old(next), 0, old(Blocks())).1 && Blocks() == old(Blocks())
      decreases stmt, 0
    {
      hide GenCond, GenAll, St.Valid, IfCode;
      ghost var z, n, env := code, next, Blocks();
      IfValid(stmt, canBreak, canContinue);
      var tbb := NewBb();
      var fbb := NewBb();
      GenCondJmp(ty, stmt.cond, false, fbb);
      ghost var cc, n1 := GenCond(ty, stmt.cond, false, fbb, n + 2).0, next;
      SetCurbb(tbb);
      GenStmt(ty, stmt.tblock, 0, canBreak, canContinue, false);
      ghost var tc := Gen(ty, stmt.tblock, n1, 0, env).0;
      if stmt.fblock.None? {
        SetCurbb(fbb);
        IfIs(z, cc, n, tc, None);
      } else {
        var nbb := NewBb();
        NewIrJmp(ANY, nbb);
        SetCurbb(fbb);
        GenStmt(ty, stmt.fblock.value, 0, canBreak, canContinue, false);
        ghost var fc := Gen(ty, stmt.fblock.value, nbb + 1, 0, env).0;
        SetCurbb(nbb);
        IfIs(z, cc, n, tc, Some((fc, nbb)));
      }
    }

    method GenSwitch(ty: Types, stmt: St.Stmt, ghost canContinue: bool)
      requires stmt.Switch? && St.Valid(stmt, true, canContinue, false)
      modifies this
      ensures code == old(code) + Gen(ty, stmt, old(next), 0, old(Blocks())).0
      ensures next == Gen(ty, stmt, old(next), 0, old(Blocks())).1 && Blocks() == old(Blocks())
      decreases stmt, 0
    {
      hide GenSwitchCond, GenAll, St.Valid;
      ghost var z, n, env := code, next, Blocks();
      SwitchValid(stmt, canContinue);
      var cases := St.Labels(stmt.body);
      var saveBreak := breakBb;
      breakBb := NewBb();
      var breakBlock, first := breakBb, next;
      for i := 0 to |cases|
        invariant next == first + i && code == z && Blocks() == env.(brk := n)
      {
        var bb := NewBb();
      }
      ghost var n0 := next;
      GenSwitchHead(ty, stmt.comma, stmt.value, cases, first, breakBlock);
      ghost var d, n1 := GenSwitchCond(ty, stmt.comma, stmt.value, cases, first, breakBlock, n0).0, next;
      GenStmt(ty, stmt.body, first, true, canContinue, true);
      ghost var b := Gen(ty, stmt.body, n1, first, env.(brk := n)).0;
      SetCurbb(breakBlock);
      breakBb := saveBreak;
      Assoc(z + d, b, [Lab(n)]);
      Assoc(z, d, b + [Lab(n)]);
    }

    method GenWhile(ty: Types, stmt: St.Stmt)
      requires stmt.While? && St.Valid(stmt, true, true, false)
      modifies this
      ensures code == old(code) + Gen(ty, stmt, old(next), 0, old(Blocks())).0
      ensures next == Gen(ty, stmt, old(next), 0, old(Blocks())).1 && Blocks() == old(Blocks())
      decreases stmt, 0
    {
      hide Gen, GenCond, St.Valid, LoopCode;
      ghost var z, n, env := code, next, Blocks();
      LoopValid(stmt);
      LoopGen(ty, stmt, n, env);
      var loopBb := NewBb();
      var saveCont, saveBreak := continueBb, breakBb;
      continueBb := NewBb();
      breakBb := NewBb();
      var condBb, nextBb := continueBb, breakBb;
      NewIrJmp(ANY, condBb);
      SetCurbb(loopBb);
      GenStmt(ty, stmt.body, 0, true, true, false);
      ghost var b, n1 := Gen(ty, stmt.body, n + 3, 0, env.(brk := n + 2, cont := n + 1)).0, next;
      SetCurbb(condBb);
      GenCondJmp(ty, stmt.cond, true, loopBb);
      SetCurbb(nextBb);
      continueBb, breakBb := saveCont, saveBreak;
      ghost var c := GenCond(ty, stmt.cond, true, n, n1).0;
      LoopIs(z + [Jcc(ANY, n + 1)], n, b, c);
      Assoc(z, [Jcc(ANY, n + 1)], LoopCode(n, b, c));
    }

    method GenDoWhile(ty: Types, stmt: St.Stmt)
      requires stmt.DoWhile? && St.Valid(stmt, true, true, false)
      modifies this
      ensures code == old(code) + Gen(ty, stmt, old(next), 0, old(Blocks())).0
      ensures next == Gen(ty, stmt, old(next), 0, old(Blocks())).1 && Blocks() == old(Blocks())
      decreases stmt, 0
    {
      hide Gen, GenCond, St.Valid, LoopCode;
      ghost var z, n, env := code, next, Blocks();
      LoopValid(stmt);
      LoopGen(ty, stmt, n, env);
      var loopBb := NewBb();
      var saveCont, saveBreak := continueBb, breakBb;
      continueBb := NewBb();
      breakBb := NewBb();
      var condBb, nextBb := continueBb, breakBb;
      SetCurbb(loopBb);
      GenStmt(ty, stmt.body, 0, true, true, false);
      ghost var b, n1 := Gen(ty, stmt.body, n + 3, 0, env.(brk := n + 2, cont := n + 1)).0, next;
      SetCurbb(condBb);
      GenCondJmp(ty, stmt.cond, true, loopBb);
      SetCurbb(nextBb);
      continueBb, breakBb := saveCont, saveBreak;
      LoopIs(z, n, b, GenCond(ty, stmt.cond, true, n, n1).0);
    }

    /** Ahead of the body of a for loop. */
    method GenForHead(ty: Types, stmt: St.Stmt, condBb: nat, bodyBb: nat, nextBb: nat)
      requires stmt.For?
      modifies this`code, this`next
      ensures code == (((old(code) + Evals(stmt.pre)) + [Lab(condBb)]) + ForTest(ty, stmt.forCond, nextBb, old(next)).0) + [Lab(bodyBb)]
      ensures next == ForTest(ty, stmt.forCond, nextBb, old(next)).1
    {
      GenExprStmt(stmt.pre);
      SetCurbb(condBb);
      if stmt.forCond.Some? {
        GenCondJmp(ty, stmt.forCond.value, false, nextBb);
      } else {
        NoCode(code);
      }
      SetCurbb(bodyBb);
    }

    /** Behind it. */
    method GenForTail(stmt: St.Stmt, condBb: nat, contBb: nat, nextBb: nat)
      requires stmt.For?
      modifies this`code
      ensures code == (((old(code) + [Lab(contBb)]) + Evals(stmt.post)) + [Jcc(ANY, condBb)]) + [Lab(nextBb)]
    {
      SetCurbb(contBb);
      GenExprStmt(stmt.post);
      NewIrJmp(ANY, condBb);
      SetCurbb(nextBb);
    }

    method GenFor(ty: Types, stmt: St.Stmt)
      requires stmt.For? && St.Valid(stmt, true, true, false)
      modifies this
      ensures code == old(code) + Gen(ty, stmt, old(next), 0, old(Blocks())).0
      ensures next == Gen(ty, stmt, old(next), 0, old(Blocks())).1 && Blocks() == old(Blocks())
      decreases stmt, 0
    {
      hide Gen, GenCond, St.Valid, ForCode, Evals, ForTest;
      ghost var z, n, env := code, next, Blocks();
      LoopValid(stmt);
      LoopGen(ty, stmt, n, env);
      var condBb := NewBb();
      var bodyBb := NewBb();
      var saveCont, saveBreak := continueBb, breakBb;
      continueBb := NewBb();
      breakBb := NewBb();
      var contBb, nextBb := continueBb, breakBb;
      GenForHead(ty, stmt, condBb, bodyBb, nextBb);
      ghost var cc, n1 := ForTest(ty, stmt.forCond, n + 3, n + 4).0, next;
      GenStmt(ty, stmt.body, 0, true, true, false);
      ghost var b := Gen(ty, stmt.body, n1, 0, env.(brk := n + 3, cont := n + 2)).0;
      GenForTail(stmt, condBb, contBb, nextBb);
      continueBb, breakBb := saveCont, saveBreak;
      ForIs(z, Evals(stmt.pre), n, cc, b, Evals(stmt.post));
    }
  }

  lemma LoopGen(ty: Types, stmt: St.Stmt, n: nat, env: Env)
    ensures stmt.While? ==>
              var (b, n1) := Gen(ty, stmt.body, n + 3, 0, env.(brk := n + 2, cont := n + 1));
              var (c, n2) := GenCond(ty, stmt.cond, true, n, n1);
              Gen(ty, stmt, n, 0, env) == ([Jcc(ANY, n + 1)] + LoopCode(n, b, c), n2)
    ensures stmt.DoWhile? ==>
              var (b, n1) := Gen(ty, stmt.body, n + 3, 0, env.(brk := n + 2, cont := n + 1));
              var (c, n2) := GenCond(ty, stmt.cond, true, n, n1);
              Gen(ty, stmt, n, 0, env) == (LoopCode(n, b, c), n2)
    ensures stmt.For? ==>
              var (c, n1) := ForTest(ty, stmt.forCond, n + 3, n + 4);
              var (b, n2) := Gen(ty, stmt.body, n1, 0, env.(brk := n + 3, cont := n + 2));
              Gen(ty, stmt, n, 0, env) == (ForCode(Evals(stmt.pre), n, c, b, Evals(stmt.post)), n2)
  {
  }

  lemma LogGen(ty: Types, c: St.Cond, tf: bool, bb: nat, n: nat)
    requires c.LogAnd? || c.LogOr?
    ensures var first := if c.LogOr? == tf then bb else n + 1;
            var (c1, n1) := GenCond(ty, c.l, c.LogOr?, first, n + 2);
            var (c2, n2) := GenCond(ty, c.r, tf, bb, n1);
            GenCond(ty, c, tf, bb, n) == (LogCode(c1, n, c2), n2)
  {
  }

  lemma SplitGen(half: nat, cases: seq<Option<int>>, order: seq<nat>, first: nat, other: nat, n: nat)
    requires |order| > 2
    ensures var mid := |order| / 2;
            var (c1, n1) := GenDispatch(half, cases, order[..mid], first, other, n + 3);
            var (c2, n2) := GenDispatch(half, cases, order[mid + 1..], first, other, n1);
            GenDispatch(half, cases, order, first, other, n)
            == (SplitCode(TestCase(half, CaseValue(cases, order[mid]), first + order[mid], n), n, c1, c2), n2)
  {
  }

  lemma LogIs(z: Code, a: Code, n: nat, b: Code)
    ensures (((z + a) + [Lab(n)]) + b) + [Lab(n + 1)] == z + LogCode(a, n, b)
  {
    Assoc((z + a) + [Lab(n)], b, [Lab(n + 1)]);
    Assoc(z + a, [Lab(n)], b + [Lab(n + 1)]);
    Assoc(z, a, [Lab(n)] + (b + [Lab(n + 1)]));
  }

  lemma FewIs(z: Code, half: nat, cases: seq<Option<int>>, order: seq<nat>, first: nat, other: nat, n: nat)
    requires |order| <= 2
    ensures var out := [Jcc(ANY, other)];
            var code := GenDispatch(half, cases, order, first, other, n).0;
            && (|order| == 0 ==> z + out == z + code)
            && (|order| == 1 ==> (z + TestCase(half, CaseValue(cases, order[0]), first + order[0], n)) + out == z + code)
            && (|order| == 2 ==>
                  ((z + TestCase(half, CaseValue(cases, order[0]), first + order[0], n))
                   + TestCase(half, CaseValue(cases, order[1]), first + order[1], n + 1)) + out == z + code)
    ensures GenDispatch(half, cases, order, first, other, n).1 == n + |order|
  {
    hide TestCase;
    var out := [Jcc(ANY, other)];
    if |order| == 1 {
      Assoc(z, TestCase(half, CaseValue(cases, order[0]), first + order[0], n), out);
    } else if |order| == 2 {
      var t0, t1 := TestCase(half, CaseValue(cases, order[0]), first + order[0], n), TestCase(half, CaseValue(cases, order[1]), first + order[1], n + 1);
      Assoc(z + t0, t1, out);
      Assoc(z, t0, t1 + out);
    }
  }

  lemma SplitIs(z: Code, test: Code, n: nat, below: Code, above: Code)
    ensures ((((z + test) + [Jcc(GT, n + 2), Lab(n + 1)]) + below) + [Lab(n + 2)]) + above == z + SplitCode(test, n, below, above)
  {
    var j, g := [Jcc(GT, n + 2), Lab(n + 1)], [Lab(n + 2)];
    Assoc(((z + test) + j) + below, g, above);
    Assoc((z + test) + j, below, g + above);
    Assoc(z + test, j, below + (g + above));
    Assoc(z, test, j + (below + (g + above)));
  }

  lemma NoOrder(cases: seq<Option<int>>)
    ensures OrderOf(cases, 0) == []
  {
  }

  lemma IfValid(stmt: St.Stmt, canBreak: bool, canContinue: bool)
    requires stmt.If? && St.Valid(stmt, canBreak, canContinue, false)
    ensures St.Valid(stmt.tblock, canBreak, canContinue, false)
    ensures stmt.fblock.Some? ==> St.Valid(stmt.fblock.value, canBreak, canContinue, false)
  {
  }

  lemma SwitchValid(stmt: St.Stmt, canContinue: bool)
    requires stmt.Switch? && St.Valid(stmt, true, canContinue, false)
    ensures St.Valid(stmt.body, true, canContinue, true) && DistinctCases(St.Labels(stmt.body))
  {
  }

  lemma LoopValid(stmt: St.Stmt)
    requires (stmt.While? || stmt.DoWhile? || stmt.For?) && St.Valid(stmt, true, true, false)
    ensures St.Valid(stmt.body, true, true, false)
  {
  }

  lemma IfIs(z: Code, c: Code, n: nat, t: Code, f: Option<(Code, nat)>)
    ensures f.None? ==> (((z + c) + [Lab(n)]) + t) + [Lab(n + 1)] == z + IfCode(c, n, t, f)
    ensures f.Some? ==>
              ((((((z + c) + [Lab(n)]) + t) + [Jcc(ANY, f.value.1)]) + [Lab(n + 1)]) + f.value.0) + [Lab(f.value.1)] == z + IfCode(c, n, t, f)
  {
    var l := [Lab(n)];
    if f.None? {
      var e := [Lab(n + 1)];
      Assoc((z + c) + l, t, e);
      Assoc(z + c, l, t + e);
      Assoc(z, c, l + (t + e));
    } else {
      var (b, end) := f.value;
      var j, g, e := [Jcc(ANY, end)], [Lab(n + 1)], [Lab(end)];
      var y := ((z + c) + l) + t;
      Assoc((y + j) + g, b, e);
      Assoc(y + j, g, b + e);
      Assoc(y, j, g + (b + e));
      var tail := j + (g + (b + e));
      Assoc((z + c) + l, t, tail);
      Assoc(z + c, l, t + tail);
      Assoc(z, c, l + (t + tail));
    }
  }

  lemma LoopIs(z: Code, n: nat, b: Code, c: Code)
    ensures ((((z + [Lab(n)]) + b) + [Lab(n + 1)]) + c) + [Lab(n + 2)] == z + LoopCode(n, b, c)
  {
    var l0, l1, l2 := [Lab(n)], [Lab(n + 1)], [Lab(n + 2)];
    Assoc(((z + l0) + b) + l1, c, l2);
    Assoc((z + l0) + b, l1, c + l2);
    Assoc(z + l0, b, l1 + (c + l2));
    Assoc(z, l0, b + (l1 + (c + l2)));
  }

  lemma ForIs(z: Code, pre: Code, n: nat, c: Code, b: Code, post: Code)
    ensures ((((((((z + pre) + [Lab(n)]) + c) + [Lab(n + 1)]) + b) + [Lab(n + 2)]) + post) + [Jcc(ANY, n)]) + [Lab(n + 3)]
         == z + ForCode(pre, n, c, b, post)
  {
    var l0, l1, l2, j, l3 := [Lab(n)], [Lab(n + 1)], [Lab(n + 2)], [Jcc(ANY, n)], [Lab(n + 3)];
    var y := (((z + pre) + l0) + c) + l1;
    Assoc(((y + b) + l2) + post, j, l3);
    Assoc((y + b) + l2, post, j + l3);
    Assoc(y + b, l2, post + (j + l3));
    Assoc(y, b, l2 + (post + (j + l3)));
    var tail := b + (l2 + (post + (j + l3)));
    Assoc(((z + pre) + l0) + c, l1, tail);
    Assoc((z + pre) + l0, c, l1 + tail);
    Assoc(z + pre, l0, c + (l1 + tail));
    Assoc(z, pre, l0 + (c + (l1 + tail)));
  }
}
