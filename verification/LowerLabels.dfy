/** Every block is begun once: the labels a piece of code sets are its own. */
module LowerLabels {
  import opened Options
  import opened Ir
  import opened LowerCode
  import opened LowerGen
  import St = Structured

  /** How often a label is set. */
  function Cnt(code: Code, l: nat): nat {
    multiset(code)[Lab(l)]
  }

  lemma CntJoin(a: Code, b: Code, l: nat)
    ensures Cnt(a + b, l) == Cnt(a, l) + Cnt(b, l)
  {
  }

  lemma CntOne(t: Tok, l: nat)
    ensures Cnt([t], l) == if t == Lab(l) then 1 else 0
  {
  }

  /** The code sets no label twice, all of the case labels from `cs` on, and else only labels from `lo` to `hi`. */
  ghost predicate Labelled(code: Code, lo: nat, hi: nat, cs: nat, k: nat) {
    forall l: nat :: LabelledAt(code, lo, hi, cs, k, l)
  }

  predicate LabelledAt(code: Code, lo: nat, hi: nat, cs: nat, k: nat, l: nat) {
    if cs <= l < cs + k then Cnt(code, l) == 1 else if lo <= l < hi then Cnt(code, l) <= 1 else Cnt(code, l) == 0
  }

  lemma NoLabels(code: Code, n: nat)
    requires forall t | t in code :: !t.Lab?
    ensures Labelled(code, n, n, 0, 0)
  {
    forall l: nat ensures LabelledAt(code, n, n, 0, 0, l) {
      assert Lab(l) !in code;
    }
  }

  lemma OneLabel(n: nat)
    ensures Labelled([Lab(n)], n, n + 1, 0, 0)
  {
    var code, hi := [Lab(n)], n + 1;
    forall l: nat ensures LabelledAt(code, n, hi, 0, 0, l) {
      CntOne(Lab(n), l);
    }
  }

  /** Code with labels from neighbouring ranges, the case labels in order. */
  lemma JoinLabels(a: Code, b: Code, lo: nat, mid: nat, hi: nat, cs: nat, j: nat, k: nat)
    requires lo <= mid <= hi && (j + k == 0 || cs + j + k <= lo)
    requires Labelled(a, lo, mid, cs, j) && Labelled(b, mid, hi, cs + j, k)
    ensures Labelled(a + b, lo, hi, cs, j + k)
  {
    hide Cnt;
    var c, n := a + b, j + k;
    forall l: nat ensures LabelledAt(c, lo, hi, cs, n, l) {
      CntJoin(a, b, l);
      assert LabelledAt(a, lo, mid, cs, j, l) && LabelledAt(b, mid, hi, cs + j, k, l);
    }
  }

  /** Code without case labels of its own. */
  ghost predicate Own(code: Code, lo: nat, hi: nat) {
    Labelled(code, lo, hi, 0, 0)
  }

  lemma OwnAt(code: Code, lo: nat, hi: nat, l: nat)
    requires Own(code, lo, hi)
    ensures Cnt(code, l) <= if lo <= l < hi then 1 else 0
  {
    assert LabelledAt(code, lo, hi, 0, 0, l);
  }

  lemma {:induction false} CondOwn(ty: Types, c: St.Cond, tf: bool, bb: nat, n: nat)
    ensures Own(GenCond(ty, c, tf, bb, n).0, n, GenCond(ty, c, tf, bb, n).1)
  {
    hide Own, Labelled, Cnt;
    match c
    case LogAnd(l, r) =>
      var (c1, n1) := GenCond(ty, l, false, if tf then n + 1 else bb, n + 2);
      CondOwn(ty, l, false, if tf then n + 1 else bb, n + 2);
      CondOwn(ty, r, tf, bb, n1);
      LogOwn(c1, n, n1, GenCond(ty, r, tf, bb, n1).0, GenCond(ty, r, tf, bb, n1).1);
    case LogOr(l, r) =>
      var (c1, n1) := GenCond(ty, l, true, if tf then bb else n + 1, n + 2);
      CondOwn(ty, l, true, if tf then bb else n + 1, n + 2);
      CondOwn(ty, r, tf, bb, n1);
      LogOwn(c1, n, n1, GenCond(ty, r, tf, bb, n1).0, GenCond(ty, r, tf, bb, n1).1);
    case _ => PlainOwn(GenCond(ty, c, tf, bb, n).0, n);
  }

  lemma PlainOwn(code: Code, n: nat)
    requires forall t | t in code :: !t.Lab?
    ensures Own(code, n, n)
  {
    NoLabels(code, n);
  }

  lemma LogOwn(a: Code, n: nat, n1: nat, b: Code, n2: nat)
    requires n + 2 <= n1 <= n2 && Own(a, n + 2, n1) && Own(b, n1, n2)
    ensures Own(LogCode(a, n, b), n, n2)
  {
    hide Cnt;
    forall l: nat ensures LabelledAt(LogCode(a, n, b), n, n2, 0, 0, l) {
      OwnAt(a, n + 2, n1, l);
      OwnAt(b, n1, n2, l);
      CntJoin(a, [Lab(n)] + (b + [Lab(n + 1)]), l);
      CntJoin([Lab(n)], b + [Lab(n + 1)], l);
      CntJoin(b, [Lab(n + 1)], l);
      CntOne(Lab(n), l);
      CntOne(Lab(n + 1), l);
    }
  }

  lemma TestOwn(half: nat, v: int, to: nat, n: nat, l: nat)
    ensures Cnt(TestCase(half, v, to, n), l) == if l == n then 1 else 0
  {
    hide Cnt;
    assert TestCase(half, v, to, n) == [CmpCase(half, v), Jcc(EQ, to)] + [Lab(n)];
    CntJoin([CmpCase(half, v), Jcc(EQ, to)], [Lab(n)], l);
    CntOne(Lab(n), l);
    NoLabelIn([CmpCase(half, v), Jcc(EQ, to)], l);
  }

  lemma NoLabelIn(code: Code, l: nat)
    requires forall t | t in code :: !t.Lab?
    ensures Cnt(code, l) == 0
  {
    assert Lab(l) !in code;
  }

  lemma {:induction false} DispatchOwn(half: nat, cases: seq<Option<int>>, order: seq<nat>, first: nat, other: nat, n: nat)
    ensures Own(GenDispatch(half, cases, order, first, other, n).0, n, GenDispatch(half, cases, order, first, other, n).1)
    decreases |order|
  {
    hide Cnt;
    var (code, end) := GenDispatch(half, cases, order, first, other, n);
    var out := [Jcc(ANY, other)];
    if |order| == 0 {
      NoLabels(code, n);
    } else if |order| <= 2 {
      hide Own, Labelled;
      FewOwn(half, cases, order, first, other, n);
    } else {
      hide Own, Labelled;
      var mid := |order| / 2;
      var (c1, n1) := GenDispatch(half, cases, order[..mid], first, other, n + 3);
      var (c2, n2) := GenDispatch(half, cases, order[mid + 1..], first, other, n1);
      DispatchOwn(half, cases, order[..mid], first, other, n + 3);
      DispatchOwn(half, cases, order[mid + 1..], first, other, n1);
      SplitOwn(TestCase(half, CaseValue(cases, order[mid]), first + order[mid], n), half, CaseValue(cases, order[mid]), first + order[mid], n, c1, n1, c2, n2);
    }
  }

  lemma FewOwn(half: nat, cases: seq<Option<int>>, order: seq<nat>, first: nat, other: nat, n: nat)
    requires 1 <= |order| <= 2
    ensures Own(GenDispatch(half, cases, order, first, other, n).0, n, GenDispatch(half, cases, order, first, other, n).1)
  {
    hide Cnt;
    var (code, end) := GenDispatch(half, cases, order, first, other, n);
    var out := [Jcc(ANY, other)];
    var t0 := TestCase(half, CaseValue(cases, order[0]), first + order[0], n);
    forall l: nat ensures LabelledAt(code, n, end, 0, 0, l) {
      TestOwn(half, CaseValue(cases, order[0]), first + order[0], n, l);
      NoLabelIn(out, l);
      if |order| == 1 {
        CntJoin(t0, out, l);
      } else {
        var t1 := TestCase(half, CaseValue(cases, order[1]), first + order[1], n + 1);
        TestOwn(half, CaseValue(cases, order[1]), first + order[1], n + 1, l);
        CntJoin(t1, out, l);
        CntJoin(t0, t1 + out, l);
      }
    }
  }

  lemma SplitOwn(test: Code, half: nat, v: int, to: nat, n: nat, below: Code, n1: nat, above: Code, n2: nat)
    requires test == TestCase(half, v, to, n) && n + 3 <= n1 <= n2 && Own(below, n + 3, n1) && Own(above, n1, n2)
    ensures Own(SplitCode(test, n, below, above), n, n2)
  {
    hide Cnt;
    var t2, t3 := [Lab(n + 2)] + above, [Jcc(GT, n + 2), Lab(n + 1)];
    forall l: nat ensures LabelledAt(SplitCode(test, n, below, above), n, n2, 0, 0, l) {
      TestOwn(half, v, to, n, l);
      OwnAt(below, n + 3, n1, l);
      OwnAt(above, n1, n2, l);
      CntJoin(test, t3 + (below + t2), l);
      CntJoin(t3, below + t2, l);
      CntJoin(below, t2, l);
      CntJoin([Lab(n + 2)], above, l);
      CntOne(Lab(n + 2), l);
      CntOne(Lab(n + 1), l);
      CntJoin([Jcc(GT, n + 2)], [Lab(n + 1)], l);
      CntOne(Jcc(GT, n + 2), l);
      assert t3 == [Jcc(GT, n + 2)] + [Lab(n + 1)];
    }
  }

  lemma SwitchOwn(ty: Types, comma: Option<nat>, value: nat, cases: seq<Option<int>>, first: nat, brk: nat, n: nat)
    ensures Own(GenSwitchCond(ty, comma, value, cases, first, brk, n).0, n, GenSwitchCond(ty, comma, value, cases, first, brk, n).1)
  {
    hide Labelled, Cnt, GenDispatch, OtherLabel, OrderOf;
    var other := OtherLabel(cases, first, brk);
    var order := OrderOf(cases, |cases|);
    var len := if St.FirstIndex(cases, None, 0).Some? && |cases| > 0 then |cases| - 1 else |cases|;
    var (c, n1) := GenDispatch(ty.half(value), cases, order[..len], first, other, n);
    DispatchOwn(ty.half(value), cases, order[..len], first, other, n);
    OneLabel(n1);
    JoinLabels(c, [Lab(n1)], n, n1, n1 + 1, 0, 0, 0);
    assert forall t | t in [Load(comma, value)] :: !t.Lab?;
    NoLabels([Load(comma, value)], n);
    JoinLabels([Load(comma, value)], c + [Lab(n1)], n, n, n1 + 1, 0, 0, 0);
  }

  // ----- Statements -----

  lemma IfOwn(c: Code, n: nat, n1: nat, t: Code, n2: nat, f: Option<Code>, n3: nat)
    requires n + 2 <= n1 <= n2 <= n3 && Own(c, n + 2, n1) && Own(t, n1, n2)
    requires f.Some? ==> n2 + 1 <= n3 && Own(f.value, n2 + 1, n3)
    ensures Own(IfCode(c, n, t, if f.Some? then Some((f.value, n2)) else None), n, n3)
  {
    hide Cnt;
    var tail := if f.Some? then [Jcc(ANY, n2)] + ([Lab(n + 1)] + (f.value + [Lab(n2)])) else [Lab(n + 1)];
    var code := IfCode(c, n, t, if f.Some? then Some((f.value, n2)) else None);
    assert code == c + ([Lab(n)] + (t + tail));
    forall l: nat ensures LabelledAt(code, n, n3, 0, 0, l) {
      OwnAt(c, n + 2, n1, l);
      OwnAt(t, n1, n2, l);
      CntJoin(c, [Lab(n)] + (t + tail), l);
      CntJoin([Lab(n)], t + tail, l);
      CntJoin(t, tail, l);
      CntOne(Lab(n), l);
      CntOne(Lab(n + 1), l);
      if f.Some? {
        OwnAt(f.value, n2 + 1, n3, l);
        CntJoin([Jcc(ANY, n2)], [Lab(n + 1)] + (f.value + [Lab(n2)]), l);
        CntJoin([Lab(n + 1)], f.value + [Lab(n2)], l);
        CntJoin(f.value, [Lab(n2)], l);
        CntOne(Lab(n2), l);
        CntOne(Jcc(ANY, n2), l);
      }
    }
  }

  lemma LoopOwn(n: nat, b: Code, n1: nat, c: Code, n2: nat)
    requires n + 3 <= n1 <= n2 && Own(b, n + 3, n1) && Own(c, n1, n2)
    ensures Own(LoopCode(n, b, c), n, n2)
  {
    hide Cnt;
    forall l: nat ensures LabelledAt(LoopCode(n, b, c), n, n2, 0, 0, l) {
      OwnAt(b, n + 3, n1, l);
      OwnAt(c, n1, n2, l);
      CntJoin([Lab(n)], b + ([Lab(n + 1)] + (c + [Lab(n + 2)])), l);
      CntJoin(b, [Lab(n + 1)] + (c + [Lab(n + 2)]), l);
      CntJoin([Lab(n + 1)], c + [Lab(n + 2)], l);
      CntJoin(c, [Lab(n + 2)], l);
      CntOne(Lab(n), l);
      CntOne(Lab(n + 1), l);
      CntOne(Lab(n + 2), l);
    }
  }

  lemma ForOwn(pre: Option<nat>, n: nat, c: Code, n1: nat, b: Code, n2: nat, post: Option<nat>)
    requires n + 4 <= n1 <= n2 && Own(c, n + 4, n1) && Own(b, n1, n2)
    ensures Own(ForCode(Evals(pre), n, c, b, Evals(post)), n, n2)
  {
    hide Cnt;
    var code := ForCode(Evals(pre), n, c, b, Evals(post));
    var t4 := [Jcc(ANY, n)] + [Lab(n + 3)];
    var t3 := [Lab(n + 2)] + (Evals(post) + t4);
    var t2 := [Lab(n + 1)] + (b + t3);
    var t1 := [Lab(n)] + (c + t2);
    forall l: nat ensures LabelledAt(code, n, n2, 0, 0, l) {
      OwnAt(c, n + 4, n1, l);
      OwnAt(b, n1, n2, l);
      NoLabelIn(Evals(pre), l);
      NoLabelIn(Evals(post), l);
      CntJoin(Evals(pre), t1, l);
      CntJoin([Lab(n)], c + t2, l);
      CntJoin(c, t2, l);
      CntJoin([Lab(n + 1)], b + t3, l);
      CntJoin(b, t3, l);
      CntJoin([Lab(n + 2)], Evals(post) + t4, l);
      CntJoin(Evals(post), t4, l);
      CntJoin([Jcc(ANY, n)], [Lab(n + 3)], l);
      CntOne(Jcc(ANY, n), l);
      CntOne(Lab(n), l);
      CntOne(Lab(n + 1), l);
      CntOne(Lab(n + 2), l);
      CntOne(Lab(n + 3), l);
    }
  }

  lemma LeaveOwn(pre: Code, to: nat, n: nat)
    requires forall t | t in pre :: !t.Lab?
    ensures Own(pre + Leave(to, n), n, n + 1)
  {
    var code := pre + Leave(to, n);
    assert code == (pre + [Jcc(ANY, to)]) + [Lab(n)];
    NoLabels(pre + [Jcc(ANY, to)], n);
    OneLabel(n);
    JoinLabels(pre + [Jcc(ANY, to)], [Lab(n)], n, n, n + 1, 0, 0, 0);
  }

  /** The code of a switch: its case labels lie in its body. */
  lemma SwitchLabels(d: Code, n: nat, k: nat, n1: nat, b: Code, n2: nat)
    requires n + 1 + k <= n1 <= n2 && Own(d, n + 1 + k, n1) && Labelled(b, n1, n2, n + 1, k)
    ensures Own(d + (b + [Lab(n)]), n, n2)
  {
    hide Cnt;
    forall l: nat ensures LabelledAt(d + (b + [Lab(n)]), n, n2, 0, 0, l) {
      OwnAt(d, n + 1 + k, n1, l);
      assert LabelledAt(b, n1, n2, n + 1, k, l);
      CntJoin(d, b + [Lab(n)], l);
      CntJoin(b, [Lab(n)], l);
      CntOne(Lab(n), l);
    }
  }

  /** The code of a statement sets each of its case labels, and new labels, once. */
  lemma {:induction false} GenLabels(ty: Types, stmt: St.Stmt, n: nat, cs: nat, env: Env, canBreak: bool, canContinue: bool, inSwitch: bool)
    requires St.Valid(stmt, canBreak, canContinue, inSwitch)
    requires |St.Labels(stmt)| > 0 ==> cs + |St.Labels(stmt)| <= n
    ensures Labelled(Gen(ty, stmt, n, cs, env).0, n, Gen(ty, stmt, n, cs, env).1, cs, |St.Labels(stmt)|)
    decreases stmt, 1
  {
    hide Labelled, GenCond, GenSwitchCond, IfCode, LoopCode, ForCode;
    match stmt
    case Block(ss) => GenAllLabels(ty, ss, n, cs, env, canBreak, canContinue, inSwitch);
    case If(c, t, f) =>
      var (cc, n1) := GenCond(ty, c, false, n + 1, n + 2);
      var (tc, n2) := Gen(ty, t, n1, 0, env);
      CondOwn(ty, c, false, n + 1, n + 2);
      BodyOwn(ty, t, n1, env, canBreak, canContinue);
      if f.Some? {
        BodyOwn(ty, f.value, n2 + 1, env, canBreak, canContinue);
        var (fc, n3) := Gen(ty, f.value, n2 + 1, 0, env);
        IfOwn(cc, n, n1, tc, n2, Some(fc), n3);
      } else {
        IfOwn(cc, n, n1, tc, n2, None, n2);
      }
      Moved(Gen(ty, stmt, n, cs, env).0, n, Gen(ty, stmt, n, cs, env).1, cs);
    case Switch(comma, value, body) =>
      var cases := St.Labels(body);
      var (d, n1) := GenSwitchCond(ty, comma, value, cases, n + 1, n, n + 1 + |cases|);
      var (b, n2) := Gen(ty, body, n1, n + 1, env.(brk := n));
      SwitchOwn(ty, comma, value, cases, n + 1, n, n + 1 + |cases|);
      GenLabels(ty, body, n1, n + 1, env.(brk := n), true, canContinue, true);
      SwitchLabels(d, n, |cases|, n1, b, n2);
      Moved(d + (b + [Lab(n)]), n, n2, cs);
    case Case(_) => CaseLabelled(n, cs);
    case Default => CaseLabelled(n, cs);
    case While(c, body) =>
      LoopLabels(ty, c, body, n, env);
      var (b, n1) := Gen(ty, body, n + 3, 0, env.(brk := n + 2, cont := n + 1));
      var (cc, n2) := GenCond(ty, c, true, n, n1);
      NoLabels([Jcc(ANY, n + 1)], n);
      JoinLabels([Jcc(ANY, n + 1)], LoopCode(n, b, cc), n, n, n2, 0, 0, 0);
      Moved([Jcc(ANY, n + 1)] + LoopCode(n, b, cc), n, n2, cs);
    case DoWhile(body, c) =>
      LoopLabels(ty, c, body, n, env);
      Moved(Gen(ty, stmt, n, cs, env).0, n, Gen(ty, stmt, n, cs, env).1, cs);
    case For(pre, c, post, body) =>
      var (cc, n1) := ForTest(ty, c, n + 3, n + 4);
      var (b, n2) := Gen(ty, body, n1, 0, env.(brk := n + 3, cont := n + 2));
      TestLabels(ty, c, n + 3, n + 4);
      BodyOwn(ty, body, n1, env.(brk := n + 3, cont := n + 2), true, true);
      ForOwn(pre, n, cc, n1, b, n2, post);
      Moved(ForCode(Evals(pre), n, cc, b, Evals(post)), n, n2, cs);
    case Return(val) =>
      LeaveOwn(if val.Some? then [Result(val.value)] else [], env.ret, n);
      Moved(Gen(ty, stmt, n, cs, env).0, n, n + 1, cs);
    case Break =>
      LeaveOwn([], env.brk, n);
      assert [] + Leave(env.brk, n) == Leave(env.brk, n);
      Moved(Leave(env.brk, n), n, n + 1, cs);
    case Continue =>
      LeaveOwn([], env.cont, n);
      assert [] + Leave(env.cont, n) == Leave(env.cont, n);
      Moved(Leave(env.cont, n), n, n + 1, cs);
    case _ =>
      NoLabels(Gen(ty, stmt, n, cs, env).0, n);
      Moved(Gen(ty, stmt, n, cs, env).0, n, n, cs);
  }

  lemma TestLabels(ty: Types, c: Option<St.Cond>, bb: nat, n: nat)
    ensures Own(ForTest(ty, c, bb, n).0, n, ForTest(ty, c, bb, n).1)
  {
    if c.Some? {
      CondOwn(ty, c.value, false, bb, n);
    } else {
      NoLabels([], n);
    }
  }

  lemma {:induction false} LoopLabels(ty: Types, c: St.Cond, body: St.Stmt, n: nat, env: Env)
    requires St.Valid(body, true, true, false)
    ensures var (b, n1) := Gen(ty, body, n + 3, 0, env.(brk := n + 2, cont := n + 1));
            var (cc, n2) := GenCond(ty, c, true, n, n1);
            n2 >= n && Own(LoopCode(n, b, cc), n, n2)
    decreases body, 3
  {
    var (b, n1) := Gen(ty, body, n + 3, 0, env.(brk := n + 2, cont := n + 1));
    BodyOwn(ty, body, n + 3, env.(brk := n + 2, cont := n + 1), true, true);
    CondOwn(ty, c, true, n, n1);
    LoopOwn(n, b, n1, GenCond(ty, c, true, n, n1).0, GenCond(ty, c, true, n, n1).1);
  }

  /** Without case labels it does not matter where they would start. */
  lemma Moved(code: Code, lo: nat, hi: nat, cs: nat)
    requires Own(code, lo, hi)
    ensures Labelled(code, lo, hi, cs, 0)
  {
    forall l: nat ensures LabelledAt(code, lo, hi, cs, 0, l) {
      assert LabelledAt(code, lo, hi, 0, 0, l);
    }
  }

  lemma CaseLabelled(n: nat, cs: nat)
    ensures Labelled([Lab(cs)], n, n, cs, 1)
  {
    forall l: nat ensures LabelledAt([Lab(cs)], n, n, cs, 1, l) {
      CntOne(Lab(cs), l);
    }
  }

  lemma {:induction false} BodyOwn(ty: Types, stmt: St.Stmt, n: nat, env: Env, canBreak: bool, canContinue: bool)
    requires St.Valid(stmt, canBreak, canContinue, false)
    ensures Own(Gen(ty, stmt, n, 0, env).0, n, Gen(ty, stmt, n, 0, env).1)
    decreases stmt, 2
  {
    St.NoLabels(stmt, canBreak, canContinue);
    GenLabels(ty, stmt, n, 0, env, canBreak, canContinue, false);
  }

  lemma {:induction false} GenAllLabels(ty: Types, ss: seq<St.Stmt>, n: nat, cs: nat, env: Env, canBreak: bool, canContinue: bool, inSwitch: bool)
    requires forall st | st in ss :: St.Valid(st, canBreak, canContinue, inSwitch)
    requires |St.LabelsOf(ss)| > 0 ==> cs + |St.LabelsOf(ss)| <= n
    ensures Labelled(GenAll(ty, ss, n, cs, env).0, n, GenAll(ty, ss, n, cs, env).1, cs, |St.LabelsOf(ss)|)
    decreases ss, 0
  {
    hide Labelled, Own, Gen, St.Valid;
    if ss == [] {
      PlainOwn([], n);
      Moved([], n, n, cs);
    } else {
      var (a, n1) := Gen(ty, ss[0], n, cs, env);
      var k := |St.Labels(ss[0])|;
      var (b, n2) := GenAll(ty, ss[1..], n1, cs + k, env);
      GenAllIs(ty, ss, n, cs, env);
      assert forall st | st in ss[1..] :: st in ss;
      hide GenAll, St.LabelsOf;
      GenLabels(ty, ss[0], n, cs, env, canBreak, canContinue, inSwitch);
      GenAllLabels(ty, ss[1..], n1, cs + k, env, canBreak, canContinue, inSwitch);
      JoinLabels(a, b, n, n1, n2, cs, k, |St.LabelsOf(ss[1..])|);
    }
  }

  lemma GenAllIs(ty: Types, ss: seq<St.Stmt>, n: nat, cs: nat, env: Env)
    requires ss != []
    ensures var (a, n1) := Gen(ty, ss[0], n, cs, env);
            var (b, n2) := GenAll(ty, ss[1..], n1, cs + |St.Labels(ss[0])|, env);
            GenAll(ty, ss, n, cs, env) == (a + b, n2)
    ensures |St.LabelsOf(ss)| == |St.Labels(ss[0])| + |St.LabelsOf(ss[1..])|
  {
  }

  /** A program that sets no label twice. */
  lemma LabelledIsUnique(code: Code, lo: nat, hi: nat, cs: nat, k: nat)
    requires Labelled(code, lo, hi, cs, k)
    ensures Unique(code)
  {
    forall i, j | 0 <= i < j < |code| && code[i].Lab? && code[j].Lab? ensures code[i] != code[j] {
      assert LabelledAt(code, lo, hi, cs, k, code[i].name);
      if code[i] == code[j] {
        Twice(code, i, j);
      }
    }
  }

  lemma Twice(code: Code, i: nat, j: nat)
    requires i < j < |code| && code[i] == code[j] && code[i].Lab?
    ensures Cnt(code, code[i].name) >= 2
  {
    var t := code[i];
    assert code == code[..j] + [code[j]] + code[j + 1..];
    assert code[..j][i] == t;
  }

  /** One more label in front of the others' range. */
  lemma LastLabel(code: Code, lo: nat, hi: nat, n: nat)
    requires n < lo <= hi && Own(code, lo, hi)
    ensures Own(code + [Lab(n)], n, hi)
  {
    hide Cnt;
    var c := code + [Lab(n)];
    forall l: nat ensures LabelledAt(c, n, hi, 0, 0, l) {
      OwnAt(code, lo, hi, l);
      CntJoin(code, [Lab(n)], l);
      CntOne(Lab(n), l);
    }
  }
}
