/**
 The basic blocks of every statement run as the statement means: they arrive at
 the block its outcome names, in its state, and take at least one step for every
 loop iteration, so that they run forever when it does.
 */
module LowerTheorem {
  import opened Options
  import opened Ir
  import opened LowerCode
  import opened LowerGen
  import opened LowerCond
  import opened LowerSwitch
  import LowerLabels
  import St = Structured

  /** Reaches `q` in state `s`, in at least `k` steps. */
  ghost predicate Lands<S>(m: St.Sem<S>, prog: Code, p: nat, st: Mach<S>, q: nat, s: S, k: int) {
    p <= |prog| && exists n: nat :: n >= k && Go(m, prog, p, st, n).0 == q && Go(m, prog, p, st, n).1.s == s
  }

  /** Is still inside the program after at least `k` steps. */
  ghost predicate Lasts<S>(m: St.Sem<S>, prog: Code, p: nat, st: Mach<S>, k: int) {
    p <= |prog| && exists n: nat :: n >= k && Go(m, prog, p, st, n).0 < |prog|
  }

  /** Where the blocks go when the statement ends as `o` tells; `exit` is behind its code. */
  ghost predicate Ends<S>(m: St.Sem<S>, prog: Code, p: nat, st: Mach<S>, o: St.Out<S>, fuel: nat, exit: nat, env: Env) {
    match o
    case Normal(k, s, f) => k == 0 ==> Lands(m, prog, p, st, exit, s, fuel - f)
    case Broke(s, f) => HasLab(prog, env.brk) && Lands(m, prog, p, st, Pos(prog, env.brk), s, fuel - f)
    case Continued(s, f) => HasLab(prog, env.cont) && Lands(m, prog, p, st, Pos(prog, env.cont), s, fuel - f)
    case Returned(s, f) => HasLab(prog, env.ret) && Lands(m, prog, p, st, Pos(prog, env.ret), s, fuel - f)
    case Timeout => Lasts(m, prog, p, st, fuel)
  }

  lemma LandsAfter<S>(m: St.Sem<S>, prog: Code, p: nat, st: Mach<S>, n: nat, q: nat, s: S, k: int)
    requires p <= |prog| && Lands(m, prog, Go(m, prog, p, st, n).0, Go(m, prog, p, st, n).1, q, s, k)
    ensures Lands(m, prog, p, st, q, s, k + n)
  {
    var (p1, st1) := Go(m, prog, p, st, n);
    var j: nat :| j >= k && Go(m, prog, p1, st1, j).0 == q && Go(m, prog, p1, st1, j).1.s == s;
    GoPlus(m, prog, p, st, n, j);
    assert Go(m, prog, p, st, n + j).0 == q;
  }

  lemma LastsAfter<S>(m: St.Sem<S>, prog: Code, p: nat, st: Mach<S>, n: nat, k: int)
    requires p <= |prog| && Lasts(m, prog, Go(m, prog, p, st, n).0, Go(m, prog, p, st, n).1, k)
    ensures Lasts(m, prog, p, st, k + n)
  {
    var (p1, st1) := Go(m, prog, p, st, n);
    var j: nat :| j >= k && Go(m, prog, p1, st1, j).0 < |prog|;
    GoPlus(m, prog, p, st, n, j);
    assert Go(m, prog, p, st, n + j).0 < |prog|;
  }

  lemma LandsLess<S>(m: St.Sem<S>, prog: Code, p: nat, st: Mach<S>, q: nat, s: S, k: int, j: int)
    requires Lands(m, prog, p, st, q, s, k) && j <= k
    ensures Lands(m, prog, p, st, q, s, j)
  {
    var n: nat :| n >= k && Go(m, prog, p, st, n).0 == q && Go(m, prog, p, st, n).1.s == s;
    assert Go(m, prog, p, st, n).0 == q;
  }

  lemma LastsLess<S>(m: St.Sem<S>, prog: Code, p: nat, st: Mach<S>, k: int, j: int)
    requires Lasts(m, prog, p, st, k) && j <= k
    ensures Lasts(m, prog, p, st, j)
  {
    var n: nat :| n >= k && Go(m, prog, p, st, n).0 < |prog|;
    assert Go(m, prog, p, st, n).0 < |prog|;
  }

  /** What follows `n` steps counts from before them. */
  lemma EndsAfter<S>(m: St.Sem<S>, prog: Code, p: nat, st: Mach<S>, n: nat, o: St.Out<S>, fuel: nat, rest: nat, exit: nat, env: Env)
    requires p <= |prog| && fuel - rest <= n
    requires Ends(m, prog, Go(m, prog, p, st, n).0, Go(m, prog, p, st, n).1, o, rest, exit, env)
    ensures Ends(m, prog, p, st, o, fuel, exit, env)
  {
    hide Lands, Lasts, Go, Pos, HasLab;
    match o
    case Timeout =>
      LastsAfter(m, prog, p, st, n, rest);
      LastsLess(m, prog, p, st, rest + n, fuel);
    case Normal(k, s, f) =>
      if k == 0 {
        LandsAfter(m, prog, p, st, n, exit, s, rest - f);
        LandsLess(m, prog, p, st, exit, s, rest - f + n, fuel - f);
      }
    case Broke(s, f) =>
      LandsAfter(m, prog, p, st, n, Pos(prog, env.brk), s, rest - f);
      LandsLess(m, prog, p, st, Pos(prog, env.brk), s, rest - f + n, fuel - f);
    case Continued(s, f) =>
      LandsAfter(m, prog, p, st, n, Pos(prog, env.cont), s, rest - f);
      LandsLess(m, prog, p, st, Pos(prog, env.cont), s, rest - f + n, fuel - f);
    case Returned(s, f) =>
      LandsAfter(m, prog, p, st, n, Pos(prog, env.ret), s, rest - f);
      LandsLess(m, prog, p, st, Pos(prog, env.ret), s, rest - f + n, fuel - f);
  }

  /** A statement that ends at once. */
  lemma Arrive<S>(m: St.Sem<S>, prog: Code, p: nat, st: Mach<S>, n: nat, o: St.Out<S>, fuel: nat, exit: nat, env: Env)
    requires p <= |prog| && (o.Normal? || o.Broke? || o.Continued? || o.Returned?) && fuel - o.fuel <= n
    requires o.Broke? ==> HasLab(prog, env.brk)
    requires o.Continued? ==> HasLab(prog, env.cont)
    requires o.Returned? ==> HasLab(prog, env.ret)
    requires Go(m, prog, p, st, n).1.s == o.s
    requires Go(m, prog, p, st, n).0 == if o.Normal? then exit else Pos(prog, if o.Broke? then env.brk else if o.Continued? then env.cont else env.ret)
    ensures Ends(m, prog, p, st, o, fuel, exit, env)
  {
  }

  // ----- What the statements must be like -----

  /** The value a switch dispatches on is one of its type. */
  ghost predicate PeekAt<S>(m: St.Sem<S>, ty: Types, e: nat, s: S) {
    ty.half(e) > 0 && InType(m.peek(e, s), ty.half(e), KeptUnsigned(ty, e))
  }

  ghost predicate AllTyped<S(!new)>(m: St.Sem<S>, ty: Types) {
    Typed(m, ty) && forall e, s :: PeekAt(m, ty, e, s)
  }

  ghost predicate WellTypedStmt(ty: Types, stmt: St.Stmt) {
    match stmt
    case Block(ss) => forall st | st in ss :: WellTypedStmt(ty, st)
    case If(c, t, f) => WellTyped(ty, c) && WellTypedStmt(ty, t) && (f.Some? ==> WellTypedStmt(ty, f.value))
    case Switch(_, value, body) =>
      && AllInType(St.Labels(body), ty.half(value), KeptUnsigned(ty, value)) && OneSided(St.Labels(body), ty.half(value))
      && WellTypedStmt(ty, body)
    case While(c, body) => WellTyped(ty, c) && WellTypedStmt(ty, body)
    case DoWhile(body, c) => WellTyped(ty, c) && WellTypedStmt(ty, body)
    case For(_, c, _, body) => (c.Some? ==> WellTyped(ty, c.value)) && WellTypedStmt(ty, body)
    case _ => true
  }

  function SampleBody(): St.Stmt {
    St.Block([St.Case(0), St.Break, St.Default, St.Case(200), St.Continue])
  }

  lemma SampleLabels()
    ensures St.Labels(SampleBody()) == [Some(0), None, Some(200)]
    ensures St.FirstIndex([Some(0), None, Some(200)], None, 0) == Some(1)
  {
    var ss := SampleBody().stmts;
    assert St.LabelsOf(ss[5..]) == [];
    assert ss[4..][1..] == ss[5..] && ss[3..][1..] == ss[4..] && ss[2..][1..] == ss[3..] && ss[1..][1..] == ss[2..];
    assert St.FirstIndex([Some(0), None, Some(200)], None, 1) == Some(1);
  }

  function SampleSem(): St.Sem<int> {
    St.Sem((e: nat, s: int) => (e % 256, s), (e: nat, s: int) => s % 256, (v: int, s: int) => s)
  }

  function SampleTypes(): Types {
    Types(_ => 128, _ => true, _ => true, _ => None)
  }

  /** Expressions of unsigned 8-bit type meet this ... */
  lemma BytesAreTyped()
    ensures AllTyped(SampleSem(), SampleTypes())
  {
  }

  function SampleLoop(): St.Stmt {
    St.While(St.Cmp(St.LT, 1, 2), St.Switch(None, 3, SampleBody()))
  }

  /** ... and so does a loop around a switch on one of them. */
  lemma LoopIsTyped()
    ensures WellTypedStmt(SampleTypes(), SampleLoop())
  {
    SampleLabels();
    hide St.Labels, St.FirstIndex;
  }

  lemma LoopIsValid()
    ensures St.Valid(SampleLoop(), false, false, false)
  {
    SampleLabels();
    hide St.Labels, St.FirstIndex;
  }

  ghost predicate EnvOk(prog: Code, env: Env, canBreak: bool, canContinue: bool) {
    (canBreak ==> HasLab(prog, env.brk)) && (canContinue ==> HasLab(prog, env.cont)) && HasLab(prog, env.ret)
  }

  // ----- Loops -----

  /** The body of a loop, whose end is where `continue` goes. */
  lemma BodyStops<S>(m: St.Sem<S>, prog: Code, p: nat, st: Mach<S>, o: St.Out<S>, fuel: nat, exit: nat, env: Env) returns (n: nat)
    requires p <= |prog| && Ends(m, prog, p, st, o, fuel, exit, env) && !o.Timeout? && !o.Returned?
    requires o.Normal? ==> o.seek == 0
    requires HasLab(prog, env.cont) && Pos(prog, env.cont) == exit && HasLab(prog, env.brk)
    ensures n >= fuel - o.fuel && Go(m, prog, p, st, n).1.s == o.s
    ensures Go(m, prog, p, st, n).0 == if o.Broke? then Pos(prog, env.brk) else exit
  {
    var q := if o.Broke? then Pos(prog, env.brk) else exit;
    assert Lands(m, prog, p, st, q, o.s, fuel - o.fuel);
    n :| n >= fuel - o.fuel && Go(m, prog, p, st, n).0 == q && Go(m, prog, p, st, n).1.s == o.s;
  }

  /** Outcomes a loop passes on. */
  lemma EndsElse<S>(m: St.Sem<S>, prog: Code, p: nat, st: Mach<S>, o: St.Out<S>, fuel: nat, exit: nat, env: Env, exit2: nat, env2: Env)
    requires Ends(m, prog, p, st, o, fuel, exit, env) && (o.Timeout? || o.Returned?) && env2.ret == env.ret
    ensures Ends(m, prog, p, st, o, fuel, exit2, env2)
  {
  }

  lemma LoopPlaces(prog: Code, q: nat, n: nat, b: Code, c: Code)
    requires At(prog, q, LoopCode(n, b, c)) && Unique(prog)
    ensures q + 3 + |b| + |c| == q + |LoopCode(n, b, c)| <= |prog|
    ensures At(prog, q + 1, b) && At(prog, q + 2 + |b|, c)
    ensures prog[q] == Lab(n) && prog[q + 1 + |b|] == Lab(n + 1) && prog[q + 2 + |b| + |c|] == Lab(n + 2)
    ensures HasLab(prog, n) && Pos(prog, n) == q
    ensures HasLab(prog, n + 1) && Pos(prog, n + 1) == q + 1 + |b|
    ensures HasLab(prog, n + 2) && Pos(prog, n + 2) == q + 2 + |b| + |c|
  {
    hide Unique;
    AtHead(prog, q, Lab(n), b + ([Lab(n + 1)] + (c + [Lab(n + 2)])));
    AtJoin(prog, q + 1, b, [Lab(n + 1)] + (c + [Lab(n + 2)]));
    AtHead(prog, q + 1 + |b|, Lab(n + 1), c + [Lab(n + 2)]);
    AtJoin(prog, q + 2 + |b|, c, [Lab(n + 2)]);
    AtOne(prog, q + 2 + |b| + |c|, Lab(n + 2));
    PosIs(prog, n, q);
    PosIs(prog, n + 1, q + 1 + |b|);
    PosIs(prog, n + 2, q + 2 + |b| + |c|);
  }

  function InLoop(env: Env, n: nat): Env {
    env.(brk := n + 2, cont := n + 1)
  }

  /** From the test of a while or do loop: on at the body, or behind the loop. */
  lemma TestSim<S(!new)>(m: St.Sem<S>, ty: Types, c: St.Cond, n: nat, b: Code, n1: nat, prog: Code, q: nat, st: Mach<S>) returns (k: nat)
    requires Typed(m, ty) && WellTyped(ty, c) && Unique(prog)
    requires At(prog, q, LoopCode(n, b, GenCond(ty, c, true, n, n1).0))
    ensures var (v, s1) := St.CondValue(m, c, st.s);
            var cc := GenCond(ty, c, true, n, n1).0;
            && q + 1 + |b| <= |prog| && k >= 1
            && Go(m, prog, q + 1 + |b|, st, k).1.s == s1
            && Go(m, prog, q + 1 + |b|, st, k).0 == if v then q + 1 else q + |LoopCode(n, b, cc)|
  {
    hide Unique, At, GenCond, Step, HasLab, Typed, WellTyped, LoopCode;
    var cc := GenCond(ty, c, true, n, n1).0;
    LoopPlaces(prog, q, n, b, cc);
    var p := q + 1 + |b|;
    LabAfterStart(m, prog, p, n + 1, st);
    var k1 := CondSim(m, ty, c, true, n, n1, prog, p + 1, st);
    GoPlus(m, prog, p, st, 1, k1);
    var v := St.CondValue(m, c, st.s).0;
    if v {
      LabAfter(m, prog, p, st, 1 + k1, q, n);
    } else {
      LabAfter(m, prog, p, st, 1 + k1, q + 2 + |b| + |cc|, n + 2);
    }
    k := 2 + k1;
  }

  lemma LabAfterStart<S>(m: St.Sem<S>, prog: Code, p: nat, l: nat, st: Mach<S>)
    requires p < |prog| && prog[p] == Lab(l)
    ensures Go(m, prog, p, st, 1) == (p + 1, st)
  {
    LabStep(m, prog, p, l, st);
  }

  /** A while loop, from its test. */
  lemma {:induction false} WhileSim<S(!new)>(m: St.Sem<S>, ty: Types, stmt: St.Stmt, n: nat, env: Env, prog: Code, q: nat, st: Mach<S>, fuel: nat)
    requires stmt.While? && AllTyped(m, ty) && WellTypedStmt(ty, stmt) && St.Valid(stmt.body, true, true, false)
    requires Unique(prog) && HasLab(prog, env.ret)
    requires var (b, n1) := Gen(ty, stmt.body, n + 3, 0, InLoop(env, n)); At(prog, q, LoopCode(n, b, GenCond(ty, stmt.cond, true, n, n1).0))
    ensures var (b, n1) := Gen(ty, stmt.body, n + 3, 0, InLoop(env, n));
            var code := LoopCode(n, b, GenCond(ty, stmt.cond, true, n, n1).0);
            Ends(m, prog, q + 1 + |b|, st, St.Run(m, stmt, 0, st.s, fuel), fuel, q + |code|, env)
    decreases fuel, stmt, 0
  {
    hide Unique, At, GenCond, Gen, Go, Typed, WellTyped, LoopCode, Ends, St.CondValue, HasLab, Pos;
    var (b, n1) := Gen(ty, stmt.body, n + 3, 0, InLoop(env, n));
    var cc := GenCond(ty, stmt.cond, true, n, n1).0;
    var exit := q + |LoopCode(n, b, cc)|;
    var p := q + 1 + |b|;
    LoopPlaces(prog, q, n, b, cc);
    var o := St.Run(m, stmt, 0, st.s, fuel);
    var k := TestSim(m, ty, stmt.cond, n, b, n1, prog, q, st);
    var (v, s1) := St.CondValue(m, stmt.cond, st.s);
    if !v {
      Arrive(m, prog, p, st, k, o, fuel, exit, env);
    } else {
      var st1 := Go(m, prog, p, st, k).1;
      var ob := St.Run(m, stmt.body, 0, s1, fuel);
      BodySim(m, ty, stmt.body, n + 3, InLoop(env, n), true, true, prog, q + 1, st1, fuel);
      if ob.Timeout? || ob.Returned? {
        EndsElse(m, prog, q + 1, st1, ob, fuel, p, InLoop(env, n), exit, env);
        EndsAfter(m, prog, p, st, k, o, fuel, fuel, exit, env);
      } else {
        var j := BodyStops(m, prog, q + 1, st1, ob, fuel, p, InLoop(env, n));
        GoPlus(m, prog, p, st, k, j);
        if ob.Broke? {
          LabAfter(m, prog, p, st, k + j, exit - 1, n + 2);
          Arrive(m, prog, p, st, k + j + 1, o, fuel, exit, env);
        } else {
          WhileAgain(m, stmt, ob, prog, p, st, k + j, fuel, exit, env);
          if ob.fuel > 0 {
            WhileSim(m, ty, stmt, n, env, prog, q, Go(m, prog, p, st, k + j).1, ob.fuel - 1);
            EndsAfter(m, prog, p, st, k + j, o, fuel, ob.fuel - 1, exit, env);
          }
        }
      }
    }
  }

  /** Out of fuel behind the body. */
  lemma WhileAgain<S>(m: St.Sem<S>, stmt: St.Stmt, ob: St.Out<S>, prog: Code, p: nat, st: Mach<S>, n: nat, fuel: nat, exit: nat, env: Env)
    requires (ob.Normal? || ob.Continued?) && p < |prog| && Go(m, prog, p, st, n).0 == p && n >= fuel - ob.fuel
    ensures ob.fuel == 0 ==> Ends(m, prog, p, st, St.Timeout, fuel, exit, env)
  {
    assert Go(m, prog, p, st, n).0 < |prog|;
  }

  lemma DoRun<S>(m: St.Sem<S>, stmt: St.Stmt, s: S, fuel: nat)
    requires stmt.DoWhile?
    ensures var ob := St.Run(m, stmt.body, 0, s, fuel);
            ob.Normal? || ob.Continued? ==>
              var (v, s2) := St.CondValue(m, stmt.cond, ob.s);
              St.Run(m, stmt, 0, s, fuel)
              == if !v then St.Normal(0, s2, ob.fuel) else if ob.fuel == 0 then St.Timeout else St.Run(m, stmt, 0, s2, ob.fuel - 1)
  {
    var ob := St.Run(m, stmt.body, 0, s, fuel);
    if ob.Normal? || ob.Continued? {
      var b := St.CondValue(m, stmt.cond, ob.s);
      assert St.Run(m, stmt, 0, s, fuel) == St.Again(m, stmt, b, ob.fuel, fuel);
    }
  }

  /** A do loop, from its start. */
  lemma {:induction false} DoSim<S(!new)>(m: St.Sem<S>, ty: Types, stmt: St.Stmt, n: nat, env: Env, prog: Code, q: nat, st: Mach<S>, fuel: nat)
    requires stmt.DoWhile? && AllTyped(m, ty) && WellTypedStmt(ty, stmt) && St.Valid(stmt.body, true, true, false)
    requires Unique(prog) && HasLab(prog, env.ret)
    requires var (b, n1) := Gen(ty, stmt.body, n + 3, 0, InLoop(env, n)); At(prog, q, LoopCode(n, b, GenCond(ty, stmt.cond, true, n, n1).0))
    ensures var (b, n1) := Gen(ty, stmt.body, n + 3, 0, InLoop(env, n));
            var code := LoopCode(n, b, GenCond(ty, stmt.cond, true, n, n1).0);
            && q < |prog|
            && Ends(m, prog, q, st, St.Run(m, stmt, 0, st.s, fuel), fuel, q + |code|, env)
            && Ends(m, prog, q + 1, st, St.Run(m, stmt, 0, st.s, fuel), fuel, q + |code|, env)
    decreases fuel, stmt, 0
  {
    hide Unique, At, GenCond, Gen, Go, Typed, WellTyped, LoopCode, Ends, St.CondValue, HasLab, Pos;
    var (b, n1) := Gen(ty, stmt.body, n + 3, 0, InLoop(env, n));
    var cc := GenCond(ty, stmt.cond, true, n, n1).0;
    var exit := q + |LoopCode(n, b, cc)|;
    LoopPlaces(prog, q, n, b, cc);
    var o := St.Run(m, stmt, 0, st.s, fuel);
    var ob := St.Run(m, stmt.body, 0, st.s, fuel);
    BodySim(m, ty, stmt.body, n + 3, InLoop(env, n), true, true, prog, q + 1, st, fuel);
    if ob.Timeout? || ob.Returned? {
      EndsElse(m, prog, q + 1, st, ob, fuel, q + 1 + |b|, InLoop(env, n), exit, env);
    } else {
      var j := BodyStops(m, prog, q + 1, st, ob, fuel, q + 1 + |b|, InLoop(env, n));
      if ob.Broke? {
        LabAfter(m, prog, q + 1, st, j, exit - 1, n + 2);
        Arrive(m, prog, q + 1, st, j + 1, o, fuel, exit, env);
      } else {
        var st1 := Go(m, prog, q + 1, st, j).1;
        var k := TestSim(m, ty, stmt.cond, n, b, n1, prog, q, st1);
        GoPlus(m, prog, q + 1, st, j, k);
        var (v, s2) := St.CondValue(m, stmt.cond, ob.s);
        DoRun(m, stmt, st.s, fuel);
        if !v {
          Arrive(m, prog, q + 1, st, j + k, o, fuel, exit, env);
        } else {
          var st2 := Go(m, prog, q + 1, st, j + k).1;
          WhileAgain(m, stmt, ob, prog, q + 1, st, j + k, fuel, exit, env);
          if ob.fuel > 0 {
            DoSim(m, ty, stmt, n, env, prog, q, st2, ob.fuel - 1);
            EndsAfter(m, prog, q + 1, st, j + k, o, fuel, ob.fuel - 1, exit, env);
          }
        }
      }
    }
    LabAfterStart(m, prog, q, n, st);
    EndsAfter(m, prog, q, st, 1, o, fuel, fuel, exit, env);
  }

  function InFor(env: Env, n: nat): Env {
    env.(brk := n + 3, cont := n + 2)
  }

  lemma ForPlaces(prog: Code, p: nat, pre: Code, n: nat, c: Code, b: Code, post: Code) returns (q: nat, r: nat, t: nat)
    requires At(prog, p, ForCode(pre, n, c, b, post)) && Unique(prog)
    ensures q == p + |pre| && r == q + 1 + |c| && t == r + 1 + |b| && t + 1 + |post| + 2 == p + |ForCode(pre, n, c, b, post)| <= |prog|
    ensures At(prog, p, pre) && At(prog, q + 1, c) && At(prog, r + 1, b) && At(prog, t + 1, post)
    ensures prog[q] == Lab(n) && prog[r] == Lab(n + 1) && prog[t] == Lab(n + 2)
    ensures prog[t + 1 + |post|] == Jcc(ANY, n) && prog[t + 2 + |post|] == Lab(n + 3)
    ensures HasLab(prog, n) && Pos(prog, n) == q
    ensures HasLab(prog, n + 2) && Pos(prog, n + 2) == t
    ensures HasLab(prog, n + 3) && Pos(prog, n + 3) == t + 2 + |post|
  {
    hide Unique, HasLab, Pos, At;
    q, r, t := p + |pre|, p + |pre| + 1 + |c|, p + |pre| + 2 + |c| + |b|;
    var t2 := b + ([Lab(n + 2)] + (post + ([Jcc(ANY, n)] + [Lab(n + 3)])));
    AtJoin(prog, p, pre, [Lab(n)] + (c + ([Lab(n + 1)] + t2)));
    AtHead(prog, q, Lab(n), c + ([Lab(n + 1)] + t2));
    AtJoin(prog, q + 1, c, [Lab(n + 1)] + t2);
    AtHead(prog, r, Lab(n + 1), t2);
    ForTailPlaces(prog, r + 1, n, b, post);
    PosIs(prog, n, q);
  }

  lemma ForTailPlaces(prog: Code, p: nat, n: nat, b: Code, post: Code)
    requires At(prog, p, b + ([Lab(n + 2)] + (post + ([Jcc(ANY, n)] + [Lab(n + 3)])))) && Unique(prog)
    ensures var t := p + |b|;
            && t + 2 + |post| < |prog| && At(prog, p, b) && At(prog, t + 1, post)
            && prog[t] == Lab(n + 2) && prog[t + 1 + |post|] == Jcc(ANY, n) && prog[t + 2 + |post|] == Lab(n + 3)
            && HasLab(prog, n + 2) && Pos(prog, n + 2) == t && HasLab(prog, n + 3) && Pos(prog, n + 3) == t + 2 + |post|
  {
    hide Unique, HasLab, Pos, At;
    var t := p + |b|;
    var t4 := [Jcc(ANY, n)] + [Lab(n + 3)];
    AtJoin(prog, p, b, [Lab(n + 2)] + (post + t4));
    AtHead(prog, t, Lab(n + 2), post + t4);
    AtJoin(prog, t + 1, post, t4);
    AtHead(prog, t + 1 + |post|, Jcc(ANY, n), [Lab(n + 3)]);
    AtOne(prog, t + 2 + |post|, Lab(n + 3));
    PosIs(prog, n + 2, t);
    PosIs(prog, n + 3, t + 2 + |post|);
  }

  lemma EvalsSim<S>(m: St.Sem<S>, e: Option<nat>, prog: Code, p: nat, st: Mach<S>)
    requires At(prog, p, Evals(e))
    ensures Go(m, prog, p, st, |Evals(e)|).0 == p + |Evals(e)|
    ensures Go(m, prog, p, st, |Evals(e)|).1.s == St.Effect(m, e, st.s)
  {
    if e.Some? {
      AtOne(prog, p, Eval(e.value));
      GoOne(m, prog, p, st);
    }
  }

  /** The test of a for loop: on behind it, or at the loop's end. */
  lemma ForTestSim<S(!new)>(m: St.Sem<S>, ty: Types, c: Option<St.Cond>, bb: nat, n: nat, prog: Code, p: nat, st: Mach<S>) returns (k: nat)
    requires Typed(m, ty) && (c.Some? ==> WellTyped(ty, c.value))
    requires Unique(prog) && HasLab(prog, bb) && At(prog, p, ForTest(ty, c, bb, n).0)
    ensures var (v, s1) := if c.Some? then St.CondValue(m, c.value, st.s) else (true, st.s);
            var (q, st1) := Go(m, prog, p, st, k);
            st1.s == s1 && q == if v then p + |ForTest(ty, c, bb, n).0| else Pos(prog, bb)
  {
    if c.Some? {
      k := CondSim(m, ty, c.value, false, bb, n, prog, p, st);
    } else {
      k := 0;
    }
  }

  /** Behind the body of a for loop: the last expression, and back to the test. */
  lemma ForNext<S>(m: St.Sem<S>, post: Option<nat>, n: nat, prog: Code, t: nat, st: Mach<S>) returns (k: nat)
    requires t + 2 + |Evals(post)| <= |prog| && prog[t] == Lab(n + 2) && At(prog, t + 1, Evals(post))
    requires prog[t + 1 + |Evals(post)|] == Jcc(ANY, n) && HasLab(prog, n)
    ensures k >= 1 && Go(m, prog, t, st, k).0 == Pos(prog, n) && Go(m, prog, t, st, k).1.s == St.Effect(m, post, st.s)
  {
    hide Go, At;
    var e := Evals(post);
    LabAfterStart(m, prog, t, n + 2, st);
    EvalsSim(m, post, prog, t + 1, st);
    GoPlus(m, prog, t, st, 1, |e|);
    var st1 := Go(m, prog, t, st, 1 + |e|).1;
    JccStep(m, prog, t + 1 + |e|, st1, ANY, n);
    GoOne(m, prog, t + 1 + |e|, st1);
    GoPlus(m, prog, t, st, 1 + |e|, 1);
    k := 2 + |e|;
  }

  /** A for loop, from its test. */
  lemma {:induction false} ForSim<S(!new)>(m: St.Sem<S>, ty: Types, stmt: St.Stmt, n: nat, env: Env, prog: Code, p: nat, q: nat, st: Mach<S>, fuel: nat)
    requires stmt.For? && AllTyped(m, ty) && WellTypedStmt(ty, stmt) && St.Valid(stmt.body, true, true, false)
    requires Unique(prog) && HasLab(prog, env.ret)
    requires At(prog, p, Gen(ty, stmt, n, 0, env).0) && q == p + |Evals(stmt.pre)|
    ensures q < |prog| && Ends(m, prog, q, st, St.RunFor(m, stmt, st.s, fuel), fuel, p + |Gen(ty, stmt, n, 0, env).0|, env)
    decreases fuel, stmt, 0
  {
    hide Unique, At, GenCond, Go, Typed, WellTyped, ForCode, ForTest, Evals, Ends, St.CondValue, HasLab, Pos;
    var (cc, n1) := ForTest(ty, stmt.forCond, n + 3, n + 4);
    var (b, n2) := Gen(ty, stmt.body, n1, 0, InFor(env, n));
    var exit := p + |Gen(ty, stmt, n, 0, env).0|;
    assert Gen(ty, stmt, n, 0, env).0 == ForCode(Evals(stmt.pre), n, cc, b, Evals(stmt.post));
    hide Gen;
    var q', r, t := ForPlaces(prog, p, Evals(stmt.pre), n, cc, b, Evals(stmt.post));
    var o := St.RunFor(m, stmt, st.s, fuel);
    LabAfterStart(m, prog, q, n, st);
    var k1 := ForTestSim(m, ty, stmt.forCond, n + 3, n + 4, prog, q + 1, st);
    GoPlus(m, prog, q, st, 1, k1);
    var (v, s1) := if stmt.forCond.Some? then St.CondValue(m, stmt.forCond.value, st.s) else (true, st.s);
    if !v {
      LabAfter(m, prog, q, st, 1 + k1, exit - 1, n + 3);
      Arrive(m, prog, q, st, 2 + k1, o, fuel, exit, env);
    } else {
      LabAfter(m, prog, q, st, 1 + k1, r, n + 1);
      var st1 := Go(m, prog, q, st, 2 + k1).1;
      ForBody(m, ty, stmt, n, env, prog, p, q, r, t, st1, s1, fuel, exit);
      EndsAfter(m, prog, q, st, 2 + k1, o, fuel, fuel, exit, env);
    }
  }

  lemma {:induction false} ForBody<S(!new)>(m: St.Sem<S>, ty: Types, stmt: St.Stmt, n: nat, env: Env, prog: Code, p: nat, q: nat, r: nat, t: nat, st: Mach<S>, s1: S, fuel: nat, exit: nat)
    requires stmt.For? && AllTyped(m, ty) && WellTypedStmt(ty, stmt) && St.Valid(stmt.body, true, true, false)
    requires Unique(prog) && HasLab(prog, env.ret)
    requires At(prog, p, Gen(ty, stmt, n, 0, env).0) && q == p + |Evals(stmt.pre)| && exit == p + |Gen(ty, stmt, n, 0, env).0|
    requires HasLab(prog, n) && Pos(prog, n) == q && HasLab(prog, n + 2) && Pos(prog, n + 2) == t
    requires HasLab(prog, n + 3) && Pos(prog, n + 3) == exit - 1 && t + 2 + |Evals(stmt.post)| == exit - 1 && exit <= |prog|
    requires prog[t] == Lab(n + 2) && At(prog, t + 1, Evals(stmt.post)) && prog[exit - 2] == Jcc(ANY, n) && prog[exit - 1] == Lab(n + 3)
    requires var (cc, n1) := ForTest(ty, stmt.forCond, n + 3, n + 4);
             var b := Gen(ty, stmt.body, n1, 0, InFor(env, n)).0;
             At(prog, r + 1, b) && t == r + 1 + |b|
    requires st.s == s1
    ensures r + 1 <= |prog|
    ensures Ends(m, prog, r + 1, st, ForOut(m, stmt, St.Run(m, stmt.body, 0, s1, fuel)), fuel, exit, env)
    decreases fuel, stmt.body, 5
  {
    hide Unique, At, GenCond, Gen, Go, Typed, WellTyped, ForCode, ForTest, Evals, Ends, St.CondValue, HasLab, Pos, St.RunFor;
    var (cc, n1) := ForTest(ty, stmt.forCond, n + 3, n + 4);
    var ob := St.Run(m, stmt.body, 0, s1, fuel);
    var o := ForOut(m, stmt, ob);
    BodySim(m, ty, stmt.body, n1, InFor(env, n), true, true, prog, r + 1, st, fuel);
    if ob.Timeout? || ob.Returned? {
      EndsElse(m, prog, r + 1, st, ob, fuel, t, InFor(env, n), exit, env);
    } else {
      var j := BodyStops(m, prog, r + 1, st, ob, fuel, t, InFor(env, n));
      if ob.Broke? {
        LabAfter(m, prog, r + 1, st, j, exit - 1, n + 3);
        Arrive(m, prog, r + 1, st, j + 1, o, fuel, exit, env);
      } else {
        var k := ForNext(m, stmt.post, n, prog, t, Go(m, prog, r + 1, st, j).1);
        GoPlus(m, prog, r + 1, st, j, k);
        if ob.fuel > 0 {
          ForSim(m, ty, stmt, n, env, prog, p, q, Go(m, prog, r + 1, st, j + k).1, ob.fuel - 1);
          EndsAfter(m, prog, r + 1, st, j + k, o, fuel, ob.fuel - 1, exit, env);
        } else {
          StillIn(m, prog, r + 1, st, j + k, fuel, exit, env);
        }
      }
    }
  }

  lemma StillIn<S>(m: St.Sem<S>, prog: Code, p: nat, st: Mach<S>, n: nat, fuel: nat, exit: nat, env: Env)
    requires p <= |prog| && Go(m, prog, p, st, n).0 < |prog| && n >= fuel
    ensures Ends(m, prog, p, st, St.Timeout, fuel, exit, env)
  {
  }

  /** How a for loop goes on after its body. */
  function ForOut<S>(m: St.Sem<S>, stmt: St.Stmt, ob: St.Out<S>): St.Out<S>
    requires stmt.For?
  {
    match ob
    case Normal(_, s2, f2) => if f2 == 0 then St.Timeout else St.RunFor(m, stmt, St.Effect(m, stmt.post, s2), f2 - 1)
    case Continued(s2, f2) => if f2 == 0 then St.Timeout else St.RunFor(m, stmt, St.Effect(m, stmt.post, s2), f2 - 1)
    case Broke(s2, f2) => St.Normal(0, s2, f2)
    case o => o
  }

  // ----- All statements -----

  lemma IfPlaces(prog: Code, p: nat, c: Code, n: nat, t: Code, f: Option<(Code, nat)>) returns (q: nat, r: nat)
    requires At(prog, p, IfCode(c, n, t, f)) && Unique(prog)
    ensures q == p + |c| && r == q + 1 + |t| && r < p + |IfCode(c, n, t, f)| <= |prog|
    ensures At(prog, p, c) && At(prog, q + 1, t) && prog[q] == Lab(n) && HasLab(prog, n + 1)
    ensures f.None? ==> prog[r] == Lab(n + 1) && Pos(prog, n + 1) == r && r + 1 == p + |IfCode(c, n, t, f)|
    ensures f.Some? ==>
              && r + 3 + |f.value.0| == p + |IfCode(c, n, t, f)| && prog[r] == Jcc(ANY, f.value.1)
              && prog[r + 1] == Lab(n + 1) && Pos(prog, n + 1) == r + 1 && At(prog, r + 2, f.value.0)
              && prog[r + 2 + |f.value.0|] == Lab(f.value.1) && HasLab(prog, f.value.1) && Pos(prog, f.value.1) == r + 2 + |f.value.0|
  {
    hide Unique, HasLab, Pos, At;
    q, r := p + |c|, p + |c| + 1 + |t|;
    var tail := IfTail(n, f);
    AtJoin(prog, p, c, [Lab(n)] + (t + tail));
    AtHead(prog, q, Lab(n), t + tail);
    AtJoin(prog, q + 1, t, tail);
    if f.None? {
      AtOne(prog, r, Lab(n + 1));
      PosIs(prog, n + 1, r);
      AtEnd(prog, r, tail);
    } else {
      IfTailPlaces(prog, r, n, f.value.0, f.value.1);
    }
  }

  /** What stands behind the first branch of an if. */
  function IfTail(n: nat, f: Option<(Code, nat)>): Code {
    match f
    case None => [Lab(n + 1)]
    case Some((b, end)) => [Jcc(ANY, end)] + ([Lab(n + 1)] + (b + [Lab(end)]))
  }

  lemma AtEnd(prog: Code, p: nat, code: Code)
    requires At(prog, p, code)
    ensures p + |code| <= |prog|
  {
  }

  lemma IfTailPlaces(prog: Code, r: nat, n: nat, b: Code, end: nat)
    requires At(prog, r, [Jcc(ANY, end)] + ([Lab(n + 1)] + (b + [Lab(end)]))) && Unique(prog)
    ensures r + 2 + |b| < |prog| && prog[r] == Jcc(ANY, end)
    ensures prog[r + 1] == Lab(n + 1) && HasLab(prog, n + 1) && Pos(prog, n + 1) == r + 1 && At(prog, r + 2, b)
    ensures prog[r + 2 + |b|] == Lab(end) && HasLab(prog, end) && Pos(prog, end) == r + 2 + |b|
  {
    hide Unique, HasLab, Pos, At;
    AtHead(prog, r, Jcc(ANY, end), [Lab(n + 1)] + (b + [Lab(end)]));
    AtHead(prog, r + 1, Lab(n + 1), b + [Lab(end)]);
    AtJoin(prog, r + 2, b, [Lab(end)]);
    AtOne(prog, r + 2 + |b|, Lab(end));
    PosIs(prog, n + 1, r + 1);
    PosIs(prog, end, r + 2 + |b|);
  }

  /** Only the way behind the code differs: `n` more steps lead from one end to the other. */
  lemma EndsFurther<S>(m: St.Sem<S>, prog: Code, p: nat, st: Mach<S>, o: St.Out<S>, fuel: nat, exit: nat, exit2: nat, k: nat, env: Env)
    requires Ends(m, prog, p, st, o, fuel, exit, env) && exit <= |prog|
    requires forall st1: Mach<S> {:trigger Go(m, prog, exit, st1, k)} :: Go(m, prog, exit, st1, k) == (exit2, st1)
    ensures Ends(m, prog, p, st, o, fuel, exit2, env)
  {
    if o.Normal? && o.seek == 0 {
      var n: nat :| n >= fuel - o.fuel && Go(m, prog, p, st, n).0 == exit && Go(m, prog, p, st, n).1.s == o.s;
      GoPlus(m, prog, p, st, n, k);
      assert Go(m, prog, exit, Go(m, prog, p, st, n).1, k) == (exit2, Go(m, prog, p, st, n).1);
      assert Go(m, prog, p, st, n + k).0 == exit2;
    }
  }

  lemma {:induction false} IfSim<S(!new)>(m: St.Sem<S>, ty: Types, stmt: St.Stmt, n: nat, env: Env, canBreak: bool, canContinue: bool, prog: Code, p: nat, st: Mach<S>, fuel: nat)
    requires stmt.If? && AllTyped(m, ty) && WellTypedStmt(ty, stmt) && St.Valid(stmt, canBreak, canContinue, false)
    requires Unique(prog) && EnvOk(prog, env, canBreak, canContinue) && At(prog, p, Gen(ty, stmt, n, 0, env).0)
    ensures Ends(m, prog, p, st, St.Run(m, stmt, 0, st.s, fuel), fuel, p + |Gen(ty, stmt, n, 0, env).0|, env)
    decreases fuel, stmt, 0
  {
    hide Unique, At, GenCond, Go, Typed, WellTyped, IfCode, Ends, St.CondValue, HasLab, Pos, EnvOk;
    var (cc, n1) := GenCond(ty, stmt.cond, false, n + 1, n + 2);
    var (tc, n2) := Gen(ty, stmt.tblock, n1, 0, env);
    var fc := if stmt.fblock.Some? then Some((Gen(ty, stmt.fblock.value, n2 + 1, 0, env).0, n2)) else None;
    var exit := p + |Gen(ty, stmt, n, 0, env).0|;
    assert Gen(ty, stmt, n, 0, env).0 == IfCode(cc, n, tc, fc);
    IfParts(ty, stmt, canBreak, canContinue);
    IfRun(m, stmt, st.s, fuel);
    hide Gen, AllTyped, WellTypedStmt, St.Valid, St.Run, Step;
    assert Typed(m, ty) by { TypedIs(m, ty); }
    var q, r := IfPlaces(prog, p, cc, n, tc, fc);
    var o := St.Run(m, stmt, 0, st.s, fuel);
    var k := CondSim(m, ty, stmt.cond, false, n + 1, n + 2, prog, p, st);
    var v := St.CondValue(m, stmt.cond, st.s).0;
    var st1 := Go(m, prog, p, st, k).1;
    if v {
      LabAfter(m, prog, p, st, k, q, n);
      BodySim(m, ty, stmt.tblock, n1, env, canBreak, canContinue, prog, q + 1, st1, fuel);
      ThenEnds(m, prog, q + 1, st1, o, fuel, r, exit, n, fc, env);
      EndsAfter(m, prog, p, st, k + 1, o, fuel, fuel, exit, env);
    } else if fc.Some? {
      LabAfter(m, prog, p, st, k, r + 1, n + 1);
      BodySim(m, ty, stmt.fblock.value, n2 + 1, env, canBreak, canContinue, prog, r + 2, st1, fuel);
      LabelOn(m, prog, exit - 1, n2);
      EndsFurther(m, prog, r + 2, st1, o, fuel, exit - 1, exit, 1, env);
      EndsAfter(m, prog, p, st, k + 1, o, fuel, fuel, exit, env);
    } else {
      LabAfter(m, prog, p, st, k, r, n + 1);
      Arrive(m, prog, p, st, k + 1, o, fuel, exit, env);
    }
  }

  /** From the end of the first branch of an if to behind it. */
  lemma ThenEnds<S(!new)>(m: St.Sem<S>, prog: Code, p: nat, st: Mach<S>, o: St.Out<S>, fuel: nat, r: nat, exit: nat, n: nat, fc: Option<(Code, nat)>, env: Env)
    requires Ends(m, prog, p, st, o, fuel, r, env) && r < |prog|
    requires fc.None? ==> prog[r] == Lab(n + 1) && exit == r + 1
    requires fc.Some? ==> prog[r] == Jcc(ANY, fc.value.1) && HasLab(prog, fc.value.1) && exit == Pos(prog, fc.value.1) + 1
    ensures Ends(m, prog, p, st, o, fuel, exit, env)
  {
    hide Ends, Go, HasLab, Pos;
    if fc.Some? {
      JumpOn(m, prog, r, fc.value.1);
      EndsFurther(m, prog, p, st, o, fuel, r, exit, 2, env);
    } else {
      LabelOn(m, prog, r, n + 1);
      EndsFurther(m, prog, p, st, o, fuel, r, exit, 1, env);
    }
  }

  lemma TypedIs<S(!new)>(m: St.Sem<S>, ty: Types)
    requires AllTyped(m, ty)
    ensures Typed(m, ty)
  {
  }

  lemma IfParts(ty: Types, stmt: St.Stmt, canBreak: bool, canContinue: bool)
    requires stmt.If? && WellTypedStmt(ty, stmt) && St.Valid(stmt, canBreak, canContinue, false)
    ensures WellTyped(ty, stmt.cond) && WellTypedStmt(ty, stmt.tblock) && St.Valid(stmt.tblock, canBreak, canContinue, false)
    ensures stmt.fblock.Some? ==> WellTypedStmt(ty, stmt.fblock.value) && St.Valid(stmt.fblock.value, canBreak, canContinue, false)
  {
  }

  lemma IfRun<S>(m: St.Sem<S>, stmt: St.Stmt, s: S, fuel: nat)
    requires stmt.If?
    ensures var (v, s1) := St.CondValue(m, stmt.cond, s);
            St.Run(m, stmt, 0, s, fuel)
            == if v then St.Run(m, stmt.tblock, 0, s1, fuel)
               else if stmt.fblock.Some? then St.Run(m, stmt.fblock.value, 0, s1, fuel) else St.Normal(0, s1, fuel)
  {
  }

  lemma LabelOn<S(!new)>(m: St.Sem<S>, prog: Code, r: nat, l: nat)
    requires r < |prog| && prog[r] == Lab(l)
    ensures forall st: Mach<S> {:trigger Go(m, prog, r, st, 1)} :: Go(m, prog, r, st, 1) == (r + 1, st)
  {
    forall st: Mach<S> ensures Go(m, prog, r, st, 1) == (r + 1, st) {
      LabStep(m, prog, r, l, st);
    }
  }

  lemma JumpOn<S(!new)>(m: St.Sem<S>, prog: Code, r: nat, l: nat)
    requires r < |prog| && prog[r] == Jcc(ANY, l) && HasLab(prog, l)
    ensures forall st: Mach<S> {:trigger Go(m, prog, r, st, 2)} :: Go(m, prog, r, st, 2) == (Pos(prog, l) + 1, st)
  {
    hide Step;
    forall st: Mach<S> ensures Go(m, prog, r, st, 2) == (Pos(prog, l) + 1, st) {
      JccStep(m, prog, r, st, ANY, l);
      GoOne(m, prog, r, st);
      LabAfter(m, prog, r, st, 1, Pos(prog, l), l);
    }
  }

  lemma {:induction false} LoopSim<S(!new)>(m: St.Sem<S>, ty: Types, stmt: St.Stmt, n: nat, env: Env, prog: Code, p: nat, st: Mach<S>, fuel: nat)
    requires (stmt.While? || stmt.DoWhile? || stmt.For?) && AllTyped(m, ty) && WellTypedStmt(ty, stmt) && St.Valid(stmt.body, true, true, false)
    requires Unique(prog) && HasLab(prog, env.ret) && At(prog, p, Gen(ty, stmt, n, 0, env).0)
    ensures Ends(m, prog, p, st, St.Run(m, stmt, 0, st.s, fuel), fuel, p + |Gen(ty, stmt, n, 0, env).0|, env)
    decreases fuel, stmt, 1
  {
    hide Unique, At, GenCond, Go, Typed, WellTyped, LoopCode, ForTest, Evals, Ends, St.CondValue, HasLab, Pos, St.RunFor, Step, AllTyped, WellTypedStmt;
    var o := St.Run(m, stmt, 0, st.s, fuel);
    var exit := p + |Gen(ty, stmt, n, 0, env).0|;
    match stmt
    case While(c, body) =>
      var (b, n1) := Gen(ty, body, n + 3, 0, InLoop(env, n));
      var cc := GenCond(ty, c, true, n, n1).0;
      var code := LoopCode(n, b, cc);
      AtHead(prog, p, Jcc(ANY, n + 1), code);
      LoopPlaces(prog, p + 1, n, b, cc);
      JccStep(m, prog, p, st, ANY, n + 1);
      GoOne(m, prog, p, st);
      WhileSim(m, ty, stmt, n, env, prog, p + 1, st, fuel);
      EndsAfter(m, prog, p, st, 1, o, fuel, fuel, exit, env);
    case DoWhile(body, c) =>
      DoSim(m, ty, stmt, n, env, prog, p, st, fuel);
    case For(pre, c, post, body) =>
      var (cc, n1) := ForTest(ty, c, n + 3, n + 4);
      var b := Gen(ty, body, n1, 0, InFor(env, n)).0;
      var q, r, t := ForPlaces(prog, p, Evals(pre), n, cc, b, Evals(post));
      EvalsSim(m, pre, prog, p, st);
      ForSim(m, ty, stmt, n, env, prog, p, q, Go(m, prog, p, st, |Evals(pre)|).1, fuel);
      EndsAfter(m, prog, p, st, |Evals(pre)|, o, fuel, fuel, exit, env);
  }

  /** A statement without labels, from its start. */
  lemma {:induction false} BodySim<S(!new)>(m: St.Sem<S>, ty: Types, stmt: St.Stmt, n: nat, env: Env, canBreak: bool, canContinue: bool, prog: Code, p: nat, st: Mach<S>, fuel: nat)
    requires AllTyped(m, ty) && WellTypedStmt(ty, stmt) && St.Valid(stmt, canBreak, canContinue, false)
    requires Unique(prog) && EnvOk(prog, env, canBreak, canContinue) && At(prog, p, Gen(ty, stmt, n, 0, env).0)
    ensures p + |Gen(ty, stmt, n, 0, env).0| <= |prog|
    ensures Ends(m, prog, p, st, St.Run(m, stmt, 0, st.s, fuel), fuel, p + |Gen(ty, stmt, n, 0, env).0|, env)
    ensures var o := St.Run(m, stmt, 0, st.s, fuel); o.Normal? ==> o.seek == 0
    decreases fuel, stmt, 4
  {
    hide Unique, Gen, Ends, EnvOk, St.Run, St.Valid, WellTypedStmt, AllTyped;
    St.NoLabels(stmt, canBreak, canContinue);
    StmtSim(m, ty, stmt, n, 0, env, canBreak, canContinue, false, 0, prog, p, p, st, fuel);
  }

  /** Where a statement is entered: at its start, or at its `k`-th label. */
  ghost predicate EntersAt(prog: Code, p: nat, cs: nat, k: nat, start: nat) {
    if k == 0 then start == p else HasLab(prog, cs + k - 1) && start == Pos(prog, cs + k - 1)
  }

  /** The code of a statement, entered at its start or at its `k`-th label, ends as the statement run from there does. */
  lemma {:induction false} StmtSim<S(!new)>(m: St.Sem<S>, ty: Types, stmt: St.Stmt, n: nat, cs: nat, env: Env, canBreak: bool, canContinue: bool, inSwitch: bool, k: nat, prog: Code, p: nat, start: nat, st: Mach<S>, fuel: nat)
    requires AllTyped(m, ty) && WellTypedStmt(ty, stmt) && St.Valid(stmt, canBreak, canContinue, inSwitch)
    requires |St.Labels(stmt)| > 0 ==> cs + |St.Labels(stmt)| <= n
    requires Unique(prog) && EnvOk(prog, env, canBreak, canContinue) && At(prog, p, Gen(ty, stmt, n, cs, env).0)
    requires k <= |St.Labels(stmt)| && EntersAt(prog, p, cs, k, start)
    ensures Ends(m, prog, start, st, St.Run(m, stmt, k, st.s, fuel), fuel, p + |Gen(ty, stmt, n, cs, env).0|, env)
    decreases fuel, stmt, 3
  {
    hide Unique, Go, Ends, HasLab, Pos, EnvOk, St.Run, St.Valid, Gen, WellTypedStmt, AllTyped;
    if stmt.Block? {
      assert (forall x | x in stmt.stmts :: WellTypedStmt(ty, x) && St.Valid(x, canBreak, canContinue, inSwitch)) by { BlockParts(ty, stmt, canBreak, canContinue, inSwitch); }
      BlockIs(m, ty, stmt, n, cs, env, k, st.s, fuel);
      StmtsSim(m, ty, stmt.stmts, n, cs, env, canBreak, canContinue, inSwitch, k, prog, p, start, st, fuel);
    } else if stmt.Case? || stmt.Default? {
      assert |St.Labels(stmt)| == 1;
      LabelSim(m, ty, stmt, n, cs, env, k, prog, p, start, st, fuel);
    } else {
      NoCase(ty, stmt, n, cs, env);
      PlainSim(m, ty, stmt, n, env, canBreak, canContinue, inSwitch, prog, p, st, fuel);
    }
  }

  lemma BlockParts(ty: Types, stmt: St.Stmt, canBreak: bool, canContinue: bool, inSwitch: bool)
    requires stmt.Block? && WellTypedStmt(ty, stmt) && St.Valid(stmt, canBreak, canContinue, inSwitch)
    ensures forall x | x in stmt.stmts :: WellTypedStmt(ty, x) && St.Valid(x, canBreak, canContinue, inSwitch)
  {
  }

  lemma BlockIs<S>(m: St.Sem<S>, ty: Types, stmt: St.Stmt, n: nat, cs: nat, env: Env, k: nat, s: S, fuel: nat)
    requires stmt.Block?
    ensures Gen(ty, stmt, n, cs, env) == GenAll(ty, stmt.stmts, n, cs, env)
    ensures St.Run(m, stmt, k, s, fuel) == St.RunStmts(m, stmt.stmts, k, s, fuel)
  {
  }

  /** A `case` or `default` label. */
  lemma LabelSim<S>(m: St.Sem<S>, ty: Types, stmt: St.Stmt, n: nat, cs: nat, env: Env, k: nat, prog: Code, p: nat, start: nat, st: Mach<S>, fuel: nat)
    requires (stmt.Case? || stmt.Default?) && k <= 1 && Unique(prog) && At(prog, p, Gen(ty, stmt, n, cs, env).0) && EntersAt(prog, p, cs, k, start)
    ensures Gen(ty, stmt, n, cs, env).0 == [Lab(cs)]
    ensures Ends(m, prog, start, st, St.Run(m, stmt, k, st.s, fuel), fuel, p + 1, env)
  {
    hide Ends, HasLab, Pos;
    AtOne(prog, p, Lab(cs));
    PosIs(prog, cs, p);
    LabAfterStart(m, prog, p, cs, st);
    Arrive(m, prog, p, st, 1, St.Run(m, stmt, k, st.s, fuel), fuel, p + 1, env);
  }

  /** Statements other than labels and blocks have no labels of their own. */
  lemma NoCase(ty: Types, stmt: St.Stmt, n: nat, cs: nat, env: Env)
    requires !stmt.Block? && !stmt.Case? && !stmt.Default?
    ensures St.Labels(stmt) == [] && Gen(ty, stmt, n, cs, env) == Gen(ty, stmt, n, 0, env)
  {
  }

  lemma {:induction false} StmtsSim<S(!new)>(m: St.Sem<S>, ty: Types, ss: seq<St.Stmt>, n: nat, cs: nat, env: Env, canBreak: bool, canContinue: bool, inSwitch: bool, k: nat, prog: Code, p: nat, start: nat, st: Mach<S>, fuel: nat)
    requires AllTyped(m, ty) && forall x | x in ss :: WellTypedStmt(ty, x) && St.Valid(x, canBreak, canContinue, inSwitch)
    requires |St.LabelsOf(ss)| > 0 ==> cs + |St.LabelsOf(ss)| <= n
    requires Unique(prog) && EnvOk(prog, env, canBreak, canContinue) && At(prog, p, GenAll(ty, ss, n, cs, env).0)
    requires k <= |St.LabelsOf(ss)| && EntersAt(prog, p, cs, k, start)
    ensures Ends(m, prog, start, st, St.RunStmts(m, ss, k, st.s, fuel), fuel, p + |GenAll(ty, ss, n, cs, env).0|, env)
    decreases fuel, ss, 2
  {
    hide Unique, Go, Ends, HasLab, Pos, EnvOk, St.Run, St.Valid, Gen, WellTypedStmt, AllTyped, At;
    if ss == [] {
      StartsHere(m, prog, p, st, fuel, env, [], GenAll(ty, ss, n, cs, env).0);
    } else {
      var (a, n1) := Gen(ty, ss[0], n, cs, env);
      var j := |St.Labels(ss[0])|;
      var b := GenAll(ty, ss[1..], n1, cs + j, env).0;
      AtJoin(prog, p, a, b);
      var o := St.RunStmts(m, ss, k, st.s, fuel);
      var exit := p + |a| + |b|;
      if k > j {
        SkipsFirst(m, ss, k, st.s, fuel);
        StmtsSim(m, ty, ss[1..], n1, cs + j, env, canBreak, canContinue, inSwitch, k - j, prog, p + |a|, start, st, fuel);
      } else {
        var o1 := St.Run(m, ss[0], k, st.s, fuel);
        StmtSim(m, ty, ss[0], n, cs, env, canBreak, canContinue, inSwitch, k, prog, p, start, st, fuel);
        if o1.Normal? {
          assert start <= |prog| by { EntersIn(prog, p, cs, k, start); }
          var i := NormalStop(m, prog, start, st, o1, fuel, p + |a|, env);
          var st1 := Go(m, prog, start, st, i).1;
          StmtsSim(m, ty, ss[1..], n1, cs + j, env, canBreak, canContinue, inSwitch, 0, prog, p + |a|, p + |a|, st1, o1.fuel);
          EndsAfter(m, prog, start, st, i, o, fuel, o1.fuel, exit, env);
        } else {
          ElseEnds(m, prog, start, st, o1, fuel, p + |a|, exit, env);
        }
      }
    }
  }

  lemma EntersIn(prog: Code, p: nat, cs: nat, k: nat, start: nat)
    requires EntersAt(prog, p, cs, k, start) && p <= |prog|
    ensures start <= |prog|
  {
  }

  lemma StartsHere<S>(m: St.Sem<S>, prog: Code, p: nat, st: Mach<S>, fuel: nat, env: Env, none: Code, code: Code)
    requires At(prog, p, code) && code == []
    ensures Ends(m, prog, p, st, St.Normal(0, st.s, fuel), fuel, p + |code|, env)
  {
    Arrive(m, prog, p, st, 0, St.Normal(0, st.s, fuel), fuel, p, env);
  }

  /** A switch looking for a later label passes over the statement. */
  lemma SkipsFirst<S>(m: St.Sem<S>, ss: seq<St.Stmt>, k: nat, s: S, fuel: nat)
    requires ss != [] && k > |St.Labels(ss[0])|
    ensures St.RunStmts(m, ss, k, s, fuel) == St.RunStmts(m, ss[1..], k - |St.Labels(ss[0])|, s, fuel)
  {
    St.PassesOver(m, ss[0], k, s, fuel);
  }

  lemma NormalStop<S>(m: St.Sem<S>, prog: Code, p: nat, st: Mach<S>, o: St.Out<S>, fuel: nat, exit: nat, env: Env) returns (n: nat)
    requires p <= |prog| && Ends(m, prog, p, st, o, fuel, exit, env) && o.Normal? && o.seek == 0
    ensures n >= fuel - o.fuel && Go(m, prog, p, st, n).0 == exit && Go(m, prog, p, st, n).1.s == o.s
  {
    n :| n >= fuel - o.fuel && Go(m, prog, p, st, n).0 == exit && Go(m, prog, p, st, n).1.s == o.s;
  }

  lemma ElseEnds<S>(m: St.Sem<S>, prog: Code, p: nat, st: Mach<S>, o: St.Out<S>, fuel: nat, exit: nat, exit2: nat, env: Env)
    requires Ends(m, prog, p, st, o, fuel, exit, env) && !o.Normal?
    ensures Ends(m, prog, p, st, o, fuel, exit2, env)
  {
  }

  /** A statement other than a label or a block. */
  lemma {:induction false} PlainSim<S(!new)>(m: St.Sem<S>, ty: Types, stmt: St.Stmt, n: nat, env: Env, canBreak: bool, canContinue: bool, inSwitch: bool, prog: Code, p: nat, st: Mach<S>, fuel: nat)
    requires !stmt.Block? && !stmt.Case? && !stmt.Default?
    requires AllTyped(m, ty) && WellTypedStmt(ty, stmt) && St.Valid(stmt, canBreak, canContinue, inSwitch)
    requires Unique(prog) && EnvOk(prog, env, canBreak, canContinue) && At(prog, p, Gen(ty, stmt, n, 0, env).0)
    ensures Ends(m, prog, p, st, St.Run(m, stmt, 0, st.s, fuel), fuel, p + |Gen(ty, stmt, n, 0, env).0|, env)
    decreases fuel, stmt, 2
  {
    hide Unique, Go, Ends, HasLab, Pos, St.Run, Gen, AllTyped, At;
    if stmt.If? {
      IfSim(m, ty, stmt, n, env, canBreak, canContinue, prog, p, st, fuel);
    } else if stmt.Switch? {
      SwitchStmtSim(m, ty, stmt, n, env, canContinue, prog, p, st, fuel);
    } else if stmt.While? || stmt.DoWhile? || stmt.For? {
      LoopSim(m, ty, stmt, n, env, prog, p, st, fuel);
    } else {
      SimpleSim(m, ty, stmt, n, env, prog, p, st, fuel);
    }
  }

  lemma SimpleSim<S>(m: St.Sem<S>, ty: Types, stmt: St.Stmt, n: nat, env: Env, prog: Code, p: nat, st: Mach<S>, fuel: nat)
    requires stmt.Empty? || stmt.ExprStmt? || stmt.Return? || stmt.Break? || stmt.Continue?
    requires (stmt.Break? ==> HasLab(prog, env.brk)) && (stmt.Continue? ==> HasLab(prog, env.cont)) && HasLab(prog, env.ret)
    requires At(prog, p, Gen(ty, stmt, n, 0, env).0)
    ensures Ends(m, prog, p, st, St.Run(m, stmt, 0, st.s, fuel), fuel, p + |Gen(ty, stmt, n, 0, env).0|, env)
  {
    hide Ends, At, HasLab, Pos;
    var exit := p + |Gen(ty, stmt, n, 0, env).0|;
    var o := St.Run(m, stmt, 0, st.s, fuel);
    assert exit <= |prog| by { AtFits(prog, p, Gen(ty, stmt, n, 0, env).0); }
    match stmt
    case Empty => Arrive(m, prog, p, st, 0, o, fuel, exit, env);
    case ExprStmt(e) =>
      AtOne(prog, p, Eval(e));
      GoOne(m, prog, p, st);
      Arrive(m, prog, p, st, 1, o, fuel, exit, env);
    case Return(val) =>
      var pre := if val.Some? then [Result(val.value)] else [];
      AtJoin(prog, p, pre, Leave(env.ret, n));
      if val.Some? {
        AtOne(prog, p, Result(val.value));
        GoOne(m, prog, p, st);
      }
      var st1 := Go(m, prog, p, st, |pre|).1;
      LeaveSim(m, prog, p + |pre|, st1, env.ret, n);
      GoPlus(m, prog, p, st, |pre|, 1);
      Arrive(m, prog, p, st, |pre| + 1, o, fuel, exit, env);
    case Break =>
      LeaveSim(m, prog, p, st, env.brk, n);
      Arrive(m, prog, p, st, 1, o, fuel, exit, env);
    case Continue =>
      LeaveSim(m, prog, p, st, env.cont, n);
      Arrive(m, prog, p, st, 1, o, fuel, exit, env);
  }

  lemma AtFits(prog: Code, p: nat, code: Code)
    requires At(prog, p, code)
    ensures p + |code| <= |prog|
  {
  }

  lemma LeaveSim<S>(m: St.Sem<S>, prog: Code, p: nat, st: Mach<S>, to: nat, n: nat)
    requires At(prog, p, Leave(to, n)) && HasLab(prog, to)
    ensures p <= |prog| && Go(m, prog, p, st, 1) == (Pos(prog, to), st)
  {
    assert Leave(to, n) == [Jcc(ANY, to)] + [Lab(n)];
    AtHead(prog, p, Jcc(ANY, to), [Lab(n)]);
    JccStep(m, prog, p, st, ANY, to);
    GoOne(m, prog, p, st);
  }

  lemma {:induction false} SwitchStmtSim<S(!new)>(m: St.Sem<S>, ty: Types, stmt: St.Stmt, n: nat, env: Env, canContinue: bool, prog: Code, p: nat, st: Mach<S>, fuel: nat)
    requires stmt.Switch? && AllTyped(m, ty) && WellTypedStmt(ty, stmt) && St.Valid(stmt, true, canContinue, false)
    requires Unique(prog) && (canContinue ==> HasLab(prog, env.cont)) && HasLab(prog, env.ret) && At(prog, p, Gen(ty, stmt, n, 0, env).0)
    ensures Ends(m, prog, p, st, St.Run(m, stmt, 0, st.s, fuel), fuel, p + |Gen(ty, stmt, n, 0, env).0|, env)
    decreases fuel, stmt, 1
  {
    hide Unique, Go, Ends, HasLab, Pos, At, GenSwitchCond, St.Target, AllInType, InType, OneSided, KeptUnsigned, EnvOk, CasesSet, DistinctCases, St.Run, Step;
    var cases := St.Labels(stmt.body);
    var (d, n1) := GenSwitchCond(ty, stmt.comma, stmt.value, cases, n + 1, n, n + 1 + |cases|);
    var env2 := env.(brk := n);
    var (b, n2) := Gen(ty, stmt.body, n1, n + 1, env2);
    var exit := p + |d| + |b| + 1;
    var o := St.Run(m, stmt, 0, st.s, fuel);
    assert Gen(ty, stmt, n, 0, env).0 == d + (b + [Lab(n)]);
    SwitchPlaces(prog, p, d, b, n);
    LowerLabels.GenLabels(ty, stmt.body, n1, n + 1, env2, true, canContinue, true);
    CasesAreSet(prog, p + |d|, b, n1, n2, n + 1, |cases|);
    var s1 := St.Effect(m, stmt.comma, st.s);
    SwitchFacts(m, ty, stmt, s1, canContinue);
    var k := SwitchSim(m, ty, stmt.comma, stmt.value, cases, n + 1, n, n + 1 + |cases|, prog, p, st);
    var target := St.Target(cases, m.peek(stmt.value, s1));
    var st1 := Go(m, prog, p, st, k).1;
    SwitchRun(m, stmt, st.s, fuel);
    if target.None? {
      LabAfter(m, prog, p, st, k, exit - 1, n);
      Arrive(m, prog, p, st, k + 1, o, fuel, exit, env);
    } else {
      SwitchBody(m, ty, stmt, n, n1, env, canContinue, target.value, prog, p + |d|, st1, fuel);
      EndsAfter(m, prog, p, st, k, o, fuel, fuel, exit, env);
    }
  }

  lemma SwitchRun<S>(m: St.Sem<S>, stmt: St.Stmt, s: S, fuel: nat)
    requires stmt.Switch?
    ensures var s1 := St.Effect(m, stmt.comma, s);
            var target := St.Target(St.Labels(stmt.body), m.peek(stmt.value, s1));
            St.Run(m, stmt, 0, s, fuel)
            == if target.None? then St.Normal(0, s1, fuel)
               else (var ob := St.Run(m, stmt.body, target.value + 1, s1, fuel); if ob.Broke? || ob.Normal? then St.Normal(0, ob.s, ob.fuel) else ob)
  {
  }

  /** The body of a switch, from the label its value selects. */
  lemma {:induction false} SwitchBody<S(!new)>(m: St.Sem<S>, ty: Types, stmt: St.Stmt, n: nat, n1: nat, env: Env, canContinue: bool, i: nat, prog: Code, p: nat, st: Mach<S>, fuel: nat)
    requires stmt.Switch? && AllTyped(m, ty) && WellTypedStmt(ty, stmt) && St.Valid(stmt, true, canContinue, false)
    requires Unique(prog) && (canContinue ==> HasLab(prog, env.cont)) && HasLab(prog, env.ret)
    requires i < |St.Labels(stmt.body)| && n + 1 + |St.Labels(stmt.body)| <= n1 && CasesSet(prog, n + 1, |St.Labels(stmt.body)|)
    requires var b := Gen(ty, stmt.body, n1, n + 1, env.(brk := n)).0;
             At(prog, p, b) && p + |b| < |prog| && prog[p + |b|] == Lab(n) && HasLab(prog, n) && Pos(prog, n) == p + |b|
    ensures HasLab(prog, n + 1 + i)
    ensures var ob := St.Run(m, stmt.body, i + 1, st.s, fuel);
            Ends(m, prog, Pos(prog, n + 1 + i), st, if ob.Broke? || ob.Normal? then St.Normal(0, ob.s, ob.fuel) else ob, fuel,
                 p + |Gen(ty, stmt.body, n1, n + 1, env.(brk := n)).0| + 1, env)
    decreases fuel, stmt, 0
  {
    hide Unique, Go, Ends, HasLab, Pos, At, Gen, St.Run, EnvOk, CasesSet;
    var env2 := env.(brk := n);
    var b := Gen(ty, stmt.body, n1, n + 1, env2).0;
    var exit := p + |b| + 1;
    CaseSet(prog, n + 1, |St.Labels(stmt.body)|, i);
    var start := Pos(prog, n + 1 + i);
    EnvIs(prog, env2, canContinue);
    StmtSim(m, ty, stmt.body, n1, n + 1, env2, true, canContinue, true, i + 1, prog, p, start, st, fuel);
    var ob := St.Run(m, stmt.body, i + 1, st.s, fuel);
    LabelOn(m, prog, exit - 1, n);
    SwitchEnds(m, prog, start, st, ob, fuel, exit, env, env2);
  }

  lemma SwitchPlaces(prog: Code, p: nat, d: Code, b: Code, n: nat)
    requires At(prog, p, d + (b + [Lab(n)])) && Unique(prog)
    ensures At(prog, p, d) && At(prog, p + |d|, b) && p + |d| + |b| < |prog| && prog[p + |d| + |b|] == Lab(n)
    ensures HasLab(prog, n) && Pos(prog, n) == p + |d| + |b|
  {
    AtJoin(prog, p, d, b + [Lab(n)]);
    AtJoin(prog, p + |d|, b, [Lab(n)]);
    AtOne(prog, p + |d| + |b|, Lab(n));
    PosIs(prog, n, p + |d| + |b|);
  }

  /** Every case of the switch has its block in the body. */
  lemma CasesAreSet(prog: Code, p: nat, b: Code, lo: nat, hi: nat, cs: nat, k: nat)
    requires At(prog, p, b) && LowerLabels.Labelled(b, lo, hi, cs, k)
    ensures CasesSet(prog, cs, k)
  {
    forall l: nat | cs <= l < cs + k ensures HasLab(prog, l) {
      assert LowerLabels.LabelledAt(b, lo, hi, cs, k, l);
      assert Lab(l) in b;
      var i :| 0 <= i < |b| && b[i] == Lab(l);
      assert prog[p..p + |b|][i] == prog[p + i];
    }
  }

  lemma CaseSet(prog: Code, cs: nat, k: nat, i: nat)
    requires CasesSet(prog, cs, k) && i < k
    ensures HasLab(prog, cs + i)
  {
  }

  lemma EnvIs(prog: Code, env: Env, canContinue: bool)
    requires HasLab(prog, env.brk) && (canContinue ==> HasLab(prog, env.cont)) && HasLab(prog, env.ret)
    ensures EnvOk(prog, env, true, canContinue)
  {
  }

  lemma SwitchFacts<S(!new)>(m: St.Sem<S>, ty: Types, stmt: St.Stmt, s: S, canContinue: bool)
    requires stmt.Switch? && AllTyped(m, ty) && WellTypedStmt(ty, stmt) && St.Valid(stmt, true, canContinue, false)
    ensures ty.half(stmt.value) > 0 && InType(m.peek(stmt.value, s), ty.half(stmt.value), KeptUnsigned(ty, stmt.value))
    ensures DistinctCases(St.Labels(stmt.body)) && OneSided(St.Labels(stmt.body), ty.half(stmt.value))
    ensures AllInType(St.Labels(stmt.body), ty.half(stmt.value), KeptUnsigned(ty, stmt.value))
  {
    assert PeekAt(m, ty, stmt.value, s);
  }

  /** Behind the body of a switch, or broken out of it. */
  lemma SwitchEnds<S(!new)>(m: St.Sem<S>, prog: Code, p: nat, st: Mach<S>, ob: St.Out<S>, fuel: nat, exit: nat, env: Env, env2: Env)
    requires p <= |prog| && 0 < exit <= |prog| && Ends(m, prog, p, st, ob, fuel, exit - 1, env2)
    requires env2 == env.(brk := env2.brk) && HasLab(prog, env2.brk) && Pos(prog, env2.brk) == exit - 1
    requires forall st1: Mach<S> {:trigger Go(m, prog, exit - 1, st1, 1)} :: Go(m, prog, exit - 1, st1, 1) == (exit, st1)
    requires ob.Normal? ==> ob.seek == 0
    ensures Ends(m, prog, p, st, if ob.Broke? then St.Normal(0, ob.s, ob.fuel) else ob, fuel, exit, env)
  {
    hide Go;
    var before := exit - 1;
    if ob.Broke? {
      EndsFurther(m, prog, p, st, St.Normal(0, ob.s, ob.fuel), fuel, before, exit, 1, env);
    } else {
      EndsFurther(m, prog, p, st, ob, fuel, before, exit, 1, env2);
    }
  }

  // ----- Functions -----

  /** The statements of a function, with the block `return` goes to behind them. */
  function FunctionCode(ty: Types, ss: seq<St.Stmt>): Code {
    GenAll(ty, ss, 1, 0, Env(0, 0, 0)).0 + [Lab(0)]
  }

  lemma FunctionUnique(ty: Types, ss: seq<St.Stmt>)
    requires forall st | st in ss :: St.Valid(st, false, false, false)
    ensures Unique(FunctionCode(ty, ss))
  {
    var (code, n) := GenAll(ty, ss, 1, 0, Env(0, 0, 0));
    St.NoLabelsOf(ss, false, false);
    LowerLabels.GenAllLabels(ty, ss, 1, 0, Env(0, 0, 0), false, false, false);
    LowerLabels.LastLabel(code, 1, n, 0);
    LowerLabels.LabelledIsUnique(code + [Lab(0)], 0, n, 0, 0);
  }

  /**
   A function's blocks run to their end exactly when its statements end or
   return, and then in the same state; otherwise they run on, for as many steps
   as loop iterations are allowed.
   */
  lemma FunctionSim<S(!new)>(m: St.Sem<S>, ty: Types, ss: seq<St.Stmt>, st: Mach<S>, fuel: nat)
    requires AllTyped(m, ty) && forall x | x in ss :: WellTypedStmt(ty, x) && St.Valid(x, false, false, false)
    ensures var prog := FunctionCode(ty, ss);
            Unique(prog)
            && match St.RunStmts(m, ss, 0, st.s, fuel)
               case Normal(_, s, f) => Lands(m, prog, 0, st, |prog|, s, fuel - f)
               case Returned(s, f) => Lands(m, prog, 0, st, |prog|, s, fuel - f)
               case Timeout => Lasts(m, prog, 0, st, fuel)
               case _ => false
  {
    hide Ends, Lands, Lasts, Go, At, HasLab, Pos, Unique, AllTyped, WellTypedStmt, St.Valid, St.RunStmts, GenAll;
    var prog := FunctionCode(ty, ss);
    var (code, n) := GenAll(ty, ss, 1, 0, Env(0, 0, 0));
    var env := Env(0, 0, 0);
    var o := St.RunStmts(m, ss, 0, st.s, fuel);
    FunctionUnique(ty, ss);
    assert At(prog, 0, code) && prog[|code|] == Lab(0) by { CodeFirst(code, [Lab(0)]); }
    PosIs(prog, 0, |code|);
    St.NoLabelsOf(ss, false, false);
    assert EnvOk(prog, env, false, false);
    StmtsSim(m, ty, ss, 1, 0, env, false, false, false, 0, prog, 0, 0, st, fuel);
    St.FunctionOutcome(m, ss, st.s, fuel);
    LabelOn(m, prog, |code|, 0);
    EndsFurther(m, prog, 0, st, o, fuel, |code|, |prog|, 1, env);
    FunctionEnds(m, prog, st, o, fuel, |code|, env);
  }

  lemma CodeFirst(a: Code, b: Code)
    ensures At(a + b, 0, a)
  {
  }

  lemma FunctionEnds<S(!new)>(m: St.Sem<S>, prog: Code, st: Mach<S>, o: St.Out<S>, fuel: nat, last: nat, env: Env)
    requires Ends(m, prog, 0, st, o, fuel, |prog|, env) && !o.Broke? && !o.Continued? && (o.Normal? ==> o.seek == 0)
    requires last + 1 == |prog| && HasLab(prog, env.ret) && Pos(prog, env.ret) == last
    requires forall st1: Mach<S> {:trigger Go(m, prog, last, st1, 1)} :: Go(m, prog, last, st1, 1) == (|prog|, st1)
    ensures match o
            case Normal(_, s, f) => Lands(m, prog, 0, st, |prog|, s, fuel - f)
            case Returned(s, f) => Lands(m, prog, 0, st, |prog|, s, fuel - f)
            case Timeout => Lasts(m, prog, 0, st, fuel)
            case _ => false
  {
    hide Go, Pos, HasLab;
    if o.Returned? {
      EndsFurther(m, prog, 0, st, St.Normal(0, o.s, o.fuel), fuel, last, |prog|, 1, env);
    }
  }
}
