/**
 The emitted code of every statement, run from inside any nest of constructs,
 ends as the statement does.
 */
module WasmTheorem {
  import opened Options
  import opened Structured
  import opened WasmCode
  import opened WasmGen
  import opened WasmSim
  import opened WasmCond

  /** Constructs opened by statements: nothing below them on the stack, no results. */
  ghost predicate Flat(labels: seq<Label>) {
    forall i | 0 <= i < |labels| :: labels[i].height == 0 && labels[i].arity == 0
  }

  /** The innermost `k` constructs are blocks, one for each label still to come. */
  ghost predicate Blocks(labels: seq<Label>, k: nat) {
    k <= |labels| && forall i | 0 <= i < k :: labels[i].loop == None
  }

  /** `break` and `continue` refer to constructs that outlive the statement. */
  ghost predicate Ready(k: nat, labels: seq<Label>, brk: nat, cont: nat) {
    Flat(labels) && Blocks(labels, k) && k + brk < |labels| && k + cont < |labels|
  }

  /** Whether every depth `break` and `continue` write fits the one byte they use. */
  predicate Fits(stmt: Stmt, depth: nat, brk: nat, cont: nat)
    decreases stmt, 1
  {
    match stmt
    case Block(ss) => AllFit(ss, depth, brk, cont)
    case If(_, t, f) => Fits(t, depth + 1, brk, cont) && (f.Some? ==> Fits(f.value, depth + 1, brk, cont))
    case Switch(_, _, body) => Fits(body, depth + |Labels(body)| + 1, depth, cont)
    case While(_, body) => Fits(body, depth + 2, depth, depth + 1)
    case DoWhile(body, _) => Fits(body, depth + 3, depth, depth + 2)
    case For(_, _, _, body) => Fits(body, depth + 3, depth, depth + 2)
    case Break => depth - brk <= 128
    case Continue => depth - cont <= 128
    case _ => true
  }

  predicate AllFit(ss: seq<Stmt>, depth: nat, brk: nat, cont: nat)
    decreases ss, 0
  {
    ss == [] || (Fits(ss[0], depth, brk, cont) && AllFit(ss[1..], DepthAfter(ss[0], depth), brk, cont))
  }

  /** Starts code at its beginning, or behind its `k`-th label by a branch. */
  ghost function Enter<S>(m: Sem<S>, code: Code, labels: seq<Label>, k: nat, s: S, fuel: nat): Res<S> {
    if k == 0 then Exec(m, code, labels, [], s, fuel) else Branch(m, code, labels, k - 1, [], s, fuel)
  }

  /** What running goes on with after a statement that ended as `o` tells. */
  ghost function Resume<S>(m: Sem<S>, o: Out<S>, rest: Code, labels: seq<Label>, brk: nat, cont: nat): Res<S>
    requires brk < |labels| && cont < |labels|
  {
    match o
    case Normal(k, s, f) => Enter(m, rest, labels, k, s, f)
    case Broke(s, f) => Branch(m, rest, labels, |labels| - brk - 1, [], s, f)
    case Continued(s, f) => Branch(m, rest, labels, |labels| - cont - 1, [], s, f)
    case Returned(s, f) => Branch(m, rest, labels, |labels| - 1, [], s, f)
    case Timeout => OutOfFuel
  }

  // ----- Branches -----

  lemma BranchThrough<S>(m: Sem<S>, c: Code, k: nat, rest: Code, labels: seq<Label>, n: nat, s: S, fuel: nat)
    requires Closes(c, k) && k <= n && k <= |labels|
    ensures Branch(m, c + rest, labels, n, [], s, fuel) == Branch(m, rest, labels[k..], n - k, [], s, fuel)
  {
    hide Exec, Closes;
    ClosesAt(c, k, rest, n, false);
    if n < |labels| {
      assert labels[k..][n - k] == labels[n];
      assert labels[k..][n - k..] == labels[n..];
      assert labels[k..][n - k + 1..] == labels[n + 1..];
    }
  }

  /** A branch to a block leaves it behind its `end`. */
  lemma BranchOut<S>(m: Sem<S>, c: Code, k: nat, rest: Code, labels: seq<Label>, s: S, fuel: nat)
    requires Closes(c, k) && Flat(labels) && k < |labels| && labels[k].loop == None
    ensures Branch(m, c + ([TEnd] + rest), labels, k, [], s, fuel) == Exec(m, rest, labels[k + 1..], [], s, fuel)
  {
    hide Exec, Closes;
    ClosesAt(c, k, [TEnd] + rest, k, false);
    Head(TEnd, rest);
  }

  lemma BrStep<S>(m: Sem<S>, to: nat, imm: seq<nat>, n: nat, rest: Code, labels: seq<Label>, s: S, fuel: nat)
    requires DecodeUleb128(imm) == Some(n)
    ensures Exec(m, [TBr(to, imm)] + rest, labels, [], s, fuel) == Branch(m, rest, labels, n, [], s, fuel)
  {
    Head(TBr(to, imm), rest);
  }

  lemma BlockStep<S>(m: Sem<S>, rest: Code, labels: seq<Label>, s: S, fuel: nat)
    ensures Exec(m, [TBlock] + rest, labels, [], s, fuel) == Exec(m, rest, [Label(0, 0, None)] + labels, [], s, fuel)
  {
    Head(TBlock, rest);
  }

  lemma LoopStep<S>(m: Sem<S>, rest: Code, labels: seq<Label>, s: S, fuel: nat)
    ensures Exec(m, [TLoop] + rest, labels, [], s, fuel) == Exec(m, rest, [Label(0, 0, Some(rest))] + labels, [], s, fuel)
  {
    Head(TLoop, rest);
  }

  lemma DropStep<S>(m: Sem<S>, e: Option<nat>, rest: Code, labels: seq<Label>, s: S, fuel: nat)
    ensures Exec(m, Drops(e) + rest, labels, [], s, fuel) == Exec(m, rest, labels, [], Effect(m, e, s), fuel)
  {
    if e.Some? {
      Head(TDrop(e.value), rest);
    } else {
      assert Drops(e) + rest == rest;
    }
  }

  lemma CondJmpExec<S>(m: Sem<S>, c: Cond, n: nat, rest: Code, labels: seq<Label>, s: S, fuel: nat)
    ensures var (v, s1) := CondValue(m, c, s);
            Exec(m, CondJmp(c, false, n) + rest, labels, [], s, fuel) ==
            if v then Exec(m, rest, labels, [], s1, fuel) else Branch(m, rest, labels, n, [], s1, fuel)
  {
    var (v, s1) := CondValue(m, c, s);
    var t := BrIf(n);
    assert CondJmp(c, false, n) + rest == CondCode(c, false) + ([t] + rest);
    CondExec(m, c, false, [t] + rest, labels, [], s, fuel);
    UlebRoundTrip(n);
    BrIfStep(m, n, !v, rest, labels, s1, fuel);
    assert [] + [Bool(!v)] == [Bool(!v)];
  }

  lemma BrIfStep<S>(m: Sem<S>, n: nat, v: bool, rest: Code, labels: seq<Label>, s: S, fuel: nat)
    ensures Exec(m, [BrIf(n)] + rest, labels, [Bool(v)], s, fuel)
         == if v then Branch(m, rest, labels, n, [], s, fuel) else Exec(m, rest, labels, [], s, fuel)
  {
    hide Uleb128, DecodeUleb128;
    UlebRoundTrip(n);
    Head(BrIf(n), rest);
    assert [Bool(v)][..0] == [];
  }

  // ----- Loops -----

  /** The constructs inside a loop whose code starts at `start`. */
  function InLoop(start: Code, labels: seq<Label>): seq<Label> {
    [Label(0, 0, Some(start)), Label(0, 0, None)] + labels
  }

  function InBody(start: Code, labels: seq<Label>): seq<Label> {
    [Label(0, 0, None)] + InLoop(start, labels)
  }

  ghost function Loop<S>(m: Sem<S>, start: Code, labels: seq<Label>, s: S, fuel: nat): Res<S> {
    if fuel == 0 then OutOfFuel else Exec(m, start, InLoop(start, labels), [], s, fuel - 1)
  }

  lemma LoopBack<S>(m: Sem<S>, start: Code, rest: Code, labels: seq<Label>, s: S, fuel: nat)
    ensures Branch(m, rest, InLoop(start, labels), 0, [], s, fuel) == Loop(m, start, labels, s, fuel)
    ensures Exec(m, LOOP_END + rest, InLoop(start, labels), [], s, fuel) == Loop(m, start, labels, s, fuel)
  {
    hide Exec;
    var L := InLoop(start, labels);
    forall code: Code
      ensures Branch(m, code, L, 0, [], s, fuel) == Loop(m, start, labels, s, fuel)
    {
      assert L[0..] == L;
    }
    assert LOOP_END + rest == [TBr(0, [0])] + ([TEnd, TEnd] + rest);
    BrStep(m, 0, [0], 0, [TEnd, TEnd] + rest, L, s, fuel);
  }

  /** Leaving a loop whose remaining code is `c` and its end. */
  lemma LoopOut<S>(m: Sem<S>, c: Code, start: Code, rest: Code, labels: seq<Label>, s: S, fuel: nat)
    requires Closes(c, 0) && Flat(labels)
    ensures Branch(m, c + (LOOP_END + rest), InLoop(start, labels), 1, [], s, fuel) == Exec(m, rest, labels, [], s, fuel)
  {
    hide Exec, Branch, Closes;
    ClosesPlain(TBr(0, [0]));
    ClosesEnd();
    ClosesJoin([TBr(0, [0])], 0, [TEnd], 1);
    ClosesJoin(c, 0, [TBr(0, [0])] + [TEnd], 1);
    assert c + (LOOP_END + rest) == (c + ([TBr(0, [0])] + [TEnd])) + ([TEnd] + rest);
    var L := InLoop(start, labels);
    assert Flat(L) && L[2..] == labels;
    BranchOut(m, c + ([TBr(0, [0])] + [TEnd]), 1, rest, L, s, fuel);
  }

  /** A branch out of the function from inside a loop. */
  lemma LoopReturn<S>(m: Sem<S>, c: Code, start: Code, rest: Code, labels: seq<Label>, s: S, fuel: nat)
    requires Closes(c, 0) && |labels| > 0
    ensures Branch(m, c + (LOOP_END + rest), InLoop(start, labels), |labels| + 1, [], s, fuel)
         == Branch(m, rest, labels, |labels| - 1, [], s, fuel)
  {
    hide Exec, Branch, Closes;
    LoopEndCloses();
    ClosesJoin(c, 0, LOOP_END, 2);
    assert c + (LOOP_END + rest) == (c + LOOP_END) + rest;
    assert InLoop(start, labels)[2..] == labels;
    BranchThrough(m, c + LOOP_END, 2, rest, InLoop(start, labels), |labels| + 1, s, fuel);
  }

  /** Where a loop goes on after its body: at `next`, which ends with the back edge, or out of the loop. */
  ghost function Behind<S>(m: Sem<S>, o: Out<S>, next: Code, start: Code, rest: Code, labels: seq<Label>): Res<S>
    requires |labels| > 0
  {
    match o
    case Normal(_, s, f) => Exec(m, next, InLoop(start, labels), [], s, f)
    case Continued(s, f) => Exec(m, next, InLoop(start, labels), [], s, f)
    case Broke(s, f) => Exec(m, rest, labels, [], s, f)
    case Returned(s, f) => Branch(m, rest, labels, |labels| - 1, [], s, f)
    case Timeout => OutOfFuel
  }

  /** Behind the body of a while loop. */
  lemma AfterWhileBody<S>(m: Sem<S>, o: Out<S>, start: Code, rest: Code, labels: seq<Label>)
    requires Flat(labels) && |labels| > 0
    requires o.Normal? ==> o.seek == 0
    ensures Resume(m, o, LOOP_END + rest, InLoop(start, labels), |labels|, |labels| + 1) == Behind(m, o, LOOP_END + rest, start, rest, labels)
  {
    hide Exec, Branch, Closes, Loop, LOOP_END;
    ClosesNothing();
    assert [] + (LOOP_END + rest) == LOOP_END + rest;
    match o
    case Normal(_, s, f) => LoopBack(m, start, rest, labels, s, f);
    case Continued(s, f) =>
      LoopBack(m, start, LOOP_END + rest, labels, s, f);
      LoopBack(m, start, rest, labels, s, f);
    case Broke(s, f) => LoopOut(m, [], start, rest, labels, s, f);
    case Returned(s, f) => LoopReturn(m, [], start, rest, labels, s, f);
    case Timeout =>
  }

  /** Behind the body of a do or for loop: `next` is its condition or last expression. */
  lemma AfterBody<S>(m: Sem<S>, o: Out<S>, next: Code, start: Code, rest: Code, labels: seq<Label>)
    requires Flat(labels) && |labels| > 0 && Closes(next, 0)
    requires o.Normal? ==> o.seek == 0
    ensures Resume(m, o, [TEnd] + (next + (LOOP_END + rest)), InBody(start, labels), |labels|, |labels| + 2)
         == Behind(m, o, next + (LOOP_END + rest), start, rest, labels)
  {
    hide Exec, Branch, Closes, LOOP_END;
    var L := InBody(start, labels);
    var tail := next + (LOOP_END + rest);
    assert Flat(L) && L[1..] == InLoop(start, labels);
    ClosesNothing();
    ClosesEnd();
    match o
    case Normal(_, s, f) => EndStep(m, tail, L[0], InLoop(start, labels), [], s, f);
    case Continued(s, f) =>
      BranchOut(m, [], 0, tail, L, s, f);
      assert [] + ([TEnd] + tail) == [TEnd] + tail;
    case Broke(s, f) =>
      BranchThrough(m, [TEnd], 1, tail, L, 2, s, f);
      LoopOut(m, next, start, rest, labels, s, f);
    case Returned(s, f) =>
      BranchThrough(m, [TEnd], 1, tail, L, |labels| + 2, s, f);
      LoopReturn(m, next, start, rest, labels, s, f);
    case Timeout =>
  }

  lemma EnterLoop<S>(m: Sem<S>, code: Code, rest: Code, labels: seq<Label>, s: S, fuel: nat)
    ensures Exec(m, ([TBlock, TLoop] + code) + rest, labels, [], s, fuel)
         == Exec(m, code + rest, InLoop(code + rest, labels), [], s, fuel)
  {
    hide Exec;
    assert ([TBlock, TLoop] + code) + rest == [TBlock] + ([TLoop] + (code + rest));
    BlockStep(m, [TLoop] + (code + rest), labels, s, fuel);
    LoopStep(m, code + rest, [Label(0, 0, None)] + labels, s, fuel);
    assert [Label(0, 0, Some(code + rest))] + ([Label(0, 0, None)] + labels) == InLoop(code + rest, labels);
  }

  lemma ReadyInLoop(start: Code, labels: seq<Label>)
    requires Flat(labels)
    ensures Ready(0, InLoop(start, labels), |labels|, |labels| + 1)
    ensures Ready(0, InBody(start, labels), |labels|, |labels| + 2)
    ensures |InLoop(start, labels)| == |labels| + 2 && |InBody(start, labels)| == |labels| + 3
    ensures InLoop(start, labels)[0..] == InLoop(start, labels) && InBody(start, labels)[0..] == InBody(start, labels)
  {
  }

  // ----- Statements -----

  function WhileStart(c: Cond, b: Code, rest: Code): Code {
    CondJmp(c, false, 1) + (b + (LOOP_END + rest))
  }

  lemma {:induction false} WhileSim<S>(m: Sem<S>, stmt: Stmt, rest: Code, labels: seq<Label>, brk: nat, cont: nat, s: S, fuel: nat)
    requires stmt.While? && Valid(stmt.body, true, true, false) && Fits(stmt.body, |labels| + 2, |labels|, |labels| + 1)
    requires Ready(0, labels, brk, cont)
    ensures var start := WhileStart(stmt.cond, Emit(stmt.body, |labels| + 2, |labels|, |labels| + 1), rest);
            Exec(m, start, InLoop(start, labels), [], s, fuel) == Resume(m, Run(m, stmt, 0, s, fuel), rest, labels, brk, cont)
    decreases fuel, stmt, 0
  {
    hide Exec, Branch, Closes, Emit, LOOP_END, Valid, Fits, InLoop, CondJmp;
    var n := |labels|;
    var b := Emit(stmt.body, n + 2, n, n + 1);
    var start := WhileStart(stmt.cond, b, rest);
    var L := InLoop(start, labels);
    var (v, s1) := CondValue(m, stmt.cond, s);
    CondJmpExec(m, stmt.cond, 1, b + (LOOP_END + rest), L, s, fuel);
    NoLabels(stmt.body, true, true);
    ReadyInLoop(start, labels);
    if !v {
      EmitCloses(stmt.body, n + 2, n, n + 1, true, true, false);
      LoopOut(m, b, start, rest, labels, s1, fuel);
    } else {
      var o := Run(m, stmt.body, 0, s1, fuel);
      StmtSim(m, stmt.body, n, n + 1, true, true, false, 0, LOOP_END + rest, L, s1, fuel);
      AfterWhileBody(m, o, start, rest, labels);
      if o.Normal? || o.Continued? {
        LoopBack(m, start, rest, labels, o.s, o.fuel);
        if o.fuel > 0 {
          WhileSim(m, stmt, rest, labels, brk, cont, o.s, o.fuel - 1);
        }
      }
    }
  }

  function DoStart(b: Code, c: Cond, rest: Code): Code {
    [TBlock] + (b + ([TEnd] + (CondJmp(c, false, 1) + (LOOP_END + rest))))
  }

  lemma {:induction false} DoWhileSim<S>(m: Sem<S>, stmt: Stmt, rest: Code, labels: seq<Label>, brk: nat, cont: nat, s: S, fuel: nat)
    requires stmt.DoWhile? && Valid(stmt.body, true, true, false) && Fits(stmt.body, |labels| + 3, |labels|, |labels| + 2)
    requires Ready(0, labels, brk, cont)
    ensures var start := DoStart(Emit(stmt.body, |labels| + 3, |labels|, |labels| + 2), stmt.cond, rest);
            Exec(m, start, InLoop(start, labels), [], s, fuel) == Resume(m, Run(m, stmt, 0, s, fuel), rest, labels, brk, cont)
    decreases fuel, stmt, 0
  {
    hide Exec, Branch, Closes, Emit, LOOP_END, Valid, Fits, InLoop, CondJmp;
    var n := |labels|;
    var b := Emit(stmt.body, n + 3, n, n + 2);
    var start := DoStart(b, stmt.cond, rest);
    var next := CondJmp(stmt.cond, false, 1);
    var tail := [TEnd] + (next + (LOOP_END + rest));
    var L := InLoop(start, labels);
    BlockStep(m, b + tail, L, s, fuel);
    NoLabels(stmt.body, true, true);
    ReadyInLoop(start, labels);
    StmtSim(m, stmt.body, n, n + 2, true, true, false, 0, tail, InBody(start, labels), s, fuel);
    CondJmpCloses(stmt.cond, false, 1);
    var o := Run(m, stmt.body, 0, s, fuel);
    AfterBody(m, o, next, start, rest, labels);
    if o.Normal? || o.Continued? {
      var (v, s1) := CondValue(m, stmt.cond, o.s);
      CondJmpExec(m, stmt.cond, 1, LOOP_END + rest, L, o.s, o.fuel);
      if v {
        LoopBack(m, start, rest, labels, s1, o.fuel);
        if o.fuel > 0 {
          DoWhileSim(m, stmt, rest, labels, brk, cont, s1, o.fuel - 1);
        }
      } else {
        ClosesNothing();
        assert [] + (LOOP_END + rest) == LOOP_END + rest;
        LoopOut(m, [], start, rest, labels, s1, o.fuel);
      }
    }
  }

  function ForStart(c: Option<Cond>, post: Option<nat>, b: Code, rest: Code): Code {
    [TBlock] + (ForTest(c) + (b + ([TEnd] + (Drops(post) + (LOOP_END + rest)))))
  }

  lemma {:induction false} ForSim<S>(m: Sem<S>, stmt: Stmt, rest: Code, labels: seq<Label>, brk: nat, cont: nat, s: S, fuel: nat)
    requires stmt.For? && Valid(stmt.body, true, true, false) && Fits(stmt.body, |labels| + 3, |labels|, |labels| + 2)
    requires Ready(0, labels, brk, cont)
    ensures var start := ForStart(stmt.forCond, stmt.post, Emit(stmt.body, |labels| + 3, |labels|, |labels| + 2), rest);
            Exec(m, start, InLoop(start, labels), [], s, fuel) == Resume(m, RunFor(m, stmt, s, fuel), rest, labels, brk, cont)
    decreases fuel, stmt, 0
  {
    hide Exec, Branch, Closes, Emit, LOOP_END, Valid, Fits, InLoop, ForTest, Drops;
    var n := |labels|;
    var b := Emit(stmt.body, n + 3, n, n + 2);
    var start := ForStart(stmt.forCond, stmt.post, b, rest);
    var next := Drops(stmt.post);
    var tail := [TEnd] + (next + (LOOP_END + rest));
    var L := InBody(start, labels);
    BlockStep(m, ForTest(stmt.forCond) + (b + tail), InLoop(start, labels), s, fuel);
    NoLabels(stmt.body, true, true);
    ReadyInLoop(start, labels);
    ForTestExec(m, stmt.forCond, b + tail, L, s, fuel);
    DropsClose(stmt.post);
    var (v, s1) := if stmt.forCond.Some? then CondValue(m, stmt.forCond.value, s) else (true, s);
    if v {
      StmtSim(m, stmt.body, n, n + 2, true, true, false, 0, tail, L, s1, fuel);
      var o := Run(m, stmt.body, 0, s1, fuel);
      AfterBody(m, o, next, start, rest, labels);
      if o.Normal? || o.Continued? {
        DropStep(m, stmt.post, LOOP_END + rest, InLoop(start, labels), o.s, o.fuel);
        var s2 := Effect(m, stmt.post, o.s);
        LoopBack(m, start, rest, labels, s2, o.fuel);
        if o.fuel > 0 {
          ForSim(m, stmt, rest, labels, brk, cont, s2, o.fuel - 1);
        }
      }
    } else {
      EmitCloses(stmt.body, n + 3, n, n + 2, true, true, false);
      BranchThrough(m, b, 0, tail, L, 2, s1, fuel);
      AfterBody(m, Broke(s1, fuel), next, start, rest, labels);
    }
  }

  lemma ForTestExec<S>(m: Sem<S>, c: Option<Cond>, rest: Code, labels: seq<Label>, s: S, fuel: nat)
    ensures var (v, s1) := if c.Some? then CondValue(m, c.value, s) else (true, s);
            Exec(m, ForTest(c) + rest, labels, [], s, fuel) ==
            if v then Exec(m, rest, labels, [], s1, fuel) else Branch(m, rest, labels, 2, [], s1, fuel)
  {
    hide Exec, Branch, CondJmp;
    if c.Some? {
      CondJmpExec(m, c.value, 2, rest, labels, s, fuel);
    } else {
      assert ForTest(c) + rest == rest;
    }
  }

  // ----- If -----

  const FLAT: Label := Label(0, 0, None)

  /** Behind a statement inside one block, whose remaining code is `c`. */
  lemma AfterBlock<S>(m: Sem<S>, o: Out<S>, c: Code, rest: Code, labels: seq<Label>, brk: nat, cont: nat)
    requires Closes(c, 1) && brk < |labels| && cont < |labels|
    requires o.Normal? ==> o.seek == 0 && Exec(m, c + rest, [FLAT] + labels, [], o.s, o.fuel) == Exec(m, rest, labels, [], o.s, o.fuel)
    ensures Resume(m, o, c + rest, [FLAT] + labels, brk, cont) == Resume(m, o, rest, labels, brk, cont)
  {
    hide Exec, Branch, Closes;
    var L := [FLAT] + labels;
    assert L[1..] == labels;
    match o
    case Broke(s, f) => BranchThrough(m, c, 1, rest, L, |L| - brk - 1, s, f);
    case Continued(s, f) => BranchThrough(m, c, 1, rest, L, |L| - cont - 1, s, f);
    case Returned(s, f) => BranchThrough(m, c, 1, rest, L, |L| - 1, s, f);
    case _ =>
  }

  lemma ClosesElse(f: Code)
    requires Closes(f, 0)
    ensures Closes([TElse] + (f + [TEnd]), 1)
  {
    forall rest: Code, n: nat, e: bool | n >= 1
      ensures SkipTo(([TElse] + (f + [TEnd])) + rest, n, e) == SkipTo(rest, n - 1, e)
    {
      assert ([TElse] + (f + [TEnd])) + rest == [TElse] + (f + ([TEnd] + rest));
      Head(TElse, f + ([TEnd] + rest));
      ClosesAt(f, 0, [TEnd] + rest, n, e);
      Head(TEnd, rest);
    }
  }

  lemma IfOnlyStep<S>(m: Sem<S>, v: bool, t: Code, rest: Code, labels: seq<Label>, s: S, fuel: nat)
    requires Closes(t, 0)
    ensures Exec(m, [TIf(0)] + (t + ([TEnd] + rest)), labels, [Bool(v)], s, fuel)
         == if v then Exec(m, t + ([TEnd] + rest), [FLAT] + labels, [], s, fuel) else Exec(m, rest, labels, [], s, fuel)
  {
    Head(TIf(0), t + ([TEnd] + rest));
    assert [Bool(v)][..0] == [];
    if !v {
      ClosesAt(t, 0, [TEnd] + rest, 0, true);
      Head(TEnd, rest);
    }
  }

  lemma IfOnlySim<S>(m: Sem<S>, c: Cond, t: Code, rest: Code, labels: seq<Label>, brk: nat, cont: nat, s: S, fuel: nat, o: Out<S>)
    requires Closes(t, 0) && brk < |labels| && cont < |labels|
    requires o.Normal? ==> o.seek == 0
    requires var (v, s1) := CondValue(m, c, s);
             if v then Exec(m, t + ([TEnd] + rest), [FLAT] + labels, [], s1, fuel) == Resume(m, o, [TEnd] + rest, [FLAT] + labels, brk, cont)
             else o == Normal(0, s1, fuel)
    ensures Exec(m, IfCode(c, t, None) + rest, labels, [], s, fuel) == Resume(m, o, rest, labels, brk, cont)
  {
    hide Exec, Branch, Closes, CondCode;
    var (v, s1) := CondValue(m, c, s);
    var tail := [TIf(0)] + (t + ([TEnd] + rest));
    assert IfCode(c, t, None) + rest == CondCode(c, true) + tail;
    CondExec(m, c, true, tail, labels, [], s, fuel);
    assert [] + [Bool(v == true)] == [Bool(v)];
    IfOnlyStep(m, v, t, rest, labels, s1, fuel);
    if v {
      ClosesEnd();
      if o.Normal? {
        EndStep(m, rest, FLAT, labels, [], o.s, o.fuel);
      }
      AfterBlock(m, o, [TEnd], rest, labels, brk, cont);
    }
  }

  lemma IfElseSim<S>(m: Sem<S>, c: Cond, t: Code, f: Code, rest: Code, labels: seq<Label>, brk: nat, cont: nat, s: S, fuel: nat, o: Out<S>)
    requires Closes(t, 0) && Closes(f, 0) && brk < |labels| && cont < |labels|
    requires o.Normal? ==> o.seek == 0
    requires var (v, s1) := CondValue(m, c, s);
             var after := if v then [TElse] + (f + ([TEnd] + rest)) else [TEnd] + rest;
             Exec(m, (if v then t else f) + after, [FLAT] + labels, [], s1, fuel) == Resume(m, o, after, [FLAT] + labels, brk, cont)
    ensures Exec(m, IfCode(c, t, Some(f)) + rest, labels, [], s, fuel) == Resume(m, o, rest, labels, brk, cont)
  {
    hide Exec, Branch, Closes, CondCode, Resume;
    var (v, s1) := CondValue(m, c, s);
    var tail := [TIf(0)] + (t + ([TElse] + (f + ([TEnd] + rest))));
    assert IfCode(c, t, Some(f)) + rest == CondCode(c, true) + tail;
    CondExec(m, c, true, tail, labels, [], s, fuel);
    assert [] + [Bool(v == true)] == [] + [Bool(v)];
    IfStep(m, 0, v, t, f, rest, labels, [], s1, fuel);
    var end := if v then [TElse] + (f + [TEnd]) else [TEnd];
    if v {
      ClosesElse(f);
      assert end + rest == [TElse] + (f + ([TEnd] + rest));
    } else {
      ClosesEnd();
    }
    if o.Normal? {
      if v {
        ElseStep(m, f, rest, FLAT, labels, [], o.s, o.fuel);
      } else {
        EndStep(m, rest, FLAT, labels, [], o.s, o.fuel);
      }
    }
    AfterBlock(m, o, end, rest, labels, brk, cont);
  }

  // ----- Switch -----

  /** The tests go to the first label with the value; without one they fall out at the end. */
  lemma {:induction false} DispatchExec<S>(m: Sem<S>, cases: seq<Option<int>>, value: nat, i: nat, rest: Code, labels: seq<Label>, s: S, fuel: nat)
    requires i <= |cases|
    ensures var hit := FirstIndex(cases, Some(m.peek(value, s)), i);
            Exec(m, Dispatch(cases, value, i) + rest, labels, [], s, fuel) ==
            if hit.Some? then Branch(m, rest, labels, hit.value, [], s, fuel) else Exec(m, rest, labels, [], s, fuel)
    decreases |cases| - i
  {
    hide Exec, Branch, Uleb128;
    if i == |cases| {
      assert Dispatch(cases, value, i) + rest == rest;
    } else {
      var more := Dispatch(cases, value, i + 1);
      DispatchExec(m, cases, value, i + 1, rest, labels, s, fuel);
      match cases[i]
      case None => assert Dispatch(cases, value, i) == more;
      case Some(v) =>
        var br := [BrIf(i)];
        assert Dispatch(cases, value, i) + rest == [TPeek(value)] + ([TConst(v)] + ([TEq] + (br + (more + rest))));
        TestExec(m, value, v, br + (more + rest), labels, s, fuel);
        BrIfStep(m, i, m.peek(value, s) == v, more + rest, labels, s, fuel);
        DispatchCloses(cases, value, i + 1);
        BranchThrough(m, more, 0, rest, labels, i, s, fuel);
        assert labels[0..] == labels;
    }
  }

  lemma TestExec<S>(m: Sem<S>, value: nat, v: int, rest: Code, labels: seq<Label>, s: S, fuel: nat)
    ensures Exec(m, [TPeek(value)] + ([TConst(v)] + ([TEq] + rest)), labels, [], s, fuel)
         == Exec(m, rest, labels, [Bool(m.peek(value, s) == v)], s, fuel)
  {
    var x := m.peek(value, s);
    Head(TPeek(value), [TConst(v)] + ([TEq] + rest));
    assert [] + [x] == [x] && [x] + [v] == [x, v];
    Head(TConst(v), [TEq] + rest);
    EqStep(m, x, v, rest, labels, s, fuel);
  }

  lemma EqStep<S>(m: Sem<S>, x: int, v: int, rest: Code, labels: seq<Label>, s: S, fuel: nat)
    ensures Exec(m, [TEq] + rest, labels, [x, v], s, fuel) == Exec(m, rest, labels, [Bool(x == v)], s, fuel)
  {
    Head(TEq, rest);
    assert [x, v][..|[x, v]| - 2] + [Bool(x == v)] == [Bool(x == v)];
  }

  /** With one `default` at most, the last found is the first. */
  lemma {:induction false} DefaultIsFirst(cases: seq<Option<int>>, n: nat)
    requires n <= |cases|
    requires forall i, j | 0 <= i < j < |cases| :: cases[i].Some? || cases[j].Some?
    ensures var d := DefaultIndex(cases, n);
            if d < |cases| then d < n && cases[d] == None && FirstIndex(cases, None, 0) == Some(d)
            else d == |cases| && forall i | 0 <= i < n :: cases[i].Some?
  {
    if n > 0 && cases[n - 1] != None {
      DefaultIsFirst(cases, n - 1);
    }
  }

  function Copies(n: nat): (c: seq<Label>)
    ensures |c| == n && forall i | 0 <= i < n :: c[i] == FLAT
  {
    if n == 0 then [] else [FLAT] + Copies(n - 1)
  }

  lemma {:induction false} RepeatExec<S>(m: Sem<S>, n: nat, rest: Code, labels: seq<Label>, s: S, fuel: nat)
    ensures Exec(m, Repeat(TBlock, n) + rest, labels, [], s, fuel) == Exec(m, rest, Copies(n) + labels, [], s, fuel)
    decreases n
  {
    hide Exec;
    if n == 0 {
      assert Repeat(TBlock, n) + rest == rest && Copies(n) + labels == labels;
    } else {
      assert Repeat(TBlock, n) + rest == [TBlock] + (Repeat(TBlock, n - 1) + rest);
      BlockStep(m, Repeat(TBlock, n - 1) + rest, labels, s, fuel);
      RepeatExec(m, n - 1, rest, [FLAT] + labels, s, fuel);
      assert Copies(n - 1) + ([FLAT] + labels) == Copies(n) + labels;
    }
  }

  /** The head of a switch ends as a branch to the label its value selects, or behind the whole. */
  lemma SwitchHead<S>(m: Sem<S>, comma: Option<nat>, value: nat, cases: seq<Option<int>>, b: Code, rest: Code, labels: seq<Label>, s: S, fuel: nat)
    requires Closes(b, |cases|) && Flat(labels)
    requires forall i, j | 0 <= i < j < |cases| :: cases[i].Some? || cases[j].Some?
    ensures var s1 := Effect(m, comma, s);
            var target := Target(cases, m.peek(value, s1));
            Exec(m, SwitchCode(comma, value, cases, b) + rest, labels, [], s, fuel) ==
            if target.Some? then Enter(m, b + ([TEnd] + rest), Copies(|cases|) + ([FLAT] + labels), target.value + 1, s1, fuel)
            else Exec(m, rest, labels, [], s1, fuel)
  {
    hide Exec, Branch, Closes, Uleb128, Drops, Dispatch, DefaultIndex, FirstIndex, Repeat, Copies;
    var n, s1 := |cases|, Effect(m, comma, s);
    var v := m.peek(value, s1);
    var d := DefaultIndex(cases, n);
    var L := Copies(n) + ([FLAT] + labels);
    var body := b + ([TEnd] + rest);
    var br := [Br(d)];
    SwitchShape(comma, value, cases, b, rest);
    BlockStep(m, Repeat(TBlock, n) + (Drops(comma) + (Dispatch(cases, value, 0) + (br + body))), labels, s, fuel);
    RepeatExec(m, n, Drops(comma) + (Dispatch(cases, value, 0) + (br + body)), [FLAT] + labels, s, fuel);
    DropStep(m, comma, Dispatch(cases, value, 0) + (br + body), L, s, fuel);
    DispatchExec(m, cases, value, 0, br + body, L, s1, fuel);
    DefaultIsFirst(cases, n);
    var hit := FirstIndex(cases, Some(v), 0);
    if hit.Some? {
      ClosesPlain(br[0]);
      BranchThrough(m, br, 0, body, L, hit.value, s1, fuel);
      assert L[0..] == L;
    } else {
      UlebRoundTrip(d);
      BrStep(m, d, Uleb128(d), d, body, L, s1, fuel);
      if d == n {
        assert L[n] == FLAT && L[n + 1..] == labels;
        assert FirstIndex(cases, None, 0) == None by {
          NoDefault(cases);
        }
        BranchOut(m, b, n, rest, L, s1, fuel);
      }
    }
  }

  lemma NoDefault(cases: seq<Option<int>>)
    requires forall i | 0 <= i < |cases| :: cases[i].Some?
    ensures FirstIndex(cases, None, 0) == None
  {
  }

  lemma SwitchShape(comma: Option<nat>, value: nat, cases: seq<Option<int>>, b: Code, rest: Code)
    ensures var d := [Br(DefaultIndex(cases, |cases|))];
            SwitchCode(comma, value, cases, b) + rest ==
            [TBlock] + (Repeat(TBlock, |cases|) + (Drops(comma) + (Dispatch(cases, value, 0) + (d + (b + ([TEnd] + rest))))))
  {
    hide *;
    var d := [Br(DefaultIndex(cases, |cases|))];
    var r, p, q := Repeat(TBlock, |cases|), Drops(comma), Dispatch(cases, value, 0);
    assert SwitchCode(comma, value, cases, b) == [TBlock] + (r + (p + (q + (d + (b + [TEnd]))))) by {
      SwitchCodeIs(comma, value, cases, b);
    }
    Reassociate([TBlock], r, p, q, d, b, [TEnd], rest);
  }

  lemma SwitchCodeIs(comma: Option<nat>, value: nat, cases: seq<Option<int>>, b: Code)
    ensures SwitchCode(comma, value, cases, b)
         == [TBlock] + (Repeat(TBlock, |cases|) + (Drops(comma) + (Dispatch(cases, value, 0) + ([Br(DefaultIndex(cases, |cases|))] + (b + [TEnd])))))
  {
  }

  lemma Reassociate(a: Code, b: Code, c: Code, d: Code, e: Code, f: Code, g: Code, rest: Code)
    ensures (a + (b + (c + (d + (e + (f + g)))))) + rest == a + (b + (c + (d + (e + (f + (g + rest))))))
  {
  }

  lemma ReadySwitch(n: nat, labels: seq<Label>, cont: nat)
    requires Flat(labels) && cont < |labels|
    ensures Ready(n, Copies(n) + ([FLAT] + labels), |labels|, cont)
    ensures (Copies(n) + ([FLAT] + labels))[n..] == [FLAT] + labels
  {
  }

  /** Behind the body of a switch. */
  lemma AfterSwitchBody<S>(m: Sem<S>, o: Out<S>, rest: Code, labels: seq<Label>, brk: nat, cont: nat)
    requires Flat(labels) && brk < |labels| && cont < |labels|
    requires o.Normal? ==> o.seek == 0
    ensures var after := if o.Broke? then Normal(0, o.s, o.fuel) else o;
            Resume(m, o, [TEnd] + rest, [FLAT] + labels, |labels|, cont) == Resume(m, after, rest, labels, brk, cont)
  {
    hide Exec, Branch, Closes;
    if o.Broke? {
      ClosesNothing();
      BranchOut(m, [], 0, rest, [FLAT] + labels, o.s, o.fuel);
      assert [] + ([TEnd] + rest) == [TEnd] + rest;
    } else {
      ClosesEnd();
      if o.Normal? {
        EndStep(m, rest, FLAT, labels, [], o.s, o.fuel);
      }
      AfterBlock(m, o, [TEnd], rest, labels, brk, cont);
    }
  }

  // ----- All statements -----

  lemma ReturnExec<S>(m: Sem<S>, val: Option<nat>, rest: Code, labels: seq<Label>, s: S, fuel: nat)
    requires |labels| > 0
    ensures var s1 := if val.Some? then var (v, s') := m.eval(val.value, s); m.ret(v, s') else s;
            Exec(m, ReturnCode(val, |labels|) + rest, labels, [], s, fuel) == Branch(m, rest, labels, |labels| - 1, [], s1, fuel)
  {
    hide Branch, Uleb128;
    var br := [Br(|labels| - 1)];
    UlebRoundTrip(|labels| - 1);
    if val.Some? {
      var (v, s1) := m.eval(val.value, s);
      assert ReturnCode(val, |labels|) + rest == [TEval(val.value)] + ([TSetRet] + (br + rest));
      Head(TEval(val.value), [TSetRet] + (br + rest));
      Head(TSetRet, br + rest);
      assert [] + [v] == [v] && [v][..0] == [];
      BrStep(m, |labels| - 1, Uleb128(|labels| - 1), |labels| - 1, rest, labels, m.ret(v, s1), fuel);
    } else {
      assert ReturnCode(val, |labels|) == br;
      BrStep(m, |labels| - 1, Uleb128(|labels| - 1), |labels| - 1, rest, labels, s, fuel);
    }
  }

  lemma RawBrExec<S>(m: Sem<S>, target: nat, rest: Code, labels: seq<Label>, s: S, fuel: nat)
    requires target < |labels| <= target + 128
    ensures Exec(m, RawBr(|labels|, target) + rest, labels, [], s, fuel) == Branch(m, rest, labels, |labels| - target - 1, [], s, fuel)
  {
    hide Exec, Branch;
    RawByteReads(|labels| - target - 1);
    BrStep(m, |labels| - target - 1, RawByte(|labels| - target - 1), |labels| - target - 1, rest, labels, s, fuel);
  }

  /** A `case` or `default` label. */
  lemma LabelSim<S>(m: Sem<S>, k: nat, rest: Code, labels: seq<Label>, s: S, fuel: nat)
    requires Flat(labels) && Blocks(labels, 1)
    ensures Enter(m, [TEnd] + rest, labels, k, s, fuel) == Enter(m, rest, labels[1..], Past(k, 1), s, fuel)
  {
    hide Exec, Branch, Closes;
    assert labels == [labels[0]] + labels[1..];
    if k == 0 {
      EndStep(m, rest, labels[0], labels[1..], [], s, fuel);
    } else if k == 1 {
      ClosesNothing();
      BranchOut(m, [], 0, rest, labels, s, fuel);
      assert [] + ([TEnd] + rest) == [TEnd] + rest;
    } else {
      ClosesEnd();
      BranchThrough(m, [TEnd], 1, rest, labels, k - 1, s, fuel);
    }
  }

  /** The code of a statement, entered at its start or behind its `k`-th label, ends as the statement run from there does. */
  lemma {:induction false} StmtSim<S>(m: Sem<S>, stmt: Stmt, brk: nat, cont: nat, canBreak: bool, canContinue: bool, inSwitch: bool, k: nat, rest: Code, labels: seq<Label>, s: S, fuel: nat)
    requires Valid(stmt, canBreak, canContinue, inSwitch) && Fits(stmt, |labels|, brk, cont)
    requires Ready(|Labels(stmt)|, labels, brk, cont)
    ensures Enter(m, Emit(stmt, |labels|, brk, cont) + rest, labels, k, s, fuel)
         == Resume(m, Run(m, stmt, k, s, fuel), rest, labels[|Labels(stmt)|..], brk, cont)
    decreases fuel, stmt, 3
  {
    hide Exec, Branch, Closes, Enter, IfCode, WhileCode, DoWhileCode, ForCode, SwitchCode, ReturnCode, RawBr, Target, CondValue;
    if stmt.Case? || stmt.Default? {
      LabelSim(m, k, rest, labels, s, fuel);
    } else if stmt.Block? {
      StmtsSim(m, stmt.stmts, brk, cont, canBreak, canContinue, inSwitch, k, rest, labels, s, fuel);
    } else {
      assert labels[0..] == labels;
      if k > 0 {
        EmitCloses(stmt, |labels|, brk, cont, canBreak, canContinue, inSwitch);
        EnterThrough(m, Emit(stmt, |labels|, brk, cont), 0, rest, labels, k, s, fuel);
      } else {
        EnterStart(m, Emit(stmt, |labels|, brk, cont) + rest, labels, s, fuel);
        PlainSim(m, stmt, brk, cont, canBreak, canContinue, inSwitch, rest, labels, s, fuel);
      }
    }
  }

  lemma EnterStart<S>(m: Sem<S>, code: Code, labels: seq<Label>, s: S, fuel: nat)
    ensures Enter(m, code, labels, 0, s, fuel) == Exec(m, code, labels, [], s, fuel)
  {
  }

  lemma EnterThrough<S>(m: Sem<S>, c: Code, n: nat, rest: Code, labels: seq<Label>, k: nat, s: S, fuel: nat)
    requires Closes(c, n) && k > n && n <= |labels|
    ensures Enter(m, c + rest, labels, k, s, fuel) == Enter(m, rest, labels[n..], k - n, s, fuel)
  {
    BranchThrough(m, c, n, rest, labels, k - 1, s, fuel);
  }

  lemma {:induction false} StmtsSim<S>(m: Sem<S>, ss: seq<Stmt>, brk: nat, cont: nat, canBreak: bool, canContinue: bool, inSwitch: bool, k: nat, rest: Code, labels: seq<Label>, s: S, fuel: nat)
    requires (forall st | st in ss :: Valid(st, canBreak, canContinue, inSwitch)) && AllFit(ss, |labels|, brk, cont)
    requires Ready(|LabelsOf(ss)|, labels, brk, cont)
    ensures Enter(m, EmitAll(ss, |labels|, brk, cont) + rest, labels, k, s, fuel)
         == Resume(m, RunStmts(m, ss, k, s, fuel), rest, labels[|LabelsOf(ss)|..], brk, cont)
    decreases fuel, ss, 1
  {
    hide Exec, Branch, Enter, Closes, Emit, Run, Valid, Fits;
    if ss == [] {
      assert EmitAll(ss, |labels|, brk, cont) + rest == rest && labels[0..] == labels;
    } else {
      var n := |Labels(ss[0])|;
      var more := EmitAll(ss[1..], |labels| - n, brk, cont);
      var L := labels[n..];
      assert EmitAll(ss, |labels|, brk, cont) + rest == Emit(ss[0], |labels|, brk, cont) + (more + rest);
      StmtSim(m, ss[0], brk, cont, canBreak, canContinue, inSwitch, k, more + rest, labels, s, fuel);
      var o := Run(m, ss[0], k, s, fuel);
      assert L[|LabelsOf(ss[1..])|..] == labels[|LabelsOf(ss)|..];
      if o.Normal? {
        StmtsSim(m, ss[1..], brk, cont, canBreak, canContinue, inSwitch, o.seek, rest, L, o.s, o.fuel);
      } else {
        AllCloses(ss[1..], brk, cont, canBreak, canContinue, inSwitch, |L|);
        ResumeThrough(m, o, more, |LabelsOf(ss[1..])|, rest, L, brk, cont);
      }
    }
  }

  lemma AllCloses(ss: seq<Stmt>, brk: nat, cont: nat, canBreak: bool, canContinue: bool, inSwitch: bool, depth: nat)
    requires forall st | st in ss :: Valid(st, canBreak, canContinue, inSwitch)
    ensures Closes(EmitAll(ss, depth, brk, cont), |LabelsOf(ss)|)
  {
    EmitAllCloses(ss, depth, brk, cont, canBreak, canContinue, inSwitch);
  }

  /** A statement that leaves skips the code behind it. */
  lemma ResumeThrough<S>(m: Sem<S>, o: Out<S>, c: Code, n: nat, rest: Code, labels: seq<Label>, brk: nat, cont: nat)
    requires Closes(c, n) && n + brk < |labels| && n + cont < |labels| && !o.Normal?
    ensures Resume(m, o, c + rest, labels, brk, cont) == Resume(m, o, rest, labels[n..], brk, cont)
  {
    hide Exec, Branch, Closes;
    match o
    case Broke(s, f) => BranchThrough(m, c, n, rest, labels, |labels| - brk - 1, s, f);
    case Continued(s, f) => BranchThrough(m, c, n, rest, labels, |labels| - cont - 1, s, f);
    case Returned(s, f) => BranchThrough(m, c, n, rest, labels, |labels| - 1, s, f);
    case _ =>
  }

  /** A statement other than a label or a block, from its start. */
  lemma {:induction false} PlainSim<S>(m: Sem<S>, stmt: Stmt, brk: nat, cont: nat, canBreak: bool, canContinue: bool, inSwitch: bool, rest: Code, labels: seq<Label>, s: S, fuel: nat)
    requires !stmt.Case? && !stmt.Default? && !stmt.Block?
    requires Valid(stmt, canBreak, canContinue, inSwitch) && Fits(stmt, |labels|, brk, cont)
    requires Ready(0, labels, brk, cont)
    ensures Exec(m, Emit(stmt, |labels|, brk, cont) + rest, labels, [], s, fuel)
         == Resume(m, Run(m, stmt, 0, s, fuel), rest, labels, brk, cont)
    decreases fuel, stmt, 2
  {
    hide Exec, Branch, Closes, Target, CondValue, Uleb128, RunFor, Resume, Emit, Run;
    if stmt.If? {
      IfSim(m, stmt, brk, cont, canBreak, canContinue, rest, labels, s, fuel);
    } else if stmt.Switch? {
      SwitchSim(m, stmt, brk, cont, canContinue, rest, labels, s, fuel);
    } else if stmt.While? || stmt.DoWhile? || stmt.For? {
      LoopSim(m, stmt, brk, cont, rest, labels, s, fuel);
    } else {
      SimpleSim(m, stmt, brk, cont, rest, labels, s, fuel);
    }
  }

  lemma SimpleSim<S>(m: Sem<S>, stmt: Stmt, brk: nat, cont: nat, rest: Code, labels: seq<Label>, s: S, fuel: nat)
    requires stmt.Empty? || stmt.ExprStmt? || stmt.Return? || stmt.Break? || stmt.Continue?
    requires Fits(stmt, |labels|, brk, cont) && Ready(0, labels, brk, cont)
    ensures Exec(m, Emit(stmt, |labels|, brk, cont) + rest, labels, [], s, fuel)
         == Resume(m, Run(m, stmt, 0, s, fuel), rest, labels, brk, cont)
  {
    hide Exec, Branch, RawBr, ReturnCode;
    match stmt
    case Empty => assert [] + rest == rest;
    case ExprStmt(e) => DropStep(m, Some(e), rest, labels, s, fuel);
    case Return(val) => ReturnExec(m, val, rest, labels, s, fuel);
    case Break => RawBrExec(m, brk, rest, labels, s, fuel);
    case Continue => RawBrExec(m, cont, rest, labels, s, fuel);
  }

  lemma {:induction false} IfSim<S>(m: Sem<S>, stmt: Stmt, brk: nat, cont: nat, canBreak: bool, canContinue: bool, rest: Code, labels: seq<Label>, s: S, fuel: nat)
    requires stmt.If? && Valid(stmt, canBreak, canContinue, false) && Fits(stmt, |labels|, brk, cont)
    requires Ready(0, labels, brk, cont)
    ensures Exec(m, Emit(stmt, |labels|, brk, cont) + rest, labels, [], s, fuel)
         == Resume(m, Run(m, stmt, 0, s, fuel), rest, labels, brk, cont)
    decreases fuel, stmt, 0
  {
    hide Exec, Branch, Closes, CondValue, Resume, IfCode;
    var (v, s1) := CondValue(m, stmt.cond, s);
    var L := [FLAT] + labels;
    var t := Emit(stmt.tblock, |L|, brk, cont);
    var o := Run(m, stmt, 0, s, fuel);
    NoLabels(stmt.tblock, canBreak, canContinue);
    EmitCloses(stmt.tblock, |L|, brk, cont, canBreak, canContinue, false);
    assert L[0..] == L;
    if stmt.fblock.Some? {
      var f := Emit(stmt.fblock.value, |L|, brk, cont);
      NoLabels(stmt.fblock.value, canBreak, canContinue);
      EmitCloses(stmt.fblock.value, |L|, brk, cont, canBreak, canContinue, false);
      var after := if v then [TElse] + (f + ([TEnd] + rest)) else [TEnd] + rest;
      BranchSim(m, if v then stmt.tblock else stmt.fblock.value, brk, cont, canBreak, canContinue, after, L, s1, fuel);
      IfElseSim(m, stmt.cond, t, f, rest, labels, brk, cont, s, fuel, o);
    } else {
      if v {
        BranchSim(m, stmt.tblock, brk, cont, canBreak, canContinue, [TEnd] + rest, L, s1, fuel);
      }
      IfOnlySim(m, stmt.cond, t, rest, labels, brk, cont, s, fuel, o);
    }
  }

  /** A statement without labels, from its start. */
  lemma {:induction false} BranchSim<S>(m: Sem<S>, stmt: Stmt, brk: nat, cont: nat, canBreak: bool, canContinue: bool, rest: Code, labels: seq<Label>, s: S, fuel: nat)
    requires Valid(stmt, canBreak, canContinue, false) && Fits(stmt, |labels|, brk, cont)
    requires Ready(0, labels, brk, cont)
    ensures Exec(m, Emit(stmt, |labels|, brk, cont) + rest, labels, [], s, fuel)
         == Resume(m, Run(m, stmt, 0, s, fuel), rest, labels, brk, cont)
    decreases fuel, stmt, 4
  {
    hide Exec, Branch, Resume, Emit, Run;
    NoLabels(stmt, canBreak, canContinue);
    assert labels[0..] == labels;
    StmtSim(m, stmt, brk, cont, canBreak, canContinue, false, 0, rest, labels, s, fuel);
  }

  lemma {:induction false} SwitchSim<S>(m: Sem<S>, stmt: Stmt, brk: nat, cont: nat, canContinue: bool, rest: Code, labels: seq<Label>, s: S, fuel: nat)
    requires stmt.Switch? && Valid(stmt, true, canContinue, false) && Fits(stmt, |labels|, brk, cont)
    requires Ready(0, labels, brk, cont)
    ensures Exec(m, Emit(stmt, |labels|, brk, cont) + rest, labels, [], s, fuel)
         == Resume(m, Run(m, stmt, 0, s, fuel), rest, labels, brk, cont)
    decreases fuel, stmt, 0
  {
    hide Exec, Branch, Closes, Resume, Target, SwitchCode, Copies;
    var cases := Labels(stmt.body);
    var n, d := |cases|, |labels|;
    var L := Copies(n) + ([FLAT] + labels);
    var b := Emit(stmt.body, |L|, d, cont);
    var s1 := Effect(m, stmt.comma, s);
    var target := Target(cases, m.peek(stmt.value, s1));
    EmitCloses(stmt.body, |L|, d, cont, true, canContinue, true);
    SwitchHead(m, stmt.comma, stmt.value, cases, b, rest, labels, s, fuel);
    if target.Some? {
      ReadySwitch(n, labels, cont);
      StmtSim(m, stmt.body, d, cont, true, canContinue, true, target.value + 1, [TEnd] + rest, L, s1, fuel);
      var o := Run(m, stmt.body, target.value + 1, s1, fuel);
      TargetInRange(cases, m.peek(stmt.value, s1));
      AfterSwitchBody(m, o, rest, labels, brk, cont);
    } else {
      NormalIs(m, rest, labels, brk, cont, s1, fuel);
    }
  }

  lemma TargetInRange(cases: seq<Option<int>>, v: int)
    ensures Target(cases, v).Some? ==> Target(cases, v).value < |cases|
  {
  }

  lemma NormalIs<S>(m: Sem<S>, rest: Code, labels: seq<Label>, brk: nat, cont: nat, s: S, fuel: nat)
    requires brk < |labels| && cont < |labels|
    ensures Resume(m, Normal(0, s, fuel), rest, labels, brk, cont) == Exec(m, rest, labels, [], s, fuel)
  {
  }

  lemma {:induction false} LoopSim<S>(m: Sem<S>, stmt: Stmt, brk: nat, cont: nat, rest: Code, labels: seq<Label>, s: S, fuel: nat)
    requires (stmt.While? || stmt.DoWhile? || stmt.For?) && Valid(stmt.body, true, true, false) && Fits(stmt, |labels|, brk, cont)
    requires Ready(0, labels, brk, cont)
    ensures Exec(m, Emit(stmt, |labels|, brk, cont) + rest, labels, [], s, fuel)
         == Resume(m, Run(m, stmt, 0, s, fuel), rest, labels, brk, cont)
    decreases fuel, stmt, 1
  {
    hide Exec, Branch, Closes, Resume, CondJmp, ForTest, Drops, LOOP_END, InLoop, Valid, CondValue;
    var n := |labels|;
    match stmt
    case While(c, body) =>
      var b := Emit(body, n + 2, n, n + 1);
      var code := CondJmp(c, false, 1) + (b + LOOP_END);
      assert code + rest == WhileStart(c, b, rest);
      EnterLoop(m, code, rest, labels, s, fuel);
      WhileSim(m, stmt, rest, labels, brk, cont, s, fuel);
    case DoWhile(body, c) =>
      var b := Emit(body, n + 3, n, n + 2);
      var inner := b + ([TEnd] + (CondJmp(c, false, 1) + LOOP_END));
      var code := [TBlock] + inner;
      assert [TBlock, TLoop, TBlock] + inner == [TBlock, TLoop] + code;
      assert code + rest == DoStart(b, c, rest);
      EnterLoop(m, code, rest, labels, s, fuel);
      DoWhileSim(m, stmt, rest, labels, brk, cont, s, fuel);
    case For(pre, c, post, body) =>
      var b := Emit(body, n + 3, n, n + 2);
      var inner := ForTest(c) + (b + ([TEnd] + (Drops(post) + LOOP_END)));
      var code := [TBlock] + inner;
      var loop := [TBlock, TLoop, TBlock] + inner;
      assert loop == [TBlock, TLoop] + code;
      assert (Drops(pre) + loop) + rest == Drops(pre) + (loop + rest);
      assert code + rest == ForStart(c, post, b, rest);
      var s1 := Effect(m, pre, s);
      DropStep(m, pre, loop + rest, labels, s, fuel);
      EnterLoop(m, code, rest, labels, s1, fuel);
      ForSim(m, stmt, rest, labels, brk, cont, s1, fuel);
  }
}
