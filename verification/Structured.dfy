/**
 Statements as both back ends get them from the parser, and what they mean.
 Expressions are abstract: `eval` gives a value and a new state, `peek` reads the
 constant or variable a switch dispatches on, behind the effects of a `comma`.
 Comparisons are on integers; conditions have the shape `make_cond` leaves.
 */
module Structured {
  import opened Options

  datatype CmpKind = EQ | NE | LT | LE | GE | GT

  datatype Cond =
    | Fixnum(value: int)
    | Cmp(kind: CmpKind, lhs: nat, rhs: nat)
    | LogAnd(l: Cond, r: Cond)
    | LogOr(l: Cond, r: Cond)

  datatype Stmt =
    | Empty
    | ExprStmt(expr: nat)
    | Return(val: Option<nat>)
    | Block(stmts: seq<Stmt>)
    | If(cond: Cond, tblock: Stmt, fblock: Option<Stmt>)
    | Switch(comma: Option<nat>, value: nat, body: Stmt)
    | Case(case_: int)
    | Default
    | While(cond: Cond, body: Stmt)
    | DoWhile(body: Stmt, cond: Cond)
    | For(pre: Option<nat>, forCond: Option<Cond>, post: Option<nat>, body: Stmt)
    | Break
    | Continue

  /** `ret` stores the value of a `return`. */
  datatype Sem<!S> = Sem(eval: (nat, S) -> (int, S), peek: (nat, S) -> int, ret: (int, S) -> S)

  predicate Compare(kind: CmpKind, a: int, b: int) {
    match kind
    case EQ => a == b
    case NE => a != b
    case LT => a < b
    case LE => a <= b
    case GE => a >= b
    case GT => a > b
  }

  /** The comparison that is true when `kind` is false. */
  function InvertKind(kind: CmpKind): (r: CmpKind)
    ensures forall a, b :: Compare(r, a, b) == !Compare(kind, a, b)
  {
    match kind
    case EQ => NE
    case NE => EQ
    case LT => GE
    case LE => GT
    case GE => LT
    case GT => LE
  }

  /** Short-circuit evaluation, effects in source order. */
  function CondValue<S>(m: Sem<S>, c: Cond, s: S): (bool, S) {
    match c
    case Fixnum(v) => (v != 0, s)
    case Cmp(kind, lhs, rhs) =>
      var (a, s1) := m.eval(lhs, s);
      var (b, s2) := m.eval(rhs, s1);
      (Compare(kind, a, b), s2)
    case LogAnd(l, r) =>
      var (b, s1) := CondValue(m, l, s);
      if b then CondValue(m, r, s1) else (false, s1)
    case LogOr(l, r) =>
      var (b, s1) := CondValue(m, l, s);
      if b then (true, s1) else CondValue(m, r, s1)
  }

  function Effect<S>(m: Sem<S>, e: Option<nat>, s: S): S {
    match e
    case None => s
    case Some(x) => m.eval(x, s).1
  }

  // ----- Case labels -----

  /**
   The labels of the innermost switch around a statement, in textual order:
   `None` is `default`. They sit directly in the switch body or in plain blocks.
   */
  function Labels(stmt: Stmt): seq<Option<int>> {
    match stmt
    case Case(v) => [Some(v)]
    case Default => [None]
    case Block(ss) => LabelsOf(ss)
    case _ => []
  }

  function LabelsOf(ss: seq<Stmt>): seq<Option<int>> {
    if ss == [] then [] else Labels(ss[0]) + LabelsOf(ss[1..])
  }

  function FirstIndex(labels: seq<Option<int>>, x: Option<int>, i: nat): Option<nat>
    requires i <= |labels|
    ensures match FirstIndex(labels, x, i)
            case None => forall j | i <= j < |labels| :: labels[j] != x
            case Some(r) => i <= r < |labels| && labels[r] == x && forall j | i <= j < r :: labels[j] != x
    decreases |labels| - i
  {
    if i == |labels| then None else if labels[i] == x then Some(i) else FirstIndex(labels, x, i + 1)
  }

  /** The label a switch on `v` goes to: the matching case, else `default`, else none. */
  function Target(labels: seq<Option<int>>, v: int): Option<nat> {
    match FirstIndex(labels, Some(v), 0)
    case Some(i) => Some(i)
    case None => FirstIndex(labels, None, 0)
  }

  /** What is C, and what `traverse_case` accepts: what the parser does, less a loose `continue`. */
  predicate Valid(stmt: Stmt, canBreak: bool, canContinue: bool, inSwitch: bool) {
    match stmt
    case Empty | ExprStmt(_) | Return(_) => true
    case Block(ss) => forall st | st in ss :: Valid(st, canBreak, canContinue, inSwitch)
    case If(_, t, f) =>
      && Valid(t, canBreak, canContinue, false)
      && (f.Some? ==> Valid(f.value, canBreak, canContinue, false))
    case Switch(_, _, body) =>
      // The parser refuses a value twice, and a second `default`.
      && Valid(body, true, canContinue, true)
      && (forall i, j | 0 <= i < j < |Labels(body)| :: Labels(body)[i] != Labels(body)[j])
    case Case(_) | Default => inSwitch
    case While(_, body) => Valid(body, true, true, false)
    case DoWhile(body, _) => Valid(body, true, true, false)
    case For(_, _, _, body) => Valid(body, true, true, false)
    case Break => canBreak
    case Continue => canContinue
  }

  /** What the parser accepts: its flags for `break` and `continue` are one bit. */
  predicate Accepted(stmt: Stmt, flag: bool, inSwitch: bool) {
    match stmt
    case Empty | ExprStmt(_) | Return(_) => true
    case Block(ss) => forall st | st in ss :: Accepted(st, flag, inSwitch)
    case If(_, t, f) => Accepted(t, flag, false) && (f.Some? ==> Accepted(f.value, flag, false))
    case Switch(_, _, body) =>
      && Accepted(body, true, true)
      && (forall i, j | 0 <= i < j < |Labels(body)| :: Labels(body)[i] != Labels(body)[j])
    case Case(_) | Default => inSwitch
    case While(_, body) => Accepted(body, true, false)
    case DoWhile(body, _) => Accepted(body, true, false)
    case For(_, _, _, body) => Accepted(body, true, false)
    case Break | Continue => flag
  }

  /** A `continue` outside of loops. */
  predicate LooseContinue(stmt: Stmt) {
    match stmt
    case Continue => true
    case Block(ss) => exists st | st in ss :: LooseContinue(st)
    case If(_, t, f) => LooseContinue(t) || (f.Some? && LooseContinue(f.value))
    case Switch(_, _, body) => LooseContinue(body)
    case _ => false
  }

  /** What the parser accepts is valid exactly when no `continue` is loose where none may stand. */
  lemma {:induction false} ValidIffAccepted(stmt: Stmt, canBreak: bool, canContinue: bool, inSwitch: bool)
    requires canContinue ==> canBreak
    ensures Valid(stmt, canBreak, canContinue, inSwitch) <==> Accepted(stmt, canBreak, inSwitch) && (canContinue || !LooseContinue(stmt))
  {
    match stmt
    case Block(ss) =>
      forall st | st in ss ensures Valid(st, canBreak, canContinue, inSwitch) <==> Accepted(st, canBreak, inSwitch) && (canContinue || !LooseContinue(st)) {
        ValidIffAccepted(st, canBreak, canContinue, inSwitch);
      }
    case If(_, t, f) =>
      ValidIffAccepted(t, canBreak, canContinue, false);
      if f.Some? {
        ValidIffAccepted(f.value, canBreak, canContinue, false);
      }
    case Switch(_, _, body) => ValidIffAccepted(body, true, canContinue, true);
    case While(_, body) => ValidIffAccepted(body, true, true, false);
    case DoWhile(body, _) => ValidIffAccepted(body, true, true, false);
    case For(_, _, _, body) => ValidIffAccepted(body, true, true, false);
    case _ =>
  }

  /** Of a function that the parser accepts, a loose `continue` stands in a switch. */
  lemma SwitchLoose()
    ensures Accepted(Switch(None, 0, Continue), false, false) && !Valid(Switch(None, 0, Continue), false, false, false)
  {
    assert Labels(Continue) == [];
  }

  /** Outside a switch body no case label can occur. */
  lemma {:induction false} NoLabels(stmt: Stmt, canBreak: bool, canContinue: bool)
    requires Valid(stmt, canBreak, canContinue, false)
    ensures Labels(stmt) == []
    decreases stmt, 1
  {
    match stmt
    case Block(ss) => NoLabelsOf(ss, canBreak, canContinue);
    case _ =>
  }

  lemma {:induction false} NoLabelsOf(ss: seq<Stmt>, canBreak: bool, canContinue: bool)
    requires forall st | st in ss :: Valid(st, canBreak, canContinue, false)
    ensures LabelsOf(ss) == []
    decreases ss, 0
  {
    if ss != [] {
      NoLabels(ss[0], canBreak, canContinue);
      NoLabelsOf(ss[1..], canBreak, canContinue);
    }
  }

  // ----- Meaning -----

  /** How a statement ends; `fuel` counts the loop iterations still allowed. */
  datatype Out<S> =
    | Normal(seek: nat, s: S, fuel: nat)
    | Broke(s: S, fuel: nat)
    | Continued(s: S, fuel: nat)
    | Returned(s: S, fuel: nat)
    | Timeout

  /** The labels still to pass when `n` of `seek` have gone by. */
  function Past(seek: nat, n: nat): nat {
    if seek > n then seek - n else 0
  }

  /**
   Runs a statement. While `seek` is positive a switch is looking for its label:
   nothing runs until that many labels have been passed.
   */
  function Run<S>(m: Sem<S>, stmt: Stmt, seek: nat, s: S, fuel: nat): (o: Out<S>)
    ensures (o.Normal? || o.Broke? || o.Continued? || o.Returned?) ==> o.fuel <= fuel
    ensures o.Normal? ==> o.seek == Past(seek, |Labels(stmt)|)
    decreases fuel, stmt, 1
  {
    if seek > 0 then
      match stmt
      case Case(_) | Default => Normal(seek - 1, s, fuel)
      case Block(ss) => RunStmts(m, ss, seek, s, fuel)
      case _ => Normal(seek, s, fuel)
    else
      match stmt
      case Empty | Case(_) | Default => Normal(0, s, fuel)
      case ExprStmt(e) => Normal(0, m.eval(e, s).1, fuel)
      case Return(val) =>
        if val.Some? then
          var (v, s1) := m.eval(val.value, s);
          Returned(m.ret(v, s1), fuel)
        else Returned(s, fuel)
      case Block(ss) => RunStmts(m, ss, 0, s, fuel)
      case If(c, t, f) =>
        var (b, s1) := CondValue(m, c, s);
        if b then Run(m, t, 0, s1, fuel)
        else if f.Some? then Run(m, f.value, 0, s1, fuel)
        else Normal(0, s1, fuel)
      case Switch(comma, value, body) =>
        var s1 := Effect(m, comma, s);
        (match Target(Labels(body), m.peek(value, s1))
         case None => Normal(0, s1, fuel)
         case Some(i) =>
           match Run(m, body, i + 1, s1, fuel)
           case Normal(_, s2, f2) => Normal(0, s2, f2)
           case Broke(s2, f2) => Normal(0, s2, f2)
           case o => o)
      case While(c, body) =>
        var (b, s1) := CondValue(m, c, s);
        if !b then Normal(0, s1, fuel)
        else
          (match Run(m, body, 0, s1, fuel)
           case Normal(_, s2, f2) => if f2 == 0 then Timeout else Run(m, stmt, 0, s2, f2 - 1)
           case Continued(s2, f2) => if f2 == 0 then Timeout else Run(m, stmt, 0, s2, f2 - 1)
           case Broke(s2, f2) => Normal(0, s2, f2)
           case o => o)
      case DoWhile(body, c) =>
        (match Run(m, body, 0, s, fuel)
         case Normal(_, s2, f2) => Again(m, stmt, CondValue(m, c, s2), f2, fuel)
         case Continued(s2, f2) => Again(m, stmt, CondValue(m, c, s2), f2, fuel)
         case Broke(s2, f2) => Normal(0, s2, f2)
         case o => o)
      case For(pre, _, _, _) => RunFor(m, stmt, Effect(m, pre, s), fuel)
      case Break => Broke(s, fuel)
      case Continue => Continued(s, fuel)
  }

  /** The rest of a do-while loop once its condition has been evaluated. */
  function Again<S>(m: Sem<S>, stmt: Stmt, b: (bool, S), fuel: nat, bound: nat): (o: Out<S>)
    requires fuel <= bound
    ensures (o.Normal? || o.Broke? || o.Continued? || o.Returned?) ==> o.fuel <= fuel
    ensures o.Normal? ==> o.seek == 0
    decreases bound, stmt, 0
  {
    if !b.0 then Normal(0, b.1, fuel)
    else if fuel == 0 then Timeout
    else Run(m, stmt, 0, b.1, fuel - 1)
  }

  /** A for loop after its first expression. */
  function RunFor<S>(m: Sem<S>, stmt: Stmt, s: S, fuel: nat): (o: Out<S>)
    requires stmt.For?
    ensures (o.Normal? || o.Broke? || o.Continued? || o.Returned?) ==> o.fuel <= fuel
    ensures o.Normal? ==> o.seek == 0
    decreases fuel, stmt, 0
  {
    var (b, s1) := if stmt.forCond.Some? then CondValue(m, stmt.forCond.value, s) else (true, s);
    if !b then Normal(0, s1, fuel)
    else
      match Run(m, stmt.body, 0, s1, fuel)
      case Normal(_, s2, f2) => if f2 == 0 then Timeout else RunFor(m, stmt, Effect(m, stmt.post, s2), f2 - 1)
      case Continued(s2, f2) => if f2 == 0 then Timeout else RunFor(m, stmt, Effect(m, stmt.post, s2), f2 - 1)
      case Broke(s2, f2) => Normal(0, s2, f2)
      case o => o
  }

  function RunStmts<S>(m: Sem<S>, ss: seq<Stmt>, seek: nat, s: S, fuel: nat): (o: Out<S>)
    ensures (o.Normal? || o.Broke? || o.Continued? || o.Returned?) ==> o.fuel <= fuel
    ensures o.Normal? ==> o.seek == Past(seek, |LabelsOf(ss)|)
    decreases fuel, ss, 0
  {
    if ss == [] then Normal(seek, s, fuel)
    else
      match Run(m, ss[0], seek, s, fuel)
      case Normal(seek1, s1, f1) => RunStmts(m, ss[1..], seek1, s1, f1)
      case o => o
  }

  /** A switch looking for a label behind a statement passes over it. */
  lemma {:induction false} PassesOver<S>(m: Sem<S>, stmt: Stmt, k: nat, s: S, fuel: nat)
    requires k > |Labels(stmt)|
    ensures Run(m, stmt, k, s, fuel) == Normal(k - |Labels(stmt)|, s, fuel)
    decreases stmt, 1
  {
    match stmt
    case Block(ss) => PassesOverAll(m, ss, k, s, fuel);
    case _ =>
  }

  lemma {:induction false} PassesOverAll<S>(m: Sem<S>, ss: seq<Stmt>, k: nat, s: S, fuel: nat)
    requires k > |LabelsOf(ss)|
    ensures RunStmts(m, ss, k, s, fuel) == Normal(k - |LabelsOf(ss)|, s, fuel)
    decreases ss, 0
  {
    if ss != [] {
      PassesOver(m, ss[0], k, s, fuel);
      PassesOverAll(m, ss[1..], k - |Labels(ss[0])|, s, fuel);
    }
  }

  /** `break` ends no more than the construct it belongs to, and nor does a `continue` in a loop. */
  lemma {:induction false} NoStray<S>(m: Sem<S>, stmt: Stmt, flag: bool, inSwitch: bool, k: nat, s: S, fuel: nat)
    requires Accepted(stmt, flag, inSwitch)
    ensures var o := Run(m, stmt, k, s, fuel); (o.Broke? ==> flag) && (o.Continued? ==> LooseContinue(stmt))
    decreases fuel, stmt, 2
  {
    hide CondValue;
    match stmt
    case Block(ss) => NoStrayIn(m, ss, flag, inSwitch, k, s, fuel);
    case If(c, t, f) =>
      var (b, s1) := CondValue(m, c, s);
      if b {
        NoStray(m, t, flag, false, 0, s1, fuel);
      } else if f.Some? {
        NoStray(m, f.value, flag, false, 0, s1, fuel);
      }
    case Switch(comma, value, body) =>
      var s1 := Effect(m, comma, s);
      var target := Target(Labels(body), m.peek(value, s1));
      if target.Some? {
        NoStray(m, body, true, true, target.value + 1, s1, fuel);
      }
    case While(_, _) => NoStrayLoop(m, stmt, s, fuel);
    case DoWhile(_, _) => NoStrayLoop(m, stmt, s, fuel);
    case For(pre, _, _, _) => NoStrayFor(m, stmt, Effect(m, pre, s), fuel);
    case _ =>
  }

  lemma {:induction false} NoStrayLoop<S>(m: Sem<S>, stmt: Stmt, s: S, fuel: nat)
    requires stmt.While? || stmt.DoWhile?
    ensures var o := Run(m, stmt, 0, s, fuel); !o.Broke? && !o.Continued?
    decreases fuel, stmt, 0
  {
    hide CondValue;
    var s1 := if stmt.While? then CondValue(m, stmt.cond, s).1 else s;
    var o := Run(m, stmt.body, 0, s1, fuel);
    if (o.Normal? || o.Continued?) && o.fuel > 0 {
      var s2 := if stmt.While? then o.s else CondValue(m, stmt.cond, o.s).1;
      NoStrayLoop(m, stmt, s2, o.fuel - 1);
    }
  }

  lemma {:induction false} NoStrayFor<S>(m: Sem<S>, stmt: Stmt, s: S, fuel: nat)
    requires stmt.For?
    ensures var o := RunFor(m, stmt, s, fuel); !o.Broke? && !o.Continued?
    decreases fuel, stmt, 0
  {
    hide CondValue;
    var s1 := if stmt.forCond.Some? then CondValue(m, stmt.forCond.value, s).1 else s;
    var o := Run(m, stmt.body, 0, s1, fuel);
    if (o.Normal? || o.Continued?) && o.fuel > 0 {
      NoStrayFor(m, stmt, Effect(m, stmt.post, o.s), o.fuel - 1);
    }
  }

  lemma {:induction false} NoStrayIn<S>(m: Sem<S>, ss: seq<Stmt>, flag: bool, inSwitch: bool, k: nat, s: S, fuel: nat)
    requires forall st | st in ss :: Accepted(st, flag, inSwitch)
    ensures var o := RunStmts(m, ss, k, s, fuel); (o.Broke? ==> flag) && (o.Continued? ==> exists st | st in ss :: LooseContinue(st))
    decreases fuel, ss, 1
  {
    hide Run;
    if ss != [] {
      NoStray(m, ss[0], flag, inSwitch, k, s, fuel);
      var o := Run(m, ss[0], k, s, fuel);
      if o.Normal? {
        NoStrayIn(m, ss[1..], flag, inSwitch, o.seek, o.s, o.fuel);
      }
    }
  }

  /** So a function's statements neither break nor continue when they are valid. */
  lemma FunctionOutcome<S>(m: Sem<S>, ss: seq<Stmt>, s: S, fuel: nat)
    requires forall st | st in ss :: Valid(st, false, false, false)
    ensures var o := RunStmts(m, ss, 0, s, fuel); !o.Broke? && !o.Continued?
  {
    hide Run;
    forall st | st in ss ensures Accepted(st, false, false) && !LooseContinue(st) {
      ValidIffAccepted(st, false, false, false);
    }
    NoStrayIn(m, ss, false, false, 0, s, fuel);
  }
}
