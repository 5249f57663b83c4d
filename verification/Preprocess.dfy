/**
 Conditional inclusion in the preprocessor: two flags and a stack, against the
 nested groups of section 6.10.1 of ISO/IEC 9899:2011. `Text` stands for every
 other line, directives such as `#define` included, that acts when it is enabled;
 conditions read the macros as they are and change nothing.
 */
module Preprocess {
  import opened Options

  /** What an `#if`, `#ifdef` or `#ifndef` line tests. */
  datatype Test = Defined(name: nat) | Undefined(name: nat) | NonZero(expr: nat)

  datatype Line = Text(id: nat) | If(test: Test) | Elif(expr: nat) | Else | Endif

  datatype Sem<!S> = Sem(act: (nat, S) -> S, defined: (nat, S) -> bool, value: (nat, S) -> int)

  predicate Holds<S>(m: Sem<S>, t: Test, s: S) {
    match t
    case Defined(n) => m.defined(n, s)
    case Undefined(n) => !m.defined(n, s)
    case NonZero(e) => m.value(e, s) != 0
  }

  // ----- The machine -----

  /** `cond_value`: both flags in one number. */
  function CondValue(enable: bool, satisfy: nat): nat {
    (if enable then 1 else 0) + 2 * satisfy
  }

  function EnableOf(flag: nat): bool {
    flag % 2 != 0
  }

  function SatisfyOf(flag: nat): nat {
    flag / 2 % 4
  }

  lemma CondValueReads(enable: bool, satisfy: nat)
    requires satisfy <= 2
    ensures EnableOf(CondValue(enable, satisfy)) == enable && SatisfyOf(CondValue(enable, satisfy)) == satisfy
  {
  }

  /** `satisfy`: 0 no group selected yet, 1 one has been, 2 behind `#else`. `out` has an entry per line, blank unless it was processed. */
  datatype Pp<S> = Pp(enable: bool, satisfy: nat, stack: seq<nat>, s: S, out: seq<Option<nat>>)

  /** One line; `None` for the errors. */
  function Step<S>(m: Sem<S>, line: Line, p: Pp<S>): Option<Pp<S>> {
    match line
    case Text(id) =>
      if p.enable then Some(p.(s := m.act(id, p.s), out := p.out + [Some(id)])) else Some(p.(out := p.out + [None]))
    case If(t) =>
      var satisfy := if Holds(m, t, p.s) then 1 else 0;
      Some(Pp(p.enable && satisfy == 1, satisfy, p.stack + [CondValue(p.enable, p.satisfy)], p.s, p.out + [None]))
    case Elif(e) =>
      if p.stack == [] || p.satisfy == 2 then None
      else
        var cond := p.satisfy == 0 && m.value(e, p.s) != 0;
        Some(p.(satisfy := if cond then 1 else p.satisfy,
                enable := !p.enable && cond && EnableOf(p.stack[|p.stack| - 1]), out := p.out + [None]))
    case Else =>
      if p.stack == [] || p.satisfy == 2 then None
      else Some(p.(enable := !p.enable && p.satisfy == 0 && EnableOf(p.stack[|p.stack| - 1]), satisfy := 2, out := p.out + [None]))
    case Endif =>
      if p.stack == [] then None
      else
        var flag := p.stack[|p.stack| - 1];
        Some(Pp(EnableOf(flag), SatisfyOf(flag), p.stack[..|p.stack| - 1], p.s, p.out + [None]))
  }

  function Run<S>(m: Sem<S>, lines: seq<Line>, p: Pp<S>): Option<Pp<S>> {
    if lines == [] then Some(p)
    else
      match Step(m, lines[0], p)
      case None => None
      case Some(p1) => Run(m, lines[1..], p1)
  }

  /** A whole file; every `#if` must be closed. */
  function RunFile<S>(m: Sem<S>, lines: seq<Line>, s: S): Option<Pp<S>> {
    match Run(m, lines, Pp(true, 0, [], s, []))
    case None => None
    case Some(p) => if p.stack == [] then Some(p) else None
  }

  /** The loop of `preprocess`. */
  method PreprocessFile<S>(m: Sem<S>, lines: seq<Line>, s0: S) returns (ok: bool, s: S, out: seq<Option<nat>>)
    ensures var r := RunFile(m, lines, s0);
            ok == r.Some? && (ok ==> s == r.value.s && out == r.value.out)
  {
    var condstack: seq<nat> := [];
    var enable: bool, satisfy: nat := true, 0;
    s, out := s0, [];
    for i := 0 to |lines|
      invariant Run(m, lines[i..], Pp(enable, satisfy, condstack, s, out)) == Run(m, lines, Pp(true, 0, [], s0, []))
    {
      assert lines[i..][0] == lines[i] && lines[i..][1..] == lines[i + 1..];
      var last := |condstack| - 1;
      match lines[i] {
        case Text(id) =>
          if enable {
            s := m.act(id, s);
            out := out + [Some(id)];
          } else {
            out := out + [None];
          }
        case If(t) =>
          condstack := condstack + [CondValue(enable, satisfy)];
          satisfy := if Holds(m, t, s) then 1 else 0;
          enable := enable && satisfy == 1;
          out := out + [None];
        case Elif(e) =>
          if last < 0 || satisfy == 2 {
            return false, s, out;
          }
          var cond := false;
          if satisfy == 0 {
            cond := m.value(e, s) != 0;
            if cond {
              satisfy := 1;
            }
          }
          enable := !enable && cond && EnableOf(condstack[last]);
          out := out + [None];
        case Else =>
          if last < 0 || satisfy == 2 {
            return false, s, out;
          }
          enable := !enable && satisfy == 0 && EnableOf(condstack[last]);
          satisfy := 2;
          out := out + [None];
        case Endif =>
          if last < 0 {
            return false, s, out;
          }
          var flag := condstack[last];
          enable, satisfy := EnableOf(flag), SatisfyOf(flag);
          condstack := condstack[..last];
          out := out + [None];
      }
    }
    ok := condstack == [];
  }

  // ----- Nested groups -----

  datatype Node = NText(id: nat) | NIf(test: Test, body: seq<Node>, elifs: seq<Part>, els: ElsePart)

  datatype Part = Part(expr: nat, body: seq<Node>)

  datatype ElsePart = NoElse | ElseGroup(body: seq<Node>)

  function Flatten(g: seq<Node>): seq<Line>
    decreases g, 0
  {
    if g == [] then [] else FlattenNode(g[0]) + Flatten(g[1..])
  }

  function FlattenNode(n: Node): seq<Line>
    decreases n, 2
  {
    match n
    case NText(id) => [Text(id)]
    case NIf(t, body, elifs, els) =>
      [If(t)] + (Flatten(body) + (FlattenParts(elifs) + (FlattenElse(els) + [Endif])))
  }

  function FlattenParts(parts: seq<Part>): seq<Line>
    decreases parts, 0
  {
    if parts == [] then [] else FlattenPart(parts[0]) + FlattenParts(parts[1..])
  }

  function FlattenElse(els: ElsePart): seq<Line>
    decreases els, 2
  {
    match els
    case NoElse => []
    case ElseGroup(body) => [Else] + Flatten(body)
  }

  function FlattenPart(part: Part): seq<Line>
    decreases part, 2
  {
    [Elif(part.expr)] + Flatten(part.body)
  }

  /** The first of the conditions that holds, counted from `i`; all of them are tested in the state ahead of the first group. */
  function FirstPart<S>(m: Sem<S>, parts: seq<Part>, s: S): nat {
    if parts == [] || m.value(parts[0].expr, s) != 0 then 0 else 1 + FirstPart(m, parts[1..], s)
  }

  /** The group that is selected: 0 the one behind `#if`, then those behind `#elif`, last the one behind `#else`. */
  function Selected<S>(m: Sem<S>, n: Node, s: S): nat
    requires n.NIf?
  {
    match n.test
    case Defined(name) => if m.defined(name, s) then 0 else 1 + FirstPart(m, n.elifs, s)
    case Undefined(name) => if m.defined(name, s) then 1 + FirstPart(m, n.elifs, s) else 0
    case NonZero(expr) => if m.value(expr, s) != 0 then 0 else 1 + FirstPart(m, n.elifs, s)
  }

  function Blank(n: nat): (b: seq<Option<nat>>)
    ensures |b| == n
  {
    if n == 0 then [] else [None] + Blank(n - 1)
  }

  /** The state behind a group, and its lines: those processed lie in the selected group of every `#if` around them. */
  function Process<S>(m: Sem<S>, g: seq<Node>, s: S): (S, seq<Option<nat>>)
    decreases g, 0
  {
    if g == [] then (s, [])
    else
      var (s1, out1) := ProcessNode(m, g[0], s);
      var (s2, out2) := Process(m, g[1..], s1);
      (s2, out1 + out2)
  }

  function ProcessNode<S>(m: Sem<S>, n: Node, s: S): (S, seq<Option<nat>>)
    decreases n, 2
  {
    match n
    case NText(id) => (m.act(id, s), [Some(id)])
    case NIf(_, body, elifs, els) =>
      var k := Selected(m, n, s);
      var skipped := |Flatten(body)|;
      if k == 0 then
        var (s1, out) := Process(m, body, s);
        (s1, [None] + (out + Blank(|FlattenParts(elifs)| + |FlattenElse(els)| + 1)))
      else if k <= |elifs| then
        var (s1, out) := ProcessPart(m, elifs, k - 1, s);
        (s1, [None] + (Blank(skipped) + (out + Blank(|FlattenElse(els)| + 1))))
      else
        var (s1, out) := ProcessElse(m, els, s);
        (s1, [None] + (Blank(skipped + |FlattenParts(elifs)|) + (out + [None])))
  }

  function ProcessElse<S>(m: Sem<S>, els: ElsePart, s: S): (S, seq<Option<nat>>)
    decreases els, 2
  {
    match els
    case NoElse => (s, [])
    case ElseGroup(body) =>
      var (s1, out) := Process(m, body, s);
      (s1, [None] + out)
  }

  /** Only the `k`-th of the parts. */
  function ProcessPart<S>(m: Sem<S>, parts: seq<Part>, k: nat, s: S): (S, seq<Option<nat>>)
    requires k < |parts|
    decreases parts, 1
  {
    if k == 0 then
      var (s1, out) := ProcessOne(m, parts[0], s);
      (s1, out + Blank(|FlattenParts(parts[1..])|))
    else
      var (s1, out) := ProcessPart(m, parts[1..], k - 1, s);
      (s1, Blank(|FlattenPart(parts[0])|) + out)
  }

  function ProcessOne<S>(m: Sem<S>, part: Part, s: S): (S, seq<Option<nat>>)
    decreases part, 2
  {
    var (s1, out) := Process(m, part.body, s);
    (s1, [None] + out)
  }

  // ----- The machine processes what lies in selected groups -----

  lemma {:induction false} RunJoin<S>(m: Sem<S>, a: seq<Line>, b: seq<Line>, p: Pp<S>)
    ensures Run(m, a + b, p) == match Run(m, a, p) case None => None case Some(p1) => Run(m, b, p1)
    decreases |a|
  {
    if a == [] {
      assert a + b == b;
    } else {
      assert (a + b)[0] == a[0] && (a + b)[1..] == a[1..] + b;
      var r := Step(m, a[0], p);
      if r.Some? {
        RunJoin(m, a[1..], b, r.value);
      }
    }
  }

  lemma RunOne<S>(m: Sem<S>, line: Line, p: Pp<S>)
    ensures Run(m, [line], p) == Step(m, line, p)
  {
    assert [line][1..] == [];
  }

  lemma {:induction false} BlankJoin(a: nat, b: nat)
    ensures Blank(a) + Blank(b) == Blank(a + b)
  {
    if a > 0 {
      BlankJoin(a - 1, b);
      assert Blank(a) + Blank(b) == [None] + (Blank(a - 1) + Blank(b));
    } else {
      assert Blank(0) + Blank(b) == Blank(b);
    }
  }

  /** The same flags further on in the output. */
  function On<S>(p: Pp<S>, s: S, out: seq<Option<nat>>): Pp<S> {
    p.(s := s, out := p.out + out)
  }

  lemma OnJoin<S>(p: Pp<S>, s1: S, a: seq<Option<nat>>, s2: S, b: seq<Option<nat>>)
    ensures On(On(p, s1, a), s2, b) == On(p, s2, a + b)
    ensures On(p, p.s, []) == p
  {
    assert (p.out + a) + b == p.out + (a + b) && p.out + [] == p.out;
  }

  /** Nothing of the rest of this `#if` can be selected any more. */
  predicate Closed<S>(p: Pp<S>) {
    p.stack != [] && p.satisfy <= 1 && (p.satisfy == 1 || !EnableOf(p.stack[|p.stack| - 1]))
  }

  /** Groups within a skipped group are skipped, and leave the flags as they were. */
  lemma {:induction false} SkipSim<S>(m: Sem<S>, g: seq<Node>, p: Pp<S>)
    requires !p.enable && p.satisfy <= 2
    ensures Run(m, Flatten(g), p) == Some(On(p, p.s, Blank(|Flatten(g)|)))
    decreases g, 0
  {
    hide Run, Step, FlattenNode, On, Blank;
    if g == [] {
      RunNone(m, p);
    } else {
      var n, k := |FlattenNode(g[0])|, |Flatten(g[1..])|;
      SkipNode(m, g[0], p);
      RunJoin(m, FlattenNode(g[0]), Flatten(g[1..]), p);
      var p1 := On(p, p.s, Blank(n));
      OnIs(p, p.s, Blank(n));
      SkipSim(m, g[1..], p1);
      BlankJoin(n, k);
      OnJoin(p, p.s, Blank(n), p.s, Blank(k));
    }
  }

  lemma RunNone<S>(m: Sem<S>, p: Pp<S>)
    ensures Run(m, [], p) == Some(On(p, p.s, Blank(0)))
  {
    assert p.out + [] == p.out;
  }

  lemma OnIs<S>(p: Pp<S>, s: S, out: seq<Option<nat>>)
    ensures var q := On(p, s, out); q.enable == p.enable && q.satisfy == p.satisfy && q.stack == p.stack && q.s == s && q.out == p.out + out
  {
  }

  lemma {:induction false} SkipNode<S>(m: Sem<S>, n: Node, p: Pp<S>)
    requires !p.enable && p.satisfy <= 2
    ensures Run(m, FlattenNode(n), p) == Some(On(p, p.s, Blank(|FlattenNode(n)|)))
    decreases n, 2
  {
    hide Run;
    match n
    case NText(id) =>
      RunOne(m, Text(id), p);
      assert Blank(1) == [None];
    case NIf(t, body, elifs, els) =>
      var p1 := Step(m, If(t), p).value;
      CondValueReads(p.enable, p.satisfy);
      RunOne(m, If(t), p);
      SkipSim(m, body, p1);
      var p2 := On(p1, p1.s, Blank(|Flatten(body)|));
      assert Closed(p2);
      var p3 := SkipRest(m, n, p, p2);
      IfJoin(m, n, p, p1, p2, p3);
      BlankThree(p.out, |Flatten(body)|, |FlattenParts(elifs)| + |FlattenElse(els)| + 1);
      hide Step;
      assert |FlattenNode(n)| == 1 + |Flatten(body)| + (|FlattenParts(elifs)| + |FlattenElse(els)| + 1);
  }

  lemma Assoc(a: seq<Option<nat>>, b: seq<Option<nat>>, c: seq<Option<nat>>)
    ensures (a + b) + c == a + (b + c)
  {
  }

  lemma Assoc4(z: seq<Option<nat>>, a: seq<Option<nat>>, b: seq<Option<nat>>, c: seq<Option<nat>>, d: seq<Option<nat>>)
    ensures (((z + a) + b) + c) + d == z + (a + (b + (c + d)))
  {
    Assoc((z + a) + b, c, d);
    Assoc(z + a, b, c + d);
    Assoc(z, a, b + (c + d));
  }

  lemma NoBlank(out: seq<Option<nat>>)
    ensures out + Blank(0) == out
  {
  }

  lemma BlankThree(out: seq<Option<nat>>, a: nat, b: nat)
    ensures ((out + [None]) + Blank(a)) + Blank(b) == out + Blank(1 + a + b)
  {
    BlankJoin(1, a);
    BlankJoin(1 + a, b);
    assert Blank(1) == [None];
    Assoc(out, [None], Blank(a));
    Assoc(out, [None] + Blank(a), Blank(b));
  }

  /** The pieces of an `#if`. */
  lemma IfJoin<S>(m: Sem<S>, n: Node, p: Pp<S>, p1: Pp<S>, p2: Pp<S>, p3: Pp<S>)
    requires n.NIf? && Run(m, [If(n.test)], p) == Some(p1) && Run(m, Flatten(n.body), p1) == Some(p2)
    requires Run(m, FlattenParts(n.elifs) + (FlattenElse(n.els) + [Endif]), p2) == Some(p3)
    ensures Run(m, FlattenNode(n), p) == Some(p3)
  {
    hide Run;
    var rest := FlattenParts(n.elifs) + (FlattenElse(n.els) + [Endif]);
    RunJoin(m, [If(n.test)], Flatten(n.body) + rest, p);
    RunJoin(m, Flatten(n.body), rest, p1);
  }

  /** Behind a selected group, or in an `#if` that is skipped as a whole: to behind its `#endif`. */
  lemma {:induction false} SkipRest<S>(m: Sem<S>, n: Node, p0: Pp<S>, p: Pp<S>) returns (q: Pp<S>)
    requires n.NIf? && Closed(p) && p.stack == p0.stack + [CondValue(p0.enable, p0.satisfy)] && p0.satisfy <= 2
    ensures Run(m, FlattenParts(n.elifs) + (FlattenElse(n.els) + [Endif]), p) == Some(q)
    ensures q == Pp(p0.enable, p0.satisfy, p0.stack, p.s, p.out + Blank(|FlattenParts(n.elifs)| + |FlattenElse(n.els)| + 1))
    decreases n, 0
  {
    hide Run, Step, Blank, FlattenParts, FlattenElse;
    var elifs, els := n.elifs, n.els;
    var p1 := SkipParts(m, elifs, p);
    q := SkipElse(m, els, p0, p1);
    RunJoin(m, FlattenParts(elifs), FlattenElse(els) + [Endif], p);
    BlankJoin(|FlattenParts(elifs)|, |FlattenElse(els)| + 1);
    Assoc(p.out, Blank(|FlattenParts(elifs)|), Blank(|FlattenElse(els)| + 1));
  }

  lemma {:induction false} SkipParts<S>(m: Sem<S>, parts: seq<Part>, p: Pp<S>) returns (q: Pp<S>)
    requires Closed(p)
    ensures Run(m, FlattenParts(parts), p) == Some(q)
    ensures Closed(q) && q.stack == p.stack && q.s == p.s && q.out == p.out + Blank(|FlattenParts(parts)|)
    decreases parts, 0
  {
    hide Run, Step, Blank, FlattenPart;
    if parts == [] {
      q := p;
      RunNone(m, p);
      NoBlank(p.out);
    } else {
      var q1 := SkipPart(m, parts[0], p);
      q := SkipParts(m, parts[1..], q1);
      var k, n := |FlattenPart(parts[0])|, |FlattenParts(parts[1..])|;
      RunJoin(m, FlattenPart(parts[0]), FlattenParts(parts[1..]), p);
      BlankJoin(k, n);
      Assoc(p.out, Blank(k), Blank(n));
    }
  }

  lemma {:induction false} SkipPart<S>(m: Sem<S>, part: Part, p: Pp<S>) returns (q: Pp<S>)
    requires Closed(p)
    ensures Run(m, FlattenPart(part), p) == Some(q)
    ensures Closed(q) && !q.enable && q.stack == p.stack && q.s == p.s && q.out == p.out + Blank(|FlattenPart(part)|)
    decreases part, 2
  {
    hide Run;
    var p1 := Step(m, Elif(part.expr), p).value;
    RunOne(m, Elif(part.expr), p);
    SkipSim(m, part.body, p1);
    RunJoin(m, [Elif(part.expr)], Flatten(part.body), p);
    q := On(p1, p1.s, Blank(|Flatten(part.body)|));
    assert Blank(1 + |Flatten(part.body)|) == [None] + Blank(|Flatten(part.body)|);
    Assoc(p.out, [None], Blank(|Flatten(part.body)|));
  }

  lemma {:induction false} SkipElse<S>(m: Sem<S>, els: ElsePart, p0: Pp<S>, p: Pp<S>) returns (q: Pp<S>)
    requires Closed(p) && p.stack == p0.stack + [CondValue(p0.enable, p0.satisfy)] && p0.satisfy <= 2
    ensures Run(m, FlattenElse(els) + [Endif], p) == Some(q)
    ensures q == Pp(p0.enable, p0.satisfy, p0.stack, p.s, p.out + Blank(|FlattenElse(els)| + 1))
    decreases els, 2
  {
    hide Run;
    assert Blank(1) == [None];
    match els
    case NoElse =>
      assert [] + [Endif] == [Endif];
      q := EndSim(m, p0, p);
    case ElseGroup(body) =>
      var p1 := Step(m, Else, p).value;
      RunOne(m, Else, p);
      SkipSim(m, body, p1);
      var n := |Flatten(body)|;
      var p2 := On(p1, p1.s, Blank(n));
      q := EndSim(m, p0, p2);
      RunJoin(m, [Else], Flatten(body), p);
      RunJoin(m, [Else] + Flatten(body), [Endif], p);
      BlankJoin(1, n);
      BlankJoin(1 + n, 1);
      assert ((p.out + Blank(1)) + Blank(n)) + Blank(1) == p.out + ((Blank(1) + Blank(n)) + Blank(1));
  }

  /** `#endif` restores both flags. */
  lemma EndSim<S>(m: Sem<S>, p0: Pp<S>, p: Pp<S>) returns (q: Pp<S>)
    requires p.stack == p0.stack + [CondValue(p0.enable, p0.satisfy)] && p0.satisfy <= 2
    ensures Run(m, [Endif], p) == Some(q) && q == Pp(p0.enable, p0.satisfy, p0.stack, p.s, p.out + [None])
  {
    CondValueReads(p0.enable, p0.satisfy);
    RunOne(m, Endif, p);
    q := Step(m, Endif, p).value;
    assert p.stack[..|p.stack| - 1] == p0.stack;
  }

  /** A group that is processed: the machine does what the group means, and its flags come back. */
  lemma {:induction false} GroupSim<S>(m: Sem<S>, g: seq<Node>, p: Pp<S>)
    requires p.enable && p.satisfy <= 2
    ensures var (s, out) := Process(m, g, p.s); Run(m, Flatten(g), p) == Some(On(p, s, out)) && |out| == |Flatten(g)|
    decreases g, 0
  {
    hide Run, Step, FlattenNode, ProcessNode, On;
    if g == [] {
      RunNone(m, p);
    } else {
      var (s1, out1) := ProcessNode(m, g[0], p.s);
      var (s2, out2) := Process(m, g[1..], s1);
      NodeSim(m, g[0], p);
      RunJoin(m, FlattenNode(g[0]), Flatten(g[1..]), p);
      OnIs(p, s1, out1);
      GroupSim(m, g[1..], On(p, s1, out1));
      OnJoin(p, s1, out1, s2, out2);
    }
  }

  lemma {:induction false} NodeSim<S>(m: Sem<S>, n: Node, p: Pp<S>)
    requires p.enable && p.satisfy <= 2
    ensures var (s, out) := ProcessNode(m, n, p.s); Run(m, FlattenNode(n), p) == Some(On(p, s, out)) && |out| == |FlattenNode(n)|
    decreases n, 2
  {
    hide Run;
    match n
    case NText(id) => RunOne(m, Text(id), p);
    case NIf(t, body, elifs, els) =>
      if Selected(m, n, p.s) == 0 {
        FirstGroup(m, n, p);
      } else {
        LaterGroup(m, n, p);
      }
  }

  lemma {:induction false} FirstGroup<S>(m: Sem<S>, n: Node, p: Pp<S>)
    requires p.enable && p.satisfy <= 2 && n.NIf? && Selected(m, n, p.s) == 0
    ensures var (s, out) := ProcessNode(m, n, p.s); Run(m, FlattenNode(n), p) == Some(On(p, s, out)) && |out| == |FlattenNode(n)|
    decreases n, 1
  {
    hide Run;
    var p1 := Step(m, If(n.test), p).value;
    RunOne(m, If(n.test), p);
    GroupSim(m, n.body, p1);
    var (s, out) := Process(m, n.body, p.s);
    var p2 := On(p1, s, out);
    var p3 := SkipRest(m, n, p, p2);
    IfJoin(m, n, p, p1, p2, p3);
    var rest := Blank(|FlattenParts(n.elifs)| + |FlattenElse(n.els)| + 1);
    Assoc(p.out + [None], out, rest);
    Assoc(p.out, [None], out + rest);
  }

  lemma {:induction false} LaterGroup<S>(m: Sem<S>, n: Node, p: Pp<S>)
    requires p.enable && p.satisfy <= 2 && n.NIf? && Selected(m, n, p.s) > 0
    ensures var (s, out) := ProcessNode(m, n, p.s); Run(m, FlattenNode(n), p) == Some(On(p, s, out)) && |out| == |FlattenNode(n)|
    decreases n, 0
  {
    hide Run;
    var p1 := Step(m, If(n.test), p).value;
    RunOne(m, If(n.test), p);
    SkipSim(m, n.body, p1);
    var blank := Blank(|Flatten(n.body)|);
    var p2 := On(p1, p1.s, blank);
    CondValueReads(p.enable, p.satisfy);
    var k := FirstPart(m, n.elifs, p.s);
    var tail := FlattenElse(n.els) + [Endif];
    FirstPartIs(m, n.elifs, p.s);
    if k < |n.elifs| {
      var (s, out) := ProcessPart(m, n.elifs, k, p.s);
      var p3 := ChainSim(m, n.elifs, p2);
      var p4 := SkipElse(m, n.els, p, p3);
      RunJoin(m, FlattenParts(n.elifs), tail, p2);
      IfJoin(m, n, p, p1, p2, p4);
      var rest := Blank(|FlattenElse(n.els)| + 1);
      Assoc4(p.out, [None], blank, out, rest);
    } else {
      var (s, out) := ProcessElse(m, n.els, p.s);
      var p3 := ChainSim(m, n.elifs, p2);
      var p4 := ElseSim(m, n.els, p, p3);
      RunJoin(m, FlattenParts(n.elifs), tail, p2);
      IfJoin(m, n, p, p1, p2, p4);
      BlankJoin(|Flatten(n.body)|, |FlattenParts(n.elifs)|);
      var more := Blank(|FlattenParts(n.elifs)|);
      Assoc4(p.out, [None], blank, more, out + [None]);
      Assoc(blank, more, out + [None]);
    }
  }

  lemma {:induction false} FirstPartIs<S>(m: Sem<S>, parts: seq<Part>, s: S)
    ensures FirstPart(m, parts, s) <= |parts|
  {
    if parts != [] {
      FirstPartIs(m, parts[1..], s);
    }
  }

  /** While no group has been selected, each `#elif` is tested; the first that holds is processed. */
  lemma {:induction false} ChainSim<S>(m: Sem<S>, parts: seq<Part>, p: Pp<S>) returns (q: Pp<S>)
    requires !p.enable && p.satisfy == 0 && p.stack != [] && EnableOf(p.stack[|p.stack| - 1])
    ensures Run(m, FlattenParts(parts), p) == Some(q) && q.stack == p.stack
    ensures var k := FirstPart(m, parts, p.s);
            && k <= |parts|
            && (k < |parts| ==>
                  var (s, out) := ProcessPart(m, parts, k, p.s);
                  Closed(q) && q.s == s && q.out == p.out + out && |out| == |FlattenParts(parts)|)
            && (k == |parts| ==> !q.enable && q.satisfy == 0 && q.s == p.s && q.out == p.out + Blank(|FlattenParts(parts)|))
    decreases parts, 0
  {
    hide Run;
    if parts == [] {
      q := p;
      RunNone(m, p);
      assert p.out + Blank(0) == p.out;
    } else {
      FirstPartIs(m, parts[1..], p.s);
      var a, b := FlattenPart(parts[0]), FlattenParts(parts[1..]);
      RunJoin(m, a, b, p);
      if m.value(parts[0].expr, p.s) != 0 {
        var q1 := PartSim(m, parts[0], p);
        q := SkipParts(m, parts[1..], q1);
        var out := ProcessOne(m, parts[0], p.s).1;
        assert (p.out + out) + Blank(|b|) == p.out + (out + Blank(|b|));
      } else {
        var q1 := MissSim(m, parts[0], p);
        q := ChainSim(m, parts[1..], q1);
        BlankJoin(|a|, |b|);
        ChainOut(m, parts, p, q1, q, |a|, |b|);
      }
    }
  }

  lemma ChainOut<S>(m: Sem<S>, parts: seq<Part>, p: Pp<S>, q1: Pp<S>, q: Pp<S>, a: nat, b: nat)
    requires parts != [] && m.value(parts[0].expr, p.s) == 0 && q1.s == p.s && q1.out == p.out + Blank(a)
    requires a == |FlattenPart(parts[0])| && b == |FlattenParts(parts[1..])|
    requires FirstPart(m, parts[1..], p.s) <= |parts| - 1
    ensures var k := FirstPart(m, parts[1..], p.s);
            && FirstPart(m, parts, p.s) == k + 1
            && (k < |parts| - 1 && q.out == q1.out + ProcessPart(m, parts[1..], k, p.s).1
                ==> q.out == p.out + ProcessPart(m, parts, k + 1, p.s).1 && ProcessPart(m, parts, k + 1, p.s).0 == ProcessPart(m, parts[1..], k, p.s).0)
            && (q.out == q1.out + Blank(b) ==> q.out == p.out + (Blank(a) + Blank(b)))
  {
    var k := FirstPart(m, parts[1..], p.s);
    if k < |parts| - 1 {
      var out := ProcessPart(m, parts[1..], k, p.s).1;
      assert (p.out + Blank(a)) + out == p.out + (Blank(a) + out);
    }
    assert (p.out + Blank(a)) + Blank(b) == p.out + (Blank(a) + Blank(b));
  }

  lemma {:induction false} PartSim<S>(m: Sem<S>, part: Part, p: Pp<S>) returns (q: Pp<S>)
    requires !p.enable && p.satisfy == 0 && p.stack != [] && EnableOf(p.stack[|p.stack| - 1]) && m.value(part.expr, p.s) != 0
    ensures Run(m, FlattenPart(part), p) == Some(q) && q.stack == p.stack
    ensures var (s, out) := ProcessOne(m, part, p.s); Closed(q) && q.s == s && q.out == p.out + out && |out| == |FlattenPart(part)|
    decreases part, 2
  {
    hide Run;
    var p1 := Step(m, Elif(part.expr), p).value;
    RunOne(m, Elif(part.expr), p);
    GroupSim(m, part.body, p1);
    RunJoin(m, [Elif(part.expr)], Flatten(part.body), p);
    var (s, out) := Process(m, part.body, p.s);
    q := On(p1, s, out);
    assert (p.out + [None]) + out == p.out + ([None] + out);
  }

  lemma MissSim<S>(m: Sem<S>, part: Part, p: Pp<S>) returns (q: Pp<S>)
    requires !p.enable && p.satisfy == 0 && p.stack != [] && m.value(part.expr, p.s) == 0
    ensures Run(m, FlattenPart(part), p) == Some(q) && q == On(p, p.s, Blank(|FlattenPart(part)|))
  {
    hide Run;
    var p1 := Step(m, Elif(part.expr), p).value;
    RunOne(m, Elif(part.expr), p);
    SkipSim(m, part.body, p1);
    RunJoin(m, [Elif(part.expr)], Flatten(part.body), p);
    var n := |Flatten(part.body)|;
    q := On(p1, p1.s, Blank(n));
    assert Blank(1 + n) == [None] + Blank(n);
    assert (p.out + [None]) + Blank(n) == p.out + ([None] + Blank(n));
  }

  /** No group has been selected: the one behind `#else` is. */
  lemma {:induction false} ElseSim<S>(m: Sem<S>, els: ElsePart, p0: Pp<S>, p: Pp<S>) returns (q: Pp<S>)
    requires !p.enable && p.satisfy == 0 && p0.enable && p0.satisfy <= 2
    requires p.stack == p0.stack + [CondValue(p0.enable, p0.satisfy)]
    ensures Run(m, FlattenElse(els) + [Endif], p) == Some(q)
    ensures var (s, out) := ProcessElse(m, els, p.s);
            q == Pp(p0.enable, p0.satisfy, p0.stack, s, p.out + (out + [None])) && |out| == |FlattenElse(els)|
    decreases els, 2
  {
    hide Run;
    match els
    case NoElse =>
      assert [] + [Endif] == [Endif];
      q := EndSim(m, p0, p);
      var none: seq<Option<nat>> := [];
      assert none + [None] == [None];
    case ElseGroup(body) =>
      CondValueReads(p0.enable, p0.satisfy);
      var p1 := Step(m, Else, p).value;
      RunOne(m, Else, p);
      GroupSim(m, body, p1);
      var (s, out) := Process(m, body, p.s);
      var p2 := On(p1, s, out);
      q := EndSim(m, p0, p2);
      RunJoin(m, [Else], Flatten(body), p);
      RunJoin(m, [Else] + Flatten(body), [Endif], p);
      assert ((p.out + [None]) + out) + [None] == p.out + (([None] + out) + [None]);
  }

  /** A file made of nested groups is processed as they say, and every `#endif` brings the flags back. */
  lemma FileSim<S>(m: Sem<S>, g: seq<Node>, s: S)
    ensures var r := RunFile(m, Flatten(g), s);
            var (s1, out) := Process(m, g, s);
            r.Some? && r.value == Pp(true, 0, [], s1, out) && |out| == |Flatten(g)|
  {
    var p := Pp(true, 0, [], s, []);
    GroupSim(m, g, p);
    var (s1, out) := Process(m, g, s);
    assert [] + out == out;
  }

  /** The lines of the group behind `#ifdef`, `#ifndef` or `#if` in the output of a file that is one conditional. */
  function FirstLines<S>(m: Sem<S>, n: Node, s: S): seq<Option<nat>>
    requires n.NIf?
  {
    match RunFile(m, Flatten([n]), s)
    case None => []
    case Some(p) => if 1 + |Flatten(n.body)| <= |p.out| then p.out[1..1 + |Flatten(n.body)|] else []
  }

  /** They are processed exactly when the macro is defined, or is not, or the value is not zero; else they are blank. */
  lemma FirstGroupLines<S>(m: Sem<S>, body: seq<Node>, elifs: seq<Part>, els: ElsePart, s: S)
    ensures forall name :: FirstLines(m, NIf(Defined(name), body, elifs, els), s) == if m.defined(name, s) then Process(m, body, s).1 else Blank(|Flatten(body)|)
    ensures forall name :: FirstLines(m, NIf(Undefined(name), body, elifs, els), s) == if m.defined(name, s) then Blank(|Flatten(body)|) else Process(m, body, s).1
    ensures forall expr :: FirstLines(m, NIf(NonZero(expr), body, elifs, els), s) == if m.value(expr, s) != 0 then Process(m, body, s).1 else Blank(|Flatten(body)|)
  {
    hide FirstLines, Process, Flatten, Blank;
    forall test: Test ensures FirstLines(m, NIf(test, body, elifs, els), s) == if Selected(m, NIf(test, body, elifs, els), s) == 0 then Process(m, body, s).1 else Blank(|Flatten(body)|) {
      FirstLinesAre(m, NIf(test, body, elifs, els), s);
    }
  }

  lemma FirstLinesAre<S>(m: Sem<S>, n: Node, s: S)
    requires n.NIf?
    ensures FirstLines(m, n, s) == if Selected(m, n, s) == 0 then Process(m, n.body, s).1 else Blank(|Flatten(n.body)|)
  {
    hide Run, Selected;
    FileSim(m, [n], s);
    GroupSim(m, n.body, Pp(true, 0, [], s, []));
    FirstPartIs(m, n.elifs, s);
    OneNode(m, n, s);
    LinesBehind(m, n, s);
  }

  lemma OneNode<S>(m: Sem<S>, n: Node, s: S)
    ensures Process(m, [n], s).1 == ProcessNode(m, n, s).1
  {
    assert [n][1..] == [] && Process(m, [n][1..], ProcessNode(m, n, s).0).1 == [];
    var out := ProcessNode(m, n, s).1;
    assert out + [] == out;
  }

  /** The output of a conditional begins with the line of its condition and the lines of its first group. */
  lemma LinesBehind<S>(m: Sem<S>, n: Node, s: S)
    requires n.NIf?
    ensures var lines := if Selected(m, n, s) == 0 then Process(m, n.body, s).1 else Blank(|Flatten(n.body)|);
            [None] + lines <= ProcessNode(m, n, s).1
  {
    hide Selected, Process, ProcessPart, ProcessElse, Flatten, FlattenParts, FlattenElse;
    var k := Selected(m, n, s);
    var blank := Blank(|Flatten(n.body)|);
    if k > |n.elifs| {
      BlankJoin(|Flatten(n.body)|, |FlattenParts(n.elifs)|);
    }
  }
}
