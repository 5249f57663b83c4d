/**
 The compiler's code for control flow as one sequence: `Lab` begins a basic block
 (`set_curbb`), and a block falls through to the one behind it. Compares work on
 bit patterns of a type's width; `half` is half the number of those patterns.
 */
module LowerCode {
  import opened Options
  import opened Ir
  import opened Conditions
  import opened Util
  import St = Structured

  datatype Tok =
    | Lab(name: nat)
    | Eval(expr: nat)
    | Test(half: nat, lhs: nat)
    | CmpImm(half: nat, lhs: nat, imm: int)
    | CmpReg(half: nat, lhs: nat, rhs: nat)
    | Load(comma: Option<nat>, value: nat)
    | CmpCase(half: nat, imm: int)
    | Jcc(cond: CondKind, to: nat)
    | Result(expr: nat)

  type Code = seq<Tok>

  // ----- Compares -----

  /** The bit pattern of a value. */
  function Bits(v: int, half: nat): (b: nat)
    requires half > 0
    ensures b < 2 * half
  {
    v % (2 * half)
  }

  function Signed(b: nat, half: nat): int {
    if b < half then b else b - 2 * half
  }

  /** The flags of `cmp`: those of the difference. */
  function CmpFlags(x: nat, y: nat, half: nat): Flags
    requires half > 0
  {
    var d := Bits(x - y, half);
    var r := Signed(x, half) - Signed(y, half);
    Flags(d == 0, d >= half, !(r + half >= 0 && r < half), x < y)
  }

  lemma BitsOf(v: int, half: nat)
    requires half > 0
    ensures 0 <= v < 2 * half ==> Bits(v, half) == v
    ensures v + half >= 0 && v < half ==> Signed(Bits(v, half), half) == v
    ensures v + 2 * half >= 0 && v < 0 ==> Bits(v, half) == v + 2 * half
  {
    var n := 2 * half;
    assert Bits(v, half) == v % n;
    if 0 <= v < n {
      SmallMod(v, n);
    } else if v + n >= 0 && v < 0 {
      ModPlus(v, n);
      SmallMod(v + n, n);
    }
  }

  lemma SmallMod(v: int, n: nat)
    requires 0 <= v < n
    ensures v % n == v
  {
  }

  lemma ModPlus(v: int, n: nat)
    requires n > 0
    ensures (v + n) % n == v % n
  {
    var q, r := v / n, v % n;
    var e, f := (v + n) / n, (v + n) % n;
    assert (q + 1 - e) * n == f - r;
    MulBounds(q + 1 - e, n);
  }

  /** What the conditions say about the operands of a compare. */
  lemma CmpFlagsTell(x: nat, y: nat, half: nat)
    requires half > 0 && x < 2 * half && y < 2 * half
    ensures var f := CmpFlags(x, y, half);
            && f.zf == (x == y) && f.cf == (x < y)
            && (f.sf != f.of) == (Signed(x, half) < Signed(y, half))
  {
    BitsOf(x - y, half);
  }

  // ----- The machine -----

  /** The program's state, the operands of the last compare, and the switch register. */
  datatype Mach<S> = Mach(s: S, flags: Flags, r: int)

  function FindLab(prog: Code, l: nat, i: nat): (r: Option<nat>)
    requires i <= |prog|
    ensures r.Some? ==> i <= r.value < |prog| && prog[r.value] == Lab(l)
    ensures r.None? ==> forall k | i <= k < |prog| :: prog[k] != Lab(l)
    decreases |prog| - i
  {
    if i == |prog| then None else if prog[i] == Lab(l) then Some(i) else FindLab(prog, l, i + 1)
  }

  function Compared<S>(mach: Mach<S>, s: S, x: int, y: int, half: nat): Mach<S> {
    if half == 0 then mach.(s := s) else Mach(s, CmpFlags(Bits(x, half), Bits(y, half), half), mach.r)
  }

  function Step<S>(m: St.Sem<S>, prog: Code, pc: nat, st: Mach<S>): (r: (nat, Mach<S>))
    requires pc <= |prog|
    ensures r.0 <= |prog|
  {
    if pc == |prog| then (pc, st)
    else
      match prog[pc]
      case Lab(_) => (pc + 1, st)
      case Eval(e) => (pc + 1, st.(s := m.eval(e, st.s).1))
      case Test(half, lhs) =>
        var (a, s1) := m.eval(lhs, st.s);
        (pc + 1, Compared(st, s1, a, 0, half))
      case CmpImm(half, lhs, v) =>
        var (a, s1) := m.eval(lhs, st.s);
        (pc + 1, Compared(st, s1, a, v, half))
      case CmpReg(half, lhs, rhs) =>
        var (a, s1) := m.eval(lhs, st.s);
        var (b, s2) := m.eval(rhs, s1);
        (pc + 1, Compared(st, s2, a, b, half))
      case Load(comma, value) =>
        var s1 := St.Effect(m, comma, st.s);
        (pc + 1, st.(s := s1, r := m.peek(value, s1)))
      case CmpCase(half, v) => (pc + 1, Compared(st, st.s, st.r, v, half))
      case Jcc(c, l) =>
        if !Holds(c, st.flags) then (pc + 1, st)
        else (match FindLab(prog, l, 0) case Some(k) => (k, st) case None => (pc, st))
      case Result(e) =>
        var (v, s1) := m.eval(e, st.s);
        (pc + 1, st.(s := m.ret(v, s1)))
  }

  function Go<S>(m: St.Sem<S>, prog: Code, pc: nat, st: Mach<S>, n: nat): (r: (nat, Mach<S>))
    requires pc <= |prog|
    ensures r.0 <= |prog|
    decreases n
  {
    if n == 0 then (pc, st)
    else
      var (pc1, st1) := Step(m, prog, pc, st);
      Go(m, prog, pc1, st1, n - 1)
  }

  lemma {:induction false} GoPlus<S>(m: St.Sem<S>, prog: Code, pc: nat, st: Mach<S>, a: nat, b: nat)
    requires pc <= |prog|
    ensures var (pc1, st1) := Go(m, prog, pc, st, a);
            Go(m, prog, pc, st, a + b) == Go(m, prog, pc1, st1, b)
    decreases a
  {
    if a > 0 {
      var (pc1, st1) := Step(m, prog, pc, st);
      GoPlus(m, prog, pc1, st1, a - 1, b);
    }
  }

  lemma GoOne<S>(m: St.Sem<S>, prog: Code, pc: nat, st: Mach<S>)
    requires pc <= |prog|
    ensures Go(m, prog, pc, st, 1) == Step(m, prog, pc, st)
  {
    var (pc1, st1) := Step(m, prog, pc, st);
    assert Go(m, prog, pc1, st1, 0) == (pc1, st1);
  }

  // ----- Places in a program -----

  predicate At(prog: Code, p: nat, code: Code) {
    p + |code| <= |prog| && prog[p..p + |code|] == code
  }

  lemma AtJoin(prog: Code, p: nat, a: Code, b: Code)
    requires At(prog, p, a + b)
    ensures At(prog, p, a) && At(prog, p + |a|, b)
  {
    assert prog[p..p + |a|] == (a + b)[..|a|];
    assert prog[p + |a|..p + |a| + |b|] == (a + b)[|a|..];
  }

  lemma AtHead(prog: Code, p: nat, t: Tok, b: Code)
    requires At(prog, p, [t] + b)
    ensures p < |prog| && prog[p] == t && At(prog, p + 1, b)
  {
    AtJoin(prog, p, [t], b);
    assert prog[p..p + 1] == [t];
  }

  lemma AtOne(prog: Code, p: nat, t: Tok)
    requires At(prog, p, [t])
    ensures p < |prog| && prog[p] == t
  {
    assert [t] + [] == [t];
    AtHead(prog, p, t, []);
  }

  /** No label is set twice. */
  ghost predicate Unique(prog: Code) {
    forall i, j | 0 <= i < j < |prog| && prog[i].Lab? && prog[j].Lab? :: prog[i] != prog[j]
  }

  predicate HasLab(prog: Code, l: nat) {
    FindLab(prog, l, 0).Some?
  }

  function Pos(prog: Code, l: nat): (p: nat)
    requires HasLab(prog, l)
    ensures p < |prog| && prog[p] == Lab(l)
  {
    FindLab(prog, l, 0).value
  }

  lemma PosIs(prog: Code, l: nat, p: nat)
    requires Unique(prog) && p < |prog| && prog[p] == Lab(l)
    ensures HasLab(prog, l) && Pos(prog, l) == p
  {
  }
}
