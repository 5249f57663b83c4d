/**
 When a head clash matters. If some run enters a block whose dead first definition
 shares its register with a value that the run reads later, then under some meaning
 of the instructions the function sees that value and the allocated code never does.
 The meaning follows the given run in its world (`shadow`), whatever the registers
 hold, so that both machines take the same path; results are all ones up to the
 clash and zeros from there on.
 */
module ClashTheorem {
  import opened Options
  import opened Ir
  import opened SpillCode
  import opened RegAlloc
  import opened Machine
  import opened AllocSim
  import opened AllocTheorem
  import opened NeededRuns

  /** The state of the run followed, the instructions done, and the operands seen at one of them. */
  datatype World<W> = World(shadow: VState<W>, time: nat, seen: Option<(Bytes, Bytes)>)

  const ONES: Bytes := [1, 1, 1, 1, 1, 1, 1, 1]
  const NULLS: Bytes := [0, 0, 0, 0, 0, 0, 0, 0]

  function See<W>(w: World<W>, reading: nat, x: Bytes, y: Bytes): Option<(Bytes, Bytes)> {
    if w.seen.None? && w.time == reading then Some((x, y)) else w.seen
  }

  /** The meaning: instruction number `head` is the first to give zeros, number `reading` is watched. */
  function Witness<W>(p: Prog, m: Sem<W>, head: nat, reading: nat): Sem<World<W>> {
    Sem((ir: IR, x: Bytes, y: Bytes, refs: map<nat, Bytes>, w: World<W>) =>
          Outcome(if w.time < head then ONES else NULLS, map[], World(ExecV(p, m, ir, w.shadow), w.time + 1, See(w, reading, x, y))),
        (c: CondKind, w: World<W>) => m.taken(c, w.shadow.w),
        (w: World<W>, fl: bool, r: nat) => NULLS)
  }

  // ----- The run followed -----

  /** Instructions among the first `n` steps; jumps and block ends do not count. */
  function Count<W>(p: Prog, m: Sem<W>, s: VState<W>, n: nat): nat {
    if n == 0 then 0 else Count(p, m, s, n - 1) + if Executes(p, RunV(p, m, At(0, 0, s), n - 1)) then 1 else 0
  }

  lemma {:induction false} CountGrows<W>(p: Prog, m: Sem<W>, s: VState<W>, i: nat, n: nat)
    requires i <= n
    ensures Count(p, m, s, i) <= Count(p, m, s, n)
    ensures i < n && Executes(p, RunV(p, m, At(0, 0, s), i)) ==> Count(p, m, s, i) < Count(p, m, s, n)
  {
    hide RunV;
    if i < n {
      CountGrows(p, m, s, i, n - 1);
    }
  }

  // ----- On virtual registers -----

  /** The same place, the world being the state there. */
  ghost predicate ShadowsV<W>(c: Config<VState<W>>, d: Config<VState<World<W>>>) {
    && d.s.w.shadow == c.s
    && (c.At? <==> d.At?) && (c.At? ==> d.b == c.b && d.j == c.j)
  }

  ghost predicate HoldsOnes<S>(p: Prog, s: VState<S>, v: nat) {
    v < |p.vregs| == |s.env| && s.env[v] == Fit(ONES, p.vregs[v].size)
  }

  lemma StepShadowsV<W>(p: Prog, m: Sem<W>, head: nat, reading: nat, c: Config<VState<W>>, d: Config<VState<World<W>>>, v: nat)
    requires WellFormed(p) && ShadowsV(c, d) && HoldsOnes(p, d.s, v) && !p.vregs[v].addressed
    requires Assigns(p, c, v) ==> d.s.w.time < head
    ensures var d1 := StepV(p, Witness(p, m, head, reading), d);
            && ShadowsV(StepV(p, m, c), d1) && HoldsOnes(p, d1.s, v)
            && d1.s.w.time == d.s.w.time + (if Executes(p, c) then 1 else 0)
            && (!(Executes(p, c) && d.s.w.time == reading) ==> d1.s.w.seen == d.s.w.seen)
  {
  }

  lemma ReadV<W>(p: Prog, m: Sem<W>, head: nat, c: Config<VState<W>>, d: Config<VState<World<W>>>, v: nat)
    requires WellFormed(p) && ShadowsV(c, d) && HoldsOnes(p, d.s, v) && !IsConst(p.vregs, v)
    requires Reads(p, c, v) && d.s.w.seen.None?
    ensures var ir, seen := p.bbs[c.b][c.j], StepV(p, Witness(p, m, head, d.s.w.time), d).s.w.seen;
            && seen.Some?
            && (Read1(ir) == Some(v) ==> seen.value.0 == Fit(ONES, p.vregs[v].size))
            && (ir.opr2 == Some(v) ==> seen.value.1 == Fit(ONES, p.vregs[v].size))
  {
  }

  // ----- On physical registers -----

  /** The matching place in the allocated code. */
  ghost predicate ShadowsP<W>(p: Prog, t: Passes, a: Alloc, c: Config<VState<W>>, d: Config<PState<World<W>>>)
    requires Shapes(p, t, a)
  {
    && d.s.w.shadow == c.s && |d.s.iregs| == |d.s.fregs| == REGS
    && (c.At? <==> d.At?)
    && (c.At? ==> d.b == c.b < |p.bbs| && c.j <= |p.bbs[c.b]| && d.j == OffsetIn(p, a, c.b, c.j))
  }

  ghost predicate HoldsNulls<S>(p: Prog, a: Alloc, u: PState<S>, v: nat) {
    v < |p.vregs| == |a.phys| && !IsConst(p.vregs, v) && 0 <= a.phys[v] < SPILLED && GetReg(u, p.vregs[v].flonum, a.phys[v]) == NULLS
  }

  lemma {:induction false} LoadsWork<W>(p: Prog, phys: seq<int>, offs: seq<int>, m: Sem<W>, loads: Block, u: PState<W>)
    requires |u.iregs| == |u.fregs| == REGS && forall k | 0 <= k < |loads| :: loads[k].kind == LOAD_SPILLED
    ensures SameButWork(u, RunList(p, phys, offs, m, loads, u))
  {
    if loads != [] {
      LoadsWork(p, phys, offs, m, loads[1..], ExecP(p, phys, offs, m, loads[0], u));
    }
  }

  /** What one instruction does to the world and to a register that holds zeros, between its loads and its stores. */
  lemma ExecShadows<W>(p: Prog, a: Alloc, m: Sem<W>, head: nat, reading: nat, ir: IR, living: set<int>, u: PState<World<W>>, v: nat)
    requires |u.iregs| == |u.fregs| == REGS && ir.kind != LOAD_SPILLED && ir.kind != STORE_SPILLED && ir.living == {}
    ensures var u2 := ExecP(p, a.phys, a.offs, Witness(p, m, head, reading), ir.(living := living), u);
            && |u2.iregs| == |u2.fregs| == REGS
            && u2.w == World(ExecV(p, m, ir, u.w.shadow), u.w.time + 1,
                             See(u.w, reading, OperandP(p, a.phys, u, Read1(ir)), OperandP(p, a.phys, u, ir.opr2)))
            && (u.w.time >= head && HoldsNulls(p, a, u, v) ==> HoldsNulls(p, a, u2, v))
            && (u.w.time >= head && ClashesWith(p, a, ir, v) ==> HoldsNulls(p, a, u2, v))
  {
    hide WriteRefs, ExecV, OperandP, RefsP;
    assert Erase(ir.(living := living)) == ir;
  }

  /** The group of one instruction. */
  lemma GroupShadows<W>(p: Prog, a: Alloc, m: Sem<W>, head: nat, reading: nat, ir: IR, living: set<int>, u: PState<World<W>>, v: nat)
    requires |u.iregs| == |u.fregs| == REGS && ir.kind != LOAD_SPILLED && ir.kind != STORE_SPILLED && ir.living == {}
    ensures var u3 := RunList(p, a.phys, a.offs, Witness(p, m, head, reading), ExpandIR(p.vregs, a.phys, a.offs, ir.(living := living)), u);
            && |u3.iregs| == |u3.fregs| == REGS
            && u3.w.shadow == ExecV(p, m, ir, u.w.shadow) && u3.w.time == u.w.time + 1
            && (u.w.time != reading ==> u3.w.seen == u.w.seen)
            && (u.w.time >= head && HoldsNulls(p, a, u, v) ==> HoldsNulls(p, a, u3, v))
            && (u.w.time >= head && ClashesWith(p, a, ir, v) ==> HoldsNulls(p, a, u3, v))
            && (u.w.time == reading && u.w.seen.None? && HoldsNulls(p, a, u, v) ==> SeenNulls(p, ir, u3.w.seen, v))
  {
    var mw := Witness(p, m, head, reading);
    var loads := Loads(p.vregs, a.phys, a.offs, ir);
    var u1 := RunList(p, a.phys, a.offs, mw, loads, u);
    LoadsWork(p, a.phys, a.offs, mw, loads, u);
    GroupRuns(p, a.phys, a.offs, mw, ir, living, u);
    ExecShadows(p, a, m, head, reading, ir, living, u1, v);
    StoresShape(p, a.phys, a.offs, mw, ir, ExecP(p, a.phys, a.offs, mw, ir.(living := living), u1));
    hide RunList, ExecP, ExecV, Loads, Stores, ExpandIR, Witness, ClashesWith, Fit, HoldsNulls, OperandP;
    if HoldsNulls(p, a, u, v) {
      NullsRead(p, a, u, u1, ir, v);
    }
    FrameApart(p, a, ExecP(p, a.phys, a.offs, mw, ir.(living := living), u1), v);
  }

  lemma FrameApart<S>(p: Prog, a: Alloc, u: PState<S>, v: nat)
    ensures forall frame :: HoldsNulls(p, a, u.(frame := frame), v) <==> HoldsNulls(p, a, u, v)
  {
  }

  /** Loads leave a register with zeros alone, and an operand in it reads as zeros. */
  lemma NullsRead<S>(p: Prog, a: Alloc, u: PState<S>, u1: PState<S>, ir: IR, v: nat)
    requires SameButWork(u, u1) && HoldsNulls(p, a, u, v)
    ensures v < |p.vregs| && HoldsNulls(p, a, u1, v)
    ensures forall o: Option<nat> | o == Some(v) :: OperandP(p, a.phys, u1, o) == Fit(NULLS, p.vregs[v].size)
  {
    hide Fit;
  }

  lemma {:induction false} StepShadowsP<W>(p: Prog, t: Passes, a: Alloc, m: Sem<W>, head: nat, reading: nat, c: Config<VState<W>>, d: Config<PState<World<W>>>, v: nat)
    returns (k: nat)
    requires Expanded(p, t, a) && Shapes(p, t, a) && ShadowsP(p, t, a, c, d)
    ensures var d1 := RunP(p, a.phys, a.offs, a.bbs, Witness(p, m, head, reading), d, k);
            && ShadowsP(p, t, a, StepV(p, m, c), d1)
            && d1.s.w.time == d.s.w.time + (if Executes(p, c) then 1 else 0)
            && (!(Executes(p, c) && d.s.w.time == reading) ==> d1.s.w.seen == d.s.w.seen)
            && (d.s.w.time >= head && HoldsNulls(p, a, d.s, v) ==> HoldsNulls(p, a, d1.s, v))
            && (d.s.w.time >= head && Executes(p, c) && ClashesWith(p, a, p.bbs[c.b][c.j], v) ==> HoldsNulls(p, a, d1.s, v))
            && (Reads(p, c, v) && d.s.w.time == reading && d.s.w.seen.None? && HoldsNulls(p, a, d.s, v) ==>
                  SeenNulls(p, p.bbs[c.b][c.j], d1.s.w.seen, v))
  {
    k := 1;
    hide Expanded;
    if c.At? && c.j < |p.bbs[c.b]| {
      if p.bbs[c.b][c.j].kind == JMP {
        JumpShadows(p, t, a, m, head, reading, c, d);
      } else {
        k := InstrShadows(p, t, a, m, head, reading, c, d, v);
      }
    } else if c.At? {
      EndShadows(p, t, a, m, head, reading, c, d);
    }
  }

  ghost predicate ClashesWith(p: Prog, a: Alloc, ir: IR, v: nat) {
    ir.dst.Some? && SameReg(p, a.phys, v, ir.dst.value) && 0 <= a.phys[v] < SPILLED
  }

  ghost predicate SeenNulls(p: Prog, ir: IR, seen: Option<(Bytes, Bytes)>, v: nat) {
    && v < |p.vregs| && seen.Some?
    && (Read1(ir) == Some(v) ==> seen.value.0 == Fit(NULLS, p.vregs[v].size))
    && (ir.opr2 == Some(v) ==> seen.value.1 == Fit(NULLS, p.vregs[v].size))
  }

  lemma JumpShadows<W>(p: Prog, t: Passes, a: Alloc, m: Sem<W>, head: nat, reading: nat, c: Config<VState<W>>, d: Config<PState<World<W>>>)
    requires Expanded(p, t, a) && Shapes(p, t, a) && ShadowsP(p, t, a, c, d) && c.At? && c.j < |p.bbs[c.b]| && p.bbs[c.b][c.j].kind == JMP
    ensures var d1 := StepP(p, a.phys, a.offs, a.bbs, Witness(p, m, head, reading), d);
            ShadowsP(p, t, a, StepV(p, m, c), d1) && d1.s == d.s
  {
    hide Expanded, ExpandIR, Expand, Emittable;
    var b, j := c.b, c.j;
    var ir := p.bbs[b][j];
    InstrFacts(p, t, a, b, j);
    GroupKinds(p, a, ir);
    assert a.bbs[b][OffsetIn(p, a, b, j)] == a.bbs[b][OffsetIn(p, a, b, j)..OffsetIn(p, a, b, j + 1)][0] == ir;
    assert a.marked[ir.target][..0] == [];
    NothingExpanded(p, a);
  }

  lemma EndShadows<W>(p: Prog, t: Passes, a: Alloc, m: Sem<W>, head: nat, reading: nat, c: Config<VState<W>>, d: Config<PState<World<W>>>)
    requires Expanded(p, t, a) && Shapes(p, t, a) && ShadowsP(p, t, a, c, d) && c.At? && c.j >= |p.bbs[c.b]|
    ensures var d1 := StepP(p, a.phys, a.offs, a.bbs, Witness(p, m, head, reading), d);
            ShadowsP(p, t, a, StepV(p, m, c), d1) && d1.s == d.s
  {
    hide Expanded, Expand;
    EndOffset(p, t, a, c.b);
    if c.b + 1 < |p.bbs| {
      assert a.marked[c.b + 1][..0] == [];
      NothingExpanded(p, a);
    }
  }

  lemma InstrShadows<W>(p: Prog, t: Passes, a: Alloc, m: Sem<W>, head: nat, reading: nat, c: Config<VState<W>>, d: Config<PState<World<W>>>, v: nat)
    returns (k: nat)
    requires Expanded(p, t, a) && Shapes(p, t, a) && ShadowsP(p, t, a, c, d) && Executes(p, c)
    ensures var d1 := RunP(p, a.phys, a.offs, a.bbs, Witness(p, m, head, reading), d, k);
            && ShadowsP(p, t, a, StepV(p, m, c), d1)
            && d1.s.w.time == d.s.w.time + 1
            && (d.s.w.time != reading ==> d1.s.w.seen == d.s.w.seen)
            && (d.s.w.time >= head && HoldsNulls(p, a, d.s, v) ==> HoldsNulls(p, a, d1.s, v))
            && (d.s.w.time >= head && ClashesWith(p, a, p.bbs[c.b][c.j], v) ==> HoldsNulls(p, a, d1.s, v))
            && (Reads(p, c, v) && d.s.w.time == reading && d.s.w.seen.None? && HoldsNulls(p, a, d.s, v) ==>
                  SeenNulls(p, p.bbs[c.b][c.j], d1.s.w.seen, v))
  {
    hide Expanded, Expand, ExpandIR, Emittable, Witness, ExecV, RunP, HoldsNulls, SeenNulls, ClashesWith;
    var b, j := c.b, c.j;
    var ir, living := p.bbs[b][j], a.marked[b][j].living;
    InstrFacts(p, t, a, b, j);
    var group := ExpandIR(p.vregs, a.phys, a.offs, a.marked[b][j]);
    k := |group|;
    GroupKinds(p, a, a.marked[b][j]);
    GroupShadows(p, a, m, head, reading, ir, living, d.s, v);
    StretchRuns(p, a.phys, a.offs, a.bbs, Witness(p, m, head, reading), b, OffsetIn(p, a, b, j), group, d.s);
  }

  // ----- Both runs -----

  /** What is seen is not seen again. */
  lemma {:induction false} SeenStays<W>(p: Prog, t: Passes, a: Alloc, m: Sem<W>, head: nat, reading: nat, d: Config<PState<World<W>>>, i: nat, n: nat)
    requires i <= n
    requires RunP(p, a.phys, a.offs, a.bbs, Witness(p, m, head, reading), d, i).s.w.seen.Some?
    ensures RunP(p, a.phys, a.offs, a.bbs, Witness(p, m, head, reading), d, n).s.w.seen
         == RunP(p, a.phys, a.offs, a.bbs, Witness(p, m, head, reading), d, i).s.w.seen
  {
    hide RunP, StepP, Witness;
    if i < n {
      SeenStays(p, t, a, m, head, reading, d, i, n - 1);
      SeenStep(p, a, m, head, reading, RunP(p, a.phys, a.offs, a.bbs, Witness(p, m, head, reading), d, n - 1));
      RunPNext(p, a, Witness(p, m, head, reading), d, n);
    }
  }

  lemma RunPNext<S>(p: Prog, a: Alloc, m: Sem<S>, d: Config<PState<S>>, n: nat)
    requires n > 0
    ensures RunP(p, a.phys, a.offs, a.bbs, m, d, n) == StepP(p, a.phys, a.offs, a.bbs, m, RunP(p, a.phys, a.offs, a.bbs, m, d, n - 1))
  {
  }

  lemma SeenStep<W>(p: Prog, a: Alloc, m: Sem<W>, head: nat, reading: nat, d: Config<PState<World<W>>>)
    requires d.s.w.seen.Some?
    ensures StepP(p, a.phys, a.offs, a.bbs, Witness(p, m, head, reading), d).s.w.seen == d.s.w.seen
  {
    hide ExecP;
    if d.At? && d.b < |a.bbs| && d.j < |a.bbs[d.b]| {
      ExecSeen(p, a, m, head, reading, a.bbs[d.b][d.j], d.s);
    }
  }

  lemma ExecSeen<W>(p: Prog, a: Alloc, m: Sem<W>, head: nat, reading: nat, ir: IR, u: PState<World<W>>)
    requires u.w.seen.Some?
    ensures ExecP(p, a.phys, a.offs, Witness(p, m, head, reading), ir, u).w.seen == u.w.seen
  {
    hide WriteRefs, ExecV, OperandP, RefsP;
    var x, y := OperandP(p, a.phys, u, Read1(ir)), OperandP(p, a.phys, u, ir.opr2);
    var o := Witness(p, m, head, reading).exec(Erase(ir), x, y, RefsP(p, a.offs, u), u.w);
    assert o.w == World(ExecV(p, m, Erase(ir), u.w.shadow), u.w.time + 1, See(u.w, reading, x, y));
  }

  lemma {:induction false} RunShadowsV<W>(p: Prog, m: Sem<W>, s: VState<W>, d: Config<VState<World<W>>>, n: nat, r: nat, b: nat, v: nat, i: nat)
    requires WellFormed(p) && Matters(p, m, s, n, r, b, v) && i <= r
    requires ShadowsV(At(0, 0, s), d) && HoldsOnes(p, d.s, v) && !p.vregs[v].addressed && d.s.w.time == 0 && d.s.w.seen.None?
    ensures var e := RunV(p, Witness(p, m, Count(p, m, s, n), Count(p, m, s, r)), d, i);
            && ShadowsV(RunV(p, m, At(0, 0, s), i), e) && HoldsOnes(p, e.s, v)
            && e.s.w.time == Count(p, m, s, i) && e.s.w.seen.None?
  {
    hide StepV, WellFormed, Witness, HoldsOnes, Executes, Reads;
    if i > 0 {
      var c := RunV(p, m, At(0, 0, s), i - 1);
      RunShadowsV(p, m, s, d, n, r, b, v, i - 1);
      if i - 1 < n {
        CountGrows(p, m, s, i - 1, n);
      }
      CountGrows(p, m, s, i - 1, r);
      var head, reading := Count(p, m, s, n), Count(p, m, s, r);
      StepShadowsV(p, m, head, reading, c, RunV(p, Witness(p, m, head, reading), d, i - 1), v);
    }
  }

  lemma {:induction false} RunShadowsP<W>(p: Prog, t: Passes, a: Alloc, m: Sem<W>, s: VState<W>, d: Config<PState<World<W>>>, n: nat, r: nat, b: nat, v: nat, i: nat)
    returns (k: nat)
    requires Expanded(p, t, a) && Shapes(p, t, a) && Matters(p, m, s, n, r, b, v) && i <= r
    requires ClashesWith(p, a, p.bbs[b][0], v)
    requires ShadowsP(p, t, a, At(0, 0, s), d) && d.s.w.time == 0 && d.s.w.seen.None?
    ensures var e := RunP(p, a.phys, a.offs, a.bbs, Witness(p, m, Count(p, m, s, n), Count(p, m, s, r)), d, k);
            && ShadowsP(p, t, a, RunV(p, m, At(0, 0, s), i), e)
            && e.s.w.time == Count(p, m, s, i) && e.s.w.seen.None? && (i > n ==> HoldsNulls(p, a, e.s, v))
  {
    hide StepV, Expanded, Shapes, Witness, HoldsNulls, Executes, Reads, RunP, ShadowsP, ClashesWith;
    var head, reading := Count(p, m, s, n), Count(p, m, s, r);
    if i == 0 {
      k := 0;
      RunPStart(p, a, Witness(p, m, head, reading), d);
    } else {
      var c := RunV(p, m, At(0, 0, s), i - 1);
      var k1 := RunShadowsP(p, t, a, m, s, d, n, r, b, v, i - 1);
      if i - 1 > n {
        CountGrows(p, m, s, n, i - 1);
      }
      CountGrows(p, m, s, i - 1, r);
      var k2 := StepShadowsP(p, t, a, m, head, reading, c, RunP(p, a.phys, a.offs, a.bbs, Witness(p, m, head, reading), d, k1), v);
      RunPJoin(p, a.phys, a.offs, a.bbs, Witness(p, m, head, reading), d, k1, k2);
      k := k1 + k2;
    }
  }

  lemma RunPStart<S>(p: Prog, a: Alloc, m: Sem<S>, d: Config<PState<S>>)
    ensures RunP(p, a.phys, a.offs, a.bbs, m, d, 0) == d
  {
  }

  /** Entry states that agree: every register holds ones, every slot zeros, and the environment the same. */
  lemma Start<W>(p: Prog, t: Passes, a: Alloc, s: VState<W>, v: nat) returns (s': VState<World<W>>, u: PState<World<W>>)
    requires Expanded(p, t, a) && |p.bbs| > 0 && v < |p.vregs| == |a.phys| && !IsConst(p.vregs, v) && 0 <= a.phys[v] < SPILLED
    ensures Entry(p, t, a, s', u) && s'.w == u.w == World(s, 0, None) && HoldsOnes(p, s', v)
    ensures Shapes(p, t, a) && ShadowsP(p, t, a, At(0, 0, s), At(0, 0, u))
  {
    hide WellFormed, AllEmittable, LiveAt, Expand, Fit;
    var file := seq(REGS, r requires 0 <= r < REGS => ONES);
    var w := World(s, 0, None);
    u := PState(file, file, map[], w);
    s' := VState(seq(|p.vregs|, x requires 0 <= x < |p.vregs| => if IsConst(p.vregs, x) then [] else Held(p, a.phys, a.offs, u, x)), w);
    assert a.marked[0][..0] == [];
    NothingExpanded(p, a);
  }

  /**
   A shared head that matters changes what the function does: under this meaning,
   from states that agree, the function sees a value that the allocated code never
   sees, however long it runs.
   */
  lemma ClashChangesResults<W>(p: Prog, t: Passes, a: Alloc, m: Sem<W>, s: VState<W>, n: nat, r: nat, b: nat, v: nat)
    returns (m': Sem<World<W>>, s': VState<World<W>>, u: PState<World<W>>)
    requires WellFormed(p) && AllocatedBy(p, t, a) && AllEmittable(p, a.phys) && SharedHead(p, t, a, b, v)
    requires p.vregs[v].size > 0 && Matters(p, m, s, n, r, b, v)
    ensures Entry(p, t, a, s', u)
    ensures RunV(p, m', At(0, 0, s'), r + 1).s.w.seen.Some?
    ensures forall k: nat :: RunP(p, a.phys, a.offs, a.bbs, m', At(0, 0, u), k).s.w.seen != RunV(p, m', At(0, 0, s'), r + 1).s.w.seen
  {
    m' := Witness(p, m, Count(p, m, s, n), Count(p, m, s, r));
    ClashFacts(p, t, a, b, v);
    AllocExpanded(p, t, a);
    s', u := Start(p, t, a, s, v);
    hide AllocatedBy, AllEmittable, WellFormed, Expanded, Entry, Witness, RunV, RunP, ShadowsP, ShadowsV, HoldsOnes, ClashesWith, SharedHead, Count, Matters;
    assert ShadowsV(At(0, 0, s), At(0, 0, s')) by { StartShadows(s, s'); }
    SourceSees(p, m, s, At(0, 0, s'), n, r, b, v);
    var k := OutputSees(p, t, a, m, s, At(0, 0, u), n, r, b, v);
    OnesOrNulls(p, m, s, n, r, b, v, RunV(p, m', At(0, 0, s'), r + 1).s.w.seen, RunP(p, a.phys, a.offs, a.bbs, m', At(0, 0, u), k).s.w.seen);
    NeverSeen(p, t, a, m, Count(p, m, s, n), Count(p, m, s, r), At(0, 0, u), k, RunV(p, m', At(0, 0, s'), r + 1).s.w.seen);
  }

  ghost predicate SeenOnes(p: Prog, ir: IR, seen: Option<(Bytes, Bytes)>, v: nat) {
    && v < |p.vregs| && seen.Some?
    && (Read1(ir) == Some(v) ==> seen.value.0 == Fit(ONES, p.vregs[v].size))
    && (ir.opr2 == Some(v) ==> seen.value.1 == Fit(ONES, p.vregs[v].size))
  }

  lemma SourceSees<W>(p: Prog, m: Sem<W>, s: VState<W>, d: Config<VState<World<W>>>, n: nat, r: nat, b: nat, v: nat)
    requires WellFormed(p) && Matters(p, m, s, n, r, b, v)
    requires ShadowsV(At(0, 0, s), d) && HoldsOnes(p, d.s, v) && !p.vregs[v].addressed && !IsConst(p.vregs, v) && d.s.w.time == 0 && d.s.w.seen.None?
    ensures Executes(p, RunV(p, m, At(0, 0, s), r))
    ensures var c := RunV(p, m, At(0, 0, s), r);
            SeenOnes(p, p.bbs[c.b][c.j], RunV(p, Witness(p, m, Count(p, m, s, n), Count(p, m, s, r)), d, r + 1).s.w.seen, v)
  {
    hide WellFormed, Witness, StepV, Count, Fit, ShadowsV;
    var m' := Witness(p, m, Count(p, m, s, n), Count(p, m, s, r));
    RunShadowsV(p, m, s, d, n, r, b, v, r);
    ReadV(p, m, Count(p, m, s, n), RunV(p, m, At(0, 0, s), r), RunV(p, m', d, r), v);
    RunVNext(p, m', d, r);
  }

  lemma OutputSees<W>(p: Prog, t: Passes, a: Alloc, m: Sem<W>, s: VState<W>, d: Config<PState<World<W>>>, n: nat, r: nat, b: nat, v: nat)
    returns (k: nat)
    requires Expanded(p, t, a) && Shapes(p, t, a) && Matters(p, m, s, n, r, b, v) && ClashesWith(p, a, p.bbs[b][0], v)
    requires ShadowsP(p, t, a, At(0, 0, s), d) && d.s.w.time == 0 && d.s.w.seen.None?
    ensures Executes(p, RunV(p, m, At(0, 0, s), r))
    ensures var c := RunV(p, m, At(0, 0, s), r);
            SeenNulls(p, p.bbs[c.b][c.j], RunP(p, a.phys, a.offs, a.bbs, Witness(p, m, Count(p, m, s, n), Count(p, m, s, r)), d, k).s.w.seen, v)
  {
    hide Expanded, Witness, RunP, Count, HoldsNulls, ShadowsP, SeenNulls, ClashesWith, StepV;
    var head, reading := Count(p, m, s, n), Count(p, m, s, r);
    var m' := Witness(p, m, head, reading);
    CountGrows(p, m, s, n, r);
    var k0 := RunShadowsP(p, t, a, m, s, d, n, r, b, v, r);
    var k1 := StepShadowsP(p, t, a, m, head, reading, RunV(p, m, At(0, 0, s), r), RunP(p, a.phys, a.offs, a.bbs, m', d, k0), v);
    RunPJoin(p, a.phys, a.offs, a.bbs, m', d, k0, k1);
    k := k0 + k1;
  }

  lemma OnesOrNulls<W>(p: Prog, m: Sem<W>, s: VState<W>, n: nat, r: nat, b: nat, v: nat, x: Option<(Bytes, Bytes)>, y: Option<(Bytes, Bytes)>)
    requires WellFormed(p) && Matters(p, m, s, n, r, b, v) && v < |p.vregs| && p.vregs[v].size > 0 && !p.vregs[v].addressed
    requires Executes(p, RunV(p, m, At(0, 0, s), r))
    requires var c := RunV(p, m, At(0, 0, s), r); SeenOnes(p, p.bbs[c.b][c.j], x, v) && SeenNulls(p, p.bbs[c.b][c.j], y, v)
    ensures x != y
  {
    hide Fit, RunV;
    var c := RunV(p, m, At(0, 0, s), r);
    assert WellFormedIR(p, p.bbs[c.b][c.j]);
    FitsDiffer(p.vregs[v].size);
  }

  lemma NeverSeen<W>(p: Prog, t: Passes, a: Alloc, m: Sem<W>, head: nat, reading: nat, d: Config<PState<World<W>>>, n: nat, x: Option<(Bytes, Bytes)>)
    requires var seen := RunP(p, a.phys, a.offs, a.bbs, Witness(p, m, head, reading), d, n).s.w.seen; seen.Some? && seen != x && x.Some?
    ensures forall k: nat :: RunP(p, a.phys, a.offs, a.bbs, Witness(p, m, head, reading), d, k).s.w.seen != x
  {
    hide RunP, Witness;
    var m' := Witness(p, m, head, reading);
    forall k: nat ensures RunP(p, a.phys, a.offs, a.bbs, m', d, k).s.w.seen != x {
      if RunP(p, a.phys, a.offs, a.bbs, m', d, k).s.w.seen.Some? {
        if k <= n {
          SeenStays(p, t, a, m, head, reading, d, k, n);
        } else {
          SeenStays(p, t, a, m, head, reading, d, n, k);
        }
      }
    }
  }

  lemma StartShadows<W>(s: VState<W>, s': VState<World<W>>)
    requires s'.w.shadow == s
    ensures ShadowsV(At(0, 0, s), At(0, 0, s'))
  {
  }

  lemma FitsDiffer(n: nat)
    requires n > 0
    ensures Fit(ONES, n) != Fit(NULLS, n)
  {
    assert Fit(ONES, n)[0] == 1 && Fit(NULLS, n)[0] == 0;
  }

  lemma ClashFacts(p: Prog, t: Passes, a: Alloc, b: nat, v: nat)
    requires WellFormed(p) && AllocatedBy(p, t, a) && SharedHead(p, t, a, b, v)
    ensures b < |p.bbs| && p.bbs[b] != [] && v < |p.vregs| == |a.phys| && !IsConst(p.vregs, v) && 0 <= a.phys[v] < SPILLED
    ensures !p.vregs[v].addressed && ClashesWith(p, a, p.bbs[b][0], v)
  {
    hide WellFormed, AllocatedBy, LiveAt, Covering, Disjoint, RegistersAre;
    AllocFacts(p, t, a);
  }
}
