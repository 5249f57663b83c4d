/** A function on which the allocator overwrites a needed value. */
module HeadClashExample {
  import opened Options
  import opened Ir
  import opened Liveness
  import opened Intervals
  import opened LinearScan
  import opened ScanInvariant
  import opened SpillCode
  import opened FrameLayout
  import opened RegAlloc
  import opened Machine
  import opened AllocTheorem

  function Plain(kind: IrKind, dst: Option<nat>, opr1: Option<nat>): IR {
    IR(kind, dst, opr1, None, 8, 0, ANY, 0, {})
  }

  function Goto(target: nat): IR {
    IR(JMP, None, None, None, -1, 0, ANY, target, {})
  }

  /** goto set;  use: (a dead value); return v;  set: v = ...; goto use;  end:  with v = 0 and the dead value = 1. */
  function Example(): Prog {
    var reg := VReg(8, 8, false, None, false, false, false, 0);
    Prog([reg, reg], [[Goto(2)],
                      [Plain(IOFS, Some(1), None), Plain(RESULT, None, Some(0)), Goto(3)],
                      [Plain(IOFS, Some(0), None), Goto(1)],
                      []])
  }

  const INN: seq<set<nat>> := [{}, {0}, {}, {}]
  const OUT: seq<set<nat>> := [{}, {}, {0}, {}]

  lemma OneInstr(vregs: seq<VReg>, x: IR)
    ensures Exposed(vregs, [x]) == Uses(vregs, x) && Assigned([x]) == Named(x.dst)
  {
    assert [x][..0] == [];
  }

  lemma TwoInstrs(vregs: seq<VReg>, x: IR, y: IR)
    ensures Exposed(vregs, [x, y]) == Uses(vregs, x) + (Uses(vregs, y) - Named(x.dst))
    ensures Assigned([x, y]) == Named(x.dst) + Named(y.dst)
  {
    OneInstr(vregs, x);
    assert [x, y][..1] == [x];
  }

  lemma ThreeInstrs(vregs: seq<VReg>, x: IR, y: IR, z: IR)
    ensures Exposed(vregs, [x, y, z]) == Uses(vregs, x) + (Uses(vregs, y) - Named(x.dst)) + (Uses(vregs, z) - (Named(x.dst) + Named(y.dst)))
    ensures Assigned([x, y, z]) == Named(x.dst) + Named(y.dst) + Named(z.dst)
  {
    TwoInstrs(vregs, x, y);
    assert [x, y, z][..2] == [x, y];
  }

  lemma BlockSets()
    ensures var p := Example();
            && Exposed(p.vregs, p.bbs[0]) == {} && Assigned(p.bbs[0]) == {}
            && Exposed(p.vregs, p.bbs[1]) == {0} && Assigned(p.bbs[1]) == {1}
            && Exposed(p.vregs, p.bbs[2]) == {} && Assigned(p.bbs[2]) == {0}
            && Exposed(p.vregs, p.bbs[3]) == {} && Assigned(p.bbs[3]) == {}
    ensures Succs(Example(), 0) == {2} && Succs(Example(), 1) == {3} && Succs(Example(), 2) == {1} && Succs(Example(), 3) == {}
  {
    var p := Example();
    OneInstr(p.vregs, p.bbs[0][0]);
    ThreeInstrs(p.vregs, p.bbs[1][0], p.bbs[1][1], p.bbs[1][2]);
    TwoInstrs(p.vregs, p.bbs[2][0], p.bbs[2][1]);
    hide Exposed, Assigned;
  }

  lemma FlowIsLeast()
    ensures LeastFlow(Example(), INN, OUT)
  {
    hide Exposed, Assigned, Succs;
    var p := Example();
    BlockSets();
    forall xi, xo | Closed(p, xi, xo)
      ensures Below(INN, xi) && Below(OUT, xo)
    {
      assert 0 in xi[1] && xi[1] <= xo[2];
    }
  }

  lemma ExampleIsWellFormed()
    ensures WellFormed(Example())
  {
  }

  lemma StillLive()
    ensures 0 in LiveBefore(Example().vregs, Example().bbs[1], 1, OUT[1])
  {
    assert Uses(Example().vregs, Example().bbs[1][1]) == {0};
  }

  // ----- Intervals -----

  const EVENTS: seq<Event> := [Event(0, {}), Event(0, {}), Event(1, {}),
                               Event(1, {0}), Event(1, {1}), Event(2, {0}), Event(3, {}), Event(4, {}),
                               Event(4, {}), Event(4, {0}), Event(5, {}), Event(6, {0}),
                               Event(6, {}), Event(6, {})]

  lemma BlockEventsOf(b: nat, ir: seq<set<nat>>)
    requires b < 4 && |ir| == |Example().bbs[b]| && forall j | 0 <= j < |ir| :: ir[j] == Mentions(Example().bbs[b][j])
    ensures var s := StartOf(Example().bbs, b);
            BlockEvents(Example(), b, INN[b], OUT[b]) ==
            [Event(s, INN[b])] + seq(|ir|, j requires 0 <= j < |ir| => Event(s + j, ir[j])) + [Event(s + |ir|, OUT[b])]
  {
  }

  lemma ExampleEvents()
    ensures Events(Example(), INN, OUT, 4) == EVENTS
  {
    var p := Example();
    assert StartOf(p.bbs, 0) == 0 && StartOf(p.bbs, 1) == 1 && StartOf(p.bbs, 2) == 4 && StartOf(p.bbs, 3) == 6;
    BlockEventsOf(0, [{}]);
    BlockEventsOf(1, [{1}, {0}, {}]);
    BlockEventsOf(2, [{0}, {}]);
    BlockEventsOf(3, []);
    hide BlockEvents, StartOf, Mentions;
    assert Events(p, INN, OUT, 0) == [];
    assert BlockEvents(p, 0, INN[0], OUT[0]) == EVENTS[..3];
    assert BlockEvents(p, 1, INN[1], OUT[1]) == EVENTS[3..8];
    assert BlockEvents(p, 2, INN[2], OUT[2]) == EVENTS[8..12];
    assert BlockEvents(p, 3, INN[3], OUT[3]) == EVENTS[12..];
    assert Events(p, INN, OUT, 1) == EVENTS[..3];
    assert Events(p, INN, OUT, 2) == EVENTS[..8];
    assert Events(p, INN, OUT, 3) == EVENTS[..12];
  }

  lemma HullStep(v: nat, k: nat)
    requires k < |EVENTS|
    ensures Hull(EVENTS[..k + 1], v) ==
            if v in EVENTS[k].regs then Extend(Hull(EVENTS[..k], v), EVENTS[k].pos) else Hull(EVENTS[..k], v)
  {
    assert EVENTS[..k + 1][..k] == EVENTS[..k];
  }

  lemma {:induction false} HullSame(v: nat, k: nat, n: nat)
    requires k <= n <= |EVENTS| && forall i | k <= i < n :: v !in EVENTS[i].regs
    ensures Hull(EVENTS[..n], v) == Hull(EVENTS[..k], v)
  {
    if k < n {
      HullSame(v, k, n - 1);
      HullStep(v, n - 1);
    }
  }

  const LI0 := LiveInterval(0, 1, 6, NORMAL, -1)
  const LI1 := LiveInterval(1, 1, 1, NORMAL, -1)

  lemma ExampleHulls()
    ensures Hull(EVENTS, 0) == LI0 && Hull(EVENTS, 1) == LI1
  {
    hide Hull;
    assert EVENTS[..14] == EVENTS;
    assert EVENTS[..0] == [];
    HullStarts(0);
    HullStarts(1);
    HullSame(0, 0, 3);
    HullStep(0, 3);
    HullSame(0, 4, 5);
    HullStep(0, 5);
    HullSame(0, 6, 9);
    HullStep(0, 9);
    HullSame(0, 10, 11);
    HullStep(0, 11);
    HullSame(0, 12, 14);
    HullSame(1, 0, 4);
    HullStep(1, 4);
    HullSame(1, 5, 14);
  }

  lemma HullStarts(v: nat)
    ensures Hull([], v) == NewInterval(v)
  {
  }

  // ----- The scan -----

  /** Both intervals start at 1, and the sort exchanges them. */
  const ORDER: seq<nat> := [1, 0]

  lemma ExampleScan()
    ensures ScanRun(Example().vregs, [LI0, LI1], ORDER, 2).ivs == [LI0.(phys := 0), LI1.(phys := 0)]
  {
    var vregs := Example().vregs;
    var none := Active([], {}, {});
    var s0 := Scan([LI0, LI1], none, none);
    assert ScanRun(vregs, [LI0, LI1], ORDER, 0) == s0;
    assert FirstFree({}, 6, 0) == 0;
    var ivs1 := [LI0, LI1.(phys := 0)];
    var s1 := Advance(vregs, s0, 1);
    assert s1.ivs == ivs1 && s1.ireg.list == [1] && s1.ireg.using == {0} && s1.freg.list == [];
    assert Expired(ivs1, [1], 1) == 1 by {
      assert [1][1..] == [];
    }
    assert Regs(ivs1, [1][..1]) == {0} by {
      assert [1][..1] == [1];
      assert [1][0] == 1;
    }
    assert Expire(ivs1, s1.ireg, 1).list == [] && Expire(ivs1, s1.ireg, 1).using == {};
  }

  lemma FlowIsOne(p: Prog, inn: seq<set<nat>>, out: seq<set<nat>>, inn2: seq<set<nat>>, out2: seq<set<nat>>)
    requires LeastFlow(p, inn, out) && LeastFlow(p, inn2, out2)
    ensures inn == inn2 && out == out2
  {
    hide Closed, Sound;
    BelowBoth(inn, inn2);
    BelowBoth(out, out2);
  }

  lemma BelowBoth(a: seq<set<nat>>, b: seq<set<nat>>)
    requires Below(a, b) && Below(b, a)
    ensures a == b
  {
    forall i | 0 <= i < |a| ensures a[i] == b[i] {}
  }

  /** What the passes of any allocation of the example yield. */
  lemma ExamplePasses(t: Passes)
    requires FrontPasses(Example(), t)
    ensures t.out == OUT && t.hulls == [LI0, LI1]
    ensures t.order == ORDER ==> t.ivs == [LI0.(phys := 0), LI1.(phys := 0)]
  {
    var p := Example();
    FlowIsLeast();
    ExampleEvents();
    ExampleHulls();
    ExampleScan();
    hide LeastFlow, Events, ScanRun, Hull, SortedByStart;
    FlowIsOne(p, t.inn, t.out, INN, OUT);
    assert t.hulls[0] == LI0 && t.hulls[1] == LI1;
    assert t.hulls == [LI0, LI1];
    assert t.ivs0[0] == LI0 && t.ivs0[1] == LI1;
    assert t.ivs0 == [LI0, LI1];
    if t.order == ORDER {
      assert ScanRun(p.vregs, t.ivs0, t.order, |t.order|) == ScanRun(Example().vregs, [LI0, LI1], ORDER, 2);
    }
  }

  // ----- The code -----

  lemma {:induction false} NothingSpilled(vregs: seq<VReg>, phys: seq<int>, offs: seq<int>, irs: Block)
    requires forall v | 0 <= v < |phys| :: phys[v] != SPILLED
    ensures Expand(vregs, phys, offs, irs) == irs
  {
    if irs != [] {
      var last := |irs| - 1;
      NothingSpilled(vregs, phys, offs, irs[..last]);
      NoneSpilled(vregs, phys, offs, irs[last]);
      hide ExpandIR;
      assert irs == irs[..last] + [irs[last]];
    }
  }

  lemma NoneSpilled(vregs: seq<VReg>, phys: seq<int>, offs: seq<int>, ir: IR)
    requires forall v | 0 <= v < |phys| :: phys[v] != SPILLED
    ensures ExpandIR(vregs, phys, offs, ir) == [ir]
  {
    hide RuleOf;
    assert Loads(vregs, phys, offs, ir) == [] && Stores(vregs, phys, offs, ir) == [];
  }

  /** Both values are in register 0. */
  lemma ExamplePhys(t: Passes, a: Alloc)
    requires AllocatedBy(Example(), t, a) && t.order == ORDER
    ensures a.phys == [0, 0] && |a.offs| == 2 && t.out == OUT && t.hulls == [LI0, LI1]
  {
    var p := Example();
    hide FrontPasses, ScanRun, Expand;
    ExamplePasses(t);
    assert |a.phys| == 2 && a.phys[0] == t.ivs[0].phys && a.phys[1] == t.ivs[1].phys;
    assert |a.offs| == 2 by { OffsCount(p, t, a); }
  }

  lemma OffsCount(p: Prog, t: Passes, a: Alloc)
    requires AllocatedBy(p, t, a)
    ensures |a.offs| == |p.vregs|
  {
    hide FrontPasses, ScanRun, Expand;
  }

  /** The code is as it was. */
  lemma ExampleCode(t: Passes, a: Alloc)
    requires AllocatedBy(Example(), t, a) && a.phys == [0, 0]
    ensures a.bbs == Example().bbs
  {
    ExampleIsWellFormed();
    ExampleHasNoCalls();
    hide AllocatedBy, WellFormed, Expand, Example;
    var p := Example();
    AllocShape(p, t, a);
    forall b | 0 <= b < |p.bbs| ensures a.bbs[b] == p.bbs[b] {
      BlockSame(p, t, a, b);
    }
  }

  lemma AllocShape(p: Prog, t: Passes, a: Alloc)
    requires AllocatedBy(p, t, a)
    ensures |a.bbs| == |p.bbs|
  {
    hide FrontPasses, Expand;
  }

  lemma BlockSame(p: Prog, t: Passes, a: Alloc, b: nat)
    requires WellFormed(p) && AllocatedBy(p, t, a) && b < |p.bbs| == |a.bbs|
    requires (forall j | 0 <= j < |p.bbs[b]| :: p.bbs[b][j].kind != CALL) && forall v | 0 <= v < |a.phys| :: a.phys[v] != SPILLED
    ensures a.bbs[b] == p.bbs[b]
  {
    hide AllocatedBy, WellFormed, Expand, FrontPasses;
    AllocParts(p, t, a);
    forall j | 0 <= j < |p.bbs[b]| ensures a.marked[b][j] == p.bbs[b][j] {
      InstrMarked(p, t, a, b, j);
    }
    assert a.marked[b] == p.bbs[b];
    NothingSpilled(p.vregs, a.phys, a.offs, p.bbs[b]);
  }

  lemma ExampleHasNoCalls()
    ensures forall b, j | 0 <= b < |Example().bbs| && 0 <= j < |Example().bbs[b]| :: Example().bbs[b][j].kind != CALL
  {
  }

  lemma ExampleEmittable()
    ensures AllEmittable(Example(), [0, 0])
  {
  }

  // ----- The two runs -----

  const ONES: Bytes := [1, 1, 1, 1, 1, 1, 1, 1]
  const NULLS: Bytes := [0, 0, 0, 0, 0, 0, 0, 0]

  /** The world is the value returned; `v` gets ones and the dead value zeros. */
  function Meaning(): Sem<Bytes> {
    Sem((ir: IR, x: Bytes, y: Bytes, refs: map<nat, Bytes>, w: Bytes) =>
          if ir.kind == RESULT then Outcome([], map[], x) else Outcome(if ir.dst == Some(0) then ONES else NULLS, map[], w),
        (c: CondKind, w: Bytes) => false,
        (w: Bytes, fl: bool, r: nat) => NULLS)
  }

  function StartV(): VState<Bytes> {
    VState([NULLS, NULLS], NULLS)
  }

  function StartP(): PState<Bytes> {
    PState([NULLS, NULLS, NULLS, NULLS, NULLS, NULLS, NULLS], [NULLS, NULLS, NULLS, NULLS, NULLS, NULLS, NULLS], map[], NULLS)
  }

  lemma SetsV(dst: nat, s: VState<Bytes>)
    requires dst < 2 && |s.env| == 2
    ensures ExecV(Example(), Meaning(), Plain(IOFS, Some(dst), None), s) == VState(s.env[dst := if dst == 0 then ONES else NULLS], s.w)
  {
    assert EnvAfter(Example(), s.env, map[]) == s.env;
  }

  lemma GivesV(s: VState<Bytes>)
    requires |s.env| == 2
    ensures ExecV(Example(), Meaning(), Plain(RESULT, None, Some(0)), s) == VState(s.env, s.env[0])
  {
    assert EnvAfter(Example(), s.env, map[]) == s.env;
  }

  lemma NoRefs(offs: seq<int>, frame: map<int, bv8>)
    ensures WriteRefs(Example(), offs, frame, map[], 2) == frame
  {
    assert WriteRefs(Example(), offs, frame, map[], 0) == frame;
    assert WriteRefs(Example(), offs, frame, map[], 1) == frame;
  }

  lemma SetsP(offs: seq<int>, dst: nat, u: PState<Bytes>)
    requires dst < 2 && |u.iregs| == REGS
    ensures ExecP(Example(), [0, 0], offs, Meaning(), Plain(IOFS, Some(dst), None), u) == u.(iregs := u.iregs[0 := if dst == 0 then ONES else NULLS])
  {
    NoRefs(offs, u.frame);
    hide WriteRefs, OperandP, RefsP;
    assert Erase(Plain(IOFS, Some(dst), None)) == Plain(IOFS, Some(dst), None);
  }

  lemma GivesP(offs: seq<int>, u: PState<Bytes>)
    requires |u.iregs| == REGS && |u.iregs[0]| == 8
    ensures ExecP(Example(), [0, 0], offs, Meaning(), Plain(RESULT, None, Some(0)), u) == u.(w := u.iregs[0])
  {
    NoRefs(offs, u.frame);
    hide WriteRefs, RefsP;
    assert Erase(Plain(RESULT, None, Some(0))) == Plain(RESULT, None, Some(0));
  }

  /** The function returns ones. */
  lemma ReturnsOnes()
    ensures RunV(Example(), Meaning(), At(0, 0, StartV()), 7) == Halt(VState([ONES, NULLS], ONES))
  {
    var p, m := Example(), Meaning();
    var c0 := At(0, 0, StartV());
    var s1 := VState([ONES, NULLS], NULLS);
    var s2 := VState([ONES, NULLS], ONES);
    SetsV(0, StartV());
    SetsV(1, s1);
    GivesV(s1);
    assert [NULLS, NULLS][0 := ONES] == s1.env && s1.env[1 := NULLS] == s1.env;
    hide ExecV;
    assert RunV(p, m, c0, 0) == c0;
    assert RunV(p, m, c0, 1) == At(2, 0, StartV());
    assert RunV(p, m, c0, 2) == At(2, 1, s1);
    assert RunV(p, m, c0, 3) == At(1, 0, s1);
    assert RunV(p, m, c0, 4) == At(1, 1, s1);
    assert RunV(p, m, c0, 5) == At(1, 2, s2);
    assert RunV(p, m, c0, 6) == At(3, 0, s2);
  }

  /** The allocated code returns zeros. */
  lemma ReturnsNulls(offs: seq<int>)
    ensures RunP(Example(), [0, 0], offs, Example().bbs, Meaning(), At(0, 0, StartP()), 7) == Halt(StartP())
  {
    var p, m, r := Example(), Meaning(), [0, 0];
    var bbs := p.bbs;
    var c0 := At(0, 0, StartP());
    var u1 := StartP().(iregs := StartP().iregs[0 := ONES]);
    SetsP(offs, 0, StartP());
    SetsP(offs, 1, u1);
    assert u1.(iregs := u1.iregs[0 := NULLS]) == StartP();
    GivesP(offs, StartP());
    hide ExecP;
    assert RunP(p, r, offs, bbs, m, c0, 0) == c0;
    assert RunP(p, r, offs, bbs, m, c0, 1) == At(2, 0, StartP());
    assert RunP(p, r, offs, bbs, m, c0, 2) == At(2, 1, u1);
    assert RunP(p, r, offs, bbs, m, c0, 3) == At(1, 0, u1);
    assert RunP(p, r, offs, bbs, m, c0, 4) == At(1, 1, StartP());
    assert RunP(p, r, offs, bbs, m, c0, 5) == At(1, 2, StartP());
    assert RunP(p, r, offs, bbs, m, c0, 6) == At(3, 0, StartP());
  }

  lemma Agreeing(t: Passes, a: Alloc)
    requires a.phys == [0, 0] && |a.offs| == 2 && |t.out| == 4
    ensures Entry(Example(), t, a, StartV(), StartP())
  {
    hide LiveAt;
  }

  /**
   The allocator itself gives both values register 0 here, and its code returns
   zeros where the function returns ones, though they start alike.
   */
  method NeededValueOverwritten() returns (a: Alloc, ghost t: Passes)
    ensures var p := Example();
            && WellFormed(p) && AllocatedBy(p, t, a) && AllEmittable(p, a.phys) && Overwrites(p, t, a, 1, 0, 0)
            && Entry(p, t, a, StartV(), StartP())
            && ReturnsV(p, Meaning(), StartV(), 7, ONES)
            && forall k: nat :: !ReturnsP(p, a, Meaning(), StartP(), k, ONES)
  {
    hide AllocatedBy, WellFormed, AllEmittable, ExecV, ExecP, RunV, RunP, Entry, LiveBefore;
    ExampleIsWellFormed();
    assert ParamsPlaced(Example().vregs);
    a, t := AllocPhysicalRegisters(Example());
    TieHere(t, a);
    ExamplePhys(t, a);
    ExampleCode(t, a);
    ExampleEmittable();
    Agreeing(t, a);
    StillLive();
    ReturnsOnes();
    ReturnsNulls(a.offs);
    forall k: nat ensures !ReturnsP(Example(), a, Meaning(), StartP(), k, ONES) {
      OnlyNulls(a, k);
    }
  }

  lemma TieHere(t: Passes, a: Alloc)
    requires AllocatedBy(Example(), t, a) && TieOrder(t.hulls, t.order)
    ensures t.order == ORDER
  {
    hide FrontPasses, ScanRun, Expand;
    ExamplePasses(t);
  }

  lemma OnlyNulls(a: Alloc, k: nat)
    requires a.phys == [0, 0] && a.bbs == Example().bbs
    requires RunP(Example(), a.phys, a.offs, a.bbs, Meaning(), At(0, 0, StartP()), 7) == Halt(StartP())
    ensures !ReturnsP(Example(), a, Meaning(), StartP(), k, ONES)
  {
    hide RunP;
    var c0 := At(0, 0, StartP());
    if RunP(Example(), a.phys, a.offs, a.bbs, Meaning(), c0, k).Halt? {
      if k <= 7 {
        HaltedStays(Example(), a.phys, a.offs, a.bbs, Meaning(), c0, k, 7);
      } else {
        HaltedStays(Example(), a.phys, a.offs, a.bbs, Meaning(), c0, 7, k);
      }
    }
  }
}
