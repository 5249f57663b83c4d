/**
 Register allocation run by run. What counts in a run is which values it reads
 again before assigning them. A run is preserved when no such value sits in a
 shared head that the run executes.
 */
module NeededRuns {
  import opened Options
  import opened Ir
  import opened Liveness
  import opened RegAlloc
  import opened SpillCode
  import opened Machine
  import opened AllocSim
  import opened AllocTheorem

  // ----- What a run reads -----

  predicate Executes<W>(p: Prog, c: Config<VState<W>>) {
    c.At? && c.b < |p.bbs| && c.j < |p.bbs[c.b]| && p.bbs[c.b][c.j].kind != JMP
  }

  predicate Assigns<W>(p: Prog, c: Config<VState<W>>, v: nat) {
    Executes(p, c) && p.bbs[c.b][c.j].dst.Some? && p.bbs[c.b][c.j].dst.value == v
  }

  predicate Reads<W>(p: Prog, c: Config<VState<W>>, v: nat) {
    Executes(p, c) && v in Uses(p.vregs, p.bbs[c.b][c.j])
  }

  /** The run reads `v` after `r` steps, and from `i` steps on has not assigned it. */
  ghost predicate ReadAt<W>(p: Prog, m: Sem<W>, s: VState<W>, i: nat, r: nat, v: nat) {
    && i <= r && Reads(p, RunV(p, m, At(0, 0, s), r), v)
    && forall k: nat | i <= k < r :: !Assigns(p, RunV(p, m, At(0, 0, s), k), v)
  }

  ghost predicate NeededAt<W>(p: Prog, m: Sem<W>, s: VState<W>, i: nat, v: nat) {
    exists r: nat :: ReadAt(p, m, s, i, r, v)
  }

  /** A run that executes the head of block `b` after `n` steps and reads `v`, not assigned since, after `r`. */
  ghost predicate Matters<W>(p: Prog, m: Sem<W>, s: VState<W>, n: nat, r: nat, b: nat, v: nat) {
    && n < r && ReadAt(p, m, s, n, r, v)
    && Executes(p, RunV(p, m, At(0, 0, s), n))
    && RunV(p, m, At(0, 0, s), n).b == b && RunV(p, m, At(0, 0, s), n).j == 0
  }

  ghost function Needed<W>(p: Prog, m: Sem<W>, s: VState<W>, i: nat): set<nat> {
    set v: nat | v < |p.vregs| && NeededAt(p, m, s, i, v)
  }

  lemma RunVNext<S>(p: Prog, m: Sem<S>, c: Config<VState<S>>, n: nat)
    ensures RunV(p, m, c, n + 1) == StepV(p, m, RunV(p, m, c, n))
  {
  }

  /** What is needed behind a step and not assigned by it is needed ahead of it. */
  lemma NeededBefore<W>(p: Prog, m: Sem<W>, s: VState<W>, i: nat, v: nat)
    requires NeededAt(p, m, s, i + 1, v) && !Assigns(p, RunV(p, m, At(0, 0, s), i), v)
    ensures NeededAt(p, m, s, i, v)
  {
    hide RunV, Assigns, Reads;
    var r: nat :| ReadAt(p, m, s, i + 1, r, v);
    assert ReadAt(p, m, s, i, r, v);
  }

  lemma NeededNow<W>(p: Prog, m: Sem<W>, s: VState<W>, i: nat, v: nat)
    requires Reads(p, RunV(p, m, At(0, 0, s), i), v)
    ensures NeededAt(p, m, s, i, v)
  {
    hide RunV, Assigns, Reads;
    assert ReadAt(p, m, s, i, i, v);
  }

  // ----- It is live -----

  /** Where a run can be. */
  ghost predicate InCode<W>(p: Prog, c: Config<VState<W>>) {
    c.At? ==> c.b < |p.bbs| && c.j <= |p.bbs[c.b]| && MayEnd(p.bbs[c.b], c.j)
  }

  lemma StepInCode<W>(p: Prog, m: Sem<W>, c: Config<VState<W>>)
    requires WellFormed(p) && InCode(p, c)
    ensures InCode(p, StepV(p, m, c))
  {
    hide ExecV;
    if c.At? && c.j < |p.bbs[c.b]| {
      assert WellFormedIR(p, p.bbs[c.b][c.j]);
    }
  }

  lemma AllocFlow(p: Prog, t: Passes, a: Alloc)
    requires AllocatedBy(p, t, a)
    ensures LeastFlow(p, t.inn, t.out) && |t.out| == |p.bbs|
  {
    hide FrontPasses, Expand, AllocatedBy;
    AllocParts(p, t, a);
    FrontParts(p, t);
  }

  /** A value live behind a step and not assigned by it is live ahead of it. */
  lemma StepLive<W>(p: Prog, t: Passes, m: Sem<W>, c: Config<VState<W>>, v: nat)
    requires WellFormed(p) && LeastFlow(p, t.inn, t.out) && |t.out| == |p.bbs| && InCode(p, c) && InCode(p, StepV(p, m, c))
    requires StepV(p, m, c).At? && v in LiveAt(p, t, StepV(p, m, c).b, StepV(p, m, c).j) && !Assigns(p, c, v)
    ensures c.At? && v in LiveAt(p, t, c.b, c.j)
  {
    hide LeastFlow, WellFormed, LiveAt, ExecV, Mentions, Uses, Succs;
    if c.At? && c.j == |p.bbs[c.b]| {
      NextIsSucc(p, c.b);
      EnterBlock(p, t, c.b, c.b + 1);
    } else if c.At? && Executes(p, c) {
      LiveStep(p, t, c.b, c.j);
    } else if c.At? {
      JumpLive(p, t, m, c, v);
    }
  }

  lemma JumpLive<W>(p: Prog, t: Passes, m: Sem<W>, c: Config<VState<W>>, v: nat)
    requires WellFormed(p) && LeastFlow(p, t.inn, t.out) && |t.out| == |p.bbs| && InCode(p, c) && c.At? && c.j < |p.bbs[c.b]|
    requires p.bbs[c.b][c.j].kind == JMP && InCode(p, StepV(p, m, c))
    requires v in LiveAt(p, t, StepV(p, m, c).b, StepV(p, m, c).j)
    ensures v in LiveAt(p, t, c.b, c.j)
  {
    hide LeastFlow;
    var b, j := c.b, c.j;
    var ir := p.bbs[b][j];
    assert WellFormedIR(p, ir);
    LiveStep(p, t, b, j);
    hide LiveAt;
    if Jumps(m, ir, c.s.w) {
      assert LastJmp(p.bbs[b]) == Some(ir) && ir.target in Succs(p, b);
      EnterBlock(p, t, b, ir.target);
    }
  }

  lemma {:induction false} ReadIsLive<W>(p: Prog, t: Passes, m: Sem<W>, s: VState<W>, i: nat, r: nat, v: nat)
    requires WellFormed(p) && LeastFlow(p, t.inn, t.out) && |t.out| == |p.bbs|
    requires ReadAt(p, m, s, i, r, v) && InCode(p, RunV(p, m, At(0, 0, s), i))
    ensures var c := RunV(p, m, At(0, 0, s), i); c.At? && v in LiveAt(p, t, c.b, c.j)
    decreases r - i
  {
    hide LeastFlow, WellFormed, LiveAt, StepV;
    var c := RunV(p, m, At(0, 0, s), i);
    if i == r {
      LiveStep(p, t, c.b, c.j);
    } else {
      RunVNext(p, m, At(0, 0, s), i);
      StepInCode(p, m, c);
      ReadIsLive(p, t, m, s, i + 1, r, v);
      StepLive(p, t, m, c, v);
    }
  }

  /** What a run needs is live where it is. */
  lemma NeededIsLive<W>(p: Prog, t: Passes, m: Sem<W>, s: VState<W>, i: nat)
    requires WellFormed(p) && LeastFlow(p, t.inn, t.out) && |t.out| == |p.bbs|
    requires InCode(p, RunV(p, m, At(0, 0, s), i)) && RunV(p, m, At(0, 0, s), i).At?
    ensures var c := RunV(p, m, At(0, 0, s), i); Needed(p, m, s, i) <= LiveAt(p, t, c.b, c.j)
  {
    hide LeastFlow, WellFormed, LiveAt, RunV, ReadAt;
    forall v | v in Needed(p, m, s, i) ensures var c := RunV(p, m, At(0, 0, s), i); v in LiveAt(p, t, c.b, c.j) {
      var r: nat :| ReadAt(p, m, s, i, r, v);
      ReadIsLive(p, t, m, s, i, r, v);
    }
  }

  // ----- The simulation -----

  /** The same place in the allocated code, with the values in `live` where they belong. */
  ghost predicate Tracks<W>(p: Prog, t: Passes, a: Alloc, live: set<nat>, c: Config<VState<W>>, d: Config<PState<W>>)
    requires Shapes(p, t, a)
  {
    && Agree(p, a.phys, a.offs, live, c.s, d.s) && InCode(p, c)
    && (c.At? <==> d.At?) && (c.At? ==> d.b == c.b && d.j == OffsetIn(p, a, c.b, c.j))
  }

  /** No value in a shared head is needed behind the head. */
  ghost predicate NoneMatters<W>(p: Prog, t: Passes, a: Alloc, m: Sem<W>, s: VState<W>) {
    forall n: nat, r: nat, b: nat, v: nat | SharedHead(p, t, a, b, v) :: !Matters(p, m, s, n, r, b, v)
  }

  lemma EndTracks<W>(p: Prog, t: Passes, a: Alloc, m: Sem<W>, live: set<nat>, c: Config<VState<W>>, d: Config<PState<W>>)
    requires Expanded(p, t, a) && Shapes(p, t, a) && Tracks(p, t, a, live, c, d) && c.At? && c.j == |p.bbs[c.b]|
    ensures Tracks(p, t, a, live, StepV(p, m, c), StepP(p, a.phys, a.offs, a.bbs, m, d))
  {
    hide Agree, Expand, Expanded;
    EndOffset(p, t, a, c.b);
    if c.b + 1 < |p.bbs| {
      assert a.marked[c.b + 1][..0] == [];
      NothingExpanded(p, a);
    }
  }

  lemma JumpTracks<W>(p: Prog, t: Passes, a: Alloc, m: Sem<W>, live: set<nat>, c: Config<VState<W>>, d: Config<PState<W>>)
    requires Expanded(p, t, a) && Shapes(p, t, a) && Tracks(p, t, a, live, c, d) && c.At? && c.j < |p.bbs[c.b]| && p.bbs[c.b][c.j].kind == JMP
    ensures Tracks(p, t, a, live, StepV(p, m, c), StepP(p, a.phys, a.offs, a.bbs, m, d))
  {
    hide Agree, Expand, Expanded, Emittable, ExpandIR;
    var b, j := c.b, c.j;
    var ir := p.bbs[b][j];
    InstrFacts(p, t, a, b, j);
    GroupKinds(p, a, ir);
    AgreeWorld(p, a.phys, a.offs, live, c.s, d.s);
    assert a.bbs[b][OffsetIn(p, a, b, j)] == a.bbs[b][OffsetIn(p, a, b, j)..OffsetIn(p, a, b, j + 1)][0] == ir;
    assert a.marked[ir.target][..0] == [];
    NothingExpanded(p, a);
  }

  lemma InstrTracks<W>(p: Prog, t: Passes, a: Alloc, m: Sem<W>, live: set<nat>, after: set<nat>, c: Config<VState<W>>, d: Config<PState<W>>)
    returns (k: nat)
    requires Expanded(p, t, a) && Shapes(p, t, a) && Tracks(p, t, a, live, c, d) && Executes(p, c)
    requires var ir := p.bbs[c.b][c.j];
             && Undisturbed(p, a.phys, ir, a.marked[c.b][c.j].living, after)
             && Uses(p.vregs, ir) <= live && after - Named(ir.dst) <= live
    ensures k >= 1 && Tracks(p, t, a, after, StepV(p, m, c), RunP(p, a.phys, a.offs, a.bbs, m, d, k))
  {
    hide Agree, Expand, Expanded, Emittable, Undisturbed, ExecV, RunP, ExpandIR;
    var b, j := c.b, c.j;
    InstrFacts(p, t, a, b, j);
    ExpandedPlaced(p, t, a);
    var ir, living := p.bbs[b][j], a.marked[b][j].living;
    var group := ExpandIR(p.vregs, a.phys, a.offs, a.marked[b][j]);
    k := |group|;
    GroupKinds(p, a, a.marked[b][j]);
    GroupSize(p, a, a.marked[b][j]);
    InstrSim(p, a.phys, a.offs, m, ir, living, live, after, c.s, d.s);
    StretchRuns(p, a.phys, a.offs, a.bbs, m, b, OffsetIn(p, a, b, j), group, d.s);
  }

  lemma ExpandedPlaced(p: Prog, t: Passes, a: Alloc)
    requires Expanded(p, t, a)
    ensures Placed(p, a.phys, a.offs) && WellFormed(p) && Shapes(p, t, a)
  {
  }

  /** One step of a run in which no shared head matters. */
  lemma StepTracks<W>(p: Prog, t: Passes, a: Alloc, m: Sem<W>, s: VState<W>, i: nat, d: Config<PState<W>>) returns (k: nat)
    requires WellFormed(p) && AllocatedBy(p, t, a) && Expanded(p, t, a) && Shapes(p, t, a) && NoneMatters(p, t, a, m, s)
    requires Tracks(p, t, a, Needed(p, m, s, i), RunV(p, m, At(0, 0, s), i), d)
    ensures k >= 1 && Tracks(p, t, a, Needed(p, m, s, i + 1), RunV(p, m, At(0, 0, s), i + 1), RunP(p, a.phys, a.offs, a.bbs, m, d, k))
  {
    hide AllocatedBy, WellFormed, Expanded, Agree, StepV, RunV, NoneMatters;
    k := 1;
    var c := RunV(p, m, At(0, 0, s), i);
    RunVNext(p, m, At(0, 0, s), i);
    if Executes(p, c) {
      NeededKept(p, t, a, m, s, i);
      k := InstrTracks(p, t, a, m, Needed(p, m, s, i), Needed(p, m, s, i + 1), c, d);
    } else {
      forall v | v in Needed(p, m, s, i + 1) ensures v in Needed(p, m, s, i) {
        NeededBefore(p, m, s, i, v);
      }
      RunPOne(p, a, m, d);
      if c.Halt? {
        HaltTracks(p, t, a, m, Needed(p, m, s, i), c, d);
      } else if c.j == |p.bbs[c.b]| {
        EndTracks(p, t, a, m, Needed(p, m, s, i), c, d);
      } else {
        JumpTracks(p, t, a, m, Needed(p, m, s, i), c, d);
      }
      TracksFewer(p, t, a, Needed(p, m, s, i), Needed(p, m, s, i + 1), RunV(p, m, At(0, 0, s), i + 1), RunP(p, a.phys, a.offs, a.bbs, m, d, 1));
    }
  }

  lemma HaltTracks<W>(p: Prog, t: Passes, a: Alloc, m: Sem<W>, live: set<nat>, c: Config<VState<W>>, d: Config<PState<W>>)
    requires Shapes(p, t, a) && Tracks(p, t, a, live, c, d) && c.Halt?
    ensures Tracks(p, t, a, live, StepV(p, m, c), StepP(p, a.phys, a.offs, a.bbs, m, d))
  {
    hide Agree;
  }

  lemma RunPOne<S>(p: Prog, a: Alloc, m: Sem<S>, d: Config<PState<S>>)
    ensures RunP(p, a.phys, a.offs, a.bbs, m, d, 1) == StepP(p, a.phys, a.offs, a.bbs, m, d)
  {
    assert RunP(p, a.phys, a.offs, a.bbs, m, d, 0) == d;
  }

  lemma TracksFewer<W>(p: Prog, t: Passes, a: Alloc, live: set<nat>, fewer: set<nat>, c: Config<VState<W>>, d: Config<PState<W>>)
    requires Shapes(p, t, a) && Tracks(p, t, a, live, c, d) && fewer <= live
    ensures Tracks(p, t, a, fewer, c, d)
  {
    hide Agree;
    AgreeFewer(p, a.phys, a.offs, live, fewer, c.s, d.s);
  }

  /** What the run needs behind an instruction survives it. */
  lemma NeededKept<W>(p: Prog, t: Passes, a: Alloc, m: Sem<W>, s: VState<W>, i: nat)
    requires WellFormed(p) && AllocatedBy(p, t, a) && Shapes(p, t, a) && NoneMatters(p, t, a, m, s)
    requires var c := RunV(p, m, At(0, 0, s), i); InCode(p, c) && Executes(p, c)
    ensures var c := RunV(p, m, At(0, 0, s), i);
            var ir := p.bbs[c.b][c.j];
            && Undisturbed(p, a.phys, ir, a.marked[c.b][c.j].living, Needed(p, m, s, i + 1))
            && Uses(p.vregs, ir) <= Needed(p, m, s, i) && Needed(p, m, s, i + 1) - Named(ir.dst) <= Needed(p, m, s, i)
  {
    hide AllocatedBy, LeastFlow, Undisturbed, LiveAt, NeededAt, RunV, ExecV, SharedHead, MayEnd;
    var c := RunV(p, m, At(0, 0, s), i);
    var ir := p.bbs[c.b][c.j];
    RunVNext(p, m, At(0, 0, s), i);
    StepInCode(p, m, c);
    AllocFlow(p, t, a);
    NeededIsLive(p, t, m, s, i + 1);
    assert RunV(p, m, At(0, 0, s), i + 1).b == c.b && RunV(p, m, At(0, 0, s), i + 1).j == c.j + 1;
    forall v | v in Uses(p.vregs, ir) ensures v in Needed(p, m, s, i) {
      UsedExists(p, ir, v, c.b, c.j);
      NeededNow(p, m, s, i, v);
    }
    forall v | v in Needed(p, m, s, i + 1) - Named(ir.dst) ensures v in Needed(p, m, s, i) {
      NeededBefore(p, m, s, i, v);
    }
    if c.j == 0 {
      forall v | v in Needed(p, m, s, i + 1) ensures !SharedHead(p, t, a, c.b, v) {
        NotInHead(p, t, a, m, s, i, v);
      }
    }
    hide WellFormed, InCode, StepV;
    InstrKeeps(p, t, a, c.b, c.j, Needed(p, m, s, i + 1));
  }

  lemma UsedExists(p: Prog, ir: IR, v: nat, b: nat, j: nat)
    requires WellFormed(p) && b < |p.bbs| && j < |p.bbs[b]| && ir == p.bbs[b][j] && v in Uses(p.vregs, ir)
    ensures v < |p.vregs|
  {
    assert WellFormedIR(p, ir);
    assert v in Mentions(ir);
  }

  lemma NotInHead<W>(p: Prog, t: Passes, a: Alloc, m: Sem<W>, s: VState<W>, i: nat, v: nat)
    requires NoneMatters(p, t, a, m, s) && NeededAt(p, m, s, i + 1, v)
    requires var c := RunV(p, m, At(0, 0, s), i); Executes(p, c) && c.j == 0
    ensures !SharedHead(p, t, a, RunV(p, m, At(0, 0, s), i).b, v)
  {
    hide RunV;
    var c := RunV(p, m, At(0, 0, s), i);
    var r: nat :| ReadAt(p, m, s, i + 1, r, v);
    if SharedHead(p, t, a, c.b, v) {
      HeadMatters(p, t, a, m, s, i, r, v);
    }
  }

  lemma HeadMatters<W>(p: Prog, t: Passes, a: Alloc, m: Sem<W>, s: VState<W>, i: nat, r: nat, v: nat)
    requires var c := RunV(p, m, At(0, 0, s), i); Executes(p, c) && c.j == 0 && SharedHead(p, t, a, c.b, v)
    requires ReadAt(p, m, s, i + 1, r, v)
    ensures Matters(p, m, s, i, r, RunV(p, m, At(0, 0, s), i).b, v)
  {
    hide RunV;
    HeadAssignsOther(p, t, a, RunV(p, m, At(0, 0, s), i).b, v);
  }

  lemma HeadAssignsOther(p: Prog, t: Passes, a: Alloc, b: nat, v: nat)
    requires SharedHead(p, t, a, b, v)
    ensures b < |p.bbs| && p.bbs[b] != [] && p.bbs[b][0].dst.Some? && p.bbs[b][0].dst.value != v
  {
  }

  lemma {:induction false} RunTracks<W>(p: Prog, t: Passes, a: Alloc, m: Sem<W>, s: VState<W>, d: Config<PState<W>>, n: nat) returns (k: nat)
    requires WellFormed(p) && AllocatedBy(p, t, a) && Expanded(p, t, a) && Shapes(p, t, a) && NoneMatters(p, t, a, m, s)
    requires Tracks(p, t, a, Needed(p, m, s, 0), At(0, 0, s), d)
    ensures k >= n && Tracks(p, t, a, Needed(p, m, s, n), RunV(p, m, At(0, 0, s), n), RunP(p, a.phys, a.offs, a.bbs, m, d, k))
  {
    hide AllocatedBy, WellFormed, Expanded, Shapes, NoneMatters, Tracks, Needed;
    if n == 0 {
      k := 0;
    } else {
      var k1 := RunTracks(p, t, a, m, s, d, n - 1);
      var k2 := StepTracks(p, t, a, m, s, n - 1, RunP(p, a.phys, a.offs, a.bbs, m, d, k1));
      RunPJoin(p, a.phys, a.offs, a.bbs, m, d, k1, k2);
      k := k1 + k2;
    }
  }

  /**
   A run in which no value of a shared head is read later is preserved: after any
   number of its steps the allocated code is at the same point in the same world,
   with every value that the run still reads in its place.
   */
  lemma RunPreserved<W>(p: Prog, t: Passes, a: Alloc, m: Sem<W>, s: VState<W>, u: PState<W>, n: nat) returns (k: nat)
    requires WellFormed(p) && AllocatedBy(p, t, a) && AllEmittable(p, a.phys) && Entry(p, t, a, s, u)
    requires NoneMatters(p, t, a, m, s)
    ensures Shapes(p, t, a) && k >= n
    ensures Tracks(p, t, a, Needed(p, m, s, n), RunV(p, m, At(0, 0, s), n), RunP(p, a.phys, a.offs, a.bbs, m, At(0, 0, u), k))
  {
    hide AllocatedBy, LeastFlow, WellFormed, AllEmittable, NoneMatters, Agree, Expanded, LiveAt, Needed;
    AllocExpanded(p, t, a);
    ExpandedShapes(p, t, a);
    assert a.marked[0][..0] == [];
    NothingExpanded(p, a);
    assert RunV(p, m, At(0, 0, s), 0) == At(0, 0, s);
    AllocFlow(p, t, a);
    NeededIsLive(p, t, m, s, 0);
    AgreeFewer(p, a.phys, a.offs, LiveAt(p, t, 0, 0), Needed(p, m, s, 0), s, u);
    k := RunTracks(p, t, a, m, s, At(0, 0, u), n);
  }
}
