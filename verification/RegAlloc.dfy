/** The whole allocator (`alloc_physical_registers`), and the facts its passes add up to. */
module RegAlloc {
  import opened Orders
  import opened Options
  import opened Ir
  import opened Liveness
  import opened Intervals
  import opened ScanInvariant
  import opened LivingRegs
  import opened FrameLayout
  import opened SpillCode

  /** Where each register went, the code with spill instructions, and what the prologue needs. */
  datatype Alloc = Alloc(phys: seq<int>, offs: seq<int>, marked: seq<Block>, bbs: seq<Block>,
                         frameSize: int, usedRegs: set<int>, usedFregs: set<int>)

  /** The state of an interval before the scan: constants take no part, parameters and forced ones live in memory. */
  function Prepare(vreg: VReg, li: LiveInterval): LiveInterval {
    if vreg.konst.Some? then li.(state := CONST)
    else if vreg.param then li.(start := 0, state := SPILL, phys := SPILLED)
    else if vreg.forced then li.(state := SPILL, phys := SPILLED)
    else li
  }

  /** The intermediate results of the passes. */
  datatype Passes = Passes(inn: seq<set<nat>>, out: seq<set<nat>>, hulls: seq<LiveInterval>, order: seq<nat>,
                           ivs0: seq<LiveInterval>, ivs: seq<LiveInterval>)

  ghost predicate FrontPasses(p: Prog, t: Passes) {
    && LeastFlow(p, t.inn, t.out)
    && |t.hulls| == |p.vregs| && IntervalsAre(t.hulls, Events(p, t.inn, t.out, |p.bbs|))
    && SortedByStart(t.hulls, t.order)
    && |t.ivs0| == |p.vregs| && (forall v | 0 <= v < |p.vregs| :: t.ivs0[v] == Prepare(p.vregs[v], t.hulls[v]))
    && t.ivs == ScanRun(p.vregs, t.ivs0, t.order, |t.order|).ivs
  }

  /** `a` is what the allocator produces for `p`. */
  ghost predicate AllocatedBy(p: Prog, t: Passes, a: Alloc) {
    && FrontPasses(p, t) && |t.ivs| == |p.vregs| == |a.phys|
    && (forall v | 0 <= v < |p.vregs| :: a.phys[v] == if IsConst(p.vregs, v) then -1 else t.ivs[v].phys)
    && |a.marked| == |a.bbs| == |p.bbs|
    && (forall b | 0 <= b < |p.bbs| ::
          && BlockMarked(p.vregs, t.ivs, t.order, StartOf(p.bbs, b), p.bbs[b], a.marked[b], |p.bbs[b]|)
          && a.bbs[b] == Expand(p.vregs, a.phys, a.offs, a.marked[b]))
    && LaidOut(p.vregs, t.ivs, t.order, a.offs, a.frameSize)
    && a.usedRegs == ScanRun(p.vregs, t.ivs0, t.order, |t.order|).ireg.used + (if a.bbs != a.marked then {SPILLED as int} else {})
    && a.usedFregs == ScanRun(p.vregs, t.ivs0, t.order, |t.order|).freg.used
  }

  lemma PreparedSorted(p: Prog, hulls: seq<LiveInterval>, ivs0: seq<LiveInterval>, order: seq<nat>)
    requires |hulls| == |ivs0| == |p.vregs| && SortedByStart(hulls, order)
    requires forall v | 0 <= v < |ivs0| :: ivs0[v] == Prepare(p.vregs[v], hulls[v])
    requires forall v | 0 <= v < |hulls| :: -1 <= hulls[v].start && hulls[v].state == NORMAL
    ensures NormalSorted(ivs0, order)
    ensures forall v | 0 <= v < |ivs0| :: -1 <= ivs0[v].start
  {
  }

  lemma HullFacts(p: Prog, inn: seq<set<nat>>, out: seq<set<nat>>, hulls: seq<LiveInterval>)
    requires |inn| == |out| == |p.bbs| && IntervalsAre(hulls, Events(p, inn, out, |p.bbs|))
    ensures forall v | 0 <= v < |hulls| ::
              && -1 <= hulls[v].start <= hulls[v].end && hulls[v].state == NORMAL
              && (hulls[v].start < 0 ==> hulls[v].end < 0)
  {
    forall v | 0 <= v < |hulls|
      ensures -1 <= hulls[v].start <= hulls[v].end && hulls[v].state == NORMAL && (hulls[v].start < 0 ==> hulls[v].end < 0)
    {
      HullSpans(Events(p, inn, out, |p.bbs|), v);
    }
  }

  /** What the scan leaves of the intervals it was given. */
  lemma FrontFrame(p: Prog, t: Passes)
    requires WellFormed(p) && FrontPasses(p, t)
    ensures |t.ivs| == |t.ivs0| == |p.vregs| && NormalSorted(t.ivs, t.order)
    ensures forall v | 0 <= v < |p.vregs| ::
              && t.ivs[v] == t.ivs0[v].(phys := t.ivs[v].phys, state := t.ivs[v].state)
              && (t.ivs0[v].state != NORMAL ==> t.ivs[v] == t.ivs0[v])
              && (t.ivs0[v].state == NORMAL ==> t.ivs[v].state == NORMAL || (t.ivs[v].state == SPILL && t.ivs[v].phys == SPILLED))
  {
    HullFacts(p, t.inn, t.out, t.hulls);
    PreparedSorted(p, t.hulls, t.ivs0, t.order);
    ScanAllocates(p.vregs, t.ivs0, t.order);
    hide ScanRun, LeastFlow, Events, Hull, Allocated;
  }

  lemma FrontPlace(p: Prog, t: Passes, v: nat)
    requires WellFormed(p) && FrontPasses(p, t)
    requires v < |p.vregs| == |t.ivs| && t.ivs[v].state == NORMAL
    ensures 0 <= t.ivs[v].phys < RegMax(p.vregs[v].flonum)
    ensures t.ivs[v].start <= t.ivs[v].end && (t.ivs[v].start < 0 ==> t.ivs[v].end < 0)
  {
    HullFacts(p, t.inn, t.out, t.hulls);
    PreparedSorted(p, t.hulls, t.ivs0, t.order);
    ScanAllocates(p.vregs, t.ivs0, t.order);
    hide ScanRun, LeastFlow, Events, Hull;
    assert t.ivs0[v].state == NORMAL;
  }

  /** The scan's result is fit for the mask and for the code. */
  lemma FrontIsScanned(p: Prog, t: Passes)
    requires WellFormed(p) && FrontPasses(p, t)
    ensures Scanned(p.vregs, t.ivs, t.order)
    ensures |t.ivs| == |t.ivs0| == |p.vregs|
    ensures forall v | 0 <= v < |p.vregs| ::
              && t.ivs[v] == t.ivs0[v].(phys := t.ivs[v].phys, state := t.ivs[v].state)
              && (t.ivs0[v].state != NORMAL ==> t.ivs[v] == t.ivs0[v])
              && (t.ivs0[v].state == NORMAL ==> t.ivs[v].state == NORMAL || (t.ivs[v].state == SPILL && t.ivs[v].phys == SPILLED))
  {
    hide FrontPasses, WellFormed;
    FrontFrame(p, t);
    forall v | 0 <= v < |t.ivs| && t.ivs[v].state == NORMAL
      ensures 0 <= t.ivs[v].phys < RegMax(p.vregs[v].flonum)
      ensures t.ivs[v].start <= t.ivs[v].end && (t.ivs[v].start < 0 ==> t.ivs[v].end < 0)
    {
      FrontPlace(p, t, v);
    }
    forall r, s | 0 <= r < s < |t.order| && p.vregs[t.order[r]].flonum == p.vregs[t.order[s]].flonum
      ensures NoOverlap(t.ivs, t.order, r, s)
    {
      FrontApart(p, t, r, s);
    }
  }

  /** Two registers of a class do not overlap. */
  lemma FrontApart(p: Prog, t: Passes, r: nat, s: nat)
    requires WellFormed(p) && FrontPasses(p, t)
    requires r < s < |t.order| && t.order[r] < |p.vregs| && t.order[s] < |p.vregs|
    requires |t.ivs| == |p.vregs| && p.vregs[t.order[r]].flonum == p.vregs[t.order[s]].flonum
    ensures NoOverlap(t.ivs, t.order, r, s)
  {
    HullFacts(p, t.inn, t.out, t.hulls);
    PreparedSorted(p, t.hulls, t.ivs0, t.order);
    ScanAllocates(p.vregs, t.ivs0, t.order);
    hide ScanRun, LeastFlow, Events, Hull;
    var fl := p.vregs[t.order[r]].flonum;
    if t.ivs[t.order[r]].state == NORMAL && t.ivs[t.order[s]].state == NORMAL {
      assert Candidate(p.vregs, t.ivs0, t.order, r, fl) && Candidate(p.vregs, t.ivs0, t.order, s, fl);
    }
  }

  /** Marks constants and the registers that must live in memory. */
  method PrepareIntervals(vregs: seq<VReg>, intervals: array<LiveInterval>)
    requires intervals.Length == |vregs|
    modifies intervals
    ensures forall v | 0 <= v < |vregs| :: intervals[v] == Prepare(vregs[v], old(intervals[v]))
  {
    for i := 0 to |vregs|
      invariant forall v | 0 <= v < i :: intervals[v] == Prepare(vregs[v], old(intervals[v]))
      invariant forall v | i <= v < |vregs| :: intervals[v] == old(intervals[v])
    {
      var li, vreg := intervals[i], vregs[i];
      if vreg.konst.Some? {
        intervals[i] := li.(state := CONST);
        continue;
      }
      var phys := if vreg.forced then SPILLED else -1;
      if vreg.param {
        phys := SPILLED;
        li := li.(start := 0, state := SPILL);
      }
      if phys >= PHYSICAL_REG_MAX {
        li := li.(state := SPILL, phys := phys);
      }
      intervals[i] := li;
    }
  }

  /** Liveness, intervals, scan. */
  method Front(p: Prog) returns (ghost t: Passes, ivs: seq<LiveInterval>, order: seq<nat>, used: set<int>, fused: set<int>)
    requires WellFormed(p)
    ensures FrontPasses(p, t) && t.ivs == ivs && t.order == order && TieOrder(t.hulls, t.order)
    ensures used == ScanRun(p.vregs, t.ivs0, t.order, |t.order|).ireg.used
    ensures fused == ScanRun(p.vregs, t.ivs0, t.order, |t.order|).freg.used
  {
    hide ScanRun, LeastFlow, Events, Hull;
    var inn, out := AnalyzeRegFlow(p);
    FlowInRange(p, inn[..], out[..]);
    FlowShape(p, inn[..], out[..]);
    var intervals, sorted := CheckLiveInterval(p, inn, out);
    order := sorted[..];
    ghost var hulls := intervals[..];
    HullFacts(p, inn[..], out[..], hulls);
    PrepareIntervals(p.vregs, intervals);
    ghost var ivs0 := intervals[..];
    PreparedSorted(p, hulls, ivs0, order);
    used, fused := LinearScanRegisterAllocation(p.vregs, intervals, order);
    ivs := intervals[..];
    t := Passes(inn[..], out[..], hulls, order, ivs0, ivs);
  }

  lemma FlowShape(p: Prog, inn: seq<set<nat>>, out: seq<set<nat>>)
    requires LeastFlow(p, inn, out)
    ensures |inn| == |out| == |p.bbs|
  {
  }

  /** Register allocation for one function. */
  method AllocPhysicalRegisters(p: Prog) returns (a: Alloc, ghost t: Passes)
    requires WellFormed(p) && ParamsPlaced(p.vregs)
    ensures AllocatedBy(p, t, a) && TieOrder(t.hulls, t.order)
  {
    hide FrontPasses, Scanned, LaidOut, BlockMarked;
    var ivs, order, used, fused;
    t, ivs, order, used, fused := Front(p);
    FrontIsScanned(p, t);
    FrontShape(p, t);
    var phys := seq(|p.vregs|, v requires 0 <= v < |p.vregs| => if IsConst(p.vregs, v) then -1 else ivs[v].phys);
    var marked := DetectLivingRegisters(p, ivs, order);
    var offs, frameSize := LayoutFrame(p.vregs, ivs, order);
    var bbs, inserted := InsertLoadStoreSpilled(p.vregs, phys, offs, marked);
    if inserted {
      used := used + {SPILLED as int};
    }
    a := Alloc(phys, offs, marked, bbs, frameSize, used, fused);
  }

  lemma FrontShape(p: Prog, t: Passes)
    requires WellFormed(p) && FrontPasses(p, t)
    ensures |t.ivs| == |p.vregs| && IsOrder(t.order, |p.vregs|)
    ensures forall v | 0 <= v < |p.vregs| :: p.vregs[v].align > 0
  {
    FrontIsScanned(p, t);
  }
}
