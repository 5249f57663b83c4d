/** From the allocator's passes to the simulation of whole runs. */
module AllocTheorem {
  import opened Orders
  import opened Options
  import opened Ir
  import opened Liveness
  import opened Intervals
  import opened ScanInvariant
  import opened LivingRegs
  import opened FrameLayout
  import opened SpillCode
  import opened RegAlloc
  import opened Machine
  import opened AllocSim

  /** Registers live just before instruction `j` of block `b`. */
  ghost function LiveAt(p: Prog, t: Passes, b: nat, j: nat): set<nat>
    requires b < |p.bbs| && b < |t.out| && j <= |p.bbs[b]|
  {
    LiveBefore(p.vregs, p.bbs[b], j, t.out[b])
  }

  /**
   The one case in which two values needed together may share a register: the
   first instruction of block `b` computes a value nobody reads again (its
   interval ends right there) while the interval of `v`, live into the block and
   past that instruction, begins there too. Expiry takes "ends at n" and "starts
   at n" for compatible.
   */
  ghost predicate HeadClash(p: Prog, t: Passes, b: nat, v: nat) {
    && b < |p.bbs| == |t.out| && p.bbs[b] != [] && v < |t.hulls|
    && p.bbs[b][0].dst.Some? && p.bbs[b][0].dst.value < |t.hulls|
    && var w := p.bbs[b][0].dst.value;
       && v != w && v in LiveAt(p, t, b, 1)
       && t.hulls[w].end == StartOf(p.bbs, b) == t.hulls[v].start
  }

  /** Two registers allocated to one physical register of one class. */
  ghost predicate SameReg(p: Prog, phys: seq<int>, v: nat, w: nat) {
    && v < |p.vregs| == |phys| && w < |p.vregs|
    && !IsConst(p.vregs, v) && !IsConst(p.vregs, w)
    && p.vregs[v].flonum == p.vregs[w].flonum && phys[v] == phys[w] != SPILLED
  }

  /** A head clash whose two intervals got one register. */
  ghost predicate SharedHead(p: Prog, t: Passes, a: Alloc, b: nat, v: nat) {
    HeadClash(p, t, b, v) && SameReg(p, a.phys, v, p.bbs[b][0].dst.value)
  }

  ghost predicate NoSharedHead(p: Prog, t: Passes, a: Alloc) {
    forall b: nat, v: nat :: !SharedHead(p, t, a, b, v)
  }

  /** What can be checked before the scan: no two candidates for registers of one class clash. */
  ghost predicate NoHeadClash(p: Prog, t: Passes) {
    forall b: nat, v: nat | HeadClash(p, t, b, v) :: !MayShare(p, v, p.bbs[b][0].dst.value)
  }

  predicate MayShare(p: Prog, v: nat, w: nat) {
    && v < |p.vregs| && w < |p.vregs| && p.vregs[v].flonum == p.vregs[w].flonum
    && Competes(p.vregs[v]) && Competes(p.vregs[w])
  }

  predicate Competes(vreg: VReg) {
    vreg.konst.None? && !vreg.param && !vreg.forced
  }

  // ----- What the passes add up to -----

  /** Registers that got a physical register hold it over an interval that covers their live range ... */
  ghost predicate Covering(p: Prog, t: Passes, phys: seq<int>) {
    && |t.ivs| == |phys| == |p.vregs| && |t.inn| == |t.out| == |p.bbs|
    && (forall b, j, v | 0 <= b < |p.bbs| && 0 <= j <= |p.bbs[b]| && v in LiveAt(p, t, b, j) && InRegister(p, phys, v) ::
          Covers(t.ivs[v], StartOf(p.bbs, b) + j))
    && (forall b, j, v | 0 <= b < |p.bbs| && 0 <= j < |p.bbs[b]| && v in Mentions(p.bbs[b][j]) && InRegister(p, phys, v) ::
          Covers(t.ivs[v], StartOf(p.bbs, b) + j))
  }

  /** ... and intervals in one register do not overlap. */
  ghost predicate Disjoint(p: Prog, t: Passes, phys: seq<int>) {
    && |t.ivs| == |phys| == |p.vregs|
    && forall v: nat, w: nat | SameReg(p, phys, v, w) && v != w ::
         t.ivs[v].end <= t.ivs[w].start || t.ivs[w].end <= t.ivs[v].start
  }

  ghost predicate InRegister(p: Prog, phys: seq<int>, v: nat) {
    v < |p.vregs| == |phys| && !IsConst(p.vregs, v) && phys[v] != SPILLED
  }

  /** Those intervals are the hulls. */
  ghost predicate HullsKept(p: Prog, t: Passes, phys: seq<int>) {
    && |t.hulls| == |t.ivs| == |p.vregs|
    && forall v: nat | InRegister(p, phys, v) :: t.ivs[v].start == t.hulls[v].start && t.ivs[v].end == t.hulls[v].end
  }

  lemma MentionedIsCovered(p: Prog, t: Passes, phys: seq<int>, b: nat, j: nat, v: nat)
    requires Covering(p, t, phys) && InRegister(p, phys, v)
    requires b < |p.bbs| && j < |p.bbs[b]|
    ensures forall k | 0 <= k < j && v in Named(p.bbs[b][k].dst) :: Covers(t.ivs[v], StartOf(p.bbs, b) + k)
  {
    forall k | 0 <= k < j && v in Named(p.bbs[b][k].dst)
      ensures Covers(t.ivs[v], StartOf(p.bbs, b) + k)
    {
      assert v in Mentions(p.bbs[b][k]);
    }
  }

  /** Past the head of its block, a live register's interval has started earlier. */
  lemma StartsEarlier(p: Prog, t: Passes, phys: seq<int>, b: nat, j: nat, v: nat)
    requires Covering(p, t, phys) && InRegister(p, phys, v)
    requires b < |p.bbs| && 0 < j < |p.bbs[b]| && v in LiveAt(p, t, b, j)
    ensures t.ivs[v].start < StartOf(p.bbs, b) + j
  {
    LiveCameFrom(p.vregs, p.bbs[b], j, t.out[b], v);
    MentionedIsCovered(p, t, phys, b, j, v);
    assert v in LiveAt(p, t, b, 0) ==> Covers(t.ivs[v], StartOf(p.bbs, b) + 0);
  }

  /** A register in use with `w`, defined at instruction `j`, shares `w`'s register only in a head clash. */
  lemma OnlyHeadClashes(p: Prog, t: Passes, phys: seq<int>, b: nat, j: nat, v: nat)
    requires Covering(p, t, phys) && Disjoint(p, t, phys) && HullsKept(p, t, phys)
    requires b < |p.bbs| && j < |p.bbs[b]| && p.bbs[b][j].dst.Some?
    requires v in LiveAt(p, t, b, j + 1) && v != p.bbs[b][j].dst.value
    requires SameReg(p, phys, v, p.bbs[b][j].dst.value)
    ensures j == 0 && HeadClash(p, t, b, v)
  {
    var w := p.bbs[b][j].dst.value;
    assert v in LiveAt(p, t, b, j);
    assert w in Mentions(p.bbs[b][j]);
    assert InRegister(p, phys, v) && InRegister(p, phys, w);
    assert Covers(t.ivs[v], StartOf(p.bbs, b) + j) && Covers(t.ivs[v], StartOf(p.bbs, b) + (j + 1));
    if j > 0 {
      StartsEarlier(p, t, phys, b, j, v);
    }
  }

  /** The hulls cover live ranges and mentions, as one statement. */
  ghost predicate HullsCover(p: Prog, t: Passes) {
    && |t.hulls| == |p.vregs| && |t.inn| == |t.out| == |p.bbs|
    && (forall b, j, v | 0 <= b < |p.bbs| && 0 <= j <= |p.bbs[b]| && v in LiveAt(p, t, b, j) && v < |p.vregs| ::
          Covers(t.hulls[v], StartOf(p.bbs, b) + j))
    && (forall b, j, v | 0 <= b < |p.bbs| && 0 <= j < |p.bbs[b]| && v in Mentions(p.bbs[b][j]) && v < |p.vregs| ::
          Covers(t.hulls[v], StartOf(p.bbs, b) + j))
  }

  lemma FrontParts(p: Prog, t: Passes)
    requires FrontPasses(p, t)
    ensures LeastFlow(p, t.inn, t.out) && |t.inn| == |t.out| == |p.bbs|
    ensures |t.hulls| == |p.vregs| && IntervalsAre(t.hulls, Events(p, t.inn, t.out, |p.bbs|))
  {
    FlowShape(p, t.inn, t.out);
  }

  lemma LiveCovered(p: Prog, t: Passes, b: nat, j: nat, v: nat)
    requires LeastFlow(p, t.inn, t.out) && |t.inn| == |t.out| == |p.bbs|
    requires |t.hulls| == |p.vregs| && IntervalsAre(t.hulls, Events(p, t.inn, t.out, |p.bbs|))
    requires b < |p.bbs| && j <= |p.bbs[b]| && v < |p.vregs| && v in LiveAt(p, t, b, j)
    ensures Covers(t.hulls[v], StartOf(p.bbs, b) + j)
  {
    hide LeastFlow, IntervalsAre, Events, LiveBefore;
    LiveIsCovered(p, t.inn, t.out, t.hulls, b, j, v);
  }

  lemma FrontCovers(p: Prog, t: Passes)
    requires FrontPasses(p, t)
    ensures HullsCover(p, t)
  {
    hide FrontPasses, LeastFlow, Events, IntervalsAre, Covers, LiveAt, Mentions;
    FrontParts(p, t);
    forall b, j, v | 0 <= b < |p.bbs| && 0 <= j <= |p.bbs[b]| && v in LiveAt(p, t, b, j) && v < |p.vregs|
      ensures Covers(t.hulls[v], StartOf(p.bbs, b) + j)
    {
      LiveCovered(p, t, b, j, v);
    }
    forall b, j, v | 0 <= b < |p.bbs| && 0 <= j < |p.bbs[b]| && v in Mentions(p.bbs[b][j]) && v < |p.vregs|
      ensures Covers(t.hulls[v], StartOf(p.bbs, b) + j)
    {
      HullCovers(p, t.inn, t.out, t.hulls, b, v);
    }
  }

  /** What an interval in a register looks like. */
  ghost predicate RegistersAre(p: Prog, t: Passes) {
    && |t.ivs| == |t.hulls| == |p.vregs|
    && (forall v | 0 <= v < |p.vregs| && !IsConst(p.vregs, v) ::
          && 0 <= t.ivs[v].phys <= SPILLED
          && (t.ivs[v].phys == SPILLED ==> t.ivs[v].state == SPILL)
          && (t.ivs[v].phys != SPILLED ==> t.ivs[v].state == NORMAL && t.ivs[v].start == t.hulls[v].start && t.ivs[v].end == t.hulls[v].end)
          && (p.vregs[v].addressed ==> t.ivs[v].phys == SPILLED))
  }

  lemma FrontRegisters(p: Prog, t: Passes)
    requires WellFormed(p) && FrontPasses(p, t)
    ensures RegistersAre(p, t) && Scanned(p.vregs, t.ivs, t.order)
  {
    HullFacts(p, t.inn, t.out, t.hulls);
    FrontIsScanned(p, t);
    hide LeastFlow, Events, IntervalsAre, SortedByStart, ScanRun;
    forall v | 0 <= v < |p.vregs| && !IsConst(p.vregs, v)
      ensures 0 <= t.ivs[v].phys <= SPILLED && (t.ivs[v].phys == SPILLED ==> t.ivs[v].state == SPILL)
      ensures t.ivs[v].phys != SPILLED ==> t.ivs[v].state == NORMAL && t.ivs[v].start == t.hulls[v].start && t.ivs[v].end == t.hulls[v].end
      ensures p.vregs[v].addressed ==> t.ivs[v].phys == SPILLED
    {
      assert t.ivs0[v] == Prepare(p.vregs[v], t.hulls[v]);
    }
  }

  lemma ScannedApart(p: Prog, t: Passes, v: nat, w: nat)
    requires Scanned(p.vregs, t.ivs, t.order) && v < |t.ivs| && w < |t.ivs| && v != w
    requires t.ivs[v].state == NORMAL && t.ivs[w].state == NORMAL
    requires p.vregs[v].flonum == p.vregs[w].flonum && t.ivs[v].phys == t.ivs[w].phys
    ensures t.ivs[v].end <= t.ivs[w].start || t.ivs[w].end <= t.ivs[v].start
  {
    assert v in t.order && w in t.order;
    var r :| 0 <= r < |t.order| && t.order[r] == v;
    var s :| 0 <= s < |t.order| && t.order[s] == w;
    if r < s {
      assert NoOverlap(t.ivs, t.order, r, s);
    } else {
      assert NoOverlap(t.ivs, t.order, s, r);
    }
  }

  /** The facts the simulation needs, from the allocator's result. */
  lemma AllocFacts(p: Prog, t: Passes, a: Alloc)
    requires WellFormed(p) && AllocatedBy(p, t, a)
    ensures Covering(p, t, a.phys) && Disjoint(p, t, a.phys) && Placed(p, a.phys, a.offs)
    ensures RegistersAre(p, t) && Scanned(p.vregs, t.ivs, t.order)
  {
    FrontCovers(p, t);
    FrontRegisters(p, t);
    hide FrontPasses, Expand, BlockMarked, ScanRun, LiveAt, Mentions, Covers;
    forall v: nat, w: nat | SameReg(p, a.phys, v, w) && v != w
      ensures t.ivs[v].end <= t.ivs[w].start || t.ivs[w].end <= t.ivs[v].start
    {
      ScannedApart(p, t, v, w);
    }
    SlotsPlaced(p, t, a);
    CoversKept(p, t, a);
  }

  lemma CoversKept(p: Prog, t: Passes, a: Alloc)
    requires HullsCover(p, t) && RegistersAre(p, t) && |a.phys| == |p.vregs|
    requires forall v | 0 <= v < |p.vregs| && !IsConst(p.vregs, v) :: a.phys[v] == t.ivs[v].phys
    ensures Covering(p, t, a.phys)
  {
    hide LiveAt, Mentions;
  }

  lemma SlotsPlaced(p: Prog, t: Passes, a: Alloc)
    requires WellFormed(p) && RegistersAre(p, t) && Scanned(p.vregs, t.ivs, t.order) && |a.phys| == |p.vregs|
    requires forall v | 0 <= v < |p.vregs| && !IsConst(p.vregs, v) :: a.phys[v] == t.ivs[v].phys
    requires LaidOut(p.vregs, t.ivs, t.order, a.offs, a.frameSize)
    ensures Placed(p, a.phys, a.offs)
  {
    forall v | 0 <= v < |p.vregs| && InSlot(p, a.phys, v)
      ensures v in SpilledOf(t.ivs, t.order)
    {
      assert v in t.order;
    }
  }

  // ----- The simulation -----

  /** Every instruction of the function meets the emitter's conditions under this allocation. */
  ghost predicate AllEmittable(p: Prog, phys: seq<int>) {
    forall b, j | 0 <= b < |p.bbs| && 0 <= j < |p.bbs[b]| :: Emittable(p, phys, p.bbs[b][j])
  }

  lemma NotShared(p: Prog, t: Passes, a: Alloc, b: nat, j: nat, v: nat)
    requires Covering(p, t, a.phys) && Disjoint(p, t, a.phys) && RegistersAre(p, t) && !(j == 0 && SharedHead(p, t, a, b, v))
    requires |t.ivs| == |p.vregs| == |a.phys| && forall v | 0 <= v < |p.vregs| && !IsConst(p.vregs, v) :: a.phys[v] == t.ivs[v].phys
    requires b < |p.bbs| && j < |p.bbs[b]| && p.bbs[b][j].dst.Some? && v in LiveAt(p, t, b, j + 1) && v != p.bbs[b][j].dst.value
    ensures !SameReg(p, a.phys, v, p.bbs[b][j].dst.value)
  {
    hide Covering, Disjoint, LiveAt, RegistersAre, HullsKept, HeadClash, SameReg;
    KeptHulls(p, t, a.phys);
    if SameReg(p, a.phys, v, p.bbs[b][j].dst.value) {
      OnlySharedHeads(p, t, a, b, j, v);
    }
  }

  lemma OnlySharedHeads(p: Prog, t: Passes, a: Alloc, b: nat, j: nat, v: nat)
    requires Covering(p, t, a.phys) && Disjoint(p, t, a.phys) && HullsKept(p, t, a.phys)
    requires b < |p.bbs| && j < |p.bbs[b]| && p.bbs[b][j].dst.Some? && v in LiveAt(p, t, b, j + 1) && v != p.bbs[b][j].dst.value
    requires SameReg(p, a.phys, v, p.bbs[b][j].dst.value)
    ensures j == 0 && SharedHead(p, t, a, b, v)
  {
    hide Covering, Disjoint, LiveAt, HullsKept, HeadClash, SameReg;
    OnlyHeadClashes(p, t, a.phys, b, j, v);
  }

  /** Of the registers live behind an instruction, those not in a shared head with it are left alone. */
  lemma NothingDisturbed(p: Prog, t: Passes, a: Alloc, b: nat, j: nat, after: set<nat>)
    requires Covering(p, t, a.phys) && Disjoint(p, t, a.phys) && RegistersAre(p, t)
    requires b < |p.bbs| == |t.out| && j < |p.bbs[b]| && after <= LiveAt(p, t, b, j + 1)
    requires j == 0 ==> forall v | v in after :: !SharedHead(p, t, a, b, v)
    requires |t.ivs| == |p.vregs| && IsOrder(t.order, |t.ivs|)
    requires forall v | 0 <= v < |p.vregs| && !IsConst(p.vregs, v) :: a.phys[v] == t.ivs[v].phys
    requires b < |p.bbs| && j < |p.bbs[b]| && WellFormedIR(p, p.bbs[b][j])
    requires b < |a.marked| && BlockMarked(p.vregs, t.ivs, t.order, StartOf(p.bbs, b), p.bbs[b], a.marked[b], |p.bbs[b]|)
    ensures Undisturbed(p, a.phys, p.bbs[b][j], a.marked[b][j].living, after)
  {
    var ir, n := p.bbs[b][j], StartOf(p.bbs, b) + j;
    forall v | v in after && v < |p.vregs| && !IsConst(p.vregs, v) && Some(v) != ir.dst && a.phys[v] != SPILLED
      ensures ir.dst.Some? && ir.dst.value < |p.vregs| && p.vregs[ir.dst.value].flonum == p.vregs[v].flonum
              ==> a.phys[v] != a.phys[ir.dst.value]
      ensures ir.kind == CALL ==> 0 <= a.phys[v] && Survives(p.vregs[v].flonum, a.phys[v], a.marked[b][j].living)
    {
      assert InRegister(p, a.phys, v);
      if ir.dst.Some? {
        NotShared(p, t, a, b, j, v);
      }
      if ir.kind == CALL {
        CallKeeps(p, t, a, b, j, v);
      }
      assert ir.dst.Some? ==> ir.dst.value in Mentions(ir);
    }
  }

  lemma KeptHulls(p: Prog, t: Passes, phys: seq<int>)
    requires RegistersAre(p, t) && |t.ivs| == |p.vregs| == |phys|
    requires forall v | 0 <= v < |p.vregs| && !IsConst(p.vregs, v) :: phys[v] == t.ivs[v].phys
    ensures HullsKept(p, t, phys)
  {
  }

  /** A register live across a call is in the call's mask, or callee-saved. */
  lemma CallKeeps(p: Prog, t: Passes, a: Alloc, b: nat, j: nat, v: nat)
    requires Covering(p, t, a.phys) && RegistersAre(p, t) && IsOrder(t.order, |t.ivs|) && InRegister(p, a.phys, v)
    requires a.phys[v] == t.ivs[v].phys
    requires b < |p.bbs| && j < |p.bbs[b]| && p.bbs[b][j].kind == CALL && Some(v) != p.bbs[b][j].dst
    requires b < |a.marked| && BlockMarked(p.vregs, t.ivs, t.order, StartOf(p.bbs, b), p.bbs[b], a.marked[b], |p.bbs[b]|)
    requires v in LiveAt(p, t, b, j + 1)
    ensures 0 <= a.phys[v] && Survives(p.vregs[v].flonum, a.phys[v], a.marked[b][j].living)
  {
    var n := StartOf(p.bbs, b) + j;
    assert v in LiveAt(p, t, b, j);
    assert Covers(t.ivs[v], StartOf(p.bbs, b) + j) && Covers(t.ivs[v], StartOf(p.bbs, b) + (j + 1));
    assert Spans(t.ivs[v], n);
    assert v in t.order;
    var r: nat :| r < |t.order| && t.order[r] == v;
    var bit := Bit(p.vregs, t.ivs, v);
    assert LiveAcross(p.vregs, t.ivs, t.order, n, bit);
    assert Marked(p.vregs, t.ivs, t.order, n, p.bbs[b][j], a.marked[b][j]);
  }

  ghost function OffsetIn(p: Prog, a: Alloc, b: nat, j: nat): nat
    requires b < |a.marked| && j <= |a.marked[b]|
  {
    |Expand(p.vregs, a.phys, a.offs, a.marked[b][..j])|
  }

  /** A block that ends in an unconditional jump is never run off its end. */
  ghost predicate MayEnd(irs: Block, j: nat) {
    j == |irs| && irs != [] ==> !(irs[j - 1].kind == JMP && irs[j - 1].cond == ANY)
  }

  ghost predicate Shapes(p: Prog, t: Passes, a: Alloc) {
    && |a.phys| == |a.offs| == |p.vregs| && |t.out| == |a.marked| == |a.bbs| == |p.bbs|
    && forall b | 0 <= b < |p.bbs| :: |a.marked[b]| == |p.bbs[b]|
  }

  /** Matching configurations of the two machines. */
  ghost predicate Follows<W>(p: Prog, t: Passes, a: Alloc, c: Config<VState<W>>, d: Config<PState<W>>)
    requires Shapes(p, t, a)
  {
    match (c, d)
    case (Halt(s), Halt(u)) => Agree(p, a.phys, a.offs, {}, s, u)
    case (At(b, j, s), At(b', j', u)) =>
      && b == b' < |p.bbs| && j <= |p.bbs[b]| && MayEnd(p.bbs[b], j)
      && j' == OffsetIn(p, a, b, j)
      && Agree(p, a.phys, a.offs, LiveAt(p, t, b, j), s, u)
    case _ => false
  }

  lemma AgreeFewer<W>(p: Prog, phys: seq<int>, offs: seq<int>, live: set<nat>, fewer: set<nat>, s: VState<W>, t: PState<W>)
    requires |phys| == |offs| == |p.vregs| && Agree(p, phys, offs, live, s, t) && fewer <= live
    ensures Agree(p, phys, offs, fewer, s, t)
  {
  }

  lemma {:induction false} RunPJoin<W>(p: Prog, phys: seq<int>, offs: seq<int>, bbs: seq<Block>, m: Sem<W>,
                                       c: Config<PState<W>>, n: nat, k: nat)
    ensures RunP(p, phys, offs, bbs, m, c, n + k) ==
            RunP(p, phys, offs, bbs, m, RunP(p, phys, offs, bbs, m, c, n), k)
  {
    if k > 0 {
      RunPJoin(p, phys, offs, bbs, m, c, n, k - 1);
      assert n + k - 1 == n + (k - 1);
    }
  }

  lemma SliceFront(irs: Block, j: nat, n: nat)
    requires j + n + 1 <= |irs|
    ensures irs[j..j + n] == irs[j..j + n + 1][..n] && irs[j + n] == irs[j..j + n + 1][n]
  {
  }

  /** A jump-free stretch of a block runs through, one step per instruction. */
  lemma {:induction false} StretchRuns<W>(p: Prog, phys: seq<int>, offs: seq<int>, bbs: seq<Block>, m: Sem<W>,
                                          b: nat, j: nat, group: Block, u: PState<W>)
    requires b < |bbs| && j + |group| <= |bbs[b]| && bbs[b][j..j + |group|] == group
    requires forall k | 0 <= k < |group| :: group[k].kind != JMP
    ensures RunP(p, phys, offs, bbs, m, At(b, j, u), |group|) == At(b, j + |group|, RunList(p, phys, offs, m, group, u))
    decreases |group|
  {
    hide ExecP;
    if group != [] {
      var n := |group| - 1;
      var front := group[..n];
      assert group == front + [group[n]];
      SliceFront(bbs[b], j, n);
      assert j + n + 1 == j + |group|;
      StretchRuns(p, phys, offs, bbs, m, b, j, front, u);
      RunListJoin(p, phys, offs, m, front, [group[n]], u);
      assert [group[n]][1..] == [];
    }
  }

  /** Where the group of instruction `j` sits in the output block. */
  lemma GroupAt(p: Prog, a: Alloc, b: nat, j: nat)
    requires b < |a.marked| == |a.bbs| && j < |a.marked[b]|
    requires a.bbs[b] == Expand(p.vregs, a.phys, a.offs, a.marked[b])
    ensures var group := ExpandIR(p.vregs, a.phys, a.offs, a.marked[b][j]);
            && OffsetIn(p, a, b, j) + |group| == OffsetIn(p, a, b, j + 1) <= |a.bbs[b]|
            && a.bbs[b][OffsetIn(p, a, b, j)..OffsetIn(p, a, b, j + 1)] == group
  {
    hide Expand, ExpandIR;
    ExpandSplits(p.vregs, a.phys, a.offs, a.marked[b], j);
    ExpandSplits(p.vregs, a.phys, a.offs, a.marked[b], j + 1);
  }

  lemma GroupKinds(p: Prog, a: Alloc, ir: IR)
    ensures ir.kind == JMP ==> ExpandIR(p.vregs, a.phys, a.offs, ir) == [ir]
    ensures ir.kind != JMP ==> forall k | 0 <= k < |ExpandIR(p.vregs, a.phys, a.offs, ir)| ::
                                 ExpandIR(p.vregs, a.phys, a.offs, ir)[k].kind != JMP
  {
  }

  /** Leaving block `b` for `s`: what `s` needs was kept. */
  lemma EnterBlock(p: Prog, t: Passes, b: nat, s: nat)
    requires LeastFlow(p, t.inn, t.out) && b < |p.bbs| && s in Succs(p, b) && s < |p.bbs|
    ensures |t.out| == |p.bbs| && LiveAt(p, t, s, 0) <= LiveAt(p, t, b, |p.bbs[b]|)
  {
    LiveAtHead(p, t.inn, t.out, s);
  }

  /** The output is the input with masks and spill code, and every register has a place. */
  ghost predicate Expanded(p: Prog, t: Passes, a: Alloc) {
    && WellFormed(p) && Placed(p, a.phys, a.offs) && AllEmittable(p, a.phys)
    && Shapes(p, t, a)
    && (forall b | 0 <= b < |p.bbs| :: a.bbs[b] == Expand(p.vregs, a.phys, a.offs, a.marked[b]))
    && (forall b, j | 0 <= b < |p.bbs| && 0 <= j < |p.bbs[b]| ::
          && a.marked[b][j] == p.bbs[b][j].(living := a.marked[b][j].living)
          && (p.bbs[b][j].kind != CALL ==> a.marked[b][j] == p.bbs[b][j]))
  }

  /** Everything the step lemmas need, once per allocation. */
  ghost predicate Ready(p: Prog, t: Passes, a: Alloc) {
    && LeastFlow(p, t.inn, t.out) && Expanded(p, t, a)
    && (forall b, j | 0 <= b < |p.bbs| && 0 <= j < |p.bbs[b]| ::
          Undisturbed(p, a.phys, p.bbs[b][j], a.marked[b][j].living, LiveAt(p, t, b, j + 1)))
  }

  lemma AllocExpanded(p: Prog, t: Passes, a: Alloc)
    requires WellFormed(p) && AllocatedBy(p, t, a) && AllEmittable(p, a.phys)
    ensures Expanded(p, t, a)
  {
    hide AllocatedBy, LeastFlow, Placed, FrontPasses, Covering, Disjoint, RegistersAre, AllEmittable, LiveAt,
         Expand, Scanned, BlockMarked, IntervalsAre, WellFormed;
    AllocParts(p, t, a);
    AllocFacts(p, t, a);
    FrontParts(p, t);
    PlacedShape(p, a.phys, a.offs);
    forall b, j | 0 <= b < |p.bbs| && 0 <= j < |p.bbs[b]|
      ensures a.marked[b][j] == p.bbs[b][j].(living := a.marked[b][j].living)
      ensures p.bbs[b][j].kind != CALL ==> a.marked[b][j] == p.bbs[b][j]
    {
      InstrMarked(p, t, a, b, j);
    }
  }

  lemma InstrMarked(p: Prog, t: Passes, a: Alloc, b: nat, j: nat)
    requires WellFormed(p) && |t.ivs| == |p.vregs| && IsOrder(t.order, |t.ivs|) && b < |p.bbs| == |a.marked| && j < |p.bbs[b]|
    requires BlockMarked(p.vregs, t.ivs, t.order, StartOf(p.bbs, b), p.bbs[b], a.marked[b], |p.bbs[b]|)
    ensures a.marked[b][j] == p.bbs[b][j].(living := a.marked[b][j].living)
    ensures p.bbs[b][j].kind != CALL ==> a.marked[b][j] == p.bbs[b][j]
  {
    assert WellFormedIR(p, p.bbs[b][j]);
    assert Marked(p.vregs, t.ivs, t.order, StartOf(p.bbs, b) + j, p.bbs[b][j], a.marked[b][j]);
  }

  lemma AllocReady(p: Prog, t: Passes, a: Alloc)
    requires WellFormed(p) && AllocatedBy(p, t, a) && AllEmittable(p, a.phys) && NoSharedHead(p, t, a)
    ensures Ready(p, t, a)
  {
    AllocExpanded(p, t, a);
    hide AllocatedBy, LeastFlow, FrontPasses, Undisturbed, LiveAt, Expanded, SharedHead, WellFormed;
    AllocParts(p, t, a);
    FrontParts(p, t);
    ExpandedShapes(p, t, a);
    forall b, j | 0 <= b < |p.bbs| && 0 <= j < |p.bbs[b]|
      ensures Undisturbed(p, a.phys, p.bbs[b][j], a.marked[b][j].living, LiveAt(p, t, b, j + 1))
    {
      InstrKeeps(p, t, a, b, j, LiveAt(p, t, b, j + 1));
    }
    assert Ready(p, t, a);
  }

  lemma ExpandedShapes(p: Prog, t: Passes, a: Alloc)
    requires Expanded(p, t, a)
    ensures Shapes(p, t, a)
  {
  }

  lemma PlacedShape(p: Prog, phys: seq<int>, offs: seq<int>)
    requires Placed(p, phys, offs)
    ensures |phys| == |offs| == |p.vregs|
  {
  }

  /** What is needed behind an instruction survives it, except in a shared head. */
  lemma InstrKeeps(p: Prog, t: Passes, a: Alloc, b: nat, j: nat, after: set<nat>)
    requires WellFormed(p) && AllocatedBy(p, t, a)
    requires b < |p.bbs| == |t.out| == |a.marked| && j < |p.bbs[b]| == |a.marked[b]| && after <= LiveAt(p, t, b, j + 1)
    requires j == 0 ==> forall v | v in after :: !SharedHead(p, t, a, b, v)
    ensures Undisturbed(p, a.phys, p.bbs[b][j], a.marked[b][j].living, after)
  {
    hide AllocatedBy, Covering, Disjoint, RegistersAre, SharedHead, LiveAt, Undisturbed, Scanned, Placed, FrontPasses, BlockMarked, Expand;
    assert WellFormedIR(p, p.bbs[b][j]);
    hide WellFormed;
    AllocParts(p, t, a);
    AllocFacts(p, t, a);
    NothingDisturbed(p, t, a, b, j, after);
  }

  lemma AllocParts(p: Prog, t: Passes, a: Alloc)
    requires AllocatedBy(p, t, a)
    ensures FrontPasses(p, t) && |t.ivs| == |p.vregs| == |a.phys| && IsOrder(t.order, |t.ivs|)
    ensures forall v | 0 <= v < |p.vregs| && !IsConst(p.vregs, v) :: a.phys[v] == t.ivs[v].phys
    ensures |a.marked| == |a.bbs| == |p.bbs|
    ensures forall b | 0 <= b < |p.bbs| ::
              && |a.marked[b]| == |p.bbs[b]|
              && BlockMarked(p.vregs, t.ivs, t.order, StartOf(p.bbs, b), p.bbs[b], a.marked[b], |p.bbs[b]|)
              && a.bbs[b] == Expand(p.vregs, a.phys, a.offs, a.marked[b])
  {
    hide LaidOut, Expand, ScanRun, LeastFlow, Events, Hull;
  }

  // ----- One step, then all of them -----

  /** One step of the source is matched by one or more steps of the output. */
  lemma StepFollows<W>(p: Prog, t: Passes, a: Alloc, m: Sem<W>, c: Config<VState<W>>, d: Config<PState<W>>) returns (k: nat)
    requires Ready(p, t, a) && Shapes(p, t, a) && Follows(p, t, a, c, d)
    ensures k >= 1 && Follows(p, t, a, StepV(p, m, c), RunP(p, a.phys, a.offs, a.bbs, m, d, k))
  {
    hide Ready, LiveAt, Agree;
    k := 1;
    if c.At? {
      var b, j, s, u := c.b, c.j, c.s, d.s;
      if j == |p.bbs[b]| {
        BlockEnds(p, t, a, m, b, s, u);
      } else if p.bbs[b][j].kind == JMP {
        JumpFollows(p, t, a, m, b, j, s, u);
      } else {
        k := InstrFollows(p, t, a, m, b, j, s, u);
      }
    }
  }

  /** Running off the end of a block. */
  lemma BlockEnds<W>(p: Prog, t: Passes, a: Alloc, m: Sem<W>, b: nat, s: VState<W>, u: PState<W>)
    requires Ready(p, t, a) && Shapes(p, t, a) && b < |p.bbs| && MayEnd(p.bbs[b], |p.bbs[b]|)
    requires Agree(p, a.phys, a.offs, LiveAt(p, t, b, |p.bbs[b]|), s, u)
    ensures Follows(p, t, a, FallThrough(p.bbs, b, s),
                    StepP(p, a.phys, a.offs, a.bbs, m, At(b, OffsetIn(p, a, b, |p.bbs[b]|), u)))
  {
    hide Agree, Expand, Expanded, LiveAt, Ready;
    ReadyExpanded(p, t, a);
    EndOffset(p, t, a, b);
    if b + 1 < |p.bbs| {
      NextIsSucc(p, b);
      EnterReady(p, t, a, b, b + 1);
      AgreeFewer(p, a.phys, a.offs, LiveAt(p, t, b, |p.bbs[b]|), LiveAt(p, t, b + 1, 0), s, u);
    } else {
      AgreeFewer(p, a.phys, a.offs, LiveAt(p, t, b, |p.bbs[b]|), {}, s, u);
    }
  }

  lemma NextIsSucc(p: Prog, b: nat)
    requires b + 1 < |p.bbs| && MayEnd(p.bbs[b], |p.bbs[b]|)
    ensures b + 1 in Succs(p, b)
  {
  }

  lemma EndOffset(p: Prog, t: Passes, a: Alloc, b: nat)
    requires Expanded(p, t, a) && b < |p.bbs|
    ensures OffsetIn(p, a, b, |p.bbs[b]|) == |a.bbs[b]|
  {
    hide WellFormed, Placed, AllEmittable, Expand;
    assert a.marked[b][..|p.bbs[b]|] == a.marked[b];
  }

  /** Entering block `s` from the end of `b`: what `s` needs was kept, and its code starts at 0. */
  lemma EnterReady(p: Prog, t: Passes, a: Alloc, b: nat, s: nat)
    requires Ready(p, t, a) && Shapes(p, t, a) && b < |p.bbs| && s in Succs(p, b) && s < |p.bbs|
    ensures LiveAt(p, t, s, 0) <= LiveAt(p, t, b, |p.bbs[b]|)
    ensures OffsetIn(p, a, s, 0) == 0 && MayEnd(p.bbs[s], 0)
  {
    hide LeastFlow, WellFormed, Placed, AllEmittable, Undisturbed, LiveAt;
    EnterBlock(p, t, b, s);
    assert a.marked[s][..0] == [];
  }

  /** What is known about one instruction. */
  lemma InstrFacts(p: Prog, t: Passes, a: Alloc, b: nat, j: nat)
    requires Expanded(p, t, a) && b < |p.bbs| && j < |p.bbs[b]|
    ensures WellFormedIR(p, p.bbs[b][j]) && Emittable(p, a.phys, p.bbs[b][j])
    ensures j < |p.bbs[b]| - 1 ==> p.bbs[b][j].kind != JMP
    ensures a.marked[b][j] == p.bbs[b][j].(living := a.marked[b][j].living)
    ensures p.bbs[b][j].kind != CALL ==> a.marked[b][j] == p.bbs[b][j]
    ensures var group := ExpandIR(p.vregs, a.phys, a.offs, a.marked[b][j]);
            && OffsetIn(p, a, b, j) + |group| == OffsetIn(p, a, b, j + 1) <= |a.bbs[b]|
            && a.bbs[b][OffsetIn(p, a, b, j)..OffsetIn(p, a, b, j + 1)] == group
  {
    hide Placed, Expand, Emittable, WellFormedIR;
    GroupAt(p, a, b, j);
  }

  lemma JumpFollows<W>(p: Prog, t: Passes, a: Alloc, m: Sem<W>, b: nat, j: nat, s: VState<W>, u: PState<W>)
    requires Ready(p, t, a) && Shapes(p, t, a) && b < |p.bbs| && j < |p.bbs[b]| && p.bbs[b][j].kind == JMP
    requires Agree(p, a.phys, a.offs, LiveAt(p, t, b, j), s, u)
    ensures Follows(p, t, a, StepV(p, m, At(b, j, s)), StepP(p, a.phys, a.offs, a.bbs, m, At(b, OffsetIn(p, a, b, j), u)))
  {
    hide Agree, Expand, Expanded, Ready, Emittable, Undisturbed, ExpandIR, WellFormed;
    ReadyExpanded(p, t, a);
    InstrFacts(p, t, a, b, j);
    var ir := p.bbs[b][j];
    GroupKinds(p, a, ir);
    assert a.bbs[b][OffsetIn(p, a, b, j)] == a.bbs[b][OffsetIn(p, a, b, j)..OffsetIn(p, a, b, j + 1)][0] == ir;
    assert s.w == u.w by { AgreeWorld(p, a.phys, a.offs, LiveAt(p, t, b, j), s, u); }
    assert LiveAt(p, t, b, j) == LiveAt(p, t, b, j + 1);
    if Jumps(m, ir, s.w) {
      assert LastJmp(p.bbs[b]) == Some(ir) && ir.target in Succs(p, b);
      EnterReady(p, t, a, b, ir.target);
      AgreeFewer(p, a.phys, a.offs, LiveAt(p, t, b, j), LiveAt(p, t, ir.target, 0), s, u);
    }
  }

  lemma AgreeWorld<W>(p: Prog, phys: seq<int>, offs: seq<int>, live: set<nat>, s: VState<W>, u: PState<W>)
    requires |phys| == |offs| == |p.vregs| && Agree(p, phys, offs, live, s, u)
    ensures s.w == u.w
  {
  }

  lemma InstrFollows<W>(p: Prog, t: Passes, a: Alloc, m: Sem<W>, b: nat, j: nat, s: VState<W>, u: PState<W>) returns (k: nat)
    requires Ready(p, t, a) && Shapes(p, t, a) && b < |p.bbs| && j < |p.bbs[b]| && p.bbs[b][j].kind != JMP
    requires Agree(p, a.phys, a.offs, LiveAt(p, t, b, j), s, u)
    ensures k >= 1
    ensures Follows(p, t, a, StepV(p, m, At(b, j, s)), RunP(p, a.phys, a.offs, a.bbs, m, At(b, OffsetIn(p, a, b, j), u), k))
  {
    hide Agree, Expand, Expanded, Ready, Emittable, Undisturbed, ExecV, RunP, LiveAt, ExpandIR;
    ReadyExpanded(p, t, a);
    InstrFacts(p, t, a, b, j);
    assert Undisturbed(p, a.phys, p.bbs[b][j], a.marked[b][j].living, LiveAt(p, t, b, j + 1)) by { ReadyKeeps(p, t, a, b, j); }
    var ir, living := p.bbs[b][j], a.marked[b][j].living;
    var group := ExpandIR(p.vregs, a.phys, a.offs, a.marked[b][j]);
    k := |group|;
    GroupKinds(p, a, a.marked[b][j]);
    GroupSize(p, a, a.marked[b][j]);
    LiveStep(p, t, b, j);
    InstrSim(p, a.phys, a.offs, m, ir, living, LiveAt(p, t, b, j), LiveAt(p, t, b, j + 1), s, u);
    StretchRuns(p, a.phys, a.offs, a.bbs, m, b, OffsetIn(p, a, b, j), group, u);
  }

  lemma GroupSize(p: Prog, a: Alloc, ir: IR)
    ensures |ExpandIR(p.vregs, a.phys, a.offs, ir)| >= 1
  {
  }

  lemma LiveStep(p: Prog, t: Passes, b: nat, j: nat)
    requires b < |p.bbs| == |t.out| && j < |p.bbs[b]|
    ensures Uses(p.vregs, p.bbs[b][j]) <= LiveAt(p, t, b, j)
    ensures LiveAt(p, t, b, j + 1) - Named(p.bbs[b][j].dst) <= LiveAt(p, t, b, j)
  {
  }

  lemma ReadyExpanded(p: Prog, t: Passes, a: Alloc)
    requires Ready(p, t, a)
    ensures Expanded(p, t, a) && Placed(p, a.phys, a.offs)
  {
  }

  lemma ReadyKeeps(p: Prog, t: Passes, a: Alloc, b: nat, j: nat)
    requires Ready(p, t, a) && Shapes(p, t, a) && b < |p.bbs| && j < |p.bbs[b]|
    ensures Undisturbed(p, a.phys, p.bbs[b][j], a.marked[b][j].living, LiveAt(p, t, b, j + 1))
  {
  }

  lemma {:induction false} RunFollows<W>(p: Prog, t: Passes, a: Alloc, m: Sem<W>, c: Config<VState<W>>, d: Config<PState<W>>, n: nat)
    returns (k: nat)
    requires Ready(p, t, a) && Shapes(p, t, a) && Follows(p, t, a, c, d)
    ensures k >= n && Follows(p, t, a, RunV(p, m, c, n), RunP(p, a.phys, a.offs, a.bbs, m, d, k))
  {
    hide Ready, Shapes, Follows;
    if n == 0 {
      k := 0;
    } else {
      var k1 := RunFollows(p, t, a, m, c, d, n - 1);
      var d1 := RunP(p, a.phys, a.offs, a.bbs, m, d, k1);
      var k2 := StepFollows(p, t, a, m, RunV(p, m, c, n - 1), d1);
      RunPJoin(p, a.phys, a.offs, a.bbs, m, d, k1, k2);
      k := k1 + k2;
    }
  }

  /** The two machines agree at the entry of the function. */
  ghost predicate Entry<W>(p: Prog, t: Passes, a: Alloc, s: VState<W>, u: PState<W>) {
    && |p.bbs| > 0 && |t.out| == |p.bbs| && |a.phys| == |a.offs| == |p.vregs|
    && Agree(p, a.phys, a.offs, LiveAt(p, t, 0, 0), s, u)
  }

  /**
   Register allocation preserves meaning. Whatever the instructions compute and
   whatever calls leave in registers, after any number of steps of the code on
   virtual registers the allocated code gets to the same point, with the same
   world, every live value in its register or slot and every addressed variable
   in its slot. The output takes at least as many steps, so it also diverges when
   the source does.
   */
  lemma AllocationPreservesMeaning<W>(p: Prog, t: Passes, a: Alloc, m: Sem<W>, s: VState<W>, u: PState<W>, n: nat) returns (k: nat)
    requires WellFormed(p) && AllocatedBy(p, t, a) && AllEmittable(p, a.phys) && NoSharedHead(p, t, a)
    requires Entry(p, t, a, s, u)
    ensures Shapes(p, t, a) && k >= n
    ensures Follows(p, t, a, RunV(p, m, At(0, 0, s), n), RunP(p, a.phys, a.offs, a.bbs, m, At(0, 0, u), k))
  {
    hide WellFormed, AllocatedBy, AllEmittable, NoSharedHead, Agree, LiveAt, Expand;
    AllocReady(p, t, a);
    ReadyShapes(p, t, a);
    hide Ready;
    assert a.marked[0][..0] == [];
    NothingExpanded(p, a);
    k := RunFollows(p, t, a, m, At(0, 0, s), At(0, 0, u), n);
  }

  /** The hypothesis can be checked ahead of the scan. */
  lemma NoHeadClashSuffices(p: Prog, t: Passes, a: Alloc)
    requires WellFormed(p) && AllocatedBy(p, t, a) && NoHeadClash(p, t)
    ensures NoSharedHead(p, t, a)
  {
    hide AllocatedBy, WellFormed, NoHeadClash;
    if b: nat, v: nat :| SharedHead(p, t, a, b, v) {
      SharedCompete(p, t, a, b, v);
      Unshared(p, t, b, v);
      assert false;
    }
  }

  lemma Unshared(p: Prog, t: Passes, b: nat, v: nat)
    requires NoHeadClash(p, t) && HeadClash(p, t, b, v)
    ensures !MayShare(p, v, p.bbs[b][0].dst.value)
  {
  }

  lemma SharedCompete(p: Prog, t: Passes, a: Alloc, b: nat, v: nat)
    requires WellFormed(p) && AllocatedBy(p, t, a) && SharedHead(p, t, a, b, v)
    ensures HeadClash(p, t, b, v) && MayShare(p, v, p.bbs[b][0].dst.value)
  {
    hide AllocatedBy, WellFormed, LiveAt;
    InRegisterCompetes(p, t, a, v);
    InRegisterCompetes(p, t, a, p.bbs[b][0].dst.value);
  }

  lemma InRegisterCompetes(p: Prog, t: Passes, a: Alloc, v: nat)
    requires WellFormed(p) && AllocatedBy(p, t, a) && InRegister(p, a.phys, v)
    ensures Competes(p.vregs[v])
  {
    hide ScanRun, LeastFlow, Events, IntervalsAre, SortedByStart, LaidOut, BlockMarked, Expand;
    FrontFrame(p, t);
    assert t.ivs0[v] == Prepare(p.vregs[v], t.hulls[v]);
  }

  lemma NothingExpanded(p: Prog, a: Alloc)
    ensures Expand(p.vregs, a.phys, a.offs, []) == []
  {
  }

  lemma ReadyShapes(p: Prog, t: Passes, a: Alloc)
    requires Ready(p, t, a)
    ensures Shapes(p, t, a)
  {
  }

  lemma {:induction false} HaltedStays<W>(p: Prog, phys: seq<int>, offs: seq<int>, bbs: seq<Block>, m: Sem<W>, d: Config<PState<W>>, n: nat, k: nat)
    requires n <= k && RunP(p, phys, offs, bbs, m, d, n).Halt?
    ensures RunP(p, phys, offs, bbs, m, d, k) == RunP(p, phys, offs, bbs, m, d, n)
    decreases k
  {
    if n < k {
      HaltedStays(p, phys, offs, bbs, m, d, n, k - 1);
    }
  }

  ghost predicate ReturnsV<W>(p: Prog, m: Sem<W>, s: VState<W>, n: nat, w: W) {
    var c := RunV(p, m, At(0, 0, s), n);
    c.Halt? && c.s.w == w
  }

  ghost predicate ReturnsP<W>(p: Prog, a: Alloc, m: Sem<W>, u: PState<W>, k: nat, w: W) {
    var d := RunP(p, a.phys, a.offs, a.bbs, m, At(0, 0, u), k);
    d.Halt? && d.s.w == w
  }

  /** Hence both return or neither does, and when they return the world is the same. */
  lemma SameResults<W>(p: Prog, t: Passes, a: Alloc, m: Sem<W>, s: VState<W>, u: PState<W>, w: W)
    requires WellFormed(p) && AllocatedBy(p, t, a) && AllEmittable(p, a.phys) && NoSharedHead(p, t, a)
    requires Entry(p, t, a, s, u)
    ensures (exists n :: ReturnsV(p, m, s, n, w)) <==> (exists k :: ReturnsP(p, a, m, u, k, w))
  {
    hide WellFormed, AllocatedBy, AllEmittable, NoSharedHead, Entry, RunV, RunP;
    if n: nat :| ReturnsV(p, m, s, n, w) {
      var k := AllocationPreservesMeaning(p, t, a, m, s, u, n);
      assert ReturnsP(p, a, m, u, k, w);
    }
    if k: nat :| ReturnsP(p, a, m, u, k, w) {
      var later := AllocationPreservesMeaning(p, t, a, m, s, u, k);
      HaltedStays(p, a.phys, a.offs, a.bbs, m, At(0, 0, u), k, later);
      assert ReturnsV(p, m, s, k, w);
    }
  }

  // ----- When two needed values share a register -----

  /** Instruction `j` of block `b` writes the register that holds `v`, and `v` is needed afterwards. */
  ghost predicate Overwrites(p: Prog, t: Passes, a: Alloc, b: nat, j: nat, v: nat) {
    && b < |p.bbs| == |t.out| && j < |p.bbs[b]| && p.bbs[b][j].dst.Some?
    && v in LiveAt(p, t, b, j + 1) && v != p.bbs[b][j].dst.value && SameReg(p, a.phys, v, p.bbs[b][j].dst.value)
  }

  /** The allocator gives a live value's register away exactly in shared heads. */
  lemma OverwritesIffHeadClash(p: Prog, t: Passes, a: Alloc)
    requires WellFormed(p) && AllocatedBy(p, t, a)
    ensures (exists b: nat, j: nat, v: nat :: Overwrites(p, t, a, b, j, v)) <==>
            (exists b: nat, v: nat :: SharedHead(p, t, a, b, v))
  {
    hide AllocatedBy, WellFormed, LiveAt, Covering, Disjoint, RegistersAre, Scanned, Placed, SameReg, HullsKept;
    AllocFacts(p, t, a);
    AllocParts(p, t, a);
    KeptHulls(p, t, a.phys);
    if b: nat, j: nat, v: nat :| Overwrites(p, t, a, b, j, v) {
      OnlySharedHeads(p, t, a, b, j, v);
    }
    if b: nat, v: nat :| SharedHead(p, t, a, b, v) {
      assert Overwrites(p, t, a, b, 0, v);
    }
  }
}
