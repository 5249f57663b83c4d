/**
 The registers that are live across each call (`detect_living_registers`).
 Bit numbers are register numbers, with the floating-point registers after the
 integer ones.
 */
module LivingRegs {
  import opened Orders
  import opened Ir
  import opened Intervals
  import opened ScanInvariant

  function Bit(vregs: seq<VReg>, ivs: seq<LiveInterval>, v: nat): int
    requires v < |ivs| == |vregs|
  {
    ivs[v].phys + if vregs[v].flonum then PHYSICAL_REG_MAX else 0
  }

  /** The interval holds its register after position `n`: it has started and is not over. */
  predicate Spans(li: LiveInterval, n: int) {
    li.state == NORMAL && li.start <= n < li.end
  }

  /** What the scan hands over: registers in range, no overlaps, starts in order. */
  ghost predicate Scanned(vregs: seq<VReg>, ivs: seq<LiveInterval>, order: seq<nat>) {
    && |vregs| == |ivs| && NormalSorted(ivs, order)
    && (forall v | 0 <= v < |ivs| && ivs[v].state == NORMAL ::
          && 0 <= ivs[v].phys < RegMax(vregs[v].flonum)
          && ivs[v].start <= ivs[v].end && (ivs[v].start < 0 ==> ivs[v].end < 0))
    && (forall r, s | 0 <= r < s < |order| && vregs[order[r]].flonum == vregs[order[s]].flonum :: NoOverlap(ivs, order, r, s))
  }

  /** Bit `b` belongs to an interval that spans `n` (ranks below `k`) or `n - 1` (the others). */
  ghost predicate Owned(vregs: seq<VReg>, ivs: seq<LiveInterval>, order: seq<nat>, n: int, k: nat, b: int)
    requires |vregs| == |ivs| && IsOrder(order, |ivs|)
  {
    exists r: nat :: r < |order| && Bit(vregs, ivs, order[r]) == b && Spans(ivs[order[r]], if r < k then n else n - 1)
  }

  ghost predicate MaskIs(vregs: seq<VReg>, ivs: seq<LiveInterval>, order: seq<nat>, n: int, k: nat, mask: set<int>)
    requires |vregs| == |ivs| && IsOrder(order, |ivs|)
  {
    forall b :: b in mask <==> Owned(vregs, ivs, order, n, k, b)
  }

  /** Two intervals with the same bit are of one class and in one register. */
  lemma SameBit(vregs: seq<VReg>, ivs: seq<LiveInterval>, order: seq<nat>, r: nat, s: nat)
    requires Scanned(vregs, ivs, order) && r < s < |order|
    requires Bit(vregs, ivs, order[r]) == Bit(vregs, ivs, order[s])
    requires ivs[order[r]].state == NORMAL && ivs[order[s]].state == NORMAL
    ensures ivs[order[r]].end <= ivs[order[s]].start
    ensures ivs[order[r]].start <= ivs[order[s]].start
  {
    assert NoOverlap(ivs, order, r, s);
  }

  /** Handling rank `k` at position `n`: a set at its start, a clear at its end. */
  lemma RankStep(vregs: seq<VReg>, ivs: seq<LiveInterval>, order: seq<nat>, n: int, k: nat, mask: set<int>, mask': set<int>)
    requires Scanned(vregs, ivs, order) && k < |order| && MaskIs(vregs, ivs, order, n, k, mask)
    requires var li := ivs[order[k]];
             var b := Bit(vregs, ivs, order[k]);
             var set1 := if li.state == NORMAL && n == li.start then mask + {b} else mask;
             && (li.state == NORMAL ==> li.start <= n)
             && mask' == if li.state == NORMAL && n == li.end then set1 - {b} else set1
    ensures MaskIs(vregs, ivs, order, n, k + 1, mask')
  {
    var li := ivs[order[k]];
    var b := Bit(vregs, ivs, order[k]);
    forall c
      ensures c in mask' <==> Owned(vregs, ivs, order, n, k + 1, c)
    {
      if Owned(vregs, ivs, order, n, k, c) && !Owned(vregs, ivs, order, n, k + 1, c) {
        var r: nat :| r < |order| && Bit(vregs, ivs, order[r]) == c && Spans(ivs[order[r]], if r < k then n else n - 1);
        assert r == k;
        assert c == b && n == li.end;
      }
      if Owned(vregs, ivs, order, n, k + 1, c) {
        var r: nat :| r < |order| && Bit(vregs, ivs, order[r]) == c && Spans(ivs[order[r]], if r < k + 1 then n else n - 1);
        if r == k {
          assert n == li.start || Spans(li, n - 1);
        } else {
          assert Owned(vregs, ivs, order, n, k, c);
          if li.state == NORMAL && c == b && n == li.end {
            if r < k {
              SameBit(vregs, ivs, order, r, k);
            } else {
              SameBit(vregs, ivs, order, k, r);
            }
          }
        }
      }
    }
  }

  /** Nothing has started before position 0. */
  lemma NothingBefore(vregs: seq<VReg>, ivs: seq<LiveInterval>, order: seq<nat>)
    requires Scanned(vregs, ivs, order)
    ensures MaskIs(vregs, ivs, order, 0, 0, {})
  {
    forall b
      ensures !Owned(vregs, ivs, order, 0, 0, b)
    {
    }
  }

  /** When the walk stops at an interval that starts later, the rest contributes nothing either way. */
  lemma RestIsLater(vregs: seq<VReg>, ivs: seq<LiveInterval>, order: seq<nat>, n: int, k: nat, mask: set<int>)
    requires Scanned(vregs, ivs, order) && k <= |order| && MaskIs(vregs, ivs, order, n, k, mask)
    requires k < |order| ==> ivs[order[k]].state == NORMAL && n < ivs[order[k]].start
    ensures MaskIs(vregs, ivs, order, n + 1, 0, mask)
  {
    forall b
      ensures Owned(vregs, ivs, order, n, k, b) <==> Owned(vregs, ivs, order, n + 1, 0, b)
    {
      if Owned(vregs, ivs, order, n, k, b) {
        var r: nat :| r < |order| && Bit(vregs, ivs, order[r]) == b && Spans(ivs[order[r]], if r < k then n else n - 1);
        assert Spans(ivs[order[r]], (n + 1) - 1);
      }
      if Owned(vregs, ivs, order, n + 1, 0, b) {
        var r: nat :| r < |order| && Bit(vregs, ivs, order[r]) == b && Spans(ivs[order[r]], n);
        assert r < k;
      }
    }
  }

  /** Brings the mask of position `nip - 1` to position `nip`. */
  method StepMask(vregs: seq<VReg>, ivs: seq<LiveInterval>, order: seq<nat>, nip: nat, living0: set<int>)
    returns (living: set<int>)
    requires Scanned(vregs, ivs, order) && MaskIs(vregs, ivs, order, nip, 0, living0)
    ensures MaskIs(vregs, ivs, order, nip + 1, 0, living)
  {
    hide MaskIs;
    living := living0;
    var k := 0;
    while k < |order|
      invariant 0 <= k <= |order| && MaskIs(vregs, ivs, order, nip, k, living)
    {
      var li := ivs[order[k]];
      ghost var before := living;
      if li.state == NORMAL {
        if nip < li.start {
          break;
        }
        var phys := Bit(vregs, ivs, order[k]);
        if nip == li.start {
          living := living + {phys};
        }
        if nip == li.end {
          living := living - {phys};
        }
      }
      RankStep(vregs, ivs, order, nip, k, before, living);
      k := k + 1;
    }
    RestIsLater(vregs, ivs, order, nip, k, living);
  }

  /** Bit `b` is set exactly when an interval in that register spans position `n`. */
  ghost predicate LiveAcross(vregs: seq<VReg>, ivs: seq<LiveInterval>, order: seq<nat>, n: int, b: int)
    requires |vregs| == |ivs| && IsOrder(order, |ivs|)
  {
    exists r: nat :: r < |order| && Bit(vregs, ivs, order[r]) == b && Spans(ivs[order[r]], n)
  }

  /** `ir'` is `ir`, with the mask of position `n` if it is a call. */
  ghost predicate Marked(vregs: seq<VReg>, ivs: seq<LiveInterval>, order: seq<nat>, n: int, ir: IR, ir': IR)
    requires |vregs| == |ivs| && IsOrder(order, |ivs|)
  {
    && ir' == ir.(living := ir'.living)
    && (ir.kind != CALL ==> ir' == ir)
    && (ir.kind == CALL ==> forall b :: b in ir'.living <==> LiveAcross(vregs, ivs, order, n, b))
  }

  ghost predicate BlockMarked(vregs: seq<VReg>, ivs: seq<LiveInterval>, order: seq<nat>, start: nat, irs: Block, irs': Block, n: nat)
    requires |vregs| == |ivs| && IsOrder(order, |ivs|)
  {
    && |irs'| == |irs| && n <= |irs|
    && (forall j | 0 <= j < n :: Marked(vregs, ivs, order, start + j, irs[j], irs'[j]))
    && (forall j | n <= j < |irs| :: irs'[j] == irs[j])
  }

  /** Stores the mask at every call of the function. */
  method DetectLivingRegisters(p: Prog, ivs: seq<LiveInterval>, order: seq<nat>) returns (bbs: seq<Block>)
    requires Scanned(p.vregs, ivs, order)
    ensures |bbs| == |p.bbs|
    ensures forall b | 0 <= b < |bbs| ::
              BlockMarked(p.vregs, ivs, order, StartOf(p.bbs, b), p.bbs[b], bbs[b], |p.bbs[b]|)
  {
    hide MaskIs, NoOverlap, BlockMarked, Scanned, IsOrder;
    ScannedShape(p.vregs, ivs, order);
    bbs := p.bbs;
    var living: set<int> := {};
    var nip := 0;
    NothingBefore(p.vregs, ivs, order);
    for i := 0 to |p.bbs|
      invariant |bbs| == |p.bbs| && nip == StartOf(p.bbs, i)
      invariant MaskIs(p.vregs, ivs, order, nip, 0, living)
      invariant forall b | i <= b < |bbs| :: bbs[b] == p.bbs[b]
      invariant forall b | 0 <= b < i ::
                  BlockMarked(p.vregs, ivs, order, StartOf(p.bbs, b), p.bbs[b], bbs[b], |p.bbs[b]|)
    {
      var irs;
      irs, living, nip := MarkBlock(p.vregs, ivs, order, p.bbs[i], living, nip);
      bbs := bbs[i := irs];
    }
  }

  lemma ScannedShape(vregs: seq<VReg>, ivs: seq<LiveInterval>, order: seq<nat>)
    requires Scanned(vregs, ivs, order)
    ensures |vregs| == |ivs| && IsOrder(order, |ivs|)
  {
  }

  method MarkBlock(vregs: seq<VReg>, ivs: seq<LiveInterval>, order: seq<nat>, irs0: Block, living0: set<int>, nip0: nat)
    returns (irs: Block, living: set<int>, nip: nat)
    requires Scanned(vregs, ivs, order) && MaskIs(vregs, ivs, order, nip0, 0, living0)
    ensures nip == nip0 + |irs0| && MaskIs(vregs, ivs, order, nip, 0, living)
    ensures BlockMarked(vregs, ivs, order, nip0, irs0, irs, |irs0|)
  {
    hide MaskIs, NoOverlap;
    irs, living, nip := irs0, living0, nip0;
    for j := 0 to |irs0|
      invariant nip == nip0 + j && MaskIs(vregs, ivs, order, nip, 0, living)
      invariant BlockMarked(vregs, ivs, order, nip0, irs0, irs, j)
    {
      living := StepMask(vregs, ivs, order, nip, living);
      if irs[j].kind == CALL {
        irs := irs[j := irs[j].(living := living)];
      }
      MaskFacts(vregs, ivs, order, nip, living);
      nip := nip + 1;
    }
  }

  lemma MaskFacts(vregs: seq<VReg>, ivs: seq<LiveInterval>, order: seq<nat>, n: int, mask: set<int>)
    requires Scanned(vregs, ivs, order) && MaskIs(vregs, ivs, order, n + 1, 0, mask)
    ensures forall b :: b in mask <==> LiveAcross(vregs, ivs, order, n, b)
    ensures forall b | b in mask :: b >= 0
  {
    forall b
      ensures Owned(vregs, ivs, order, n + 1, 0, b) <==> LiveAcross(vregs, ivs, order, n, b)
      ensures LiveAcross(vregs, ivs, order, n, b) ==> b >= 0
    {
      if Owned(vregs, ivs, order, n + 1, 0, b) {
        var r: nat :| r < |order| && Bit(vregs, ivs, order[r]) == b && Spans(ivs[order[r]], n);
      }
      if LiveAcross(vregs, ivs, order, n, b) {
        var r: nat :| r < |order| && Bit(vregs, ivs, order[r]) == b && Spans(ivs[order[r]], n);
        assert Spans(ivs[order[r]], if r < 0 then n + 1 else (n + 1) - 1);
      }
    }
  }
}
