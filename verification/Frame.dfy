/** Frame slots for spilled registers (end of `alloc_physical_registers`). */
module FrameLayout {
  import opened Orders
  import opened Util
  import opened Ir
  import opened Intervals

  function SlotSize(v: VReg): nat {
    if v.size < 1 then 1 else v.size
  }

  predicate Apart(o1: int, n1: nat, o2: int, n2: nat) {
    o1 + n1 <= o2 || o2 + n2 <= o1
  }

  /** The registers that live in the frame, with the place each one has. */
  ghost predicate SlotsApart(vregs: seq<VReg>, offs: seq<int>, who: set<nat>) {
    && |offs| == |vregs| && (forall v | v in who :: v < |vregs|)
    && forall v, w | v in who && w in who && v != w ::
         Apart(offs[v], SlotSize(vregs[v]), offs[w], SlotSize(vregs[w]))
  }

  /** Stack parameters: above the frame, each in its own place. */
  ghost predicate ParamsPlaced(vregs: seq<VReg>) {
    && (forall v | 0 <= v < |vregs| && vregs[v].offset != 0 :: vregs[v].offset >= 2 * WORD_SIZE)
    && (forall v, w | 0 <= v < |vregs| && 0 <= w < |vregs| && v != w && vregs[v].offset != 0 && vregs[w].offset != 0 ::
          Apart(vregs[v].offset, SlotSize(vregs[v]), vregs[w].offset, SlotSize(vregs[w])))
  }

  ghost function SpilledOf(ivs: seq<LiveInterval>, order: seq<nat>): set<nat> {
    set v | v in order && v < |ivs| && ivs[v].state == SPILL
  }

  /** What the layout loop keeps: slots below the frame pointer, aligned, above `-frameSize`, apart. */
  ghost predicate LaidOut(vregs: seq<VReg>, ivs: seq<LiveInterval>, order: seq<nat>, offs: seq<int>, frameSize: int) {
    && SlotsApart(vregs, offs, SpilledOf(ivs, order)) && 0 <= frameSize
    && forall v | v in SpilledOf(ivs, order) ::
         if vregs[v].offset != 0 then offs[v] == vregs[v].offset
         else vregs[v].align > 0 && offs[v] % vregs[v].align == 0
              && -frameSize <= offs[v] && offs[v] + SlotSize(vregs[v]) <= 0
  }

  /** Gives every spilled register without a place of its own a slot, in interval order. */
  method LayoutFrame(vregs: seq<VReg>, ivs: seq<LiveInterval>, order: seq<nat>)
    returns (offs: seq<int>, frameSize: int)
    requires |ivs| == |vregs| && IsOrder(order, |vregs|) && ParamsPlaced(vregs)
    requires forall v | 0 <= v < |vregs| :: vregs[v].align > 0
    ensures LaidOut(vregs, ivs, order, offs, frameSize)
    ensures frameSize % 8 == 0
  {
    var offset := new int[|vregs|](i => 0);
    for i := 0 to |vregs|
      invariant forall v | 0 <= v < i :: offset[v] == vregs[v].offset
    {
      offset[i] := vregs[i].offset;
    }
    var size := 0;
    assert SpilledOf(ivs, order[..0]) == {};
    for i := 0 to |order|
      invariant LaidOut(vregs, ivs, order[..i], offset[..], size)
      invariant forall r | i <= r < |order| :: offset[order[r]] == vregs[order[r]].offset
    {
      var v := order[i];
      ghost var offs0 := offset[..];
      SpilledNext(ivs, order, i);
      if ivs[v].state != SPILL {
        continue;
      }
      if offset[v] != 0 {
        if -offset[v] > size {
          size := -offset[v];
        }
        continue;
      }
      ghost var size0 := size;
      var n := if vregs[v].size < 1 then 1 else vregs[v].size;
      AlignUpIs(size + n, vregs[v].align);
      size := AlignUp(size + n, vregs[v].align);
      offset[v] := -size;
      SlotAdded(vregs, ivs, order, i, offs0, size0, offset[..], size);
    }
    offs := offset[..];
    assert order[..|order|] == order;
    AlignUpIs(size, 8);
    frameSize := AlignUp(size, 8);
  }

  lemma SpilledNext(ivs: seq<LiveInterval>, order: seq<nat>, i: nat)
    requires i < |order| && order[i] < |ivs|
    ensures SpilledOf(ivs, order[..i + 1]) ==
            SpilledOf(ivs, order[..i]) + if ivs[order[i]].state == SPILL then {order[i]} else {}
  {
    assert order[..i + 1] == order[..i] + [order[i]];
  }

  lemma SlotAdded(vregs: seq<VReg>, ivs: seq<LiveInterval>, order: seq<nat>, i: nat,
                  offs: seq<int>, size: int, offs': seq<int>, size': int)
    requires |ivs| == |vregs| && IsOrder(order, |vregs|) && i < |order| && ivs[order[i]].state == SPILL
    requires LaidOut(vregs, ivs, order[..i], offs, size) && ParamsPlaced(vregs)
    requires vregs[order[i]].align > 0 && vregs[order[i]].offset == 0
    requires size + SlotSize(vregs[order[i]]) <= size' && (-size') % vregs[order[i]].align == 0
    requires offs' == offs[order[i] := -size']
    ensures LaidOut(vregs, ivs, order[..i + 1], offs', size')
  {
    SpilledNext(ivs, order, i);
    assert order[i] !in order[..i];
  }
}
