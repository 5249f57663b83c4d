/**
 The result of a comparison (`IR_COND`) when it is spilled. Its register is a 4-byte
 truth value, but `new_ir_cond` leaves the instruction's size at -1, which the spill
 code takes for the width of the store.
 */
module SpilledCond {
  import opened Options
  import opened Ir
  import opened SpillCode
  import opened Machine
  import opened AllocSim

  // The size of the type that `new_ir_cond` gives its result.
  const BOOL_SIZE: nat := 4

  function NewCond(dst: nat, size: int): IR {
    IR(COND, Some(dst), None, None, size, 0, ANY, 0, {})
  }

  /** The store puts the value into the slot and changes no other byte. */
  ghost predicate Stored<W>(p: Prog, phys: seq<int>, offs: seq<int>, m: Sem<W>, st: IR, d: nat, u: PState<W>) {
    var o, after := OffsetOf(offs, d), ExecP(p, phys, offs, m, st, u);
    && ReadFrame(after.frame, o, BOOL_SIZE) == Fit(GetReg(u, Flonum(p, d), SPILLED), BOOL_SIZE)
    && (forall k | k < o || k >= o + BOOL_SIZE :: (k in after.frame <==> k in u.frame) && (k in u.frame ==> after.frame[k] == u.frame[k]))
  }

  lemma StoredAtSize<W>(p: Prog, phys: seq<int>, offs: seq<int>, m: Sem<W>, d: nat, u: PState<W>)
    ensures Stored(p, phys, offs, m, StoreSpilled(d, OffsetOf(offs, d), BOOL_SIZE), d, u)
  {
    var x := Fit(GetReg(u, Flonum(p, d), SPILLED), BOOL_SIZE);
    var o := OffsetOf(offs, d);
    assert ReadFrame(WriteFrame(u.frame, o, x), o, BOOL_SIZE) == x;
  }

  /** Any other size misses a byte of the slot or writes one behind it. */
  lemma MissedAtSize<W>(p: Prog, phys: seq<int>, offs: seq<int>, m: Sem<W>, d: nat, size: int, w: W) returns (u: PState<W>)
    requires size != BOOL_SIZE
    ensures |u.iregs| == |u.fregs| == REGS && !Stored(p, phys, offs, m, StoreSpilled(d, OffsetOf(offs, d), size), d, u)
  {
    var ones: Bytes := [1, 1, 1, 1, 1, 1, 1, 1];
    var file := seq(REGS, r requires 0 <= r < REGS => ones);
    u := PState(file, file, map[], w);
    var o, n := OffsetOf(offs, d), Width(size);
    var after := WriteFrame(u.frame, o, Fit(ones, n));
    assert ExecP(p, phys, offs, m, StoreSpilled(d, o, size), u).frame == after;
    if n < BOOL_SIZE {
      assert o + 3 !in after && ReadFrame(after, o, BOOL_SIZE)[3] == 0 && Fit(ones, BOOL_SIZE)[3] == 1;
    } else {
      assert o + BOOL_SIZE in after;
    }
  }

  /**
   A spilled result comes with a store of the instruction's size, which is right in
   every state exactly at the size of the type; the emitter's conditions say the same.
   */
  lemma SpilledCondIff<W(!new)>(p: Prog, phys: seq<int>, offs: seq<int>, m: Sem<W>, d: nat, size: int, w: W)
    requires |phys| == |offs| == |p.vregs| && InSlot(p, phys, d) && p.vregs[d].size == BOOL_SIZE
    ensures ExpandIR(p.vregs, phys, offs, NewCond(d, size)) == [NewCond(d, size), StoreSpilled(d, offs[d], size)]
    ensures (forall u: PState<W> | |u.iregs| == |u.fregs| == REGS :: Stored(p, phys, offs, m, StoreSpilled(d, offs[d], size), d, u)) <==> size == BOOL_SIZE
    ensures Emittable(p, phys, NewCond(d, size)) <==> size == BOOL_SIZE
  {
    hide Stored;
    if size == BOOL_SIZE {
      forall u: PState<W> ensures Stored(p, phys, offs, m, StoreSpilled(d, offs[d], size), d, u) {
        StoredAtSize(p, phys, offs, m, d, u);
      }
    } else {
      var u := MissedAtSize(p, phys, offs, m, d, size, w);
    }
  }

  /** With the size that `new_ir_cond` leaves, nothing is stored. */
  lemma CondResultLost<W>(p: Prog, phys: seq<int>, offs: seq<int>, m: Sem<W>, d: nat, u: PState<W>)
    ensures ExecP(p, phys, offs, m, StoreSpilled(d, OffsetOf(offs, d), -1), u) == u
  {
  }
}
