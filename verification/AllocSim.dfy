/**
 The allocator preserves meaning: the code on physical registers and frame slots
 follows the code on virtual registers step by step, with every live value in
 the place the allocator chose for it.
 */
module AllocSim {
  import opened Options
  import opened Ir
  import opened FrameLayout
  import opened SpillCode
  import opened Machine

  // ----- Frame memory -----

  lemma ReadBack(frame: map<int, bv8>, o: int, x: Bytes, n: nat)
    requires n <= |x|
    ensures ReadFrame(WriteFrame(frame, o, x), o, n) == x[..n]
  {
    var f := WriteFrame(frame, o, x);
    forall k | 0 <= k < n
      ensures ReadFrame(f, o, n)[k] == x[k]
    {
      assert o + k in f;
    }
  }

  lemma ReadApart(frame: map<int, bv8>, o: int, x: Bytes, o2: int, n: nat)
    requires o + |x| <= o2 || o2 + n <= o
    ensures ReadFrame(WriteFrame(frame, o, x), o2, n) == ReadFrame(frame, o2, n)
  {
    var f := WriteFrame(frame, o, x);
    forall k | 0 <= k < n
      ensures ReadFrame(f, o2, n)[k] == ReadFrame(frame, o2, n)[k]
    {
      assert o2 + k in f <==> o2 + k in frame;
    }
  }

  lemma ReadPrefix(frame: map<int, bv8>, o: int, n: nat, k: nat)
    requires k <= n
    ensures Fit(ReadFrame(frame, o, n), k) == ReadFrame(frame, o, k)
  {
  }

  lemma FitTwice(x: Bytes, n: nat, k: nat)
    requires k <= n
    ensures Fit(Fit(x, n), k) == Fit(x, k)
  {
    if |x| < n {
      ZerosPrefix(n - |x|, if k >= |x| then k - |x| else 0);
      if k >= |x| {
        assert Fit(x, n)[..k] == x + Zeros(n - |x|)[..k - |x|];
      }
    }
  }

  lemma {:induction false} ZerosPrefix(n: nat, k: nat)
    requires k <= n
    ensures Zeros(n)[..k] == Zeros(k)
  {
    if k < n {
      ZerosPrefix(n - 1, k);
      assert Zeros(n)[..k] == Zeros(n - 1)[..k];
    } else {
      assert Zeros(n)[..k] == Zeros(n);
    }
  }

  // ----- Where values are -----

  /** Every register has a place, and no two share frame bytes. */
  ghost predicate Placed(p: Prog, phys: seq<int>, offs: seq<int>) {
    && |phys| == |offs| == |p.vregs|
    && (forall v | 0 <= v < |p.vregs| && !IsConst(p.vregs, v) :: 0 <= phys[v] <= SPILLED)
    && (forall v | 0 <= v < |p.vregs| && p.vregs[v].addressed :: phys[v] == SPILLED && !IsConst(p.vregs, v))
    && (forall v, w | 0 <= v < |p.vregs| && 0 <= w < |p.vregs| && v != w && InSlot(p, phys, v) && InSlot(p, phys, w) ::
          Apart(offs[v], SlotSize(p.vregs[v]), offs[w], SlotSize(p.vregs[w])))
  }

  ghost predicate InSlot(p: Prog, phys: seq<int>, v: nat) {
    v < |p.vregs| == |phys| && !IsConst(p.vregs, v) && phys[v] == SPILLED
  }

  /** The value in the place of register `v`. */
  ghost function Held<W>(p: Prog, phys: seq<int>, offs: seq<int>, t: PState<W>, v: nat): Bytes
    requires v < |p.vregs| == |phys| == |offs|
  {
    if phys[v] == SPILLED then ReadFrame(t.frame, offs[v], p.vregs[v].size)
    else Fit(GetReg(t, p.vregs[v].flonum, phys[v]), p.vregs[v].size)
  }

  ghost predicate Sized<W>(p: Prog, s: VState<W>, t: PState<W>) {
    && |s.env| == |p.vregs| && |t.iregs| == |t.fregs| == REGS
    && forall v | 0 <= v < |p.vregs| && !IsConst(p.vregs, v) :: |s.env[v]| == p.vregs[v].size
  }

  /** Registers that matter now are where the allocator put them; addressed variables always matter. */
  ghost predicate Agree<W>(p: Prog, phys: seq<int>, offs: seq<int>, live: set<nat>, s: VState<W>, t: PState<W>)
    requires |phys| == |offs| == |p.vregs|
  {
    && Sized(p, s, t) && s.w == t.w
    && forall v | 0 <= v < |p.vregs| && !IsConst(p.vregs, v) && (v in live || p.vregs[v].addressed) ::
         Held(p, phys, offs, t, v) == s.env[v]
  }

  /**
   What the emitter relies on for one instruction: at most one operand in the frame,
   none in the kinds that the insertion pass steps over, widths that reach the
   whole register, and results no wider than a register.
   */
  ghost predicate Emittable(p: Prog, phys: seq<int>, ir: IR) {
    && !(InFrame(p.vregs, phys, Read1(ir)) && InFrame(p.vregs, phys, ir.opr2))
    && (InFrame(p.vregs, phys, Read1(ir)) || InFrame(p.vregs, phys, ir.opr2) ==>
          !Passed(ir.kind) && !TakesAddress(ir.kind))
    && (InFrame(p.vregs, phys, Read1(ir)) ==> WidthUsed(p.vregs, ir) >= p.vregs[ir.opr1.value].size)
    && (InFrame(p.vregs, phys, ir.opr2) ==> ir.kind != CAST && WidthUsed(p.vregs, ir) >= p.vregs[ir.opr2.value].size)
    && (InFrame(p.vregs, phys, ir.dst) ==> !Passed(ir.kind) && ir.size == p.vregs[ir.dst.value].size)
    && (ir.dst.Some? ==> SizeOf(p, ir.dst.value) <= WORD_SIZE)
  }

  /** Straight-line execution. */
  ghost function RunList<W>(p: Prog, phys: seq<int>, offs: seq<int>, m: Sem<W>, irs: Block, t: PState<W>): PState<W> {
    if irs == [] then t
    else RunList(p, phys, offs, m, irs[1..], ExecP(p, phys, offs, m, irs[0], t))
  }

  /** Only the work registers may differ. */
  ghost predicate SameButWork<W>(t: PState<W>, t': PState<W>) {
    && t'.frame == t.frame && t'.w == t.w
    && |t.iregs| == |t.fregs| == |t'.iregs| == |t'.fregs| == REGS
    && forall r | 0 <= r < SPILLED :: t'.iregs[r] == t.iregs[r] && t'.fregs[r] == t.fregs[r]
  }

  lemma LoadOne<W>(p: Prog, phys: seq<int>, offs: seq<int>, m: Sem<W>, v: nat, size: int, t: PState<W>)
    requires Placed(p, phys, offs) && InSlot(p, phys, v) && size >= p.vregs[v].size
    requires |t.iregs| == |t.fregs| == REGS
    ensures var t' := ExecP(p, phys, offs, m, LoadSpilled(v, offs[v], size), t);
            SameButWork(t, t') && OperandP(p, phys, t', Some(v)) == Held(p, phys, offs, t, v)
  {
    ReadPrefix(t.frame, offs[v], size, p.vregs[v].size);
  }

  /** Operands in registers survive whatever happens to the work registers. */
  lemma OperandStays<W>(p: Prog, phys: seq<int>, t: PState<W>, t': PState<W>, o: Option<nat>)
    requires SameButWork(t, t') && |phys| == |p.vregs|
    requires o.Some? ==> o.value < |p.vregs| && !InFrame(p.vregs, phys, o)
                         && (!IsConst(p.vregs, o.value) ==> 0 <= phys[o.value] <= SPILLED)
    ensures OperandP(p, phys, t', o) == OperandP(p, phys, t, o)
  {
  }

  lemma OperandAgrees<W>(p: Prog, phys: seq<int>, offs: seq<int>, live: set<nat>, s: VState<W>, t: PState<W>, o: Option<nat>)
    requires Placed(p, phys, offs) && Agree(p, phys, offs, live, s, t)
    requires o.Some? ==> o.value < |p.vregs| && (IsConst(p.vregs, o.value) || o.value in live)
    requires !InFrame(p.vregs, phys, o)
    ensures OperandP(p, phys, t, o) == OperandV(p, s.env, o)
  {
    if o.Some? && !IsConst(p.vregs, o.value) {
      assert Held(p, phys, offs, t, o.value) == s.env[o.value];
    }
  }

  /** After the loads, both operands read the same bytes as on virtual registers. */
  lemma LoadsSim<W>(p: Prog, phys: seq<int>, offs: seq<int>, m: Sem<W>, ir: IR, live: set<nat>, s: VState<W>, t: PState<W>)
    requires Placed(p, phys, offs) && Agree(p, phys, offs, live, s, t) && Emittable(p, phys, ir)
    requires (forall v | v in Mentions(ir) :: v < |p.vregs|) && Uses(p.vregs, ir) <= live
    ensures var t' := RunList(p, phys, offs, m, Loads(p.vregs, phys, offs, ir), t);
            && SameButWork(t, t')
            && OperandP(p, phys, t', Read1(ir)) == OperandV(p, s.env, Read1(ir))
            && OperandP(p, phys, t', ir.opr2) == OperandV(p, s.env, ir.opr2)
  {
    hide Agree, ExecP, Emittable;
    var o1, o2 := Read1(ir), ir.opr2;
    EmitFacts(p, phys, offs, ir, live);
    if InFrame(p.vregs, phys, o1) || InFrame(p.vregs, phys, o2) {
      var mine, other := if InFrame(p.vregs, phys, o1) then o1 else o2, if InFrame(p.vregs, phys, o1) then o2 else o1;
      var v := mine.value;
      var ld := LoadSpilled(v, offs[v], RuleOf(p.vregs, ir).loadSize);
      var t' := ExecP(p, phys, offs, m, ld, t);
      AgreeFacts(p, phys, offs, live, s, t, v);
      LoadOne(p, phys, offs, m, v, RuleOf(p.vregs, ir).loadSize, t);
      OperandStays(p, phys, t, t', other);
      OperandAgrees(p, phys, offs, live, s, t, other);
      assert Loads(p.vregs, phys, offs, ir) == [ld];
      assert RunList(p, phys, offs, m, [ld][1..], t') == t';
    } else {
      assert Loads(p.vregs, phys, offs, ir) == [];
      SizedFacts(p, phys, offs, live, s, t);
      OperandAgrees(p, phys, offs, live, s, t, o1);
      OperandAgrees(p, phys, offs, live, s, t, o2);
    }
  }

  lemma SizedFacts<W>(p: Prog, phys: seq<int>, offs: seq<int>, live: set<nat>, s: VState<W>, t: PState<W>)
    requires |phys| == |offs| == |p.vregs| && Agree(p, phys, offs, live, s, t)
    ensures |t.iregs| == |t.fregs| == REGS
  {
  }

  lemma AgreeFacts<W>(p: Prog, phys: seq<int>, offs: seq<int>, live: set<nat>, s: VState<W>, t: PState<W>, v: nat)
    requires |phys| == |offs| == |p.vregs| && Agree(p, phys, offs, live, s, t)
    requires v < |p.vregs| && !IsConst(p.vregs, v) && v in live
    ensures |s.env| == |p.vregs| && |t.iregs| == |t.fregs| == REGS
    ensures Held(p, phys, offs, t, v) == s.env[v]
  {
  }

  /** The shape of the loads, read off the emitter's conditions. */
  lemma EmitFacts(p: Prog, phys: seq<int>, offs: seq<int>, ir: IR, live: set<nat>)
    requires Placed(p, phys, offs) && Emittable(p, phys, ir)
    requires (forall v | v in Mentions(ir) :: v < |p.vregs|) && Uses(p.vregs, ir) <= live
    ensures forall o | (o == Read1(ir) || o == ir.opr2) && o.Some? ::
              && o.value < |p.vregs| && (IsConst(p.vregs, o.value) || o.value in live)
              && (!IsConst(p.vregs, o.value) ==> 0 <= phys[o.value] <= SPILLED)
              && (InFrame(p.vregs, phys, o) ==> InSlot(p, phys, o.value) && RuleOf(p.vregs, ir).Rule?
                                                && RuleOf(p.vregs, ir).loadSize >= p.vregs[o.value].size)
    ensures !(InFrame(p.vregs, phys, Read1(ir)) && InFrame(p.vregs, phys, ir.opr2))
    ensures Loads(p.vregs, phys, offs, ir) ==
            if InFrame(p.vregs, phys, Read1(ir)) then
              [LoadSpilled(ir.opr1.value, offs[ir.opr1.value], RuleOf(p.vregs, ir).loadSize)]
            else if InFrame(p.vregs, phys, ir.opr2) then
              [LoadSpilled(ir.opr2.value, offs[ir.opr2.value], RuleOf(p.vregs, ir).loadSize)]
            else []
  {
    assert forall v | v in Named(ir.opr1) + Named(ir.opr2) && !IsConst(p.vregs, v) :: v in Uses(p.vregs, ir);
    if ir.opr1.Some? {
      assert ir.opr1.value in Mentions(ir) && ir.opr1.value in Named(ir.opr1) + Named(ir.opr2);
    }
    if ir.opr2.Some? {
      assert ir.opr2.value in Mentions(ir) && ir.opr2.value in Named(ir.opr1) + Named(ir.opr2);
    }
  }

  // ----- The instruction itself -----

  lemma {:induction false} WriteRefsReads(p: Prog, phys: seq<int>, offs: seq<int>, frame: map<int, bv8>, refs: map<nat, Bytes>, k: nat, v: nat)
    requires Placed(p, phys, offs) && k <= |p.vregs| && InSlot(p, phys, v)
    ensures var n := p.vregs[v].size;
            ReadFrame(WriteRefs(p, offs, frame, refs, k), offs[v], n) ==
            if v < k && p.vregs[v].addressed then Fit(NewRef(refs, v, ReadFrame(frame, offs[v], n)), n)
            else ReadFrame(frame, offs[v], n)
  {
    if k > 0 {
      var w := k - 1;
      WriteRefsReads(p, phys, offs, frame, refs, w, v);
      if p.vregs[w].addressed {
        assert InSlot(p, phys, w);
        var rest := WriteRefs(p, offs, frame, refs, w);
        var x := Fit(NewRef(refs, w, ReadFrame(frame, offs[w], p.vregs[w].size)), p.vregs[w].size);
        if v == w {
          ReadBack(rest, offs[w], x, p.vregs[w].size);
        } else {
          ReadApart(rest, offs[w], x, offs[v], p.vregs[v].size);
        }
      }
    }
  }

  lemma RefsAgree<W>(p: Prog, phys: seq<int>, offs: seq<int>, live: set<nat>, s: VState<W>, t: PState<W>, t1: PState<W>)
    requires Placed(p, phys, offs) && Agree(p, phys, offs, live, s, t) && t1.frame == t.frame
    ensures RefsP(p, offs, t1) == RefsV(p, s.env)
  {
    forall v: nat | v < |p.vregs| && p.vregs[v].addressed
      ensures ReadFrame(t1.frame, OffsetOf(offs, v), p.vregs[v].size) == EnvAt(s.env, v)
    {
      assert Held(p, phys, offs, t, v) == s.env[v];
    }
  }

  /** What must be kept apart around one instruction with result `dst`. */
  ghost predicate Undisturbed(p: Prog, phys: seq<int>, ir: IR, living: set<int>, after: set<nat>) {
    && |phys| == |p.vregs|
    && forall v | v in after && v < |p.vregs| && !IsConst(p.vregs, v) && Some(v) != ir.dst && phys[v] != SPILLED ::
         && (ir.dst.Some? && ir.dst.value < |p.vregs| && p.vregs[ir.dst.value].flonum == p.vregs[v].flonum
             ==> phys[v] != phys[ir.dst.value])
         && (ir.kind == CALL ==> 0 <= phys[v] && Survives(p.vregs[v].flonum, phys[v], living))
  }

  /** Any other value that matters is still in place after the instruction, in its slot ... */
  lemma SlotKept<W>(p: Prog, phys: seq<int>, offs: seq<int>, m: Sem<W>, ir: IR, living: set<int>, live: set<nat>,
                    s: VState<W>, t: PState<W>, t1: PState<W>, v: nat)
    requires Placed(p, phys, offs) && Agree(p, phys, offs, live, s, t) && SameButWork(t, t1)
    requires ir.kind != LOAD_SPILLED && ir.kind != STORE_SPILLED
    requires OutcomeP(p, phys, offs, m, ir.(living := living), t1) == OutcomeV(p, m, ir, s)
    requires InSlot(p, phys, v) && Some(v) != ir.dst && (p.vregs[v].addressed || v in live)
    ensures Held(p, phys, offs, ExecP(p, phys, offs, m, ir.(living := living), t1), v) == ExecV(p, m, ir, s).env[v]
  {
    hide OutcomeP, OutcomeV;
    var o := OutcomeV(p, m, ir, s);
    assert Held(p, phys, offs, t, v) == s.env[v];
    WriteRefsReads(p, phys, offs, t1.frame, o.refs, |p.vregs|, v);
  }

  /** ... or in its register. */
  lemma RegisterKept<W>(p: Prog, phys: seq<int>, offs: seq<int>, m: Sem<W>, ir: IR, living: set<int>, live: set<nat>,
                        after: set<nat>, s: VState<W>, t: PState<W>, t1: PState<W>, v: nat)
    requires Placed(p, phys, offs) && Agree(p, phys, offs, live, s, t) && SameButWork(t, t1)
    requires Undisturbed(p, phys, ir, living, after)
    requires ir.kind != LOAD_SPILLED && ir.kind != STORE_SPILLED && (ir.dst.Some? ==> ir.dst.value < |p.vregs|)
    requires OutcomeP(p, phys, offs, m, ir.(living := living), t1) == OutcomeV(p, m, ir, s)
    requires v < |p.vregs| && !IsConst(p.vregs, v) && phys[v] != SPILLED && Some(v) != ir.dst && v in live && v in after
    ensures Held(p, phys, offs, ExecP(p, phys, offs, m, ir.(living := living), t1), v) == ExecV(p, m, ir, s).env[v]
  {
    hide OutcomeP, OutcomeV, WriteRefs;
    var o := OutcomeV(p, m, ir, s);
    assert Held(p, phys, offs, t, v) == s.env[v];
    assert !p.vregs[v].addressed && 0 <= phys[v] < SPILLED;
    var t2 := AfterCall(m, ir.(living := living), o.w, t1);
    assert GetReg(t2, p.vregs[v].flonum, phys[v]) == GetReg(t1, p.vregs[v].flonum, phys[v]);
  }

  lemma {:induction false} RunListJoin<W>(p: Prog, phys: seq<int>, offs: seq<int>, m: Sem<W>, a: Block, b: Block, t: PState<W>)
    ensures RunList(p, phys, offs, m, a + b, t) == RunList(p, phys, offs, m, b, RunList(p, phys, offs, m, a, t))
  {
    if a == [] {
      assert a + b == b;
    } else {
      assert (a + b)[1..] == a[1..] + b;
      RunListJoin(p, phys, offs, m, a[1..], b, ExecP(p, phys, offs, m, a[0], t));
    }
  }

  /** The result reaches the register of its class that `phys` names, the work register included. */
  lemma ResultInRegister<W>(p: Prog, phys: seq<int>, offs: seq<int>, m: Sem<W>, ir: IR, living: set<int>, s: VState<W>, t1: PState<W>)
    requires Placed(p, phys, offs) && |s.env| == |p.vregs| && |t1.iregs| == |t1.fregs| == REGS
    requires ir.kind != LOAD_SPILLED && ir.kind != STORE_SPILLED
    requires OutcomeP(p, phys, offs, m, ir.(living := living), t1) == OutcomeV(p, m, ir, s)
    requires ir.dst.Some? && ir.dst.value < |p.vregs| && !IsConst(p.vregs, ir.dst.value)
    requires SizeOf(p, ir.dst.value) <= WORD_SIZE
    ensures var t2 := ExecP(p, phys, offs, m, ir.(living := living), t1);
            var d := ir.dst.value;
            && |t2.iregs| == |t2.fregs| == REGS
            && |GetReg(t2, p.vregs[d].flonum, phys[d])| == WORD_SIZE
            && Fit(GetReg(t2, p.vregs[d].flonum, phys[d]), p.vregs[d].size) == ExecV(p, m, ir, s).env[d]
  {
    hide OutcomeP, OutcomeV, WriteRefs;
    FitTwice(OutcomeV(p, m, ir, s).res, WORD_SIZE, SizeOf(p, ir.dst.value));
  }

  /** The store after the instruction puts it in its slot and disturbs nothing else. */
  lemma StoreOne<W>(p: Prog, phys: seq<int>, offs: seq<int>, m: Sem<W>, d: nat, t2: PState<W>, v: nat)
    requires Placed(p, phys, offs) && InSlot(p, phys, d) && v < |p.vregs| && !IsConst(p.vregs, v)
    ensures var t3 := ExecP(p, phys, offs, m, StoreSpilled(d, offs[d], p.vregs[d].size), t2);
            && t3 == t2.(frame := t3.frame)
            && Held(p, phys, offs, t3, v) ==
               if v == d then Fit(GetReg(t2, p.vregs[d].flonum, SPILLED), p.vregs[d].size) else Held(p, phys, offs, t2, v)
  {
    var x := Fit(GetReg(t2, p.vregs[d].flonum, SPILLED), p.vregs[d].size);
    if v == d {
      ReadBack(t2.frame, offs[d], x, p.vregs[d].size);
    } else if InSlot(p, phys, v) {
      ReadApart(t2.frame, offs[d], x, offs[v], p.vregs[v].size);
    }
  }

  /** What is known after the instruction and before the store, for one register. */
  lemma MainSim<W>(p: Prog, phys: seq<int>, offs: seq<int>, m: Sem<W>, ir: IR, living: set<int>, live: set<nat>,
                   after: set<nat>, s: VState<W>, t: PState<W>, t1: PState<W>, v: nat)
    requires Placed(p, phys, offs) && Agree(p, phys, offs, live, s, t) && SameButWork(t, t1)
    requires Undisturbed(p, phys, ir, living, after) && WellFormedIR(p, ir) && Emittable(p, phys, ir)
    requires OutcomeP(p, phys, offs, m, ir.(living := living), t1) == OutcomeV(p, m, ir, s)
    requires v < |p.vregs| && !IsConst(p.vregs, v) && (p.vregs[v].addressed || v in after)
    requires v in after && Some(v) != ir.dst ==> v in live
    ensures var t2 := ExecP(p, phys, offs, m, ir.(living := living), t1);
            if Some(v) == ir.dst && phys[v] == SPILLED
            then Fit(GetReg(t2, p.vregs[v].flonum, SPILLED), p.vregs[v].size) == ExecV(p, m, ir, s).env[v]
            else Held(p, phys, offs, t2, v) == ExecV(p, m, ir, s).env[v]
  {
    IRFacts(p, phys, ir);
    hide OutcomeP, OutcomeV, WriteRefs, ExecP, ExecV, Undisturbed, WellFormedIR, Emittable;
    SizedFacts(p, phys, offs, live, s, t);
    if Some(v) == ir.dst {
      ResultInRegister(p, phys, offs, m, ir, living, s, t1);
    } else if phys[v] == SPILLED {
      SlotKept(p, phys, offs, m, ir, living, live, s, t, t1, v);
    } else {
      RegisterKept(p, phys, offs, m, ir, living, live, after, s, t, t1, v);
    }
  }

  lemma IRFacts(p: Prog, phys: seq<int>, ir: IR)
    requires WellFormedIR(p, ir) && |phys| == |p.vregs| && Emittable(p, phys, ir)
    ensures ir.kind != LOAD_SPILLED && ir.kind != STORE_SPILLED && ir.living == {}
    ensures ir.dst.Some? ==> ir.dst.value < |p.vregs| && !IsConst(p.vregs, ir.dst.value) && SizeOf(p, ir.dst.value) <= WORD_SIZE
    ensures forall v | v in Mentions(ir) :: v < |p.vregs|
  {
    assert ir.dst.Some? ==> ir.dst.value in Named(ir.dst);
    assert ir.dst.Some? ==> ir.dst.value in Mentions(ir);
  }

  lemma ShapesKept<W>(p: Prog, phys: seq<int>, offs: seq<int>, m: Sem<W>, ir: IR, living: set<int>, s: VState<W>, t1: PState<W>)
    requires |s.env| == |p.vregs| && |t1.iregs| == |t1.fregs| == REGS
    requires ir.kind != LOAD_SPILLED && ir.kind != STORE_SPILLED
    requires forall v | 0 <= v < |p.vregs| && !IsConst(p.vregs, v) :: |s.env[v]| == p.vregs[v].size
    requires OutcomeP(p, phys, offs, m, ir.(living := living), t1) == OutcomeV(p, m, ir, s)
    ensures Sized(p, ExecV(p, m, ir, s), ExecP(p, phys, offs, m, ir.(living := living), t1))
    ensures ExecV(p, m, ir, s).w == ExecP(p, phys, offs, m, ir.(living := living), t1).w
  {
    hide OutcomeP, OutcomeV, WriteRefs;
  }

  /** The group of one instruction runs as loads, instruction, stores. */
  lemma GroupRuns<W>(p: Prog, phys: seq<int>, offs: seq<int>, m: Sem<W>, ir: IR, living: set<int>, t: PState<W>)
    ensures var irp := ir.(living := living);
            RunList(p, phys, offs, m, ExpandIR(p.vregs, phys, offs, irp), t) ==
            RunList(p, phys, offs, m, Stores(p.vregs, phys, offs, ir),
                    ExecP(p, phys, offs, m, irp, RunList(p, phys, offs, m, Loads(p.vregs, phys, offs, ir), t)))
  {
    hide ExecP;
    var irp := ir.(living := living);
    var loads, stores := Loads(p.vregs, phys, offs, ir), Stores(p.vregs, phys, offs, ir);
    assert Loads(p.vregs, phys, offs, irp) == loads && Stores(p.vregs, phys, offs, irp) == stores;
    hide Loads, Stores;
    assert ExpandIR(p.vregs, phys, offs, irp) == loads + ([irp] + stores);
    RunListJoin(p, phys, offs, m, loads, [irp] + stores, t);
    assert ([irp] + stores)[1..] == stores;
  }

  /** The stores of a group, seen from one register. */
  lemma StoresSim<W>(p: Prog, phys: seq<int>, offs: seq<int>, m: Sem<W>, ir: IR, t2: PState<W>, v: nat)
    requires Placed(p, phys, offs) && Emittable(p, phys, ir) && v < |p.vregs| && !IsConst(p.vregs, v)
    requires ir.dst.Some? ==> ir.dst.value < |p.vregs| && !IsConst(p.vregs, ir.dst.value)
    ensures var t3 := RunList(p, phys, offs, m, Stores(p.vregs, phys, offs, ir), t2);
            && t3 == t2.(frame := t3.frame)
            && Held(p, phys, offs, t3, v) ==
               if Some(v) == ir.dst && phys[v] == SPILLED
               then Fit(GetReg(t2, p.vregs[v].flonum, SPILLED), p.vregs[v].size) else Held(p, phys, offs, t2, v)
  {
    hide ExecP, Held;
    var stores := Stores(p.vregs, phys, offs, ir);
    if InFrame(p.vregs, phys, ir.dst) {
      var d := ir.dst.value;
      var st := StoreSpilled(d, offs[d], p.vregs[d].size);
      assert stores == [st] && [st][1..] == [];
      StoreOne(p, phys, offs, m, d, t2, v);
    } else {
      assert stores == [];
    }
  }

  /** One instruction of the source against its group in the output. */
  lemma InstrSim<W>(p: Prog, phys: seq<int>, offs: seq<int>, m: Sem<W>, ir: IR, living: set<int>,
                    live: set<nat>, after: set<nat>, s: VState<W>, t: PState<W>)
    requires Placed(p, phys, offs) && Agree(p, phys, offs, live, s, t)
    requires WellFormedIR(p, ir) && Emittable(p, phys, ir) && Undisturbed(p, phys, ir, living, after)
    requires Uses(p.vregs, ir) <= live && after - Named(ir.dst) <= live
    ensures Agree(p, phys, offs, after, ExecV(p, m, ir, s),
                  RunList(p, phys, offs, m, ExpandIR(p.vregs, phys, offs, ir.(living := living)), t))
  {
    var irp := ir.(living := living);
    var t1 := RunList(p, phys, offs, m, Loads(p.vregs, phys, offs, ir), t);
    var t2 := ExecP(p, phys, offs, m, irp, t1);
    var t3 := RunList(p, phys, offs, m, Stores(p.vregs, phys, offs, ir), t2);
    var s2 := ExecV(p, m, ir, s);
    IRFacts(p, phys, ir);
    SizedFacts(p, phys, offs, live, s, t);
    hide WellFormedIR, Agree, OutcomeP, OutcomeV, WriteRefs, ExecP, ExecV, Undisturbed, RunList, Loads, Stores, Held, Emittable, RefsP, RefsV, ExpandIR;
    GroupRuns(p, phys, offs, m, ir, living, t);
    LoadsSim(p, phys, offs, m, ir, live, s, t);
    RefsAgree(p, phys, offs, live, s, t, t1);
    SameOutcome(p, phys, offs, m, ir, living, s, t1);
    ShapesKept(p, phys, offs, m, ir, living, s, t1);
    forall v | 0 <= v < |p.vregs| && !IsConst(p.vregs, v) && (v in after || p.vregs[v].addressed)
      ensures Held(p, phys, offs, t3, v) == s2.env[v]
    {
      MainSim(p, phys, offs, m, ir, living, live, after, s, t, t1, v);
      StoresSim(p, phys, offs, m, ir, t2, v);
    }
    StoresShape(p, phys, offs, m, ir, t2);
    AgreeFrom(p, phys, offs, after, s2, t2, t3);
  }

  lemma AgreeFrom<W>(p: Prog, phys: seq<int>, offs: seq<int>, after: set<nat>, s2: VState<W>, t2: PState<W>, t3: PState<W>)
    requires |phys| == |offs| == |p.vregs| && Sized(p, s2, t2) && s2.w == t2.w && t3 == t2.(frame := t3.frame)
    requires forall v | 0 <= v < |p.vregs| && !IsConst(p.vregs, v) && (v in after || p.vregs[v].addressed) :: Held(p, phys, offs, t3, v) == s2.env[v]
    ensures Agree(p, phys, offs, after, s2, t3)
  {
  }

  lemma SameOutcome<W>(p: Prog, phys: seq<int>, offs: seq<int>, m: Sem<W>, ir: IR, living: set<int>, s: VState<W>, t1: PState<W>)
    requires ir.living == {} && s.w == t1.w && RefsP(p, offs, t1) == RefsV(p, s.env)
    requires OperandP(p, phys, t1, Read1(ir)) == OperandV(p, s.env, Read1(ir))
    requires OperandP(p, phys, t1, ir.opr2) == OperandV(p, s.env, ir.opr2)
    ensures OutcomeP(p, phys, offs, m, ir.(living := living), t1) == OutcomeV(p, m, ir, s)
  {
    assert Erase(ir.(living := living)) == ir;
  }

  lemma StoresShape<W>(p: Prog, phys: seq<int>, offs: seq<int>, m: Sem<W>, ir: IR, t2: PState<W>)
    ensures var t3 := RunList(p, phys, offs, m, Stores(p.vregs, phys, offs, ir), t2);
            t3 == t2.(frame := t3.frame)
  {
    var stores := Stores(p.vregs, phys, offs, ir);
    if stores != [] {
      assert stores[1..] == [];
    }
  }
}
