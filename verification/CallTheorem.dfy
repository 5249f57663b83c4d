/**
 A call does what it means, whatever is nested in it: the stack is aligned at
 every call, each callee gets its own arguments, the live registers keep their
 values, and the stack pointer comes back.
 */
module CallTheorem {
  import opened Options
  import opened CallSequence

  /** Two arguments do not share a stack slot. */
  ghost predicate Separate(args: seq<Arg>) {
    forall i, j | 0 <= i < j < |args| && args[i].place.OnStack? && args[j].place.OnStack? :: args[i].place.offset != args[j].place.offset
  }

  /** `stackpos` tells the stack pointer up to multiples of 16. */
  predicate Tracked<S>(st: Mach<S>, stackpos: nat) {
    (st.rsp + stackpos) % 16 == 0 && st.passed == []
  }

  /** Back where it was, with what lay in the stack. */
  ghost predicate Back<S>(st: Mach<S>, st1: Mach<S>, regs: Regs, s: S) {
    st1.rsp == st.rsp && st1.passed == [] && st1.regs == regs && st1.s == s && SameAbove(st.stack, st1.stack, st.rsp)
  }

  ghost predicate ValsLie(stack: int -> int, rsp: int, vals: seq<int>) {
    forall k | 0 <= k < |vals| :: stack(rsp + 8 * k) == vals[k]
  }

  ghost predicate SlotsLie(stack: int -> int, base: int, slots: map<nat, int>) {
    forall o | o in slots :: stack(base + o) == slots[o]
  }

  ghost predicate SlotsOf(slots: map<nat, int>, offsets: seq<nat>) {
    forall o :: o in slots <==> o in offsets
  }

  predicate SlotsFit(slots: map<nat, int>, stackSize: nat) {
    forall o | o in slots :: o + 8 <= stackSize
  }

  /** The arguments lie where the callee will look for them. */
  ghost predicate ArgsLie<S>(st: Mach<S>, st1: Mach<S>, e: Args<S>, args: seq<Arg>, stackSize: nat) {
    && |e.vals| == RegCount(args) && st1.rsp == st.rsp - 8 * RegCount(args)
    && st1.passed == [] && st1.regs == e.regs && st1.s == e.s
    && ValsLie(st1.stack, st1.rsp, e.vals)
    && SlotsLie(st1.stack, st.rsp, e.onStack) && SlotsOf(e.onStack, Offsets(args)) && SlotsFit(e.onStack, stackSize)
    && SameAbove(st.stack, st1.stack, st.rsp + stackSize)
  }

  lemma {:induction false} ItemsSim<S>(m: Sem<S>, items: seq<Item>, stackpos: nat, st: Mach<S>) returns (st1: Mach<S>)
    requires Tracked(st, stackpos) && forall it | it in items :: it.Nested? ==> WellFormed(it.call)
    ensures Run(m, EmitItems(items, stackpos), st) == Some(st1)
    ensures var (regs, s) := EvalItems(m, items, st.regs, st.s); Back(st, st1, regs, s)
    decreases items, 0
  {
    hide Run, Step;
    if items == [] {
      st1 := st;
      RunNone(m, st);
    } else {
      var st2 := ItemSim(m, items[0], stackpos, st);
      RunJoin(m, EmitItem(items[0], stackpos), EmitItems(items[1..], stackpos), st);
      st1 := ItemsSim(m, items[1..], stackpos, st2);
    }
  }

  lemma RunNone<S>(m: Sem<S>, st: Mach<S>)
    ensures Run(m, [], st) == Some(st)
  {
  }

  lemma {:induction false} ItemSim<S>(m: Sem<S>, item: Item, stackpos: nat, st: Mach<S>) returns (st1: Mach<S>)
    requires Tracked(st, stackpos) && (item.Nested? ==> WellFormed(item.call))
    ensures Run(m, EmitItem(item, stackpos), st) == Some(st1)
    ensures var (regs, s) := EvalItem(m, item, st.regs, st.s); Back(st, st1, regs, s)
    decreases item, 2
  {
    match item
    case Eval(e) =>
      RunOne(m, EvalI(e), st);
      st1 := Step(m, EvalI(e), st).value;
    case Nested(c) =>
      st1 := CallSim(m, c, stackpos, st);
  }

  lemma {:induction false} ArgsSim<S>(m: Sem<S>, args: seq<Arg>, stackSize: nat, stackpos: nat, st: Mach<S>) returns (st1: Mach<S>)
    requires Tracked(st, stackpos) && Separate(args) && forall a | a in args :: WellFormedArg(a, stackSize)
    ensures Run(m, EmitArgs(args, stackpos), st) == Some(st1)
    ensures ArgsLie(st, st1, EvalArgs(m, args, st.regs, st.s), args, stackSize)
    decreases args, 0
  {
    hide Run, Step, EvalItems, EmitItems, WellFormedArg;
    if args == [] {
      st1 := st;
      RunNone(m, st);
    } else {
      var head, rest := args[0], args[1..];
      assert WellFormedArg(head, stackSize);
      var pushed := 8 * RegCount(rest);
      var e := EvalArgs(m, rest, st.regs, st.s);
      var st2 := ArgsSim(m, rest, stackSize, stackpos, st);
      assert Tracked(st2, stackpos + pushed);
      ArgCode(head, stackSize);
      var st3 := ItemsSim(m, head.code, stackpos + pushed, st2);
      var items := EmitItems(head.code, stackpos + pushed);
      var last := match head.place case InReg => Push(head.value) case OnStack(offset) => StoreSp(offset + pushed, head.value);
      RunOne(m, last, st3);
      st1 := PlaceSim(m, args, stackSize, st, st2, st3, e, last);
      RunJoin(m, items, [last], st2);
      RunJoin(m, EmitArgs(rest, stackpos), items + [last], st);
    }
  }

  lemma ArgCode(a: Arg, stackSize: nat)
    requires WellFormedArg(a, stackSize)
    ensures forall it | it in a.code :: it.Nested? ==> WellFormed(it.call)
    ensures a.place.OnStack? ==> a.place.offset + 8 <= stackSize
  {
  }

  /** The last step of an argument: its value is put into its place. */
  lemma PlaceSim<S>(m: Sem<S>, args: seq<Arg>, stackSize: nat, st: Mach<S>, st2: Mach<S>, st3: Mach<S>, e: Args<S>, last: Instr) returns (st1: Mach<S>)
    requires args != [] && Separate(args) && (args[0].place.OnStack? ==> args[0].place.offset + 8 <= stackSize)
    requires e == EvalArgs(m, args[1..], st.regs, st.s) && ArgsLie(st, st2, e, args[1..], stackSize)
    requires var (r, s) := EvalItems(m, args[0].code, e.regs, e.s); Back(st2, st3, r, s)
    requires last == match args[0].place
                     case InReg => Push(args[0].value)
                     case OnStack(offset) => StoreSp(offset + 8 * RegCount(args[1..]), args[0].value)
    ensures Step(m, last, st3) == Some(st1)
    ensures ArgsLie(st, st1, EvalArgs(m, args, st.regs, st.s), args, stackSize)
  {
    hide EvalItems, ArgsLie, SameAbove;
    st1 := Step(m, last, st3).value;
    if args[0].place.InReg? {
      PushLies(m, args, stackSize, st, st2, st3, e, st1);
    } else {
      StoreLies(m, args, stackSize, st, st2, st3, e, st1);
    }
  }

  lemma PushLies<S>(m: Sem<S>, args: seq<Arg>, stackSize: nat, st: Mach<S>, st2: Mach<S>, st3: Mach<S>, e: Args<S>, st1: Mach<S>)
    requires args != [] && args[0].place.InReg?
    requires e == EvalArgs(m, args[1..], st.regs, st.s) && ArgsLie(st, st2, e, args[1..], stackSize)
    requires var (r, s) := EvalItems(m, args[0].code, e.regs, e.s); Back(st2, st3, r, s)
    requires Step(m, Push(args[0].value), st3) == Some(st1)
    ensures ArgsLie(st, st1, EvalArgs(m, args, st.regs, st.s), args, stackSize)
  {
    hide EvalItems, Value;
    var e1 := EvalArgs(m, args, st.regs, st.s);
    var v := Value(args[0].value, st3.regs);
    assert e1.vals == [v] + e.vals && e1.onStack == e.onStack;
    forall k | 0 <= k < |e1.vals| ensures st1.stack(st1.rsp + 8 * k) == e1.vals[k] {
      if k > 0 {
        assert st1.rsp + 8 * k == st2.rsp + 8 * (k - 1);
        assert e1.vals[k] == e.vals[k - 1];
      }
    }
  }

  lemma StoreLies<S>(m: Sem<S>, args: seq<Arg>, stackSize: nat, st: Mach<S>, st2: Mach<S>, st3: Mach<S>, e: Args<S>, st1: Mach<S>)
    requires args != [] && Separate(args) && args[0].place.OnStack? && args[0].place.offset + 8 <= stackSize
    requires e == EvalArgs(m, args[1..], st.regs, st.s) && ArgsLie(st, st2, e, args[1..], stackSize)
    requires var (r, s) := EvalItems(m, args[0].code, e.regs, e.s); Back(st2, st3, r, s)
    requires Step(m, StoreSp(args[0].place.offset + 8 * RegCount(args[1..]), args[0].value), st3) == Some(st1)
    ensures ArgsLie(st, st1, EvalArgs(m, args, st.regs, st.s), args, stackSize)
  {
    hide EvalItems, Value, Step, EvalArgs, Separate, ValsLie, SlotsLie, SlotsOf, SameAbove, Offsets;
    OffsetNew(args);
    var o := args[0].place.offset;
    assert o !in e.onStack by { SlotNew(e.onStack, Offsets(args[1..]), o); }
    var e1 := EvalArgs(m, args, st.regs, st.s);
    var v := Value(args[0].value, st3.regs);
    StoreFacts(m, args, st, st3, e, st1);
    SlotsMore(e.onStack, Offsets(args[1..]), Offsets(args), o, v);
    StoredAll(st2.stack, st3.stack, st1.stack, st.rsp, st2.rsp, stackSize, e.vals, e.onStack, o, v);
    AboveTrans(st.stack, st2.stack, st1.stack, st.rsp + stackSize);
  }

  lemma AboveTrans(f: int -> int, g: int -> int, h: int -> int, at: int)
    requires SameAbove(f, g, at) && SameAbove(g, h, at)
    ensures SameAbove(f, h, at)
  {
  }

  lemma SlotNew(slots: map<nat, int>, offsets: seq<nat>, o: nat)
    requires SlotsOf(slots, offsets) && o !in offsets
    ensures o !in slots
  {
  }

  lemma SlotsMore(slots: map<nat, int>, rest: seq<nat>, offsets: seq<nat>, o: nat, v: int)
    requires SlotsOf(slots, rest) && offsets == [o] + rest
    ensures SlotsOf(slots[o := v], offsets)
  {
  }

  lemma StoreFacts<S>(m: Sem<S>, args: seq<Arg>, st: Mach<S>, st3: Mach<S>, e: Args<S>, st1: Mach<S>)
    requires args != [] && args[0].place.OnStack?
    requires e == EvalArgs(m, args[1..], st.regs, st.s)
    requires (st3.regs, st3.s) == EvalItems(m, args[0].code, e.regs, e.s) && st3.rsp + 8 * RegCount(args[1..]) == st.rsp
    requires Step(m, StoreSp(args[0].place.offset + 8 * RegCount(args[1..]), args[0].value), st3) == Some(st1)
    ensures var o, v := args[0].place.offset, Value(args[0].value, st3.regs);
            && st1.stack == Write(st3.stack, st.rsp + o, v) && st1.rsp == st3.rsp && st1.passed == st3.passed && st1.regs == st3.regs && st1.s == st3.s
            && EvalArgs(m, args, st.regs, st.s) == Args(e.vals, e.onStack[o := v], st3.regs, st3.s)
            && RegCount(args) == RegCount(args[1..])
            && Offsets(args) == [o] + Offsets(args[1..])
  {
    hide EvalItems, Value;
  }

  /** A word stored at `base + o` leaves everything else in its place. */
  lemma StoredAll(f2: int -> int, f3: int -> int, f1: int -> int, base: int, rsp: int, stackSize: nat, vals: seq<int>, slots: map<nat, int>, o: nat, v: int)
    requires f1 == Write(f3, base + o, v) && SameAbove(f2, f3, rsp) && rsp + 8 * |vals| == base && o + 8 <= stackSize
    requires ValsLie(f2, rsp, vals) && SlotsLie(f2, base, slots) && o !in slots
    ensures ValsLie(f1, rsp, vals) && SlotsLie(f1, base, slots[o := v]) && SameAbove(f2, f1, base + stackSize)
  {
    forall k | 0 <= k < |vals| ensures f1(rsp + 8 * k) == vals[k] {
      assert f2(rsp + 8 * k) == vals[k];
    }
  }

  /** A stack slot is used once. */
  lemma OffsetNew(args: seq<Arg>)
    requires args != [] && Separate(args) && args[0].place.OnStack?
    ensures args[0].place.offset !in Offsets(args[1..])
  {
    var o := args[0].place.offset;
    forall j | 0 <= j < |args| - 1 && args[1..][j].place.OnStack? ensures args[1..][j].place.offset != o {
      assert args[1..][j] == args[j + 1];
    }
    NotIn(args[1..], o);
  }

  lemma {:induction false} NotIn(args: seq<Arg>, o: nat)
    requires forall j | 0 <= j < |args| && args[j].place.OnStack? :: args[j].place.offset != o
    ensures o !in Offsets(args)
  {
    if args != [] {
      NotIn(args[1..], o);
    }
  }

  lemma {:induction false} FilterIs(order: seq<nat>, living: set<nat>)
    ensures forall r :: r in Filter(order, living) <==> r in order && r in living
    ensures |Filter(order, living)| <= |order|
  {
    if order != [] {
      FilterIs(order[1..], living);
    }
  }

  lemma {:induction false} CallSim<S>(m: Sem<S>, c: Call, stackpos: nat, st: Mach<S>) returns (st1: Mach<S>)
    requires Tracked(st, stackpos) && WellFormed(c)
    ensures Run(m, EmitCall(c, stackpos), st) == Some(st1)
    ensures var (regs, s) := EvalCall(m, c, st.regs, st.s); Back(st, st1, regs, s)
    decreases c, 1
  {
    hide Run, Step, EvalArgs, EmitArgs, CallTail, Sub, ArgsLie, Behind;
    var high, low := Filter(HIGH, c.living), Filter(LOW, c.living);
    var align := Alignment(stackpos, |high| + |low|, c.stackSize);
    var add := (|high| + |low|) * 8 + align;
    var stB := st.(rsp := st.rsp - add - c.stackSize);
    Aligned(st.rsp, stackpos, |high| + |low|, c.stackSize);
    CallParts(c);
    var e := EvalArgs(m, c.args, st.regs, st.s);
    var stA := ArgsSim(m, c.args, c.stackSize, stackpos + add + c.stackSize, stB);
    st1 := TailSim(m, c, high, low, align, stB, stA, e);
    HeadSim(m, add, c.stackSize, st, EmitArgs(c.args, stackpos + add + c.stackSize), CallTail(c, high, low, align), stB, stA);
    assert EmitCall(c, stackpos) == Sub(add) + (Sub(c.stackSize) + (EmitArgs(c.args, stackpos + add + c.stackSize) + CallTail(c, high, low, align)));
  }

  /** A call keeps RBX, R12, R13, R14 and the registers of its mask, and no others. */
  lemma KeepsIff(k: nat, living: set<nat>)
    requires k < PREGS
    ensures Keeps(k, living) <==> k in {0, 3, 4, 5} || k in living
  {
  }

  /** RBX, R12, R13, R14 and every live register behind a call are as they were ahead of it, the result's apart. */
  lemma LiveKept<S>(m: Sem<S>, c: Call, stackpos: nat, st: Mach<S>) returns (st1: Mach<S>)
    requires Tracked(st, stackpos) && WellFormed(c)
    ensures Run(m, EmitCall(c, stackpos), st) == Some(st1)
    ensures forall k | 0 <= k < PREGS && (k in {0, 3, 4, 5} || k in c.living) && Some(k) != c.dst ::
              st1.regs[k] == EvalArgs(m, c.args, st.regs, st.s).regs[k]
  {
    hide Run, EmitCall, EvalArgs, Tracked, WellFormed;
    st1 := CallSim(m, c, stackpos, st);
  }

  lemma Aligned(rsp: int, stackpos: nat, saved: nat, stackSize: nat)
    requires (rsp + stackpos) % 16 == 0
    ensures var add := saved * 8 + Alignment(stackpos, saved, stackSize);
            && (stackpos + add + stackSize) % 16 == 0 && (rsp - add - stackSize) % 16 == 0
            && (rsp - add - stackSize + (stackpos + add + stackSize)) % 16 == 0
  {
  }

  lemma CallParts(c: Call)
    requires WellFormed(c)
    ensures Separate(c.args) && (forall a | a in c.args :: WellFormedArg(a, c.stackSize)) && (c.dst.Some? ==> c.dst.value < PREGS)
  {
  }

  lemma HeadSim<S>(m: Sem<S>, add: nat, size: nat, st: Mach<S>, args: Code, tail: Code, stB: Mach<S>, stA: Mach<S>)
    requires stB == st.(rsp := st.rsp - add - size) && Run(m, args, stB) == Some(stA)
    ensures Run(m, Sub(add) + (Sub(size) + (args + tail)), st) == Run(m, tail, stA)
  {
    hide Run, Sub;
    var st0 := st.(rsp := st.rsp - add);
    SubSim(m, add, st);
    SubSim(m, size, st0);
    RunJoin(m, Sub(add), Sub(size) + (args + tail), st);
    RunJoin(m, Sub(size), args + tail, st0);
    RunJoin(m, args, tail, stB);
  }

  /** Behind the arguments: save, pop the register arguments, call, restore. */
  lemma TailSim<S>(m: Sem<S>, c: Call, high: seq<nat>, low: seq<nat>, align: nat, stB: Mach<S>, stA: Mach<S>, e: Args<S>) returns (st1: Mach<S>)
    requires high == Filter(HIGH, c.living) && low == Filter(LOW, c.living) && stB.rsp % 16 == 0
    requires ArgsLie(stB, stA, e, c.args, c.stackSize) && (c.dst.Some? ==> c.dst.value < PREGS)
    ensures Run(m, CallTail(c, high, low, align), stA) == Some(st1)
    ensures var a := m.call(c.callee, e.vals, e.onStack, e.s);
            var r := Behind(e.regs, c.living, a.clobbers);
            && st1.rsp == stB.rsp + c.stackSize + align + 8 * (|high| + |low|) && st1.passed == []
            && st1.regs == (if c.dst.Some? then r[c.dst.value := a.result] else r) && st1.s == a.s
            && SameAbove(stB.stack, st1.stack, st1.rsp)
  {
    hide Run, Step, Behind, Filter, Add, RegCount, Offsets, SaveCode, Restore, PopArgs, Patched;
    var n := RegCount(c.args);
    var mov := if c.dst.Some? then [MovResult(c.dst.value)] else [];
    var st2, st3 := SaveAndCall(m, c, high, low, align, stB, stA, e);
    var call := CallI(c.callee, Offsets(c.args), c.stackSize);
    var save := SaveCode(high + low, n * 8 + c.stackSize + align);
    var st4 := st3.(rsp := st3.rsp + (align + c.stackSize));
    SubSim(m, align + c.stackSize, st3);
    var st5 := RestoreSim(m, high, low, c.living, e.regs, m.call(c.callee, e.vals, e.onStack, e.s).clobbers, st4);
    var back := Add(align + c.stackSize) + (Restore(high, low) + mov);
    RunJoin(m, save, PopArgs(n) + ([call] + back), stA);
    RunJoin(m, PopArgs(n), [call] + back, st2);
    RunJoin(m, [call], back, st2.(passed := e.vals, rsp := stB.rsp));
    RunJoin(m, Add(align + c.stackSize), Restore(high, low) + mov, st3);
    RunJoin(m, Restore(high, low), mov, st4);
    st1 := if c.dst.Some? then st5.(regs := st5.regs[c.dst.value := st5.result]) else st5;
    MovSim(m, c.dst, st5, st1);
  }

  /** Up to the callee's return: the live registers lie saved above the arguments. */
  lemma SaveAndCall<S>(m: Sem<S>, c: Call, high: seq<nat>, low: seq<nat>, align: nat, stB: Mach<S>, stA: Mach<S>, e: Args<S>) returns (st2: Mach<S>, st3: Mach<S>)
    requires stB.rsp % 16 == 0 && ArgsLie(stB, stA, e, c.args, c.stackSize)
    ensures var n, size := RegCount(c.args), c.stackSize;
            var top := stB.rsp + size + align;
            && Run(m, SaveCode(high + low, n * 8 + size + align), stA) == Some(st2)
            && Run(m, PopArgs(n), st2) == Some(st2.(passed := e.vals, rsp := stB.rsp))
            && Run(m, [CallI(c.callee, Offsets(c.args), size)], st2.(passed := e.vals, rsp := stB.rsp)) == Some(st3)
            && st3.rsp == stB.rsp && st3.passed == [] && Saved(st3.stack, top, high + low, e.regs)
            && SameAbove(stB.stack, st3.stack, top + 8 * (|high| + |low|))
            && var a := m.call(c.callee, e.vals, e.onStack, e.s);
               st3.regs == Behind(e.regs, {}, a.clobbers) && st3.result == a.result && st3.s == a.s
  {
    hide Run, Step, Behind, Filter, RegCount, Offsets, SaveCode, PopArgs, ArgsLie, Saved, SameAbove, SlotsLie, SlotsOf;
    var top := stB.rsp + c.stackSize + align;
    st2 := SavePart(m, c, high + low, align, stB, stA, e);
    var stC := st2.(passed := e.vals, rsp := stB.rsp);
    st3 := CallStep(m, c, stC, e);
    SavedStays(st2.stack, st3.stack, stB.rsp + c.stackSize, top, high + low, e.regs);
    AboveLess(st2.stack, st3.stack, stB.rsp + c.stackSize, top + 8 * (|high| + |low|));
    AboveTrans(stB.stack, st2.stack, st3.stack, top + 8 * (|high| + |low|));
  }

  lemma AboveLess(f: int -> int, g: int -> int, at: int, higher: int)
    requires SameAbove(f, g, at) && at <= higher
    ensures SameAbove(f, g, higher)
  {
  }

  lemma SavePart<S>(m: Sem<S>, c: Call, list: seq<nat>, align: nat, stB: Mach<S>, stA: Mach<S>, e: Args<S>) returns (st2: Mach<S>)
    requires ArgsLie(stB, stA, e, c.args, c.stackSize)
    ensures var n, top := RegCount(c.args), stB.rsp + c.stackSize + align;
            && Run(m, SaveCode(list, n * 8 + c.stackSize + align), stA) == Some(st2)
            && Run(m, PopArgs(n), st2) == Some(st2.(passed := e.vals, rsp := stB.rsp))
            && Saved(st2.stack, top, list, e.regs) && SlotsLie(st2.stack, stB.rsp, e.onStack) && SlotsOf(e.onStack, Offsets(c.args))
            && st2.regs == e.regs && st2.s == e.s && SameAbove(stB.stack, st2.stack, top + 8 * |list|)
  {
    hide Run, RegCount, Offsets, SaveCode, PopArgs, ValsLie, SlotsLie, SlotsOf, SlotsFit, Saved;
    var n, size := RegCount(c.args), c.stackSize;
    var stack := SaveSim(m, list, n * 8 + size + align, stA);
    assert stA.rsp + (n * 8 + size + align) == stB.rsp + size + align;
    st2 := stA.(stack := stack);
    StillLie(stA.stack, stack, stA.rsp, stB.rsp, size, e.vals, e.onStack, Offsets(c.args), align, |list|);
    PopVals(m, e.vals, st2);
  }

  lemma CallStep<S>(m: Sem<S>, c: Call, st: Mach<S>, e: Args<S>) returns (st1: Mach<S>)
    requires st.rsp % 16 == 0 && st.passed == e.vals && st.regs == e.regs && st.s == e.s
    requires SlotsLie(st.stack, st.rsp, e.onStack) && SlotsOf(e.onStack, Offsets(c.args))
    ensures Run(m, [CallI(c.callee, Offsets(c.args), c.stackSize)], st) == Some(st1)
    ensures st1.rsp == st.rsp && st1.passed == [] && SameAbove(st.stack, st1.stack, st.rsp + c.stackSize)
    ensures var a := m.call(c.callee, e.vals, e.onStack, e.s);
            st1.regs == Behind(e.regs, {}, a.clobbers) && st1.result == a.result && st1.s == a.s
  {
    hide Run, Behind, Offsets, StackArgs;
    var call := CallI(c.callee, Offsets(c.args), c.stackSize);
    SlotsAre(st.stack, st.rsp, e.onStack, Offsets(c.args));
    RunOne(m, call, st);
    st1 := Step(m, call, st).value;
  }

  lemma PopVals<S>(m: Sem<S>, vals: seq<int>, st: Mach<S>)
    requires ValsLie(st.stack, st.rsp, vals) && st.passed == []
    ensures Run(m, PopArgs(|vals|), st) == Some(st.(passed := vals, rsp := st.rsp + 8 * |vals|))
  {
    PopArgsSim(m, vals, st);
    assert [] + vals == vals;
  }

  /** The saved registers lie above the arguments. */
  lemma StillLie(f: int -> int, g: int -> int, rsp: int, base: int, size: nat, vals: seq<int>, slots: map<nat, int>, offsets: seq<nat>, align: nat, saved: nat)
    requires rsp + 8 * |vals| == base && ValsLie(f, rsp, vals) && SlotsLie(f, base, slots)
    requires SlotsFit(slots, size)
    requires forall x | x < base + size + align || x >= base + size + align + 8 * saved :: g(x) == f(x)
    ensures ValsLie(g, rsp, vals) && SlotsLie(g, base, slots)
  {
    forall k | 0 <= k < |vals| ensures g(rsp + 8 * k) == vals[k] {
      assert f(rsp + 8 * k) == vals[k];
    }
  }

  lemma SlotsAre(f: int -> int, base: int, slots: map<nat, int>, offsets: seq<nat>)
    requires SlotsLie(f, base, slots) && SlotsOf(slots, offsets)
    ensures StackArgs(f, base, offsets) == slots
  {
  }

  lemma SavedStays(f: int -> int, g: int -> int, at: int, top: int, list: seq<nat>, regs: Regs)
    requires Saved(f, top, list, regs) && SameAbove(f, g, at) && top >= at
    ensures Saved(g, top, list, regs)
  {
    forall k | 0 <= k < |list| ensures g(top + 8 * k) == Value(Preg(list[k]), regs) {
      assert f(top + 8 * k) == Value(Preg(list[k]), regs);
    }
  }

  /** The live registers get their own values back. */
  lemma RestoreSim<S>(m: Sem<S>, high: seq<nat>, low: seq<nat>, living: set<nat>, from: Regs, clobbers: nat -> int, st: Mach<S>) returns (st1: Mach<S>)
    requires high == Filter(HIGH, living) && low == Filter(LOW, living)
    requires Saved(st.stack, st.rsp, high + low, from) && st.regs == Behind(from, {}, clobbers)
    ensures Run(m, Restore(high, low), st) == Some(st1)
    ensures st1 == st.(regs := Behind(from, living, clobbers), rsp := st.rsp + 8 * (|high| + |low|))
  {
    hide Run, Filter, LoadCode, PopCode, Add, Saved, Behind, Patched;
    FilterIs(HIGH, living);
    FilterIs(LOW, living);
    ListsInPregs(high, living, HIGH);
    ListsInPregs(low, living, LOW);
    SavedSplit(st.stack, st.rsp, high, low, from);
    LoadSim(m, high, 0, from, st);
    var st2 := st.(regs := Patched(st.regs, from, high));
    SubSim(m, 8 * |high|, st2);
    var st3 := st2.(rsp := st2.rsp + 8 * |high|);
    PopSim(m, low, from, st3);
    RunJoin(m, LoadCode(high, 0), Add(8 * |high|) + PopCode(low), st);
    RunJoin(m, Add(8 * |high|), PopCode(low), st2);
    st1 := st3.(regs := Patched(st3.regs, from, low), rsp := st3.rsp + 8 * |low|);
    PatchedIsBehind(from, living, clobbers, high, low);
  }

  lemma ListsInPregs(list: seq<nat>, living: set<nat>, order: seq<nat>)
    requires (order == HIGH || order == LOW) && forall r :: r in list <==> r in order && r in living
    ensures forall k | 0 <= k < |list| :: list[k] < PREGS
  {
    forall k | 0 <= k < |list| ensures list[k] < PREGS {
      assert list[k] in order;
    }
  }

  lemma SavedSplit(f: int -> int, at: int, high: seq<nat>, low: seq<nat>, regs: Regs)
    requires Saved(f, at, high + low, regs)
    ensures Saved(f, at, high, regs) && Saved(f, at + 8 * |high|, low, regs)
  {
    forall k | 0 <= k < |high| ensures f(at + 8 * k) == Value(Preg(high[k]), regs) {
      assert (high + low)[k] == high[k];
    }
    forall k | 0 <= k < |low| ensures f(at + 8 * |high| + 8 * k) == Value(Preg(low[k]), regs) {
      assert (high + low)[|high| + k] == low[k];
      assert at + 8 * |high| + 8 * k == at + 8 * (|high| + k);
    }
  }

  lemma PatchedIsBehind(from: Regs, living: set<nat>, clobbers: nat -> int, high: seq<nat>, low: seq<nat>)
    requires forall r :: r in high <==> r in HIGH && r in living
    requires forall r :: r in low <==> r in LOW && r in living
    ensures Patched(Patched(Behind(from, {}, clobbers), from, high), from, low) == Behind(from, living, clobbers)
  {
    var a, b := Patched(Patched(Behind(from, {}, clobbers), from, high), from, low), Behind(from, living, clobbers);
    forall k | 0 <= k < PREGS ensures a[k] == b[k] {}
    assert a == b;
  }

  lemma MovSim<S>(m: Sem<S>, dst: Option<nat>, st: Mach<S>, st1: Mach<S>)
    requires dst.Some? ==> dst.value < PREGS
    requires st1 == if dst.Some? then st.(regs := st.regs[dst.value := st.result]) else st
    ensures Run(m, if dst.Some? then [MovResult(dst.value)] else [], st) == Some(st1)
  {
    if dst.Some? {
      RunOne(m, MovResult(dst.value), st);
    }
  }
}
