/**
 Calls, with calls nested in their arguments: room for caller-saved registers,
 arguments evaluated from the last to the first, registers saved right before the
 call and restored behind it, and `stackpos` kept as the code is emitted.
 Argument evaluation and the callee are abstract; a word is an `int` and takes 8 bytes.
 */
module CallSequence {
  import opened Options
  import opened Ir
  import Machine

  // Bits of a live mask: 0 to 5 are the general registers, 6 to 11 the others.
  const PREGS: nat := 12

  // Caller-saved registers in the order they are saved: XMM registers downwards, then R11 and R10.
  const HIGH: seq<nat> := [11, 10, 9, 8, 7, 6]
  const LOW: seq<nat> := [2, 1]

  // ----- Calls as trees -----

  datatype Operand = Const(value: int) | Preg(reg: nat)

  /** Where an argument goes: an argument register, or `offset` from the start of the stack arguments. */
  datatype Place = InReg | OnStack(offset: nat)

  datatype Item = Eval(expr: nat) | Nested(call: Call)

  datatype Arg = Arg(code: seq<Item>, value: Operand, place: Place)

  datatype Call = Call(callee: nat, args: seq<Arg>, stackSize: nat, living: set<nat>, dst: Option<nat>)

  // ----- What they mean -----

  type Regs = r: seq<int> | |r| == PREGS witness [0, 0, 0, 0, 0, 0, 0, 0, 0, 0, 0, 0]

  /** The answer of a callee: its result, the new state, and what it leaves in registers and below the stack pointer. */
  datatype Answer<S> = Answer(result: int, s: S, clobbers: nat -> int, below: int -> int)

  /** `call` gets the register arguments in order and the stack arguments by offset. */
  datatype Sem<!S> = Sem(eval: (nat, Regs, S) -> (Regs, S), call: (nat, seq<int>, map<nat, int>, S) -> Answer<S>)

  predicate WellFormed(c: Call) {
    && c.stackSize % 8 == 0
    && (forall i, j | 0 <= i < j < |c.args| && c.args[i].place.OnStack? && c.args[j].place.OnStack? ::
          c.args[i].place.offset != c.args[j].place.offset)
    && (forall a | a in c.args :: WellFormedArg(a, c.stackSize))
    && (c.dst.Some? ==> c.dst.value < PREGS)
  }

  predicate WellFormedArg(a: Arg, stackSize: nat) {
    && (a.place.OnStack? ==> a.place.offset % 8 == 0 && a.place.offset + 8 <= stackSize)
    && (a.value.Preg? ==> a.value.reg < PREGS)
    && (forall it | it in a.code :: it.Nested? ==> WellFormed(it.call))
  }

  /** A call with another one in an argument, two arguments on the stack and one in a register. */
  lemma NestedIsWellFormed(f: nat, e: nat, living: set<nat>)
    ensures var inner := Call(f, [Arg([Eval(e)], Preg(0), InReg)], 0, living, Some(1));
            WellFormed(inner)
            && WellFormed(Call(f, [Arg([Eval(e), Nested(inner)], Preg(1), OnStack(8)), Arg([], Const(7), OnStack(0)), Arg([], Preg(11), InReg)], 16, living, Some(0)))
  {
  }

  function Value(op: Operand, regs: Regs): int {
    match op
    case Const(v) => v
    case Preg(r) => if r < PREGS then regs[r] else 0
  }

  /** Whether a register keeps its value over a call with this mask. */
  predicate Keeps(r: nat, living: set<nat>) {
    if r < PHYSICAL_REG_MAX then Machine.Survives(false, r, living) else Machine.Survives(true, r - PHYSICAL_REG_MAX, living)
  }

  /** The registers behind a call: those kept as they were, of the others what the callee left. */
  function Behind(regs: Regs, living: set<nat>, clobbers: nat -> int): (r: Regs)
    ensures forall k | 0 <= k < PREGS :: r[k] == if Keeps(k, living) then regs[k] else clobbers(k)
  {
    seq(PREGS, k requires 0 <= k < PREGS => if Keeps(k, living) then regs[k] else clobbers(k))
  }

  datatype Args<S> = Args(vals: seq<int>, onStack: map<nat, int>, regs: Regs, s: S)

  function EvalItems<S>(m: Sem<S>, items: seq<Item>, regs: Regs, s: S): (Regs, S)
    decreases items, 0
  {
    if items == [] then (regs, s)
    else
      var (r1, s1) := EvalItem(m, items[0], regs, s);
      EvalItems(m, items[1..], r1, s1)
  }

  function EvalItem<S>(m: Sem<S>, item: Item, regs: Regs, s: S): (Regs, S)
    decreases item, 2
  {
    match item
    case Eval(e) => m.eval(e, regs, s)
    case Nested(c) => EvalCall(m, c, regs, s)
  }

  /** Arguments are evaluated from the last to the first. */
  function EvalArgs<S>(m: Sem<S>, args: seq<Arg>, regs: Regs, s: S): Args<S>
    decreases args, 0
  {
    if args == [] then Args([], map[], regs, s)
    else
      var rest := EvalArgs(m, args[1..], regs, s);
      var (r1, s1) := EvalItems(m, args[0].code, rest.regs, rest.s);
      var v := Value(args[0].value, r1);
      match args[0].place
      case InReg => Args([v] + rest.vals, rest.onStack, r1, s1)
      case OnStack(offset) => Args(rest.vals, rest.onStack[offset := v], r1, s1)
  }

  function EvalCall<S>(m: Sem<S>, c: Call, regs: Regs, s: S): (Regs, S)
    decreases c, 1
  {
    var e := EvalArgs(m, c.args, regs, s);
    var a := m.call(c.callee, e.vals, e.onStack, e.s);
    var r := Behind(e.regs, c.living, a.clobbers);
    (if c.dst.Some? && c.dst.value < PREGS then r[c.dst.value := a.result] else r, a.s)
  }

  // ----- The code -----

  datatype Instr =
    | SubRsp(n: nat) | AddRsp(n: nat)
    | Push(value: Operand) | StoreSp(offset: nat, value: Operand)
    | SaveReg(offset: nat, reg: nat) | LoadReg(offset: nat, reg: nat) | PopReg(reg: nat)
    | PopArg
    | CallI(callee: nat, offsets: seq<nat>, stackSize: nat)
    | MovResult(reg: nat)
    | EvalI(expr: nat)

  type Code = seq<Instr>

  function Filter(order: seq<nat>, living: set<nat>): seq<nat> {
    if order == [] then [] else (if order[0] in living then [order[0]] else []) + Filter(order[1..], living)
  }

  function RegCount(args: seq<Arg>): nat {
    if args == [] then 0 else (if args[0].place.InReg? then 1 else 0) + RegCount(args[1..])
  }

  function Offsets(args: seq<Arg>): seq<nat> {
    if args == [] then [] else (if args[0].place.InReg? then [] else [args[0].place.offset]) + Offsets(args[1..])
  }

  function Sub(n: nat): Code {
    if n > 0 then [SubRsp(n)] else []
  }

  function Add(n: nat): Code {
    if n > 0 then [AddRsp(n)] else []
  }

  function SaveCode(list: seq<nat>, offset: nat): Code {
    if list == [] then [] else [SaveReg(offset, list[0])] + SaveCode(list[1..], offset + 8)
  }

  function LoadCode(list: seq<nat>, offset: nat): Code {
    if list == [] then [] else [LoadReg(offset, list[0])] + LoadCode(list[1..], offset + 8)
  }

  function PopCode(list: seq<nat>): Code {
    if list == [] then [] else [PopReg(list[0])] + PopCode(list[1..])
  }

  function PopArgs(n: nat): Code {
    if n == 0 then [] else [PopArg] + PopArgs(n - 1)
  }

  /** `stack_aligned`: what is missing to a multiple of 16 at the call. */
  function Alignment(stackpos: nat, saved: nat, stackSize: nat): nat {
    (16 - (stackpos + saved * 8 + stackSize)) % 16
  }

  function EmitItems(items: seq<Item>, stackpos: nat): Code
    decreases items, 0
  {
    if items == [] then []
    else EmitItem(items[0], stackpos) + EmitItems(items[1..], stackpos)
  }

  function EmitItem(item: Item, stackpos: nat): Code
    decreases item, 2
  {
    match item
    case Eval(e) => [EvalI(e)]
    case Nested(c) => EmitCall(c, stackpos)
  }

  function EmitArgs(args: seq<Arg>, stackpos: nat): Code
    decreases args, 0
  {
    if args == [] then []
    else
      var pushed := 8 * RegCount(args[1..]);
      EmitArgs(args[1..], stackpos)
      + (EmitItems(args[0].code, stackpos + pushed)
         + (match args[0].place
            case InReg => [Push(args[0].value)]
            case OnStack(offset) => [StoreSp(offset + pushed, args[0].value)]))
  }

  function Restore(high: seq<nat>, low: seq<nat>): Code {
    LoadCode(high, 0) + (Add(8 * |high|) + PopCode(low))
  }

  /** `IR_PRECALL` to `IR_CALL`. */
  function EmitCall(c: Call, stackpos: nat): Code
    decreases c, 1
  {
    var high, low := Filter(HIGH, c.living), Filter(LOW, c.living);
    var saved := |high| + |low|;
    var align := Alignment(stackpos, saved, c.stackSize);
    var add := saved * 8 + align;
    Sub(add) + (Sub(c.stackSize) + (EmitArgs(c.args, stackpos + add + c.stackSize)
    + CallTail(c, high, low, align)))
  }

  function CallTail(c: Call, high: seq<nat>, low: seq<nat>, align: nat): Code {
    var n := RegCount(c.args);
    SaveCode(high + low, n * 8 + c.stackSize + align) + (PopArgs(n)
    + ([CallI(c.callee, Offsets(c.args), c.stackSize)] + (Add(align + c.stackSize) + (Restore(high, low)
    + (if c.dst.Some? then [MovResult(c.dst.value)] else [])))))
  }

  // ----- The machine -----

  datatype Mach<S> = Mach(regs: Regs, rsp: int, stack: int -> int, passed: seq<int>, result: int, s: S)

  function Write(stack: int -> int, at: int, v: int): int -> int {
    (a: int) => if a == at then v else stack(a)
  }

  /** What a callee finds at the given offsets from the stack pointer. */
  function StackArgs(stack: int -> int, rsp: int, offsets: seq<nat>): map<nat, int> {
    map o | o in offsets :: stack(rsp + o)
  }

  /** One instruction; `None` when a call finds the stack misaligned. */
  function Step<S>(m: Sem<S>, i: Instr, st: Mach<S>): Option<Mach<S>> {
    match i
    case SubRsp(n) => Some(st.(rsp := st.rsp - n))
    case AddRsp(n) => Some(st.(rsp := st.rsp + n))
    case Push(v) => Some(st.(rsp := st.rsp - 8, stack := Write(st.stack, st.rsp - 8, Value(v, st.regs))))
    case StoreSp(offset, v) => Some(st.(stack := Write(st.stack, st.rsp + offset, Value(v, st.regs))))
    case SaveReg(offset, r) => Some(st.(stack := Write(st.stack, st.rsp + offset, Value(Preg(r), st.regs))))
    case LoadReg(offset, r) => if r < PREGS then Some(st.(regs := st.regs[r := st.stack(st.rsp + offset)])) else None
    case PopReg(r) => if r < PREGS then Some(st.(regs := st.regs[r := st.stack(st.rsp)], rsp := st.rsp + 8)) else None
    case PopArg => Some(st.(passed := st.passed + [st.stack(st.rsp)], rsp := st.rsp + 8))
    case CallI(f, offsets, size) =>
      if st.rsp % 16 != 0 then None
      else
        var a := m.call(f, st.passed, StackArgs(st.stack, st.rsp, offsets), st.s);
        Some(Mach(Behind(st.regs, {}, a.clobbers), st.rsp, (x: int) => if x >= st.rsp + size then st.stack(x) else a.below(x), [], a.result, a.s))
    case MovResult(r) => if r < PREGS then Some(st.(regs := st.regs[r := st.result])) else None
    case EvalI(e) =>
      var (regs, s) := m.eval(e, st.regs, st.s);
      Some(st.(regs := regs, s := s))
  }

  function Run<S>(m: Sem<S>, code: Code, st: Mach<S>): Option<Mach<S>> {
    if code == [] then Some(st)
    else
      match Step(m, code[0], st)
      case None => None
      case Some(st1) => Run(m, code[1..], st1)
  }

  lemma {:induction false} RunJoin<S>(m: Sem<S>, a: Code, b: Code, st: Mach<S>)
    ensures Run(m, a + b, st) == match Run(m, a, st) case None => None case Some(st1) => Run(m, b, st1)
    decreases |a|
  {
    if a == [] {
      assert a + b == b;
    } else {
      assert (a + b)[0] == a[0] && (a + b)[1..] == a[1..] + b;
      var r := Step(m, a[0], st);
      if r.Some? {
        RunJoin(m, a[1..], b, r.value);
      }
    }
  }

  lemma RunOne<S>(m: Sem<S>, i: Instr, st: Mach<S>)
    ensures Run(m, [i], st) == Step(m, i, st)
  {
    assert [i][1..] == [];
  }

  /** Nothing at or above `at` differs. */
  ghost predicate SameAbove(a: int -> int, b: int -> int, at: int) {
    forall x | x >= at :: b(x) == a(x)
  }

  // ----- Saving and restoring -----

  lemma SubSim<S>(m: Sem<S>, n: nat, st: Mach<S>)
    ensures Run(m, Sub(n), st) == Some(st.(rsp := st.rsp - n))
    ensures Run(m, Add(n), st) == Some(st.(rsp := st.rsp + n))
  {
    if n > 0 {
      RunOne(m, SubRsp(n), st);
      RunOne(m, AddRsp(n), st);
    }
  }

  /** The registers of a list lie in the stack from `at` on. */
  ghost predicate Saved(stack: int -> int, at: int, list: seq<nat>, regs: Regs) {
    forall k | 0 <= k < |list| :: stack(at + 8 * k) == Value(Preg(list[k]), regs)
  }

  lemma {:induction false} SaveSim<S>(m: Sem<S>, list: seq<nat>, offset: nat, st: Mach<S>) returns (stack: int -> int)
    ensures Run(m, SaveCode(list, offset), st) == Some(st.(stack := stack))
    ensures Saved(stack, st.rsp + offset, list, st.regs)
    ensures forall x | x < st.rsp + offset || x >= st.rsp + offset + 8 * |list| :: stack(x) == st.stack(x)
    decreases list
  {
    if list == [] {
      stack := st.stack;
    } else {
      hide Run;
      var i := SaveReg(offset, list[0]);
      var st1 := Step(m, i, st).value;
      RunOne(m, i, st);
      RunJoin(m, [i], SaveCode(list[1..], offset + 8), st);
      stack := SaveSim(m, list[1..], offset + 8, st1);
      SavedHead(stack, st.rsp + offset, list, st.regs);
    }
  }

  lemma SavedHead(stack: int -> int, at: int, list: seq<nat>, regs: Regs)
    requires list != [] && stack(at) == Value(Preg(list[0]), regs) && Saved(stack, at + 8, list[1..], regs)
    ensures Saved(stack, at, list, regs)
  {
    forall k | 0 <= k < |list| ensures stack(at + 8 * k) == Value(Preg(list[k]), regs) {
      if k > 0 {
        assert list[1..][k - 1] == list[k];
        assert at + 8 * k == at + 8 + 8 * (k - 1);
      }
    }
  }

  /** Some registers as they were in `from`. */
  function Patched(regs: Regs, from: Regs, list: seq<nat>): (r: Regs)
    ensures forall k | 0 <= k < PREGS :: r[k] == if k in list then from[k] else regs[k]
  {
    seq(PREGS, k requires 0 <= k < PREGS => if k in list then from[k] else regs[k])
  }

  lemma PatchStep(regs: Regs, from: Regs, list: seq<nat>)
    requires list != [] && list[0] < PREGS
    ensures Patched(regs[list[0] := from[list[0]]], from, list[1..]) == Patched(regs, from, list)
  {
    forall k: nat ensures k in list <==> k == list[0] || k in list[1..] {
      assert list == [list[0]] + list[1..];
    }
  }

  lemma SavedTail(stack: int -> int, at: int, list: seq<nat>, regs: Regs)
    requires Saved(stack, at, list, regs) && list != []
    ensures stack(at) == Value(Preg(list[0]), regs) && Saved(stack, at + 8, list[1..], regs)
  {
    assert stack(at + 8 * 0) == Value(Preg(list[0]), regs);
    forall k | 0 <= k < |list| - 1 ensures stack(at + 8 + 8 * k) == Value(Preg(list[1..][k]), regs) {
      assert at + 8 + 8 * k == at + 8 * (k + 1);
    }
  }

  lemma {:induction false} LoadSim<S>(m: Sem<S>, list: seq<nat>, offset: nat, from: Regs, st: Mach<S>)
    requires Saved(st.stack, st.rsp + offset, list, from) && forall k | 0 <= k < |list| :: list[k] < PREGS
    ensures Run(m, LoadCode(list, offset), st) == Some(st.(regs := Patched(st.regs, from, list)))
    decreases list
  {
    if list == [] {
      assert Patched(st.regs, from, list) == st.regs;
    } else {
      hide Run;
      var i := LoadReg(offset, list[0]);
      SavedTail(st.stack, st.rsp + offset, list, from);
      var st1 := st.(regs := st.regs[list[0] := from[list[0]]]);
      assert Step(m, i, st) == Some(st1);
      hide Step, Value, Saved;
      RunOne(m, i, st);
      RunJoin(m, [i], LoadCode(list[1..], offset + 8), st);
      LoadSim(m, list[1..], offset + 8, from, st1);
      PatchStep(st.regs, from, list);
    }
  }

  lemma {:induction false} PopSim<S>(m: Sem<S>, list: seq<nat>, from: Regs, st: Mach<S>)
    requires Saved(st.stack, st.rsp, list, from) && forall k | 0 <= k < |list| :: list[k] < PREGS
    ensures Run(m, PopCode(list), st) == Some(st.(regs := Patched(st.regs, from, list), rsp := st.rsp + 8 * |list|))
    decreases list
  {
    if list == [] {
      assert Patched(st.regs, from, list) == st.regs;
    } else {
      hide Run;
      var i := PopReg(list[0]);
      SavedTail(st.stack, st.rsp, list, from);
      RunOne(m, i, st);
      RunJoin(m, [i], PopCode(list[1..]), st);
      PopSim(m, list[1..], from, Step(m, i, st).value);
      PatchStep(st.regs, from, list);
    }
  }

  lemma {:induction false} PopArgsSim<S>(m: Sem<S>, vals: seq<int>, st: Mach<S>)
    requires forall k | 0 <= k < |vals| :: st.stack(st.rsp + 8 * k) == vals[k]
    ensures Run(m, PopArgs(|vals|), st) == Some(st.(passed := st.passed + vals, rsp := st.rsp + 8 * |vals|))
    decreases |vals|
  {
    if vals != [] {
      assert st.stack(st.rsp + 8 * 0) == vals[0];
      RunOne(m, PopArg, st);
      RunJoin(m, [PopArg], PopArgs(|vals| - 1), st);
      var st1 := Step(m, PopArg, st).value;
      forall k | 0 <= k < |vals| - 1 ensures st1.stack(st1.rsp + 8 * k) == vals[1..][k] {
        assert st1.rsp + 8 * k == st.rsp + 8 * (k + 1);
      }
      PopArgsSim(m, vals[1..], st1);
      assert st.passed + vals == (st.passed + [vals[0]]) + vals[1..];
    } else {
      assert st.passed + vals == st.passed;
    }
  }
}
