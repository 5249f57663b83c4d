/** Emission of call sequences, with `stackpos` counted in place. */
module CallEmitter {
  import opened Options
  import opened CallSequence

  lemma Assoc(z: Code, a: Code, b: Code)
    ensures (z + a) + b == z + (a + b)
  {
  }

  lemma NoCode(z: Code)
    ensures z + [] == z
  {
  }

  class Emitter {
    var code: Code
    var stackpos: int

    constructor ()
      ensures code == [] && stackpos == 8
    {
      code, stackpos := [], 8;
    }

    method Out(c: Code)
      modifies this`code
      ensures code == old(code) + c
    {
      code := code + c;
    }

    /** The loops over the caller-saved registers of a class: how many of them are live. */
    method CountLiving(order: seq<nat>, living: set<nat>) returns (n: nat)
      ensures n == |Filter(order, living)|
    {
      n := 0;
      for i := 0 to |order|
        invariant n + |Filter(order[i..], living)| == |Filter(order, living)|
      {
        assert order[i..][1..] == order[i + 1..];
        if order[i] in living {
          n := n + 1;
        }
      }
    }

    /** `IR_PRECALL`; returns `stack_aligned`. */
    method PreCall(living: set<nat>, stackSize: nat) returns (align: nat)
      requires stackpos >= 0
      modifies this
      ensures var saved := |Filter(HIGH, living)| + |Filter(LOW, living)|;
              && align == Alignment(old(stackpos), saved, stackSize)
              && code == old(code) + Sub(saved * 8 + align) && stackpos == old(stackpos) + saved * 8 + align
    {
      var low := CountLiving(LOW, living);
      var high := CountLiving(HIGH, living);
      var add := (low + high) * 8;
      align := (16 - (stackpos + add + stackSize)) % 16;
      add := add + align;
      if add > 0 {
        Out([SubRsp(add)]);
        stackpos := stackpos + add;
      } else {
        NoCode(code);
      }
    }

    /** `IR_ADDSP` with a negative value. */
    method Reserve(n: nat)
      modifies this
      ensures code == old(code) + Sub(n) && stackpos == old(stackpos) + n
    {
      if n > 0 {
        Out([SubRsp(n)]);
      } else {
        NoCode(code);
      }
      stackpos := stackpos + n;
    }

    /** `push_caller_save_regs` */
    method PushCallerSaveRegs(living: set<nat>, base: nat)
      modifies this`code
      ensures code == old(code) + SaveCode(Filter(HIGH, living) + Filter(LOW, living), base)
    {
      hide SaveCode, Filter;
      ghost var z := code;
      var next := SaveLiving(HIGH, living, base);
      ghost var a := SaveCode(Filter(HIGH, living), base);
      next := SaveLiving(LOW, living, next);
      SaveJoin(Filter(HIGH, living), Filter(LOW, living), base);
      Assoc(z, a, SaveCode(Filter(LOW, living), base + 8 * |Filter(HIGH, living)|));
    }

    method SaveLiving(order: seq<nat>, living: set<nat>, base: nat) returns (next: nat)
      modifies this`code
      ensures code == old(code) + SaveCode(Filter(order, living), base)
      ensures next == base + 8 * |Filter(order, living)|
    {
      next := base;
      for i := 0 to |order|
        invariant next + 8 * |Filter(order[i..], living)| == base + 8 * |Filter(order, living)|
        invariant code + SaveCode(Filter(order[i..], living), next) == old(code) + SaveCode(Filter(order, living), base)
      {
        assert order[i..][1..] == order[i + 1..];
        if order[i] in living {
          ghost var more := Filter(order[i + 1..], living);
          assert Filter(order[i..], living) == [order[i]] + more && ([order[i]] + more)[1..] == more;
          Assoc(code, [SaveReg(next, order[i])], SaveCode(more, next + 8));
          Out([SaveReg(next, order[i])]);
          next := next + 8;
        } else {
          assert Filter(order[i..], living) == Filter(order[i + 1..], living);
        }
      }
      NoCode(code);
    }

    /** `pop_caller_save_regs` */
    method PopCallerSaveRegs(living: set<nat>)
      modifies this
      ensures code == old(code) + Restore(Filter(HIGH, living), Filter(LOW, living))
      ensures stackpos == old(stackpos) - 8 * (|Filter(HIGH, living)| + |Filter(LOW, living)|)
    {
      hide LoadCode, PopCode, Filter;
      ghost var z, high, low := code, Filter(HIGH, living), Filter(LOW, living);
      var count := LoadLiving(HIGH, living);
      ghost var z1 := code;
      if count > 0 {
        Out([AddRsp(8 * count)]);
        stackpos := stackpos - 8 * count;
      } else {
        NoCode(code);
      }
      PopLiving(LOW, living);
      Assoc(z1, Add(8 * count), PopCode(low));
      Assoc(z, LoadCode(high, 0), Add(8 * count) + PopCode(low));
    }

    method LoadLiving(order: seq<nat>, living: set<nat>) returns (count: nat)
      modifies this`code
      ensures code == old(code) + LoadCode(Filter(order, living), 0) && count == |Filter(order, living)|
    {
      count := 0;
      for i := 0 to |order|
        invariant count + |Filter(order[i..], living)| == |Filter(order, living)|
        invariant code + LoadCode(Filter(order[i..], living), 8 * count) == old(code) + LoadCode(Filter(order, living), 0)
      {
        assert order[i..][1..] == order[i + 1..];
        if order[i] in living {
          ghost var more := Filter(order[i + 1..], living);
          assert Filter(order[i..], living) == [order[i]] + more && ([order[i]] + more)[1..] == more;
          Assoc(code, [LoadReg(8 * count, order[i])], LoadCode(more, 8 * count + 8));
          Out([LoadReg(8 * count, order[i])]);
          count := count + 1;
        } else {
          assert Filter(order[i..], living) == Filter(order[i + 1..], living);
        }
      }
      NoCode(code);
    }

    method PopLiving(order: seq<nat>, living: set<nat>)
      modifies this
      ensures code == old(code) + PopCode(Filter(order, living)) && stackpos == old(stackpos) - 8 * |Filter(order, living)|
    {
      for i := 0 to |order|
        invariant stackpos - 8 * |Filter(order[i..], living)| == old(stackpos) - 8 * |Filter(order, living)|
        invariant code + PopCode(Filter(order[i..], living)) == old(code) + PopCode(Filter(order, living))
      {
        assert order[i..][1..] == order[i + 1..];
        if order[i] in living {
          ghost var more := Filter(order[i + 1..], living);
          assert Filter(order[i..], living) == [order[i]] + more && ([order[i]] + more)[1..] == more;
          Assoc(code, [PopReg(order[i])], PopCode(more));
          Out([PopReg(order[i])]);
          stackpos := stackpos - 8;
        } else {
          assert Filter(order[i..], living) == Filter(order[i + 1..], living);
        }
      }
      NoCode(code);
    }

    /** `IR_CALL` */
    method CallOut(c: Call, align: nat)
      modifies this
      ensures code == old(code) + CallTail(c, Filter(HIGH, c.living), Filter(LOW, c.living), align)
      ensures stackpos == old(stackpos) - 8 * RegCount(c.args) - align - c.stackSize - 8 * (|Filter(HIGH, c.living)| + |Filter(LOW, c.living)|)
    {
      hide SaveCode, PopArgs, Restore, Filter, Offsets;
      ghost var z, high, low := code, Filter(HIGH, c.living), Filter(LOW, c.living);
      var n := RegCount(c.args);
      PushCallerSaveRegs(c.living, n * 8 + c.stackSize + align);
      PopRegArgs(n);
      Out([CallI(c.callee, Offsets(c.args), c.stackSize)]);
      if align + c.stackSize != 0 {
        Out([AddRsp(align + c.stackSize)]);
        stackpos := stackpos - (align + c.stackSize);
      } else {
        NoCode(code);
      }
      PopCallerSaveRegs(c.living);
      if c.dst.Some? {
        Out([MovResult(c.dst.value)]);
      } else {
        NoCode(code);
      }
      TailIs(z, SaveCode(high + low, n * 8 + c.stackSize + align), PopArgs(n), [CallI(c.callee, Offsets(c.args), c.stackSize)],
             Add(align + c.stackSize), Restore(high, low), if c.dst.Some? then [MovResult(c.dst.value)] else []);
    }

    method PopRegArgs(n: nat)
      modifies this
      ensures code == old(code) + PopArgs(n) && stackpos == old(stackpos) - 8 * n
    {
      for i := 0 to n
        invariant stackpos == old(stackpos) - 8 * i && code + PopArgs(n - i) == old(code) + PopArgs(n)
      {
        Assoc(code, [PopArg], PopArgs(n - i - 1));
        Out([PopArg]);
        stackpos := stackpos - 8;
      }
      NoCode(code);
    }

    /** A call with everything nested in it: `stackpos` comes back. */
    method EmitCallSequence(c: Call)
      requires stackpos >= 0
      modifies this
      ensures code == old(code) + EmitCall(c, old(stackpos)) && stackpos == old(stackpos)
      decreases c, 1
    {
      hide EmitArgs, CallTail, Filter, Sub, Alignment;
      ghost var z, sp := code, stackpos;
      var align := PreCall(c.living, c.stackSize);
      Reserve(c.stackSize);
      ghost var sp1 := stackpos;
      EmitArgSequence(c.args);
      CallOut(c, align);
      ghost var saved := |Filter(HIGH, c.living)| + |Filter(LOW, c.living)|;
      ghost var tail := CallTail(c, Filter(HIGH, c.living), Filter(LOW, c.living), align);
      HeadIs(z, Sub(saved * 8 + align), Sub(c.stackSize), EmitArgs(c.args, sp1), tail);
    }

    method EmitArgSequence(args: seq<Arg>)
      requires stackpos >= 0
      modifies this
      ensures code == old(code) + EmitArgs(args, old(stackpos)) && stackpos == old(stackpos) + 8 * RegCount(args)
      decreases args, 0
    {
      hide EmitItems;
      if |args| > 0 {
        ghost var z, sp := code, stackpos;
        EmitArgSequence(args[1..]);
        ghost var z1 := code;
        EmitItemSequence(args[0].code);
        var last := if args[0].place.InReg? then Push(args[0].value) else StoreSp(args[0].place.offset + 8 * RegCount(args[1..]), args[0].value);
        Out([last]);
        if args[0].place.InReg? {
          stackpos := stackpos + 8;
        }
        ghost var items := EmitItems(args[0].code, sp + 8 * RegCount(args[1..]));
        Assoc(z1, items, [last]);
        Assoc(z, EmitArgs(args[1..], sp), items + [last]);
      } else {
        NoCode(code);
      }
    }

    method EmitItemSequence(items: seq<Item>)
      requires stackpos >= 0
      modifies this
      ensures code == old(code) + EmitItems(items, old(stackpos)) && stackpos == old(stackpos)
      decreases items, 0
    {
      hide EmitItem;
      if |items| > 0 {
        ghost var z := code;
        EmitOne(items[0]);
        EmitItemSequence(items[1..]);
        Assoc(z, EmitItem(items[0], stackpos), EmitItems(items[1..], stackpos));
      } else {
        NoCode(code);
      }
    }

    method EmitOne(item: Item)
      requires stackpos >= 0
      modifies this
      ensures code == old(code) + EmitItem(item, old(stackpos)) && stackpos == old(stackpos)
      decreases item, 2
    {
      match item
      case Eval(e) => Out([EvalI(e)]);
      case Nested(c) => EmitCallSequence(c);
    }
  }

  lemma {:induction false} SaveJoin(a: seq<nat>, b: seq<nat>, base: nat)
    ensures SaveCode(a + b, base) == SaveCode(a, base) + SaveCode(b, base + 8 * |a|)
    decreases a
  {
    if a == [] {
      assert a + b == b;
    } else {
      assert (a + b)[0] == a[0] && (a + b)[1..] == a[1..] + b;
      SaveJoin(a[1..], b, base + 8);
    }
  }

  lemma TailIs(z: Code, a: Code, b: Code, c: Code, d: Code, e: Code, f: Code)
    ensures (((((z + a) + b) + c) + d) + e) + f == z + (a + (b + (c + (d + (e + f)))))
  {
    Assoc((((z + a) + b) + c) + d, e, f);
    Assoc(((z + a) + b) + c, d, e + f);
    Assoc((z + a) + b, c, d + (e + f));
    Assoc(z + a, b, c + (d + (e + f)));
    Assoc(z, a, b + (c + (d + (e + f))));
  }

  lemma HeadIs(z: Code, a: Code, b: Code, c: Code, d: Code)
    ensures (((z + a) + b) + c) + d == z + (a + (b + (c + d)))
  {
    Assoc((z + a) + b, c, d);
    Assoc(z + a, b, c + d);
    Assoc(z, a, b + (c + d));
  }
}
