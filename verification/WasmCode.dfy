/**
 The emitted WebAssembly: a flat stream in which `block`, `loop`, `if`, `else`
 and `end` are matched by nesting and branches name an enclosing construct by its
 depth. Instructions of expressions are opaque. A branch holds the depth meant
 and the bytes written for it, since not all of them are written as LEB128; only
 the bytes count when it runs.
 Sections 4.4.8 and 5.2.2 of the WebAssembly Core Specification give the meaning
 of control instructions and the LEB128 encoding.
 */
module WasmCode {
  import opened Options
  import opened Structured

  datatype Tok =
    | TBlock | TLoop | TIf(arity: nat) | TElse | TEnd
    | TBr(to: nat, imm: seq<nat>) | TBrIf(to: nat, imm: seq<nat>)
    | TEval(expr: nat) | TDrop(expr: nat) | TPeek(expr: nat)
    | TConst(value: int) | TEq | TCmp(kind: CmpKind) | TSetRet

  type Code = seq<Tok>

  // ----- Immediates -----

  /** `ADD_ULEB128`. */
  function Uleb128(n: nat): seq<nat> {
    if n < 128 then [n] else [n % 128 + 128] + Uleb128(n / 128)
  }

  /** What a decoder reads: bytes with bit 7 set, then one without. */
  function DecodeUleb128(bytes: seq<nat>): Option<nat> {
    if bytes == [] then None
    else if bytes[0] < 128 then (if |bytes| == 1 then Some(bytes[0]) else None)
    else
      match DecodeUleb128(bytes[1..])
      case None => None
      case Some(hi) => Some(bytes[0] % 128 + 128 * hi)
  }

  lemma {:induction false} UlebRoundTrip(n: nat)
    ensures DecodeUleb128(Uleb128(n)) == Some(n) && forall b | b in Uleb128(n) :: b < 256
  {
    if n >= 128 {
      UlebRoundTrip(n / 128);
      assert Uleb128(n)[1..] == Uleb128(n / 128);
      assert (n % 128 + 128) % 128 == n % 128;
    }
  }

  /** A depth written as one raw byte (`ADD_CODE(OP_BR, depth)`). */
  function RawByte(n: nat): seq<nat> {
    [n % 256]
  }

  /** The raw byte is a complete encoding of the depth exactly below 128. */
  lemma RawByteReads(n: nat)
    ensures DecodeUleb128(RawByte(n)) == Some(n) <==> n < 128
    ensures n >= 128 ==> DecodeUleb128(RawByte(n)) != Some(n)
    ensures |RawByte(n)| == 1 && RawByte(n)[0] < 256
  {
    if n >= 128 && n % 256 >= 128 {
      assert RawByte(n)[1..] == [];
    }
  }

  function Br(n: nat): Tok {
    TBr(n, Uleb128(n))
  }

  function BrIf(n: nat): Tok {
    TBrIf(n, Uleb128(n))
  }

  function ByteBr(n: nat): Tok {
    TBr(n, RawByte(n))
  }

  /** Every branch reads as it was meant. */
  predicate ReadsAsMeant(code: Code) {
    forall t | t in code && (t.TBr? || t.TBrIf?) :: DecodeUleb128(t.imm) == Some(t.to)
  }

  // ----- Execution -----

  /** An open construct: the operand stack below it, its results, and where a loop starts. */
  datatype Label = Label(height: nat, arity: nat, loop: Option<Code>)

  datatype Res<S> = Done(labels: seq<Label>, stack: seq<int>, s: S, fuel: nat) | Trap | OutOfFuel

  /**
   Passes over code to the `end` that closes the `n`-th enclosing construct,
   counted from 0, or with `elseToo` to an `else` of the innermost one. Returns
   whether it stopped at an `else`, and the code behind it.
   */
  function SkipTo(code: Code, n: nat, elseToo: bool): (r: (bool, Code))
    ensures |r.1| <= |code|
    decreases |code|
  {
    if code == [] then (false, [])
    else
      match code[0]
      case TBlock | TLoop | TIf(_) => SkipTo(code[1..], n + 1, elseToo)
      case TElse => if elseToo && n == 0 then (true, code[1..]) else SkipTo(code[1..], n, elseToo)
      case TEnd => if n == 0 then (false, code[1..]) else SkipTo(code[1..], n - 1, elseToo)
      case _ => SkipTo(code[1..], n, elseToo)
  }

  function Skip(code: Code, n: nat): (r: Code)
    ensures |r| <= |code|
  {
    SkipTo(code, n, false).1
  }

  function Bool(b: bool): int {
    if b then 1 else 0
  }

  /** A branch to depth `n`: out of a block or `if`, or back to the start of a loop at the price of one fuel. */
  function Branch<S>(m: Sem<S>, code: Code, labels: seq<Label>, n: nat, stack: seq<int>, s: S, fuel: nat): Res<S>
    decreases fuel, |code|, 1
  {
    if n >= |labels| || |stack| < labels[n].height || labels[n].arity != 0 then Trap
    else
      var stack' := stack[..labels[n].height];
      match labels[n].loop
      case None => Exec(m, Skip(code, n), labels[n + 1..], stack', s, fuel)
      case Some(start) => if fuel == 0 then OutOfFuel else Exec(m, start, labels[n..], stack', s, fuel - 1)
  }

  function Exec<S>(m: Sem<S>, code: Code, labels: seq<Label>, stack: seq<int>, s: S, fuel: nat): Res<S>
    decreases fuel, |code|, 0
  {
    if code == [] then Done(labels, stack, s, fuel)
    else
      var rest, top := code[1..], |stack| - 1;
      match code[0]
      case TBlock => Exec(m, rest, [Label(|stack|, 0, None)] + labels, stack, s, fuel)
      case TLoop => Exec(m, rest, [Label(|stack|, 0, Some(rest))] + labels, stack, s, fuel)
      case TIf(arity) =>
        if stack == [] then Trap
        else if stack[top] != 0 then Exec(m, rest, [Label(top, arity, None)] + labels, stack[..top], s, fuel)
        else
          var (hasElse, code') := SkipTo(rest, 0, true);
          if hasElse then Exec(m, code', [Label(top, arity, None)] + labels, stack[..top], s, fuel)
          else if arity == 0 then Exec(m, code', labels, stack[..top], s, fuel)
          else Trap
      case TElse =>
        if labels == [] || |stack| != labels[0].height + labels[0].arity then Trap
        else Exec(m, Skip(rest, 0), labels[1..], stack, s, fuel)
      case TEnd =>
        if labels == [] || |stack| != labels[0].height + labels[0].arity then Trap
        else Exec(m, rest, labels[1..], stack, s, fuel)
      case TBr(_, imm) =>
        (match DecodeUleb128(imm)
         case None => Trap
         case Some(n) => Branch(m, rest, labels, n, stack, s, fuel))
      case TBrIf(_, imm) =>
        if stack == [] then Trap
        else if stack[top] == 0 then Exec(m, rest, labels, stack[..top], s, fuel)
        else
          (match DecodeUleb128(imm)
           case None => Trap
           case Some(n) => Branch(m, rest, labels, n, stack[..top], s, fuel))
      case TEval(e) =>
        var (v, s1) := m.eval(e, s);
        Exec(m, rest, labels, stack + [v], s1, fuel)
      case TDrop(e) => Exec(m, rest, labels, stack, m.eval(e, s).1, fuel)
      case TPeek(e) => Exec(m, rest, labels, stack + [m.peek(e, s)], s, fuel)
      case TConst(v) => Exec(m, rest, labels, stack + [v], s, fuel)
      case TEq =>
        if |stack| < 2 then Trap
        else Exec(m, rest, labels, stack[..|stack| - 2] + [Bool(stack[|stack| - 2] == stack[top])], s, fuel)
      case TCmp(kind) =>
        if |stack| < 2 then Trap
        else Exec(m, rest, labels, stack[..|stack| - 2] + [Bool(Compare(kind, stack[|stack| - 2], stack[top]))], s, fuel)
      case TSetRet =>
        if stack == [] then Trap else Exec(m, rest, labels, stack[..top], m.ret(stack[top], s), fuel)
  }
}
