/**
 The assembler's intermediate representation, the bytes `put_value` writes, and
 the address of every item in a layout.
 */
module AsmItems {
  import opened Options
  import opened Util

  type Byte = x: nat | x < 256

  datatype Expr =
    | ELabel(name: nat)
    | Fixnum(value: int)
    | Add(lhs: Expr, rhs: Expr) | Sub(lhs: Expr, rhs: Expr) | Mul(lhs: Expr, rhs: Expr) | Div(lhs: Expr, rhs: Expr)
    | Pos(sub: Expr) | Neg(sub: Expr)

  /**
   `op` 0 is `jmp`; 1 to 16 are the conditional jumps from `jo` on. A value has
   one, two, four or eight bytes.
   */
  datatype Item =
    | Label(name: nat)
    | Jump(op: nat, target: Expr, long: bool, buf: seq<Byte>)
    | Call(target: Expr, buf: seq<Byte>)
    | Lea(offset: Expr, buf: seq<Byte>)
    | Code(buf: seq<Byte>)
    | Data(bytes: seq<Byte>)
    | Bss(bss: nat)
    | Align(align: nat)
    | Value(size: nat, expr: Expr)

  datatype LabelInfo = LabelInfo(defined: bool, address: int)

  type Labels = map<nat, LabelInfo>

  // ----- Bytes -----

  /** The low `size` bytes of a value, lowest first. */
  function PutValue(value: int, size: nat): (b: seq<Byte>)
    ensures |b| == size
    decreases size
  {
    if size == 0 then [] else [value % 256] + PutValue(value / 256, size - 1)
  }

  function Pow256(n: nat): (p: nat)
    ensures p > 0
  {
    if n == 0 then 1 else 256 * Pow256(n - 1)
  }

  /** Two's complement, lowest byte first, as the processor reads it. */
  function ReadSigned(b: seq<Byte>): int {
    if b == [] then 0
    else if |b| == 1 then (if b[0] < 128 then b[0] else b[0] - 256)
    else b[0] + 256 * ReadSigned(b[1..])
  }

  /** What is written reads back exactly when it fits. */
  lemma {:induction false} PutThenRead(value: int, size: nat)
    requires size > 0
    ensures ReadSigned(PutValue(value, size)) == value <==> -(Pow256(size - 1) * 128) <= value < Pow256(size - 1) * 128
    decreases size
  {
    var b := PutValue(value, size);
    if size == 1 {
      assert PutValue(value / 256, 0) == [];
      assert Pow256(0) == 1;
      assert b == [value % 256];
    } else {
      assert b[1..] == PutValue(value / 256, size - 1);
      PutThenRead(value / 256, size - 1);
      var p := Pow256(size - 2);
      assert Pow256(size - 1) == 256 * p;
      assert value == 256 * (value / 256) + value % 256;
    }
  }

  lemma Im8Reads(x: int)
    ensures ReadSigned(PutValue(x, 1)) == x <==> IsIm8(x)
  {
    PutThenRead(x, 1);
    assert Pow256(0) == 1;
  }

  lemma Im32Reads(x: int)
    ensures ReadSigned(PutValue(x, 4)) == x <==> IsIm32(x)
  {
    PutThenRead(x, 4);
    assert Pow256(0) == 1 && Pow256(1) == 256 && Pow256(2) == 0x1_0000 && Pow256(3) == 0x100_0000;
  }

  // ----- Expressions -----

  /** C's division. */
  function Quot(a: int, b: int): int
    requires b != 0
  {
    if a >= 0 then a / b else -(-a / b)
  }

  /** `calc_expr`; `None` when a label is undefined, or a divisor zero. */
  function CalcExpr(labels: Labels, e: Expr): Option<int> {
    match e
    case ELabel(name) => if name in labels && labels[name].defined then Some(labels[name].address) else None
    case Fixnum(v) => Some(v)
    case Add(l, r) =>
      var (x, y) := (CalcExpr(labels, l), CalcExpr(labels, r));
      if x.Some? && y.Some? then Some(x.value + y.value) else None
    case Sub(l, r) =>
      var (x, y) := (CalcExpr(labels, l), CalcExpr(labels, r));
      if x.Some? && y.Some? then Some(x.value - y.value) else None
    case Mul(l, r) =>
      var (x, y) := (CalcExpr(labels, l), CalcExpr(labels, r));
      if x.Some? && y.Some? then Some(x.value * y.value) else None
    case Div(l, r) =>
      var (x, y) := (CalcExpr(labels, l), CalcExpr(labels, r));
      if x.Some? && y.Some? && y.value != 0 then Some(Quot(x.value, y.value)) else None
    case Pos(x) => CalcExpr(labels, x)
    case Neg(x) =>
      var v := CalcExpr(labels, x);
      if v.Some? then Some(-v.value) else None
  }

  // ----- Layout -----

  function JumpLen(op: nat, long: bool): nat {
    if !long then 2 else if op == 0 then 5 else 6
  }

  /** Where a jump keeps its displacement. */
  function JumpField(op: nat, long: bool): nat {
    if !long || op == 0 then 1 else 2
  }

  /** The bytes of a jump ahead of its displacement. */
  function JumpOpcode(op: nat, long: bool): (b: seq<Byte>)
    requires op <= 16
    ensures |b| == JumpField(op, long)
  {
    if op == 0 then [if long then 0xe9 else 0xeb]
    else if long then [0x0f, 0x80 + (op - 1)] else [0x70 + (op - 1)]
  }

  predicate WellItem(it: Item) {
    match it
    case Jump(op, _, long, buf) => op <= 16 && |buf| == JumpLen(op, long) && buf[..JumpField(op, long)] == JumpOpcode(op, long)
    case Call(_, buf) => |buf| == 5
    case Lea(_, buf) => |buf| >= 7
    case Align(a) => IsPow2(a)
    case Value(size, _) => size == 1 || size == 2 || size == 4 || size == 8
    case _ => true
  }

  /** What the parser makes: short jumps, calls and the like with their displacements still open, values of the four sizes. */
  lemma ParsedItems(k: nat, e: Expr, buf: seq<Byte>, a: Byte)
    ensures WellItem(Jump(0, e, false, [0xeb, a]))
    ensures k < 16 ==> WellItem(Jump(1 + k, e, false, [0x70 + k, a]))
    ensures WellItem(Call(e, [0xe8, a, a, a, a])) && WellItem(Code(buf)) && WellItem(Data(buf)) && WellItem(Bss(k)) && WellItem(Label(k))
    ensures |buf| >= 7 ==> WellItem(Lea(e, buf))
    ensures WellItem(Value(1, e)) && WellItem(Value(2, e)) && WellItem(Value(4, e)) && WellItem(Value(8, e))
    ensures WellItem(Align(1)) && (WellItem(Align(k)) ==> WellItem(Align(2 * k)))
  {
  }

  predicate IsPow2(a: nat) {
    a == 1 || (a > 1 && a % 2 == 0 && IsPow2(a / 2))
  }

  lemma {:induction false} Pow2Divides(a: nat, b: nat)
    requires IsPow2(a) && IsPow2(b) && a <= b
    ensures a > 0 && b % a == 0
  {
    if a > 1 {
      Pow2Divides(a / 2, b / 2);
      var q := (b / 2) / (a / 2);
      assert b / 2 == (a / 2) * q;
      assert b == a * q;
      assert b == q * a;
      MulMod(q, a);
    }
  }

  /** The bytes an item takes, alignment apart. */
  function Size(it: Item): nat {
    match it
    case Label(_) | Align(_) => 0
    case Jump(_, _, _, buf) => |buf|
    case Call(_, buf) => |buf|
    case Lea(_, buf) => |buf|
    case Code(buf) => |buf|
    case Data(bytes) => |bytes|
    case Bss(n) => n
    case Value(n, _) => n
  }

  /** The address behind an item. */
  function After(it: Item, address: nat): (r: nat)
    requires WellItem(it)
    ensures r >= address + Size(it)
  {
    if it.Align? then AlignUpIs(address, it.align); AlignUp(address, it.align) else address + Size(it)
  }

  ghost predicate WellItems(items: seq<Item>) {
    forall i | 0 <= i < |items| :: WellItem(items[i])
  }

  /** The address reached before item `i` of a section that starts at `start`. */
  function AddrBefore(items: seq<Item>, start: nat, i: nat): (r: nat)
    requires WellItems(items) && i <= |items|
    ensures r >= start
  {
    if i == 0 then start else After(items[i - 1], AddrBefore(items, start, i - 1))
  }

  /** `ir->address`: an alignment stands at the address it aligns to. */
  function AddrOf(items: seq<Item>, start: nat, i: nat): nat
    requires WellItems(items) && i < |items|
  {
    AddrBefore(items, start, if items[i].Align? then i + 1 else i)
  }

  function AlignSection(align: nat, address: nat): nat {
    if align > 1 then AlignUpIs(address, align); AlignUp(address, align) else address
  }

  ghost predicate WellSections(irs: seq<seq<Item>>) {
    forall s | 0 <= s < |irs| :: WellItems(irs[s])
  }

  /** `section_start_addresses[s]`: sections follow each other, each aligned as asked for. */
  function SectionStart(irs: seq<seq<Item>>, aligns: seq<nat>, load: nat, s: nat): nat
    requires WellSections(irs) && |aligns| == |irs| && s < |irs|
  {
    AlignSection(aligns[s], if s == 0 then load else AddrBefore(irs[s - 1], SectionStart(irs, aligns, load, s - 1), |irs[s - 1]|))
  }

  /** The alignment a section asks for after its first `n` items. */
  function RaisedAlign(items: seq<Item>, align: nat, n: nat): (r: nat)
    requires n <= |items|
    ensures r >= align
  {
    if n == 0 then align
    else
      var a := RaisedAlign(items, align, n - 1);
      if items[n - 1].Align? && items[n - 1].align > a then items[n - 1].align else a
  }
}
