/**
 What the emitted bytes mean: read back from a section's image, displacements lead
 to their targets and values are those of their expressions.
 */
module AsmImage {
  import opened Options
  import opened Util
  import opened AsmItems
  import opened AsmRound
  import opened AsmEmit

  // ----- Values of expressions -----

  /** Division that drops the fraction: what is left has the sign of the dividend. */
  predicate Divides(x: int, y: int, q: int) {
    y != 0 && var rest := x - q * y;
      -Abs(y) < rest < Abs(y) && (x >= 0 ==> rest >= 0) && (x <= 0 ==> rest <= 0)
  }

  function Abs(x: int): int {
    if x < 0 then -x else x
  }

  /** The expression has this value where the labels are at these addresses. */
  ghost predicate Means(labels: Labels, e: Expr, v: int) {
    match e
    case ELabel(name) => name in labels && labels[name].defined && v == labels[name].address
    case Fixnum(x) => v == x
    case Add(l, r) => exists x, y :: Means(labels, l, x) && Means(labels, r, y) && v == x + y
    case Sub(l, r) => exists x, y :: Means(labels, l, x) && Means(labels, r, y) && v == x - y
    case Mul(l, r) => exists x, y :: Means(labels, l, x) && Means(labels, r, y) && v == x * y
    case Div(l, r) => exists x, y :: Means(labels, l, x) && Means(labels, r, y) && Divides(x, y, v)
    case Pos(x) => Means(labels, x, v)
    case Neg(x) => Means(labels, x, -v)
  }

  lemma QuotDivides(x: int, y: int)
    requires y != 0
    ensures Divides(x, y, Quot(x, y))
  {
    var a := Abs(x);
    var q := a / y;
    assert a == q * y + a % y;
    if x < 0 {
      assert Quot(x, y) == -q;
      assert x - Quot(x, y) * y == -(a - q * y) by { assert (-q) * y == -(q * y); }
    }
  }

  lemma OneQuotient(x: int, y: int, p: int, q: int)
    requires Divides(x, y, p) && Divides(x, y, q)
    ensures p == q
  {
    assert (p - q) * y == (x - q * y) - (x - p * y);
    SmallMultiple(p - q, y);
  }

  lemma SmallMultiple(d: int, y: int)
    requires -Abs(y) < d * y < Abs(y)
    ensures d == 0
  {
    if y < 0 {
      assert d * y == -(d * -y);
      MulBounds(d, -y);
    } else {
      MulBounds(d, y);
    }
  }

  /** `calc_expr` finds the value exactly when there is one. */
  lemma {:induction false} CalcMeans(labels: Labels, e: Expr, v: int)
    ensures CalcExpr(labels, e) == Some(v) <==> Means(labels, e, v)
    decreases e, 0
  {
    match e
    case Add(l, r) => SubMeans(labels, l); SubMeans(labels, r);
    case Sub(l, r) => SubMeans(labels, l); SubMeans(labels, r);
    case Mul(l, r) => SubMeans(labels, l); SubMeans(labels, r);
    case Div(l, r) =>
      SubMeans(labels, l);
      SubMeans(labels, r);
      var x, y := CalcExpr(labels, l), CalcExpr(labels, r);
      if x.Some? && y.Some? && y.value != 0 {
        QuotDivides(x.value, y.value);
        if Divides(x.value, y.value, v) {
          OneQuotient(x.value, y.value, v, Quot(x.value, y.value));
        }
      }
    case Pos(x) => CalcMeans(labels, x, v);
    case Neg(x) => CalcMeans(labels, x, -v);
    case _ =>
  }

  lemma SubMeans(labels: Labels, e: Expr)
    ensures forall v :: CalcExpr(labels, e) == Some(v) <==> Means(labels, e, v)
    decreases e, 1
  {
    forall v ensures CalcExpr(labels, e) == Some(v) <==> Means(labels, e, v) {
      CalcMeans(labels, e, v);
    }
  }

  /** As in `.quad label + 8` and `.quad label - 8`. */
  lemma LabelOffset(labels: Labels, name: nat, n: int, v: int)
    ensures Means(labels, Add(ELabel(name), Fixnum(n)), v) <==> name in labels && labels[name].defined && v == labels[name].address + n
    ensures Means(labels, Sub(ELabel(name), Fixnum(n)), v) <==> name in labels && labels[name].defined && v == labels[name].address - n
  {
    assert Means(labels, Fixnum(n), n);
    if name in labels && labels[name].defined {
      assert Means(labels, ELabel(name), labels[name].address);
    }
  }

  // ----- Bytes in an image -----

  /** These bytes lie at this address in a section that starts at `start`. */
  predicate LieAt(b: seq<Byte>, image: seq<Byte>, start: nat, address: nat) {
    start <= address && address - start + |b| <= |image| && image[address - start..address - start + |b|] == b
  }

  /** The signed number of `n` bytes at an address. */
  function ReadAt(image: seq<Byte>, start: nat, address: int, n: nat): int {
    if start <= address && address - start + n <= |image| then ReadSigned(image[address - start..address - start + n]) else 0
  }

  /** `n` bytes at an address hold a value as far as they can. */
  predicate HoldsAt(image: seq<Byte>, start: nat, address: int, n: nat, v: int) {
    start <= address && address - start + n <= |image| && (ReadAt(image, start, address, n) - v) % Pow256(n) == 0
  }

  /** What stands at the address of an item. */
  ghost predicate Stands(it: Item, image: seq<Byte>, start: nat, address: nat, labels: Labels) {
    match it
    case Jump(op, target, long, buf) =>
      && LieAt(buf, image, start, address)
      && |buf| == (if !long then 2 else if op == 0 then 5 else 6)
      && (op == 0 ==> buf[0] == if long then 0xe9 else 0xeb)
      && (op > 0 && !long ==> buf[0] == 0x70 + (op - 1))
      && (op > 0 && long ==> buf[0] == 0x0f && buf[1] == 0x80 + (op - 1))
      && var n, end := if long then 4 else 1, address + |buf|;
         Means(labels, target, end + ReadAt(image, start, end - n, n))
    case Call(target, buf) =>
      && LieAt(buf, image, start, address)
      && exists dst :: Means(labels, target, dst) && HoldsAt(image, start, address + 1, 4, dst - (address + |buf|))
    case Lea(e, buf) =>
      && LieAt(buf, image, start, address)
      && exists dst :: Means(labels, e, dst) && HoldsAt(image, start, address + 3, 4, dst - (address + |buf|))
    case Code(buf) => LieAt(buf, image, start, address)
    case Data(bytes) => LieAt(bytes, image, start, address)
    case Value(size, e) => exists v :: Means(labels, e, v) && HoldsAt(image, start, address, size, v)
    case _ => true
  }

  lemma {:induction false} PutReadsBack(v: int, n: nat)
    ensures (ReadSigned(PutValue(v, n)) - v) % Pow256(n) == 0
    decreases n
  {
    var b := PutValue(v, n);
    if n == 1 {
      assert PutValue(v / 256, 0) == [] && Pow256(0) == 1 && b == [v % 256];
      assert v == 256 * (v / 256) + v % 256;
    } else if n > 1 {
      PutReadsBack(v / 256, n - 1);
      assert b[1..] == PutValue(v / 256, n - 1);
      assert v == 256 * (v / 256) + v % 256;
      assert ReadSigned(b) - v == 256 * (ReadSigned(b[1..]) - v / 256);
      Multiple(ReadSigned(b[1..]) - v / 256, Pow256(n - 1));
    }
  }

  lemma Multiple(d: int, p: nat)
    requires p > 0 && d % p == 0
    ensures (256 * d) % (256 * p) == 0
  {
    var q := d / p;
    assert d == q * p;
    assert 256 * d == q * (256 * p);
    MulMod(q, 256 * p);
  }

  lemma SliceReads(b: seq<Byte>, image: seq<Byte>, start: nat, address: nat, d: nat, n: nat)
    requires LieAt(b, image, start, address) && d + n <= |b|
    ensures ReadAt(image, start, address + d, n) == ReadSigned(b[d..d + n])
    ensures address + d - start + n <= |image|
  {
    var at := address - start;
    SliceOfSlice(image, at, |b|, d, n);
    assert address + d - start == at + d;
  }

  lemma SliceOfSlice(a: seq<Byte>, at: nat, len: nat, d: nat, n: nat)
    requires at + len <= |a| && d + n <= len
    ensures a[at..at + len][d..d + n] == a[at + d..at + d + n]
  {
    var b, c := a[at..at + len][d..d + n], a[at + d..at + d + n];
    assert |b| == |c| == n;
    forall k | 0 <= k < n ensures b[k] == c[k] {
      assert b[k] == a[at..at + len][d + k] == a[at + (d + k)];
      assert c[k] == a[(at + d) + k];
    }
  }

  lemma FieldHolds(b: seq<Byte>, image: seq<Byte>, start: nat, address: nat, d: nat, n: nat, v: int)
    requires LieAt(b, image, start, address) && d + n <= |b| && b[d..d + n] == PutValue(v, n)
    ensures HoldsAt(image, start, address + d, n, v)
  {
    SliceReads(b, image, start, address, d, n);
    PutReadsBack(v, n);
  }

  /** A linked item whose bytes lie at its address stands there. */
  lemma LinkedStands(it: Item, image: seq<Byte>, start: nat, address: nat, labels: Labels)
    requires WellItem(it) && Linked(it, address, labels) && LieAt(Bytes(it, labels), image, start, address)
    ensures Stands(it, image, start, address, labels)
  {
    hide Means, LieAt, ReadAt, HoldsAt, CalcExpr, ReadSigned, PutValue;
    match it
    case Jump(op, target, long, buf) =>
      var n, d := if long then 4 else 1, JumpField(op, long);
      SubMeans(labels, target);
      SliceReads(buf, image, start, address, d, n);
      assert buf[..d] == JumpOpcode(op, long);
    case Call(target, buf) =>
      SubMeans(labels, target);
      FieldHolds(buf, image, start, address, 1, 4, CalcExpr(labels, target).value - (address + |buf|));
    case Lea(e, buf) =>
      SubMeans(labels, e);
      FieldHolds(buf, image, start, address, 3, 4, CalcExpr(labels, e).value - (address + |buf|));
    case Value(size, e) =>
      SubMeans(labels, e);
      var b := PutValue(CalcExpr(labels, e).value, size);
      assert b[0..0 + size] == b by { PutLen(CalcExpr(labels, e).value, size); }
      FieldHolds(b, image, start, address, 0, size, CalcExpr(labels, e).value);
    case _ =>
  }

  lemma PutLen(v: int, n: nat)
    ensures |PutValue(v, n)| == n
  {
  }
}
