/** Condition codes: when a conditional jump is taken, and how a condition is inverted. */
module Conditions {
  import opened Ir

  /** The flags a compare leaves: zero, sign, overflow, carry. */
  datatype Flags = Flags(zf: bool, sf: bool, of: bool, cf: bool)

  /** When the conditional jump of that kind is taken (volume 2 of the Intel 64 manual, `Jcc`). */
  predicate Holds(c: CondKind, f: Flags) {
    match c
    case ANY => true
    case EQ => f.zf
    case NE => !f.zf
    case LT => f.sf != f.of
    case LE => f.zf || f.sf != f.of
    case GE => f.sf == f.of
    case GT => !f.zf && f.sf == f.of
    case ULT => f.cf
    case ULE => f.cf || f.zf
    case UGE => !f.cf
    case UGT => !f.cf && !f.zf
  }

  /** The enumeration values of `ConditionKind`. */
  function CondNo(c: CondKind): (n: nat)
    ensures 1 <= n <= 11
  {
    match c
    case ANY => 1
    case EQ => 2
    case NE => 3
    case LT => 4
    case LE => 5
    case GE => 6
    case GT => 7
    case ULT => 8
    case ULE => 9
    case UGE => 10
    case UGT => 11
  }

  function OfCondNo(n: nat): (c: CondKind)
    requires 2 <= n <= 11
    ensures CondNo(c) == n
  {
    if n == 2 then EQ else if n == 3 then NE else if n == 4 then LT else if n == 5 then LE else if n == 6 then GE
    else if n == 7 then GT else if n == 8 then ULT else if n == 9 then ULE else if n == 10 then UGE else UGT
  }

  /** `n ^ 2` */
  function Flip(n: nat): (r: nat)
    requires n < 8
    ensures r == if n % 4 < 2 then n + 2 else n - 2
  {
    ((n as bv8) ^ 2) as nat
  }

  function InvertCond(c: CondKind): CondKind
    requires c != ANY
  {
    var n := CondNo(c);
    if n <= CondNo(NE) then OfCondNo(CondNo(NE) + CondNo(EQ) - n)
    else if n <= CondNo(ULT) then OfCondNo(CondNo(LT) + Flip(n - CondNo(LT)))
    else OfCondNo(CondNo(ULT) + Flip(n - CondNo(ULT)))
  }

  /** The inverted condition holds exactly when the condition does not. */
  lemma InvertCondNegates(c: CondKind, f: Flags)
    requires c != ANY
    ensures InvertCond(c) != ANY
    ensures Holds(InvertCond(c), f) == !Holds(c, f)
    ensures InvertCond(InvertCond(c)) == c
  {
    InvertTable(c);
    InvertTable(InvertCond(c));
  }

  lemma InvertTable(c: CondKind)
    requires c != ANY
    ensures InvertCond(c) == match c
                             case EQ => NE
                             case NE => EQ
                             case LT => GE
                             case GE => LT
                             case LE => GT
                             case GT => LE
                             case ULT => UGE
                             case UGE => ULT
                             case ULE => UGT
                             case UGT => ULE
  {
    assert Flip(0) == 2 && Flip(1) == 3 && Flip(2) == 0 && Flip(3) == 1 && Flip(4) == 6;
  }
}
