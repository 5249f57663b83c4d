/** The dispatch of a switch reaches the matching case, else the default, else what follows. */
module LowerSwitch {
  import opened Options
  import opened Ir
  import opened Conditions
  import opened LowerCode
  import opened LowerGen
  import opened LowerCond
  import St = Structured

  ghost predicate DistinctCases(cases: seq<Option<int>>) {
    forall i, j | 0 <= i < j < |cases| :: cases[i] != cases[j]
  }

  ghost predicate Indices(cases: seq<Option<int>>, o: seq<nat>) {
    forall k | 0 <= k < |o| :: o[k] < |cases|
  }

  /** In the order of `compare_cases`. */
  ghost predicate InOrder(cases: seq<Option<int>>, o: seq<nat>)
    requires Indices(cases, o)
  {
    forall i, j | 0 <= i < j < |o| :: CaseLess(cases[o[i]], cases[o[j]])
  }

  lemma {:induction false} InsertHas(cases: seq<Option<int>>, o: seq<nat>, i: nat, x: nat)
    requires i < |cases| && Indices(cases, o)
    ensures x in InsertCase(cases, o, i) <==> x in o || x == i
  {
    if o != [] && !CaseLess(cases[i], cases[o[0]]) {
      InsertHas(cases, o[1..], i, x);
    }
  }

  lemma {:induction false} InsertKeeps(cases: seq<Option<int>>, o: seq<nat>, i: nat)
    requires i < |cases| && Indices(cases, o) && InOrder(cases, o)
    requires forall k | 0 <= k < |o| :: cases[o[k]] != cases[i]
    ensures InOrder(cases, InsertCase(cases, o, i))
  {
    if o != [] && !CaseLess(cases[i], cases[o[0]]) {
      InsertKeeps(cases, o[1..], i);
      var t := InsertCase(cases, o[1..], i);
      forall k | 0 <= k < |t| ensures CaseLess(cases[o[0]], cases[t[k]]) {
        InsertHas(cases, o[1..], i, t[k]);
        assert t[k] == i || t[k] in o[1..];
      }
    }
  }

  lemma {:induction false} OrderHas(cases: seq<Option<int>>, n: nat, x: nat)
    requires n <= |cases|
    ensures x in OrderOf(cases, n) <==> x < n
  {
    if n > 0 {
      OrderHas(cases, n - 1, x);
      InsertHas(cases, OrderOf(cases, n - 1), n - 1, x);
    }
  }

  /** The labels in the order of their values, each once. */
  lemma {:induction false} OrderKeeps(cases: seq<Option<int>>, n: nat)
    requires n <= |cases| && DistinctCases(cases)
    ensures InOrder(cases, OrderOf(cases, n))
  {
    if n > 0 {
      var o := OrderOf(cases, n - 1);
      OrderKeeps(cases, n - 1);
      forall k | 0 <= k < |o| ensures cases[o[k]] != cases[n - 1] {
        OrderHas(cases, n - 1, o[k]);
      }
      InsertKeeps(cases, o, n - 1);
    }
  }

  /** An order of the same labels is this one: sorting has one result. */
  lemma {:induction false} OneOrder(cases: seq<Option<int>>, a: seq<nat>, b: seq<nat>)
    requires Indices(cases, a) && Indices(cases, b) && InOrder(cases, a) && InOrder(cases, b)
    requires |a| == |b| && forall x: nat :: x in a <==> x in b
    ensures a == b
    decreases |a|
  {
    if a != [] {
      assert a[0] in b && a[0] in a;
      FirstIsLeast(cases, a, b);
      forall x: nat ensures x in a[1..] <==> x in b[1..] {
        TailHas(cases, a, x);
        TailHas(cases, b, x);
      }
      OneOrder(cases, a[1..], b[1..]);
      assert a == [a[0]] + a[1..] && b == [b[0]] + b[1..];
    }
  }

  lemma TailHas(cases: seq<Option<int>>, a: seq<nat>, x: nat)
    requires Indices(cases, a) && InOrder(cases, a) && a != []
    ensures x in a[1..] <==> x in a && x != a[0]
  {
    if x in a[1..] {
      var i :| 0 <= i < |a| - 1 && a[1..][i] == x;
      assert a[i + 1] == x && CaseLess(cases[a[0]], cases[a[i + 1]]);
    }
  }

  lemma FirstIsLeast(cases: seq<Option<int>>, a: seq<nat>, b: seq<nat>)
    requires Indices(cases, a) && Indices(cases, b) && InOrder(cases, a) && InOrder(cases, b)
    requires (forall x: nat :: x in a <==> x in b) && a != [] && b != []
    ensures a[0] == b[0]
  {
    assert a[0] in b && b[0] in a;
    var i :| 0 <= i < |b| && b[i] == a[0];
    var j :| 0 <= j < |a| && a[j] == b[0];
  }

  // ----- What the dispatch selects -----

  /** The values of a type. */
  predicate InType(v: int, half: nat, unsigned: bool) {
    if unsigned then 0 <= v < 2 * half else v + half >= 0 && v < half
  }

  ghost predicate AllInType(cases: seq<Option<int>>, half: nat, unsigned: bool) {
    forall i | 0 <= i < |cases| && cases[i].Some? :: InType(cases[i].value, half, unsigned)
  }

  /** What a compare makes of a value: its bit pattern, read as signed. */
  function Key(v: int, half: nat): int
    requires half > 0
  {
    Signed(Bits(v, half), half)
  }

  /** Keys tell values of one type apart, and order them as long as both lie on one side of `half`. */
  lemma KeyOrder(a: int, b: int, half: nat, unsigned: bool)
    requires half > 0 && InType(a, half, unsigned) && InType(b, half, unsigned)
    ensures Key(a, half) == Key(b, half) <==> a == b
    ensures (a < half <==> b < half) ==> (Key(a, half) < Key(b, half) <==> a < b)
    ensures a < half <= b ==> Key(b, half) < Key(a, half)
  {
    hide Bits;
    BitsOf(a, half);
    BitsOf(b, half);
  }

  /** The label index that the tests lead to, by the branches of `gen_switch_cond_recur`. */
  function Select(half: nat, cases: seq<Option<int>>, order: seq<nat>, v: int): Option<nat>
    requires half > 0
    decreases |order|
  {
    if order == [] then None
    else if |order| <= 2 then
      if Key(v, half) == Key(CaseValue(cases, order[0]), half) then Some(order[0]) else Select(half, cases, order[1..], v)
    else
      var mid := |order| / 2;
      var c := Key(CaseValue(cases, order[mid]), half);
      if Key(v, half) == c then Some(order[mid])
      else if Key(v, half) > c then Select(half, cases, order[mid + 1..], v)
      else Select(half, cases, order[..mid], v)
  }

  /** Labels with values of one type, in order. */
  ghost predicate Valued(cases: seq<Option<int>>, order: seq<nat>, half: nat, unsigned: bool) {
    && Indices(cases, order) && InOrder(cases, order)
    && (forall k | 0 <= k < |order| :: cases[order[k]].Some? && InType(cases[order[k]].value, half, unsigned))
  }

  lemma ValuedPart(cases: seq<Option<int>>, order: seq<nat>, half: nat, unsigned: bool, i: nat, j: nat)
    requires Valued(cases, order, half, unsigned) && i <= j <= |order|
    ensures Valued(cases, order[i..j], half, unsigned)
  {
  }

  lemma ValuedAt(cases: seq<Option<int>>, order: seq<nat>, half: nat, unsigned: bool, k: nat)
    requires Valued(cases, order, half, unsigned) && k < |order|
    ensures order[k] < |cases| && cases[order[k]] == Some(CaseValue(cases, order[k])) && InType(CaseValue(cases, order[k]), half, unsigned)
  {
  }

  lemma ValuedLess(cases: seq<Option<int>>, order: seq<nat>, half: nat, unsigned: bool, i: nat, j: nat)
    requires Valued(cases, order, half, unsigned) && i < j < |order|
    ensures CaseValue(cases, order[i]) < CaseValue(cases, order[j])
  {
    assert CaseLess(cases[order[i]], cases[order[j]]);
  }

  /** Whatever is selected has the value. */
  lemma {:induction false} SelectHas(half: nat, unsigned: bool, cases: seq<Option<int>>, order: seq<nat>, v: int)
    requires half > 0 && Valued(cases, order, half, unsigned) && InType(v, half, unsigned)
    ensures var x := Select(half, cases, order, v); x.Some? ==> x.value in order && CaseValue(cases, x.value) == v
    decreases |order|
  {
    hide Valued, InType, Key;
    if order != [] {
      var mid := if |order| <= 2 then 0 else |order| / 2;
      ValuedAt(cases, order, half, unsigned, mid);
      KeyOrder(v, CaseValue(cases, order[mid]), half, unsigned);
      ValuedPart(cases, order, half, unsigned, mid + 1, |order|);
      ValuedPart(cases, order, half, unsigned, 0, mid);
      assert order[mid + 1..] == order[mid + 1..|order|] && order[..mid] == order[0..mid];
      SelectHas(half, unsigned, cases, order[mid + 1..], v);
      SelectHas(half, unsigned, cases, order[..mid], v);
    }
  }

  /** At most two values, or all of them on one side of `half`. */
  ghost predicate OneSidedOrder(cases: seq<Option<int>>, order: seq<nat>, half: nat) {
    || |order| <= 2
    || (forall k | 0 <= k < |order| :: CaseValue(cases, order[k]) < half)
    || (forall k | 0 <= k < |order| :: CaseValue(cases, order[k]) >= half)
  }

  /** Then a value that some label has is found. */
  lemma {:induction false} SelectFinds(half: nat, unsigned: bool, cases: seq<Option<int>>, order: seq<nat>, k: nat)
    requires half > 0 && Valued(cases, order, half, unsigned) && OneSidedOrder(cases, order, half) && k < |order|
    ensures Select(half, cases, order, CaseValue(cases, order[k])) == Some(order[k])
    decreases |order|
  {
    hide Valued, InType, Key;
    var mid := if |order| <= 2 then 0 else |order| / 2;
    var v, c := CaseValue(cases, order[k]), CaseValue(cases, order[mid]);
    ValuedAt(cases, order, half, unsigned, k);
    ValuedAt(cases, order, half, unsigned, mid);
    KeyOrder(v, c, half, unsigned);
    KeyOrder(c, v, half, unsigned);
    if k > mid {
      ValuedLess(cases, order, half, unsigned, mid, k);
      ValuedPart(cases, order, half, unsigned, mid + 1, |order|);
      assert order[mid + 1..] == order[mid + 1..|order|];
      SelectFinds(half, unsigned, cases, order[mid + 1..], k - mid - 1);
    } else if k < mid {
      ValuedLess(cases, order, half, unsigned, k, mid);
      ValuedPart(cases, order, half, unsigned, 0, mid);
      assert order[..mid] == order[0..mid];
      SelectFinds(half, unsigned, cases, order[..mid], k);
    }
  }

  /** Otherwise one is missed: the largest when the middle one is below `half`, else the smallest. */
  lemma SelectMisses(half: nat, unsigned: bool, cases: seq<Option<int>>, order: seq<nat>) returns (k: nat)
    requires half > 0 && Valued(cases, order, half, unsigned) && !OneSidedOrder(cases, order, half)
    ensures k < |order| && Select(half, cases, order, CaseValue(cases, order[k])) != Some(order[k])
  {
    hide Valued, InType, Key;
    var mid, last := |order| / 2, |order| - 1;
    var low := EndsApart(half, unsigned, cases, order);
    k := if CaseValue(cases, order[mid]) < half then last else 0;
    var v, c := CaseValue(cases, order[k]), CaseValue(cases, order[mid]);
    ValuedAt(cases, order, half, unsigned, k);
    ValuedAt(cases, order, half, unsigned, mid);
    KeyOrder(v, c, half, unsigned);
    KeyOrder(c, v, half, unsigned);
    var i, j := if k == last then 0 else mid + 1, if k == last then mid else |order|;
    ValuedPart(cases, order, half, unsigned, i, j);
    assert order[mid + 1..] == order[mid + 1..|order|] && order[..mid] == order[0..mid];
    SelectHas(half, unsigned, cases, order[i..j], v);
    if Select(half, cases, order[i..j], v) == Some(order[k]) {
      var h :| i <= h < j && order[h] == order[k];
      ValuedLess(cases, order, half, unsigned, if h < k then h else k, if h < k then k else h);
    }
  }

  lemma EndsApart(half: nat, unsigned: bool, cases: seq<Option<int>>, order: seq<nat>) returns (low: int)
    requires Valued(cases, order, half, unsigned) && !OneSidedOrder(cases, order, half)
    ensures |order| > 2 && low == CaseValue(cases, order[0]) < half <= CaseValue(cases, order[|order| - 1])
  {
    hide Valued;
    low := CaseValue(cases, order[0]);
    var i :| 0 <= i < |order| && CaseValue(cases, order[i]) >= half;
    var j :| 0 <= j < |order| && CaseValue(cases, order[j]) < half;
    if i < |order| - 1 {
      ValuedLess(cases, order, half, unsigned, i, |order| - 1);
    }
    if j > 0 {
      ValuedLess(cases, order, half, unsigned, 0, j);
    }
  }

  // ----- Running the dispatch -----

  /** For `n` steps control is in a stretch of code. */
  predicate Inside<S>(m: St.Sem<S>, prog: Code, lo: nat, hi: nat, pc: nat, st: Mach<S>, n: nat)
    requires pc <= |prog|
    decreases n
  {
    n == 0 || (lo <= pc < hi && var (pc1, st1) := Step(m, prog, pc, st); Inside(m, prog, lo, hi, pc1, st1, n - 1))
  }

  lemma {:induction false} InsideJoin<S>(m: St.Sem<S>, prog: Code, lo: nat, hi: nat, pc: nat, st: Mach<S>, a: nat, b: nat)
    requires pc <= |prog| && Inside(m, prog, lo, hi, pc, st, a)
    requires var (pc1, st1) := Go(m, prog, pc, st, a); Inside(m, prog, lo, hi, pc1, st1, b)
    ensures Inside(m, prog, lo, hi, pc, st, a + b)
    decreases a
  {
    hide Step;
    if a > 0 {
      var (pc1, st1) := Step(m, prog, pc, st);
      InsideJoin(m, prog, lo, hi, pc1, st1, a - 1, b);
    }
  }

  lemma InsideOne<S>(m: St.Sem<S>, prog: Code, lo: nat, hi: nat, pc: nat, st: Mach<S>)
    requires pc <= |prog| && lo <= pc < hi
    ensures Inside(m, prog, lo, hi, pc, st, 1)
  {
    var (pc1, st1) := Step(m, prog, pc, st);
    assert Inside(m, prog, lo, hi, pc1, st1, 0);
  }

  lemma {:induction false} InsideAt<S>(m: St.Sem<S>, prog: Code, lo: nat, hi: nat, pc: nat, st: Mach<S>, k: nat, n: nat)
    requires pc <= |prog| && Inside(m, prog, lo, hi, pc, st, n) && k < n
    ensures lo <= Go(m, prog, pc, st, k).0 < hi
    decreases k
  {
    hide Step;
    if k > 0 {
      var (pc1, st1) := Step(m, prog, pc, st);
      InsideAt(m, prog, lo, hi, pc1, st1, k - 1, n - 1);
    }
  }

  /** Control first leaves a stretch of code to `q`. */
  ghost predicate Leaves<S>(m: St.Sem<S>, prog: Code, lo: nat, hi: nat, st: Mach<S>, q: nat)
    requires lo <= |prog|
  {
    !(lo <= q < hi) && exists k: nat :: Inside(m, prog, lo, hi, lo, st, k) && Go(m, prog, lo, st, k).0 == q
  }

  lemma LeavesOnce<S>(m: St.Sem<S>, prog: Code, lo: nat, hi: nat, st: Mach<S>, q: nat, q2: nat)
    requires lo <= |prog| && Leaves(m, prog, lo, hi, st, q) && Leaves(m, prog, lo, hi, st, q2)
    ensures q == q2
  {
    var k: nat :| Inside(m, prog, lo, hi, lo, st, k) && Go(m, prog, lo, st, k).0 == q;
    var j: nat :| Inside(m, prog, lo, hi, lo, st, j) && Go(m, prog, lo, st, j).0 == q2;
    if k < j {
      InsideAt(m, prog, lo, hi, lo, st, k, j);
    } else if j < k {
      InsideAt(m, prog, lo, hi, lo, st, j, k);
    }
  }

  /** A compare of the switch register with a case value. */
  lemma CaseFlags(r: int, v: int, half: nat)
    requires half > 0
    ensures var f := CmpFlags(Bits(r, half), Bits(v, half), half);
            Holds(EQ, f) == (Key(r, half) == Key(v, half)) && Holds(GT, f) == (Key(r, half) > Key(v, half))
  {
    hide Bits;
    CmpFlagsTell(Bits(r, half), Bits(v, half), half);
  }

  /** Two steps: to the case when it matches, else to the label behind. */
  lemma TestSim<S>(m: St.Sem<S>, half: nat, v: int, to: nat, n: nat, prog: Code, p: nat, st: Mach<S>, lo: nat, hi: nat)
    requires half > 0 && lo <= p && p + 2 <= hi
    requires At(prog, p, TestCase(half, v, to, n)) && HasLab(prog, to)
    ensures var st1 := Go(m, prog, p, st, 2).1;
            && Go(m, prog, p, st, 2).0 == (if Key(st.r, half) == Key(v, half) then Pos(prog, to) else p + 2)
            && st1.s == st.s && st1.r == st.r && Holds(GT, st1.flags) == (Key(st.r, half) > Key(v, half))
    ensures p + 2 < |prog| && prog[p + 2] == Lab(n) && Inside(m, prog, lo, hi, p, st, 2)
  {
    hide CmpFlags, Holds, Bits, Key, Inside;
    var code := TestCase(half, v, to, n);
    assert code == [CmpCase(half, v)] + ([Jcc(EQ, to)] + [Lab(n)]);
    AtHead(prog, p, CmpCase(half, v), [Jcc(EQ, to)] + [Lab(n)]);
    AtHead(prog, p + 1, Jcc(EQ, to), [Lab(n)]);
    AtOne(prog, p + 2, Lab(n));
    CaseFlags(st.r, v, half);
    var st1 := Step(m, prog, p, st).1;
    JccStep(m, prog, p + 1, st1, EQ, to);
    GoOne(m, prog, p, st);
    GoOne(m, prog, p + 1, st1);
    GoPlus(m, prog, p, st, 1, 1);
    InsideOne(m, prog, lo, hi, p, st);
    InsideOne(m, prog, lo, hi, p + 1, st1);
    InsideJoin(m, prog, lo, hi, p, st, 1, 1);
  }

  /** Every case in the order can be reached. */
  ghost predicate Reachable(order: seq<nat>, first: nat, other: nat, prog: Code) {
    HasLab(prog, other) && forall k | 0 <= k < |order| :: HasLab(prog, first + order[k])
  }

  lemma ReachablePart(order: seq<nat>, first: nat, other: nat, prog: Code, i: nat, j: nat)
    requires Reachable(order, first, other, prog) && i <= j <= |order|
    ensures Reachable(order[i..j], first, other, prog)
  {
  }

  lemma ReachableAt(order: seq<nat>, first: nat, other: nat, prog: Code, k: nat)
    requires Reachable(order, first, other, prog) && k < |order|
    ensures HasLab(prog, first + order[k])
  {
  }

  /** The label of what is selected. */
  function LabelOf(first: nat, other: nat, x: Option<nat>): nat {
    if x.Some? then first + x.value else other
  }

  /** The dispatch leaves to the label of what is selected, whatever the values. */
  lemma {:induction false} DispatchSim<S>(m: St.Sem<S>, half: nat, cases: seq<Option<int>>, order: seq<nat>, first: nat, other: nat, n: nat, prog: Code, p: nat, st: Mach<S>, lo: nat, hi: nat) returns (k: nat)
    requires half > 0 && Reachable(order, first, other, prog) && Unique(prog)
    requires At(prog, p, GenDispatch(half, cases, order, first, other, n).0)
    requires lo <= p && p + |GenDispatch(half, cases, order, first, other, n).0| <= hi
    ensures var l := LabelOf(first, other, Select(half, cases, order, st.r));
            HasLab(prog, l) && Go(m, prog, p, st, k).0 == Pos(prog, l)
    ensures Go(m, prog, p, st, k).1.s == st.s && Inside(m, prog, lo, hi, p, st, k)
    decreases |order|
  {
    hide Unique, TestCase, At, Reachable, Step, Key, Inside, HasLab, Pos;
    if |order| <= 2 {
      k := FewSim(m, half, cases, order, first, other, n, prog, p, st, lo, hi);
    } else {
      var mid := |order| / 2;
      var i := order[mid];
      var v := CaseValue(cases, i);
      var (below, n1) := GenDispatch(half, cases, order[..mid], first, other, n + 3);
      var (above, n2) := GenDispatch(half, cases, order[mid + 1..], first, other, n1);
      SplitPlaces(prog, p, half, v, first + i, n, below, above);
      SplitLen(half, v, first + i, n, below, above);
      ReachableAt(order, first, other, prog, mid);
      if Key(st.r, half) == Key(v, half) {
        TestSim(m, half, v, first + i, n, prog, p, st, lo, hi);
        k := 2;
      } else {
        SplitSim(m, half, v, first + i, n, below, above, prog, p, st, lo, hi);
        var (q, st1) := Go(m, prog, p, st, 5);
        var k1: nat;
        if Key(st.r, half) > Key(v, half) {
          ReachablePart(order, first, other, prog, mid + 1, |order|);
          assert order[mid + 1..] == order[mid + 1..|order|];
          k1 := DispatchSim(m, half, cases, order[mid + 1..], first, other, n1, prog, q, st1, lo, hi);
        } else {
          ReachablePart(order, first, other, prog, 0, mid);
          assert order[..mid] == order[0..mid];
          k1 := DispatchSim(m, half, cases, order[..mid], first, other, n + 3, prog, q, st1, lo, hi);
        }
        GoPlus(m, prog, p, st, 5, k1);
        InsideJoin(m, prog, lo, hi, p, st, 5, k1);
        k := 5 + k1;
      }
    }
  }

  lemma SplitLen(half: nat, v: int, to: nat, n: nat, below: Code, above: Code)
    ensures |SplitCode(TestCase(half, v, to, n), n, below, above)| == 6 + |below| + |above|
  {
  }

  /** Behind the test for the middle value, to the smaller or to the greater ones. */
  lemma SplitSim<S>(m: St.Sem<S>, half: nat, v: int, to: nat, n: nat, below: Code, above: Code, prog: Code, p: nat, st: Mach<S>, lo: nat, hi: nat)
    requires half > 0 && Key(st.r, half) != Key(v, half) && Unique(prog) && lo <= p && p + 6 + |below| <= hi
    requires At(prog, p, SplitCode(TestCase(half, v, to, n), n, below, above)) && HasLab(prog, to)
    ensures var (q, st1) := Go(m, prog, p, st, 5);
            q == (if Key(st.r, half) > Key(v, half) then p + 6 + |below| else p + 5) && st1.s == st.s && st1.r == st.r
    ensures Inside(m, prog, lo, hi, p, st, 5)
  {
    hide Unique, TestCase, At, Step, Key, Inside;
    SplitPlaces(prog, p, half, v, to, n, below, above);
    TestSim(m, half, v, to, n, prog, p, st, lo, hi);
    var st1 := Go(m, prog, p, st, 2).1;
    LabStep(m, prog, p + 2, n, st1);
    GoPlus(m, prog, p, st, 2, 1);
    InsideOne(m, prog, lo, hi, p + 2, st1);
    InsideJoin(m, prog, lo, hi, p, st, 2, 1);
    JccStep(m, prog, p + 3, st1, GT, n + 2);
    GoOne(m, prog, p + 3, st1);
    GoPlus(m, prog, p, st, 3, 1);
    InsideOne(m, prog, lo, hi, p + 3, st1);
    InsideJoin(m, prog, lo, hi, p, st, 3, 1);
    var up := Key(st.r, half) > Key(v, half);
    var q := if up then p + 5 + |below| else p + 4;
    LabStep(m, prog, q, if up then n + 2 else n + 1, st1);
    GoPlus(m, prog, p, st, 4, 1);
    InsideOne(m, prog, lo, hi, q, st1);
    InsideJoin(m, prog, lo, hi, p, st, 4, 1);
  }

  lemma SplitPlaces(prog: Code, p: nat, half: nat, v: int, to: nat, n: nat, below: Code, above: Code)
    requires At(prog, p, SplitCode(TestCase(half, v, to, n), n, below, above)) && Unique(prog)
    ensures At(prog, p, TestCase(half, v, to, n)) && At(prog, p + 5, below) && At(prog, p + 6 + |below|, above)
    ensures p + 5 + |below| < |prog| && prog[p + 3] == Jcc(GT, n + 2) && prog[p + 4] == Lab(n + 1) && prog[p + 5 + |below|] == Lab(n + 2)
    ensures HasLab(prog, n + 2) && Pos(prog, n + 2) == p + 5 + |below|
  {
    var test, t2 := TestCase(half, v, to, n), [Lab(n + 2)] + above;
    assert [Jcc(GT, n + 2), Lab(n + 1)] + (below + t2) == [Jcc(GT, n + 2)] + ([Lab(n + 1)] + (below + t2));
    AtJoin(prog, p, test, [Jcc(GT, n + 2)] + ([Lab(n + 1)] + (below + t2)));
    AtHead(prog, p + 3, Jcc(GT, n + 2), [Lab(n + 1)] + (below + t2));
    AtHead(prog, p + 4, Lab(n + 1), below + t2);
    AtJoin(prog, p + 5, below, t2);
    AtHead(prog, p + 5 + |below|, Lab(n + 2), above);
    PosIs(prog, n + 2, p + 5 + |below|);
  }

  lemma {:induction false} FewSim<S>(m: St.Sem<S>, half: nat, cases: seq<Option<int>>, order: seq<nat>, first: nat, other: nat, n: nat, prog: Code, p: nat, st: Mach<S>, lo: nat, hi: nat) returns (k: nat)
    requires half > 0 && |order| <= 2 && Reachable(order, first, other, prog) && Unique(prog)
    requires At(prog, p, GenDispatch(half, cases, order, first, other, n).0)
    requires lo <= p && p + |GenDispatch(half, cases, order, first, other, n).0| <= hi
    ensures var l := LabelOf(first, other, Select(half, cases, order, st.r));
            HasLab(prog, l) && Go(m, prog, p, st, k).0 == Pos(prog, l)
    ensures Go(m, prog, p, st, k).1.s == st.s && Inside(m, prog, lo, hi, p, st, k)
  {
    hide Unique, TestCase, At, Step, Key, Inside, HasLab, Pos;
    if |order| == 0 {
      AtOne(prog, p, Jcc(ANY, other));
      JccStep(m, prog, p, st, ANY, other);
      GoOne(m, prog, p, st);
      InsideOne(m, prog, lo, hi, p, st);
      k := 1;
    } else {
      var v := CaseValue(cases, order[0]);
      var t0 := TestCase(half, v, first + order[0], n);
      var rest := GenDispatch(half, cases, order[1..], first, other, n + 1).0;
      assert GenDispatch(half, cases, order, first, other, n).0 == t0 + rest by { FewCode(half, cases, order, first, other, n); }
      AtJoin(prog, p, t0, rest);
      TestLen(half, v, first + order[0], n);
      TestSim(m, half, v, first + order[0], n, prog, p, st, lo, hi);
      var st1 := Go(m, prog, p, st, 2).1;
      if Key(st.r, half) == Key(v, half) {
        k := 2;
      } else {
        LabStep(m, prog, p + 2, n, st1);
        GoPlus(m, prog, p, st, 2, 1);
        InsideOne(m, prog, lo, hi, p + 2, st1);
        InsideJoin(m, prog, lo, hi, p, st, 2, 1);
        ReachablePart(order, first, other, prog, 1, |order|);
        assert order[1..] == order[1..|order|];
        var k1 := FewSim(m, half, cases, order[1..], first, other, n + 1, prog, p + 3, st1, lo, hi);
        GoPlus(m, prog, p, st, 3, k1);
        InsideJoin(m, prog, lo, hi, p, st, 3, k1);
        k := 3 + k1;
      }
    }
  }

  lemma FewCode(half: nat, cases: seq<Option<int>>, order: seq<nat>, first: nat, other: nat, n: nat)
    requires 1 <= |order| <= 2
    ensures GenDispatch(half, cases, order, first, other, n).0
         == TestCase(half, CaseValue(cases, order[0]), first + order[0], n) + GenDispatch(half, cases, order[1..], first, other, n + 1).0
  {
  }

  lemma TestLen(half: nat, v: int, to: nat, n: nat)
    ensures |TestCase(half, v, to, n)| == 3
  {
  }

  // ----- The labels of a whole switch -----

  /** The labels of `n` cases from `first` on are set. */
  ghost predicate CasesSet(prog: Code, first: nat, n: nat) {
    forall l: nat | first <= l < first + n :: HasLab(prog, l)
  }

  function Dispatched(cases: seq<Option<int>>): nat {
    if St.FirstIndex(cases, None, 0).Some? && |cases| > 0 then |cases| - 1 else |cases|
  }

  /** The labels in order, with `default` left out. */
  function DispatchOrder(cases: seq<Option<int>>): seq<nat> {
    OrderOf(cases, |cases|)[..Dispatched(cases)]
  }

  /** It holds every label that has a value. */
  lemma {:induction false} OrderDispatches(cases: seq<Option<int>>, half: nat, unsigned: bool)
    requires DistinctCases(cases) && AllInType(cases, half, unsigned)
    ensures Valued(cases, DispatchOrder(cases), half, unsigned)
    ensures forall i: nat | i < |cases| && cases[i].Some? :: i in DispatchOrder(cases)
  {
    hide OrderOf, InType;
    var o := OrderOf(cases, |cases|);
    OrderKeeps(cases, |cases|);
    forall i: nat | i < |cases| ensures i in o {
      OrderHas(cases, |cases|, i);
    }
    OrderValues(cases, o);
    forall i: nat | i < |cases| && cases[i].Some? ensures i in DispatchOrder(cases) {
      assert i in o;
      var k :| 0 <= k < |o| && o[k] == i;
      assert DispatchOrder(cases)[k] == i;
    }
  }

  lemma OrderValues(cases: seq<Option<int>>, o: seq<nat>)
    requires Indices(cases, o) && InOrder(cases, o) && |o| == |cases| && forall i: nat | i < |cases| :: i in o
    ensures forall k | 0 <= k < |o| :: cases[o[k]].Some? <==> k < Dispatched(cases)
  {
    var d := St.FirstIndex(cases, None, 0);
    if d.Some? {
      assert d.value in o;
      var e :| 0 <= e < |o| && o[e] == d.value;
      forall k | 0 <= k < |o| - 1 ensures cases[o[k]].Some? {
        assert CaseLess(cases[o[k]], cases[o[|o| - 1]]);
      }
      assert e == |o| - 1;
    } else {
      forall k | 0 <= k < |o| ensures cases[o[k]].Some? {
        assert cases[o[k]] != None;
      }
    }
  }

  lemma OrderReachable(cases: seq<Option<int>>, first: nat, brk: nat, prog: Code)
    requires HasLab(prog, brk) && CasesSet(prog, first, |cases|)
    ensures Reachable(DispatchOrder(cases), first, OtherLabel(cases, first, brk), prog)
  {
    hide OrderOf, HasLab;
    assert forall k | 0 <= k < Dispatched(cases) :: DispatchOrder(cases)[k] < |cases|;
  }

  // ----- When the dispatch is right -----

  /** At most two valued labels, or all values on one side of `half`. */
  ghost predicate OneSided(cases: seq<Option<int>>, half: nat) {
    || Dispatched(cases) <= 2
    || (forall i | 0 <= i < |cases| && cases[i].Some? :: cases[i].value < half)
    || (forall i | 0 <= i < |cases| && cases[i].Some? :: cases[i].value >= half)
  }

  lemma OneSidedIs(cases: seq<Option<int>>, half: nat, unsigned: bool)
    requires DistinctCases(cases) && AllInType(cases, half, unsigned)
    ensures OneSided(cases, half) <==> OneSidedOrder(cases, DispatchOrder(cases), half)
  {
    hide OrderOf, InType, InOrder, DistinctCases, AllInType;
    OrderDispatches(cases, half, unsigned);
    var o := DispatchOrder(cases);
    forall i: nat | i < |cases| && cases[i].Some? ensures exists k :: 0 <= k < |o| && o[k] == i {
      assert i in o;
    }
  }

  /** The label a switch is to go to. */
  function SwitchLabel(cases: seq<Option<int>>, first: nat, brk: nat, v: int): nat {
    LabelOf(first, brk, St.Target(cases, v))
  }

  lemma SelectIsTarget(cases: seq<Option<int>>, first: nat, brk: nat, half: nat, unsigned: bool, v: int)
    requires half > 0 && DistinctCases(cases) && AllInType(cases, half, unsigned) && InType(v, half, unsigned) && OneSided(cases, half)
    ensures LabelOf(first, OtherLabel(cases, first, brk), Select(half, cases, DispatchOrder(cases), v)) == SwitchLabel(cases, first, brk, v)
  {
    hide OneSided, DispatchOrder, InType, OneSidedOrder, AllInType, InOrder, Select;
    var o := DispatchOrder(cases);
    OrderDispatches(cases, half, unsigned);
    OneSidedIs(cases, half, unsigned);
    SelectHas(half, unsigned, cases, o, v);
    var hit := St.FirstIndex(cases, Some(v), 0);
    if hit.Some? {
      assert hit.value in o;
      var k :| 0 <= k < |o| && o[k] == hit.value;
      SelectFinds(half, unsigned, cases, o, k);
    }
  }

  /** From this state the dispatch leaves to where its value belongs. */
  ghost predicate DispatchesAt<S>(m: St.Sem<S>, cases: seq<Option<int>>, first: nat, brk: nat, prog: Code, lo: nat, hi: nat, st: Mach<S>)
    requires lo <= |prog|
  {
    var l := SwitchLabel(cases, first, brk, st.r);
    HasLab(prog, l) && Leaves(m, prog, lo, hi, st, Pos(prog, l))
  }

  /** The dispatch is right for every value of the type. */
  ghost predicate Dispatches<S(!new)>(m: St.Sem<S>, cases: seq<Option<int>>, half: nat, unsigned: bool, first: nat, brk: nat, prog: Code, lo: nat, hi: nat)
    requires lo <= |prog|
  {
    forall st: Mach<S> | InType(st.r, half, unsigned) :: DispatchesAt(m, cases, first, brk, prog, lo, hi, st)
  }

  /** The labels lead out of the dispatch, and `brk` is none of the cases. */
  ghost predicate Outside(prog: Code, first: nat, brk: nat, n: nat, lo: nat, hi: nat) {
    && !(first <= brk < first + n)
    && (forall l: nat | (l == brk || first <= l < first + n) && HasLab(prog, l) :: !(lo <= Pos(prog, l) < hi))
  }

  function DispatchCode(half: nat, cases: seq<Option<int>>, first: nat, brk: nat, n: nat): Code {
    GenDispatch(half, cases, DispatchOrder(cases), first, OtherLabel(cases, first, brk), n).0
  }

  /** Where the dispatch leaves to, whatever the values. */
  lemma DispatchLeaves<S>(m: St.Sem<S>, half: nat, cases: seq<Option<int>>, first: nat, brk: nat, n: nat, prog: Code, p: nat, st: Mach<S>)
    requires half > 0 && Unique(prog) && HasLab(prog, brk) && CasesSet(prog, first, |cases|)
    requires At(prog, p, DispatchCode(half, cases, first, brk, n))
    requires Outside(prog, first, brk, |cases|, p, p + |DispatchCode(half, cases, first, brk, n)|)
    ensures var l := LabelOf(first, OtherLabel(cases, first, brk), Select(half, cases, DispatchOrder(cases), st.r));
            HasLab(prog, l) && Leaves(m, prog, p, p + |DispatchCode(half, cases, first, brk, n)|, st, Pos(prog, l))
  {
    hide Unique, At, GenDispatch, DispatchOrder, Inside, Go, HasLab, Pos;
    var other := OtherLabel(cases, first, brk);
    var hi := p + |DispatchCode(half, cases, first, brk, n)|;
    OrderReachable(cases, first, brk, prog);
    var k := DispatchSim(m, half, cases, DispatchOrder(cases), first, other, n, prog, p, st, p, hi);
    SelectIn(half, cases, DispatchOrder(cases), st.r);
    OrderIn(cases);
    var l := LabelOf(first, other, Select(half, cases, DispatchOrder(cases), st.r));
    assert l == brk || first <= l < first + |cases|;
  }

  lemma {:induction false} SelectIn(half: nat, cases: seq<Option<int>>, order: seq<nat>, v: int)
    requires half > 0
    ensures var x := Select(half, cases, order, v); x.Some? ==> x.value in order
    decreases |order|
  {
    hide Key;
    if order != [] {
      var mid := if |order| <= 2 then 0 else |order| / 2;
      SelectIn(half, cases, order[mid + 1..], v);
      SelectIn(half, cases, order[..mid], v);
    }
  }

  lemma OrderIn(cases: seq<Option<int>>)
    ensures forall i | i in DispatchOrder(cases) :: i < |cases|
  {
    hide OrderOf;
  }

  /**
   The dispatch is right for every value of the type exactly when there are at most
   two cases with values, or all of them lie on one side of `half`. Signed values
   always do.
   */
  lemma DispatchRightIff<S(!new)>(m: St.Sem<S>, half: nat, unsigned: bool, cases: seq<Option<int>>, first: nat, brk: nat, n: nat, prog: Code, p: nat, st0: Mach<S>)
    requires half > 0 && DistinctCases(cases) && AllInType(cases, half, unsigned)
    requires Unique(prog) && HasLab(prog, brk) && CasesSet(prog, first, |cases|)
    requires At(prog, p, DispatchCode(half, cases, first, brk, n))
    requires Outside(prog, first, brk, |cases|, p, p + |DispatchCode(half, cases, first, brk, n)|)
    ensures Dispatches(m, cases, half, unsigned, first, brk, prog, p, p + |DispatchCode(half, cases, first, brk, n)|) <==> OneSided(cases, half)
    ensures !unsigned ==> OneSided(cases, half)
  {
    hide Unique, At, DispatchCode, DispatchOrder, Leaves, OneSided, HasLab, Pos, InType, Outside, CasesSet, DistinctCases, Select, SwitchLabel, OtherLabel;
    var hi := p + |DispatchCode(half, cases, first, brk, n)|;
    AtBound(prog, p, DispatchCode(half, cases, first, brk, n));
    if OneSided(cases, half) {
      forall st: Mach<S> | InType(st.r, half, unsigned) ensures DispatchesAt(m, cases, first, brk, prog, p, hi, st) {
        DispatchLeaves(m, half, cases, first, brk, n, prog, p, st);
        SelectIsTarget(cases, first, brk, half, unsigned, st.r);
      }
    } else if Dispatches(m, cases, half, unsigned, first, brk, prog, p, hi) {
      var i, v := MissedCase(cases, half, unsigned);
      var st := st0.(r := v);
      DispatchLeaves(m, half, cases, first, brk, n, prog, p, st);
      assert DispatchesAt(m, cases, first, brk, prog, p, hi, st);
      assert !(first <= brk < first + |cases|) by { NotCase(prog, first, brk, |cases|, p, hi); }
      Elsewhere(cases, half, first, brk, v, i, prog);
      LeavesOnce(m, prog, p, hi, st, Pos(prog, SwitchLabel(cases, first, brk, v)),
                 Pos(prog, LabelOf(first, OtherLabel(cases, first, brk), Select(half, cases, DispatchOrder(cases), v))));
    }
    if !unsigned {
      SignedOneSided(cases, half);
    }
  }

  lemma SignedOneSided(cases: seq<Option<int>>, half: nat)
    requires AllInType(cases, half, false)
    ensures OneSided(cases, half)
  {
  }

  lemma AtBound(prog: Code, p: nat, code: Code)
    requires At(prog, p, code)
    ensures p + |code| <= |prog|
  {
  }

  lemma NotCase(prog: Code, first: nat, brk: nat, n: nat, lo: nat, hi: nat)
    requires Outside(prog, first, brk, n, lo, hi)
    ensures !(first <= brk < first + n)
  {
  }

  /** A case whose value is in the type but is not found. */
  lemma MissedCase(cases: seq<Option<int>>, half: nat, unsigned: bool) returns (i: nat, v: int)
    requires half > 0 && DistinctCases(cases) && AllInType(cases, half, unsigned) && !OneSided(cases, half)
    ensures i < |cases| && cases[i] == Some(v) && St.Target(cases, v) == Some(i) && InType(v, half, unsigned)
    ensures Select(half, cases, DispatchOrder(cases), v) != Some(i)
  {
    hide OneSided, DispatchOrder, InType, OneSidedOrder, AllInType, InOrder, Select;
    OrderDispatches(cases, half, unsigned);
    OneSidedIs(cases, half, unsigned);
    var k := SelectMisses(half, unsigned, cases, DispatchOrder(cases));
    ValuedAt(cases, DispatchOrder(cases), half, unsigned, k);
    i := DispatchOrder(cases)[k];
    v := CaseValue(cases, i);
  }

  lemma Elsewhere(cases: seq<Option<int>>, half: nat, first: nat, brk: nat, v: int, i: nat, prog: Code)
    requires half > 0 && i < |cases| && cases[i] == Some(v) && St.Target(cases, v) == Some(i) && !(first <= brk < first + |cases|)
    requires Select(half, cases, DispatchOrder(cases), v) != Some(i)
    requires var l := LabelOf(first, OtherLabel(cases, first, brk), Select(half, cases, DispatchOrder(cases), v)); HasLab(prog, l)
    requires HasLab(prog, SwitchLabel(cases, first, brk, v))
    ensures Pos(prog, SwitchLabel(cases, first, brk, v))
         != Pos(prog, LabelOf(first, OtherLabel(cases, first, brk), Select(half, cases, DispatchOrder(cases), v)))
  {
    hide Select, DispatchOrder, HasLab;
  }

  /** So with three unsigned cases the largest value misses its case. */
  lemma UnsignedMisses<S(!new)>(m: St.Sem<S>, half: nat, a: nat, b: nat, first: nat, brk: nat, n: nat, prog: Code, p: nat, st: Mach<S>)
    requires a < b < half && st.r == 2 * half - 1
    requires var cases := [Some(a as int), Some(b), Some(2 * half - 1)];
             && Unique(prog) && HasLab(prog, brk) && CasesSet(prog, first, 3)
             && At(prog, p, DispatchCode(half, cases, first, brk, n))
             && Outside(prog, first, brk, 3, p, p + |DispatchCode(half, cases, first, brk, n)|)
    ensures var cases := [Some(a as int), Some(b), Some(2 * half - 1)];
            var hi := p + |DispatchCode(half, cases, first, brk, n)|;
            && St.Target(cases, st.r) == Some(2) && Leaves(m, prog, p, hi, st, Pos(prog, brk))
            && !Dispatches(m, cases, half, true, first, brk, prog, p, hi)
  {
    var cases := [Some(a as int), Some(b), Some(2 * half - 1)];
    hide Unique, At, GenDispatch, Outside, CasesSet, Leaves, Dispatches, Select, HasLab, Pos, OrderOf, InsertCase;
    ThreeCases(cases, half);
    DispatchRightIff(m, half, true, cases, first, brk, n, prog, p, st);
    DispatchLeaves(m, half, cases, first, brk, n, prog, p, st);
  }

  lemma ThreeCases(cases: seq<Option<int>>, half: nat)
    requires |cases| == 3 && cases[0].Some? && cases[1].Some? && cases[2] == Some(2 * half - 1)
    requires 0 <= cases[0].value < cases[1].value < half
    ensures DistinctCases(cases) && AllInType(cases, half, true) && !OneSided(cases, half)
    ensures St.Target(cases, 2 * half - 1) == Some(2) && Select(half, cases, DispatchOrder(cases), 2 * half - 1) == None
    ensures forall first, brk :: OtherLabel(cases, first, brk) == brk
  {
    var v := 2 * half - 1;
    ThreeInOrder(cases);
    NoDefault(cases);
    hide OrderOf, InsertCase;
    var order: seq<nat> := [0, 1, 2];
    assert DispatchOrder(cases) == order;
    KeyOrder(v, cases[0].value, half, true);
    KeyOrder(v, cases[1].value, half, true);
    KeyOrder(cases[0].value, v, half, true);
    KeyOrder(cases[1].value, v, half, true);
    assert order[..1] == [0] && [0][1..] == [];
    assert Select(half, cases, [0], v) == Select(half, cases, [], v);
  }

  lemma NoDefault(cases: seq<Option<int>>)
    requires forall i | 0 <= i < |cases| :: cases[i].Some?
    ensures St.FirstIndex(cases, None, 0) == None
  {
  }

  lemma ThreeInOrder(cases: seq<Option<int>>)
    requires |cases| == 3 && cases[0].Some? && cases[1].Some? && cases[2].Some?
    requires cases[0].value < cases[1].value < cases[2].value
    ensures OrderOf(cases, 3) == [0, 1, 2] && St.Target(cases, cases[2].value) == Some(2)
  {
    assert OrderOf(cases, 1) == [0];
    assert [0][1..] == [] && InsertCase(cases, [], 1) == [1];
    assert OrderOf(cases, 2) == InsertCase(cases, [0], 1) == [0, 1];
    assert [0, 1][1..] == [1] && [1][1..] == [] && InsertCase(cases, [], 2) == [2] && InsertCase(cases, [1], 2) == [1, 2];
    assert OrderOf(cases, 3) == InsertCase(cases, [0, 1], 2) == [0, 1, 2];
    assert St.FirstIndex(cases, cases[2], 2) == Some(2) && St.FirstIndex(cases, cases[2], 1) == Some(2);
  }

  // ----- The head of a switch -----

  // Half the number of 64-bit patterns.
  const FIXNUM_HALF: nat := 0x8000_0000_0000_0000

  /**
   Case values are kept as 64-bit signed numbers (`Fixnum`), so among unsigned types
   only the narrower ones have values from `half` on.
   */
  predicate KeptUnsigned(ty: Types, e: nat) {
    ty.unsigned(e) && ty.half(e) < FIXNUM_HALF
  }

  /** The head of a switch evaluates its value and goes where the value selects. */
  lemma SwitchSim<S>(m: St.Sem<S>, ty: Types, comma: Option<nat>, value: nat, cases: seq<Option<int>>, first: nat, brk: nat, n: nat, prog: Code, p: nat, st: Mach<S>) returns (k: nat)
    requires ty.half(value) > 0 && DistinctCases(cases) && OneSided(cases, ty.half(value))
    requires AllInType(cases, ty.half(value), KeptUnsigned(ty, value))
    requires InType(m.peek(value, St.Effect(m, comma, st.s)), ty.half(value), KeptUnsigned(ty, value))
    requires Unique(prog) && HasLab(prog, brk) && CasesSet(prog, first, |cases|)
    requires At(prog, p, GenSwitchCond(ty, comma, value, cases, first, brk, n).0)
    ensures var s1 := St.Effect(m, comma, st.s);
            var target := St.Target(cases, m.peek(value, s1));
            && Go(m, prog, p, st, k).1.s == s1
            && (target.Some? ==> target.value < |cases| && Go(m, prog, p, st, k).0 == Pos(prog, first + target.value))
            && (target.None? ==> Go(m, prog, p, st, k).0 == Pos(prog, brk))
  {
    hide Unique, AllInType, InType, OneSided, At, GenDispatch, OrderOf, Inside, Select, KeptUnsigned, CasesSet, Reachable;
    var s1 := St.Effect(m, comma, st.s);
    var v := m.peek(value, s1);
    var half := ty.half(value);
    var other := OtherLabel(cases, first, brk);
    var order := DispatchOrder(cases);
    var (c, n1) := GenDispatch(half, cases, order, first, other, n);
    assert GenSwitchCond(ty, comma, value, cases, first, brk, n).0 == [Load(comma, value)] + (c + [Lab(n1)]);
    AtHead(prog, p, Load(comma, value), c + [Lab(n1)]);
    AtJoin(prog, p + 1, c, [Lab(n1)]);
    var st1 := Step(m, prog, p, st).1;
    GoOne(m, prog, p, st);
    OrderReachable(cases, first, brk, prog);
    var k1 := DispatchSim(m, half, cases, order, first, other, n, prog, p + 1, st1, p + 1, p + 1 + |c|);
    GoPlus(m, prog, p, st, 1, k1);
    k := 1 + k1;
    SelectIsTarget(cases, first, brk, half, KeptUnsigned(ty, value), v);
  }
}
