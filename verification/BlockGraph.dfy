/**
 Basic blocks as the cleanup pass sees them, and what they do when they run.
 A block is named by a number; `next` and `irs` are the fields of all blocks.
 */
module BlockGraph {
  import opened Options
  import opened Ir
  import opened Conditions

  datatype Instr = Op(id: nat) | Jmp(cond: CondKind, to: nat)

  datatype Graph = Graph(order: seq<nat>, next: map<nat, Option<nat>>, irs: map<nat, seq<Instr>>)

  function LastJump(irs: seq<Instr>): Option<Instr> {
    if irs != [] && irs[|irs| - 1].Jmp? then Some(irs[|irs| - 1]) else None
  }

  function LastAnyJump(irs: seq<Instr>): Option<Instr> {
    var j := LastJump(irs);
    if j.Some? && j.value.cond == ANY then j else None
  }

  predicate LastOnly(irs: seq<Instr>) {
    forall k | 0 <= k < |irs| - 1 :: irs[k].Op?
  }

  ghost predicate ValidBlock(g: Graph, b: nat) {
    && b in g.next && b in g.irs
    && LastOnly(g.irs[b])
    && (LastJump(g.irs[b]).Some? ==> LastJump(g.irs[b]).value.to in g.order)
  }

  predicate Linked(g: Graph, i: nat)
    requires i < |g.order|
  {
    g.order[i] in g.next && g.next[g.order[i]] == if i + 1 < |g.order| then Some(g.order[i + 1]) else None
  }

  predicate Distinct(order: seq<nat>) {
    forall i, j | 0 <= i < j < |order| :: order[i] != order[j]
  }

  /** The chain of `next` is the list order, and jumps stand last and lead into the list. */
  ghost predicate Valid(g: Graph) {
    && Distinct(g.order)
    && (forall i | 0 <= i < |g.order| :: Linked(g, i))
    && (forall b | b in g.order :: ValidBlock(g, b))
  }

  /** Two blocks, of which one loops and the other may be skipped to: in order. */
  lemma LoopIsValid(cond: CondKind, a: nat, b: nat)
    ensures Valid(Graph([0, 1], map[0 := Some(1), 1 := None], map[0 := [Op(a), Jmp(cond, 1)], 1 := [Op(b), Jmp(cond, 0)]]))
    ensures Valid(Graph([0], map[0 := None], map[0 := []]))
  {
    var g := Graph([0, 1], map[0 := Some(1), 1 := None], map[0 := [Op(a), Jmp(cond, 1)], 1 := [Op(b), Jmp(cond, 0)]]);
    assert Linked(g, 0) && Linked(g, 1);
    forall x | x in g.order ensures ValidBlock(g, x) {
      assert g.order[0] == 0 && g.order[1] == 1;
    }
  }

  // ----- Running -----

  /** What instructions do, and the flags a jump finds; the rest of the machine is abstract. */
  datatype Sem<!S> = Sem(exec: (nat, S) -> S, flags: S -> Flags)

  /** The machine's state and the instructions executed so far, jumps apart. */
  datatype World<S> = World(s: S, trace: seq<nat>)

  function ExecOps<S>(m: Sem<S>, irs: seq<Instr>, w: World<S>): World<S> {
    if irs == [] then w
    else
      match irs[0]
      case Op(id) => ExecOps(m, irs[1..], World(m.exec(id, w.s), w.trace + [id]))
      case Jmp(_, _) => ExecOps(m, irs[1..], w)
  }

  /** Runs a block: where control goes, `None` when the function ends, and the new world. */
  function Visit<S>(m: Sem<S>, g: Graph, b: nat, w: World<S>): (Option<nat>, World<S>)
    requires b in g.irs && b in g.next
  {
    var w1 := ExecOps(m, g.irs[b], w);
    if g.irs[b] == [] then (g.next[b], w1)
    else
      match g.irs[b][|g.irs[b]| - 1]
      case Op(_) => (g.next[b], w1)
      case Jmp(cond, to) => if Holds(cond, m.flags(w1.s)) then (Some(to), w1) else (g.next[b], w1)
  }

  ghost predicate At(g: Graph, at: Option<nat>) {
    at.Some? ==> at.value in g.order
  }

  lemma VisitStays<S>(m: Sem<S>, g: Graph, b: nat, w: World<S>)
    requires Valid(g) && b in g.order
    ensures b in g.irs && b in g.next && At(g, Visit(m, g, b, w).0)
  {
    assert ValidBlock(g, b);
    var i :| 0 <= i < |g.order| && g.order[i] == b;
    assert Linked(g, i);
    if i + 1 < |g.order| {
      assert g.order[i + 1] in g.order;
    }
  }

  /** `n` blocks on. */
  function Go<S>(m: Sem<S>, g: Graph, at: Option<nat>, w: World<S>, n: nat): (r: (Option<nat>, World<S>))
    requires Valid(g) && At(g, at)
    ensures At(g, r.0)
    decreases n
  {
    if n == 0 || at.None? then (at, w)
    else
      VisitStays(m, g, at.value, w);
      var (at1, w1) := Visit(m, g, at.value, w);
      Go(m, g, at1, w1, n - 1)
  }

  function Entry(g: Graph): Option<nat> {
    if g.order == [] then None else Some(g.order[0])
  }

  /** After `n` blocks of one and `k` of the other the machines agree, and both or neither are through. */
  ghost predicate Match<S>(m: Sem<S>, g: Graph, h: Graph, w: World<S>, n: nat, k: nat)
    requires Valid(g) && Valid(h)
  {
    var (x, w1) := Go(m, g, Entry(g), w, n);
    var (y, w2) := Go(m, h, Entry(h), w, k);
    w1 == w2 && (x.None? <==> y.None?)
  }

  ghost predicate Followed<S>(m: Sem<S>, g: Graph, h: Graph, w: World<S>, n: nat)
    requires Valid(g) && Valid(h)
  {
    exists k: nat :: Match(m, g, h, w, n, k)
  }

  ghost predicate Led<S>(m: Sem<S>, g: Graph, h: Graph, w: World<S>, k: nat)
    requires Valid(g) && Valid(h)
  {
    exists n: nat :: Match(m, g, h, w, n, k)
  }

  /**
   Every point of a run of one is matched by a point of a run of the other: the
   same instructions have been executed and the machine is in the same state. One
   run ends exactly when the other does.
   */
  ghost predicate Same<S(!new)>(m: Sem<S>, g: Graph, h: Graph)
    requires Valid(g) && Valid(h)
  {
    && (forall w, n: nat :: Followed(m, g, h, w, n))
    && (forall w, k: nat :: Led(m, g, h, w, k))
  }

  lemma SameTrans<S(!new)>(m: Sem<S>, a: Graph, b: Graph, c: Graph)
    requires Valid(a) && Valid(b) && Valid(c) && Same(m, a, b) && Same(m, b, c)
    ensures Same(m, a, c)
  {
    hide Go, Valid;
    forall w, n: nat ensures Followed(m, a, c, w, n) {
      assert Followed(m, a, b, w, n);
      var j: nat :| Match(m, a, b, w, n, j);
      assert Followed(m, b, c, w, j);
      var k: nat :| Match(m, b, c, w, j, k);
      assert Match(m, a, c, w, n, k);
    }
    forall w, k: nat ensures Led(m, a, c, w, k) {
      assert Led(m, b, c, w, k);
      var j: nat :| Match(m, b, c, w, j, k);
      assert Led(m, a, b, w, j);
      var n: nat :| Match(m, a, b, w, n, j);
      assert Match(m, a, c, w, n, k);
    }
  }

  lemma SameRefl<S(!new)>(m: Sem<S>, a: Graph)
    requires Valid(a)
    ensures Same(m, a, a)
  {
    hide Go, Valid;
    forall w, n: nat ensures Followed(m, a, a, w, n) && Led(m, a, a, w, n) {
      assert Match(m, a, a, w, n, n);
    }
  }

  // ----- One block bypassed -----

  /** The same place, or `bb` on the left and the block it leads to on the right. */
  predicate Rel(x: Option<nat>, y: Option<nat>, bb: nat, t: nat) {
    y == x || (x == Some(bb) && y == Some(t))
  }

  ghost predicate Alike<S>(m: Sem<S>, g: Graph, h: Graph, bb: nat, t: nat, b: nat, w: World<S>)
    requires ValidBlock(g, b) && ValidBlock(h, b)
  {
    Visit(m, g, b, w).1 == Visit(m, h, b, w).1 && Rel(Visit(m, g, b, w).0, Visit(m, h, b, w).0, bb, t)
  }

  ghost predicate Silent<S>(m: Sem<S>, g: Graph, bb: nat, t: nat, w: World<S>)
    requires ValidBlock(g, bb)
  {
    Visit(m, g, bb, w) == (Some(t), w)
  }

  /** `bb` silently leads to `t` in `g`; `h` may go to `t` at once. */
  ghost predicate Bypasses<S(!new)>(m: Sem<S>, g: Graph, h: Graph, bb: nat, t: nat) {
    && Valid(g) && Valid(h)
    && bb in g.order && t in h.order && bb != t
    && (forall b | b in g.order && b != bb :: b in h.order)
    && (forall b, w | b in g.order && b in h.order :: Alike(m, g, h, bb, t, b, w))
    && (forall w :: Silent(m, g, bb, t, w))
    && Rel(Entry(g), Entry(h), bb, t)
  }

  lemma GoStep<S>(m: Sem<S>, g: Graph, b: nat, w: World<S>, n: nat)
    requires Valid(g) && b in g.order && n > 0
    ensures b in g.irs && b in g.next && At(g, Visit(m, g, b, w).0)
    ensures Go(m, g, Some(b), w, n) == Go(m, g, Visit(m, g, b, w).0, Visit(m, g, b, w).1, n - 1)
  {
    VisitStays(m, g, b, w);
  }

  lemma {:induction false} Forward<S(!new)>(m: Sem<S>, g: Graph, h: Graph, bb: nat, t: nat, x: Option<nat>, y: Option<nat>, w: World<S>, n: nat) returns (k: nat)
    requires Bypasses(m, g, h, bb, t) && At(g, x) && At(h, y) && Rel(x, y, bb, t)
    ensures Go(m, g, x, w, n).1 == Go(m, h, y, w, k).1
    ensures Rel(Go(m, g, x, w, n).0, Go(m, h, y, w, k).0, bb, t)
    decreases n
  {
    hide Visit;
    if n == 0 || x.None? {
      k := 0;
    } else {
      var b := x.value;
      GoStep(m, g, b, w, n);
      var (x1, w1) := Visit(m, g, b, w);
      if x != y {
        assert Silent(m, g, bb, t, w);
        k := Forward(m, g, h, bb, t, x1, y, w1, n - 1);
      } else {
        assert Alike(m, g, h, bb, t, b, w);
        VisitStays(m, h, b, w);
        k := Forward(m, g, h, bb, t, x1, Visit(m, h, b, w).0, w1, n - 1);
        k := k + 1;
        GoStep(m, h, b, w, k);
      }
    }
  }

  lemma {:induction false} Backward<S(!new)>(m: Sem<S>, g: Graph, h: Graph, bb: nat, t: nat, x: Option<nat>, y: Option<nat>, w: World<S>, k: nat) returns (n: nat)
    requires Bypasses(m, g, h, bb, t) && At(g, x) && At(h, y) && Rel(x, y, bb, t)
    ensures Go(m, g, x, w, n).1 == Go(m, h, y, w, k).1
    ensures Rel(Go(m, g, x, w, n).0, Go(m, h, y, w, k).0, bb, t)
    decreases k, x != y
  {
    hide Visit;
    if k == 0 || y.None? {
      n := 0;
    } else {
      var b := x.value;
      VisitStays(m, g, b, w);
      var (x1, w1) := Visit(m, g, b, w);
      if x != y {
        assert Silent(m, g, bb, t, w);
        n := Backward(m, g, h, bb, t, x1, y, w1, k);
      } else {
        assert Alike(m, g, h, bb, t, b, w);
        GoStep(m, h, b, w, k);
        n := Backward(m, g, h, bb, t, x1, Visit(m, h, b, w).0, w1, k - 1);
      }
      n := n + 1;
      GoStep(m, g, b, w, n);
    }
  }

  /** Bypassing a silent block changes nothing that can be observed. */
  lemma BypassIsSame<S(!new)>(m: Sem<S>, g: Graph, h: Graph, bb: nat, t: nat)
    requires Bypasses(m, g, h, bb, t)
    ensures Same(m, g, h)
  {
    hide Go, Visit;
    forall w, n: nat ensures Followed(m, g, h, w, n) {
      var k := Forward(m, g, h, bb, t, Entry(g), Entry(h), w, n);
      assert Match(m, g, h, w, n, k);
    }
    forall w, k: nat ensures Led(m, g, h, w, k) {
      var n := Backward(m, g, h, bb, t, Entry(g), Entry(h), w, k);
      assert Match(m, g, h, w, n, k);
    }
  }
}
