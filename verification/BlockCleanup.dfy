/**
 `remove_unnecessary_bb`: empty blocks and blocks that only jump are taken out of
 the list, jumps to them are redirected, and jumps to the next block dropped.
 */
module BlockCleanup {
  import opened Options
  import opened Ir
  import opened Conditions
  import opened BlockGraph

  // ----- What each change makes of the graph -----

  function Aimed(irs: seq<Instr>, src: nat, dst: nat): seq<Instr> {
    var j := LastJump(irs);
    if j.Some? && j.value.to == src then irs[|irs| - 1 := j.value.(to := dst)] else irs
  }

  function Redirected(g: Graph, src: nat, dst: nat): Graph {
    g.(irs := map b | b in g.irs :: if b in g.order && b != src then Aimed(g.irs[b], src, dst) else g.irs[b])
  }

  function Without(order: seq<nat>, i: nat): seq<nat>
    requires i < |order|
  {
    order[..i] + order[i + 1..]
  }

  function Removed(g: Graph, i: nat): Graph
    requires i < |g.order| && g.order[i] in g.next
  {
    g.(order := Without(g.order, i),
       next := if i > 0 then g.next[g.order[i - 1] := g.next[g.order[i]]] else g.next)
  }

  function Inverted(g: Graph, b: nat, to: nat): Graph
    requires b in g.irs && LastJump(g.irs[b]).Some? && LastJump(g.irs[b]).value.cond != ANY
  {
    var irs := g.irs[b];
    g.(irs := g.irs[b := irs[|irs| - 1 := Jmp(InvertCond(irs[|irs| - 1].cond), to)]])
  }

  /** Whether block `i` only jumps, and not to itself. */
  predicate JumpOnly(g: Graph, b: nat)
    requires b in g.irs
  {
    |g.irs[b]| == 1 && LastAnyJump(g.irs[b]).Some? && g.irs[b][0].to != b
  }

  /** One turn of the inner loop: the graph, and whether block `i` was removed. */
  function Step(g: Graph, i: nat): (r: (Graph, bool))
    requires Valid(g) && i + 1 < |g.order|
  {
    var bb := g.order[i];
    assert ValidBlock(g, bb) && Linked(g, i);
    if g.irs[bb] == [] then (Removed(Redirected(g, bb, g.order[i + 1]), i), true)
    else if JumpOnly(g, bb) then
      var to := g.irs[bb][0].to;
      var g1 := Redirected(g, bb, to);
      if i == 0 then (g1, false)
      else
        var pbb := g.order[i - 1];
        assert ValidBlock(g, pbb);
        match LastJump(g1.irs[pbb])
        case None => (g1, false)
        case Some(j) =>
          if j.cond == ANY then (Removed(g1, i), true)
          else if j.to != g.order[i + 1] then (g1, false)
          else (Removed(Inverted(g1, pbb, to), i), true)
    else (g, false)
  }

  // ----- Each change keeps the graph in order and its runs the same -----

  lemma AimedFacts(irs: seq<Instr>, src: nat, dst: nat)
    requires LastOnly(irs)
    ensures LastOnly(Aimed(irs, src, dst)) && |Aimed(irs, src, dst)| == |irs|
    ensures LastJump(Aimed(irs, src, dst)).Some? == LastJump(irs).Some?
    ensures LastJump(irs).Some? ==>
              var j, k := LastJump(irs).value, LastJump(Aimed(irs, src, dst)).value;
              k.cond == j.cond && k.to == (if j.to == src then dst else j.to)
  {
  }

  lemma {:induction false} JumpIsSilent<S>(m: Sem<S>, irs: seq<Instr>, last: Instr, w: World<S>)
    requires irs != [] && irs[|irs| - 1].Jmp? && last.Jmp?
    ensures ExecOps(m, irs[|irs| - 1 := last], w) == ExecOps(m, irs, w)
    ensures ExecOps(m, irs[..|irs| - 1], w) == ExecOps(m, irs, w)
  {
    var n := |irs| - 1;
    if n > 0 {
      assert irs[n := last][1..] == irs[1..][n - 1 := last];
      assert irs[..n][1..] == irs[1..][..n - 1];
      match irs[0]
      case Op(id) => JumpIsSilent(m, irs[1..], last, World(m.exec(id, w.s), w.trace + [id]));
      case Jmp(_, _) => JumpIsSilent(m, irs[1..], last, w);
    } else {
      assert irs[n := last] == [last] && irs[..n] == [] && irs == [irs[0]];
      assert [last][1..] == [] && irs[1..] == [];
    }
  }

  lemma RedirectedValid(g: Graph, src: nat, dst: nat)
    requires Valid(g) && src in g.order && dst in g.order
    ensures Valid(Redirected(g, src, dst))
  {
    var h := Redirected(g, src, dst);
    forall b | b in h.order ensures ValidBlock(h, b) {
      assert ValidBlock(g, b);
      AimedFacts(g.irs[b], src, dst);
    }
    forall i | 0 <= i < |h.order| ensures Linked(h, i) {
      assert Linked(g, i);
    }
  }

  /** `src` is a block that does nothing and goes to `dst`. */
  ghost predicate LeadsTo(g: Graph, src: nat, dst: nat) {
    && src in g.order && ValidBlock(g, src)
    && src != dst
    && ((g.irs[src] == [] && g.next[src] == Some(dst)) || g.irs[src] == [Jmp(ANY, dst)])
  }

  lemma LeadsSilently<S(!new)>(m: Sem<S>, g: Graph, src: nat, dst: nat, w: World<S>)
    requires LeadsTo(g, src, dst)
    ensures Silent(m, g, src, dst, w)
  {
    var irs := g.irs[src];
    if irs != [] {
      assert irs[0] == Jmp(ANY, dst) && irs[1..] == [];
      assert ExecOps(m, irs, w) == ExecOps(m, irs[1..], w);
    }
  }

  lemma RedirectedSame<S(!new)>(m: Sem<S>, g: Graph, src: nat, dst: nat)
    requires Valid(g) && LeadsTo(g, src, dst) && dst in g.order
    ensures Valid(Redirected(g, src, dst)) && Same(m, g, Redirected(g, src, dst))
    ensures LeadsTo(Redirected(g, src, dst), src, dst)
  {
    var h := Redirected(g, src, dst);
    RedirectedValid(g, src, dst);
    forall w ensures Silent(m, g, src, dst, w) {
      LeadsSilently(m, g, src, dst, w);
    }
    forall b, w | b in g.order && b in h.order ensures Alike(m, g, h, src, dst, b, w) {
      RedirectedAlike(m, g, src, dst, b, w);
    }
    BypassIsSame(m, g, h, src, dst);
  }

  lemma RedirectedAlike<S(!new)>(m: Sem<S>, g: Graph, src: nat, dst: nat, b: nat, w: World<S>)
    requires Valid(g) && Valid(Redirected(g, src, dst)) && b in g.order
    ensures Alike(m, g, Redirected(g, src, dst), src, dst, b, w)
  {
    var j := LastJump(g.irs[b]);
    AimedFacts(g.irs[b], src, dst);
    if j.Some? {
      JumpIsSilent(m, g.irs[b], j.value.(to := dst), w);
    }
  }

  /** No jump goes to `bb`, but for its own. */
  ghost predicate NoJumpTo(g: Graph, bb: nat) {
    forall b | b in g.order && b != bb && b in g.irs && LastJump(g.irs[b]).Some? :: LastJump(g.irs[b]).value.to != bb
  }

  lemma RedirectedNoJump(g: Graph, src: nat, dst: nat)
    requires Valid(g) && src != dst
    ensures NoJumpTo(Redirected(g, src, dst), src)
  {
    forall b | b in g.order && b != src
      ensures b in g.irs && LastJump(g.irs[b]).Some? ==> LastJump(Aimed(g.irs[b], src, dst)).value.to != src
    {
      assert ValidBlock(g, b);
      AimedFacts(g.irs[b], src, dst);
    }
  }

  /** The block before one that is removed does not run into it, or did so only to go where it now goes. */
  ghost predicate Unneeded(g: Graph, i: nat, dst: nat)
    requires Valid(g) && i + 1 < |g.order|
  {
    && LeadsTo(g, g.order[i], dst) && dst in g.order && NoJumpTo(g, g.order[i])
    && (i > 0 ==> g.order[i - 1] in g.irs && (LastAnyJump(g.irs[g.order[i - 1]]).Some? || dst == g.order[i + 1]))
    && (i == 0 ==> dst == g.order[i + 1])
  }

  lemma WithoutFacts(order: seq<nat>, i: nat)
    requires i < |order| && Distinct(order)
    ensures var o := Without(order, i);
            && |o| == |order| - 1 && Distinct(o)
            && (forall k | 0 <= k < |o| :: o[k] == if k < i then order[k] else order[k + 1])
            && (forall b :: b in o <==> b in order && b != order[i])
  {
    var o := Without(order, i);
    forall b | b in order && b != order[i] ensures b in o {
      var k :| 0 <= k < |order| && order[k] == b;
      assert o[if k < i then k else k - 1] == b;
    }
  }

  lemma RemovedValid(g: Graph, i: nat)
    requires Valid(g) && i + 1 < |g.order| && NoJumpTo(g, g.order[i])
    ensures g.order[i] in g.next && Valid(Removed(g, i))
  {
    assert Linked(g, i);
    var h := Removed(g, i);
    WithoutFacts(g.order, i);
    forall b | b in h.order ensures ValidBlock(h, b) {
      assert ValidBlock(g, b);
    }
    forall k | 0 <= k < |h.order| ensures Linked(h, k) {
      assert Linked(g, k) && Linked(g, k + 1);
    }
  }

  lemma RemovedSame<S(!new)>(m: Sem<S>, g: Graph, i: nat, dst: nat)
    requires Valid(g) && i + 1 < |g.order| && Unneeded(g, i, dst)
    ensures g.order[i] in g.next && Valid(Removed(g, i)) && Same(m, g, Removed(g, i))
  {
    var bb := g.order[i];
    RemovedValid(g, i);
    var h := Removed(g, i);
    WithoutFacts(g.order, i);
    forall w ensures Silent(m, g, bb, dst, w) {
      LeadsSilently(m, g, bb, dst, w);
    }
    forall b, w | b in g.order && b in h.order ensures Alike(m, g, h, bb, dst, b, w) {
      RemovedAlike(m, g, i, dst, b, w);
    }
    BypassIsSame(m, g, h, bb, dst);
  }

  lemma RemovedAlike<S(!new)>(m: Sem<S>, g: Graph, i: nat, dst: nat, b: nat, w: World<S>)
    requires Valid(g) && i + 1 < |g.order| && Unneeded(g, i, dst)
    requires g.order[i] in g.next && Valid(Removed(g, i)) && b in g.order && b != g.order[i]
    requires ValidBlock(g, b) && ValidBlock(Removed(g, i), b)
    ensures Alike(m, g, Removed(g, i), g.order[i], dst, b, w)
  {
    assert Linked(g, i);
    if i > 0 && b == g.order[i - 1] {
      assert Linked(g, i - 1);
    }
  }

  /** The conditional jump over a block that only jumps, inverted, takes that block's place. */
  lemma InvertedSame<S(!new)>(m: Sem<S>, g: Graph, i: nat, dst: nat)
    requires Valid(g) && 0 < i && i + 1 < |g.order|
    requires LeadsTo(g, g.order[i], dst) && dst in g.order && NoJumpTo(g, g.order[i])
    requires g.order[i - 1] in g.irs && LastJump(g.irs[g.order[i - 1]]).Some?
    requires LastJump(g.irs[g.order[i - 1]]).value.cond != ANY && LastJump(g.irs[g.order[i - 1]]).value.to == g.order[i + 1]
    ensures var h := Inverted(g, g.order[i - 1], dst);
            g.order[i] in h.next && Valid(Removed(h, i)) && Same(m, g, Removed(h, i))
  {
    var bb, pbb := g.order[i], g.order[i - 1];
    var g1 := Inverted(g, pbb, dst);
    InvertedValid(g, i, dst);
    RemovedValid(g1, i);
    var h := Removed(g1, i);
    WithoutFacts(g.order, i);
    forall w ensures Silent(m, g, bb, dst, w) {
      LeadsSilently(m, g, bb, dst, w);
    }
    forall b, w | b in g.order && b in h.order ensures Alike(m, g, h, bb, dst, b, w) {
      InvertedAlike(m, g, i, dst, b, w);
    }
    BypassIsSame(m, g, h, bb, dst);
  }

  lemma InvertedValid(g: Graph, i: nat, dst: nat)
    requires Valid(g) && 0 < i && i + 1 < |g.order|
    requires dst in g.order && dst != g.order[i] && NoJumpTo(g, g.order[i])
    requires g.order[i - 1] in g.irs && LastJump(g.irs[g.order[i - 1]]).Some? && LastJump(g.irs[g.order[i - 1]]).value.cond != ANY
    ensures Valid(Inverted(g, g.order[i - 1], dst)) && NoJumpTo(Inverted(g, g.order[i - 1], dst), g.order[i])
  {
    var h := Inverted(g, g.order[i - 1], dst);
    forall b | b in h.order ensures ValidBlock(h, b) {
      assert ValidBlock(g, b);
    }
    forall k | 0 <= k < |h.order| ensures Linked(h, k) {
      assert Linked(g, k);
    }
  }

  lemma InvertedAlike<S(!new)>(m: Sem<S>, g: Graph, i: nat, dst: nat, b: nat, w: World<S>)
    requires Valid(g) && 0 < i && i + 1 < |g.order|
    requires LeadsTo(g, g.order[i], dst) && dst in g.order && NoJumpTo(g, g.order[i])
    requires g.order[i - 1] in g.irs && LastJump(g.irs[g.order[i - 1]]).Some?
    requires LastJump(g.irs[g.order[i - 1]]).value.cond != ANY && LastJump(g.irs[g.order[i - 1]]).value.to == g.order[i + 1]
    requires var h := Inverted(g, g.order[i - 1], dst); g.order[i] in h.next && Valid(Removed(h, i))
    requires b in g.order && b != g.order[i]
    requires ValidBlock(g, b) && ValidBlock(Removed(Inverted(g, g.order[i - 1], dst), i), b)
    ensures Alike(m, g, Removed(Inverted(g, g.order[i - 1], dst), i), g.order[i], dst, b, w)
  {
    if b == g.order[i - 1] {
      InvertedHere(m, g, i, dst, w);
    } else {
      InvertedThere(g, i, dst, b);
    }
  }

  /** Another block is as it was. */
  lemma InvertedThere(g: Graph, i: nat, dst: nat, b: nat)
    requires 0 < i < |g.order| && g.order[i - 1] in g.irs && LastJump(g.irs[g.order[i - 1]]).Some?
    requires LastJump(g.irs[g.order[i - 1]]).value.cond != ANY && b != g.order[i - 1] && b in g.irs && b in g.next
    requires var h := Inverted(g, g.order[i - 1], dst); g.order[i] in h.next
    ensures var r := Removed(Inverted(g, g.order[i - 1], dst), i); b in r.irs && b in r.next && r.irs[b] == g.irs[b] && r.next[b] == g.next[b]
  {
  }

  /** The block whose jump is inverted. */
  lemma InvertedHere<S(!new)>(m: Sem<S>, g: Graph, i: nat, dst: nat, w: World<S>)
    requires Valid(g) && 0 < i && i + 1 < |g.order|
    requires LeadsTo(g, g.order[i], dst) && dst in g.order && NoJumpTo(g, g.order[i])
    requires g.order[i - 1] in g.irs && LastJump(g.irs[g.order[i - 1]]).Some?
    requires LastJump(g.irs[g.order[i - 1]]).value.cond != ANY && LastJump(g.irs[g.order[i - 1]]).value.to == g.order[i + 1]
    requires var h := Inverted(g, g.order[i - 1], dst); g.order[i] in h.next && Valid(Removed(h, i))
    requires var b := g.order[i - 1]; ValidBlock(g, b) && ValidBlock(Removed(Inverted(g, b, dst), i), b)
    ensures Alike(m, g, Removed(Inverted(g, g.order[i - 1], dst), i), g.order[i], dst, g.order[i - 1], w)
  {
    assert Linked(g, i) && Linked(g, i - 1);
    var irs := g.irs[g.order[i - 1]];
    var j := irs[|irs| - 1];
    JumpIsSilent(m, irs, Jmp(InvertCond(j.cond), dst), w);
    InvertCondNegates(j.cond, m.flags(ExecOps(m, irs, w).s));
    hide Valid, LeadsTo, NoJumpTo, InvertCond, ExecOps, Holds;
  }

  // ----- The whole pass -----

  /** A turn keeps the graph in order and its runs the same. */
  lemma StepValid(g: Graph, i: nat)
    requires Valid(g) && i + 1 < |g.order|
    ensures var (h, removed) := Step(g, i);
            Valid(h) && |h.order| == |g.order| - (if removed then 1 else 0)
  {
    hide Redirected, Removed, Inverted;
    var bb := g.order[i];
    assert ValidBlock(g, bb) && Linked(g, i);
    if g.irs[bb] == [] || JumpOnly(g, bb) {
      var dst := if g.irs[bb] == [] then g.order[i + 1] else g.irs[bb][0].to;
      assert dst != bb && dst in g.order;
      RedirectedValid(g, bb, dst);
      RedirectedNoJump(g, bb, dst);
      RedirectedFacts(g, bb, dst);
      var g1 := Redirected(g, bb, dst);
      RemovedShorter(g1, i);
      assert i > 0 ==> ValidBlock(g, g.order[i - 1]);
      if i > 0 && StepInverts(g, i) {
        InvertedShorter(g1, i, dst);
      }
    }
  }

  lemma InvertedShorter(g: Graph, i: nat, dst: nat)
    requires Valid(g) && 0 < i && i + 1 < |g.order|
    requires dst in g.order && dst != g.order[i] && NoJumpTo(g, g.order[i])
    requires g.order[i - 1] in g.irs && LastJump(g.irs[g.order[i - 1]]).Some? && LastJump(g.irs[g.order[i - 1]]).value.cond != ANY
    ensures var h := Inverted(g, g.order[i - 1], dst);
            h.order == g.order && g.order[i] in h.next && Valid(Removed(h, i)) && |Removed(h, i).order| == |g.order| - 1
  {
    InvertedValid(g, i, dst);
    RemovedShorter(Inverted(g, g.order[i - 1], dst), i);
  }

  /** Whether a turn inverts the jump before the block. */
  predicate StepInverts(g: Graph, i: nat)
    requires Valid(g) && 0 < i && i + 1 < |g.order|
  {
    assert ValidBlock(g, g.order[i]) && ValidBlock(g, g.order[i - 1]);
    && JumpOnly(g, g.order[i])
    && var j := LastJump(Redirected(g, g.order[i], g.irs[g.order[i]][0].to).irs[g.order[i - 1]]);
       j.Some? && j.value.cond != ANY && j.value.to == g.order[i + 1]
  }

  lemma RedirectedFacts(g: Graph, src: nat, dst: nat)
    requires Valid(g)
    ensures var h := Redirected(g, src, dst);
            && h.order == g.order && h.next == g.next && h.irs.Keys == g.irs.Keys
            && (src in g.irs ==> h.irs[src] == g.irs[src])
  {
  }

  lemma RemovedShorter(g: Graph, i: nat)
    requires Valid(g) && i + 1 < |g.order| && NoJumpTo(g, g.order[i])
    ensures g.order[i] in g.next && Valid(Removed(g, i)) && |Removed(g, i).order| == |g.order| - 1
  {
    RemovedValid(g, i);
  }

  lemma StepSame<S(!new)>(m: Sem<S>, g: Graph, i: nat)
    requires Valid(g) && i + 1 < |g.order|
    ensures Valid(Step(g, i).0) && Same(m, g, Step(g, i).0)
  {
    hide Redirected, Removed, Inverted, Same;
    StepValid(g, i);
    var bb := g.order[i];
    assert ValidBlock(g, bb) && Linked(g, i);
    if g.irs[bb] == [] || JumpOnly(g, bb) {
      var dst := if g.irs[bb] == [] then g.order[i + 1] else g.irs[bb][0].to;
      assert dst != bb && dst in g.order;
      assert LeadsTo(g, bb, dst);
      var g1 := Redirected(g, bb, dst);
      RedirectedSame(m, g, bb, dst);
      RedirectedNoJump(g, bb, dst);
      RedirectedFacts(g, bb, dst);
      var h := Step(g, i).0;
      assert i > 0 ==> ValidBlock(g, g.order[i - 1]);
      if h != g1 {
        if i > 0 && StepInverts(g, i) {
          InvertedSame(m, g1, i, dst);
        } else {
          RemovedSame(m, g1, i, dst);
        }
        SameTrans(m, g, g1, h);
      }
    } else {
      SameRefl(m, g);
    }
  }

  /** The inner loop from block `i` on: the graph, and whether a block was removed. */
  function Sweep(g: Graph, i: nat): (r: (Graph, bool))
    requires Valid(g)
    ensures Valid(r.0) && (if r.1 then |r.0.order| < |g.order| else |r.0.order| == |g.order|)
    decreases |g.order| - i
  {
    if i + 1 >= |g.order| then (g, false)
    else
      var (g1, removed) := Step(g, i);
      StepValid(g, i);
      var (g2, again) := Sweep(g1, if removed then i else i + 1);
      (g2, removed || again)
  }

  lemma {:induction false} SweepSame<S(!new)>(m: Sem<S>, g: Graph, i: nat)
    requires Valid(g)
    ensures Same(m, g, Sweep(g, i).0)
    decreases |g.order| - i
  {
    hide Same, Step;
    if i + 1 >= |g.order| {
      SameRefl(m, g);
    } else {
      var (g1, removed) := Step(g, i);
      StepValid(g, i);
      StepSame(m, g, i);
      var i' := if removed then i else i + 1;
      SweepSame(m, g1, i');
      SameTrans(m, g, g1, Sweep(g1, i').0);
    }
  }

  /** The outer loop: every round but the last removes a block. */
  function Clean(g: Graph): (r: Graph)
    requires Valid(g)
    ensures Valid(r)
    decreases |g.order|
  {
    var (g1, again) := Sweep(g, 0);
    if again then Clean(g1) else g1
  }

  lemma {:induction false} CleanSame<S(!new)>(m: Sem<S>, g: Graph)
    requires Valid(g)
    ensures Same(m, g, Clean(g))
    decreases |g.order|
  {
    hide Same, Sweep;
    var (g1, again) := Sweep(g, 0);
    SweepSame(m, g, 0);
    if again {
      CleanSame(m, g1);
      SameTrans(m, g, g1, Clean(g1));
    }
  }

  /** Whether block `i` ends with a jump to the block behind it. */
  predicate JumpsToNext(g: Graph, i: nat)
    requires i < |g.order| && g.order[i] in g.irs && g.order[i] in g.next
  {
    var j := LastAnyJump(g.irs[g.order[i]]);
    j.Some? && Some(j.value.to) == g.next[g.order[i]]
  }

  function Popped(g: Graph, b: nat): Graph
    requires b in g.irs && g.irs[b] != []
  {
    g.(irs := g.irs[b := g.irs[b][..|g.irs[b]| - 1]])
  }

  lemma PoppedValid(g: Graph, i: nat)
    requires Valid(g) && i + 1 < |g.order|
    requires g.order[i] in g.irs && g.irs[g.order[i]] != []
    ensures Valid(Popped(g, g.order[i]))
  {
    var h := Popped(g, g.order[i]);
    forall b | b in h.order ensures ValidBlock(h, b) {
      assert ValidBlock(g, b);
    }
    forall k | 0 <= k < |h.order| ensures Linked(h, k) {
      assert Linked(g, k);
    }
  }

  /** The second loop: jumps to the next block are dropped. */
  function DropJumps(g: Graph, i: nat): (r: Graph)
    requires Valid(g)
    ensures Valid(r) && r.order == g.order && r.next == g.next
    ensures r.irs.Keys == g.irs.Keys && forall k | 0 <= k < i && k < |g.order| && g.order[k] in g.irs :: r.irs[g.order[k]] == g.irs[g.order[k]]
    decreases |g.order| - i
  {
    if i + 1 >= |g.order| then g
    else
      assert ValidBlock(g, g.order[i]);
      if JumpsToNext(g, i) then
        PoppedValid(g, i);
        DropJumps(Popped(g, g.order[i]), i + 1)
      else DropJumps(g, i + 1)
  }

  lemma PoppedSame<S(!new)>(m: Sem<S>, g: Graph, i: nat)
    requires Valid(g) && i + 1 < |g.order|
    requires g.order[i] in g.irs && g.order[i] in g.next && JumpsToNext(g, i)
    ensures Valid(Popped(g, g.order[i])) && Same(m, g, Popped(g, g.order[i]))
  {
    var b := g.order[i];
    var h := Popped(g, b);
    PoppedValid(g, i);
    forall x: Option<nat>, w, n: nat | At(g, x) ensures Go(m, g, x, w, n) == Go(m, h, x, w, n) {
      PoppedGo(m, g, i, x, w, n);
    }
    forall w, n: nat ensures Followed(m, g, h, w, n) && Led(m, g, h, w, n) {
      assert Match(m, g, h, w, n, n);
    }
  }

  lemma {:induction false} PoppedGo<S>(m: Sem<S>, g: Graph, i: nat, x: Option<nat>, w: World<S>, n: nat)
    requires Valid(g) && i + 1 < |g.order| && At(g, x)
    requires g.order[i] in g.irs && g.order[i] in g.next && JumpsToNext(g, i)
    ensures Valid(Popped(g, g.order[i])) && Go(m, g, x, w, n) == Go(m, Popped(g, g.order[i]), x, w, n)
    decreases n
  {
    PoppedValid(g, i);
    if n > 0 && x.Some? {
      var h := Popped(g, g.order[i]);
      VisitStays(m, g, x.value, w);
      if x.value == g.order[i] {
        var irs := g.irs[x.value];
        assert ValidBlock(g, x.value);
        JumpIsSilent(m, irs, irs[|irs| - 1], w);
      }
      assert Visit(m, g, x.value, w) == Visit(m, h, x.value, w);
      var (x1, w1) := Visit(m, g, x.value, w);
      PoppedGo(m, g, i, x1, w1, n - 1);
    }
  }

  lemma {:induction false} DropJumpsSame<S(!new)>(m: Sem<S>, g: Graph, i: nat)
    requires Valid(g)
    ensures Same(m, g, DropJumps(g, i))
    decreases |g.order| - i
  {
    hide Same, Popped;
    if i + 1 >= |g.order| {
      SameRefl(m, g);
    } else {
      assert ValidBlock(g, g.order[i]);
      if JumpsToNext(g, i) {
        PoppedSame(m, g, i);
        var g1 := Popped(g, g.order[i]);
        DropSize(g, g.order[i]);
        DropJumpsSame(m, g1, i + 1);
        SameTrans(m, g, g1, DropJumps(g1, i + 1));
      } else {
        DropJumpsSame(m, g, i + 1);
      }
    }
  }

  lemma DropSize(g: Graph, b: nat)
    requires b in g.irs && g.irs[b] != []
    ensures Popped(g, b).order == g.order
  {
  }

  /** The pass keeps the chain and the jumps in order, and changes nothing that can be observed of any run. */
  lemma CleanupSame<S(!new)>(m: Sem<S>, g: Graph)
    requires Valid(g)
    ensures Valid(DropJumps(Clean(g), 0)) && Same(m, g, DropJumps(Clean(g), 0))
  {
    hide Same, Clean, DropJumps;
    CleanSame(m, g);
    DropJumpsSame(m, Clean(g), 0);
    SameTrans(m, g, Clean(g), DropJumps(Clean(g), 0));
  }

  // ----- The pass as it is written -----

  /** With the first `j` blocks of the list redirected. */
  function Partly(g: Graph, src: nat, dst: nat, j: nat): Graph
    requires j <= |g.order|
  {
    g.(irs := map b | b in g.irs :: if b in g.order[..j] && b != src then Aimed(g.irs[b], src, dst) else g.irs[b])
  }

  lemma DistinctBlocks(g: Graph)
    requires Valid(g)
    ensures Distinct(g.order) && (forall k | 0 <= k < |g.order| :: g.order[k] in g.irs)
  {
    forall k | 0 <= k < |g.order| ensures g.order[k] in g.irs {
      GivenBlock(g, g.order[k]);
    }
  }

  lemma PartlyNext(g: Graph, src: nat, dst: nat, j: nat)
    requires j < |g.order| && Distinct(g.order) && g.order[j] in g.irs
    ensures var b, h := g.order[j], Partly(g, src, dst, j).irs;
            && b in h && h[b] == g.irs[b]
            && Partly(g, src, dst, j + 1).irs == h[b := if b != src then Aimed(g.irs[b], src, dst) else g.irs[b]]
  {
    hide Aimed;
    assert g.order[..j + 1] == g.order[..j] + [g.order[j]];
    assert g.order[j] !in g.order[..j];
  }

  lemma PartlyAll(g: Graph, src: nat, dst: nat)
    ensures Partly(g, src, dst, |g.order|) == Redirected(g, src, dst)
  {
    assert g.order[..|g.order|] == g.order;
  }

  /** The blocks of a function: their list, and the fields of each. */
  class BBContainer {
    var bbs: seq<nat>
    var next: map<nat, Option<nat>>
    var irs: map<nat, seq<Instr>>

    constructor (g: Graph)
      ensures Value() == g
    {
      bbs, next, irs := g.order, g.next, g.irs;
    }

    ghost function Value(): Graph
      reads this
    {
      Graph(bbs, next, irs)
    }

    method ReplaceJmpDestination(src: nat, dst: nat)
      requires Valid(Value())
      modifies this`irs
      ensures Value() == Redirected(old(Value()), src, dst)
    {
      hide Valid, Aimed;
      ghost var g := Value();
      DistinctBlocks(g);
      for j := 0 to |bbs|
        invariant irs == Partly(g, src, dst, j).irs
      {
        var bb := bbs[j];
        PartlyNext(g, src, dst, j);
        if bb != src {
          var r := AimJump(irs[bb], src, dst);
          irs := irs[bb := r];
        } else {
          assert irs[bb := irs[bb]] == irs;
        }
      }
      PartlyAll(g, src, dst);
    }

    /** The jump that ends a block, if it goes to `src`. */
    static method AimJump(block: seq<Instr>, src: nat, dst: nat) returns (r: seq<Instr>)
      ensures r == Aimed(block, src, dst)
    {
      r := block;
      var ir := LastJump(block);
      if ir.Some? && ir.value.to == src {
        r := block[|block| - 1 := ir.value.(to := dst)];
      }
    }

    /** `vec_remove_at`, and the `next` of the block before. */
    method Remove(i: nat)
      requires i < |bbs| && bbs[i] in next
      modifies this`bbs, this`next
      ensures Value() == Removed(old(Value()), i)
    {
      if i > 0 {
        next := next[bbs[i - 1] := next[bbs[i]]];
      }
      bbs := bbs[..i] + bbs[i + 1..];
    }

    /** The body of the inner loop; returns whether the block was removed. */
    method Turn(i: nat) returns (removed: bool)
      requires Valid(Value()) && i + 1 < |bbs|
      modifies this
      ensures (Value(), removed) == Step(old(Value()), i)
      ensures Valid(Value()) && |bbs| == |old(bbs)| - (if removed then 1 else 0)
    {
      hide Redirected, Removed;
      ghost var g := Value();
      StepValid(g, i);
      var bb := bbs[i];
      assert ValidBlock(g, bb) && Linked(g, i) && Linked(g, i + 1);
      assert i > 0 ==> ValidBlock(g, bbs[i - 1]);
      if irs[bb] == [] {
        ghost var to := bbs[i + 1];
        RedirectedFacts(g, bb, to);
        ReplaceJmpDestination(bb, next[bb].value);
      } else if |irs[bb]| == 1 && LastAnyJump(irs[bb]).Some? && irs[bb][0].to != bb {
        var to := irs[bb][0].to;
        RedirectedFacts(g, bb, to);
        ReplaceJmpDestination(bb, to);
        if i == 0 {
          return false;
        }
        var pbb := bbs[i - 1];
        var ir0 := LastJump(irs[pbb]);
        if ir0.None? {
          return false;
        }
        if ir0.value.cond != ANY {
          if next[bb] != Some(ir0.value.to) {
            return false;
          }
          irs := irs[pbb := irs[pbb][|irs[pbb]| - 1 := Jmp(InvertCond(ir0.value.cond), to)]];
        }
      } else {
        return false;
      }
      Remove(i);
      return true;
    }

    /** `remove_unnecessary_bb` */
    method RemoveUnnecessaryBb()
      requires Valid(Value())
      modifies this
      ensures Valid(Value()) && Value() == DropJumps(Clean(old(Value())), 0)
    {
      hide Step, Valid;
      ghost var g0 := Value();
      var again := true;
      while again
        invariant Valid(Value())
        invariant Clean(g0) == if again then Clean(Value()) else Value()
        decreases |bbs|, again
      {
        ghost var g := Value();
        again := false;
        var i := 0;
        while i + 1 < |bbs|
          invariant Valid(Value()) && |bbs| <= |g.order| && (again ==> |bbs| < |g.order|)
          invariant var r := Sweep(Value(), i); Sweep(g, 0) == (r.0, r.1 || again)
          decreases |bbs| - i
        {
          var removed := Turn(i);
          if removed {
            again := true;
          } else {
            i := i + 1;
          }
        }
      }
      ghost var g1 := Value();
      var i := 0;
      while i + 1 < |bbs|
        invariant Valid(Value()) && DropJumps(g1, 0) == DropJumps(Value(), i)
        decreases |bbs| - i
      {
        var bb := bbs[i];
        GivenBlock(Value(), bb);
        var ir := LastAnyJump(irs[bb]);
        if ir.Some? && Some(ir.value.to) == next[bb] {
          PoppedValid(Value(), i);
          irs := irs[bb := irs[bb][..|irs[bb]| - 1]];
        }
        i := i + 1;
      }
    }
  }

  lemma GivenBlock(g: Graph, b: nat)
    requires Valid(g) && b in g.order
    ensures ValidBlock(g, b)
  {
  }
}
