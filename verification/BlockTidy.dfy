/** What the cleanup pass leaves: no block that it could have taken out or emptied. */
module BlockTidy {
  import opened Options
  import opened Ir
  import opened BlockGraph
  import opened BlockCleanup

  /** Ends with an unconditional jump. */
  predicate EndsInJump(irs: seq<Instr>) {
    irs != [] && irs[|irs| - 1].Jmp? && irs[|irs| - 1].cond == ANY
  }

  /** The block is not empty, and when it only jumps elsewhere then the one ahead of it can fall into it. */
  predicate TidyAt(g: Graph, k: nat)
    requires k < |g.order| && forall b | b in g.order :: b in g.irs
  {
    var b := g.order[k];
    && g.irs[b] != []
    && (|g.irs[b]| == 1 && EndsInJump(g.irs[b]) && g.irs[b][0].to != b && k > 0 ==> !EndsInJump(g.irs[g.order[k - 1]]))
  }

  lemma BlocksGiven(g: Graph)
    requires Valid(g)
    ensures forall b | b in g.order :: b in g.irs && b in g.next
  {
    forall b | b in g.order ensures b in g.irs && b in g.next {
      assert ValidBlock(g, b);
    }
  }

  /** Redirecting jumps past a later block leaves a tidy one tidy. */
  lemma RedirectedTidy(g: Graph, src: nat, dst: nat, k: nat)
    requires Valid(g) && k < |g.order| && g.order[k] != src
    requires (forall b | b in g.order :: b in g.irs) && TidyAt(g, k)
    ensures (forall b | b in g.order :: b in Redirected(g, src, dst).irs) && TidyAt(Redirected(g, src, dst), k)
  {
    var b := g.order[k];
    assert b in g.order;
    if k > 0 {
      assert g.order[k - 1] in g.order;
    }
  }

  /** A turn that removes nothing leaves its block tidy, and those ahead of it. */
  lemma StepTidy(g: Graph, i: nat, k: nat)
    requires Valid(g) && i + 1 < |g.order| && !Step(g, i).1 && k <= i
    requires forall b | b in g.order :: b in g.irs
    requires k < i ==> TidyAt(g, k)
    ensures Step(g, i).0.order == g.order && forall b | b in g.order :: b in Step(g, i).0.irs
    ensures TidyAt(Step(g, i).0, k)
  {
    hide Redirected;
    var bb := g.order[i];
    if JumpOnly(g, bb) {
      var to := g.irs[bb][0].to;
      if k < i {
        assert g.order[k] != bb;
        RedirectedTidy(g, bb, to, k);
        RedirectedShape(g, bb, to);
      } else {
        RedirectedShape(g, bb, to);
        if i > 0 {
          assert g.order[i - 1] in g.order;
        }
      }
    }
  }

  lemma RedirectedShape(g: Graph, src: nat, dst: nat)
    requires forall b | b in g.order :: b in g.irs
    ensures Redirected(g, src, dst).order == g.order && Redirected(g, src, dst).irs.Keys == g.irs.Keys
    ensures forall b | b in g.order :: Redirected(g, src, dst).irs[b] == if b == src then g.irs[b] else Aimed(g.irs[b], src, dst)
  {
  }

  /** A round that removes nothing leaves all blocks but the last tidy. */
  lemma {:induction false} SweepTidy(g: Graph, i: nat)
    requires Valid(g) && !Sweep(g, i).1
    requires forall b | b in g.order :: b in g.irs
    requires forall k | 0 <= k < i && k + 1 < |g.order| :: TidyAt(g, k)
    ensures Sweep(g, i).0.order == g.order && forall b | b in g.order :: b in Sweep(g, i).0.irs
    ensures forall k | 0 <= k < |g.order| - 1 :: TidyAt(Sweep(g, i).0, k)
    decreases |g.order| - i
  {
    hide Step, TidyAt;
    if i + 1 < |g.order| {
      var g1 := Step(g, i).0;
      StepValid(g, i);
      forall k | 0 <= k <= i ensures g1.order == g.order && (forall b | b in g.order :: b in g1.irs) && TidyAt(g1, k) {
        StepTidy(g, i, k);
      }
      assert g1.order == g.order && forall b | b in g.order :: b in g1.irs by { StepTidy(g, i, i); }
      SweepTidy(g1, i + 1);
    }
  }

  /** So are those of the result of the first loop. */
  lemma {:induction false} CleanTidy(g: Graph)
    requires Valid(g)
    ensures forall b | b in Clean(g).order :: b in Clean(g).irs
    ensures forall k | 0 <= k < |Clean(g).order| - 1 :: TidyAt(Clean(g), k)
    decreases |g.order|
  {
    hide Sweep, TidyAt;
    BlocksGiven(g);
    var (g1, again) := Sweep(g, 0);
    if again {
      CleanTidy(g1);
    } else {
      SweepTidy(g, 0);
    }
  }

  /** Behind the second loop no block but the last ends with a jump to the next one. */
  lemma {:induction false} DroppedTidy(g: Graph, i: nat)
    requires Valid(g)
    ensures Valid(DropJumps(g, i)) && DropJumps(g, i).order == g.order
    ensures forall b | b in g.order :: b in DropJumps(g, i).irs
    ensures forall k | i <= k < |g.order| - 1 ::
              var irs := DropJumps(g, i).irs[g.order[k]];
              !(EndsInJump(irs) && irs[|irs| - 1].to == g.order[k + 1])
    decreases |g.order| - i
  {
    BlocksGiven(DropJumps(g, i));
    if i + 1 < |g.order| {
      assert ValidBlock(g, g.order[i]) && Linked(g, i);
      if JumpsToNext(g, i) {
        PoppedValid(g, i);
        DroppedTidy(Popped(g, g.order[i]), i + 1);
      } else {
        DroppedTidy(g, i + 1);
      }
    }
  }
}
