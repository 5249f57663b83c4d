/**
 Iterative liveness (`analyze_reg_flow`). The `in_regs`, `out_regs` and
 `assigned_regs` vectors of a block are duplicate-free and only searched, so they
 are kept here as sets in arrays indexed by block.
 */
module Liveness {
  import opened Options
  import opened Ir

  /** Registers read in a block before the block assigns them. */
  function Exposed(vregs: seq<VReg>, irs: Block): set<nat> {
    if irs == [] then {}
    else
      var last := |irs| - 1;
      Exposed(vregs, irs[..last]) + (Uses(vregs, irs[last]) - Assigned(irs[..last]))
  }

  function Assigned(irs: Block): set<nat> {
    if irs == [] then {}
    else
      var last := |irs| - 1;
      Assigned(irs[..last]) + Named(irs[last].dst)
  }

  /** Registers live just before instruction `j`, given those live at the block's end. */
  function LiveBefore(vregs: seq<VReg>, irs: Block, j: nat, out: set<nat>): set<nat>
    requires j <= |irs|
    decreases |irs| - j
  {
    if j == |irs| then out
    else Uses(vregs, irs[j]) + (LiveBefore(vregs, irs, j + 1, out) - Named(irs[j].dst))
  }

  /** A register is live at `j` if the rest of the block exposes it or lets it through to `out`. */
  lemma {:induction false} LiveBeforeIsFlow(vregs: seq<VReg>, irs: Block, j: nat, out: set<nat>)
    requires j <= |irs|
    ensures LiveBefore(vregs, irs, j, out) == Exposed(vregs, irs[j..]) + (out - Assigned(irs[j..]))
    decreases |irs| - j
  {
    if j < |irs| {
      LiveBeforeIsFlow(vregs, irs, j + 1, out);
      assert irs[j..] == [irs[j]] + irs[j + 1..];
      Prepended(vregs, irs[j], irs[j + 1..]);
    }
  }

  lemma {:induction false} Prepended(vregs: seq<VReg>, ir: IR, rest: Block)
    ensures Exposed(vregs, [ir] + rest) == Uses(vregs, ir) + (Exposed(vregs, rest) - Named(ir.dst))
    ensures Assigned([ir] + rest) == Named(ir.dst) + Assigned(rest)
  {
    var all := [ir] + rest;
    if rest == [] {
      assert all[..0] == [];
      assert Exposed(vregs, all[..0]) == {} && Assigned(all[..0]) == {};
    } else {
      var last := |rest| - 1;
      Prepended(vregs, ir, rest[..last]);
      assert all[..|all| - 1] == [ir] + rest[..last];
    }
  }

  /** `inn` and `out` are closed under the dataflow equations. */
  ghost predicate Closed(p: Prog, inn: seq<set<nat>>, out: seq<set<nat>>) {
    && |inn| == |out| == |p.bbs|
    && (forall b | 0 <= b < |p.bbs| :: Exposed(p.vregs, p.bbs[b]) + (out[b] - Assigned(p.bbs[b])) <= inn[b])
    && (forall b, s | 0 <= b < |p.bbs| && s in Succs(p, b) && s < |p.bbs| :: inn[s] <= out[b])
  }

  /** The equations hold exactly, and nothing smaller is closed under them. */
  ghost predicate LeastFlow(p: Prog, inn: seq<set<nat>>, out: seq<set<nat>>) {
    && Closed(p, inn, out)
    && Sound(p, inn, out)
    && (forall xi, xo | Closed(p, xi, xo) :: Below(inn, xi) && Below(out, xo))
  }

  ghost predicate Below(a: seq<set<nat>>, b: seq<set<nat>>) {
    |a| == |b| && forall i | 0 <= i < |a| :: a[i] <= b[i]
  }

  lemma BelowTwice(a: seq<set<nat>>, b: seq<set<nat>>, c: seq<set<nat>>)
    requires Below(a, b) && Below(b, c)
    ensures Below(a, c)
    ensures a != c <==> a != b || b != c
  {
    if a == c {
      assert forall i | 0 <= i < |a| :: a[i] == b[i];
    }
  }

  /** `in` is what its equation gives, and `out` holds nothing no successor needs. */
  ghost predicate Sound(p: Prog, inn: seq<set<nat>>, out: seq<set<nat>>) {
    && |inn| == |out| == |p.bbs|
    && (forall b | 0 <= b < |p.bbs| :: inn[b] == Exposed(p.vregs, p.bbs[b]) + (out[b] - Assigned(p.bbs[b])))
    && (forall b, v | 0 <= b < |p.bbs| && v in out[b] :: exists s :: s in Succs(p, b) && s < |p.bbs| && v in inn[s])
  }

  /** What every step of the propagation keeps. */
  ghost predicate FlowInv(p: Prog, inn: seq<set<nat>>, out: seq<set<nat>>) {
    && Sound(p, inn, out)
    && (forall b | 0 <= b < |p.bbs| :: forall v | v in inn[b] :: v < |p.vregs|)
    && (forall xi, xo | Closed(p, xi, xo) :: Below(inn, xi) && Below(out, xo))
  }

  lemma {:induction false} ExposedExist(p: Prog, irs: Block)
    requires forall j | 0 <= j < |irs| :: WellFormedIR(p, irs[j])
    ensures forall v | v in Exposed(p.vregs, irs) :: v < |p.vregs|
  {
    if irs != [] {
      var last := |irs| - 1;
      ExposedExist(p, irs[..last]);
      assert WellFormedIR(p, irs[last]);
      assert Uses(p.vregs, irs[last]) <= Mentions(irs[last]);
    }
  }

  lemma InitialInv(p: Prog, inn: seq<set<nat>>, out: seq<set<nat>>)
    requires WellFormed(p)
    requires |inn| == |out| == |p.bbs|
    requires forall b | 0 <= b < |p.bbs| :: inn[b] == Exposed(p.vregs, p.bbs[b]) && out[b] == {}
    ensures FlowInv(p, inn, out)
  {
    forall b | 0 <= b < |p.bbs|
      ensures forall v | v in inn[b] :: v < |p.vregs|
    {
      ExposedExist(p, p.bbs[b]);
    }
  }

  lemma StepKeepsInv(p: Prog, inn: seq<set<nat>>, out: seq<set<nat>>, b: nat, s: nat,
                     inn': seq<set<nat>>, out': seq<set<nat>>)
    requires FlowInv(p, inn, out)
    requires b < |p.bbs| && s in Succs(p, b) && s < |p.bbs|
    requires inn' == inn[b := inn[b] + (inn[s] - Assigned(p.bbs[b]))]
    requires out' == out[b := out[b] + inn[s]]
    ensures FlowInv(p, inn', out')
  {
    forall c, v | 0 <= c < |p.bbs| && v in out'[c]
      ensures exists t :: t in Succs(p, c) && t < |p.bbs| && v in inn'[t]
    {
      if c == b && v in inn[s] {
        assert v in inn'[s];
      } else {
        var t :| t in Succs(p, c) && t < |p.bbs| && v in inn[t];
        assert v in inn'[t];
      }
    }
    forall xi, xo | Closed(p, xi, xo)
      ensures Below(inn', xi) && Below(out', xo)
    {
      assert Below(inn, xi) && Below(out, xo);
      assert inn[s] <= xi[s] <= xo[b];
    }
  }

  /** Pairs (block, register) not yet in the block's `in` set: the termination measure. */
  ghost function Missing(p: Prog, inn: seq<set<nat>>): set<(nat, nat)>
    requires |inn| == |p.bbs|
  {
    set b: nat, v: nat | b < |p.bbs| && v < |p.vregs| && v !in inn[b] :: (b, v)
  }

  lemma MissingShrinks(p: Prog, inn: seq<set<nat>>, inn': seq<set<nat>>)
    requires |inn| == |inn'| == |p.bbs| && Below(inn, inn')
    requires forall b | 0 <= b < |p.bbs| :: forall v | v in inn'[b] :: v < |p.vregs|
    ensures Missing(p, inn') <= Missing(p, inn)
    ensures inn != inn' ==> Missing(p, inn') < Missing(p, inn)
  {
    if inn != inn' {
      var b :| 0 <= b < |p.bbs| && inn[b] != inn'[b];
      var v :| v in inn'[b] && v !in inn[b];
      assert (b, v) in Missing(p, inn) && (b, v) !in Missing(p, inn');
    }
  }

  /** The first pass over one block: what it reads first and what it assigns. */
  method ScanBlock(vregs: seq<VReg>, irs: Block) returns (inRegs: set<nat>, defs: set<nat>)
    ensures inRegs == Exposed(vregs, irs) && defs == Assigned(irs)
  {
    inRegs, defs := {}, {};
    for j := 0 to |irs|
      invariant inRegs == Exposed(vregs, irs[..j]) && defs == Assigned(irs[..j])
    {
      var ir := irs[j];
      assert irs[..j + 1][..j] == irs[..j];
      var regs := [ir.opr1, ir.opr2];
      for k := 0 to 2
        invariant inRegs == Exposed(vregs, irs[..j]) +
                            ((set v | v in (if k > 0 then Named(ir.opr1) else {}) + (if k > 1 then Named(ir.opr2) else {})
                                      && !IsConst(vregs, v)) - defs)
      {
        var reg := regs[k];
        if reg.None? || IsConst(vregs, reg.value) {
          continue;
        }
        if reg.value !in inRegs && reg.value !in defs {
          inRegs := inRegs + {reg.value};
        }
      }
      if ir.dst.Some? && ir.dst.value !in defs {
        defs := defs + {ir.dst.value};
      }
    }
    assert irs[..|irs|] == irs;
  }

  /** Pushes what successor `s` needs into block `b`; tells whether `in_regs` of `b` grew. */
  method Propagate(inn: array<set<nat>>, out: array<set<nat>>, defs: set<nat>, b: nat, s: nat) returns (grew: bool)
    requires inn != out && b < inn.Length == out.Length && s < inn.Length
    modifies inn, out
    ensures inn[..] == old(inn[..])[b := old(inn[b]) + (old(inn[s]) - defs)]
    ensures out[..] == old(out[..])[b := old(out[b]) + old(inn[s])]
    ensures grew <==> inn[..] != old(inn[..])
  {
    ghost var in0, out0, needed := inn[b], out[b], inn[s];
    grew := false;
    var rest := inn[s];
    assert needed - rest == {};
    while rest != {}
      invariant rest <= needed
      invariant out[b] == out0 + (needed - rest)
      invariant inn[b] == in0 + ((needed - rest) - defs)
      invariant forall k | 0 <= k < inn.Length && k != b :: inn[k] == old(inn[k]) && out[k] == old(out[k])
      invariant grew <==> inn[b] != in0
      decreases rest
    {
      var reg :| reg in rest;
      rest := rest - {reg};
      assert needed - rest == (needed - (rest + {reg})) + {reg};
      if reg !in out[b] {
        out[b] := out[b] + {reg};
      }
      if reg in defs || reg in inn[b] {
        continue;
      }
      inn[b] := inn[b] + {reg};
      grew := true;
      assert reg !in in0 && reg in inn[b];
    }
    assert needed - rest == needed;
    assert old(inn[..])[b] == in0;
  }

  ghost predicate ClosedUpTo(p: Prog, inn: seq<set<nat>>, out: seq<set<nat>>, n: nat)
    requires |inn| == |out| == |p.bbs| && n <= |p.bbs|
  {
    forall b, s | 0 <= b < n && s in Succs(p, b) && s < |p.bbs| :: inn[s] <= out[b]
  }

  /** The fallthrough and the jump target of a block, as the pass looks them up. */
  function NextBlocks(p: Prog, b: nat): (next: seq<Option<nat>>)
    requires WellFormed(p) && b < |p.bbs|
    ensures |next| == 2
    ensures forall s | s in Succs(p, b) :: s < |p.bbs|
    ensures forall s :: s in Succs(p, b) <==> Some(s) == next[0] || Some(s) == next[1]
  {
    var fall := if b + 1 < |p.bbs| then Some(b + 1) else None;
    match LastJmp(p.bbs[b])
    case None => [fall, None]
    case Some(ir) =>
      assert WellFormedIR(p, p.bbs[b][|p.bbs[b]| - 1]);
      [if ir.cond == ANY then None else fall, Some(ir.target)]
  }

  /** Pulls into block `i` what its successors need. */
  method VisitBlock(p: Prog, inn: array<set<nat>>, out: array<set<nat>>, defs: set<nat>, i: nat) returns (grew: bool)
    requires inn != out && inn.Length == out.Length == |p.bbs| && i < |p.bbs|
    requires WellFormed(p) && FlowInv(p, inn[..], out[..]) && defs == Assigned(p.bbs[i])
    modifies inn, out
    ensures FlowInv(p, inn[..], out[..]) && Below(old(inn[..]), inn[..])
    ensures grew <==> inn[..] != old(inn[..])
    ensures forall b | 0 <= b < out.Length && b != i :: out[b] == old(out[b])
    ensures !grew ==> forall s | s in Succs(p, i) :: s < |p.bbs| && inn[s] <= out[i]
  {
    hide FlowInv;
    ghost var in0 := inn[..];
    grew := false;
    var next: seq<Option<nat>> := NextBlocks(p, i);
    for j := 0 to |next|
      invariant FlowInv(p, inn[..], out[..])
      invariant Below(in0, inn[..])
      invariant grew <==> inn[..] != in0
      invariant forall b | 0 <= b < out.Length && b != i :: out[b] == old(out[b])
      invariant !grew ==> forall k | 0 <= k < j && next[k].Some? :: inn[next[k].value] <= out[i]
    {
      if next[j].None? {
        continue;
      }
      var s := next[j].value;
      ghost var in1, out1 := inn[..], out[..];
      var more := Propagate(inn, out, defs, i, s);
      StepKeepsInv(p, in1, out1, i, s, inn[..], out[..]);
      BelowTwice(in0, in1, inn[..]);
      if more {
        grew := true;
      }
    }
    forall s | s in Succs(p, i)
      ensures s < |p.bbs| && (!grew ==> inn[s] <= out[i])
    {
      var k := if Some(s) == next[0] then 0 else 1;
      assert next[k] == Some(s);
    }
  }

  /** One pass over all blocks. */
  method Pass(p: Prog, inn: array<set<nat>>, out: array<set<nat>>, defs: array<set<nat>>) returns (cont: bool)
    requires inn != out && inn != defs && out != defs
    requires inn.Length == out.Length == defs.Length == |p.bbs|
    requires WellFormed(p) && FlowInv(p, inn[..], out[..])
    requires forall b | 0 <= b < |p.bbs| :: defs[b] == Assigned(p.bbs[b])
    modifies inn, out
    ensures FlowInv(p, inn[..], out[..])
    ensures cont ==> Missing(p, inn[..]) < Missing(p, old(inn[..]))
    ensures !cont ==> inn[..] == old(inn[..]) && Closed(p, inn[..], out[..])
  {
    ghost var in0 := inn[..];
    cont := false;
    for i := 0 to |p.bbs|
      invariant FlowInv(p, inn[..], out[..])
      invariant Below(in0, inn[..])
      invariant cont <==> inn[..] != in0
      invariant !cont ==> ClosedUpTo(p, inn[..], out[..], i)
    {
      hide FlowInv;
      ghost var in1, out1 := inn[..], out[..];
      var grew := VisitBlock(p, inn, out, defs[i], i);
      ClosedExtends(p, in1, out1, inn[..], out[..], i);
      BelowTwice(in0, in1, inn[..]);
      if grew {
        cont := true;
      }
    }
    MissingShrinks(p, in0, inn[..]);
  }

  lemma ClosedExtends(p: Prog, in1: seq<set<nat>>, out1: seq<set<nat>>, in2: seq<set<nat>>, out2: seq<set<nat>>, i: nat)
    requires |in1| == |out1| == |in2| == |out2| == |p.bbs| && i < |p.bbs|
    requires forall b | 0 <= b < |p.bbs| && b != i :: out2[b] == out1[b]
    ensures in1 == in2 && ClosedUpTo(p, in1, out1, i) && (forall s | s in Succs(p, i) :: s < |p.bbs| && in2[s] <= out2[i])
            ==> ClosedUpTo(p, in2, out2, i + 1)
  {
  }

  /**
   Liveness for the whole function: repeats passes over the blocks, pushing each
   successor's `in` set back, until a pass changes no `in` set.
   */
  method AnalyzeRegFlow(p: Prog) returns (inn: array<set<nat>>, out: array<set<nat>>)
    requires WellFormed(p)
    ensures fresh(inn) && fresh(out) && inn != out
    ensures LeastFlow(p, inn[..], out[..])
  {
    hide LeastFlow, FlowInv, Closed, Missing, Exposed, Assigned, WellFormed, Succs;
    var n := |p.bbs|;
    inn, out := new set<nat>[n](_ => {}), new set<nat>[n](_ => {});
    var defs := new set<nat>[n](_ => {});
    for i := 0 to n
      invariant forall b | 0 <= b < n :: out[b] == {}
      invariant forall b | 0 <= b < i :: inn[b] == Exposed(p.vregs, p.bbs[b]) && defs[b] == Assigned(p.bbs[b])
    {
      inn[i], defs[i] := ScanBlock(p.vregs, p.bbs[i]);
    }
    InitialInv(p, inn[..], out[..]);

    var cont := true;
    while cont
      invariant FlowInv(p, inn[..], out[..])
      invariant !cont ==> Closed(p, inn[..], out[..])
      invariant forall b | 0 <= b < n :: defs[b] == Assigned(p.bbs[b])
      decreases Missing(p, inn[..]), cont
    {
      cont := Pass(p, inn, out, defs);
    }
    LeastFromInv(p, inn[..], out[..]);
  }

  lemma LeastFromInv(p: Prog, inn: seq<set<nat>>, out: seq<set<nat>>)
    requires FlowInv(p, inn, out) && Closed(p, inn, out)
    ensures LeastFlow(p, inn, out)
  {
  }

  /**
   Liveness without equations: `path` runs along control flow from its first
   block to one that reads `v` first, and no block on the way assigns `v`.
   */
  ghost predicate NeedsAlong(p: Prog, path: seq<nat>, v: nat) {
    && path != []
    && (forall k | 0 <= k < |path| :: path[k] < |p.bbs|)
    && (forall k | 0 <= k < |path| - 1 :: path[k + 1] in Succs(p, path[k]) && v !in Assigned(p.bbs[path[k]]))
    && v in Exposed(p.vregs, p.bbs[path[|path| - 1]])
  }

  ghost predicate Needed(p: Prog, b: nat, v: nat) {
    exists path :: NeedsAlong(p, path, v) && path[0] == b
  }

  ghost function NeededAt(p: Prog, b: nat): set<nat> {
    set r: nat | r < |p.vregs| && Needed(p, b, r)
  }

  ghost predicate NeededNext(p: Prog, b: nat, v: nat)
    requires b < |p.bbs|
  {
    exists s :: s in Succs(p, b) && Needed(p, s, v)
  }

  ghost function NeededAfter(p: Prog, b: nat): set<nat>
    requires b < |p.bbs|
  {
    set r: nat | r < |p.vregs| && NeededNext(p, b, r)
  }

  lemma {:induction false} PathIsLive(p: Prog, inn: seq<set<nat>>, out: seq<set<nat>>, path: seq<nat>, v: nat)
    requires Closed(p, inn, out) && NeedsAlong(p, path, v)
    ensures v in inn[path[0]]
    decreases |path|
  {
    if |path| > 1 {
      var b, s, rest := path[0], path[1], path[1..];
      assert NeedsAlong(p, rest, v) by {
        assert forall k | 0 <= k < |rest| :: rest[k] == path[k + 1];
      }
      PathIsLive(p, inn, out, rest, v);
      assert v in inn[s] && s in Succs(p, b) && v in out[b];
    } else {
      assert path[0] == path[|path| - 1];
    }
  }

  lemma NeededExtends(p: Prog, b: nat, s: nat, v: nat)
    requires b < |p.bbs| && s in Succs(p, b) && v !in Assigned(p.bbs[b]) && Needed(p, s, v)
    ensures Needed(p, b, v)
  {
    hide Succs, Assigned, Exposed;
    var path :| NeedsAlong(p, path, v) && path[0] == s;
    var longer := [b] + path;
    assert forall k | 1 <= k < |longer| :: longer[k] == path[k - 1];
    assert NeedsAlong(p, longer, v) && longer[0] == b;
  }

  /** The analysis is exact: `in` of a block holds just the registers some path needs. */
  lemma LiveInIsNeeded(p: Prog, inn: seq<set<nat>>, out: seq<set<nat>>, b: nat, v: nat)
    requires WellFormed(p) && LeastFlow(p, inn, out) && b < |p.bbs|
    ensures v in inn[b] <==> Needed(p, b, v)
  {
    if Needed(p, b, v) {
      var path :| NeedsAlong(p, path, v) && path[0] == b;
      PathIsLive(p, inn, out, path, v);
    }
    LiveOnlyIfNeeded(p, inn, out, b);
  }

  lemma LiveOnlyIfNeeded(p: Prog, inn: seq<set<nat>>, out: seq<set<nat>>, b: nat)
    requires WellFormed(p) && LeastFlow(p, inn, out) && b < |p.bbs|
    ensures inn[b] <= NeededAt(p, b)
  {
    hide NeededAt, NeededAfter, Closed, WellFormed, Sound;
    var xi := seq(|p.bbs|, c requires 0 <= c < |p.bbs| => NeededAt(p, c));
    var xo := seq(|p.bbs|, c requires 0 <= c < |p.bbs| => NeededAfter(p, c));
    NeededIsClosed(p, xi, xo);
    assert Below(inn, xi);
  }

  lemma NeededIsClosed(p: Prog, xi: seq<set<nat>>, xo: seq<set<nat>>)
    requires WellFormed(p) && |xi| == |xo| == |p.bbs|
    requires forall c | 0 <= c < |p.bbs| :: xi[c] == NeededAt(p, c) && xo[c] == NeededAfter(p, c)
    ensures Closed(p, xi, xo)
  {
    forall c | 0 <= c < |p.bbs|
      ensures Exposed(p.vregs, p.bbs[c]) + (xo[c] - Assigned(p.bbs[c])) <= xi[c]
    {
      ExposedExist(p, p.bbs[c]);
      forall r | r in Exposed(p.vregs, p.bbs[c])
        ensures r in xi[c]
      {
        assert NeedsAlong(p, [c], r) && [c][0] == c;
      }
      forall r | r in xo[c] - Assigned(p.bbs[c])
        ensures r in xi[c]
      {
        var s :| s in Succs(p, c) && Needed(p, s, r);
        NeededExtends(p, c, s, r);
      }
    }
  }
}
