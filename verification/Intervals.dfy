/**
 Live intervals (`check_live_interval`): one interval per virtual register that
 spans every linear position where the register is mentioned or crosses a block
 boundary, and the sort of the intervals by start.
 */
module Intervals {
  import opened Options
  import opened Ir
  import opened Liveness
  import opened Orders
  import Qsort

  datatype LiState = NORMAL | SPILL | CONST

  /** `start` and `end` are -1 for a register that never occurs; `phys` is -1 until assigned. */
  datatype LiveInterval = LiveInterval(virt: nat, start: int, end: int, state: LiState, phys: int)

  /** Register `v` is touched at linear position `pos`, for every `v` in `regs`. */
  datatype Event = Event(pos: nat, regs: set<nat>)

  /** What the walk over block `b` touches: `in` at its head, each instruction, `out` at its end. */
  function BlockEvents(p: Prog, b: nat, inn: set<nat>, out: set<nat>): seq<Event>
    requires b < |p.bbs|
  {
    InEvents(p, b, inn, |p.bbs[b]|) + [Event(StartOf(p.bbs, b) + |p.bbs[b]|, out)]
  }

  function InEvents(p: Prog, b: nat, inn: set<nat>, n: nat): seq<Event>
    requires b < |p.bbs| && n <= |p.bbs[b]|
  {
    [Event(StartOf(p.bbs, b), inn)] + seq(n, j requires 0 <= j < n => Event(StartOf(p.bbs, b) + j, Mentions(p.bbs[b][j])))
  }

  function Events(p: Prog, inn: seq<set<nat>>, out: seq<set<nat>>, n: nat): seq<Event>
    requires n <= |p.bbs| == |inn| == |out|
  {
    if n == 0 then [] else Events(p, inn, out, n - 1) + BlockEvents(p, n - 1, inn[n - 1], out[n - 1])
  }

  /** Widens an interval to take in position `n`. */
  function Extend(li: LiveInterval, n: nat): LiveInterval {
    li.(start := if li.start < 0 || li.start > n then n else li.start,
        end := if li.end < n then n else li.end)
  }

  function NewInterval(v: nat): LiveInterval {
    LiveInterval(v, -1, -1, NORMAL, -1)
  }

  /** The interval of `v` after the events in order. */
  function Hull(events: seq<Event>, v: nat): LiveInterval {
    if events == [] then NewInterval(v)
    else
      var last := |events| - 1;
      var li := Hull(events[..last], v);
      if v in events[last].regs then Extend(li, events[last].pos) else li
  }

  /** The hull contains every touch, and touches happen at both its ends. */
  lemma {:induction false} HullSpans(events: seq<Event>, v: nat)
    ensures forall k | 0 <= k < |events| && v in events[k].regs ::
              0 <= Hull(events, v).start <= events[k].pos <= Hull(events, v).end
    ensures Hull(events, v).start <= Hull(events, v).end
    ensures Hull(events, v).start < 0 ==> Hull(events, v).start == Hull(events, v).end == -1
    ensures 0 <= Hull(events, v).start ==>
              && (exists k :: 0 <= k < |events| && v in events[k].regs && events[k].pos == Hull(events, v).start)
              && (exists k :: 0 <= k < |events| && v in events[k].regs && events[k].pos == Hull(events, v).end)
    ensures Hull(events, v).(start := -1, end := -1) == NewInterval(v)
  {
    if events != [] {
      var last := |events| - 1;
      var front := events[..last];
      HullSpans(front, v);
      var li := Hull(front, v);
      if 0 <= li.start {
        var a :| 0 <= a < |front| && v in front[a].regs && front[a].pos == li.start;
        var z :| 0 <= z < |front| && v in front[z].regs && front[z].pos == li.end;
        assert events[a] == front[a] && events[z] == front[z];
      }
      forall k | 0 <= k < |events| && v in events[k].regs
        ensures 0 <= Hull(events, v).start <= events[k].pos <= Hull(events, v).end
      {
        if k < last {
          assert events[k] == front[k];
        }
      }
    }
  }

  /** `set_inout_interval`: every register of a boundary vector is touched at `nip`. */
  method SetInoutInterval(regs: set<nat>, intervals: array<LiveInterval>, nip: nat)
    requires forall v | v in regs :: v < intervals.Length
    modifies intervals
    ensures forall v | 0 <= v < intervals.Length ::
              intervals[v] == if v in regs then Extend(old(intervals[v]), nip) else old(intervals[v])
  {
    var rest := regs;
    while rest != {}
      invariant rest <= regs
      invariant forall v | 0 <= v < intervals.Length ::
                  intervals[v] == if v in regs - rest then Extend(old(intervals[v]), nip) else old(intervals[v])
      decreases rest
    {
      var reg :| reg in rest;
      rest := rest - {reg};
      var li := intervals[reg];
      if li.start < 0 || li.start > nip {
        li := li.(start := nip);
      }
      if li.end < nip {
        li := li.(end := nip);
      }
      intervals[reg] := li;
    }
  }

  function FirstNamed(regs: seq<Option<nat>>, k: nat): set<nat>
    requires k <= |regs|
  {
    if k == 0 then {} else FirstNamed(regs, k - 1) + Named(regs[k - 1])
  }

  /** Touches the destination and the operands of one instruction. */
  method TouchInstruction(ir: IR, intervals: array<LiveInterval>, nip: nat)
    requires forall v | v in Mentions(ir) :: v < intervals.Length
    requires forall v | 0 <= v < intervals.Length :: intervals[v].start <= nip
    modifies intervals
    ensures forall v | 0 <= v < intervals.Length ::
              intervals[v] == if v in Mentions(ir) then Extend(old(intervals[v]), nip) else old(intervals[v])
  {
    var regs := [ir.dst, ir.opr1, ir.opr2];
    for k := 0 to 3
      invariant forall v | 0 <= v < intervals.Length ::
                  intervals[v] == if v in FirstNamed(regs, k) then Extend(old(intervals[v]), nip) else old(intervals[v])
    {
      assert Named(regs[k]) <= Mentions(ir);
      if regs[k].None? {
        continue;
      }
      var reg := regs[k].value;
      var li := intervals[reg];
      if li.start < 0 {
        li := li.(start := nip);
      }
      if li.end < nip {
        li := li.(end := nip);
      }
      intervals[reg] := li;
    }
    assert FirstNamed(regs, 1) == Named(ir.dst);
    assert FirstNamed(regs, 2) == Named(ir.dst) + Named(ir.opr1);
    assert FirstNamed(regs, 3) == Mentions(ir);
  }

  ghost predicate SortedByStart(ivs: seq<LiveInterval>, order: seq<nat>) {
    && IsOrder(order, |ivs|)
    && forall k, l | 0 <= k < l < |order| :: ivs[order[k]].start <= ivs[order[l]].start
  }

  /** The comparator of the sort; its second key compares an end with a start. */
  function SortLiveInterval(ivs: seq<LiveInterval>, x: nat, y: nat): int {
    if x < |ivs| && y < |ivs| then
      var d := ivs[x].start - ivs[y].start;
      if d == 0 then ivs[y].end - ivs[x].start else d
    else 0
  }

  /** Not a consistent ordering (both orders of a tie may give `> 0`), yet its `< 0` test is one. */
  lemma SortLiveIntervalIsWeak(ivs: seq<LiveInterval>, d: set<nat>)
    requires forall v | 0 <= v < |ivs| :: ivs[v].start <= ivs[v].end
    requires forall v | v in d :: v < |ivs|
    ensures Qsort.StrictWeak((x, y) => SortLiveInterval(ivs, x, y), d)
    ensures forall x, y | x in d && y in d ::
              Qsort.Before((a, b) => SortLiveInterval(ivs, a, b), x, y) <==> ivs[x].start < ivs[y].start
  {
  }

  /** Of two intervals with one start the sort puts the second one first. */
  ghost predicate TieOrder(ivs: seq<LiveInterval>, order: seq<nat>) {
    |ivs| == 2 && ivs[0].start == ivs[1].start ==> order == [1, 0]
  }

  lemma TieIsOrder(ivs: seq<LiveInterval>, cmp: (nat, nat) -> int, w: seq<nat>, v: seq<nat>)
    requires |ivs| == |w| == |v| && (forall k | 0 <= k < |w| :: w[k] == k) && Qsort.TieSwapped(cmp, w, v, 0, |w|)
    requires forall v | 0 <= v < |ivs| :: ivs[v].start <= ivs[v].end
    requires forall x, y | 0 <= x < |ivs| && 0 <= y < |ivs| :: cmp(x, y) == SortLiveInterval(ivs, x, y)
    ensures TieOrder(ivs, v)
  {
  }

  /** Sorts the intervals by start: returns the order as indices into `ivs`. */
  method SortIntervals(ivs: seq<LiveInterval>) returns (order: array<nat>)
    requires forall v | 0 <= v < |ivs| :: ivs[v].start <= ivs[v].end
    ensures fresh(order) && SortedByStart(ivs, order[..]) && TieOrder(ivs, order[..])
  {
    hide Qsort.TieSwapped, TieOrder;
    order := new nat[|ivs|](i => i);
    ghost var ids := order[..];
    ghost var d := set v | v in ids;
    SortLiveIntervalIsWeak(ivs, d);
    var cmp := (x: nat, y: nat) => SortLiveInterval(ivs, x, y);
    Qsort.MyQsort(order, 0, |ivs|, cmp, d);
    assert ids[0..|ivs|] == ids && order[..][0..|ivs|] == order[..];
    PermutedIsOrder(ids, order[..], |ivs|);
    TieIsOrder(ivs, cmp, ids, order[..]);
    forall k, l | 0 <= k < l < |ivs|
      ensures ivs[order[k]].start <= ivs[order[l]].start
    {
      var x, y := order[..][k], order[..][l];
      assert !Qsort.Before(cmp, y, x);
    }
  }

  /** Everything the analysis puts in its sets is a register of the function. */
  ghost predicate InRange(p: Prog, sets: seq<set<nat>>) {
    |sets| == |p.bbs| && forall b | 0 <= b < |sets| :: forall v | v in sets[b] :: v < |p.vregs|
  }

  ghost predicate IntervalsAre(ivs: seq<LiveInterval>, events: seq<Event>) {
    forall v | 0 <= v < |ivs| :: ivs[v] == Hull(events, v)
  }

  lemma EventAdded(ivs: seq<LiveInterval>, ivs': seq<LiveInterval>, events: seq<Event>, e: Event)
    requires IntervalsAre(ivs, events) && |ivs'| == |ivs|
    requires forall v | 0 <= v < |ivs| :: ivs'[v] == if v in e.regs then Extend(ivs[v], e.pos) else ivs[v]
    ensures IntervalsAre(ivs', events + [e])
  {
    assert (events + [e])[..|events|] == events;
  }

  /** One block of the walk. */
  method VisitBlock(p: Prog, b: nat, inn: set<nat>, out: set<nat>, intervals: array<LiveInterval>, nip0: nat,
                    ghost events: seq<Event>) returns (nip: nat)
    requires WellFormed(p) && b < |p.bbs| && intervals.Length == |p.vregs|
    requires (forall v | v in inn :: v < |p.vregs|) && (forall v | v in out :: v < |p.vregs|)
    requires nip0 == StartOf(p.bbs, b)
    requires IntervalsAre(intervals[..], events)
    requires forall v | 0 <= v < |p.vregs| :: intervals[v].start <= nip0
    modifies intervals
    ensures nip == StartOf(p.bbs, b + 1)
    ensures IntervalsAre(intervals[..], events + BlockEvents(p, b, inn, out))
    ensures forall v | 0 <= v < |p.vregs| :: intervals[v].start <= nip
  {
    hide Hull, IntervalsAre, Mentions;
    var irs := p.bbs[b];
    nip := nip0;
    ghost var ivs := intervals[..];
    SetInoutInterval(inn, intervals, nip);
    EventAdded(ivs, intervals[..], events, Event(nip, inn));
    assert InEvents(p, b, inn, 0) == [Event(nip, inn)];
    for j := 0 to |irs|
      invariant nip == nip0 + j
      invariant IntervalsAre(intervals[..], events + InEvents(p, b, inn, j))
      invariant forall v | 0 <= v < |p.vregs| :: intervals[v].start <= nip
    {
      ivs := intervals[..];
      assert WellFormedIR(p, irs[j]);
      TouchInstruction(irs[j], intervals, nip);
      ghost var e := Event(nip, Mentions(irs[j]));
      EventAdded(ivs, intervals[..], events + InEvents(p, b, inn, j), e);
      assert events + InEvents(p, b, inn, j) + [e] == events + InEvents(p, b, inn, j + 1);
      nip := nip + 1;
    }
    ivs := intervals[..];
    SetInoutInterval(out, intervals, nip);
    ghost var done := events + InEvents(p, b, inn, |irs|);
    EventAdded(ivs, intervals[..], done, Event(nip, out));
    assert done + [Event(nip, out)] == events + BlockEvents(p, b, inn, out);
  }

  /** Builds all intervals, then sorts them by start. */
  method CheckLiveInterval(p: Prog, inn: array<set<nat>>, out: array<set<nat>>)
    returns (intervals: array<LiveInterval>, order: array<nat>)
    requires WellFormed(p) && InRange(p, inn[..]) && InRange(p, out[..])
    ensures fresh(intervals) && fresh(order) && intervals.Length == |p.vregs|
    ensures IntervalsAre(intervals[..], Events(p, inn[..], out[..], |p.bbs|))
    ensures SortedByStart(intervals[..], order[..]) && TieOrder(intervals[..], order[..])
  {
    var n := |p.vregs|;
    intervals := new LiveInterval[n](i => NewInterval(if i < 0 then 0 else i));
    var nip := 0;
    for i := 0 to |p.bbs|
      invariant nip == StartOf(p.bbs, i)
      invariant IntervalsAre(intervals[..], Events(p, inn[..], out[..], i))
      invariant forall v | 0 <= v < n :: intervals[v].start <= nip
    {
      nip := VisitBlock(p, i, inn[i], out[i], intervals, nip, Events(p, inn[..], out[..], i));
    }
    forall v | 0 <= v < n
      ensures intervals[v].start <= intervals[v].end
    {
      HullSpans(Events(p, inn[..], out[..], |p.bbs|), v);
      assert intervals[..][v] == intervals[v];
    }
    order := SortIntervals(intervals[..]);
  }

  // ----- What the intervals cover -----

  /** Where block `b` puts its events in the whole event list. */
  lemma {:induction false} EventOfBlock(p: Prog, inn: seq<set<nat>>, out: seq<set<nat>>, n: nat, b: nat, k: nat) returns (i: nat)
    requires b < n <= |p.bbs| == |inn| == |out|
    requires k < |BlockEvents(p, b, inn[b], out[b])|
    ensures i < |Events(p, inn, out, n)| && Events(p, inn, out, n)[i] == BlockEvents(p, b, inn[b], out[b])[k]
    decreases n
  {
    if b == n - 1 {
      i := |Events(p, inn, out, n - 1)| + k;
    } else {
      i := EventOfBlock(p, inn, out, n - 1, b, k);
    }
  }

  ghost predicate Covers(li: LiveInterval, n: nat) {
    0 <= li.start <= n <= li.end
  }

  lemma BlockEventsAre(p: Prog, b: nat, inn: set<nat>, out: set<nat>)
    requires b < |p.bbs|
    ensures |BlockEvents(p, b, inn, out)| == |p.bbs[b]| + 2
    ensures BlockEvents(p, b, inn, out)[0] == Event(StartOf(p.bbs, b), inn)
    ensures BlockEvents(p, b, inn, out)[|p.bbs[b]| + 1] == Event(StartOf(p.bbs, b) + |p.bbs[b]|, out)
    ensures forall j | 0 <= j < |p.bbs[b]| ::
              BlockEvents(p, b, inn, out)[j + 1] == Event(StartOf(p.bbs, b) + j, Mentions(p.bbs[b][j]))
  {
    hide StartOf, Mentions;
  }

  lemma EventCovered(p: Prog, inn: seq<set<nat>>, out: seq<set<nat>>, ivs: seq<LiveInterval>, b: nat, k: nat, v: nat)
    requires b < |p.bbs| == |inn| == |out| && v < |ivs|
    requires IntervalsAre(ivs, Events(p, inn, out, |p.bbs|))
    requires k < |BlockEvents(p, b, inn[b], out[b])| && v in BlockEvents(p, b, inn[b], out[b])[k].regs
    ensures Covers(ivs[v], BlockEvents(p, b, inn[b], out[b])[k].pos)
  {
    hide BlockEvents;
    var i := EventOfBlock(p, inn, out, |p.bbs|, b, k);
    HullSpans(Events(p, inn, out, |p.bbs|), v);
  }

  /** The final intervals cover block boundaries and every mention. */
  lemma HullCovers(p: Prog, inn: seq<set<nat>>, out: seq<set<nat>>, ivs: seq<LiveInterval>, b: nat, v: nat)
    requires b < |p.bbs| == |inn| == |out| && v < |ivs|
    requires IntervalsAre(ivs, Events(p, inn, out, |p.bbs|))
    ensures v in inn[b] ==> Covers(ivs[v], StartOf(p.bbs, b))
    ensures v in out[b] ==> Covers(ivs[v], StartOf(p.bbs, b) + |p.bbs[b]|)
    ensures forall j | 0 <= j < |p.bbs[b]| && v in Mentions(p.bbs[b][j]) :: Covers(ivs[v], StartOf(p.bbs, b) + j)
  {
    hide BlockEvents, Events, Hull, IntervalsAre, Mentions;
    BlockEventsAre(p, b, inn[b], out[b]);
    if v in inn[b] {
      EventCovered(p, inn, out, ivs, b, 0, v);
    }
    if v in out[b] {
      EventCovered(p, inn, out, ivs, b, |p.bbs[b]| + 1, v);
    }
    forall j | 0 <= j < |p.bbs[b]| && v in Mentions(p.bbs[b][j])
      ensures Covers(ivs[v], StartOf(p.bbs, b) + j)
    {
      EventCovered(p, inn, out, ivs, b, j + 1, v);
    }
  }

  /** A register live somewhere in a block is used later in it or leaves it. */
  lemma {:induction false} LiveIsUsedLater(vregs: seq<VReg>, irs: Block, j: nat, out: set<nat>, v: nat) returns (k: nat)
    requires j <= |irs| && v in LiveBefore(vregs, irs, j, out)
    ensures j <= k <= |irs|
    ensures if k == |irs| then v in out else v in Mentions(irs[k])
    decreases |irs| - j
  {
    if j == |irs| || v in Uses(vregs, irs[j]) {
      k := j;
    } else {
      k := LiveIsUsedLater(vregs, irs, j + 1, out, v);
    }
  }

  /** A register live inside a block was live at its head or assigned earlier in it. */
  lemma {:induction false} LiveCameFrom(vregs: seq<VReg>, irs: Block, j: nat, out: set<nat>, v: nat)
    requires j <= |irs| && v in LiveBefore(vregs, irs, j, out)
    ensures v in LiveBefore(vregs, irs, 0, out) || exists k :: 0 <= k < j && v in Named(irs[k].dst)
  {
    if j > 0 && v !in Named(irs[j - 1].dst) {
      LiveCameFrom(vregs, irs, j - 1, out, v);
    }
  }

  /**
   The hulls cover liveness: wherever `v` is live just before instruction `j` of
   block `b`, its interval contains that position, over back edges and empty
   blocks too.
   */
  lemma LiveIsCovered(p: Prog, inn: seq<set<nat>>, out: seq<set<nat>>, ivs: seq<LiveInterval>, b: nat, j: nat, v: nat)
    requires LeastFlow(p, inn, out) && |inn| == |out| == |p.bbs|
    requires b < |p.bbs| && j <= |p.bbs[b]| && v < |ivs|
    requires IntervalsAre(ivs, Events(p, inn, out, |p.bbs|))
    requires v in LiveBefore(p.vregs, p.bbs[b], j, out[b])
    ensures Covers(ivs[v], StartOf(p.bbs, b) + j)
  {
    hide LeastFlow, Events, Hull, IntervalsAre, LiveBefore;
    var irs := p.bbs[b];
    HullCovers(p, inn, out, ivs, b, v);
    LiveAtHead(p, inn, out, b);
    LiveCameFrom(p.vregs, irs, j, out[b], v);
    if v !in inn[b] {
      var k :| 0 <= k < j && v in Named(irs[k].dst);
      assert v in Mentions(irs[k]);
    }
    var later := LiveIsUsedLater(p.vregs, irs, j, out[b], v);
  }

  lemma LiveAtHead(p: Prog, inn: seq<set<nat>>, out: seq<set<nat>>, b: nat)
    requires LeastFlow(p, inn, out) && b < |p.bbs|
    ensures LiveBefore(p.vregs, p.bbs[b], 0, out[b]) == inn[b]
  {
    LiveBeforeIsFlow(p.vregs, p.bbs[b], 0, out[b]);
    assert p.bbs[b][0..] == p.bbs[b];
  }

  lemma FlowInRange(p: Prog, inn: seq<set<nat>>, out: seq<set<nat>>)
    requires WellFormed(p) && LeastFlow(p, inn, out)
    ensures InRange(p, inn) && InRange(p, out)
  {
    forall b, v | 0 <= b < |p.bbs| && v in inn[b]
      ensures v < |p.vregs|
    {
      LiveOnlyIfNeeded(p, inn, out, b);
    }
    forall b, v | 0 <= b < |p.bbs| && v in out[b]
      ensures v < |p.vregs|
    {
      var s :| s in Succs(p, b) && s < |p.bbs| && v in inn[s];
      LiveOnlyIfNeeded(p, inn, out, s);
    }
  }
}
