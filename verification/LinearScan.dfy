/**
 Linear scan register allocation with furthest-end spilling
 (`linear_scan_register_allocation` and its helpers). Interval pointers are
 indices into the interval array; the bit masks of registers, at most 12 bits
 wide, are kept as sets.
 */
module LinearScan {
  import opened Ir
  import opened Intervals

  /** The scan's view of one register class. */
  datatype Active = Active(list: seq<nat>, using: set<int>, used: set<int>)

  ghost predicate InBounds(ivs: seq<LiveInterval>, list: seq<nat>) {
    forall k | 0 <= k < |list| :: list[k] < |ivs|
  }

  /** How many leading intervals end at or before `start`. */
  ghost function Expired(ivs: seq<LiveInterval>, list: seq<nat>, start: int): (n: nat)
    requires InBounds(ivs, list)
    ensures n <= |list|
    ensures forall k | 0 <= k < n :: ivs[list[k]].end <= start
    ensures n < |list| ==> ivs[list[n]].end > start
  {
    if list == [] || ivs[list[0]].end > start then 0
    else
      assert InBounds(ivs, list[1..]);
      1 + Expired(ivs, list[1..], start)
  }

  ghost function Regs(ivs: seq<LiveInterval>, list: seq<nat>): set<int>
    requires InBounds(ivs, list)
  {
    set k | 0 <= k < |list| :: ivs[list[k]].phys
  }

  ghost function Expire(ivs: seq<LiveInterval>, a: Active, start: int): (a': Active)
    requires InBounds(ivs, a.list)
    ensures InBounds(ivs, a'.list)
  {
    var n := Expired(ivs, a.list, start);
    a.(list := a.list[n..], using := a.using - Regs(ivs, a.list[..n]))
  }

  /** Where `insert_active` puts `x`: before the first interval that ends after it. */
  ghost function Place(ivs: seq<LiveInterval>, list: seq<nat>, x: nat): (j: nat)
    requires InBounds(ivs, list) && x < |ivs|
    ensures j <= |list|
    ensures forall k | 0 <= k < j :: ivs[list[k]].end <= ivs[x].end
    ensures j < |list| ==> ivs[x].end < ivs[list[j]].end
  {
    if list == [] || ivs[x].end < ivs[list[0]].end then 0
    else
      assert InBounds(ivs, list[1..]);
      1 + Place(ivs, list[1..], x)
  }

  ghost function Insert(ivs: seq<LiveInterval>, list: seq<nat>, x: nat): seq<nat>
    requires InBounds(ivs, list) && x < |ivs|
  {
    var j := Place(ivs, list, x);
    list[..j] + [x] + list[j..]
  }

  // ----- The operations, in place -----

  /** Per-class state of the scan (the local struct `Info`). */
  class Info {
    const physMax: nat
    var active: array<nat>
    var activeCount: nat
    var usingBits: set<int>
    var usedBits: set<int>

    ghost predicate Valid()
      reads this
    {
      active.Length == physMax && activeCount <= physMax
    }

    ghost function View(): Active
      requires Valid()
      reads this, active
    {
      Active(active[..activeCount], usingBits, usedBits)
    }

    constructor (max: nat)
      ensures Valid() && fresh(active) && physMax == max && View() == Active([], {}, {})
    {
      physMax := max;
      active := new nat[max];
      activeCount, usingBits, usedBits := 0, {}, {};
    }
  }

  /** `memmove(&active[j + 1], &active[j], count - j)`. */
  method MoveUp(active: array<nat>, j: nat, count: nat)
    requires j <= count < active.Length
    modifies active
    ensures active[..j] == old(active[..j]) && active[j + 1..count + 1] == old(active[j..count])
  {
    var m := count;
    while m > j
      invariant j <= m <= count
      invariant forall k | 0 <= k < m :: active[k] == old(active[k])
      invariant forall k | m < k <= count :: active[k] == old(active[k - 1])
    {
      active[m] := active[m - 1];
      m := m - 1;
    }
  }

  /** `memmove(&active[0], &active[n], count - n)`. */
  method MoveDown(active: array<nat>, n: nat, count: nat)
    requires n <= count <= active.Length
    modifies active
    ensures active[..count - n] == old(active[n..count])
  {
    for m := 0 to count - n
      invariant forall k | 0 <= k < m :: active[k] == old(active[k + n])
      invariant forall k | m <= k < active.Length :: active[k] == old(active[k])
    {
      active[m] := active[m + n];
    }
  }

  method PutAt(active: array<nat>, j: nat, count: nat, x: nat)
    requires j <= count < active.Length
    modifies active
    ensures active[..count + 1] == old(active[..j]) + [x] + old(active[j..count])
  {
    ghost var ahead, behind := active[..j], active[j..count];
    MoveUp(active, j, count);
    active[j] := x;
    assert active[..j] == ahead && active[j + 1..count + 1] == behind;
    assert active[..count + 1] == active[..j] + [x] + active[j + 1..count + 1];
  }

  lemma InsertIs(ivs: seq<LiveInterval>, list: seq<nat>, x: nat, j: nat)
    requires x < |ivs| && InBounds(ivs, list) && j == Place(ivs, list, x) <= |list|
    ensures Insert(ivs, list, x) == list[..j] + [x] + list[j..]
  {
  }

  method InsertActive(ivs: seq<LiveInterval>, active: array<nat>, count: nat, x: nat)
    requires count < active.Length && x < |ivs| && InBounds(ivs, active[..count])
    modifies active
    ensures active[..count + 1] == Insert(ivs, old(active[..count]), x)
  {
    ghost var list := active[..count];
    var j: nat := 0;
    while j < count && !(ivs[x].end < ivs[active[j]].end)
      invariant j <= count && InBounds(ivs, list[j..])
      invariant j + Place(ivs, list[j..], x) == Place(ivs, list, x)
    {
      assert list[j..][0] == active[j] && list[j..][1..] == list[j + 1..];
      j := j + 1;
    }
    assert j < count ==> list[j..][0] == active[j];
    assert j == Place(ivs, list, x);
    hide Place, InBounds;
    assert list[..j] == active[..j] && list[j..] == active[j..count];
    PutAt(active, j, count, x);
    InsertIs(ivs, list, x, j);
  }

  /** The scan over the leading intervals: how many are over at `start`, and what stays in use. */
  method FreeExpired(ivs: seq<LiveInterval>, active: array<nat>, count: nat, using0: set<int>, start: int)
    returns (j: nat, using: set<int>)
    requires count <= active.Length && InBounds(ivs, active[..count])
    ensures j == Expired(ivs, active[..count], start)
    ensures using == using0 - Regs(ivs, active[..j])
  {
    hide Regs;
    ghost var list := active[..count];
    j, using := 0, using0;
    RegsStart(ivs, list);
    while j < count && !(ivs[active[j]].end > start)
      invariant 0 <= j <= count && InBounds(ivs, list[j..])
      invariant forall k | 0 <= k < count :: active[k] == list[k] && list[k] < |ivs|
      invariant j + Expired(ivs, list[j..], start) == Expired(ivs, list, start)
      invariant using == using0 - Regs(ivs, list[..j])
    {
      assert list[j..][0] == list[j] && list[j..][1..] == list[j + 1..];
      RegsAdded(ivs, list, j);
      using := using - {ivs[active[j]].phys};
      j := j + 1;
    }
    assert j < count ==> list[j..][0] == list[j];
    assert active[..j] == list[..j];
  }

  /** Drops the intervals over at `start` and frees their registers. */
  method ExpireOldIntervals(ivs: seq<LiveInterval>, info: Info, start: int)
    requires info.Valid() && InBounds(ivs, info.View().list)
    modifies info`activeCount, info`usingBits, info.active
    ensures info.Valid() && info.View() == Expire(ivs, old(info.View()), start)
  {
    ghost var list := info.active[..info.activeCount];
    var j, using := FreeExpired(ivs, info.active, info.activeCount, info.usingBits, start);
    assert info.active[..j] == list[..j] && info.active[j..info.activeCount] == list[j..];
    hide Regs, Expired, InBounds;
    MoveDown(info.active, j, info.activeCount);
    info.activeCount := info.activeCount - j;
    info.usingBits := using;
  }

  lemma RegsStart(ivs: seq<LiveInterval>, list: seq<nat>)
    requires InBounds(ivs, list)
    ensures Regs(ivs, list[..0]) == {}
  {
  }

  lemma RegsAdded(ivs: seq<LiveInterval>, list: seq<nat>, j: nat)
    requires j < |list| && InBounds(ivs, list)
    ensures Regs(ivs, list[..j + 1]) == Regs(ivs, list[..j]) + {ivs[list[j]].phys}
  {
    assert forall k | 0 <= k < j :: list[..j + 1][k] == list[..j][k];
    assert list[..j + 1][j] == list[j];
  }

  /**
   No register is free: of the active intervals and the new one `x`, the one
   that ends last goes to memory, and `x` may take over its register.
   */
  ghost function Split(ivs: seq<LiveInterval>, list: seq<nat>, x: nat): (seq<LiveInterval>, seq<nat>)
    requires InBounds(ivs, list) && list != [] && x < |ivs|
  {
    var last := list[|list| - 1];
    if ivs[last].end > ivs[x].end then
      var ivs' := ivs[x := ivs[x].(phys := ivs[last].phys)];
      var ivs'' := ivs'[last := ivs'[last].(phys := SPILLED, state := SPILL)];
      (ivs'', Insert(ivs'', list[..|list| - 1], x))
    else
      (ivs[x := ivs[x].(phys := SPILLED, state := SPILL)], list)
  }

  method SplitAtInterval(intervals: array<LiveInterval>, active: array<nat>, count: nat, x: nat)
    requires 0 < count <= active.Length && x < intervals.Length && InBounds(intervals[..], active[..count])
    modifies intervals, active
    ensures (intervals[..], active[..count]) == Split(old(intervals[..]), old(active[..count]), x)
  {
    ghost var list := active[..count];
    var spill := active[count - 1];
    assert spill == list[count - 1];
    if intervals[spill].end > intervals[x].end {
      intervals[x] := intervals[x].(phys := intervals[spill].phys);
      intervals[spill] := intervals[spill].(phys := SPILLED, state := SPILL);
      assert active[..count - 1] == list[..count - 1];
      InsertActive(intervals[..], active, count - 1, x);
    } else {
      intervals[x] := intervals[x].(phys := SPILLED, state := SPILL);
    }
  }

  /** The lowest-numbered register not in use, as the search loop finds it. */
  ghost function FirstFree(using: set<int>, max: nat, r: nat): (regno: int)
    requires r <= max
    ensures regno == -1 ==> forall q | r <= q < max :: q in using
    ensures regno != -1 ==> r <= regno < max && regno !in using && forall q | r <= q < regno :: q in using
    decreases max - r
  {
    if r == max then -1 else if r !in using then r else FirstFree(using, max, r + 1)
  }

  ghost function Range(max: nat): (s: set<int>)
    ensures |s| == max && forall r :: r in s <==> 0 <= r < max
  {
    if max == 0 then {} else Range(max - 1) + {max - 1}
  }

  lemma SomeFree(using: set<int>, max: nat)
    requires |using| < max
    ensures FirstFree(using, max, 0) != -1
  {
    if forall r | 0 <= r < max :: r in using {
      SubsetSize(Range(max), using);
    }
  }

  lemma {:induction false} SubsetSize<T>(a: set<T>, b: set<T>)
    requires a <= b
    ensures |a| <= |b|
  {
    if a != {} {
      var x :| x in a;
      SubsetSize(a - {x}, b - {x});
    }
  }

  /** The step for interval `x` of a class, after expiry: its effect on the intervals and on the class. */
  ghost function Step(ivs: seq<LiveInterval>, a: Active, max: nat, x: nat): (seq<LiveInterval>, Active)
    requires InBounds(ivs, a.list) && x < |ivs| && 0 < max
  {
    if |a.list| >= max then
      var (ivs', list') := Split(ivs, a.list, x);
      (ivs', a.(list := list', used := a.used + a.using))
    else
      var regno := FirstFree(a.using, max, 0);
      var ivs' := ivs[x := ivs[x].(phys := regno)];
      assert InBounds(ivs', a.list);
      var using' := a.using + {regno};
      (ivs', Active(Insert(ivs', a.list, x), using', a.used + using'))
  }

  method Place1(intervals: array<LiveInterval>, info: Info, x: nat)
    requires info.Valid() && 0 < info.physMax && x < intervals.Length
    requires InBounds(intervals[..], info.View().list)
    requires |info.usingBits| == info.activeCount
    modifies intervals, info, info.active
    ensures info.Valid() && info.active == old(info.active)
    ensures (intervals[..], info.View()) == Step(old(intervals[..]), old(info.View()), info.physMax, x)
  {
    if info.activeCount >= info.physMax {
      SplitAtInterval(intervals, info.active, info.activeCount, x);
    } else {
      SomeFree(info.usingBits, info.physMax);
      var regno := -1;
      for j := 0 to info.physMax
        invariant regno == -1 && FirstFree(info.usingBits, info.physMax, j) == FirstFree(info.usingBits, info.physMax, 0)
      {
        if j !in info.usingBits {
          regno := j;
          break;
        }
      }
      intervals[x] := intervals[x].(phys := regno);
      info.usingBits := info.usingBits + {regno};
      InsertActive(intervals[..], info.active, info.activeCount, x);
      info.activeCount := info.activeCount + 1;
    }
    info.usedBits := info.usedBits + info.usingBits;
  }
}
