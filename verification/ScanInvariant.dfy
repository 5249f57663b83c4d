/**
 What linear scan keeps true from step to step, and what follows when it is
 done: no two intervals in memory-free overlap share a register.
 */
module ScanInvariant {
  import opened Orders
  import opened Options
  import opened Ir
  import opened Intervals
  import opened LinearScan

  /** The interval at rank `r` of the order takes part in the scan of class `fl`. */
  ghost predicate Candidate(vregs: seq<VReg>, ivs0: seq<LiveInterval>, order: seq<nat>, r: nat, fl: bool)
    requires r < |order| && order[r] < |ivs0| == |vregs|
  {
    ivs0[order[r]].state == NORMAL && vregs[order[r]].flonum == fl
  }

  /**
   The intervals the scan looks at come in order of start. The others need not:
   parameters have their start moved to 0 after the sort.
   */
  ghost predicate NormalSorted(ivs: seq<LiveInterval>, order: seq<nat>) {
    && IsOrder(order, |ivs|)
    && forall k, l | 0 <= k < l < |order| && ivs[order[k]].state == NORMAL && ivs[order[l]].state == NORMAL ::
         ivs[order[k]].start <= ivs[order[l]].start
  }

  /** What never changes, and what has not changed before rank `k` is reached. */
  ghost predicate Frame(ivs0: seq<LiveInterval>, ivs: seq<LiveInterval>, order: seq<nat>, k: nat) {
    && |ivs| == |ivs0| && k <= |order| && NormalSorted(ivs0, order)
    && (forall v | 0 <= v < |ivs| :: ivs[v] == ivs0[v].(phys := ivs[v].phys, state := ivs[v].state))
    && (forall v | 0 <= v < |ivs| && ivs0[v].state != NORMAL :: ivs[v] == ivs0[v])
    && (forall r | k <= r < |order| :: ivs[order[r]] == ivs0[order[r]])
  }

  /** The active list of a class: in the class, in distinct registers, sorted by end. */
  ghost predicate ListInv(vregs: seq<VReg>, ivs: seq<LiveInterval>, fl: bool, a: Active) {
    && |ivs| == |vregs| && |a.list| <= RegMax(fl)
    && Orderly(vregs, ivs, fl, a.list)
    && a.using == Regs(ivs, a.list)
    && a.using <= a.used
  }

  ghost predicate Orderly(vregs: seq<VReg>, ivs: seq<LiveInterval>, fl: bool, list: seq<nat>)
    requires |ivs| == |vregs|
  {
    && InBounds(ivs, list)
    && (forall i | 0 <= i < |list| :: Holds(vregs, ivs, fl, list[i]))
    && (forall i, j | 0 <= i < j < |list| ::
          ivs[list[i]].end <= ivs[list[j]].end && ivs[list[i]].phys != ivs[list[j]].phys)
  }

  /** Interval `v` has a register of the class. */
  ghost predicate Holds(vregs: seq<VReg>, ivs: seq<LiveInterval>, fl: bool, v: nat)
    requires |ivs| == |vregs| && v < |ivs|
  {
    ivs[v].state == NORMAL && vregs[v].flonum == fl && 0 <= ivs[v].phys < RegMax(fl)
  }

  /** All of `list` was live across the start of the interval at rank `q`. */
  ghost predicate Crowd(vregs: seq<VReg>, ivs: seq<LiveInterval>, order: seq<nat>, fl: bool, q: nat, list: seq<nat>)
    requires |ivs| == |vregs| && q < |order| && order[q] < |ivs|
  {
    && |list| == RegMax(fl)
    && (forall i, j | 0 <= i < j < |list| :: list[i] != list[j])
    && forall i | 0 <= i < |list| ::
         && list[i] < |ivs| && list[i] != order[q]
         && ivs[list[i]].state == NORMAL && vregs[list[i]].flonum == fl
         && ivs[list[i]].start <= ivs[order[q]].start < ivs[list[i]].end
  }

  /** Some interval of the class started while every register of the class was taken. */
  ghost predicate Crowded(vregs: seq<VReg>, ivs: seq<LiveInterval>, order: seq<nat>, fl: bool)
    requires |ivs| == |vregs|
  {
    exists q: nat, list: seq<nat> :: q < |order| && order[q] < |ivs| && Crowd(vregs, ivs, order, fl, q, list)
  }

  /** The intervals of ranks below `k`, with `cur` the start last reached. */
  ghost predicate DoneInv(vregs: seq<VReg>, ivs0: seq<LiveInterval>, ivs: seq<LiveInterval>, order: seq<nat>,
                          k: nat, fl: bool, a: Active, cur: int)
    requires |vregs| == |ivs0| && Frame(ivs0, ivs, order, k)
  {
    && (forall i | 0 <= i < |a.list| :: a.list[i] in order[..k])
    && (forall r | 0 <= r < k && Candidate(vregs, ivs0, order, r, fl) :: Settled(vregs, ivs0, ivs, order, r, fl, a, cur))
    && (forall r, s | 0 <= r < s < k && Candidate(vregs, ivs0, order, r, fl) && Candidate(vregs, ivs0, order, s, fl) ::
          NoOverlap(ivs, order, r, s))
    && (forall r | k <= r < |order| && ivs0[order[r]].state == NORMAL :: cur <= ivs0[order[r]].start)
  }

  /** The interval at rank `r` has a register and is active or over, or it was spilled for want of one. */
  ghost predicate Settled(vregs: seq<VReg>, ivs0: seq<LiveInterval>, ivs: seq<LiveInterval>, order: seq<nat>,
                          r: nat, fl: bool, a: Active, cur: int)
    requires r < |order| && order[r] < |ivs| == |ivs0| == |vregs|
  {
    var li := ivs[order[r]];
    || (li.state == NORMAL && 0 <= li.phys < RegMax(fl) && li.phys in a.used && (order[r] in a.list || li.end <= cur))
    || (li.state == SPILL && li.phys == SPILLED && Crowded(vregs, ivs0, order, fl))
  }

  /** Two intervals in the same register: the earlier is over when the later starts. */
  ghost predicate NoOverlap(ivs: seq<LiveInterval>, order: seq<nat>, r: nat, s: nat)
    requires r < |order| && s < |order| && order[r] < |ivs| && order[s] < |ivs|
  {
    ivs[order[r]].state == NORMAL && ivs[order[s]].state == NORMAL && ivs[order[r]].phys == ivs[order[s]].phys
    ==> ivs[order[r]].end <= ivs[order[s]].start
  }

  ghost predicate ClassInv(vregs: seq<VReg>, ivs0: seq<LiveInterval>, ivs: seq<LiveInterval>, order: seq<nat>,
                           k: nat, fl: bool, a: Active, cur: int)
  {
    && |vregs| == |ivs0| && Frame(ivs0, ivs, order, k)
    && ListInv(vregs, ivs, fl, a)
    && DoneInv(vregs, ivs0, ivs, order, k, fl, a, cur)
  }

  ghost predicate AllAfter(ivs: seq<LiveInterval>, list: seq<nat>, start: int) {
    InBounds(ivs, list) && forall k | 0 <= k < |list| :: ivs[list[k]].end > start
  }

  lemma ExpireKeeps(vregs: seq<VReg>, ivs0: seq<LiveInterval>, ivs: seq<LiveInterval>, order: seq<nat>,
                    k: nat, fl: bool, a: Active, cur: int)
    requires k < |order| && ClassInv(vregs, ivs0, ivs, order, k, fl, a, cur) && ivs0[order[k]].state == NORMAL
    ensures var start := ivs[order[k]].start;
            && ClassInv(vregs, ivs0, ivs, order, k, fl, Expire(ivs, a, start), start)
            && AllAfter(ivs, Expire(ivs, a, start).list, start)
  {
    var start := ivs[order[k]].start;
    ExpireKeepsList(vregs, ivs, fl, a, start);
    hide ListInv, Expire;
    ExpireDone(vregs, ivs0, ivs, order, k, fl, a, cur, Expire(ivs, a, start));
  }

  lemma ExpireDone(vregs: seq<VReg>, ivs0: seq<LiveInterval>, ivs: seq<LiveInterval>, order: seq<nat>,
                   k: nat, fl: bool, a: Active, cur: int, a': Active)
    requires |vregs| == |ivs0| && Frame(ivs0, ivs, order, k) && DoneInv(vregs, ivs0, ivs, order, k, fl, a, cur)
    requires k < |order| && ivs0[order[k]].state == NORMAL && a'.used == a.used
    requires forall i | 0 <= i < |a'.list| :: a'.list[i] in a.list
    requires forall v | v in a.list && v !in a'.list :: v < |ivs| && ivs[v].end <= ivs[order[k]].start
    ensures DoneInv(vregs, ivs0, ivs, order, k, fl, a', ivs[order[k]].start)
  {
    hide Crowded;
    var start := ivs[order[k]].start;
    forall r | 0 <= r < k && Candidate(vregs, ivs0, order, r, fl)
      ensures Settled(vregs, ivs0, ivs, order, r, fl, a', start)
    {
      assert Settled(vregs, ivs0, ivs, order, r, fl, a, cur);
    }
  }

  lemma ExpireKeepsList(vregs: seq<VReg>, ivs: seq<LiveInterval>, fl: bool, a: Active, start: int)
    requires ListInv(vregs, ivs, fl, a)
    ensures var a' := Expire(ivs, a, start);
            && ListInv(vregs, ivs, fl, a') && a'.used == a.used
            && (forall i | 0 <= i < |a'.list| :: ivs[a'.list[i]].end > start && a'.list[i] in a.list)
            && (forall v | v in a.list && v !in a'.list :: v < |ivs| && ivs[v].end <= start)
  {
    var n := Expired(ivs, a.list, start);
    RegsSplit(ivs, a.list, n);
    assert a.list == a.list[..n] + a.list[n..];
    forall i | 0 <= i < |a.list| - n
      ensures ivs[a.list[n..][i]].end > start
    {
      assert a.list[n..][i] == a.list[n + i];
    }
  }

  lemma RegsSplit(ivs: seq<LiveInterval>, list: seq<nat>, n: nat)
    requires n <= |list| && InBounds(ivs, list)
    requires forall i, j | 0 <= i < j < |list| :: ivs[list[i]].phys != ivs[list[j]].phys
    ensures Regs(ivs, list[n..]) == Regs(ivs, list) - Regs(ivs, list[..n])
  {
    assert forall i | 0 <= i < n :: list[i] == list[..n][i];
    assert forall i | n <= i < |list| :: list[i] == list[n..][i - n];
    forall x | x in Regs(ivs, list) - Regs(ivs, list[..n])
      ensures x in Regs(ivs, list[n..])
    {
      var i :| 0 <= i < |list| && ivs[list[i]].phys == x;
    }
    forall x | x in Regs(ivs, list[n..])
      ensures x in Regs(ivs, list) && x !in Regs(ivs, list[..n])
    {
      var i :| 0 <= i < |list| - n && ivs[list[n..][i]].phys == x;
      assert list[n..][i] == list[n + i];
    }
  }

  lemma PrependKeeps(vregs: seq<VReg>, ivs: seq<LiveInterval>, fl: bool, h: nat, list: seq<nat>)
    requires |ivs| == |vregs| && Orderly(vregs, ivs, fl, list) && h < |ivs| && Holds(vregs, ivs, fl, h)
    requires forall v | v in list :: ivs[h].end <= ivs[v].end && ivs[h].phys != ivs[v].phys
    ensures Orderly(vregs, ivs, fl, [h] + list)
  {
    var list' := [h] + list;
    forall i, j | 0 <= i < j < |list'|
      ensures ivs[list'[i]].end <= ivs[list'[j]].end && ivs[list'[i]].phys != ivs[list'[j]].phys
    {
      assert list'[j] == list[j - 1] && list[j - 1] in list;
      assert i > 0 ==> list'[i] == list[i - 1];
    }
  }

  lemma {:induction false} InsertKeeps(vregs: seq<VReg>, ivs: seq<LiveInterval>, fl: bool, list: seq<nat>, x: nat)
    requires |ivs| == |vregs| && InBounds(ivs, list) && Orderly(vregs, ivs, fl, list)
    requires x < |ivs| && Holds(vregs, ivs, fl, x) && (forall v | v in list :: ivs[v].phys != ivs[x].phys)
    ensures Orderly(vregs, ivs, fl, Insert(ivs, list, x)) && |Insert(ivs, list, x)| == |list| + 1
    ensures forall v :: v in Insert(ivs, list, x) <==> v in list || v == x
  {
    hide Orderly, Insert;
    InsertUnfolds(ivs, list, x);
    if list == [] || ivs[x].end < ivs[list[0]].end {
      HeadIsFirst(vregs, ivs, fl, list);
      PrependKeeps(vregs, ivs, fl, x, list);
    } else {
      HeadIsFirst(vregs, ivs, fl, list);
      var h, rest := list[0], list[1..];
      assert list == [h] + rest;
      InsertKeeps(vregs, ivs, fl, rest, x);
      PrependKeeps(vregs, ivs, fl, h, Insert(ivs, rest, x));
    }
  }

  lemma InsertUnfolds(ivs: seq<LiveInterval>, list: seq<nat>, x: nat)
    requires InBounds(ivs, list) && x < |ivs|
    ensures list == [] || ivs[x].end < ivs[list[0]].end ==> Insert(ivs, list, x) == [x] + list
    ensures list != [] && ivs[x].end >= ivs[list[0]].end ==>
              InBounds(ivs, list[1..]) && Insert(ivs, list, x) == [list[0]] + Insert(ivs, list[1..], x)
  {
  }

  lemma HeadIsFirst(vregs: seq<VReg>, ivs: seq<LiveInterval>, fl: bool, list: seq<nat>)
    requires |ivs| == |vregs| && Orderly(vregs, ivs, fl, list)
    ensures InBounds(ivs, list)
    ensures list != [] ==>
              && Holds(vregs, ivs, fl, list[0]) && Orderly(vregs, ivs, fl, list[1..])
              && forall v | v in list :: ivs[list[0]].end <= ivs[v].end
    ensures list != [] ==> forall v | v in list[1..] :: ivs[list[0]].phys != ivs[v].phys
  {
    if list != [] {
      assert forall i | 0 <= i < |list| - 1 :: list[1..][i] == list[i + 1];
    }
  }

  lemma RegsFromMembers(ivs: seq<LiveInterval>, list: seq<nat>, list': seq<nat>, x: nat)
    requires InBounds(ivs, list) && InBounds(ivs, list') && x < |ivs|
    requires forall v :: v in list' <==> v in list || v == x
    ensures Regs(ivs, list') == Regs(ivs, list) + {ivs[x].phys}
  {
    forall r
      ensures r in Regs(ivs, list') <==> r in Regs(ivs, list) || r == ivs[x].phys
    {
      RegsMembers(ivs, list, r);
      RegsMembers(ivs, list', r);
    }
  }

  lemma RegsMembers(ivs: seq<LiveInterval>, list: seq<nat>, r: int)
    requires InBounds(ivs, list)
    ensures r in Regs(ivs, list) <==> exists v :: v in list && ivs[v].phys == r
  {
    if v :| v in list && ivs[v].phys == r {
      var i :| 0 <= i < |list| && list[i] == v;
    }
  }

  /** Changing an interval outside the list changes nothing about the list. */
  lemma ElsewhereKeeps(vregs: seq<VReg>, ivs: seq<LiveInterval>, ivs': seq<LiveInterval>, fl: bool, list: seq<nat>)
    requires |ivs| == |ivs'| == |vregs| && Orderly(vregs, ivs, fl, list)
    requires forall i | 0 <= i < |list| :: ivs'[list[i]] == ivs[list[i]]
    ensures Orderly(vregs, ivs', fl, list) && Regs(ivs', list) == Regs(ivs, list)
  {
  }

  lemma FreeList(vregs: seq<VReg>, ivs: seq<LiveInterval>, fl: bool, a: Active, x: nat, regno: int,
                 ivs': seq<LiveInterval>, a': Active)
    requires ListInv(vregs, ivs, fl, a) && |a.list| < RegMax(fl)
    requires x < |ivs| && x !in a.list && ivs[x].state == NORMAL && vregs[x].flonum == fl
    requires 0 <= regno < RegMax(fl) && regno !in a.using
    requires ivs' == ivs[x := ivs[x].(phys := regno)] && InBounds(ivs', a.list)
    requires a'.list == Insert(ivs', a.list, x) && a'.using == a.using + {regno} && a'.used == a.used + a'.using
    ensures ListInv(vregs, ivs', fl, a')
    ensures forall v :: v in a'.list <==> v in a.list || v == x
  {
    ElsewhereKeeps(vregs, ivs, ivs', fl, a.list);
    forall v | v in a.list
      ensures ivs'[v].phys != regno
    {
      RegsMembers(ivs, a.list, ivs[v].phys);
    }
    InsertKeeps(vregs, ivs', fl, a.list, x);
    RegsFromMembers(ivs', a.list, a'.list, x);
  }

  /** Only intervals of ranks up to `k` that take part have changed, in register and state. */
  lemma FrameStep(ivs0: seq<LiveInterval>, ivs: seq<LiveInterval>, order: seq<nat>, k: nat, ivs': seq<LiveInterval>)
    requires Frame(ivs0, ivs, order, k) && k < |order| && |ivs'| == |ivs|
    requires forall v | 0 <= v < |ivs| && ivs'[v] != ivs[v] ::
               v in order[..k + 1] && ivs0[v].state == NORMAL
               && ivs'[v] == ivs[v].(phys := ivs'[v].phys, state := ivs'[v].state)
    ensures Frame(ivs0, ivs', order, k + 1)
  {
    forall r | k + 1 <= r < |order|
      ensures ivs'[order[r]] == ivs0[order[r]]
    {
      assert order[r] !in order[..k + 1];
    }
  }

  /** The new interval gets a free register. */
  lemma FreeStep(vregs: seq<VReg>, ivs0: seq<LiveInterval>, ivs: seq<LiveInterval>, order: seq<nat>,
                 k: nat, fl: bool, a: Active, cur: int, regno: int, ivs': seq<LiveInterval>, a': Active)
    requires ClassInv(vregs, ivs0, ivs, order, k, fl, a, cur)
    requires k < |order| && Candidate(vregs, ivs0, order, k, fl) && cur == ivs[order[k]].start
    requires |a.list| < RegMax(fl) && 0 <= regno < RegMax(fl) && regno !in a.using
    requires ivs' == ivs[order[k] := ivs[order[k]].(phys := regno)] && InBounds(ivs', a.list)
    requires a'.list == Insert(ivs', a.list, order[k]) && a'.using == a.using + {regno} && a'.used == a.used + a'.using
    ensures ClassInv(vregs, ivs0, ivs', order, k + 1, fl, a', cur)
  {
    var x := order[k];
    assert order[..k + 1] == order[..k] + [x];
    Unprocessed(order, k, |ivs|, a.list);
    FreeList(vregs, ivs, fl, a, x, regno, ivs', a');
    FrameStep(ivs0, ivs, order, k, ivs');
    forall v | v in a.list
      ensures ivs[v].phys != regno
    {
      RegsMembers(ivs, a.list, ivs[v].phys);
    }
    FreeDone(vregs, ivs0, ivs, order, k, fl, a, cur, regno, ivs', a');
  }

  lemma Unprocessed(order: seq<nat>, k: nat, n: nat, list: seq<nat>)
    requires IsOrder(order, n) && k < n && forall i | 0 <= i < |list| :: list[i] in order[..k]
    ensures order[k] !in list && order[k] !in order[..k]
  {
  }

  lemma FreeDone(vregs: seq<VReg>, ivs0: seq<LiveInterval>, ivs: seq<LiveInterval>, order: seq<nat>,
                 k: nat, fl: bool, a: Active, cur: int, regno: int, ivs': seq<LiveInterval>, a': Active)
    requires |vregs| == |ivs0| && Frame(ivs0, ivs, order, k) && DoneInv(vregs, ivs0, ivs, order, k, fl, a, cur)
    requires k < |order| && Candidate(vregs, ivs0, order, k, fl) && cur == ivs[order[k]].start
    requires 0 <= regno < RegMax(fl) && forall v | v in a.list :: v < |ivs| && ivs[v].phys != regno
    requires ivs' == ivs[order[k] := ivs[order[k]].(phys := regno)] && Frame(ivs0, ivs', order, k + 1)
    requires forall v :: v in a'.list <==> v in a.list || v == order[k]
    requires a.used + {regno} <= a'.used
    ensures DoneInv(vregs, ivs0, ivs', order, k + 1, fl, a', cur)
  {
    hide Crowded;
    assert order[..k + 1] == order[..k] + [order[k]];
    forall r | 0 <= r < k + 1 && Candidate(vregs, ivs0, order, r, fl)
      ensures Settled(vregs, ivs0, ivs', order, r, fl, a', cur)
      ensures r < k ==> NoOverlap(ivs', order, r, k)
    {
      if r < k {
        assert Settled(vregs, ivs0, ivs, order, r, fl, a, cur);
      }
    }
    forall r, s | 0 <= r < s < k + 1 && Candidate(vregs, ivs0, order, r, fl) && Candidate(vregs, ivs0, order, s, fl)
      ensures NoOverlap(ivs', order, r, s)
    {
      if s < k {
        assert NoOverlap(ivs, order, r, s);
      }
    }
    forall i | 0 <= i < |a'.list|
      ensures a'.list[i] in order[..k + 1]
    {
      assert a'.list[i] in a'.list;
    }
  }

  /** A full active list, none of it over, is a crowd around the new interval. */
  lemma CrowdedHere(vregs: seq<VReg>, ivs0: seq<LiveInterval>, ivs: seq<LiveInterval>, order: seq<nat>,
                    k: nat, fl: bool, a: Active, cur: int)
    requires ClassInv(vregs, ivs0, ivs, order, k, fl, a, cur)
    requires k < |order| && Candidate(vregs, ivs0, order, k, fl)
    requires cur == ivs[order[k]].start && |a.list| >= RegMax(fl)
    requires forall i | 0 <= i < |a.list| :: ivs[a.list[i]].end > cur
    ensures Crowded(vregs, ivs0, order, fl)
  {
    Unprocessed(order, k, |ivs|, a.list);
    forall i | 0 <= i < |a.list|
      ensures ivs0[a.list[i]].state == NORMAL && ivs0[a.list[i]].start <= cur < ivs0[a.list[i]].end
      ensures a.list[i] != order[k] && vregs[a.list[i]].flonum == fl
    {
      assert Holds(vregs, ivs, fl, a.list[i]) && a.list[i] in a.list;
      assert a.list[i] in order[..k];
      var r :| 0 <= r < k && order[..k][r] == a.list[i];
      assert ivs0[order[r]].start <= ivs0[order[k]].start;
    }
    assert Crowd(vregs, ivs0, order, fl, k, a.list);
  }

  /** No register is free and the new interval ends last: it is spilled itself. */
  lemma KeepStep(vregs: seq<VReg>, ivs0: seq<LiveInterval>, ivs: seq<LiveInterval>, order: seq<nat>,
                 k: nat, fl: bool, a: Active, cur: int, ivs': seq<LiveInterval>, a': Active)
    requires ClassInv(vregs, ivs0, ivs, order, k, fl, a, cur)
    requires k < |order| && cur == ivs[order[k]].start && Candidate(vregs, ivs0, order, k, fl)
    requires Crowded(vregs, ivs0, order, fl)
    requires ivs' == ivs[order[k] := ivs[order[k]].(phys := SPILLED, state := SPILL)]
    requires a'.list == a.list && a'.using == a.using && a'.used == a.used + a'.using
    ensures ClassInv(vregs, ivs0, ivs', order, k + 1, fl, a', cur)
  {
    assert order[..k + 1] == order[..k] + [order[k]];
    Unprocessed(order, k, |ivs|, a.list);
    ElsewhereKeeps(vregs, ivs, ivs', fl, a.list);
    FrameStep(ivs0, ivs, order, k, ivs');
    hide Crowded, Orderly, Regs;
    forall r | 0 <= r < k + 1 && Candidate(vregs, ivs0, order, r, fl)
      ensures Settled(vregs, ivs0, ivs', order, r, fl, a', cur)
    {
      if r < k {
        assert Settled(vregs, ivs0, ivs, order, r, fl, a, cur);
      }
    }
    forall r, s | 0 <= r < s < k + 1 && Candidate(vregs, ivs0, order, r, fl) && Candidate(vregs, ivs0, order, s, fl)
      ensures NoOverlap(ivs', order, r, s)
    {
      if s < k {
        assert NoOverlap(ivs, order, r, s);
      }
    }
  }

  lemma StealList(vregs: seq<VReg>, ivs: seq<LiveInterval>, fl: bool, a: Active, x: nat, ivs': seq<LiveInterval>, a': Active)
    requires ListInv(vregs, ivs, fl, a) && a.list != []
    requires x < |ivs| && x !in a.list && ivs[x].state == NORMAL && vregs[x].flonum == fl
    requires var last := a.list[|a.list| - 1];
             && ivs' == ivs[x := ivs[x].(phys := ivs[last].phys)][last := ivs[last].(phys := SPILLED, state := SPILL)]
             && InBounds(ivs', a.list[..|a.list| - 1])
             && a'.list == Insert(ivs', a.list[..|a.list| - 1], x)
    requires a'.using == a.using && a'.used == a.used + a'.using
    ensures ListInv(vregs, ivs', fl, a')
    ensures forall v :: v in a'.list <==> (v in a.list && v != a.list[|a.list| - 1]) || v == x
    ensures forall v | v in a.list && v != a.list[|a.list| - 1] :: ivs[v].phys != ivs[a.list[|a.list| - 1]].phys
  {
    var n := |a.list| - 1;
    var last, front := a.list[n], a.list[..n];
    assert a.list == front + [last];
    assert forall i | 0 <= i < n :: front[i] == a.list[i];
    assert Holds(vregs, ivs, fl, last);
    ElsewhereKeeps(vregs, ivs, ivs', fl, front);
    InsertKeeps(vregs, ivs', fl, front, x);
    RegsFromMembers(ivs', front, a'.list, x);
    RegsFromMembers(ivs, front, a.list, last);
  }

  lemma StealDone(vregs: seq<VReg>, ivs0: seq<LiveInterval>, ivs: seq<LiveInterval>, order: seq<nat>,
                  k: nat, fl: bool, a: Active, cur: int, last: nat, ivs': seq<LiveInterval>, a': Active)
    requires |vregs| == |ivs0| && Frame(ivs0, ivs, order, k) && DoneInv(vregs, ivs0, ivs, order, k, fl, a, cur)
    requires k < |order| && Candidate(vregs, ivs0, order, k, fl) && cur == ivs[order[k]].start
    requires Crowded(vregs, ivs0, order, fl)
    requires last in a.list && last < |ivs| && last != order[k] && Holds(vregs, ivs, fl, last)
    requires ivs[last].phys in a.used
    requires forall v | v in a.list :: v < |ivs| && (v != last ==> ivs[v].phys != ivs[last].phys)
    requires ivs' == ivs[order[k] := ivs[order[k]].(phys := ivs[last].phys)][last := ivs[last].(phys := SPILLED, state := SPILL)]
    requires Frame(ivs0, ivs', order, k + 1)
    requires forall v :: v in a'.list <==> (v in a.list && v != last) || v == order[k]
    requires a.used <= a'.used
    ensures DoneInv(vregs, ivs0, ivs', order, k + 1, fl, a', cur)
  {
    hide Crowded;
    assert order[..k + 1] == order[..k] + [order[k]];
    forall r | 0 <= r < k + 1 && Candidate(vregs, ivs0, order, r, fl)
      ensures Settled(vregs, ivs0, ivs', order, r, fl, a', cur)
      ensures r < k ==> NoOverlap(ivs', order, r, k)
    {
      if r < k {
        assert Settled(vregs, ivs0, ivs, order, r, fl, a, cur);
      }
    }
    forall r, s | 0 <= r < s < k + 1 && Candidate(vregs, ivs0, order, r, fl) && Candidate(vregs, ivs0, order, s, fl)
      ensures NoOverlap(ivs', order, r, s)
    {
      if s < k {
        assert NoOverlap(ivs, order, r, s);
      }
    }
    forall i | 0 <= i < |a'.list|
      ensures a'.list[i] in order[..k + 1]
    {
      assert a'.list[i] in a'.list;
    }
  }

  /** No register is free and an active interval ends later: it is spilled and hands over its register. */
  lemma StealStep(vregs: seq<VReg>, ivs0: seq<LiveInterval>, ivs: seq<LiveInterval>, order: seq<nat>,
                  k: nat, fl: bool, a: Active, cur: int, ivs': seq<LiveInterval>, a': Active)
    requires ClassInv(vregs, ivs0, ivs, order, k, fl, a, cur) && a.list != []
    requires k < |order| && cur == ivs[order[k]].start && Candidate(vregs, ivs0, order, k, fl)
    requires Crowded(vregs, ivs0, order, fl)
    requires var last := a.list[|a.list| - 1];
             && ivs' == ivs[order[k] := ivs[order[k]].(phys := ivs[last].phys)][last := ivs[last].(phys := SPILLED, state := SPILL)]
             && InBounds(ivs', a.list[..|a.list| - 1])
             && a'.list == Insert(ivs', a.list[..|a.list| - 1], order[k])
    requires a'.using == a.using && a'.used == a.used + a'.using
    ensures ClassInv(vregs, ivs0, ivs', order, k + 1, fl, a', cur)
  {
    hide Crowded, Settled, NoOverlap, Insert;
    var x, last := order[k], a.list[|a.list| - 1];
    assert order[..k + 1] == order[..k] + [x];
    Unprocessed(order, k, |ivs|, a.list);
    StealList(vregs, ivs, fl, a, x, ivs', a');
    assert Holds(vregs, ivs, fl, last) && last in a.list;
    assert last in order[..k];
    FrameStep(ivs0, ivs, order, k, ivs');
    assert ivs[last].phys in a.using by {
      RegsMembers(ivs, a.list, ivs[last].phys);
    }
    StealDone(vregs, ivs0, ivs, order, k, fl, a, cur, last, ivs', a');
  }

  /** A step of the other class, or a skipped interval, leaves this class as it was. */
  lemma OtherStep(vregs: seq<VReg>, ivs0: seq<LiveInterval>, ivs: seq<LiveInterval>, order: seq<nat>,
                  k: nat, fl: bool, a: Active, cur: int, ivs': seq<LiveInterval>)
    requires ClassInv(vregs, ivs0, ivs, order, k, fl, a, cur)
    requires k < |order| && !Candidate(vregs, ivs0, order, k, fl) && Frame(ivs0, ivs', order, k + 1)
    requires forall v | 0 <= v < |ivs| && vregs[v].flonum == fl :: ivs'[v] == ivs[v]
    ensures ClassInv(vregs, ivs0, ivs', order, k + 1, fl, a, cur)
  {
    assert order[..k + 1] == order[..k] + [order[k]];
    forall i | 0 <= i < |a.list|
      ensures ivs'[a.list[i]] == ivs[a.list[i]]
    {
      assert Holds(vregs, ivs, fl, a.list[i]);
    }
    ElsewhereKeeps(vregs, ivs, ivs', fl, a.list);
    hide Crowded, Orderly, Regs;
    forall r | 0 <= r < k + 1 && Candidate(vregs, ivs0, order, r, fl)
      ensures Settled(vregs, ivs0, ivs', order, r, fl, a, cur)
    {
      assert Settled(vregs, ivs0, ivs, order, r, fl, a, cur);
    }
    forall r, s | 0 <= r < s < k + 1 && Candidate(vregs, ivs0, order, r, fl) && Candidate(vregs, ivs0, order, s, fl)
      ensures NoOverlap(ivs', order, r, s)
    {
      assert NoOverlap(ivs, order, r, s);
    }
  }

  /** The class that takes the interval at rank `k` keeps its invariant, whatever the step did. */
  lemma SteppedKeeps(vregs: seq<VReg>, ivs0: seq<LiveInterval>, ivs: seq<LiveInterval>, order: seq<nat>,
                     k: nat, fl: bool, a: Active, cur: int, ivs': seq<LiveInterval>, a': Active)
    requires ClassInv(vregs, ivs0, ivs, order, k, fl, a, cur)
    requires k < |order| && cur == ivs[order[k]].start && Candidate(vregs, ivs0, order, k, fl)
    requires AllAfter(ivs, a.list, cur)
    requires (ivs', a') == Step(ivs, a, RegMax(fl), order[k])
    ensures ClassInv(vregs, ivs0, ivs', order, k + 1, fl, a', cur)
    ensures |ivs'| == |ivs| && Frame(ivs0, ivs', order, k + 1)
    ensures forall v | 0 <= v < |ivs| && vregs[v].flonum != fl :: ivs'[v] == ivs[v]
  {
    hide ClassInv, Insert, Crowded;
    var x := order[k];
    ListFacts(vregs, ivs0, ivs, order, k, fl, a, cur);
    if |a.list| >= RegMax(fl) {
      CrowdedHere(vregs, ivs0, ivs, order, k, fl, a, cur);
      var last := a.list[|a.list| - 1];
      if ivs[last].end > ivs[x].end {
        StealStep(vregs, ivs0, ivs, order, k, fl, a, cur, ivs', a');
      } else {
        KeepStep(vregs, ivs0, ivs, order, k, fl, a, cur, ivs', a');
      }
    } else {
      SomeFree(a.using, RegMax(fl));
      var regno := FirstFree(a.using, RegMax(fl), 0);
      FreeStep(vregs, ivs0, ivs, order, k, fl, a, cur, regno, ivs', a');
    }
    ListFacts(vregs, ivs0, ivs', order, k + 1, fl, a', cur);
  }

  lemma ListFacts(vregs: seq<VReg>, ivs0: seq<LiveInterval>, ivs: seq<LiveInterval>, order: seq<nat>,
                  k: nat, fl: bool, a: Active, cur: int)
    requires ClassInv(vregs, ivs0, ivs, order, k, fl, a, cur)
    ensures |a.list| <= RegMax(fl) && |a.using| == |a.list|
    ensures |vregs| == |ivs0| && InBounds(ivs, a.list) && Frame(ivs0, ivs, order, k)
    ensures forall i | 0 <= i < |a.list| :: vregs[a.list[i]].flonum == fl
    ensures k < |order| ==> order[k] < |ivs| && order[k] !in a.list
  {
    forall i | 0 <= i < |a.list|
      ensures vregs[a.list[i]].flonum == fl
    {
      assert Holds(vregs, ivs, fl, a.list[i]);
    }
    if k < |order| {
      Unprocessed(order, k, |ivs|, a.list);
    }
    RegsCount(ivs, a.list);
  }

  lemma {:induction false} RegsCount(ivs: seq<LiveInterval>, list: seq<nat>)
    requires InBounds(ivs, list)
    requires forall i, j | 0 <= i < j < |list| :: ivs[list[i]].phys != ivs[list[j]].phys
    ensures |Regs(ivs, list)| == |list|
  {
    if list != [] {
      var n := |list| - 1;
      assert list[..n + 1] == list;
      assert forall i | 0 <= i < n :: list[..n][i] == list[i];
      RegsCount(ivs, list[..n]);
      RegsAdded(ivs, list, n);
      RegsMembers(ivs, list[..n], ivs[list[n]].phys);
    }
  }

  // ----- The scan -----

  /** What the scan leaves, for one class. */
  ghost predicate Allocated(vregs: seq<VReg>, ivs0: seq<LiveInterval>, ivs: seq<LiveInterval>, order: seq<nat>, fl: bool, used: set<int>)
    requires |vregs| == |ivs0| == |ivs| && IsOrder(order, |ivs|)
  {
    && (forall v | 0 <= v < |ivs| && ivs0[v].state == NORMAL && vregs[v].flonum == fl ::
          || (ivs[v].state == NORMAL && 0 <= ivs[v].phys < RegMax(fl) && ivs[v].phys in used)
          || (ivs[v].state == SPILL && ivs[v].phys == SPILLED && Crowded(vregs, ivs0, order, fl)))
    && (forall r, s | 0 <= r < s < |order| && Candidate(vregs, ivs0, order, r, fl) && Candidate(vregs, ivs0, order, s, fl) ::
          NoOverlap(ivs, order, r, s))
  }

  lemma AllDone(vregs: seq<VReg>, ivs0: seq<LiveInterval>, ivs: seq<LiveInterval>, order: seq<nat>, fl: bool, a: Active, cur: int)
    requires ClassInv(vregs, ivs0, ivs, order, |order|, fl, a, cur)
    ensures Allocated(vregs, ivs0, ivs, order, fl, a.used)
  {
    forall v | 0 <= v < |ivs| && ivs0[v].state == NORMAL && vregs[v].flonum == fl
      ensures || (ivs[v].state == NORMAL && 0 <= ivs[v].phys < RegMax(fl) && ivs[v].phys in a.used)
              || (ivs[v].state == SPILL && ivs[v].phys == SPILLED && Crowded(vregs, ivs0, order, fl))
    {
      assert v in order;
      var r :| 0 <= r < |order| && order[r] == v;
      assert Candidate(vregs, ivs0, order, r, fl);
      assert Settled(vregs, ivs0, ivs, order, r, fl, a, cur);
    }
  }

  // ----- The scan as a function, and as the loop that computes it -----

  /** The whole state of the scan. */
  datatype Scan = Scan(ivs: seq<LiveInterval>, ireg: Active, freg: Active)

  /** One turn of the loop: skip, or expire in both classes and place `x` in its own. */
  ghost function Advance(vregs: seq<VReg>, s: Scan, x: nat): Scan {
    if !(x < |s.ivs| == |vregs| && InBounds(s.ivs, s.ireg.list) && InBounds(s.ivs, s.freg.list)) then s
    else if s.ivs[x].state != NORMAL then s
    else
      var ireg, freg := Expire(s.ivs, s.ireg, s.ivs[x].start), Expire(s.ivs, s.freg, s.ivs[x].start);
      if vregs[x].flonum then
        var (ivs', freg') := Step(s.ivs, freg, RegMax(true), x);
        Scan(ivs', ireg, freg')
      else
        var (ivs', ireg') := Step(s.ivs, ireg, RegMax(false), x);
        Scan(ivs', ireg', freg)
  }

  ghost function ScanRun(vregs: seq<VReg>, ivs0: seq<LiveInterval>, order: seq<nat>, k: nat): Scan
    requires k <= |order|
  {
    if k == 0 then Scan(ivs0, Active([], {}, {}), Active([], {}, {}))
    else Advance(vregs, ScanRun(vregs, ivs0, order, k - 1), order[k - 1])
  }

  ghost predicate BothInv(vregs: seq<VReg>, ivs0: seq<LiveInterval>, order: seq<nat>, k: nat, s: Scan, cur: int) {
    && ClassInv(vregs, ivs0, s.ivs, order, k, false, s.ireg, cur)
    && ClassInv(vregs, ivs0, s.ivs, order, k, true, s.freg, cur)
  }

  /** Every turn keeps the invariant of both classes. */
  lemma AdvanceKeeps(vregs: seq<VReg>, ivs0: seq<LiveInterval>, order: seq<nat>, k: nat, s: Scan, cur: int) returns (cur': int)
    requires k < |order| && BothInv(vregs, ivs0, order, k, s, cur)
    ensures BothInv(vregs, ivs0, order, k + 1, Advance(vregs, s, order[k]), cur')
  {
    hide ClassInv, Expire, Step;
    var x := order[k];
    ListFacts(vregs, ivs0, s.ivs, order, k, false, s.ireg, cur);
    ListFacts(vregs, ivs0, s.ivs, order, k, true, s.freg, cur);
    if s.ivs[x].state != NORMAL {
      cur' := cur;
      FrameStep(ivs0, s.ivs, order, k, s.ivs);
      OtherStep(vregs, ivs0, s.ivs, order, k, false, s.ireg, cur, s.ivs);
      OtherStep(vregs, ivs0, s.ivs, order, k, true, s.freg, cur, s.ivs);
    } else {
      cur' := s.ivs[x].start;
      ExpireKeeps(vregs, ivs0, s.ivs, order, k, false, s.ireg, cur);
      ExpireKeeps(vregs, ivs0, s.ivs, order, k, true, s.freg, cur);
      var fl := vregs[x].flonum;
      var mine := Expire(s.ivs, if fl then s.freg else s.ireg, cur');
      var other := Expire(s.ivs, if fl then s.ireg else s.freg, cur');
      var (ivs', mine') := Step(s.ivs, mine, RegMax(fl), x);
      SteppedKeeps(vregs, ivs0, s.ivs, order, k, fl, mine, cur', ivs', mine');
      OtherStep(vregs, ivs0, s.ivs, order, k, !fl, other, cur', ivs');
    }
  }

  lemma NothingDone(vregs: seq<VReg>, ivs0: seq<LiveInterval>, order: seq<nat>, fl: bool)
    requires |vregs| == |ivs0| && NormalSorted(ivs0, order) && forall v | 0 <= v < |ivs0| :: -1 <= ivs0[v].start
    ensures ClassInv(vregs, ivs0, ivs0, order, 0, fl, Active([], {}, {}), -1)
  {
  }

  lemma {:induction false} ScanRunKeeps(vregs: seq<VReg>, ivs0: seq<LiveInterval>, order: seq<nat>, k: nat) returns (cur: int)
    requires |vregs| == |ivs0| && NormalSorted(ivs0, order) && k <= |order|
    requires forall v | 0 <= v < |ivs0| :: -1 <= ivs0[v].start
    ensures BothInv(vregs, ivs0, order, k, ScanRun(vregs, ivs0, order, k), cur)
  {
    hide BothInv, Advance;
    if k == 0 {
      cur := -1;
      RunStarts(vregs, ivs0, order);
    } else {
      cur := ScanRunKeeps(vregs, ivs0, order, k - 1);
      hide NormalSorted;
      cur := AdvanceKeeps(vregs, ivs0, order, k - 1, ScanRun(vregs, ivs0, order, k - 1), cur);
    }
  }

  lemma RunStarts(vregs: seq<VReg>, ivs0: seq<LiveInterval>, order: seq<nat>)
    requires |vregs| == |ivs0| && NormalSorted(ivs0, order)
    requires forall v | 0 <= v < |ivs0| :: -1 <= ivs0[v].start
    ensures BothInv(vregs, ivs0, order, 0, ScanRun(vregs, ivs0, order, 0), -1)
  {
    hide ClassInv;
    NothingDone(vregs, ivs0, order, false);
    NothingDone(vregs, ivs0, order, true);
  }

  /**
   The scan never double-books: whatever the intervals, every interval that took
   part ends in a register of its class, disjoint in time from all others there,
   or is spilled, and then only because a full set of registers was taken by
   intervals live across one point.
   */
  lemma ScanAllocates(vregs: seq<VReg>, ivs0: seq<LiveInterval>, order: seq<nat>)
    requires |vregs| == |ivs0| && NormalSorted(ivs0, order)
    requires forall v | 0 <= v < |ivs0| :: -1 <= ivs0[v].start
    ensures var s := ScanRun(vregs, ivs0, order, |order|);
            && Frame(ivs0, s.ivs, order, |order|)
            && Allocated(vregs, ivs0, s.ivs, order, false, s.ireg.used)
            && Allocated(vregs, ivs0, s.ivs, order, true, s.freg.used)
  {
    hide ClassInv;
    var s := ScanRun(vregs, ivs0, order, |order|);
    var cur := ScanRunKeeps(vregs, ivs0, order, |order|);
    ListFacts(vregs, ivs0, s.ivs, order, |order|, true, s.freg, cur);
    AllDone(vregs, ivs0, s.ivs, order, false, s.ireg, cur);
    AllDone(vregs, ivs0, s.ivs, order, true, s.freg, cur);
  }

  method LinearScanRegisterAllocation(vregs: seq<VReg>, intervals: array<LiveInterval>, order: seq<nat>)
    returns (usedRegs: set<int>, usedFregs: set<int>)
    requires |vregs| == intervals.Length && NormalSorted(intervals[..], order)
    requires forall v | 0 <= v < |vregs| :: -1 <= intervals[v].start
    modifies intervals
    ensures var s := ScanRun(vregs, old(intervals[..]), order, |order|);
            intervals[..] == s.ivs && usedRegs == s.ireg.used && usedFregs == s.freg.used
  {
    hide BothInv, Advance, NormalSorted;
    var ireg := new Info(PHYSICAL_REG_MAX);
    var freg := new Info(PHYSICAL_FREG_MAX);
    ghost var ivs0 := intervals[..];
    for i := 0 to |order|
      invariant fresh(ireg) && fresh(freg) && fresh(ireg.active) && fresh(freg.active)
      invariant ireg != freg && ireg.active != freg.active && ireg.Valid() && freg.Valid()
      invariant ireg.physMax == RegMax(false) && freg.physMax == RegMax(true)
      invariant Scan(intervals[..], ireg.View(), freg.View()) == ScanRun(vregs, ivs0, order, i)
    {
      ghost var cur := ScanRunKeeps(vregs, ivs0, order, i);
      ScanOne(vregs, intervals, order, i, ireg, freg, ivs0, cur);
    }
    usedRegs, usedFregs := ireg.usedBits, freg.usedBits;
  }

  method ScanOne(vregs: seq<VReg>, intervals: array<LiveInterval>, order: seq<nat>, i: nat, ireg: Info, freg: Info,
                 ghost ivs0: seq<LiveInterval>, ghost cur: int)
    requires i < |order| && ireg != freg && ireg.active != freg.active
    requires ireg.Valid() && freg.Valid() && ireg.physMax == RegMax(false) && freg.physMax == RegMax(true)
    requires BothInv(vregs, ivs0, order, i, Scan(intervals[..], ireg.View(), freg.View()), cur)
    modifies intervals, ireg, freg, ireg.active, freg.active
    ensures ireg.Valid() && freg.Valid() && ireg.active == old(ireg.active) && freg.active == old(freg.active)
    ensures Scan(intervals[..], ireg.View(), freg.View())
            == Advance(vregs, old(Scan(intervals[..], ireg.View(), freg.View())), order[i])
  {
    hide ClassInv, Expire, Step;
    ghost var ivs := intervals[..];
    ghost var a, f := ireg.View(), freg.View();
    ListFacts(vregs, ivs0, ivs, order, i, false, a, cur);
    ListFacts(vregs, ivs0, ivs, order, i, true, f, cur);
    var x := order[i];
    if intervals[x].state != NORMAL {
      return;
    }
    var start := intervals[x].start;
    ExpireOldIntervals(intervals[..], ireg, start);
    assert freg.View() == f;
    ghost var a' := ireg.View();
    ExpireOldIntervals(intervals[..], freg, start);
    assert ireg.View() == a';
    ghost var f' := freg.View();
    ExpireKeeps(vregs, ivs0, ivs, order, i, false, a, cur);
    ExpireKeeps(vregs, ivs0, ivs, order, i, true, f, cur);
    ListFacts(vregs, ivs0, ivs, order, i, false, a', start);
    ListFacts(vregs, ivs0, ivs, order, i, true, f', start);
    if vregs[x].flonum {
      Place1(intervals, freg, x);
      assert ireg.View() == a';
    } else {
      Place1(intervals, ireg, x);
      assert freg.View() == f';
    }
  }
}
