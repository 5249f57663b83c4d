/** `free`, `morecore` and `malloc` over the heap's memory. */
module Umalloc {
  import opened Options
  import opened Util
  import opened UmallocHeap

  const HEADER_SIZE: nat := 16
  // A page, in headers.
  const PAGE_UNITS: nat := 256

  /** The place in a circle of `n` from which `t` is that many steps ahead of `i`. */
  function Ahead(i: nat, t: nat, n: nat): (d: nat)
    requires i < n && t < n
    ensures d < n && (d == 0 <==> i == t)
    ensures i != t ==> d > 0
  {
    if i <= t then t - i else n - i + t
  }

  lemma AheadNext(i: nat, t: nat, n: nat)
    requires i < n && t < n && i != t
    ensures Ahead(Next(i, n), t, n) == Ahead(i, t, n) - 1
  {
  }

  /** Where a block belongs in the list. */
  ghost function PlaceFor(list: seq<int>, bp: int, n: nat): (t: nat)
    requires 0 < n <= |list| && list[0] < bp && bp !in list && Ascending(list)
    requires n < |list| ==> bp < list[n]
    ensures PlaceOf(list, t, bp)
  {
    if list[n - 1] < bp then n - 1 else assert list[n - 1] in list; PlaceFor(list, bp, n - 1)
  }

  /** The two tests of the loop in `free` stop it at the place for the block. */
  lemma PlaceTest(mem: Memory, list: seq<int>, i: nat, bp: int)
    requires Linked(mem, list) && i < |list| && bp > BASE && bp !in list
    ensures list[i] in mem && mem[list[i]].ptr in mem
    ensures var p, q := list[i], mem[list[i]].ptr;
            (bp > p && bp < q) || (p >= q && (bp > p || bp < q)) <==> PlaceOf(list, i, bp)
    ensures mem[list[i]].ptr == list[Next(i, |list|)]
  {
    assert LinkAt(mem, list, i) && LinkAt(mem, list, Next(i, |list|));
    assert list[i] in list;
  }

  /** The units asked for: the bytes rounded up, and a header. */
  function Units(nbytes: nat): (n: nat)
    ensures n >= 1 && nbytes <= (n - 1) * 16 < nbytes + 16
  {
    (nbytes + HEADER_SIZE - 1) / HEADER_SIZE + 1
  }

  /** The units `morecore` asks `sbrk` for: whole pages. */
  function PageUp(nu: nat): (n: nat)
    ensures nu <= n < nu + 256 && n % 256 == 0
  {
    AlignUpIs(nu, PAGE_UNITS);
    AlignUp(nu, PAGE_UNITS)
  }

  function NewMemory(mem: Memory, a: int, n: nat, content: int -> Unit): Memory {
    if n == 0 then mem else NewMemory(mem, a, n - 1, content)[a + n - 1 := content(a + n - 1)]
  }

  lemma {:induction false} NewMemoryIs(mem: Memory, a: int, n: nat, content: int -> Unit)
    ensures var m := NewMemory(mem, a, n, content);
            && (forall x :: x in m <==> x in mem || a <= x < a + n)
            && (forall x | x in mem && !(a <= x < a + n) :: m[x] == mem[x])
            && (n > 0 ==> a in m)
  {
    if n > 0 {
      NewMemoryIs(mem, a, n - 1, content);
      var l := NewMemory(mem, a, n - 1, content);
      var m := NewMemory(mem, a, n, content);
      assert m == l[a + n - 1 := content(a + n - 1)];
      forall x ensures x in m <==> x in l || x == a + n - 1 {}
      forall x | x in mem && !(a <= x < a + n) ensures m[x] == mem[x] {
        assert x in l && m[x] == l[x];
      }
    }
  }

  class Heap {
    var mem: Memory
    var freep: int
    ghost var list: seq<int>
    ghost var used: set<int>
    ghost var owner: map<int, int>

    /**
     The free list runs through the free blocks in address order and round to
     `base`, no two of them touch, and with the blocks in use they divide the
     memory among them.
     */
    ghost predicate Valid()
      reads this
    {
      Good(mem, list, used, owner) && freep in list
    }

    constructor ()
      ensures Valid() && list == [BASE] && used == {} && owner == map[]
    {
      mem, freep := map[BASE := Unit(BASE, 0)], BASE;
      list, used, owner := [BASE], {}, map[];
      new;
      assert LinkAt(mem, list, 0);
    }

    /** The loop of `free`: the free block that `bp` belongs behind. */
    method FindPlace(bp: int) returns (p: int, ghost i: nat)
      requires Valid() && bp > BASE && bp !in list
      ensures i < |list| && PlaceOf(list, i, bp) && p == list[i]
    {
      hide Good, Linked, Divided, Gap, Ascending, LinkAt;
      GoodFacts(mem, list, used, owner);
      p := freep;
      ghost var n, t := |list|, PlaceFor(list, bp, |list|);
      i :| 0 <= i < n && list[i] == p;
      PlaceTest(mem, list, i, bp);
      while !(bp > p && bp < mem[p].ptr)
        invariant 0 <= i < n && p == list[i] && p in mem && mem[p].ptr in mem
        invariant mem[p].ptr == list[Next(i, n)]
        invariant (bp > p && bp < mem[p].ptr) || (p >= mem[p].ptr && (bp > p || bp < mem[p].ptr)) <==> PlaceOf(list, i, bp)
        decreases Ahead(i, t, n)
      {
        if p >= mem[p].ptr && (bp > p || bp < mem[p].ptr) {
          break;
        }
        p := mem[p].ptr;
        AheadNext(i, t, n);
        i := Next(i, n);
        PlaceTest(mem, list, i, bp);
      }
    }

    /** `free` of the block with header `ap - 1`; nothing for a null pointer. */
    method Free(ap: int) returns (ghost block: int)
      requires Valid() && (ap == 0 || ap - 1 in used)
      modifies this
      ensures Valid()
      ensures ap == 0 ==> mem == old(mem) && list == old(list) && used == old(used) && owner == old(owner)
      ensures ap != 0 ==> used == old(used) - {ap - 1}
      ensures SameOwners(old(owner), owner, used) && Untouched(old(mem), mem, used, owner)
      ensures ap != 0 ==> block in list && block in mem && ap - 1 in old(mem) && mem[block].size >= old(mem)[ap - 1].size
    {
      hide Good, Linked, Divided, Gap, Ascending, Untouched, SameOwners, PlaceOf, FreedHeap;
      if ap == 0 {
        block := freep;
        NothingTouched(mem, list, used, owner);
        return;
      }
      var bp := ap - 1;
      UsedFacts(mem, list, used, owner, bp);
      var p, i := FindPlace(bp);
      FreeKeeps(mem, list, used, owner, i, bp);
      ghost var h := FreedHeap(mem, list, owner, i, bp);
      SpareOwners(mem, FreedMem(mem, p, bp), used - {bp}, owner, h.owner);
      var q := mem[p].ptr;
      if bp + mem[bp].size == q {
        mem := mem[bp := Unit(mem[q].ptr, mem[bp].size + mem[q].size)];
      } else {
        mem := mem[bp := Unit(q, mem[bp].size)];
      }
      if p + mem[p].size == bp {
        mem := mem[p := Unit(mem[bp].ptr, mem[p].size + mem[bp].size)];
      } else {
        mem := mem[p := Unit(bp, mem[p].size)];
      }
      freep := p;
      list, used, owner, block := h.list, used - {bp}, h.owner, h.block;
    }

    /** `morecore`: whole pages from `sbrk`, whose answer is `more`, given to `free`. */
    method Morecore(nu: nat, more: Option<int>, content: int -> Unit) returns (p: Option<int>, ghost block: int)
      requires Valid() && nu > 0
      requires more.Some? ==> Fresh(owner, more.value, PageUp(nu))
      modifies this
      ensures Valid() && used == old(used)
      ensures more.None? ==> p == None && mem == old(mem) && list == old(list) && owner == old(owner) && freep == old(freep)
      ensures more.Some? ==> p == Some(freep) && block in list && block in mem && mem[block].size >= nu
      ensures more.Some? ==> owner.Keys == GrowOwner(old(owner), more.value, PageUp(nu)).Keys
      ensures Kept(old(mem), mem, old(used), old(owner), owner)
    {
      hide Good, Linked, Divided, Gap, Ascending, Untouched, SameOwners, GrowOwner, PageUp, Kept;
      if more.None? {
        block := freep;
        KeptRefl(mem, list, used, owner);
        return None, block;
      }
      var a, n := more.value, PageUp(nu);
      assert n >= nu by { PageUpIs(nu); }
      ghost var mem0, owner0 := mem, owner;
      NewMemoryIs(mem, a, n, content);
      var m := NewMemory(mem, a, n, content);
      assert a in m;
      mem := m[a := m[a].(size := n)];
      GrowKeeps(mem0, list, used, owner, mem, a, n);
      ghost var mem1 := mem;
      used, owner := used + {a}, GrowOwner(owner, a, n);
      assert Valid();
      ghost var owner1 := owner;
      block := Free(a + 1);
      assert used == old(used);
      KeptGrown(mem0, mem1, mem, used, owner0, owner1, owner);
      p := Some(freep);
    }

    /** Takes `n` units from the free block `p` behind `prevp`: the block itself, or its tail. */
    method Carve(prevp: int, p: int, n: nat, ghost k: nat) returns (r: int)
      requires Valid() && 0 < k < |list| && prevp == list[k - 1] && p == list[k] && n > 0
      requires p in mem && mem[p].size >= n
      modifies this
      ensures Valid() && r !in old(used) && used == old(used) + {r} && r in mem && mem[r].size == n
      ensures owner.Keys == old(owner).Keys && Kept(old(mem), mem, old(used), old(owner), owner)
    {
      hide Good, Linked, Divided, Gap, Ascending, TakeList;
      if mem[p].size == n {
        TakeKeeps(mem, list, used, owner, k);
        TakeDiffers(mem, list, used, owner, k);
        mem := mem[prevp := mem[prevp].(ptr := mem[p].ptr)];
        list, used := TakeList(list, k), used + {p};
        r := p;
      } else {
        SplitKeeps(mem, list, used, owner, k, n);
        var q := p + mem[p].size - n;
        mem := mem[p := mem[p].(size := mem[p].size - n)];
        mem := mem[q := mem[q].(size := n)];
        used, owner := used + {q}, SplitOwner(owner, q, n);
        r := q;
        assert list[k - 1] in list;
      }
      freep := prevp;
    }

    /**
     `malloc`. `more` is what `sbrk` answers when it is asked. The result is a
     block of the size asked for, or nothing when no free block is large enough
     and `sbrk` has failed.
     */
    method Malloc(nbytes: nat, more: Option<int>, content: int -> Unit) returns (r: Option<int>)
      requires Valid()
      requires more.Some? ==> Fresh(owner, more.value, PageUp(Units(nbytes)))
      modifies this
      ensures Valid() && Kept(old(mem), mem, old(used), old(owner), owner)
      ensures r.Some? ==> var h := r.value - 1; h !in old(used) && used == old(used) + {h} && h in mem && mem[h].size == Units(nbytes)
      ensures r.None? ==> more.None? && mem == old(mem) && used == old(used) && owner == old(owner) && list == old(list)
      ensures r.None? || owner.Keys != old(owner).Keys ==> NoFit(old(mem), old(list), Units(nbytes))
      ensures owner.Keys == old(owner).Keys || (more.Some? && owner.Keys == GrowOwner(old(owner), more.value, PageUp(Units(nbytes))).Keys)
    {
      hide Good, Linked, Divided, Gap, Ascending, LinkAt, GrowOwner, PageUp, Kept, Units, Fresh, NoFit;
      var nunits := Units(nbytes);
      UnitsAre(nbytes);
      KeptRefl(mem, list, used, owner);
      var prevp := freep;
      ghost var f: nat, k: nat, grown := 0, 0, false;
      f := StepFrom(mem, list, used, owner, freep);
      k := Next(f, |list|);
      var p := mem[prevp].ptr;
      StartSeen(mem, list, f, nunits);
      while true
        invariant Valid() && used == old(used) && Kept(old(mem), mem, used, old(owner), owner)
        invariant f < |list| && k < |list| && list[f] == freep && p == list[k] && p in mem
        invariant prevp in mem && prevp in list && mem[prevp].ptr == p && exists j :: 0 <= j < |list| && prevp == list[j] && Next(j, |list|) == k
        invariant Seen(mem, list, f, k, nunits)
        invariant grown ==> !NoFit(mem, list, nunits) && more.Some? && NoFit(old(mem), old(list), nunits)
        invariant grown ==> owner.Keys == GrowOwner(old(owner), more.value, PageUp(nunits)).Keys
        invariant !grown ==> mem == old(mem) && list == old(list) && owner == old(owner)
        decreases !grown, Ahead(k, f, |list|)
      {
        if mem[p].size >= nunits {
          PrevOf(mem, list, used, owner, k, nunits);
          ghost var mem0, owner0 := mem, owner;
          var h := Carve(prevp, p, nunits, k);
          KeptTrans(old(mem), mem0, mem, old(used), old(owner), owner0, owner);
          return Some(h + 1);
        }
        if p == freep {
          AllSeen(mem, list, used, owner, f, k, nunits);
          var q, block := Morecore(nunits, more, content);
          if q.None? {
            return None;
          }
          BlockFits(mem, list, block, nunits);
          grown := true;
          p := q.value;
          f := StepFrom(mem, list, used, owner, freep);
          k := f;
        }
        ghost var k0 := k;
        ghost var step := StepFrom(mem, list, used, owner, p);
        SeenNext(mem, list, used, owner, f, k, nunits);
        prevp := p;
        p := mem[p].ptr;
        k := Next(k, |list|);
      }
    }

    /** `memcpy`, unit by unit: the last one may be copied in part. */
    method CopyBytes(to: int, from: int, n: nat, bytes: nat, ghost h: int)
      requires Valid() && h in used && to == h + 1 && h in mem && n < mem[h].size && n == (bytes + HEADER_SIZE - 1) / HEADER_SIZE
      requires forall i | from <= i < from + n :: i in owner && owner[i] in used && owner[i] != h
      modifies this`mem
      ensures Valid() && SameElse(old(mem), mem, owner, h) && h in mem && mem[h].size == old(mem)[h].size
      ensures CopiedTo(old(mem), mem, to, from, n, bytes)
    {
      hide Good, Linked, Divided, Gap, Ascending, SameBytes, Mix;
      for i := 0 to n
        invariant Valid() && SameElse(old(mem), mem, owner, h) && h in mem && mem[h] == old(mem)[h] && owner == old(owner) && used == old(used)
        invariant CopiedTo(old(mem), mem, to, from, i, bytes)
      {
        UnitFacts(mem, list, used, owner, h, to + i, from + i);
        var k := bytes - HEADER_SIZE * i;
        var v := if k >= HEADER_SIZE then mem[from + i] else Mix(mem[from + i], mem[to + i], k);
        CopiedUnit(mem[from + i], mem[to + i], k);
        WriteKeeps(mem, list, used, owner, h, to + i, v);
        mem := mem[to + i := v];
      }
    }

    /** `realloc` */
    method Realloc(p: int, size: nat, more: Option<int>, content: int -> Unit) returns (r: Option<int>)
      requires Valid() && (p == 0 || p - 1 in used)
      requires more.Some? ==> Fresh(owner, more.value, PageUp(Units(size)))
      modifies this
      ensures Valid() && Kept(old(mem), mem, old(used) - {p - 1}, old(owner), owner)
      ensures size == 0 ==> r == None && used == old(used) - {p - 1}
      ensures size > 0 && r.None? ==> used == old(used) && mem == old(mem) && more.None?
      ensures size > 0 && r.Some? ==> var h := r.value - 1; h !in old(used) && used == old(used) - {p - 1} + {h} && h in mem && mem[h].size == Units(size)
      ensures size > 0 && r.Some? && p != 0 ==> p - 1 in old(mem)
      ensures size > 0 && r.Some? && p != 0 ==> forall k: nat | k < size && k < 16 * (old(mem)[p - 1].size - 1) ::
                ByteAt(mem, r.value, k).Some? && ByteAt(mem, r.value, k) == ByteAt(old(mem), p, k)
    {
      hide Good, Linked, Divided, Gap, Ascending, GrowOwner, PageUp, Fresh, NoFit, Untouched, SameOwners, Units, Kept, SameElse, CopiedTo, CopiedBytes, ByteAt;
      ghost var mem0, used0, owner0, list0 := mem, used, owner, list;
      KeptRefl(mem, list, used, owner);
      KeptLess(mem, mem, used, used - {p - 1}, owner, owner);
      NotBase(mem, list, used, owner);
      if size == 0 {
        ghost var b := Free(p);
        KeptFreed(mem0, mem, used, owner0, owner);
        return None;
      }
      r := Malloc(size, more, content);
      KeptLess(mem0, mem, used0, used0 - {p - 1}, owner0, owner);
      if p == 0 || r.None? {
        return;
      }
      var h := p - 1;
      UnitsKept(mem0, mem, list0, used0, owner0, owner, h);
      ghost var g, mem1, owner1 := r.value - 1, mem, owner;
      var n := Copied(size, mem[h].size);
      CopiedFits(size, mem[h].size);
      var bytes := CopiedBytes(size, mem[h].size);
      CopyBytes(r.value, p, n, bytes, g);
      KeptElse(mem0, mem1, mem, used0, owner0, owner1, g);
      ghost var mem2 := mem;
      KeptRefl(mem2, list, used, owner);
      UnitsKept(mem2, mem2, list, used, owner, owner, g);
      ghost var b := Free(p);
      KeptFreed(mem2, mem, used, owner1, owner);
      KeptLess(mem0, mem2, used0, used0 - {h}, owner0, owner1);
      KeptLess(mem2, mem, used, used0 - {h}, owner1, owner);
      KeptTrans(mem0, mem2, mem, used0 - {h}, owner0, owner1, owner);
      KeptBlock(mem2, mem, used, owner1, owner, g);
      CopiedStays(mem0, mem1, mem2, mem, r.value, p, n, bytes);
      BytesCopied(mem0, mem, r.value, p, size, mem0[p - 1].size);
    }
  }

  lemma GoodFacts(mem: Memory, list: seq<int>, used: set<int>, owner: map<int, int>)
    requires Good(mem, list, used, owner)
    ensures Linked(mem, list) && Ascending(list) && |list| > 0 && list[0] == BASE
  {
  }

  lemma NothingTouched(mem: Memory, list: seq<int>, used: set<int>, owner: map<int, int>)
    requires Good(mem, list, used, owner)
    ensures SameOwners(owner, owner, used) && Untouched(mem, mem, used, owner)
  {
  }

  lemma UsedFacts(mem: Memory, list: seq<int>, used: set<int>, owner: map<int, int>, bp: int)
    requires Good(mem, list, used, owner) && bp in used
    ensures bp > BASE && bp in mem && bp !in list && mem[bp].size > 0
  {
  }

  lemma SpareOwners(before: Memory, after: Memory, used: set<int>, o1: map<int, int>, o2: map<int, int>)
    requires Untouched(before, after, used, o1) && SameOwners(o1, o2, used)
    ensures Untouched(before, after, used, o2)
  {
  }

  /** The user's blocks keep their units and what those hold. */
  ghost predicate Kept(before: Memory, after: Memory, used: set<int>, o1: map<int, int>, o2: map<int, int>) {
    forall x | x in o1 && o1[x] in used :: x in o2 && o2[x] == o1[x] && x in before && x in after && after[x] == before[x]
  }

  lemma KeptRefl(mem: Memory, list: seq<int>, used: set<int>, owner: map<int, int>)
    requires Good(mem, list, used, owner)
    ensures Kept(mem, mem, used, owner, owner)
  {
  }

  lemma KeptTrans(a: Memory, b: Memory, c: Memory, used: set<int>, o1: map<int, int>, o2: map<int, int>, o3: map<int, int>)
    requires Kept(a, b, used, o1, o2) && Kept(b, c, used, o2, o3)
    ensures Kept(a, c, used, o1, o3)
  {
  }

  lemma KeptGrown(a: Memory, b: Memory, c: Memory, used: set<int>, o1: map<int, int>, o2: map<int, int>, o3: map<int, int>)
    requires Untouched(a, b, used, o1) && SameUnder(o1, o2) && Untouched(b, c, used, o3) && SameOwners(o2, o3, used)
    ensures Kept(a, c, used, o1, o3) && o3.Keys == o2.Keys
  {
  }

  lemma PageUpIs(nu: nat)
    ensures PageUp(nu) >= nu
  {
  }

  lemma UnitsAre(nbytes: nat)
    ensures Units(nbytes) > 0
  {
  }

  lemma TakeDiffers(mem: Memory, list: seq<int>, used: set<int>, owner: map<int, int>, k: nat)
    requires Good(mem, list, used, owner) && 0 < k < |list|
    ensures list[k - 1] != list[k]
  {
  }

  // ----- The search -----

  /** No free block is large enough. */
  ghost predicate NoFit(mem: Memory, list: seq<int>, n: nat) {
    forall b | b in list :: b in mem ==> mem[b].size < n
  }

  /** The blocks passed on the way from `f` round to `k` are too small. */
  ghost predicate Seen(mem: Memory, list: seq<int>, f: nat, k: nat, n: nat)
    requires f < |list| && k < |list|
  {
    forall j | 0 <= j < |list| && Ahead(j, f, |list|) > Ahead(k, f, |list|) :: list[j] in mem ==> mem[list[j]].size < n
  }

  lemma StartSeen(mem: Memory, list: seq<int>, f: nat, n: nat)
    requires f < |list|
    ensures Seen(mem, list, f, Next(f, |list|), n)
  {
  }

  lemma SeenNext(mem: Memory, list: seq<int>, used: set<int>, owner: map<int, int>, f: nat, k: nat, n: nat)
    requires Good(mem, list, used, owner) && f < |list| && k < |list|
    requires k == f || (Seen(mem, list, f, k, n) && list[k] in mem && mem[list[k]].size < n)
    ensures Seen(mem, list, f, Next(k, |list|), n)
    ensures list[k] in mem && mem[list[k]].ptr == list[Next(k, |list|)] && list[Next(k, |list|)] in mem && list[k] in list
    ensures k != f ==> Ahead(Next(k, |list|), f, |list|) < Ahead(k, f, |list|)
  {
    assert LinkAt(mem, list, k) && LinkAt(mem, list, Next(k, |list|));
  }

  lemma AllSeen(mem: Memory, list: seq<int>, used: set<int>, owner: map<int, int>, f: nat, k: nat, n: nat)
    requires Good(mem, list, used, owner) && f < |list| && k < |list| && list[f] == list[k]
    requires Seen(mem, list, f, k, n) && list[k] in mem && mem[list[k]].size < n
    ensures NoFit(mem, list, n) && f == k
  {
    SameIndex(list, f, k);
    forall b | b in list ensures b in mem ==> mem[b].size < n {
      var j :| 0 <= j < |list| && list[j] == b;
      assert j != f ==> Ahead(j, f, |list|) > 0;
    }
  }

  lemma BlockFits(mem: Memory, list: seq<int>, block: int, n: nat)
    requires block in list && block in mem && mem[block].size >= n
    ensures !NoFit(mem, list, n)
  {
  }

  lemma SameIndex(list: seq<int>, i: nat, j: nat)
    requires Ascending(list) && i < |list| && j < |list| && list[i] == list[j]
    ensures i == j
  {
  }

  /** A block that is large enough is not `base`, and the block before it in the circle is the one before it in the list. */
  lemma PrevOf(mem: Memory, list: seq<int>, used: set<int>, owner: map<int, int>, k: nat, n: nat)
    requires Good(mem, list, used, owner) && k < |list| && n > 0 && list[k] in mem && mem[list[k]].size >= n
    ensures k > 0
  {
    assert LinkAt(mem, list, k);
  }

  ghost function StepFrom(mem: Memory, list: seq<int>, used: set<int>, owner: map<int, int>, p: int): (i: nat)
    requires Good(mem, list, used, owner) && p in list
    ensures i < |list| && list[i] == p && p in mem && mem[p].ptr == list[Next(i, |list|)] && mem[p].ptr in mem
  {
    var i :| 0 <= i < |list| && list[i] == p;
    assert LinkAt(mem, list, i) && LinkAt(mem, list, Next(i, |list|));
    i
  }

  // ----- The user's blocks -----

  /** The bytes that `realloc` copies from a block of the given units. */
  function CopiedBytes(size: nat, units: nat): nat {
    var s := if units > 0 then (units - 1) * HEADER_SIZE else 0;
    if size > s then s else size
  }

  /** The units they reach into. */
  function Copied(size: nat, units: nat): nat {
    (CopiedBytes(size, units) + HEADER_SIZE - 1) / HEADER_SIZE
  }

  /** Byte `b` of a word, lowest first. */
  function WordByte(x: int, b: nat): nat
    decreases b
  {
    if b == 0 then x % 256 else WordByte(x / 256, b - 1)
  }

  /** Byte `b` of a unit of two words. */
  function UnitByte(u: Unit, b: nat): nat {
    if b < 8 then WordByte(u.ptr, b) else WordByte(u.size, b - 8)
  }

  /** Byte `k` of what begins at a unit. */
  function ByteAt(mem: Memory, at: int, k: nat): Option<nat> {
    if at + k / 16 in mem then Some(UnitByte(mem[at + k / 16], k % 16)) else None
  }

  /** The word with its first `k` bytes taken from another. */
  function MixWord(src: int, dst: int, k: nat): int
    decreases k
  {
    if k == 0 then dst else src % 256 + 256 * MixWord(src / 256, dst / 256, k - 1)
  }

  lemma {:induction false} MixWordIs(src: int, dst: int, k: nat, b: nat)
    ensures WordByte(MixWord(src, dst, k), b) == if b < k then WordByte(src, b) else WordByte(dst, b)
    decreases k
  {
    if k > 0 && b > 0 {
      MixWordIs(src / 256, dst / 256, k - 1, b - 1);
    }
  }

  lemma {:induction false} MixWordNat(src: nat, dst: nat, k: nat)
    ensures MixWord(src, dst, k) >= 0
    decreases k
  {
    if k > 0 {
      MixWordNat(src / 256, dst / 256, k - 1);
    }
  }

  /** The words of a unit, with the first `k` bytes taken from another. */
  function Mix(src: Unit, dst: Unit, k: nat): Unit {
    MixWordNat(src.size, dst.size, if k < 8 then 0 else k - 8);
    if k < 8 then dst.(ptr := MixWord(src.ptr, dst.ptr, k)) else Unit(src.ptr, MixWord(src.size, dst.size, k - 8))
  }

  /** The first `k` bytes are the same. */
  predicate SameBytes(u: Unit, v: Unit, k: int) {
    forall b: nat | b < k && b < HEADER_SIZE :: UnitByte(u, b) == UnitByte(v, b)
  }

  lemma MixedSame(src: Unit, dst: Unit, k: nat)
    ensures SameBytes(Mix(src, dst, k), src, k)
    ensures forall b: nat | k <= b < HEADER_SIZE :: UnitByte(Mix(src, dst, k), b) == UnitByte(dst, b)
  {
    forall b: nat | b < HEADER_SIZE ensures UnitByte(Mix(src, dst, k), b) == UnitByte(if b < k then src else dst, b) {
      MixWordIs(src.ptr, dst.ptr, k, b);
      if k >= 8 && b >= 8 {
        MixWordIs(src.size, dst.size, k - 8, b - 8);
      }
    }
  }

  /** The first `bytes` bytes have been copied, as far as they lie in the first `n` units. */
  ghost predicate CopiedTo(before: Memory, after: Memory, to: int, from: int, n: nat, bytes: nat) {
    forall x | to <= x < to + n ::
      x in after && x - to + from in before && SameBytes(after[x], before[x - to + from], bytes - HEADER_SIZE * (x - to))
  }

  lemma CopiedUnit(src: Unit, dst: Unit, k: nat)
    ensures SameBytes(if k >= HEADER_SIZE then src else Mix(src, dst, k), src, k)
  {
    MixedSame(src, dst, k);
  }

  /** Every byte asked for that the old block had is copied. */
  lemma BytesCopied(before: Memory, after: Memory, to: int, from: int, size: nat, units: nat)
    requires units > 0 && CopiedTo(before, after, to, from, Copied(size, units), CopiedBytes(size, units))
    ensures forall k: nat | k < size && k < 16 * (units - 1) ::
              ByteAt(after, to, k).Some? && ByteAt(after, to, k) == ByteAt(before, from, k)
  {
    forall k: nat | k < size && k < 16 * (units - 1)
      ensures ByteAt(after, to, k).Some? && ByteAt(after, to, k) == ByteAt(before, from, k)
    {
      var i := k / HEADER_SIZE;
      var x := to + i;
      assert to <= x < to + Copied(size, units);
      assert SameBytes(after[x], before[x - to + from], CopiedBytes(size, units) - HEADER_SIZE * (x - to));
    }
  }

  lemma CopiedStays(a: Memory, b: Memory, c: Memory, d: Memory, to: int, from: int, n: nat, bytes: nat)
    requires CopiedTo(b, c, to, from, n, bytes)
    requires forall x | from <= x < from + n :: x in a && x in b && a[x] == b[x]
    requires forall x | to <= x < to + n :: x in d && d[x] == c[x]
    ensures CopiedTo(a, d, to, from, n, bytes)
  {
  }

  lemma CopiedFits(size: nat, units: nat)
    ensures Copied(size, units) < Units(size) && (units > 0 ==> Copied(size, units) < units)
  {
  }

  /** Only units of `h`'s behind its header have changed. */
  ghost predicate SameElse(before: Memory, after: Memory, owner: map<int, int>, h: int) {
    after.Keys == before.Keys && forall x | x in before && (x == h || x !in owner || owner[x] != h) :: after[x] == before[x]
  }

  lemma WriteKeeps(mem: Memory, list: seq<int>, used: set<int>, owner: map<int, int>, h: int, x: int, v: Unit)
    requires Good(mem, list, used, owner) && h in used && x in owner && owner[x] == h && x != h && x in mem
    ensures Good(mem[x := v], list, used, owner)
  {
    var m := mem[x := v];
    assert x !in used && x !in list by {
      if x in used || x in list {
        OwnerOf(mem, list, used, owner, x);
      }
    }
    forall i | 0 <= i < |list| ensures LinkAt(m, list, i) && Gap(m, list, i) {
      assert LinkAt(mem, list, i) && Gap(mem, list, i) && list[i] in list;
    }
    forall b | b in m && IsBlock(list, used, b) ensures Owns(m, owner, b) {
      assert Owns(mem, owner, b);
    }
  }

  lemma UnitFacts(mem: Memory, list: seq<int>, used: set<int>, owner: map<int, int>, h: int, to: int, from: int)
    requires Good(mem, list, used, owner) && h in used && h in mem && h < to < h + mem[h].size && from in owner
    ensures to in mem && to in owner && owner[to] == h && from in mem
  {
    assert IsBlock(list, used, h) && Owns(mem, owner, h);
  }

  lemma NotBase(mem: Memory, list: seq<int>, used: set<int>, owner: map<int, int>)
    requires Good(mem, list, used, owner)
    ensures -1 !in used
  {
  }

  /** A block in use holds its units before and after. */
  lemma UnitsKept(before: Memory, after: Memory, list: seq<int>, used: set<int>, o1: map<int, int>, o2: map<int, int>, h: int)
    requires Good(before, list, used, o1) && Kept(before, after, used, o1, o2) && h in used
    ensures h in before && h in after && after[h] == before[h] && before[h].size > 0
    ensures forall x | h <= x < h + before[h].size :: x in o1 && o1[x] == h && x in o2 && o2[x] == h && x in before && x in after && after[x] == before[x]
  {
    assert IsBlock(list, used, h) && Owns(before, o1, h);
    assert h in o1;
  }

  lemma KeptElse(a: Memory, b: Memory, c: Memory, used: set<int>, o1: map<int, int>, o2: map<int, int>, g: int)
    requires Kept(a, b, used, o1, o2) && SameElse(b, c, o2, g) && g !in used
    ensures Kept(a, c, used, o1, o2)
  {
  }

  lemma KeptFreed(a: Memory, b: Memory, used: set<int>, o1: map<int, int>, o2: map<int, int>)
    requires SameOwners(o1, o2, used) && Untouched(a, b, used, o2)
    ensures Kept(a, b, used, o1, o2)
  {
  }

  lemma KeptLess(a: Memory, b: Memory, used: set<int>, less: set<int>, o1: map<int, int>, o2: map<int, int>)
    requires Kept(a, b, used, o1, o2) && less <= used
    ensures Kept(a, b, less, o1, o2)
  {
  }

  lemma KeptBlock(a: Memory, b: Memory, used: set<int>, o1: map<int, int>, o2: map<int, int>, h: int)
    requires Kept(a, b, used, o1, o2) && h in used && h in a
    requires forall x | h <= x < h + a[h].size :: x in o1 && o1[x] == h
    ensures forall x | h <= x < h + a[h].size :: x in a && x in b && b[x] == a[x]
  {
  }
}
