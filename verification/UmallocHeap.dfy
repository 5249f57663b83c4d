/**
 The runtime allocator (Kernighan and Ritchie's, section 8.7 of "The C
 Programming Language"). Memory is counted in headers; address 0 is the static
 header `base`, and what `sbrk` returns lies above it. Every unit of memory has
 contents, which are a header where a block begins and the user's elsewhere.
 */
module UmallocHeap {

  const BASE: int := 0

  datatype Unit = Unit(ptr: int, size: nat)

  type Memory = map<int, Unit>

  /** The free blocks in address order from `base` on. */
  ghost predicate Linked(mem: Memory, list: seq<int>) {
    && |list| > 0 && list[0] == BASE
    && Ascending(list)
    && (forall i | 0 <= i < |list| :: LinkAt(mem, list, i))
  }

  ghost predicate Ascending(list: seq<int>) {
    forall i, j | 0 <= i < j < |list| :: list[i] < list[j]
  }

  /** Each points to the next and the last to `base`, the only one without size. */
  ghost predicate LinkAt(mem: Memory, list: seq<int>, i: nat)
    requires i < |list|
  {
    list[i] in mem && mem[list[i]].ptr == list[Next(i, |list|)] && (mem[list[i]].size > 0 <==> i > 0)
  }

  function Next(i: nat, n: nat): (r: nat)
    requires i < n
    ensures r < n
  {
    if i + 1 < n then i + 1 else 0
  }

  /** A free block that does not touch the next one. */
  ghost predicate Gap(mem: Memory, list: seq<int>, i: nat)
    requires i < |list|
  {
    i + 1 < |list| ==> list[i] in mem && list[i] + mem[list[i]].size != list[i + 1]
  }

  ghost predicate IsBlock(list: seq<int>, used: set<int>, b: int) {
    b > BASE && (b in used || b in list)
  }

  ghost predicate Owns(mem: Memory, owner: map<int, int>, b: int)
    requires b in mem
  {
    forall x | b <= x < b + mem[b].size :: x in owner && owner[x] == b
  }

  ghost predicate UsedOk(mem: Memory, list: seq<int>, used: set<int>) {
    forall u | u in used :: u > BASE && u in mem && u !in list && mem[u].size > 0
  }

  ghost predicate OwnersOk(mem: Memory, list: seq<int>, used: set<int>, owner: map<int, int>) {
    && (forall x | x in owner :: x > BASE && x in mem)
    && (forall x | x in owner :: IsBlock(list, used, owner[x]) && owner[x] in mem && owner[x] <= x < owner[x] + mem[owner[x]].size)
  }

  ghost predicate OwnsOk(mem: Memory, list: seq<int>, used: set<int>, owner: map<int, int>) {
    forall b | b in mem && IsBlock(list, used, b) :: Owns(mem, owner, b)
  }

  /** The blocks, free and in use, divide the memory got from `sbrk` among them. */
  ghost predicate Divided(mem: Memory, list: seq<int>, used: set<int>, owner: map<int, int>) {
    BASE in mem && UsedOk(mem, list, used) && OwnersOk(mem, list, used, owner) && OwnsOk(mem, list, used, owner)
  }

  /** What the user's blocks hold is untouched. */
  ghost predicate Untouched(before: Memory, after: Memory, used: set<int>, owner: map<int, int>) {
    forall x | x in owner && owner[x] in used :: x in before && x in after && after[x] == before[x]
  }

  // ----- A block put into the list -----

  function InsertList(list: seq<int>, t: nat, bp: int): seq<int>
    requires t < |list|
  {
    list[..t + 1] + [bp] + list[t + 1..]
  }

  function InsertMem(mem: Memory, p: int, bp: int): Memory
    requires p in mem && bp in mem
  {
    mem[bp := mem[bp].(ptr := mem[p].ptr)][p := mem[p].(ptr := bp)]
  }

  /** `bp` lies behind `list[t]` and ahead of the next free block. */
  ghost predicate PlaceOf(list: seq<int>, t: nat, bp: int) {
    t < |list| && list[t] < bp && (t + 1 < |list| ==> bp < list[t + 1])
  }

  lemma InsertLinked(mem: Memory, list: seq<int>, t: nat, bp: int)
    requires Linked(mem, list) && PlaceOf(list, t, bp) && bp in mem && mem[bp].size > 0
    ensures list[t] in mem
    ensures Linked(InsertMem(mem, list[t], bp), InsertList(list, t, bp))
  {
    assert LinkAt(mem, list, t);
    var m, l := InsertMem(mem, list[t], bp), InsertList(list, t, bp);
    InsertAt(list, t, bp);
    forall i | 0 <= i < |l| ensures LinkAt(m, l, i) {
      if i != t && i != t + 1 {
        var j := if i < t then i else i - 1;
        assert LinkAt(mem, list, j);
        assert list[j] != list[t] && list[j] != bp;
      }
    }
  }

  lemma InsertAt(list: seq<int>, t: nat, bp: int)
    requires Ascending(list) && PlaceOf(list, t, bp)
    ensures var l := InsertList(list, t, bp);
            && |l| == |list| + 1 && Ascending(l) && l[0] == list[0]
            && (forall i | 0 <= i < |l| :: l[i] == if i <= t then list[i] else if i == t + 1 then bp else list[i - 1])
            && (forall i | 0 <= i < |list| :: list[i] != bp)
  {
    var l := InsertList(list, t, bp);
    forall i | 0 <= i < |l| ensures l[i] == (if i <= t then list[i] else if i == t + 1 then bp else list[i - 1]) {}
  }

  lemma InsertGaps(mem: Memory, list: seq<int>, t: nat, bp: int, i: nat)
    requires Linked(mem, list) && PlaceOf(list, t, bp) && bp in mem && mem[bp].size > 0
    requires i < |list| + 1 && i != t && i != t + 1 && Gap(mem, list, if i < t then i else i - 1)
    requires list[t] in mem
    ensures Gap(InsertMem(mem, list[t], bp), InsertList(list, t, bp), i)
  {
    InsertAt(list, t, bp);
    var j := if i < t then i else i - 1;
    assert LinkAt(mem, list, j);
  }

  lemma InsertDivided(mem: Memory, list: seq<int>, used: set<int>, owner: map<int, int>, t: nat, bp: int)
    requires Linked(mem, list) && Divided(mem, list, used, owner) && PlaceOf(list, t, bp) && bp in used && list[t] in mem
    ensures Divided(InsertMem(mem, list[t], bp), InsertList(list, t, bp), used - {bp}, owner)
    ensures Untouched(mem, InsertMem(mem, list[t], bp), used - {bp}, owner)
  {
    var m, l := InsertMem(mem, list[t], bp), InsertList(list, t, bp);
    var rest := used - {bp};
    InsertIn(list, t, bp);
    forall b | b in m && IsBlock(l, rest, b) ensures Owns(m, owner, b) {
      assert IsBlock(list, used, b) && Owns(mem, owner, b);
    }
    forall x | x in owner ensures IsBlock(l, rest, owner[x]) {
      assert IsBlock(list, used, owner[x]);
    }
    forall x | x in owner && owner[x] in rest ensures m[x] == mem[x] {
      OwnerOf(mem, list, used, owner, bp);
      assert x != bp;
      if list[t] != BASE {
        assert IsBlock(list, used, list[t]);
        OwnerOf(mem, list, used, owner, list[t]);
      }
      assert x != list[t];
    }
  }

  /** A block's header belongs to it. */
  lemma OwnerOf(mem: Memory, list: seq<int>, used: set<int>, owner: map<int, int>, b: int)
    requires Linked(mem, list) && Divided(mem, list, used, owner) && IsBlock(list, used, b)
    ensures b in mem && b in owner && owner[b] == b
  {
    if b !in used {
      var i :| 0 <= i < |list| && list[i] == b;
      assert LinkAt(mem, list, i);
    }
    assert Owns(mem, owner, b);
  }

  lemma InsertIn(list: seq<int>, t: nat, bp: int)
    requires t < |list|
    ensures forall b :: b in InsertList(list, t, bp) <==> b in list || b == bp
  {
    forall b ensures b in InsertList(list, t, bp) <==> b in list || b == bp {
      assert list == list[..t + 1] + list[t + 1..];
    }
  }

  // ----- Two neighbours merged -----

  function MergeList(list: seq<int>, k: nat): seq<int>
    requires k + 1 < |list|
  {
    list[..k + 1] + list[k + 2..]
  }

  function MergeMem(mem: Memory, a: int, b: int): Memory
    requires a in mem && b in mem
  {
    mem[a := Unit(mem[b].ptr, mem[a].size + mem[b].size)]
  }

  function MergeOwner(owner: map<int, int>, a: int, b: int): map<int, int> {
    map x | x in owner :: if owner[x] == b then a else owner[x]
  }

  lemma MergeLinked(mem: Memory, list: seq<int>, k: nat)
    requires Linked(mem, list) && 0 < k && k + 1 < |list|
    ensures list[k] in mem && list[k + 1] in mem
    ensures Linked(MergeMem(mem, list[k], list[k + 1]), MergeList(list, k))
  {
    assert LinkAt(mem, list, k) && LinkAt(mem, list, k + 1);
    var m, l := MergeMem(mem, list[k], list[k + 1]), MergeList(list, k);
    MergeAt(list, k);
    forall i | 0 <= i < |l| ensures LinkAt(m, l, i) {
      var j := if i <= k then i else i + 1;
      assert LinkAt(mem, list, j);
      assert i != k ==> list[j] != list[k];
    }
  }

  lemma MergeAt(list: seq<int>, k: nat)
    requires Ascending(list) && k + 1 < |list|
    ensures var l := MergeList(list, k);
            && |l| == |list| - 1 && Ascending(l) && l[0] == list[0]
            && (forall i | 0 <= i < |l| :: l[i] == if i <= k then list[i] else list[i + 1])
  {
    var l := MergeList(list, k);
    forall i | 0 <= i < |l| ensures l[i] == (if i <= k then list[i] else list[i + 1]) {}
  }

  lemma MergeGaps(mem: Memory, list: seq<int>, k: nat, i: nat)
    requires Linked(mem, list) && 0 < k && k + 1 < |list| && i + 1 < |list|
    requires list[k] in mem && list[k + 1] in mem
    requires list[k] + mem[list[k]].size == list[k + 1]
    requires Gap(mem, list, if i < k then i else i + 1)
    ensures Gap(MergeMem(mem, list[k], list[k + 1]), MergeList(list, k), i)
  {
    MergeAt(list, k);
    assert LinkAt(mem, list, k) && LinkAt(mem, list, k + 1);
    if i < k {
      assert LinkAt(mem, list, i);
    }
  }

  lemma MergeDivided(mem: Memory, list: seq<int>, used: set<int>, owner: map<int, int>, k: nat)
    requires Linked(mem, list) && Divided(mem, list, used, owner) && 0 < k && k + 1 < |list|
    requires list[k] in mem && list[k + 1] in mem
    requires list[k] + mem[list[k]].size == list[k + 1]
    ensures var m := MergeMem(mem, list[k], list[k + 1]);
            Divided(m, MergeList(list, k), used, MergeOwner(owner, list[k], list[k + 1])) && Untouched(mem, m, used, owner)
  {
    var a, b := list[k], list[k + 1];
    var m, l, o := MergeMem(mem, a, b), MergeList(list, k), MergeOwner(owner, a, b);
    MergeIn(list, k);
    assert IsBlock(list, used, a) && IsBlock(list, used, b);
    assert Owns(mem, owner, a) && Owns(mem, owner, b);
    forall c | c in m && IsBlock(l, used, c) ensures Owns(m, o, c) {
      assert IsBlock(list, used, c) && Owns(mem, owner, c);
      if c != a {
        forall x | c <= x < c + m[c].size ensures x in o && o[x] == c {}
      }
    }
    forall x | x in o ensures IsBlock(l, used, o[x]) && o[x] in m && o[x] <= x < o[x] + m[o[x]].size {
      assert IsBlock(list, used, owner[x]);
    }
    OwnerOf(mem, list, used, owner, a);
  }

  lemma MergeIn(list: seq<int>, k: nat)
    requires k + 1 < |list| && Ascending(list)
    ensures forall b :: b in MergeList(list, k) <==> b in list && b != list[k + 1]
  {
    var l := MergeList(list, k);
    forall b ensures b in l <==> b in list && b != list[k + 1] {
      if b in l {
        var i :| 0 <= i < |l| && l[i] == b;
        assert b == list[if i <= k then i else i + 1];
      }
      if b in list && b != list[k + 1] {
        var j :| 0 <= j < |list| && list[j] == b;
        assert l[if j <= k then j else j - 1] == b;
      }
    }
  }

  // ----- What freeing makes of the heap -----

  /** The heap between calls: no two free blocks touch. */
  ghost predicate Good(mem: Memory, list: seq<int>, used: set<int>, owner: map<int, int>) {
    && Linked(mem, list) && Divided(mem, list, used, owner)
    && (forall i | 0 <= i < |list| :: Gap(mem, list, i))
  }

  function FreedMem(mem: Memory, p: int, bp: int): Memory
    requires p in mem && bp in mem && mem[p].ptr in mem
  {
    var q := mem[p].ptr;
    var m := if bp + mem[bp].size == q then mem[bp := Unit(mem[q].ptr, mem[bp].size + mem[q].size)] else mem[bp := Unit(q, mem[bp].size)];
    if p + m[p].size == bp then m[p := Unit(m[bp].ptr, m[p].size + m[bp].size)] else m[p := Unit(bp, m[p].size)]
  }

  /** What freeing leaves: the list, the owners, and the free block that took `bp` in. */
  datatype Freed = Freed(list: seq<int>, owner: map<int, int>, block: int)

  function FreedHeap(mem: Memory, list: seq<int>, owner: map<int, int>, t: nat, bp: int): Freed
    requires t < |list| && list[t] in mem && bp in mem
  {
    var p := list[t];
    var up := t + 1 < |list| && bp + mem[bp].size == list[t + 1];
    var l1 := InsertList(list, t, bp);
    var l2 := if up then MergeList(l1, t + 1) else l1;
    var o2 := if up then MergeOwner(owner, bp, list[t + 1]) else owner;
    if p + mem[p].size == bp then Freed(if t + 1 < |l2| then MergeList(l2, t) else l2, MergeOwner(o2, p, bp), p)
    else Freed(l2, o2, bp)
  }

  ghost predicate GapsBut(mem: Memory, list: seq<int>, a: nat, b: nat) {
    forall i | 0 <= i < |list| && i != a && i != b :: Gap(mem, list, i)
  }

  /** Blocks in use keep their units, and get no others. */
  ghost predicate SameOwners(before: map<int, int>, after: map<int, int>, used: set<int>) {
    after.Keys == before.Keys && forall x | x in before && (before[x] in used || after[x] in used) :: after[x] == before[x]
  }

  lemma InsertKeeps(mem: Memory, list: seq<int>, used: set<int>, owner: map<int, int>, t: nat, bp: int)
    requires Good(mem, list, used, owner) && PlaceOf(list, t, bp) && bp in used
    ensures t < |list| && list[t] in mem && bp in mem && mem[list[t]].ptr == list[Next(t, |list|)] && mem[list[t]].ptr in mem
    ensures (mem[list[t]].size > 0 <==> t > 0) && mem[bp].size > 0 && bp > BASE
    ensures var m, l := InsertMem(mem, list[t], bp), InsertList(list, t, bp);
            && Linked(m, l) && Divided(m, l, used - {bp}, owner) && Untouched(mem, m, used - {bp}, owner)
            && GapsBut(m, l, t, t + 1)
            && |l| == |list| + 1 && l[t] == list[t] && l[t + 1] == bp && (t + 1 < |list| ==> l[t + 2] == list[t + 1])
  {
    assert LinkAt(mem, list, t) && LinkAt(mem, list, Next(t, |list|));
    InsertLinked(mem, list, t, bp);
    InsertDivided(mem, list, used, owner, t, bp);
    InsertAt(list, t, bp);
    var m, l := InsertMem(mem, list[t], bp), InsertList(list, t, bp);
    forall i | 0 <= i < |l| && i != t && i != t + 1 ensures Gap(m, l, i) {
      InsertGaps(mem, list, t, bp, i);
    }
  }

  lemma MergeKeeps(mem: Memory, list: seq<int>, used: set<int>, owner: map<int, int>, k: nat, hole: nat)
    requires Linked(mem, list) && Divided(mem, list, used, owner) && 0 < k && k + 1 < |list|
    requires list[k] in mem && list[k] + mem[list[k]].size == list[k + 1]
    requires GapsBut(mem, list, hole, k) && hole <= k
    ensures list[k + 1] in mem
    ensures var m, l, o := MergeMem(mem, list[k], list[k + 1]), MergeList(list, k), MergeOwner(owner, list[k], list[k + 1]);
            && Linked(m, l) && Divided(m, l, used, o) && Untouched(mem, m, used, owner) && SameOwners(owner, o, used)
            && (if hole < k then GapsBut(m, l, hole, hole) else forall i | 0 <= i < |l| :: Gap(m, l, i))
            && |l| == |list| - 1 && (forall i | 0 <= i <= k :: l[i] == list[i])
  {
    MergeLinked(mem, list, k);
    MergeDivided(mem, list, used, owner, k);
    MergeAt(list, k);
    var m, l := MergeMem(mem, list[k], list[k + 1]), MergeList(list, k);
    forall i | 0 <= i < |l| && (hole < k ==> i != hole) ensures Gap(m, l, i) {
      MergeGaps(mem, list, k, i);
    }
    assert list[k] in list && list[k + 1] in list;
    assert list[k] !in used && list[k + 1] !in used;
  }

  lemma UntouchedTrans(a: Memory, b: Memory, c: Memory, used: set<int>, o1: map<int, int>, o2: map<int, int>)
    requires Untouched(a, b, used, o1) && Untouched(b, c, used, o2) && SameOwners(o1, o2, used)
    ensures Untouched(a, c, used, o1)
  {
  }

  lemma FreeKeeps(mem: Memory, list: seq<int>, used: set<int>, owner: map<int, int>, t: nat, bp: int)
    requires Good(mem, list, used, owner) && PlaceOf(list, t, bp) && bp in used
    ensures list[t] in mem && mem[list[t]].ptr in mem && bp in mem
    ensures var m, h := FreedMem(mem, list[t], bp), FreedHeap(mem, list, owner, t, bp);
            && Good(m, h.list, used - {bp}, h.owner) && Untouched(mem, m, used - {bp}, owner)
            && SameOwners(owner, h.owner, used - {bp})
            && list[t] in h.list && h.block in h.list && h.block in m && m[h.block].size >= mem[bp].size
  {
    hide Linked, Divided, Gap, Ascending, InsertList, MergeList, Untouched, MergeOwner, SameOwners, PlaceOf;
    InsertKeeps(mem, list, used, owner, t, bp);
    var p, q, size := list[t], mem[list[t]].ptr, mem[bp].size;
    var rest := used - {bp};
    var m1, l1 := InsertMem(mem, p, bp), InsertList(list, t, bp);
    var m2, l2, o2 := m1, l1, owner;
    assert SameOwners(owner, owner, rest) by { OwnersRefl(owner, rest); }
    if t + 1 < |list| && bp + size == list[t + 1] {
      MergeKeeps(m1, l1, rest, owner, t + 1, t);
      m2, l2, o2 := MergeMem(m1, bp, q), MergeList(l1, t + 1), MergeOwner(owner, bp, q);
      UntouchedTrans(mem, m1, m2, rest, owner, owner);
    } else {
      NoTouch(m1, l1, t, t + 1);
    }
    assert GapsBut(m2, l2, t, t);
    assert p < bp by { PlaceIsNew(list, t, bp); }
    assert t + 1 >= |list| ==> q == BASE by {
      if t + 1 == |list| {
        LastToBase(mem, list, t);
      }
    }
    FreedMemIs(mem, p, q, bp);
    if p + mem[p].size == bp {
      MergeKeeps(m2, l2, rest, o2, t, t);
      UntouchedTrans(mem, m2, MergeMem(m2, p, bp), rest, owner, o2);
      OwnersTrans(owner, o2, MergeOwner(o2, p, bp), rest);
      var l3 := MergeList(l2, t);
      assert l3[t] == p && l3[t] in l3;
    } else {
      assert l2[t] == p && l2[t] in l2;
      NoTouch(m2, l2, t, t);
      assert l2[t + 1] == bp;
    }
  }

  /** The two assignments of `free` do what inserting and merging do. */
  lemma FreedMemIs(mem: Memory, p: int, q: int, bp: int)
    requires p in mem && bp in mem && q in mem && mem[p].ptr == q && p < bp && mem[bp].size > 0
    ensures var m1 := InsertMem(mem, p, bp);
            var m2 := if bp + mem[bp].size == q then MergeMem(m1, bp, q) else m1;
            FreedMem(mem, p, bp) == if p + mem[p].size == bp then MergeMem(m2, p, bp) else m2
  {
    var m1 := InsertMem(mem, p, bp);
    var m2 := if bp + mem[bp].size == q then MergeMem(m1, bp, q) else m1;
    var m := if bp + mem[bp].size == q then mem[bp := Unit(mem[q].ptr, mem[bp].size + mem[q].size)] else mem[bp := Unit(q, mem[bp].size)];
    assert m2 == m[p := Unit(bp, mem[p].size)];
    if p + mem[p].size == bp {
      assert MergeMem(m2, p, bp) == m[p := Unit(m[bp].ptr, m[p].size + m[bp].size)];
    }
  }

  lemma LastToBase(mem: Memory, list: seq<int>, t: nat)
    requires Linked(mem, list) && t + 1 == |list|
    ensures list[t] in mem && mem[list[t]].ptr == BASE
  {
    assert LinkAt(mem, list, t);
  }

  lemma PlaceIsNew(list: seq<int>, t: nat, bp: int)
    requires PlaceOf(list, t, bp)
    ensures t < |list| && list[t] < bp
  {
  }

  lemma OwnersRefl(o: map<int, int>, used: set<int>)
    ensures SameOwners(o, o, used)
  {
  }

  lemma OwnersTrans(a: map<int, int>, b: map<int, int>, c: map<int, int>, used: set<int>)
    requires SameOwners(a, b, used) && SameOwners(b, c, used)
    ensures SameOwners(a, c, used)
  {
  }

  lemma NoTouch(mem: Memory, list: seq<int>, a: nat, i: nat)
    requires GapsBut(mem, list, a, i) && i < |list|
    requires i + 1 < |list| ==> list[i] in mem && list[i] + mem[list[i]].size != list[i + 1]
    ensures GapsBut(mem, list, a, a)
    ensures a == i ==> forall k | 0 <= k < |list| :: Gap(mem, list, k)
  {
  }

  // ----- Taking a block -----

  /** Free blocks do not reach into the next one. */
  lemma BlocksApart(mem: Memory, list: seq<int>, used: set<int>, owner: map<int, int>, i: nat)
    requires Good(mem, list, used, owner) && i + 1 < |list|
    ensures list[i] in mem && list[i] + mem[list[i]].size < list[i + 1]
  {
    assert LinkAt(mem, list, i) && LinkAt(mem, list, i + 1) && Gap(mem, list, i);
    if list[i] + mem[list[i]].size > list[i + 1] && i > 0 {
      assert IsBlock(list, used, list[i]) && IsBlock(list, used, list[i + 1]);
      assert Owns(mem, owner, list[i]);
      OwnerOf(mem, list, used, owner, list[i + 1]);
    }
  }

  function TakeList(list: seq<int>, k: nat): seq<int>
    requires k < |list|
  {
    list[..k] + list[k + 1..]
  }

  lemma TakeAt(list: seq<int>, k: nat)
    requires Ascending(list) && 0 < k < |list|
    ensures var l := TakeList(list, k);
            && |l| == |list| - 1 && Ascending(l) && l[0] == list[0]
            && (forall i | 0 <= i < |l| :: l[i] == if i < k then list[i] else list[i + 1])
            && (forall b :: b in l <==> b in list && b != list[k])
  {
    var l := TakeList(list, k);
    forall i | 0 <= i < |l| ensures l[i] == (if i < k then list[i] else list[i + 1]) {}
    forall b ensures b in l <==> b in list && b != list[k] {
      if b in list && b != list[k] {
        var j :| 0 <= j < |list| && list[j] == b;
        assert l[if j < k then j else j - 1] == b;
      }
    }
  }

  function TakeMem(mem: Memory, prev: int, p: int): Memory
    requires prev in mem && p in mem
  {
    mem[prev := mem[prev].(ptr := mem[p].ptr)]
  }

  /** A free block of the very size leaves the list. */
  lemma TakeKeeps(mem: Memory, list: seq<int>, used: set<int>, owner: map<int, int>, k: nat)
    requires Good(mem, list, used, owner) && 0 < k < |list|
    ensures list[k - 1] in mem && list[k] in mem && list[k] !in used
    ensures var m, l := TakeMem(mem, list[k - 1], list[k]), TakeList(list, k);
            Good(m, l, used + {list[k]}, owner) && Untouched(mem, m, used, owner) && list[k - 1] in l
  {
    assert LinkAt(mem, list, k - 1) && LinkAt(mem, list, k);
    var m, l, u := TakeMem(mem, list[k - 1], list[k]), TakeList(list, k), used + {list[k]};
    TakeAt(list, k);
    assert l[k - 1] == list[k - 1];
    TakeLinked(mem, list, k);
    forall i | 0 <= i < |l| ensures Gap(m, l, i) {
      TakeGap(mem, list, used, owner, k, i);
    }
    TakeDivided(mem, list, used, owner, k);
  }

  lemma TakeLinked(mem: Memory, list: seq<int>, k: nat)
    requires Linked(mem, list) && 0 < k < |list| && list[k - 1] in mem && list[k] in mem
    ensures Linked(TakeMem(mem, list[k - 1], list[k]), TakeList(list, k))
  {
    var m, l := TakeMem(mem, list[k - 1], list[k]), TakeList(list, k);
    TakeAt(list, k);
    assert LinkAt(mem, list, k - 1) && LinkAt(mem, list, k);
    forall i | 0 <= i < |l| ensures LinkAt(m, l, i) {
      var j := if i < k then i else i + 1;
      assert LinkAt(mem, list, j);
      assert i != k - 1 ==> list[j] != list[k - 1];
    }
  }

  lemma TakeGap(mem: Memory, list: seq<int>, used: set<int>, owner: map<int, int>, k: nat, i: nat)
    requires Good(mem, list, used, owner) && 0 < k < |list| && list[k - 1] in mem && list[k] in mem && i < |list| - 1
    ensures Gap(TakeMem(mem, list[k - 1], list[k]), TakeList(list, k), i)
  {
    hide Divided;
    TakeAt(list, k);
    var m, l := TakeMem(mem, list[k - 1], list[k]), TakeList(list, k);
    var j := if i < k then i else i + 1;
    assert LinkAt(mem, list, j);
    assert l[i] == list[j] && m[l[i]].size == mem[list[j]].size;
    if i + 1 < |l| {
      var i1 := i + 1;
      assert l[i1] == if i1 < k then list[i1] else list[i1 + 1];
      BlocksApart(mem, list, used, owner, j);
      assert list[j + 1] <= l[i + 1];
    }
  }

  lemma TakeDivided(mem: Memory, list: seq<int>, used: set<int>, owner: map<int, int>, k: nat)
    requires Good(mem, list, used, owner) && 0 < k < |list| && list[k - 1] in mem && list[k] in mem
    ensures list[k] !in used
    ensures var m := TakeMem(mem, list[k - 1], list[k]);
            Divided(m, TakeList(list, k), used + {list[k]}, owner) && Untouched(mem, m, used, owner)
  {
    var m, l, u := TakeMem(mem, list[k - 1], list[k]), TakeList(list, k), used + {list[k]};
    TakeAt(list, k);
    assert LinkAt(mem, list, k - 1) && LinkAt(mem, list, k);
    assert list[k] in list && list[k - 1] in list;
    hide Linked, Ascending, Gap, TakeList;
    forall b | IsBlock(l, u, b) ensures IsBlock(list, used, b) {}
    forall b | IsBlock(list, used, b) ensures IsBlock(l, u, b) {}
    forall b | b in m && IsBlock(l, u, b) ensures Owns(m, owner, b) {
      assert Owns(mem, owner, b);
    }
    if list[k - 1] > BASE {
      PrevIsFree(mem, list, used, owner, k - 1);
    }
  }

  lemma PrevIsFree(mem: Memory, list: seq<int>, used: set<int>, owner: map<int, int>, i: nat)
    requires Good(mem, list, used, owner) && i < |list| && list[i] > BASE
    ensures list[i] in owner && owner[list[i]] == list[i] && list[i] !in used
  {
    assert list[i] in list && IsBlock(list, used, list[i]);
    OwnerOf(mem, list, used, owner, list[i]);
  }

  function SplitMem(mem: Memory, p: int, n: nat): Memory
    requires p in mem && n < mem[p].size && p + mem[p].size - n in mem
  {
    var q := p + mem[p].size - n;
    mem[p := mem[p].(size := mem[p].size - n)][q := mem[q].(size := n)]
  }

  function SplitOwner(owner: map<int, int>, q: int, n: nat): map<int, int> {
    map x | x in owner :: if q <= x < q + n then q else owner[x]
  }

  /** The tail of a larger free block is cut off. */
  lemma SplitKeeps(mem: Memory, list: seq<int>, used: set<int>, owner: map<int, int>, k: nat, n: nat)
    requires Good(mem, list, used, owner) && 0 < k < |list| && n > 0
    requires list[k] in mem && mem[list[k]].size > n
    ensures var q := list[k] + mem[list[k]].size - n;
            && q in mem && q !in used && q !in list
            && var m, o := SplitMem(mem, list[k], n), SplitOwner(owner, q, n);
               Good(m, list, used + {q}, o) && Untouched(mem, m, used, owner) && SameOwners(owner, o, used)
  {
    var p := list[k];
    var q := p + mem[p].size - n;
    assert LinkAt(mem, list, k);
    assert IsBlock(list, used, p) && Owns(mem, owner, p);
    assert q in owner && owner[q] == p;
    assert q !in used && q !in list by {
      if q in used || q in list {
        OwnerOf(mem, list, used, owner, q);
      }
    }
    var m := SplitMem(mem, p, n);
    forall i | 0 <= i < |list| ensures LinkAt(m, list, i) {
      assert LinkAt(mem, list, i);
      assert list[i] in list;
    }
    forall i | 0 <= i < |list| ensures Gap(m, list, i) {
      assert LinkAt(mem, list, i) && list[i] in list;
      if i + 1 < |list| {
        BlocksApart(mem, list, used, owner, i);
      }
    }
    SplitDivided(mem, list, used, owner, k, n);
  }

  lemma SplitDivided(mem: Memory, list: seq<int>, used: set<int>, owner: map<int, int>, k: nat, n: nat)
    requires Good(mem, list, used, owner) && 0 < k < |list| && n > 0
    requires list[k] in mem && mem[list[k]].size > n
    requires var q := list[k] + mem[list[k]].size - n; q in owner && q in mem && q !in used && q !in list && IsBlock(list, used, list[k])
    ensures var q := list[k] + mem[list[k]].size - n;
            var m, o := SplitMem(mem, list[k], n), SplitOwner(owner, q, n);
            Divided(m, list, used + {q}, o) && Untouched(mem, m, used, owner) && SameOwners(owner, o, used)
  {
    var p := list[k];
    var q := p + mem[p].size - n;
    var m, o, u := SplitMem(mem, p, n), SplitOwner(owner, q, n), used + {q};
    assert p in list;
    SplitOwnerIs(mem, list, used, owner, p, q, n);
    assert BASE in m;
    assert UsedOk(m, list, u) by { hide SplitOwner, OwnersOk, OwnsOk, Linked, Gap; }
    assert OwnersOk(m, list, u, o) by {
      hide UsedOk, OwnsOk, Linked, Gap, SplitOwner, IsBlock, SplitMem;
      forall x | x in o ensures x > BASE && x in m && IsBlock(list, u, o[x]) && o[x] in m && o[x] <= x < o[x] + m[o[x]].size {
        SplitOwned(mem, list, used, owner, p, q, n, x);
      }
    }
    assert OwnsOk(m, list, u, o) by {
      hide UsedOk, OwnersOk, Linked, Gap, SplitOwner;
      forall b | b in m && IsBlock(list, u, b) ensures Owns(m, o, b) {
        SplitOwns(mem, list, used, owner, p, q, n, b);
      }
    }
    assert Untouched(mem, m, used, owner) && SameOwners(owner, o, used) by {
      hide OwnsOk, Linked, Gap, SplitOwner;
      forall x | x in owner && (owner[x] in used || o[x] in used) ensures x in mem && x in m && m[x] == mem[x] && o[x] == owner[x] {
        SplitSpares(mem, list, used, owner, p, q, n, x);
      }
    }
  }

  lemma SplitOwns(mem: Memory, list: seq<int>, used: set<int>, owner: map<int, int>, p: int, q: int, n: nat, b: int)
    requires Divided(mem, list, used, owner) && p in list && IsBlock(list, used, p) && p in mem && n > 0 && p < q == p + mem[p].size - n && q in mem
    requires q !in list && q !in used
    requires b in mem && IsBlock(list, used + {q}, b)
    ensures Owns(SplitMem(mem, p, n), SplitOwner(owner, q, n), b)
  {
    SplitOwnerIs(mem, list, used, owner, p, q, n);
    hide SplitOwner;
    if b != q && b != p {
      assert IsBlock(list, used, b) && Owns(mem, owner, b);
    }
  }

  lemma SplitSpares(mem: Memory, list: seq<int>, used: set<int>, owner: map<int, int>, p: int, q: int, n: nat, x: int)
    requires Divided(mem, list, used, owner) && p in list && IsBlock(list, used, p) && p in mem && n > 0 && p < q == p + mem[p].size - n && q in mem
    requires x in owner && (owner[x] in used || SplitOwner(owner, q, n)[x] in used) && q !in used
    ensures x in mem && owner[x] in used && SplitMem(mem, p, n)[x] == mem[x] && SplitOwner(owner, q, n)[x] == owner[x]
  {
    SplitOwnerIs(mem, list, used, owner, p, q, n);
    assert p in owner && owner[p] == p by { assert Owns(mem, owner, p); }
    assert p !in used;
  }

  lemma SplitOwnerIs(mem: Memory, list: seq<int>, used: set<int>, owner: map<int, int>, p: int, q: int, n: nat)
    requires Divided(mem, list, used, owner) && IsBlock(list, used, p) && p in mem && p < q == p + mem[p].size - n
    ensures Owns(mem, owner, p) && SplitOwner(owner, q, n).Keys == owner.Keys
    ensures forall x | x in owner && !(q <= x < q + n) :: SplitOwner(owner, q, n)[x] == owner[x]
    ensures forall x | q <= x < q + n :: x in owner && owner[x] == p && SplitOwner(owner, q, n)[x] == q
  {
    assert Owns(mem, owner, p);
  }

  lemma SplitOwned(mem: Memory, list: seq<int>, used: set<int>, owner: map<int, int>, p: int, q: int, n: nat, x: int)
    requires Divided(mem, list, used, owner) && IsBlock(list, used, p) && p in mem && n > 0 && p < q == p + mem[p].size - n && q in mem && x in owner
    ensures var m, o := SplitMem(mem, p, n), SplitOwner(owner, q, n);
            x in o && IsBlock(list, used + {q}, o[x]) && o[x] in m && o[x] <= x < o[x] + m[o[x]].size
  {
    SplitOwnerIs(mem, list, used, owner, p, q, n);
    hide SplitOwner, Owns;
    assert IsBlock(list, used, owner[x]) && owner[x] in mem && owner[x] <= x < owner[x] + mem[owner[x]].size;
    if !(q <= x < q + n) && owner[x] == q {
      QIsNew(mem, list, used, owner, p, q, n);
    }
  }

  /** The cut-off tail was no block of its own. */
  lemma QIsNew(mem: Memory, list: seq<int>, used: set<int>, owner: map<int, int>, p: int, q: int, n: nat)
    requires Divided(mem, list, used, owner) && IsBlock(list, used, p) && p in mem && n > 0 && p < q == p + mem[p].size - n && q in mem
    ensures forall x | x in owner :: owner[x] != q
  {
    assert Owns(mem, owner, p);
    assert q in owner && owner[q] == p;
    forall x | x in owner ensures owner[x] != q {
      assert IsBlock(list, used, owner[x]) && Owns(mem, owner, owner[x]);
    }
  }

  // ----- More memory -----

  function GrowOwner(owner: map<int, int>, a: int, n: nat): map<int, int> {
    if n == 0 then owner else GrowOwner(owner, a, n - 1)[a + n - 1 := a]
  }

  lemma {:induction false} GrowOwnerIs(owner: map<int, int>, a: int, n: nat)
    ensures var o := GrowOwner(owner, a, n);
            && (forall x :: x in o <==> x in owner || a <= x < a + n)
            && (forall x | x in o :: o[x] == if a <= x < a + n then a else owner[x])
  {
    if n > 0 {
      GrowOwnerIs(owner, a, n - 1);
    }
  }

  /** Memory from `sbrk`: above `base`, and not handed out before. */
  ghost predicate Fresh(owner: map<int, int>, a: int, n: nat) {
    a > BASE && forall x | a <= x < a + n :: x !in owner
  }

  lemma GrowKeeps(mem: Memory, list: seq<int>, used: set<int>, owner: map<int, int>, m: Memory, a: int, n: nat)
    requires Good(mem, list, used, owner) && n > 0 && Fresh(owner, a, n)
    requires forall x :: x in m <==> x in mem || a <= x < a + n
    requires forall x | x in mem && !(a <= x < a + n) :: m[x] == mem[x]
    requires m[a].size == n
    ensures Good(m, list, used + {a}, GrowOwner(owner, a, n)) && Untouched(mem, m, used, owner)
    ensures a !in used && SameUnder(owner, GrowOwner(owner, a, n))
  {
    var o, u := GrowOwner(owner, a, n), used + {a};
    GrowOwnerIs(owner, a, n);
    forall b | IsBlock(list, used, b) ensures b in mem && b in owner {
      OwnerOf(mem, list, used, owner, b);
    }
    assert a !in used && a !in list by {
      forall b | b in used || (b in list && b > BASE) ensures b in owner {
        assert IsBlock(list, used, b);
      }
    }
    forall i | 0 <= i < |list| ensures list[i] in mem && !(a <= list[i] < a + n) {
      assert LinkAt(mem, list, i);
      if i > 0 {
        assert IsBlock(list, used, list[i]);
      }
    }
    forall i | 0 <= i < |list| ensures LinkAt(m, list, i) && Gap(m, list, i) {
      assert LinkAt(mem, list, i) && Gap(mem, list, i);
    }
    GrowDivided(mem, list, used, owner, m, a, n);
  }

  ghost predicate SameUnder(before: map<int, int>, after: map<int, int>) {
    forall x | x in before :: x in after && after[x] == before[x]
  }

  lemma GrowDivided(mem: Memory, list: seq<int>, used: set<int>, owner: map<int, int>, m: Memory, a: int, n: nat)
    requires Good(mem, list, used, owner) && n > 0 && Fresh(owner, a, n) && a !in used && a !in list
    requires forall x :: x in m <==> x in mem || a <= x < a + n
    requires forall x | x in mem && !(a <= x < a + n) :: m[x] == mem[x]
    requires m[a].size == n
    ensures Divided(m, list, used + {a}, GrowOwner(owner, a, n)) && Untouched(mem, m, used, owner)
    ensures SameUnder(owner, GrowOwner(owner, a, n))
  {
    var o, u := GrowOwner(owner, a, n), used + {a};
    GrowOwnerIs(owner, a, n);
    forall b | IsBlock(list, used, b) ensures b in mem && b in owner && owner[b] == b {
      OwnerOf(mem, list, used, owner, b);
    }
    forall b | b in m && IsBlock(list, u, b) ensures Owns(m, o, b) {
      if b != a {
        assert IsBlock(list, used, b) && Owns(mem, owner, b);
      }
    }
    forall x | x in o ensures IsBlock(list, u, o[x]) && o[x] in m && o[x] <= x < o[x] + m[o[x]].size {
      if x in owner {
        assert IsBlock(list, used, owner[x]);
      }
    }
  }
}
