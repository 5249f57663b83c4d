/** One round of the assembler's settle loop: what it does to items, and what it leaves alone. */
module AsmRound {
  import opened Options
  import opened Util
  import opened AsmItems

  const SECTION_COUNT: nat := 4

  // ----- One item resolved -----

  function PutAt(buf: seq<Byte>, pos: nat, value: int, size: nat): (r: seq<Byte>)
    requires pos + size <= |buf|
    ensures |r| == |buf|
  {
    buf[..pos] + PutValue(value, size) + buf[pos + size..]
  }

  /** The long form of a jump, its displacement still to be filled in. */
  function LongForm(op: nat): (b: seq<Byte>)
    requires op <= 16
    ensures |b| == JumpLen(op, true)
  {
    if op == 0 then [0xe9, 255, 255, 255, 255] else [0x0f, 0x80 + (op - 1), 255, 255, 255, 255]
  }

  /** From the end of the instruction to its target. */
  function Displacement(dst: int, address: nat, it: Item): int {
    dst - (address + Size(it))
  }

  /** Whether a short jump does not reach. */
  predicate Upgrades(it: Item, address: nat, labels: Labels) {
    it.Jump? && !it.long && CalcExpr(labels, it.target).Some?
    && !IsIm8(Displacement(CalcExpr(labels, it.target).value, address, it))
  }

  /** `resolve_relative_address` on one item; `None` when the assembler gives up. */
  function Resolved(it: Item, address: nat, labels: Labels): (r: Option<Item>)
    requires WellItem(it)
    ensures r.Some? ==> WellItem(r.value)
  {
    match it
    case Jump(op, target, long, buf) =>
      (match CalcExpr(labels, target)
       case None => None
       case Some(dst) =>
         var offset := Displacement(dst, address, it);
         if !long then
           if !IsIm8(offset) then Some(Jump(op, target, true, LongForm(op)))
           else Some(Jump(op, target, false, PutAt(buf, 1, offset, 1)))
         else if !IsIm32(offset) then None
         else Some(Jump(op, target, true, PutAt(buf, JumpField(op, true), offset, 4))))
    case Call(target, buf) =>
      (match CalcExpr(labels, target)
       case None => None
       case Some(dst) => Some(Call(target, PutAt(buf, 1, Displacement(dst, address, it), 4))))
    case Lea(e, buf) =>
      (match CalcExpr(labels, e)
       case None => None
       case Some(dst) => Some(Lea(e, PutAt(buf, 3, Displacement(dst, address, it), 4))))
    case Value(_, e) => if CalcExpr(labels, e).Some? then Some(it) else None
    case _ => Some(it)
  }

  /** The displacement an instruction holds is the distance to its target, as far as its field goes. */
  predicate Linked(it: Item, address: nat, labels: Labels)
    requires WellItem(it)
  {
    match it
    case Jump(op, target, long, buf) =>
      && CalcExpr(labels, target).Some?
      && var n, d := if long then 4 else 1, JumpField(op, long);
         ReadSigned(buf[d..d + n]) == Displacement(CalcExpr(labels, target).value, address, it)
    case Call(target, buf) =>
      && CalcExpr(labels, target).Some?
      && buf[1..5] == PutValue(Displacement(CalcExpr(labels, target).value, address, it), 4)
    case Lea(e, buf) =>
      && CalcExpr(labels, e).Some?
      && buf[3..7] == PutValue(Displacement(CalcExpr(labels, e).value, address, it), 4)
    case Value(_, e) => CalcExpr(labels, e).Some?
    case _ => true
  }

  /** An item that was resolved without growing is linked. */
  lemma ResolvedIsLinked(it: Item, address: nat, labels: Labels)
    requires WellItem(it) && Resolved(it, address, labels).Some? && !Upgrades(it, address, labels)
    ensures Linked(Resolved(it, address, labels).value, address, labels)
    ensures Size(Resolved(it, address, labels).value) == Size(it)
  {
    var r := Resolved(it, address, labels).value;
    match it
    case Jump(op, target, long, buf) =>
      var offset := Displacement(CalcExpr(labels, target).value, address, it);
      if long {
        Im32Reads(offset);
        var d := JumpField(op, true);
        assert r.buf[d..d + 4] == PutValue(offset, 4);
      } else {
        Im8Reads(offset);
        assert r.buf[1..2] == PutValue(offset, 1);
      }
    case Call(target, buf) => assert r.buf[1..5] == PutValue(Displacement(CalcExpr(labels, target).value, address, it), 4);
    case Lea(e, buf) => assert r.buf[3..7] == PutValue(Displacement(CalcExpr(labels, e).value, address, it), 4);
    case _ =>
  }

  // ----- What a round leaves alone -----

  /** The same bytes, but for the four from `pos` on. */
  predicate SameBut(a: seq<Byte>, b: seq<Byte>, pos: nat) {
    |a| == |b| && forall k | 0 <= k < |a| && !(pos <= k < pos + 4) :: a[k] == b[k]
  }

  /** The same item, but for displacements, and for a jump that may have grown. */
  predicate Kin(a: Item, b: Item) {
    match a
    case Jump(op, target, long, _) => b.Jump? && b.op == op && b.target == target && (long ==> b.long)
    case Call(target, _) => b.Call? && b.target == target && SameBut(a.buf, b.buf, 1)
    case Lea(e, _) => b.Lea? && b.offset == e && SameBut(a.buf, b.buf, 3)
    case _ => b == a
  }

  ghost predicate KinAll(a: seq<Item>, b: seq<Item>) {
    |a| == |b| && forall i | 0 <= i < |a| :: Kin(a[i], b[i])
  }

  ghost predicate KinSections(a: seq<seq<Item>>, b: seq<seq<Item>>) {
    |a| == |b| && forall s | 0 <= s < |a| :: KinAll(a[s], b[s])
  }

  lemma KinSectionsTrans(a: seq<seq<Item>>, b: seq<seq<Item>>, c: seq<seq<Item>>)
    requires KinSections(a, b) && KinSections(b, c)
    ensures KinSections(a, c)
  {
    forall s | 0 <= s < |a| ensures KinAll(a[s], c[s]) {
      assert KinAll(a[s], b[s]) && KinAll(b[s], c[s]);
      forall i | 0 <= i < |a[s]| ensures Kin(a[s][i], c[s][i]) {
        assert Kin(a[s][i], b[s][i]) && Kin(b[s][i], c[s][i]);
      }
    }
  }

  lemma KinSectionsRefl(a: seq<seq<Item>>)
    ensures KinSections(a, a)
  {
    forall s | 0 <= s < |a| ensures KinAll(a[s], a[s]) {}
  }

  lemma {:induction false} KinAligns(a: seq<Item>, b: seq<Item>, align: nat, n: nat)
    requires KinAll(a, b) && n <= |a|
    ensures RaisedAlign(a, align, n) == RaisedAlign(b, align, n)
  {
    if n > 0 {
      KinAligns(a, b, align, n - 1);
      assert Kin(a[n - 1], b[n - 1]);
    }
  }

  lemma {:induction false} RaisedTwice(a: seq<Item>, align: nat, n: nat, k: nat)
    requires n <= k <= |a|
    ensures RaisedAlign(a, RaisedAlign(a, align, k), n) == RaisedAlign(a, align, k)
    ensures RaisedAlign(a, align, n) <= RaisedAlign(a, align, k)
    decreases k + n
  {
    if n > 0 {
      RaisedTwice(a, align, n - 1, k);
    }
    if n < k {
      RaisedTwice(a, align, n, k - 1);
    }
  }

  lemma {:induction false} RaisedPow2(items: seq<Item>, align: nat, n: nat)
    requires WellItems(items) && n <= |items| && (align <= 1 || IsPow2(align))
    ensures var r := RaisedAlign(items, align, n); r <= 1 || IsPow2(r)
  {
    if n > 0 {
      RaisedPow2(items, align, n - 1);
      assert WellItem(items[n - 1]);
    }
  }

  /** Alignments asked for are powers of two, or none. */
  predicate PowersOfTwo(aligns: seq<nat>) {
    forall s | 0 <= s < |aligns| :: aligns[s] <= 1 || IsPow2(aligns[s])
  }

  // ----- Jumps still short -----

  predicate IsShort(it: Item) {
    it.Jump? && !it.long
  }

  function Shorts(items: seq<Item>): nat {
    if items == [] then 0 else (if IsShort(items[0]) then 1 else 0) + Shorts(items[1..])
  }

  function AllShorts(irs: seq<seq<Item>>): nat {
    if irs == [] then 0 else Shorts(irs[0]) + AllShorts(irs[1..])
  }

  lemma {:induction false} ShortsDrop(a: seq<Item>, b: seq<Item>)
    requires KinAll(a, b)
    ensures Shorts(b) <= Shorts(a)
    ensures (exists i :: 0 <= i < |a| && IsShort(a[i]) && !IsShort(b[i])) ==> Shorts(b) < Shorts(a)
  {
    if a != [] {
      assert Kin(a[0], b[0]);
      forall i | 0 <= i < |a| - 1 ensures Kin(a[1..][i], b[1..][i]) {
        assert Kin(a[i + 1], b[i + 1]);
      }
      ShortsDrop(a[1..], b[1..]);
      if i :| 0 < i < |a| && IsShort(a[i]) && !IsShort(b[i]) {
        assert IsShort(a[1..][i - 1]) && !IsShort(b[1..][i - 1]);
      }
    }
  }

  lemma {:induction false} AllShortsDrop(a: seq<seq<Item>>, b: seq<seq<Item>>)
    requires KinSections(a, b)
    ensures AllShorts(b) <= AllShorts(a)
    ensures (exists s, i :: 0 <= s < |a| && 0 <= i < |a[s]| && IsShort(a[s][i]) && !IsShort(b[s][i])) ==> AllShorts(b) < AllShorts(a)
  {
    if a != [] {
      assert KinAll(a[0], b[0]);
      ShortsDrop(a[0], b[0]);
      forall s | 0 <= s < |a| - 1 ensures KinAll(a[1..][s], b[1..][s]) {
        assert KinAll(a[s + 1], b[s + 1]);
      }
      AllShortsDrop(a[1..], b[1..]);
      if s, i :| 0 < s < |a| && 0 <= i < |a[s]| && IsShort(a[s][i]) && !IsShort(b[s][i]) {
        assert IsShort(a[1..][s - 1][i]) && !IsShort(b[1..][s - 1][i]);
      }
    }
  }

  // ----- Labels -----

  function NamesIn(items: seq<Item>): set<nat> {
    set i | 0 <= i < |items| && items[i].Label? :: items[i].name
  }

  /** No label is defined twice (`add_label_table`). */
  ghost predicate OnceEach(irs: seq<seq<Item>>) {
    && (forall s, i, j | 0 <= s < |irs| && 0 <= i < j < |irs[s]| && irs[s][i].Label? && irs[s][j].Label? ::
          irs[s][i].name != irs[s][j].name)
    && (forall s, t | 0 <= s < t < |irs| :: NamesIn(irs[s]) !! NamesIn(irs[t]))
  }

  ghost predicate AllKnown(irs: seq<seq<Item>>, labels: Labels) {
    forall s, i | 0 <= s < |irs| && 0 <= i < |irs[s]| && irs[s][i].Label? ::
      irs[s][i].name in labels && labels[irs[s][i].name].defined
  }

  lemma KinNames(a: seq<Item>, b: seq<Item>)
    requires KinAll(a, b)
    ensures NamesIn(a) == NamesIn(b)
    ensures forall i | 0 <= i < |a| :: a[i].Label? == b[i].Label? && (a[i].Label? ==> a[i] == b[i])
  {
    forall i | 0 <= i < |a| ensures a[i].Label? == b[i].Label? && (a[i].Label? ==> a[i] == b[i]) {
      assert Kin(a[i], b[i]);
    }
  }

  lemma KinKeepsLabels(a: seq<seq<Item>>, b: seq<seq<Item>>, labels: Labels)
    requires KinSections(a, b) && OnceEach(a) && AllKnown(a, labels)
    ensures OnceEach(b) && AllKnown(b, labels)
  {
    forall s | 0 <= s < |a|
      ensures NamesIn(a[s]) == NamesIn(b[s]) && |a[s]| == |b[s]|
      ensures forall i | 0 <= i < |a[s]| :: a[s][i].Label? == b[s][i].Label? && (a[s][i].Label? ==> a[s][i] == b[s][i])
    {
      assert KinAll(a[s], b[s]);
      KinNames(a[s], b[s]);
    }
  }

  // ----- The assembler -----

  ghost predicate Shaped(irs: seq<seq<Item>>, addrs: seq<seq<nat>>, aligns: seq<nat>, starts: seq<nat>) {
    && |irs| == |addrs| == |aligns| == |starts| == SECTION_COUNT
    && (forall s | 0 <= s < |irs| :: |addrs[s]| == |irs[s]|)
  }

  /** Every item of a section has its address. */
  ghost predicate SectionLaid(items: seq<Item>, addrs: seq<nat>, start: nat)
    requires WellItems(items)
  {
    |addrs| == |items| && forall i | 0 <= i < |items| :: addrs[i] == AddrOf(items, start, i)
  }

  ghost predicate LabelsLaid(items: seq<Item>, addrs: seq<nat>, labels: Labels, n: nat)
    requires n <= |items| == |addrs|
  {
    forall i | 0 <= i < n && items[i].Label? :: items[i].name in labels && labels[items[i].name].address == addrs[i]
  }

  /** The addresses of a layout from `load` on, under the alignments `aligns`. */
  ghost predicate LaidOut(irs: seq<seq<Item>>, addrs: seq<seq<nat>>, aligns: seq<nat>, starts: seq<nat>, labels: Labels, load: nat)
    requires Shaped(irs, addrs, aligns, starts) && WellSections(irs)
  {
    && (forall s | 0 <= s < |irs| :: starts[s] == SectionStart(irs, aligns, load, s))
    && (forall s | 0 <= s < |irs| :: SectionLaid(irs[s], addrs[s], starts[s]))
    && (forall s | 0 <= s < |irs| :: LabelsLaid(irs[s], addrs[s], labels, |irs[s]|))
  }

  lemma SectionWell(irs: seq<seq<Item>>, sec: nat)
    requires WellSections(irs) && sec < |irs|
    ensures WellItems(irs[sec])
  {
  }

  // ----- What a round does -----

  ghost predicate SameLabels(a: Labels, b: Labels) {
    a.Keys == b.Keys && forall n | n in a :: b[n].defined == a[n].defined
  }

  ghost predicate SectionResolves(items: seq<Item>, addrs: seq<nat>, labels: Labels)
    requires WellItems(items) && |addrs| == |items|
  {
    forall i | 0 <= i < |items| :: Resolved(items[i], addrs[i], labels).Some?
  }

  ghost predicate SectionIsResolved(a: seq<Item>, b: seq<Item>, addrs: seq<nat>, labels: Labels)
    requires WellItems(a) && |addrs| == |a|
  {
    |b| == |a| && forall i | 0 <= i < |a| :: Resolved(a[i], addrs[i], labels) == Some(b[i])
  }

  ghost predicate SectionUpgrades(items: seq<Item>, addrs: seq<nat>, labels: Labels)
    requires |addrs| == |items|
  {
    exists i :: 0 <= i < |items| && Upgrades(items[i], addrs[i], labels)
  }

  ghost predicate Addressed(irs: seq<seq<Item>>, addrs: seq<seq<nat>>) {
    WellSections(irs) && |addrs| == |irs| && forall s | 0 <= s < |irs| :: |addrs[s]| == |irs[s]|
  }

  ghost predicate AllResolve(irs: seq<seq<Item>>, addrs: seq<seq<nat>>, labels: Labels)
    requires Addressed(irs, addrs)
  {
    forall s | 0 <= s < |irs| :: SectionResolves(irs[s], addrs[s], labels)
  }

  ghost predicate IsResolved(a: seq<seq<Item>>, b: seq<seq<Item>>, addrs: seq<seq<nat>>, labels: Labels)
    requires Addressed(a, addrs)
  {
    |b| == |a| && forall s | 0 <= s < |a| :: SectionIsResolved(a[s], b[s], addrs[s], labels)
  }

  ghost predicate SomeUpgrade(irs: seq<seq<Item>>, addrs: seq<seq<nat>>, labels: Labels)
    requires Addressed(irs, addrs)
  {
    exists s :: 0 <= s < |irs| && SectionUpgrades(irs[s], addrs[s], labels)
  }

  ghost predicate SectionLinked(items: seq<Item>, addrs: seq<nat>, labels: Labels)
    requires WellItems(items) && |addrs| == |items|
  {
    forall i | 0 <= i < |items| :: Linked(items[i], addrs[i], labels)
  }

  /** Every instruction's displacement leads to its target. */
  ghost predicate AllLinked(irs: seq<seq<Item>>, addrs: seq<seq<nat>>, labels: Labels)
    requires Addressed(irs, addrs)
  {
    forall s | 0 <= s < |irs| :: SectionLinked(irs[s], addrs[s], labels)
  }

  /** Whether some section asks for more alignment than it has got. */
  ghost predicate Outstanding(irs: seq<seq<Item>>, aligns: seq<nat>)
    requires |aligns| == |irs|
  {
    exists s :: 0 <= s < |irs| && RaisedAlign(irs[s], aligns[s], |irs[s]|) != aligns[s]
  }

  lemma OtherLabels(irs: seq<seq<Item>>, addrs: seq<seq<nat>>, before: Labels, after: Labels, sec: nat)
    requires OnceEach(irs) && sec < |irs| == |addrs| && after.Keys == before.Keys
    requires forall n | n in after && n !in NamesIn(irs[sec]) :: after[n] == before[n]
    ensures forall s | 0 <= s < |irs| && s != sec && |addrs[s]| == |irs[s]| && LabelsLaid(irs[s], addrs[s], before, |irs[s]|) ::
              LabelsLaid(irs[s], addrs[s], after, |irs[s]|)
  {
    forall s, i | 0 <= s < |irs| && s != sec && 0 <= i < |irs[s]| && irs[s][i].Label? ensures irs[s][i].name !in NamesIn(irs[sec]) {
      assert irs[s][i].name in NamesIn(irs[s]);
      assert NamesIn(irs[s]) !! NamesIn(irs[sec]);
    }
  }

  lemma AlignsQuiet(a: seq<nat>, b: seq<nat>, c: seq<nat>, sec: nat)
    requires |a| == |b| == |c| && sec < |a| && c == b[sec := c[sec]] && b[sec] == a[sec]
    ensures c == a <==> (b == a && c == b)
  {
    if c == a {
      assert b == b[sec := a[sec]];
    }
  }

  lemma ResolvedKin(a: seq<seq<Item>>, b: seq<seq<Item>>, addrs: seq<seq<nat>>, labels: Labels)
    requires Addressed(a, addrs) && IsResolved(a, b, addrs, labels)
    ensures KinSections(a, b) && WellSections(b)
  {
    forall s | 0 <= s < |a| ensures KinAll(a[s], b[s]) && WellItems(b[s]) {
      assert SectionIsResolved(a[s], b[s], addrs[s], labels);
      forall i | 0 <= i < |a[s]| ensures Kin(a[s][i], b[s][i]) && WellItem(b[s][i]) {
        assert Resolved(a[s][i], addrs[s][i], labels) == Some(b[s][i]);
      }
    }
  }

  lemma NoneOutstanding(irs: seq<seq<Item>>, before: seq<nat>, after: seq<nat>)
    requires |irs| == |before| == |after|
    requires forall s | 0 <= s < |irs| :: after[s] == RaisedAlign(irs[s], before[s], |irs[s]|)
    ensures !Outstanding(irs, after)
    ensures after != before ==> Outstanding(irs, before)
  {
    forall s | 0 <= s < |irs| ensures RaisedAlign(irs[s], after[s], |irs[s]|) == after[s] {
      RaisedTwice(irs[s], before[s], |irs[s]|, |irs[s]|);
    }
    if after != before {
      var s :| 0 <= s < |irs| && after[s] != before[s];
    }
  }

  /** A round never adds short jumps, and loses one when a jump grows. */
  lemma RoundDrops(a: seq<seq<Item>>, b: seq<seq<Item>>, addrs: seq<seq<nat>>, labels: Labels, aligns: seq<nat>)
    requires Addressed(a, addrs) && IsResolved(a, b, addrs, labels) && KinSections(a, b) && |aligns| == |a|
    requires !Outstanding(a, aligns)
    ensures AllShorts(b) <= AllShorts(a) && !Outstanding(b, aligns)
    ensures SomeUpgrade(a, addrs, labels) ==> AllShorts(b) < AllShorts(a)
  {
    AllShortsDrop(a, b);
    forall s | 0 <= s < |a| ensures RaisedAlign(b[s], aligns[s], |b[s]|) == aligns[s] {
      assert KinAll(a[s], b[s]);
      KinAligns(a[s], b[s], aligns[s], |a[s]|);
    }
    if SomeUpgrade(a, addrs, labels) {
      var s :| 0 <= s < |a| && SectionUpgrades(a[s], addrs[s], labels);
      var i :| 0 <= i < |a[s]| && Upgrades(a[s][i], addrs[s][i], labels);
      assert SectionIsResolved(a[s], b[s], addrs[s], labels);
      assert IsShort(a[s][i]) && !IsShort(b[s][i]);
    }
  }

  lemma SettledIsLinked(a: seq<seq<Item>>, b: seq<seq<Item>>, addrs: seq<seq<nat>>, labels: Labels)
    requires Addressed(a, addrs) && Addressed(b, addrs) && IsResolved(a, b, addrs, labels) && !SomeUpgrade(a, addrs, labels)
    ensures AllLinked(b, addrs, labels)
    ensures forall s, i | 0 <= s < |a| && 0 <= i < |a[s]| && s < |b| && i < |b[s]| :: Size(b[s][i]) == Size(a[s][i])
  {
    hide Resolved, Upgrades, Linked;
    forall s, i | 0 <= s < |a| && 0 <= i < |a[s]|
      ensures |b[s]| == |a[s]| && WellItem(b[s][i]) && Linked(b[s][i], addrs[s][i], labels) && Size(b[s][i]) == Size(a[s][i])
    {
      assert SectionIsResolved(a[s], b[s], addrs[s], labels) && !SectionUpgrades(a[s], addrs[s], labels);
      ResolvedIsLinked(a[s][i], addrs[s][i], labels);
    }
    forall s | 0 <= s < |b| ensures SectionLinked(b[s], addrs[s], labels) {}
  }

  ghost predicate SameShape(a: seq<Item>, b: seq<Item>) {
    |a| == |b| && forall i | 0 <= i < |a| :: Kin(a[i], b[i]) && Size(a[i]) == Size(b[i])
  }

  lemma {:induction false} SameAddr(a: seq<Item>, b: seq<Item>, start: nat, i: nat)
    requires WellItems(a) && WellItems(b) && SameShape(a, b) && i <= |a|
    ensures AddrBefore(a, start, i) == AddrBefore(b, start, i)
  {
    if i > 0 {
      SameAddr(a, b, start, i - 1);
      assert Kin(a[i - 1], b[i - 1]);
    }
  }

  lemma {:induction false} SameStart(a: seq<seq<Item>>, b: seq<seq<Item>>, aligns: seq<nat>, load: nat, s: nat)
    requires WellSections(a) && WellSections(b) && |a| == |b| == |aligns| && s < |a|
    requires forall t | 0 <= t < |a| :: SameShape(a[t], b[t])
    ensures SectionStart(a, aligns, load, s) == SectionStart(b, aligns, load, s)
  {
    if s > 0 {
      SameStart(a, b, aligns, load, s - 1);
      assert SameShape(a[s - 1], b[s - 1]);
      SameAddr(a[s - 1], b[s - 1], SectionStart(a, aligns, load, s - 1), |a[s - 1]|);
    }
  }

  /** The addresses computed before the last round still hold after it. */
  lemma SettledIsLaid(a: seq<seq<Item>>, b: seq<seq<Item>>, addrs: seq<seq<nat>>, aligns: seq<nat>, starts: seq<nat>, labels: Labels, load: nat)
    requires Shaped(a, addrs, aligns, starts) && Shaped(b, addrs, aligns, starts) && WellSections(a) && WellSections(b)
    requires LaidOut(a, addrs, aligns, starts, labels, load) && KinSections(a, b)
    requires forall s, i | 0 <= s < |a| && 0 <= i < |a[s]| && s < |b| && i < |b[s]| :: Size(b[s][i]) == Size(a[s][i])
    ensures LaidOut(b, addrs, aligns, starts, labels, load)
  {
    forall s | 0 <= s < |a| ensures SameShape(a[s], b[s]) {
      assert KinAll(a[s], b[s]);
    }
    forall s | 0 <= s < |a|
      ensures starts[s] == SectionStart(b, aligns, load, s) && SectionLaid(b[s], addrs[s], starts[s]) && LabelsLaid(b[s], addrs[s], labels, |b[s]|)
    {
      SameStart(a, b, aligns, load, s);
      SectionStillLaid(a[s], b[s], addrs[s], starts[s], labels);
    }
  }

  lemma SectionStillLaid(a: seq<Item>, b: seq<Item>, addrs: seq<nat>, start: nat, labels: Labels)
    requires WellItems(a) && WellItems(b) && SameShape(a, b)
    requires SectionLaid(a, addrs, start) && LabelsLaid(a, addrs, labels, |a|)
    ensures SectionLaid(b, addrs, start) && LabelsLaid(b, addrs, labels, |b|)
  {
    forall i | 0 <= i < |b| ensures addrs[i] == AddrOf(b, start, i) {
      assert Kin(a[i], b[i]);
      SameAddr(a, b, start, if b[i].Align? then i + 1 else i);
    }
    forall i | 0 <= i < |b| && b[i].Label? ensures b[i].name in labels && labels[b[i].name].address == addrs[i] {
      assert Kin(a[i], b[i]);
    }
  }

  lemma LabelFacts(irs: seq<seq<Item>>, labels: Labels, sec: nat, i: nat)
    requires OnceEach(irs) && AllKnown(irs, labels) && sec < |irs| && i < |irs[sec]| && irs[sec][i].Label?
    ensures irs[sec][i].name in labels && irs[sec][i].name in NamesIn(irs[sec])
    ensures forall k | 0 <= k < i && irs[sec][k].Label? :: irs[sec][k].name != irs[sec][i].name
  {
  }

  lemma KnownKept(irs: seq<seq<Item>>, before: Labels, after: Labels)
    requires AllKnown(irs, before) && after.Keys == before.Keys
    requires forall n | n in after :: after[n].defined == before[n].defined
    ensures AllKnown(irs, after)
  {
  }
}
