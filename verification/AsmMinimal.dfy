/**
 The jumps made long are the fewest: in sections without alignments, whose jumps
 lead to labels of the same section, the settle loop ends in the least choice of
 long jumps under which every short jump reaches.
 */
module AsmMinimal {
  import opened Options
  import opened Util
  import opened AsmItems
  import opened AsmRound

  /** A section with jumps has no alignments, and its jumps lead to labels in it. */
  ghost predicate LocalSection(items: seq<Item>) {
    (exists i :: 0 <= i < |items| && items[i].Jump?) ==>
      && (forall i | 0 <= i < |items| :: !items[i].Align?)
      && (forall i | 0 <= i < |items| && items[i].Jump? :: items[i].target.ELabel? && items[i].target.name in NamesIn(items))
  }

  ghost predicate Local(irs: seq<seq<Item>>) {
    forall s | 0 <= s < |irs| :: LocalSection(irs[s])
  }

  /** From behind item `i` to item `j`. */
  function Dist(items: seq<Item>, i: nat, j: nat): int
    requires WellItems(items) && i < |items| && j < |items|
  {
    AddrBefore(items, 0, j) - AddrBefore(items, 0, i + 1)
  }

  ghost predicate ShortReaches(items: seq<Item>, i: nat, j: nat)
    requires WellItems(items) && i < |items| && j < |items|
  {
    IsShort(items[i]) && items[j].Label? && items[i].target == ELabel(items[j].name) ==> IsIm8(Dist(items, i, j))
  }

  /** Every short jump of a choice reaches its label under the addresses of that choice. */
  ghost predicate Consistent(irs: seq<seq<Item>>)
    requires WellSections(irs)
  {
    forall s, i, j | 0 <= s < |irs| && 0 <= i < |irs[s]| && 0 <= j < |irs[s]| :: ShortReaches(irs[s], i, j)
  }

  /** Another choice of long jumps for the same items. */
  ghost predicate Alternative(irs: seq<seq<Item>>, alt: seq<seq<Item>>) {
    KinSections(irs, alt) && WellSections(alt) && Consistent(alt)
  }

  lemma KinLocal(a: seq<seq<Item>>, b: seq<seq<Item>>)
    requires KinSections(a, b) && Local(a)
    ensures Local(b)
  {
    forall s | 0 <= s < |b| ensures LocalSection(b[s]) {
      assert KinAll(a[s], b[s]) && LocalSection(a[s]);
      KinNames(a[s], b[s]);
      forall i | 0 <= i < |b[s]| ensures Kin(a[s][i], b[s][i]) {}
    }
  }

  /** Between two items of the smaller choice there is no more than in the larger. */
  lemma {:induction false} BetweenGrows(a: seq<Item>, b: seq<Item>, p: nat, q: nat)
    requires WellItems(a) && WellItems(b) && KinAll(a, b) && p <= q <= |a|
    requires forall i | 0 <= i < |a| :: !a[i].Align?
    ensures 0 <= AddrBefore(a, 0, q) - AddrBefore(a, 0, p) <= AddrBefore(b, 0, q) - AddrBefore(b, 0, p)
    decreases q
  {
    if p < q {
      BetweenGrows(a, b, p, q - 1);
      assert Kin(a[q - 1], b[q - 1]) && WellItem(a[q - 1]) && WellItem(b[q - 1]);
    }
  }

  lemma {:induction false} AddrShift(a: seq<Item>, start: nat, i: nat)
    requires WellItems(a) && i <= |a|
    requires forall k | 0 <= k < |a| :: !a[k].Align?
    ensures AddrBefore(a, start, i) == start + AddrBefore(a, 0, i)
  {
    if i > 0 {
      AddrShift(a, start, i - 1);
    }
  }

  /** What a jump of a local section computes: the distance to its label. */
  lemma JumpDistance(items: seq<Item>, addrs: seq<nat>, start: nat, labels: Labels, i: nat, j: nat)
    requires WellItems(items) && LocalSection(items) && i < |items| && j < |items|
    requires items[i].Jump? && items[j].Label? && items[i].target == ELabel(items[j].name)
    requires SectionLaid(items, addrs, start) && LabelsLaid(items, addrs, labels, |items|)
    requires CalcExpr(labels, items[i].target).Some?
    ensures Displacement(CalcExpr(labels, items[i].target).value, addrs[i], items[i]) == Dist(items, i, j)
  {
    AddrShift(items, start, j);
    AddrShift(items, start, i);
    AddrShift(items, start, i + 1);
    assert AddrBefore(items, start, i + 1) == After(items[i], AddrBefore(items, start, i));
  }

  lemma LabelOf(a: seq<Item>, i: nat) returns (j: nat)
    requires LocalSection(a) && i < |a| && a[i].Jump?
    ensures j < |a| && a[j].Label? && a[i].target == ELabel(a[j].name)
  {
    assert a[i].target.name in NamesIn(a);
    j :| 0 <= j < |a| && a[j].Label? && a[j].name == a[i].target.name;
  }

  lemma NoAligns(a: seq<Item>, i: nat)
    requires LocalSection(a) && i < |a| && a[i].Jump?
    ensures forall k | 0 <= k < |a| :: !a[k].Align?
  {
  }

  /** A jump that a round makes long is long in every consistent choice. */
  lemma UpgradeIsForced(a: seq<Item>, alt: seq<Item>, addrs: seq<nat>, start: nat, labels: Labels, i: nat)
    requires WellItems(a) && WellItems(alt) && LocalSection(a) && KinAll(a, alt) && i < |a|
    requires SectionLaid(a, addrs, start) && LabelsLaid(a, addrs, labels, |a|)
    requires forall k, j | 0 <= k < |alt| && 0 <= j < |alt| :: ShortReaches(alt, k, j)
    requires Upgrades(a[i], addrs[i], labels)
    ensures alt[i].Jump? && alt[i].long
  {
    var j := LabelOf(a, i);
    JumpDistance(a, addrs, start, labels, i, j);
    assert Kin(a[i], alt[i]) && Kin(a[j], alt[j]);
    assert ShortReaches(alt, i, j);
    NoAligns(a, i);
    hide LocalSection, SectionLaid, LabelsLaid, KinAll, AddrBefore;
    if i < j {
      BetweenGrows(a, alt, i + 1, j);
    } else {
      BetweenGrows(a, alt, j, i + 1);
    }
  }

  /** A round keeps the long jumps within those of every consistent choice. */
  lemma RoundWithin(a: seq<seq<Item>>, b: seq<seq<Item>>, alt: seq<seq<Item>>, addrs: seq<seq<nat>>, aligns: seq<nat>, starts: seq<nat>, labels: Labels, load: nat)
    requires Shaped(a, addrs, aligns, starts) && WellSections(a) && LaidOut(a, addrs, aligns, starts, labels, load)
    requires Addressed(a, addrs) && IsResolved(a, b, addrs, labels)
    requires Local(a) && KinSections(a, alt) && WellSections(alt) && Consistent(alt)
    ensures KinSections(b, alt)
  {
    hide Upgrades, Dist, LocalSection;
    forall s | 0 <= s < |a| ensures KinAll(b[s], alt[s]) {
      assert KinAll(a[s], alt[s]) && SectionIsResolved(a[s], b[s], addrs[s], labels) && LocalSection(a[s]);
      assert SectionLaid(a[s], addrs[s], starts[s]) && LabelsLaid(a[s], addrs[s], labels, |a[s]|);
      forall i | 0 <= i < |b[s]| ensures Kin(b[s][i], alt[s][i]) {
        assert Kin(a[s][i], alt[s][i]) && Resolved(a[s][i], addrs[s][i], labels) == Some(b[s][i]);
        if Upgrades(a[s][i], addrs[s][i], labels) {
          UpgradeIsForced(a[s], alt[s], addrs[s], starts[s], labels, i);
        }
        ResolvedIsKin(a[s][i], b[s][i], alt[s][i], addrs[s][i], labels);
      }
    }
  }

  lemma ResolvedIsKin(a: Item, b: Item, alt: Item, address: nat, labels: Labels)
    requires WellItem(a) && Kin(a, alt) && Resolved(a, address, labels) == Some(b)
    requires Upgrades(a, address, labels) ==> alt.Jump? && alt.long
    ensures Kin(b, alt)
  {
  }

  /** Where the loop ends is itself a consistent choice. */
  lemma LinkedIsConsistent(a: seq<seq<Item>>, addrs: seq<seq<nat>>, aligns: seq<nat>, starts: seq<nat>, labels: Labels, load: nat)
    requires Shaped(a, addrs, aligns, starts) && WellSections(a) && LaidOut(a, addrs, aligns, starts, labels, load)
    requires Local(a) && AllLinked(a, addrs, labels)
    ensures Consistent(a)
  {
    forall s, i, j | 0 <= s < |a| && 0 <= i < |a[s]| && 0 <= j < |a[s]| ensures ShortReaches(a[s], i, j) {
      if IsShort(a[s][i]) && a[s][j].Label? && a[s][i].target == ELabel(a[s][j].name) {
        assert SectionLinked(a[s], addrs[s], labels) && Linked(a[s][i], addrs[s][i], labels) && LocalSection(a[s]);
        assert SectionLaid(a[s], addrs[s], starts[s]) && LabelsLaid(a[s], addrs[s], labels, |a[s]|);
        JumpDistance(a[s], addrs[s], starts[s], labels, i, j);
        OneByte(a[s][i].buf[1..2]);
      }
    }
  }

  lemma OneByte(b: seq<Byte>)
    requires |b| == 1
    ensures IsIm8(ReadSigned(b))
  {
  }
}
