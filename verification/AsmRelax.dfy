/**
 The settle loop of the assembler: addresses are laid out, jumps that do not
 reach are made long, and both are repeated until nothing changes.
 */
module AsmRelax {
  import opened Options
  import opened Util
  import opened AsmItems
  import opened AsmRound
  import opened AsmMinimal

  /** `put_value` */
  method PutValueInto(buf: seq<Byte>, pos: nat, value: int, size: nat) returns (r: seq<Byte>)
    requires pos + size <= |buf|
    ensures r == PutAt(buf, pos, value, size)
  {
    r := buf;
    var v, i := value, 0;
    assert r == PutAt(buf, pos, value, 0);
    while i < size
      invariant 0 <= i <= size && |r| == |buf|
      invariant r[..pos] == buf[..pos]
      invariant r[pos..pos + i] + PutValue(v, size - i) == PutValue(value, size)
      invariant r[pos + i..] == buf[pos + i..]
    {
      ghost var done, more := r[pos..pos + i], PutValue(v / 256, size - i - 1);
      r := r[pos + i := v % 256];
      assert r[pos..pos + i + 1] == done + [v % 256];
      assert (done + [v % 256]) + more == done + ([v % 256] + more);
      v := v / 256;
      i := i + 1;
    }
    assert r[pos..pos + size] + [] == PutValue(value, size);
    assert r == r[..pos] + r[pos..pos + size] + r[pos + size..];
  }

  /** The loop over the items of one section: their addresses, the label table, and the alignment asked for. */
  method CalcItems(irs: seq<seq<Item>>, sec: nat, start: nat, labels: Labels, align: nat) returns (as_: seq<nat>, table: Labels, raised: nat, end: nat)
    requires OnceEach(irs) && AllKnown(irs, labels) && sec < |irs| && WellItems(irs[sec])
    ensures SectionLaid(irs[sec], as_, start) && end == AddrBefore(irs[sec], start, |irs[sec]|)
    ensures raised == RaisedAlign(irs[sec], align, |irs[sec]|)
    ensures LabelsLaid(irs[sec], as_, table, |irs[sec]|) && table.Keys == labels.Keys
    ensures forall n | n in table :: table[n].defined == labels[n].defined
    ensures forall n | n in table && n !in NamesIn(irs[sec]) :: table[n] == labels[n]
  {
    hide OnceEach, AllKnown, NamesIn;
    var items := irs[sec];
    var address := start;
    as_, table, raised := [], labels, align;
    for i := 0 to |items|
      invariant address == AddrBefore(items, start, i)
      invariant |as_| == i && forall k | 0 <= k < i :: as_[k] == AddrOf(items, start, k)
      invariant raised == RaisedAlign(items, align, i)
      invariant table.Keys == labels.Keys
      invariant forall n | n in table :: table[n].defined == labels[n].defined
      invariant forall n | n in table && n !in NamesIn(items) :: table[n] == labels[n]
      invariant forall k | 0 <= k < i && items[k].Label? :: items[k].name in table && table[items[k].name].address == as_[k]
    {
      var it := items[i];
      assert WellItem(it);
      match it {
        case Label(name) =>
          LabelFacts(irs, labels, sec, i);
          table := table[name := table[name].(address := address)];
        case Align(a) =>
          address := After(it, address);
          if a > raised {
            raised := a;
          }
        case _ =>
      }
      as_ := as_ + [address];
      if !it.Align? {
        address := address + Size(it);
      }
    }
    end := address;
  }

  method ResolveItems(items: seq<Item>, addrs: seq<nat>, labels: Labels) returns (out: seq<Item>, ok: bool, settle: bool)
    requires WellItems(items) && |addrs| == |items|
    ensures ok <==> SectionResolves(items, addrs, labels)
    ensures ok ==> SectionIsResolved(items, out, addrs, labels)
    ensures settle <==> !SectionUpgrades(items, addrs, labels)
  {
    hide Resolved, Upgrades;
    out, ok, settle := [], true, true;
    for i := 0 to |items|
      invariant |out| == i
      invariant ok <==> forall k | 0 <= k < i :: Resolved(items[k], addrs[k], labels).Some?
      invariant ok ==> forall k | 0 <= k < i :: Resolved(items[k], addrs[k], labels) == Some(out[k])
      invariant settle <==> forall k | 0 <= k < i :: !Upgrades(items[k], addrs[k], labels)
    {
      var r := ResolveItem(items[i], addrs[i], labels);
      if Upgrades(items[i], addrs[i], labels) {
        settle := false;
      }
      if r.None? {
        ok := false;
      }
      out := out + [if r.Some? then r.value else items[i]];
    }
  }

  method ResolveItem(it: Item, address: nat, labels: Labels) returns (r: Option<Item>)
    requires WellItem(it)
    ensures r == Resolved(it, address, labels)
  {
    match it {
      case Jump(op, target, long, buf) =>
        var dst := CalcExpr(labels, target);
        if dst.None? {
          return None;
        }
        var offset := dst.value - (address + |buf|);
        if !long {
          if !IsIm8(offset) {
            return Some(Jump(op, target, true, LongForm(op)));
          }
          var b := PutValueInto(buf, 1, offset, 1);
          return Some(Jump(op, target, false, b));
        }
        if !IsIm32(offset) {
          return None;
        }
        var d := if op == 0 then 1 else 2;
        var b := PutValueInto(buf, d, offset, 4);
        return Some(Jump(op, target, true, b));
      case Call(target, buf) =>
        var dst := CalcExpr(labels, target);
        if dst.None? {
          return None;
        }
        var b := PutValueInto(buf, 1, dst.value - (address + |buf|), 4);
        return Some(Call(target, b));
      case Lea(e, buf) =>
        var dst := CalcExpr(labels, e);
        if dst.None? {
          return None;
        }
        var b := PutValueInto(buf, 3, dst.value - (address + |buf|), 4);
        return Some(Lea(e, b));
      case Value(_, e) =>
        return if CalcExpr(labels, e).Some? then Some(it) else None;
      case _ =>
        return Some(it);
    }
  }

  lemma StillPowers(irs: seq<seq<Item>>, before: seq<nat>, after: seq<nat>)
    requires WellSections(irs) && |irs| == |before| == |after|
    requires forall s | 0 <= s < |irs| :: after[s] == RaisedAlign(irs[s], before[s], |irs[s]|)
    ensures PowersOfTwo(before) ==> PowersOfTwo(after)
  {
    if PowersOfTwo(before) {
      forall s | 0 <= s < |irs| ensures after[s] <= 1 || IsPow2(after[s]) {
        RaisedPow2(irs[s], before[s], |irs[s]|);
      }
    }
  }

  class Assembler {
    var irs: seq<seq<Item>>
    var addrs: seq<seq<nat>>
    var labels: Labels
    var aligns: seq<nat>
    var starts: seq<nat>

    ghost predicate Valid()
      reads this
    {
      Shaped(irs, addrs, aligns, starts) && WellSections(irs) && OnceEach(irs) && AllKnown(irs, labels)
    }

    /** `calc_label_address` on one section. */
    method CalcSection(sec: nat, start: nat) returns (end: nat, settle: bool)
      requires Valid() && sec < SECTION_COUNT
      modifies this`addrs, this`labels, this`aligns
      ensures Valid()
      ensures addrs == old(addrs)[sec := addrs[sec]] && SectionLaid(irs[sec], addrs[sec], start)
      ensures end == AddrBefore(irs[sec], start, |irs[sec]|)
      ensures aligns == old(aligns)[sec := RaisedAlign(irs[sec], old(aligns)[sec], |irs[sec]|)]
      ensures settle <==> aligns == old(aligns)
      ensures labels.Keys == old(labels).Keys && LabelsLaid(irs[sec], addrs[sec], labels, |irs[sec]|)
      ensures forall n | n in labels :: labels[n].defined == old(labels)[n].defined
      ensures forall n | n in labels && n !in NamesIn(irs[sec]) :: labels[n] == old(labels)[n]
    {
      hide OnceEach, AllKnown, WellSections;
      SectionWell(irs, sec);
      var as_, table, align, e := CalcItems(irs, sec, start, labels, aligns[sec]);
      end, settle := e, align == aligns[sec];
      KnownKept(irs, labels, table);
      addrs, labels, aligns := addrs[sec := as_], table, aligns[sec := align];
    }

    /** `calc_label_address`; false when a section asks for more alignment than it has got. */
    method CalcLabelAddress(load: nat) returns (settle: bool)
      requires Valid()
      modifies this`addrs, this`labels, this`aligns, this`starts
      ensures Valid()
      ensures LaidOut(irs, addrs, old(aligns), starts, labels, load)
      ensures forall s | 0 <= s < SECTION_COUNT :: aligns[s] == RaisedAlign(irs[s], old(aligns)[s], |irs[s]|)
      ensures settle <==> aligns == old(aligns)
      ensures SameLabels(old(labels), labels)
    {
      hide OnceEach, AllKnown, SectionLaid, LabelsLaid, RaisedAlign;
      settle := true;
      var address := load;
      ghost var aligns0 := aligns;
      for sec := 0 to SECTION_COUNT
        invariant Valid() && SameLabels(old(labels), labels)
        invariant address == if sec == 0 then load else AddrBefore(irs[sec - 1], starts[sec - 1], |irs[sec - 1]|)
        invariant forall s | 0 <= s < sec :: starts[s] == SectionStart(irs, aligns0, load, s)
        invariant forall s | 0 <= s < sec :: SectionLaid(irs[s], addrs[s], starts[s]) && LabelsLaid(irs[s], addrs[s], labels, |irs[s]|)
        invariant forall s | 0 <= s < SECTION_COUNT :: aligns[s] == if s < sec then RaisedAlign(irs[s], aligns0[s], |irs[s]|) else aligns0[s]
        invariant settle <==> aligns == aligns0
      {
        address := AlignSection(aligns[sec], address);
        starts := starts[sec := address];
        ghost var before, table := aligns, labels;
        var end, quiet := CalcSection(sec, address);
        settle := settle && quiet;
        address := end;
        OtherLabels(irs, addrs, table, labels, sec);
        AlignsQuiet(aligns0, before, aligns, sec);
      }
    }

    /** `resolve_relative_address`; `ok` is false when it gives up, `settle` when a jump has grown. */
    method ResolveRelativeAddress() returns (ok: bool, settle: bool)
      requires Valid()
      modifies this`irs
      ensures Valid()
      ensures ok <==> AllResolve(old(irs), addrs, labels)
      ensures if ok then IsResolved(old(irs), irs, addrs, labels) else irs == old(irs)
      ensures ok ==> KinSections(old(irs), irs) && (settle <==> !SomeUpgrade(old(irs), addrs, labels))
    {
      hide OnceEach, AllKnown, Resolved, Upgrades, WellItems;
      var out: seq<seq<Item>> := [];
      settle := true;
      for sec := 0 to SECTION_COUNT
        invariant Valid() && irs == old(irs) && |out| == sec
        invariant forall s | 0 <= s < sec :: SectionResolves(irs[s], addrs[s], labels) && SectionIsResolved(irs[s], out[s], addrs[s], labels)
        invariant settle <==> forall s | 0 <= s < sec :: !SectionUpgrades(irs[s], addrs[s], labels)
      {
        var items, fine, quiet := ResolveItems(irs[sec], addrs[sec], labels);
        if !fine {
          return false, false;
        }
        settle := settle && quiet;
        out := out + [items];
      }
      ok := true;
      ResolvedKin(irs, out, addrs, labels);
      KinKeepsLabels(irs, out, labels);
      irs := out;
    }

    /** The settle loop; false when the assembler gives up. */
    method Settle(load: nat) returns (ok: bool)
      requires Valid()
      modifies this
      ensures Valid() && KinSections(old(irs), irs) && SameLabels(old(labels), labels)
      ensures ok ==> LaidOut(irs, addrs, aligns, starts, labels, load) && AllLinked(irs, addrs, labels)
      ensures ok ==> forall s | 0 <= s < SECTION_COUNT :: aligns[s] == RaisedAlign(irs[s], aligns[s], |irs[s]|)
      ensures !ok ==> !AllResolve(irs, addrs, labels)
      ensures forall s | 0 <= s < SECTION_COUNT :: aligns[s] >= old(aligns)[s]
      ensures PowersOfTwo(old(aligns)) ==> PowersOfTwo(aligns)
      ensures ok && Local(old(irs)) ==> Consistent(irs)
      ensures ok && Local(old(irs)) ==> forall alt | Alternative(old(irs), alt) :: KinSections(irs, alt)
    {
      hide OnceEach, AllKnown, RaisedAlign, LaidOut, SectionResolves, SectionIsResolved, SectionUpgrades, KinAll, AllShorts, Local, Consistent, PowersOfTwo, IsResolved, SomeUpgrade;
      ok := true;
      var settled := false;
      KinSectionsRefl(irs);
      while !settled
        invariant Valid() && KinSections(old(irs), irs) && SameLabels(old(labels), labels) && ok
        invariant settled ==> LaidOut(irs, addrs, aligns, starts, labels, load) && AllLinked(irs, addrs, labels)
        invariant settled ==> !Outstanding(irs, aligns)
        invariant Local(old(irs)) ==> forall alt | Alternative(old(irs), alt) :: KinSections(irs, alt)
        invariant settled && Local(old(irs)) ==> Consistent(irs)
        invariant forall s | 0 <= s < SECTION_COUNT :: aligns[s] >= old(aligns)[s]
        invariant PowersOfTwo(old(aligns)) ==> PowersOfTwo(aligns)
        decreases AllShorts(irs), Outstanding(irs, aligns), !settled
      {
        ghost var irs0, aligns0 := irs, aligns;
        var settle1 := CalcLabelAddress(load);
        NoneOutstanding(irs, aligns0, aligns);
        StillPowers(irs, aligns0, aligns);
        var fine, settle2 := ResolveRelativeAddress();
        if !fine {
          return false;
        }
        if Local(old(irs)) {
          KinLocal(old(irs), irs0);
          forall alt | Alternative(old(irs), alt) ensures KinSections(irs, alt) {
            RoundWithin(irs0, irs, alt, addrs, aligns0, starts, labels, load);
          }
        }
        KinSectionsTrans(old(irs), irs0, irs);
        RoundDrops(irs0, irs, addrs, labels, aligns);
        settled := settle1 && settle2;
        if settled {
          SettledIsLinked(irs0, irs, addrs, labels);
          SettledIsLaid(irs0, irs, addrs, aligns, starts, labels, load);
          if Local(old(irs)) {
            KinLocal(old(irs), irs);
            LinkedIsConsistent(irs, addrs, aligns, starts, labels, load);
          }
        }
      }
    }
  }
}
