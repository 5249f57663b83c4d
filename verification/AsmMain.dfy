/** The assembler behind its parser, when it makes an executable. */
module AsmMain {
  import opened Util
  import opened AsmItems
  import opened AsmRound
  import opened AsmRelax
  import opened AsmEmit
  import opened AsmImage

  const DATA_ALIGN: nat := 0x1000
  const LOAD_ADDRESS: nat := 0x0100_0000 + 0x100

  lemma KinPlaced(a: seq<seq<Item>>, b: seq<seq<Item>>)
    requires Placed(a) && KinSections(a, b) && WellSections(b)
    ensures Placed(b)
  {
    forall s | 0 <= s < |b| ensures KinAll(a[s], b[s]) && Emittable(b[s], s) {
      assert KinAll(a[s], b[s]) && Emittable(a[s], s);
      forall i | 0 <= i < |b[s]| ensures Kin(a[s][i], b[s][i]) {}
    }
    forall s, i | 0 <= s < |b| && 0 <= i < |b[s]|
      ensures (IsCode(b[s][i]) ==> s == SEC_CODE) && (b[s][i].Bss? ==> s == SEC_BSS)
    {
      assert KinAll(a[s], b[s]) && Kin(a[s][i], b[s][i]);
    }
  }

  lemma PageIsPow2()
    ensures IsPow2(4096)
  {
    assert IsPow2(1) && IsPow2(2) && IsPow2(4) && IsPow2(8) && IsPow2(16) && IsPow2(32) && IsPow2(64);
    assert IsPow2(128) && IsPow2(256) && IsPow2(512) && IsPow2(1024) && IsPow2(2048);
  }

  /**
   From the parsed items to the section buffers. When it succeeds, every byte
   stands in its buffer where its address says, and every displacement leads to
   its target.
   */
  method Assemble(a: Assembler, out: Output) returns (ok: bool, fixed: seq<nat>)
    requires a.Valid() && Placed(a.irs) && PowersOfTwo(a.aligns)
    requires out.Valid() && out.Value() == Out([[], [], []], 0)
    modifies a, out`bssSize, out.code, out.rodata, out.data, out.code.data, out.rodata.data, out.data.data
    ensures a.Valid() && KinSections(old(a.irs), a.irs) && out.Valid()
    ensures ok ==> LaidOut(a.irs, a.addrs, a.aligns, a.starts, a.labels, LOAD_ADDRESS) && AllLinked(a.irs, a.addrs, a.labels)
    ensures ok ==> forall s | 0 <= s < SEC_BSS :: out.Value().bufs[s] == Image(a.irs[s], a.labels, |a.irs[s]|)
    ensures ok ==> forall s, i | 0 <= s < SEC_BSS && 0 <= i < |a.irs[s]| :: Stands(a.irs[s][i], out.Value().bufs[s], a.starts[s], a.addrs[s][i], a.labels)
    ensures ok ==> a.starts[2] % 4096 == 0
    ensures ok ==> out.Value().bss == AddrBefore(a.irs[SEC_BSS], a.starts[SEC_BSS], |a.irs[SEC_BSS]|) - a.starts[SEC_BSS]
    ensures ok ==> |fixed| == SECTION_COUNT
    ensures ok ==> (fixed == a.starts <==> LOAD_ADDRESS % Max(a.aligns[SEC_CODE], 1) == 0 && a.starts[SEC_DATA] % Max(a.aligns[SEC_BSS], 1) == 0)
  {
    hide OnceEach, AllKnown, AllLinked, LaidOut, EmittedAt, Stands, Placed, KinSections, Image, EmitSections, PowersOfTwo, WellSections;
    ghost var irs0 := a.irs;
    PageIsPow2();
    PowersWith(a.aligns, SEC_DATA, DATA_ALIGN);
    a.aligns := a.aligns[SEC_DATA := DATA_ALIGN];
    ok := a.Settle(LOAD_ADDRESS);
    fixed := [];
    if ok {
      ghost var irs, addrs, aligns, starts, labels := a.irs, a.addrs, a.aligns, a.starts, a.labels;
      KinPlaced(irs0, irs);
      PlacedIsEmittable(irs);
      out.EmitIrs(a.irs, a.labels);
      EmissionIsImage(irs, labels);
      LastIsBss(irs, labels);
      BssAgrees(irs, addrs, aligns, starts, labels, LOAD_ADDRESS);
      forall s, i | 0 <= s < SEC_BSS && 0 <= i < |irs[s]| ensures WellItems(irs[s]) && Stands(irs[s][i], Image(irs[s], labels, |irs[s]|), starts[s], addrs[s][i], labels) {
        EmissionAgrees(irs, addrs, aligns, starts, labels, LOAD_ADDRESS, s, i);
        SectionWell(irs, s);
        ItemStands(irs, addrs, starts, labels, s, i);
      }
      DataStart(irs, addrs, aligns, starts, labels, LOAD_ADDRESS);
      fixed := FixedStarts(LOAD_ADDRESS, out.code.size, out.rodata.size, out.data.size, a.aligns);
      SizesAre(irs, addrs, aligns, starts, labels, LOAD_ADDRESS);
    }
  }

  /** With code aligned to 512 bytes the code section is laid out elsewhere than it is said to be loaded. */
  lemma CodeAlignmentMissed(irs: seq<seq<Item>>, aligns: seq<nat>, codeSize: nat, rodataSize: nat, dataSize: nat)
    requires |irs| == |aligns| == SECTION_COUNT && WellSections(irs) && aligns[SEC_CODE] == 512
    ensures SectionStart(irs, aligns, LOAD_ADDRESS, SEC_CODE) == 0x0100_0200
    ensures FixedStarts(LOAD_ADDRESS, codeSize, rodataSize, dataSize, aligns)[SEC_CODE] == 0x0100_0100
  {
  }

  lemma ItemStands(irs: seq<seq<Item>>, addrs: seq<seq<nat>>, starts: seq<nat>, labels: Labels, s: nat, i: nat)
    requires Addressed(irs, addrs) && WellSections(irs) && AllLinked(irs, addrs, labels) && |starts| == |irs| && s < |irs| && i < |irs[s]|
    requires WellItems(irs[s]) && EmittedAt(irs[s], addrs[s], labels, starts[s], i)
    ensures Stands(irs[s][i], Image(irs[s], labels, |irs[s]|), starts[s], addrs[s][i], labels)
  {
    hide Linked, Image, Stands, Bytes;
    assert SectionLinked(irs[s], addrs[s], labels);
    LinkedStands(irs[s][i], Image(irs[s], labels, |irs[s]|), starts[s], addrs[s][i], labels);
  }

  /** The data section begins a page. */
  lemma DataStart(irs: seq<seq<Item>>, addrs: seq<seq<nat>>, aligns: seq<nat>, starts: seq<nat>, labels: Labels, load: nat)
    requires Shaped(irs, addrs, aligns, starts) && WellSections(irs) && LaidOut(irs, addrs, aligns, starts, labels, load)
    requires PowersOfTwo(aligns) && aligns[2] >= 4096
    ensures starts[2] % 4096 == 0
  {
    hide AddrBefore, AlignUp;
    OneLaid(irs, addrs, aligns, starts, labels, load, 2);
    var before := AddrBefore(irs[1], SectionStart(irs, aligns, load, 1), |irs[1]|);
    AlignUpIs(before, aligns[2]);
    PageIsPow2();
    Pow2Divides(4096, aligns[2]);
    DividesTrans(starts[2], aligns[2], 4096);
  }

  lemma PowersWith(aligns: seq<nat>, s: nat, a: nat)
    requires PowersOfTwo(aligns) && s < |aligns| && IsPow2(a)
    ensures PowersOfTwo(aligns[s := a])
  {
  }

  lemma PlacedIsEmittable(irs: seq<seq<Item>>)
    requires Placed(irs)
    ensures AllEmittable(irs)
  {
  }

  /** The last section adds nothing to the buffers. */
  lemma LastIsBss(irs: seq<seq<Item>>, labels: Labels)
    requires Placed(irs)
    ensures AllEmittable(irs)
    ensures EmitSections(Out([[], [], []], 0), irs, labels, 4).bufs == EmitSections(Out([[], [], []], 0), irs, labels, 3).bufs
  {
    hide EmitItems;
    var o := EmitSections(Out([[], [], []], 0), irs, labels, 3);
    assert Emittable(irs[3], 3);
    BssItems(o, irs, labels, |irs[3]|);
  }

  lemma {:induction false} BssItems(o: Out, irs: seq<seq<Item>>, labels: Labels, i: nat)
    requires |o.bufs| == 3 && Placed(irs) && i <= |irs[3]|
    ensures Emittable(irs[3], SEC_BSS) && EmitItems(o, SEC_BSS, irs[3], labels, i).bufs == o.bufs
  {
    assert Emittable(irs[3], SEC_BSS);
    if i > 0 {
      BssItems(o, irs, labels, i - 1);
    }
  }

  lemma SizesAre(irs: seq<seq<Item>>, addrs: seq<seq<nat>>, aligns: seq<nat>, starts: seq<nat>, labels: Labels, load: nat)
    requires Placed(irs) && Shaped(irs, addrs, aligns, starts) && WellSections(irs) && PowersOfTwo(aligns)
    requires LaidOut(irs, addrs, aligns, starts, labels, load) && AllLinked(irs, addrs, labels)
    requires forall t | 0 <= t < SECTION_COUNT :: aligns[t] == RaisedAlign(irs[t], aligns[t], |irs[t]|)
    ensures WellItems(irs[0]) && WellItems(irs[1]) && WellItems(irs[2])
    ensures var f := FixedStarts(load, |Image(irs[0], labels, |irs[0]|)|, |Image(irs[1], labels, |irs[1]|)|, |Image(irs[2], labels, |irs[2]|)|, aligns);
            f == starts <==> load % Max(aligns[SEC_CODE], 1) == 0 && starts[SEC_DATA] % Max(aligns[SEC_BSS], 1) == 0
  {
    hide AllLinked, LaidOut, Placed, Image, AddrBefore, RaisedAlign, PowersOfTwo;
    forall s | 0 <= s < SEC_BSS ensures WellItems(irs[s]) && |Image(irs[s], labels, |irs[s]|)| == AddrBefore(irs[s], starts[s], |irs[s]|) - starts[s] {
      StartDivides(irs, addrs, aligns, starts, labels, load, s);
      SizesMatch(irs, addrs, labels, s);
      ImageSize(irs[s], labels, starts[s], |irs[s]|);
    }
    StartsAre(irs, addrs, aligns, starts, labels, load);
    FixedStartsAgree(irs, aligns, load);
  }

  lemma StartsAre(irs: seq<seq<Item>>, addrs: seq<seq<nat>>, aligns: seq<nat>, starts: seq<nat>, labels: Labels, load: nat)
    requires Shaped(irs, addrs, aligns, starts) && WellSections(irs) && LaidOut(irs, addrs, aligns, starts, labels, load)
    ensures starts == seq(SECTION_COUNT, s requires 0 <= s < SECTION_COUNT => SectionStart(irs, aligns, load, s))
  {
  }
}
