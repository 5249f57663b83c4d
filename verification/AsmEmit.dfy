/**
 Emission into section buffers, and its agreement with the addresses of the
 layout: one side aligns addresses, the other the sizes of buffers.
 */
module AsmEmit {
  import opened Options
  import opened Util
  import opened AsmItems
  import opened AsmRound

  const SEC_CODE: nat := 0
  const SEC_RODATA: nat := 1
  const SEC_DATA: nat := 2
  const SEC_BSS: nat := 3

  function Zeros(n: nat): (z: seq<Byte>)
    ensures |z| == n && forall k | 0 <= k < n :: z[k] == 0
  {
    if n == 0 then [] else [0] + Zeros(n - 1)
  }

  // ----- What emission makes of the section buffers -----

  /** The buffers of the first three sections, and the size of the last. */
  datatype Out = Out(bufs: seq<seq<Byte>>, bss: nat)

  /** The bytes of an item, alignment apart. */
  function Bytes(it: Item, labels: Labels): seq<Byte> {
    match it
    case Jump(_, _, _, buf) => buf
    case Call(_, buf) => buf
    case Lea(_, buf) => buf
    case Code(buf) => buf
    case Data(bytes) => bytes
    case Value(size, e) =>
      var v := CalcExpr(labels, e);
      if v.Some? then PutValue(v.value, size) else []
    case _ => []
  }

  predicate IsCode(it: Item) {
    it.Jump? || it.Call? || it.Lea? || it.Code?
  }

  function Padding(size: nat, align: nat): nat
    requires IsPow2(align)
  {
    AlignUpIs(size, align);
    AlignUp(size, align) - size
  }

  /** `emit_irs` on one item: code goes to the code section, whatever section it stands in. */
  function EmitItem(o: Out, sec: nat, it: Item, labels: Labels): (r: Out)
    requires |o.bufs| == 3 && sec <= SEC_BSS && WellItem(it)
    requires sec == SEC_BSS ==> !it.Data? && !it.Value?
    ensures |r.bufs| == 3
  {
    match it
    case Label(_) => o
    case Bss(n) => o.(bss := o.bss + n)
    case Align(a) =>
      if sec != SEC_BSS then o.(bufs := o.bufs[sec := o.bufs[sec] + Zeros(Padding(|o.bufs[sec]|, a))])
      else o.(bss := o.bss + Padding(o.bss, a))
    case _ =>
      var s := if IsCode(it) then SEC_CODE else sec;
      o.(bufs := o.bufs[s := o.bufs[s] + Bytes(it, labels)])
  }

  ghost predicate Emittable(items: seq<Item>, sec: nat) {
    WellItems(items) && (sec == SEC_BSS ==> forall i | 0 <= i < |items| :: !items[i].Data? && !items[i].Value?)
  }

  function EmitItems(o: Out, sec: nat, items: seq<Item>, labels: Labels, i: nat): (r: Out)
    requires |o.bufs| == 3 && sec <= SEC_BSS && Emittable(items, sec) && i <= |items|
    ensures |r.bufs| == 3
  {
    if i == 0 then o else EmitItem(EmitItems(o, sec, items, labels, i - 1), sec, items[i - 1], labels)
  }

  ghost predicate AllEmittable(irs: seq<seq<Item>>) {
    |irs| == SECTION_COUNT && forall s | 0 <= s < |irs| :: Emittable(irs[s], s)
  }

  ghost function EmitSections(o: Out, irs: seq<seq<Item>>, labels: Labels, n: nat): (r: Out)
    requires |o.bufs| == 3 && AllEmittable(irs) && n <= |irs|
    ensures |r.bufs| == 3
  {
    if n == 0 then o else EmitItems(EmitSections(o, irs, labels, n - 1), n - 1, irs[n - 1], labels, |irs[n - 1]|)
  }

  // ----- The buffers -----

  /** The room `buf_put` asks for. */
  function Capacity(size: nat): (c: nat)
    ensures c >= 16 && 2 * size <= c && c % 16 == 0 && (size >= 8 ==> c < 2 * size + 16)
  {
    var c := (if size < 8 then 8 else size) * 2;
    AlignUpIs(c, 16);
    AlignUp(c, 16)
  }

  /** A growing byte buffer. */
  class Buffer {
    var data: array<Byte>
    var size: nat

    ghost predicate Valid()
      reads this
    {
      size <= data.Length
    }

    ghost function Contents(): seq<Byte>
      reads this, data
      requires Valid()
    {
      data[..size]
    }

    constructor ()
      ensures Valid() && fresh(data) && Contents() == []
    {
      data, size := new Byte[0], 0;
    }

    /** Storage of the given size, with the contents so far. */
    method Realloc(capacity: nat)
      requires Valid() && size <= capacity
      modifies this`data
      ensures Valid() && fresh(data) && data.Length == capacity && Contents() == old(Contents())
    {
      var p := new Byte[capacity](_ => 0);
      for k := 0 to size
        invariant data == old(data) && data[..] == old(data[..])
        invariant forall j | 0 <= j < k :: p[j] == data[j]
      {
        p[k] := data[k];
      }
      data := p;
    }

    /** `memcpy` into the storage. */
    method Write(at: nat, bytes: seq<Byte>)
      requires at + |bytes| <= data.Length
      modifies data
      ensures data[..at] == old(data[..at]) && data[at..at + |bytes|] == bytes
    {
      for k := 0 to |bytes|
        invariant data[..at] == old(data[..at])
        invariant data[at..at + k] == bytes[..k]
      {
        data[at + k] := bytes[k];
        assert data[at..at + (k + 1)] == data[at..at + k] + [bytes[k]];
        assert bytes[..k + 1] == bytes[..k] + [bytes[k]];
      }
      assert bytes[..|bytes|] == bytes;
    }

    /** `buf_put`: the storage doubles when it is too small. */
    method Put(bytes: seq<Byte>)
      requires Valid()
      modifies this, data
      ensures Valid() && (data == old(data) || fresh(data))
      ensures Contents() == old(Contents()) + bytes
    {
      ghost var before := Contents();
      var newSize := size + |bytes|;
      if newSize > data.Length {
        var capacity := Capacity(newSize);
        Realloc(capacity);
      }
      Write(size, bytes);
      assert data[..newSize] == data[..size] + data[size..newSize];
      size := newSize;
    }

    /** `buf_align` */
    method Align(align: nat)
      requires Valid() && IsPow2(align)
      modifies this, data
      ensures Valid() && (data == old(data) || fresh(data))
      ensures Contents() == old(Contents()) + Zeros(Padding(old(size), align))
    {
      AlignUpIs(size, align);
      var add := AlignUp(size, align) - size;
      if add <= 0 {
        assert Zeros(0) == [];
        return;
      }
      Put(Zeros(add));
    }
  }

  class Output {
    const code: Buffer
    const rodata: Buffer
    const data: Buffer
    var bssSize: nat

    constructor ()
      ensures Valid() && Value() == Out([[], [], []], 0)
      ensures fresh(code) && fresh(rodata) && fresh(data) && fresh(code.data) && fresh(rodata.data) && fresh(data.data)
    {
      code := new Buffer();
      rodata := new Buffer();
      data := new Buffer();
      bssSize := 0;
    }

    ghost predicate Valid()
      reads this, code, rodata, data
    {
      && code != rodata && code != data && rodata != data
      && code.Valid() && rodata.Valid() && data.Valid()
      && code.data != rodata.data && code.data != data.data && rodata.data != data.data
    }

    ghost function Value(): Out
      reads this, code, rodata, data, code.data, rodata.data, data.data
      requires Valid()
    {
      Out([code.Contents(), rodata.Contents(), data.Contents()], bssSize)
    }

    function Section(sec: nat): Buffer
      requires sec < SEC_BSS
    {
      if sec == SEC_CODE then code else if sec == SEC_RODATA then rodata else data
    }

    method AddSectionData(sec: nat, bytes: seq<Byte>)
      requires Valid() && sec < SEC_BSS
      modifies Section(sec), Section(sec).data
      ensures Valid() && (Section(sec).data == old(Section(sec).data) || fresh(Section(sec).data))
      ensures Value() == old(Value()).(bufs := old(Value()).bufs[sec := old(Value()).bufs[sec] + bytes])
    {
      Section(sec).Put(bytes);
    }

    method AlignSectionSize(sec: nat, align: nat)
      requires Valid() && sec <= SEC_BSS && IsPow2(align)
      modifies this`bssSize, code, rodata, data, code.data, rodata.data, data.data
      ensures Valid() && Grown(old(code.data), old(rodata.data), old(data.data))
      ensures Value() == EmitItem(old(Value()), sec, Item.Align(align), map[])
    {
      if sec != SEC_BSS {
        Section(sec).Align(align);
      } else {
        AlignUpIs(bssSize, align);
        bssSize := AlignUp(bssSize, align);
      }
    }

    /** The storage of a buffer is what it was, or new. */
    twostate predicate Grown(c: array<Byte>, r: array<Byte>, d: array<Byte>)
      reads code, rodata, data
    {
      (code.data == c || fresh(code.data)) && (rodata.data == r || fresh(rodata.data)) && (data.data == d || fresh(data.data))
    }

    method EmitIr(sec: nat, it: Item, labels: Labels)
      requires Valid() && sec <= SEC_BSS && WellItem(it)
      requires sec == SEC_BSS ==> !it.Data? && !it.Value?
      modifies this`bssSize, code, rodata, data, code.data, rodata.data, data.data
      ensures Valid() && Grown(old(code.data), old(rodata.data), old(data.data))
      ensures Value() == EmitItem(old(Value()), sec, it, labels)
    {
      hide AlignUp, Padding, CalcExpr;
      match it {
        case Label(_) =>
        case Bss(n) => bssSize := bssSize + n;
        case Align(a) => AlignSectionSize(sec, a);
        case Value(size, e) =>
          var v := CalcExpr(labels, e);
          if v.Some? {
            AddSectionData(sec, PutValue(v.value, size));
          } else {
            Appended(Value().bufs[sec]);
          }
        case _ => AddSectionData(if IsCode(it) then SEC_CODE else sec, Bytes(it, labels));
      }
    }

    /** `emit_irs` */
    method EmitIrs(irs: seq<seq<Item>>, labels: Labels)
      requires Valid() && AllEmittable(irs)
      modifies this`bssSize, code, rodata, data, code.data, rodata.data, data.data
      ensures Valid() && Grown(old(code.data), old(rodata.data), old(data.data))
      ensures Value() == EmitSections(old(Value()), irs, labels, SECTION_COUNT)
    {
      hide EmitItem;
      for sec := 0 to SECTION_COUNT
        invariant Valid() && Grown(old(code.data), old(rodata.data), old(data.data))
        invariant Value() == EmitSections(old(Value()), irs, labels, sec)
      {
        var items := irs[sec];
        assert Emittable(items, sec);
        ghost var before := Value();
        for i := 0 to |items|
          invariant Valid() && Grown(old(code.data), old(rodata.data), old(data.data))
          invariant Value() == EmitItems(before, sec, items, labels, i)
        {
          EmitIr(sec, items[i], labels);
        }
      }
    }
  }

  lemma Appended(b: seq<Byte>)
    ensures b + [] == b
  {
  }

  // ----- Emission agrees with the addresses -----

  /** Code stands in the code section only, `.bss` space in its section only. */
  ghost predicate Placed(irs: seq<seq<Item>>) {
    && AllEmittable(irs)
    && (forall s, i | 0 <= s < |irs| && 0 <= i < |irs[s]| :: IsCode(irs[s][i]) ==> s == SEC_CODE)
    && (forall s, i | 0 <= s < |irs| && 0 <= i < |irs[s]| :: irs[s][i].Bss? ==> s == SEC_BSS)
  }

  /** What a section's buffer holds after its first `i` items. */
  function Image(items: seq<Item>, labels: Labels, i: nat): seq<Byte>
    requires WellItems(items) && i <= |items|
  {
    if i == 0 then []
    else
      var b := Image(items, labels, i - 1);
      if items[i - 1].Align? then b + Zeros(Padding(|b|, items[i - 1].align)) else b + Bytes(items[i - 1], labels)
  }

  lemma {:induction false} EmitItemsIs(o: Out, sec: nat, irs: seq<seq<Item>>, labels: Labels, i: nat)
    requires |o.bufs| == 3 && Placed(irs) && sec < SEC_BSS && i <= |irs[sec]| && o.bufs[sec] == []
    ensures var r := EmitItems(o, sec, irs[sec], labels, i);
            r.bss == o.bss && r.bufs == o.bufs[sec := Image(irs[sec], labels, i)]
  {
    assert Emittable(irs[sec], sec);
    if i > 0 {
      EmitItemsIs(o, sec, irs, labels, i - 1);
      var it := irs[sec][i - 1];
      assert WellItem(it);
      var b := Image(irs[sec], labels, i - 1);
      if it.Label? {
        assert b + [] == b;
      }
    }
  }

  /** After emission each buffer is the image of its own section. */
  lemma EmissionIsImage(irs: seq<seq<Item>>, labels: Labels)
    requires Placed(irs)
    ensures forall s | 0 <= s < SECTION_COUNT :: Emittable(irs[s], s)
    ensures EmitSections(Out([[], [], []], 0), irs, labels, 3)
         == Out([Image(irs[0], labels, |irs[0]|), Image(irs[1], labels, |irs[1]|), Image(irs[2], labels, |irs[2]|)], 0)
  {
    hide EmitItem, EmitItems, Image;
    var o := Out([[], [], []], 0);
    forall s | 0 <= s < SECTION_COUNT ensures Emittable(irs[s], s) {}
    assert EmitSections(o, irs, labels, 0) == o;
    EmitItemsIs(o, 0, irs, labels, |irs[0]|);
    var o1 := EmitSections(o, irs, labels, 1);
    assert o1.bufs[1] == [] && o1.bufs[2] == [];
    EmitItemsIs(o1, 1, irs, labels, |irs[1]|);
    var o2 := EmitSections(o, irs, labels, 2);
    assert o2.bufs[2] == [];
    EmitItemsIs(o2, 2, irs, labels, |irs[2]|);
  }

  lemma AlignShift(x: nat, start: nat, align: nat)
    requires align > 0 && start % align == 0
    ensures AlignUp(start + x, align) == start + AlignUp(x, align)
  {
    var q := start / align;
    assert start == q * align;
    var y := x + align - 1;
    DivShift(y, q, align);
    assert (start + y) / align == q + y / align;
    assert (q + y / align) * align == q * align + y / align * align;
  }

  lemma DivShift(y: int, q: int, a: nat)
    requires a > 0
    ensures (q * a + y) / a == q + y / a
  {
    var d, r := y / a, y % a;
    assert q * a + y == (q + d) * a + r;
    var e, f := (q * a + y) / a, (q * a + y) % a;
    assert (q + d - e) * a == f - r;
    MulBounds(q + d - e, a);
  }

  /** The alignment a section ended with is a multiple of every alignment in it. */
  lemma {:induction false} AlignsDivide(items: seq<Item>, align: nat, n: nat, i: nat)
    requires WellItems(items) && i < n <= |items| && items[i].Align?
    requires align <= 1 || IsPow2(align)
    ensures var r := RaisedAlign(items, align, n); (r <= 1 || IsPow2(r)) && items[i].align > 0 && (r > 1 ==> r % items[i].align == 0) && (r <= 1 ==> items[i].align == 1)
  {
    RaisedPow2(items, align, n);
    RaisedAtLeast(items, align, n, i);
    assert WellItem(items[i]);
    var r := RaisedAlign(items, align, n);
    if r > 1 {
      Pow2Divides(items[i].align, r);
    }
  }

  lemma {:induction false} RaisedAtLeast(items: seq<Item>, align: nat, n: nat, i: nat)
    requires i < n <= |items| && items[i].Align?
    ensures RaisedAlign(items, align, n) >= items[i].align
  {
    if i < n - 1 {
      RaisedAtLeast(items, align, n - 1, i);
    }
  }

  ghost predicate AlignsOf(items: seq<Item>, start: nat) {
    forall i | 0 <= i < |items| && items[i].Align? :: items[i].align > 0 && start % items[i].align == 0
  }

  /** Item `i` is emitted at its address less the start of the section. */
  lemma {:induction false} ImageSize(items: seq<Item>, labels: Labels, start: nat, i: nat)
    requires WellItems(items) && i <= |items| && AlignsOf(items, start)
    requires forall k | 0 <= k < |items| :: |Bytes(items[k], labels)| == Size(items[k])
    ensures |Image(items, labels, i)| == AddrBefore(items, start, i) - start
  {
    if i > 0 {
      ImageSize(items, labels, start, i - 1);
      if items[i - 1].Align? {
        AlignShift(|Image(items, labels, i - 1)|, start, items[i - 1].align);
      }
    }
  }

  lemma {:induction false} ImagePrefix(items: seq<Item>, labels: Labels, i: nat, n: nat)
    requires WellItems(items) && i <= n <= |items|
    ensures Image(items, labels, i) <= Image(items, labels, n)
    decreases n
  {
    if i < n {
      ImagePrefix(items, labels, i, n - 1);
    }
  }

  /** The bytes of an item lie where its address says. */
  ghost predicate EmittedAt(items: seq<Item>, addrs: seq<nat>, labels: Labels, start: nat, i: nat)
    requires WellItems(items) && i < |items| == |addrs|
  {
    var image, b := Image(items, labels, |items|), Bytes(items[i], labels);
    && start <= addrs[i] && addrs[i] - start + |b| <= |image|
    && image[addrs[i] - start..addrs[i] - start + |b|] == b
  }

  lemma LaidAt(items: seq<Item>, addrs: seq<nat>, start: nat, i: nat)
    requires WellItems(items) && i < |items| && SectionLaid(items, addrs, start)
    ensures |addrs| == |items| && addrs[i] == AddrOf(items, start, i)
  {
  }

  lemma ItemEmittedAt(items: seq<Item>, addrs: seq<nat>, labels: Labels, start: nat, i: nat)
    requires WellItems(items) && i < |items| && AlignsOf(items, start) && SectionLaid(items, addrs, start)
    requires forall k | 0 <= k < |items| :: |Bytes(items[k], labels)| == Size(items[k])
    ensures EmittedAt(items, addrs, labels, start, i)
  {
    hide SectionLaid, AlignsOf, Image, AddrBefore;
    LaidAt(items, addrs, start, i);
    ImageSize(items, labels, start, i);
    ImageSize(items, labels, start, i + 1);
    ImagePrefix(items, labels, i + 1, |items|);
    ImageStep(items, labels, i);
    var p, q := Image(items, labels, i), Image(items, labels, i + 1);
    if items[i].Align? {
      SliceOf(q, [], q, Image(items, labels, |items|));
    } else {
      SliceOf(p, Bytes(items[i], labels), q, Image(items, labels, |items|));
    }
  }

  lemma ImageStep(items: seq<Item>, labels: Labels, i: nat)
    requires WellItems(items) && i < |items|
    ensures Image(items, labels, i + 1)
         == if items[i].Align? then Image(items, labels, i) + Zeros(Padding(|Image(items, labels, i)|, items[i].align))
            else Image(items, labels, i) + Bytes(items[i], labels)
  {
  }

  lemma SliceOf(p: seq<Byte>, b: seq<Byte>, q: seq<Byte>, image: seq<Byte>)
    requires q == p + b && q <= image
    ensures |p| + |b| <= |image| && image[|p|..|p| + |b|] == b
  {
    assert image[..|q|] == q;
  }

  /**
   Once the settle loop has ended, every item of the first three sections is
   emitted at its address less the address its section starts at.
   */
  lemma EmissionAgrees(irs: seq<seq<Item>>, addrs: seq<seq<nat>>, aligns: seq<nat>, starts: seq<nat>, labels: Labels, load: nat, s: nat, i: nat)
    requires Placed(irs) && Shaped(irs, addrs, aligns, starts) && WellSections(irs)
    requires LaidOut(irs, addrs, aligns, starts, labels, load) && AllLinked(irs, addrs, labels)
    requires forall t | 0 <= t < SECTION_COUNT :: aligns[t] == RaisedAlign(irs[t], aligns[t], |irs[t]|)
    requires PowersOfTwo(aligns)
    requires s < SEC_BSS && i < |irs[s]|
    ensures EmittedAt(irs[s], addrs[s], labels, starts[s], i)
    ensures AlignsOf(irs[s], starts[s])
  {
    hide AllLinked, LaidOut, Placed, Bytes, Image, AddrBefore, SectionStart;
    StartDivides(irs, addrs, aligns, starts, labels, load, s);
    assert SectionLaid(irs[s], addrs[s], starts[s]) by { OneLaid(irs, addrs, aligns, starts, labels, load, s); }
    SizesMatch(irs, addrs, labels, s);
    ItemEmittedAt(irs[s], addrs[s], labels, starts[s], i);
  }

  lemma OneLaid(irs: seq<seq<Item>>, addrs: seq<seq<nat>>, aligns: seq<nat>, starts: seq<nat>, labels: Labels, load: nat, s: nat)
    requires Shaped(irs, addrs, aligns, starts) && WellSections(irs) && LaidOut(irs, addrs, aligns, starts, labels, load) && s < |irs|
    ensures SectionLaid(irs[s], addrs[s], starts[s]) && starts[s] == SectionStart(irs, aligns, load, s)
  {
  }

  lemma SizesMatch(irs: seq<seq<Item>>, addrs: seq<seq<nat>>, labels: Labels, s: nat)
    requires Placed(irs) && Addressed(irs, addrs) && AllLinked(irs, addrs, labels) && s < SEC_BSS
    ensures forall k | 0 <= k < |irs[s]| :: |Bytes(irs[s][k], labels)| == Size(irs[s][k])
  {
    forall k | 0 <= k < |irs[s]| ensures |Bytes(irs[s][k], labels)| == Size(irs[s][k]) {
      assert SectionLinked(irs[s], addrs[s], labels) && Linked(irs[s][k], addrs[s][k], labels);
      assert !irs[s][k].Bss?;
    }
  }

  lemma StartDivides(irs: seq<seq<Item>>, addrs: seq<seq<nat>>, aligns: seq<nat>, starts: seq<nat>, labels: Labels, load: nat, s: nat)
    requires Shaped(irs, addrs, aligns, starts) && WellSections(irs) && s < SECTION_COUNT
    requires LaidOut(irs, addrs, aligns, starts, labels, load)
    requires forall t | 0 <= t < SECTION_COUNT :: aligns[t] == RaisedAlign(irs[t], aligns[t], |irs[t]|)
    requires PowersOfTwo(aligns)
    ensures AlignsOf(irs[s], starts[s])
  {
    OneLaid(irs, addrs, aligns, starts, labels, load, s);
    var a := aligns[s];
    var before := if s == 0 then load else AddrBefore(irs[s - 1], SectionStart(irs, aligns, load, s - 1), |irs[s - 1]|);
    assert starts[s] == AlignSection(a, before);
    forall i | 0 <= i < |irs[s]| && irs[s][i].Align? ensures irs[s][i].align > 0 && starts[s] % irs[s][i].align == 0 {
      AlignsDivide(irs[s], a, |irs[s]|, i);
      var b := irs[s][i].align;
      if a > 1 {
        AlignUpIs(before, a);
        DividesTrans(starts[s], a, b);
      }
    }
  }

  lemma DividesTrans(x: nat, a: nat, b: nat)
    requires a > 0 && b > 0 && x % a == 0 && a % b == 0
    ensures x % b == 0
  {
    var p, q := x / a, a / b;
    assert x == p * a && a == q * b;
    assert x == (p * q) * b;
    MulMod(p * q, b);
  }

  // ----- The section without bytes -----

  lemma {:induction false} NoBss(o: Out, irs: seq<seq<Item>>, labels: Labels, s: nat, i: nat)
    requires |o.bufs| == 3 && Placed(irs) && s < SEC_BSS && i <= |irs[s]|
    ensures Emittable(irs[s], s) && EmitItems(o, s, irs[s], labels, i).bss == o.bss
  {
    assert Emittable(irs[s], s);
    if i > 0 {
      NoBss(o, irs, labels, s, i - 1);
    }
  }

  lemma {:induction false} BssGrows(o: Out, irs: seq<seq<Item>>, labels: Labels, start: nat, i: nat)
    requires |o.bufs| == 3 && o.bss == 0 && Placed(irs) && i <= |irs[SEC_BSS]|
    requires WellItems(irs[SEC_BSS]) && AlignsOf(irs[SEC_BSS], start)
    ensures Emittable(irs[SEC_BSS], SEC_BSS) && EmitItems(o, SEC_BSS, irs[SEC_BSS], labels, i).bss == AddrBefore(irs[SEC_BSS], start, i) - start
  {
    assert Emittable(irs[SEC_BSS], SEC_BSS);
    if i > 0 {
      BssGrows(o, irs, labels, start, i - 1);
      if irs[SEC_BSS][i - 1].Align? {
        AlignShift(EmitItems(o, SEC_BSS, irs[SEC_BSS], labels, i - 1).bss, start, irs[SEC_BSS][i - 1].align);
      }
    }
  }

  /** The size emitted for `.bss` is the room its items take in the layout. */
  lemma BssAgrees(irs: seq<seq<Item>>, addrs: seq<seq<nat>>, aligns: seq<nat>, starts: seq<nat>, labels: Labels, load: nat)
    requires Placed(irs) && Shaped(irs, addrs, aligns, starts) && WellSections(irs)
    requires LaidOut(irs, addrs, aligns, starts, labels, load)
    requires forall t | 0 <= t < SECTION_COUNT :: aligns[t] == RaisedAlign(irs[t], aligns[t], |irs[t]|)
    requires PowersOfTwo(aligns)
    ensures EmitSections(Out([[], [], []], 0), irs, labels, 4).bss == AddrBefore(irs[SEC_BSS], starts[SEC_BSS], |irs[SEC_BSS]|) - starts[SEC_BSS]
  {
    hide LaidOut, AddrBefore, EmitItems, RaisedAlign, SectionStart;
    var o := Out([[], [], []], 0);
    StartDivides(irs, addrs, aligns, starts, labels, load, SEC_BSS);
    assert EmitSections(o, irs, labels, 0) == o;
    NoBss(o, irs, labels, 0, |irs[0]|);
    NoBss(EmitSections(o, irs, labels, 1), irs, labels, 1, |irs[1]|);
    NoBss(EmitSections(o, irs, labels, 2), irs, labels, 2, |irs[2]|);
    BssGrows(EmitSections(o, irs, labels, 3), irs, labels, starts[SEC_BSS], |irs[SEC_BSS]|);
  }

  // ----- The addresses sections are loaded at -----

  function Max(a: nat, b: nat): nat {
    if a > b then a else b
  }

  /** `fix_section_size`: the addresses written to the program headers. */
  function FixedStarts(load: nat, codeSize: nat, rodataSize: nat, dataSize: nat, aligns: seq<nat>): (r: seq<nat>)
    requires |aligns| == SECTION_COUNT
    ensures |r| == SECTION_COUNT
  {
    var rodata := Up(load + codeSize, Max(aligns[SEC_RODATA], 1));
    var data := Up(rodata + rodataSize, Max(aligns[SEC_DATA], 1));
    [load, rodata, data, data + Up(dataSize, Max(aligns[SEC_BSS], 1))]
  }

  function Up(x: nat, align: nat): nat
    requires align > 0
  {
    AlignUpIs(x, align);
    AlignUp(x, align)
  }

  /**
   The loaded sections start where the layout put them exactly when the load
   address meets the code section's alignment and the data section starts at a
   multiple of the alignment of `.bss`.
   */
  lemma FixedStartsAgree(irs: seq<seq<Item>>, aligns: seq<nat>, load: nat)
    requires |irs| == |aligns| == SECTION_COUNT && WellSections(irs)
    ensures var st := seq(SECTION_COUNT, s requires 0 <= s < SECTION_COUNT => SectionStart(irs, aligns, load, s));
            var size := (s: nat) requires s < SECTION_COUNT => AddrBefore(irs[s], st[s], |irs[s]|) - st[s];
            FixedStarts(load, size(0), size(1), size(2), aligns) == st
            <==> load % Max(aligns[SEC_CODE], 1) == 0 && st[SEC_DATA] % Max(aligns[SEC_BSS], 1) == 0
  {
    hide Up, AddrBefore, AlignSection, FixedStarts;
    var st := seq(SECTION_COUNT, s requires 0 <= s < SECTION_COUNT => SectionStart(irs, aligns, load, s));
    var size := (s: nat) requires s < SECTION_COUNT => AddrBefore(irs[s], st[s], |irs[s]|) - st[s];
    UpIsAlignSection(aligns[0], load);
    UpIsAlignSection(aligns[1], st[0] + size(0));
    UpIsAlignSection(aligns[2], st[1] + size(1));
    UpIsAlignSection(aligns[3], st[2] + size(2));
    StartsAgree(load, size(0), size(1), size(2), aligns, st);
  }

  lemma StartsAgree(load: nat, code: nat, rodata: nat, data: nat, aligns: seq<nat>, st: seq<nat>)
    requires |aligns| == |st| == SECTION_COUNT
    requires st[0] == Up(load, Max(aligns[0], 1)) && st[1] == Up(st[0] + code, Max(aligns[1], 1))
    requires st[2] == Up(st[1] + rodata, Max(aligns[2], 1)) && st[3] == Up(st[2] + data, Max(aligns[3], 1))
    ensures FixedStarts(load, code, rodata, data, aligns) == st <==> load % Max(aligns[0], 1) == 0 && st[2] % Max(aligns[3], 1) == 0
  {
    hide Up;
    UpFixed(load, Max(aligns[0], 1));
    UpSum(data, st[2], Max(aligns[3], 1));
    var f := FixedStarts(load, code, rodata, data, aligns);
    if f == st {
      assert f[0] == st[0] && f[3] == st[3];
    }
  }

  lemma UpIsAlignSection(align: nat, x: nat)
    ensures AlignSection(align, x) == Up(x, Max(align, 1))
  {
  }

  lemma UpFixed(x: nat, a: nat)
    requires a > 0
    ensures Up(x, a) == x <==> x % a == 0
  {
    AlignUpIs(x, a);
    if x % a == 0 {
      AlignShift(0, x, a);
      assert AlignUp(0, a) == 0;
    }
  }

  lemma UpSum(x: nat, start: nat, a: nat)
    requires a > 0
    ensures start + Up(x, a) == Up(start + x, a) <==> start % a == 0
  {
    if start % a == 0 {
      AlignShift(x, start, a);
    } else if start + Up(x, a) == Up(start + x, a) {
      AlignUpIs(x, a);
      AlignUpIs(start + x, a);
      var p, q := AlignUp(x, a) / a, AlignUp(start + x, a) / a;
      assert start == (q - p) * a;
      MulMod(q - p, a);
    }
  }
}
