/**
 The open-addressing hash table: keys are interned names, compared by identity;
 a deleted key leaves a tombstone, which later insertions may fill.
 */
module HashTable {
  import opened Options

  type Bytes = seq<bv8>

  class Name {
    const chars: Bytes
    const hash: bv32

    constructor (chars: Bytes, hash: bv32)
      ensures this.chars == chars && this.hash == hash
    {
      this.chars, this.hash := chars, hash;
    }
  }

  datatype Entry<V> = Free | Tombstone | Full(key: Name, value: V)

  // ----- Probing -----

  /** Where a key's probing starts. */
  function Home(key: Name, capacity: nat): (h: nat)
    requires capacity > 0
    ensures h < capacity
  {
    (key.hash as nat) % capacity
  }

  /** `d` steps on from `h`, round the end. */
  function Pos(h: nat, d: nat, n: nat): (i: nat)
    requires h < n && d < n
    ensures i < n
  {
    if h + d < n then h + d else h + d - n
  }

  function Dist(h: nat, i: nat, n: nat): (d: nat)
    requires h < n && i < n
    ensures d < n && Pos(h, d, n) == i
  {
    if i >= h then i - h else i - h + n
  }

  lemma DistOf(h: nat, d: nat, n: nat)
    requires h < n && d < n
    ensures Dist(h, Pos(h, d, n), n) == d
    ensures d + 1 < n ==> Pos(h, d + 1, n) == (Pos(h, d, n) + 1) % n
  {
  }

  /** Nothing on the way from `h` stops probing before `i`. */
  ghost predicate Reaches<V>(es: seq<Entry<V>>, h: nat, i: nat)
    requires h < |es| && i < |es|
  {
    forall d | 0 <= d < Dist(h, i, |es|) :: !es[Pos(h, d, |es|)].Free?
  }

  ghost predicate Reachable<V>(es: seq<Entry<V>>, i: nat)
    requires i < |es|
  {
    es[i].Full? ==> Reaches(es, Home(es[i].key, |es|), i)
  }

  /** Entries in use, tombstones included. */
  function Taken<V>(es: seq<Entry<V>>): (n: nat)
    ensures n <= |es|
  {
    if es == [] then 0 else (if es[0].Free? then 0 else 1) + Taken(es[1..])
  }

  lemma {:induction false} TakenUpdate<V>(es: seq<Entry<V>>, i: nat, e: Entry<V>)
    requires i < |es|
    ensures Taken(es[i := e]) == Taken(es) - (if es[i].Free? then 0 else 1) + (if e.Free? then 0 else 1)
  {
    if i > 0 {
      assert es[i := e][1..] == es[1..][i - 1 := e];
      TakenUpdate(es[1..], i - 1, e);
    } else {
      assert es[i := e][1..] == es[1..];
    }
  }

  lemma {:induction false} SomeFree<V>(es: seq<Entry<V>>) returns (f: nat)
    requires Taken(es) < |es|
    ensures f < |es| && es[f].Free?
  {
    if es[0].Free? {
      f := 0;
    } else {
      f := SomeFree(es[1..]);
      f := f + 1;
    }
  }

  lemma {:induction false} AllFree<V>(es: seq<Entry<V>>)
    requires forall i | 0 <= i < |es| :: es[i].Free?
    ensures Taken(es) == 0
  {
    if es != [] {
      AllFree(es[1..]);
    }
  }

  lemma {:induction false} NoneTaken<V>(es: seq<Entry<V>>, i: nat)
    requires Taken(es) == 0 && i < |es|
    ensures es[i].Free?
  {
    if i > 0 {
      NoneTaken(es[1..], i - 1);
    }
  }

  // ----- The table's entries -----

  ghost predicate OnceEach<V>(es: seq<Entry<V>>) {
    forall i, j | 0 <= i < j < |es| && es[i].Full? && es[j].Full? :: es[i].key != es[j].key
  }

  ghost predicate AllReachable<V>(es: seq<Entry<V>>) {
    forall i | 0 <= i < |es| :: Reachable(es, i)
  }

  /** The keys and values of a table. */
  ghost predicate Holds<V>(es: seq<Entry<V>>, contents: map<Name, V>) {
    && (forall i | 0 <= i < |es| && es[i].Full? :: es[i].key in contents && contents[es[i].key] == es[i].value)
    && (forall k | k in contents :: HasKey(es, k))
  }

  ghost predicate HasKey<V>(es: seq<Entry<V>>, key: Name) {
    exists i :: 0 <= i < |es| && es[i].Full? && es[i].key == key
  }

  ghost predicate Consistent<V>(es: seq<Entry<V>>, contents: map<Name, V>) {
    OnceEach(es) && AllReachable(es) && Holds(es, contents)
  }

  /** Where a key is, or where it would go: the first tombstone on its way, or the free entry that ends it. */
  ghost predicate IsPlace<V>(es: seq<Entry<V>>, key: Name, r: nat) {
    && r < |es|
    && Reaches(es, Home(key, |es|), r)
    && (es[r].Full? ==> es[r].key == key)
    && (!es[r].Full? ==> !HasKey(es, key))
  }

  /** Passing `d` entries without the key or a free one: the key lies further on. */
  lemma NotBefore<V>(es: seq<Entry<V>>, key: Name, d: nat)
    requires |es| > 0 && AllReachable(es) && d < |es|
    requires forall e | 0 <= e < d :: var x := es[Pos(Home(key, |es|), e, |es|)]; !(x.Full? && x.key == key)
    requires es[Pos(Home(key, |es|), d, |es|)].Free?
    ensures !HasKey(es, key)
  {
    var h, n := Home(key, |es|), |es|;
    forall i | 0 <= i < n ensures !(es[i].Full? && es[i].key == key) {
      assert Reachable(es, i);
      assert Pos(h, Dist(h, i, n), n) == i;
    }
  }

  /** Filling a key's place. */
  lemma PutKeeps<V>(es: seq<Entry<V>>, contents: map<Name, V>, key: Name, value: V, r: nat)
    requires Consistent(es, contents) && IsPlace(es, key, r)
    ensures Consistent(es[r := Full(key, value)], contents[key := value])
    ensures es[r].Full? <==> key in contents
  {
    var fs := es[r := Full(key, value)];
    assert es[r].Full? ==> HasKey(es, key);
    forall i | 0 <= i < |fs| ensures Reachable(fs, i) {
      assert Reachable(es, i);
    }
    forall k | k in contents[key := value] ensures HasKey(fs, k) {
      if k == key {
        assert fs[r].Full? && fs[r].key == key;
      } else {
        assert HasKey(es, k);
        var i :| 0 <= i < |es| && es[i].Full? && es[i].key == k;
        assert i != r;
        assert fs[i] == es[i];
      }
    }
  }

  /** A tombstone in a key's place. */
  lemma DeleteKeeps<V>(es: seq<Entry<V>>, contents: map<Name, V>, key: Name, r: nat)
    requires Consistent(es, contents) && IsPlace(es, key, r) && es[r].Full?
    ensures Consistent(es[r := Tombstone], contents - {key}) && key in contents
  {
    var fs := es[r := Tombstone];
    forall i | 0 <= i < |fs| ensures Reachable(fs, i) {
      assert Reachable(es, i);
    }
    forall k | k in contents - {key} ensures HasKey(fs, k) {
      assert HasKey(es, k);
      var i :| 0 <= i < |es| && es[i].Full? && es[i].key == k;
      assert i != r && fs[i] == es[i];
    }
  }

  class Table<V> {
    var entries: array<Entry<V>>
    var count: nat
    ghost var contents: map<Name, V>

    /** Live keys and tombstones fill at most half of the entries. */
    ghost predicate Valid()
      reads this, entries
    {
      && Consistent(entries[..], contents)
      && count == Taken(entries[..])
      && (entries.Length > 0 ==> entries.Length >= 15 && 2 * count <= entries.Length)
    }

    constructor ()
      ensures Valid() && contents == map[] && fresh(entries)
    {
      entries, count, contents := new Entry<V>[0], 0, map[];
    }

    /** `find_entry` */
    static method FindEntry(entries: array<Entry<V>>, key: Name) returns (r: nat)
      requires AllReachable(entries[..]) && OnceEach(entries[..]) && Taken(entries[..]) < entries.Length
      ensures IsPlace(entries[..], key, r)
    {
      hide OnceEach, Taken, AllReachable;
      ghost var es, n := entries[..], entries.Length;
      ghost var h := Home(key, n);
      ghost var f := SomeFree(es);
      ghost var d := 0;
      var tombstone: Option<nat> := None;
      var index := Home(key, entries.Length);
      while true
        invariant 0 <= d < n && index == Pos(h, d, n) && d <= Dist(h, f, n)
        invariant forall e | 0 <= e < d :: var x := es[Pos(h, e, n)]; !x.Free? && !(x.Full? && x.key == key)
        invariant tombstone.Some? ==> tombstone.value < n && es[tombstone.value].Tombstone? && Dist(h, tombstone.value, n) < d
        decreases n - d
      {
        match entries[index] {
          case Free =>
            NotBefore(es, key, d);
            DistOf(h, d, n);
            return if tombstone.Some? then tombstone.value else index;
          case Tombstone =>
            if tombstone.None? {
              tombstone := Some(index);
            }
          case Full(k, _) =>
            if k == key {
              DistOf(h, d, n);
              return index;
            }
        }
        DistOf(h, d, n);
        assert es[f].Free? && Pos(h, Dist(h, f, n), n) == f;
        index := (index + 1) % entries.Length;
        d := d + 1;
      }
    }

    method AdjustCapacity(newCapacity: nat)
      requires Valid() && newCapacity >= 15 && 2 * count <= newCapacity
      modifies this
      ensures Valid() && contents == old(contents) && fresh(entries)
      ensures entries.Length == newCapacity && count <= old(count)
    {
      hide OnceEach, AllReachable, Taken, HasKey, IsPlace, Holds, Copied;
      var newEntries := new Entry<V>[newCapacity](_ => Free);
      var newCount := 0;
      ghost var es := entries[..];
      ghost var done: map<Name, V> := map[];
      EmptyIsConsistent(newEntries[..]);
      CopiedStart(es);
      for i := 0 to entries.Length
        invariant es == entries[..] && entries == old(entries) && contents == old(contents) && count == old(count)
        invariant fresh(newEntries) && newEntries.Length == newCapacity
        invariant Consistent(newEntries[..], done) && newCount == Taken(newEntries[..])
        invariant forall k | 0 <= k < newCapacity :: !newEntries[k].Tombstone?
        invariant newCount <= Taken(es[..i])
        invariant Copied(es, done, i)
      {
        TakenPrefix(es, i);
        CopiedNext(es, done, i);
        match entries[i] {
          case Full(key, value) =>
            var dest := Table<V>.FindEntry(newEntries, key);
            PlaceInRange(newEntries[..], key, dest);
            PutKeeps(newEntries[..], done, key, value, dest);
            TakenUpdate(newEntries[..], dest, Full(key, value));
            NewKey(es, done, i);
            ghost var before := newEntries[..];
            newEntries[dest] := Full(key, value);
            assert newEntries[..] == before[dest := Full(key, value)];
            newCount := newCount + 1;
            done := done[key := value];
          case _ =>
        }
      }
      assert es[..|es|] == es;
      AllCopied(es, done, contents);
      entries, count := newEntries, newCount;
    }

    method Get(key: Name) returns (r: Option<V>)
      requires Valid()
      ensures r == if key in contents then Some(contents[key]) else None
    {
      if count == 0 {
        NothingThere(entries[..], contents);
        return None;
      }
      var i := FindEntry(entries, key);
      PlaceTells(entries[..], contents, key, i);
      match entries[i] {
        case Full(_, value) => return Some(value);
        case _ => return None;
      }
    }

    /** Returns whether the key is new. */
    method Put(key: Name, value: V) returns (isNew: bool)
      requires Valid()
      modifies this, entries
      ensures Valid() && contents == old(contents)[key := value] && (entries == old(entries) || fresh(entries))
      ensures isNew <==> key !in old(contents)
    {
      hide OnceEach, AllReachable, Taken, HasKey, Holds, IsPlace;
      if count >= entries.Length / 2 {
        var capacity := entries.Length * 2 - 1;
        if capacity < 15 {
          capacity := 15;
        }
        NoTakenIn(entries[..]);
        AdjustCapacity(capacity);
      }
      var i := FindEntry(entries, key);
      PlaceInRange(entries[..], key, i);
      PutKeeps(entries[..], contents, key, value, i);
      TakenUpdate(entries[..], i, Full(key, value));
      isNew := !entries[i].Full?;
      if entries[i].Free? {
        count := count + 1;
      }
      ghost var before := entries[..];
      entries[i] := Full(key, value);
      assert entries[..] == before[i := Full(key, value)];
      contents := contents[key := value];
    }

    method Delete(key: Name) returns (found: bool)
      requires Valid()
      modifies this`contents, entries
      ensures Valid() && contents == old(contents) - {key}
      ensures found <==> key in old(contents)
    {
      hide OnceEach, AllReachable, Taken, HasKey, Holds, IsPlace;
      if count == 0 {
        NothingThere(entries[..], contents);
        return false;
      }
      var i := FindEntry(entries, key);
      PlaceInRange(entries[..], key, i);
      if !entries[i].Full? {
        PlaceTells(entries[..], contents, key, i);
        return false;
      }
      DeleteKeeps(entries[..], contents, key, i);
      TakenUpdate(entries[..], i, Tombstone);
      ghost var before := entries[..];
      entries[i] := Tombstone;
      assert entries[..] == before[i := Tombstone];
      contents := contents - {key};
      return true;
    }

    /** The next live entry from `start` on, and where to go on from; `None` at the end. */
    method Iterate(start: nat) returns (r: Option<(nat, Name, V)>)
      requires Valid()
      ensures match r
              case None => forall k | start <= k < entries.Length :: !entries[k].Full?
              case Some((next, key, value)) =>
                && start < next <= entries.Length && entries[next - 1] == Full(key, value)
                && forall k | start <= k < next - 1 :: !entries[k].Full?
    {
      var i := start;
      while i < entries.Length
        invariant start <= i && forall k | start <= k < i && k < entries.Length :: !entries[k].Full?
      {
        match entries[i] {
          case Full(key, value) => return Some((i + 1, key, value));
          case _ =>
        }
        i := i + 1;
      }
      return None;
    }

    /** The loop around `table_iterate`: every live key is visited once, with its value. */
    method VisitAll() returns (visited: seq<(Name, V)>)
      requires Valid()
      ensures forall i, j | 0 <= i < j < |visited| :: visited[i].0 != visited[j].0
      ensures forall i | 0 <= i < |visited| :: visited[i].0 in contents && contents[visited[i].0] == visited[i].1
      ensures forall k | k in contents :: exists i :: 0 <= i < |visited| && visited[i].0 == k
    {
      visited := [];
      ghost var at: seq<nat> := [];
      var it := 0;
      while true
        invariant it <= entries.Length && |at| == |visited|
        invariant forall i | 0 <= i < |at| :: at[i] < it && entries[at[i]] == Full(visited[i].0, visited[i].1)
        invariant forall i, j | 0 <= i < j < |at| :: at[i] < at[j]
        invariant forall k | 0 <= k < it && entries[k].Full? :: k in at
        decreases entries.Length - it
      {
        var r := Iterate(it);
        if r.None? {
          forall k | k in contents ensures exists i :: 0 <= i < |visited| && visited[i].0 == k {
            assert HasKey(entries[..], k);
            var e :| 0 <= e < entries.Length && entries[e].Full? && entries[e].key == k;
            assert e in at;
            var i :| 0 <= i < |at| && at[i] == e;
            assert visited[i].0 == k;
          }
          return;
        }
        var (next, key, value) := r.value;
        visited := visited + [(key, value)];
        at := at + [next - 1];
        it := next;
      }
    }
  }

  lemma EmptyIsConsistent<V>(es: seq<Entry<V>>)
    requires forall i | 0 <= i < |es| :: es[i].Free?
    ensures Consistent(es, map[]) && Taken(es) == 0
  {
    AllFree(es);
  }

  lemma {:induction false} TakenPrefix<V>(es: seq<Entry<V>>, i: nat)
    requires i <= |es|
    ensures Taken(es[..i]) <= Taken(es)
    ensures i < |es| ==> Taken(es[..i + 1]) == Taken(es[..i]) + (if es[i].Free? then 0 else 1)
  {
    if i > 0 {
      assert es[..i][1..] == es[1..][..i - 1];
      if i < |es| {
        assert es[..i + 1][1..] == es[1..][..i];
      }
      TakenPrefix(es[1..], i - 1);
    } else if |es| > 0 {
      assert es[..1] == [es[0]] && es[..0] == [];
    }
  }

  /** The live entries before `i` are in `done`, and nothing else is. */
  ghost predicate Copied<V>(es: seq<Entry<V>>, done: map<Name, V>, i: nat)
    requires i <= |es|
  {
    && (forall j | 0 <= j < i && es[j].Full? :: es[j].key in done && done[es[j].key] == es[j].value)
    && (forall k | k in done :: HasKey(es[..i], k))
  }

  lemma CopiedStart<V>(es: seq<Entry<V>>)
    ensures Copied(es, map[], 0) && Taken(es[..0]) == 0
  {
  }

  lemma NewKey<V>(es: seq<Entry<V>>, done: map<Name, V>, i: nat)
    requires OnceEach(es) && i < |es| && es[i].Full? && Copied(es, done, i)
    ensures es[i].key !in done
  {
    forall k | k in done ensures k != es[i].key {
      assert HasKey(es[..i], k);
    }
  }

  lemma CopiedNext<V>(es: seq<Entry<V>>, done: map<Name, V>, i: nat)
    requires OnceEach(es) && i < |es| && Copied(es, done, i)
    ensures Copied(es, if es[i].Full? then done[es[i].key := es[i].value] else done, i + 1)
  {
    var after := if es[i].Full? then done[es[i].key := es[i].value] else done;
    forall k | k in after ensures HasKey(es[..i + 1], k) {
      if es[i].Full? && k == es[i].key {
        assert es[..i + 1][i].key == k;
      } else {
        assert HasKey(es[..i], k);
        var j :| 0 <= j < i && es[j].Full? && es[j].key == k;
        assert es[..i + 1][j] == es[j];
      }
    }
  }

  lemma AllCopied<V>(es: seq<Entry<V>>, done: map<Name, V>, contents: map<Name, V>)
    requires Copied(es, done, |es|) && Holds(es, contents)
    ensures done == contents
  {
    assert es[..|es|] == es;
    forall k | k in done ensures k in contents && contents[k] == done[k] {
      assert HasKey(es, k);
    }
    forall k | k in contents ensures k in done {
      assert HasKey(es, k);
    }
  }

  lemma NothingThere<V>(es: seq<Entry<V>>, contents: map<Name, V>)
    requires Consistent(es, contents) && Taken(es) == 0
    ensures contents == map[]
  {
    forall k | k in contents ensures false {
      assert HasKey(es, k);
      var i :| 0 <= i < |es| && es[i].Full? && es[i].key == k;
      NoneTaken(es, i);
    }
  }

  lemma PlaceTells<V>(es: seq<Entry<V>>, contents: map<Name, V>, key: Name, r: nat)
    requires Consistent(es, contents) && IsPlace(es, key, r)
    ensures r < |es| && if es[r].Full? then key in contents && contents[key] == es[r].value else key !in contents
  {
  }

  lemma PlaceInRange<V>(es: seq<Entry<V>>, key: Name, r: nat)
    requires IsPlace(es, key, r)
    ensures r < |es|
  {
  }

  lemma NoTakenIn<V>(es: seq<Entry<V>>)
    ensures Taken(es) <= |es|
  {
  }
}
