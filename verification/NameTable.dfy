/** Interned names: equal byte strings have the same name, so names compare by identity. */
module NameTable {
  import opened HashTable

  function Mix(hash: bv32, byte: bv8): bv32 {
    (hash ^ (byte as bv32)) * 16777619
  }

  /** FNV-1a, from `hash` on. */
  function Fnv1a(chars: Bytes, hash: bv32): bv32 {
    if chars == [] then hash else Fnv1a(chars[1..], Mix(hash, chars[0]))
  }

  function HashOf(chars: Bytes): bv32 {
    Fnv1a(chars, 2166136261)
  }

  /** Values of FNV-1a in 32 bits: of no bytes, of "a" and of "foobar". */
  lemma HashValues()
    ensures HashOf([]) == 0x811c9dc5
    ensures HashOf([0x61]) == 0xe40c292c
    ensures HashOf([0x66, 0x6f, 0x6f, 0x62, 0x61, 0x72]) == 0xbf9cf968
  {
    var s: Bytes := [0x66, 0x6f, 0x6f, 0x62, 0x61, 0x72];
    var h := HashOf([]);
    assert [0x61][1..] == [] && Fnv1a([0x61], h) == Fnv1a([], Mix(h, 0x61));
    var a := Mix(h, 0x66);
    var b := Mix(a, 0x6f);
    var c := Mix(b, 0x6f);
    var d := Mix(c, 0x62);
    var e := Mix(d, 0x61);
    assert s[1..][1..] == s[2..] && s[2..][1..] == s[3..] && s[3..][1..] == s[4..] && s[4..][1..] == s[5..] && s[5..][1..] == [];
    assert Fnv1a(s, h) == Fnv1a(s[1..], a) == Fnv1a(s[2..], b) == Fnv1a(s[3..], c) == Fnv1a(s[4..], d) == Fnv1a(s[5..], e) == Mix(e, 0x72);
  }

  /** `hash_string` */
  method HashString(chars: Bytes) returns (hash: bv32)
    ensures hash == HashOf(chars)
  {
    hide Mix;
    hash := 2166136261;
    for i := 0 to |chars|
      invariant Fnv1a(chars[i..], hash) == HashOf(chars)
    {
      assert chars[i..][1..] == chars[i + 1..];
      hash := Mix(hash, chars[i]);
    }
  }

  ghost predicate Interned(names: map<Name, Name>) {
    && (forall k | k in names :: names[k] == k && k.hash == HashOf(k.chars))
    && (forall j, k | j in names && k in names && j.chars == k.chars :: j == k)
  }

  /** `equal_name` compares what the names spell. */
  lemma EqualName(names: map<Name, Name>, j: Name, k: Name)
    requires Interned(names) && j in names && k in names
    ensures j == k <==> j.chars == k.chars
  {
  }

  ghost predicate Spelt(names: map<Name, Name>, chars: Bytes) {
    exists k :: k in names && k.chars == chars
  }

  class NameTable {
    const table: Table<Name>

    ghost predicate Valid()
      reads this, table, table.entries
    {
      table.Valid() && Interned(table.contents)
    }

    constructor ()
      ensures Valid() && table.contents == map[] && fresh(table) && fresh(table.entries)
    {
      table := new Table<Name>();
    }

    /** `find_name_table`: probing goes by hash, length and bytes. */
    method FindNameTable(chars: Bytes, hash: bv32) returns (r: Name?)
      requires Valid() && hash == HashOf(chars)
      ensures r == null ==> !Spelt(table.contents, chars)
      ensures r != null ==> r in table.contents && r.chars == chars
    {
      hide OnceEach, Taken, AllReachable, Fnv1a;
      if table.count == 0 {
        NothingThere(table.entries[..], table.contents);
        return null;
      }
      ghost var es, n := table.entries[..], table.entries.Length;
      ghost var h := (hash as nat) % n;
      ghost var f := SomeFree(es);
      ghost var d := 0;
      var index := (hash as nat) % table.entries.Length;
      while true
        invariant 0 <= d < n && index == Pos(h, d, n) && d <= Dist(h, f, n)
        invariant forall e | 0 <= e < d :: var x := es[Pos(h, e, n)]; !x.Free? && !(x.Full? && x.key.chars == chars)
        decreases n - d
      {
        match table.entries[index] {
          case Free =>
            NotSpelt(es, table.contents, chars, h, d);
            return null;
          case Full(key, _) =>
            if |key.chars| == |chars| && key.hash == hash && key.chars == chars {
              return key;
            }
          case Tombstone =>
        }
        DistOf(h, d, n);
        assert es[f].Free? && Pos(h, Dist(h, f, n), n) == f;
        index := (index + 1) % table.entries.Length;
        d := d + 1;
      }
    }

    /** `alloc_name`: the name that spells `chars`, made when there is none. */
    method AllocName(chars: Bytes) returns (name: Name)
      requires Valid()
      modifies table, table.entries
      ensures Valid() && name.chars == chars && name in table.contents
      ensures Spelt(old(table.contents), chars) ==> name in old(table.contents) && table.contents == old(table.contents)
      ensures !Spelt(old(table.contents), chars) ==> fresh(name) && table.contents == old(table.contents)[name := name]
      ensures table.entries == old(table.entries) || fresh(table.entries)
    {
      var hash := HashString(chars);
      var found := FindNameTable(chars, hash);
      if found != null {
        return found;
      }
      name := new Name(chars, hash);
      var isNew := table.Put(name, name);
    }
  }

  lemma NotSpelt(es: seq<Entry<Name>>, names: map<Name, Name>, chars: Bytes, h: nat, d: nat)
    requires Consistent(es, names) && Interned(names) && d < |es| && h == (HashOf(chars) as nat) % |es|
    requires forall e | 0 <= e < d :: var x := es[Pos(h, e, |es|)]; !(x.Full? && x.key.chars == chars)
    requires es[Pos(h, d, |es|)].Free?
    ensures !Spelt(names, chars)
  {
    forall k | k in names ensures k.chars != chars {
      assert HasKey(es, k);
      if k.chars == chars {
        NotBefore(es, k, d);
      }
    }
  }
}
